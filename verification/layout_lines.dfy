/**
 * The line list of a position (docs/translated/layout.js): `Layout.putStone`,
 * `Layout.prototype.removeStone`, `Layout.addLine` and the searches of
 * `getStone` and `availables`.
 *
 * A position keeps one Line per board line that holds a stone.  The model
 * reads such a list as a board: `CellOf(ls, d, sq)` is what the line through
 * `sq` in direction d says about `sq` (empty when there is no such line), and
 * `Represents(ls, m)` says that in every direction this is the stone the map
 * `m` from squares to colours puts there.
 */
module LayoutLines {
  import opened Base4
  import opened Wrappers
  import opened LineGeometry
  import opened Sorting
  import opened Lines

  /** The index of the first line numbered `number` at or after index i: the search loop of layout.js. */
  function FindFrom(ls: seq<Line>, number: nat, i: nat): (r: Option<nat>)
    decreases |ls| - i
    ensures r.Some? ==> i <= r.value < |ls| && ls[r.value].number == number
    ensures forall k :: i <= k < |ls| && (r.None? || k < r.value) ==> ls[k].number != number
  {
    if i >= |ls| then None
    else if ls[i].number == number then Some(i)
    else FindFrom(ls, number, i + 1)
  }

  function FindLine(ls: seq<Line>, number: nat): Option<nat>
  {
    FindFrom(ls, number, 0)
  }

  /** No two lines of the list have the same number. */
  predicate UniqueNumbers(ls: seq<Line>)
  {
    forall i, j :: 0 <= i < j < |ls| ==> ls[i].number != ls[j].number
  }

  /** The numbers strictly increase along the list. */
  predicate Increasing(ls: seq<Line>)
  {
    forall i, j :: 0 <= i < j < |ls| ==> ls[i].number < ls[j].number
  }

  /** Every line is a valid line holding at least one stone, and no number occurs twice. */
  ghost predicate LinesOk(ls: seq<Line>)
  {
    && UniqueNumbers(ls)
    && (forall i :: 0 <= i < |ls| ==> Valid(ls[i]) && ls[i].stroke != 0)
  }

  /** The two bits the line through `sq` in direction d keeps for `sq`; 0 without such a line. */
  function CellOf(ls: seq<Line>, d: int, sq: nat): nat
    requires OnBoard(sq) && 0 <= d < 4
  {
    match FindLine(ls, LineNumber(d, sq))
    case None => 0
    case Some(i) => Cell(ls[i].stroke, LineOffset(d, sq))
  }

  /** A board: squares mapped to the colour of their stone (0 white, 1 black). */
  ghost predicate IsBoard(m: map<nat, int>)
  {
    forall sq :: sq in m ==> OnBoard(sq) && (m[sq] == 0 || m[sq] == 1)
  }

  /** The two bits a square of the board shows: `hand + 1`, or 0 when empty. */
  function Occupant(m: map<nat, int>, sq: nat): int
  {
    if sq in m then m[sq] + 1 else 0
  }

  /** The lines show the board m, in all four directions. */
  ghost predicate Represents(ls: seq<Line>, m: map<nat, int>)
  {
    && LinesOk(ls)
    && IsBoard(m)
    && (forall d, sq {:trigger CellOf(ls, d, sq)} :: 0 <= d < 4 && OnBoard(sq) ==> CellOf(ls, d, sq) == Occupant(m, sq))
  }

  lemma {:induction false} FindFromStart(ls: seq<Line>, number: nat, i: nat)
    requires i <= |ls| && forall k :: 0 <= k < i ==> ls[k].number != number
    ensures FindFrom(ls, number, i) == FindLine(ls, number)
    decreases i
  {
    if i > 0 {
      FindFromStart(ls, number, i - 1);
    }
  }

  /** With unique numbers, the search finds a line exactly where it is. */
  lemma FindUnique(ls: seq<Line>, number: nat, i: nat)
    requires UniqueNumbers(ls) && i < |ls| && ls[i].number == number
    ensures FindLine(ls, number) == Some(i)
  {
  }

  /** Replacing a line by one with the same number does not move any search. */
  lemma FindUpdate(ls: seq<Line>, i: nat, l: Line, number: nat)
    requires i < |ls| && l.number == ls[i].number
    ensures FindLine(ls[i := l], number) == FindLine(ls, number)
  {
    var r := FindLine(ls[i := l], number);
    var s := FindLine(ls, number);
    if r.Some? {
      assert ls[r.value].number == number;
    }
    if s.Some? {
      assert ls[i := l][s.value].number == number;
    }
  }

  /** Appending a line only adds the answer for its own number when that number was missing. */
  lemma FindAppend(ls: seq<Line>, l: Line, number: nat)
    ensures FindLine(ls + [l], number) ==
      if FindLine(ls, number).Some? then FindLine(ls, number)
      else if l.number == number then Some(|ls|) else None
  {
    var r := FindLine(ls + [l], number);
    var s := FindLine(ls, number);
    if s.Some? {
      assert (ls + [l])[s.value].number == number;
    }
    if r.Some? && r.value < |ls| {
      assert ls[r.value].number == number;
    }
    if l.number == number {
      assert (ls + [l])[|ls|].number == number;
    }
  }

  /** Two squares on the same line at the same offset are the same square. */
  lemma SameCell(d: int, sq: nat, sq': nat)
    requires 0 <= d < 4 && OnBoard(sq) && OnBoard(sq')
    requires LineNumber(d, sq) == LineNumber(d, sq') && LineOffset(d, sq) == LineOffset(d, sq')
    ensures sq == sq'
  {
    SquareOnLines(d, sq);
    SquareOnLines(d, sq');
  }

  /**
   * One pass of the direction loop of `Layout.putStone`: put the stone on the
   * line through `sq` in direction d, or append a new line holding it.
   */
  function PutDirection(ls: seq<Line>, sq: nat, hand: int, d: int): Result<seq<Line>, string>
    requires OnBoard(sq) && 0 <= d < 4 && (hand == 0 || hand == 1)
  {
    var number := LineNumber(d, sq);
    var offset := LineOffset(d, sq);
    match FindLine(ls, number)
    case None => Success(ls + [NewLine(number, offset, hand)])
    case Some(i) =>
      match Lines.PutStone(ls[i], offset, hand)
      case Failure(e) => Failure(e)
      case Success(l) => Success(ls[i := l])
  }

  /** The direction loop of `Layout.putStone` from direction d on. */
  function PutFrom(ls: seq<Line>, sq: nat, hand: int, d: nat): Result<seq<Line>, string>
    requires OnBoard(sq) && (hand == 0 || hand == 1)
    decreases 4 - d
  {
    if d >= 4 then Success(ls)
    else
      match PutDirection(ls, sq, hand, d)
      case Failure(e) => Failure(e)
      case Success(ls') => PutFrom(ls', sq, hand, d + 1)
  }

  /** The lines after `Layout.putStone(lines, square, hand)`, or the RangeError it throws. */
  function WithStone(ls: seq<Line>, sq: nat, hand: int): Result<seq<Line>, string>
    requires OnBoard(sq) && (hand == 0 || hand == 1)
  {
    PutFrom(ls, sq, hand, 0)
  }

  /**
   * `Layout.putStone(lines, square, hand)`.  The source updates the array in
   * place; here the updated list is returned.
   */
  method PutStone(ls: seq<Line>, sq: nat, hand: int) returns (r: Result<seq<Line>, string>)
    requires OnBoard(sq) && (hand == 0 || hand == 1)
    ensures r == WithStone(ls, sq, hand)
  {
    var lines := ls;
    var direction := 0;
    while direction < 4
      invariant 0 <= direction <= 4
      invariant WithStone(ls, sq, hand) == PutFrom(lines, sq, hand, direction)
    {
      var number := LineNumber(direction, sq);
      var offset := LineOffset(direction, sq);
      var i := 0;
      while i < |lines|
        invariant 0 <= i <= |lines|
        invariant FindFrom(lines, number, i) == FindLine(lines, number)
      {
        var line := lines[i];
        if line.number == number {
          var put := Lines.PutStone(line, offset, hand);
          if put.Failure? {
            return Failure(put.error);
          }
          lines := lines[i := put.value];
          break;
        }
        i := i + 1;
      }
      if i == |lines| {
        lines := lines + [NewLine(number, offset, hand)];
      }
      direction := direction + 1;
    }
    r := Success(lines);
  }

  /**
   * Part way through the direction loop for an empty square: the lines of
   * directions below d already show the stone, the others still show m.
   */
  ghost predicate PutPart(ls: seq<Line>, m: map<nat, int>, sq: nat, hand: int, d: int)
    requires OnBoard(sq)
  {
    && LinesOk(ls)
    && IsBoard(m)
    && sq !in m
    && (forall e, sq' :: 0 <= e < 4 && OnBoard(sq') ==>
          CellOf(ls, e, sq') == if e < d && sq' == sq then hand + 1 else Occupant(m, sq'))
  }

  /** One direction step keeps the lines consistent and touches only the line through the square. */
  lemma PutDirectionStep(ls: seq<Line>, m: map<nat, int>, sq: nat, hand: int, d: int)
    requires OnBoard(sq) && 0 <= d < 4 && (hand == 0 || hand == 1)
    requires PutPart(ls, m, sq, hand, d)
    ensures PutDirection(ls, sq, hand, d).Success?
    ensures PutPart(PutDirection(ls, sq, hand, d).value, m, sq, hand, d + 1)
    ensures forall x :: x in ls && !OnSameLine(x.number, sq) ==> x in PutDirection(ls, sq, hand, d).value
    ensures forall x :: x in PutDirection(ls, sq, hand, d).value ==> x in ls || OnSameLine(x.number, sq)
  {
    var number := LineNumber(d, sq);
    var offset := LineOffset(d, sq);
    SquareOnLines(d, sq);
    assert CellOf(ls, d, sq) == 0;
    match FindLine(ls, number)
    case None =>
      AppendStep(ls, m, sq, hand, d);
    case Some(i) =>
      UpdateStep(ls, m, sq, hand, d, i);
  }

  /** The direction step when the square's line is missing: a new line is appended. */
  lemma AppendStep(ls: seq<Line>, m: map<nat, int>, sq: nat, hand: int, d: int)
    requires OnBoard(sq) && 0 <= d < 4 && (hand == 0 || hand == 1)
    requires PutPart(ls, m, sq, hand, d) && FindLine(ls, LineNumber(d, sq)).None?
    ensures PutPart(ls + [NewLine(LineNumber(d, sq), LineOffset(d, sq), hand)], m, sq, hand, d + 1)
  {
    var number := LineNumber(d, sq);
    var offset := LineOffset(d, sq);
    var nl := NewLine(number, offset, hand);
    var r := ls + [nl];
    NewLineSpec(number, offset, hand);
    assert LinesOk(r) by {
      assert forall k :: 0 <= k < |ls| ==> ls[k].number != number;
    }
    forall e, sq' | 0 <= e < 4 && OnBoard(sq')
      ensures CellOf(r, e, sq') == if e < d + 1 && sq' == sq then hand + 1 else Occupant(m, sq')
    {
      AppendCell(ls, m, sq, hand, d, e, sq');
    }
  }

  lemma AppendCell(ls: seq<Line>, m: map<nat, int>, sq: nat, hand: int, d: int, e: int, sq': nat)
    requires OnBoard(sq) && 0 <= d < 4 && (hand == 0 || hand == 1)
    requires PutPart(ls, m, sq, hand, d) && FindLine(ls, LineNumber(d, sq)).None?
    requires 0 <= e < 4 && OnBoard(sq')
    ensures var r := ls + [NewLine(LineNumber(d, sq), LineOffset(d, sq), hand)];
      CellOf(r, e, sq') == if e < d + 1 && sq' == sq then hand + 1 else Occupant(m, sq')
  {
    var number := LineNumber(d, sq);
    var offset := LineOffset(d, sq);
    var nl := NewLine(number, offset, hand);
    var r := ls + [nl];
    NewLineSpec(number, offset, hand);
    FindAppend(ls, nl, LineNumber(e, sq'));
    assert CellOf(ls, e, sq') == if e < d && sq' == sq then hand + 1 else Occupant(m, sq');
    if LineNumber(e, sq') == number {
      assert e == d;
      assert CellOf(r, e, sq') == Cell(nl.stroke, LineOffset(d, sq'));
      if LineOffset(d, sq') == offset {
        SameCell(d, sq, sq');
      }
    } else {
      assert CellOf(r, e, sq') == CellOf(ls, e, sq');
    }
  }

  /** The direction step when the square's line exists: the stone is put on it. */
  lemma UpdateStep(ls: seq<Line>, m: map<nat, int>, sq: nat, hand: int, d: int, i: nat)
    requires OnBoard(sq) && 0 <= d < 4 && (hand == 0 || hand == 1)
    requires PutPart(ls, m, sq, hand, d) && FindLine(ls, LineNumber(d, sq)) == Some(i)
    ensures Lines.PutStone(ls[i], LineOffset(d, sq), hand).Success?
    ensures PutPart(ls[i := Lines.PutStone(ls[i], LineOffset(d, sq), hand).value], m, sq, hand, d + 1)
    ensures forall x :: x in ls && !OnSameLine(x.number, sq) ==>
      x in ls[i := Lines.PutStone(ls[i], LineOffset(d, sq), hand).value]
  {
    var offset := LineOffset(d, sq);
    SquareOnLines(d, sq);
    assert CellOf(ls, d, sq) == 0;
    PutStoneSpec(ls[i], offset, hand);
    var l := Lines.PutStone(ls[i], offset, hand).value;
    var r := ls[i := l];
    assert l.number == ls[i].number;
    UpdateLinesOk(ls, i, l);
    forall e, sq' | 0 <= e < 4 && OnBoard(sq')
      ensures CellOf(r, e, sq') == if e < d + 1 && sq' == sq then hand + 1 else Occupant(m, sq')
    {
      UpdateCell(ls, m, sq, hand, d, i, e, sq');
    }
    assert OnSameLine(ls[i].number, sq);
    UpdateKeeps(ls, i, l);
  }

  /** A line in place of one with the same number keeps every number, and so their uniqueness. */
  lemma SameNumbers(ls: seq<Line>, i: nat, l: Line)
    requires i < |ls| && l.number == ls[i].number
    ensures forall k :: 0 <= k < |ls| ==> ls[i := l][k].number == ls[k].number
    ensures UniqueNumbers(ls) ==> UniqueNumbers(ls[i := l])
  {
  }

  /** A valid line with stones in place of a line of the same number keeps the lines consistent. */
  lemma UpdateLinesOk(ls: seq<Line>, i: nat, l: Line)
    requires LinesOk(ls) && i < |ls| && l.number == ls[i].number && Valid(l) && l.stroke != 0
    ensures LinesOk(ls[i := l])
  {
  }

  /** Replacing the line at `i` keeps every other line of the list. */
  lemma UpdateKeeps(ls: seq<Line>, i: nat, l: Line)
    requires i < |ls|
    ensures forall x :: x in ls && x != ls[i] ==> x in ls[i := l]
  {
    forall x | x in ls && x != ls[i]
      ensures x in ls[i := l]
    {
      var k :| 0 <= k < |ls| && ls[k] == x;
      assert ls[i := l][k] == x;
    }
  }

  lemma UpdateCell(ls: seq<Line>, m: map<nat, int>, sq: nat, hand: int, d: int, i: nat, e: int, sq': nat)
    requires OnBoard(sq) && 0 <= d < 4 && (hand == 0 || hand == 1)
    requires PutPart(ls, m, sq, hand, d) && FindLine(ls, LineNumber(d, sq)) == Some(i)
    requires Cell(ls[i].stroke, LineOffset(d, sq)) == 0
    requires 0 <= e < 4 && OnBoard(sq')
    ensures var r := ls[i := Lines.PutStone(ls[i], LineOffset(d, sq), hand).value];
      CellOf(r, e, sq') == if e < d + 1 && sq' == sq then hand + 1 else Occupant(m, sq')
  {
    var number := LineNumber(d, sq);
    var offset := LineOffset(d, sq);
    PutStoneSpec(ls[i], offset, hand);
    var l := Lines.PutStone(ls[i], offset, hand).value;
    var r := ls[i := l];
    FindUpdate(ls, i, l, LineNumber(e, sq'));
    assert CellOf(ls, e, sq') == if e < d && sq' == sq then hand + 1 else Occupant(m, sq');
    if LineNumber(e, sq') == number {
      assert e == d;
      assert CellOf(r, e, sq') == Cell(l.stroke, LineOffset(d, sq'));
      assert CellOf(ls, e, sq') == Cell(ls[i].stroke, LineOffset(d, sq'));
      if LineOffset(d, sq') == offset {
        SameCell(d, sq, sq');
      }
    } else {
      match FindLine(ls, LineNumber(e, sq'))
      case None =>
      case Some(k) =>
        assert k != i;
        assert r[k] == ls[k];
    }
  }

  /**
   * `Layout.putStone` on lines showing the board m throws exactly when the
   * square is occupied; otherwise the lines show m with the new stone, and
   * the only lines that change or appear are lines through the square.
   */
  lemma PutStoneBoard(ls: seq<Line>, m: map<nat, int>, sq: nat, hand: int)
    requires Represents(ls, m) && OnBoard(sq) && (hand == 0 || hand == 1)
    ensures WithStone(ls, sq, hand).Failure? <==> sq in m
    ensures WithStone(ls, sq, hand).Success? ==>
      var r := WithStone(ls, sq, hand).value;
      && Represents(r, m[sq := hand])
      && (forall x :: x in ls && !OnSameLine(x.number, sq) ==> x in r)
      && (forall x :: x in r ==> x in ls || OnSameLine(x.number, sq))
  {
    if sq in m {
      PutStoneOccupied(ls, m, sq, hand);
    } else {
      PutStoneFree(ls, m, sq, hand);
    }
  }

  /** On an occupied square `putStone` throws. */
  lemma PutStoneOccupied(ls: seq<Line>, m: map<nat, int>, sq: nat, hand: int)
    requires Represents(ls, m) && OnBoard(sq) && (hand == 0 || hand == 1) && sq in m
    ensures WithStone(ls, sq, hand).Failure?
  {
    var number := LineNumber(0, sq);
    assert CellOf(ls, 0, sq) != 0;
    var i := FindLine(ls, number).value;
    PutStoneSpec(ls[i], LineOffset(0, sq), hand);
  }

  /** On an empty square `putStone` succeeds with lines showing the board with the new stone. */
  lemma PutStoneFree(ls: seq<Line>, m: map<nat, int>, sq: nat, hand: int)
    requires Represents(ls, m) && OnBoard(sq) && (hand == 0 || hand == 1) && sq !in m
    ensures WithStone(ls, sq, hand).Success?
    ensures var r := WithStone(ls, sq, hand).value;
      && Represents(r, m[sq := hand])
      && (forall x :: x in ls && !OnSameLine(x.number, sq) ==> x in r)
      && (forall x :: x in r ==> x in ls || OnSameLine(x.number, sq))
  {
    PutFromSpec(ls, ls, m, sq, hand, 0);
    PartDone(WithStone(ls, sq, hand).value, m, sq, hand);
  }

  /** With the stone written in all four directions, the lines show the board with the stone. */
  lemma PartDone(ls: seq<Line>, m: map<nat, int>, sq: nat, hand: int)
    requires OnBoard(sq) && (hand == 0 || hand == 1) && PutPart(ls, m, sq, hand, 4)
    ensures Represents(ls, m[sq := hand])
  {
    forall d, sq' | 0 <= d < 4 && OnBoard(sq')
      ensures CellOf(ls, d, sq') == Occupant(m[sq := hand], sq')
    {
    }
  }

  lemma {:induction false} PutFromSpec(ls0: seq<Line>, ls: seq<Line>, m: map<nat, int>, sq: nat, hand: int, d: nat)
    requires OnBoard(sq) && d <= 4 && (hand == 0 || hand == 1)
    requires PutPart(ls, m, sq, hand, d)
    requires forall x :: x in ls0 && !OnSameLine(x.number, sq) ==> x in ls
    requires forall x :: x in ls ==> x in ls0 || OnSameLine(x.number, sq)
    ensures PutFrom(ls, sq, hand, d).Success?
    ensures PutPart(PutFrom(ls, sq, hand, d).value, m, sq, hand, 4)
    ensures forall x :: x in ls0 && !OnSameLine(x.number, sq) ==> x in PutFrom(ls, sq, hand, d).value
    ensures forall x :: x in PutFrom(ls, sq, hand, d).value ==> x in ls0 || OnSameLine(x.number, sq)
    decreases 4 - d
  {
    if d < 4 {
      PutDirectionStep(ls, m, sq, hand, d);
      PutFromSpec(ls0, PutDirection(ls, sq, hand, d).value, m, sq, hand, d + 1);
    }
  }

  /** With unique numbers a line occurs at most once. */
  lemma {:induction false} OccursOnce(a: seq<Line>, x: Line)
    requires UniqueNumbers(a)
    ensures multiset(a)[x] <= 1
  {
    if a != [] {
      var n := |a| - 1;
      assert a == a[..n] + [a[n]];
      OccursOnce(a[..n], x);
    }
  }

  lemma TwoCopies(b: seq<Line>, i: nat, j: nat)
    requires i < j < |b| && b[i] == b[j]
    ensures multiset(b)[b[i]] >= 2
  {
    assert b == b[..j] + [b[j]] + b[j + 1..];
    assert b[..j][i] == b[i];
  }

  /** A reordering of a list with unique numbers has unique numbers. */
  lemma PermutationUnique(a: seq<Line>, b: seq<Line>)
    requires UniqueNumbers(a) && multiset(a) == multiset(b)
    ensures UniqueNumbers(b)
  {
    forall i, j | 0 <= i < j < |b|
      ensures b[i].number != b[j].number
    {
      if b[i].number == b[j].number {
        assert b[i] in multiset(a) && b[j] in multiset(a);
        var p :| 0 <= p < |a| && a[p] == b[i];
        var q :| 0 <= q < |a| && a[q] == b[j];
        if p == q {
          TwoCopies(b, i, j);
          OccursOnce(a, b[i]);
        }
      }
    }
  }

  /** The board a list of lines shows does not depend on their order. */
  lemma PermutationRepresents(a: seq<Line>, b: seq<Line>, m: map<nat, int>)
    requires Represents(a, m) && multiset(a) == multiset(b)
    ensures Represents(b, m)
  {
    PermutationUnique(a, b);
    forall k | 0 <= k < |b|
      ensures b[k] in a
    {
      assert b[k] in multiset(a);
    }
    forall d, sq | 0 <= d < 4 && OnBoard(sq)
      ensures CellOf(b, d, sq) == CellOf(a, d, sq)
    {
      var n := LineNumber(d, sq);
      if FindLine(a, n).Some? {
        var p := FindLine(a, n).value;
        assert a[p] in multiset(b);
        var q :| 0 <= q < |b| && b[q] == a[p];
        FindUnique(b, n, q);
      }
    }
  }

  /** Sorted by `Line.Comparator` with unique numbers: the numbers increase. */
  lemma SortedIncreasing(b: seq<Line>)
    requires UniqueNumbers(b) && SortedBy(b, LineOrder())
    ensures Increasing(b)
  {
    forall i, j | 0 <= i < j < |b|
      ensures b[i].number < b[j].number
    {
      assert LineOrder()(b[i], b[j]);
    }
  }

  /**
   * `ls.sort(Line.Comparator)` on lines showing m: the sorted lines show the
   * same board and their numbers increase.
   */
  lemma SortLinesRepresents(ls: seq<Line>, m: map<nat, int>)
    requires Represents(ls, m)
    ensures Represents(Sort(ls, LineOrder()), m) && Increasing(Sort(ls, LineOrder()))
  {
    var b := Sort(ls, LineOrder());
    SortPermutes(ls, LineOrder());
    PermutationRepresents(ls, b, m);
    SortSorted(ls, LineOrder());
    SortedIncreasing(b);
  }

  // ---------------------------------------------------------------------------
  // addLine

  /**
   * The list `Layout.addLine(lines, line)` returns: `line` goes in front of
   * the first line with a greater number, or at the end when there is none.
   */
  function Inserted(ls: seq<Line>, n: Line): seq<Line>
  {
    if ls == [] then [n]
    else if ls[0].number > n.number then [n] + ls
    else [ls[0]] + Inserted(ls[1..], n)
  }

  /**
   * `Layout.addLine(lines, line)`: copy the lines, slipping `line` in once
   * (the flag j) before the first greater number, or appending it.
   */
  method AddLine(lines: seq<Line>, n: Line) returns (r: seq<Line>)
    ensures r == Inserted(lines, n)
  {
    r := [];
    var j := 0;
    var i := 0;
    while i < |lines|
      invariant 0 <= i <= |lines| && (j == 0 || j == 1)
      invariant j == 0 ==> r == lines[..i] && Inserted(lines, n) == r + Inserted(lines[i..], n)
      invariant j == 1 ==> Inserted(lines, n) == r + lines[i..]
    {
      var m := lines[i];
      if j == 0 && m.number > n.number {
        InsertedBefore(r, lines, i, n);
        r := r + [n];
        j := j + 1;
      } else if j == 0 {
        InsertedPast(r, lines, i, n);
      } else {
        CopiedPast(r, lines, i);
      }
      r := r + [m];
      i := i + 1;
    }
    if j == 0 {
      r := r + [n];
    }
  }

  /** Before the first line numbered above n's, the insertion puts n and then copies the rest. */
  lemma InsertedBefore(r: seq<Line>, ls: seq<Line>, i: nat, n: Line)
    requires i < |ls| && ls[i].number > n.number
    ensures r + Inserted(ls[i..], n) == (r + [n] + [ls[i]]) + ls[i + 1..]
  {
    assert ls[i..] == [ls[i]] + ls[i + 1..];
  }

  /** Past a line numbered at most n's, the insertion goes on in the rest of the list. */
  lemma InsertedPast(r: seq<Line>, ls: seq<Line>, i: nat, n: Line)
    requires i < |ls| && ls[i].number <= n.number
    ensures r + Inserted(ls[i..], n) == (r + [ls[i]]) + Inserted(ls[i + 1..], n)
    ensures ls[..i + 1] == ls[..i] + [ls[i]]
  {
    assert ls[i..][1..] == ls[i + 1..];
  }

  /** Once n is in, the copy takes the lines one by one. */
  lemma CopiedPast(r: seq<Line>, ls: seq<Line>, i: nat)
    requires i < |ls|
    ensures r + ls[i..] == (r + [ls[i]]) + ls[i + 1..]
  {
    assert ls[i..] == [ls[i]] + ls[i + 1..];
  }

  /** `addLine` adds exactly the one line to the list. */
  lemma {:induction false} InsertedElements(ls: seq<Line>, n: Line)
    ensures multiset(Inserted(ls, n)) == multiset(ls) + multiset{n}
  {
    if ls != [] && ls[0].number <= n.number {
      InsertedElements(ls[1..], n);
      assert ls == [ls[0]] + ls[1..];
    }
  }

  /**
   * Into lines of increasing number, a line with a number not among them
   * goes where the numbers keep increasing.
   */
  lemma {:induction false} InsertedIncreasing(ls: seq<Line>, n: Line)
    requires Increasing(ls)
    requires forall k :: 0 <= k < |ls| ==> ls[k].number != n.number
    ensures Increasing(Inserted(ls, n))
  {
    if ls != [] && ls[0].number <= n.number {
      var tail := Inserted(ls[1..], n);
      InsertedIncreasing(ls[1..], n);
      InsertedElements(ls[1..], n);
      forall k | 0 <= k < |tail|
        ensures ls[0].number < tail[k].number
      {
        assert tail[k] in multiset(ls[1..]) + multiset{n};
        if tail[k] != n {
          assert tail[k] in ls[1..];
        }
      }
    }
  }

  /**
   * On lines of increasing number, `addLine` agrees with `addLine_`, which
   * appends the line and sorts with `Line.Comparator`.
   */
  lemma InsertedSorted(ls: seq<Line>, n: Line)
    requires Increasing(ls)
    requires forall k :: 0 <= k < |ls| ==> ls[k].number != n.number
    ensures Inserted(ls, n) == Sort(ls + [n], LineOrder())
  {
    var a := Inserted(ls, n);
    var b := Sort(ls + [n], LineOrder());
    InsertedIncreasing(ls, n);
    InsertedElements(ls, n);
    SortPermutes(ls + [n], LineOrder());
    SortSorted(ls + [n], LineOrder());
    assert UniqueNumbers(a);
    PermutationUnique(a, b);
    SortedIncreasing(b);
    forall x
      ensures x in a <==> x in b
    {
      assert x in a <==> x in multiset(a);
      assert x in b <==> x in multiset(b);
    }
    IncreasingSameElements(a, b);
  }

  /** One pass of the direction loop of `removeStone`: take the stone off the line through `sq`, if there is one. */
  function RemoveDirection(ls: seq<Line>, sq: nat, hand: int, d: int): Result<seq<Line>, string>
    requires OnBoard(sq) && 0 <= d < 4 && (hand == 0 || hand == 1)
  {
    match FindLine(ls, LineNumber(d, sq))
    case None => Success(ls)
    case Some(i) =>
      match Lines.RemoveStone(ls[i], LineOffset(d, sq), hand)
      case Failure(e) => Failure(e)
      case Success(l) => Success(ls[i := l])
  }

  /** The direction loop of `removeStone` from direction d on. */
  function RemoveFrom(ls: seq<Line>, sq: nat, hand: int, d: nat): Result<seq<Line>, string>
    requires OnBoard(sq) && (hand == 0 || hand == 1)
    decreases 4 - d
  {
    if d >= 4 then Success(ls)
    else
      match RemoveDirection(ls, sq, hand, d)
      case Failure(e) => Failure(e)
      case Success(ls') => RemoveFrom(ls', sq, hand, d + 1)
  }

  /** The lines whose stroke is not 0, in order. */
  function NonEmpty(ls: seq<Line>): seq<Line>
  {
    if ls == [] then []
    else (if ls[0].stroke != 0 then [ls[0]] else []) + NonEmpty(ls[1..])
  }

  /**
   * The lines `Layout.prototype.removeStone(square)` returns when the last
   * move was made by `hand`, or the RangeError it throws.
   */
  function WithoutStone(ls: seq<Line>, sq: nat, hand: int): Result<seq<Line>, string>
    requires OnBoard(sq) && (hand == 0 || hand == 1)
  {
    match RemoveFrom(ls, sq, hand, 0)
    case Failure(e) => Failure(e)
    case Success(ls') => Success(NonEmpty(ls'))
  }

  /**
   * `Layout.prototype.removeStone(square)` for the stone of `hand`, the side
   * that moved last (the source reads the lines as `this.linse`, which is
   * `this.lines` misspelt).
   */
  method RemoveStone(ls: seq<Line>, sq: nat, hand: int) returns (r: Result<seq<Line>, string>)
    requires OnBoard(sq) && (hand == 0 || hand == 1)
    ensures r == WithoutStone(ls, sq, hand)
  {
    var lines := ls;
    var direction := 0;
    while direction < 4
      invariant 0 <= direction <= 4
      invariant RemoveFrom(ls, sq, hand, 0) == RemoveFrom(lines, sq, hand, direction)
    {
      var number := LineNumber(direction, sq);
      var offset := LineOffset(direction, sq);
      var i := 0;
      while i < |lines|
        invariant 0 <= i <= |lines|
        invariant FindFrom(lines, number, i) == FindLine(lines, number)
      {
        var line := lines[i];
        if line.number == number {
          var removed := Lines.RemoveStone(line, offset, hand);
          if removed.Failure? {
            return Failure(removed.error);
          }
          lines := lines[i := removed.value];
          break;
        }
        i := i + 1;
      }
      direction := direction + 1;
    }
    var rs := KeepNonEmpty(lines);
    r := Success(rs);
  }

  /** The `forEach` of `removeStone` that drops the lines left without stones. */
  method KeepNonEmpty(lines: seq<Line>) returns (rs: seq<Line>)
    ensures rs == NonEmpty(lines)
  {
    rs := [];
    var k := 0;
    while k < |lines|
      invariant 0 <= k <= |lines|
      invariant rs + NonEmpty(lines[k..]) == NonEmpty(lines)
    {
      assert lines[k..][1..] == lines[k + 1..];
      if lines[k].stroke != 0 {
        rs := rs + [lines[k]];
      }
      k := k + 1;
    }
    assert lines[k..] == [];
  }

  /** The filter keeps exactly the lines with stones, in their order. */
  lemma NonEmptySpec(ls: seq<Line>)
    ensures forall x :: x in NonEmpty(ls) <==> x in ls && x.stroke != 0
    ensures Increasing(ls) ==> Increasing(NonEmpty(ls))
    ensures UniqueNumbers(ls) ==> UniqueNumbers(NonEmpty(ls))
  {
    NonEmptyMembers(ls);
    if Increasing(ls) {
      NonEmptyIncreasing(ls);
    }
    if UniqueNumbers(ls) {
      NonEmptyUnique(ls);
    }
  }

  lemma {:induction false} NonEmptyMembers(ls: seq<Line>)
    ensures forall x :: x in NonEmpty(ls) <==> x in ls && x.stroke != 0
  {
    if ls != [] {
      NonEmptyMembers(ls[1..]);
      assert forall x :: x in ls <==> x == ls[0] || x in ls[1..];
      assert NonEmpty(ls) == (if ls[0].stroke != 0 then [ls[0]] else []) + NonEmpty(ls[1..]);
    }
  }

  lemma {:induction false} NonEmptyIncreasing(ls: seq<Line>)
    requires Increasing(ls)
    ensures Increasing(NonEmpty(ls))
  {
    if ls != [] {
      var tail := NonEmpty(ls[1..]);
      NonEmptyIncreasing(ls[1..]);
      if ls[0].stroke != 0 {
        NonEmptyMembers(ls[1..]);
        var r := [ls[0]] + tail;
        assert NonEmpty(ls) == r;
        forall i, j | 0 <= i < j < |r|
          ensures r[i].number < r[j].number
        {
          if i == 0 {
            assert r[j] in ls[1..];
          } else {
            assert r[i] == tail[i - 1] && r[j] == tail[j - 1];
          }
        }
      } else {
        assert NonEmpty(ls) == tail;
      }
    }
  }

  lemma {:induction false} NonEmptyUnique(ls: seq<Line>)
    requires UniqueNumbers(ls)
    ensures UniqueNumbers(NonEmpty(ls))
  {
    if ls != [] {
      var tail := NonEmpty(ls[1..]);
      NonEmptyUnique(ls[1..]);
      if ls[0].stroke != 0 {
        NonEmptyMembers(ls[1..]);
        var r := [ls[0]] + tail;
        assert NonEmpty(ls) == r;
        forall i, j | 0 <= i < j < |r|
          ensures r[i].number != r[j].number
        {
          if i == 0 {
            assert r[j] in ls[1..];
          } else {
            assert r[i] == tail[i - 1] && r[j] == tail[j - 1];
          }
        }
      } else {
        assert NonEmpty(ls) == tail;
      }
    }
  }

  /** A list whose lines all hold stones passes the filter unchanged. */
  lemma {:induction false} NonEmptyAll(ls: seq<Line>)
    requires forall k :: 0 <= k < |ls| ==> ls[k].stroke != 0
    ensures NonEmpty(ls) == ls
  {
    if ls != [] {
      NonEmptyAll(ls[1..]);
    }
  }

  /** Dropping the lines without stones does not change what any square shows. */
  lemma CellOfNonEmpty(ls: seq<Line>, d: int, sq: nat)
    requires UniqueNumbers(ls) && OnBoard(sq) && 0 <= d < 4
    ensures CellOf(NonEmpty(ls), d, sq) == CellOf(ls, d, sq)
  {
    NonEmptySpec(ls);
    var ne := NonEmpty(ls);
    var n := LineNumber(d, sq);
    if FindLine(ne, n).Some? {
      var j := FindLine(ne, n).value;
      assert ne[j] in ls;
      var k :| 0 <= k < |ls| && ls[k] == ne[j];
      FindUnique(ls, n, k);
    } else if FindLine(ls, n).Some? {
      CellZero(LineOffset(d, sq));
    }
  }

  /**
   * Part way through the direction loop of `removeStone` for a stone of
   * `hand`: the lines of directions below d no longer show it.
   */
  ghost predicate RemovePart(ls: seq<Line>, m: map<nat, int>, sq: nat, hand: int, d: int)
    requires OnBoard(sq)
  {
    && UniqueNumbers(ls)
    && (forall k :: 0 <= k < |ls| ==> Valid(ls[k]))
    && IsBoard(m)
    && sq in m && m[sq] == hand
    && (forall e, sq' :: 0 <= e < 4 && OnBoard(sq') ==>
          CellOf(ls, e, sq') == if e < d && sq' == sq then 0 else Occupant(m, sq'))
  }

  lemma RemoveCell(ls: seq<Line>, m: map<nat, int>, sq: nat, hand: int, d: int, i: nat, e: int, sq': nat)
    requires OnBoard(sq) && 0 <= d < 4 && (hand == 0 || hand == 1)
    requires RemovePart(ls, m, sq, hand, d) && FindLine(ls, LineNumber(d, sq)) == Some(i)
    requires Cell(ls[i].stroke, LineOffset(d, sq)) == StoneBits(hand)
    requires 0 <= e < 4 && OnBoard(sq')
    ensures var r := ls[i := Lines.RemoveStone(ls[i], LineOffset(d, sq), hand).value];
      CellOf(r, e, sq') == if e < d + 1 && sq' == sq then 0 else Occupant(m, sq')
  {
    var number := LineNumber(d, sq);
    var offset := LineOffset(d, sq);
    RemoveStoneSpec(ls[i], offset, hand);
    var l := Lines.RemoveStone(ls[i], offset, hand).value;
    var r := ls[i := l];
    FindUpdate(ls, i, l, LineNumber(e, sq'));
    assert CellOf(ls, e, sq') == if e < d && sq' == sq then 0 else Occupant(m, sq');
    if LineNumber(e, sq') == number {
      assert e == d;
      assert CellOf(r, e, sq') == Cell(l.stroke, LineOffset(d, sq'));
      assert CellOf(ls, e, sq') == Cell(ls[i].stroke, LineOffset(d, sq'));
      if LineOffset(d, sq') == offset {
        SameCell(d, sq, sq');
      }
    } else {
      match FindLine(ls, LineNumber(e, sq'))
      case None =>
      case Some(k) =>
        assert k != i;
        assert r[k] == ls[k];
    }
  }

  /** One direction step of `removeStone` takes the stone off the line through the square and keeps the other lines in place. */
  lemma RemoveStep(ls: seq<Line>, m: map<nat, int>, sq: nat, hand: int, d: int)
    requires OnBoard(sq) && 0 <= d < 4 && (hand == 0 || hand == 1)
    requires RemovePart(ls, m, sq, hand, d)
    ensures RemoveDirection(ls, sq, hand, d).Success?
    ensures var r := RemoveDirection(ls, sq, hand, d).value;
      && RemovePart(r, m, sq, hand, d + 1)
      && |r| == |ls|
      && (forall k :: 0 <= k < |ls| ==> r[k].number == ls[k].number)
      && (forall k :: 0 <= k < |ls| && !OnSameLine(ls[k].number, sq) ==> r[k] == ls[k])
  {
    var number := LineNumber(d, sq);
    var offset := LineOffset(d, sq);
    SquareOnLines(d, sq);
    assert CellOf(ls, d, sq) == hand + 1;
    var i := FindLine(ls, number).value;
    RemoveStoneSpec(ls[i], offset, hand);
    var l := Lines.RemoveStone(ls[i], offset, hand).value;
    var r := ls[i := l];
    assert l.number == ls[i].number == number;
    SameNumbers(ls, i, l);
    forall e, sq' | 0 <= e < 4 && OnBoard(sq')
      ensures CellOf(r, e, sq') == if e < d + 1 && sq' == sq then 0 else Occupant(m, sq')
    {
      RemoveCell(ls, m, sq, hand, d, i, e, sq');
    }
  }

  lemma {:induction false} RemoveFromSpec(ls: seq<Line>, m: map<nat, int>, sq: nat, hand: int, d: nat)
    requires OnBoard(sq) && d <= 4 && (hand == 0 || hand == 1)
    requires RemovePart(ls, m, sq, hand, d)
    ensures RemoveFrom(ls, sq, hand, d).Success?
    ensures var r := RemoveFrom(ls, sq, hand, d).value;
      && RemovePart(r, m, sq, hand, 4)
      && |r| == |ls|
      && (forall k :: 0 <= k < |ls| ==> r[k].number == ls[k].number)
      && (forall k :: 0 <= k < |ls| && !OnSameLine(ls[k].number, sq) ==> r[k] == ls[k])
    decreases 4 - d
  {
    if d < 4 {
      RemoveStep(ls, m, sq, hand, d);
      RemoveFromSpec(RemoveDirection(ls, sq, hand, d).value, m, sq, hand, d + 1);
    }
  }

  /** For an empty square the loop throws at the first line through the square, and otherwise changes nothing. */
  lemma {:induction false} RemoveFromAbsent(ls: seq<Line>, m: map<nat, int>, sq: nat, hand: int, d: nat)
    requires Represents(ls, m) && OnBoard(sq) && sq !in m && d <= 4 && (hand == 0 || hand == 1)
    ensures RemoveFrom(ls, sq, hand, d).Failure? <==>
      exists e :: d <= e < 4 && FindLine(ls, LineNumber(e, sq)).Some?
    ensures RemoveFrom(ls, sq, hand, d).Success? ==> RemoveFrom(ls, sq, hand, d).value == ls
    decreases 4 - d
  {
    if d < 4 {
      RemoveFromAbsent(ls, m, sq, hand, d + 1);
      if FindLine(ls, LineNumber(d, sq)).Some? {
        SquareOnLines(d, sq);
        assert CellOf(ls, d, sq) == 0;
      }
    }
  }

  /**
   * `removeStone` on lines showing m, for the stone of `hand`: on a square
   * holding a stone it throws exactly when the stone is not `hand`'s, and
   * otherwise gives lines showing m without that stone, with the lines left
   * empty dropped and the order kept.  On an empty square it throws exactly
   * when a line passes through the square, and otherwise changes nothing.
   */
  lemma RemoveStoneBoard(ls: seq<Line>, m: map<nat, int>, sq: nat, hand: int)
    requires Represents(ls, m) && OnBoard(sq) && (hand == 0 || hand == 1)
    ensures sq in m ==> (WithoutStone(ls, sq, hand).Failure? <==> m[sq] != hand)
    ensures sq !in m ==> (WithoutStone(ls, sq, hand).Failure? <==>
      exists d :: 0 <= d < 4 && FindLine(ls, LineNumber(d, sq)).Some?)
    ensures sq !in m && WithoutStone(ls, sq, hand).Success? ==> WithoutStone(ls, sq, hand).value == ls
    ensures sq in m && WithoutStone(ls, sq, hand).Success? ==>
      var r := WithoutStone(ls, sq, hand).value;
      && Represents(r, m - {sq})
      && (Increasing(ls) ==> Increasing(r))
      && (forall x :: x in ls && !OnSameLine(x.number, sq) ==> x in r)
      && (forall x :: x in r ==> x in ls || OnSameLine(x.number, sq))
  {
    if sq !in m {
      RemoveFromAbsent(ls, m, sq, hand, 0);
      NonEmptyAll(ls);
    } else if m[sq] != hand {
      SquareOnLines(0, sq);
      assert CellOf(ls, 0, sq) == m[sq] + 1;
    } else {
      RemovePresent(ls, m, sq, hand);
    }
  }

  lemma RemovePresent(ls: seq<Line>, m: map<nat, int>, sq: nat, hand: int)
    requires Represents(ls, m) && OnBoard(sq) && (hand == 0 || hand == 1) && sq in m && m[sq] == hand
    ensures WithoutStone(ls, sq, hand).Success?
    ensures var r := WithoutStone(ls, sq, hand).value;
      && Represents(r, m - {sq})
      && (Increasing(ls) ==> Increasing(r))
      && (forall x :: x in ls && !OnSameLine(x.number, sq) ==> x in r)
      && (forall x :: x in r ==> x in ls || OnSameLine(x.number, sq))
  {
    RemoveFromSpec(ls, m, sq, hand, 0);
    var ls4 := RemoveFrom(ls, sq, hand, 0).value;
    var r := NonEmpty(ls4);
    NonEmptySpec(ls4);
    RemovedBoard(ls4, m, sq, hand);
    RemovedLines(ls, ls4, sq);
  }

  /** Lines replaced in place by lines of the same number, only on the square's lines, then filtered. */
  lemma RemovedLines(ls: seq<Line>, ls4: seq<Line>, sq: nat)
    requires OnBoard(sq) && |ls4| == |ls|
    requires forall k :: 0 <= k < |ls| ==> ls4[k].number == ls[k].number
    requires forall k :: 0 <= k < |ls| && !OnSameLine(ls[k].number, sq) ==> ls4[k] == ls[k]
    requires forall k :: 0 <= k < |ls| ==> ls[k].stroke != 0
    ensures var r := NonEmpty(ls4);
      && (Increasing(ls) ==> Increasing(r))
      && (forall x :: x in ls && !OnSameLine(x.number, sq) ==> x in r)
      && (forall x :: x in r ==> x in ls || OnSameLine(x.number, sq))
  {
    var r := NonEmpty(ls4);
    NonEmptySpec(ls4);
    forall x | x in ls && !OnSameLine(x.number, sq)
      ensures x in r
    {
      var k :| 0 <= k < |ls| && ls[k] == x;
      assert ls4[k] == x;
    }
    forall x | x in r
      ensures x in ls || OnSameLine(x.number, sq)
    {
      var k :| 0 <= k < |ls4| && ls4[k] == x;
      if !OnSameLine(ls[k].number, sq) {
        assert ls[k] == x;
      }
    }
    if Increasing(ls) {
      assert Increasing(ls4);
    }
  }

  lemma OccupantRemove(m: map<nat, int>, sq: nat, sq': nat)
    ensures Occupant(m - {sq}, sq') == if sq' == sq then 0 else Occupant(m, sq')
  {
  }

  /** Once all four lines dropped the stone, the lines with stones left show the board without it. */
  lemma RemovedBoard(ls: seq<Line>, m: map<nat, int>, sq: nat, hand: int)
    requires OnBoard(sq) && RemovePart(ls, m, sq, hand, 4)
    ensures Represents(NonEmpty(ls), m - {sq})
  {
    var r := NonEmpty(ls);
    NonEmptySpec(ls);
    forall d, sq' | 0 <= d < 4 && OnBoard(sq')
      ensures CellOf(r, d, sq') == Occupant(m - {sq}, sq')
    {
      CellOfNonEmpty(ls, d, sq');
      assert CellOf(ls, d, sq') == if sq' == sq then 0 else Occupant(m, sq');
      OccupantRemove(m, sq, sq');
    }
    forall k | 0 <= k < |r|
      ensures Valid(r[k]) && r[k].stroke != 0
    {
      assert r[k] in ls;
    }
  }

  /** Each cell of a line in a list showing m is what m puts on the square at that offset. */
  lemma LineCell(a: seq<Line>, m: map<nat, int>, i: nat, j: nat)
    requires Represents(a, m) && i < |a| && j < LineLength(a[i].number)
    ensures ValidLine(a[i].number)
    ensures Cell(a[i].stroke, j) == Occupant(m, PosSquare(a[i].number, j))
  {
    var n := a[i].number;
    assert Valid(a[i]);
    var sq := PosSquare(n, j);
    PosSquareOnLine(n, j);
    FindUnique(a, n, i);
    assert CellOf(a, n / 32, sq) == Cell(a[i].stroke, j);
  }

  /** A line is fixed by its number and the board it shows. */
  lemma LineDetermined(a: seq<Line>, b: seq<Line>, m: map<nat, int>, i: nat, k: nat)
    requires Represents(a, m) && Represents(b, m)
    requires i < |a| && k < |b| && a[i].number == b[k].number
    ensures a[i] == b[k]
  {
    var x := a[i];
    var y := b[k];
    assert Valid(x) && Valid(y);
    var len := LineLength(x.number) as nat;
    forall j | 0 <= j < len
      ensures Cell(x.stroke, j) == Cell(y.stroke, j)
    {
      LineCell(a, m, i, j);
      LineCell(b, m, k, j);
    }
    CellsDetermine(x.stroke, y.stroke, len);
    forall j | 0 <= j < len
      ensures Cell(x.inverse, j) == Cell(y.inverse, j)
    {
      assert Cell(x.inverse, len - 1 - (len - 1 - j)) == Cell(x.stroke, len - 1 - j);
      assert Cell(y.inverse, len - 1 - (len - 1 - j)) == Cell(y.stroke, len - 1 - j);
    }
    CellsDetermine(x.inverse, y.inverse, len);
  }

  /** The lines of a list showing m are exactly the board lines on which m has a stone. */
  lemma LinePresent(a: seq<Line>, b: seq<Line>, m: map<nat, int>, i: nat)
    requires Represents(a, m) && Represents(b, m) && i < |a|
    ensures FindLine(b, a[i].number).Some?
  {
    var x := a[i];
    assert Valid(x) && x.stroke != 0;
    var j := SomeCellNonEmpty(x.stroke);
    NonEmptyCellBelow(x.stroke, LineLength(x.number) as nat, j);
    LineCell(a, m, i, j);
    var sq := PosSquare(x.number, j);
    PosSquareOnLine(x.number, j);
    assert CellOf(b, x.number / 32, sq) != 0;
  }

  /** Two lists ordered by increasing number with the same elements are the same list. */
  lemma {:induction false} IncreasingSameElements(a: seq<Line>, b: seq<Line>)
    requires Increasing(a) && Increasing(b)
    requires forall x :: x in a <==> x in b
    ensures a == b
    decreases |a|
  {
    if a != [] {
      assert a[0] in b;
      assert b != [] && b[0] in a;
      var p :| 0 <= p < |a| && a[p] == b[0];
      var q :| 0 <= q < |b| && b[q] == a[0];
      assert a[0] == b[0];
      forall x
        ensures x in a[1..] <==> x in b[1..]
      {
        assert x in a <==> x == a[0] || x in a[1..];
        assert x in b <==> x == b[0] || x in b[1..];
        if x in a[1..] {
          var r :| 1 <= r < |a| && a[r] == x;
        }
        if x in b[1..] {
          var r :| 1 <= r < |b| && b[r] == x;
        }
      }
      IncreasingSameElements(a[1..], b[1..]);
    } else if b != [] {
      FirstIn(b);
      assert false;
    }
  }

  /**
   * The line list of a position is canonical: two lists in increasing
   * number order that show the same board are equal.
   */
  lemma RepresentsUnique(a: seq<Line>, b: seq<Line>, m: map<nat, int>)
    requires Represents(a, m) && Represents(b, m) && Increasing(a) && Increasing(b)
    ensures a == b
  {
    forall x | x in a
      ensures x in b
    {
      var i :| 0 <= i < |a| && a[i] == x;
      LinePresent(a, b, m, i);
      LineDetermined(a, b, m, i, FindLine(b, x.number).value);
    }
    forall x | x in b
      ensures x in a
    {
      var k :| 0 <= k < |b| && b[k] == x;
      LinePresent(b, a, m, k);
      LineDetermined(b, a, m, k, FindLine(a, x.number).value);
    }
    IncreasingSameElements(a, b);
  }

  lemma FirstIn(b: seq<Line>)
    requires b != []
    ensures b[0] in b
  {
  }

  /**
   * The search of `Layout.prototype.getStone(square)` from index i: walk the
   * row lines (numbers below 0x20) for the square's row.  The source reads
   * past the end of the list when every line is a row line and none is the
   * square's; the walk here stops there and answers -1.
   */
  function StoneFrom(ls: seq<Line>, sq: nat, i: nat): (c: int)
    decreases |ls| - i
    ensures -1 <= c <= 1
  {
    if i >= |ls| || ls[i].number >= 0x20 then -1
    else if ls[i].number == Row(sq) then Lines.GetStone(ls[i], Col(sq))
    else StoneFrom(ls, sq, i + 1)
  }

  lemma {:induction false} StoneFromFound(ls: seq<Line>, sq: nat, i: nat, p: nat)
    requires i <= p < |ls| && ls[p].number == Row(sq) && Row(sq) < 0x20
    requires forall k :: i <= k < p ==> ls[k].number < 0x20 && ls[k].number != Row(sq)
    ensures StoneFrom(ls, sq, i) == Lines.GetStone(ls[p], Col(sq))
    decreases p - i
  {
    if i < p {
      StoneFromFound(ls, sq, i + 1, p);
    }
  }

  lemma {:induction false} StoneFromMissing(ls: seq<Line>, sq: nat, i: nat)
    requires forall k :: i <= k < |ls| ==> ls[k].number != Row(sq)
    ensures StoneFrom(ls, sq, i) == -1
    decreases |ls| - i
  {
    if i < |ls| {
      StoneFromMissing(ls, sq, i + 1);
    }
  }

  /**
   * On lines in increasing order that show m, the search answers the colour
   * of the stone on the square, or -1 for an empty square.
   */
  lemma StoneFromBoard(ls: seq<Line>, m: map<nat, int>, sq: nat)
    requires Represents(ls, m) && Increasing(ls) && OnBoard(sq)
    ensures StoneFrom(ls, sq, 0) == if sq in m then m[sq] else -1
  {
    var row := Row(sq);
    assert LineNumber(0, sq) == row && LineOffset(0, sq) == Col(sq);
    assert CellOf(ls, 0, sq) == Occupant(m, sq);
    match FindLine(ls, row)
    case None =>
      StoneFromMissing(ls, sq, 0);
    case Some(p) =>
      StoneFromFound(ls, sq, 0, p);
  }

  /**
   * The squares of row `row` from column c to column 14, every one.  The
   * squares are written `row * 16 + c` rather than through `SquareAt`, whose
   * postcondition would otherwise follow every unfolding into the loops
   * that build these rows.
   */
  function FullRow(row: nat, c: nat): seq<nat>
    decreases 15 - c
  {
    if c >= 15 then [] else [row * 16 + c] + FullRow(row, c + 1)
  }

  /** Every square of row `row`. */
  function WholeRow(row: nat): seq<nat>
  {
    FullRow(row, 0)
  }

  /** The squares of row `row` from column c on whose cell in stroke s is empty. */
  function EmptyCells(s: nat, row: nat, c: nat): seq<nat>
    decreases 15 - c
  {
    if c >= 15 then []
    else (if Cell(s, c) == 0 then [row * 16 + c] else []) + EmptyCells(s, row, c + 1)
  }

  /** The squares of row `row` whose cell in stroke s is empty. */
  function RowEmpties(s: nat, row: nat): seq<nat>
  {
    EmptyCells(s, row, 0)
  }

  /**
   * The row walk of `Layout.prototype.availables` at list index i and row
   * `number`: while the next row line lies further down, the current row is
   * pushed whole; then the row line pushes its empty cells under the walk's
   * own row counter; once no row line is left, the remaining rows are pushed
   * whole.
   */
  function Walk(ls: seq<Line>, i: nat, number: nat): seq<nat>
    decreases |ls| - i, if number < 15 then 15 - number else 0
  {
    if i < |ls| && ls[i].number < 15 then
      if number < ls[i].number then WholeRow(number) + Walk(ls, i, number + 1)
      else RowEmpties(ls[i].stroke, number) + Walk(ls, i + 1, number + 1)
    else if number < 15 then WholeRow(number) + Walk(ls, i, number + 1)
    else []
  }

  /** Before the next row line (or, once they are used up, before row 15) the walk pushes the row whole. */
  lemma WalkRow(ls: seq<Line>, i: nat, number: nat)
    requires number < if i < |ls| && ls[i].number < 15 then ls[i].number else 15
    ensures Walk(ls, i, number)
      == WholeRow(number) + Walk(ls, i, number + 1)
  {
  }

  /** Once the whole rows before it are pushed, a row line pushes its empty cells under the walk's row. */
  lemma WalkLine(ls: seq<Line>, i: nat, number: nat)
    requires i < |ls| && ls[i].number < 15 && ls[i].number <= number
    ensures Walk(ls, i, number)
      == RowEmpties(ls[i].stroke, number) + Walk(ls, i + 1, number + 1)
  {
  }

  /** With the row lines used up and row 15 reached, the walk is over. */
  lemma WalkDone(ls: seq<Line>, i: nat, number: nat)
    requires !(i < |ls| && ls[i].number < 15) && number >= 15
    ensures Walk(ls, i, number) == []
  {
  }

  /** Strictly increasing squares. */
  predicate Ascending(r: seq<nat>)
  {
    forall i, j :: 0 <= i < j < |r| ==> r[i] < r[j]
  }

  /** Every square of r is in a row from `row` on. */
  predicate RowsFrom(r: seq<nat>, row: nat)
  {
    forall x :: x in r ==> Row(x) >= row
  }

  /** Every square of r is in a row before `row`. */
  predicate RowsBefore(r: seq<nat>, row: nat)
  {
    forall x :: x in r ==> Row(x) < row
  }

  /** Squares order row by row, and by column within a row. */
  lemma SquareOrder(x: nat, y: nat)
    requires Row(x) < Row(y) || (Row(x) == Row(y) && Col(x) < Col(y))
    ensures x < y
  {
  }

  /** Ascending runs whose rows are separated join into an ascending run. */
  lemma AscendingJoin(a: seq<nat>, b: seq<nat>, row: nat)
    requires Ascending(a) && Ascending(b) && RowsBefore(a, row) && RowsFrom(b, row)
    ensures Ascending(a + b)
  {
    var r := a + b;
    forall i, j | 0 <= i < j < |r|
      ensures r[i] < r[j]
    {
      if i < |a| <= j {
        assert r[i] in a && r[j] in b;
        SquareOrder(r[i], r[j]);
      }
    }
  }

  lemma {:induction false} FullRowSpec(row: nat, c: nat)
    ensures forall x :: x in FullRow(row, c) <==> Row(x) == row && c <= Col(x) < 15
    ensures Ascending(FullRow(row, c)) && RowsFrom(FullRow(row, c), row)
    ensures RowsBefore(FullRow(row, c), row + 1)
    decreases 15 - c
  {
    if c < 15 {
      var sq := SquareAt(row, c);
      var tail := FullRow(row, c + 1);
      FullRowSpec(row, c + 1);
      forall y | y in tail
        ensures sq < y
      {
        SquareOrder(sq, y);
      }
      AscendingCons(sq, tail);
      assert FullRow(row, c) == [sq] + tail;
      forall x | Row(x) == row && Col(x) == c
        ensures x == sq
      {
        SameSquare(x, sq);
      }
    }
  }

  lemma {:induction false} EmptyCellsSpec(s: nat, row: nat, c: nat)
    ensures forall x :: x in EmptyCells(s, row, c) <==>
      Row(x) == row && c <= Col(x) < 15 && Cell(s, Col(x)) == 0
    ensures Ascending(EmptyCells(s, row, c)) && RowsFrom(EmptyCells(s, row, c), row)
    ensures RowsBefore(EmptyCells(s, row, c), row + 1)
    decreases 15 - c
  {
    EmptyCellsMembers(s, row, c);
    if c < 15 {
      var tail := EmptyCells(s, row, c + 1);
      EmptyCellsSpec(s, row, c + 1);
      if Cell(s, c) == 0 {
        var sq := row * 16 + c;
        assert Row(sq) == row && Col(sq) == c by {
          assert sq == SquareAt(row, c);
        }
        forall y | y in tail
          ensures sq < y
        {
          SquareOrder(sq, y);
        }
        AscendingCons(sq, tail);
        assert EmptyCells(s, row, c) == [sq] + tail;
      } else {
        assert EmptyCells(s, row, c) == tail;
      }
    }
  }

  /** A square below every square of an ascending run starts an ascending run. */
  lemma AscendingCons(x: nat, r: seq<nat>)
    requires Ascending(r) && forall y :: y in r ==> x < y
    ensures Ascending([x] + r)
  {
    forall i, j | 0 <= i < j < |[x] + r|
      ensures ([x] + r)[i] < ([x] + r)[j]
    {
      if i == 0 {
        assert ([x] + r)[j] in r;
      }
    }
  }

  /** The squares the row lists from column c on. */
  lemma {:induction false} EmptyCellsMembers(s: nat, row: nat, c: nat)
    ensures forall x :: x in EmptyCells(s, row, c) <==>
      Row(x) == row && c <= Col(x) < 15 && Cell(s, Col(x)) == 0
    decreases 15 - c
  {
    if c < 15 {
      var sq := SquareAt(row, c);
      var tail := EmptyCells(s, row, c + 1);
      EmptyCellsMembers(s, row, c + 1);
      assert EmptyCells(s, row, c) == (if Cell(s, c) == 0 then [sq] else []) + tail;
      forall x | Row(x) == row && Col(x) == c
        ensures x == sq
      {
        SameSquare(x, sq);
      }
    }
  }

  /** A square of a row through which no line passes holds no stone. */
  lemma NoRowLine(ls: seq<Line>, m: map<nat, int>, x: nat)
    requires Represents(ls, m) && OnBoard(x)
    requires forall k :: 0 <= k < |ls| ==> ls[k].number != Row(x)
    ensures x !in m
  {
    assert LineNumber(0, x) == Row(x);
    assert FindLine(ls, Row(x)).None?;
    assert CellOf(ls, 0, x) == Occupant(m, x);
  }

  /** A square of the row of line p holds no stone exactly when its cell of line p is empty. */
  lemma RowLineCell(ls: seq<Line>, m: map<nat, int>, p: nat, x: nat)
    requires Represents(ls, m) && p < |ls| && OnBoard(x) && Row(x) == ls[p].number
    ensures x !in m <==> Cell(ls[p].stroke, Col(x)) == 0
  {
    FindUnique(ls, ls[p].number, p);
    assert LineNumber(0, x) == ls[p].number && LineOffset(0, x) == Col(x);
    assert CellOf(ls, 0, x) == Occupant(m, x);
  }

  /** What the row lines alone say about the board m. */
  ghost predicate RowsShow(ls: seq<Line>, m: map<nat, int>)
  {
    && (forall x :: x in m ==> OnBoard(x))
    && (forall x :: x in m ==> exists k :: 0 <= k < |ls| && ls[k].number == Row(x))
    && (forall k, x :: 0 <= k < |ls| && OnBoard(x) && Row(x) == ls[k].number ==>
          (x !in m <==> Cell(ls[k].stroke, Col(x)) == 0))
  }

  lemma RepresentsRows(ls: seq<Line>, m: map<nat, int>)
    requires Represents(ls, m)
    ensures RowsShow(ls, m)
  {
    forall x | x in m
      ensures exists k :: 0 <= k < |ls| && ls[k].number == Row(x)
    {
      if forall k :: 0 <= k < |ls| ==> ls[k].number != Row(x) {
        NoRowLine(ls, m, x);
      }
    }
    forall k, x | 0 <= k < |ls| && OnBoard(x) && Row(x) == ls[k].number
      ensures x !in m <==> Cell(ls[k].stroke, Col(x)) == 0
    {
      RowLineCell(ls, m, k, x);
    }
  }

  /** A square of a row through which no line passes holds no stone. */
  lemma RowFree(ls: seq<Line>, m: map<nat, int>, x: nat)
    requires RowsShow(ls, m)
    requires forall k :: 0 <= k < |ls| ==> ls[k].number != Row(x)
    ensures x !in m
  {
  }

  /** r lists, each once and in increasing order, the empty squares of m in the rows from `row` on. */
  ghost predicate ListsEmpty(r: seq<nat>, m: map<nat, int>, row: nat)
  {
    && (forall x :: x in r <==> OnBoard(x) && Row(x) >= row && x !in m)
    && Ascending(r) && RowsFrom(r, row)
  }

  /** The walk's step over a row that no line covers. */
  lemma WalkFullRow(ls: seq<Line>, m: map<nat, int>, i: nat, number: nat)
    requires RowsShow(ls, m) && number < 15
    requires number < if i < |ls| && ls[i].number < 15 then ls[i].number else 15
    requires forall k :: 0 <= k < |ls| ==> ls[k].number != number
    requires ListsEmpty(Walk(ls, i, number + 1), m, number + 1)
    ensures ListsEmpty(Walk(ls, i, number), m, number)
  {
    var a := WholeRow(number);
    var b := Walk(ls, i, number + 1);
    FullRowSpec(number, 0);
    AscendingJoin(a, b, number + 1);
    forall x | OnBoard(x) && Row(x) == number
      ensures x !in m
    {
      RowFree(ls, m, x);
    }
    WalkRow(ls, i, number);
  }

  /** The walk's step over the row of line i. */
  lemma WalkLineRow(ls: seq<Line>, m: map<nat, int>, i: nat, number: nat)
    requires RowsShow(ls, m) && i < |ls| && ls[i].number == number < 15
    requires ListsEmpty(Walk(ls, i + 1, number + 1), m, number + 1)
    ensures ListsEmpty(Walk(ls, i, number), m, number)
  {
    var a := RowEmpties(ls[i].stroke, number);
    var b := Walk(ls, i + 1, number + 1);
    EmptyCellsSpec(ls[i].stroke, number, 0);
    AscendingJoin(a, b, number + 1);
    WalkLine(ls, i, number);
  }

  /** The lines are in step with the walk at list index i and row `number`. */
  ghost predicate InStep(ls: seq<Line>, i: nat, number: nat)
  {
    && i <= |ls| && number <= 15
    && (forall k :: 0 <= k < i ==> ls[k].number < number)
    && (forall k :: i <= k < |ls| ==> ls[k].number >= number)
  }

  /** From a row at which the walk is in step with the lines, it lists the board's empty squares. */
  lemma {:induction false} WalkSpec(ls: seq<Line>, m: map<nat, int>, i: nat, number: nat)
    requires RowsShow(ls, m) && Increasing(ls) && InStep(ls, i, number)
    ensures ListsEmpty(Walk(ls, i, number), m, number)
    decreases |ls| - i, 15 - number, 1
  {
    if i < |ls| && ls[i].number < 15 {
      if number < ls[i].number {
        WalkBeforeLine(ls, m, i, number);
      } else {
        WalkAtLine(ls, m, i, number);
      }
    } else if number < 15 {
      WalkAfterLines(ls, m, i, number);
    } else {
      WalkEnd(ls, m, i, number);
    }
  }

  lemma {:induction false} WalkBeforeLine(ls: seq<Line>, m: map<nat, int>, i: nat, number: nat)
    requires RowsShow(ls, m) && Increasing(ls) && InStep(ls, i, number)
    requires i < |ls| && number < ls[i].number < 15
    ensures ListsEmpty(Walk(ls, i, number), m, number)
    decreases |ls| - i, 15 - number, 0
  {
    StepBeforeLine(ls, i, number);
    WalkSpec(ls, m, i, number + 1);
    WalkFullRow(ls, m, i, number);
  }

  lemma StepBeforeLine(ls: seq<Line>, i: nat, number: nat)
    requires Increasing(ls) && InStep(ls, i, number) && i < |ls| && number < ls[i].number < 15
    ensures InStep(ls, i, number + 1)
    ensures forall k :: 0 <= k < |ls| ==> ls[k].number != number
  {
    forall k | i <= k < |ls|
      ensures ls[k].number > number
    {
      if k > i {
        assert ls[i].number < ls[k].number;
      }
    }
  }

  lemma {:induction false} WalkAtLine(ls: seq<Line>, m: map<nat, int>, i: nat, number: nat)
    requires RowsShow(ls, m) && Increasing(ls) && InStep(ls, i, number)
    requires i < |ls| && number == ls[i].number < 15
    ensures ListsEmpty(Walk(ls, i, number), m, number)
    decreases |ls| - i, 15 - number, 0
  {
    StepAtLine(ls, i, number);
    WalkSpec(ls, m, i + 1, number + 1);
    WalkLineRow(ls, m, i, number);
  }

  lemma StepAtLine(ls: seq<Line>, i: nat, number: nat)
    requires Increasing(ls) && InStep(ls, i, number) && i < |ls| && number == ls[i].number < 15
    ensures InStep(ls, i + 1, number + 1)
  {
    forall k | i + 1 <= k < |ls|
      ensures ls[k].number >= number + 1
    {
      assert ls[i].number < ls[k].number;
    }
  }

  lemma {:induction false} WalkAfterLines(ls: seq<Line>, m: map<nat, int>, i: nat, number: nat)
    requires RowsShow(ls, m) && Increasing(ls) && InStep(ls, i, number)
    requires !(i < |ls| && ls[i].number < 15) && number < 15
    ensures ListsEmpty(Walk(ls, i, number), m, number)
    decreases |ls| - i, 15 - number, 0
  {
    StepAfterLines(ls, i, number);
    WalkSpec(ls, m, i, number + 1);
    WalkFullRow(ls, m, i, number);
  }

  lemma StepAfterLines(ls: seq<Line>, i: nat, number: nat)
    requires Increasing(ls) && InStep(ls, i, number) && !(i < |ls| && ls[i].number < 15) && number < 15
    ensures InStep(ls, i, number + 1)
    ensures forall k :: 0 <= k < |ls| ==> ls[k].number != number
    ensures number < if i < |ls| && ls[i].number < 15 then ls[i].number else 15
  {
    forall k | i <= k < |ls|
      ensures ls[k].number >= 15
    {
      if k > i {
        assert ls[i].number < ls[k].number;
      }
    }
  }

  /** Past the last row the walk lists nothing, and no square lies there. */
  lemma WalkEnd(ls: seq<Line>, m: map<nat, int>, i: nat, number: nat)
    requires !(i < |ls| && ls[i].number < 15) && number >= 15
    ensures ListsEmpty(Walk(ls, i, number), m, number)
  {
    assert Walk(ls, i, number) == [];
    assert forall x :: OnBoard(x) ==> Row(x) < number;
  }

  /**
   * On lines in increasing order that show m, the walk from the first line
   * lists exactly the empty squares of the board, each once, in increasing
   * order.
   */
  lemma WalkBoard(ls: seq<Line>, m: map<nat, int>)
    requires Represents(ls, m) && Increasing(ls)
    ensures forall x :: x in Walk(ls, 0, 0) <==> OnBoard(x) && x !in m
    ensures Ascending(Walk(ls, 0, 0))
  {
    RepresentsRows(ls, m);
    WalkSpec(ls, m, 0, 0);
  }
}
