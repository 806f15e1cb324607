/**
 * Lines (docs/translated/line.js): one row, column or diagonal of the board
 * as a stroke of two bits per cell (`01` white, `10` black), the same
 * cells in reverse order (`inverse`), and the number of stones of each
 * colour.  A Line is never changed: putting or removing a stone gives a new
 * one, and an impossible put or remove is an error.
 */
module Lines {
  import opened Base4
  import opened Wrappers
  import opened LineGeometry
  import opened Patterns
  import opened Figures
  import opened Sorting
  import opened PatternCatalog

  datatype Line = Line(number: nat, blen: int, wlen: int, stroke: nat, inverse: nat)

  /**
   * A line as the solver keeps it: a board line, no cell holding both bits,
   * `inverse` mirroring `stroke` over the line's length, and the counts
   * matching the stones.
   */
  ghost predicate Valid(l: Line)
  {
    && ValidLine(l.number)
    && var n := LineLength(l.number) as nat;
       && Mirror(l.stroke, l.inverse, n)
       && (forall j :: 0 <= j < n ==> Cell(l.stroke, j) != 3)
       && l.blen == CountCells(l.stroke, n, 2)
       && l.wlen == CountCells(l.stroke, n, 1)
  }

  /** The two bits of colour `hand` (0 white, 1 black). */
  function StoneBits(hand: int): nat
    requires hand == 0 || hand == 1
  {
    hand + 1
  }

  /** `new Line(number, offset, hand)`: the line holding one stone. */
  function NewLine(number: nat, offset: nat, hand: int): (l: Line)
    requires ValidLine(number) && offset < LineLength(number) && (hand == 0 || hand == 1)
    ensures l.number == number
  {
    var right := LineLength(number) - 1;
    Line(number, if hand > 0 then 1 else 0, if hand > 0 then 0 else 1,
         StoneBits(hand) * Pow4(offset), StoneBits(hand) * Pow4(right - offset))
  }

  /** The single-stone line is valid and holds exactly that stone. */
  lemma NewLineSpec(number: nat, offset: nat, hand: int)
    requires ValidLine(number) && offset < LineLength(number) && (hand == 0 || hand == 1)
    ensures Valid(NewLine(number, offset, hand))
    ensures forall j :: Cell(NewLine(number, offset, hand).stroke, j) == if j == offset then hand + 1 else 0
    ensures NewLine(number, offset, hand).stroke != 0
  {
    var n := LineLength(number) as nat;
    NewLineCells(number, offset, hand);
    SingleBound(StoneBits(hand), offset, n);
    SingleBound(StoneBits(hand), n - 1 - offset, n);
    SingleStoneValid(NewLine(number, offset, hand), offset, hand);
    CellZero(offset);
  }

  /** A line whose stroke holds one stone of colour `hand`, mirrored in its inverse and counted once, is valid. */
  lemma SingleStoneValid(l: Line, offset: nat, hand: int)
    requires ValidLine(l.number) && offset < LineLength(l.number) && (hand == 0 || hand == 1)
    requires forall j :: Cell(l.stroke, j) == if j == offset then hand + 1 else 0
    requires forall j :: 0 <= j < LineLength(l.number) ==>
      Cell(l.inverse, LineLength(l.number) as nat - 1 - j) == Cell(l.stroke, j)
    requires l.stroke < Pow4(LineLength(l.number) as nat) && l.inverse < Pow4(LineLength(l.number) as nat)
    requires l.blen == (if hand > 0 then 1 else 0) && l.wlen == (if hand > 0 then 0 else 1)
    ensures Valid(l)
  {
    var n := LineLength(l.number) as nat;
    CountSingle(l.stroke, n, offset, hand + 1, 2);
    CountSingle(l.stroke, n, offset, hand + 1, 1);
  }

  /** The new line's one stone, in the stroke and mirrored in the inverse. */
  lemma NewLineCells(number: nat, offset: nat, hand: int)
    requires ValidLine(number) && offset < LineLength(number) && (hand == 0 || hand == 1)
    ensures forall j :: Cell(NewLine(number, offset, hand).stroke, j) == if j == offset then hand + 1 else 0
    ensures forall j :: 0 <= j < LineLength(number) ==>
      Cell(NewLine(number, offset, hand).inverse, LineLength(number) as nat - 1 - j) == Cell(NewLine(number, offset, hand).stroke, j)
  {
    var l := NewLine(number, offset, hand);
    var n := LineLength(number) as nat;
    var v := StoneBits(hand);
    assert v == hand + 1;
    forall j
      ensures Cell(l.stroke, j) == if j == offset then v else 0
    {
      CellOfSingle(v, offset, j);
    }
    forall j | 0 <= j < n
      ensures Cell(l.inverse, n - 1 - j) == Cell(l.stroke, j)
    {
      CellOfSingle(v, n - 1 - offset, n - 1 - j);
    }
  }

  /** A stroke with one non-empty cell counts that cell once. */
  lemma {:induction false} CountSingle(s: nat, n: nat, i: nat, v: nat, w: nat)
    requires 0 < v < 4 && 0 < w < 4 && i < n
    requires forall j :: Cell(s, j) == if j == i then v else 0
    ensures CountCells(s, n, w) == if v == w then 1 else 0
  {
    if n - 1 > i {
      CountSingle(s, n - 1, i, v, w);
    } else {
      CountNone(s, n - 1, w);
    }
  }

  lemma {:induction false} CountNone(s: nat, n: nat, w: nat)
    requires w != 0 && forall j :: 0 <= j < n ==> Cell(s, j) == 0
    ensures CountCells(s, n, w) == 0
  {
    if n > 0 {
      CountNone(s, n - 1, w);
    }
  }

  /**
   * `Line.getStone(offset)`: 0 when the cell's white bit is set, else 1 when
   * its black bit is set, else -1.
   */
  function GetStone(l: Line, offset: nat): (c: int)
    ensures -1 <= c <= 1
  {
    var cell := Cell(l.stroke, offset);
    if cell % 2 == 1 then 0 else if cell >= 2 then 1 else -1
  }

  /** On a cell that is not doubly set, getStone names the colour whose bits the cell holds. */
  lemma GetStoneCell(l: Line, offset: nat)
    requires Cell(l.stroke, offset) != 3
    ensures GetStone(l, offset) == -1 <==> Cell(l.stroke, offset) == 0
    ensures forall hand :: hand == 0 || hand == 1 ==>
      (GetStone(l, offset) == hand <==> Cell(l.stroke, offset) == StoneBits(hand))
  {
  }

  /** `Line.putStone(offset, hand)`; the error is the RangeError thrown for an occupied cell. */
  function PutStone(l: Line, offset: nat, hand: int): (r: Result<Line, string>)
    requires offset < LineLength(l.number) && (hand == 0 || hand == 1)
    ensures r.Success? ==> r.value.number == l.number
  {
    if Cell(l.stroke, offset) != 0 then Failure("Square already occupated")
    else
      var right := LineLength(l.number) - 1;
      var str := WithCell(l.stroke, offset, StoneBits(hand));
      var inv := WithCell(l.inverse, right - offset, StoneBits(hand));
      Success(if hand > 0 then Line(l.number, l.blen + 1, l.wlen, str, inv)
              else Line(l.number, l.blen, l.wlen + 1, str, inv))
  }

  /** `Line.removeStone(offset, hand)`; the error is the RangeError thrown unless the cell holds `hand`. */
  function RemoveStone(l: Line, offset: nat, hand: int): (r: Result<Line, string>)
    requires offset < LineLength(l.number) && (hand == 0 || hand == 1)
    ensures r.Success? ==> r.value.number == l.number
  {
    if Cell(l.stroke, offset) != StoneBits(hand) then Failure("No hand stone in the square")
    else
      var right := LineLength(l.number) - 1;
      var str := WithCell(l.stroke, offset, 0);
      var inv := WithCell(l.inverse, right - offset, 0);
      Success(if hand > 0 then Line(l.number, l.blen - 1, l.wlen, str, inv)
              else Line(l.number, l.blen, l.wlen - 1, str, inv))
  }

  /**
   * putStone fails exactly on an occupied cell; otherwise the cell then holds
   * `hand`, no other cell changes, the colour's count goes up by one, and a
   * valid line stays valid.
   */
  lemma PutStoneSpec(l: Line, offset: nat, hand: int)
    requires offset < LineLength(l.number) && (hand == 0 || hand == 1)
    ensures PutStone(l, offset, hand).Failure? <==> Cell(l.stroke, offset) != 0
    ensures PutStone(l, offset, hand).Success? ==>
      var r := PutStone(l, offset, hand).value;
      && GetStone(r, offset) == hand
      && (forall j :: Cell(r.stroke, j) == if j == offset then StoneBits(hand) else Cell(l.stroke, j))
      && r.blen == l.blen + (if hand == 1 then 1 else 0)
      && r.wlen == l.wlen + (if hand == 0 then 1 else 0)
      && r.stroke != 0
      && (Valid(l) ==> Valid(r))
  {
    if Cell(l.stroke, offset) == 0 {
      var r := PutStone(l, offset, hand).value;
      var v := StoneBits(hand);
      forall j
        ensures Cell(r.stroke, j) == if j == offset then v else Cell(l.stroke, j)
      {
        WithCellCell(l.stroke, offset, v, j);
      }
      assert Cell(r.stroke, offset) == v;
      if r.stroke == 0 {
        CellZero(offset);
      }
      if Valid(l) {
        PutStoneValid(l, offset, hand);
      }
    }
  }

  /** putStone on an empty cell of a valid line gives a valid line. */
  lemma PutStoneValid(l: Line, offset: nat, hand: int)
    requires Valid(l) && offset < LineLength(l.number) && (hand == 0 || hand == 1)
    requires Cell(l.stroke, offset) == 0
    ensures Valid(PutStone(l, offset, hand).value)
  {
    var r := PutStone(l, offset, hand).value;
    var v := StoneBits(hand);
    var n := LineLength(l.number) as nat;
    forall j | 0 <= j < n
      ensures Cell(r.stroke, j) != 3
    {
      WithCellCell(l.stroke, offset, v, j);
    }
    MirrorWithCell(l.stroke, l.inverse, n, offset, v);
    CountWithCell(l.stroke, n, offset, v, 2);
    CountWithCell(l.stroke, n, offset, v, 1);
  }

  /**
   * removeStone fails exactly when the cell does not hold `hand`; otherwise
   * the cell is then empty, no other cell changes, the colour's count goes
   * down by one, and a valid line stays valid.
   */
  lemma RemoveStoneSpec(l: Line, offset: nat, hand: int)
    requires offset < LineLength(l.number) && (hand == 0 || hand == 1)
    ensures RemoveStone(l, offset, hand).Failure? <==> Cell(l.stroke, offset) != StoneBits(hand)
    ensures RemoveStone(l, offset, hand).Success? ==>
      var r := RemoveStone(l, offset, hand).value;
      && GetStone(r, offset) == -1
      && (forall j :: Cell(r.stroke, j) == if j == offset then 0 else Cell(l.stroke, j))
      && r.blen == l.blen - (if hand == 1 then 1 else 0)
      && r.wlen == l.wlen - (if hand == 0 then 1 else 0)
      && (Valid(l) ==> Valid(r))
  {
    if Cell(l.stroke, offset) == StoneBits(hand) {
      var r := RemoveStone(l, offset, hand).value;
      forall j
        ensures Cell(r.stroke, j) == if j == offset then 0 else Cell(l.stroke, j)
      {
        WithCellCell(l.stroke, offset, 0, j);
      }
      if Valid(l) {
        RemoveStoneValid(l, offset, hand);
      }
    }
  }

  /** removeStone of a stone of `hand` on a valid line gives a valid line. */
  lemma RemoveStoneValid(l: Line, offset: nat, hand: int)
    requires Valid(l) && offset < LineLength(l.number) && (hand == 0 || hand == 1)
    requires Cell(l.stroke, offset) == StoneBits(hand)
    ensures Valid(RemoveStone(l, offset, hand).value)
  {
    var r := RemoveStone(l, offset, hand).value;
    var n := LineLength(l.number) as nat;
    forall j | 0 <= j < n
      ensures Cell(r.stroke, j) != 3
    {
      WithCellCell(l.stroke, offset, 0, j);
    }
    MirrorWithCell(l.stroke, l.inverse, n, offset, 0);
    CountWithCell(l.stroke, n, offset, 0, 2);
    CountWithCell(l.stroke, n, offset, 0, 1);
  }

  /** Removing the stone just put gives back the same line, for a valid line. */
  lemma PutRemove(l: Line, offset: nat, hand: int)
    requires Valid(l) && offset < LineLength(l.number) && (hand == 0 || hand == 1)
    requires PutStone(l, offset, hand).Success?
    ensures RemoveStone(PutStone(l, offset, hand).value, offset, hand) == Success(l)
  {
    var n := LineLength(l.number) as nat;
    var v := StoneBits(hand);
    assert Cell(l.inverse, n - 1 - offset) == 0;
    WithCellCell(l.stroke, offset, v, offset);
    WithCellTwice(l.stroke, offset, v, 0);
    WithCellSame(l.stroke, offset);
    WithCellTwice(l.inverse, n - 1 - offset, v, 0);
    WithCellSame(l.inverse, n - 1 - offset);
  }

  /** Putting back the stone just removed gives back the same line, for a valid line. */
  lemma RemovePut(l: Line, offset: nat, hand: int)
    requires Valid(l) && offset < LineLength(l.number) && (hand == 0 || hand == 1)
    requires RemoveStone(l, offset, hand).Success?
    ensures PutStone(RemoveStone(l, offset, hand).value, offset, hand) == Success(l)
  {
    var n := LineLength(l.number) as nat;
    var v := StoneBits(hand);
    assert Cell(l.inverse, n - 1 - offset) == v;
    WithCellCell(l.stroke, offset, 0, offset);
    WithCellTwice(l.stroke, offset, 0, v);
    WithCellSame(l.stroke, offset);
    WithCellTwice(l.inverse, n - 1 - offset, 0, v);
    WithCellSame(l.inverse, n - 1 - offset);
  }

  /** `Line.Comparator`: by number, then by stroke. */
  function Comparator(l1: Line, l2: Line): int
  {
    if l1.number < l2.number then -1
    else if l1.number > l2.number then 1
    else if l1.stroke < l2.stroke then -1
    else if l1.stroke > l2.stroke then 1
    else 0
  }

  /** "l1 sorts no later than l2" under `Line.Comparator`. */
  function LineOrder(): (le: (Line, Line) -> bool)
    ensures TotalPreorder(le)
  {
    ComparatorOrder();
    (l1: Line, l2: Line) => Comparator(l1, l2) <= 0
  }

  /**
   * The comparator is antisymmetric, says 0 only for equal number and
   * stroke, and its "no later" relation is a total preorder.
   */
  lemma ComparatorOrder()
    ensures forall l1, l2 :: Comparator(l1, l2) == -Comparator(l2, l1)
    ensures forall l1, l2 :: Comparator(l1, l2) == 0 <==> l1.number == l2.number && l1.stroke == l2.stroke
    ensures TotalPreorder((l1: Line, l2: Line) => Comparator(l1, l2) <= 0)
  {
  }

  /** `type || Pattern.ONE`: a missing or zero type asks for every shape. */
  function Requested(kind: int): int
  {
    if kind == 0 then ONE else kind
  }

  /** The bit of colour `hand` in cell i: `(s >> 2i) & 2` for black, `& 1` for white. */
  predicate HasStone(s: nat, i: nat, hand: int)
  {
    if hand == 1 then Cell(s, i) >= 2 else Cell(s, i) % 2 == 1
  }

  /** The value a pattern's window must show for colour `hand`. */
  function Target(p: Pattern, hand: int): nat
  {
    if hand == 1 then p.black else p.white
  }

  /**
   * The test `findFigures` applies to pattern p for the stone of colour
   * `hand` at cell `move`, with `left` stones of that colour not yet
   * visited.  The window is masked by the pattern's length, which is what
   * `pattern.mask` (all 2 * length low bits) does.
   */
  predicate Accepts(l: Line, kind: int, move: nat, left: int, hand: int, p: Pattern)
  {
    && p.kind <= kind
    && left >= |p.moves|
    && p.move.Some?
    && move >= p.move.value
    && var offset := move - p.move.value;
       && offset + p.length <= LineLength(l.number)
       && (offset > 0 ==> !HasStone(l.stroke, offset - 1, hand))
       && !HasStone(l.stroke, offset + p.length, hand)
       && Window(l.stroke, offset, p.length) == Target(p, hand)
  }

  /** The figure `new Figure(number, move - pattern.move, hand, pattern)`. */
  function FigureAt(l: Line, move: nat, hand: int, p: Pattern): Figure
    requires p.move.Some? && move >= p.move.value
  {
    Figure(l.number, move - p.move.value, hand, p)
  }

  /** `patterns.some(...)`: the figure of the first accepted pattern of a group, if any. */
  function FirstAccepted(l: Line, kind: int, move: nat, left: int, hand: int, ps: seq<Pattern>): Option<Figure>
  {
    if ps == [] then None
    else if Accepts(l, kind, move, left, hand, ps[0]) then Some(FigureAt(l, move, hand, ps[0]))
    else FirstAccepted(l, kind, move, left, hand, ps[1..])
  }

  /** `Pattern.SOLVER_PATTERNS.forEach(...)`: one figure at most per group, in group order. */
  function GroupFigures(l: Line, kind: int, move: nat, left: int, hand: int, groups: seq<seq<Pattern>>): seq<Figure>
  {
    if groups == [] then []
    else
      var last := FirstAccepted(l, kind, move, left, hand, groups[|groups| - 1]);
      GroupFigures(l, kind, move, left, hand, groups[..|groups| - 1]) + (if last.Some? then [last.value] else [])
  }

  /**
   * The figures the scan pushes from cell `move` on, with `bl` black and `wl`
   * white stones not yet visited: at each cell, black figures first, then
   * white ones, until no stone is left above.
   */
  function Scan(l: Line, kind: int, groups: seq<seq<Pattern>>, move: nat, bl: int, wl: int): seq<Figure>
    decreases Shift(l.stroke, move)
  {
    var probe := Shift(l.stroke, move);
    if probe == 0 then []
    else
      ShiftStep(l.stroke, move);
      var black := probe % 4 >= 2;
      var white := probe % 2 == 1;
      (if black then GroupFigures(l, kind, move, bl, 1, groups) else [])
      + (if white then GroupFigures(l, kind, move, wl, 0, groups) else [])
      + Scan(l, kind, groups, move + 1, if black then bl - 1 else bl, if white then wl - 1 else wl)
  }

  /** `line.findFigures(figures, type)`: the figures it appends. */
  function LineFigures(l: Line, kind: int): seq<Figure>
  {
    Scan(l, Requested(kind), SolverPatterns, 0, l.blen, l.wlen)
  }

  /**
   * `patterns.some(...)` for one group: append the figure of the first
   * pattern the test accepts.
   */
  method MatchGroup(l: Line, kind: int, move: nat, left: int, hand: int, patterns: seq<Pattern>,
                    figures: seq<Figure>) returns (figures': seq<Figure>)
    ensures var f := FirstAccepted(l, kind, move, left, hand, patterns);
      figures' == figures + (if f.Some? then [f.value] else [])
  {
    var len := LineLength(l.number);
    var i := 0;
    while i < |patterns|
      invariant 0 <= i <= |patterns|
      invariant FirstAccepted(l, kind, move, left, hand, patterns) == FirstAccepted(l, kind, move, left, hand, patterns[i..])
    {
      assert patterns[i..][1..] == patterns[i + 1..];
      var pattern := patterns[i];
      // `move - pattern.move` is NaN, and every comparison false, when the pattern has no stone.
      if pattern.move.Some? && move >= pattern.move.value {
        var offset := move - pattern.move.value;
        if pattern.kind <= kind
          && left >= |pattern.moves|
          && offset + pattern.length <= len
          && (if offset > 0 then !HasStone(l.stroke, offset - 1, hand) else true)
          && !HasStone(l.stroke, offset + pattern.length, hand)
          && Window(l.stroke, offset, pattern.length) == Target(pattern, hand)
        {
          figures' := figures + [Figure(l.number, offset, hand, pattern)];
          return;
        }
      }
      i := i + 1;
    }
    figures' := figures;
  }

  /** The pass over all pattern groups for one stone of one colour. */
  method MatchGroups(l: Line, kind: int, move: nat, left: int, hand: int, groups: seq<seq<Pattern>>,
                     figures: seq<Figure>) returns (figures': seq<Figure>)
    ensures figures' == figures + GroupFigures(l, kind, move, left, hand, groups)
  {
    figures' := figures;
    var g := 0;
    while g < |groups|
      invariant 0 <= g <= |groups|
      invariant figures' == figures + GroupFigures(l, kind, move, left, hand, groups[..g])
    {
      assert groups[..g + 1][..g] == groups[..g];
      figures' := MatchGroup(l, kind, move, left, hand, groups[g], figures');
      g := g + 1;
    }
    assert groups[..g] == groups;
  }

  /**
   * The loop of `Line.findFigures(figures, type)` over a table of pattern
   * groups: walk the cells up to the last stone and append, for each stone,
   * the figures it starts.
   */
  method ScanFigures(l: Line, figures: seq<Figure>, kind: int, groups: seq<seq<Pattern>>) returns (figures': seq<Figure>)
    ensures figures' == figures + Scan(l, Requested(kind), groups, 0, l.blen, l.wlen)
  {
    var k := Requested(kind);
    var bl := l.blen;
    var wl := l.wlen;
    var probe := l.stroke;
    var move := 0;
    figures' := figures;
    while probe > 0
      invariant probe == Shift(l.stroke, move)
      invariant figures' + Scan(l, k, groups, move, bl, wl) == figures + Scan(l, k, groups, 0, l.blen, l.wlen)
      decreases probe
    {
      ScanUnfold(l, k, groups, move, bl, wl, figures');
      var black := probe % 4 >= 2;
      var white := probe % 2 == 1;
      ghost var bs := if black then GroupFigures(l, k, move, bl, 1, groups) else [];
      ghost var ws := if white then GroupFigures(l, k, move, wl, 0, groups) else [];
      ghost var start := figures';
      if black {
        figures' := MatchGroups(l, k, move, bl, 1, groups, figures');
        bl := bl - 1;
      }
      assert figures' == start + bs;
      ghost var mid := figures';
      if white {
        figures' := MatchGroups(l, k, move, wl, 0, groups, figures');
        wl := wl - 1;
      }
      assert figures' == mid + ws;
      probe := probe / 4;
      move := move + 1;
    }
  }

  /** One stone of the scan: its black figures, then its white ones, then the scan of the cells above it. */
  lemma ScanUnfold(l: Line, kind: int, groups: seq<seq<Pattern>>, move: nat, bl: int, wl: int, start: seq<Figure>)
    requires Shift(l.stroke, move) > 0
    ensures Shift(l.stroke, move + 1) == Shift(l.stroke, move) / 4
    ensures var probe := Shift(l.stroke, move);
      var black := probe % 4 >= 2;
      var white := probe % 2 == 1;
      start + Scan(l, kind, groups, move, bl, wl)
      == (start + (if black then GroupFigures(l, kind, move, bl, 1, groups) else [])
                + (if white then GroupFigures(l, kind, move, wl, 0, groups) else []))
         + Scan(l, kind, groups, move + 1, if black then bl - 1 else bl, if white then wl - 1 else wl)
  {
    ShiftStep(l.stroke, move);
    var probe := Shift(l.stroke, move);
    var black := probe % 4 >= 2;
    var white := probe % 2 == 1;
    var bs := if black then GroupFigures(l, kind, move, bl, 1, groups) else [];
    var ws := if white then GroupFigures(l, kind, move, wl, 0, groups) else [];
    var rest := Scan(l, kind, groups, move + 1, if black then bl - 1 else bl, if white then wl - 1 else wl);
    assert Scan(l, kind, groups, move, bl, wl) == bs + ws + rest;
    assert start + (bs + ws + rest) == (start + bs + ws) + rest;
  }

  /** `Line.findFigures(figures, type)`, over `Pattern.SOLVER_PATTERNS`. */
  method FindFigures(l: Line, figures: seq<Figure>, kind: int) returns (figures': seq<Figure>)
    ensures figures' == figures + LineFigures(l, kind)
  {
    figures' := ScanFigures(l, figures, kind, SolverPatterns);
  }

  /**
   * What every figure findFigures reports guarantees: it lies on the line,
   * its pattern comes from the table and is no weaker than asked, the
   * window fits on the line and shows exactly the pattern's stones of its
   * colour, and no stone of that colour touches the window on either side.
   */
  predicate Sound(l: Line, kind: int, groups: seq<seq<Pattern>>, f: Figure)
  {
    && f.number == l.number
    && (f.hand == 0 || f.hand == 1)
    && f.pattern.kind <= kind
    && (exists g :: 0 <= g < |groups| && f.pattern in groups[g])
    && f.offset + f.pattern.length <= LineLength(l.number)
    && (f.offset > 0 ==> !HasStone(l.stroke, f.offset - 1, f.hand))
    && !HasStone(l.stroke, f.offset + f.pattern.length, f.hand)
    && Window(l.stroke, f.offset, f.pattern.length) == Target(f.pattern, f.hand)
  }

  /**
   * `patterns.some(...)` stops at the first pattern the test accepts: no
   * figure when none does, else the figure of the first one.
   */
  lemma {:induction false} FirstAcceptedIff(l: Line, kind: int, move: nat, left: int, hand: int, ps: seq<Pattern>)
    ensures FirstAccepted(l, kind, move, left, hand, ps).None? <==>
      forall i :: 0 <= i < |ps| ==> !Accepts(l, kind, move, left, hand, ps[i])
    ensures FirstAccepted(l, kind, move, left, hand, ps).Some? ==>
      exists i :: 0 <= i < |ps| && Accepts(l, kind, move, left, hand, ps[i])
        && (forall j :: 0 <= j < i ==> !Accepts(l, kind, move, left, hand, ps[j]))
        && FirstAccepted(l, kind, move, left, hand, ps).value == FigureAt(l, move, hand, ps[i])
  {
    if ps != [] {
      FirstAcceptedIff(l, kind, move, left, hand, ps[1..]);
      if !Accepts(l, kind, move, left, hand, ps[0]) {
        if FirstAccepted(l, kind, move, left, hand, ps).Some? {
          var i :| 0 <= i < |ps[1..]| && Accepts(l, kind, move, left, hand, ps[1..][i])
            && (forall j :: 0 <= j < i ==> !Accepts(l, kind, move, left, hand, ps[1..][j]))
            && FirstAccepted(l, kind, move, left, hand, ps[1..]).value == FigureAt(l, move, hand, ps[1..][i]);
          assert Accepts(l, kind, move, left, hand, ps[i + 1]);
        } else {
          forall i | 0 <= i < |ps|
            ensures !Accepts(l, kind, move, left, hand, ps[i])
          {
            if i > 0 {
              assert ps[i] == ps[1..][i - 1];
            }
          }
        }
      }
    }
  }

  /** A pattern of a group that the test accepts gives a sound figure. */
  lemma FirstAcceptedSound(l: Line, kind: int, move: nat, left: int, hand: int,
                           groups: seq<seq<Pattern>>, g: nat)
    requires g < |groups| && (hand == 0 || hand == 1)
    ensures var f := FirstAccepted(l, kind, move, left, hand, groups[g]);
      f.Some? ==> Sound(l, kind, groups, f.value)
  {
    var ps := groups[g];
    FirstAcceptedIff(l, kind, move, left, hand, ps);
    if FirstAccepted(l, kind, move, left, hand, ps).Some? {
      var i :| 0 <= i < |ps| && Accepts(l, kind, move, left, hand, ps[i])
        && FirstAccepted(l, kind, move, left, hand, ps).value == FigureAt(l, move, hand, ps[i]);
      AcceptedSound(l, kind, move, left, hand, groups, g, i);
    }
  }

  /** The figure of an accepted pattern of group g is sound. */
  lemma AcceptedSound(l: Line, kind: int, move: nat, left: int, hand: int,
                      groups: seq<seq<Pattern>>, g: nat, i: nat)
    requires g < |groups| && i < |groups[g]| && (hand == 0 || hand == 1)
    requires Accepts(l, kind, move, left, hand, groups[g][i])
    ensures Sound(l, kind, groups, FigureAt(l, move, hand, groups[g][i]))
  {
    assert groups[g][i] in groups[g];
  }

  /** One pass over the groups gives at most one figure per group, each sound. */
  lemma {:induction false} GroupFiguresSound(l: Line, kind: int, move: nat, left: int, hand: int,
                                              groups: seq<seq<Pattern>>, all: seq<seq<Pattern>>)
    requires hand == 0 || hand == 1
    requires forall g :: 0 <= g < |groups| ==> groups[g] in all
    ensures |GroupFigures(l, kind, move, left, hand, groups)| <= |groups|
    ensures forall f :: f in GroupFigures(l, kind, move, left, hand, groups) ==> Sound(l, kind, all, f)
  {
    if groups != [] {
      var n := |groups| - 1;
      GroupFiguresSound(l, kind, move, left, hand, groups[..n], all);
      var last := FirstAccepted(l, kind, move, left, hand, groups[n]);
      var k :| 0 <= k < |all| && all[k] == groups[n];
      FirstAcceptedSound(l, kind, move, left, hand, all, k);
    }
  }

  /** Every figure the scan reports from cell `move` on is sound. */
  lemma {:induction false} ScanSound(l: Line, kind: int, groups: seq<seq<Pattern>>, move: nat, bl: int, wl: int)
    ensures forall f :: f in Scan(l, kind, groups, move, bl, wl) ==> Sound(l, kind, groups, f)
    decreases Shift(l.stroke, move)
  {
    var probe := Shift(l.stroke, move);
    if probe != 0 {
      ShiftStep(l.stroke, move);
      var black := probe % 4 >= 2;
      var white := probe % 2 == 1;
      GroupFiguresSound(l, kind, move, bl, 1, groups, groups);
      GroupFiguresSound(l, kind, move, wl, 0, groups, groups);
      ScanSound(l, kind, groups, move + 1, if black then bl - 1 else bl, if white then wl - 1 else wl);
    }
  }

  /** Every figure `line.findFigures(figures, type)` adds is sound for the requested type. */
  lemma LineFiguresSound(l: Line, kind: int)
    ensures forall f :: f in LineFigures(l, kind) ==> Sound(l, Requested(kind), SolverPatterns, f)
  {
    ScanSound(l, Requested(kind), SolverPatterns, 0, l.blen, l.wlen);
  }

  /**
   * On a board line, every figure findFigures reports is placed: its window
   * and all its offset lists stay on the line, it has a first stone, and as
   * many stones as its type says.
   */
  lemma LineFiguresPlaced(l: Line, kind: int)
    requires ValidLine(l.number)
    ensures forall f :: f in LineFigures(l, kind) ==>
      && Placed(f)
      && f.pattern.move.Some?
      && |f.pattern.moves| == StonesOfType(f.pattern.kind)
  {
    LineFiguresSound(l, kind);
    forall f | f in LineFigures(l, kind)
      ensures Placed(f) && f.pattern.move.Some? && |f.pattern.moves| == StonesOfType(f.pattern.kind)
    {
      FigurePlaced(l, Requested(kind), f);
    }
  }

  /** A figure a line reports with one of the solver's patterns is placed, and its pattern has a first stone and its type's count of stones. */
  lemma FigurePlaced(l: Line, kind: int, f: Figure)
    requires ValidLine(l.number) && Sound(l, kind, SolverPatterns, f)
    ensures Placed(f) && f.pattern.move.Some? && |f.pattern.moves| == StonesOfType(f.pattern.kind)
  {
    CatalogPatterns();
    var g :| 0 <= g < |SolverPatterns| && f.pattern in SolverPatterns[g];
    var i :| 0 <= i < |SolverPatterns[g]| && SolverPatterns[g][i] == f.pattern;
    var t := Catalog[g][i];
    assert f.pattern == PatternOf(t.kind, t.text, t.rating);
    PatternPlaced(f, t.kind, t.text, t.rating);
  }
}
