/**
 * What the solver asks of a position (docs/translated/layout.js): the stone
 * on a square, the leading figure, the rating, the candidate moves of
 * either side and the squares still free.
 */
module LayoutQueries {
  import opened Wrappers
  import opened Base4
  import opened LineGeometry
  import opened Sorting
  import opened Patterns
  import opened Figures
  import opened Lines
  import opened Layouts
  import LayoutLines

  // ---------------------------------------------------------------------------
  // getStone

  /**
   * `Layout.prototype.getStone(square)`: walk the row lines for the
   * square's row and read the cell; -1 when there is no such line.
   */
  method GetStone(L: Layout, sq: nat) returns (c: int)
    ensures c == LayoutLines.StoneFrom(L.lines, sq, 0)
  {
    c := -1;
    if |L.lines| > 0 {
      var number := Row(sq);
      var i := 0;
      while i < |L.lines| && L.lines[i].number < 0x20
        invariant 0 <= i <= |L.lines|
        invariant LayoutLines.StoneFrom(L.lines, sq, 0) == LayoutLines.StoneFrom(L.lines, sq, i)
      {
        if L.lines[i].number == number {
          var offset := Col(sq);
          return Lines.GetStone(L.lines[i], offset);
        }
        i := i + 1;
      }
    }
  }

  /** On a position showing m, `getStone` answers the colour on the square, or -1 when it is empty. */
  lemma GetStoneShows(L: Layout, m: map<nat, int>, sq: nat)
    requires Shows(L, m) && OnBoard(sq)
    ensures LayoutLines.StoneFrom(L.lines, sq, 0) == if sq in m then m[sq] else -1
  {
    LayoutLines.StoneFromBoard(L.lines, m, sq);
  }

  /** After `makeMove(square)` the square holds the mover's stone; after `backMove` it is empty again. */
  lemma GetStoneAfterMoves(L: Layout, m: map<nat, int>, sq: nat)
    requires Shows(L, m) && OnBoard(sq) && sq !in m
    ensures Moved(L, sq).Success?
    ensures LayoutLines.StoneFrom(Moved(L, sq).value.lines, sq, 0) == L.hand
    ensures BackMoved(Moved(L, sq).value, sq).Success?
    ensures LayoutLines.StoneFrom(BackMoved(Moved(L, sq).value, sq).value.lines, sq, 0) == -1
  {
    MovedShows(L, m, sq);
    var r := Moved(L, sq).value;
    GetStoneShows(r, m[sq := L.hand], sq);
    MoveThenBack(L, m, sq);
    GetStoneShows(L, m, sq);
  }

  // ---------------------------------------------------------------------------
  // top and rate

  /** `Layout.prototype.top()`: the first figure, `null` when there is none. */
  function Top(L: Layout): (r: Option<Figure>)
    ensures r.None? <==> L.figures == []
    ensures r.Some? ==> r.value in L.figures
  {
    if |L.figures| > 0 then Some(L.figures[0]) else None
  }

  /**
   * With the figures sorted for the side to move, as every position keeps
   * them, the top figure ranks first: no figure has a smaller key.
   */
  lemma TopRanksFirst(L: Layout)
    requires SortedBy(L.figures, Before(L.hand))
    ensures Top(L).Some? ==> forall f :: f in L.figures ==> Key(L.hand, Top(L).value) <= Key(L.hand, f)
  {
    if Top(L).Some? {
      forall f | f in L.figures
        ensures Key(L.hand, Top(L).value) <= Key(L.hand, f)
      {
        var k :| 0 <= k < |L.figures| && L.figures[k] == f;
        if k > 0 {
          assert Before(L.hand)(L.figures[0], L.figures[k]);
        }
      }
    }
  }

  /** What a figure adds to the rating of `hand`: its rating if it is `hand`'s, minus it otherwise. */
  function Score(f: Figure, hand: int): int
  {
    if f.hand == hand then f.pattern.rating else -f.pattern.rating
  }

  /** The sum of the scores of the figures for `hand`. */
  function Rating(fs: seq<Figure>, hand: int): int
  {
    if fs == [] then 0 else Rating(fs[..|fs| - 1], hand) + Score(fs[|fs| - 1], hand)
  }

  /** `Layout.prototype.rate()`: the mover's figure ratings minus the opponent's. */
  method Rate(L: Layout) returns (rating: int)
    ensures rating == Rating(L.figures, L.hand)
  {
    rating := 0;
    var k := 0;
    while k < |L.figures|
      invariant 0 <= k <= |L.figures|
      invariant rating == Rating(L.figures[..k], L.hand)
    {
      assert L.figures[..k + 1][..k] == L.figures[..k];
      var figure := L.figures[k];
      if figure.hand == L.hand {
        rating := rating + figure.pattern.rating;
      } else {
        rating := rating - figure.pattern.rating;
      }
      k := k + 1;
    }
    assert L.figures[..k] == L.figures;
  }

  lemma {:induction false} RatingAppend(a: seq<Figure>, b: seq<Figure>, hand: int)
    ensures Rating(a + b, hand) == Rating(a, hand) + Rating(b, hand)
    decreases |b|
  {
    if b == [] {
      assert a + b == a;
    } else {
      assert (a + b)[..|a + b| - 1] == a + b[..|b| - 1];
      RatingAppend(a, b[..|b| - 1], hand);
    }
  }

  lemma RatingCons(x: Figure, s: seq<Figure>, hand: int)
    ensures Rating([x] + s, hand) == Score(x, hand) + Rating(s, hand)
  {
    assert [x][..0] == [];
    RatingAppend([x], s, hand);
  }

  lemma {:induction false} RatingInsert(x: Figure, s: seq<Figure>, le: (Figure, Figure) -> bool, hand: int)
    ensures Rating(Insert(x, s, le), hand) == Score(x, hand) + Rating(s, hand)
  {
    if s == [] || le(x, s[0]) {
      RatingCons(x, s, hand);
    } else {
      RatingInsert(x, s[1..], le, hand);
      RatingCons(s[0], Insert(x, s[1..], le), hand);
      assert s == [s[0]] + s[1..];
      RatingCons(s[0], s[1..], hand);
    }
  }

  /** The rating does not depend on the order of the figures. */
  lemma {:induction false} RatingSort(fs: seq<Figure>, le: (Figure, Figure) -> bool, hand: int)
    ensures Rating(Sort(fs, le), hand) == Rating(fs, hand)
  {
    if fs != [] {
      var rest := Sort(fs[1..], le);
      assert Sort(fs, le) == Insert(fs[0], rest, le);
      RatingSort(fs[1..], le, hand);
      RatingInsert(fs[0], rest, le, hand);
      assert fs == [fs[0]] + fs[1..];
      RatingCons(fs[0], fs[1..], hand);
    }
  }

  /** With two colours, the rating for one side is minus the rating for the other. */
  lemma {:induction false} RatingSwap(fs: seq<Figure>, hand: int)
    requires hand == WHITE || hand == BLACK
    requires forall f :: f in fs ==> f.hand == WHITE || f.hand == BLACK
    ensures Rating(fs, Opposite(hand)) == -Rating(fs, hand)
  {
    if fs != [] {
      assert fs[|fs| - 1] in fs;
      forall f | f in fs[..|fs| - 1]
        ensures f.hand == WHITE || f.hand == BLACK
      {
        assert f in fs;
      }
      RatingSwap(fs[..|fs| - 1], hand);
    }
  }

  /** `swapHand` on all types (ONE keeps every figure) negates the rating. */
  lemma SwapNegatesRating(L: Layout)
    requires L.hand == WHITE || L.hand == BLACK
    requires forall f :: f in L.figures ==> (f.hand == WHITE || f.hand == BLACK) && f.pattern.kind <= ONE
    ensures Rating(Swapped(L, ONE).figures, Swapped(L, ONE).hand) == -Rating(L.figures, L.hand)
  {
    var h := Opposite(L.hand);
    AtMostSpec(L.figures, ONE);
    AtMostAll(L.figures, ONE);
    RatingSort(L.figures, Before(h), h);
    RatingSwap(L.figures, L.hand);
  }

  lemma {:induction false} AtMostAll(fs: seq<Figure>, t: int)
    requires forall f :: f in fs ==> f.pattern.kind <= t
    ensures AtMost(fs, t) == fs
  {
    if fs != [] {
      assert fs[|fs| - 1] in fs;
      forall f | f in fs[..|fs| - 1]
        ensures f.pattern.kind <= t
      {
        assert f in fs;
      }
      AtMostAll(fs[..|fs| - 1], t);
    }
  }

  // ---------------------------------------------------------------------------
  // gains and downs

  /** `forEach(square => if (r.indexOf(square) === -1) r.push(square))`. */
  method PushNew(r: seq<nat>, s: seq<nat>) returns (r': seq<nat>)
    ensures r' == AddNew(r, s)
  {
    r' := r;
    var i := 0;
    while i < |s|
      invariant 0 <= i <= |s|
      invariant AddNew(r, s) == AddNew(r', s[i..])
    {
      assert s[i..][1..] == s[i + 1..];
      if s[i] !in r' {
        r' := r' + [s[i]];
      }
      i := i + 1;
    }
  }

  /** `f` is one of the mover's figures of type at most t. */
  predicate Attacking(L: Layout, f: Figure, t: int)
  {
    f.hand == L.hand && f.pattern.kind <= t
  }

  /** `f` is one of the opponent's figures of type at most t. */
  predicate Defending(L: Layout, f: Figure, t: int)
  {
    f.hand != L.hand && f.pattern.kind <= t
  }

  /**
   * The list `gains(t)` builds from the figures `fs` for the mover `hand`:
   * each of the mover's figures of type at most t, in list order, appends
   * those of its `gains()` that the list lacks.
   */
  function GainsOf(fs: seq<Figure>, hand: int, t: int): seq<nat>
    decreases |fs|
  {
    if fs == [] then []
    else
      var r := GainsOf(fs[..|fs| - 1], hand, t);
      var f := fs[|fs| - 1];
      if Placed(f) && f.hand == hand && f.pattern.kind <= t then AddNew(r, AddNew([], Squares(f, f.pattern.gains))) else r
  }

  /** The same for `downs(t)`: the closing squares of the opponent's figures of type at most t. */
  function DownsOf(fs: seq<Figure>, hand: int, t: int): seq<nat>
    decreases |fs|
  {
    if fs == [] then []
    else
      var r := DownsOf(fs[..|fs| - 1], hand, t);
      var f := fs[|fs| - 1];
      if Placed(f) && f.hand != hand && f.pattern.kind <= t then AddNew(r, AddNew([], Squares(f, f.pattern.downs))) else r
  }

  /** `GainsOf` lists each square once, and exactly the strengthening squares of the mover's figures. */
  lemma {:induction false} GainsOfMembers(fs: seq<Figure>, hand: int, t: int)
    ensures Distinct(GainsOf(fs, hand, t))
    ensures forall x :: x in GainsOf(fs, hand, t) <==>
      exists f :: f in fs && Placed(f) && f.hand == hand && f.pattern.kind <= t && x in Squares(f, f.pattern.gains)
    decreases |fs|
  {
    if fs != [] {
      var init := fs[..|fs| - 1];
      var f := fs[|fs| - 1];
      GainsOfMembers(init, hand, t);
      assert fs == init + [f];
      if Placed(f) && f.hand == hand && f.pattern.kind <= t {
        AddNewSpec([], Squares(f, f.pattern.gains));
        AddNewSpec(GainsOf(init, hand, t), AddNew([], Squares(f, f.pattern.gains)));
      }
    }
  }

  /** `DownsOf` lists each square once, and exactly the closing squares of the opponent's figures. */
  lemma {:induction false} DownsOfMembers(fs: seq<Figure>, hand: int, t: int)
    ensures Distinct(DownsOf(fs, hand, t))
    ensures forall x :: x in DownsOf(fs, hand, t) <==>
      exists f :: f in fs && Placed(f) && f.hand != hand && f.pattern.kind <= t && x in Squares(f, f.pattern.downs)
    decreases |fs|
  {
    if fs != [] {
      var init := fs[..|fs| - 1];
      var f := fs[|fs| - 1];
      DownsOfMembers(init, hand, t);
      assert fs == init + [f];
      if Placed(f) && f.hand != hand && f.pattern.kind <= t {
        AddNewSpec([], Squares(f, f.pattern.downs));
        AddNewSpec(DownsOf(init, hand, t), AddNew([], Squares(f, f.pattern.downs)));
      }
    }
  }

  /**
   * The list `expand` tries in a position with top figure `top`, in the order
   * the source builds it: `downs(FOUR)`; or `gains(THREE)` followed by the
   * squares of `downs(OPEN_THREE)` it lacks; or `gains(OPEN_TWO)`.
   */
  function CandidateMoves(L: Layout, top: Figure): seq<nat>
  {
    var kind := top.pattern.kind;
    if kind == FOUR then DownsOf(L.figures, L.hand, FOUR)
    else if kind == OPEN_THREE then AddNew(GainsOf(L.figures, L.hand, THREE), DownsOf(L.figures, L.hand, OPEN_THREE))
    else GainsOf(L.figures, L.hand, OPEN_TWO)
  }

  /**
   * `Layout.prototype.gains(type)`: the strengthening squares of the mover's
   * figures of type at most `type`, in figure order, each once.
   */
  method Gains(L: Layout, t: int) returns (r: seq<nat>)
    requires forall f :: f in L.figures ==> Placed(f)
    ensures r == GainsOf(L.figures, L.hand, t)
    ensures Distinct(r)
    ensures forall x :: x in r <==>
      exists f :: f in L.figures && Placed(f) && Attacking(L, f, t) && x in Squares(f, f.pattern.gains)
  {
    r := [];
    var k := 0;
    while k < |L.figures|
      invariant 0 <= k <= |L.figures|
      invariant r == GainsOf(L.figures[..k], L.hand, t)
    {
      var figure := L.figures[k];
      assert L.figures[..k + 1][..k] == L.figures[..k] && L.figures[..k + 1][k] == figure;
      assert Placed(figure);
      if figure.hand == L.hand && figure.pattern.kind <= t {
        var squares := Figures.Gains(figure);
        r := PushNew(r, squares);
      }
      k := k + 1;
    }
    assert L.figures[..k] == L.figures;
    GainsOfMembers(L.figures, L.hand, t);
  }

  /**
   * `Layout.prototype.downs(type)`: the closing squares of the opponent's
   * figures of type at most `type`, in figure order, each once.
   */
  method Downs(L: Layout, t: int) returns (r: seq<nat>)
    requires forall f :: f in L.figures ==> Placed(f)
    ensures r == DownsOf(L.figures, L.hand, t)
    ensures Distinct(r)
    ensures forall x :: x in r <==>
      exists f :: f in L.figures && Placed(f) && Defending(L, f, t) && x in Squares(f, f.pattern.downs)
  {
    r := [];
    var k := 0;
    while k < |L.figures|
      invariant 0 <= k <= |L.figures|
      invariant r == DownsOf(L.figures[..k], L.hand, t)
    {
      var figure := L.figures[k];
      assert L.figures[..k + 1][..k] == L.figures[..k] && L.figures[..k + 1][k] == figure;
      assert Placed(figure);
      if figure.hand != L.hand && figure.pattern.kind <= t {
        var squares := Figures.Downs(figure);
        r := PushNew(r, squares);
      }
      k := k + 1;
    }
    assert L.figures[..k] == L.figures;
    DownsOfMembers(L.figures, L.hand, t);
  }

  // ---------------------------------------------------------------------------
  // availables

  /** Row `number` of the second-move sector from column c up to column 14 - number. */
  function SectorRow(number: nat, c: nat): seq<nat>
    requires number < 7
    decreases 15 - c
  {
    if c >= 15 - number then [] else [number * 16 + c] + SectorRow(number, c + 1)
  }

  /** The rows `number` to 6 of the second-move sector. */
  function Sector(number: nat): seq<nat>
    decreases 7 - number
  {
    if number >= 7 then [] else SectorRow(number, 7) + Sector(number + 1)
  }

  lemma {:induction false} SectorRowSpec(number: nat, c: nat)
    requires number < 7
    ensures forall x :: x in SectorRow(number, c) <==> Row(x) == number && c <= Col(x) < 15 - number
    ensures |SectorRow(number, c)| == if c < 15 - number then 15 - number - c else 0
    ensures LayoutLines.Ascending(SectorRow(number, c))
    ensures LayoutLines.RowsFrom(SectorRow(number, c), number)
    ensures LayoutLines.RowsBefore(SectorRow(number, c), number + 1)
    decreases 15 - c
  {
    if c < 15 - number {
      var sq := number * 16 + c;
      assert Row(sq) == number && Col(sq) == c by {
        assert sq == SquareAt(number, c);
      }
      var tail := SectorRow(number, c + 1);
      SectorRowSpec(number, c + 1);
      forall j | 0 <= j < |tail|
        ensures sq < tail[j]
      {
        assert tail[j] in tail;
        LayoutLines.SquareOrder(sq, tail[j]);
      }
      forall x | Row(x) == number && c <= Col(x) < 15 - number
        ensures x in SectorRow(number, c)
      {
        if Col(x) == c {
          assert x == sq;
        }
      }
    }
  }

  /**
   * The second-move sector: rows `number` to 6, in each the columns from 7
   * up to 14 minus the row, in ascending order; from row 0 that is 35 squares.
   */
  lemma {:induction false} SectorSpec(number: nat)
    ensures forall x :: x in Sector(number) <==> number <= Row(x) < 7 && 7 <= Col(x) <= 14 - Row(x)
    ensures |Sector(number)| == if number < 7 then (8 - number) * (9 - number) / 2 - 1 else 0
    ensures LayoutLines.Ascending(Sector(number)) && LayoutLines.RowsFrom(Sector(number), number)
    decreases 7 - number
  {
    if number < 7 {
      SectorRowSpec(number, 7);
      SectorSpec(number + 1);
      LayoutLines.AscendingJoin(SectorRow(number, 7), Sector(number + 1), number + 1);
      var k := 8 - number;
      assert k * (k + 1) == 2 * k + (k - 1) * k;
    }
  }

  /** The squares `availables` lists. */
  function AvailableSquares(L: Layout): seq<nat>
  {
    if L.count < 1 then [0x77]
    else if L.count < 2 then Sector(0)
    else LayoutLines.Walk(L.lines, 0, 0)
  }

  /**
   * What `availables` lists for a position showing board m: the centre on
   * the empty board, the 35 squares of the sector after one stone, and
   * otherwise exactly the free squares of the board in ascending order.
   */
  lemma AvailablesShows(L: Layout, m: map<nat, int>)
    requires Shows(L, m)
    ensures L.count == 0 ==> AvailableSquares(L) == [SquareAt(7, 7)] && m == map[]
    ensures L.count == 1 ==> |AvailableSquares(L)| == 35
    ensures L.count == 1 ==> forall x :: x in AvailableSquares(L) <==> Row(x) < 7 && 7 <= Col(x) <= 14 - Row(x)
    ensures L.count >= 2 ==> forall x :: x in AvailableSquares(L) <==> OnBoard(x) && x !in m
    ensures LayoutLines.Ascending(AvailableSquares(L))
  {
    if L.count == 0 {
      assert |m| == 0;
      assert m == map[];
    } else if L.count == 1 {
      SecondMoveSquares(L);
    } else {
      LayoutLines.WalkBoard(L.lines, m);
    }
  }

  /** After one stone: the 35 squares of the sector, one eighth of the board, in ascending order. */
  lemma SecondMoveSquares(L: Layout)
    requires L.count == 1
    ensures |AvailableSquares(L)| == 35
    ensures forall x :: x in AvailableSquares(L) <==> Row(x) < 7 && 7 <= Col(x) <= 14 - Row(x)
    ensures LayoutLines.Ascending(AvailableSquares(L))
  {
    SectorSpec(0);
  }

  /**
   * `Layout.prototype.availables()`: the centre on an empty board; after
   * one stone, one eighth of the board (the others follow by symmetry);
   * otherwise every free square, row by row.
   */
  method Availables(L: Layout) returns (r: seq<nat>)
    ensures r == AvailableSquares(L)
  {
    r := [];
    if L.count < 1 {
      r := r + [0x77];
    } else if L.count < 2 {
      r := SectorSquares(r);
    } else {
      r := FreeSquares(r, L.lines);
    }
  }

  /** Regrouping a concatenation, stated once for the loops below. */
  lemma AppendAssoc(a: seq<nat>, b: seq<nat>, c: seq<nat>)
    ensures (a + b) + c == a + (b + c)
  {
  }

  /** The empty sequence is a unit of concatenation, on either side. */
  lemma EmptyAppend(a: seq<nat>)
    ensures [] + a == a
  {
  }

  lemma AppendEmpty(a: seq<nat>)
    ensures a + [] == a
  {
  }

  /** The outer loop of `availables` for a single stone on the board: rows 0 to 6 of the sector. */
  method SectorSquares(r: seq<nat>) returns (r': seq<nat>)
    ensures r' == r + Sector(0)
  {
    r' := r;
    var right := 15;
    var number := 0;
    while number < 7
      invariant 0 <= number <= 7 && right == 15 - number
      invariant r' + Sector(number) == r + Sector(0)
    {
      AppendAssoc(r', SectorRow(number, 7), Sector(number + 1));
      r' := PushSectorRow(r', number, right);
      right := right - 1;
      number := number + 1;
    }
  }

  /** The inner loop: columns 7 up to `right` of row `number`, the sector narrowing by one each row. */
  method PushSectorRow(r: seq<nat>, number: nat, right: nat) returns (r': seq<nat>)
    requires number < 7 && right == 15 - number
    ensures r' == r + SectorRow(number, 7)
  {
    r' := r;
    var offset := 7;
    while offset < right
      invariant 7 <= offset <= right
      invariant r' + SectorRow(number, offset) == r + SectorRow(number, 7)
    {
      var sq: nat := number * 16 + offset;
      AppendAssoc(r', [sq], SectorRow(number, offset + 1));
      r' := r' + [sq];
      offset := offset + 1;
    }
  }

  /** `for (offset = 0; offset < 15; offset++) r.push((number << 4) | offset)`. */
  method PushRow(r: seq<nat>, number: nat) returns (r': seq<nat>)
    ensures r' == r + LayoutLines.WholeRow(number)
  {
    r' := r;
    var offset := 0;
    while offset < 15
      invariant offset <= 15
      invariant r' + LayoutLines.FullRow(number, offset) == r + LayoutLines.WholeRow(number)
    {
      var sq: nat := number * 16 + offset;
      AppendAssoc(r', [sq], LayoutLines.FullRow(number, offset + 1));
      r' := r' + [sq];
      offset := offset + 1;
    }
  }

  /** The probe loop of `availables`: push the squares of row `number` whose cell in the stroke is empty. */
  method PushEmpty(r: seq<nat>, stroke: nat, number: nat) returns (r': seq<nat>)
    ensures r' == r + LayoutLines.RowEmpties(stroke, number)
  {
    r' := r;
    var probe := stroke;
    var offset := 0;
    while offset < 15
      invariant offset <= 15 && probe == Shift(stroke, offset)
      invariant r' + LayoutLines.EmptyCells(stroke, number, offset) == r + LayoutLines.RowEmpties(stroke, number)
    {
      ShiftStep(stroke, offset);
      var rest := LayoutLines.EmptyCells(stroke, number, offset + 1);
      if probe % 4 == 0 {
        var sq: nat := number * 16 + offset;
        assert LayoutLines.EmptyCells(stroke, number, offset) == [sq] + rest;
        AppendAssoc(r', [sq], rest);
        r' := r' + [sq];
      } else {
        assert LayoutLines.EmptyCells(stroke, number, offset) == rest;
      }
      probe := probe / 4;
      offset := offset + 1;
    }
  }

  /** The row walk of `availables` with two stones or more. */
  method FreeSquares(r: seq<nat>, ls: seq<Line>) returns (r': seq<nat>)
    ensures r' == r + LayoutLines.Walk(ls, 0, 0)
  {
    r' := r;
    var i: nat := 0;
    var number: nat := 0;
    while i < |ls| && ls[i].number < 15
      invariant i <= |ls|
      invariant r' + LayoutLines.Walk(ls, i, number) == r + LayoutLines.Walk(ls, 0, 0)
      decreases |ls| - i
    {
      var e := ls[i];
      while number < e.number
        invariant r' + LayoutLines.Walk(ls, i, number) == r + LayoutLines.Walk(ls, 0, 0)
      {
        LayoutLines.WalkRow(ls, i, number);
        AppendAssoc(r', LayoutLines.WholeRow(number), LayoutLines.Walk(ls, i, number + 1));
        r' := PushRow(r', number);
        number := number + 1;
      }
      LayoutLines.WalkLine(ls, i, number);
      AppendAssoc(r', LayoutLines.RowEmpties(e.stroke, number), LayoutLines.Walk(ls, i + 1, number + 1));
      r' := PushEmpty(r', e.stroke, number);
      number := number + 1;
      i := i + 1;
    }
    while number < 15
      invariant r' + LayoutLines.Walk(ls, i, number) == r + LayoutLines.Walk(ls, 0, 0)
    {
      LayoutLines.WalkRow(ls, i, number);
      AppendAssoc(r', LayoutLines.WholeRow(number), LayoutLines.Walk(ls, i, number + 1));
      r' := PushRow(r', number);
      number := number + 1;
    }
    LayoutLines.WalkDone(ls, i, number);
    AppendEmpty(r');
  }
}
