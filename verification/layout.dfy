/**
 * Positions (docs/translated/layout.js): the lines holding the stones, the
 * side to move, the figures found on the lines, the weakest figure type
 * looked for, and the number of stones.  A position is never changed in
 * place: every move builds a new one.
 */
module Layouts {
  import opened Wrappers
  import opened LineGeometry
  import opened Sorting
  import opened Base4
  import opened Patterns
  import opened PatternCatalog
  import opened Figures
  import opened Lines
  import LayoutLines

  /** `Layout.BLACK` and `Layout.WHITE`. */
  const BLACK := 1
  const WHITE := 0

  datatype Layout = Layout(lines: seq<Line>, hand: int, figures: seq<Figure>, kind: int, count: int)

  /** The colour moving after `hand`: `hand === BLACK ? WHITE : BLACK`. */
  function Opposite(hand: int): (h: int)
    ensures h == WHITE || h == BLACK
    ensures (hand == WHITE || hand == BLACK) ==> h != hand
  {
    if hand == BLACK then WHITE else BLACK
  }

  /** Passing the move twice gives it back. */
  lemma OppositeTwice(hand: int)
    requires hand == WHITE || hand == BLACK
    ensures Opposite(Opposite(hand)) == hand
  {
  }

  /**
   * The empty position `new Layout(undefined, undefined, undefined, type)`:
   * black to move, no lines, no figures.  A type of 0 is falsy and gives ONE.
   */
  function Empty(kind: int): (r: Layout)
    ensures r.lines == [] && r.figures == [] && r.count == 0 && r.hand == BLACK
    ensures r.kind == (if kind == FIVE then ONE else kind)
  {
    Layout([], BLACK, [], Requested(kind), 0)
  }

  // ---------------------------------------------------------------------------
  // Figures of a list of lines

  /**
   * The figures `findFigures` reports on line l for type `kind`, matching
   * the pattern groups `groups`; the solver's own are `SolverPatterns`.
   */
  function Found(l: Line, kind: int, groups: seq<seq<Pattern>>): seq<Figure>
  {
    Scan(l, Requested(kind), groups, 0, l.blen, l.wlen)
  }

  lemma FoundLineFigures(l: Line, kind: int)
    ensures Found(l, kind, SolverPatterns) == LineFigures(l, kind)
  {
  }

  /** Every figure found on a line carries the line's number. */
  lemma FoundOnLine(l: Line, kind: int, groups: seq<seq<Pattern>>)
    ensures forall f :: f in Found(l, kind, groups) ==> f.number == l.number
  {
    ScanSound(l, Requested(kind), groups, 0, l.blen, l.wlen);
  }

  /** The figures found on every line of ls, line by line. */
  function LinesFigures(ls: seq<Line>, kind: int, groups: seq<seq<Pattern>>): seq<Figure>
  {
    if ls == [] then [] else LinesFigures(ls[..|ls| - 1], kind, groups) + Found(ls[|ls| - 1], kind, groups)
  }

  /** The figures found on the lines of ls through the square. */
  function FiguresOn(ls: seq<Line>, sq: nat, kind: int, groups: seq<seq<Pattern>>): seq<Figure>
    requires OnBoard(sq)
  {
    if ls == [] then []
    else
      FiguresOn(ls[..|ls| - 1], sq, kind, groups)
      + (if OnSameLine(ls[|ls| - 1].number, sq) then Found(ls[|ls| - 1], kind, groups) else [])
  }

  /** The figures of fs not on a line through the square, in order. */
  function Kept(fs: seq<Figure>, sq: nat): seq<Figure>
    requires OnBoard(sq)
  {
    if fs == [] then []
    else Kept(fs[..|fs| - 1], sq) + (if OnFigureLine(fs[|fs| - 1], sq) then [] else [fs[|fs| - 1]])
  }

  /** The figures of fs with a type no weaker than t, in order. */
  function AtMost(fs: seq<Figure>, t: int): seq<Figure>
  {
    if fs == [] then []
    else AtMost(fs[..|fs| - 1], t) + (if fs[|fs| - 1].pattern.kind <= t then [fs[|fs| - 1]] else [])
  }

  lemma {:induction false} KeptSpec(fs: seq<Figure>, sq: nat)
    requires OnBoard(sq)
    ensures forall f :: f in Kept(fs, sq) <==> f in fs && !OnSameLine(f.number, sq)
  {
    if fs != [] {
      KeptSpec(fs[..|fs| - 1], sq);
      assert fs == fs[..|fs| - 1] + [fs[|fs| - 1]];
    }
  }

  lemma {:induction false} AtMostSpec(fs: seq<Figure>, t: int)
    ensures forall f :: f in AtMost(fs, t) <==> f in fs && f.pattern.kind <= t
  {
    if fs != [] {
      AtMostSpec(fs[..|fs| - 1], t);
      assert fs == fs[..|fs| - 1] + [fs[|fs| - 1]];
    }
  }

  /** A figure on one of the lines of ls through the square lies on a line through the square. */
  lemma {:induction false} FiguresOnSpec(ls: seq<Line>, sq: nat, kind: int, groups: seq<seq<Pattern>>)
    requires OnBoard(sq)
    ensures forall f :: f in FiguresOn(ls, sq, kind, groups) <==>
      exists k :: 0 <= k < |ls| && OnSameLine(ls[k].number, sq) && f in Found(ls[k], kind, groups)
    ensures forall f :: f in FiguresOn(ls, sq, kind, groups) ==> OnSameLine(f.number, sq)
  {
    if ls != [] {
      var init := ls[..|ls| - 1];
      var last := ls[|ls| - 1];
      FiguresOnSpec(init, sq, kind, groups);
      FoundOnLine(last, kind, groups);
      forall f
        ensures f in FiguresOn(ls, sq, kind, groups) <==>
          exists k :: 0 <= k < |ls| && OnSameLine(ls[k].number, sq) && f in Found(ls[k], kind, groups)
      {
        if f in FiguresOn(ls, sq, kind, groups) && f !in FiguresOn(init, sq, kind, groups) {
          assert OnSameLine(ls[|ls| - 1].number, sq) && f in Found(ls[|ls| - 1], kind, groups);
        }
        if exists k :: 0 <= k < |ls| && OnSameLine(ls[k].number, sq) && f in Found(ls[k], kind, groups) {
          var k :| 0 <= k < |ls| && OnSameLine(ls[k].number, sq) && f in Found(ls[k], kind, groups);
          if k < |ls| - 1 {
            assert ls[k] == init[k];
          }
        }
      }
    }
  }

  lemma {:induction false} LinesFiguresSpec(ls: seq<Line>, kind: int, groups: seq<seq<Pattern>>)
    ensures forall f :: f in LinesFigures(ls, kind, groups) <==>
      exists k :: 0 <= k < |ls| && f in Found(ls[k], kind, groups)
  {
    if ls != [] {
      var init := ls[..|ls| - 1];
      LinesFiguresSpec(init, kind, groups);
      forall f
        ensures f in LinesFigures(ls, kind, groups) <==> exists k :: 0 <= k < |ls| && f in Found(ls[k], kind, groups)
      {
        if f in LinesFigures(ls, kind, groups) && f !in LinesFigures(init, kind, groups) {
          assert f in Found(ls[|ls| - 1], kind, groups);
        }
        if exists k :: 0 <= k < |ls| && f in Found(ls[k], kind, groups) {
          var k :| 0 <= k < |ls| && f in Found(ls[k], kind, groups);
          if k < |ls| - 1 {
            assert ls[k] == init[k];
          }
        }
      }
    }
  }

  // ---------------------------------------------------------------------------
  // Moves

  /** The loop of `makeMove`/`backMove` that keeps the figures off the square's lines. */
  method KeepFigures(figures: seq<Figure>, sq: nat) returns (fs: seq<Figure>)
    requires OnBoard(sq)
    ensures fs == Kept(figures, sq)
  {
    fs := [];
    var k := 0;
    while k < |figures|
      invariant 0 <= k <= |figures|
      invariant fs == Kept(figures[..k], sq)
    {
      assert figures[..k + 1][..k] == figures[..k];
      if !OnFigureLine(figures[k], sq) {
        fs := fs + [figures[k]];
      }
      k := k + 1;
    }
    assert figures[..k] == figures;
  }

  /** The loop of `makeMove`/`backMove` that looks for figures on the lines through the square. */
  method RescanLines(ls: seq<Line>, fs: seq<Figure>, sq: nat, kind: int, groups: seq<seq<Pattern>>)
    returns (fs': seq<Figure>)
    requires OnBoard(sq)
    ensures fs' == fs + FiguresOn(ls, sq, kind, groups)
  {
    fs' := fs;
    var k := 0;
    while k < |ls|
      invariant 0 <= k <= |ls|
      invariant fs' == fs + FiguresOn(ls[..k], sq, kind, groups)
    {
      assert ls[..k + 1][..k] == ls[..k];
      if OnSameLine(ls[k].number, sq) {
        fs' := ScanFigures(ls[k], fs', kind, groups);
      }
      k := k + 1;
    }
    assert ls[..k] == ls;
  }

  /**
   * The figures of a position after a stone is put on or taken off the
   * square, the lines being already updated to ls: the old figures off
   * the square's lines, then the figures found again on the lines through
   * the square, sorted for the side to move next.
   */
  function Refigured(figures: seq<Figure>, ls: seq<Line>, sq: nat, kind: int, h: int, groups: seq<seq<Pattern>>)
    : seq<Figure>
    requires OnBoard(sq)
  {
    Sort(Kept(figures, sq) + FiguresOn(ls, sq, kind, groups), Before(h))
  }

  /** The figure bookkeeping shared by `makeMove` and `backMove`. */
  method Refigure(figures: seq<Figure>, ls: seq<Line>, sq: nat, kind: int, h: int) returns (fs: seq<Figure>)
    requires OnBoard(sq)
    ensures fs == Refigured(figures, ls, sq, kind, h, SolverPatterns)
  {
    fs := KeepFigures(figures, sq);
    fs := RescanLines(ls, fs, sq, kind, SolverPatterns);
    fs := Sort(fs, Before(h));
  }

  /** The lines after `addStone(square)`: the mover's stone put on, the lines sorted. */
  function Added(L: Layout, sq: nat): Result<seq<Line>, string>
    requires OnBoard(sq) && (L.hand == WHITE || L.hand == BLACK)
  {
    match LayoutLines.WithStone(L.lines, sq, L.hand)
    case Failure(e) => Failure(e)
    case Success(ls) => Success(Sort(ls, LineOrder()))
  }

  /** `Layout.prototype.addStone(square)`: works on a copy of the lines. */
  method AddStone(L: Layout, sq: nat) returns (r: Result<seq<Line>, string>)
    requires OnBoard(sq) && (L.hand == WHITE || L.hand == BLACK)
    ensures r == Added(L, sq)
  {
    var put := LayoutLines.PutStone(L.lines, sq, L.hand);
    if put.Failure? {
      return Failure(put.error);
    }
    r := Success(Sort(put.value, LineOrder()));
  }

  /** The position after `makeMove(square)`; a `Failure` where `putStone` throws. */
  function Moved(L: Layout, sq: nat): Result<Layout, string>
    requires OnBoard(sq) && (L.hand == WHITE || L.hand == BLACK)
  {
    match Added(L, sq)
    case Failure(e) => Failure(e)
    case Success(ls) =>
      var h := Opposite(L.hand);
      Success(Layout(ls, h, Refigured(L.figures, ls, sq, L.kind, h, SolverPatterns), L.kind, L.count + 1))
  }

  /**
   * `Layout.prototype.makeMove(square)`: the mover's stone goes on the
   * square (`addStone`: put on a copy of the lines, then sort them), the
   * figures off the square's lines are kept, the lines through the square
   * are scanned again, and the figures are sorted for the new side to move.
   */
  method MakeMove(L: Layout, sq: nat) returns (r: Result<Layout, string>)
    requires OnBoard(sq) && (L.hand == WHITE || L.hand == BLACK)
    ensures r == Moved(L, sq)
  {
    var added := AddStone(L, sq);
    if added.Failure? {
      return Failure(added.error);
    }
    var ls := added.value;
    var h := Opposite(L.hand);
    var fs := Refigure(L.figures, ls, sq, L.kind, h);
    r := Success(Layout(ls, h, fs, L.kind, L.count + 1));
    MovedFrom(L, sq, ls);
  }

  /** Once the stone is added, the moved position is the new lines with the figures redone for the other side. */
  lemma MovedFrom(L: Layout, sq: nat, ls: seq<Line>)
    requires OnBoard(sq) && (L.hand == WHITE || L.hand == BLACK) && Added(L, sq) == Success(ls)
    ensures Moved(L, sq) == Success(Layout(ls, Opposite(L.hand), Refigured(L.figures, ls, sq, L.kind, Opposite(L.hand), SolverPatterns), L.kind, L.count + 1))
  {
  }

  /** The position after `backMove(square)`; a `Failure` where `removeStone` throws. */
  function BackMoved(L: Layout, sq: nat): Result<Layout, string>
    requires OnBoard(sq) && (L.hand == WHITE || L.hand == BLACK)
  {
    match LayoutLines.WithoutStone(L.lines, sq, Opposite(L.hand))
    case Failure(e) => Failure(e)
    case Success(ls) =>
      var h := Opposite(L.hand);
      Success(Layout(ls, h, Refigured(L.figures, ls, sq, L.kind, h, SolverPatterns), L.kind, L.count - 1))
  }

  /**
   * `Layout.prototype.backMove(square)`: the stone of the side that moved
   * last leaves the square (`removeStone`, which drops the lines left
   * empty), and the figures are rebuilt as in `makeMove`.
   */
  method BackMove(L: Layout, sq: nat) returns (r: Result<Layout, string>)
    requires OnBoard(sq) && (L.hand == WHITE || L.hand == BLACK)
    ensures r == BackMoved(L, sq)
  {
    var removed := LayoutLines.RemoveStone(L.lines, sq, Opposite(L.hand));
    if removed.Failure? {
      return Failure(removed.error);
    }
    var ls := removed.value;
    var h := Opposite(L.hand);
    var fs := Refigure(L.figures, ls, sq, L.kind, h);
    r := Success(Layout(ls, h, fs, L.kind, L.count - 1));
  }

  // ---------------------------------------------------------------------------
  // What a move does to the board and to the figures

  /** The figures are exactly those `findFigures` reports on the lines. */
  ghost predicate FiguresOfLines(figures: seq<Figure>, ls: seq<Line>, kind: int, groups: seq<seq<Pattern>>)
  {
    forall f :: f in figures <==> exists k :: 0 <= k < |ls| && f in Found(ls[k], kind, groups)
  }

  /**
   * The figure list after a move: sorted for the side to move, every old
   * figure off the square's lines is kept, and every figure that is new,
   * or that is kept from a line through the square only because it was
   * found there again, lies on a line through the square.
   */
  lemma RefiguredSpec(figures: seq<Figure>, ls: seq<Line>, sq: nat, kind: int, h: int, groups: seq<seq<Pattern>>)
    requires OnBoard(sq)
    ensures var r := Refigured(figures, ls, sq, kind, h, groups);
      && SortedBy(r, Before(h))
      && (forall f :: f in figures && !OnSameLine(f.number, sq) ==> f in r)
      && (forall f :: f in r && OnSameLine(f.number, sq) ==>
            exists k :: 0 <= k < |ls| && OnSameLine(ls[k].number, sq) && f in Found(ls[k], kind, groups))
      && (forall f :: f in r && f !in figures ==> OnSameLine(f.number, sq))
  {
    var r := Refigured(figures, ls, sq, kind, h, groups);
    var all := Kept(figures, sq) + FiguresOn(ls, sq, kind, groups);
    SortSorted(all, Before(h));
    KeptSpec(figures, sq);
    FiguresOnSpec(ls, sq, kind, groups);
    forall f
      ensures f in r <==> f in Kept(figures, sq) || f in FiguresOn(ls, sq, kind, groups)
    {
      SortMembers(all, Before(h), f);
    }
  }

  /**
   * When the lines change only through the square, rebuilding the figures
   * as `makeMove` and `backMove` do keeps them equal to the figures of the
   * lines.
   */
  lemma RefiguredLines(figures: seq<Figure>, ls: seq<Line>, ls': seq<Line>, sq: nat, kind: int, h: int,
                       groups: seq<seq<Pattern>>)
    requires OnBoard(sq) && FiguresOfLines(figures, ls, kind, groups)
    requires forall x :: x in ls && !OnSameLine(x.number, sq) ==> x in ls'
    requires forall x :: x in ls' ==> x in ls || OnSameLine(x.number, sq)
    ensures FiguresOfLines(Refigured(figures, ls', sq, kind, h, groups), ls', kind, groups)
  {
    var r := Refigured(figures, ls', sq, kind, h, groups);
    var all := Kept(figures, sq) + FiguresOn(ls', sq, kind, groups);
    KeptSpec(figures, sq);
    FiguresOnSpec(ls', sq, kind, groups);
    forall f
      ensures f in r <==> exists k :: 0 <= k < |ls'| && f in Found(ls'[k], kind, groups)
    {
      SortMembers(all, Before(h), f);
      if f in Kept(figures, sq) {
        var k :| 0 <= k < |ls| && f in Found(ls[k], kind, groups);
        FoundOnLine(ls[k], kind, groups);
        var k' :| 0 <= k' < |ls'| && ls'[k'] == ls[k];
        assert f in Found(ls'[k'], kind, groups);
      }
      if k :| 0 <= k < |ls'| && f in Found(ls'[k], kind, groups) {
        if !OnSameLine(ls'[k].number, sq) {
          FoundOnLine(ls'[k], kind, groups);
          var j :| 0 <= j < |ls| && ls[j] == ls'[k];
          assert f in Found(ls[j], kind, groups);
        }
      }
    }
  }

  /**
   * A position that shows the board m: its lines show m in increasing
   * number order, the side to move is a colour, the count is the number
   * of stones, and the figures are those of the lines.
   */
  ghost predicate Shows(L: Layout, m: map<nat, int>)
  {
    && LayoutLines.Represents(L.lines, m) && LayoutLines.Increasing(L.lines)
    && (L.hand == WHITE || L.hand == BLACK)
    && L.count == |m|
    && FiguresOfLines(L.figures, L.lines, L.kind, SolverPatterns)
    && SortedBy(L.figures, Before(L.hand))
  }

  /** The empty position shows the empty board. */
  lemma EmptyShows(kind: int)
    ensures Shows(Empty(kind), map[])
  {
  }

  /**
   * `makeMove` on a position showing m throws exactly when the square is
   * taken; otherwise the new position shows m with the mover's stone on
   * the square, and the other side is to move.
   */
  lemma MovedShows(L: Layout, m: map<nat, int>, sq: nat)
    requires Shows(L, m) && OnBoard(sq)
    ensures Moved(L, sq).Failure? <==> sq in m
    ensures Moved(L, sq).Success? ==>
      var r := Moved(L, sq).value;
      && Shows(r, m[sq := L.hand])
      && r.hand == Opposite(L.hand) && r.kind == L.kind
      && (forall d :: 0 <= d < 4 ==> LayoutLines.CellOf(r.lines, d, sq) == L.hand + 1)
  {
    LayoutLines.PutStoneBoard(L.lines, m, sq, L.hand);
    if sq !in m {
      MovedFreeShows(L, m, sq);
    }
  }

  /** A stone on a free square: the position after it shows the board with the stone. */
  lemma MovedFreeShows(L: Layout, m: map<nat, int>, sq: nat)
    requires Shows(L, m) && OnBoard(sq) && sq !in m
    requires LayoutLines.WithStone(L.lines, sq, L.hand).Success?
    requires LayoutLines.Represents(LayoutLines.WithStone(L.lines, sq, L.hand).value, m[sq := L.hand])
    requires forall x :: x in L.lines && !OnSameLine(x.number, sq) ==> x in LayoutLines.WithStone(L.lines, sq, L.hand).value
    requires forall x :: x in LayoutLines.WithStone(L.lines, sq, L.hand).value ==> x in L.lines || OnSameLine(x.number, sq)
    ensures Moved(L, sq).Success?
    ensures var r := Moved(L, sq).value;
      && Shows(r, m[sq := L.hand])
      && r.hand == Opposite(L.hand) && r.kind == L.kind
      && (forall d :: 0 <= d < 4 ==> LayoutLines.CellOf(r.lines, d, sq) == L.hand + 1)
  {
    AddedOnFree(L, m, sq);
    var ls := Added(L, sq).value;
    var h := Opposite(L.hand);
    RefiguredLines(L.figures, L.lines, ls, sq, L.kind, h, SolverPatterns);
    SortSorted(Kept(L.figures, sq) + FiguresOn(ls, sq, L.kind, SolverPatterns), Before(h));
    assert |m[sq := L.hand]| == |m| + 1;
  }

  /** The lines after a stone on a free square: they show the board with the stone, in order, and only lines through the square changed. */
  lemma AddedOnFree(L: Layout, m: map<nat, int>, sq: nat)
    requires Shows(L, m) && OnBoard(sq) && sq !in m
    requires LayoutLines.WithStone(L.lines, sq, L.hand).Success?
    requires LayoutLines.Represents(LayoutLines.WithStone(L.lines, sq, L.hand).value, m[sq := L.hand])
    requires forall x :: x in L.lines && !OnSameLine(x.number, sq) ==> x in LayoutLines.WithStone(L.lines, sq, L.hand).value
    requires forall x :: x in LayoutLines.WithStone(L.lines, sq, L.hand).value ==> x in L.lines || OnSameLine(x.number, sq)
    ensures Added(L, sq).Success?
    ensures var ls := Added(L, sq).value;
      && LayoutLines.Represents(ls, m[sq := L.hand]) && LayoutLines.Increasing(ls)
      && (forall x :: x in L.lines && !OnSameLine(x.number, sq) ==> x in ls)
      && (forall x :: x in ls ==> x in L.lines || OnSameLine(x.number, sq))
      && (forall d :: 0 <= d < 4 ==> LayoutLines.CellOf(ls, d, sq) == L.hand + 1)
  {
    var ls0 := LayoutLines.WithStone(L.lines, sq, L.hand).value;
    LayoutLines.SortLinesRepresents(ls0, m[sq := L.hand]);
    SortMembersAll(ls0, LineOrder());
  }


  /**
   * `backMove` of the stone the other side just played on the square: it
   * succeeds, and the position shows m without that stone.
   */
  lemma BackMovedShows(L: Layout, m: map<nat, int>, sq: nat)
    requires Shows(L, m) && OnBoard(sq) && sq in m && m[sq] == Opposite(L.hand)
    ensures BackMoved(L, sq).Success?
    ensures var r := BackMoved(L, sq).value;
      && Shows(r, m - {sq})
      && r.hand == Opposite(L.hand) && r.kind == L.kind
  {
    LayoutLines.RemoveStoneBoard(L.lines, m, sq, Opposite(L.hand));
    var ls := LayoutLines.WithoutStone(L.lines, sq, Opposite(L.hand)).value;
    RefiguredLines(L.figures, L.lines, ls, sq, L.kind, Opposite(L.hand), SolverPatterns);
    RefiguredSpec(L.figures, ls, sq, L.kind, Opposite(L.hand), SolverPatterns);
    assert |m - {sq}| == |m| - 1;
  }

  /**
   * `backMove` undoes `makeMove`: the lines, the side to move, the type and
   * the count come back, and the figures are the same figures (in the
   * order `Figure.Comparator` gives them for the side to move).
   */
  lemma MoveThenBack(L: Layout, m: map<nat, int>, sq: nat)
    requires Shows(L, m) && OnBoard(sq) && sq !in m
    ensures Moved(L, sq).Success?
    ensures var r := Moved(L, sq).value;
      && BackMoved(r, sq).Success?
      && var b := BackMoved(r, sq).value;
      && b.lines == L.lines && b.hand == L.hand && b.kind == L.kind && b.count == L.count
      && (forall f :: f in b.figures <==> f in L.figures)
  {
    MovedShows(L, m, sq);
    var r := Moved(L, sq).value;
    OppositeTwice(L.hand);
    BackMovedShows(r, m[sq := L.hand], sq);
    var b := BackMoved(r, sq).value;
    PutThenTake(m, sq, L.hand);
    SameBoard(b, L, m);
  }

  lemma PutThenTake(m: map<nat, int>, sq: nat, h: int)
    requires sq !in m
    ensures m[sq := h] - {sq} == m
  {
  }

  /** Two positions of the same type showing the same board have the same lines and figures. */
  lemma SameBoard(a: Layout, b: Layout, m: map<nat, int>)
    requires Shows(a, m) && Shows(b, m) && a.kind == b.kind
    ensures a.lines == b.lines && a.count == b.count
    ensures forall f :: f in a.figures <==> f in b.figures
  {
    LayoutLines.RepresentsUnique(a.lines, b.lines, m);
  }

  // ---------------------------------------------------------------------------
  // A smaller type: filtering the figures or scanning again

  /** Within every group the types never decrease, as in the solver's table. */
  ghost predicate GroupsOrdered(groups: seq<seq<Pattern>>)
  {
    forall g, i, j :: 0 <= g < |groups| && 0 <= i < j < |groups[g]| ==> groups[g][i].kind <= groups[g][j].kind
  }

  lemma SolverGroupsOrdered()
    ensures GroupsOrdered(SolverPatterns)
  {
    CatalogOrdered();
    CatalogPatterns();
  }

  lemma {:induction false} AtMostAppend(a: seq<Figure>, b: seq<Figure>, t: int)
    ensures AtMost(a + b, t) == AtMost(a, t) + AtMost(b, t)
    decreases |b|
  {
    if b == [] {
      assert a + b == a;
    } else {
      assert (a + b)[..|a + b| - 1] == a + b[..|b| - 1];
      AtMostAppend(a, b[..|b| - 1], t);
    }
  }

  lemma {:induction false} NoneAccepted(l: Line, t: int, move: nat, left: int, hand: int, ps: seq<Pattern>)
    requires forall i :: 0 <= i < |ps| ==> ps[i].kind > t
    ensures FirstAccepted(l, t, move, left, hand, ps) == None
  {
    if ps != [] {
      NoneAccepted(l, t, move, left, hand, ps[1..]);
    }
  }

  /**
   * In a group ordered by type, the pattern chosen for a smaller type t' is
   * the one chosen for t when its type is at most t', and none otherwise.
   */
  lemma {:induction false} FirstAcceptedNarrow(l: Line, t: int, t': int, move: nat, left: int, hand: int,
                                               ps: seq<Pattern>)
    requires t' <= t
    requires forall i, j :: 0 <= i < j < |ps| ==> ps[i].kind <= ps[j].kind
    ensures var f := FirstAccepted(l, t, move, left, hand, ps);
      FirstAccepted(l, t', move, left, hand, ps) == if f.Some? && f.value.pattern.kind <= t' then f else None
  {
    if ps != [] {
      FirstAcceptedNarrow(l, t, t', move, left, hand, ps[1..]);
      if Accepts(l, t, move, left, hand, ps[0]) && ps[0].kind > t' {
        NoneAccepted(l, t', move, left, hand, ps[1..]);
      }
    }
  }

  lemma {:induction false} GroupFiguresNarrow(l: Line, t: int, t': int, move: nat, left: int, hand: int,
                                              groups: seq<seq<Pattern>>)
    requires t' <= t && GroupsOrdered(groups)
    ensures GroupFigures(l, t', move, left, hand, groups) == AtMost(GroupFigures(l, t, move, left, hand, groups), t')
  {
    if groups != [] {
      var init := groups[..|groups| - 1];
      var last := groups[|groups| - 1];
      GroupFiguresNarrow(l, t, t', move, left, hand, init);
      FirstAcceptedNarrow(l, t, t', move, left, hand, last);
      var f := FirstAccepted(l, t, move, left, hand, last);
      AtMostAppend(GroupFigures(l, t, move, left, hand, init), if f.Some? then [f.value] else [], t');
    }
  }

  lemma {:induction false} ScanNarrow(l: Line, t: int, t': int, groups: seq<seq<Pattern>>, move: nat, bl: int, wl: int)
    requires t' <= t && GroupsOrdered(groups)
    ensures Scan(l, t', groups, move, bl, wl) == AtMost(Scan(l, t, groups, move, bl, wl), t')
    decreases Shift(l.stroke, move)
  {
    var probe := Shift(l.stroke, move);
    if probe != 0 {
      ShiftStep(l.stroke, move);
      var black := probe % 4 >= 2;
      var white := probe % 2 == 1;
      var bs := if black then GroupFigures(l, t, move, bl, 1, groups) else [];
      var ws := if white then GroupFigures(l, t, move, wl, 0, groups) else [];
      var rest := Scan(l, t, groups, move + 1, if black then bl - 1 else bl, if white then wl - 1 else wl);
      ScanNarrow(l, t, t', groups, move + 1, if black then bl - 1 else bl, if white then wl - 1 else wl);
      GroupFiguresNarrow(l, t, t', move, bl, 1, groups);
      GroupFiguresNarrow(l, t, t', move, wl, 0, groups);
      AtMostAppend(bs, ws, t');
      AtMostAppend(bs + ws, rest, t');
    }
  }

  /**
   * Scanning a line for a smaller type finds exactly the figures of the
   * larger scan whose type is small enough, in the same order.
   */
  lemma FoundNarrow(l: Line, t: int, t': int, groups: seq<seq<Pattern>>)
    requires Requested(t') <= Requested(t) && GroupsOrdered(groups)
    ensures Found(l, t', groups) == AtMost(Found(l, t, groups), Requested(t'))
  {
    ScanNarrow(l, Requested(t), Requested(t'), groups, 0, l.blen, l.wlen);
  }

  /** The loop of `swapHand` and `alignType` that keeps the figures of type at most t. */
  method FilterType(figures: seq<Figure>, t: int) returns (fs: seq<Figure>)
    ensures fs == AtMost(figures, t)
  {
    fs := [];
    var k := 0;
    while k < |figures|
      invariant 0 <= k <= |figures|
      invariant fs == AtMost(figures[..k], t)
    {
      assert figures[..k + 1][..k] == figures[..k];
      if figures[k].pattern.kind <= t {
        fs := fs + [figures[k]];
      }
      k := k + 1;
    }
    assert figures[..k] == figures;
  }

  /** The loop over all lines calling `findFigures`, as in `alignType` and the constructor. */
  method ScanLines(ls: seq<Line>, fs: seq<Figure>, kind: int, groups: seq<seq<Pattern>>) returns (fs': seq<Figure>)
    ensures fs' == fs + LinesFigures(ls, kind, groups)
  {
    fs' := fs;
    var k := 0;
    while k < |ls|
      invariant 0 <= k <= |ls|
      invariant fs' == fs + LinesFigures(ls[..k], kind, groups)
    {
      LinesFiguresStep(ls, k, kind, groups);
      FiguresAssoc(fs, LinesFigures(ls[..k], kind, groups), Found(ls[k], kind, groups));
      fs' := ScanFigures(ls[k], fs', kind, groups);
      k := k + 1;
    }
    assert ls[..k] == ls;
  }

  /** One more line adds its own figures at the end. */
  lemma LinesFiguresStep(ls: seq<Line>, k: nat, kind: int, groups: seq<seq<Pattern>>)
    requires k < |ls|
    ensures LinesFigures(ls[..k + 1], kind, groups) == LinesFigures(ls[..k], kind, groups) + Found(ls[k], kind, groups)
  {
    assert ls[..k + 1][..k] == ls[..k];
  }

  lemma FiguresAssoc(a: seq<Figure>, b: seq<Figure>, c: seq<Figure>)
    ensures (a + b) + c == a + (b + c)
  {
  }

  /** The figures of every line for type `kind`, sorted for the side `h`. */
  function AllFigures(ls: seq<Line>, kind: int, h: int): seq<Figure>
  {
    Sort(LinesFigures(ls, kind, SolverPatterns), Before(h))
  }

  /** Scan every line and sort the figures, as `alignType` and the constructor do. */
  method FindAllFigures(ls: seq<Line>, kind: int, h: int) returns (fs: seq<Figure>)
    ensures fs == AllFigures(ls, kind, h)
  {
    fs := ScanLines(ls, [], kind, SolverPatterns);
    assert fs == LinesFigures(ls, kind, SolverPatterns);
    fs := Sort(fs, Before(h));
  }

  /** The position after `swapHand(type)`. */
  function Swapped(L: Layout, t: int): Layout
  {
    var h := Opposite(L.hand);
    Layout(L.lines, h, Sort(AtMost(L.figures, t), Before(h)), t, L.count)
  }

  /**
   * `Layout.prototype.swapHand(type)`: the other side is to move, on the
   * same lines; the figures of type at most `type` are kept and sorted for
   * that side, and the position's type becomes `type`.
   */
  method SwapHand(L: Layout, t: int) returns (r: Layout)
    ensures r == Swapped(L, t)
  {
    var h := Opposite(L.hand);
    var fs := FilterType(L.figures, t);
    fs := Sort(fs, Before(h));
    r := Layout(L.lines, h, fs, t, L.count);
  }

  /** The position after `alignType(type)`. */
  function Aligned(L: Layout, t: int): Layout
  {
    if L.kind == t then L
    else if L.kind > t then Layout(L.lines, L.hand, Sort(AtMost(L.figures, t), Before(L.hand)), t, L.count)
    else Layout(L.lines, L.hand, AllFigures(L.lines, t, L.hand), t, L.count)
  }

  /**
   * `Layout.prototype.alignType(type)`: the same position for the same
   * type; for a smaller type the figures are filtered, for a larger one
   * every line is scanned again.
   */
  method AlignType(L: Layout, t: int) returns (r: Layout)
    ensures r == Aligned(L, t)
  {
    if L.kind == t {
      return L;
    } else if L.kind > t {
      var fs := FilterType(L.figures, t);
      fs := Sort(fs, Before(L.hand));
      r := Layout(L.lines, L.hand, fs, t, L.count);
    } else {
      var fs := FindAllFigures(L.lines, t, L.hand);
      r := Layout(L.lines, L.hand, fs, t, L.count);
    }
  }

  /** Figures of a position filtered to a smaller type are the figures of the lines for that type. */
  lemma FilteredLines(figures: seq<Figure>, ls: seq<Line>, t: int, t': int, groups: seq<seq<Pattern>>)
    requires FiguresOfLines(figures, ls, t, groups)
    requires t' != FIVE && t' <= Requested(t) && GroupsOrdered(groups)
    ensures FiguresOfLines(AtMost(figures, t'), ls, t', groups)
  {
    AtMostSpec(figures, t');
    forall f
      ensures f in AtMost(figures, t') <==> exists k :: 0 <= k < |ls| && f in Found(ls[k], t', groups)
    {
      if f in AtMost(figures, t') {
        var k :| 0 <= k < |ls| && f in Found(ls[k], t, groups);
        FoundNarrow(ls[k], t, t', groups);
        AtMostSpec(Found(ls[k], t, groups), t');
        assert f in Found(ls[k], t', groups);
      }
      if k :| 0 <= k < |ls| && f in Found(ls[k], t', groups) {
        FoundNarrow(ls[k], t, t', groups);
        AtMostSpec(Found(ls[k], t, groups), t');
      }
    }
  }

  /** Sorting a figure list keeps its members and sorts it. */
  lemma SortedFigures(fs: seq<Figure>, h: int)
    ensures SortedBy(Sort(fs, Before(h)), Before(h))
    ensures forall f :: f in Sort(fs, Before(h)) <==> f in fs
  {
    SortSorted(fs, Before(h));
    forall f
      ensures f in Sort(fs, Before(h)) <==> f in fs
    {
      SortMembers(fs, Before(h), f);
    }
  }

  /**
   * `swapHand(type)` keeps the lines and the count, passes the move, keeps
   * exactly the figures of type at most `type` sorted for the new side;
   * for a type other than FIVE no larger than the position's it still
   * shows the same board.
   */
  lemma SwappedSpec(L: Layout, t: int, m: map<nat, int>)
    ensures var r := Swapped(L, t);
      && r.lines == L.lines && r.count == L.count && r.hand == Opposite(L.hand) && r.kind == t
      && SortedBy(r.figures, Before(r.hand))
      && (forall f :: f in r.figures <==> f in L.figures && f.pattern.kind <= t)
    ensures Shows(L, m) && t != FIVE && t <= Requested(L.kind) ==> Shows(Swapped(L, t), m)
  {
    var h := Opposite(L.hand);
    SortedFigures(AtMost(L.figures, t), h);
    AtMostSpec(L.figures, t);
    if Shows(L, m) && t != FIVE && t <= Requested(L.kind) {
      SolverGroupsOrdered();
      FilteredLines(L.figures, L.lines, L.kind, t, SolverPatterns);
    }
  }

  /**
   * `alignType(type)` keeps the lines, the side to move and the count, and
   * for any type but FIVE the figures are still those of the lines: the
   * filter of the smaller type finds what a new scan would.
   */
  lemma AlignedSpec(L: Layout, t: int, m: map<nat, int>)
    ensures var r := Aligned(L, t);
      && r.lines == L.lines && r.count == L.count && r.hand == L.hand && r.kind == t
      && (L.kind == t ==> r == L)
      && (L.kind > t ==> forall f :: f in r.figures <==> f in L.figures && f.pattern.kind <= t)
    ensures Shows(L, m) && t != FIVE ==> Shows(Aligned(L, t), m)
  {
    if L.kind > t {
      SortedFigures(AtMost(L.figures, t), L.hand);
      AtMostSpec(L.figures, t);
      if Shows(L, m) && t != FIVE {
        SolverGroupsOrdered();
        FilteredLines(L.figures, L.lines, L.kind, t, SolverPatterns);
      }
    } else if L.kind < t {
      var fs := LinesFigures(L.lines, t, SolverPatterns);
      SortedFigures(fs, L.hand);
      LinesFiguresSpec(L.lines, t, SolverPatterns);
    }
  }

  // ---------------------------------------------------------------------------
  // The constructor from a list of moves

  /** The colour of move k (from 0) of a game: black opens and the colours alternate. */
  function HandAt(k: nat): (h: int)
    ensures h == WHITE || h == BLACK
    ensures h == BLACK <==> k % 2 == 0
  {
    if k % 2 == 0 then BLACK else WHITE
  }

  /** The moves are board squares. */
  predicate OnBoardMoves(moves: seq<nat>)
  {
    forall k :: 0 <= k < |moves| ==> OnBoard(moves[k])
  }

  /**
   * The lines after the constructor's `forEach`: each move is put with
   * `Layout.putStone`, the colour alternating from `h`; a `Failure` where a
   * square is taken.
   */
  function PutMoves(ls: seq<Line>, moves: seq<nat>, h: int): Result<seq<Line>, string>
    requires OnBoardMoves(moves) && (h == WHITE || h == BLACK)
    decreases |moves|
  {
    if moves == [] then Success(ls)
    else
      match LayoutLines.WithStone(ls, moves[0], h)
      case Failure(e) => Failure(e)
      case Success(ls') => PutMoves(ls', moves[1..], Opposite(h))
  }

  /** The board m with the moves played on it, the colour alternating from `h`. */
  ghost function Played(m: map<nat, int>, moves: seq<nat>, h: int): map<nat, int>
    decreases |moves|
  {
    if moves == [] then m else Played(m[moves[0] := h], moves[1..], Opposite(h))
  }

  /** Each move passes the turn. */
  lemma HandAtNext(k: nat)
    ensures HandAt(k + 1) == Opposite(HandAt(k))
  {
  }

  /** One pass of the constructor's `forEach`. */
  lemma PutMovesStep(ls: seq<Line>, moves: seq<nat>, k: nat, h: int)
    requires OnBoardMoves(moves) && k < |moves| && (h == WHITE || h == BLACK)
    ensures PutMoves(ls, moves[k..], h) ==
      match LayoutLines.WithStone(ls, moves[k], h)
      case Failure(e) => Failure(e)
      case Success(ls') => PutMoves(ls', moves[k + 1..], Opposite(h))
  {
    assert moves[k..][0] == moves[k];
    assert moves[k..][1..] == moves[k + 1..];
  }

  /**
   * The position `new Layout(moves, type)` builds; the type is `type ||
   * Pattern.ONE`.  No moves give the empty position.
   */
  function Built(moves: seq<nat>, kind: int): Result<Layout, string>
    requires OnBoardMoves(moves)
  {
    var t := Requested(kind);
    if moves == [] then Success(Layout([], BLACK, [], t, 0))
    else
      match PutMoves([], moves, BLACK)
      case Failure(e) => Failure(e)
      case Success(ls0) =>
        var ls := Sort(ls0, LineOrder());
        var h := HandAt(|moves|);
        Success(Layout(ls, h, AllFigures(ls, t, h), t, |moves|))
  }

  /**
   * `new Layout(moves, type)`: put the moves alternately from black on
   * fresh lines, sort the lines, scan every line and sort the figures for
   * the side to move.
   */
  method FromMoves(moves: seq<nat>, kind: int) returns (r: Result<Layout, string>)
    requires OnBoardMoves(moves)
    ensures r == Built(moves, kind)
  {
    var t := Requested(kind);
    if |moves| > 0 {
      var count := |moves|;
      var h := BLACK;
      var ls := [];
      var k := 0;
      while k < |moves|
        invariant 0 <= k <= |moves| && h == HandAt(k)
        invariant PutMoves([], moves, BLACK) == PutMoves(ls, moves[k..], h)
      {
        PutMovesStep(ls, moves, k, h);
        var put := LayoutLines.PutStone(ls, moves[k], h);
        if put.Failure? {
          return Failure(put.error);
        }
        ls := put.value;
        HandAtNext(k);
        h := Opposite(h);
        k := k + 1;
      }
      ls := Sort(ls, LineOrder());
      var fs := FindAllFigures(ls, t, h);
      r := Success(Layout(ls, h, fs, t, count));
    } else {
      r := Success(Layout([], BLACK, [], t, 0));
    }
  }

  /**
   * Playing moves on lines showing m: this throws exactly when a square is
   * repeated or already taken, and otherwise the lines show the moves
   * played on m.
   */
  lemma {:induction false} PutMovesBoard(ls: seq<Line>, m: map<nat, int>, moves: seq<nat>, h: int)
    requires LayoutLines.Represents(ls, m) && OnBoardMoves(moves) && (h == WHITE || h == BLACK)
    ensures PutMoves(ls, moves, h).Success? <==>
      Distinct(moves) && forall k :: 0 <= k < |moves| ==> moves[k] !in m
    ensures PutMoves(ls, moves, h).Success? ==>
      LayoutLines.Represents(PutMoves(ls, moves, h).value, Played(m, moves, h))
    decreases |moves|
  {
    if moves != [] {
      LayoutLines.PutStoneBoard(ls, m, moves[0], h);
      if moves[0] in m {
        assert !(forall k :: 0 <= k < |moves| ==> moves[k] !in m);
      } else {
        var ls' := LayoutLines.WithStone(ls, moves[0], h).value;
        var m' := m[moves[0] := h];
        var rest := moves[1..];
        PutMovesBoard(ls', m', rest, Opposite(h));
        FreshSplit(moves, m, h);
      }
    }
  }

  /** The moves are distinct and free on m exactly when the first is free and the rest are distinct and free once it is played. */
  lemma FreshSplit(moves: seq<nat>, m: map<nat, int>, h: int)
    requires moves != [] && moves[0] !in m
    ensures (Distinct(moves) && forall k :: 0 <= k < |moves| ==> moves[k] !in m)
        <==> (Distinct(moves[1..]) && forall k :: 0 <= k < |moves[1..]| ==> moves[1..][k] !in m[moves[0] := h])
  {
    var rest := moves[1..];
    var m' := m[moves[0] := h];
    if Distinct(moves) && forall k :: 0 <= k < |moves| ==> moves[k] !in m {
      assert Distinct(rest);
      forall k | 0 <= k < |rest|
        ensures rest[k] !in m'
      {
        assert rest[k] == moves[k + 1];
      }
    }
    if Distinct(rest) && forall k :: 0 <= k < |rest| ==> rest[k] !in m' {
      forall i, j | 0 <= i < j < |moves|
        ensures moves[i] != moves[j]
      {
        if i > 0 {
          assert moves[i] == rest[i - 1] && moves[j] == rest[j - 1];
        } else {
          assert moves[j] == rest[j - 1];
        }
      }
      forall k | 0 <= k < |moves|
        ensures moves[k] !in m
      {
        if k > 0 {
          assert moves[k] == rest[k - 1];
        }
      }
    }
  }

  /** The moves played on m take exactly the squares of m and the moves. */
  lemma {:induction false} PlayedSquares(m: map<nat, int>, moves: seq<nat>, h: int)
    ensures forall x :: x in Played(m, moves, h) <==> x in m || x in moves
    decreases |moves|
  {
    if moves != [] {
      PlayedSquares(m[moves[0] := h], moves[1..], Opposite(h));
      forall x
        ensures x in moves <==> x == moves[0] || x in moves[1..]
      {
        if x in moves {
          var k :| 0 <= k < |moves| && moves[k] == x;
          if k > 0 {
            assert moves[1..][k - 1] == x;
          }
        }
      }
    }
  }

  /** Distinct moves on free squares add one stone each. */
  lemma {:induction false} PlayedSize(m: map<nat, int>, moves: seq<nat>, h: int)
    requires Distinct(moves) && (forall k :: 0 <= k < |moves| ==> moves[k] !in m)
    ensures |Played(m, moves, h)| == |m| + |moves|
    decreases |moves|
  {
    if moves != [] {
      var m' := m[moves[0] := h];
      var rest := moves[1..];
      forall k | 0 <= k < |rest|
        ensures rest[k] !in m'
      {
        assert rest[k] == moves[k + 1];
      }
      assert Distinct(rest) by {
        forall i, j | 0 <= i < j < |rest|
          ensures rest[i] != rest[j]
        {
          assert rest[i] == moves[i + 1] && rest[j] == moves[j + 1];
        }
      }
      PlayedSize(m', rest, Opposite(h));
    }
  }

  /**
   * Of distinct moves on free squares, move k keeps the colour `h` when k
   * is even and the other one when it is odd.
   */
  lemma {:induction false} PlayedColours(m: map<nat, int>, moves: seq<nat>, h: int)
    requires Distinct(moves) && (h == WHITE || h == BLACK)
    ensures forall k :: 0 <= k < |moves| ==>
      moves[k] in Played(m, moves, h) && Played(m, moves, h)[moves[k]] == if k % 2 == 0 then h else Opposite(h)
    decreases |moves|
  {
    if moves != [] {
      var m' := m[moves[0] := h];
      var rest := moves[1..];
      assert Distinct(rest) by {
        forall i, j | 0 <= i < j < |rest|
          ensures rest[i] != rest[j]
        {
          assert rest[i] == moves[i + 1] && rest[j] == moves[j + 1];
        }
      }
      PlayedColours(m', rest, Opposite(h));
      PlayedSquares(m', rest, Opposite(h));
      PlayedKeeps(m', rest, Opposite(h), moves[0]);
      OppositeTwice(h);
      forall k | 0 <= k < |moves|
        ensures moves[k] in Played(m, moves, h)
        ensures Played(m, moves, h)[moves[k]] == if k % 2 == 0 then h else Opposite(h)
      {
        if k > 0 {
          assert moves[k] == rest[k - 1];
        }
      }
    }
  }

  /** A square none of the moves plays keeps what m holds there. */
  lemma {:induction false} PlayedKeeps(m: map<nat, int>, moves: seq<nat>, h: int, x: nat)
    requires x in m && x !in moves
    ensures x in Played(m, moves, h) && Played(m, moves, h)[x] == m[x]
    decreases |moves|
  {
    if moves != [] {
      assert x != moves[0];
      assert x !in moves[1..];
      PlayedKeeps(m[moves[0] := h], moves[1..], Opposite(h), x);
    }
  }

  /**
   * Lines showing m, sorted, with every line scanned for type t and the
   * figures sorted for the side h: a position showing m.
   */
  lemma ScannedShows(ls0: seq<Line>, m: map<nat, int>, t: int, h: int, count: int)
    requires LayoutLines.Represents(ls0, m) && (h == WHITE || h == BLACK) && count == |m|
    ensures var ls := Sort(ls0, LineOrder());
      Shows(Layout(ls, h, AllFigures(ls, t, h), t, count), m)
  {
    var ls := Sort(ls0, LineOrder());
    LayoutLines.SortLinesRepresents(ls0, m);
    SortedFigures(LinesFigures(ls, t, SolverPatterns), h);
    LinesFiguresSpec(ls, t, SolverPatterns);
  }

  /**
   * The board of a game: distinct moves from black take exactly the
   * squares played, move k black when k is even and white when odd.
   */
  lemma GameBoard(moves: seq<nat>)
    requires Distinct(moves)
    ensures var m := Played(map[], moves, BLACK);
      && (forall x :: x in m <==> x in moves)
      && (forall k :: 0 <= k < |moves| ==> m[moves[k]] == HandAt(k))
      && |m| == |moves|
  {
    PlayedSquares(map[], moves, BLACK);
    PlayedColours(map[], moves, BLACK);
    PlayedSize(map[], moves, BLACK);
  }

  /** `new Layout(moves, type)` on board squares throws exactly when a square repeats. */
  lemma BuiltFails(moves: seq<nat>, kind: int)
    requires OnBoardMoves(moves)
    ensures Built(moves, kind).Success? <==> Distinct(moves)
  {
    assert LayoutLines.Represents([], map[]) by {
      EmptyShows(kind);
    }
    PutMovesBoard([], map[], moves, BLACK);
  }

  /**
   * `new Layout(moves, type)` on distinct board squares shows the board of
   * the game (`GameBoard`), counts the moves, and black is to move after an
   * even number of moves.
   */
  lemma BuiltShows(moves: seq<nat>, kind: int)
    requires OnBoardMoves(moves) && Distinct(moves)
    ensures Built(moves, kind).Success?
    ensures var r := Built(moves, kind).value;
      && Shows(r, Played(map[], moves, BLACK))
      && r.count == |moves| && r.hand == HandAt(|moves|) && r.kind == Requested(kind)
  {
    if moves == [] {
      EmptyShows(kind);
    } else {
      BuiltMovesShows(moves, kind);
    }
  }

  /** `BuiltShows` for at least one move: the moves on fresh lines, sorted and scanned. */
  lemma BuiltMovesShows(moves: seq<nat>, kind: int)
    requires OnBoardMoves(moves) && Distinct(moves) && moves != []
    ensures Built(moves, kind).Success?
    ensures var r := Built(moves, kind).value;
      && Shows(r, Played(map[], moves, BLACK))
      && r.count == |moves| && r.hand == HandAt(|moves|) && r.kind == Requested(kind)
  {
    BuiltFails(moves, kind);
    PlayedSize(map[], moves, BLACK);
    assert LayoutLines.Represents([], map[]) by {
      EmptyShows(kind);
    }
    PutMovesBoard([], map[], moves, BLACK);
    var ls0 := PutMoves([], moves, BLACK).value;
    var ls := Sort(ls0, LineOrder());
    var h := HandAt(|moves|);
    var t := Requested(kind);
    ScannedShows(ls0, Played(map[], moves, BLACK), t, h, |moves|);
    assert Built(moves, kind) == Success(Layout(ls, h, AllFigures(ls, t, h), t, |moves|));
  }
}
