/**
 * Figures (docs/translated/figure.js): a pattern matched on a line, at an
 * offset from the line's first cell, for the stones of one colour.
 */
module Figures {
  import opened Patterns
  import opened LineGeometry
  import opened Sorting

  datatype Figure = Figure(number: nat, offset: nat, hand: int, pattern: Pattern)

  /** Every offset of `cols`, taken from the figure's start, stays on the figure's line. */
  predicate Fits(f: Figure, cols: seq<nat>)
  {
    ValidLine(f.number) && forall i :: 0 <= i < |cols| ==> f.offset + cols[i] < LineLength(f.number)
  }

  /** The window of the figure lies on its line and every offset list points inside the window. */
  predicate Placed(f: Figure)
  {
    var p := f.pattern;
    && ValidLine(f.number)
    && f.offset + p.length <= LineLength(f.number)
    && (forall i :: 0 <= i < |p.moves| ==> p.moves[i] < p.length)
    && (forall i :: 0 <= i < |p.gains| ==> p.gains[i] < p.length)
    && (forall i :: 0 <= i < |p.downs| ==> p.downs[i] < p.length)
    && (forall i :: 0 <= i < |p.rifts| ==> p.rifts[i] < p.length)
  }

  lemma PlacedFits(f: Figure)
    requires Placed(f)
    ensures Fits(f, f.pattern.moves) && Fits(f, f.pattern.gains)
    ensures Fits(f, f.pattern.downs) && Fits(f, f.pattern.rifts)
  {
  }

  /** A figure placed from a compiled template. */
  lemma PatternPlaced(f: Figure, kind: int, t: string, rating: int)
    requires f.pattern == PatternOf(kind, t, rating)
    requires ValidLine(f.number) && f.offset + |t| <= LineLength(f.number)
    ensures Placed(f)
  {
    WhereBelow(t, IsStone);
    WhereBelow(t, IsGain);
    WhereBelow(t, IsDown);
    WhereBelow(t, IsRift);
  }

  /** The squares `Line.posSquare(number, offset + c)` for the offsets c of `cols`, in order. */
  function Squares(f: Figure, cols: seq<nat>): (r: seq<nat>)
    requires Fits(f, cols)
    ensures |r| == |cols|
    ensures forall i :: 0 <= i < |r| ==> OnBoard(r[i]) && OnSameLine(f.number, r[i])
  {
    if cols == [] then []
    else
      PosSquareOnLine(f.number, f.offset + cols[0]);
      [PosSquare(f.number, f.offset + cols[0])] + Squares(f, cols[1..])
  }

  /** `r` after pushing, in order, each element of `s` that `r` does not already hold. */
  function AddNew(r: seq<nat>, s: seq<nat>): seq<nat>
    decreases |s|
  {
    if s == [] then r
    else AddNew(if s[0] in r then r else r + [s[0]], s[1..])
  }

  /** No element occurs twice. */
  predicate Distinct(r: seq<nat>)
  {
    forall i, j :: 0 <= i < j < |r| ==> r[i] != r[j]
  }

  /**
   * What `addMoves` does to the collection: it only appends, the result holds
   * exactly the old elements and the new squares, and a collection without
   * duplicates stays so.
   */
  lemma {:induction false} AddNewSpec(r: seq<nat>, s: seq<nat>)
    ensures |AddNew(r, s)| >= |r| && AddNew(r, s)[..|r|] == r
    ensures forall x :: x in AddNew(r, s) <==> x in r || x in s
    ensures Distinct(r) ==> Distinct(AddNew(r, s))
    decreases |s|
  {
    if s != [] {
      var r' := if s[0] in r then r else r + [s[0]];
      AddNewSpec(r', s[1..]);
      assert AddNew(r, s)[..|r|] == AddNew(r', s[1..])[..|r'|][..|r|];
      assert forall x :: x in s <==> x == s[0] || x in s[1..];
      if Distinct(r) && s[0] !in r {
        forall i, j | 0 <= i < j < |r'|
          ensures r'[i] != r'[j]
        {
          if j == |r| {
            assert r'[i] in r;
          }
        }
      }
    }
  }

  /**
   * `Figure.addMoves(r, cols)`: push the figure's squares at `cols` that `r`
   * lacks; `cols` left out stands for the pattern's stones.
   */
  method AddMoves(f: Figure, r: seq<nat>, cols: seq<nat> := f.pattern.moves) returns (r': seq<nat>)
    requires Fits(f, cols)
    ensures r' == AddNew(r, Squares(f, cols))
  {
    var all := Squares(f, cols);
    r' := r;
    var i := 0;
    while i < |cols|
      invariant 0 <= i <= |cols|
      invariant AddNew(r, all) == AddNew(r', all[i..])
    {
      assert all[i..][1..] == all[i + 1..];
      var square := PosSquare(f.number, f.offset + cols[i]);
      assert square == all[i] by {
        SquaresAt(f, cols, i);
      }
      if square !in r' {
        r' := r' + [square];
      }
      i := i + 1;
    }
  }

  lemma {:induction false} SquaresAt(f: Figure, cols: seq<nat>, i: nat)
    requires Fits(f, cols) && i < |cols|
    ensures Squares(f, cols)[i] == PosSquare(f.number, f.offset + cols[i])
  {
    if i > 0 {
      SquaresAt(f, cols[1..], i - 1);
    }
  }

  /** `Figure.moves(cols)`: the figure's squares at `cols` (by default its stones), duplicates dropped. */
  method Moves(f: Figure, cols: seq<nat> := f.pattern.moves) returns (r: seq<nat>)
    requires Fits(f, cols)
    ensures r == AddNew([], Squares(f, cols))
    ensures Distinct(r) && forall x :: x in r <==> x in Squares(f, cols)
  {
    r := AddMoves(f, [], cols);
    AddNewSpec([], Squares(f, cols));
  }

  /** `Figure.gains()`: the squares that strengthen the figure. */
  method Gains(f: Figure) returns (r: seq<nat>)
    requires Placed(f)
    ensures r == AddNew([], Squares(f, f.pattern.gains))
    ensures Distinct(r) && forall x :: x in r <==> x in Squares(f, f.pattern.gains)
  {
    r := Moves(f, f.pattern.gains);
  }

  /** `Figure.downs()`: the squares that close the figure. */
  method Downs(f: Figure) returns (r: seq<nat>)
    requires Placed(f)
    ensures r == AddNew([], Squares(f, f.pattern.downs))
    ensures Distinct(r) && forall x :: x in r <==> x in Squares(f, f.pattern.downs)
  {
    r := Moves(f, f.pattern.downs);
  }

  /** `Figure.rifts()`: the squares that break the figure. */
  method Rifts(f: Figure) returns (r: seq<nat>)
    requires Placed(f)
    ensures r == AddNew([], Squares(f, f.pattern.rifts))
    ensures Distinct(r) && forall x :: x in r <==> x in Squares(f, f.pattern.rifts)
  {
    r := Moves(f, f.pattern.rifts);
  }

  /** `Figure.contains(square, cols)`: the search for the square among the figure's squares at `cols` (by default its stones). */
  function Contains(f: Figure, sq: nat, cols: seq<nat> := f.pattern.moves): bool
    requires Fits(f, cols)
  {
    if cols == [] then false
    else
      sq == PosSquare(f.number, f.offset + cols[0]) || Contains(f, sq, cols[1..])
  }

  /** A square is contained exactly when `moves(cols)` lists it. */
  lemma {:induction false} ContainsIff(f: Figure, sq: nat, cols: seq<nat> := f.pattern.moves)
    requires Fits(f, cols)
    ensures Contains(f, sq, cols) <==> sq in AddNew([], Squares(f, cols))
  {
    AddNewSpec([], Squares(f, cols));
    if cols != [] {
      ContainsIff(f, sq, cols[1..]);
      AddNewSpec([], Squares(f, cols[1..]));
    }
  }

  /** `Figure.onSameLine(square)`. */
  predicate OnFigureLine(f: Figure, sq: nat)
    requires OnBoard(sq)
  {
    OnSameLine(f.number, sq)
  }

  /** Every square a figure names lies on the figure's line. */
  lemma SquaresOnFigureLine(f: Figure, cols: seq<nat>, sq: nat)
    requires Fits(f, cols) && sq in Squares(f, cols)
    ensures OnBoard(sq) && OnFigureLine(f, sq)
  {
  }

  /** The comparator's key: a figure of `hand` ranks by its type, the opponent's two types lower. */
  function Key(hand: int, f: Figure): int
  {
    if f.hand == hand then f.pattern.kind else f.pattern.kind + 2
  }

  /** `Figure.Comparator(hand)(f1, f2)`. */
  function Compare(hand: int, f1: Figure, f2: Figure): (c: int)
    ensures c < 0 <==> Key(hand, f1) < Key(hand, f2)
    ensures c == 0 <==> Key(hand, f1) == Key(hand, f2)
  {
    Key(hand, f1) - Key(hand, f2)
  }

  /** "f1 sorts no later than f2" under `Figure.Comparator(hand)`. */
  function Before(hand: int): (le: (Figure, Figure) -> bool)
    ensures TotalPreorder(le)
  {
    OrderedByKey(hand);
    (f1: Figure, f2: Figure) => Compare(hand, f1, f2) <= 0
  }

  /** The comparator is antisymmetric and transitive, so a total preorder. */
  lemma OrderedByKey(hand: int)
    ensures forall f1, f2 :: Compare(hand, f1, f2) == -Compare(hand, f2, f1)
    ensures forall f1, f2, f3 ::
      (Compare(hand, f1, f2) <= 0 && Compare(hand, f2, f3) <= 0 ==> Compare(hand, f1, f3) <= 0)
    ensures TotalPreorder((f1: Figure, f2: Figure) => Compare(hand, f1, f2) <= 0)
  {
  }
}
