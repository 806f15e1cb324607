/**
 * Positions equal up to a symmetry of the board (docs/translated/layout.js):
 * `checkLines` compares runs of lines, `transCode` finds the code of the
 * symmetry under which another position holds the same stones, and
 * `equals` accepts a position of the same side to move with such a code.
 */
module Transposition {
  import opened Wrappers
  import opened LineGeometry
  import opened Base4
  import opened Lines
  import opened Layouts
  import LayoutLines
  import Symmetry

  // ---------------------------------------------------------------------
  // checkLines
  // ---------------------------------------------------------------------

  /**
   * Line e of one position matches line e1 of the other: straight (same
   * index, `e1.number & 0x1f`) or reversed (index `14 - ...`), comparing
   * e's stroke with e1's stroke or with e1's inverse.
   */
  predicate Agree(e: Line, e1: Line, reversed: bool, inverse: bool)
  {
    && (if reversed then e.number == 14 - e1.number % 32 else e.number == e1.number % 32)
    && e.stroke == (if inverse then e1.inverse else e1.stroke)
  }

  /** Line j of the run of ls0 agrees with its partner line in the run of ls1. */
  predicate AgreeAt(ls0: seq<Line>, ofs0: nat, ls1: seq<Line>, ofs1: nat, count: nat, j: nat,
                    reversed: bool, inverse: bool)
    requires ofs0 + count <= |ls0| && ofs1 + count <= |ls1| && j < count
  {
    Agree(ls0[ofs0 + j], ls1[if reversed then ofs1 + count - 1 - j else ofs1 + j], reversed, inverse)
  }

  /**
   * The first k of the `count` lines of ls0 from ofs0 agree with the lines
   * of ls1 from ofs1, in the same order, or in reverse order when
   * `reversed`.
   */
  predicate AgreeUpTo(ls0: seq<Line>, ofs0: nat, ls1: seq<Line>, ofs1: nat, count: nat, k: nat,
                      reversed: bool, inverse: bool)
    requires ofs0 + count <= |ls0| && ofs1 + count <= |ls1| && k <= count
  {
    forall j: nat :: j < k ==> AgreeAt(ls0, ofs0, ls1, ofs1, count, j, reversed, inverse)
  }

  /**
   * What `Layout.checkLines` answers: 0 when every line agrees straight
   * with the same stroke, 6 with the inverse stroke, 2 when they agree in
   * reverse order with the same stroke, 4 with the inverse, and -1 when
   * none of the four holds.
   */
  function LinesCode(ls0: seq<Line>, ofs0: nat, ls1: seq<Line>, ofs1: nat, count: nat): (r: int)
    requires ofs0 + count <= |ls0| && ofs1 + count <= |ls1|
    ensures r == -1 || r == 0 || r == 2 || r == 4 || r == 6
    ensures r == 0 <==> AgreeUpTo(ls0, ofs0, ls1, ofs1, count, count, false, false)
    ensures r == 6 ==> AgreeUpTo(ls0, ofs0, ls1, ofs1, count, count, false, true)
    ensures r == 2 ==> AgreeUpTo(ls0, ofs0, ls1, ofs1, count, count, true, false)
    ensures r == 4 ==> AgreeUpTo(ls0, ofs0, ls1, ofs1, count, count, true, true)
    ensures r == -1 <==>
      && !AgreeUpTo(ls0, ofs0, ls1, ofs1, count, count, false, false)
      && !AgreeUpTo(ls0, ofs0, ls1, ofs1, count, count, false, true)
      && !AgreeUpTo(ls0, ofs0, ls1, ofs1, count, count, true, false)
      && !AgreeUpTo(ls0, ofs0, ls1, ofs1, count, count, true, true)
  {
    if AgreeUpTo(ls0, ofs0, ls1, ofs1, count, count, false, false) then 0
    else if AgreeUpTo(ls0, ofs0, ls1, ofs1, count, count, false, true) then 6
    else if AgreeUpTo(ls0, ofs0, ls1, ofs1, count, count, true, false) then 2
    else if AgreeUpTo(ls0, ofs0, ls1, ofs1, count, count, true, true) then 4
    else -1
  }

  /** The flag bit of one of the four comparisons: 1, 2, 4 and 8. */
  function Bit(reversed: bool, inverse: bool): bv4
  {
    if reversed then (if inverse then 8 else 4) else (if inverse then 2 else 1)
  }

  /** The flags r record which of the four comparisons hold for the first k lines. */
  predicate Flags(r: bv4, ls0: seq<Line>, ofs0: nat, ls1: seq<Line>, ofs1: nat, count: nat, k: nat)
    requires ofs0 + count <= |ls0| && ofs1 + count <= |ls1| && k <= count
  {
    forall reversed: bool, inverse: bool ::
      (r & Bit(reversed, inverse) != 0) <==> AgreeUpTo(ls0, ofs0, ls1, ofs1, count, k, reversed, inverse)
  }

  /** One more line keeps a comparison exactly when it agrees too. */
  lemma AgreeStep(ls0: seq<Line>, ofs0: nat, ls1: seq<Line>, ofs1: nat, count: nat, k: nat,
                  reversed: bool, inverse: bool)
    requires ofs0 + count <= |ls0| && ofs1 + count <= |ls1| && k < count
    ensures AgreeUpTo(ls0, ofs0, ls1, ofs1, count, k + 1, reversed, inverse) <==>
      && AgreeUpTo(ls0, ofs0, ls1, ofs1, count, k, reversed, inverse)
      && Agree(ls0[ofs0 + k], ls1[if reversed then ofs1 + count - 1 - k else ofs1 + k], reversed, inverse)
  {
    assert AgreeAt(ls0, ofs0, ls1, ofs1, count, k, reversed, inverse) <==>
      Agree(ls0[ofs0 + k], ls1[if reversed then ofs1 + count - 1 - k else ofs1 + k], reversed, inverse);
  }

  /** A comparison that fails on the first k lines fails on all of them. */
  lemma AgreeFails(ls0: seq<Line>, ofs0: nat, ls1: seq<Line>, ofs1: nat, count: nat, k: nat,
                   reversed: bool, inverse: bool)
    requires ofs0 + count <= |ls0| && ofs1 + count <= |ls1| && k <= count
    requires !AgreeUpTo(ls0, ofs0, ls1, ofs1, count, k, reversed, inverse)
    ensures !AgreeUpTo(ls0, ofs0, ls1, ofs1, count, count, reversed, inverse)
  {
    var j: nat :| j < k && !AgreeAt(ls0, ofs0, ls1, ofs1, count, j, reversed, inverse);
  }

  /** Clears the flags of the comparisons that line k breaks: the `r & ~...` steps of the loop. */
  function Cleared(r: bv4, e: Line, e1: Line, e2: Line): (r': bv4)
    ensures forall reversed: bool, inverse: bool ::
      (r' & Bit(reversed, inverse) != 0) <==>
        (r & Bit(reversed, inverse) != 0) && Agree(e, if reversed then e2 else e1, reversed, inverse)
  {
    var a := if e.number == e1.number % 32 then
               (if e.stroke != e1.stroke then r & !1 else r) & (if e.stroke != e1.inverse then !2 else 15)
             else r & !3;
    if e.number == 14 - e2.number % 32 then
      (if e.stroke != e2.stroke then a & !4 else a) & (if e.stroke != e2.inverse then !8 else 15)
    else a & !12
  }

  /**
   * The flags `checkLines` sets before its loop from the first line e, its
   * straight partner e1 and its reversed partner e2.
   */
  method FirstFlags(e: Line, e1: Line, e2: Line) returns (r: bv4)
    ensures forall reversed: bool, inverse: bool ::
      (r & Bit(reversed, inverse) != 0) <==> Agree(e, if reversed then e2 else e1, reversed, inverse)
  {
    r := 0;
    if e.number == e1.number % 32 {
      if e.stroke == e1.stroke {
        r := r | 1;
      }
      if e.stroke == e1.inverse {
        r := r | 2;
      }
    }
    if e.number == 14 - e2.number % 32 {
      if e.stroke == e2.stroke {
        r := r | 4;
      }
      if e.stroke == e2.inverse {
        r := r | 8;
      }
    }
  }

  /**
   * `Layout.checkLines(ls0, ofs0, ls1, ofs1, count)`: compares `count`
   * lines of both lists.  The source reads the first and last of the lines
   * before its loop, so it needs at least one line.
   */
  method CheckLines(ls0: seq<Line>, ofs0: nat, ls1: seq<Line>, ofs1: nat, count: nat) returns (code: int)
    requires 1 <= count && ofs0 + count <= |ls0| && ofs1 + count <= |ls1|
    ensures code == LinesCode(ls0, ofs0, ls1, ofs1, count)
  {
    var e := ls0[ofs0];
    var r := FirstFlags(e, ls1[ofs1], ls1[ofs1 + count - 1]);
    forall reversed: bool, inverse: bool
      ensures AgreeUpTo(ls0, ofs0, ls1, ofs1, count, 1, reversed, inverse) <==>
        Agree(ls0[ofs0], ls1[if reversed then ofs1 + count - 1 else ofs1], reversed, inverse)
    {
      AgreeStep(ls0, ofs0, ls1, ofs1, count, 0, reversed, inverse);
    }
    assert Flags(r, ls0, ofs0, ls1, ofs1, count, 1);
    if r == 0 {
      NoneAgree(r, ls0, ofs0, ls1, ofs1, count, 1);
      return -1;
    }
    var i := 1;
    while i < count
      invariant 1 <= i <= count
      invariant r != 0 && Flags(r, ls0, ofs0, ls1, ofs1, count, i)
    {
      e := ls0[ofs0 + i];
      var e1 := ls1[ofs1 + i];
      var e2 := ls1[ofs1 + count - 1 - i];
      r := Cleared(r, e, e1, e2);
      forall reversed: bool, inverse: bool
        ensures (r & Bit(reversed, inverse) != 0) <==> AgreeUpTo(ls0, ofs0, ls1, ofs1, count, i + 1, reversed, inverse)
      {
        AgreeStep(ls0, ofs0, ls1, ofs1, count, i, reversed, inverse);
      }
      i := i + 1;
      if r == 0 {
        NoneAgree(r, ls0, ofs0, ls1, ofs1, count, i);
        return -1;
      }
    }
    code := if r & 1 != 0 then 0 else if r & 2 != 0 then 6 else if r & 4 != 0 then 2 else 4;
    FlagsCode(r, ls0, ofs0, ls1, ofs1, count);
  }

  /** With no flag left, none of the four comparisons can hold. */
  lemma NoneAgree(r: bv4, ls0: seq<Line>, ofs0: nat, ls1: seq<Line>, ofs1: nat, count: nat, k: nat)
    requires ofs0 + count <= |ls0| && ofs1 + count <= |ls1| && k <= count
    requires r == 0 && Flags(r, ls0, ofs0, ls1, ofs1, count, k)
    ensures LinesCode(ls0, ofs0, ls1, ofs1, count) == -1
  {
    forall reversed: bool, inverse: bool
      ensures !AgreeUpTo(ls0, ofs0, ls1, ofs1, count, count, reversed, inverse)
    {
      assert r & Bit(reversed, inverse) == 0;
      AgreeFails(ls0, ofs0, ls1, ofs1, count, k, reversed, inverse);
    }
  }

  /** The code `checkLines` picks from flags recording all `count` lines. */
  lemma FlagsCode(r: bv4, ls0: seq<Line>, ofs0: nat, ls1: seq<Line>, ofs1: nat, count: nat)
    requires ofs0 + count <= |ls0| && ofs1 + count <= |ls1|
    requires r != 0 && Flags(r, ls0, ofs0, ls1, ofs1, count, count)
    ensures LinesCode(ls0, ofs0, ls1, ofs1, count) ==
      if r & 1 != 0 then 0 else if r & 2 != 0 then 6 else if r & 4 != 0 then 2 else 4
  {
    assert Bit(false, false) == 1 && Bit(false, true) == 2 && Bit(true, false) == 4 && Bit(true, true) == 8;
  }

  // ---------------------------------------------------------------------
  // transCode
  // ---------------------------------------------------------------------

  /** The number of lines from index i on numbered below `bound`, up to the first that is not. */
  function Leading(ls: seq<Line>, i: nat, bound: nat): (n: nat)
    requires i <= |ls|
    decreases |ls| - i
    ensures i + n <= |ls|
    ensures forall k :: i <= k < i + n ==> ls[k].number < bound
    ensures i + n < |ls| ==> ls[i + n].number >= bound
  {
    if i < |ls| && ls[i].number < bound then 1 + Leading(ls, i + 1, bound) else 0
  }

  /** A count that stops where `Leading` says is `Leading`. */
  lemma {:induction false} LeadingIs(ls: seq<Line>, i: nat, n: nat, bound: nat)
    requires i + n <= |ls|
    requires forall k :: i <= k < i + n ==> ls[k].number < bound
    requires i + n < |ls| ==> ls[i + n].number >= bound
    ensures Leading(ls, i, bound) == n
    decreases n
  {
    if n > 0 {
      LeadingIs(ls, i + 1, n - 1, bound);
    }
  }

  /**
   * The lines of a position open with a row (number below 0x20) and close
   * with a diagonal (0x40 and above), as every non-empty position's do:
   * the counting loops of `transCode` stop only at a line of another
   * direction and read past the end of the list otherwise.
   */
  predicate Framed(ls: seq<Line>)
  {
    |ls| == 0 || (ls[0].number < 32 && ls[|ls| - 1].number >= 64)
  }

  /**
   * What `layout.transCode(other)` answers: -1 for no position or one
   * with another number of lines, 0 for two empty positions; otherwise the
   * code `checkLines` finds between the row lines of both, and failing
   * that, one more than the code it finds between these row lines and the
   * other position's column lines (directions swapped); -1 if neither
   * fits.
   */
  function TransCodeOf(ls: seq<Line>, other: Option<Layout>): (r: int)
    requires Framed(ls) && (other.Some? ==> Framed(other.value.lines))
    ensures -1 <= r < 8
    ensures other.None? ==> r == -1
    ensures other.Some? && |other.value.lines| != |ls| ==> r == -1
  {
    if other.None? then -1
    else
      var ls1 := other.value.lines;
      if |ls1| != |ls| then -1
      else if |ls| == 0 then 0
      else
        var n := Leading(ls, 0, 32);
        var n1 := Leading(ls1, 0, 32);
        var r := if n == n1 then LinesCode(ls, 0, ls1, 0, n) else -1;
        if r >= 0 then r
        else
          var m1 := Leading(ls1, n1, 64);
          if n == m1 then
            var r' := LinesCode(ls, 0, ls1, n1, n);
            if r' >= 0 then r' + 1 else -1
          else -1
  }

  /** The loop `while (e.number < bound) { n++; e = ls[n]; }` from index i. */
  method CountLeading(ls: seq<Line>, i: nat, bound: nat) returns (n: nat)
    requires i < |ls| && ls[|ls| - 1].number >= bound
    ensures n == Leading(ls, i, bound) && i + n < |ls|
  {
    n := 0;
    var e := ls[i];
    while e.number < bound
      invariant i + n < |ls| && e == ls[i + n]
      invariant forall k :: i <= k < i + n ==> ls[k].number < bound
      decreases |ls| - n
    {
      n := n + 1;
      e := ls[i + n];
    }
    LeadingIs(ls, i, n, bound);
  }

  /** `Layout.prototype.transCode(layout)`, with the position as `ls` and `layout` as `other`. */
  method TransCode(ls: seq<Line>, other: Option<Layout>) returns (code: int)
    requires Framed(ls) && (other.Some? ==> Framed(other.value.lines))
    ensures code == TransCodeOf(ls, other)
  {
    if other.None? {
      return -1;
    }
    var ls1 := other.value.lines;
    if |ls1| != |ls| {
      return -1;
    }
    if |ls| == 0 {
      return 0;
    }
    var n := CountLeading(ls, 0, 32);
    var n1 := CountLeading(ls1, 0, 32);
    if n == n1 {
      var r := CheckLines(ls, 0, ls1, 0, n);
      if r >= 0 {
        return r;
      }
    }
    var m1 := CountLeading(ls1, n1, 64);
    if n == m1 {
      var r := CheckLines(ls, 0, ls1, n1, n);
      if r >= 0 {
        return r + 1;
      }
    }
    return -1;
  }

  /** Every position is its own transposition under code 0. */
  lemma TransCodeSelf(L: Layout)
    requires Framed(L.lines)
    ensures TransCodeOf(L.lines, Some(L)) == 0
  {
    var ls := L.lines;
    if |ls| > 0 {
      var n := Leading(ls, 0, 32);
      forall j: nat | j < n
        ensures AgreeAt(ls, 0, ls, 0, n, j, false, false)
      {
        assert ls[j].number < 32;
      }
    }
  }

  /** Lines showing a board, kept in increasing order, open with a row and close with a diagonal. */
  lemma FramedLines(ls: seq<Line>, m: map<nat, int>)
    requires LayoutLines.Represents(ls, m) && LayoutLines.Increasing(ls)
    ensures Framed(ls)
  {
    if ls != [] {
      var x := StoneOfLines(ls, m);
      assert LayoutLines.CellOf(ls, 0, x) == LayoutLines.Occupant(m, x) != 0;
      assert LayoutLines.CellOf(ls, 2, x) == LayoutLines.Occupant(m, x) != 0;
      var i := LayoutLines.FindLine(ls, LineNumber(0, x)).value;
      var j := LayoutLines.FindLine(ls, LineNumber(2, x)).value;
      assert ls[0].number <= ls[i].number < 32;
      assert ls[|ls| - 1].number >= ls[j].number >= 64;
    }
  }

  /** Lines showing a board hold a stone of it: the first line's first non-empty cell. */
  lemma StoneOfLines(ls: seq<Line>, m: map<nat, int>) returns (x: nat)
    requires LayoutLines.Represents(ls, m) && |ls| > 0
    ensures x in m
  {
    var l := ls[0];
    assert Valid(l) && l.stroke != 0;
    var j := SomeCellNonEmpty(l.stroke);
    NonEmptyCellBelow(l.stroke, LineLength(l.number), j);
    x := PosSquare(l.number, j);
    PosSquareOnLine(l.number, j);
    assert LayoutLines.UniqueNumbers(ls);
    LayoutLines.FindUnique(ls, l.number, 0);
    assert LayoutLines.CellOf(ls, l.number / 32, x) == LayoutLines.Occupant(m, x);
  }

  /**
   * The code `transCode` answers for a comparison that holds between the
   * row lines of a position and the lines of direction d (0 rows, 1
   * columns) of the other: `checkLines`' code, plus one for columns.
   */
  function CodeOf(d: nat, reversed: bool, inverse: bool): int
  {
    (if reversed then (if inverse then 4 else 2) else (if inverse then 6 else 0)) + d
  }

  /** The `count` lines of ls from index ofs are exactly its lines of direction d. */
  ghost predicate Block(ls: seq<Line>, ofs: nat, count: nat, d: nat)
  {
    && ofs + count <= |ls|
    && forall k :: 0 <= k < |ls| ==> (ofs <= k < ofs + count <==> 32 * d <= ls[k].number < 32 * d + 32)
  }

  /** The row lines of an increasing list are the ones the first counting loop of `transCode` passes. */
  lemma RowsBlock(ls: seq<Line>)
    requires LayoutLines.Increasing(ls)
    ensures Block(ls, 0, Leading(ls, 0, 32), 0)
  {
    var n := Leading(ls, 0, 32);
    forall k | n <= k < |ls|
      ensures ls[k].number >= 32
    {
      assert ls[n].number <= ls[k].number;
    }
  }

  /** The column lines of an increasing list are the ones the second counting loop of `transCode` passes. */
  lemma ColumnsBlock(ls: seq<Line>)
    requires LayoutLines.Increasing(ls)
    ensures Block(ls, Leading(ls, 0, 32), Leading(ls, Leading(ls, 0, 32), 64), 1)
  {
    var n1 := Leading(ls, 0, 32);
    var m1 := Leading(ls, n1, 64);
    forall k | n1 <= k < |ls|
      ensures ls[k].number >= 32
    {
      assert ls[n1].number <= ls[k].number;
    }
    forall k | n1 + m1 <= k < |ls|
      ensures ls[k].number >= 64
    {
      assert ls[n1 + m1].number <= ls[k].number;
    }
  }

  /**
   * When the row lines of `a` agree with the block of lines of direction d
   * of `b` (in order or reversed, stroke for stroke or stroke for
   * inverse), row r of `a` has a line exactly when `b` has its partner
   * line, and the strokes match.
   */
  lemma BlockSearch(a: seq<Line>, b: seq<Line>, ofs1: nat, n: nat, d: nat, r: nat, reversed: bool, inverse: bool)
    requires LayoutLines.Increasing(a) && LayoutLines.Increasing(b) && d < 2 && r < 15
    requires Block(a, 0, n, 0) && Block(b, ofs1, n, d)
    requires AgreeUpTo(a, 0, b, ofs1, n, n, reversed, inverse)
    ensures var r1 := 32 * d + (if reversed then 14 - r else r);
      && (LayoutLines.FindLine(a, r).Some? <==> LayoutLines.FindLine(b, r1).Some?)
      && (LayoutLines.FindLine(a, r).Some? ==>
            var l := b[LayoutLines.FindLine(b, r1).value];
            a[LayoutLines.FindLine(a, r).value].stroke == if inverse then l.inverse else l.stroke)
  {
    if LayoutLines.FindLine(a, r).Some? {
      BlockFound(a, b, ofs1, n, d, r, reversed, inverse);
    } else {
      BlockAbsent(a, b, ofs1, n, d, r, reversed, inverse);
    }
  }

  /** A row line of `a` numbered r has its partner in the block of `b`. */
  lemma BlockFound(a: seq<Line>, b: seq<Line>, ofs1: nat, n: nat, d: nat, r: nat, reversed: bool, inverse: bool)
    requires LayoutLines.Increasing(b) && d < 2 && r < 15
    requires Block(a, 0, n, 0) && Block(b, ofs1, n, d)
    requires AgreeUpTo(a, 0, b, ofs1, n, n, reversed, inverse)
    requires LayoutLines.FindLine(a, r).Some?
    ensures var r1 := 32 * d + (if reversed then 14 - r else r);
      && LayoutLines.FindLine(b, r1).Some?
      && a[LayoutLines.FindLine(a, r).value].stroke
         == if inverse then b[LayoutLines.FindLine(b, r1).value].inverse else b[LayoutLines.FindLine(b, r1).value].stroke
  {
    assert LayoutLines.UniqueNumbers(b);
    var r1 := 32 * d + (if reversed then 14 - r else r);
    var i := LayoutLines.FindLine(a, r).value;
    assert a[i].number == r && i < |a|;
    assert i < n;
    var p := if reversed then ofs1 + n - 1 - i else ofs1 + i;
    assert AgreeAt(a, 0, b, ofs1, n, i, reversed, inverse);
    assert 32 * d <= b[p].number < 32 * d + 32;
    assert b[p].number == r1;
    LayoutLines.FindUnique(b, r1, p);
  }

  /** Without a row line of `a` numbered r, the block of `b` has no partner line. */
  lemma BlockAbsent(a: seq<Line>, b: seq<Line>, ofs1: nat, n: nat, d: nat, r: nat, reversed: bool, inverse: bool)
    requires LayoutLines.Increasing(a) && d < 2 && r < 15
    requires Block(a, 0, n, 0) && Block(b, ofs1, n, d)
    requires AgreeUpTo(a, 0, b, ofs1, n, n, reversed, inverse)
    requires LayoutLines.FindLine(a, r).None?
    ensures LayoutLines.FindLine(b, 32 * d + (if reversed then 14 - r else r)).None?
  {
    var r1 := 32 * d + (if reversed then 14 - r else r);
    forall k | 0 <= k < |b|
      ensures b[k].number != r1
    {
      if ofs1 <= k < ofs1 + n {
        var i := if reversed then ofs1 + n - 1 - k else k - ofs1;
        assert AgreeAt(a, 0, b, ofs1, n, i, reversed, inverse);
        assert LayoutLines.UniqueNumbers(a);
        LayoutLines.FindUnique(a, a[i].number, i);
      }
    }
  }

  /**
   * A code `transCode` answers between two non-empty positions comes from
   * one comparison that holds between the row lines of the first and the
   * rows or the columns of the second.
   */
  lemma CodeComparison(ls: seq<Line>, b: Layout) returns (d: nat, reversed: bool, inverse: bool, ofs1: nat, n: nat)
    requires LayoutLines.Increasing(ls) && LayoutLines.Increasing(b.lines)
    requires Framed(ls) && Framed(b.lines) && |ls| > 0
    requires TransCodeOf(ls, Some(b)) >= 0
    ensures d < 2 && Block(ls, 0, n, 0) && Block(b.lines, ofs1, n, d)
    ensures AgreeUpTo(ls, 0, b.lines, ofs1, n, n, reversed, inverse)
    ensures TransCodeOf(ls, Some(b)) == CodeOf(d, reversed, inverse)
  {
    var ls1 := b.lines;
    n := Leading(ls, 0, 32);
    var n1 := Leading(ls1, 0, 32);
    RowsBlock(ls);
    RowsBlock(ls1);
    ColumnsBlock(ls1);
    var c := if n == n1 then LinesCode(ls, 0, ls1, 0, n) else -1;
    if c >= 0 {
      d, ofs1 := 0, 0;
    } else {
      d, ofs1 := 1, n1;
      c := LinesCode(ls, 0, ls1, n1, n);
    }
    reversed, inverse := c == 2 || c == 4, c == 6 || c == 4;
  }

  /** Moving a square by the code of a comparison takes row r, column c to the line and offset that comparison pairs them with. */
  lemma CodeMoves(x: nat, d: nat, reversed: bool, inverse: bool)
    requires OnBoard(x) && d < 2
    ensures var y := Symmetry.TransSquare(x, CodeOf(d, reversed, inverse), false);
      && LineNumber(d, y) == 32 * d + (if reversed then 14 - Row(x) else Row(x))
      && LineOffset(d, y) == if inverse then 14 - Col(x) else Col(x)
  {
  }

  /** A line of a row or a column reads its inverse stroke backwards. */
  lemma StraightMirror(l: Line, c: nat)
    requires Valid(l) && l.number / 32 < 2 && c < 15
    ensures Cell(l.inverse, c) == Cell(l.stroke, 14 - c)
  {
    assert LineLength(l.number) == 15;
    assert Cell(l.inverse, 15 - 1 - (14 - c)) == Cell(l.stroke, 14 - c);
  }

  /**
   * Squares x and y whose lines in `a` (row) and `b` (direction d) are both
   * missing, or match stroke for stroke (or stroke for inverse, with y at
   * the mirrored offset), show the same cell.
   */
  lemma PairedCells(a: seq<Line>, b: seq<Line>, d: nat, inverse: bool, x: nat, y: nat)
    requires d < 2 && OnBoard(x) && OnBoard(y) && forall k :: 0 <= k < |b| ==> Valid(b[k])
    requires LineOffset(d, y) == if inverse then 14 - Col(x) else Col(x)
    requires LayoutLines.FindLine(a, Row(x)).Some? <==> LayoutLines.FindLine(b, LineNumber(d, y)).Some?
    requires LayoutLines.FindLine(a, Row(x)).Some? ==>
      var l := b[LayoutLines.FindLine(b, LineNumber(d, y)).value];
      a[LayoutLines.FindLine(a, Row(x)).value].stroke == if inverse then l.inverse else l.stroke
    ensures LayoutLines.CellOf(b, d, y) == LayoutLines.CellOf(a, 0, x)
  {
    assert LineNumber(0, x) == Row(x) && LineOffset(0, x) == Col(x);
    var f := LayoutLines.FindLine(b, LineNumber(d, y));
    if f.Some? && inverse {
      StraightMirror(b[f.value], Col(x));
    }
  }

  /** The same for x and the square its code moves it to. */
  lemma ComparisonCells(a: seq<Line>, b: seq<Line>, ofs1: nat, n: nat, d: nat,
                        reversed: bool, inverse: bool, x: nat)
    requires LayoutLines.Increasing(a) && LayoutLines.Increasing(b)
    requires forall k :: 0 <= k < |b| ==> Valid(b[k])
    requires d < 2 && Block(a, 0, n, 0) && Block(b, ofs1, n, d)
    requires AgreeUpTo(a, 0, b, ofs1, n, n, reversed, inverse) && OnBoard(x)
    ensures LayoutLines.CellOf(b, d, Symmetry.TransSquare(x, CodeOf(d, reversed, inverse), false)) == LayoutLines.CellOf(a, 0, x)
  {
    var y := Symmetry.TransSquare(x, CodeOf(d, reversed, inverse), false);
    CodeMoves(x, d, reversed, inverse);
    BlockSearch(a, b, ofs1, n, d, Row(x), reversed, inverse);
    PairedCells(a, b, d, inverse, x, y);
  }

  /**
   * The same on boards: the stone the second position has on x moved by
   * the code is the stone the first has on x.
   */
  lemma ComparisonMeaning(a: seq<Line>, b: seq<Line>, m: map<nat, int>, m': map<nat, int>,
                          ofs1: nat, n: nat, d: nat, reversed: bool, inverse: bool, x: nat)
    requires LayoutLines.Represents(a, m) && LayoutLines.Increasing(a)
    requires LayoutLines.Represents(b, m') && LayoutLines.Increasing(b)
    requires d < 2 && Block(a, 0, n, 0) && Block(b, ofs1, n, d)
    requires AgreeUpTo(a, 0, b, ofs1, n, n, reversed, inverse) && OnBoard(x)
    ensures LayoutLines.Occupant(m', Symmetry.TransSquare(x, CodeOf(d, reversed, inverse), false)) == LayoutLines.Occupant(m, x)
  {
    var y := Symmetry.TransSquare(x, CodeOf(d, reversed, inverse), false);
    ComparisonCells(a, b, ofs1, n, d, reversed, inverse, x);
    assert LayoutLines.CellOf(a, 0, x) == LayoutLines.Occupant(m, x);
    assert LayoutLines.CellOf(b, d, y) == LayoutLines.Occupant(m', y);
  }

  /**
   * What a transposition code means: when `transCode` answers a code c ≥ 0
   * between positions a and b showing the boards m and m', the stone b has
   * on any square x moved by the symmetry c is the stone a has on x.
   */
  lemma TransCodeMeaning(a: Layout, b: Layout, m: map<nat, int>, m': map<nat, int>, x: nat)
    requires LayoutLines.Represents(a.lines, m) && LayoutLines.Increasing(a.lines) && Framed(a.lines)
    requires LayoutLines.Represents(b.lines, m') && LayoutLines.Increasing(b.lines) && Framed(b.lines)
    requires TransCodeOf(a.lines, Some(b)) >= 0 && OnBoard(x)
    ensures LayoutLines.Occupant(m', Symmetry.TransSquare(x, TransCodeOf(a.lines, Some(b)), false)) == LayoutLines.Occupant(m, x)
  {
    if |a.lines| == 0 {
      assert LayoutLines.CellOf(a.lines, 0, x) == LayoutLines.Occupant(m, x);
      assert LayoutLines.CellOf(b.lines, 0, x) == LayoutLines.Occupant(m', x);
    } else {
      var d, reversed, inverse, ofs1, n := CodeComparison(a.lines, b);
      ComparisonMeaning(a.lines, b.lines, m, m', ofs1, n, d, reversed, inverse, x);
    }
  }

  /** Two positions with transposition code 0 hold the same stones. */
  lemma TransCodeZero(a: Layout, b: Layout, m: map<nat, int>, m': map<nat, int>)
    requires LayoutLines.Represents(a.lines, m) && LayoutLines.Increasing(a.lines) && Framed(a.lines)
    requires LayoutLines.Represents(b.lines, m') && LayoutLines.Increasing(b.lines) && Framed(b.lines)
    requires TransCodeOf(a.lines, Some(b)) == 0
    ensures m == m'
  {
    forall x | OnBoard(x)
      ensures LayoutLines.Occupant(m, x) == LayoutLines.Occupant(m', x)
    {
      TransCodeMeaning(a, b, m, m', x);
      assert Symmetry.TransSquare(x, 0, false) == x;
    }
    SameOccupants(m, m');
  }

  /** Two boards showing the same two bits on every square are the same board. */
  lemma SameOccupants(m: map<nat, int>, m': map<nat, int>)
    requires LayoutLines.IsBoard(m) && LayoutLines.IsBoard(m')
    requires forall x :: OnBoard(x) ==> LayoutLines.Occupant(m, x) == LayoutLines.Occupant(m', x)
    ensures m == m'
  {
    assert forall x :: x in m <==> x in m';
    assert m.Keys == m'.Keys;
  }

  // ---------------------------------------------------------------------
  // equals
  // ---------------------------------------------------------------------

  /**
   * What `layout.equals(obj)` answers: the same position, or a position
   * with the same side to move and some transposition code.
   */
  function Equal(L: Layout, other: Option<Layout>): (r: bool)
    requires Framed(L.lines) && (other.Some? ==> Framed(other.value.lines))
    ensures r <==> other.Some? && other.value.hand == L.hand && (other.value == L || TransCodeOf(L.lines, other) >= 0)
  {
    if other == Some(L) then true
    else if other.None? then false
    else if L.hand != other.value.hand then false
    else TransCodeOf(L.lines, other) >= 0
  }

  /** `Layout.prototype.equals(obj)`, with the `transCode` it calls read as the position's own. */
  method Equals(L: Layout, other: Option<Layout>) returns (r: bool)
    requires Framed(L.lines) && (other.Some? ==> Framed(other.value.lines))
    ensures r == Equal(L, other)
  {
    if other == Some(L) {
      return true;
    }
    if other.None? {
      return false;
    }
    if L.hand != other.value.hand {
      return false;
    }
    var code := TransCode(L.lines, other);
    return code >= 0;
  }

  /**
   * Between two positions that show boards, `equals` holds exactly for the
   * same side to move and a transposition code, and then the second board
   * is the first moved by the symmetry of that code (the same board for
   * code 0).  A position is equal to itself, by its code 0.
   */
  lemma EqualBoards(L: Layout, L': Layout, m: map<nat, int>, m': map<nat, int>)
    requires Shows(L, m) && Shows(L', m')
    ensures Framed(L.lines) && Framed(L'.lines)
    ensures Equal(L, Some(L')) <==> L.hand == L'.hand && TransCodeOf(L.lines, Some(L')) >= 0
    ensures Equal(L, Some(L')) ==>
      forall x :: OnBoard(x) ==>
        LayoutLines.Occupant(m', Symmetry.TransSquare(x, TransCodeOf(L.lines, Some(L')), false)) == LayoutLines.Occupant(m, x)
    ensures Equal(L, Some(L')) && TransCodeOf(L.lines, Some(L')) == 0 ==> m == m'
    ensures Equal(L, Some(L)) && TransCodeOf(L.lines, Some(L)) == 0
  {
    FramedLines(L.lines, m);
    FramedLines(L'.lines, m');
    TransCodeSelf(L);
    if TransCodeOf(L.lines, Some(L')) >= 0 {
      forall x | OnBoard(x)
        ensures LayoutLines.Occupant(m', Symmetry.TransSquare(x, TransCodeOf(L.lines, Some(L')), false)) == LayoutLines.Occupant(m, x)
      {
        TransCodeMeaning(L, L', m, m', x);
      }
      if TransCodeOf(L.lines, Some(L')) == 0 {
        TransCodeZero(L, L', m, m');
      }
    }
  }
}
