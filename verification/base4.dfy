/**
 * Base-4 view of the bit strings the solver packs its lines into.
 *
 * A line's `stroke` keeps two bits per cell, so the JavaScript expressions
 * `(s >> (i << 1)) & 3`, `s & ~(3 << (i << 1)) | (v << (i << 1))` and
 * `(s >> (k << 1)) & ((1 << (n << 1)) - 1)` are, for the non-negative values
 * below 2^30 that occur, the base-4 digit i of s, s with digit i replaced by
 * v, and the n digits of s starting at digit k.  They are defined here by
 * recursion on the digit index so that every fact about them is linear
 * arithmetic plus induction.
 */
module Base4 {

  /** 4^n, i.e. `1 << (n << 1)`. */
  function Pow4(n: nat): (r: nat)
    ensures r >= 1
  {
    if n == 0 then 1 else 4 * Pow4(n - 1)
  }

  /** `s >> (k << 1)`: drop the k lowest cells. */
  function Shift(s: nat, k: nat): nat
  {
    if k == 0 then s else Shift(s / 4, k - 1)
  }

  /** `(s >> (i << 1)) & 3`: the two bits of cell i. */
  function Cell(s: nat, i: nat): (c: nat)
    ensures c < 4
  {
    if i == 0 then s % 4 else Cell(s / 4, i - 1)
  }

  /** `(s & ~(3 << (i << 1))) | (v << (i << 1))`: cell i overwritten with v. */
  function WithCell(s: nat, i: nat, v: nat): nat
    requires v < 4
  {
    if i == 0 then s - s % 4 + v else 4 * WithCell(s / 4, i - 1, v) + s % 4
  }

  /** `s & ((1 << (n << 1)) - 1)`: the n lowest cells of s. */
  function Low(s: nat, n: nat): nat
  {
    if n == 0 then 0 else 4 * Low(s / 4, n - 1) + s % 4
  }

  /** `(s >> (k << 1)) & ((1 << (n << 1)) - 1)`: the n cells of s from cell k on. */
  function Window(s: nat, k: nat, n: nat): nat
  {
    Low(Shift(s, k), n)
  }

  /** Number of cells below n holding v. */
  function CountCells(s: nat, n: nat, v: nat): nat
  {
    if n == 0 then 0 else CountCells(s, n - 1, v) + (if Cell(s, n - 1) == v then 1 else 0)
  }

  /** `inv` holds the cells of `s` in reverse order over a line of n cells. */
  ghost predicate Mirror(s: nat, inv: nat, n: nat)
  {
    s < Pow4(n) && inv < Pow4(n) &&
    forall j :: 0 <= j < n ==> Cell(inv, n - 1 - j) == Cell(s, j)
  }

  lemma {:induction false} CellOfShift(s: nat, k: nat, j: nat)
    ensures Cell(Shift(s, k), j) == Cell(s, k + j)
  {
    if k > 0 {
      CellOfShift(s / 4, k - 1, j);
    }
  }

  lemma {:induction false} CellOfLow(s: nat, n: nat, j: nat)
    ensures Cell(Low(s, n), j) == if j < n then Cell(s, j) else 0
  {
    if n == 0 {
      CellZero(j);
    } else if j > 0 {
      CellOfLow(s / 4, n - 1, j - 1);
    }
  }

  lemma {:induction false} LowBound(s: nat, n: nat)
    ensures Low(s, n) < Pow4(n)
  {
    if n > 0 {
      LowBound(s / 4, n - 1);
    }
  }

  lemma CellZero(j: nat)
    ensures Cell(0, j) == 0
  {
    if j > 0 { CellZero(j - 1); }
  }

  /** The digits inside a window are the digits of s from k on. */
  lemma CellOfWindow(s: nat, k: nat, n: nat, j: nat)
    ensures Cell(Window(s, k, n), j) == if j < n then Cell(s, k + j) else 0
  {
    CellOfLow(Shift(s, k), n, j);
    if j < n {
      CellOfShift(s, k, j);
    }
  }

  lemma {:induction false} WithCellCell(s: nat, i: nat, v: nat, j: nat)
    requires v < 4
    ensures Cell(WithCell(s, i, v), j) == if j == i then v else Cell(s, j)
  {
    var w := WithCell(s, i, v);
    if i == 0 {
      if j > 0 {
        assert w / 4 == s / 4;
      }
    } else {
      assert w / 4 == WithCell(s / 4, i - 1, v) && w % 4 == s % 4;
      if j > 0 {
        WithCellCell(s / 4, i - 1, v, j - 1);
      }
    }
  }

  /** Two numbers below 4^n with the same n cells are equal. */
  lemma {:induction false} CellsDetermine(s: nat, t: nat, n: nat)
    requires s < Pow4(n) && t < Pow4(n)
    requires forall j :: 0 <= j < n ==> Cell(s, j) == Cell(t, j)
    ensures s == t
  {
    if n > 0 {
      assert Cell(s, 0) == Cell(t, 0);
      forall j | 0 <= j < n - 1
        ensures Cell(s / 4, j) == Cell(t / 4, j)
      {
        assert Cell(s, j + 1) == Cell(t, j + 1);
      }
      CellsDetermine(s / 4, t / 4, n - 1);
    }
  }

  /** Cells at or beyond n of a number below 4^n are empty. */
  lemma {:induction false} CellAbove(s: nat, n: nat, j: nat)
    requires s < Pow4(n) && j >= n
    ensures Cell(s, j) == 0
  {
    if n == 0 {
      CellZero(j);
    } else {
      CellAbove(s / 4, n - 1, j - 1);
    }
  }

  lemma {:induction false} WithCellBound(s: nat, n: nat, i: nat, v: nat)
    requires v < 4 && s < Pow4(n) && i < n
    ensures WithCell(s, i, v) < Pow4(n)
  {
    var p := Pow4(n - 1);
    assert Pow4(n) == 4 * p;
    assert s / 4 < p;
    if i == 0 {
      assert WithCell(s, i, v) == 4 * (s / 4) + v;
    } else {
      WithCellBound(s / 4, n - 1, i - 1, v);
      assert WithCell(s, i, v) == 4 * WithCell(s / 4, i - 1, v) + s % 4;
    }
  }

  /** A number below 4^n with a non-empty cell j has j < n. */
  lemma NonEmptyCellBelow(s: nat, n: nat, j: nat)
    requires s < Pow4(n) && Cell(s, j) != 0
    ensures j < n
  {
    if j >= n {
      CellAbove(s, n, j);
    }
  }

  /** A non-zero stroke has a non-empty cell. */
  lemma {:induction false} SomeCellNonEmpty(s: nat) returns (j: nat)
    requires s > 0
    ensures Cell(s, j) != 0
  {
    if s % 4 != 0 {
      j := 0;
    } else {
      var k := SomeCellNonEmpty(s / 4);
      j := k + 1;
    }
  }

  /** Cells of a single-cell value `v << (i << 1)`. */
  lemma {:induction false} CellOfSingle(v: nat, i: nat, j: nat)
    requires v < 4
    ensures Cell(v * Pow4(i), j) == if j == i then v else 0
  {
    if i == 0 {
      if j > 0 {
        assert v / 4 == 0;
        CellZero(j - 1);
      }
    } else {
      assert (v * Pow4(i)) / 4 == v * Pow4(i - 1) && (v * Pow4(i)) % 4 == 0;
      if j > 0 {
        CellOfSingle(v, i - 1, j - 1);
      }
    }
  }

  lemma {:induction false} SingleBound(v: nat, i: nat, n: nat)
    requires v < 4 && i < n
    ensures v * Pow4(i) < Pow4(n)
  {
    if n > i + 1 {
      SingleBound(v, i, n - 1);
    }
  }

  /** Counting after a cell is overwritten. */
  lemma {:induction false} CountWithCell(s: nat, n: nat, i: nat, w: nat, v: nat)
    requires w < 4 && i < n
    ensures CountCells(WithCell(s, i, w), n, v)
         == CountCells(s, n, v) - (if Cell(s, i) == v then 1 else 0) + (if w == v then 1 else 0)
  {
    WithCellCell(s, i, w, n - 1);
    if n - 1 > i {
      CountWithCell(s, n - 1, i, w, v);
    } else {
      forall j | 0 <= j < n - 1
        ensures Cell(s, j) == Cell(WithCell(s, i, w), j)
      {
        WithCellCell(s, i, w, j);
      }
      CountUnchanged(s, WithCell(s, i, w), n - 1, v);
    }
  }

  lemma {:induction false} CountUnchanged(s: nat, t: nat, n: nat, v: nat)
    requires forall j :: 0 <= j < n ==> Cell(s, j) == Cell(t, j)
    ensures CountCells(s, n, v) == CountCells(t, n, v)
  {
    if n > 0 {
      CountUnchanged(s, t, n - 1, v);
    }
  }

  lemma {:induction false} CountBound(s: nat, n: nat, v: nat)
    ensures CountCells(s, n, v) <= n
  {
    if n > 0 {
      CountBound(s, n - 1, v);
    }
  }

  lemma {:induction false} CountPositive(s: nat, n: nat, v: nat, j: nat)
    requires j < n && Cell(s, j) == v
    ensures CountCells(s, n, v) >= 1
  {
    if j < n - 1 {
      CountPositive(s, n - 1, v, j);
    }
  }

  /** Overwriting a cell twice keeps only the second value. */
  lemma {:induction false} WithCellTwice(s: nat, i: nat, v: nat, w: nat)
    requires v < 4 && w < 4
    ensures WithCell(WithCell(s, i, v), i, w) == WithCell(s, i, w)
  {
    var t := WithCell(s, i, v);
    if i == 0 {
      DivMod4(s / 4, v);
      assert t == 4 * (s / 4) + v;
    } else {
      DivMod4(WithCell(s / 4, i - 1, v), s % 4);
      WithCellTwice(s / 4, i - 1, v, w);
    }
  }

  /** Writing back a cell's own value changes nothing. */
  lemma {:induction false} WithCellSame(s: nat, i: nat)
    ensures WithCell(s, i, Cell(s, i)) == s
  {
    if i > 0 {
      WithCellSame(s / 4, i - 1);
    }
  }

  lemma DivMod4(q: nat, r: nat)
    requires r < 4
    ensures (4 * q + r) / 4 == q && (4 * q + r) % 4 == r
  {
  }

  /** Writing the same value at mirrored cells keeps two strokes mirrored. */
  lemma MirrorWithCell(s: nat, inv: nat, n: nat, i: nat, v: nat)
    requires Mirror(s, inv, n) && i < n && v < 4
    ensures Mirror(WithCell(s, i, v), WithCell(inv, n - 1 - i, v), n)
  {
    WithCellBound(s, n, i, v);
    WithCellBound(inv, n, n - 1 - i, v);
    forall j | 0 <= j < n
      ensures Cell(WithCell(inv, n - 1 - i, v), n - 1 - j) == Cell(WithCell(s, i, v), j)
    {
      WithCellCell(inv, n - 1 - i, v, n - 1 - j);
      WithCellCell(s, i, v, j);
    }
  }

  /** The lowest cell of what is left after dropping k cells is cell k. */
  lemma {:induction false} ShiftStep(s: nat, k: nat)
    ensures Shift(s, k + 1) == Shift(s, k) / 4
    ensures Cell(s, k) == Shift(s, k) % 4
  {
    if k > 0 {
      ShiftStep(s / 4, k - 1);
    }
  }

  /** Cells beyond the highest stone: a stroke shifted down to zero has no stones left. */
  lemma {:induction false} ShiftZero(s: nat, k: nat, j: nat)
    requires Shift(s, k) == 0 && j >= k
    ensures Cell(s, j) == 0
  {
    CellOfShift(s, k, j - k);
    CellZero(j - k);
  }
}
