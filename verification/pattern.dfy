/**
 * Shape patterns (docs/translated/pattern.js).
 *
 * A template is read cell by cell: `x` a stone of the figure, `+` a cell
 * that both strengthens the figure and closes the opponent's, `-` a cell
 * that only strengthens it, `!` a cell that only closes it; every other
 * character (`.` and, in the catalog, the spaces) is a margin cell.
 */
module Patterns {
  import opened Base4
  import opened Wrappers

  // Shape types; a lower type is a stronger shape.
  const FIVE := 0
  const OPEN_FOUR := 3
  const FOUR := 4
  const OPEN_THREE := 7
  const THREE := 10
  const OPEN_TWO := 11
  const TWO := 14
  const ONE := 15

  /**
   * A compiled template.  `mask` covers the template's cells, `white` and
   * `black` are the stroke values of the template's stones for each colour
   * (`01` white, `10` black per cell), and the four offset lists say which
   * cells are stones, strengthening, closing and breaking moves.
   */
  datatype Pattern = Pattern(
    kind: int,
    rating: int,
    length: nat,
    mask: nat,
    white: nat,
    black: nat,
    moves: seq<nat>,
    move: Option<nat>,   // moves[0]; JavaScript's `undefined` when there is no stone
    gains: seq<nat>,
    downs: seq<nat>,
    rifts: seq<nat>)

  predicate IsStone(c: char) { c == 'x' }
  predicate IsGain(c: char) { c == '-' || c == '+' }
  predicate IsDown(c: char) { c == '+' || c == '!' }
  predicate IsRift(c: char) { c != 'x' }

  /** The indices below n whose character satisfies f, in increasing order. */
  function Where(t: string, n: nat, f: char -> bool): seq<nat>
    requires n <= |t|
  {
    if n == 0 then [] else Where(t, n - 1, f) + (if f(t[n - 1]) then [n - 1] else [])
  }

  /** Cell i of the result is 1 exactly when t[i] is `x`. */
  function XBits(t: string): nat
  {
    if t == [] then 0 else (if t[0] == 'x' then 1 else 0) + 4 * XBits(t[1..])
  }

  /**
   * The value the constructor leaves in a Pattern.  For templates of at most
   * 15 cells (the catalog's are at most 12) every shift of the JavaScript
   * constructor stays inside 31 bits, so the values below are exact.
   */
  function PatternOf(kind: int, template: string, rating: int): Pattern
  {
    var n := |template|;
    var moves := Where(template, n, IsStone);
    Pattern(kind, rating, n, Pow4(n) - 1, XBits(template), 2 * XBits(template),
            moves, if moves == [] then None else Some(moves[0]),
            Where(template, n, IsGain), Where(template, n, IsDown), Where(template, n, IsRift))
  }

  /**
   * The constructor `new Pattern(type, template, rating)`: a first loop
   * packs the `x` cells into `s` from the last cell down, a second one
   * sorts the cell indices into the four offset lists.
   */
  method NewPattern(kind: int, template: string, rating: int) returns (p: Pattern)
    requires |template| <= 15
    ensures p == PatternOf(kind, template, rating)
  {
    var length := |template|;
    var mask := Pow4(length) - 1;
    var s := PackStones(template);
    var moves, gains, downs, rifts := SortOffsets(template);
    p := Pattern(kind, rating, length, mask, s, s * 2, moves,
                 if moves == [] then None else Some(moves[0]), gains, downs, rifts);
  }

  /** The constructor's first loop: one cell per character, 1 under each `x`. */
  method PackStones(template: string) returns (s: nat)
    requires |template| <= 15
    ensures s == XBits(template)
  {
    s := 0;
    // The source's decrement is written `-i` (an expression with no effect,
    // so the loop would never end); `--i` is evidently meant.
    var i: int := |template| - 1;
    while i >= 0
      invariant -1 <= i < |template|
      invariant s == 4 * XBits(template[i + 1..])
    {
      assert template[i..] == [template[i]] + template[i + 1..];
      if template[i] == 'x' {
        s := s + 1;  // s is a multiple of 4 here, so `s | 1` is `s + 1`
      }
      s := s * 4;
      i := i - 1;
    }
    assert template[0..] == template;
    s := s / 4;
  }

  /** The constructor's second loop: each cell index goes to the offset lists its character belongs to. */
  method SortOffsets(template: string) returns (moves: seq<nat>, gains: seq<nat>, downs: seq<nat>, rifts: seq<nat>)
    ensures moves == Where(template, |template|, IsStone)
    ensures gains == Where(template, |template|, IsGain)
    ensures downs == Where(template, |template|, IsDown)
    ensures rifts == Where(template, |template|, IsRift)
  {
    moves, gains, downs, rifts := [], [], [], [];
    var k := 0;
    while k < |template|
      invariant 0 <= k <= |template|
      invariant moves == Where(template, k, IsStone)
      invariant gains == Where(template, k, IsGain)
      invariant downs == Where(template, k, IsDown)
      invariant rifts == Where(template, k, IsRift)
    {
      var ch := template[k];
      if ch == 'x' {
        moves := moves + [k];
      } else if ch == '-' {
        gains := gains + [k];
        rifts := rifts + [k];
      } else if ch == '+' {
        gains := gains + [k];
        downs := downs + [k];
        rifts := rifts + [k];
      } else if ch == '!' {
        downs := downs + [k];
        rifts := rifts + [k];
      } else {
        rifts := rifts + [k];
      }
      k := k + 1;
    }
  }

  /** The cells of XBits(t): 1 under each `x`, 0 elsewhere and beyond t. */
  lemma {:induction false} XBitsCells(t: string, i: nat)
    ensures Cell(XBits(t), i) == if i < |t| && t[i] == 'x' then 1 else 0
    ensures XBits(t) < Pow4(|t|)
  {
    if t == [] {
      CellZero(i);
    } else {
      XBitsCells(t[1..], if i > 0 then i - 1 else 0);
      if i > 0 {
        XBitsCells(t[1..], i - 1);
        assert XBits(t) / 4 == XBits(t[1..]);
      }
    }
  }

  /** Doubling a value whose cells are 0 or 1 doubles every cell (`s << 1`). */
  lemma {:induction false} DoubleCells(w: nat, n: nat, i: nat)
    requires forall j :: 0 <= j < n ==> Cell(w, j) <= 1
    requires w < Pow4(n)
    ensures Cell(2 * w, i) == 2 * Cell(w, i)
    ensures 2 * w < Pow4(n)
  {
    if n == 0 {
      CellZero(i);
    } else {
      assert Cell(w, 0) <= 1;
      forall j | 0 <= j < n - 1
        ensures Cell(w / 4, j) <= 1
      {
        assert Cell(w, j + 1) <= 1;
      }
      assert (2 * w) / 4 == 2 * (w / 4);
      if i > 0 {
        DoubleCells(w / 4, n - 1, i - 1);
      } else {
        DoubleCells(w / 4, n - 1, 0);
      }
    }
  }

  /** All 2n low bits of 4^n - 1 are set. */
  lemma {:induction false} FullMaskCells(n: nat, i: nat)
    ensures Cell(Pow4(n) - 1, i) == if i < n then 3 else 0
  {
    if n == 0 {
      CellZero(i);
    } else {
      DivMod4(Pow4(n - 1) - 1, 3);
      if i > 0 {
        FullMaskCells(n - 1, i - 1);
      }
    }
  }

  /**
   * The comparison values: `white` has a 01 cell under each `x` and `black`
   * a 10 cell, every other cell empty; both lie under `mask`, whose cells
   * are all 11 over the template's length.
   */
  lemma PatternValues(kind: int, t: string, rating: int, i: nat)
    ensures var p := PatternOf(kind, t, rating);
      && p.length == |t|
      && Cell(p.mask, i) == (if i < |t| then 3 else 0)
      && Cell(p.white, i) == (if i < |t| && t[i] == 'x' then 1 else 0)
      && Cell(p.black, i) == (if i < |t| && t[i] == 'x' then 2 else 0)
      && p.white <= p.mask && p.black <= p.mask
  {
    var p := PatternOf(kind, t, rating);
    FullMaskCells(|t|, i);
    XBitsCells(t, i);
    forall j | 0 <= j < |t|
      ensures Cell(XBits(t), j) <= 1
    {
      XBitsCells(t, j);
    }
    DoubleCells(XBits(t), |t|, i);
  }

  /** Every offset `Where` lists lies inside the template. */
  lemma WhereBelow(t: string, f: char -> bool)
    ensures forall i :: 0 <= i < |Where(t, |t|, f)| ==> Where(t, |t|, f)[i] < |t|
  {
    var w := Where(t, |t|, f);
    WhereMembers(t, |t|, f);
    assert forall i :: 0 <= i < |w| ==> w[i] in w;
  }

  /** Where lists exactly the matching indices, in strictly increasing order. */
  lemma {:induction false} WhereMembers(t: string, n: nat, f: char -> bool)
    requires n <= |t|
    ensures forall k: nat :: k in Where(t, n, f) <==> k < n && f(t[k])
    ensures forall a, b :: 0 <= a < b < |Where(t, n, f)| ==> Where(t, n, f)[a] < Where(t, n, f)[b]
  {
    if n > 0 {
      WhereMembers(t, n - 1, f);
      var w := Where(t, n - 1, f);
      forall a, b | 0 <= a < b < |Where(t, n, f)|
        ensures Where(t, n, f)[a] < Where(t, n, f)[b]
      {
        if b >= |w| {
          assert w[a] in w;
        }
      }
    }
  }

  /**
   * The offset lists of a compiled template: `moves` is the ascending list
   * of stone cells and `move` its first element; `gains`, `downs` and
   * `rifts` hold the `+`/`-`, the `+`/`!` and the non-`x` cells; `moves`
   * and `rifts` split the template, and `gains` and `downs` lie in `rifts`.
   */
  lemma PatternOffsets(kind: int, t: string, rating: int)
    ensures var p := PatternOf(kind, t, rating);
      && (forall k: nat :: k in p.moves <==> k < |t| && t[k] == 'x')
      && (forall k: nat :: k in p.gains <==> k < |t| && (t[k] == '-' || t[k] == '+'))
      && (forall k: nat :: k in p.downs <==> k < |t| && (t[k] == '+' || t[k] == '!'))
      && (forall k: nat :: k in p.rifts <==> k < |t| && t[k] != 'x')
      && (forall a, b :: 0 <= a < b < |p.moves| ==> p.moves[a] < p.moves[b])
      && (p.move.Some? <==> p.moves != []) && (p.move.Some? ==> p.move.value == p.moves[0])
      && (forall k: nat :: k < |t| ==> (k in p.moves <==> k !in p.rifts))
      && (forall k :: k in p.gains ==> k in p.rifts)
      && (forall k :: k in p.downs ==> k in p.rifts)
  {
    WhereMembers(t, |t|, IsStone);
    WhereMembers(t, |t|, IsGain);
    WhereMembers(t, |t|, IsDown);
    WhereMembers(t, |t|, IsRift);
  }

  /** The arguments of one `new Pattern(type, template, rating)` of the catalog. */
  datatype Template = Template(kind: int, text: string, rating: int)

  /** Fives. */
  const FiveTemplates: seq<Template> := [
    Template(FIVE, "xxxxx", 0)
  ]

  /** Open fours and fours. */
  const FourTemplates: seq<Template> := [
    Template(OPEN_FOUR, "+ xxxx +", 0),
    Template(FOUR, "xxxx +", 5),
    Template(FOUR, "+ xxxx", 5),
    Template(FOUR, "xxx + x", 5),
    Template(FOUR, "x + xxx", 5),
    Template(FOUR, "xx + xx", 5)
  ]

  /** Open threes and threes. */
  const ThreeTemplates: seq<Template> := [
    Template(OPEN_THREE, ". + xxx +.", 4),
    Template(OPEN_THREE, "! xxx +!", 3),
    Template(OPEN_THREE, "! + xxx!", 3),
    Template(OPEN_THREE, "! xx + x!", 2),
    Template(OPEN_THREE, "! x + xx!", 2),
    Template(THREE, "xxx ++", 1),
    Template(THREE, "++ xxx", 1),
    Template(THREE, "+ xxx +", 1),
    Template(THREE, "x + xx +", 1),
    Template(THREE, "+ xx + x", 1),
    Template(THREE, "xx + x +", 1),
    Template(THREE, "+ x + xx", 1),
    Template(THREE, "xx ++ x", 1),
    Template(THREE, "x ++ xx", 1),
    Template(THREE, "x + x + x", 1)
  ]

  /** Open twos and twos. */
  const TwoTemplates: seq<Template> := [
    Template(OPEN_TWO, ".- + xx + -.", 2),
    Template(OPEN_TWO, ". + xx + -.", 2),
    Template(OPEN_TWO, ".- + xx +.", 2),
    Template(OPEN_TWO, ". + xx +.", 2),
    Template(OPEN_TWO, "! xx + -.", 2),
    Template(OPEN_TWO, ".- + xx!", 2),
    Template(OPEN_TWO, ". + x + x +.", 1),
    Template(OPEN_TWO, "! x + x +.", 1),
    Template(OPEN_TWO, ". + x + x!", 1),
    Template(OPEN_TWO, "! x ++ x!", 1),
    Template(TWO, "xx + -", 0),
    Template(TWO, "- + xx", 0),
    Template(TWO, "+ xx + -", 0),
    Template(TWO, "- + xx +", 0),
    Template(TWO, "x + x + -", 0),
    Template(TWO, "- + x + x", 0),
    Template(TWO, "+ x + x +", 0),
    Template(TWO, "x ++ x +", 0),
    Template(TWO, "+ x ++ x", 0),
    Template(TWO, "x +++ x", 0)
  ]

  /** Single stones with room to grow. */
  const OneTemplates: seq<Template> := [
    Template(ONE, "..-- x-- ..", 0),
    Template(ONE, "..- x-- ..", 0),
    Template(ONE, "..-- x- ..", 0),
    Template(ONE, "..- x- ..", 0),
    Template(ONE, ".-x-- ..", 0),
    Template(ONE, ".-- x- ..", 0),
    Template(ONE, ".-x- ..", 0),
    Template(ONE, "..- x-.", 0),
    Template(ONE, ".x -...", 0),
    Template(ONE, "...- x.", 0)
  ]

  /** The templates of `Pattern.SOLVER_PATTERNS`, group by group. */
  const Catalog: seq<seq<Template>> :=
    [FiveTemplates, FourTemplates, ThreeTemplates, TwoTemplates, OneTemplates]

  /** Each template of a group compiled, in order. */
  function CompileGroup(ts: seq<Template>): (ps: seq<Pattern>)
    ensures |ps| == |ts|
    ensures forall i :: 0 <= i < |ts| ==> ps[i] == PatternOf(ts[i].kind, ts[i].text, ts[i].rating)
  {
    seq(|ts|, i requires 0 <= i < |ts| => PatternOf(ts[i].kind, ts[i].text, ts[i].rating))
  }

  /** Each group compiled, in order. */
  function CompileCatalog(groups: seq<seq<Template>>): (ps: seq<seq<Pattern>>)
    ensures |ps| == |groups|
    ensures forall g :: 0 <= g < |groups| ==> ps[g] == CompileGroup(groups[g])
  {
    seq(|groups|, g requires 0 <= g < |groups| => CompileGroup(groups[g]))
  }

  /** `Pattern.SOLVER_PATTERNS`: the catalog compiled, scanned group by group. */
  const SolverPatterns: seq<seq<Pattern>> := CompileCatalog(Catalog)

  /** The number of stones a figure of each type has. */
  function StonesOfType(kind: int): nat
  {
    if kind == FIVE then 5
    else if kind == OPEN_FOUR || kind == FOUR then 4
    else if kind == OPEN_THREE || kind == THREE then 3
    else if kind == OPEN_TWO || kind == TWO then 2
    else 1
  }
}

module PatternCatalog {
  import opened Patterns

  /** Number of `x` among the first n characters of a template. */
  function CountStones(t: string, n: nat): nat
    requires n <= |t|
  {
    if n == 0 then 0 else CountStones(t, n - 1) + (if t[n - 1] == 'x' then 1 else 0)
  }

  /** The compiled `moves` list has one entry per `x`. */
  lemma {:induction false} WhereCount(t: string, n: nat)
    requires n <= |t|
    ensures |Where(t, n, IsStone)| == CountStones(t, n)
  {
    if n > 0 {
      WhereCount(t, n - 1);
    }
  }

  /** A catalog entry fits a line and has as many stones as its type says. */
  predicate WellFormed(t: Template)
  {
    1 <= |t.text| <= 12 && CountStones(t.text, |t.text|) == StonesOfType(t.kind)
  }

  /** The entries of a group before `split` are of type `strong`, the rest of type `weak`. */
  ghost predicate Tiered(ts: seq<Template>, split: nat, strong: int, weak: int)
  {
    forall i :: 0 <= i < |ts| ==> ts[i].kind == (if i < split then strong else weak)
  }

  /** The five groups in scanning order: FIVE; OPEN_FOUR, FOUR; OPEN_THREE, THREE; OPEN_TWO, TWO; ONE. */
  lemma CatalogTiers()
    ensures |Catalog| == 5
    ensures Tiered(Catalog[0], 1, FIVE, FIVE) && |Catalog[0]| == 1
    ensures Tiered(Catalog[1], 1, OPEN_FOUR, FOUR) && |Catalog[1]| == 6
    ensures Tiered(Catalog[2], 5, OPEN_THREE, THREE) && |Catalog[2]| == 15
    ensures Tiered(Catalog[3], 10, OPEN_TWO, TWO) && |Catalog[3]| == 20
    ensures Tiered(Catalog[4], 10, ONE, ONE) && |Catalog[4]| == 10
  {
  }

  /** Types never decrease along the flattened catalog. */
  lemma CatalogOrdered()
    ensures forall g, h, i, j ::
      (0 <= g < h < |Catalog| && 0 <= i < |Catalog[g]| && 0 <= j < |Catalog[h]|
       ==> Catalog[g][i].kind <= Catalog[h][j].kind)
    ensures forall g, i, j ::
      (0 <= g < |Catalog| && 0 <= i < j < |Catalog[g]|
       ==> Catalog[g][i].kind <= Catalog[g][j].kind)
  {
    CatalogTiers();
  }

  /** Stone counts of the texts of a run of templates, worked out on the literals (halfway first for long ones). */
  lemma FiveCounts()
    ensures CountStones("xxxxx", 5) == 5
  {
    assert CountStones("xxxxx", 5) == 5;
  }

  /** The templates of the five group are well formed. */
  lemma FiveGroup()
    ensures forall i :: 0 <= i < |FiveTemplates| ==> WellFormed(FiveTemplates[i])
  {
    FiveCounts();
  }

  /** Stone counts of the texts of a run of templates, worked out on the literals (halfway first for long ones). */
  lemma FourCounts()
    ensures CountStones("+ xxxx +", 8) == 4
    ensures CountStones("xxxx +", 6) == 4
    ensures CountStones("+ xxxx", 6) == 4
    ensures CountStones("xxx + x", 7) == 4
    ensures CountStones("x + xxx", 7) == 4
    ensures CountStones("xx + xx", 7) == 4
  {
    assert CountStones("+ xxxx +", 8) == 4;
    assert CountStones("xxxx +", 6) == 4;
    assert CountStones("+ xxxx", 6) == 4;
    assert CountStones("xxx + x", 7) == 4;
    assert CountStones("x + xxx", 7) == 4;
    assert CountStones("xx + xx", 7) == 4;
  }

  /** The templates of the four group are well formed. */
  lemma FourGroup()
    ensures forall i :: 0 <= i < |FourTemplates| ==> WellFormed(FourTemplates[i])
  {
    FourCounts();
  }

  /** Stone counts of the texts of a run of templates, worked out on the literals (halfway first for long ones). */
  lemma ThreeCountsA()
    ensures CountStones(". + xxx +.", 10) == 3
    ensures CountStones("! xxx +!", 8) == 3
    ensures CountStones("! + xxx!", 8) == 3
    ensures CountStones("! xx + x!", 9) == 3
    ensures CountStones("! x + xx!", 9) == 3
    ensures CountStones("xxx ++", 6) == 3
    ensures CountStones("++ xxx", 6) == 3
    ensures CountStones("+ xxx +", 7) == 3
  {
    assert CountStones(". + xxx +.", 5) == 1;
    assert CountStones(". + xxx +.", 10) == 3;
    assert CountStones("! xxx +!", 8) == 3;
    assert CountStones("! + xxx!", 8) == 3;
    assert CountStones("! xx + x!", 4) == 2;
    assert CountStones("! xx + x!", 9) == 3;
    assert CountStones("! x + xx!", 4) == 1;
    assert CountStones("! x + xx!", 9) == 3;
    assert CountStones("xxx ++", 6) == 3;
    assert CountStones("++ xxx", 6) == 3;
    assert CountStones("+ xxx +", 7) == 3;
  }

  /** The templates 0 to 7 of the three group are well formed. */
  lemma ThreeGroupA()
    ensures forall i :: 0 <= i < 8 ==> WellFormed(ThreeTemplates[i])
  {
    ThreeCountsA();
  }

  /** Stone counts of the texts of a run of templates, worked out on the literals (halfway first for long ones). */
  lemma ThreeCountsB()
    ensures CountStones("x + xx +", 8) == 3
    ensures CountStones("+ xx + x", 8) == 3
    ensures CountStones("xx + x +", 8) == 3
    ensures CountStones("+ x + xx", 8) == 3
    ensures CountStones("xx ++ x", 7) == 3
    ensures CountStones("x ++ xx", 7) == 3
    ensures CountStones("x + x + x", 9) == 3
  {
    assert CountStones("x + xx +", 8) == 3;
    assert CountStones("+ xx + x", 8) == 3;
    assert CountStones("xx + x +", 8) == 3;
    assert CountStones("+ x + xx", 8) == 3;
    assert CountStones("xx ++ x", 7) == 3;
    assert CountStones("x ++ xx", 7) == 3;
    assert CountStones("x + x + x", 4) == 1;
    assert CountStones("x + x + x", 9) == 3;
  }

  /** The templates 8 to 14 of the three group are well formed. */
  lemma ThreeGroupB()
    ensures forall i :: 8 <= i < |ThreeTemplates| ==> WellFormed(ThreeTemplates[i])
  {
    ThreeCountsB();
  }

  /** Stone counts of the texts of a run of templates, worked out on the literals (halfway first for long ones). */
  lemma TwoCountsA()
    ensures CountStones(".- + xx + -.", 12) == 2
    ensures CountStones(". + xx + -.", 11) == 2
    ensures CountStones(".- + xx +.", 10) == 2
    ensures CountStones(". + xx +.", 9) == 2
    ensures CountStones("! xx + -.", 9) == 2
    ensures CountStones(".- + xx!", 8) == 2
    ensures CountStones(". + x + x +.", 12) == 2
  {
    assert CountStones(".- + xx + -.", 6) == 1;
    assert CountStones(".- + xx + -.", 12) == 2;
    assert CountStones(". + xx + -.", 5) == 1;
    assert CountStones(". + xx + -.", 11) == 2;
    assert CountStones(".- + xx +.", 5) == 0;
    assert CountStones(".- + xx +.", 10) == 2;
    assert CountStones(". + xx +.", 4) == 0;
    assert CountStones(". + xx +.", 9) == 2;
    assert CountStones("! xx + -.", 4) == 2;
    assert CountStones("! xx + -.", 9) == 2;
    assert CountStones(".- + xx!", 8) == 2;
    assert CountStones(". + x + x +.", 6) == 1;
    assert CountStones(". + x + x +.", 12) == 2;
  }

  /** The templates 0 to 6 of the two group are well formed. */
  lemma TwoGroupA()
    ensures forall i :: 0 <= i < 7 ==> WellFormed(TwoTemplates[i])
  {
    TwoCountsA();
  }

  /** Stone counts of the texts of a run of templates, worked out on the literals (halfway first for long ones). */
  lemma TwoCountsB()
    ensures CountStones("! x + x +.", 10) == 2
    ensures CountStones(". + x + x!", 10) == 2
    ensures CountStones("! x ++ x!", 9) == 2
    ensures CountStones("xx + -", 6) == 2
    ensures CountStones("- + xx", 6) == 2
    ensures CountStones("+ xx + -", 8) == 2
    ensures CountStones("- + xx +", 8) == 2
  {
    assert CountStones("! x + x +.", 5) == 1;
    assert CountStones("! x + x +.", 10) == 2;
    assert CountStones(". + x + x!", 5) == 1;
    assert CountStones(". + x + x!", 10) == 2;
    assert CountStones("! x ++ x!", 4) == 1;
    assert CountStones("! x ++ x!", 9) == 2;
    assert CountStones("xx + -", 6) == 2;
    assert CountStones("- + xx", 6) == 2;
    assert CountStones("+ xx + -", 8) == 2;
    assert CountStones("- + xx +", 8) == 2;
  }

  /** The templates 7 to 13 of the two group are well formed. */
  lemma TwoGroupB()
    ensures forall i :: 7 <= i < 14 ==> WellFormed(TwoTemplates[i])
  {
    TwoCountsB();
  }

  /** Stone counts of the texts of a run of templates, worked out on the literals (halfway first for long ones). */
  lemma TwoCountsC()
    ensures CountStones("x + x + -", 9) == 2
    ensures CountStones("- + x + x", 9) == 2
    ensures CountStones("+ x + x +", 9) == 2
    ensures CountStones("x ++ x +", 8) == 2
    ensures CountStones("+ x ++ x", 8) == 2
    ensures CountStones("x +++ x", 7) == 2
  {
    assert CountStones("x + x + -", 4) == 1;
    assert CountStones("x + x + -", 9) == 2;
    assert CountStones("- + x + x", 4) == 0;
    assert CountStones("- + x + x", 9) == 2;
    assert CountStones("+ x + x +", 4) == 1;
    assert CountStones("+ x + x +", 9) == 2;
    assert CountStones("x ++ x +", 8) == 2;
    assert CountStones("+ x ++ x", 8) == 2;
    assert CountStones("x +++ x", 7) == 2;
  }

  /** The templates 14 to 19 of the two group are well formed. */
  lemma TwoGroupC()
    ensures forall i :: 14 <= i < |TwoTemplates| ==> WellFormed(TwoTemplates[i])
  {
    TwoCountsC();
  }

  /** Stone counts of the texts of a run of templates, worked out on the literals (halfway first for long ones). */
  lemma OneCountsA()
    ensures CountStones("..-- x-- ..", 11) == 1
    ensures CountStones("..- x-- ..", 10) == 1
    ensures CountStones("..-- x- ..", 10) == 1
    ensures CountStones("..- x- ..", 9) == 1
    ensures CountStones(".-x-- ..", 8) == 1
  {
    assert CountStones("..-- x-- ..", 5) == 0;
    assert CountStones("..-- x-- ..", 11) == 1;
    assert CountStones("..- x-- ..", 5) == 1;
    assert CountStones("..- x-- ..", 10) == 1;
    assert CountStones("..-- x- ..", 5) == 0;
    assert CountStones("..-- x- ..", 10) == 1;
    assert CountStones("..- x- ..", 4) == 0;
    assert CountStones("..- x- ..", 9) == 1;
    assert CountStones(".-x-- ..", 8) == 1;
  }

  /** The templates 0 to 4 of the one group are well formed. */
  lemma OneGroupA()
    ensures forall i :: 0 <= i < 5 ==> WellFormed(OneTemplates[i])
  {
    OneCountsA();
  }

  /** Stone counts of the texts of a run of templates, worked out on the literals (halfway first for long ones). */
  lemma OneCountsB()
    ensures CountStones(".-- x- ..", 9) == 1
    ensures CountStones(".-x- ..", 7) == 1
    ensures CountStones("..- x-.", 7) == 1
    ensures CountStones(".x -...", 7) == 1
    ensures CountStones("...- x.", 7) == 1
  {
    assert CountStones(".-- x- ..", 4) == 0;
    assert CountStones(".-- x- ..", 9) == 1;
    assert CountStones(".-x- ..", 7) == 1;
    assert CountStones("..- x-.", 7) == 1;
    assert CountStones(".x -...", 7) == 1;
    assert CountStones("...- x.", 7) == 1;
  }

  /** The templates 5 to 9 of the one group are well formed. */
  lemma OneGroupB()
    ensures forall i :: 5 <= i < |OneTemplates| ==> WellFormed(OneTemplates[i])
  {
    OneCountsB();
  }

  /** Every template of the catalog is well formed. */
  lemma CatalogWellFormed()
    ensures forall g, i :: 0 <= g < |Catalog| && 0 <= i < |Catalog[g]| ==> WellFormed(Catalog[g][i])
  {
    FiveGroup();
    FourGroup();
    ThreeGroupA();
    ThreeGroupB();
    TwoGroupA();
    TwoGroupB();
    TwoGroupC();
    OneGroupA();
    OneGroupB();
  }

  /**
   * Every compiled pattern of `Pattern.SOLVER_PATTERNS` keeps its template's
   * type, fits in 12 cells, and has as many stones as its type says, the
   * first of which is its `move`.
   */
  lemma CatalogPatterns()
    ensures |SolverPatterns| == |Catalog|
    ensures forall g :: 0 <= g < |Catalog| ==> |SolverPatterns[g]| == |Catalog[g]|
    ensures forall g, i :: 0 <= g < |Catalog| && 0 <= i < |Catalog[g]| ==>
      && SolverPatterns[g][i].kind == Catalog[g][i].kind
      && 1 <= SolverPatterns[g][i].length <= 12
      && |SolverPatterns[g][i].moves| == StonesOfType(Catalog[g][i].kind)
      && SolverPatterns[g][i].move.Some?
  {
    CatalogWellFormed();
    forall g, i | 0 <= g < |Catalog| && 0 <= i < |Catalog[g]|
      ensures |SolverPatterns[g][i].moves| == StonesOfType(Catalog[g][i].kind)
    {
      var t := Catalog[g][i].text;
      WhereCount(t, |t|);
    }
  }
}
