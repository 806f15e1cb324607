/**
 * The static helpers of the board (docs/translated/board.js): board
 * coordinates such as "h8" for squares, the symmetry that brings the
 * second move into the sector the solver searches, and the solution
 * trees the board keeps (`Board.count`, `fillCount`, `vertexToSolution`).
 */
module Boards {
  import opened Wrappers
  import opened LineGeometry
  import opened Symmetry
  import opened Vertices

  // ---------------------------------------------------------------------
  // Coordinates
  // ---------------------------------------------------------------------

  predicate IsDigit(c: char)
  {
    '0' <= c <= '9'
  }

  predicate AllDigits(s: string)
  {
    forall i :: 0 <= i < |s| ==> IsDigit(s[i])
  }

  function DigitChar(d: nat): (c: char)
    requires d < 10
    ensures IsDigit(c)
  {
    ('0' as int + d) as char
  }

  /** `String(n)` for a natural number: its decimal digits, without leading zeros. */
  function Numeral(n: nat): string
  {
    if n < 10 then [DigitChar(n)] else Numeral(n / 10) + [DigitChar(n % 10)]
  }

  /** A numeral is a non-empty run of digits, with no leading zero, and longer than one digit from 10 on. */
  lemma {:induction false} NumeralDigits(n: nat)
    ensures |Numeral(n)| >= 1 && AllDigits(Numeral(n))
    ensures |Numeral(n)| > 1 ==> Numeral(n)[0] != '0'
    ensures n >= 10 ==> |Numeral(n)| > 1
  {
    if n >= 10 {
      NumeralDigits(n / 10);
      assert Numeral(n)[0] == Numeral(n / 10)[0];
    }
  }

  /** `String(i)` for an integer: a minus sign before the numeral of a negative number. */
  function IntText(i: int): string
  {
    if i < 0 then "-" + Numeral(-i) else Numeral(i)
  }

  /** The number a string of decimal digits stands for, as `parseInt` reads it. */
  function DecimalValue(s: string): nat
    requires AllDigits(s)
  {
    if s == [] then 0 else DecimalValue(s[..|s| - 1]) * 10 + (s[|s| - 1] as int - '0' as int)
  }

  /** Reading the numeral of n gives n back. */
  lemma {:induction false} DecimalOfNumeral(n: nat)
    ensures AllDigits(Numeral(n)) && DecimalValue(Numeral(n)) == n
  {
    NumeralDigits(n);
    if n >= 10 {
      DecimalOfNumeral(n / 10);
      var s := Numeral(n);
      assert s[..|s| - 1] == Numeral(n / 10);
    }
  }

  /** A numeral that does not start with 0 stands for a positive number. */
  lemma {:induction false} LeadingDigitPositive(s: string)
    requires |s| >= 1 && AllDigits(s) && s[0] != '0'
    ensures DecimalValue(s) >= 1
  {
    if |s| > 1 {
      LeadingDigitPositive(s[..|s| - 1]);
    }
  }

  /** Writing the number a numeral without leading zeros stands for gives the numeral back. */
  lemma {:induction false} NumeralOfDecimal(s: string)
    requires |s| >= 1 && AllDigits(s) && (|s| > 1 ==> s[0] != '0')
    ensures Numeral(DecimalValue(s)) == s
  {
    if |s| > 1 {
      var init := s[..|s| - 1];
      LeadingDigitPositive(init);
      NumeralOfDecimal(init);
      var n := DecimalValue(s);
      assert n / 10 == DecimalValue(init) && n % 10 == s[|s| - 1] as int - '0' as int;
    }
  }

  /** `Board.squareToCoord(square)`: the column as a letter from 'a', then the row counted from the bottom, 15 - row. */
  function SquareToCoord(sq: nat): (coord: string)
    ensures |coord| >= 2 && 'a' <= coord[0] < 'q'
  {
    NumeralDigits(if 15 - Row(sq) < 0 then Row(sq) - 15 else 15 - Row(sq));
    [('a' as int + Col(sq)) as char] + IntText(15 - Row(sq))
  }

  /**
   * The coordinates `coordToSquare` reads as the board writes them: a
   * letter from 'a' to 'p' and a decimal number of at most 15.
   */
  predicate WellFormedCoord(coord: string)
  {
    && |coord| >= 2 && 'a' <= coord[0] < 'q'
    && AllDigits(coord[1..]) && DecimalValue(coord[1..]) <= 15
  }

  /** `Board.coordToSquare(coord)`: `(15 - number) << 4 | column`, where the shift and the or are exact. */
  function CoordToSquare(coord: string): (sq: nat)
    requires WellFormedCoord(coord)
    ensures Row(sq) == 15 - DecimalValue(coord[1..]) && Col(sq) == coord[0] as int - 'a' as int
  {
    SquareAt(15 - DecimalValue(coord[1..]), coord[0] as int - 'a' as int)
  }

  /** Every square of the board has a coordinate that reads back as the same square. */
  lemma CoordOfSquare(sq: nat)
    requires OnBoard(sq)
    ensures WellFormedCoord(SquareToCoord(sq)) && CoordToSquare(SquareToCoord(sq)) == sq
  {
    var coord := SquareToCoord(sq);
    assert coord[1..] == Numeral(15 - Row(sq));
    DecimalOfNumeral(15 - Row(sq));
  }

  /** The coordinates of the board's squares: a letter from 'a' to 'o' and a number from 1 to 15 without leading zero. */
  predicate BoardCoord(coord: string)
  {
    WellFormedCoord(coord) && coord[0] <= 'o' && coord[1] != '0' && DecimalValue(coord[1..]) >= 1
  }

  /** Every coordinate of a board square names an on-board square that writes back as the same coordinate. */
  lemma SquareOfCoord(coord: string)
    requires BoardCoord(coord)
    ensures OnBoard(CoordToSquare(coord)) && SquareToCoord(CoordToSquare(coord)) == coord
  {
    var digits := coord[1..];
    NumeralOfDecimal(digits);
    assert coord == [coord[0]] + digits;
  }

  /** Squares of the board have the same coordinate exactly when they are the same square. */
  lemma SquareToCoordInjective(sq: nat, sq': nat)
    requires OnBoard(sq) && OnBoard(sq')
    ensures SquareToCoord(sq) == SquareToCoord(sq') <==> sq == sq'
  {
    CoordOfSquare(sq);
    CoordOfSquare(sq');
  }

  // ---------------------------------------------------------------------
  // The symmetry of the second move
  // ---------------------------------------------------------------------

  /**
   * `Board.squareTransCode(square)`: the symmetry whose inverse brings the
   * second move into the sector the solver enumerates for it.
   */
  function SquareTransCode(sq: nat): (code: int)
    ensures 0 <= code < 8
  {
    var offset := Col(sq);
    var number := Row(sq);
    if number <= 7 then
      if offset <= 7 then (if offset <= number then 7 else 6)
      else (if 14 - offset <= number then 5 else 0)
    else
      if offset <= 7 then (if offset <= 14 - number then 1 else 4)
      else (if 14 - offset <= 14 - number then 3 else 2)
  }

  /**
   * The sector of `availables` for the second move: rows 0 to 6, in each
   * the columns from 7 up to 14 - row.
   */
  predicate InSector(sq: nat)
  {
    Row(sq) < 7 && 7 <= Col(sq) <= 14 - Row(sq)
  }

  /**
   * Every square but the centre, moved back by its own code, lands in the
   * sector: the board can play any second move as one the solver knows.
   */
  lemma SecondMoveInSector(sq: nat)
    requires OnBoard(sq) && sq != SquareAt(7, 7)
    ensures InSector(TransSquare(sq, SquareTransCode(sq), true))
  {
    SquareOfRowCol(sq);
  }

  // ---------------------------------------------------------------------
  // Solution trees
  // ---------------------------------------------------------------------

  /**
   * A solution as the board keeps it: the number of moves left, or an
   * object from coordinates to solutions with an optional `count`.
   */
  datatype Solution = Length(n: int) | Moves(entries: map<string, Solution>, count: Option<int>)

  /**
   * What `fillCount` makes of a solution and the count it gives: a stored
   * count is returned as it is; otherwise every object below is filled,
   * and the count is one more than the largest count below, or 1.  A
   * number counts as itself.
   */
  ghost function Fill(t: Solution): (r: (Solution, int))
    ensures t.Length? ==> r == (t, t.n)
    ensures t.Moves? ==> r.0.Moves? && r.0.count == Some(r.1) && r.0.entries.Keys == t.entries.Keys
    ensures t.Moves? && t.count.None? ==> r.1 >= 1
    decreases t
  {
    match t
    case Length(n) => (t, n)
    case Moves(e, Some(c)) => (t, c)
    case Moves(e, None) =>
      var m := Largest(t, e.Keys, 0);
      (Moves(map k | k in e :: Fill(e[k]).0, Some(m + 1)), m + 1)
  }

  /** The largest of m and the counts below `t` under the keys `ks`. */
  ghost function Largest(t: Solution, ks: set<string>, m: int): (r: int)
    requires t.Moves? && ks <= t.entries.Keys
    ensures r >= m
    decreases t, ks
  {
    if ks == {} then m
    else
      var k :| k in ks;
      var c := Fill(t.entries[k]).1;
      Largest(t, ks - {k}, if c > m then c else m)
  }

  /** `Largest` is at least every count under `ks`, and is m or one of them. */
  lemma {:induction false} LargestSpec(t: Solution, ks: set<string>, m: int)
    requires t.Moves? && ks <= t.entries.Keys
    ensures forall k :: k in ks ==> Fill(t.entries[k]).1 <= Largest(t, ks, m)
    ensures Largest(t, ks, m) == m || exists k :: k in ks && Fill(t.entries[k]).1 == Largest(t, ks, m)
    decreases ks
  {
    if ks != {} {
      var k :| k in ks && Largest(t, ks, m) == Largest(t, ks - {k}, if Fill(t.entries[k]).1 > m then Fill(t.entries[k]).1 else m);
      LargestSpec(t, ks - {k}, if Fill(t.entries[k]).1 > m then Fill(t.entries[k]).1 else m);
    }
  }

  /** Whatever the order of the keys, the largest count is the one a maximum search finds. */
  lemma LargestIs(t: Solution, best: int)
    requires t.Moves? && best >= 0
    requires forall k :: k in t.entries ==> Fill(t.entries[k]).1 <= best
    requires best == 0 || exists k :: k in t.entries && Fill(t.entries[k]).1 == best
    ensures Largest(t, t.entries.Keys, 0) == best
  {
    LargestSpec(t, t.entries.Keys, 0);
  }

  /** `fillCount` is idempotent: a filled solution keeps its count and is not changed again. */
  lemma FillIdempotent(t: Solution)
    ensures Fill(Fill(t).0) == Fill(t)
  {
  }

  /**
   * `Board.fillCount(current)` on an object: the loop over its keys,
   * filling each object below in turn and keeping the largest count.
   */
  method FillCount(t: Solution) returns (r: Solution, c: int)
    requires t.Moves?
    ensures (r, c) == Fill(t)
    decreases t
  {
    if t.count.Some? {
      return t, t.count.value;
    }
    var keys := t.entries.Keys;
    var filled: map<string, Solution> := map[];
    var maxcount := 0;
    while keys != {}
      invariant keys <= t.entries.Keys && filled.Keys == t.entries.Keys - keys
      invariant forall k :: k in filled ==> filled[k] == Fill(t.entries[k]).0
      invariant maxcount >= 0 && forall k :: k in filled ==> Fill(t.entries[k]).1 <= maxcount
      invariant maxcount == 0 || exists k :: k in filled && Fill(t.entries[k]).1 == maxcount
      decreases keys
    {
      var k :| k in keys;
      var child := t.entries[k];
      var count;
      if child.Moves? {
        child, count := FillCount(child);
      } else {
        count := child.n;
      }
      filled := filled[k := child];
      if count > maxcount {
        maxcount := count;
      }
      keys := keys - {k};
    }
    LargestIs(t, maxcount);
    assert filled == map k | k in t.entries :: Fill(t.entries[k]).0;
    r, c := Moves(filled, Some(maxcount + 1)), maxcount + 1;
  }

  /**
   * `Board.count(current)`: 225 with no solution, one less than a number,
   * and one less than `fillCount` of an object, which is filled on the way.
   */
  method Count(current: Option<Solution>) returns (n: int, after: Option<Solution>)
    ensures current.None? ==> n == 225 && after == current
    ensures current.Some? && current.value.Length? ==> n == current.value.n - 1 && after == current
    ensures current.Some? && current.value.Moves? ==>
      after == Some(Fill(current.value).0) && n == Fill(current.value).1 - 1
    ensures current.Some? && current.value.Moves? && current.value.count.None? ==> n >= 0
  {
    if current.None? {
      return 225, current;
    }
    var t := current.value;
    if t.Length? {
      return t.n - 1, current;
    }
    var filled, c := FillCount(t);
    return c - 1, Some(filled);
  }

  /** Counting again after `Board.count` filled the solution gives the same number. */
  lemma CountAgain(t: Solution)
    requires t.Moves?
    ensures Fill(Fill(t).0).1 - 1 == Fill(t).1 - 1
  {
    FillIdempotent(t);
  }

  // ---------------------------------------------------------------------
  // vertexToSolution
  // ---------------------------------------------------------------------

  /** A child's footprint lies strictly inside its parent's. */
  lemma ChildInside(v: Vertex, es: seq<Edge>, i: nat)
    requires v.Tree() && v.edges == Some(es) && i < |es|
    ensures OnBoard(es[i].square) && es[i].vertex.Tree() && es[i].vertex.Repr < v.Repr
  {
    assert es[i] in es;
  }

  /**
   * `Board.vertexToSolution(vertex, current)`: the length of the win or
   * loss, |state|, of an unexpanded vertex; for an expanded one, `current`
   * (or a new object) with each edge's coordinate set, in order, to the
   * solution of its child.
   */
  function SolutionOf(v: Vertex, current: Option<Solution>): (r: Solution)
    requires v.Tree() && (current.None? || current.value.Moves?)
    reads v.Repr
    decreases v.Repr, 1
  {
    if v.edges.None? then Length(Abs(v.state))
    else Put(v, v.edges.value, |v.edges.value|, if current.Some? then current.value else Moves(map[], None))
  }

  /** The coordinates of the first i edges. */
  function Coords(es: seq<Edge>, i: nat): set<string>
    requires i <= |es|
  {
    set j | 0 <= j < i :: SquareToCoord(es[j].square)
  }

  lemma CoordsStep(es: seq<Edge>, i: nat)
    requires 0 < i <= |es|
    ensures Coords(es, i) == Coords(es, i - 1) + {SquareToCoord(es[i - 1].square)}
  {
  }

  /** The object after the first i edges of `es` have been put into `acc`. */
  function Put(v: Vertex, es: seq<Edge>, i: nat, acc: Solution): (r: Solution)
    requires v.Tree() && v.edges == Some(es) && i <= |es| && acc.Moves?
    reads v.Repr
    decreases v.Repr, 0, i
    ensures r.Moves? && r.count == acc.count
  {
    if i == 0 then acc
    else
      ChildInside(v, es, i - 1);
      var prev := Put(v, es, i - 1, acc);
      Moves(prev.entries[SquareToCoord(es[i - 1].square) := SolutionOf(es[i - 1].vertex, None)], prev.count)
  }

  /** After the first i edges, the keys are those of `acc` and the edges' coordinates. */
  lemma {:induction false} PutKeys(v: Vertex, es: seq<Edge>, i: nat, acc: Solution)
    requires v.Tree() && v.edges == Some(es) && i <= |es| && acc.Moves?
    ensures Put(v, es, i, acc).entries.Keys == acc.entries.Keys + Coords(es, i)
  {
    if i > 0 {
      PutKeys(v, es, i - 1, acc);
      PutNext(v, es, i, acc);
      CoordsStep(es, i);
      UnionStep(Put(v, es, i - 1, acc).entries.Keys, acc.entries.Keys, Coords(es, i - 1), Coords(es, i), SquareToCoord(es[i - 1].square));
    }
  }

  lemma UnionStep<T>(a: set<T>, b: set<T>, c: set<T>, d: set<T>, k: T)
    requires a == b + c && d == c + {k}
    ensures a + {k} == b + d
  {
  }

  /** After the first i edges, edge j's coordinate holds its child's solution unless a later edge has the same square. */
  lemma {:induction false} PutValue(v: Vertex, es: seq<Edge>, i: nat, acc: Solution, j: nat)
    requires v.Tree() && v.edges == Some(es) && j < i <= |es| && acc.Moves?
    requires forall j' :: j < j' < i ==> es[j'].square != es[j].square
    ensures es[j].vertex.Tree()
    ensures SquareToCoord(es[j].square) in Put(v, es, i, acc).entries
    ensures Put(v, es, i, acc).entries[SquareToCoord(es[j].square)] == SolutionOf(es[j].vertex, None)
  {
    ChildInside(v, es, j);
    PutNext(v, es, i, acc);
    var prev := Put(v, es, i - 1, acc).entries;
    var k, kj := SquareToCoord(es[i - 1].square), SquareToCoord(es[j].square);
    if j < i - 1 {
      PutValue(v, es, i - 1, acc, j);
      SquareToCoordInjective(es[j].square, es[i - 1].square);
      MapOther(prev, k, SolutionOf(es[i - 1].vertex, None), kj);
    } else {
      assert es[j] == es[i - 1];
    }
  }

  /** Setting `k` leaves every other key of a map as it was. */
  lemma MapOther<K, V>(m: map<K, V>, k: K, x: V, k': K)
    requires k' != k && k' in m
    ensures k' in m[k := x] && m[k := x][k'] == m[k']
  {
  }

  /**
   * The solution of a vertex: |state| when unexpanded; otherwise an object
   * keeping `current`'s keys and count, with every edge's coordinate
   * added, holding the child's solution for an edge whose square comes
   * only once.
   */
  lemma SolutionShape(v: Vertex, current: Option<Solution>)
    requires v.Tree() && (current.None? || current.value.Moves?)
    ensures v.edges.None? ==> SolutionOf(v, current) == Length(Abs(v.state))
    ensures v.edges.Some? ==>
      var es := v.edges.value;
      var start := if current.Some? then current.value else Moves(map[], None);
      var r := SolutionOf(v, current);
      && r.Moves? && r.count == start.count
      && r.entries.Keys == start.entries.Keys + Coords(es, |es|)
      && forall j :: 0 <= j < |es| && (forall j' :: j < j' < |es| ==> es[j'].square != es[j].square) ==>
           es[j].vertex.Tree() && SquareToCoord(es[j].square) in r.entries
           && r.entries[SquareToCoord(es[j].square)] == SolutionOf(es[j].vertex, None)
  {
    if v.edges.Some? {
      var start := if current.Some? then current.value else Moves(map[], None);
      var es := v.edges.value;
      PutKeys(v, es, |es|, start);
      forall j | 0 <= j < |es| && (forall j' :: j < j' < |es| ==> es[j'].square != es[j].square)
        ensures es[j].vertex.Tree() && SquareToCoord(es[j].square) in SolutionOf(v, current).entries
                && SolutionOf(v, current).entries[SquareToCoord(es[j].square)] == SolutionOf(es[j].vertex, None)
      {
        PutValue(v, es, |es|, start, j);
      }
    }
  }

  /** `Board.vertexToSolution`: |state| for an unexpanded vertex, otherwise the edges put into `current` or a new object. */
  method VertexToSolution(v: Vertex, current: Option<Solution>) returns (r: Solution)
    requires v.Tree() && (current.None? || current.value.Moves?)
    ensures r == SolutionOf(v, current)
    decreases v.Repr, 1
  {
    if v.edges.None? {
      return Length(Abs(v.state));
    }
    r := PutEdges(v, v.edges.value, if current.Some? then current.value else Moves(map[], None));
  }

  /** The loop of `vertexToSolution`: walk the edges in order, recursing into each child. */
  method PutEdges(v: Vertex, es: seq<Edge>, start: Solution) returns (r: Solution)
    requires v.Tree() && v.edges == Some(es) && start.Moves?
    ensures r == Put(v, es, |es|, start)
    decreases v.Repr, 0
  {
    r := start;
    var i := 0;
    while i < |es|
      invariant 0 <= i <= |es| && r == Put(v, es, i, start)
    {
      ChildInside(v, es, i);
      var sub := VertexToSolution(es[i].vertex, None);
      i := i + 1;
      PutNext(v, es, i, start);
      r := Moves(r.entries[SquareToCoord(es[i - 1].square) := sub], r.count);
    }
  }

  /** One more edge: its coordinate set to its child's solution. */
  lemma PutNext(v: Vertex, es: seq<Edge>, i: nat, acc: Solution)
    requires v.Tree() && v.edges == Some(es) && 0 < i <= |es| && acc.Moves?
    ensures OnBoard(es[i - 1].square) && es[i - 1].vertex.Tree() && es[i - 1].vertex.Repr < v.Repr
    ensures Put(v, es, i, acc)
      == Moves(Put(v, es, i - 1, acc).entries[SquareToCoord(es[i - 1].square) := SolutionOf(es[i - 1].vertex, None)], acc.count)
    ensures Put(v, es, i, acc).entries.Keys == Put(v, es, i - 1, acc).entries.Keys + {SquareToCoord(es[i - 1].square)}
  {
    ChildInside(v, es, i - 1);
  }
}
