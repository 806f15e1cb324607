/**
 * The search tree of the solver (docs/translated/vertex.js).  A vertex is a
 * position together with the side that attacks, a solution state and the
 * edges to the positions after its candidate moves.
 *
 * A state is relative to the side to move in the vertex: 0 is unknown, a
 * positive state n means the side to move wins in n - 1 moves, a negative
 * state -n means it loses in n - 1 moves.
 */
module Vertices {
  import opened Wrappers
  import opened LineGeometry
  import opened Sorting
  import opened Patterns
  import opened Figures
  import opened Lines
  import opened Layouts
  import opened LayoutQueries
  import LayoutLines

  // ---------------------------------------------------------------------------
  // compareTo and Comparator

  /** What `compareTo` looks at in a vertex: its state and its rating. */
  datatype Standing = Standing(state: int, rating: int)

  /** `v.compareTo(w)`: below zero when v sorts first; `null` sorts last. */
  function CompareTo(v: Standing, w: Option<Standing>): int
  {
    if w.None? then -1
    else if w.value.state == v.state then v.rating - w.value.rating
    else if (w.value.state >= 0 && v.state <= 0) || (w.value.state <= 0 && v.state >= 0) then v.state - w.value.state
    else w.value.state - v.state
  }

  /** `Vertex.Comparator(v1, v2)`, with `None` for `null`. */
  function Comparator(v1: Option<Standing>, v2: Option<Standing>): int
  {
    if v1.None? then (if v2.None? then 0 else 1) else CompareTo(v1.value, v2)
  }

  /** 0 for a lost state, 1 for an unknown one, 2 for a won one. */
  function Group(state: int): int
  {
    if state < 0 then 0 else if state == 0 then 1 else 2
  }

  /**
   * The order the comparator means: losses before unknowns before wins;
   * within losses and within wins the greater state first (the nearer loss,
   * the slower win); equal states by rating, the lower first.
   */
  predicate Precedes(v: Standing, w: Standing)
  {
    || Group(v.state) < Group(w.state)
    || (Group(v.state) == Group(w.state) && v.state > w.state)
    || (v.state == w.state && v.rating < w.rating)
  }

  /** The sign of `compareTo` is exactly that order. */
  lemma CompareToOrder(v: Standing, w: Standing)
    ensures CompareTo(v, Some(w)) < 0 <==> Precedes(v, w)
    ensures CompareTo(v, Some(w)) == 0 <==> v == w
    ensures CompareTo(v, Some(w)) > 0 <==> Precedes(w, v)
  {
  }

  /** The comparator is antisymmetric, `null` included. */
  lemma ComparatorAntisymmetric(v1: Option<Standing>, v2: Option<Standing>)
    ensures Comparator(v1, v2) == -Comparator(v2, v1)
  {
  }

  /** A child of a vertex as the sort and `check` see it: its standing, whether it has edges, and where it stood. */
  datatype Entry = Entry(standing: Standing, expanded: bool, index: nat)

  /** "x sorts no later than y" under `Edge.Comparator`, which compares the children. */
  function EntryBefore(): (le: (Entry, Entry) -> bool)
    ensures TotalPreorder(le)
    ensures forall x, y :: le(x, y) <==> !Precedes(y.standing, x.standing)
  {
    var le := (x: Entry, y: Entry) => Comparator(Some(x.standing), Some(y.standing)) <= 0;
    forall x: Entry, y: Entry ensures le(x, y) <==> !Precedes(y.standing, x.standing) {
      CompareToOrder(x.standing, y.standing);
    }
    le
  }

  // ---------------------------------------------------------------------------
  // prepare

  /**
   * The state `prepare` gives a fresh vertex from its top figure: the side
   * to move wins at once with a five, in one move with a four and in two with
   * an open three; a five of the opponent is lost and its open four lost in
   * one; the opponent's four or open three, and the attacker's three or open
   * two, leave the state unknown; anything else ends the search, lost for the
   * attacker and won for the defender.
   */
  function PrepareState(top: Option<Figure>, hand: int, attacker: int): (s: int)
    ensures s == 0 ==> top.Some?
    ensures s == 0 && top.value.hand == hand ==> attacker == hand && (top.value.pattern.kind == THREE || top.value.pattern.kind == OPEN_TWO)
    ensures s == 0 && top.value.hand != hand ==> top.value.pattern.kind == FOUR || top.value.pattern.kind == OPEN_THREE
    ensures s in {-3, -1, 0, 1, 2, 4}
  {
    var none := if attacker == hand then -1 else 1;
    if top.None? then none
    else
      var kind := top.value.pattern.kind;
      if top.value.hand == hand then
        if kind == FIVE then 1
        else if kind == OPEN_FOUR || kind == FOUR then 2
        else if kind == OPEN_THREE then 4
        else if kind == THREE || kind == OPEN_TWO then (if attacker == hand then 0 else 1)
        else none
      else
        if kind == FIVE then -1
        else if kind == OPEN_FOUR then -3
        else if kind == FOUR || kind == OPEN_THREE then 0
        else none
  }

  // ---------------------------------------------------------------------------
  // check, on the sorted children

  /** The leading children whose state is `s`. */
  function TieRun(cs: seq<Entry>, s: int): (r: seq<Entry>)
    ensures |r| <= |cs| && r == cs[..|r|]
    ensures forall c :: c in r ==> c.standing.state == s
    ensures |r| < |cs| ==> cs[|r|].standing.state != s
  {
    if cs == [] || cs[0].standing.state != s then [] else [cs[0]] + TieRun(cs[1..], s)
  }

  /** The children that are expanded or whose state is `s`, in order. */
  function Alive(cs: seq<Entry>, s: int): seq<Entry>
  {
    if cs == [] then []
    else
      var last := cs[|cs| - 1];
      Alive(cs[..|cs| - 1], s) + (if last.expanded || last.standing.state == s then [last] else [])
  }

  /** `Alive` keeps exactly the children that are expanded or at state `s`. */
  lemma {:induction false} AliveMembers(cs: seq<Entry>, s: int)
    ensures forall c :: c in Alive(cs, s) <==> c in cs && (c.expanded || c.standing.state == s)
  {
    if cs != [] {
      var last := cs[|cs| - 1];
      assert cs == cs[..|cs| - 1] + [last];
      AliveMembers(cs[..|cs| - 1], s);
    }
  }

  /** The edges the entries stand for, in the entries' order. */
  function EdgesAt<E>(es: seq<E>, cs: seq<Entry>): seq<E>
  {
    if cs == [] then []
    else
      var last := cs[|cs| - 1];
      EdgesAt(es, cs[..|cs| - 1]) + (if last.index < |es| then [es[last.index]] else [])
  }

  /** `EdgesAt` holds the edge of every entry that names one, and nothing else. */
  lemma {:induction false} EdgesAtMembers<E>(es: seq<E>, cs: seq<Entry>)
    ensures forall c :: c in cs && c.index < |es| ==> es[c.index] in EdgesAt(es, cs)
    ensures forall e :: e in EdgesAt(es, cs) ==> exists c :: c in cs && c.index < |es| && e == es[c.index]
  {
    if cs != [] {
      var last := cs[|cs| - 1];
      assert cs == cs[..|cs| - 1] + [last];
      EdgesAtMembers(es, cs[..|cs| - 1]);
    }
  }

  /**
   * What `check` makes of a vertex with state `state` and edges `es`, whose
   * children sorted by the comparator are `cs`: the new state and edges.
   * With the attacker to move, a lost child is a win for this vertex, kept
   * with every child as good; no such child and a won best child means the
   * attacker fails here.  With the defender to move, a lost child is a
   * defence; otherwise the vertex is lost, as late as the best child allows,
   * keeping the children that are expanded or as good.
   */
  function Outcome<E>(state: int, attackerMoves: bool, es: seq<E>, cs: seq<Entry>): (int, Option<seq<E>>)
  {
    if cs == [] || state == -128 then (state, Some(es))
    else
      var best := cs[0].standing.state;
      if attackerMoves then
        if best < 0 && best != -128 then (1 - best, Some(EdgesAt(es, TieRun(cs, best))))
        else if best > 0 then (-1, None)
        else (state, Some(EdgesAt(es, cs)))
      else
        if best < 0 && best != -128 then (1, None)
        else if best > 0 then (-best - 1, Some(EdgesAt(es, Alive(cs, best))))
        else (state, Some(EdgesAt(es, cs)))
  }

  /** `check` drops the edges only when it decides the vertex: lost for the attacker, or held by the defence. */
  lemma OutcomeDecides<E>(state: int, attackerMoves: bool, es: seq<E>, cs: seq<Entry>)
    ensures Outcome(state, attackerMoves, es, cs).1.None? ==>
      Outcome(state, attackerMoves, es, cs).0 == (if attackerMoves then -1 else 1)
  {
  }

  /** In children sorted by the comparator, none precedes the first. */
  lemma FirstIsBest(cs: seq<Entry>, c: Entry)
    requires SortedBy(cs, EntryBefore()) && c in cs
    ensures !Precedes(c.standing, cs[0].standing)
  {
    var k :| 0 <= k < |cs| && cs[k] == c;
    if k > 0 {
      assert EntryBefore()(cs[0], cs[k]);
    }
  }

  /** In sorted children, the leading run tied with the first holds every child of that state. */
  lemma TieRunComplete(cs: seq<Entry>, c: Entry)
    requires SortedBy(cs, EntryBefore()) && c in cs && cs != []
    ensures c in TieRun(cs, cs[0].standing.state) <==> c.standing.state == cs[0].standing.state
  {
  }

  /**
   * `check` with the attacker to move, when some child is lost for its
   * mover: the vertex is won, one move later than the nearest such loss,
   * and keeps exactly the edges to children of that state.
   */
  lemma AttackerWins<E>(state: int, es: seq<E>, cs: seq<Entry>)
    requires SortedBy(cs, EntryBefore()) && state != -128
    requires forall c :: c in cs ==> c.standing.state != -128
    requires exists c :: c in cs && c.standing.state < 0
    ensures var (s, r) := Outcome(state, true, es, cs);
      && s > 1
      && (exists c :: c in cs && c.standing.state == 1 - s)
      && (forall c :: c in cs && c.standing.state < 0 ==> c.standing.state <= 1 - s)
      && r.Some?
      && (forall e :: e in r.value <==> exists c :: c in cs && c.index < |es| && e == es[c.index] && c.standing.state == 1 - s)
  {
    var best := cs[0].standing.state;
    var w :| w in cs && w.standing.state < 0;
    FirstIsBest(cs, w);
    assert best < 0 && cs[0] in cs;
    var run := TieRun(cs, best);
    EdgesAtMembers(es, run);
    forall c | c in cs
      ensures c.standing.state < 0 ==> c.standing.state <= best
      ensures c in run <==> c.standing.state == best
    {
      FirstIsBest(cs, c);
      TieRunComplete(cs, c);
    }
  }

  /** `check` with the attacker to move, when every child is won for its mover: the attacker fails here. */
  lemma AttackerFails<E>(state: int, es: seq<E>, cs: seq<Entry>)
    requires SortedBy(cs, EntryBefore()) && cs != [] && state != -128
    requires forall c :: c in cs ==> c.standing.state > 0
    ensures Outcome(state, true, es, cs) == (-1, None)
  {
    assert cs[0] in cs;
  }

  /** Without a lost child and with an unknown one, `check` only sorts the edges, whoever moves. */
  lemma CheckWaits<E>(state: int, attackerMoves: bool, es: seq<E>, cs: seq<Entry>)
    requires SortedBy(cs, EntryBefore()) && state != -128
    requires forall c :: c in cs ==> c.standing.state >= 0
    requires exists c :: c in cs && c.standing.state == 0
    ensures Outcome(state, attackerMoves, es, cs) == (state, Some(EdgesAt(es, cs)))
  {
    var z :| z in cs && z.standing.state == 0;
    FirstIsBest(cs, z);
    assert cs[0] in cs;
  }

  /** `check` with the defender to move, when some child is lost for its mover: a defence, which ends the search here. */
  lemma DefenderHolds<E>(state: int, es: seq<E>, cs: seq<Entry>)
    requires SortedBy(cs, EntryBefore()) && state != -128
    requires forall c :: c in cs ==> c.standing.state != -128
    requires exists c :: c in cs && c.standing.state < 0
    ensures Outcome(state, false, es, cs) == (1, None)
  {
    var w :| w in cs && w.standing.state < 0;
    FirstIsBest(cs, w);
  }

  /**
   * `check` with the defender to move, when every child is won for its
   * mover: the vertex is lost, one move after the slowest such win, keeping
   * the edges to children that are expanded or of that state.
   */
  lemma DefenderLoses<E>(state: int, es: seq<E>, cs: seq<Entry>)
    requires SortedBy(cs, EntryBefore()) && cs != [] && state != -128
    requires forall c :: c in cs ==> c.standing.state > 0
    ensures var (s, r) := Outcome(state, false, es, cs);
      && s < -1
      && (exists c :: c in cs && c.standing.state == -s - 1)
      && (forall c :: c in cs ==> c.standing.state <= -s - 1)
      && r.Some?
      && (forall e :: e in r.value <==>
            exists c :: c in cs && c.index < |es| && e == es[c.index] && (c.expanded || c.standing.state == -s - 1))
  {
    var best := cs[0].standing.state;
    assert cs[0] in cs;
    AliveMembers(cs, best);
    EdgesAtMembers(es, Alive(cs, best));
    forall c | c in cs
      ensures c.standing.state <= best
    {
      FirstIsBest(cs, c);
    }
  }

  /** `check` leaves a vertex alone when it has no children or its state is -128. */
  lemma CheckIdle<E>(state: int, attackerMoves: bool, es: seq<E>, cs: seq<Entry>)
    requires cs == [] || state == -128
    ensures Outcome(state, attackerMoves, es, cs) == (state, Some(es))
  {
  }

  /** Keeps the edges of the leading children tied at state `s`: the first loop of `check`. */
  method KeepTied<E>(es: seq<E>, cs: seq<Entry>, s: int) returns (kept: seq<E>)
    ensures kept == EdgesAt(es, TieRun(cs, s))
  {
    kept := [];
    var i := 0;
    while i < |cs| && cs[i].standing.state == s
      invariant 0 <= i <= |cs|
      invariant forall k :: 0 <= k < i ==> cs[k].standing.state == s
      invariant kept == EdgesAt(es, cs[..i])
    {
      assert cs[..i + 1][..i] == cs[..i];
      if cs[i].index < |es| {
        kept := kept + [es[cs[i].index]];
      }
      i := i + 1;
    }
    TieRunIs(cs, s, i);
  }

  /** A prefix of states all `s`, followed by the end or another state, is the tied run. */
  lemma {:induction false} TieRunIs(cs: seq<Entry>, s: int, n: nat)
    requires n <= |cs|
    requires forall k :: 0 <= k < n ==> cs[k].standing.state == s
    requires n < |cs| ==> cs[n].standing.state != s
    ensures TieRun(cs, s) == cs[..n]
  {
    if n > 0 {
      TieRunIs(cs[1..], s, n - 1);
      assert cs[..n] == [cs[0]] + cs[1..][..n - 1];
    }
  }

  /** Keeps the edges of the children that are expanded or at state `s`: the second loop of `check`. */
  method KeepAlive<E>(es: seq<E>, cs: seq<Entry>, s: int) returns (kept: seq<E>)
    ensures kept == EdgesAt(es, Alive(cs, s))
  {
    kept := [];
    var i := 0;
    while i < |cs|
      invariant 0 <= i <= |cs|
      invariant kept == EdgesAt(es, Alive(cs[..i], s))
    {
      var c := cs[i];
      AliveAppend(cs[..i], c, s);
      assert cs[..i] + [c] == cs[..i + 1];
      if c.expanded || c.standing.state == s {
        EdgesAtAppend(es, Alive(cs[..i], s), c);
        if c.index < |es| {
          kept := kept + [es[c.index]];
        }
      } else {
        assert Alive(cs[..i + 1], s) == Alive(cs[..i], s);
      }
      i := i + 1;
    }
    assert cs[..i] == cs;
  }

  lemma AliveAppend(cs: seq<Entry>, c: Entry, s: int)
    ensures Alive(cs + [c], s) == Alive(cs, s) + (if c.expanded || c.standing.state == s then [c] else [])
  {
    assert (cs + [c])[..|cs|] == cs;
  }

  lemma EdgesAtAppend<E>(es: seq<E>, cs: seq<Entry>, c: Entry)
    ensures EdgesAt(es, cs + [c]) == EdgesAt(es, cs) + (if c.index < |es| then [es[c.index]] else [])
  {
    assert (cs + [c])[..|cs|] == cs;
  }

  // ---------------------------------------------------------------------------
  // Vertex

  /** `Edge`: a candidate move and the vertex after it. */
  datatype Edge = Edge(square: nat, vertex: Vertex)

  /** The child vertices of a list of edges. */
  function Children(es: seq<Edge>): set<Vertex>
  {
    set e | e in es :: e.vertex
  }

  /** The child at `es[k]` as the sort sees it. */
  function EntryOf(es: seq<Edge>, k: nat): Entry
    requires k < |es|
    reads es[k].vertex
  {
    var v := es[k].vertex;
    Entry(Standing(v.state, v.rating), v.edges.Some?, k)
  }

  /** The children of `es` from position i on, as the sort sees them. */
  function Snapshot(es: seq<Edge>, i: nat): (r: seq<Entry>)
    requires i <= |es|
    reads Children(es)
    ensures |r| == |es| - i
    ensures forall c :: c in r ==> i <= c.index < |es| && c == EntryOf(es, c.index)
    decreases |es| - i
  {
    if i == |es| then [] else [EntryOf(es, i)] + Snapshot(es, i + 1)
  }

  /** The squares of the leading edges whose child is at state `s`. */
  function Lead(es: seq<Edge>, s: int): (r: seq<nat>)
    reads Children(es)
    ensures |r| <= |es|
    ensures forall k :: 0 <= k < |r| ==> r[k] == es[k].square && es[k].vertex.state == s
    ensures |r| < |es| ==> es[|r|].vertex.state != s
  {
    if es == [] || es[0].vertex.state != s then [] else [es[0].square] + Lead(es[1..], s)
  }

  /** A square among the strengthening squares of the mover's figures of type at most t: what `gains(t)` holds. */
  ghost predicate Gain(L: Layout, t: int, x: nat)
  {
    exists f :: f in L.figures && Placed(f) && Attacking(L, f, t) && x in Squares(f, f.pattern.gains)
  }

  /** A square among the defending squares of the opponent's figures of type at most t: what `downs(t)` holds. */
  ghost predicate Down(L: Layout, t: int, x: nat)
  {
    exists f :: f in L.figures && Placed(f) && Defending(L, f, t) && x in Squares(f, f.pattern.downs)
  }

  /**
   * The moves `expand` tries in a position with top figure `top`: the
   * defences against a four, the attacks and defences around an open
   * three, otherwise the attacks.
   */
  ghost predicate Candidate(L: Layout, top: Figure, x: nat)
  {
    var kind := top.pattern.kind;
    if kind == FOUR then Down(L, FOUR, x)
    else if kind == OPEN_THREE then Gain(L, THREE, x) || Down(L, OPEN_THREE, x)
    else Gain(L, OPEN_TWO, x)
  }

  /** The candidate list names each square once, and exactly the candidates. */
  lemma CandidateMovesMembers(L: Layout, top: Figure)
    ensures Distinct(CandidateMoves(L, top))
    ensures forall x :: x in CandidateMoves(L, top) <==> Candidate(L, top, x)
  {
    var kind := top.pattern.kind;
    if kind == FOUR {
      DownsOfMembers(L.figures, L.hand, FOUR);
    } else if kind == OPEN_THREE {
      GainsOfMembers(L.figures, L.hand, THREE);
      DownsOfMembers(L.figures, L.hand, OPEN_THREE);
      AddNewSpec(GainsOf(L.figures, L.hand, THREE), DownsOf(L.figures, L.hand, OPEN_THREE));
    } else {
      GainsOfMembers(L.figures, L.hand, OPEN_TWO);
    }
  }

  /** Every figure of a position is placed on its line. */
  lemma ShowsPlaced(L: Layout, m: map<nat, int>)
    requires Shows(L, m)
    ensures forall f :: f in L.figures ==> Placed(f)
  {
    forall f | f in L.figures
      ensures Placed(f)
    {
      var k :| 0 <= k < |L.lines| && f in Found(L.lines[k], L.kind, SolverPatterns);
      assert Lines.Valid(L.lines[k]);
      FoundLineFigures(L.lines[k], L.kind);
      LineFiguresPlaced(L.lines[k], L.kind);
    }
  }

  /** The squares a figure names at some of its columns are on the board. */
  lemma SquaresOnBoard(f: Figure, cols: seq<nat>, x: nat)
    requires Fits(f, cols) && x in Squares(f, cols)
    ensures OnBoard(x)
  {
    var k :| 0 <= k < |Squares(f, cols)| && Squares(f, cols)[k] == x;
  }

  /** The candidate moves are on the board. */
  lemma CandidatesOnBoard(L: Layout, top: Figure, x: nat)
    requires Candidate(L, top, x)
    ensures OnBoard(x)
  {
    var kind := top.pattern.kind;
    if (kind == OPEN_THREE && Gain(L, THREE, x)) || (kind != FOUR && kind != OPEN_THREE) {
      var t := if kind == OPEN_THREE then THREE else OPEN_TWO;
      var f :| f in L.figures && Placed(f) && Attacking(L, f, t) && x in Squares(f, f.pattern.gains);
      SquaresOnBoard(f, f.pattern.gains, x);
    } else {
      var t := if kind == FOUR then FOUR else OPEN_THREE;
      var f :| f in L.figures && Placed(f) && Defending(L, f, t) && x in Squares(f, f.pattern.downs);
      SquaresOnBoard(f, f.pattern.downs, x);
    }
  }

  /**
   * `Vertex`: a position (the Layout it wraps), the attacking side, the
   * solution state, the rating and the edges, `None` until expanded.  The
   * ghost `board` is the board the position shows; `Repr` is the vertex and
   * everything below it.
   */
  class Vertex {
    const position: Layout
    const attacker: int
    ghost const board: map<nat, int>
    var state: int
    var rating: int
    var edges: Option<seq<Edge>>
    ghost var Repr: set<object>

    /** `e` leads from this vertex to the position after its move, with the same attacker. */
    ghost predicate Leads(e: Edge)
      requires Shows(position, board)
    {
      && OnBoard(e.square)
      && Moved(position, e.square) == Success(e.vertex.position)
      && e.vertex.board == board[e.square := position.hand]
      && e.vertex.attacker == attacker
    }

    /**
     * The position shows the board, and the edges are valid within the
     * footprint.
     */
    ghost predicate Valid()
      reads this, Repr
      decreases Repr, 1
    {
      && this in Repr
      && Shows(position, board)
      && (edges.Some? ==> ChildrenValid(edges.value, Repr))
    }

    /**
     * Every edge of `es` leads to the position after its move and to a
     * valid vertex whose footprint lies inside `R` without this vertex,
     * apart from the footprints of the other children.
     */
    ghost predicate ChildrenValid(es: seq<Edge>, R: set<object>)
      reads R - {this}
      decreases R, 0
    {
      && this in R
      && Shows(position, board)
      && (forall e :: e in es ==> e.vertex in R - {this} && e.vertex.Repr <= R - {this})
      && (forall e :: e in es ==> Leads(e))
      && (forall e, e' :: e in es && e' in es && e.vertex != e'.vertex ==> e.vertex.Repr !! e'.vertex.Repr)
      && (forall e :: e in es ==> e.vertex.Valid())
    }

    /**
     * The shape of the search tree alone: every edge is for a square of the
     * board, and its child lies inside this vertex's footprint, apart from
     * this vertex, and is a tree itself.
     */
    ghost predicate Tree()
      reads this, Repr
      decreases Repr
    {
      && this in Repr
      && (edges.Some? ==>
            forall e :: e in edges.value ==>
              OnBoard(e.square) && e.vertex in Repr && e.vertex.Repr <= Repr - {this} && e.vertex.Tree())
    }

    /** A valid vertex heads a tree. */
    lemma ValidTree()
      requires Valid()
      ensures Tree()
      decreases Repr
    {
      if edges.Some? {
        forall e | e in edges.value
          ensures e.vertex.Tree()
        {
          e.vertex.ValidTree();
        }
      }
    }

    /** Fewer edges, within the same footprint, stay valid. */
    lemma ChildrenValidWithin(es: seq<Edge>, es': seq<Edge>, R: set<object>)
      requires ChildrenValid(es, R)
      requires forall e :: e in es' ==> e in es
      ensures ChildrenValid(es', R)
    {
    }

    /** `new Vertex(layout, attacker)`: an unknown, unexpanded vertex. */
    constructor (layout: Layout, attacker: int, ghost m: map<nat, int>)
      requires Shows(layout, m)
      ensures Valid() && fresh(Repr)
      ensures position == layout && this.attacker == attacker && board == m
      ensures state == 0 && rating == 0 && edges.None?
    {
      position := layout;
      this.attacker := attacker;
      board := m;
      state := 0;
      rating := 0;
      edges := None;
      Repr := {this};
    }

    /** `prepare`: the entry state from the top figure, and the rating. */
    method Prepare()
      requires Valid()
      modifies this
      ensures Valid() && Repr == old(Repr) && edges == old(edges)
      ensures state == PrepareState(Top(position), position.hand, attacker)
      ensures rating == Rating(position.figures, position.hand)
    {
      var top := Top(position);
      var none := if attacker == position.hand then -1 else 1;
      var s;
      if top.Some? {
        var kind := top.value.pattern.kind;
        if top.value.hand == position.hand {
          if kind == FIVE {
            s := 1;
          } else if kind == OPEN_FOUR || kind == FOUR {
            s := 2;
          } else if kind == OPEN_THREE {
            s := 4;
          } else if kind == THREE || kind == OPEN_TWO {
            s := if attacker == position.hand then 0 else 1;
          } else {
            s := none;
          }
        } else {
          if kind == FIVE {
            s := -1;
          } else if kind == OPEN_FOUR {
            s := -3;
          } else if kind == FOUR || kind == OPEN_THREE {
            s := 0;
          } else {
            s := none;
          }
        }
      } else {
        s := none;
      }
      var rt := Rate(position);
      state, rating := s, rt;
    }

    /**
     * `moves`: the squares of the leading edges tied with the first child
     * when expanded; otherwise, by state, the mover's fours (a win within
     * two moves), open threes (within four) or the defences against the
     * opponent's open fours (a loss within three); none for any other state.
     */
    method Moves() returns (r: Option<seq<nat>>)
      requires Valid()
      ensures edges.Some? ==> r == Some(if edges.value == [] then [] else Lead(edges.value, edges.value[0].vertex.state))
      ensures edges.None? && 0 < state < 4 ==> r == Some(GainsOf(position.figures, position.hand, FOUR))
      ensures edges.None? && 4 <= state < 6 ==> r == Some(GainsOf(position.figures, position.hand, OPEN_THREE))
      ensures edges.None? && -5 < state < 0 ==> r == Some(DownsOf(position.figures, position.hand, OPEN_FOUR))
      ensures edges.None? && 0 < state < 4 ==> r.Some? && Distinct(r.value) && forall x :: x in r.value <==> Gain(position, FOUR, x)
      ensures edges.None? && 4 <= state < 6 ==> r.Some? && Distinct(r.value) && forall x :: x in r.value <==> Gain(position, OPEN_THREE, x)
      ensures edges.None? && -5 < state < 0 ==> r.Some? && Distinct(r.value) && forall x :: x in r.value <==> Down(position, OPEN_FOUR, x)
      ensures edges.None? && (state == 0 || state >= 6 || state <= -5) ==> r.None?
    {
      ShowsPlaced(position, board);
      if edges.None? {
        if state > 0 {
          if state < 4 {
            var g := LayoutQueries.Gains(position, FOUR);
            return Some(g);
          } else if state < 6 {
            var g := LayoutQueries.Gains(position, OPEN_THREE);
            return Some(g);
          }
        } else if state < 0 {
          if state > -5 {
            var d := LayoutQueries.Downs(position, OPEN_FOUR);
            return Some(d);
          }
        }
        return None;
      } else {
        var squares := LeadSquares(edges.value);
        return Some(squares);
      }
    }

    /** `makeMove`: the vertex after the move, for the same attacker; a failure when the square is taken. */
    method MakeMove(sq: nat) returns (r: Result<Vertex, string>)
      requires Shows(position, board) && OnBoard(sq)
      ensures r.Failure? <==> sq in board
      ensures r.Success? ==>
        && fresh(r.value) && fresh(r.value.Repr) && r.value.Valid()
        && Leads(Edge(sq, r.value))
        && r.value.state == 0 && r.value.edges.None?
    {
      var moved := Layouts.MakeMove(position, sq);
      MovedShows(position, board, sq);
      if moved.Failure? {
        return Failure(moved.error);
      }
      var v := new Vertex(moved.value, attacker, board[sq := position.hand]);
      return Success(v);
    }

    /** `makeEdge`: the edge of a move, its vertex prepared. */
    method MakeEdge(sq: nat) returns (r: Result<Edge, string>)
      requires Shows(position, board) && OnBoard(sq)
      ensures r.Failure? <==> sq in board
      ensures r.Success? ==>
        var v := r.value.vertex;
        && r.value.square == sq && fresh(v) && fresh(v.Repr) && v.Valid() && Leads(r.value)
        && v.edges.None?
        && v.state == PrepareState(Top(v.position), v.position.hand, attacker)
        && v.rating == Rating(v.position.figures, v.position.hand)
    {
      var moved := MakeMove(sq);
      if moved.Failure? {
        return Failure(moved.error);
      }
      var v := moved.value;
      v.Prepare();
      return Success(Edge(sq, v));
    }

    /**
     * The moves `expand` tries, from the top figure; reading the top of a
     * position without figures is a TypeError in the source.
     */
    method Candidates() returns (r: Result<seq<nat>, string>)
      requires Shows(position, board)
      ensures r.Failure? <==> Top(position).None?
      ensures r.Success? ==> r.value == CandidateMoves(position, Top(position).value)
      ensures r.Success? ==> Distinct(r.value) && forall x {:trigger Candidate(position, Top(position).value, x)} :: x in r.value <==> Candidate(position, Top(position).value, x)
    {
      ShowsPlaced(position, board);
      var top := Top(position);
      if top.None? {
        return Failure("TypeError: top is null");
      }
      var kind := top.value.pattern.kind;
      var moves;
      if kind == FOUR {
        moves := LayoutQueries.Downs(position, FOUR);
      } else if kind == OPEN_THREE {
        var g := LayoutQueries.Gains(position, THREE);
        var d := LayoutQueries.Downs(position, OPEN_THREE);
        moves := PushNew(g, d);
        AddNewSpec(g, d);
      } else {
        moves := LayoutQueries.Gains(position, OPEN_TWO);
      }
      return Success(moves);
    }

    /** Back to an unknown, unexpanded vertex. */
    method Reset()
      requires Valid()
      modifies this
      ensures Valid() && Repr == old(Repr)
      ensures state == 0 && edges.None?
    {
      state, edges := 0, None;
    }

    /** `makeEdge` for `expand`: a child beyond the search depth `target` is reset to unknown and unexpanded. */
    method CutEdge(sq: nat, target: int) returns (r: Result<Edge, string>)
      requires Shows(position, board) && OnBoard(sq)
      ensures r.Failure? <==> sq in board
      ensures r.Success? ==>
        var v := r.value.vertex;
        && r.value.square == sq && fresh(v) && fresh(v.Repr) && v.Valid() && Leads(r.value)
        && v.edges.None?
        && v.state == Expected(v.position, attacker, target)
    {
      r := MakeEdge(sq);
      if r.Success? && Abs(r.value.vertex.state) > target {
        r.value.vertex.Reset();
      }
    }

    /** The state `expand` gives a new child: its prepared state, cut at `target`. */
    static function Expected(p: Layout, attacker: int, target: int): int
    {
      Cut(PrepareState(Top(p), p.hand, attacker), target)
    }

    /**
     * The move `sq` is legal here and makes a child that `expand` does not
     * find lost for its mover at the search depth `target`.
     */
    ghost predicate Safe(sq: nat, target: int)
    {
      && Shows(position, board) && OnBoard(sq)
      && Moved(position, sq).Success?
      && Expected(Moved(position, sq).value, attacker, target) >= 0
    }

    /**
     * New edges of this vertex held in `footprint`: each leads to a valid,
     * unexpanded child at its prepared state cut at `target`, and different
     * children have disjoint footprints.
     */
    ghost predicate Grown(es: seq<Edge>, footprint: set<object>, target: int)
      reads footprint
    {
      && Shows(position, board)
      && (forall e :: e in es ==> e.vertex in footprint && e.vertex.Repr <= footprint)
      && (forall e :: e in es ==> Leads(e) && e.vertex.Valid() && e.vertex.edges.None?)
      && (forall e :: e in es ==> e.vertex.state == Expected(e.vertex.position, attacker, target))
      && (forall e, e' :: e in es && e' in es && e.vertex != e'.vertex ==> e.vertex.Repr !! e'.vertex.Repr)
    }

    /** A single new edge, as `CutEdge` makes it, is grown. */
    lemma GrownOne(e: Edge, target: int)
      requires Shows(position, board)
      requires Leads(e) && e.vertex.Valid() && e.vertex.edges.None?
      requires e.vertex.state == Expected(e.vertex.position, attacker, target)
      ensures Grown([e], e.vertex.Repr, target)
    {
      assert e.vertex in e.vertex.Repr;
      forall e' | e' in [e]
        ensures e' == e
      {
        assert [e][0] == e;
      }
    }

    /** One more child, with a footprint of its own, keeps the new edges grown. */
    lemma GrownAppend(es: seq<Edge>, footprint: set<object>, target: int, e: Edge)
      requires Grown(es, footprint, target) && Grown([e], e.vertex.Repr, target)
      requires footprint !! e.vertex.Repr
      ensures Grown(es + [e], footprint + e.vertex.Repr, target)
    {
      assert e in [e];
    }

    /**
     * `expand` stopped at a lost child: the single edge kept is for move
     * `stop` of `moves`, its child is lost for its mover, and every move
     * before it is safe, so `stop` is the first move that is not.
     */
    ghost predicate StoppedAt(es: seq<Edge>, moves: seq<nat>, target: int, stop: nat)
      reads Children(es)
    {
      && |es| == 1 && es[0].vertex.state < 0
      && stop < |moves| && es[0].square == moves[stop]
      && forall j :: 0 <= j < stop ==> Safe(moves[j], target)
    }

    /** New edges for the first i moves, none of them lost, were made for safe moves. */
    lemma GrownSafe(es: seq<Edge>, footprint: set<object>, target: int, moves: seq<nat>, i: nat)
      requires Grown(es, footprint, target) && NoneLost(es)
      requires i <= |moves| && SquaresOf(es) == moves[..i]
      ensures forall j :: 0 <= j < i ==> Safe(moves[j], target)
    {
      forall j | 0 <= j < i
        ensures Safe(moves[j], target)
      {
        assert SquaresOf(es)[j] == moves[j];
        assert es[j] in es;
      }
    }

    /**
     * The edges `expand` builds for `moves`: one prepared edge per move, in
     * order, a child beyond the search depth reset to unknown; without
     * `alledges` the first child lost for its mover is the only edge kept.
     * `stop` is the index of that move, or `|moves|` when none stopped the
     * loop.  `footprint` is what the new children hold.
     */
    method Grow(moves: seq<nat>, alledges: bool, target: int)
      returns (es: seq<Edge>, err: Option<string>, ghost footprint: set<object>, ghost stop: nat)
      requires Shows(position, board) && forall x :: x in moves ==> OnBoard(x)
      ensures err.Some? ==> exists x :: x in moves && x in board
      ensures err.None? ==> fresh(footprint) && Grown(es, footprint, target)
      ensures err.None? ==> stop <= |moves|
      ensures err.None? && stop == |moves| ==> SquaresOf(es) == moves && (alledges || NoneLost(es))
      ensures err.None? && stop < |moves| ==> !alledges && StoppedAt(es, moves, target, stop)
    {
      es, err, footprint, stop := [], None, {}, 0;
      var i := 0;
      while i < |moves|
        invariant 0 <= i <= |moves|
        invariant SquaresOf(es) == moves[..i]
        invariant fresh(footprint)
        invariant Grown(es, footprint, target)
        invariant !alledges ==> NoneLost(es)
      {
        var made := Adopt(es, footprint, target, moves[i]);
        if made.Failure? {
          return es, Some(made.error), footprint, i;
        }
        var e := made.value;
        assert e in [e];
        if !alledges && e.vertex.state < 0 {
          GrownSafe(es, footprint, target, moves, i);
          return [e], None, e.vertex.Repr, i;
        }
        if !alledges {
          NoneLostAppend(es, e);
        }
        SquaresOfAppend(es, e);
        TakeStep(moves, i);
        es := es + [e];
        footprint := footprint + e.vertex.Repr;
        i := i + 1;
      }
      TakeAll(moves);
      stop := |moves|;
    }

    /** One step of `expand`'s loop: the edge for `sq`, cut at `target`, added to the new edges `es`. */
    method Adopt(es: seq<Edge>, ghost footprint: set<object>, target: int, sq: nat) returns (r: Result<Edge, string>)
      requires Shows(position, board) && OnBoard(sq)
      requires Grown(es, footprint, target)
      ensures r.Failure? <==> sq in board
      ensures r.Success? ==>
        var e := r.value;
        && e.square == sq && fresh(e.vertex.Repr)
        && Grown([e], e.vertex.Repr, target)
        && Grown(es + [e], footprint + e.vertex.Repr, target)
    {
      r := CutEdge(sq, target);
      if r.Success? {
        GrownOne(r.value, target);
        GrownAppend(es, footprint, target, r.value);
      }
    }

    /** Every child of `es` is at the state `expand` gives it for the search depth `target`. */
    ghost predicate Scored(es: seq<Edge>, target: int)
      reads Children(es)
    {
      forall e :: e in es ==> e.vertex.state == Expected(e.vertex.position, attacker, target)
    }

    /**
     * New edges grown in `footprint`, away from this vertex, are valid
     * children of it within any `R` holding this vertex and the footprint.
     */
    lemma GrownChildren(es: seq<Edge>, footprint: set<object>, target: int, R: set<object>)
      requires Grown(es, footprint, target)
      requires this in R && footprint <= R && this !in footprint
      ensures ChildrenValid(es, R) && Scored(es, target) && Children(es) <= footprint
    {
    }

    /**
     * The edges `grown` that `expand` built for `moves` (the moves `top`
     * calls for) at the search depth `target`: every edge is for a
     * candidate; all moves have an edge, none of them lost unless
     * `alledges`, or the search stopped at the first lost child, `stop`;
     * and every child is scored.
     */
    ghost predicate Expanded(grown: seq<Edge>, moves: seq<nat>, top: Figure, alledges: bool, target: int, stop: nat)
      reads Children(grown)
    {
      && (forall e :: e in grown ==> Candidate(position, top, e.square))
      && stop <= |moves|
      && (stop == |moves| ==> SquaresOf(grown) == moves && (alledges || NoneLost(grown)))
      && (stop < |moves| ==> !alledges && StoppedAt(grown, moves, target, stop))
      && Scored(grown, target)
    }

    /**
     * `expand` for the moves `moves` that the top figure `top` calls for
     * (the caller computes them with `Candidates`): an edge for each (see
     * `Grow`), then `check`.  `grown` names the edges built before the
     * check: every one is for a candidate move, all candidates are covered
     * unless a lost child stopped the search early, and the vertex ends as
     * `Outcome` says for them.
     */
    method Expand(moves: seq<nat>, ghost top: Figure, alledges: bool, target: int)
      returns (err: Option<string>, ghost grown: seq<Edge>, ghost stop: nat)
      requires Valid() && forall x {:trigger Candidate(position, top, x)} :: x in moves <==> Candidate(position, top, x)
      modifies this
      ensures Valid() && fresh(Repr - old(Repr))
      ensures err.Some? ==> unchanged(this)
      ensures err.None? ==> Expanded(grown, moves, top, alledges, target, stop)
      ensures err.None? ==>
        (state, edges) == Outcome(old(state), attacker == position.hand, grown, Sort(Snapshot(grown, 0), EntryBefore()))
    {
      forall x | x in moves
        ensures OnBoard(x)
      {
        CandidatesOnBoard(position, top, x);
      }
      var es, e;
      ghost var footprint;
      es, e, footprint, stop := Grow(moves, alledges, target);
      if e.Some? {
        return e, [], stop;
      }
      grown := es;
      CandidateEdges(es, moves, position, top);
      Attach(es, footprint, target);
      err := None;
    }

    /** The end of `expand`: the new edges become this vertex's, and `check` runs on them. */
    method Attach(es: seq<Edge>, ghost footprint: set<object>, target: int)
      requires Valid() && Grown(es, footprint, target) && this !in footprint
      modifies this
      ensures Valid() && Repr == old(Repr) + footprint
      ensures Scored(es, target) && forall e :: e in es ==> e.vertex.state == old(e.vertex.state)
      ensures (state, edges) == Outcome(old(state), attacker == position.hand, es, Sort(Snapshot(es, 0), EntryBefore()))
    {
      GrownChildren(es, footprint, target, Repr + footprint);
      edges := Some(es);
      Repr := Repr + footprint;
      CheckGrown(es);
    }

    /** `check` over the edges `es` just attached: it leaves the children and their scores alone. */
    method CheckGrown(es: seq<Edge>)
      requires Valid() && edges == Some(es)
      modifies this
      ensures Valid() && Repr == old(Repr)
      ensures forall e :: e in es ==> e.vertex.state == old(e.vertex.state)
      ensures (state, edges) == Outcome(old(state), attacker == position.hand, es, Sort(Snapshot(es, 0), EntryBefore()))
    {
      assert this !in Children(es);
      ghost var snapshot := Snapshot(es, 0);
      Check();
      assert Snapshot(es, 0) == snapshot;
    }

    /**
     * After one child `v` has grown its own tree, while this vertex and
     * everything else in its footprint outside `v`'s old footprint stayed
     * as it was, the edges are valid within the footprint and the
     * child's new one.
     */
    twostate lemma ChildEstimated(v: Vertex)
      requires old(Valid()) && old(edges).Some? && unchanged(this)
      requires v in Children(edges.value)
      requires forall o :: o in old(Repr) && o !in old(v.Repr) ==> unchanged(o)
      requires v.Valid() && fresh(v.Repr - old(v.Repr))
      ensures ChildrenValid(edges.value, Repr + v.Repr)
    {
      FootprintsGrown(v);
      forall e | e in edges.value
        ensures e.vertex.Valid()
      {
        if e.vertex != v {
          SiblingKept(e.vertex);
        }
      }
      ChildrenValidOf(edges.value, Repr + v.Repr);
    }

    /** The footprints of the children after `v` has grown: still inside, still apart. */
    twostate lemma FootprintsGrown(v: Vertex)
      requires old(Valid()) && old(edges).Some? && unchanged(this)
      requires v in Children(edges.value)
      requires forall o :: o in old(Repr) && o !in old(v.Repr) ==> unchanged(o)
      requires fresh(v.Repr - old(v.Repr))
      ensures forall e :: e in edges.value ==> e.vertex in (Repr + v.Repr) - {this} && e.vertex.Repr <= (Repr + v.Repr) - {this}
      ensures forall e, e' :: e in edges.value && e' in edges.value && e.vertex != e'.vertex ==> e.vertex.Repr !! e'.vertex.Repr
      ensures this in Repr && Shows(position, board) && forall e :: e in edges.value ==> Leads(e)
    {
      ghost var es := edges.value;
      assert old(ChildrenValid(es, Repr));
      ChildrenInside(v);
    }

    /** Each child, `v` grown or another one untouched, still lies inside the footprint with `v`'s new one. */
    twostate lemma ChildrenInside(v: Vertex)
      requires old(Valid()) && old(edges).Some? && unchanged(this)
      requires v in Children(edges.value)
      requires forall o :: o in old(Repr) && o !in old(v.Repr) ==> unchanged(o)
      requires fresh(v.Repr - old(v.Repr))
      ensures forall e :: e in edges.value ==> e.vertex in (Repr + v.Repr) - {this} && e.vertex.Repr <= (Repr + v.Repr) - {this}
    {
      ghost var es := edges.value;
      assert old(ChildrenValid(es, Repr));
      forall e | e in es
        ensures e.vertex in (Repr + v.Repr) - {this} && e.vertex.Repr <= (Repr + v.Repr) - {this}
      {
        if e.vertex == v {
          assert this !in old(v.Repr);
        } else {
          assert old(e.vertex.Valid());
          assert e.vertex in old(e.vertex.Repr);
          assert e.vertex !in old(v.Repr);
        }
      }
    }

    /** While only `v`'s footprint changed, every other child is as it was. */
    twostate lemma SiblingsUntouched(v: Vertex)
      requires old(Valid()) && old(edges).Some? && unchanged(this)
      requires v in Children(edges.value)
      requires forall o :: o in old(Repr) && o !in old(v.Repr) ==> unchanged(o)
      ensures forall e :: e in edges.value && e.vertex != v ==> unchanged(e.vertex)
    {
      ghost var es := edges.value;
      assert old(ChildrenValid(es, Repr));
      var ev :| ev in es && ev.vertex == v;
      forall e | e in es && e.vertex != v
        ensures unchanged(e.vertex)
      {
        assert old(e.vertex.Valid());
        assert e.vertex in old(e.vertex.Repr);
        assert old(e.vertex.Repr) !! old(ev.vertex.Repr);
        assert e.vertex in old(Repr) && e.vertex !in old(v.Repr);
      }
    }

    /** `ChildrenValid`, conjunct by conjunct. */
    lemma ChildrenValidOf(es: seq<Edge>, R: set<object>)
      requires this in R && Shows(position, board)
      requires forall e :: e in es ==> e.vertex in R - {this} && e.vertex.Repr <= R - {this}
      requires forall e :: e in es ==> Leads(e)
      requires forall e, e' :: e in es && e' in es && e.vertex != e'.vertex ==> e.vertex.Repr !! e'.vertex.Repr
      requires forall e :: e in es ==> e.vertex.Valid()
      ensures ChildrenValid(es, R)
    {
    }

    /** A vertex none of whose footprint has changed stays valid. */
    twostate lemma SiblingKept(w: Vertex)
      requires old(w.Valid())
      requires forall o :: o in old(w.Repr) ==> unchanged(o)
      ensures w.Valid() && w.Repr == old(w.Repr)
    {
    }

    /**
     * The first step of `estimate` at an unknown leaf: the candidate moves
     * of the top figure, then `Expand` on them.  Without a top figure the
     * vertex is left as it was; otherwise it keeps edges unless `check`
     * decided it.
     */
    method ExpandLeaf(alledges: bool, computetarget: int) returns (err: Option<string>)
      requires Valid() && state == 0 && edges.None?
      modifies this
      ensures Valid() && fresh(Repr - old(Repr))
      ensures Top(position).None? ==> err.Some?
      ensures err.Some? ==> unchanged(this)
      ensures err.None? ==> edges.Some? || state == (if attacker == position.hand then -1 else 1)
    {
      var candidates := Candidates();
      if candidates.Failure? {
        return Some(candidates.error);
      }
      ghost var grown, stop;
      err, grown, stop := Expand(candidates.value, Top(position).value, alledges, computetarget - position.count + 1);
      if err.None? {
        OutcomeDecides(0, attacker == position.hand, grown, Sort(Snapshot(grown, 0), EntryBefore()));
      }
    }

    /**
     * `estimate(level, alledges, computetarget)`: expand an unknown leaf
     * when `level` allows, then estimate the children one level lower, in
     * their order, stopping early without `alledges` at the first child
     * lost for its mover or, when the defence moves, at the first child
     * still unknown; then `check`.  A decided vertex, or level 0, is left
     * alone; an unknown vertex expanded here keeps edges unless `check`
     * decided it.
     */
    method Estimate(level: nat, alledges: bool, computetarget: int) returns (err: Option<string>)
      requires Valid()
      modifies Repr
      decreases level, 1
      ensures Valid() && fresh(Repr - old(Repr))
      ensures level == 0 || old(state) != 0 ==> state == old(state) && edges == old(edges)
      ensures err.None? && level > 0 && old(state) == 0 ==> edges.Some? || state == (if attacker == position.hand then -1 else 1)
    {
      err := None;
      if state == 0 && edges.None? && level > 0 {
        err := ExpandLeaf(alledges, computetarget);
        if err.Some? {
          return;
        }
      }
      if state == 0 && edges.Some? && level > 1 {
        var es := edges.value;
        ghost var seen;
        err, seen := EstimateChildren(es, level, alledges, computetarget);
        if err.Some? {
          return;
        }
        CheckGrown(es);
        OutcomeDecides(0, attacker == position.hand, es, Sort(Snapshot(es, 0), EntryBefore()));
      }
    }

    /**
     * `Vertex.estimate(layout, attacker, alledges, computetarget,
     * estimatedepth)`: a root for the position reduced to open twos and
     * stronger, prepared, then estimated level by level until it is
     * decided or the depth runs out (0 stands for an absent computetarget,
     * 35, or estimatedepth, 17).  A result that favours the wrong side, or
     * lies beyond the search target, is reported as unknown.
     */
    static method EstimateRoot(layout: Layout, attacker: int, alledges: bool, computetarget: int, estimatedepth: int, ghost m: map<nat, int>)
      returns (root: Vertex, err: Option<string>)
      requires Shows(layout, m)
      ensures fresh(root) && root.Valid()
      ensures root.position == Aligned(layout, OPEN_TWO) && root.attacker == attacker && root.board == m
      ensures err.None? ==>
        var target := (if computetarget == 0 then 35 else computetarget) - layout.count + 1;
        && (attacker == layout.hand ==> root.state >= 0)
        && (attacker != layout.hand ==> root.state <= 0)
        && (root.state == 0 || Abs(root.state) <= target)
    {
      root := NewRoot(layout, attacker, m);
      var ct := if computetarget == 0 then 35 else computetarget;
      var target := ct - root.position.count + 1;
      var depth := if estimatedepth == 0 then 17 else estimatedepth;
      var count := Max(Min(target - 2, depth), 0);
      err := root.Deepen(count, alledges, ct);
      if err.Some? {
        return;
      }
      root.Report(attacker == layout.hand, target);
    }

    /** Estimate at levels 0, 1, ... up to `count`, until an error or a decided state. */
    method Deepen(count: nat, alledges: bool, computetarget: int) returns (err: Option<string>)
      requires Valid()
      modifies Repr
      ensures Valid() && fresh(Repr - old(Repr))
    {
      var level := 0;
      err := None;
      while level <= count
        invariant Valid() && fresh(Repr - old(Repr))
      {
        err := Estimate(level, alledges, computetarget);
        if err.Some? {
          return;
        }
        if state != 0 {
          break;
        }
        level := level + 1;
      }
      err := None;
    }

    /** The root's state as `Vertex.estimate` returns it, from the side to move and the target. */
    method Report(attackerMoves: bool, target: int)
      requires Valid()
      modifies this
      ensures Valid() && Repr == old(Repr) && edges == old(edges)
      ensures state == Reported(old(state), attackerMoves, target)
    {
      state := Reported(state, attackerMoves, target);
    }

    /** The root of `Vertex.estimate`: the position reduced to open twos and stronger, prepared. */
    static method NewRoot(layout: Layout, attacker: int, ghost m: map<nat, int>) returns (root: Vertex)
      requires Shows(layout, m)
      ensures fresh(root) && fresh(root.Repr) && root.Valid()
      ensures root.position == Aligned(layout, OPEN_TWO) && root.attacker == attacker && root.board == m
      ensures root.position.count == layout.count && root.position.hand == layout.hand
      ensures root.state == PrepareState(Top(root.position), root.position.hand, attacker) && root.edges.None?
    {
      var aligned := AlignType(layout, OPEN_TWO);
      AlignedSpec(layout, OPEN_TWO, m);
      root := new Vertex(aligned, attacker, m);
      root.Prepare();
    }

    /** Estimate the child `v` of `es` at `level`, and take its grown tree into this vertex's footprint. */
    method EstimateChild(es: seq<Edge>, v: Vertex, level: nat, computetarget: int) returns (err: Option<string>)
      requires Valid() && edges == Some(es) && v in Children(es)
      modifies Repr
      decreases level, 2
      ensures Valid() && fresh(Repr - old(Repr))
      ensures state == old(state) && edges == old(edges)
      ensures level == 0 || old(v.state) != 0 ==> v.state == old(v.state) && v.edges == old(v.edges)
      ensures err.None? && level > 0 && old(v.state) == 0 ==>
        v.edges.Some? || v.state == (if attacker == v.position.hand then -1 else 1)
      ensures forall e :: e in es && e.vertex != v ==> unchanged(e.vertex)
    {
      err := v.Estimate(level, false, computetarget);
      ChildEstimated(v);
      SiblingsUntouched(v);
      Repr := Repr + v.Repr;
    }

    /**
     * The loop of `estimate` at `level`: each child of `es`, in order,
     * estimated one level lower with `alledges` off.  `seen` records each
     * child's state right after its own estimate; when the edges lead to
     * distinct vertices that is each estimated child's final state, since
     * estimating one child leaves its siblings alone.  Without `alledges` the
     * loop stops at the first child whose state `Stops` it; otherwise, and
     * when no child stops it, every child is estimated.  Only the
     * children's trees change.
     */
    method EstimateChildren(es: seq<Edge>, level: nat, alledges: bool, computetarget: int)
      returns (err: Option<string>, ghost seen: seq<int>)
      requires Valid() && edges == Some(es) && level > 1
      modifies Repr
      decreases level, 0
      ensures Valid() && fresh(Repr - old(Repr))
      ensures state == old(state) && edges == old(edges)
      ensures |seen| <= |es|
      ensures DistinctChildren(es) ==> Recorded(es, seen)
      ensures !alledges ==> forall j :: 0 <= j < |seen| - 1 ==> !Stops(seen[j], attacker != position.hand)
      ensures err.None? && |seen| < |es| ==> !alledges && 0 < |seen| && Stops(seen[|seen| - 1], attacker != position.hand)
    {
      err, seen := None, [];
      var i := 0;
      while i < |es|
        invariant Valid() && fresh(Repr - old(Repr))
        invariant state == old(state) && edges == Some(es)
        invariant i == |seen| <= |es|
        invariant DistinctChildren(es) ==> Recorded(es, seen)
        invariant !alledges ==> forall j :: 0 <= j < |seen| ==> !Stops(seen[j], attacker != position.hand)
      {
        var v := es[i].vertex;
        if DistinctChildren(es) {
          RecordedStates(es, seen);
        }
        var e := EstimateChild(es, v, level - 1, computetarget);
        if DistinctChildren(es) {
          forall j | 0 <= j < |seen|
            ensures seen[j] == es[j].vertex.state
          {
            assert j < i && es[j] in es;
          }
          RecordedStates(es, seen);
        }
        if e.Some? {
          return e, seen;
        }
        if DistinctChildren(es) {
          RecordedNext(es, seen);
        }
        seen := seen + [v.state];
        if !alledges && (v.state < 0 || (attacker != position.hand && v.state == 0)) {
          return None, seen;
        }
        i := i + 1;
      }
    }

    /**
     * `check`: sort the edges by their children and back the result up
     * into this vertex, as `Outcome` says, from the children as they stand.
     */
    method Check()
      requires Valid()
      modifies this
      ensures Valid() && Repr == old(Repr)
      ensures old(edges).None? ==> state == old(state) && edges.None?
      ensures old(edges).Some? ==>
        (state, edges) == Outcome(old(state), attacker == position.hand, old(edges.value),
                                  Sort(old(Snapshot(edges.value, 0)), EntryBefore()))
    {
      if edges.Some? && |edges.value| > 0 && state != -128 {
        var es := edges.value;
        var cs := Sort(Snapshot(es, 0), EntryBefore());
        SortMembersAll(Snapshot(es, 0), EntryBefore());
        OutcomeWithin(state, attacker == position.hand, es, cs);
        var s, r := BackUp(state, attacker == position.hand, es, cs);
        if r.Some? {
          ChildrenValidWithin(es, r.value, Repr);
        }
        state, edges := s, r;
      }
    }
  }

  /**
   * A child state at which `estimate` stops without `alledges`: lost for
   * its mover, or still unknown when the defence moves.
   */
  predicate Stops(s: int, defends: bool)
  {
    s < 0 || (defends && s == 0)
  }

  /** `seen` holds the states of the first `|seen|` children of `es`, in order. */
  ghost predicate Recorded(es: seq<Edge>, seen: seq<int>)
    reads Children(es)
    decreases |seen|
  {
    && |seen| <= |es|
    && (|seen| == 0 || (Recorded(es, seen[..|seen| - 1]) && es[|seen| - 1].vertex.state == seen[|seen| - 1]))
  }

  /** `Recorded`, child by child. */
  lemma {:induction false} RecordedStates(es: seq<Edge>, seen: seq<int>)
    ensures Recorded(es, seen) <==> |seen| <= |es| && forall j :: 0 <= j < |seen| ==> seen[j] == es[j].vertex.state
    decreases |seen|
  {
    if |seen| > 0 {
      RecordedStates(es, seen[..|seen| - 1]);
    }
  }

  /** One more child's state extends the record. */
  lemma RecordedNext(es: seq<Edge>, seen: seq<int>)
    requires Recorded(es, seen) && |seen| < |es|
    ensures Recorded(es, seen + [es[|seen|].vertex.state])
  {
    assert (seen + [es[|seen|].vertex.state])[..|seen|] == seen;
  }

  /** No two edges of `es` lead to the same vertex object, as for the edges `expand` builds. */
  ghost predicate DistinctChildren(es: seq<Edge>)
  {
    forall i, j :: 0 <= i < j < |es| ==> es[i].vertex != es[j].vertex
  }

  /** No child of `es` is lost for its mover. */
  ghost predicate NoneLost(es: seq<Edge>)
    reads Children(es)
  {
    forall e :: e in es ==> e.vertex.state >= 0
  }

  lemma NoneLostAppend(es: seq<Edge>, e: Edge)
    requires NoneLost(es) && e.vertex.state >= 0
    ensures NoneLost(es + [e])
  {
  }

  /** The squares of a list of edges, in order. */
  function SquaresOf(es: seq<Edge>): (r: seq<nat>)
    ensures |r| == |es| && forall k :: 0 <= k < |es| ==> r[k] == es[k].square
  {
    if es == [] then [] else SquaresOf(es[..|es| - 1]) + [es[|es| - 1].square]
  }

  /** The square of every edge is among the squares. */
  lemma SquaresOfMembers(es: seq<Edge>)
    ensures forall e :: e in es ==> e.square in SquaresOf(es)
  {
    forall e | e in es
      ensures e.square in SquaresOf(es)
    {
      var k :| 0 <= k < |es| && es[k] == e;
      assert SquaresOf(es)[k] == e.square;
    }
  }

  /** Edges for the candidate moves, all of them or a single one, are all for candidates. */
  lemma CandidateEdges(es: seq<Edge>, moves: seq<nat>, L: Layout, top: Figure)
    requires forall x {:trigger Candidate(L, top, x)} :: x in moves <==> Candidate(L, top, x)
    requires SquaresOf(es) == moves || (|es| == 1 && es[0].square in moves)
    ensures forall e :: e in es ==> Candidate(L, top, e.square)
    ensures SquaresOf(es) == moves ==> forall x :: x in SquaresOf(es) <==> Candidate(L, top, x)
  {
    SquaresOfMembers(es);
  }

  lemma SquaresOfAppend(es: seq<Edge>, e: Edge)
    ensures SquaresOf(es + [e]) == SquaresOf(es) + [e.square]
  {
    assert (es + [e])[..|es|] == es;
  }

  lemma TakeStep<T>(s: seq<T>, i: nat)
    requires i < |s|
    ensures s[..i + 1] == s[..i] + [s[i]]
  {
  }

  lemma TakeAll<T>(s: seq<T>)
    ensures s[..|s|] == s
  {
  }

  function Abs(x: int): nat
  {
    if x < 0 then -x else x
  }

  /**
   * The state `Vertex.estimate` reports for its root, from the side to
   * move: unknown when it is a loss with the attacker to move or a win
   * with the defender to move, or when it lies beyond `target`.
   */
  function Reported(state: int, attackerMoves: bool, target: int): (s: int)
    ensures s == state || s == 0
    ensures attackerMoves ==> s >= 0
    ensures !attackerMoves ==> s <= 0
    ensures s == 0 || Abs(s) <= target
    ensures s == 0 <==> state == 0 || (attackerMoves && state < 0) || (!attackerMoves && state > 0) || Abs(state) > target
  {
    if (attackerMoves && state < 0) || (!attackerMoves && state > 0) then 0
    else if Abs(state) > target then 0
    else state
  }

  function Max(x: int, y: int): int
  {
    if x < y then y else x
  }

  function Min(x: int, y: int): int
  {
    if x < y then x else y
  }

  /** A state beyond the search depth `target` becomes unknown. */
  function Cut(state: int, target: int): (s: int)
    ensures Abs(s) <= target || s == 0
    ensures s == state || s == 0
  {
    if Abs(state) > target then 0 else state
  }

  /** The squares of the leading edges tied with the first child: the expanded branch of `moves`. */
  method LeadSquares(es: seq<Edge>) returns (squares: seq<nat>)
    ensures squares == if es == [] then [] else Lead(es, es[0].vertex.state)
  {
    squares := [];
    if |es| > 0 {
      var top := es[0].vertex;
      var i := 0;
      while i < |es| && es[i].vertex.state == top.state
        invariant 0 <= i <= |es|
        invariant forall k :: 0 <= k < i ==> es[k].vertex.state == top.state
        invariant |squares| == i && forall k :: 0 <= k < i ==> squares[k] == es[k].square
      {
        squares := squares + [es[i].square];
        i := i + 1;
      }
      LeadIs(es, top.state, squares);
    }
  }

  /**
   * The body of `check` once the edges `es` are sorted as `cs`: the state
   * and the edges it leaves.
   */
  method BackUp<E>(state: int, attackerMoves: bool, es: seq<E>, cs: seq<Entry>) returns (s: int, r: Option<seq<E>>)
    requires cs != [] && state != -128
    ensures (s, r) == Outcome(state, attackerMoves, es, cs)
  {
    s, r := state, Some(EdgesAt(es, cs));
    var best := cs[0].standing.state;
    if attackerMoves {
      if best < 0 && best != -128 {
        s := 1 - best;
        var kept := KeepTied(es, cs, best);
        r := Some(kept);
      } else if best > 0 {
        s, r := -1, None;
      }
    } else {
      if best < 0 && best != -128 {
        s, r := 1, None;
      } else if best > 0 {
        s := -best - 1;
        var kept := KeepAlive(es, cs, best);
        r := Some(kept);
      }
    }
  }

  /** The edges `check` keeps are among the edges it had. */
  lemma OutcomeWithin<E>(state: int, attackerMoves: bool, es: seq<E>, cs: seq<Entry>)
    ensures var r := Outcome(state, attackerMoves, es, cs).1;
      r.Some? ==> forall e :: e in r.value ==> e in es
  {
    EdgesAtMembers(es, cs);
    if cs != [] {
      EdgesAtMembers(es, TieRun(cs, cs[0].standing.state));
      EdgesAtMembers(es, Alive(cs, cs[0].standing.state));
    }
  }

  /** Squares of a prefix tied at `s`, stopped at the end or at another state, are `Lead(es, s)`. */
  lemma {:induction false} LeadIs(es: seq<Edge>, s: int, squares: seq<nat>)
    requires |squares| <= |es|
    requires forall k :: 0 <= k < |squares| ==> squares[k] == es[k].square && es[k].vertex.state == s
    requires |squares| < |es| ==> es[|squares|].vertex.state != s
    ensures Lead(es, s) == squares
  {
    if squares != [] {
      LeadIs(es[1..], s, squares[1..]);
    }
  }
}
