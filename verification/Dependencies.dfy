/** The edge table behind `emitEdge`/`retractEdge`, and its depth-bounded guard against waiting in a circle. */
module Dependencies {
  import opened Basics
  import opened Walks

  type Uid = int

  datatype EdgeType = DependsOn | Blocks | DerivedFrom | AttachedTo | References | Produces | Updates
  datatype NodeType = Task | Artifact | Comment | Note
  /** `src` is absent on edges that start at a session rather than a node. */
  datatype Edge = Edge(kind: EdgeType, src: Option<Uid>, dst: Uid, indexer: bool, retracted: bool)

  /** How deep the recursive query looks. */
  const SEARCH_DEPTH: nat := 50

  predicate Explicit(kind: EdgeType) {
    kind in {DerivedFrom, AttachedTo, Blocks, DependsOn, References}
  }

  /** All but the two kinds the orchestrator owns. */
  lemma ExplicitIff(kind: EdgeType)
    ensures Explicit(kind) <==> kind !in {Produces, Updates}
  {
    match kind case DependsOn => case Blocks => case DerivedFrom => case AttachedTo => case References => case Produces => case Updates =>
  }

  predicate Ordering(kind: EdgeType) {
    kind == Blocks || kind == DependsOn
  }

  /** X depends-on Y, or Y blocks X, both say that X waits on Y. */
  predicate SaysWaits(e: Edge, x: Uid, y: Uid) {
    && !e.retracted && e.src.Some?
    && ((e.kind == DependsOn && e.src.value == x && e.dst == y) || (e.kind == Blocks && e.dst == x && e.src.value == y))
  }

  ghost predicate WaitsOn(edges: seq<Edge>, x: Uid, y: Uid) {
    exists i :: 0 <= i < |edges| && SaysWaits(edges[i], x, y)
  }

  ghost predicate WaitsWithin(edges: seq<Edge>, nodes: set<Uid>) {
    forall x, y :: WaitsOn(edges, x, y) ==> x in nodes && y in nodes
  }

  ghost function Waiting(edges: seq<Edge>): (Uid, Uid) -> bool {
    (x, y) => WaitsOn(edges, x, y)
  }

  ghost predicate ReachesWithin(edge: (Uid, Uid) -> bool, a: Uid, b: Uid, n: nat) {
    exists p :: WalkFromTo(edge, p, a, b) && |p| - 1 <= n
  }

  /** A walk that returns to where it started. */
  ghost predicate Closed(edge: (Uid, Uid) -> bool, p: seq<Uid>) {
    IsWalk(edge, p) && |p| >= 2 && p[0] == p[|p| - 1]
  }

  ghost predicate NoCycleUpTo(edge: (Uid, Uid) -> bool, n: nat) {
    forall p :: Closed(edge, p) ==> |p| - 1 > n
  }

  ghost predicate Acyclic(edge: (Uid, Uid) -> bool) {
    forall p :: !Closed(edge, p)
  }

  // ---- What one more edge can do -------------------------------------------------------------

  lemma {:induction false} FirstVisit(p: seq<Uid>, w: Uid) returns (m: nat)
    requires w in p
    ensures m < |p| && p[m] == w && forall j :: 0 <= j < m ==> p[j] != w
  {
    if p[0] == w {
      m := 0;
    } else {
      m := FirstVisit(p[1..], w);
      m := m + 1;
      forall j | 0 <= j < m ensures p[j] != w {
        if j > 0 { assert p[j] == p[1..][j - 1]; }
      }
    }
  }

  /** A closed walk through w -> v, cut open at that edge, leads from v to w. */
  lemma OpenAt(edge: (Uid, Uid) -> bool, p: seq<Uid>, i: nat) returns (q: seq<Uid>)
    requires Closed(edge, p) && i < |p| - 1
    ensures WalkFromTo(edge, q, p[i + 1], p[i]) && |q| == |p| - 1
  {
    var n := |p| - 1;
    q := p[i + 1..n] + p[..i + 1];
    forall k | 0 <= k < |q| - 1
      ensures edge(q[k], q[k + 1])
    {
      var at := if k < n - i - 1 then i + 1 + k else k - (n - i - 1);
      assert q[k] == p[at];
      assert edge(p[at], p[at + 1]);
    }
  }

  /**
   * If w -> v is the only new edge and v cannot reach w within `depth` steps, no cycle of length
   * `depth + 1` or less appears, even one that uses the new edge several times.
   */
  lemma NewEdgeKeepsShortCyclesOut(before: (Uid, Uid) -> bool, after: (Uid, Uid) -> bool, w: Uid, v: Uid, depth: nat)
    requires forall x, y :: after(x, y) ==> before(x, y) || (x == w && y == v)
    requires NoCycleUpTo(before, depth + 1)
    requires !ReachesWithin(before, v, w, depth)
    ensures NoCycleUpTo(after, depth + 1)
  {
    forall p | Closed(after, p)
      ensures |p| - 1 > depth + 1
    {
      if |p| - 1 <= depth + 1 {
        if forall i :: 0 <= i < |p| - 1 ==> before(p[i], p[i + 1]) {
          assert Closed(before, p);
        } else {
          var i :| 0 <= i < |p| - 1 && !before(p[i], p[i + 1]);
          assert after(p[i], p[i + 1]);
          var q := OpenAt(after, p, i);
          var m := FirstVisit(q, w);
          var r := q[..m + 1];
          assert forall k :: 0 <= k < |r| - 1 ==> after(q[k], q[k + 1]) && q[k] != w;
          assert WalkFromTo(before, r, v, w);
        }
        assert false;
      }
    }
  }

  /** A closed walk longer than the number of nodes revisits one, so it holds a shorter closed walk. */
  lemma {:induction false} CycleWithinNodeCount(edge: (Uid, Uid) -> bool, nodes: set<Uid>, p: seq<Uid>) returns (q: seq<Uid>)
    requires forall x, y :: edge(x, y) ==> x in nodes && y in nodes
    requires Closed(edge, p)
    ensures Closed(edge, q) && |q| - 1 <= |nodes|
    decreases |p|
  {
    if |p| - 1 <= |nodes| {
      q := p;
    } else {
      var init := p[..|p| - 1];
      forall x | x in init ensures x in nodes {
        var k :| 0 <= k < |init| && init[k] == x;
        var y := p[k + 1];
        assert edge(x, y);
      }
      if Distinct(init) {
        Pigeonhole(init, nodes);
        assert false;
      }
      var i, j :| 0 <= i < j < |init| && init[i] == init[j];
      var inner := p[i..j + 1];
      forall k | 0 <= k < |inner| - 1 ensures edge(inner[k], inner[k + 1]) {
        assert edge(p[i + k], p[i + k + 1]);
      }
      q := CycleWithinNodeCount(edge, nodes, inner);
    }
  }

  /** On a graph of at most n nodes, excluding cycles of length up to n excludes them all. */
  lemma SmallGraphsAreAcyclic(edge: (Uid, Uid) -> bool, nodes: set<Uid>, n: nat)
    requires forall x, y :: edge(x, y) ==> x in nodes && y in nodes
    requires NoCycleUpTo(edge, n) && |nodes| <= n
    ensures Acyclic(edge)
  {
    forall p ensures !Closed(edge, p) {
      if Closed(edge, p) {
        var q := CycleWithinNodeCount(edge, nodes, p);
        assert false;
      }
    }
  }

  // ---- The bound is sharp --------------------------------------------------------------------

  /** 0 waits on 1 waits on 2 ... waits on n. */
  function Chain(n: nat): seq<Edge> {
    seq(n, i => Edge(DependsOn, Some(i), i + 1, false, false))
  }

  lemma {:induction false} ChainWalks(n: nat, p: seq<Uid>)
    requires IsWalk(Waiting(Chain(n)), p)
    ensures p[|p| - 1] == p[0] + |p| - 1
  {
    if |p| > 1 {
      ChainWalks(n, p[..|p| - 1]);
      assert WaitsOn(Chain(n), p[|p| - 2], p[|p| - 1]);
    }
  }

  /**
   * A chain of depth + 1 waits has no cycle and passes the guard in both directions, yet the edge from
   * its end back to its start closes a cycle of length depth + 2.
   */
  lemma GuardMissesLongCycle(depth: nat)
    ensures Acyclic(Waiting(Chain(depth + 1)))
    ensures !ReachesWithin(Waiting(Chain(depth + 1)), 0, depth + 1, depth)
    ensures !Acyclic(Waiting(Chain(depth + 1) + [Edge(DependsOn, Some(depth + 1), 0, false, false)]))
  {
    var chain := Chain(depth + 1);
    forall p ensures !Closed(Waiting(chain), p) {
      if Closed(Waiting(chain), p) { ChainWalks(depth + 1, p); }
    }
    forall p | WalkFromTo(Waiting(chain), p, 0, depth + 1) ensures |p| - 1 > depth {
      ChainWalks(depth + 1, p);
    }
    var all := chain + [Edge(DependsOn, Some(depth + 1), 0, false, false)];
    var loop: seq<Uid> := seq(depth + 2, i => i) + [0];
    forall k | 0 <= k < |loop| - 1 ensures Waiting(all)(loop[k], loop[k + 1]) {
      assert SaysWaits(all[k], loop[k], loop[k + 1]);
    }
    assert Closed(Waiting(all), loop);
  }

  // ---- The table -----------------------------------------------------------------------------

  datatype Refusal = NotExplicit | Missing | SelfEdge | BadEndpoint | WouldCycle
  datatype Emitted = Created(id: nat) | Existing(id: nat) | Refused(why: Refusal)

  function Waiter(kind: EdgeType, src: Uid, dst: Uid): Uid {
    if kind == DependsOn then src else dst
  }

  function Waitee(kind: EdgeType, src: Uid, dst: Uid): Uid {
    if kind == DependsOn then dst else src
  }

  /** The active edge with this type and these ends. */
  predicate Matches(e: Edge, kind: EdgeType, src: Uid, dst: Uid) {
    e.kind == kind && e.src == Some(src) && e.dst == dst && !e.retracted
  }

  /** What one call may do to the table: nothing, append a guarded edge, or retract one. */
  ghost predicate TableStep(before: seq<Edge>, after: seq<Edge>) {
    || after == before
    || (exists e :: Guarded(before, e) && after == before + [e])
    || (exists id :: 0 <= id < |before| && after == before[id := before[id].(retracted := true)])
  }

  ghost predicate Guarded(before: seq<Edge>, e: Edge) {
    && e.src.Some? && !e.retracted
    && !ClosesCircle(before, e.kind, e.src.value, e.dst)
  }

  ghost predicate Present(edges: seq<Edge>, kind: EdgeType, src: Uid, dst: Uid) {
    exists i :: 0 <= i < |edges| && edges[i].kind == kind && edges[i].src == Some(src) && edges[i].dst == dst && !edges[i].retracted
  }

  /** The guard's verdict: what would be waited on already waits on the waiter, within the search depth. */
  ghost predicate ClosesCircle(edges: seq<Edge>, kind: EdgeType, src: Uid, dst: Uid) {
    Ordering(kind) && ReachesWithin(Waiting(edges), Waitee(kind, src, dst), Waiter(kind, src, dst), SEARCH_DEPTH)
  }

  class EdgeTable {
    /** Position is the edge id; retraction is a tombstone. */
    var edges: seq<Edge>
    /** The nodes the caller may see, with their types. */
    const nodes: map<Uid, NodeType>

    ghost predicate Admissible(kind: EdgeType, src: Uid, dst: Uid) {
      && kind !in {Produces, Updates} && src != dst && src in nodes && dst in nodes
      && (kind == AttachedTo ==> nodes[src] == Comment)
      && (kind in {Blocks, DependsOn} ==> nodes[src] == Task && (nodes[dst] == Task || nodes[dst] == Artifact))
    }

    constructor (nodes: map<Uid, NodeType>)
      ensures this.nodes == nodes && edges == []
    {
      this.nodes := nodes;
      edges := [];
    }

    method Successors(level: set<Uid>) returns (out: set<Uid>)
      ensures forall y :: y in out <==> exists x :: x in level && WaitsOn(edges, x, y)
    {
      out := {};
      for i := 0 to |edges|
        invariant forall y :: y in out <==> exists x, k :: x in level && 0 <= k < i && SaysWaits(edges[k], x, y)
      {
        var e := edges[i];
        if !e.retracted && e.src.Some? {
          if e.kind == DependsOn && e.src.value in level {
            assert SaysWaits(edges[i], e.src.value, e.dst);
            out := out + {e.dst};
          } else if e.kind == Blocks && e.dst in level {
            assert SaysWaits(edges[i], e.dst, e.src.value);
            out := out + {e.src.value};
          }
        }
      }
      forall y | y in out ensures exists x :: x in level && WaitsOn(edges, x, y) {
        var x, k :| x in level && 0 <= k < |edges| && SaysWaits(edges[k], x, y);
        assert WaitsOn(edges, x, y);
      }
    }

    /** The recursive query: one level of the frontier per unit of depth. */
    method WaitsTransitively(from: Uid, to: Uid) returns (found: bool)
      ensures found <==> ReachesWithin(Waiting(edges), from, to, SEARCH_DEPTH)
    {
      ghost var edge := Waiting(edges);
      var level, rows := {from}, {from};
      assert WalkFromTo(edge, [from], from, from);
      for d := 0 to SEARCH_DEPTH
        invariant forall y :: y in level <==> exists p :: WalkFromTo(edge, p, from, y) && |p| - 1 == d
        invariant forall y :: y in rows <==> ReachesWithin(edge, from, y, d)
      {
        var next := Successors(level);
        LevelAdvances(edges, from, d, level, next);
        level, rows := next, rows + next;
      }
      found := to in rows;
    }

    /** An explicitly emitted edge. */
    method EmitEdge(kind: EdgeType, src: Uid, dst: Uid) returns (r: Emitted)
      modifies this`edges
      ensures TableStep(old(edges), edges)
      ensures r.Created? ==> r.id == |old(edges)| && edges == old(edges) + [Edge(kind, Some(src), dst, false, false)]
      ensures !r.Created? ==> edges == old(edges)
      ensures r.Existing? ==> r.id < |edges| && edges[r.id] == Edge(kind, Some(src), dst, edges[r.id].indexer, false)
      ensures r == Refused(NotExplicit) <==> kind in {Produces, Updates}
      ensures r == Refused(SelfEdge) <==> kind !in {Produces, Updates} && src == dst
      ensures r == Refused(Missing) <==> kind !in {Produces, Updates} && src != dst && (src !in nodes || dst !in nodes)
      ensures r.Existing? <==> Admissible(kind, src, dst) && Present(old(edges), kind, src, dst)
      ensures r.Created? <==> Admissible(kind, src, dst) && !Present(old(edges), kind, src, dst) && !ClosesCircle(old(edges), kind, src, dst)
      ensures r == Refused(WouldCycle) <==> Admissible(kind, src, dst) && !Present(old(edges), kind, src, dst) && ClosesCircle(old(edges), kind, src, dst)
    {
      ExplicitIff(kind);
      if !Explicit(kind) { return Refused(NotExplicit); }
      if src == dst { return Refused(SelfEdge); }
      if src !in nodes || dst !in nodes { return Refused(Missing); }
      if kind == AttachedTo && nodes[src] != Comment { return Refused(BadEndpoint); }
      if Ordering(kind) && (nodes[src] != Task || nodes[dst] !in {Task, Artifact}) { return Refused(BadEndpoint); }
      for i := 0 to |edges|
        invariant edges == old(edges)
        invariant forall k :: 0 <= k < i ==> !Matches(edges[k], kind, src, dst)
      {
        if Matches(edges[i], kind, src, dst) { return Existing(i); }
      }
      if Ordering(kind) {
        var circular := WaitsTransitively(Waitee(kind, src, dst), Waiter(kind, src, dst));
        if circular { return Refused(WouldCycle); }
      }
      edges := edges + [Edge(kind, Some(src), dst, false, false)];
      return Created(|edges| - 1);
    }

    method RetractEdge(id: nat, service: bool) returns (ok: bool)
      modifies this`edges
      ensures ok <==>
        && id < |old(edges)| && !old(edges)[id].retracted && !old(edges)[id].indexer && (service || old(edges)[id].kind !in {Produces, Updates})
        && (old(edges)[id].src.Some? ==> old(edges)[id].src.value in nodes) && old(edges)[id].dst in nodes
      ensures edges == if ok then old(edges)[id := old(edges)[id].(retracted := true)] else old(edges)
      ensures TableStep(old(edges), edges)
    {
      if id >= |edges| || edges[id].retracted { return false; }
      var e := edges[id];
      ExplicitIff(e.kind);
      if !Explicit(e.kind) && !service { return false; }
      if e.indexer { return false; }
      if (e.src.Some? && e.src.value !in nodes) || e.dst !in nodes { return false; }
      edges := edges[id := e.(retracted := true)];
      return true;
    }
  }

  lemma LevelAdvances(edges: seq<Edge>, from: Uid, d: nat, level: set<Uid>, next: set<Uid>)
    requires forall y :: y in level <==> exists p :: WalkFromTo(Waiting(edges), p, from, y) && |p| - 1 == d
    requires forall y :: y in next <==> exists x :: x in level && WaitsOn(edges, x, y)
    ensures forall y :: y in next <==> exists p :: WalkFromTo(Waiting(edges), p, from, y) && |p| - 1 == d + 1
    ensures forall y :: ReachesWithin(Waiting(edges), from, y, d + 1) <==> ReachesWithin(Waiting(edges), from, y, d) || y in next
  {
    var edge := Waiting(edges);
    forall y | y in next
      ensures exists p :: WalkFromTo(edge, p, from, y) && |p| - 1 == d + 1
    {
      var x :| x in level && WaitsOn(edges, x, y);
      var p :| WalkFromTo(edge, p, from, x) && |p| - 1 == d;
      assert WalkFromTo(edge, p + [y], from, y);
    }
    forall y, p | WalkFromTo(edge, p, from, y) && |p| - 1 == d + 1
      ensures y in next
    {
      var init := p[..|p| - 1];
      assert WalkFromTo(edge, init, from, init[|init| - 1]);
      assert edge(p[|p| - 2], p[|p| - 1]);
    }
  }

  lemma StepKeepsShortCyclesOut(before: seq<Edge>, after: seq<Edge>)
    requires TableStep(before, after)
    requires NoCycleUpTo(Waiting(before), SEARCH_DEPTH + 1)
    ensures NoCycleUpTo(Waiting(after), SEARCH_DEPTH + 1)
  {
    if e :| Guarded(before, e) && after == before + [e] {
      var w, v := Waiter(e.kind, e.src.value, e.dst), Waitee(e.kind, e.src.value, e.dst);
      forall x, y | WaitsOn(after, x, y)
        ensures WaitsOn(before, x, y) || (Ordering(e.kind) && x == w && y == v)
      {
        var i :| 0 <= i < |after| && SaysWaits(after[i], x, y);
        if i < |before| { assert SaysWaits(before[i], x, y); }
      }
      if Ordering(e.kind) {
        NewEdgeKeepsShortCyclesOut(Waiting(before), Waiting(after), w, v, SEARCH_DEPTH);
      } else {
      }
    } else if id :| 0 <= id < |before| && after == before[id := before[id].(retracted := true)] {
      forall x, y | WaitsOn(after, x, y) ensures WaitsOn(before, x, y) {
        var i :| 0 <= i < |after| && SaysWaits(after[i], x, y);
        assert SaysWaits(before[i], x, y);
      }
    }
  }

  /**
   * Over any run of emissions and retractions from an empty table, nothing ever waits on itself through
   * at most 51 edges; with that few nodes, nothing waits on itself at all.
   */
  lemma {:induction false} RunsStayFreeOfShortCycles(history: seq<seq<Edge>>, nodes: set<Uid>)
    requires |history| > 0 && history[0] == []
    requires forall i :: 0 <= i < |history| - 1 ==> TableStep(history[i], history[i + 1])
    ensures NoCycleUpTo(Waiting(history[|history| - 1]), 51)
    ensures |nodes| <= 51 && WaitsWithin(history[|history| - 1], nodes) ==> Acyclic(Waiting(history[|history| - 1]))
  {
    var last := history[|history| - 1];
    if |history| == 1 {
      forall p ensures !Closed(Waiting(last), p) {
        if |p| >= 2 { assert !Waiting(last)(p[0], p[1]); }
      }
    } else {
      RunsStayFreeOfShortCycles(history[..|history| - 1], nodes);
      assert TableStep(history[|history| - 2], history[|history| - 1]);
      StepKeepsShortCyclesOut(history[|history| - 2], last);
    }
    if |nodes| <= SEARCH_DEPTH + 1 && WaitsWithin(last, nodes) {
      SmallGraphsAreAcyclic(Waiting(last), nodes, SEARCH_DEPTH + 1);
    }
  }
}
