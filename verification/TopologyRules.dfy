/**
 classifyCycle and validateTopology.

 A graph that validates without a runaway guard has no all-synchronous closed walk, although
 not every cycle is classified. With a guard that promise is lost: an all-synchronous cycle can
 stay unreported behind a permitted one.
 */
module TopologyRules {
  import opened Common
  import opened Utf16
  import opened Topology
  import opened CycleSearch

  datatype RunawayGuard = RunawayGuard(maxHops: Option<int>, ttlSeconds: Option<real>, eventBudget: Option<int>)

  datatype CycleClassification = ALL_SYNCHRONOUS | ASYNC_EVENT_DRIVEN | MIXED

  datatype CycleResult = CycleResult(
    path: seq<Text>, edges: seq<GraphEdge>, classification: CycleClassification, permitted: bool)

  /** An error names the rejected cycle; its text is not part of this model. */
  datatype ValidationResult = ValidationResult(
    valid: bool, nodeCount: nat, edgeCount: nat, cycles: seq<CycleResult>, errors: seq<CycleResult>)

  predicate IsAsynchronous(kind: EdgeKind) {
    kind == KAFKA_PUBLISH || kind == KAFKA_CONSUME
  }

  predicate IsSynchronous(kind: EdgeKind)
    ensures IsSynchronous(kind) <==> !IsAsynchronous(kind)
  {
    match kind
    case SYNC_HTTP | SYNC_GRPC | DB_QUERY | CACHE_READ | CACHE_WRITE | OBJECT_READ | OBJECT_WRITE | EXTERNAL_HTTP => true
    case _ => false
  }

  predicate IsBroker(nodes: map<Text, GraphNode>, n: Text) {
    n in nodes && nodes[n].kind == MESSAGE_BROKER
  }

  /** A guard counts when one of its bounds is given and not zero. */
  predicate Bounds(guard: Option<RunawayGuard>) {
    && guard.Some?
    && (guard.value.maxHops !in {None, Some(0)}
        || guard.value.ttlSeconds !in {None, Some(0.0)}
        || guard.value.eventBudget !in {None, Some(0)})
  }

  lemma {:induction false} BoundsMeans(hops: Option<int>, ttl: Option<real>, budget: Option<int>)
    ensures !Bounds(None)
    ensures Bounds(Some(RunawayGuard(hops, ttl, budget))) <==>
            || (hops.Some? && hops.value != 0) || (ttl.Some? && ttl.value != 0.0)
            || (budget.Some? && budget.value != 0)
  {
  }

  /** A cycle needs an asynchronous edge and a broker; a synchronous edge besides needs a guard. */
  function ClassifyCycle(
    path: seq<Text>, edges: seq<GraphEdge>, nodes: map<Text, GraphNode>, guard: Option<RunawayGuard>
  ): (r: CycleResult)
    ensures r.path == path && r.edges == edges
  {
    var hasAsyncEdge := exists e :: e in edges && IsAsynchronous(e.kind);
    var hasSyncEdge := exists e :: e in edges && IsSynchronous(e.kind);
    var hasMessageBrokerNode := exists n :: n in path && IsBroker(nodes, n);
    if !hasAsyncEdge then
      CycleResult(path, edges, ALL_SYNCHRONOUS, false)
    else if hasAsyncEdge && !hasSyncEdge && hasMessageBrokerNode then
      CycleResult(path, edges, ASYNC_EVENT_DRIVEN, true)
    else if hasAsyncEdge && hasMessageBrokerNode then
      CycleResult(path, edges, MIXED, Bounds(guard))
    else
      CycleResult(path, edges, MIXED, false)
  }

  /** What the classification means, whatever the branch taken. */
  lemma {:induction false} ClassifyMeans(
    path: seq<Text>, edges: seq<GraphEdge>, nodes: map<Text, GraphNode>, guard: Option<RunawayGuard>, r: CycleResult)
    requires r == ClassifyCycle(path, edges, nodes, guard)
    ensures r.permitted <==>
            && (exists e :: e in edges && (e.kind == KAFKA_PUBLISH || e.kind == KAFKA_CONSUME))
            && (exists n :: n in path && n in nodes && nodes[n].kind == MESSAGE_BROKER)
            && ((forall e :: e in edges ==> e.kind == KAFKA_PUBLISH || e.kind == KAFKA_CONSUME) || Bounds(guard))
    ensures r.classification == ALL_SYNCHRONOUS <==>
            forall e :: e in edges ==> e.kind != KAFKA_PUBLISH && e.kind != KAFKA_CONSUME
    ensures r.classification == ASYNC_EVENT_DRIVEN <==>
            && (exists n :: n in path && n in nodes && nodes[n].kind == MESSAGE_BROKER)
            && edges != [] && forall e :: e in edges ==> e.kind == KAFKA_PUBLISH || e.kind == KAFKA_CONSUME
  {
    assert forall n :: n in path && n in nodes ==> (IsBroker(nodes, n) <==> nodes[n].kind == MESSAGE_BROKER);
    assert edges == [] || edges[0] in edges;
  }

  /** Whether a report is permitted. */
  predicate Permitted(c: Cycle, nodes: map<Text, GraphNode>, guard: Option<RunawayGuard>) {
    ClassifyCycle(c.path, c.edges, nodes, guard).permitted
  }

  function Rejected(cycles: seq<CycleResult>): seq<CycleResult> {
    if cycles == [] then []
    else
      var last := cycles[|cycles| - 1];
      Rejected(cycles[..|cycles| - 1]) + if last.permitted then [] else [last]
  }

  lemma {:induction false} RejectedMeans(cycles: seq<CycleResult>)
    ensures Rejected(cycles) == [] <==> forall c :: c in cycles ==> c.permitted
    ensures forall c :: c in Rejected(cycles) <==> c in cycles && !c.permitted
  {
    if cycles != [] {
      RejectedMeans(cycles[..|cycles| - 1]);
      assert cycles == cycles[..|cycles| - 1] + [cycles[|cycles| - 1]];
    }
  }

  /** `p` rises and says where in `cycles` the elements of `listed` stand. */
  ghost predicate StandAt(cycles: seq<CycleResult>, listed: seq<CycleResult>, p: seq<nat>) {
    && |p| == |listed| && (forall i :: 0 <= i < |p| ==> p[i] < |cycles| && listed[i] == cycles[p[i]])
    && forall i, j :: 0 <= i < j < |p| ==> p[i] < p[j]
  }

  lemma {:induction false} StandAtLonger(front: seq<CycleResult>, last: CycleResult, listed: seq<CycleResult>, p: seq<nat>)
    requires StandAt(front, listed, p)
    ensures StandAt(front + [last], listed, p) && StandAt(front + [last], listed + [last], p + [|front|])
  {
  }

  /** The errors are the results that are not permitted, in the order of the results: `p` says where they stand. */
  lemma {:induction false} RejectedInOrder(cycles: seq<CycleResult>) returns (p: seq<nat>)
    ensures StandAt(cycles, Rejected(cycles), p)
    ensures forall c :: c in Rejected(cycles) <==> c in cycles && !c.permitted
    ensures |Rejected(cycles)| == |set k: nat | k < |cycles| && !cycles[k].permitted|
  {
    p := PositionsOfRejected(cycles);
    RejectedMeans(cycles);
    RejectedCounted(cycles);
  }

  lemma {:induction false} PositionsOfRejected(cycles: seq<CycleResult>) returns (p: seq<nat>)
    ensures StandAt(cycles, Rejected(cycles), p)
  {
    p := [];
    if cycles != [] {
      var front, last := cycles[..|cycles| - 1], cycles[|cycles| - 1];
      var q := PositionsOfRejected(front);
      StandAtLonger(front, last, Rejected(front), q);
      assert cycles == front + [last];
      p := if last.permitted then q else q + [|front|];
      assert last.permitted ==> Rejected(cycles) == Rejected(front);
    }
  }

  lemma {:induction false} RejectedCounted(cycles: seq<CycleResult>)
    ensures |Rejected(cycles)| == |set k: nat | k < |cycles| && !cycles[k].permitted|
  {
    if cycles != [] {
      var front, last := cycles[..|cycles| - 1], cycles[|cycles| - 1];
      RejectedCounted(front);
      var before := set k: nat | k < |front| && !front[k].permitted;
      var all := set k: nat | k < |cycles| && !cycles[k].permitted;
      assert forall k: nat :: k < |front| ==> front[k] == cycles[k];
      assert all == if last.permitted then before else before + {|front|};
    }
  }

  /** What `valid` means: every reported cycle is permitted. */
  ghost predicate Accepts(g: Graph, guard: Option<RunawayGuard>)
    requires Searchable(g)
  {
    forall c :: c in Cycles(g.outgoing, g.nodeOrder) ==> Permitted(c, g.nodes, guard)
  }

  /** The loop over the raw cycles. */
  method ClassifyAll(rawCycles: seq<Cycle>, nodes: map<Text, GraphNode>, guard: Option<RunawayGuard>)
    returns (cycles: seq<CycleResult>, errors: seq<CycleResult>)
    ensures |cycles| == |rawCycles| && errors == Rejected(cycles)
    ensures forall i :: 0 <= i < |cycles| ==>
              cycles[i] == ClassifyCycle(rawCycles[i].path, rawCycles[i].edges, nodes, guard)
  {
    cycles, errors := [], [];
    for i := 0 to |rawCycles|
      invariant |cycles| == i && errors == Rejected(cycles)
      invariant forall j :: 0 <= j < i ==>
                  cycles[j] == ClassifyCycle(rawCycles[j].path, rawCycles[j].edges, nodes, guard)
    {
      var classified := ClassifyCycle(rawCycles[i].path, rawCycles[i].edges, nodes, guard);
      assert (cycles + [classified])[..i] == cycles;
      cycles := cycles + [classified];
      if !classified.permitted {
        errors := errors + [classified];
      }
    }
  }

  lemma {:induction false} NoErrorsMeans(
    rawCycles: seq<Cycle>, cycles: seq<CycleResult>, nodes: map<Text, GraphNode>, guard: Option<RunawayGuard>)
    requires |cycles| == |rawCycles|
    requires forall i :: 0 <= i < |cycles| ==>
               cycles[i] == ClassifyCycle(rawCycles[i].path, rawCycles[i].edges, nodes, guard)
    ensures Rejected(cycles) == [] <==> forall c :: c in rawCycles ==> Permitted(c, nodes, guard)
  {
    RejectedMeans(cycles);
    forall i | 0 <= i < |cycles| ensures cycles[i].permitted == Permitted(rawCycles[i], nodes, guard) {
    }
  }

  /** A cycle over a broker with an event edge, and with nothing but event edges unless a guard is in force. */
  ghost predicate Tolerated(c: Cycle, nodes: map<Text, GraphNode>, guard: Option<RunawayGuard>) {
    && (exists e :: e in c.edges && (e.kind == KAFKA_PUBLISH || e.kind == KAFKA_CONSUME))
    && (exists n :: n in c.path && n in nodes && nodes[n].kind == MESSAGE_BROKER)
    && ((forall e :: e in c.edges ==> e.kind == KAFKA_PUBLISH || e.kind == KAFKA_CONSUME) || Bounds(guard))
  }

  /** In terms of the kinds of edges and nodes of the reported cycles. */
  lemma {:induction false} AcceptsMeans(g: Graph, guard: Option<RunawayGuard>)
    requires Searchable(g)
    ensures Accepts(g, guard) <==>
            forall c :: c in Cycles(g.outgoing, g.nodeOrder) ==> Tolerated(c, g.nodes, guard)
  {
    forall c: Cycle | c in Cycles(g.outgoing, g.nodeOrder)
      ensures Permitted(c, g.nodes, guard) <==> Tolerated(c, g.nodes, guard)
    {
      ClassifyMeans(c.path, c.edges, g.nodes, guard, ClassifyCycle(c.path, c.edges, g.nodes, guard));
    }
  }

  lemma {:induction false} ValidatedMeans(g: Graph, guard: Option<RunawayGuard>, cycles: seq<CycleResult>)
    requires Searchable(g)
    requires var rawCycles := Cycles(g.outgoing, g.nodeOrder);
             |cycles| == |rawCycles| && forall i :: 0 <= i < |cycles| ==>
               cycles[i] == ClassifyCycle(rawCycles[i].path, rawCycles[i].edges, g.nodes, guard)
    ensures |Rejected(cycles)| == 0 <==> Accepts(g, guard)
    ensures |Rejected(cycles)| == 0 <==>
            forall c :: c in Cycles(g.outgoing, g.nodeOrder) ==> Tolerated(c, g.nodes, guard)
  {
    NoErrorsMeans(Cycles(g.outgoing, g.nodeOrder), cycles, g.nodes, guard);
    AcceptsMeans(g, guard);
  }

  method ValidateTopology(graph: TopologyGraph, guard: Option<RunawayGuard>) returns (r: ValidationResult)
    requires Searchable(graph.State())
    ensures r.valid <==> Accepts(graph.State(), guard)
    ensures r.valid <==>
            forall c :: c in Cycles(graph.outgoing, graph.nodeOrder) ==> Tolerated(c, graph.nodes, guard)
    ensures |r.cycles| == |Cycles(graph.outgoing, graph.nodeOrder)|
    ensures forall i :: 0 <= i < |r.cycles| ==>
              var c := Cycles(graph.outgoing, graph.nodeOrder)[i];
              r.cycles[i] == ClassifyCycle(c.path, c.edges, graph.nodes, guard)
    ensures r.errors == Rejected(r.cycles)
    ensures r.nodeCount == |graph.nodeOrder| && r.edgeCount == |graph.edgeOrder|
  {
    var rawCycles := DetectCycles(graph);
    var cycles, errors := ClassifyAll(rawCycles, graph.nodes, guard);
    ValidatedMeans(graph.State(), guard, cycles);
    r := ValidationResult(|errors| == 0, |graph.nodeOrder|, |graph.edgeOrder|, cycles, errors);
  }

  // ---------- what validation rules out ----------

  /** No closed walk has synchronous edges only. */
  ghost predicate NoSynchronousCycle(g: Graph) {
    forall es: seq<GraphEdge> :: ClosedWalk(g.outgoing, es) ==>
      exists e :: e in es && (e.kind == KAFKA_PUBLISH || e.kind == KAFKA_CONSUME)
  }

  lemma {:induction false} PermittedUnguarded(c: Cycle, nodes: map<Text, GraphNode>, guard: Option<RunawayGuard>)
    requires Permitted(c, nodes, guard) && !Bounds(guard)
    ensures forall e :: e in c.edges ==> e.kind == KAFKA_PUBLISH || e.kind == KAFKA_CONSUME
  {
  }

  /** Without a guard, a valid graph has no all-synchronous cycle, listed or not. */
  lemma {:induction false} ValidUnguarded(g: Graph, guard: Option<RunawayGuard>)
    requires Searchable(g)
    requires !Bounds(guard) && Accepts(g, guard)
    ensures forall es: seq<GraphEdge> :: ClosedWalk(g.outgoing, es) ==>
              exists e :: e in es && (e.kind == KAFKA_PUBLISH || e.kind == KAFKA_CONSUME)
    ensures NoSynchronousCycle(g)
  {
    forall es: seq<GraphEdge> | ClosedWalk(g.outgoing, es)
      ensures exists e :: e in es && (e.kind == KAFKA_PUBLISH || e.kind == KAFKA_CONSUME)
    {
      ClosedWalkIsCaught(g.outgoing, g.nodeOrder, es);
      var c :| c in Cycles(g.outgoing, g.nodeOrder) && SimpleCycle(g.outgoing, c) && c.edges[|c.edges| - 1] in es;
      PermittedUnguarded(c, g.nodes, guard);
      assert c.edges[|c.edges| - 1] in c.edges;
    }
  }

  /** Without a broker node, a graph is valid exactly when it is acyclic, whatever the guard. */
  lemma {:induction false} ValidWithoutBroker(g: Graph, guard: Option<RunawayGuard>)
    requires Searchable(g)
    requires forall n :: n in g.nodes ==> g.nodes[n].kind != MESSAGE_BROKER
    ensures Accepts(g, guard) <==> Acyclic(g.outgoing)
  {
    NoCyclesIffAcyclic(g.outgoing, g.nodeOrder);
    var cycles := Cycles(g.outgoing, g.nodeOrder);
    if cycles != [] {
      assert !Permitted(cycles[0], g.nodes, guard);
    }
  }

  // ---------- what a guard hides ----------

  const A: Text := [65]
  const B: Text := [66]
  const K: Text := [75]
  const PUBLISH: GraphEdge := GraphEdge([1], A, K, KAFKA_PUBLISH)
  const CONSUME: GraphEdge := GraphEdge([2], K, B, KAFKA_CONSUME)
  const BACK: GraphEdge := GraphEdge([3], B, A, SYNC_HTTP)
  const CALL: GraphEdge := GraphEdge([4], A, B, SYNC_HTTP)

  /** A publishes to K, which B consumes; A and B also call each other. */
  const HIDING: Graph := Graph(
    [A, K, B],
    map[A := GraphNode(A, [], SERVICE), K := GraphNode(K, [], MESSAGE_BROKER), B := GraphNode(B, [], SERVICE)],
    [[1], [2], [3], [4]], map[[1] := PUBLISH, [2] := CONSUME, [3] := BACK, [4] := CALL],
    map[A := [PUBLISH, CALL], K := [CONSUME], B := [BACK]],
    map[A := [BACK], K := [PUBLISH], B := [CONSUME, CALL]])

  lemma {:induction false} DistinctNames()
    ensures A != B && A != K && B != K
  {
    assert A[0] != B[0] && A[0] != K[0] && B[0] != K[0];
  }

  lemma {:induction false} LeavingFour(p: GraphEdge, q: GraphEdge, r: GraphEdge, t: GraphEdge, n: Text)
    ensures Leaving([p, q, r, t], n) ==
            (if p.sourceId == n then [p] else []) + (if q.sourceId == n then [q] else [])
            + (if r.sourceId == n then [r] else []) + (if t.sourceId == n then [t] else [])
    ensures Entering([p, q, r, t], n) ==
            (if p.targetId == n then [p] else []) + (if q.targetId == n then [q] else [])
            + (if r.targetId == n then [r] else []) + (if t.targetId == n then [t] else [])
  {
    LeavingTwo(p, q, n);
    LeavingPush([p, q], r, n);
    assert [p, q] + [r] == [p, q, r];
    LeavingPush([p, q, r], t, n);
    assert [p, q, r] + [t] == [p, q, r, t];
  }

  lemma {:induction false} LeavingTwo(p: GraphEdge, q: GraphEdge, n: Text)
    ensures Leaving([p, q], n) == (if p.sourceId == n then [p] else []) + (if q.sourceId == n then [q] else [])
    ensures Entering([p, q], n) == (if p.targetId == n then [p] else []) + (if q.targetId == n then [q] else [])
  {
    var none: seq<GraphEdge> := [];
    LeavingPush(none, p, n);
    assert none + [p] == [p];
    LeavingPush([p], q, n);
    assert [p] + [q] == [p, q];
  }

  lemma {:induction false} HidingEdges()
    ensures Distinct(HIDING.edgeOrder) && (forall i :: i in HIDING.edgeOrder <==> i in HIDING.edges)
    ensures HIDING.EdgeList() == [PUBLISH, CONSUME, BACK, CALL]
  {
    var ids := HIDING.edgeOrder;
    assert ids[0][0] == 1 && ids[1][0] == 2 && ids[2][0] == 3 && ids[3][0] == 4;
    var m := HIDING.edges;
    assert m[ids[0]] == PUBLISH && m[ids[1]] == CONSUME && m[ids[2]] == BACK && m[ids[3]] == CALL;
  }

  lemma {:induction false} HidingWellFormed()
    ensures HIDING.WellFormed()
  {
    DistinctNames();
    HidingEdges();
    assert HIDING.nodes.Keys == {A, K, B};
    forall i | i in HIDING.edges
      ensures HIDING.edges[i].id == i && HIDING.edges[i].sourceId in HIDING.nodes && HIDING.edges[i].targetId in HIDING.nodes
    {
      var ids := HIDING.edgeOrder;
      assert ids[0][0] == 1 && ids[1][0] == 2 && ids[2][0] == 3 && ids[3][0] == 4;
    }
  }

  lemma {:induction false} HidingAt(n: Text)
    requires n == A || n == K || n == B
    ensures n in HIDING.outgoing && HIDING.outgoing[n] == Leaving([PUBLISH, CONSUME, BACK, CALL], n)
    ensures n in HIDING.incoming && HIDING.incoming[n] == Entering([PUBLISH, CONSUME, BACK, CALL], n)
  {
    DistinctNames();
    LeavingFour(PUBLISH, CONSUME, BACK, CALL, n);
  }

  lemma {:induction false} HidingLists(n: Text)
    requires n in HIDING.nodes
    ensures n in HIDING.outgoing && HIDING.outgoing[n] == Leaving(HIDING.EdgeList(), n)
    ensures n in HIDING.incoming && HIDING.incoming[n] == Entering(HIDING.EdgeList(), n)
  {
    HidingEdges();
    HidingAt(n);
  }

  lemma {:induction false} HidingAgrees()
    ensures HIDING.Agrees()
  {
    HidingWellFormed();
    forall n | n in HIDING.nodes
      ensures HIDING.outgoing[n] == Leaving(HIDING.EdgeList(), n) && HIDING.incoming[n] == Entering(HIDING.EdgeList(), n)
    {
      HidingLists(n);
    }
  }

  lemma {:induction false} VisitIs(out: Adjacency, n: Text, s: Search, entered: Search)
    requires Walkable(out) && n in out && n !in s.visited
    requires entered == s.(visited := s.visited + {n}, stack := s.stack + [n])
    ensures Visit(out, n, s) ==
            var t := Scan(out, out[n], entered); t.(stack := s.stack, finished := t.finished + [n])
  {
    assert (s.stack + [n])[..|s.stack|] == s.stack;
  }

  lemma {:induction false} FollowIs(out: Adjacency, e: GraphEdge, s: Search)
    requires Walkable(out) && e.targetId in out && e.targetId !in s.stack && e.targetId !in s.visited
    ensures Follow(out, e, s) == Visit(out, e.targetId, s.(edgeStack := s.edgeStack + [e])).(edgeStack := s.edgeStack)
  {
    assert (s.edgeStack + [e])[..|s.edgeStack|] == s.edgeStack;
  }

  lemma {:induction false} ScanOne(out: Adjacency, e: GraphEdge, s: Search)
    requires Walkable(out) && e.targetId in out
    ensures Scan(out, [e], s) == Follow(out, e, s)
  {
    assert [e][1..] == [];
  }

  const MIXED_CYCLE: Cycle := Cycle([A, K, B, A], [PUBLISH, CONSUME, BACK])

  /** B, reached over both asynchronous edges, closes the mixed cycle. */
  lemma {:induction false} HidingAtB(out: Adjacency)
    requires Walkable(out) && out == HIDING.outgoing
    ensures Visit(out, B, Search({A, K}, [A, K], [PUBLISH, CONSUME], [], [])) ==
            Search({A, K, B}, [A, K], [PUBLISH, CONSUME], [MIXED_CYCLE], [B])
  {
    DistinctNames();
    var s := Search({A, K, B}, [A, K, B], [PUBLISH, CONSUME], [], []);
    assert [A, K] + [B] == [A, K, B] && {A, K} + {B} == {A, K, B};
    VisitIs(out, B, Search({A, K}, [A, K], [PUBLISH, CONSUME], [], []), s);
    ScanOne(out, BACK, s);
    assert IndexOf(s.stack, A) == 0;
    assert s.edgeStack + [BACK] == [PUBLISH, CONSUME, BACK] && s.stack + [A] == [A, K, B, A];
    assert Follow(out, BACK, s) == s.(detected := [MIXED_CYCLE]);
  }

  lemma {:induction false} HidingAtK(out: Adjacency)
    requires Walkable(out) && out == HIDING.outgoing
    ensures Visit(out, K, Search({A}, [A], [PUBLISH], [], [])) ==
            Search({A, K, B}, [A], [PUBLISH], [MIXED_CYCLE], [B, K])
  {
    DistinctNames();
    var s := Search({A, K}, [A, K], [PUBLISH], [], []);
    assert [A] + [K] == [A, K] && {A} + {K} == {A, K};
    VisitIs(out, K, Search({A}, [A], [PUBLISH], [], []), s);
    ScanOne(out, CONSUME, s);
    assert s.edgeStack + [CONSUME] == [PUBLISH, CONSUME];
    FollowIs(out, CONSUME, s);
    HidingAtB(out);
    assert [B] + [K] == [B, K];
  }

  lemma {:induction false} CallPasses(out: Adjacency, s: Search, t: Search)
    requires Walkable(out) && out == HIDING.outgoing && Follow(out, PUBLISH, s) == t
    requires B in t.visited && B !in t.stack
    ensures Scan(out, out[A], s) == t
  {
    DistinctNames();
    assert t.edgeStack + [CALL] == (t.edgeStack + [CALL])[..|t.edgeStack|] + [CALL];
    assert Follow(out, CALL, t) == t;
    ScanOne(out, CALL, t);
    assert out[A] == [PUBLISH, CALL] && [PUBLISH, CALL][1..] == [CALL];
  }

  lemma {:induction false} HidingPublishes(out: Adjacency)
    requires Walkable(out) && out == HIDING.outgoing
    ensures Follow(out, PUBLISH, Search({A}, [A], [], [], [])) == Search({A, K, B}, [A], [], [MIXED_CYCLE], [B, K])
  {
    DistinctNames();
    var s := Search({A}, [A], [], [], []);
    assert s.edgeStack + [PUBLISH] == [PUBLISH];
    FollowIs(out, PUBLISH, s);
    HidingAtK(out);
  }

  /** The call from A to B is looked at only when B is finished. */
  lemma {:induction false} HidingAtA(out: Adjacency)
    requires Walkable(out) && out == HIDING.outgoing
    ensures Visit(out, A, START) == Search({A, K, B}, [], [], [MIXED_CYCLE], [B, K, A])
  {
    DistinctNames();
    var s, t := Search({A}, [A], [], [], []), Search({A, K, B}, [A], [], [MIXED_CYCLE], [B, K]);
    HidingPublishes(out);
    CallPasses(out, s, t);
    VisitIs(out, A, START, s);
    assert [B, K] + [A] == [B, K, A];
  }

  lemma {:induction false} HidingReports()
    requires Walkable(HIDING.outgoing) && Lists(HIDING.outgoing, HIDING.nodeOrder)
    ensures Cycles(HIDING.outgoing, HIDING.nodeOrder) == [MIXED_CYCLE]
  {
    var out, order, t := HIDING.outgoing, HIDING.nodeOrder, Search({A, K, B}, [], [], [MIXED_CYCLE], [B, K, A]);
    HidingAtA(out);
    assert order[1..] == [K, B] && [K, B][1..] == [B] && |[B][1..]| == 0;
    assert Roots(out, [B], t) == t;
    assert Roots(out, [K, B], t) == t;
  }

  lemma {:induction false} MixedPermitted(guard: Option<RunawayGuard>)
    requires Bounds(guard)
    ensures Permitted(MIXED_CYCLE, HIDING.nodes, guard)
  {
    assert MIXED_CYCLE.edges[0] == PUBLISH && MIXED_CYCLE.path[1] == K && IsBroker(HIDING.nodes, K);
  }

  lemma {:induction false} CallsBack()
    ensures !NoSynchronousCycle(HIDING)
  {
    DistinctNames();
    var es := [CALL, BACK];
    assert HIDING.outgoing[A][1] == CALL && HIDING.outgoing[B][0] == BACK;
    assert ClosedWalk(HIDING.outgoing, es);
  }

  /** Valid with any guard that counts, yet A and B call each other. */
  lemma {:induction false} GuardHides(guard: Option<RunawayGuard>)
    requires Bounds(guard)
    ensures HIDING.Agrees() && Searchable(HIDING)
    ensures Accepts(HIDING, guard) && !NoSynchronousCycle(HIDING)
  {
    HidingAgrees();
    AgreesSearchable(HIDING);
    HidingReports();
    MixedPermitted(guard);
    CallsBack();
  }

  /** `valid` excludes all-synchronous cycles from every graph exactly when no guard is in force. */
  lemma {:induction false} ValidMeansNoSynchronousCycleIff(guard: Option<RunawayGuard>)
    ensures (forall g: Graph :: Searchable(g) && Accepts(g, guard) ==> NoSynchronousCycle(g))
            <==> !Bounds(guard)
  {
    if Bounds(guard) {
      GuardHides(guard);
    } else {
      forall g: Graph | Searchable(g) && Accepts(g, guard)
        ensures NoSynchronousCycle(g)
      {
        ValidUnguarded(g, guard);
      }
    }
  }
}
