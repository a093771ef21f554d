/**
 topologicalSort: Kahn's algorithm. It succeeds exactly on acyclic graphs; without broker nodes
 that is exactly when the graph validates.
 */
module TopologicalOrder {
  import opened Common
  import opened Utf16
  import opened Topology
  import opened CycleSearch
  import opened TopologyRules

  /** How many edges into `n` come from nodes not yet done. */
  function Waiting(edges: seq<GraphEdge>, n: Text, done: set<Text>): nat {
    if edges == [] then 0
    else
      var last := edges[|edges| - 1];
      Waiting(edges[..|edges| - 1], n, done) + if last.targetId == n && last.sourceId !in done then 1 else 0
  }

  function Into(edges: seq<GraphEdge>, n: Text): nat {
    if edges == [] then 0 else (if edges[0].targetId == n then 1 else 0) + Into(edges[1..], n)
  }

  lemma {:induction false} IntoPush(edges: seq<GraphEdge>, e: GraphEdge, n: Text)
    ensures Into(edges + [e], n) == Into(edges, n) + if e.targetId == n then 1 else 0
  {
    if edges != [] {
      assert (edges + [e])[1..] == edges[1..] + [e];
      IntoPush(edges[1..], e, n);
    }
  }

  /** Finishing a node releases the edges that leave it. */
  lemma {:induction false} WaitingDone(edges: seq<GraphEdge>, n: Text, done: set<Text>, c: Text)
    requires c !in done
    ensures Waiting(edges, n, done) == Waiting(edges, n, done + {c}) + Into(Leaving(edges, c), n)
  {
    if edges != [] {
      var front, last := edges[..|edges| - 1], edges[|edges| - 1];
      WaitingDone(front, n, done, c);
      IntoPush(Leaving(front, c), last, n);
      assert last.sourceId != c ==> Leaving(edges, c) == Leaving(front, c);
    }
  }

  lemma {:induction false} WaitingMeans(edges: seq<GraphEdge>, n: Text, done: set<Text>)
    ensures Waiting(edges, n, done) == 0 <==> forall e :: e in edges && e.targetId == n ==> e.sourceId in done
  {
    if edges != [] {
      WaitingMeans(edges[..|edges| - 1], n, done);
      assert edges == edges[..|edges| - 1] + [edges[|edges| - 1]];
    }
  }

  lemma {:induction false} DistinctSize(s: seq<Text>)
    requires Distinct(s)
    ensures |set n | n in s| == |s|
  {
    if s != [] {
      var front, last := s[..|s| - 1], s[|s| - 1];
      DistinctSize(front);
      assert (set n | n in s) == (set n | n in front) + {last};
    }
  }

  lemma {:induction false} SameSizeSameElements(s: seq<Text>, t: seq<Text>)
    requires Distinct(s) && Distinct(t) && (forall n :: n in s ==> n in t) && |s| == |t|
    ensures forall n :: n in t ==> n in s
  {
    DistinctSize(s);
    DistinctSize(t);
    var a, b := set n | n in s, set n | n in t;
    forall n | n in t ensures n in s {
      if n !in s {
        assert a <= b - {n};
        SubsetSize(a, b - {n});
      }
    }
  }

  // ---------- the state of the main loop ----------

  /** Every edge into a node of `order` comes from an earlier one. */
  ghost predicate Forward(edges: seq<GraphEdge>, order: seq<Text>) {
    forall k, e :: 0 <= k < |order| && e in edges && e.targetId == order[k] ==> e.sourceId in order[..k]
  }

  /** The in-degrees, with the edges in `pending` still to be taken off. */
  ghost predicate Counts(
    edges: seq<GraphEdge>, done: set<Text>, pending: seq<GraphEdge>, inDegree: map<Text, int>) {
    forall n :: n in inDegree ==> inDegree[n] == Waiting(edges, n, done) + Into(pending, n)
  }

  /** Nodes are done or queued once each, and those are the ones that wait for nothing. */
  ghost predicate Placed(inDegree: map<Text, int>, result: seq<Text>, queue: seq<Text>) {
    && Distinct(result + queue)
    && forall n :: n in result + queue <==> n in inDegree && inDegree[n] == 0
  }

  lemma {:induction false} ForwardPush(edges: seq<GraphEdge>, order: seq<Text>, done: set<Text>, n: Text)
    requires Forward(edges, order) && (forall m :: m in done <==> m in order) && Waiting(edges, n, done) == 0
    ensures Forward(edges, order + [n])
  {
    WaitingMeans(edges, n, done);
    forall k, e | 0 <= k < |order| + 1 && e in edges && e.targetId == (order + [n])[k]
      ensures e.sourceId in (order + [n])[..k]
    {
      assert (order + [n])[..k] == order[..k];
      assert order[..|order|] == order;
    }
  }

  /** In a graph with a finish order, only finished work leaves nothing waiting. */
  lemma {:induction false} NothingStuck(edges: seq<GraphEdge>, finish: seq<Text>, done: set<Text>, k: nat)
    requires Distinct(finish) && k <= |finish|
    requires forall e :: e in edges ==>
               e.sourceId in finish && IndexOf(finish, e.targetId) < IndexOf(finish, e.sourceId)
    requires forall n :: n in finish && Waiting(edges, n, done) == 0 ==> n in done
    ensures forall i :: k <= i < |finish| ==> finish[i] in done
    decreases |finish| - k
  {
    if k < |finish| {
      NothingStuck(edges, finish, done, k + 1);
      WaitingMeans(edges, finish[k], done);
      assert IndexOf(finish, finish[k]) == k;
    }
  }

  /** The nodes with no incoming edges, in insertion order, and everyone's in-degree. */
  method Prepare(nodes: seq<Text>, edges: seq<GraphEdge>) returns (inDegree: map<Text, int>, queue: seq<Text>)
    requires Distinct(nodes) && forall e :: e in edges ==> e.targetId in nodes
    ensures forall n :: n in inDegree <==> n in nodes
    ensures Counts(edges, {}, [], inDegree) && Placed(inDegree, [], queue)
  {
    inDegree := map[];
    for i := 0 to |nodes|
      invariant forall n :: n in inDegree <==> n in nodes[..i]
      invariant forall n :: n in inDegree ==> inDegree[n] == 0
    {
      inDegree := inDegree[nodes[i] := 0];
    }
    assert nodes[..|nodes|] == nodes;
    for i := 0 to |edges|
      invariant forall n :: n in inDegree <==> n in nodes
      invariant Counts(edges[..i], {}, [], inDegree)
    {
      var target := edges[i].targetId;
      assert edges[i] in edges;
      assert edges[..i + 1][..i] == edges[..i];
      inDegree := inDegree[target := (if inDegree[target] == 0 then 0 else inDegree[target]) + 1];
    }
    assert edges[..|edges|] == edges;
    queue := StartQueue(nodes, inDegree);
    assert [] + queue == queue;
  }

  method StartQueue(nodes: seq<Text>, inDegree: map<Text, int>) returns (queue: seq<Text>)
    requires Distinct(nodes) && forall n :: n in nodes ==> n in inDegree
    ensures Distinct(queue) && forall n :: n in queue <==> n in nodes && inDegree[n] == 0
  {
    queue := [];
    for i := 0 to |nodes|
      invariant Distinct(queue) && forall n :: n in queue <==> n in nodes[..i] && inDegree[n] == 0
    {
      if inDegree[nodes[i]] == 0 {
        queue := queue + [nodes[i]];
      }
    }
    assert nodes[..|nodes|] == nodes;
  }

  /** The counts and the queue after taking these edges off; a count of zero is read as one. */
  function Settled(inDegree: map<Text, int>, queue: seq<Text>, leaving: seq<GraphEdge>): (map<Text, int>, seq<Text>)
    requires forall e :: e in leaving ==> e.targetId in inDegree
    decreases leaving
  {
    if leaving == [] then (inDegree, queue)
    else
      var n := leaving[0].targetId;
      var left := (if inDegree[n] == 0 then 1 else inDegree[n]) - 1;
      Settled(inDegree[n := left], if left == 0 then queue + [n] else queue, leaving[1..])
  }

  lemma {:induction false} SettledFirst(inDegree: map<Text, int>, queue: seq<Text>, leaving: seq<GraphEdge>, j: nat)
    requires j < |leaving| && forall e :: e in leaving ==> e.targetId in inDegree
    ensures var n := leaving[j].targetId;
            var left := (if inDegree[n] == 0 then 1 else inDegree[n]) - 1;
            Settled(inDegree, queue, leaving[j..]) ==
            Settled(inDegree[n := left], if left == 0 then queue + [n] else queue, leaving[j + 1..])
  {
    assert leaving[j..][1..] == leaving[j + 1..];
  }

  /** An edge that leaves a node at its target: it was waiting there, so the target was not queued yet. */
  lemma {:induction false} ReleaseOne(
    edges: seq<GraphEdge>, done: set<Text>, leaving: seq<GraphEdge>,
    inDegree: map<Text, int>, result: seq<Text>, queue: seq<Text>)
    requires leaving != [] && Counts(edges, done, leaving, inDegree) && Placed(inDegree, result, queue)
    requires leaving[0].targetId in inDegree
    ensures var n := leaving[0].targetId;
            var left := inDegree[n] - 1;
            && left >= 0 && Counts(edges, done, leaving[1..], inDegree[n := left])
            && Placed(inDegree[n := left], result, if left == 0 then queue + [n] else queue)
  {
    var n := leaving[0].targetId;
    assert n !in result + queue;
    assert result + (queue + [n]) == (result + queue) + [n];
  }

  /** Afterwards the counts are those without these edges, and exactly the nodes at zero are done or queued. */
  lemma {:induction false} SettledReleases(
    edges: seq<GraphEdge>, done: set<Text>, leaving: seq<GraphEdge>,
    inDegree: map<Text, int>, result: seq<Text>, queue: seq<Text>)
    requires Counts(edges, done, leaving, inDegree) && Placed(inDegree, result, queue)
    requires forall e :: e in leaving ==> e.targetId in inDegree
    ensures var s := Settled(inDegree, queue, leaving);
            s.0.Keys == inDegree.Keys && Counts(edges, done, [], s.0) && Placed(s.0, result, s.1)
    decreases leaving
  {
    if leaving != [] {
      var n := leaving[0].targetId;
      var left := inDegree[n] - 1;
      ReleaseOne(edges, done, leaving, inDegree, result, queue);
      SettledReleases(edges, done, leaving[1..], inDegree[n := left], result, if left == 0 then queue + [n] else queue);
    }
  }

  /** Takes the edges of a node that is done off its neighbours' counts, and queues those that reach zero. */
  method Release(leaving: seq<GraphEdge>, inDegree: map<Text, int>, queue: seq<Text>)
    returns (inDegree': map<Text, int>, queue': seq<Text>)
    requires forall e :: e in leaving ==> e.targetId in inDegree
    ensures inDegree'.Keys == inDegree.Keys && (inDegree', queue') == Settled(inDegree, queue, leaving)
  {
    inDegree', queue' := inDegree, queue;
    assert leaving[0..] == leaving;
    for j := 0 to |leaving|
      invariant inDegree'.Keys == inDegree.Keys
      invariant Settled(inDegree, queue, leaving) == Settled(inDegree', queue', leaving[j..])
    {
      assert leaving[j] in leaving;
      SettledFirst(inDegree', queue', leaving, j);
      var neighbor := leaving[j].targetId;
      var newDeg := (if inDegree'[neighbor] == 0 then 1 else inDegree'[neighbor]) - 1;
      inDegree' := inDegree'[neighbor := newDeg];
      if newDeg == 0 {
        queue' := queue' + [neighbor];
      }
    }
  }

  /** What the main loop keeps. */
  ghost predicate Progress(
    edges: seq<GraphEdge>, out: Adjacency, done: set<Text>,
    inDegree: map<Text, int>, result: seq<Text>, queue: seq<Text>) {
    && inDegree.Keys == out.Keys
    && (forall n :: n in done <==> n in result)
    && Counts(edges, done, [], inDegree) && Placed(inDegree, result, queue)
    && Forward(edges, result)
  }

  /** The main loop: shift the queue, append to the result, release the node's edges. */
  method Drain(edges: seq<GraphEdge>, out: Adjacency, inDegree0: map<Text, int>, queue0: seq<Text>)
    returns (result: seq<Text>, ghost done: set<Text>)
    requires forall n :: n in out ==> out[n] == Leaving(edges, n)
    requires forall e :: e in edges ==> e.targetId in out
    requires Progress(edges, out, {}, inDegree0, [], queue0)
    ensures Distinct(result) && Forward(edges, result) && (forall n :: n in done <==> n in result)
    ensures forall n :: n in result <==> n in out && Waiting(edges, n, done) == 0
  {
    var inDegree, queue := inDegree0, queue0;
    result, done := [], {};
    while |queue| > 0
      invariant Progress(edges, out, done, inDegree, result, queue)
      decreases out.Keys - done
    {
      var current := queue[0];
      Finishing(edges, out, done, inDegree, result, queue);
      queue := queue[1..];
      result := result + [current];
      done := done + {current};
      SettledReleases(edges, done, out[current], inDegree, result, queue);
      inDegree, queue := Release(out[current], inDegree, queue);
    }
    assert result + [] == result;
  }

  /** Moving the head of the queue to the result leaves only its edges to take off. */
  lemma {:induction false} Finishing(
    edges: seq<GraphEdge>, out: Adjacency, done: set<Text>,
    inDegree: map<Text, int>, result: seq<Text>, queue: seq<Text>)
    requires forall n :: n in out ==> out[n] == Leaving(edges, n)
    requires forall e :: e in edges ==> e.targetId in out
    requires Progress(edges, out, done, inDegree, result, queue) && queue != []
    ensures queue[0] in out && queue[0] !in done
    ensures Counts(edges, done + {queue[0]}, out[queue[0]], inDegree)
    ensures Placed(inDegree, result + [queue[0]], queue[1..]) && Forward(edges, result + [queue[0]])
    ensures forall e :: e in out[queue[0]] ==> e.targetId in inDegree
  {
    var current := queue[0];
    assert (result + queue)[|result|] == current;
    assert forall i :: 0 <= i < |result| ==> (result + queue)[i] == result[i];
    assert current in result + queue && current !in result;
    ForwardPush(edges, result, done, current);
    assert (result + [current]) + queue[1..] == result + queue;
    forall n | n in inDegree ensures inDegree[n] == Waiting(edges, n, done + {current}) + Into(out[current], n) {
      WaitingDone(edges, n, done, current);
    }
    forall e | e in out[current] ensures e.targetId in inDegree {
      LeavingMeans(edges, current, e);
    }
  }

  ghost predicate NoBroker(g: Graph) {
    forall n :: n in g.nodes ==> g.nodes[n].kind != MESSAGE_BROKER
  }

  /** It fails on every cycle, permitted or not. */
  method TopologicalSort(graph: TopologyGraph) returns (r: Option<seq<Text>>)
    requires graph.State().Agrees()
    ensures r.Some? <==> Acyclic(graph.outgoing)
    ensures r.Some? ==> Lists(graph.outgoing, r.value) && Forward(graph.State().EdgeList(), r.value)
    ensures Searchable(graph.State())
    ensures NoBroker(graph.State()) ==> forall guard :: r.Some? <==> Accepts(graph.State(), guard)
  {
    ghost var g := graph.State();
    var nodes, edges := graph.nodeOrder, graph.State().EdgeList();
    EdgesJoinNodes(g);
    AgreesSearchable(g);
    var inDegree, queue := Prepare(nodes, edges);
    var result, done := Drain(edges, graph.outgoing, inDegree, queue);
    Verdict(g, result, done);
    if NoBroker(g) {
      forall guard ensures Accepts(g, guard) <==> Acyclic(g.outgoing) {
        ValidWithoutBroker(g, guard);
      }
    }
    r := if |result| != |nodes| then None else Some(result);
  }

  // ---------- when an edge id is reused ----------

  /** Two nodes and two edges between them, both called `id`. */
  function Reused(a: Text, b: Text, id: Text, kind: EdgeKind): Graph {
    EmptyGraph.AddNode(GraphNode(a, a, SERVICE)).AddNode(GraphNode(b, b, SERVICE))
    .AddEdge(GraphEdge(id, a, b, kind)).AddEdge(GraphEdge(id, b, a, kind))
  }

  /** The queue of the main loop after `k` rounds. */
  function QueueAfter(out: Adjacency, inDegree: map<Text, int>, queue: seq<Text>, k: nat): seq<Text>
    requires Walkable(out) && inDegree.Keys == out.Keys && forall n :: n in queue ==> n in out
    decreases k
  {
    if k == 0 || queue == [] then queue
    else
      var s := Settled(inDegree, queue[1..], out[queue[0]]);
      SettledKeeps(inDegree, queue[1..], out[queue[0]]);
      QueueAfter(out, s.0, s.1, k - 1)
  }

  lemma {:induction false} SettledKeeps(inDegree: map<Text, int>, queue: seq<Text>, leaving: seq<GraphEdge>)
    requires forall e :: e in leaving ==> e.targetId in inDegree
    ensures var s := Settled(inDegree, queue, leaving);
            s.0.Keys == inDegree.Keys && forall n :: n in s.1 ==> n in queue || n in inDegree
    decreases leaving
  {
    if leaving != [] {
      var n := leaving[0].targetId;
      var left := (if inDegree[n] == 0 then 1 else inDegree[n]) - 1;
      SettledKeeps(inDegree[n := left], if left == 0 then queue + [n] else queue, leaving[1..]);
    }
  }

  lemma {:induction false} ReusedGraph(a: Text, b: Text, id: Text, kind: EdgeKind)
    requires a != b
    ensures var g := Reused(a, b, id, kind);
            && g.nodeOrder == [a, b] && g.outgoing == Ring(a, b, id, kind)
            && g.edgeOrder == [id] && g.edges == map[id := GraphEdge(id, b, a, kind)]
  {
    var there, back := GraphEdge(id, a, b, kind), GraphEdge(id, b, a, kind);
    var nodes := EmptyGraph.AddNode(GraphNode(a, a, SERVICE)).AddNode(GraphNode(b, b, SERVICE));
    assert nodes.nodeOrder == [a, b] && nodes.outgoing == map[a := [], b := []];
    assert nodes.edgeOrder == [] && nodes.edges == map[];
    assert [] + [there] == [there] && [] + [back] == [back] && [] + [id] == [id];
    var one := nodes.AddEdge(there);
    assert one.outgoing == map[a := [there], b := []] && one.edgeOrder == [id] && one.edges == map[id := there];
    assert one.AddEdge(back).outgoing == map[a := [there], b := [back]];
  }

  function Ring(a: Text, b: Text, id: Text, kind: EdgeKind): (out: Adjacency)
    requires a != b
    ensures Walkable(out) && out.Keys == {a, b}
  {
    map[a := [GraphEdge(id, a, b, kind)], b := [GraphEdge(id, b, a, kind)]]
  }

  lemma {:induction false} ReusedDisagrees(a: Text, b: Text, id: Text, kind: EdgeKind)
    requires a != b
    ensures !Reused(a, b, id, kind).Agrees()
  {
    var one := EmptyGraph.AddNode(GraphNode(a, a, SERVICE));
    AddNodeKeepsAgreement(EmptyGraph, GraphNode(a, a, SERVICE));
    AddNodeKeepsAgreement(one, GraphNode(b, b, SERVICE));
    var two := one.AddNode(GraphNode(b, b, SERVICE));
    AddEdgeKeepsAgreementIff(two, GraphEdge(id, a, b, kind));
    AddEdgeKeepsAgreementIff(two.AddEdge(GraphEdge(id, a, b, kind)), GraphEdge(id, b, a, kind));
  }

  lemma {:induction false} PassedOn(a: Text, b: Text, id: Text, kind: EdgeKind, here: Text, counts: map<Text, int>, k: nat)
    requires a != b && here in {a, b} && counts.Keys == {a, b}
    requires var next := if here == a then b else a; counts[next] in {0, 1}
    requires counts[here] == 0
    ensures QueueAfter(Ring(a, b, id, kind), counts, [here], k) != []
    decreases k
  {
    if k > 0 {
      var next := if here == a then b else a;
      var leaving := Ring(a, b, id, kind)[here];
      assert leaving[1..] == [] && [] + [next] == [next];
      assert Settled(counts, [], leaving) == (counts[next := 0], [next]);
      assert [here][1..] == [];
      PassedOn(a, b, id, kind, next, counts[next := 0], k - 1);
    }
  }

  /**
   With a reused edge id the sort need not end: here one edge is counted and two are followed, so
   the two nodes queue each other for ever.
  */
  lemma {:induction false} ReusedIdNeverEnds(a: Text, b: Text, id: Text, kind: EdgeKind, k: nat)
    requires a != b
    ensures var g := Reused(a, b, id, kind);
            && g.nodeOrder == [a, b] && g.outgoing == Ring(a, b, id, kind) && !g.Agrees()
            && g.edgeOrder == [id] && g.edges == map[id := GraphEdge(id, b, a, kind)]
    ensures Into([GraphEdge(id, b, a, kind)], a) == 1 && Into([GraphEdge(id, b, a, kind)], b) == 0
    ensures QueueAfter(Ring(a, b, id, kind), map[a := 1, b := 0], [b], k) != []
  {
    ReusedGraph(a, b, id, kind);
    ReusedDisagrees(a, b, id, kind);
    PassedOn(a, b, id, kind, b, map[a := 1, b := 0], k);
  }

  lemma {:induction false} CompleteIsAcyclic(g: Graph, result: seq<Text>)
    requires g.Agrees() && Forward(g.EdgeList(), result) && forall n :: n in g.nodes ==> n in result
    ensures Acyclic(g.outgoing)
  {
    forall e | Has(g.outgoing, e) ensures -IndexOf(result, e.targetId) < -IndexOf(result, e.sourceId) {
      HasEdgeMeans(g, e);
      var k := IndexOf(result, e.targetId);
      assert e.sourceId in result[..k];
      FirstBefore(result, e.sourceId, k);
    }
    RankedIsAcyclic(g.outgoing, n => -IndexOf(result, n));
  }

  lemma {:induction false} FirstBefore(s: seq<Text>, x: Text, k: int)
    requires 0 <= k <= |s| && x in s[..k]
    ensures 0 <= IndexOf(s, x) < k
  {
    if k < |s| {
      assert s[..|s| - 1][..k] == s[..k];
      FirstBefore(s[..|s| - 1], x, k);
    } else {
      assert s[..k] == s;
    }
  }

  lemma {:induction false} AcyclicIsComplete(g: Graph, done: set<Text>)
    requires g.Agrees() && Acyclic(g.outgoing)
    requires forall n :: n in g.nodes && Waiting(g.EdgeList(), n, done) == 0 ==> n in done
    ensures forall n :: n in g.nodes ==> n in done
  {
    var finish := FinishOrder(g);
    NothingStuck(g.EdgeList(), finish, done, 0);
    assert forall n :: n in g.nodes ==> n in finish;
  }

  lemma {:induction false} FinishOrder(g: Graph) returns (finish: seq<Text>)
    requires g.Agrees() && Acyclic(g.outgoing)
    ensures Lists(g.outgoing, finish)
    ensures forall e :: e in g.EdgeList() ==>
              e.sourceId in finish && IndexOf(finish, e.targetId) < IndexOf(finish, e.sourceId)
  {
    AgreesSearchable(g);
    NoCyclesIffAcyclic(g.outgoing, g.nodeOrder);
    finish := CyclesAreBackEdges(g.outgoing, g.nodeOrder);
    forall e | e in g.EdgeList()
      ensures e.sourceId in finish && IndexOf(finish, e.targetId) < IndexOf(finish, e.sourceId)
    {
      HasEdgeMeans(g, e);
      assert Has(g.outgoing, e);
    }
  }

  /** When the queue is empty, the result is complete exactly if there is no cycle. */
  lemma {:induction false} Verdict(g: Graph, result: seq<Text>, done: set<Text>)
    requires g.Agrees() && Distinct(result) && Forward(g.EdgeList(), result)
    requires forall n :: n in done <==> n in result
    requires forall n :: n in result <==> n in g.outgoing && Waiting(g.EdgeList(), n, done) == 0
    ensures |result| == |g.nodeOrder| <==> Acyclic(g.outgoing)
    ensures |result| == |g.nodeOrder| ==> Lists(g.outgoing, result)
  {
    if |result| == |g.nodeOrder| {
      SameSizeSameElements(result, g.nodeOrder);
      CompleteIsAcyclic(g, result);
    }
    if Acyclic(g.outgoing) {
      AcyclicIsComplete(g, done);
      DistinctSize(result);
      DistinctSize(g.nodeOrder);
      assert (set n | n in result) == (set n | n in g.nodeOrder);
    }
  }
}
