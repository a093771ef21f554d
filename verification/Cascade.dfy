/**
 CascadeAnalyzer: the nodes that can reach a target, found breadth first against the edges.
 Graphs may be cyclic; the answer is exact reachability, and depth is the largest distance.
 */
module Cascade {
  import opened Utf16

  datatype CallEdge = CallEdge(sourceNodeId: Text, targetNodeId: Text, edgeKind: Text)

  datatype CascadeAnalysisResult = CascadeAnalysisResult(
    targetNodeId: Text, upstreamNodeIds: seq<Text>, blastRadius: nat, depth: nat, isCascade: bool)

  datatype Entry = Entry(nodeId: Text, depth: nat)

  /** `n` calls `target` over exactly `k` edges. */
  ghost predicate Calls(edges: seq<CallEdge>, n: Text, target: Text, k: nat)
    decreases k
  {
    if k == 0 then n == target
    else exists e :: e in edges && e.sourceNodeId == n && Calls(edges, e.targetNodeId, target, k - 1)
  }

  /** The length of a shortest chain of calls. */
  ghost predicate Distance(edges: seq<CallEdge>, n: Text, target: Text, k: nat) {
    Calls(edges, n, target, k) && forall j: nat :: j < k ==> !Calls(edges, n, target, j)
  }

  ghost predicate Reaches(edges: seq<CallEdge>, n: Text, target: Text) {
    exists k: nat :: Calls(edges, n, target, k)
  }

  function Callers(edges: seq<CallEdge>, n: Text): seq<CallEdge> {
    if edges == [] then []
    else (if edges[0].targetNodeId == n then [edges[0]] else []) + Callers(edges[1..], n)
  }

  lemma {:induction false} CallersMeans(edges: seq<CallEdge>, n: Text, e: CallEdge)
    ensures e in Callers(edges, n) <==> e in edges && e.targetNodeId == n
  {
    if edges != [] {
      CallersMeans(edges[1..], n, e);
      assert edges == [edges[0]] + edges[1..];
    }
  }

  // ---------- what the search keeps ----------

  /** Each node found so far, with the depth at which it was found. */
  type Found = map<Text, nat>

  /** Every depth is the length of some chain of calls. */
  ghost predicate Witnessed(edges: seq<CallEdge>, target: Text, found: Found) {
    && target in found && found[target] == 0
    && forall n {:trigger Calls(edges, n, target, found[n])} :: n in found ==> Calls(edges, n, target, found[n])
  }

  /** The queue holds found nodes in order of depth, at most one apart. */
  ghost predicate Level(found: Found, queue: seq<Entry>, d: nat) {
    && (forall i :: 0 <= i < |queue| ==>
          queue[i].nodeId in found && found[queue[i].nodeId] == queue[i].depth && d <= queue[i].depth <= d + 1)
    && (forall i, j :: 0 <= i < j < |queue| ==> queue[i].depth <= queue[j].depth)
  }

  /** The callers of `n` have been found, at most one deeper. */
  ghost predicate Expanded(edges: seq<CallEdge>, found: Found, n: Text) {
    n in found && forall e :: e in edges && e.targetNodeId == n ==>
                    e.sourceNodeId in found && found[e.sourceNodeId] <= found[n] + 1
  }

  ghost predicate Queued(queue: seq<Entry>, n: Text) {
    exists i :: 0 <= i < |queue| && queue[i].nodeId == n
  }

  /** Found nodes are queued or expanded, and the expanded ones are no deeper than the queue. */
  ghost predicate Frontier(edges: seq<CallEdge>, found: Found, queue: seq<Entry>, current: set<Text>, d: nat) {
    && Level(found, queue, d)
    && forall n :: n in found ==>
         found[n] <= d + 1
         && (Queued(queue, n) || n in current || (Expanded(edges, found, n) && found[n] <= d))
  }

  /** The list of found nodes other than the target, nearest first. */
  ghost predicate Listed(target: Text, found: Found, upstream: seq<Text>) {
    && (forall n :: n in found <==> n == target || n in upstream)
    && target !in upstream
    && (forall i, j :: 0 <= i < j < |upstream| ==> upstream[i] != upstream[j] && found[upstream[i]] <= found[upstream[j]])
  }

  /** A chain of calls to the target stays among the found nodes once all are expanded. */
  lemma {:induction false} FoundIsClosed(edges: seq<CallEdge>, target: Text, found: Found, n: Text, k: nat)
    requires Witnessed(edges, target, found) && forall m :: m in found ==> Expanded(edges, found, m)
    requires Calls(edges, n, target, k)
    ensures n in found && found[n] <= k
    decreases k
  {
    if k > 0 {
      var e :| e in edges && e.sourceNodeId == n && Calls(edges, e.targetNodeId, target, k - 1);
      FoundIsClosed(edges, target, found, e.targetNodeId, k - 1);
      assert Expanded(edges, found, e.targetNodeId);
    }
  }

  /** So the depths are the distances. */
  lemma {:induction false} FoundIsExact(edges: seq<CallEdge>, target: Text, found: Found)
    requires Witnessed(edges, target, found) && forall m :: m in found ==> Expanded(edges, found, m)
    ensures forall n :: n in found <==> Reaches(edges, n, target)
    ensures forall n :: n in found ==> Distance(edges, n, target, found[n])
  {
    assert forall n :: n in found ==> Calls(edges, n, target, found[n]);
    forall n ensures n in found <==> Reaches(edges, n, target) {
      if Reaches(edges, n, target) {
        var k: nat :| Calls(edges, n, target, k);
        FoundIsClosed(edges, target, found, n, k);
      }
    }
    forall n, j: nat | n in found && j < found[n] ensures !Calls(edges, n, target, j) {
      if Calls(edges, n, target, j) {
        FoundIsClosed(edges, target, found, n, j);
      }
    }
  }

  lemma {:induction false} DistanceUnique(edges: seq<CallEdge>, n: Text, target: Text, j: nat, k: nat)
    requires Distance(edges, n, target, j) && Distance(edges, n, target, k)
    ensures j == k
  {
  }

  /** What Expand keeps for each caller it adds. */
  lemma {:induction false} AddWitness(edges: seq<CallEdge>, target: Text, found: Found, e: CallEdge)
    requires Witnessed(edges, target, found) && e in edges && e.targetNodeId in found && e.sourceNodeId !in found
    ensures Witnessed(edges, target, found[e.sourceNodeId := found[e.targetNodeId] + 1])
  {
    var more := found[e.sourceNodeId := found[e.targetNodeId] + 1];
    forall n | n in more ensures Calls(edges, n, target, more[n]) {
      if n == e.sourceNodeId {
        assert Calls(edges, e.targetNodeId, target, found[e.targetNodeId]);
        assert Calls(edges, e.targetNodeId, target, more[n] - 1);
      }
    }
  }

  lemma {:induction false} AddListed(target: Text, found: Found, upstream: seq<Text>, n: Text, d: nat)
    requires Listed(target, found, upstream) && n !in found && forall m :: m in found ==> found[m] <= d
    ensures Listed(target, found[n := d], upstream + [n])
  {
    assert forall i :: 0 <= i < |upstream| ==> upstream[i] in upstream;
  }

  lemma {:induction false} AddFrontier(
    edges: seq<CallEdge>, found: Found, queue: seq<Entry>, current: set<Text>, d: nat, n: Text)
    requires Frontier(edges, found, queue, current, d) && n !in found
    ensures Frontier(edges, found[n := d + 1], queue + [Entry(n, d + 1)], current, d)
  {
    var more, longer := found[n := d + 1], queue + [Entry(n, d + 1)];
    assert longer[|queue|].nodeId == n;
    forall m | m in found && Queued(queue, m) ensures Queued(longer, m) {
      var i :| 0 <= i < |queue| && queue[i].nodeId == m;
      assert longer[i].nodeId == m;
    }
    forall m | m in found && Expanded(edges, found, m) ensures Expanded(edges, more, m) {
    }
  }

  /** The node taken off the queue counts as expanded once its callers have been found. */
  lemma {:induction false} CloseFrontier(edges: seq<CallEdge>, found: Found, queue: seq<Entry>, c: Text, d: nat)
    requires Frontier(edges, found, queue, {c}, d) && Expanded(edges, found, c) && found[c] == d
    ensures Frontier(edges, found, queue, {}, d)
  {
  }

  /** Taking the head of the queue: it is the one node neither queued nor expanded. */
  lemma {:induction false} OpenFrontier(edges: seq<CallEdge>, found: Found, queue: seq<Entry>, d: nat)
    requires Frontier(edges, found, queue, {}, d) && queue != []
    ensures Frontier(edges, found, queue[1..], {queue[0].nodeId}, queue[0].depth)
  {
    forall n | n in found && Queued(queue, n) && n != queue[0].nodeId ensures Queued(queue[1..], n) {
      var i :| 0 <= i < |queue| && queue[i].nodeId == n;
      assert queue[1..][i - 1].nodeId == n;
    }
    forall i | 0 <= i < |queue[1..]| ensures queue[0].depth <= queue[1..][i].depth {
      assert queue[1..][i] == queue[i + 1];
    }
  }

  // ---------- the search ----------

  /** The target and everything that calls anything. */
  ghost function Nodes(edges: seq<CallEdge>, target: Text): set<Text> {
    {target} + set e | e in edges :: e.sourceNodeId
  }

  /** What the search keeps, `current` being the node in hand and `d` its depth. */
  ghost predicate Searching(
    edges: seq<CallEdge>, target: Text, found: Found, upstream: seq<Text>, visited: set<Text>,
    queue: seq<Entry>, current: set<Text>, d: nat) {
    && Witnessed(edges, target, found) && Listed(target, found, upstream) && visited == found.Keys
    && Frontier(edges, found, queue, current, d)
    && visited <= Nodes(edges, target)
  }

  /** The body of the loop over callers. */
  lemma {:induction false} AddCaller(
    edges: seq<CallEdge>, target: Text, found: Found, upstream: seq<Text>, visited: set<Text>,
    queue: seq<Entry>, current: set<Text>, d: nat, e: CallEdge,
    found': Found, upstream': seq<Text>, visited': set<Text>, queue': seq<Entry>)
    requires e in edges && e.targetNodeId in found && found[e.targetNodeId] == d && e.sourceNodeId !in found
    requires Searching(edges, target, found, upstream, visited, queue, current, d)
    requires found' == found[e.sourceNodeId := d + 1] && upstream' == upstream + [e.sourceNodeId]
    requires visited' == visited + {e.sourceNodeId} && queue' == queue + [Entry(e.sourceNodeId, d + 1)]
    ensures Searching(edges, target, found', upstream', visited', queue', current, d)
  {
    AddWitness(edges, target, found, e);
    AddListed(target, found, upstream, e.sourceNodeId, d + 1);
    AddFrontier(edges, found, queue, current, d, e.sourceNodeId);
  }

  /** The loop over the callers of the node at the head of the queue. */
  method Expand(
    edges: seq<CallEdge>, ghost target: Text, current: Entry, upstream0: seq<Text>, visited0: set<Text>,
    queue0: seq<Entry>, ghost found0: Found
  ) returns (upstream: seq<Text>, visited: set<Text>, queue: seq<Entry>, ghost found: Found)
    requires current.nodeId in found0 && found0[current.nodeId] == current.depth
    requires Searching(edges, target, found0, upstream0, visited0, queue0, {current.nodeId}, current.depth)
    ensures Searching(edges, target, found, upstream, visited, queue, {}, current.depth)
    ensures current.nodeId in found && found[current.nodeId] == current.depth
    ensures visited0 <= visited && (visited == visited0 ==> queue == queue0)
  {
    upstream, visited, queue, found := upstream0, visited0, queue0, found0;
    var callers := Callers(edges, current.nodeId);
    for i := 0 to |callers|
      invariant current.nodeId in found && found[current.nodeId] == current.depth
      invariant Searching(edges, target, found, upstream, visited, queue, {current.nodeId}, current.depth)
      invariant forall j :: 0 <= j < i ==> callers[j].sourceNodeId in visited
      invariant visited0 <= visited && (visited == visited0 ==> queue == queue0)
    {
      CallersMeans(edges, current.nodeId, callers[i]);
      upstream, visited, queue, found :=
        Enqueue(edges, target, current, callers[i], upstream, visited, queue, found);
    }
    CloseSearching(edges, target, found, upstream, visited, queue, current.nodeId, current.depth);
  }

  method Enqueue(
    ghost edges: seq<CallEdge>, ghost target: Text, current: Entry, caller: CallEdge,
    upstream0: seq<Text>, visited0: set<Text>, queue0: seq<Entry>, ghost found0: Found
  ) returns (upstream: seq<Text>, visited: set<Text>, queue: seq<Entry>, ghost found: Found)
    requires caller in edges && caller.targetNodeId == current.nodeId
    requires current.nodeId in found0 && found0[current.nodeId] == current.depth
    requires Searching(edges, target, found0, upstream0, visited0, queue0, {current.nodeId}, current.depth)
    ensures current.nodeId in found && found[current.nodeId] == current.depth
    ensures Searching(edges, target, found, upstream, visited, queue, {current.nodeId}, current.depth)
    ensures visited == visited0 + {caller.sourceNodeId} && (caller.sourceNodeId in visited0 ==> queue == queue0)
  {
    upstream, visited, queue, found := upstream0, visited0, queue0, found0;
    if caller.sourceNodeId !in visited {
      visited := visited + {caller.sourceNodeId};
      upstream := upstream + [caller.sourceNodeId];
      queue := queue + [Entry(caller.sourceNodeId, current.depth + 1)];
      found := found[caller.sourceNodeId := current.depth + 1];
      AddCaller(edges, target, found0, upstream0, visited0, queue0, {current.nodeId}, current.depth, caller,
                found, upstream, visited, queue);
    }
  }

  lemma {:induction false} CloseSearching(
    edges: seq<CallEdge>, target: Text, found: Found, upstream: seq<Text>, visited: set<Text>,
    queue: seq<Entry>, c: Text, d: nat)
    requires Searching(edges, target, found, upstream, visited, queue, {c}, d) && c in found && found[c] == d
    requires forall e :: e in Callers(edges, c) ==> e.sourceNodeId in visited
    ensures Searching(edges, target, found, upstream, visited, queue, {}, d)
  {
    forall e | e in edges && e.targetNodeId == c
      ensures e.sourceNodeId in found && found[e.sourceNodeId] <= d + 1
    {
      CallersMeans(edges, c, e);
    }
    CloseFrontier(edges, found, queue, c, d);
  }

  /** What the finished search says about distances. */
  lemma {:induction false} Conclude(
    edges: seq<CallEdge>, target: Text, found: Found, upstream: seq<Text>, visited: set<Text>,
    deepest: Text, maxDepth: nat)
    requires Searching(edges, target, found, upstream, visited, [], {}, maxDepth)
    requires deepest in found && found[deepest] == maxDepth
    ensures forall n :: n in upstream <==> n != target && Reaches(edges, n, target)
    ensures Distance(edges, deepest, target, maxDepth)
    ensures forall n, k: nat :: Distance(edges, n, target, k) ==> k <= maxDepth
    ensures forall i, j, a: nat, b: nat ::
              (0 <= i < j < |upstream| && Distance(edges, upstream[i], target, a) && Distance(edges, upstream[j], target, b))
              ==> a <= b
  {
    forall m | m in found ensures Expanded(edges, found, m) && found[m] <= maxDepth {
      assert !Queued([], m);
    }
    FoundIsExact(edges, target, found);
    forall n, k: nat | Distance(edges, n, target, k) ensures n in found && k == found[n] {
      assert Reaches(edges, n, target);
      DistanceUnique(edges, n, target, k, found[n]);
    }
  }

  method AnalyzeBlastRadius(targetNodeId: Text, edges: seq<CallEdge>) returns (r: CascadeAnalysisResult)
    ensures r.targetNodeId == targetNodeId
    ensures forall n :: n in r.upstreamNodeIds <==> n != targetNodeId && Reaches(edges, n, targetNodeId)
    ensures forall i, j :: 0 <= i < j < |r.upstreamNodeIds| ==> r.upstreamNodeIds[i] != r.upstreamNodeIds[j]
    ensures r.blastRadius == |r.upstreamNodeIds|
    ensures exists n :: Distance(edges, n, targetNodeId, r.depth)
    ensures forall n, k: nat :: Distance(edges, n, targetNodeId, k) ==> k <= r.depth
    ensures r.isCascade <==> exists n, k: nat :: Distance(edges, n, targetNodeId, k) && k >= 2
    ensures forall i, j, a: nat, b: nat ::
              (0 <= i < j < |r.upstreamNodeIds| && Distance(edges, r.upstreamNodeIds[i], targetNodeId, a)
               && Distance(edges, r.upstreamNodeIds[j], targetNodeId, b))
              ==> a <= b
  {
    var upstreamNodes: seq<Text> := [];
    var queue := [Entry(targetNodeId, 0)];
    var visited := {targetNodeId};
    var maxDepth: nat := 0;
    ghost var found: Found := map[targetNodeId := 0];
    ghost var deepest, d: nat := targetNodeId, 0;
    assert queue[0].nodeId == targetNodeId;
    while |queue| > 0
      invariant Searching(edges, targetNodeId, found, upstreamNodes, visited, queue, {}, d)
      invariant deepest in found && found[deepest] == maxDepth && d == maxDepth
      decreases Nodes(edges, targetNodeId) - visited, |queue|
    {
      var current := queue[0];
      OpenFrontier(edges, found, queue, d);
      if current.depth > maxDepth {
        maxDepth := current.depth;
      }
      deepest, d := current.nodeId, current.depth;
      upstreamNodes, visited, queue, found :=
        Expand(edges, targetNodeId, current, upstreamNodes, visited, queue[1..], found);
    }
    Conclude(edges, targetNodeId, found, upstreamNodes, visited, deepest, maxDepth);
    r := CascadeAnalysisResult(targetNodeId, upstreamNodes, |upstreamNodes|, maxDepth, maxDepth >= 2);
  }
}
