/**
 What a request may count on when it calls other nodes: its dependencies are started in rising
 call order up to the first that cannot be, and a call is refused exactly when the node's
 connections and its hundred waiting places are taken by outstanding completions.
 */
module Calls {
  import opened Common
  import opened Utf16
  import opened Canonical
  import opened Events
  import opened Resources
  import opened KernelSpec
  import opened RunnerSpec
  import opened Pending
  import opened RunnerInvariant
  import opened RunnerHandlers
  import opened Simulations
  import H = StateHash
  import R = Runs

  // ---------- call order ----------

  lemma {:induction false} InsertPosition(d: Dependency, sorted: seq<Dependency>) returns (k: nat)
    ensures k <= |sorted| && InsertDependency(d, sorted) == sorted[..k] + [d] + sorted[k..]
    ensures forall i :: 0 <= i < k ==> sorted[i].callOrder < d.callOrder
    ensures k < |sorted| ==> d.callOrder <= sorted[k].callOrder
  {
    k := 0;
    if sorted != [] && sorted[0].callOrder < d.callOrder {
      var j := InsertPosition(d, sorted[1..]);
      k := j + 1;
      assert sorted[..k] == [sorted[0]] + sorted[1..][..j] && sorted[k..] == sorted[1..][j..];
    }
  }

  /** `p` says where in `deps` each element of `sorted` comes from. */
  ghost predicate Positions(deps: seq<Dependency>, sorted: seq<Dependency>, p: seq<nat>) {
    |p| == |sorted| && forall i :: 0 <= i < |p| ==> p[i] < |deps| && sorted[i] == deps[p[i]]
  }

  /** Lower call orders first, and among equal ones the earlier position. */
  ghost predicate Stable(deps: seq<Dependency>, p: seq<nat>)
    requires forall i :: 0 <= i < |p| ==> p[i] < |deps|
  {
    forall i, j :: 0 <= i < j < |p| ==>
      || deps[p[i]].callOrder < deps[p[j]].callOrder
      || (deps[p[i]].callOrder == deps[p[j]].callOrder && p[i] < p[j])
  }

  function Shifted(q: seq<nat>): (r: seq<nat>)
    ensures |r| == |q| && forall i :: 0 <= i < |q| ==> r[i] == q[i] + 1
  {
    seq(|q|, i requires 0 <= i < |q| => q[i] + 1)
  }

  lemma {:induction false} ShiftedStable(deps: seq<Dependency>, rest: seq<Dependency>, q: seq<nat>)
    requires deps != [] && Positions(deps[1..], rest, q) && Stable(deps[1..], q)
    ensures Positions(deps, rest, Shifted(q)) && Stable(deps, Shifted(q))
  {
    forall i | 0 <= i < |q| ensures deps[Shifted(q)[i]] == deps[1..][q[i]] {}
  }

  lemma {:induction false} InsertStable(deps: seq<Dependency>, r: seq<nat>, k: nat)
    requires deps != [] && k <= |r| && forall i :: 0 <= i < |r| ==> 0 < r[i] < |deps|
    requires Stable(deps, r)
    requires forall i :: 0 <= i < k ==> deps[r[i]].callOrder < deps[0].callOrder
    requires k < |r| ==> deps[0].callOrder <= deps[r[k]].callOrder
    ensures var p := r[..k] + [0] + r[k..];
            (forall i :: 0 <= i < |p| ==> p[i] < |deps|) && Stable(deps, p)
  {
    var p := r[..k] + [0] + r[k..];
    forall i, j | 0 <= i < j < |p|
      ensures || deps[p[i]].callOrder < deps[p[j]].callOrder
              || (deps[p[i]].callOrder == deps[p[j]].callOrder && p[i] < p[j])
    {
      assert forall m :: 0 <= m < |p| ==> p[m] == if m < k then r[m] else if m == k then 0 else r[m - 1];
      if i == k {
        assert j - 1 > k ==> deps[r[k]].callOrder <= deps[r[j - 1]].callOrder;
      }
    }
  }

  lemma {:induction false} InsertPositions(deps: seq<Dependency>, rest: seq<Dependency>, r: seq<nat>, k: nat)
    requires deps != [] && k <= |r| && Positions(deps, rest, r)
    ensures Positions(deps, rest[..k] + [deps[0]] + rest[k..], r[..k] + [0] + r[k..])
  {
  }

  /**
   The dependencies are called in rising call order, and those of the same call order as they
   are listed: `p` names them by position.
  */
  lemma {:induction false} CallsInOrder(deps: seq<Dependency>) returns (p: seq<nat>)
    ensures |p| == |deps| == |SortDependencies(deps)|
    ensures forall i :: 0 <= i < |p| ==> p[i] < |deps| && SortDependencies(deps)[i] == deps[p[i]]
    ensures forall i, j :: 0 <= i < j < |p| ==>
              || deps[p[i]].callOrder < deps[p[j]].callOrder
              || (deps[p[i]].callOrder == deps[p[j]].callOrder && p[i] < p[j])
  {
    p := SortPositions(deps);
  }

  lemma {:induction false} SortPositions(deps: seq<Dependency>) returns (p: seq<nat>)
    ensures |p| == |deps| && Positions(deps, SortDependencies(deps), p) && Stable(deps, p)
  {
    p := [];
    if deps != [] {
      var rest := SortDependencies(deps[1..]);
      var q := SortPositions(deps[1..]);
      ShiftedStable(deps, rest, q);
      var k := InsertPosition(deps[0], rest);
      InsertStable(deps, Shifted(q), k);
      InsertPositions(deps, rest, Shifted(q), k);
      p := Shifted(q)[..k] + [0] + Shifted(q)[k..];
    }
  }

  // ---------- which calls wait, which do not ----------

  ghost predicate Increasing(p: seq<nat>) {
    forall i, j :: 0 <= i < j < |p| ==> p[i] < p[j]
  }

  lemma {:induction false} ShiftedFirst(deps: seq<Dependency>, kept: seq<Dependency>, q: seq<nat>, first: bool)
    requires deps != [] && Positions(deps[1..], kept, q) && Increasing(q)
    ensures var p := (if first then [0] else []) + Shifted(q);
            && Positions(deps, (if first then [deps[0]] else []) + kept, p) && Increasing(p)
            && forall j :: 0 <= j < |deps| ==> (j in p <==> if j == 0 then first else j - 1 in q)
  {
    var p := (if first then [0] else []) + Shifted(q);
    forall j: nat | 0 < j < |deps| ensures j in p <==> j - 1 in q { ShiftedHas(q, j); }
    ShiftedHas(q, 0);
    assert first ==> p[0] == 0;
  }

  lemma {:induction false} ShiftedHas(q: seq<nat>, j: nat)
    ensures j in Shifted(q) <==> j - 1 in q
  {
    if j - 1 in q {
      var i :| 0 <= i < |q| && q[i] == j - 1;
      assert Shifted(q)[i] == j;
    }
  }

  /** The calls that are waited for: all but the ASYNC ones, in order. */
  lemma {:induction false} SynchronousMeans(deps: seq<Dependency>) returns (p: seq<nat>)
    ensures Positions(deps, Synchronous(deps), p) && Increasing(p)
    ensures forall j :: 0 <= j < |deps| ==> (j in p <==> deps[j].executionMode != ASYNC)
  {
    p := [];
    if deps != [] {
      var q := SynchronousMeans(deps[1..]);
      ShiftedFirst(deps, Synchronous(deps[1..]), q, deps[0].executionMode != ASYNC);
      p := (if deps[0].executionMode != ASYNC then [0] else []) + Shifted(q);
    }
  }

  lemma {:induction false} AsynchronousMeans(deps: seq<Dependency>) returns (p: seq<nat>)
    ensures Positions(deps, Asynchronous(deps), p) && Increasing(p)
    ensures forall j :: 0 <= j < |deps| ==> (j in p <==> deps[j].executionMode == ASYNC)
  {
    p := [];
    if deps != [] {
      var q := AsynchronousMeans(deps[1..]);
      ShiftedFirst(deps, Asynchronous(deps[1..]), q, deps[0].executionMode == ASYNC);
      p := (if deps[0].executionMode == ASYNC then [0] else []) + Shifted(q);
    }
  }

  function Known(ops: map<Text, Operation>, deps: seq<Dependency>): seq<Dependency> {
    if deps == [] then []
    else (if deps[0].targetOperationName in ops then [deps[0]] else []) + Known(ops, deps[1..])
  }

  lemma {:induction false} AsyncAsksOfKnown(ops: map<Text, Operation>, deps: seq<Dependency>)
    ensures |AsyncAsks(ops, deps)| == |Known(ops, deps)|
    ensures forall i :: 0 <= i < |AsyncAsks(ops, deps)| ==>
              && Known(ops, deps)[i].targetOperationName in ops
              && AsyncAsks(ops, deps)[i] ==
                 ScheduleIn(500, Ascii("ASYNC_INVOKE"), AsyncInvoke(ops[Known(ops, deps)[i].targetOperationName]), 0)
  {
    if deps != [] { AsyncAsksOfKnown(ops, deps[1..]); }
  }

  lemma {:induction false} KnownMeans(ops: map<Text, Operation>, deps: seq<Dependency>) returns (p: seq<nat>)
    ensures Positions(deps, Known(ops, deps), p) && Increasing(p)
    ensures forall j :: 0 <= j < |deps| ==> (j in p <==> deps[j].targetOperationName in ops)
  {
    p := [];
    if deps != [] {
      var q := KnownMeans(ops, deps[1..]);
      ShiftedFirst(deps, Known(ops, deps[1..]), q, deps[0].targetOperationName in ops);
      p := (if deps[0].targetOperationName in ops then [0] else []) + Shifted(q);
    }
  }

  /** One event, half a millisecond ahead, for each call whose operation exists, in order. */
  lemma {:induction false} AsyncAsksMean(ops: map<Text, Operation>, deps: seq<Dependency>) returns (p: seq<nat>)
    ensures |p| == |AsyncAsks(ops, deps)| && Increasing(p)
    ensures forall i :: 0 <= i < |p| ==>
              && p[i] < |deps| && deps[p[i]].targetOperationName in ops
              && AsyncAsks(ops, deps)[i] ==
                 ScheduleIn(500, Ascii("ASYNC_INVOKE"), AsyncInvoke(ops[deps[p[i]].targetOperationName]), 0)
    ensures forall j :: 0 <= j < |deps| ==> (j in p <==> deps[j].targetOperationName in ops)
  {
    p := KnownMeans(ops, deps);
    AsyncAsksOfKnown(ops, deps);
  }

  // ---------- the first call that cannot be started ----------

  function CallsTo(deps: seq<Dependency>, n: Text): nat {
    if deps == [] then 0 else (if deps[0].targetNodeId == n then 1 else 0) + CallsTo(deps[1..], n)
  }

  /** The operation and the node exist, and the node has a place left after the calls before this one. */
  ghost predicate Startable(s: Runner, deps: seq<Dependency>, i: nat)
    requires i < |deps|
  {
    && deps[i].targetOperationName in s.ops && deps[i].targetNodeId in s.nodes
    && var pool := s.nodes[deps[i].targetNodeId].connPool;
       pool.active + pool.waiting + CallsTo(deps[..i], deps[i].targetNodeId) < pool.maxConnections + pool.maxWaiters
  }

  lemma {:induction false} ConnectMeans(s: Runner, n: Text)
    requires n in s.nodes && s.nodes[n].connPool.Valid()
    ensures var ((t, granted), pool) := (Connect(s, n), s.nodes[n].connPool);
            && (granted <==> pool.active + pool.waiting < pool.maxConnections + pool.maxWaiters)
            && t.ops == s.ops && t.nodes.Keys == s.nodes.Keys && t.requests == s.requests
            && (forall m :: m in s.nodes && m != n ==> t.nodes[m] == s.nodes[m])
            && var after := t.nodes[n].connPool;
               && after.Valid() && after.maxConnections == pool.maxConnections && after.maxWaiters == pool.maxWaiters
               && (granted ==> after.active + after.waiting == pool.active + pool.waiting + 1)
  {
    ConnectionPoolConserves(s.nodes[n].connPool);
  }

  lemma {:induction false} StartableLater(s: Runner, t: Runner, deps: seq<Dependency>, i: nat)
    requires deps != [] && i < |deps| - 1 && deps[0].targetNodeId in s.nodes
    requires s.nodes[deps[0].targetNodeId].connPool.Valid()
    requires Connect(s, deps[0].targetNodeId) == (t, true)
    ensures Startable(t, deps[1..], i) <==> Startable(s, deps, i + 1)
  {
    ConnectMeans(s, deps[0].targetNodeId);
    assert deps[..i + 1][1..] == deps[1..][..i];
  }

  /** Calls are started in order up to the first that cannot be, each for its target's base latency and a millisecond. */
  lemma {:induction false} StartsUntilRefused(s: Runner, r: nat, deps: seq<Dependency>, now: int)
    requires r < |s.requests| && forall n :: n in s.nodes ==> s.nodes[n].connPool.Valid()
    ensures var asks := StartDependencies(s, r, deps, now).1;
            && |asks| <= |deps|
            && (forall i :: 0 <= i < |asks| ==>
                  && Startable(s, deps, i)
                  && asks[i] == ScheduleIn(s.ops[deps[i].targetOperationName].baseLatencyUs + 1000,
                                           Ascii("DEP_COMPLETE"), DepComplete(r, deps[i].targetNodeId), 0))
            && (|asks| < |deps| ==> !Startable(s, deps, |asks|))
    decreases |deps|
  {
    if deps != [] && deps[0].targetOperationName in s.ops && deps[0].targetNodeId in s.nodes {
      var (t, granted) := Connect(s, deps[0].targetNodeId);
      ConnectMeans(s, deps[0].targetNodeId);
      assert Startable(s, deps, 0) <==> granted;
      if granted {
        StartsUntilRefused(t, r, deps[1..], now);
        StartsOneMore(s, t, r, deps, now);
      }
    }
  }

  lemma {:induction false} StartsOneMore(s: Runner, t: Runner, r: nat, deps: seq<Dependency>, now: int)
    requires r < |s.requests| && deps != [] && deps[0].targetOperationName in s.ops && deps[0].targetNodeId in s.nodes
    requires s.nodes[deps[0].targetNodeId].connPool.Valid() && Connect(s, deps[0].targetNodeId) == (t, true)
    requires Startable(s, deps, 0) && r < |t.requests|
    requires var asks := StartDependencies(t, r, deps[1..], now).1;
             && |asks| <= |deps[1..]|
             && (forall i :: 0 <= i < |asks| ==>
                   && Startable(t, deps[1..], i)
                   && asks[i] == ScheduleIn(t.ops[deps[1..][i].targetOperationName].baseLatencyUs + 1000,
                                            Ascii("DEP_COMPLETE"), DepComplete(r, deps[1..][i].targetNodeId), 0))
             && (|asks| < |deps[1..]| ==> !Startable(t, deps[1..], |asks|))
    ensures var asks := StartDependencies(s, r, deps, now).1;
            && |asks| <= |deps|
            && (forall i :: 0 <= i < |asks| ==>
                  && Startable(s, deps, i)
                  && asks[i] == ScheduleIn(s.ops[deps[i].targetOperationName].baseLatencyUs + 1000,
                                           Ascii("DEP_COMPLETE"), DepComplete(r, deps[i].targetNodeId), 0))
            && (|asks| < |deps| ==> !Startable(s, deps, |asks|))
  {
    var rest := StartDependencies(t, r, deps[1..], now).1;
    ConnectMeans(s, deps[0].targetNodeId);
    forall i | 0 <= i < |deps| - 1 ensures Startable(t, deps[1..], i) <==> Startable(s, deps, i + 1) {
      StartableLater(s, t, deps, i);
    }
    var asks := StartDependencies(s, r, deps, now).1;
    assert |asks| == |rest| + 1 && forall i :: 0 < i <= |rest| ==> asks[i] == rest[i - 1];
    forall i | 0 < i <= |rest|
      ensures && Startable(s, deps, i)
              && asks[i] == ScheduleIn(s.ops[deps[i].targetOperationName].baseLatencyUs + 1000,
                                       Ascii("DEP_COMPLETE"), DepComplete(r, deps[i].targetNodeId), 0)
    {
      assert Startable(t, deps[1..], i - 1) && deps[1..][i - 1] == deps[i];
    }
  }

  // ---------- limits stay as configured ----------

  /** Every node has the limits it was configured with, and a hundred places to wait for a connection. */
  ghost predicate Configured(s: Runner, nodes: map<Text, NodeConfig>) {
    && s.nodes.Keys == nodes.Keys
    && forall n :: n in nodes ==>
         && s.nodes[n].cpu.cores == nodes[n].cpuCores
         && s.nodes[n].threadpool.workerCount == nodes[n].threadPoolSize
         && s.nodes[n].threadpool.queueCapacity == nodes[n].threadPoolQueueCapacity
         && s.nodes[n].connPool.maxConnections == nodes[n].connectionPoolSize
         && s.nodes[n].connPool.maxWaiters == 100
  }

  lemma {:induction false} NewIsConfigured(ops: map<Text, Operation>, nodes: map<Text, NodeConfig>)
    ensures Configured(NewRunner(ops, nodes), nodes) && NewRunner(ops, nodes).ops == ops
    ensures forall n :: n in nodes ==>
              var node := NewRunner(ops, nodes).nodes[n];
              && node.cpu.active == node.threadpool.active == node.threadpool.queued == 0
              && node.connPool.active == node.connPool.waiting == 0
  {
  }

  lemma {:induction false} ReplacedConfigured(s: Runner, n: Text, node: Node, nodes: map<Text, NodeConfig>)
    requires Configured(s, nodes) && n in s.nodes
    requires node.cpu.cores == s.nodes[n].cpu.cores
    requires node.threadpool.workerCount == s.nodes[n].threadpool.workerCount
    requires node.threadpool.queueCapacity == s.nodes[n].threadpool.queueCapacity
    requires node.connPool.maxConnections == s.nodes[n].connPool.maxConnections
    requires node.connPool.maxWaiters == s.nodes[n].connPool.maxWaiters
    ensures Configured(s.(nodes := s.nodes[n := node]), nodes)
  {
  }

  lemma {:induction false} ReleaseThreadConfigured(s: Runner, r: nat, nodes: map<Text, NodeConfig>)
    requires Configured(s, nodes) && r < |s.requests|
    ensures Configured(ReleaseThread(s, r), nodes)
  {
    if HasRoot(s, r) {
      var n := RootOp(s, r).nodeId;
      ReplacedConfigured(s, n, s.nodes[n].(threadpool := s.nodes[n].threadpool.Release().0), nodes);
    }
  }

  lemma {:induction false} ReleasesConfigured(s: Runner, n: Text, nodes: map<Text, NodeConfig>)
    requires Configured(s, nodes)
    ensures Configured(ReleaseCpu(s, n), nodes) && Configured(ReleaseConnection(s, n), nodes)
  {
    if n in s.nodes {
      ReplacedConfigured(s, n, s.nodes[n].(cpu := s.nodes[n].cpu.Release()), nodes);
      ReplacedConfigured(s, n, s.nodes[n].(connPool := s.nodes[n].connPool.Release().0), nodes);
    }
  }

  lemma {:induction false} SameNodesConfigured(s: Runner, t: Runner, nodes: map<Text, NodeConfig>)
    requires Configured(s, nodes) && t.nodes == s.nodes
    ensures Configured(t, nodes)
  {
  }

  lemma {:induction false} FinishConfigured(s: Runner, r: nat, now: int, nodes: map<Text, NodeConfig>)
    requires Configured(s, nodes) && r < |s.requests|
    ensures Configured(FinishRequest(s, r, now), nodes) && Configured(Fail(s, r, now), nodes)
  {
    var failed := s.(requests := s.requests[r := s.requests[r].(status := FAILED)]);
    SameNodesConfigured(s, failed, nodes);
    ReleaseThreadConfigured(s, r, nodes);
    ReleaseThreadConfigured(failed, r, nodes);
    SameNodesConfigured(ReleaseThread(s, r), FinishRequest(s, r, now), nodes);
    SameNodesConfigured(ReleaseThread(failed, r), FinishRequest(failed, r, now), nodes);
  }

  lemma {:induction false} ConnectConfigured(s: Runner, n: Text, nodes: map<Text, NodeConfig>)
    requires Configured(s, nodes) && n in s.nodes
    ensures Configured(Connect(s, n).0, nodes)
  {
  }

  lemma {:induction false} StartConfigured(s: Runner, r: nat, deps: seq<Dependency>, now: int, nodes: map<Text, NodeConfig>)
    requires Configured(s, nodes) && r < |s.requests|
    ensures Configured(StartDependencies(s, r, deps, now).0, nodes)
    decreases |deps|
  {
    if deps != [] {
      if deps[0].targetOperationName in s.ops && deps[0].targetNodeId in s.nodes {
        var (t, granted) := Connect(s, deps[0].targetNodeId);
        ConnectConfigured(s, deps[0].targetNodeId, nodes);
        if granted { StartConfigured(t, r, deps[1..], now, nodes); } else { FinishConfigured(t, r, now, nodes); }
      } else {
        FinishConfigured(s, r, now, nodes);
      }
    }
  }

  lemma {:induction false} ArrivalConfigured(s: Runner, id: Text, name: Text, now: int, nodes: map<Text, NodeConfig>)
    requires Configured(s, nodes)
    ensures Configured(OnArrival(s, id, name, now).0, nodes)
  {
  }

  lemma {:induction false} HandleConfigured(s: Runner, e: Event, nodes: map<Text, NodeConfig>)
    requires Configured(s, nodes)
    ensures Configured(HandleEvent(s, e, e.timeUs).0, nodes)
  {
    match e.payload
    case Arrival(id, name) => ArrivalConfigured(s, id, name, e.timeUs, nodes);
    case LocalOpComplete(r, op) => if r < |s.requests| { LocalConfigured(s, r, op, e.timeUs, nodes); }
    case DepComplete(r, n) => if r < |s.requests| { DepConfigured(s, r, n, e.timeUs, nodes); }
    case AsyncInvoke(_) =>
  }

  lemma {:induction false} LocalConfigured(s: Runner, r: nat, op: Operation, now: int, nodes: map<Text, NodeConfig>)
    requires Configured(s, nodes) && r < |s.requests|
    ensures Configured(OnLocalOpComplete(s, r, op, now).0, nodes)
  {
    var idle := ReleaseCpu(s, op.nodeId);
    ReleasesConfigured(s, op.nodeId, nodes);
    FinishConfigured(idle, r, now, nodes);
    var sync := Synchronous(SortDependencies(op.dependencies));
    var waiting := idle.(requests := s.requests[r := s.requests[r].(pendingDependencies := |sync|)]);
    SameNodesConfigured(idle, waiting, nodes);
    StartConfigured(waiting, r, sync, now, nodes);
  }

  lemma {:induction false} DepConfigured(s: Runner, r: nat, n: Text, now: int, nodes: map<Text, NodeConfig>)
    requires Configured(s, nodes) && r < |s.requests|
    ensures Configured(OnDepComplete(s, r, n, now), nodes)
  {
    ReleasesConfigured(s, n, nodes);
    SameNodesConfigured(ReleaseConnection(s, n), Decremented(s, r, n), nodes);
    FinishConfigured(Decremented(s, r, n), r, now, nodes);
  }

  ghost predicate HoldsConfigured(m: Machine<Payload, Runner>, nodes: map<Text, NodeConfig>) {
    SimInvariant(m) && Configured(m.env, nodes)
  }

  lemma {:induction false} StepConfigured(
    reading: (Runner, Payload) -> Json, sha: H.Digest, m: Machine<Payload, Runner>, nodes: map<Text, NodeConfig>)
    requires HoldsConfigured(m, nodes)
    ensures HoldsConfigured(MachineStep(SimulationProgram(reading, sha), m).next, nodes)
  {
    StepKeeps(reading, sha, m);
    var ds :| Holds(m, ds);
    if Front(m.kernel.queue).None? {
      StepFindsNothing(SimulationProgram(reading, sha), m);
    } else {
      StepHandles(reading, sha, m, ds, Front(m.kernel.queue).value);
      HandleConfigured(m.env, Front(m.kernel.queue).value, nodes);
    }
  }

  lemma {:induction false} AfterConfigured(
    ops: map<Text, Operation>, nodes: map<Text, NodeConfig>, arrivals: seq<ArrivalSpec>,
    reading: (Runner, Payload) -> Json, sha: H.Digest, n: nat)
    requires Runnable(ops, nodes, arrivals)
    ensures Configured(After(ops, nodes, arrivals, reading, sha, n).env, nodes)
  {
    var inv := (m: Machine<Payload, Runner>) => HoldsConfigured(m, nodes);
    var step := Stepper(SimulationProgram(reading, sha));
    NewIsConfigured(ops, nodes);
    StartInvariant(ops, nodes, arrivals);
    forall m: Machine<Payload, Runner> | inv(m) ensures inv(step(m).next) {
      StepConfigured(reading, sha, m, nodes);
    }
    R.RunKeeps(step, inv, Start(ops, nodes, arrivals), n);
  }

  /**
   In every reachable state a call to a node is refused exactly when connectionPoolSize + 100
   calls to it are outstanding, and an arrival exactly when as many requests run there as the
   thread pool has workers and queue places.
  */
  lemma {:induction false} RefusedIff(
    ops: map<Text, Operation>, nodes: map<Text, NodeConfig>, arrivals: seq<ArrivalSpec>,
    reading: (Runner, Payload) -> Json, sha: H.Digest, n: nat, id: Text)
    requires Runnable(ops, nodes, arrivals) && id in nodes
    ensures var m := After(ops, nodes, arrivals, reading, sha, n);
            var live := Live(m.kernel.queue.stored);
            && id in m.env.nodes
            && (m.env.nodes[id].connPool.TryAcquire().1 == EXHAUSTED <==>
                  |set e | e in live && e.payload.DepComplete? && e.payload.targetNodeId == id|
                  == nodes[id].connectionPoolSize + 100)
            && (m.env.nodes[id].threadpool.TryAcquire().1 == REJECTED <==>
                  |set r: nat | r < |m.env.requests| && m.env.requests[r].status == RUNNING
                     && HasRoot(m.env, r) && RootOp(m.env, r).nodeId == id|
                  == nodes[id].threadPoolSize + nodes[id].threadPoolQueueCapacity)
  {
    AfterConfigured(ops, nodes, arrivals, reading, sha, n);
    AfterReached(ops, nodes, arrivals, reading, sha, n);
    var m := After(ops, nodes, arrivals, reading, sha, n);
    var ds :| Holds(m, ds);
    PlacesTaken(m.env, Live(m.kernel.queue.stored), m.kernel.clock, ds, nodes, id);
  }

  lemma {:induction false} PlacesTaken(
    s: Runner, live: set<Event>, clock: int, ds: seq<int>, nodes: map<Text, NodeConfig>, id: Text)
    requires Invariant(s, live, clock, ds) && Configured(s, nodes) && id in nodes
    ensures s.nodes[id].connPool.TryAcquire().1 == EXHAUSTED <==>
            |set e | e in live && e.payload.DepComplete? && e.payload.targetNodeId == id|
            == nodes[id].connectionPoolSize + 100
    ensures s.nodes[id].threadpool.TryAcquire().1 == REJECTED <==>
            |RunningOn(s, id)| == nodes[id].threadPoolSize + nodes[id].threadPoolQueueCapacity
  {
    assert NodeOk(s, live, id);
    ConnectionPoolConserves(s.nodes[id].connPool);
    ThreadPoolConserves(s.nodes[id].threadpool);
    assert (set e | e in live && e.payload.DepComplete? && e.payload.targetNodeId == id) == Matching(live, DepAt(id));
  }
}
