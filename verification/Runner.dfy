/**
 SimulationRunner as an object: node resources, request records and counters that the handlers
 update in place. Each handler is proved to do what module RunnerSpec says of it; what it asks
 of the kernel is returned.
 */
module Runners {
  import opened Utf16
  import opened Resources
  import opened RunnerSpec
  import opened Simulations

  datatype NodeResources = NodeResources(
    cpu: CpuResource, threadpool: ThreadPoolResource, connPool: ConnectionPoolResource)

  /** A later entry with the same id replaces an earlier one. */
  function NodeMap(nodes: seq<(Text, NodeConfig)>): map<Text, NodeConfig> {
    if nodes == [] then map[]
    else NodeMap(nodes[..|nodes| - 1])[nodes[|nodes| - 1].0 := nodes[|nodes| - 1].1]
  }

  function OperationMap(operations: seq<Operation>): map<Text, Operation> {
    if operations == [] then map[]
    else
      var last := operations[|operations| - 1];
      OperationMap(operations[..|operations| - 1])[last.operationName := last]
  }

  /** No resource object serves two nodes. */
  ghost predicate Separate(nodes: map<Text, NodeResources>) {
    forall a, b :: a in nodes && b in nodes && a != b ==>
      && nodes[a].cpu != nodes[b].cpu
      && nodes[a].threadpool != nodes[b].threadpool
      && nodes[a].connPool != nodes[b].connPool
  }

  method IndexByName(operations: seq<Operation>) returns (byName: map<Text, Operation>)
    ensures byName == OperationMap(operations)
  {
    byName := map[];
    for j := 0 to |operations|
      invariant byName == OperationMap(operations[..j])
    {
      assert operations[..j + 1][..j] == operations[..j];
      byName := byName[operations[j].operationName := operations[j]];
    }
    assert operations[..|operations|] == operations;
  }

  method NewResources(c: NodeConfig) returns (n: NodeResources)
    requires c.threadPoolSize > 0 && c.threadPoolQueueCapacity >= 0 && c.connectionPoolSize > 0
    ensures fresh(n.cpu) && fresh(n.threadpool) && fresh(n.connPool)
    ensures Node(n.cpu.State(), n.threadpool.State(), n.connPool.State()) == NewNode(c)
  {
    var cpu := new CpuResource(c.cpuCores);
    var threadpool := new ThreadPoolResource(c.threadPoolSize, c.threadPoolQueueCapacity);
    var connPool := new ConnectionPoolResource(c.connectionPoolSize);
    n := NodeResources(cpu, threadpool, connPool);
  }

  /** A request that got a thread becomes a record and starts on the CPU. */
  function Occupied(s: Runner, requestId: Text, operationName: Text, op: Operation, now: int): Runner
    requires op.nodeId in s.nodes
  {
    var node := s.nodes[op.nodeId];
    s.(nodes := s.nodes[op.nodeId := node.(cpu := node.cpu.Acquire())],
       requests := s.requests + [InFlight(requestId, operationName, now, RUNNING, 0)])
  }

  function CompletionAsk(s: Runner, op: Operation): Ask
    requires op.nodeId in s.nodes
  {
    In(s.nodes[op.nodeId].cpu.Acquire().Duration(op.baseLatencyUs), LocalOpComplete(|s.requests|, op))
  }

  /** What a node's thread pool does to the state when one more thread is asked for. */
  function Threaded(s: Runner, n: Text): (Runner, ThreadGrant)
    requires n in s.nodes
  {
    var (threadpool, grant) := s.nodes[n].threadpool.TryAcquire();
    (s.(nodes := s.nodes[n := s.nodes[n].(threadpool := threadpool)]), grant)
  }

  /** OnArrival from the point where the operation and its node are known. */
  function Admitted(s: Runner, requestId: Text, operationName: Text, op: Operation, now: int): (Runner, seq<Ask>)
    requires op.nodeId in s.nodes
  {
    var (t, grant) := Threaded(s, op.nodeId);
    if grant == REJECTED then (t.(failures := t.failures + 1), [])
    else (Occupied(t, requestId, operationName, op, now), [CompletionAsk(t, op)])
  }

  lemma {:induction false} OnArrivalAdmits(s: Runner, requestId: Text, operationName: Text, now: int)
    ensures RunnerSpec.OnArrival(s, requestId, operationName, now) ==
            var counted := s.(totalArrivals := s.totalArrivals + 1);
            if operationName !in s.ops || s.ops[operationName].nodeId !in s.nodes then
              (counted.(failures := s.failures + 1), [])
            else Admitted(counted, requestId, operationName, s.ops[operationName], now)
  {
    if operationName in s.ops && s.ops[operationName].nodeId in s.nodes {
      var n := s.ops[operationName].nodeId;
      var t := Threaded(s, n).0.nodes[n];
      Rewritten(s.nodes, n, t, t.(cpu := t.cpu.Acquire()));
    }
  }

  /** The first round of the loop over dependencies. */
  lemma {:induction false} StartFirst(s: Runner, r: nat, deps: seq<Dependency>, now: int)
    requires r < |s.requests| && deps != []
    ensures var dep := deps[0];
            var all := StartDependencies(s, r, deps, now);
            if dep.targetOperationName !in s.ops || dep.targetNodeId !in s.nodes then all == (Fail(s, r, now), [])
            else
              var (t, granted) := Connect(s, dep.targetNodeId);
              if !granted then all == (Fail(t, r, now), [])
              else
                var rest := StartDependencies(t, r, deps[1..], now);
                var ask := In(DownstreamDelay(s.ops[dep.targetOperationName]), DepComplete(r, dep.targetNodeId));
                all.0 == rest.0 && all.1 == [ask] + rest.1
  {
  }

  method BuildNodes(nodeConfigs: seq<(Text, NodeConfig)>)
    returns (built: map<Text, NodeResources>, ghost objects: set<object>)
    requires forall c :: c in nodeConfigs ==>
               c.1.threadPoolSize > 0 && c.1.threadPoolQueueCapacity >= 0 && c.1.connectionPoolSize > 0
    ensures Separate(built) && built.Keys == NodeMap(nodeConfigs).Keys && fresh(objects)
    ensures forall id :: id in built ==>
              built[id].cpu in objects && built[id].threadpool in objects && built[id].connPool in objects
    ensures forall id :: id in built ==>
              Node(built[id].cpu.State(), built[id].threadpool.State(), built[id].connPool.State()) ==
              NewNode(NodeMap(nodeConfigs)[id])
  {
    built, objects := map[], {};
    var i := 0;
    while i < |nodeConfigs|
      invariant 0 <= i <= |nodeConfigs|
      invariant Separate(built) && built.Keys == NodeMap(nodeConfigs[..i]).Keys
      invariant fresh(objects)
      invariant forall id :: id in built ==>
                  built[id].cpu in objects && built[id].threadpool in objects && built[id].connPool in objects
      invariant forall id :: id in built ==>
                  Node(built[id].cpu.State(), built[id].threadpool.State(), built[id].connPool.State()) ==
                  NewNode(NodeMap(nodeConfigs[..i])[id])
    {
      var (id, c) := nodeConfigs[i];
      assert nodeConfigs[i] in nodeConfigs;
      assert nodeConfigs[..i + 1][..i] == nodeConfigs[..i];
      var n := NewResources(c);
      built := built[id := n];
      objects := objects + {n.cpu, n.threadpool, n.connPool};
      i := i + 1;
    }
    assert nodeConfigs[..i] == nodeConfigs;
  }

  lemma {:induction false} Rewritten<K, V>(m: map<K, V>, k: K, v: V, w: V)
    ensures m[k := v][k := w] == m[k := w]
  {
  }

  class SimulationRunner {
    const nodes: map<Text, NodeResources>
    const operationsByName: map<Text, Operation>
    var requests: seq<InFlight>
    var totalArrivals: nat
    var successes: nat
    var failures: nat
    var recorded: seq<Finish>

    /** What the resource objects hold, and the objects themselves. */
    ghost var view: map<Text, Node>
    ghost const resources: set<object>

    ghost predicate Valid()
      reads this`view, resources
    {
      && Separate(nodes) && view.Keys == nodes.Keys
      && forall id :: id in nodes ==>
           && nodes[id].cpu in resources && nodes[id].threadpool in resources && nodes[id].connPool in resources
           && view[id] == Node(nodes[id].cpu.State(), nodes[id].threadpool.State(), nodes[id].connPool.State())
    }

    /** The value this object stands for. */
    ghost function State(): Runner
      reads this
    {
      Runner(operationsByName, view, requests, totalArrivals, successes, failures, recorded)
    }

    constructor (nodeConfigs: seq<(Text, NodeConfig)>, operations: seq<Operation>)
      requires forall c :: c in nodeConfigs ==>
                 c.1.threadPoolSize > 0 && c.1.threadPoolQueueCapacity >= 0 && c.1.connectionPoolSize > 0
      ensures Valid() && State() == NewRunner(OperationMap(operations), NodeMap(nodeConfigs))
    {
      var built, objects := BuildNodes(nodeConfigs);
      nodes := built;
      var byName := IndexByName(operations);
      resources := objects;
      view := NewRunner(OperationMap(operations), NodeMap(nodeConfigs)).nodes;
      operationsByName := byName;
      requests := [];
      totalArrivals, successes, failures := 0, 0, 0;
      recorded := [];
    }

    method Snapshot() returns (s: Runner)
      requires Valid()
      ensures s == State()
    {
      var states := map id | id in nodes ::
        Node(nodes[id].cpu.State(), nodes[id].threadpool.State(), nodes[id].connPool.State());
      s := Runner(operationsByName, states, requests, totalArrivals, successes, failures, recorded);
    }

    // ---------- one resource at a time ----------

    method AcquireThread(id: Text) returns (grant: ThreadGrant)
      requires Valid() && id in nodes
      modifies this`view, nodes[id].threadpool
      ensures Valid()
      ensures grant == old(view[id]).threadpool.TryAcquire().1
      ensures view == old(view)[id := old(view[id]).(
                threadpool := old(view[id]).threadpool.TryAcquire().0)]
    {
      grant := nodes[id].threadpool.TryAcquire();
      view := view[id := view[id].(threadpool := nodes[id].threadpool.State())];
    }

    method ReleaseThread(id: Text)
      requires Valid() && id in nodes
      modifies this`view, nodes[id].threadpool
      ensures Valid()
      ensures view == old(view)[id := old(view[id]).(
                threadpool := old(view[id]).threadpool.Release().0)]
    {
      var _ := nodes[id].threadpool.Release();
      view := view[id := view[id].(threadpool := nodes[id].threadpool.State())];
    }

    /** cpu.acquire, then the duration under the new concurrency. */
    method AcquireCpu(id: Text, baseLatencyUs: int) returns (durationUs: int)
      requires Valid() && id in nodes
      modifies this`view, nodes[id].cpu
      ensures Valid()
      ensures durationUs == old(view[id]).cpu.Acquire().Duration(baseLatencyUs)
      ensures view == old(view)[id := old(view[id]).(
                cpu := old(view[id]).cpu.Acquire())]
    {
      nodes[id].cpu.Acquire();
      view := view[id := view[id].(cpu := nodes[id].cpu.State())];
      durationUs := nodes[id].cpu.CalculateExecutionDurationUs(baseLatencyUs);
    }

    method ReleaseCpu(id: Text)
      requires Valid() && id in nodes
      modifies this`view, nodes[id].cpu
      ensures Valid()
      ensures view == old(view)[id := old(view[id]).(
                cpu := old(view[id]).cpu.Release())]
    {
      nodes[id].cpu.Release();
      view := view[id := view[id].(cpu := nodes[id].cpu.State())];
    }

    method AcquireConnection(id: Text) returns (grant: ConnectionGrant)
      requires Valid() && id in nodes
      modifies this`view, nodes[id].connPool
      ensures Valid()
      ensures State() == Connect(old(State()), id).0
      ensures (grant != EXHAUSTED) == Connect(old(State()), id).1
    {
      grant := nodes[id].connPool.TryAcquire();
      view := view[id := view[id].(connPool := nodes[id].connPool.State())];
    }

    method ReleaseConnection(id: Text)
      requires Valid() && id in nodes
      modifies this`view, nodes[id].connPool
      ensures Valid()
      ensures view == old(view)[id := old(view[id]).(
                connPool := old(view[id]).connPool.Release().0)]
    {
      var _ := nodes[id].connPool.Release();
      view := view[id := view[id].(connPool := nodes[id].connPool.State())];
    }

    // ---------- the handlers ----------

    /** Gives back the worker thread the request holds on its root node. */
    method ReleaseHome(r: nat)
      requires Valid() && r < |requests|
      modifies this`view, resources
      ensures Valid()
      ensures State() == RunnerSpec.ReleaseThread(old(State()), r)
    {
      var request := requests[r];
      if request.rootOperationName in operationsByName {
        var op := operationsByName[request.rootOperationName];
        if op.nodeId in nodes {
          ReleaseThread(op.nodeId);
        }
      }
    }

    method FinishRequest(r: nat, now: int)
      requires Valid() && r < |requests|
      modifies this, resources
      ensures Valid()
      ensures State() == RunnerSpec.FinishRequest(old(State()), r, now)
    {
      ReleaseHome(r);
      Record(r, now);
    }

    /** The counting half of finishRequest. */
    method Record(r: nat, now: int)
      requires Valid() && r < |requests|
      modifies this`requests, this`successes, this`failures, this`recorded
      ensures Valid()
      ensures requests == if old(requests[r]).status == RUNNING
                          then old(requests)[r := old(requests[r]).(status := SUCCESS)] else old(requests)
      ensures successes == old(successes) + if old(requests[r]).status == RUNNING then 1 else 0
      ensures failures == old(failures) + if old(requests[r]).status == RUNNING then 0 else 1
      ensures recorded == old(recorded) + [Finish(r,
                            if old(requests[r]).status == RUNNING then SUCCESS else old(requests[r]).status,
                            Latency(old(State()), r, now))]
    {
      var request := requests[r];
      var elapsed := now - request.arrivalTimeUs;
      var totalLatencyUs := if elapsed > 1 then elapsed else 1;
      if request.status == RUNNING {
        requests := requests[r := request.(status := SUCCESS)];
        successes := successes + 1;
        recorded := recorded + [Finish(r, SUCCESS, totalLatencyUs)];
      } else {
        failures := failures + 1;
        recorded := recorded + [Finish(r, request.status, totalLatencyUs)];
      }
    }

    method FailRequest(r: nat, now: int)
      requires Valid() && r < |requests|
      modifies this, resources
      ensures Valid()
      ensures State() == Fail(old(State()), r, now)
    {
      requests := requests[r := requests[r].(status := FAILED)];
      FinishRequest(r, now);
    }

    method OnArrival(requestId: Text, operationName: Text, now: int) returns (asks: seq<Ask>)
      requires Valid()
      modifies this, resources
      ensures Valid()
      ensures State() == RunnerSpec.OnArrival(old(State()), requestId, operationName, now).0
      ensures asks == RunnerSpec.OnArrival(old(State()), requestId, operationName, now).1
    {
      OnArrivalAdmits(State(), requestId, operationName, now);
      totalArrivals := totalArrivals + 1;
      ghost var counted := State();
      if operationName !in operationsByName {
        failures := failures + 1;
        return [];
      }
      var op := operationsByName[operationName];
      if op.nodeId !in nodes {
        failures := failures + 1;
        return [];
      }
      asks := Admit(requestId, operationName, op, now);
    }

    /** An arrival whose operation and node exist. */
    method Admit(requestId: Text, operationName: Text, op: Operation, now: int) returns (asks: seq<Ask>)
      requires Valid() && op.nodeId in nodes
      modifies this`requests, this`view, this`failures, nodes[op.nodeId].threadpool, nodes[op.nodeId].cpu
      ensures Valid()
      ensures State() == Admitted(old(State()), requestId, operationName, op, now).0
      ensures asks == Admitted(old(State()), requestId, operationName, op, now).1
    {
      var grant := AcquireThread(op.nodeId);
      ghost var threaded := State();
      assert threaded == Threaded(old(State()), op.nodeId).0;
      if grant == REJECTED {
        failures := failures + 1;
        return [];
      }
      asks := StartRequest(requestId, operationName, op, now);
    }

    method StartRequest(requestId: Text, operationName: Text, op: Operation, now: int) returns (asks: seq<Ask>)
      requires Valid() && op.nodeId in nodes
      modifies this`requests, this`view, nodes[op.nodeId].cpu
      ensures Valid()
      ensures State() == Occupied(old(State()), requestId, operationName, op, now)
      ensures asks == [CompletionAsk(old(State()), op)]
    {
      requests := requests + [InFlight(requestId, operationName, now, RUNNING, 0)];
      ghost var recorded := State();
      var execDuration := AcquireCpu(op.nodeId, op.baseLatencyUs);
      asks := [In(execDuration, LocalOpComplete(|requests| - 1, op))];
    }

    method OnLocalOpComplete(r: nat, op: Operation, now: int) returns (asks: seq<Ask>)
      requires Valid() && r < |requests|
      modifies this, resources
      ensures Valid()
      ensures State() == RunnerSpec.OnLocalOpComplete(old(State()), r, op, now).0
      ensures asks == RunnerSpec.OnLocalOpComplete(old(State()), r, op, now).1
    {
      if op.nodeId in nodes {
        ReleaseCpu(op.nodeId);
      }
      ghost var idle := State();
      asks := [];
      var deps := SortDependencies(op.dependencies);
      if |deps| == 0 {
        FinishRequest(r, now);
        return;
      }
      var syncDeps, asyncDeps := Synchronous(deps), Asynchronous(deps);
      asks := ScheduleAsync(asyncDeps);
      if |syncDeps| == 0 {
        FinishRequest(r, now);
        return;
      }
      requests := requests[r := requests[r].(pendingDependencies := |syncDeps|)];
      ghost var waiting := State();
      var more := StartAll(r, syncDeps, now);
      asks := asks + more;
    }

    method ScheduleAsync(asyncDeps: seq<Dependency>) returns (asks: seq<Ask>)
      ensures asks == AsyncAsks(operationsByName, asyncDeps)
    {
      asks := [];
      for i := 0 to |asyncDeps|
        invariant asks + AsyncAsks(operationsByName, asyncDeps[i..]) == AsyncAsks(operationsByName, asyncDeps)
      {
        assert asyncDeps[i..][1..] == asyncDeps[i + 1..];
        var name := asyncDeps[i].targetOperationName;
        if name in operationsByName {
          asks := asks + [In(500, AsyncInvoke(operationsByName[name]))];
        }
      }
    }

    /** The loop over synchronous dependencies, with its three ways to give up. */
    method StartAll(r: nat, syncDeps: seq<Dependency>, now: int) returns (asks: seq<Ask>)
      requires Valid() && r < |requests|
      modifies this, resources
      ensures Valid()
      ensures State() == StartDependencies(old(State()), r, syncDeps, now).0
      ensures asks == StartDependencies(old(State()), r, syncDeps, now).1
    {
      asks := [];
      ghost var whole := StartDependencies(State(), r, syncDeps, now);
      var i := 0;
      while i < |syncDeps|
        invariant 0 <= i <= |syncDeps| && r < |requests| && Valid()
        invariant whole.0 == StartDependencies(State(), r, syncDeps[i..], now).0
        invariant whole.1 == asks + StartDependencies(State(), r, syncDeps[i..], now).1
      {
        assert syncDeps[i..][1..] == syncDeps[i + 1..];
        var started := StartOne(r, syncDeps[i], syncDeps[i..], now);
        if started == [] {
          return;
        }
        asks := asks + started;
        i := i + 1;
      }
    }

    /** One round of that loop; `deps` is what is left to start. No ask means the request has failed. */
    method StartOne(r: nat, dep: Dependency, ghost deps: seq<Dependency>, now: int) returns (asks: seq<Ask>)
      requires Valid() && r < |requests| && deps != [] && dep == deps[0]
      modifies this, resources
      ensures Valid()
      ensures asks == [] ==> StartDependencies(old(State()), r, deps, now) == (State(), [])
      ensures asks != [] ==> |requests| == old(|requests|)
      ensures asks != [] ==>
                && StartDependencies(old(State()), r, deps, now).0 == StartDependencies(State(), r, deps[1..], now).0
                && StartDependencies(old(State()), r, deps, now).1 == asks + StartDependencies(State(), r, deps[1..], now).1
    {
      StartFirst(State(), r, deps, now);
      asks := [];
      var granted := false;
      if dep.targetOperationName in operationsByName && dep.targetNodeId in nodes {
        var connAcquire := AcquireConnection(dep.targetNodeId);
        granted := connAcquire != EXHAUSTED;
      }
      if granted {
        var targetOp := operationsByName[dep.targetOperationName];
        asks := [In(targetOp.baseLatencyUs + 1000, DepComplete(r, dep.targetNodeId))];
      } else {
        FailRequest(r, now);
      }
    }

    method OnDepComplete(r: nat, targetNodeId: Text, now: int)
      requires Valid() && r < |requests|
      modifies this, resources
      ensures Valid()
      ensures State() == RunnerSpec.OnDepComplete(old(State()), r, targetNodeId, now)
    {
      Disconnect(targetNodeId);
      ghost var released := State();
      assert released == RunnerSpec.ReleaseConnection(old(State()), targetNodeId);
      requests := requests[r := requests[r].(pendingDependencies := requests[r].pendingDependencies - 1)];
      ghost var counted := State();
      if requests[r].pendingDependencies <= 0 {
        FinishRequest(r, now);
      }
    }

    /** Gives the connection back if its node exists. */
    method Disconnect(targetNodeId: Text)
      requires Valid()
      modifies this`view, resources
      ensures Valid()
      ensures State() == RunnerSpec.ReleaseConnection(old(State()), targetNodeId)
    {
      if targetNodeId in nodes {
        ReleaseConnection(targetNodeId);
      }
    }

    /** The handler registered for the event's type. */
    method Handle(e: Event, now: int) returns (asks: seq<Ask>)
      requires Valid()
      modifies this, resources
      ensures Valid()
      ensures State() == HandleEvent(old(State()), e, now).0
      ensures asks == HandleEvent(old(State()), e, now).1
    {
      asks := [];
      match e.payload
      case Arrival(requestId, operationName) =>
        asks := OnArrival(requestId, operationName, now);
      case LocalOpComplete(r, op) =>
        if r < |requests| {
          asks := OnLocalOpComplete(r, op, now);
        }
      case DepComplete(r, n) =>
        if r < |requests| {
          OnDepComplete(r, n, now);
        }
      case AsyncInvoke(_) =>
    }
  }
}
