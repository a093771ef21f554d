/**
 SimulationRunner: what its event handlers do to the runner's state, and what they ask of the
 kernel. A request record is shared by the events that carry it; here it lives in
 `Runner.requests`, and events carry its index.
 */
module RunnerSpec {
  import opened Utf16
  import opened Events
  import opened Resources
  import opened KernelSpec

  datatype Mode = SEQUENTIAL | PARALLEL | ASYNC | OPTIONAL

  datatype Dependency = Dependency(
    targetNodeId: Text, targetOperationName: Text, executionMode: Mode, callOrder: int)

  datatype Operation = Operation(
    operationName: Text, nodeId: Text, baseLatencyUs: int, dependencies: seq<Dependency>)

  datatype Payload =
    | Arrival(requestId: Text, operationName: Text)
    | LocalOpComplete(request: nat, op: Operation)
    | DepComplete(request: nat, targetNodeId: Text)
    | AsyncInvoke(targetOp: Operation)

  type Event = SimEvent<Payload>

  type Ask = Request<Payload>

  datatype Status = RUNNING | SUCCESS | FAILED

  datatype InFlight = InFlight(
    requestId: Text, rootOperationName: Text, arrivalTimeUs: int, status: Status, pendingDependencies: int)

  datatype Node = Node(cpu: CpuState, threadpool: ThreadPoolState, connPool: ConnectionPoolState)

  /** One call of finishRequest. Those with SUCCESS are what the histogram and Welford record. */
  datatype Finish = Finish(request: nat, status: Status, latencyUs: int)

  datatype Runner = Runner(
    ops: map<Text, Operation>, nodes: map<Text, Node>, requests: seq<InFlight>,
    totalArrivals: nat, successes: nat, failures: nat, finished: seq<Finish>)

  /** The event type under which each payload is scheduled. */
  function TypeOf(p: Payload): Text {
    match p
    case Arrival(_, _) => Ascii("ARRIVAL")
    case LocalOpComplete(_, _) => Ascii("LOCAL_OP_COMPLETE")
    case DepComplete(_, _) => Ascii("DEP_COMPLETE")
    case AsyncInvoke(_) => Ascii("ASYNC_INVOKE")
  }

  function In(delayUs: int, p: Payload): Ask {
    ScheduleIn(delayUs, TypeOf(p), p, 0)
  }

  // ---------- finishRequest ----------

  /** The node a request runs on. */
  predicate HasRoot(s: Runner, r: nat)
    requires r < |s.requests|
  {
    s.requests[r].rootOperationName in s.ops && s.ops[s.requests[r].rootOperationName].nodeId in s.nodes
  }

  function RootOp(s: Runner, r: nat): Operation
    requires r < |s.requests| && HasRoot(s, r)
  {
    s.ops[s.requests[r].rootOperationName]
  }

  function ReleaseThread(s: Runner, r: nat): Runner
    requires r < |s.requests|
  {
    if HasRoot(s, r) then
      var n := RootOp(s, r).nodeId;
      s.(nodes := s.nodes[n := s.nodes[n].(threadpool := s.nodes[n].threadpool.Release().0)])
    else s
  }

  function Latency(s: Runner, r: nat, now: int): int
    requires r < |s.requests|
  {
    var elapsed := now - s.requests[r].arrivalTimeUs;
    if elapsed > 1 then elapsed else 1
  }

  function FinishRequest(s: Runner, r: nat, now: int): Runner
    requires r < |s.requests|
  {
    var t := ReleaseThread(s, r);
    var latency := Latency(s, r, now);
    if s.requests[r].status == RUNNING then
      t.(requests := s.requests[r := s.requests[r].(status := SUCCESS)],
         successes := s.successes + 1,
         finished := s.finished + [Finish(r, SUCCESS, latency)])
    else
      t.(failures := s.failures + 1,
         finished := s.finished + [Finish(r, s.requests[r].status, latency)])
  }

  function Fail(s: Runner, r: nat, now: int): Runner
    requires r < |s.requests|
  {
    FinishRequest(s.(requests := s.requests[r := s.requests[r].(status := FAILED)]), r, now)
  }

  // ---------- ARRIVAL ----------

  function OnArrival(s: Runner, requestId: Text, operationName: Text, now: int): (Runner, seq<Ask>) {
    var counted := s.(totalArrivals := s.totalArrivals + 1);
    if operationName !in s.ops || s.ops[operationName].nodeId !in s.nodes then
      (counted.(failures := s.failures + 1), [])
    else
      var op := s.ops[operationName];
      var node := s.nodes[op.nodeId];
      var (threadpool, grant) := node.threadpool.TryAcquire();
      if grant == REJECTED then
        (counted.(nodes := s.nodes[op.nodeId := node.(threadpool := threadpool)],
                  failures := s.failures + 1), [])
      else
        var cpu := node.cpu.Acquire();
        (counted.(nodes := s.nodes[op.nodeId := node.(threadpool := threadpool, cpu := cpu)],
                  requests := s.requests + [InFlight(requestId, operationName, now, RUNNING, 0)]),
         [In(cpu.Duration(op.baseLatencyUs), LocalOpComplete(|s.requests|, op))])
  }

  // ---------- LOCAL_OP_COMPLETE ----------

  function InsertDependency(d: Dependency, sorted: seq<Dependency>): seq<Dependency> {
    if sorted == [] || d.callOrder <= sorted[0].callOrder then [d] + sorted
    else [sorted[0]] + InsertDependency(d, sorted[1..])
  }

  /** A stable sort by callOrder. */
  function SortDependencies(deps: seq<Dependency>): seq<Dependency> {
    if deps == [] then [] else InsertDependency(deps[0], SortDependencies(deps[1..]))
  }

  function Synchronous(deps: seq<Dependency>): seq<Dependency> {
    if deps == [] then []
    else (if deps[0].executionMode != ASYNC then [deps[0]] else []) + Synchronous(deps[1..])
  }

  function Asynchronous(deps: seq<Dependency>): seq<Dependency> {
    if deps == [] then []
    else (if deps[0].executionMode == ASYNC then [deps[0]] else []) + Asynchronous(deps[1..])
  }

  /** Fire and forget: one event for each asynchronous dependency whose operation exists. */
  function AsyncAsks(ops: map<Text, Operation>, deps: seq<Dependency>): seq<Ask> {
    if deps == [] then []
    else
      (if deps[0].targetOperationName in ops then [In(500, AsyncInvoke(ops[deps[0].targetOperationName]))] else [])
      + AsyncAsks(ops, deps[1..])
  }

  /** Base latency plus one millisecond of network. */
  function DownstreamDelay(op: Operation): int {
    op.baseLatencyUs + 1000
  }

  /** The first synchronous dependency that cannot be started fails the request, once. */
  function StartDependencies(s: Runner, r: nat, deps: seq<Dependency>, now: int): (Runner, seq<Ask>)
    requires r < |s.requests|
    decreases |deps|
  {
    if deps == [] then (s, [])
    else
      var dep := deps[0];
      if dep.targetOperationName !in s.ops || dep.targetNodeId !in s.nodes then (Fail(s, r, now), [])
      else
        var (s', granted) := Connect(s, dep.targetNodeId);
        if !granted then (Fail(s', r, now), [])
        else
          var (t, asks) := StartDependencies(s', r, deps[1..], now);
          (t, [In(DownstreamDelay(s.ops[dep.targetOperationName]), DepComplete(r, dep.targetNodeId))] + asks)
  }

  function Connect(s: Runner, n: Text): (Runner, bool)
    requires n in s.nodes
  {
    var (pool, grant) := s.nodes[n].connPool.TryAcquire();
    (s.(nodes := s.nodes[n := s.nodes[n].(connPool := pool)]), grant != EXHAUSTED)
  }

  function ReleaseCpu(s: Runner, n: Text): Runner {
    if n in s.nodes then s.(nodes := s.nodes[n := s.nodes[n].(cpu := s.nodes[n].cpu.Release())]) else s
  }

  function OnLocalOpComplete(s: Runner, r: nat, op: Operation, now: int): (Runner, seq<Ask>)
    requires r < |s.requests|
  {
    var idle := ReleaseCpu(s, op.nodeId);
    var deps := SortDependencies(op.dependencies);
    var sync := Synchronous(deps);
    var asks := AsyncAsks(s.ops, Asynchronous(deps));
    if sync == [] then (FinishRequest(idle, r, now), asks)
    else
      var waiting := idle.(requests := s.requests[r := s.requests[r].(pendingDependencies := |sync|)]);
      var (t, more) := StartDependencies(waiting, r, sync, now);
      (t, asks + more)
  }

  // ---------- DEP_COMPLETE ----------

  function ReleaseConnection(s: Runner, n: Text): Runner {
    if n in s.nodes then
      s.(nodes := s.nodes[n := s.nodes[n].(connPool := s.nodes[n].connPool.Release().0)])
    else s
  }

  function OnDepComplete(s: Runner, r: nat, n: Text, now: int): Runner
    requires r < |s.requests|
  {
    var released := ReleaseConnection(s, n);
    var left := s.requests[r].pendingDependencies - 1;
    var t := released.(requests := s.requests[r := s.requests[r].(pendingDependencies := left)]);
    if left <= 0 then FinishRequest(t, r, now) else t
  }

  /** All four handlers. Events of the runner always carry a request that exists. */
  function HandleEvent(s: Runner, e: Event, now: int): (Runner, seq<Ask>) {
    match e.payload
    case Arrival(requestId, operationName) => OnArrival(s, requestId, operationName, now)
    case LocalOpComplete(r, op) => if r < |s.requests| then OnLocalOpComplete(s, r, op, now) else (s, [])
    case DepComplete(r, n) => if r < |s.requests| then (OnDepComplete(s, r, n, now), []) else (s, [])
    case AsyncInvoke(_) => (s, [])
  }
}
