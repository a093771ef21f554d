/**
 Whole simulations: the runner's handlers on the kernel, from the scheduled arrivals on. The
 results hold after any number of steps.
 */
module Simulations {
  import opened Common
  import opened Utf16
  import opened Canonical
  import opened Events
  import opened Resources
  import opened KernelSpec
  import opened RunnerSpec
  import opened Pending
  import opened RunnerInvariant
  import opened RunnerSteps
  import opened RunnerHandlers
  import opened RunnerLocal
  import H = StateHash
  import R = Runs

  datatype NodeConfig = NodeConfig(
    cpuCores: Cores, threadPoolSize: int, threadPoolQueueCapacity: int, connectionPoolSize: int)

  datatype ArrivalSpec = ArrivalSpec(virtualTimeUs: int, eventId: Text, operationName: Text)

  /** What the constructors demand, and latencies that a kernel can schedule. */
  ghost predicate Runnable(ops: map<Text, Operation>, nodes: map<Text, NodeConfig>, arrivals: seq<ArrivalSpec>) {
    && NonNegative(ops)
    && (forall n :: n in nodes ==>
          nodes[n].threadPoolSize > 0 && nodes[n].threadPoolQueueCapacity >= 0 && nodes[n].connectionPoolSize > 0)
    && (forall a :: a in arrivals ==> a.virtualTimeUs >= 0)
  }

  function NewNode(c: NodeConfig): Node {
    Node(CpuState(c.cpuCores, 0, 0),
         ThreadPoolState(c.threadPoolSize, c.threadPoolQueueCapacity, 0, 0, 0, 0),
         ConnectionPoolState(c.connectionPoolSize, 100, 0, 0, 0, 0))
  }

  function NewRunner(ops: map<Text, Operation>, nodes: map<Text, NodeConfig>): Runner {
    Runner(ops, map n | n in nodes :: NewNode(nodes[n]), [], 0, 0, 0, [])
  }

  /** The handlers registered with the kernel, one function under four names. */
  function SimulationProgram(reading: (Runner, Payload) -> Json, sha: H.Digest): Program<Payload, Runner> {
    var handler := (s: Runner, e: Event, now: int) => HandleEvent(s, e, now);
    Program(map[Ascii("ARRIVAL") := handler, Ascii("LOCAL_OP_COMPLETE") := handler,
                Ascii("DEP_COMPLETE") := handler, Ascii("ASYNC_INVOKE") := handler], reading, sha)
  }

  function ArrivalAsks(arrivals: seq<ArrivalSpec>): seq<Ask> {
    if arrivals == [] then []
    else
      var p := Arrival(arrivals[0].eventId, arrivals[0].operationName);
      [Schedule(arrivals[0].virtualTimeUs, TypeOf(p), p, 0)] + ArrivalAsks(arrivals[1..])
  }

  /** run: every arrival is scheduled before the first step. */
  ghost function Start(ops: map<Text, Operation>, nodes: map<Text, NodeConfig>, arrivals: seq<ArrivalSpec>)
    : Machine<Payload, Runner>
  {
    var k: Kernel<Payload> := Initial(H.SEED);
    Machine(ApplyAll(k, ArrivalAsks(arrivals)).0, NewRunner(ops, nodes))
  }

  ghost predicate SimInvariant(m: Machine<Payload, Runner>) {
    exists ds :: Holds(m, ds)
  }

  // ---------- the start ----------

  /** Scheduling at an absolute time from clock 0 is scheduling with that delay. */
  function AsDelays(asks: seq<Ask>): seq<Ask>
    requires forall a :: a in asks ==> a.Schedule?
  {
    if asks == [] then []
    else
      assert asks[0] in asks;
      [ScheduleIn(asks[0].timeUs, asks[0].eventType, asks[0].payload, asks[0].priority)] + AsDelays(asks[1..])
  }

  lemma {:induction false} ArrivalAsksShape(arrivals: seq<ArrivalSpec>)
    requires forall a :: a in arrivals ==> a.virtualTimeUs >= 0
    ensures |ArrivalAsks(arrivals)| == |arrivals|
    ensures forall a :: a in ArrivalAsks(arrivals) ==>
              a.Schedule? && a.timeUs >= 0 && a.payload.Arrival? && a.eventType == TypeOf(a.payload)
  {
    if arrivals != [] { ArrivalAsksShape(arrivals[1..]); }
  }

  lemma {:induction false} DelaysApply(k: Kernel<Payload>, asks: seq<Ask>)
    requires Valid(k) && k.clock == 0
    requires forall a :: a in asks ==>
               a.Schedule? && a.timeUs >= 0 && a.payload.Arrival? && a.eventType == TypeOf(a.payload)
    ensures ApplyAll(k, asks) == ApplyAll(k, AsDelays(asks))
    ensures AllForward(AsDelays(asks)) && |AsDelays(asks)| == |asks|
    ensures forall a :: a in AsDelays(asks) ==>
              a.ScheduleIn? && a.payload.Arrival? && a.eventType == TypeOf(a.payload)
    decreases |asks|
  {
    if asks != [] {
      assert asks[0] in asks;
      ApplyValid(k, asks[0]);
      DelaysApply(Apply(k, asks[0]).0, asks[1..]);
    }
  }

  lemma {:induction false} StartInvariant(ops: map<Text, Operation>, nodes: map<Text, NodeConfig>, arrivals: seq<ArrivalSpec>)
    requires Runnable(ops, nodes, arrivals)
    ensures Holds(Start(ops, nodes, arrivals), []) && SimInvariant(Start(ops, nodes, arrivals))
    ensures var live := Live(Start(ops, nodes, arrivals).kernel.queue.stored);
            (forall e :: e in live ==> e.payload.Arrival?) && |live| == |arrivals|
  {
    var k: Kernel<Payload> := Initial(H.SEED);
    var asks := ArrivalAsks(arrivals);
    ArrivalAsksShape(arrivals);
    DelaysApply(k, asks);
    ApplyAllAdds(k, AsDelays(asks));
    ApplyAllValid(k, asks);
    var m := Start(ops, nodes, arrivals);
    var live := Live(m.kernel.queue.stored);
    assert Added({}, live, AsDelays(asks), 0) by { assert Live(k.queue.stored) == {}; }
    ArrivalsLive(AsDelays(asks), live);
    NewRunnerOk(m.env, live, ops, nodes);
    assert Holds(m, []);
  }

  /** After scheduling, exactly the arrivals are live. */
  lemma {:induction false} ArrivalsLive(asks: seq<Ask>, live: set<Event>)
    requires AllForward(asks) && Added({}, live, asks, 0)
    requires forall a :: a in asks ==> a.ScheduleIn? && a.payload.Arrival? && a.eventType == TypeOf(a.payload)
    ensures |live| == |asks|
    ensures forall e :: e in live ==> e.payload.Arrival? && e.eventType == TypeOf(e.payload)
  {
    AllAsked(asks);
    assert Matching({}, Arrivals()) == {};
    assert Tally(live, Arrivals()) == |asks|;
    forall e | e in live ensures e.payload.Arrival? && e.eventType == TypeOf(e.payload) {}
    assert Matching(live, Arrivals()) == live;
  }

  ghost function Arrivals(): iset<Payload> { iset p: Payload | p.Arrival? }

  lemma {:induction false} AllAsked(asks: seq<Ask>)
    requires AllForward(asks) && forall a :: a in asks ==> a.ScheduleIn? && a.payload.Arrival?
    ensures Asked(asks, Arrivals()) == |asks|
  {
    if asks != [] {
      assert asks[0] in asks;
      AllAsked(asks[1..]);
    }
  }

  lemma {:induction false} NewRunnerOk(
    s: Runner, live: set<Event>, ops: map<Text, Operation>, nodes: map<Text, NodeConfig>)
    requires s == NewRunner(ops, nodes) && Runnable(ops, nodes, [])
    requires forall e :: e in live ==> e.payload.Arrival?
    ensures forall n :: n in s.nodes ==> NodeOk(s, live, n)
    ensures TotalsOk(s) && LogOk(s, [])
  {
    assert Running(s) == {};
    forall n | n in s.nodes ensures NodeOk(s, live, n) {
      assert RunningOn(s, n) == {};
      TallyNone(live, LocalAt(n));
      TallyNone(live, DepAt(n));
    }
  }

  // ---------- every step ----------

  lemma {:induction false} HandlerCalled(
    reading: (Runner, Payload) -> Json, sha: H.Digest, k: Kernel<Payload>, s: Runner, e: Event)
    requires e.eventType == TypeOf(e.payload)
    ensures Handle(SimulationProgram(reading, sha), k, s, e) == HandleEvent(s, e, k.clock)
  {
  }

  /** No handler ever asks for a negative delay. */
  lemma {:induction false} HandlersForward(s: Runner, live: set<Event>, clock: int, ds: seq<int>, e: Event)
    requires Invariant(s, live, clock, ds) && e in live
    ensures AllForward(HandleEvent(s, e, e.timeUs).1)
  {
    assert EventOk(s, e);
    match e.payload
    case Arrival(_, name) =>
      if name in s.ops && s.ops[name].nodeId in s.nodes {
        var op := s.ops[name];
        assert NodeOk(s, live, op.nodeId);
        if s.nodes[op.nodeId].threadpool.TryAcquire().1 != REJECTED {
          NewDuration(s, live, clock, ds, op);
          AcceptedShape(s, e, op);
        }
      }
    case LocalOpComplete(r, op) =>
      forall n | n in s.nodes ensures s.nodes[n].connPool.Valid() { assert NodeOk(s, live, n); }
      var mid, more, t := LocalSplits(s, e);
      AsyncAsksShape(s.ops, Asynchronous(SortDependencies(op.dependencies)));
      AskedConcat(AsyncOf(s, op), more, iset{});
    case _ =>
  }

  lemma {:induction false} HandlerKeeps(
    s: Runner, live: set<Event>, clock: int, ds: seq<int>, e: Event, live': set<Event>)
    requires Invariant(s, live, clock, ds) && e.timeUs >= clock
    requires AllForward(HandleEvent(s, e, e.timeUs).1)
    requires Stepped(live, e, live', HandleEvent(s, e, e.timeUs).1, e.timeUs)
    requires forall x :: x in live ==> x.timeUs >= e.timeUs
    ensures SameConfig(s, HandleEvent(s, e, e.timeUs).0)
    ensures Invariant(HandleEvent(s, e, e.timeUs).0, live', e.timeUs, ds + Started(s, e))
  {
    assert ds + [] == ds;
    match e.payload
    case Arrival(_, _) => ArrivalKeeps(s, live, clock, ds, e, live');
    case LocalOpComplete(_, _) => LocalKeeps(s, live, clock, ds, e, live');
    case DepComplete(_, _) =>
      assert EventOk(s, e);
      DepKeeps(s, live, clock, ds, e, live');
    case AsyncInvoke(_) =>
      forall n | n in s.nodes ensures s.nodes[n].threadpool.Valid() { assert NodeOk(s, live, n); }
      QuietKeeps(s, s, live, clock, ds, e, live');
  }

  /** The invariant of a machine whose requests have these local durations. */
  ghost predicate Holds(m: Machine<Payload, Runner>, ds: seq<int>) {
    Valid(m.kernel) && Invariant(m.env, Live(m.kernel.queue.stored), m.kernel.clock, ds)
  }

  /** The local duration of the request that the next step brings into being, if it does. */
  ghost function Starts(m: Machine<Payload, Runner>): seq<int> {
    if !Events.WellFormed(m.kernel.queue) || Front(m.kernel.queue).None? then []
    else Started(m.env, Front(m.kernel.queue).value)
  }

  /** What a step does when there is a live event: it calls the handler at the event's time, and does not fail. */
  lemma {:induction false} StepHandles(
    reading: (Runner, Payload) -> Json, sha: H.Digest, m: Machine<Payload, Runner>, ds: seq<int>, e: Event)
    requires Holds(m, ds) && Front(m.kernel.queue) == Some(e)
    ensures var s := MachineStep(SimulationProgram(reading, sha), m);
            var (t, asks) := HandleEvent(m.env, e, e.timeUs);
            && s.failure.None? && s.next.env == t && Valid(s.next.kernel)
            && s.next.kernel.clock == e.timeUs >= m.kernel.clock && AllForward(asks)
            && Stepped(Live(m.kernel.queue.stored), e, Live(s.next.kernel.queue.stored), asks, e.timeUs)
            && forall x :: x in Live(m.kernel.queue.stored) ==> x.timeUs >= e.timeUs
  {
    assert EventOk(m.env, e);
    HandlerCalled(reading, sha, m.kernel.(clock := e.timeUs), m.env, e);
    HandlersForward(m.env, Live(m.kernel.queue.stored), m.kernel.clock, ds, e);
    StepMoves(SimulationProgram(reading, sha), m);
  }

  /** One step: it never fails, it keeps the invariant, and a new request gets its local duration. */
  lemma {:induction false} StepLogs(
    reading: (Runner, Payload) -> Json, sha: H.Digest, m: Machine<Payload, Runner>, ds: seq<int>)
    requires Holds(m, ds)
    ensures var s := MachineStep(SimulationProgram(reading, sha), m);
            s.failure.None? && SameConfig(m.env, s.next.env) && Holds(s.next, ds + Starts(m))
  {
    var prog := SimulationProgram(reading, sha);
    var live := Live(m.kernel.queue.stored);
    assert ds + [] == ds;
    if Front(m.kernel.queue).None? {
      PopLive(m.kernel.queue);
      StepSafe(prog, m.kernel, m.env);
    } else {
      var e := Front(m.kernel.queue).value;
      StepHandles(reading, sha, m, ds, e);
      HandlerKeeps(m.env, live, m.kernel.clock, ds, e, Live(MachineStep(prog, m).next.kernel.queue.stored));
    }
  }

  /** One step: it never fails, and it keeps the invariant. */
  lemma {:induction false} StepKeeps(reading: (Runner, Payload) -> Json, sha: H.Digest, m: Machine<Payload, Runner>)
    requires SimInvariant(m)
    ensures SimInvariant(MachineStep(SimulationProgram(reading, sha), m).next)
    ensures MachineStep(SimulationProgram(reading, sha), m).failure.None?
    ensures SameConfig(m.env, MachineStep(SimulationProgram(reading, sha), m).next.env)
  {
    var ds :| Holds(m, ds);
    StepLogs(reading, sha, m, ds);
  }

  // ---------- every reachable state ----------

  /** The state after `n` steps of a simulation. */
  ghost function After(
    ops: map<Text, Operation>, nodes: map<Text, NodeConfig>, arrivals: seq<ArrivalSpec>,
    reading: (Runner, Payload) -> Json, sha: H.Digest, n: nat): Machine<Payload, Runner>
  {
    Run(SimulationProgram(reading, sha), Start(ops, nodes, arrivals), n)
  }

  ghost predicate Reached(m: Machine<Payload, Runner>, s: Runner) {
    SimInvariant(m) && SameConfig(s, m.env)
  }

  lemma {:induction false} ReachedKept(reading: (Runner, Payload) -> Json, sha: H.Digest, s: Runner)
    ensures R.Kept(Stepper(SimulationProgram(reading, sha)), (m: Machine<Payload, Runner>) => Reached(m, s))
  {
    forall m: Machine<Payload, Runner> | Reached(m, s)
      ensures Reached(Stepper(SimulationProgram(reading, sha))(m).next, s)
    {
      StepKeeps(reading, sha, m);
    }
  }

  lemma {:induction false} AfterReached(
    ops: map<Text, Operation>, nodes: map<Text, NodeConfig>, arrivals: seq<ArrivalSpec>,
    reading: (Runner, Payload) -> Json, sha: H.Digest, n: nat)
    requires Runnable(ops, nodes, arrivals)
    ensures Reached(After(ops, nodes, arrivals, reading, sha, n), NewRunner(ops, nodes))
  {
    var s := NewRunner(ops, nodes);
    StartInvariant(ops, nodes, arrivals);
    ReachedKept(reading, sha, s);
    R.RunKeeps(Stepper(SimulationProgram(reading, sha)), (m: Machine<Payload, Runner>) => Reached(m, s),
               Start(ops, nodes, arrivals), n);
  }

  /**
   Conservation, in every reachable state. Every arrival is counted once, as a success, as a
   failure or as still running; each node holds one thread for every running request rooted
   there, one CPU task for every outstanding local completion, and one connection or waiter for
   every outstanding dependency completion, within its limits.
  */
  lemma {:induction false} Conservation(
    ops: map<Text, Operation>, nodes: map<Text, NodeConfig>, arrivals: seq<ArrivalSpec>,
    reading: (Runner, Payload) -> Json, sha: H.Digest, n: nat)
    requires Runnable(ops, nodes, arrivals)
    ensures var m := After(ops, nodes, arrivals, reading, sha, n);
            var (s, live) := (m.env, Live(m.kernel.queue.stored));
            && s.totalArrivals == s.successes + s.failures + |Running(s)|
            && s.nodes.Keys == nodes.Keys
            && forall id :: id in nodes ==>
                 var node := s.nodes[id];
                 && node.threadpool.active + node.threadpool.queued == |RunningOn(s, id)|
                 && node.cpu.active == Tally(live, LocalAt(id))
                 && node.connPool.active + node.connPool.waiting == Tally(live, DepAt(id))
                 && node.cpu.active <= nodes[id].threadPoolSize + nodes[id].threadPoolQueueCapacity
  {
    AfterReached(ops, nodes, arrivals, reading, sha, n);
    var m := After(ops, nodes, arrivals, reading, sha, n);
    var s, live := m.env, Live(m.kernel.queue.stored);
    var ds :| Holds(m, ds);
    forall id | id in nodes
      ensures NodeOk(s, live, id) && Tally(live, LocalAt(id)) <= |RunningOn(s, id)|
    {
      LocalEventsRun(s, live, m.kernel.clock, ds, id);
    }
  }

  /**
   finishRequest is called exactly once for every request that stops running, also when a
   dependency fails after earlier ones were started, and never for one that still runs.
  */
  lemma {:induction false} FinishedOnce(
    ops: map<Text, Operation>, nodes: map<Text, NodeConfig>, arrivals: seq<ArrivalSpec>,
    reading: (Runner, Payload) -> Json, sha: H.Digest, n: nat, r: nat)
    requires Runnable(ops, nodes, arrivals)
    requires r < |After(ops, nodes, arrivals, reading, sha, n).env.requests|
    ensures var s := After(ops, nodes, arrivals, reading, sha, n).env;
            && s.successes == Count(s.finished, SUCCESS)
            && s.failures == Count(s.finished, FAILED) + (s.totalArrivals - |s.requests|)
            && (s.requests[r].status == RUNNING ==>
                  forall i :: 0 <= i < |s.finished| ==> s.finished[i].request != r)
            && (s.requests[r].status != RUNNING ==>
                  exists i :: 0 <= i < |s.finished| && s.finished[i].request == r &&
                    s.finished[i].status == s.requests[r].status &&
                    forall j :: 0 <= j < |s.finished| && s.finished[j].request == r ==> j == i)
  {
    AfterReached(ops, nodes, arrivals, reading, sha, n);
    var ds :| Holds(After(ops, nodes, arrivals, reading, sha, n), ds);
    HeldOnce(After(ops, nodes, arrivals, reading, sha, n), ds, r);
  }

  lemma {:induction false} HeldOnce(m: Machine<Payload, Runner>, ds: seq<int>, r: nat)
    requires Holds(m, ds) && r < |m.env.requests|
    ensures TotalsOk(m.env)
    ensures m.env.requests[r].status == RUNNING ==>
              forall i :: 0 <= i < |m.env.finished| ==> m.env.finished[i].request != r
    ensures m.env.requests[r].status != RUNNING ==>
              exists i :: 0 <= i < |m.env.finished| && m.env.finished[i].request == r &&
                m.env.finished[i].status == m.env.requests[r].status &&
                forall j :: 0 <= j < |m.env.finished| && m.env.finished[j].request == r ==> j == i
  {
    LoggedOnce(m.env, ds, r);
  }

  lemma {:induction false} LoggedOnce(s: Runner, ds: seq<int>, r: nat)
    requires |ds| == |s.requests| && LogOk(s, ds) && r < |s.requests|
    ensures s.requests[r].status == RUNNING ==> forall i :: 0 <= i < |s.finished| ==> s.finished[i].request != r
    ensures s.requests[r].status != RUNNING ==>
              exists i :: 0 <= i < |s.finished| && s.finished[i].request == r &&
                s.finished[i].status == s.requests[r].status &&
                forall j :: 0 <= j < |s.finished| && s.finished[j].request == r ==> j == i
  {
    if s.requests[r].status == RUNNING {
      forall i | 0 <= i < |s.finished| ensures s.finished[i].request != r { assert EntryOk(s, ds, s.finished[i]); }
    } else {
      var i :| 0 <= i < |s.finished| && s.finished[i].request == r;
      assert EntryOk(s, ds, s.finished[i]);
    }
  }

  // ---------- the wait is the slowest synchronous dependency ----------

  lemma {:induction false} InsertKeeps(d: Dependency, sorted: seq<Dependency>)
    ensures forall x :: x in InsertDependency(d, sorted) <==> x == d || x in sorted
    ensures |InsertDependency(d, sorted)| == |sorted| + 1
  {
    if sorted != [] {
      InsertKeeps(d, sorted[1..]);
      assert sorted == [sorted[0]] + sorted[1..];
    }
  }

  lemma {:induction false} SortKeeps(deps: seq<Dependency>)
    ensures forall x :: x in SortDependencies(deps) <==> x in deps
    ensures |SortDependencies(deps)| == |deps|
  {
    if deps != [] {
      SortKeeps(deps[1..]);
      InsertKeeps(deps[0], SortDependencies(deps[1..]));
      assert deps == [deps[0]] + deps[1..];
    }
  }

  lemma {:induction false} SynchronousKeeps(deps: seq<Dependency>)
    ensures forall x :: x in Synchronous(deps) <==> x in deps && x.executionMode != ASYNC
    ensures |Synchronous(deps)| + |Asynchronous(deps)| == |deps|
  {
    if deps != [] {
      SynchronousKeeps(deps[1..]);
      assert deps == [deps[0]] + deps[1..];
    }
  }

  lemma {:induction false} LongestIsMax(ops: map<Text, Operation>, deps: seq<Dependency>)
    ensures forall x :: x in deps && x.targetOperationName in ops ==>
              DownstreamDelay(ops[x.targetOperationName]) <= Longest(ops, deps)
    ensures Longest(ops, deps) > 0 ==>
              exists x :: x in deps && x.targetOperationName in ops &&
                DownstreamDelay(ops[x.targetOperationName]) == Longest(ops, deps)
  {
    if deps != [] {
      LongestIsMax(ops, deps[1..]);
      assert deps == [deps[0]] + deps[1..];
    }
  }

  /** The wait is the largest of base latency + 1000 over the synchronous dependencies, in any order. */
  lemma {:induction false} WaitIsSlowest(ops: map<Text, Operation>, op: Operation)
    ensures forall x :: x in op.dependencies && x.executionMode != ASYNC && x.targetOperationName in ops ==>
              ops[x.targetOperationName].baseLatencyUs + 1000 <= DependencyWait(ops, op)
    ensures DependencyWait(ops, op) > 0 ==>
              exists x :: x in op.dependencies && x.executionMode != ASYNC && x.targetOperationName in ops &&
                ops[x.targetOperationName].baseLatencyUs + 1000 == DependencyWait(ops, op)
  {
    SortKeeps(op.dependencies);
    SynchronousKeeps(SortDependencies(op.dependencies));
    LongestIsMax(ops, Synchronous(SortDependencies(op.dependencies)));
  }
}
