/**
 The latency of a finished request: exactly the CPU time computed in the step that accepted it,
 plus the wait for its slowest synchronous dependency.
 */
module Latencies {
  import opened Utf16
  import opened Canonical
  import opened Events
  import opened Resources
  import opened KernelSpec
  import opened RunnerSpec
  import opened RunnerInvariant
  import opened RunnerSteps
  import opened Simulations
  import H = StateHash
  import R = Runs

  /** A request as it was accepted: what it calls, and how long it runs locally. */
  datatype Begun = Begun(operationName: Text, localUs: int)

  function Locals(log: seq<Begun>): (ds: seq<int>)
    ensures |ds| == |log| && forall r :: 0 <= r < |log| ==> ds[r] == log[r].localUs
  {
    seq(|log|, r requires 0 <= r < |log| => log[r].localUs)
  }

  /** The requests are those of the log, in order. */
  ghost predicate Rooted(s: Runner, log: seq<Begun>) {
    |s.requests| == |log| && forall r :: 0 <= r < |log| ==> s.requests[r].rootOperationName == log[r].operationName
  }

  function BegunBy(s: Runner, e: Event): seq<Begun> {
    if e.payload.Arrival? && Accepted(s, e.payload.operationName)
    then [Begun(e.payload.operationName, LocalDuration(s, e.payload.operationName))]
    else []
  }

  /** The request that the next step accepts, if it does. */
  ghost function Begins(m: Machine<Payload, Runner>): seq<Begun> {
    if !Events.WellFormed(m.kernel.queue) || Front(m.kernel.queue).None? then []
    else BegunBy(m.env, Front(m.kernel.queue).value)
  }

  // ---------- handlers never rename a request ----------

  ghost predicate SameRoots(s: Runner, t: Runner) {
    |t.requests| == |s.requests|
    && forall r :: 0 <= r < |s.requests| ==> t.requests[r].rootOperationName == s.requests[r].rootOperationName
  }

  lemma {:induction false} FinishSameRoots(s: Runner, r: nat, now: int)
    requires r < |s.requests|
    ensures SameRoots(s, FinishRequest(s, r, now)) && SameRoots(s, Fail(s, r, now))
  {
  }

  lemma {:induction false} StartSameRoots(s: Runner, r: nat, deps: seq<Dependency>, now: int)
    requires r < |s.requests|
    ensures SameRoots(s, StartDependencies(s, r, deps, now).0)
    decreases |deps|
  {
    FinishSameRoots(s, r, now);
    if deps != [] && deps[0].targetOperationName in s.ops && deps[0].targetNodeId in s.nodes {
      var t := Connect(s, deps[0].targetNodeId).0;
      FinishSameRoots(t, r, now);
      StartSameRoots(t, r, deps[1..], now);
    }
  }

  lemma {:induction false} HandlerRoots(s: Runner, e: Event, now: int, log: seq<Begun>)
    requires Rooted(s, log)
    ensures Rooted(HandleEvent(s, e, now).0, log + BegunBy(s, e))
  {
    assert log + [] == log;
    match e.payload
    case Arrival(_, _) =>
    case LocalOpComplete(r, op) =>
      if r < |s.requests| { LocalSameRoots(s, r, op, now); }
    case DepComplete(r, n) =>
      if r < |s.requests| { DepSameRoots(s, r, n, now); }
    case AsyncInvoke(_) =>
  }

  lemma {:induction false} LocalSameRoots(s: Runner, r: nat, op: Operation, now: int)
    requires r < |s.requests|
    ensures SameRoots(s, OnLocalOpComplete(s, r, op, now).0)
  {
    var idle, sync := ReleaseCpu(s, op.nodeId), Synchronous(SortDependencies(op.dependencies));
    FinishSameRoots(idle, r, now);
    var waiting := idle.(requests := s.requests[r := s.requests[r].(pendingDependencies := |sync|)]);
    StartSameRoots(waiting, r, sync, now);
  }

  lemma {:induction false} DepSameRoots(s: Runner, r: nat, n: Text, now: int)
    requires r < |s.requests|
    ensures SameRoots(s, OnDepComplete(s, r, n, now))
  {
    var left := s.requests[r].pendingDependencies - 1;
    var t := ReleaseConnection(s, n).(requests := s.requests[r := s.requests[r].(pendingDependencies := left)]);
    FinishSameRoots(t, r, now);
  }

  // ---------- the log of a run ----------

  ghost function Beginner(): Machine<Payload, Runner> -> seq<Begun> {
    (m: Machine<Payload, Runner>) => Begins(m)
  }

  /** The requests accepted by the first `n` steps, in order. */
  ghost function Log(prog: Program<Payload, Runner>, m: Machine<Payload, Runner>, n: nat): seq<Begun> {
    R.RunLog(Stepper(prog), Beginner(), m, n)
  }

  /** The invariant, of exactly the durations computed on acceptance. */
  ghost predicate Logged(m: Machine<Payload, Runner>, log: seq<Begun>, s: Runner) {
    Holds(m, Locals(log)) && Rooted(m.env, log) && SameConfig(s, m.env)
  }

  lemma {:induction false} StepLogged(
    reading: (Runner, Payload) -> Json, sha: H.Digest, m: Machine<Payload, Runner>, log: seq<Begun>, s: Runner)
    requires Logged(m, log, s)
    ensures Logged(MachineStep(SimulationProgram(reading, sha), m).next, log + Begins(m), s)
  {
    StepLogs(reading, sha, m, Locals(log));
    LocalsJoin(log, m);
    StepRoots(reading, sha, m, Locals(log), log);
  }

  lemma {:induction false} LocalsJoin(log: seq<Begun>, m: Machine<Payload, Runner>)
    ensures Locals(log + Begins(m)) == Locals(log) + Starts(m)
  {
  }

  lemma {:induction false} StepRoots(
    reading: (Runner, Payload) -> Json, sha: H.Digest, m: Machine<Payload, Runner>, ds: seq<int>, log: seq<Begun>)
    requires Holds(m, ds) && Rooted(m.env, log)
    ensures Rooted(MachineStep(SimulationProgram(reading, sha), m).next.env, log + Begins(m))
  {
    var prog := SimulationProgram(reading, sha);
    assert log + [] == log;
    if Front(m.kernel.queue).None? {
      StepSafe(prog, m.kernel, m.env);
    } else {
      var e := Front(m.kernel.queue).value;
      StepHandles(reading, sha, m, ds, e);
      HandlerRoots(m.env, e, e.timeUs, log);
    }
  }

  /** After any number of steps the invariant holds of exactly the durations computed on acceptance. */
  lemma {:induction false} RunLogged(
    reading: (Runner, Payload) -> Json, sha: H.Digest, m: Machine<Payload, Runner>, n: nat)
    requires Logged(m, [], m.env)
    ensures Logged(Run(SimulationProgram(reading, sha), m, n), Log(SimulationProgram(reading, sha), m, n), m.env)
  {
    var prog := SimulationProgram(reading, sha);
    var inv := (x: Machine<Payload, Runner>, log: seq<Begun>) => Logged(x, log, m.env);
    forall x: Machine<Payload, Runner>, log: seq<Begun> | inv(x, log)
      ensures inv(Stepper(prog)(x).next, log + Beginner()(x))
    {
      StepLogged(reading, sha, x, log, m.env);
    }
    R.RunLogs(Stepper(prog), Beginner(), inv, m, [], n);
    assert [] + Log(prog, m, n) == Log(prog, m, n);
  }

  lemma {:induction false} RunLength(
    reading: (Runner, Payload) -> Json, sha: H.Digest, m: Machine<Payload, Runner>, n: nat)
    requires Logged(m, [], m.env)
    ensures |Run(SimulationProgram(reading, sha), m, n).env.requests| == |Log(SimulationProgram(reading, sha), m, n)|
  {
    RunLogged(reading, sha, m, n);
  }

  ghost function Requests(): Machine<Payload, Runner> -> nat {
    (m: Machine<Payload, Runner>) => |m.env.requests|
  }

  /** Step `k`, and no other, adds request `r`. */
  ghost predicate AcceptedIn(prog: Program<Payload, Runner>, m: Machine<Payload, Runner>, k: nat, r: nat) {
    R.Counts(Stepper(prog), Requests(), m, k, r)
  }

  /** Every entry of the log was made by the step that accepted the request. */
  lemma {:induction false} LogOrigin(
    reading: (Runner, Payload) -> Json, sha: H.Digest, m: Machine<Payload, Runner>, n: nat, r: nat) returns (k: nat)
    requires Logged(m, [], m.env) && r < |Log(SimulationProgram(reading, sha), m, n)|
    ensures var prog := SimulationProgram(reading, sha);
            k < n && AcceptedIn(prog, m, k, r) && Begins(Run(prog, m, k)) == [Log(prog, m, n)[r]]
  {
    var step := Stepper(SimulationProgram(reading, sha));
    forall j: nat ensures Requests()(R.Run(step, m, j)) == |R.RunLog(step, Beginner(), m, j)| {
      RunLength(reading, sha, m, j);
    }
    k := R.RunLogCounts(step, Beginner(), Requests(), m, n, r);
    assert Beginner()(R.Run(step, m, k)) == Begins(R.Run(step, m, k));
  }

  // ---------- the result ----------

  /** The latency of a success with this local duration is that plus the wait for its dependencies, at least 1. */
  ghost predicate TimedBy(nodes: map<Text, NodeConfig>, s: Runner, f: Finish, local: int) {
    && f.request < |s.requests| && HasRoot(s, f.request) && RootOp(s, f.request).nodeId in nodes
    && var op := RootOp(s, f.request);
       var node := nodes[op.nodeId];
       var whole := local + DependencyWait(s.ops, op);
       && f.latencyUs == (if whole > 1 then whole else 1)
       && op.baseLatencyUs <= local
       && local <= WorstDuration(node.cpuCores, op.baseLatencyUs, node.threadPoolSize + node.threadPoolQueueCapacity)
  }

  lemma {:induction false} EntryLatency(
    nodes: map<Text, NodeConfig>, s: Runner, live: set<Event>, clock: int, ds: seq<int>, i: nat)
    requires Invariant(s, live, clock, ds) && SameConfig(NewRunner(s.ops, nodes), s)
    requires i < |s.finished| && s.finished[i].status == SUCCESS && s.finished[i].request < |s.requests|
    ensures TimedBy(nodes, s, s.finished[i], ds[s.finished[i].request])
  {
    var f := s.finished[i];
    assert EntryOk(s, ds, f);
    assert RequestOk(s, live, clock, f.request, ds[f.request]);
    OneEntryLatency(nodes, s, ds, f);
  }

  lemma {:induction false} OneEntryLatency(nodes: map<Text, NodeConfig>, s: Runner, ds: seq<int>, f: Finish)
    requires |ds| == |s.requests| && EntryOk(s, ds, f) && f.status == SUCCESS
    requires PossibleDuration(s, RootOp(s, f.request), ds[f.request]) && SameConfig(NewRunner(s.ops, nodes), s)
    ensures TimedBy(nodes, s, f, ds[f.request])
  {
    SameLimits(s, nodes, RootOp(s, f.request), ds[f.request]);
  }

  lemma {:induction false} SameLimits(s: Runner, nodes: map<Text, NodeConfig>, op: Operation, d: int)
    requires SameConfig(NewRunner(s.ops, nodes), s) && op.nodeId in s.nodes && PossibleDuration(s, op, d)
    ensures op.nodeId in nodes
    ensures var node := nodes[op.nodeId];
            && op.baseLatencyUs <= d
            && d <= WorstDuration(node.cpuCores, op.baseLatencyUs, node.threadPoolSize + node.threadPoolQueueCapacity)
  {
    assert op.nodeId in NewRunner(s.ops, nodes).nodes;
  }

  /**
   The latency of a call that was accepted in state `x`: max(1, local + wait). The local duration
   is what processor sharing gives with the call's own task counted on its node's CPU; the wait
   is the longest delay among the operation's synchronous dependencies. The local duration lies
   between the base latency and the worst case of a full pool and queue.
  */
  ghost predicate LatencyFrom(
    ops: map<Text, Operation>, nodes: map<Text, NodeConfig>, x: Runner, name: Text, latencyUs: int)
  {
    && name in ops && ops[name].nodeId in nodes && ops[name].nodeId in x.nodes
    && var op := ops[name];
       var node := nodes[op.nodeId];
       var local := x.nodes[op.nodeId].cpu.Acquire().Duration(op.baseLatencyUs);
       var whole := local + DependencyWait(ops, op);
       var n, cores := x.nodes[op.nodeId].cpu.active + 1, node.cpuCores;
       && latencyUs == (if whole > 1 then whole else 1)
       && (n <= cores ==> local == op.baseLatencyUs)
       && (n > cores ==> 0 < 2 * cores * local - 2 * (op.baseLatencyUs * n) + cores <= 2 * cores)
       && op.baseLatencyUs <= local <=
            WorstDuration(cores, op.baseLatencyUs, node.threadPoolSize + node.threadPoolQueueCapacity)
  }

  lemma {:induction false} BeginsMeans(x: Machine<Payload, Runner>, b: Begun)
    requires Begins(x) == [b]
    ensures Accepted(x.env, b.operationName) && b.localUs == LocalDuration(x.env, b.operationName)
  {
  }

  lemma {:induction false} TimedFrom(nodes: map<Text, NodeConfig>, s: Runner, f: Finish, b: Begun, x: Runner)
    requires TimedBy(nodes, s, f, b.localUs) && s.requests[f.request].rootOperationName == b.operationName
    requires Accepted(x, b.operationName) && b.localUs == LocalDuration(x, b.operationName) && x.ops == s.ops
    requires SameConfig(NewRunner(s.ops, nodes), x)
    ensures LatencyFrom(s.ops, nodes, x, b.operationName, f.latencyUs)
  {
    var op := s.ops[b.operationName];
    var cpu := x.nodes[op.nodeId].cpu.Acquire();
    assert op.nodeId in NewRunner(s.ops, nodes).nodes;
    DurationMeans(cpu, op.baseLatencyUs);
  }

  lemma {:induction false} LoggedLatency(
    nodes: map<Text, NodeConfig>, m: Machine<Payload, Runner>, log: seq<Begun>, i: nat, x: Machine<Payload, Runner>)
    requires Logged(m, log, NewRunner(m.env.ops, nodes))
    requires i < |m.env.finished| && m.env.finished[i].status == SUCCESS
    requires m.env.finished[i].request < |log| && Begins(x) == [log[m.env.finished[i].request]]
    requires x.env.ops == m.env.ops && SameConfig(NewRunner(m.env.ops, nodes), x.env)
    ensures var f := m.env.finished[i];
            LatencyFrom(m.env.ops, nodes, x.env, m.env.requests[f.request].rootOperationName, f.latencyUs)
  {
    var f := m.env.finished[i];
    EntryLatency(nodes, m.env, Live(m.kernel.queue.stored), m.kernel.clock, Locals(log), i);
    BeginsMeans(x, log[f.request]);
    TimedFrom(nodes, m.env, f, log[f.request], x.env);
  }

  lemma {:induction false} FinishedLogged(m: Machine<Payload, Runner>, log: seq<Begun>, s: Runner, i: nat)
    requires Logged(m, log, s) && i < |m.env.finished|
    ensures m.env.finished[i].request < |m.env.requests| == |log|
  {
    assert EntryOk(m.env, Locals(log), m.env.finished[i]);
  }

  lemma {:induction false} StartLogged(ops: map<Text, Operation>, nodes: map<Text, NodeConfig>, arrivals: seq<ArrivalSpec>)
    requires Runnable(ops, nodes, arrivals)
    ensures Logged(Start(ops, nodes, arrivals), [], Start(ops, nodes, arrivals).env)
  {
    StartInvariant(ops, nodes, arrivals);
    assert Locals([]) == [];
  }

  /** Every recorded latency comes, as LatencyFrom says, from the state in which its request was accepted. */
  lemma {:induction false} RecordedLatency(
    ops: map<Text, Operation>, nodes: map<Text, NodeConfig>, arrivals: seq<ArrivalSpec>,
    reading: (Runner, Payload) -> Json, sha: H.Digest, n: nat, i: nat) returns (k: nat)
    requires Runnable(ops, nodes, arrivals)
    requires i < |Simulations.After(ops, nodes, arrivals, reading, sha, n).env.finished|
    requires Simulations.After(ops, nodes, arrivals, reading, sha, n).env.finished[i].status == SUCCESS
    ensures var s := Simulations.After(ops, nodes, arrivals, reading, sha, n).env;
            var f := s.finished[i];
            && k < n && AcceptedIn(SimulationProgram(reading, sha), Start(ops, nodes, arrivals), k, f.request)
            && f.request < |s.requests|
            && LatencyFrom(ops, nodes, Simulations.After(ops, nodes, arrivals, reading, sha, k).env,
                           s.requests[f.request].rootOperationName, f.latencyUs)
  {
    var prog, m := SimulationProgram(reading, sha), Start(ops, nodes, arrivals);
    StartLogged(ops, nodes, arrivals);
    RunLogged(reading, sha, m, n);
    var y, log := Run(prog, m, n), Log(prog, m, n);
    FinishedLogged(y, log, m.env, i);
    k := LogOrigin(reading, sha, m, n, y.env.finished[i].request);
    RunLogged(reading, sha, m, k);
    LoggedLatency(nodes, y, log, i, Run(prog, m, k));
  }
}
