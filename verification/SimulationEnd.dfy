/**
 A simulation ends: every event weighs more than all the events its handler asks for, so there
 are at most arrivals * (2 + largest number of dependencies) steps. And when nothing is left,
 every arrival is accounted for and every pool is idle.
 */
module SimulationEnds {
  import opened Common
  import opened Utf16
  import opened Canonical
  import opened Events
  import opened KernelSpec
  import opened RunnerSpec
  import opened Pending
  import opened RunnerInvariant
  import opened RunnerSteps
  import opened RunnerLocal
  import opened Simulations
  import H = StateHash
  import R = Runs

  ghost function Locals(): iset<Payload> { iset p: Payload | p.LocalOpComplete? }

  ghost function Others(): iset<Payload> { iset p: Payload | p.DepComplete? || p.AsyncInvoke? }

  /** Arrivals weigh 2 + D, local completions 1 + D, everything else 1. */
  ghost function Weight(live: set<Event>, d: nat): nat {
    (2 + d) * Tally(live, Arrivals()) + (1 + d) * Tally(live, Locals()) + Tally(live, Others())
  }

  ghost function WeightAsked(asks: seq<Ask>, d: nat): nat
    requires AllForward(asks)
  {
    (2 + d) * Asked(asks, Arrivals()) + (1 + d) * Asked(asks, Locals()) + Asked(asks, Others())
  }

  function WeightOf(p: Payload, d: nat): nat {
    if p.Arrival? then 2 + d else if p.LocalOpComplete? then 1 + d else 1
  }

  ghost predicate DependencyBound(ops: map<Text, Operation>, d: nat) {
    forall name :: name in ops ==> |ops[name].dependencies| <= d
  }

  lemma {:induction false} AskedOthers(asks: seq<Ask>)
    requires AllForward(asks)
    requires forall a :: a in asks ==> a.ScheduleIn? && a.payload in Others()
    ensures Asked(asks, Others()) == |asks|
    ensures Asked(asks, Arrivals()) == 0 && Asked(asks, Locals()) == 0
  {
    NoneAsked(asks, Arrivals());
    NoneAsked(asks, Locals());
    if asks != [] {
      assert asks[0] in asks;
      AskedOthers(asks[1..]);
    }
  }

  lemma {:induction false} AsyncAsksFew(ops: map<Text, Operation>, deps: seq<Dependency>)
    ensures |AsyncAsks(ops, deps)| <= |deps|
  {
    if deps != [] { AsyncAsksFew(ops, deps[1..]); }
  }

  lemma {:induction false} ArrivalLighter(s: Runner, e: Event, d: nat)
    requires e.payload.Arrival? && AllForward(HandleEvent(s, e, e.timeUs).1)
    ensures WeightAsked(HandleEvent(s, e, e.timeUs).1, d) < WeightOf(e.payload, d)
  {
    var asks := HandleEvent(s, e, e.timeUs).1;
    if asks != [] {
      AskedOne(asks, Arrivals());
      AskedOne(asks, Locals());
      AskedOne(asks, Others());
    }
  }

  lemma {:induction false} LocalLighter(s: Runner, live: set<Event>, clock: int, ds: seq<int>, e: Event, d: nat)
    requires Invariant(s, live, clock, ds) && e in live && DependencyBound(s.ops, d) && e.payload.LocalOpComplete?
    requires AllForward(HandleEvent(s, e, e.timeUs).1)
    ensures WeightAsked(HandleEvent(s, e, e.timeUs).1, d) < WeightOf(e.payload, d)
  {
    var deps := SortDependencies(e.payload.op.dependencies);
    LocalEventRuns(s, live, clock, ds, e);
    forall n | n in s.nodes ensures s.nodes[n].connPool.Valid() { assert NodeOk(s, live, n); }
    var mid, more, t := LocalSplits(s, e);
    AsyncAsksShape(s.ops, Asynchronous(deps));
    AsyncAsksFew(s.ops, Asynchronous(deps));
    SortKeeps(e.payload.op.dependencies);
    SynchronousKeeps(deps);
    AskedOthers(HandleEvent(s, e, e.timeUs).1);
  }

  /** What a handler asks for weighs less than the event it handles. */
  lemma {:induction false} AskedLighter(s: Runner, live: set<Event>, clock: int, ds: seq<int>, e: Event, d: nat)
    requires Invariant(s, live, clock, ds) && e in live && DependencyBound(s.ops, d)
    requires AllForward(HandleEvent(s, e, e.timeUs).1)
    ensures WeightAsked(HandleEvent(s, e, e.timeUs).1, d) < WeightOf(e.payload, d)
  {
    match e.payload
    case Arrival(_, _) => ArrivalLighter(s, e, d);
    case LocalOpComplete(_, _) => LocalLighter(s, live, clock, ds, e, d);
    case _ =>
  }

  lemma {:induction false} Distribute(k: int, a: int, x: int, p: int)
    ensures k * (a - x + p) == k * a - k * x + k * p
  {
  }

  lemma {:induction false} WeightSplits(p: Payload, d: nat)
    ensures WeightOf(p, d) ==
            (2 + d) * One(p in Arrivals()) + (1 + d) * One(p in Locals()) + One(p in Others())
  {
  }

  lemma {:induction false} StepLighter(live: set<Event>, e: Event, live': set<Event>, asks: seq<Ask>, now: int, d: nat)
    requires Stepped(live, e, live', asks, now)
    requires WeightAsked(asks, d) < WeightOf(e.payload, d)
    ensures Weight(live', d) < Weight(live, d)
  {
    Distribute(2 + d, Tally(live, Arrivals()), One(e.payload in Arrivals()), Asked(asks, Arrivals()));
    Distribute(1 + d, Tally(live, Locals()), One(e.payload in Locals()), Asked(asks, Locals()));
    WeightSplits(e.payload, d);
    assert Tally(live', Arrivals()) == Tally(live, Arrivals()) - One(e.payload in Arrivals()) + Asked(asks, Arrivals());
    assert Tally(live', Locals()) == Tally(live, Locals()) - One(e.payload in Locals()) + Asked(asks, Locals());
    assert Tally(live', Others()) == Tally(live, Others()) - One(e.payload in Others()) + Asked(asks, Others());
  }

  lemma {:induction false} MachineLighter(reading: (Runner, Payload) -> Json, sha: H.Digest, m: Machine<Payload, Runner>, d: nat)
    requires SimInvariant(m) && DependencyBound(m.env.ops, d) && Front(m.kernel.queue).Some?
    ensures Weight(Live(MachineStep(SimulationProgram(reading, sha), m).next.kernel.queue.stored), d) <
            Weight(Live(m.kernel.queue.stored), d)
  {
    var prog := SimulationProgram(reading, sha);
    var live := Live(m.kernel.queue.stored);
    var ds :| Holds(m, ds);
    var e := Front(m.kernel.queue).value;
    assert EventOk(m.env, e);
    HandlerCalled(reading, sha, m.kernel.(clock := e.timeUs), m.env, e);
    HandlersForward(m.env, live, m.kernel.clock, ds, e);
    StepMoves(prog, m);
    AskedLighter(m.env, live, m.kernel.clock, ds, e, d);
    StepLighter(live, e, Live(MachineStep(prog, m).next.kernel.queue.stored),
                HandleEvent(m.env, e, e.timeUs).1, e.timeUs, d);
  }

  /** One permitted round of runUntil. */
  lemma {:induction false} RoundLighter(
    reading: (Runner, Payload) -> Json, sha: H.Digest, m: Machine<Payload, Runner>, s: Runner, d: nat,
    maxTimeUs: int, maxEvents: Option<nat>)
    requires Reached(m, s) && DependencyBound(s.ops, d) && Look(m, maxTimeUs, maxEvents).1.None?
    ensures var next := MachineStep(SimulationProgram(reading, sha), Look(m, maxTimeUs, maxEvents).0);
            && next.failure.None? && Reached(next.next, s)
            && Weight(Live(next.next.kernel.queue.stored), d) < Weight(Live(m.kernel.queue.stored), d)
  {
    LookHarmless(SimulationProgram(reading, sha), m, maxTimeUs, maxEvents);
    StepKeeps(reading, sha, m);
    MachineLighter(reading, sha, m, d);
  }

  lemma {:induction false} StartWeight(live: set<Event>, n: nat, d: nat)
    requires (forall e :: e in live ==> e.payload.Arrival?) && |live| == n
    ensures Weight(live, d) == n * (2 + d)
  {
    assert Matching(live, Arrivals()) == live;
    TallyNone(live, Locals());
    TallyNone(live, Others());
  }

  /**
   runUntil needs no more steps than arrivals * (2 + D) and never fails, whatever the time and
   event limits, when no operation has more than D dependencies.
  */
  lemma {:induction false} SimulationEnds(
    ops: map<Text, Operation>, nodes: map<Text, NodeConfig>, arrivals: seq<ArrivalSpec>,
    reading: (Runner, Payload) -> Json, sha: H.Digest, d: nat, maxTimeUs: int, maxEvents: Option<nat>, fuel: nat)
    requires Runnable(ops, nodes, arrivals) && DependencyBound(ops, d)
    requires fuel >= |arrivals| * (2 + d)
    ensures var r := RunUntil(SimulationProgram(reading, sha), Start(ops, nodes, arrivals), maxTimeUs, maxEvents, fuel);
            r.stop.Checked? && r.steps <= |arrivals| * (2 + d)
  {
    var prog, s := SimulationProgram(reading, sha), NewRunner(ops, nodes);
    var look := Looker<Payload, Runner>(maxTimeUs, maxEvents);
    var m := Start(ops, nodes, arrivals);
    StartInvariant(ops, nodes, arrivals);
    StartWeight(Live(m.kernel.queue.stored), |arrivals|, d);
    forall x: Machine<Payload, Runner> | Reached(x, s)
      ensures match look(x).1
              case Some(reason) => true
              case None =>
                var next := Stepper(prog)(look(x).0);
                && next.failure.None? && Reached(next.next, s)
                && Weight(Live(next.next.kernel.queue.stored), d) < Weight(Live(x.kernel.queue.stored), d)
    {
      if look(x).1.None? { RoundLighter(reading, sha, x, s, d, maxTimeUs, maxEvents); }
    }
    R.LoopSettles(Stepper(prog), look, (x: Machine<Payload, Runner>) => Reached(x, s), (r: Reason) => true,
                  (x: Machine<Payload, Runner>) => Weight(Live(x.kernel.queue.stored), d), m, fuel);
  }

  // ---------- what holds at the end ----------

  /** No handler asks for an arrival. */
  lemma {:induction false} NoArrivalAsked(s: Runner, live: set<Event>, clock: int, ds: seq<int>, e: Event)
    requires Invariant(s, live, clock, ds) && e in live && AllForward(HandleEvent(s, e, e.timeUs).1)
    ensures Asked(HandleEvent(s, e, e.timeUs).1, Arrivals()) == 0
  {
    var asks := HandleEvent(s, e, e.timeUs).1;
    if e.payload.LocalOpComplete? {
      var deps := SortDependencies(e.payload.op.dependencies);
      LocalEventRuns(s, live, clock, ds, e);
      forall n | n in s.nodes ensures s.nodes[n].connPool.Valid() { assert NodeOk(s, live, n); }
      var mid, more, t := LocalSplits(s, e);
      AsyncAsksShape(s.ops, Asynchronous(deps));
    }
    NoneAsked(asks, Arrivals());
  }

  /** Only an arrival is counted as one. */
  lemma {:induction false} ArrivalCounted(s: Runner, e: Event)
    ensures HandleEvent(s, e, e.timeUs).0.totalArrivals == s.totalArrivals + One(e.payload in Arrivals())
  {
    match e.payload
    case LocalOpComplete(r, op) =>
      if r < |s.requests| {
        var sync := Synchronous(SortDependencies(op.dependencies));
        var waiting := ReleaseCpu(s, op.nodeId).(
          requests := s.requests[r := s.requests[r].(pendingDependencies := |sync|)]);
        StartCounts(waiting, r, sync, e.timeUs);
      }
    case _ =>
  }

  lemma {:induction false} StartCounts(s: Runner, r: nat, deps: seq<Dependency>, now: int)
    requires r < |s.requests|
    ensures StartDependencies(s, r, deps, now).0.totalArrivals == s.totalArrivals
    decreases |deps|
  {
    if deps != [] && deps[0].targetOperationName in s.ops && deps[0].targetNodeId in s.nodes {
      StartCounts(Connect(s, deps[0].targetNodeId).0, r, deps[1..], now);
    }
  }

  /** Arrivals are counted or still to come. */
  ghost predicate Expects(m: Machine<Payload, Runner>, s: Runner, total: nat) {
    Reached(m, s) && Tally(Live(m.kernel.queue.stored), Arrivals()) + m.env.totalArrivals == total
  }

  lemma {:induction false} StepExpects(
    reading: (Runner, Payload) -> Json, sha: H.Digest, m: Machine<Payload, Runner>, s: Runner, total: nat)
    requires Expects(m, s, total)
    ensures Expects(MachineStep(SimulationProgram(reading, sha), m).next, s, total)
  {
    var live := Live(m.kernel.queue.stored);
    var ds :| Holds(m, ds);
    StepKeeps(reading, sha, m);
    if Front(m.kernel.queue).None? {
      PopLive(m.kernel.queue);
    } else {
      var e := Front(m.kernel.queue).value;
      StepHandles(reading, sha, m, ds, e);
      NoArrivalAsked(m.env, live, m.kernel.clock, ds, e);
      ArrivalCounted(m.env, e);
      TallyStepped(live, e, Live(MachineStep(SimulationProgram(reading, sha), m).next.kernel.queue.stored),
                   HandleEvent(m.env, e, e.timeUs).1, e.timeUs, Arrivals());
    }
  }

  lemma {:induction false} TallyStepped(
    live: set<Event>, e: Event, live': set<Event>, asks: seq<Ask>, now: int, p: iset<Payload>)
    requires Stepped(live, e, live', asks, now)
    ensures Tally(live', p) == Tally(live, p) - One(e.payload in p) + Asked(asks, p)
  {
  }

  /** All arrivals have come and gone, and nothing is held on any node. */
  ghost predicate Done(s: Runner, total: nat) {
    && s.totalArrivals == total == s.successes + s.failures && Running(s) == {}
    && forall n :: n in s.nodes ==>
         && s.nodes[n].threadpool.active == s.nodes[n].threadpool.queued == 0
         && s.nodes[n].cpu.active == 0
         && s.nodes[n].connPool.active == s.nodes[n].connPool.waiting == 0
  }

  lemma {:induction false} NothingRuns(s: Runner, clock: int, ds: seq<int>, r: nat)
    requires Invariant(s, {}, clock, ds) && r < |s.requests|
    ensures s.requests[r].status != RUNNING
  {
    assert RequestOk(s, {}, clock, r, ds[r]);
    assert Matching({}, LocalOf(r)) == {};
  }

  lemma {:induction false} DrainedIsDone(m: Machine<Payload, Runner>, s: Runner, total: nat)
    requires Expects(m, s, total) && Live(m.kernel.queue.stored) == {}
    ensures Done(m.env, total)
  {
    var ds :| Holds(m, ds);
    forall r: nat | r < |m.env.requests| ensures m.env.requests[r].status != RUNNING {
      NothingRuns(m.env, m.kernel.clock, ds, r);
    }
    assert Running(m.env) == {};
    forall p: iset<Payload> ensures Tally({}, p) == 0 {
      assert Matching({}, p) == {};
    }
    forall n | n in m.env.nodes
      ensures && m.env.nodes[n].threadpool.active == m.env.nodes[n].threadpool.queued == 0
              && m.env.nodes[n].cpu.active == 0
              && m.env.nodes[n].connPool.active == m.env.nodes[n].connPool.waiting == 0
    {
      assert NodeOk(m.env, {}, n);
      assert RunningOn(m.env, n) <= Running(m.env);
    }
  }

  lemma {:induction false} RunExpects(
    ops: map<Text, Operation>, nodes: map<Text, NodeConfig>, arrivals: seq<ArrivalSpec>,
    reading: (Runner, Payload) -> Json, sha: H.Digest, n: nat)
    requires Runnable(ops, nodes, arrivals)
    ensures Expects(After(ops, nodes, arrivals, reading, sha, n), NewRunner(ops, nodes), |arrivals|)
  {
    var prog, s := SimulationProgram(reading, sha), NewRunner(ops, nodes);
    var m := Start(ops, nodes, arrivals);
    StartInvariant(ops, nodes, arrivals);
    assert Matching(Live(m.kernel.queue.stored), Arrivals()) == Live(m.kernel.queue.stored);
    var inv := (x: Machine<Payload, Runner>) => Expects(x, s, |arrivals|);
    forall x: Machine<Payload, Runner> | inv(x) ensures inv(Stepper(prog)(x).next) {
      StepExpects(reading, sha, x, s, |arrivals|);
    }
    R.RunKeeps(Stepper(prog), inv, m, n);
  }

  /**
   When runUntil reports that it is finished, every arrival has become a success or a failure,
   no request runs, and every pool is idle.
  */
  lemma {:induction false} FinishedIsDone(
    ops: map<Text, Operation>, nodes: map<Text, NodeConfig>, arrivals: seq<ArrivalSpec>,
    reading: (Runner, Payload) -> Json, sha: H.Digest, maxTimeUs: int, maxEvents: Option<nat>, fuel: nat)
    requires Runnable(ops, nodes, arrivals)
    ensures var r := RunUntil(SimulationProgram(reading, sha), Start(ops, nodes, arrivals), maxTimeUs, maxEvents, fuel);
            r.stop == R.Checked(Finished) ==> Done(r.state.env, |arrivals|)
  {
    var prog, m := SimulationProgram(reading, sha), Start(ops, nodes, arrivals);
    var r := RunUntil(prog, m, maxTimeUs, maxEvents, fuel);
    StartInvariant(ops, nodes, arrivals);
    RunUntilMeans(prog, m, maxTimeUs, maxEvents, fuel);
    RunExpects(ops, nodes, arrivals, reading, sha, r.steps);
    if r.stop == R.Checked(Finished) {
      var plain := Run(prog, m, r.steps);
      assert Live(plain.kernel.queue.stored) == {};
      DrainedIsDone(plain, NewRunner(ops, nodes), |arrivals|);
    }
  }
}
