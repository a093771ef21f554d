/**
 A running simulation: the runner's handlers, working on their resource objects, driven by the
 kernel object. Each step is the step of the machine that module Simulations speaks of, so what
 is proved there of every run holds of the counters of these objects.
 */
module Simulators {
  import opened Common
  import opened Utf16
  import opened Canonical
  import opened Events
  import opened KernelSpec
  import opened Kernels
  import opened RunnerSpec
  import opened RunnerInvariant
  import opened Runners
  import opened Simulations
  import opened SimulationEnds
  import H = StateHash
  import R = Runs

  /** Peeking keeps the invariant: no live event goes. */
  lemma {:induction false} LookKeeps(m: Machine<Payload, Runner>, maxTimeUs: int, maxEvents: Option<nat>)
    requires SimInvariant(m)
    ensures SimInvariant(KernelSpec.Look(m, maxTimeUs, maxEvents).0)
  {
    var ds :| Holds(m, ds);
    LookMeans(m, maxTimeUs, maxEvents);
    PeekedValid(m.kernel);
    assert Holds(KernelSpec.Look(m, maxTimeUs, maxEvents).0, ds);
  }

  /** What the parts of a step add up to. */
  lemma {:induction false} StepParts(
    reading: (Runner, Payload) -> Json, sha: H.Digest, m: Machine<Payload, Runner>, e: Event,
    k: Kernel<Payload>, error: Option<Error>)
    requires SimInvariant(m) && Front(m.kernel.queue) == Some(e)
    requires (k, error) == ApplyAll(Entered(SimulationProgram(reading, sha), m.kernel, m.env, e),
                                    HandleEvent(m.env, e, e.timeUs).1)
    ensures error.None?
    ensures MachineStep(SimulationProgram(reading, sha), m).next ==
            KernelSpec.Machine(k.(processed := k.processed + 1), HandleEvent(m.env, e, e.timeUs).0)
  {
    var prog := SimulationProgram(reading, sha);
    var ds :| Holds(m, ds);
    assert EventOk(m.env, e);
    HandlerCalled(reading, sha, Entered(prog, m.kernel, m.env, e), m.env, e);
    StepIs(prog, m.kernel, m.env);
    StepLogs(reading, sha, m, ds);
  }

  lemma {:induction false} StepIdles(reading: (Runner, Payload) -> Json, sha: H.Digest, m: Machine<Payload, Runner>)
    requires SimInvariant(m)
    ensures Front(m.kernel.queue).None? ==>
              MachineStep(SimulationProgram(reading, sha), m).next ==
              m.(kernel := m.kernel.(queue := Events.Pop(m.kernel.queue)))
  {
    var ds :| Holds(m, ds);
    StepIs(SimulationProgram(reading, sha), m.kernel, m.env);
  }

  lemma {:induction false} StepReaches(
    reading: (Runner, Payload) -> Json, sha: H.Digest, m: Machine<Payload, Runner>, next: Machine<Payload, Runner>)
    requires SimInvariant(m) && next == MachineStep(SimulationProgram(reading, sha), m).next
    ensures SimInvariant(next)
  {
    StepKeeps(reading, sha, m);
  }

  lemma {:induction false} FirstArrival(k: Kernel<Payload>, arrivals: seq<ArrivalSpec>)
    requires arrivals != [] && arrivals[0].virtualTimeUs >= 0 == k.clock
    ensures var p := Arrival(arrivals[0].eventId, arrivals[0].operationName);
            var ask := Request.Schedule(arrivals[0].virtualTimeUs, Ascii("ARRIVAL"), p, 0);
            && Apply(k, ask).1.None? && Apply(k, ask).0.clock == 0
            && ApplyAll(k, ArrivalAsks(arrivals)) == ApplyAll(Apply(k, ask).0, ArrivalAsks(arrivals[1..]))
  {
  }

  lemma {:induction false} Balances(m: Machine<Payload, Runner>)
    requires SimInvariant(m)
    ensures m.env.totalArrivals == m.env.successes + m.env.failures + |Running(m.env)|
  {
    var ds :| Holds(m, ds);
  }

  lemma {:induction false} RoundStops(
    prog: Program<Payload, Runner>, m: Machine<Payload, Runner>, maxTimeUs: int, left: nat, fuel: nat,
    whole: RunEnd<Payload, Runner>)
    requires left <= fuel && R.LeadsTo(Stepper(prog), Looker(maxTimeUs, None), m, left, fuel, whole)
    requires KernelSpec.Look(m, maxTimeUs, None).1.Some?
    ensures var (looked, reason) := KernelSpec.Look(m, maxTimeUs, None);
            whole == R.Ended(looked, R.Checked(reason.value), fuel - left)
  {
    var (looked, reason) := KernelSpec.Look(m, maxTimeUs, None);
    RoundIs(prog, m, maxTimeUs, None, left);
    R.RoundLeads(Stepper(prog), Looker(maxTimeUs, None), m, left, Some(R.Checked(reason.value)), looked, left, fuel, whole);
  }

  lemma {:induction false} RoundGoesOn(
    reading: (Runner, Payload) -> Json, sha: H.Digest, m: Machine<Payload, Runner>, maxTimeUs: int,
    left: nat, fuel: nat, whole: RunEnd<Payload, Runner>)
    requires SimInvariant(m) && left <= fuel && whole.stop.Checked?
    requires R.LeadsTo(Stepper(SimulationProgram(reading, sha)), Looker(maxTimeUs, None), m, left, fuel, whole)
    requires KernelSpec.Look(m, maxTimeUs, None).1.None?
    ensures var prog := SimulationProgram(reading, sha);
            var next := MachineStep(prog, KernelSpec.Look(m, maxTimeUs, None).0).next;
            left > 0 && R.LeadsTo(Stepper(prog), Looker(maxTimeUs, None), next, left - 1, fuel, whole)
  {
    var prog := SimulationProgram(reading, sha);
    var looked := KernelSpec.Look(m, maxTimeUs, None).0;
    assert Looker<Payload, Runner>(maxTimeUs, None)(m) == KernelSpec.Look(m, maxTimeUs, None);
    R.RoundRemains(Stepper(prog), Looker(maxTimeUs, None), m, left, fuel, whole);
    LookKeeps(m, maxTimeUs, None);
    StepKeeps(reading, sha, looked);
    RoundIs(prog, m, maxTimeUs, None, left);
    R.RoundLeads(Stepper(prog), Looker(maxTimeUs, None), m, left, None, MachineStep(prog, looked).next, left - 1, fuel, whole);
  }

  function StepBound(arrivals: seq<ArrivalSpec>, d: nat): nat {
    |arrivals| * (2 + d)
  }

  /** runUntil from the scheduled arrivals ends in this state for this reason. */
  ghost predicate RunEndsIn(
    ops: map<Text, Operation>, nodes: map<Text, NodeConfig>, arrivals: seq<ArrivalSpec>,
    reading: (Runner, Payload) -> Json, sha: H.Digest, maxTimeUs: int, d: nat,
    m: Machine<Payload, Runner>, reason: Reason)
  {
    var r := KernelSpec.RunUntil(SimulationProgram(reading, sha), Start(ops, nodes, arrivals), maxTimeUs, None,
                                 StepBound(arrivals, d));
    r.state == m && r.stop == R.Checked(reason)
  }

  /** The run to be made, which stops by itself within its bound. */
  lemma {:induction false} WholeRun(
    ops: map<Text, Operation>, nodes: map<Text, NodeConfig>, arrivals: seq<ArrivalSpec>,
    reading: (Runner, Payload) -> Json, sha: H.Digest, maxTimeUs: int, d: nat
  ) returns (whole: RunEnd<Payload, Runner>)
    requires Runnable(ops, nodes, arrivals) && DependencyBound(ops, d)
    ensures var prog, m := SimulationProgram(reading, sha), Start(ops, nodes, arrivals);
            && whole == KernelSpec.RunUntil(prog, m, maxTimeUs, None, StepBound(arrivals, d)) && whole.stop.Checked?
            && R.LeadsTo(Stepper(prog), Looker(maxTimeUs, None), m, StepBound(arrivals, d), StepBound(arrivals, d), whole)
            && SimInvariant(m)
  {
    var prog, m, fuel := SimulationProgram(reading, sha), Start(ops, nodes, arrivals), StepBound(arrivals, d);
    StartInvariant(ops, nodes, arrivals);
    SimulationEnds.SimulationEnds(ops, nodes, arrivals, reading, sha, d, maxTimeUs, None, fuel);
    whole := KernelSpec.RunUntil(prog, m, maxTimeUs, None, fuel);
  }

  lemma {:induction false} EndIsDone(
    ops: map<Text, Operation>, nodes: map<Text, NodeConfig>, arrivals: seq<ArrivalSpec>,
    reading: (Runner, Payload) -> Json, sha: H.Digest, maxTimeUs: int, d: nat,
    m: Machine<Payload, Runner>, reason: Reason)
    requires Runnable(ops, nodes, arrivals) && RunEndsIn(ops, nodes, arrivals, reading, sha, maxTimeUs, d, m, reason)
    ensures reason == Finished ==> Done(m.env, |arrivals|)
  {
    FinishedIsDone(ops, nodes, arrivals, reading, sha, maxTimeUs, None, StepBound(arrivals, d));
  }

  /** A kernel with the four handlers registered. */
  method NewKernel(reading: (Runner, Payload) -> Json, sha: H.Digest)
    returns (kernel: SimulationKernel<Payload, Runner>)
    ensures kernel.Valid() && fresh(kernel) && fresh(kernel.queue) && fresh(kernel.hasher)
    ensures kernel.Abstract() == Initial(H.SEED)
    ensures kernel.reading == reading && kernel.hasher.sha == sha && kernel.Prog() == SimulationProgram(reading, sha)
  {
    kernel := new SimulationKernel(reading, sha);
    var handlers := SimulationProgram(reading, sha).handlers;
    var handler := handlers[Ascii("ARRIVAL")];
    SameHandler(reading, sha, handler);
    kernel.RegisterHandler(Ascii("ARRIVAL"), handler);
    kernel.RegisterHandler(Ascii("LOCAL_OP_COMPLETE"), handler);
    kernel.RegisterHandler(Ascii("DEP_COMPLETE"), handler);
    kernel.RegisterHandler(Ascii("ASYNC_INVOKE"), handler);
  }

  lemma {:induction false} SameHandler(
    reading: (Runner, Payload) -> Json, sha: H.Digest, handler: Handler<Payload, Runner>)
    requires handler == SimulationProgram(reading, sha).handlers[Ascii("ARRIVAL")]
    ensures SimulationProgram(reading, sha).handlers ==
            map[][Ascii("ARRIVAL") := handler][Ascii("LOCAL_OP_COMPLETE") := handler]
               [Ascii("DEP_COMPLETE") := handler][Ascii("ASYNC_INVOKE") := handler]
  {
  }

  class Simulator {
    const runner: SimulationRunner
    const kernel: SimulationKernel<Payload, Runner>

    ghost function Footprint(): set<object>
      reads {}
    {
      {runner, kernel, kernel.queue, kernel.hasher} + runner.resources
    }

    ghost function Machine(): Machine<Payload, Runner>
      reads Footprint()
    {
      kernel.Machine(runner.State())
    }

    ghost function Prog(): Program<Payload, Runner> {
      SimulationProgram(kernel.reading, kernel.hasher.sha)
    }

    /** Both objects are in order, share nothing, and the handlers are registered. */
    ghost predicate Assembled()
      reads Footprint()
    {
      && runner.Valid() && kernel.Valid() && kernel.Prog() == Prog()
      && kernel !in runner.resources && kernel.queue !in runner.resources && kernel.hasher !in runner.resources
    }

    ghost predicate Valid()
      reads Footprint()
    {
      Assembled() && SimInvariant(Machine())
    }

    constructor (
      nodeConfigs: seq<(Text, NodeConfig)>, operations: seq<Operation>,
      reading: (Runner, Payload) -> Json, sha: H.Digest)
      requires forall c :: c in nodeConfigs ==>
                 c.1.threadPoolSize > 0 && c.1.threadPoolQueueCapacity >= 0 && c.1.connectionPoolSize > 0
      ensures Assembled() && Prog() == SimulationProgram(reading, sha)
      ensures Machine() == Start(OperationMap(operations), NodeMap(nodeConfigs), [])
    {
      runner := new SimulationRunner(nodeConfigs, operations);
      var k := NewKernel(reading, sha);
      kernel := k;
    }

    // ---------- the parts of a step ----------

    /** Take the next event, move the clock, extend the hash. */
    method Take() returns (next: Option<Event>)
      requires Assembled()
      modifies kernel`virtualTimeUs, kernel.queue, kernel.hasher
      ensures Assembled() && runner.State() == old(runner.State())
      ensures next == Front(old(kernel.Abstract()).queue)
      ensures kernel.Abstract() ==
              if next.None? then old(kernel.Abstract()).(queue := Events.Pop(old(kernel.Abstract()).queue))
              else Entered(Prog(), old(kernel.Abstract()), old(runner.State()), next.value)
    {
      var env := runner.Snapshot();
      next := kernel.Enter(env);
    }

    /** The handler is a method of the runner. */
    method Call(event: Event) returns (asks: seq<Ask>)
      requires Assembled()
      modifies runner, runner.resources
      ensures Assembled() && kernel.Abstract() == old(kernel.Abstract())
      ensures runner.State() == HandleEvent(old(runner.State()), event, kernel.virtualTimeUs).0
      ensures asks == HandleEvent(old(runner.State()), event, kernel.virtualTimeUs).1
    {
      asks := runner.Handle(event, kernel.virtualTimeUs);
    }

    /** What it asks for, and the count of processed events unless it was refused. */
    method Conclude(asks: seq<Ask>)
      requires Assembled()
      modifies kernel`processedCount, kernel.queue
      ensures Assembled() && runner.State() == old(runner.State())
      ensures var (k, error) := ApplyAll(old(kernel.Abstract()), asks);
              kernel.Abstract() == if error.Some? then k else k.(processed := k.processed + 1)
    {
      ghost var k := kernel.Abstract();
      ApplyAllValid(k, asks);
      var error := kernel.Perform(asks);
      ghost var performed := kernel.Abstract();
      var _ := kernel.Conclude(error);
    }

    /** One step of the simulation. */
    method Step()
      requires Valid()
      modifies Footprint()
      ensures Valid()
      ensures Machine() == MachineStep(Prog(), old(Machine())).next
    {
      ghost var m := Machine();
      TakeStep();
      StepReaches(kernel.reading, kernel.hasher.sha, m, Machine());
    }

    /** Pop, call, conclude. */
    method TakeStep()
      requires Valid()
      modifies Footprint()
      ensures Assembled() && Machine() == MachineStep(Prog(), old(Machine())).next
    {
      ghost var m := Machine();
      StepIdles(kernel.reading, kernel.hasher.sha, m);
      var next := Take();
      if next.Some? {
        ghost var entered := kernel.Abstract();
        var asks := Call(next.value);
        StepParts(kernel.reading, kernel.hasher.sha, m, next.value,
                  ApplyAll(entered, asks).0, ApplyAll(entered, asks).1);
        Conclude(asks);
      }
    }

    // ---------- run ----------

    /** Every arrival is scheduled before the first step. */
    method ScheduleArrivals(arrivals: seq<ArrivalSpec>)
      requires Assembled() && kernel.Abstract() == Initial(H.SEED)
      requires forall a :: a in arrivals ==> a.virtualTimeUs >= 0
      modifies kernel.queue
      ensures Assembled() && runner.State() == old(runner.State())
      ensures kernel.Abstract() == ApplyAll(Initial(H.SEED), ArrivalAsks(arrivals)).0
    {
      ghost var whole := ApplyAll(kernel.Abstract(), ArrivalAsks(arrivals));
      for i := 0 to |arrivals|
        invariant Assembled() && runner.State() == old(runner.State()) && kernel.virtualTimeUs == 0
        invariant whole == ApplyAll(kernel.Abstract(), ArrivalAsks(arrivals[i..]))
      {
        assert arrivals[i] in arrivals;
        FirstArrival(kernel.Abstract(), arrivals[i..]);
        assert arrivals[i..][1..] == arrivals[i + 1..];
        var p := Arrival(arrivals[i].eventId, arrivals[i].operationName);
        var _, _ := kernel.Schedule(arrivals[i].virtualTimeUs, Ascii("ARRIVAL"), p);
      }
    }

    /** The loop of runUntil, which ends by itself: some weight of the pending events falls. */
    method RunUntil(
      maxTimeUs: int, ghost fuel: nat, ghost whole: RunEnd<Payload, Runner>
    ) returns (reason: Reason, ghost steps: nat)
      requires Valid() && Leads(maxTimeUs, fuel, fuel, whole) && whole.stop.Checked?
      modifies Footprint()
      ensures Valid() && whole == R.Ended(Machine(), R.Checked(reason), steps)
    {
      ghost var left: nat := fuel;
      var end: Option<Reason> := None;
      while end.None?
        invariant left <= fuel && Valid()
        invariant end.None? ==> Leads(maxTimeUs, left, fuel, whole)
        invariant end.Some? ==> whole == R.Ended(Machine(), R.Checked(end.value), fuel - left)
        decreases left, end.None?
      {
        end := Round(maxTimeUs, left, fuel, whole);
        left := if end.None? then left - 1 else left;
      }
      return end.value, fuel - left;
    }

    /** With `left` steps left of `fuel`, runUntil from here ends in `whole`. */
    ghost predicate Leads(maxTimeUs: int, left: nat, fuel: nat, whole: RunEnd<Payload, Runner>)
      requires left <= fuel
      reads Footprint()
    {
      R.LeadsTo(Stepper(Prog()), Looker(maxTimeUs, None), Machine(), left, fuel, whole)
    }

    /** Look, then step. */
    method Round(maxTimeUs: int, ghost left: nat, ghost fuel: nat, ghost whole: RunEnd<Payload, Runner>)
      returns (end: Option<Reason>)
      requires Valid() && left <= fuel && Leads(maxTimeUs, left, fuel, whole) && whole.stop.Checked?
      modifies Footprint()
      ensures Valid()
      ensures end.Some? ==> whole == R.Ended(Machine(), R.Checked(end.value), fuel - left)
      ensures end.None? ==> left > 0
      ensures end.None? ==> Leads(maxTimeUs, left - 1, fuel, whole)
    {
      ghost var m := Machine();
      LookKeeps(m, maxTimeUs, None);
      end := Look(maxTimeUs);
      if end.Some? {
        RoundStops(Prog(), m, maxTimeUs, left, fuel, whole);
        return;
      }
      ghost var looked := Machine();
      Step();
      RoundGoesOn(kernel.reading, kernel.hasher.sha, m, maxTimeUs, left, fuel, whole);
    }

    method Look(maxTimeUs: int) returns (reason: Option<Reason>)
      requires Assembled()
      modifies kernel.queue
      ensures Assembled() && runner.State() == old(runner.State())
      ensures (Machine(), reason) == KernelSpec.Look(old(Machine()), maxTimeUs, None)
    {
      reason := kernel.Look(maxTimeUs, None, runner.State());
    }

    /**
     run: schedule the arrivals, then run until the time limit. It ends, in the state and for the
     reason that the specification gives; the counters balance; and if nothing is left, every
     arrival has become a success or a failure and all pools are idle.
    */
    method Run(
      ghost ops: map<Text, Operation>, ghost nodes: map<Text, NodeConfig>, arrivals: seq<ArrivalSpec>,
      totalDurationUs: int, ghost d: nat
    ) returns (reason: Reason)
      requires Assembled() && Machine() == Start(ops, nodes, [])
      requires Runnable(ops, nodes, arrivals) && DependencyBound(ops, d)
      modifies Footprint()
      ensures Valid()
      ensures RunEndsIn(ops, nodes, arrivals, kernel.reading, kernel.hasher.sha, totalDurationUs, d, Machine(), reason)
      ensures runner.totalArrivals == runner.successes + runner.failures + |Running(runner.State())|
      ensures reason == Finished ==> Done(runner.State(), |arrivals|)
    {
      ScheduleArrivals(arrivals);
      ghost var whole := WholeRun(ops, nodes, arrivals, kernel.reading, kernel.hasher.sha, totalDurationUs, d);
      ghost var steps;
      reason, steps := RunUntil(totalDurationUs, StepBound(arrivals, d), whole);
      Balances(Machine());
      EndIsDone(ops, nodes, arrivals, kernel.reading, kernel.hasher.sha, totalDurationUs, d, Machine(), reason);
    }
  }
}
