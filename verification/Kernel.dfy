/**
 SimulationKernel: the event queue, the state hasher, a virtual clock and the handlers.

 Each method is proved to act as module KernelSpec says. A handler's own captured state is
 passed through Step and RunUntil as `env`.
 */
module Kernels {
  import opened Common
  import opened Utf16
  import opened Canonical
  import opened Events
  import opened EventQueues
  import opened KernelSpec
  import opened Checkpoints
  import opened StateHash
  import R = Runs

  class SimulationKernel<P(==), U> {
    const queue: EventQueue<P>
    const hasher: CanonicalStateHasher
    const reading: (U, P) -> Json
    var virtualTimeUs: int
    var processedCount: nat
    var handlers: map<Text, Handler<P, U>>

    ghost function Abstract(): Kernel<P>
      reads this`virtualTimeUs, this`processedCount, queue, hasher
    {
      Kernel(queue.Abstract(), virtualTimeUs, processedCount, hasher.currentHash)
    }

    ghost predicate Valid()
      reads this`virtualTimeUs, this`processedCount, queue, hasher
    {
      queue.Valid() && KernelSpec.Valid(Abstract())
    }

    ghost function Prog(): Program<P, U>
      reads this`handlers
    {
      Program(handlers, reading, hasher.sha)
    }

    ghost function Machine(env: U): Machine<P, U>
      reads this`virtualTimeUs, this`processedCount, queue, hasher
    {
      KernelSpec.Machine(Abstract(), env)
    }

    constructor (reading: (U, P) -> Json, sha: Digest, initialHashSeed: Text := SEED)
      ensures Valid() && fresh(queue) && fresh(hasher)
      ensures Abstract() == Initial(initialHashSeed)
      ensures virtualTimeUs == 0 && processedCount == 0 && hasher.currentHash == initialHashSeed
      ensures queue.Abstract().stored == {} && queue.nextSequenceNum == 0 && handlers == map[]
      ensures Prog() == Program(map[], reading, sha)
    {
      this.reading := reading;
      queue := new EventQueue();
      hasher := new CanonicalStateHasher(sha, initialHashSeed);
      virtualTimeUs := 0;
      processedCount := 0;
      handlers := map[];
    }

    method RegisterHandler(eventType: Text, handler: Handler<P, U>)
      requires Valid()
      modifies this`handlers
      ensures Valid() && Abstract() == old(Abstract())
      ensures Prog() == old(Prog()).(handlers := old(handlers)[eventType := handler])
      ensures handlers == old(handlers)[eventType := handler]
    {
      handlers := handlers[eventType := handler];
    }

    /** Fails, and changes nothing, when the time is already past. */
    method Schedule(timeUs: int, eventType: Text, payload: P, priority: int := 0)
      returns (event: Option<SimEvent<P>>, error: Option<Error>)
      requires Valid()
      modifies queue
      ensures Valid()
      ensures (Abstract(), error) == Apply(old(Abstract()), Request.Schedule(timeUs, eventType, payload, priority))
      ensures error.Some? <==> timeUs < virtualTimeUs
      ensures error.None? ==>
                var next := old(queue.nextSequenceNum);
                && event == Some(SimEvent([101, 118, 95] + (Decimal(next) + [95] + Decimal(timeUs)),
                                          timeUs, priority, next, eventType, payload, false))
                && queue.Abstract().stored == old(queue.Abstract().stored) + {event.value}
                && queue.nextSequenceNum == next + 1
    {
      ApplyMeans(Abstract(), timeUs, 0, eventType, payload, priority, []);
      if timeUs < virtualTimeUs {
        return None, Some(ScheduledInPast);
      }
      AutoIdFresh(queue.Abstract(), timeUs);
      ScheduledValid(Abstract(), timeUs, eventType, payload, priority);
      var pushed := queue.Push(timeUs, eventType, payload, priority);
      return Some(pushed), None;
    }

    method ScheduleIn(delayUs: int, eventType: Text, payload: P, priority: int := 0)
      returns (event: Option<SimEvent<P>>, error: Option<Error>)
      requires Valid()
      modifies queue
      ensures Valid()
      ensures (Abstract(), error) == Apply(old(Abstract()), Request.ScheduleIn(delayUs, eventType, payload, priority))
      ensures error.Some? <==> delayUs < 0
      ensures error.None? ==>
                var next, timeUs := old(queue.nextSequenceNum), virtualTimeUs + delayUs;
                && event == Some(SimEvent([101, 118, 95] + (Decimal(next) + [95] + Decimal(timeUs)),
                                          timeUs, priority, next, eventType, payload, false))
                && queue.Abstract().stored == old(queue.Abstract().stored) + {event.value}
                && queue.nextSequenceNum == next + 1
    {
      ScheduleInIs(Abstract(), delayUs, eventType, payload, priority);
      if delayUs < 0 {
        return None, Some(NegativeDelay);
      }
      event, error := Schedule(virtualTimeUs + delayUs, eventType, payload, priority);
    }

    /** What a handler asked for, one call after another, up to the first that throws. */
    method Perform(requests: seq<Request<P>>) returns (error: Option<Error>)
      requires Valid()
      modifies queue
      ensures Valid()
      ensures (Abstract(), error) == ApplyAll(old(Abstract()), requests)
      decreases |requests|
    {
      error := None;
      if requests != [] {
        error := PerformOne(requests[0]);
        if error.None? {
          error := Perform(requests[1..]);
        }
      }
    }

    method PerformOne(request: Request<P>) returns (error: Option<Error>)
      requires Valid()
      modifies queue
      ensures Valid()
      ensures (Abstract(), error) == Apply(old(Abstract()), request)
    {
      match request
      case Schedule(timeUs, eventType, payload, priority) =>
        var _, e := Schedule(timeUs, eventType, payload, priority);
        error := e;
      case ScheduleIn(delayUs, eventType, payload, priority) =>
        var _, e := ScheduleIn(delayUs, eventType, payload, priority);
        error := e;
      case CancelEvent(eventId) =>
        CancelValid(Abstract(), eventId);
        var _ := queue.Cancel(eventId);
        error := None;
    }

    /** The first half of step: take the event, move the clock, extend the hash. */
    method Enter(env: U) returns (event: Option<SimEvent<P>>)
      requires Valid()
      modifies this`virtualTimeUs, queue, hasher
      ensures Valid() && virtualTimeUs >= old(virtualTimeUs)
      ensures event == Front(old(Abstract()).queue)
      ensures Abstract() == if event.None? then old(Abstract()).(queue := Events.Pop(old(Abstract()).queue))
                            else Entered(old(Prog()), old(Abstract()), env, event.value)
    {
      EnterIs(Prog(), Abstract(), env);
      event := queue.Pop();
      if event.Some? {
        virtualTimeUs := event.value.timeUs;
        hasher.Update(virtualTimeUs, event.value.eventType, reading(env, event.value.payload));
      }
    }

    /** The second half: call the event's handler, if it has one. */
    method Dispatch(event: SimEvent<P>, env: U) returns (error: Option<Error>, env': U)
      requires Valid()
      modifies queue
      ensures Valid()
      ensures var (e, requests) := Handle(old(Prog()), old(Abstract()), env, event);
              env' == e && (Abstract(), error) == ApplyAll(old(Abstract()), requests)
    {
      env' := env;
      error := None;
      if event.eventType in handlers {
        var answer := handlers[event.eventType](env, event, virtualTimeUs);
        env' := answer.0;
        error := Perform(answer.1);
      }
    }

    method Step(env: U) returns (outcome: Outcome, env': U)
      requires Valid()
      modifies this`virtualTimeUs, this`processedCount, queue, hasher
      ensures Valid()
      ensures var s := KernelSpec.Step(old(Prog()), old(Abstract()), env);
              s.kernel == Abstract() && s.outcome == outcome && s.env == env'
      ensures virtualTimeUs >= old(virtualTimeUs)
      ensures Front(old(Abstract()).queue).None? ==>
                && outcome == Idle && env' == env && virtualTimeUs == old(virtualTimeUs)
                && processedCount == old(processedCount) && hasher.currentHash == old(hasher.currentHash)
      ensures Front(old(Abstract()).queue).Some? ==>
                var e := Front(old(Abstract()).queue).value;
                && hasher.currentHash ==
                     hasher.sha(old(hasher.currentHash) + [58] + (Decimal(e.timeUs) + [58] + (e.eventType + [58] +
                                Canonicalize(reading(env, e.payload)))))
                && virtualTimeUs == e.timeUs && outcome != Idle
                && processedCount == old(processedCount) + (if outcome == Processed then 1 else 0)
                && env' == if e.eventType in handlers then handlers[e.eventType](env, e, e.timeUs).0 else env
    {
      StepShows(Prog(), Machine(env));
      outcome, env' := TakeStep(env);
    }

    /** Take the event, call its handler, count it. */
    method TakeStep(env: U) returns (outcome: Outcome, env': U)
      requires Valid()
      modifies this`virtualTimeUs, this`processedCount, queue, hasher
      ensures Valid()
      ensures var s := KernelSpec.Step(old(Prog()), old(Abstract()), env);
              s.kernel == Abstract() && s.outcome == outcome && s.env == env'
      ensures virtualTimeUs >= old(virtualTimeUs)
    {
      StepIs(Prog(), Abstract(), env);
      outcome, env' := Idle, env;
      var next := Enter(env);
      if next.Some? {
        // the code compares the event's time with the old clock here; Enter says it is no earlier
        var error;
        error, env' := Dispatch(next.value, env);
        outcome := Conclude(error);
      }
    }

    method Conclude(error: Option<Error>) returns (outcome: Outcome)
      requires Valid()
      modifies this`processedCount
      ensures Valid()
      ensures outcome == if error.Some? then Threw(error.value) else Processed
      ensures Abstract() == if error.Some? then old(Abstract())
                            else old(Abstract()).(processed := old(processedCount) + 1)
    {
      if error.Some? {
        return Threw(error.value);
      }
      processedCount := processedCount + 1;
      outcome := Processed;
    }

    /** The top of the loop of runUntil: isEmpty, then peek, then the event count. */
    method Look(maxTimeUs: int, maxEvents: Option<nat>, ghost env: U) returns (reason: Option<Reason>)
      requires Valid()
      modifies queue
      ensures Valid()
      ensures (Machine(env), reason) == KernelSpec.Look(old(Machine(env)), maxTimeUs, maxEvents)
    {
      PeekedValid(Abstract());
      var empty := queue.IsEmpty();
      if empty {
        return Some(Finished);
      }
      var next := queue.Peek();
      if next.None? || next.value.timeUs > maxTimeUs {
        return Some(TimeLimit);
      }
      if maxEvents.Some? && processedCount >= maxEvents.value {
        return Some(EventLimit);
      }
      reason := None;
    }

    /** One round of the loop of runUntil: look, then step. */
    method Round(env: U, maxTimeUs: int, maxEvents: Option<nat>, fuel: nat)
      returns (stop: Option<R.Stop<Reason, Error>>, env': U, left: nat)
      requires Valid()
      modifies this`virtualTimeUs, this`processedCount, queue, hasher
      ensures Valid() && virtualTimeUs >= old(virtualTimeUs)
      ensures R.IsRound(Stepper(old(Prog())), Looker(maxTimeUs, maxEvents), old(Machine(env)), fuel,
                        stop, Machine(env'), left)
    {
      RoundIs(Prog(), Machine(env), maxTimeUs, maxEvents, fuel);
      var reason := Look(maxTimeUs, maxEvents, env);
      if reason.Some? {
        return Some(R.Checked(reason.value)), env, fuel;
      }
      if fuel == 0 {
        return Some(R.OutOfFuel), env, fuel;
      }
      var outcome;
      outcome, env' := Step(env);
      left := fuel - 1;
      stop := if outcome.Threw? then Some(R.Failed(outcome.error)) else None;
    }

    /** `fuel` bounds the number of steps taken. */
    method RunUntil(env: U, maxTimeUs: int, maxEvents: Option<nat>, fuel: nat)
      returns (stop: R.Stop<Reason, Error>, env': U, steps: nat)
      requires Valid()
      modifies this`virtualTimeUs, this`processedCount, queue, hasher
      ensures Valid() && virtualTimeUs >= old(virtualTimeUs)
      ensures R.Ended(Machine(env'), stop, steps) ==
              KernelSpec.RunUntil(old(Prog()), old(Machine(env)), maxTimeUs, maxEvents, fuel)
    {
      env' := env;
      var left: nat := fuel;
      var end: Option<R.Stop<Reason, Error>> := None;
      ghost var prog, m := Prog(), Machine(env);
      ghost var whole := KernelSpec.RunUntil(prog, m, maxTimeUs, maxEvents, fuel);
      while end.None?
        invariant Valid() && virtualTimeUs >= old(virtualTimeUs) && Prog() == prog && left <= fuel && m == Machine(env')
        invariant end.None? ==> R.LeadsTo(Stepper(prog), Looker(maxTimeUs, maxEvents), m, left, fuel, whole)
        invariant end.Some? ==> whole == R.Ended(m, end.value, fuel - left)
        decreases left, end.None?
      {
        var e, l;
        end, e, l := Round(env', maxTimeUs, maxEvents, left);
        ghost var next := Machine(e);
        R.RoundLeads(Stepper(prog), Looker(maxTimeUs, maxEvents), m, left, end, next, l, fuel, whole);
        env', left, m := e, l, next;
      }
      return end.value, env', fuel - left;
    }

    method CreateCheckpoint() returns (checkpoint: KernelCheckpoint<P>)
      requires Valid()
      ensures Captures(checkpoint, Abstract())
      ensures checkpoint.virtualTimeUs == virtualTimeUs && checkpoint.processedCount == processedCount
      ensures checkpoint.canonicalHash == hasher.currentHash
      ensures checkpoint.queueState.nextSequence == queue.nextSequenceNum
      ensures Elements(checkpoint.queueState.events) == Live(queue.Abstract().stored)
      ensures Distinct(checkpoint.queueState.events)
    {
      var queueState := queue.SerializeState();
      var canonicalHash := hasher.GetHash();
      checkpoint := KernelCheckpoint(virtualTimeUs, processedCount, canonicalHash, queueState);
    }

    /** Overwrites everything but the handlers, whatever this kernel did before. */
    method ResumeCheckpoint(checkpoint: KernelCheckpoint<P>)
      requires Distinct(checkpoint.queueState.events) && KernelSpec.Valid(Restored(checkpoint))
      modifies this`virtualTimeUs, this`processedCount, queue, hasher
      ensures Valid() && Abstract() == Restored(checkpoint)
      ensures virtualTimeUs == checkpoint.virtualTimeUs && processedCount == checkpoint.processedCount
      ensures hasher.currentHash == checkpoint.canonicalHash
      ensures queue.nextSequenceNum == checkpoint.queueState.nextSequence
      ensures forall e :: e in queue.Abstract().stored <==> e in checkpoint.queueState.events
    {
      virtualTimeUs := checkpoint.virtualTimeUs;
      processedCount := checkpoint.processedCount;
      hasher.Restore(checkpoint.canonicalHash);
      forall e | e in checkpoint.queueState.events ensures e.sequenceNum < checkpoint.queueState.nextSequence {
        assert e in Elements(checkpoint.queueState.events);
      }
      queue.RestoreState(checkpoint.queueState);
    }
  }

  /** The first half of a step, on values. */
  lemma {:induction false} EnterIs<P, U>(prog: Program<P, U>, k: Kernel<P>, env: U)
    requires KernelSpec.Valid(k)
    ensures match Front(k.queue)
            case None => KernelSpec.Valid(k.(queue := Events.Pop(k.queue)))
            case Some(e) =>
              && e.timeUs >= k.clock && KernelSpec.Valid(Entered(prog, k, env, e))
              && Entered(prog, k, env, e) ==
                 Kernel(Events.Pop(k.queue), e.timeUs, k.processed,
                        prog.sha(HashInput(k.hash, Entry(e.timeUs, e.eventType, prog.reading(env, e.payload)))))
  {
    PopLive(k.queue);
    if Front(k.queue).Some? { EnteredValid(prog, k, env); }
  }

  /** What the object shows of a step. */
  lemma {:induction false} StepShows<P, U>(prog: Program<P, U>, m: KernelSpec.Machine<P, U>)
    requires KernelSpec.Valid(m.kernel)
    ensures var s := KernelSpec.Step(prog, m.kernel, m.env);
            match Front(m.kernel.queue)
            case None =>
              && s.outcome == Idle && s.env == m.env && s.kernel.clock == m.kernel.clock
              && s.kernel.processed == m.kernel.processed && s.kernel.hash == m.kernel.hash
            case Some(e) =>
              && s.kernel.hash == prog.sha(m.kernel.hash + [58] + (Decimal(e.timeUs) + [58] + (e.eventType + [58] +
                                           Canonicalize(prog.reading(m.env, e.payload)))))
              && s.kernel.clock == e.timeUs && s.outcome != Idle
              && s.kernel.processed == m.kernel.processed + (if s.outcome == Processed then 1 else 0)
              && s.env == if e.eventType in prog.handlers then prog.handlers[e.eventType](m.env, e, e.timeUs).0 else m.env
  {
    StepSafe(prog, m.kernel, m.env);
    if Front(m.kernel.queue).Some? { StepTakes(prog, m, Front(m.kernel.queue).value); }
  }

  lemma {:induction false} ScheduleInIs<P>(k: Kernel<P>, delayUs: int, eventType: Text, payload: P, priority: int)
    ensures Apply(k, Request.ScheduleIn(delayUs, eventType, payload, priority)) ==
            if delayUs < 0 then (k, Some(NegativeDelay))
            else Apply(k, Request.Schedule(k.clock + delayUs, eventType, payload, priority))
  {
  }

  lemma {:induction false} PeekedValid<P>(k: Kernel<P>)
    requires KernelSpec.Valid(k)
    ensures KernelSpec.Valid(k.(queue := Prune(k.queue)))
  {
    PruneKeepsLive(k.queue);
  }

  /** What a round of the loop of runUntil is, in terms of what it looks at and the step it may take. */
  lemma {:induction false} RoundIs<P, U>(
    prog: Program<P, U>, m: Machine<P, U>, maxTimeUs: int, maxEvents: Option<nat>, fuel: nat)
    ensures var (looked, reason) := KernelSpec.Look(m, maxTimeUs, maxEvents);
            var s := MachineStep(prog, looked);
            var step, look := Stepper(prog), Looker<P, U>(maxTimeUs, maxEvents);
            && (reason.Some? ==> R.IsRound(step, look, m, fuel, Some(R.Checked(reason.value)), looked, fuel))
            && (reason.None? && fuel == 0 ==> R.IsRound(step, look, m, fuel, Some(R.OutOfFuel), looked, fuel))
            && (reason.None? && fuel > 0 ==>
                  R.IsRound(step, look, m, fuel, if s.failure.Some? then Some(R.Failed(s.failure.value)) else None,
                            s.next, fuel - 1))
  {
    var looked := KernelSpec.Look(m, maxTimeUs, maxEvents).0;
    assert Looker(maxTimeUs, maxEvents)(m) == KernelSpec.Look(m, maxTimeUs, maxEvents);
    assert Stepper(prog)(looked) == MachineStep(prog, looked);
  }
}
