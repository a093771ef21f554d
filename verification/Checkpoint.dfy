/**
 Checkpoint and resume. A checkpoint drops cancelled events and the layout of the heap; the
 results here say that nothing a run can show depends on either.
 */
module Checkpoints {
  import opened Common
  import opened Utf16
  import opened Events
  import opened EventQueues
  import opened KernelSpec
  import R = Runs

  datatype KernelCheckpoint<P> = KernelCheckpoint(
    virtualTimeUs: int, processedCount: nat, canonicalHash: Text, queueState: Snapshot<P>)

  ghost function Restored<P>(cp: KernelCheckpoint<P>): Kernel<P> {
    Kernel(Queue(Elements(cp.queueState.events), cp.queueState.nextSequence),
           cp.virtualTimeUs, cp.processedCount, cp.canonicalHash)
  }

  /** `cp` is what createCheckpoint may return for `k`: the live events in any order. */
  ghost predicate Captures<P>(cp: KernelCheckpoint<P>, k: Kernel<P>) {
    Restored(cp) == k.(queue := k.queue.(stored := Live(k.queue.stored)))
  }

  ghost predicate Related<P, U>(a: Machine<P, U>, b: Machine<P, U>) {
    Valid(a.kernel) && Valid(b.kernel) && SameFuture(a.kernel, b.kernel) && a.env == b.env
  }

  lemma {:induction false} CaptureRelated<P>(cp: KernelCheckpoint<P>, k: Kernel<P>)
    requires Valid(k) && Captures(cp, k)
    ensures Valid(Restored(cp)) && SameFuture(k, Restored(cp))
  {
    assert Live(Live(k.queue.stored)) == Live(k.queue.stored);
  }

  // ---------- requests and steps do not look at cancelled events ----------

  lemma {:induction false} ScheduledAlike<P>(a: Kernel<P>, b: Kernel<P>, t: int, ty: Text, p: P, prio: int)
    requires SameFuture(a, b)
    ensures SameFuture(Scheduled(a, t, ty, p, prio), Scheduled(b, t, ty, p, prio))
  {
    var e := NewEvent(a.queue.nextSequence, t, ty, p, prio);
    assert Live(a.queue.stored + {e}) == Live(a.queue.stored) + {e};
    assert Live(b.queue.stored + {e}) == Live(b.queue.stored) + {e};
  }

  lemma {:induction false} CancelAlike<P>(a: Kernel<P>, b: Kernel<P>, id: Text)
    requires Valid(a) && Valid(b) && SameFuture(a, b)
    ensures SameFuture(a.(queue := Cancel(a.queue, id)), b.(queue := Cancel(b.queue, id)))
  {
    CancelLive(a.queue, id);
    CancelLive(b.queue, id);
  }

  lemma {:induction false} ApplyAlike<P>(a: Kernel<P>, b: Kernel<P>, r: Request<P>)
    requires Valid(a) && Valid(b) && SameFuture(a, b)
    ensures SameFuture(Apply(a, r).0, Apply(b, r).0) && Apply(a, r).1 == Apply(b, r).1
  {
    match r
    case Schedule(t, ty, p, prio) => ScheduledAlike(a, b, t, ty, p, prio);
    case ScheduleIn(d, ty, p, prio) => ScheduledAlike(a, b, a.clock + d, ty, p, prio);
    case CancelEvent(id) => CancelAlike(a, b, id);
  }

  lemma {:induction false} ApplyAllAlike<P>(a: Kernel<P>, b: Kernel<P>, requests: seq<Request<P>>)
    requires Valid(a) && Valid(b) && SameFuture(a, b)
    ensures SameFuture(ApplyAll(a, requests).0, ApplyAll(b, requests).0)
    ensures ApplyAll(a, requests).1 == ApplyAll(b, requests).1
    decreases |requests|
  {
    if requests != [] {
      ApplyAlike(a, b, requests[0]);
      ApplyValid(a, requests[0]);
      ApplyValid(b, requests[0]);
      ApplyAllAlike(Apply(a, requests[0]).0, Apply(b, requests[0]).0, requests[1..]);
    }
  }

  /** One step from related machines: the same event, the same outcome, related machines. */
  lemma {:induction false} StepAlike<P, U>(prog: Program<P, U>, a: Machine<P, U>, b: Machine<P, U>)
    requires Related(a, b)
    ensures var s, t := Step(prog, a.kernel, a.env), Step(prog, b.kernel, b.env);
            && s.event == t.event && s.outcome == t.outcome
            && Related(Machine(s.kernel, s.env), Machine(t.kernel, t.env))
  {
    StepSafe(prog, a.kernel, a.env);
    StepSafe(prog, b.kernel, b.env);
    PopLive(a.kernel.queue);
    PopLive(b.kernel.queue);
    if Front(a.kernel.queue).Some? {
      var e := Front(a.kernel.queue).value;
      EnteredValid(prog, a.kernel, a.env);
      EnteredValid(prog, b.kernel, b.env);
      var x, y := Entered(prog, a.kernel, a.env, e), Entered(prog, b.kernel, b.env, e);
      ApplyAllAlike(x, y, Handle(prog, x, a.env, e).1);
    }
  }

  lemma {:induction false} StepsBisimilar<P(!new), U(!new)>(prog: Program<P, U>)
    ensures R.Bisimulation(Stepper(prog), (a: Machine<P, U>, b: Machine<P, U>) => Related(a, b))
  {
    forall a: Machine<P, U>, b: Machine<P, U> | Related(a, b)
      ensures && Related(Stepper(prog)(a).next, Stepper(prog)(b).next)
              && Stepper(prog)(a).observed == Stepper(prog)(b).observed
              && Stepper(prog)(a).failure == Stepper(prog)(b).failure
    {
      StepAlike(prog, a, b);
    }
  }

  // ---------- the main results ----------

  /**
   A kernel resumed from a checkpoint processes, with the same handlers in the same state, the
   same entries as the original, and after every number of steps has the same clock, count,
   hash, live events and next sequence number.
  */
  lemma {:induction false} ResumeBisimilar<P(!new), U(!new)>(
    prog: Program<P, U>, k: Kernel<P>, cp: KernelCheckpoint<P>, env: U, n: nat)
    requires Valid(k) && Captures(cp, k)
    ensures Trace(prog, Machine(k, env), n) == Trace(prog, Machine(Restored(cp), env), n)
    ensures SameFuture(Run(prog, Machine(k, env), n).kernel, Run(prog, Machine(Restored(cp), env), n).kernel)
    ensures Run(prog, Machine(k, env), n).env == Run(prog, Machine(Restored(cp), env), n).env
  {
    CaptureRelated(cp, k);
    StepsBisimilar(prog);
    R.RelatedRuns(Stepper(prog), (a: Machine<P, U>, b: Machine<P, U>) => Related(a, b),
                  Machine(k, env), Machine(Restored(cp), env), n);
  }

  predicate Drained(a: Reason, b: Reason) {
    a == b || (a.Finished? && b.TimeLimit?) || (a.TimeLimit? && b.Finished?)
  }

  lemma {:induction false} LookAlike<P, U>(a: Machine<P, U>, b: Machine<P, U>, maxTimeUs: int, maxEvents: Option<nat>)
    requires Related(a, b)
    ensures var (x, r), (y, q) := Look(a, maxTimeUs, maxEvents), Look(b, maxTimeUs, maxEvents);
            && Related(x, y) && (r.None? <==> q.None?)
            && (r.Some? ==> Drained(r.value, q.value))
  {
    PruneKeepsLive(a.kernel.queue);
    PruneKeepsLive(b.kernel.queue);
    PruneSubset(a.kernel);
    PruneSubset(b.kernel);
  }

  lemma {:induction false} PruneSubset<P>(k: Kernel<P>)
    requires Valid(k)
    ensures Prune(k.queue).stored <= k.queue.stored && Valid(k.(queue := Prune(k.queue)))
    ensures k.queue.stored == {} ==> Front(k.queue).None?
  {
    PruneKeepsLive(k.queue);
  }

  /**
   runUntil after a resume: as many steps, related machines at the end, and the same answer,
   except that a run with nothing live left may report `finished` on one side and the time
   limit on the other.
  */
  lemma {:induction false} ResumeRunUntil<P(!new), U(!new)>(
    prog: Program<P, U>, k: Kernel<P>, cp: KernelCheckpoint<P>, env: U,
    maxTimeUs: int, maxEvents: Option<nat>, fuel: nat)
    requires Valid(k) && Captures(cp, k)
    ensures var r := RunUntil(prog, Machine(k, env), maxTimeUs, maxEvents, fuel);
            var q := RunUntil(prog, Machine(Restored(cp), env), maxTimeUs, maxEvents, fuel);
            && r.steps == q.steps && Related(r.state, q.state)
            && (r.stop == q.stop ||
                (r.stop.Checked? && q.stop.Checked? && Drained(r.stop.reason, q.stop.reason)))
  {
    CaptureRelated(cp, k);
    StepsBisimilar(prog);
    var related := (a: Machine<P, U>, b: Machine<P, U>) => Related(a, b);
    forall a: Machine<P, U>, b: Machine<P, U> | related(a, b)
      ensures var look := Looker<P, U>(maxTimeUs, maxEvents);
              && related(look(a).0, look(b).0) && (look(a).1.None? <==> look(b).1.None?)
              && (look(a).1.Some? ==> Drained(look(a).1.value, look(b).1.value))
    {
      LookAlike(a, b, maxTimeUs, maxEvents);
    }
    R.RelatedLoops(Stepper(prog), Looker<P, U>(maxTimeUs, maxEvents), related, Drained,
                   Machine(k, env), Machine(Restored(cp), env), fuel);
  }

  /** If no cancelled event is stored, the resumed kernel is the original one. */
  lemma {:induction false} ResumeExact<P>(k: Kernel<P>, cp: KernelCheckpoint<P>)
    requires Valid(k) && Captures(cp, k)
    ensures Restored(cp) == k <==> forall e :: e in k.queue.stored ==> !e.cancelled
  {
    assert Live(k.queue.stored) == k.queue.stored <==> forall e :: e in k.queue.stored ==> !e.cancelled;
  }

  /**
   The answer of runUntil does not survive a checkpoint in general: with one cancelled event
   stored the original reports the time limit and the resumed kernel reports being finished.
  */
  lemma {:induction false} FinishedFlagDiffers<P(!new), U(!new)>(
    prog: Program<P, U>, env: U, payload: P, maxTimeUs: int, fuel: nat)
    ensures var e := NewEvent(0, 0, [], payload, 0).(cancelled := true);
            var k := Kernel(Queue({e}, 1), 0, 0, []);
            var cp := KernelCheckpoint(0, 0, [], Snapshot(1, []));
            && Valid(k) && Captures(cp, k)
            && RunUntil(prog, Machine(k, env), maxTimeUs, None, fuel).stop == R.Checked(TimeLimit)
            && RunUntil(prog, Machine(Restored(cp), env), maxTimeUs, None, fuel).stop == R.Checked(Finished)
  {
    var e := NewEvent(0, 0, [], payload, 0).(cancelled := true);
    assert Live({e}) == {};
    assert Elements<P>([]) == {};
    assert e in {e};
  }

  // ---------- exactly when the answer of runUntil survives ----------

  /** Whatever the first set stores beyond the second is cancelled and comes before something in it. */
  ghost predicate Covers<P>(a: set<SimEvent<P>>, b: set<SimEvent<P>>) {
    && b <= a
    && forall c :: c in a && c !in b ==> c.cancelled && exists x :: x in b && Before(c, x)
  }

  ghost predicate Covered<P, U>(a: Machine<P, U>, b: Machine<P, U>) {
    Related(a, b) && Covers(a.kernel.queue.stored, b.kernel.queue.stored)
  }

  function Flagged<P>(e: SimEvent<P>, id: Text): SimEvent<P> {
    if e.id == id then e.(cancelled := true) else e
  }

  lemma {:induction false} CancelImage<P>(q: Queue<P>, id: Text)
    ensures forall e :: e in q.stored ==> Flagged(e, id) in Cancel(q, id).stored
    ensures forall c :: c in Cancel(q, id).stored ==> exists e :: e in q.stored && Flagged(e, id) == c
  {
    forall c | c in Cancel(q, id).stored ensures exists e :: e in q.stored && Flagged(e, id) == c {
      if c in q.stored && c.id != id {
        assert Flagged(c, id) == c;
      } else {
        var e :| e in q.stored && e.id == id && c == e.(cancelled := true);
        assert Flagged(e, id) == c;
      }
    }
  }

  lemma {:induction false} FlagKeepsOrder<P>(c: SimEvent<P>, x: SimEvent<P>, id: Text)
    requires Before(c, x)
    ensures Before(Flagged(c, id), Flagged(x, id))
    ensures c.cancelled ==> Flagged(c, id) == c
  {
  }

  lemma {:induction false} CancelCovers<P>(a: Queue<P>, b: Queue<P>, id: Text)
    requires Covers(a.stored, b.stored)
    ensures Covers(Cancel(a, id).stored, Cancel(b, id).stored)
  {
    CancelImage(a, id);
    CancelImage(b, id);
    var a', b' := Cancel(a, id).stored, Cancel(b, id).stored;
    forall c | c in a' && c !in b' ensures c.cancelled && exists x :: x in b' && Before(c, x) {
      var o :| o in a.stored && Flagged(o, id) == c;
      assert o !in b.stored && o.cancelled;
      var x :| x in b.stored && Before(o, x);
      FlagKeepsOrder(o, x, id);
      assert Flagged(x, id) in b';
    }
    forall c | c in b' ensures c in a' {
      var o :| o in b.stored && Flagged(o, id) == c;
    }
  }

  lemma {:induction false} ApplyCovers<P>(a: Kernel<P>, b: Kernel<P>, r: Request<P>)
    requires Valid(a) && Valid(b) && SameFuture(a, b) && Covers(a.queue.stored, b.queue.stored)
    ensures Covers(Apply(a, r).0.queue.stored, Apply(b, r).0.queue.stored)
  {
    match r
    case CancelEvent(id) => CancelCovers(a.queue, b.queue, id);
    case _ =>
  }

  lemma {:induction false} ApplyAllCovers<P>(a: Kernel<P>, b: Kernel<P>, requests: seq<Request<P>>)
    requires Valid(a) && Valid(b) && SameFuture(a, b) && Covers(a.queue.stored, b.queue.stored)
    ensures Covers(ApplyAll(a, requests).0.queue.stored, ApplyAll(b, requests).0.queue.stored)
    decreases |requests|
  {
    if requests != [] {
      ApplyCovers(a, b, requests[0]);
      ApplyAlike(a, b, requests[0]);
      ApplyValid(a, requests[0]);
      ApplyValid(b, requests[0]);
      ApplyAllCovers(Apply(a, requests[0]).0, Apply(b, requests[0]).0, requests[1..]);
    }
  }

  lemma {:induction false} PopCoversAfter<P>(a: set<SimEvent<P>>, b: set<SimEvent<P>>, e: SimEvent<P>)
    requires Covers(a, b)
    ensures Covers(set x | x in a && Before(e, x), set x | x in b && Before(e, x))
  {
    var p, q := set x | x in a && Before(e, x), set x | x in b && Before(e, x);
    forall c | c in p && c !in q ensures c.cancelled && exists x :: x in q && Before(c, x) {
      assert c in a && c !in b;
      var x :| x in b && Before(c, x);
      assert x in q;
    }
  }

  lemma {:induction false} PopCovers<P>(a: Queue<P>, b: Queue<P>)
    requires Events.WellFormed(a) && Events.WellFormed(b)
    requires Live(a.stored) == Live(b.stored) && Covers(a.stored, b.stored)
    ensures Covers(Pop(a).stored, Pop(b).stored)
  {
    if Front(a).Some? {
      PopCoversAfter(a.stored, b.stored, Front(a).value);
    }
  }

  lemma {:induction false} PruneCovers<P>(a: Queue<P>, b: Queue<P>)
    requires Events.WellFormed(a) && Events.WellFormed(b)
    requires Live(a.stored) == Live(b.stored) && Covers(a.stored, b.stored)
    ensures Covers(Prune(a).stored, Prune(b).stored)
  {
    forall c | c in Prune(a).stored && c !in Prune(b).stored
      ensures c.cancelled && exists x :: x in Prune(b).stored && Before(c, x)
    {
      var x :| x in b.stored && Before(c, x);
      assert x in Prune(b).stored;
    }
  }

  lemma {:induction false} StepCovers<P, U>(prog: Program<P, U>, a: Machine<P, U>, b: Machine<P, U>)
    requires Covered(a, b)
    ensures Covered(MachineStep(prog, a).next, MachineStep(prog, b).next)
  {
    StepAlike(prog, a, b);
    StepSafe(prog, a.kernel, a.env);
    PopLive(a.kernel.queue);
    PopLive(b.kernel.queue);
    PopCovers(a.kernel.queue, b.kernel.queue);
    if Front(a.kernel.queue).Some? {
      var e := Front(a.kernel.queue).value;
      EnteredValid(prog, a.kernel, a.env);
      EnteredValid(prog, b.kernel, b.env);
      var x, y := Entered(prog, a.kernel, a.env, e), Entered(prog, b.kernel, b.env, e);
      ApplyAllCovers(x, y, Handle(prog, x, a.env, e).1);
    }
  }

  lemma {:induction false} LookCovers<P, U>(a: Machine<P, U>, b: Machine<P, U>, maxTimeUs: int, maxEvents: Option<nat>)
    requires Covered(a, b)
    ensures var (x, r), (y, q) := Look(a, maxTimeUs, maxEvents), Look(b, maxTimeUs, maxEvents);
            Covered(x, y) && r == q
  {
    LookAlike(a, b, maxTimeUs, maxEvents);
    PruneCovers(a.kernel.queue, b.kernel.queue);
    PruneSubset(a.kernel);
    PruneSubset(b.kernel);
  }

  /** No cancelled event waits behind the last live one. */
  ghost predicate NothingCancelledAtEnd<P>(k: Kernel<P>) {
    forall c :: c in k.queue.stored && c.cancelled ==>
      exists x :: x in Live(k.queue.stored) && Before(c, x)
  }

  /** Then runUntil gives the same answer after a resume, whatever the program and the limits. */
  lemma {:induction false} AnswerSurvives<P(!new), U(!new)>(
    prog: Program<P, U>, k: Kernel<P>, cp: KernelCheckpoint<P>, env: U,
    maxTimeUs: int, maxEvents: Option<nat>, fuel: nat)
    requires Valid(k) && Captures(cp, k) && NothingCancelledAtEnd(k)
    ensures RunUntil(prog, Machine(k, env), maxTimeUs, maxEvents, fuel).stop ==
            RunUntil(prog, Machine(Restored(cp), env), maxTimeUs, maxEvents, fuel).stop
  {
    CaptureRelated(cp, k);
    CoveredSteps<P, U>(prog);
    CoveredLooks<P, U>(maxTimeUs, maxEvents);
    R.RelatedLoops(Stepper(prog), Looker<P, U>(maxTimeUs, maxEvents),
                   (a: Machine<P, U>, b: Machine<P, U>) => Covered(a, b), (a: Reason, b: Reason) => a == b,
                   Machine(k, env), Machine(Restored(cp), env), fuel);
  }

  lemma {:induction false} CoveredSteps<P(!new), U(!new)>(prog: Program<P, U>)
    ensures R.Bisimulation(Stepper(prog), (a: Machine<P, U>, b: Machine<P, U>) => Covered(a, b))
  {
    forall a: Machine<P, U>, b: Machine<P, U> | Covered(a, b)
      ensures && Covered(Stepper(prog)(a).next, Stepper(prog)(b).next)
              && Stepper(prog)(a).observed == Stepper(prog)(b).observed
              && Stepper(prog)(a).failure == Stepper(prog)(b).failure
    {
      StepAlike(prog, a, b);
      StepCovers(prog, a, b);
    }
  }

  lemma {:induction false} CoveredLooks<P(!new), U(!new)>(maxTimeUs: int, maxEvents: Option<nat>)
    ensures R.LooksAlike(Looker<P, U>(maxTimeUs, maxEvents),
                         (a: Machine<P, U>, b: Machine<P, U>) => Covered(a, b),
                         (a: Reason, b: Reason) => a == b)
  {
    var look := Looker<P, U>(maxTimeUs, maxEvents);
    forall a: Machine<P, U>, b: Machine<P, U> | Covered(a, b)
      ensures && Covered(look(a).0, look(b).0)
              && (look(a).1.None? <==> look(b).1.None?)
              && (look(a).1.Some? ==> look(a).1.value == look(b).1.value)
    {
      LookerCovers(a, b, maxTimeUs, maxEvents);
    }
  }

  lemma {:induction false} LookerCovers<P, U>(a: Machine<P, U>, b: Machine<P, U>, maxTimeUs: int, maxEvents: Option<nat>)
    requires Covered(a, b)
    ensures var look := Looker<P, U>(maxTimeUs, maxEvents);
            && Covered(look(a).0, look(b).0)
            && (look(a).1.None? <==> look(b).1.None?)
            && (look(a).1.Some? ==> look(a).1.value == look(b).1.value)
  {
    LookCovers(a, b, maxTimeUs, maxEvents);
  }

  /** One step without handlers only takes the first live event away. */
  lemma {:induction false} IdleHandlersStep<P, U>(prog: Program<P, U>, m: Machine<P, U>)
    requires Valid(m.kernel) && prog.handlers == map[]
    requires Front(m.kernel.queue).Some?
    ensures var s := MachineStep(prog, m.(kernel := m.kernel.(queue := Prune(m.kernel.queue))));
            && s.failure.None? && Valid(s.next.kernel) && s.next.kernel.queue == Pop(m.kernel.queue)
            && |Live(s.next.kernel.queue.stored)| < |Live(m.kernel.queue.stored)|
  {
    PruneKeepsLive(m.kernel.queue);
    StepSafe(prog, m.kernel, m.env);
    PopLive(m.kernel.queue);
  }

  lemma {:induction false} WithinLimit<P, U>(m: Machine<P, U>, maxTimeUs: int)
    requires Valid(m.kernel) && m.kernel.queue.stored != {}
    requires forall e :: e in m.kernel.queue.stored ==> e.timeUs <= maxTimeUs
    ensures Look(m, maxTimeUs, None) ==
            (m.(kernel := m.kernel.(queue := Prune(m.kernel.queue))),
             if Front(m.kernel.queue).None? then Some(TimeLimit) else None)
  {
    if Front(m.kernel.queue).Some? { assert Front(m.kernel.queue).value in m.kernel.queue.stored; }
  }

  ghost predicate WaitsBehind<P, U>(m: Machine<P, U>, maxTimeUs: int, c: SimEvent<P>) {
    && Valid(m.kernel) && c in m.kernel.queue.stored && c.cancelled
    && (forall x :: x in Live(m.kernel.queue.stored) ==> !Before(c, x))
    && (forall e :: e in m.kernel.queue.stored ==> e.timeUs <= maxTimeUs)
  }

  lemma {:induction false} WaitsOn<P, U>(prog: Program<P, U>, m: Machine<P, U>, maxTimeUs: int, c: SimEvent<P>)
    requires WaitsBehind(m, maxTimeUs, c) && prog.handlers == map[]
    ensures match Look(m, maxTimeUs, None).1
            case Some(reason) => reason.TimeLimit?
            case None =>
              var s := MachineStep(prog, Look(m, maxTimeUs, None).0);
              && s.failure.None? && WaitsBehind(s.next, maxTimeUs, c)
              && |Live(s.next.kernel.queue.stored)| < |Live(m.kernel.queue.stored)|
  {
    WithinLimit(m, maxTimeUs);
    if Front(m.kernel.queue).Some? {
      IdleHandlersStep(prog, m);
      var e := Front(m.kernel.queue).value;
      assert e in Live(m.kernel.queue.stored) && e != c && e.sequenceNum != c.sequenceNum;
    }
  }

  lemma {:induction false} DrainsBeforeCancelled<P(!new), U(!new)>(
    prog: Program<P, U>, m: Machine<P, U>, maxTimeUs: int, fuel: nat, c: SimEvent<P>)
    requires WaitsBehind(m, maxTimeUs, c) && prog.handlers == map[]
    requires fuel > |Live(m.kernel.queue.stored)|
    ensures RunUntil(prog, m, maxTimeUs, None, fuel).stop == R.Checked(TimeLimit)
  {
    forall x: Machine<P, U> | WaitsBehind(x, maxTimeUs, c)
      ensures match Looker<P, U>(maxTimeUs, None)(x).1
              case Some(reason) => reason.TimeLimit?
              case None =>
                var s := Stepper(prog)(Looker<P, U>(maxTimeUs, None)(x).0);
                && s.failure.None? && WaitsBehind(s.next, maxTimeUs, c)
                && |Live(s.next.kernel.queue.stored)| < |Live(x.kernel.queue.stored)|
    {
      WaitsOn(prog, x, maxTimeUs, c);
    }
    R.LoopSettles(Stepper(prog), Looker<P, U>(maxTimeUs, None),
                  (x: Machine<P, U>) => WaitsBehind(x, maxTimeUs, c), (r: Reason) => r.TimeLimit?,
                  (x: Machine<P, U>) => |Live(x.kernel.queue.stored)|, m, fuel);
  }

  ghost predicate OnlyLive<P, U>(m: Machine<P, U>, maxTimeUs: int) {
    && Valid(m.kernel) && Live(m.kernel.queue.stored) == m.kernel.queue.stored
    && (forall e :: e in m.kernel.queue.stored ==> e.timeUs <= maxTimeUs)
  }

  lemma {:induction false} OnlyLiveOn<P, U>(prog: Program<P, U>, m: Machine<P, U>, maxTimeUs: int)
    requires OnlyLive(m, maxTimeUs) && prog.handlers == map[]
    ensures match Look(m, maxTimeUs, None).1
            case Some(reason) => reason.Finished?
            case None =>
              var s := MachineStep(prog, Look(m, maxTimeUs, None).0);
              && s.failure.None? && OnlyLive(s.next, maxTimeUs)
              && |Live(s.next.kernel.queue.stored)| < |Live(m.kernel.queue.stored)|
  {
    if m.kernel.queue.stored != {} {
      WithinLimit(m, maxTimeUs);
      IdleHandlersStep(prog, m);
      PopLive(m.kernel.queue);
    }
  }

  lemma {:induction false} DrainsToEmpty<P(!new), U(!new)>(
    prog: Program<P, U>, m: Machine<P, U>, maxTimeUs: int, fuel: nat)
    requires OnlyLive(m, maxTimeUs) && prog.handlers == map[]
    requires fuel > |Live(m.kernel.queue.stored)|
    ensures RunUntil(prog, m, maxTimeUs, None, fuel).stop == R.Checked(Finished)
  {
    forall x: Machine<P, U> | OnlyLive(x, maxTimeUs)
      ensures match Looker<P, U>(maxTimeUs, None)(x).1
              case Some(reason) => reason.Finished?
              case None =>
                var s := Stepper(prog)(Looker<P, U>(maxTimeUs, None)(x).0);
                && s.failure.None? && OnlyLive(s.next, maxTimeUs)
                && |Live(s.next.kernel.queue.stored)| < |Live(x.kernel.queue.stored)|
    {
      OnlyLiveOn(prog, x, maxTimeUs);
    }
    R.LoopSettles(Stepper(prog), Looker<P, U>(maxTimeUs, None),
                  (x: Machine<P, U>) => OnlyLive(x, maxTimeUs), (r: Reason) => r.Finished?,
                  (x: Machine<P, U>) => |Live(x.kernel.queue.stored)|, m, fuel);
  }

  /**
   The converse of AnswerSurvives: with a cancelled event behind the last live one, a program
   without handlers already tells the difference, for all limits large enough to drain.
  */
  lemma {:induction false} AnswerLost<P(!new), U(!new)>(
    prog: Program<P, U>, k: Kernel<P>, cp: KernelCheckpoint<P>, env: U, maxTimeUs: int, fuel: nat)
    requires Valid(k) && Captures(cp, k) && !NothingCancelledAtEnd(k)
    requires prog.handlers == map[] && fuel > |Live(k.queue.stored)|
    requires forall e :: e in k.queue.stored ==> e.timeUs <= maxTimeUs
    ensures RunUntil(prog, Machine(k, env), maxTimeUs, None, fuel).stop == R.Checked(TimeLimit)
    ensures RunUntil(prog, Machine(Restored(cp), env), maxTimeUs, None, fuel).stop == R.Checked(Finished)
  {
    CaptureRelated(cp, k);
    var c :| c in k.queue.stored && c.cancelled &&
             forall x :: x in Live(k.queue.stored) ==> !Before(c, x);
    DrainsBeforeCancelled(prog, Machine(k, env), maxTimeUs, fuel, c);
    DrainsToEmpty(prog, Machine(Restored(cp), env), maxTimeUs, fuel);
  }
}
