/**
 What a simulation kernel does, over abstract queues: the clock, the state hash and the
 handlers, one event at a time.

 Handlers are deterministic: from their own captured state, the event and the clock they
 compute a new captured state and a list of requests to the kernel.
 */
module KernelSpec {
  import opened Common
  import opened Utf16
  import opened Canonical
  import opened Events
  import H = StateHash
  import R = Runs

  datatype Request<P> =
    | Schedule(timeUs: int, eventType: Text, payload: P, priority: int)
    | ScheduleIn(delayUs: int, eventType: Text, payload: P, priority: int)
    | CancelEvent(eventId: Text)

  type Handler<!P, !U> = (U, SimEvent<P>, int) -> (U, seq<Request<P>>)

  /** The registered handlers, the JSON reading of payloads, and the digest. */
  datatype Program<!P, !U> = Program(
    handlers: map<Text, Handler<P, U>>, reading: (U, P) -> Json, sha: H.Digest)

  datatype Error = ScheduledInPast | NegativeDelay | TimeMonotonicityViolation

  datatype Outcome = Processed | Idle | Threw(error: Error)

  datatype Kernel<P(==)> = Kernel(queue: Queue<P>, clock: int, processed: nat, hash: Text)

  /** What every kernel that only schedules through itself satisfies. */
  ghost predicate Valid<P>(k: Kernel<P>) {
    && Events.WellFormed(k.queue)
    && AutoNamed(k.queue)
    && forall e :: e in k.queue.stored ==> e.timeUs >= k.clock
  }

  ghost function Initial<P>(seed: Text): (k: Kernel<P>)
    ensures Valid(k)
  {
    Kernel(Queue({}, 0), 0, 0, seed)
  }

  function NewEvent<P>(next: nat, timeUs: int, eventType: Text, payload: P, priority: int): SimEvent<P> {
    SimEvent(AutoId(next, timeUs), timeUs, priority, next, eventType, payload, false)
  }

  /** schedule: refused, without effect, when the time is already past. */
  ghost function Scheduled<P>(k: Kernel<P>, timeUs: int, eventType: Text, payload: P, priority: int): Kernel<P> {
    k.(queue := Push(k.queue, NewEvent(k.queue.nextSequence, timeUs, eventType, payload, priority)))
  }

  ghost function Apply<P>(k: Kernel<P>, r: Request<P>): (Kernel<P>, Option<Error>) {
    match r
    case Schedule(t, ty, p, prio) =>
      if t < k.clock then (k, Some(ScheduledInPast)) else (Scheduled(k, t, ty, p, prio), None)
    case ScheduleIn(d, ty, p, prio) =>
      if d < 0 then (k, Some(NegativeDelay)) else (Scheduled(k, k.clock + d, ty, p, prio), None)
    case CancelEvent(id) => (k.(queue := Cancel(k.queue, id)), None)
  }

  /** The requests of one handler call, up to the first that is refused. */
  ghost function ApplyAll<P>(k: Kernel<P>, requests: seq<Request<P>>): (Kernel<P>, Option<Error>)
    decreases |requests|
  {
    if requests == [] then (k, None)
    else
      var (k', error) := Apply(k, requests[0]);
      if error.Some? then (k', error) else ApplyAll(k', requests[1..])
  }

  datatype StepResult<P(==), !U> = StepResult(
    kernel: Kernel<P>, env: U, outcome: Outcome, event: Option<SimEvent<P>>)

  ghost function Handle<P, U>(prog: Program<P, U>, k: Kernel<P>, env: U, e: SimEvent<P>): (U, seq<Request<P>>) {
    if e.eventType in prog.handlers then prog.handlers[e.eventType](env, e, k.clock) else (env, [])
  }

  /** On a queue with clashing ids or sequence numbers nothing is claimed; Step then idles. */
  ghost function Step<P, U>(prog: Program<P, U>, k: Kernel<P>, env: U): StepResult<P, U> {
    if !Events.WellFormed(k.queue) then StepResult(k, env, Idle, None) else
    match Front(k.queue)
    case None => StepResult(k.(queue := Pop(k.queue)), env, Idle, None)
    case Some(e) =>
      if e.timeUs < k.clock then
        StepResult(k.(queue := Pop(k.queue)), env, Threw(TimeMonotonicityViolation), Some(e))
      else
        var entered := Entered(prog, k, env, e);
        var (env', requests) := Handle(prog, entered, env, e);
        var (k', error) := ApplyAll(entered, requests);
        Concluded(k', env', error, e)
  }

  /** A step counts unless its handler threw. */
  ghost function Concluded<P, U>(k: Kernel<P>, env: U, error: Option<Error>, e: SimEvent<P>): StepResult<P, U> {
    match error
    case Some(x) => StepResult(k, env, Threw(x), Some(e))
    case None => StepResult(k.(processed := k.processed + 1), env, Processed, Some(e))
  }

  ghost function EntryOf<P, U>(prog: Program<P, U>, env: U, e: SimEvent<P>): H.Entry {
    H.Entry(e.timeUs, e.eventType, prog.reading(env, e.payload))
  }

  /** The kernel when the handler of event `e` is called. */
  ghost function Entered<P, U>(prog: Program<P, U>, k: Kernel<P>, env: U, e: SimEvent<P>): Kernel<P>
    requires Events.WellFormed(k.queue)
  {
    k.(queue := Pop(k.queue), clock := e.timeUs,
       hash := prog.sha(H.HashInput(k.hash, EntryOf(prog, env, e))))
  }

  // ---------- invariants of every step ----------

  lemma {:induction false} ScheduledValid<P>(k: Kernel<P>, timeUs: int, eventType: Text, payload: P, priority: int)
    requires Valid(k) && timeUs >= k.clock
    ensures Valid(Scheduled(k, timeUs, eventType, payload, priority))
  {
    AutoIdFresh(k.queue, timeUs);
  }

  lemma {:induction false} CancelValid<P>(k: Kernel<P>, id: Text)
    requires Valid(k)
    ensures Valid(k.(queue := Cancel(k.queue, id)))
  {
    CancelLive(k.queue, id);
  }

  lemma {:induction false} ApplyValid<P>(k: Kernel<P>, r: Request<P>)
    requires Valid(k)
    ensures Valid(Apply(k, r).0)
    ensures Apply(k, r).0.clock == k.clock && Apply(k, r).0.processed == k.processed
    ensures Apply(k, r).0.hash == k.hash
  {
    match r
    case Schedule(t, ty, p, prio) => if t >= k.clock { ScheduledValid(k, t, ty, p, prio); }
    case ScheduleIn(d, ty, p, prio) => if d >= 0 { ScheduledValid(k, k.clock + d, ty, p, prio); }
    case CancelEvent(id) => CancelValid(k, id);
  }

  lemma {:induction false} ApplyAllValid<P>(k: Kernel<P>, requests: seq<Request<P>>)
    requires Valid(k)
    ensures var k' := ApplyAll(k, requests).0;
            Valid(k') && k'.clock == k.clock && k'.processed == k.processed && k'.hash == k.hash
    decreases |requests|
  {
    if requests != [] {
      ApplyValid(k, requests[0]);
      if Apply(k, requests[0]).1.None? {
        ApplyAllValid(Apply(k, requests[0]).0, requests[1..]);
      }
    }
  }

  /** A request the kernel refuses. */
  predicate Refused<P>(r: Request<P>, clock: int) {
    || (r.Schedule? && r.timeUs < clock)
    || (r.ScheduleIn? && r.delayUs < 0)
  }

  lemma {:induction false} ApplyAllError<P>(k: Kernel<P>, requests: seq<Request<P>>)
    requires Valid(k)
    ensures ApplyAll(k, requests).1.Some? <==> exists r :: r in requests && Refused(r, k.clock)
    ensures ApplyAll(k, requests).1 != Some(TimeMonotonicityViolation)
    decreases |requests|
  {
    if requests != [] {
      var (k', error) := Apply(k, requests[0]);
      ApplyValid(k, requests[0]);
      assert Refused(requests[0], k.clock) <==> error.Some?;
      assert requests[0] in requests;
      if error.None? {
        ApplyAllError(k', requests[1..]);
        assert forall r :: r in requests ==> r == requests[0] || r in requests[1..];
      }
    }
  }

  lemma {:induction false} EnteredValid<P, U>(prog: Program<P, U>, k: Kernel<P>, env: U)
    requires Valid(k) && Front(k.queue).Some?
    ensures Front(k.queue).value.timeUs >= k.clock
    ensures Valid(Entered(prog, k, env, Front(k.queue).value))
  {
    PopLive(k.queue);
  }

  lemma {:induction false} StepIs<P, U>(prog: Program<P, U>, k: Kernel<P>, env: U)
    requires Valid(k)
    ensures Step(prog, k, env) ==
            match Front(k.queue)
            case None => StepResult(k.(queue := Pop(k.queue)), env, Idle, None)
            case Some(e) =>
              var (env', requests) := Handle(prog, Entered(prog, k, env, e), env, e);
              var (k', error) := ApplyAll(Entered(prog, k, env, e), requests);
              Concluded(k', env', error, e)
  {
    if Front(k.queue).Some? { EnteredValid(prog, k, env); }
  }

  /**
   Clock safety. In a kernel that only schedules through itself the clock never decreases, it
   is the time of the event just processed, and the monotonicity error cannot happen; a step
   fails exactly when its handler asks for a time already past or a negative delay.
   */
  lemma {:induction false} StepSafe<P, U>(prog: Program<P, U>, k: Kernel<P>, env: U)
    requires Valid(k)
    ensures var s := Step(prog, k, env);
            && Valid(s.kernel)
            && s.kernel.clock >= k.clock
            && s.outcome != Threw(TimeMonotonicityViolation)
            && (s.event.None? <==> s.outcome == Idle)
            && (s.event.Some? ==> s.kernel.clock == s.event.value.timeUs)
            && s.kernel.processed == k.processed + (if s.outcome == Processed then 1 else 0)
            && (s.outcome.Threw? <==>
                  Front(k.queue).Some? &&
                  var e := Front(k.queue).value;
                  exists r :: r in Handle(prog, k.(clock := e.timeUs), env, e).1 && Refused(r, e.timeUs))
  {
    PopLive(k.queue);
    match Front(k.queue)
    case None =>
    case Some(e) =>
      var entered := Entered(prog, k, env, e);
      EnteredValid(prog, k, env);
      ApplyAllValid(entered, Handle(prog, entered, env, e).1);
      ApplyAllError(entered, Handle(prog, entered, env, e).1);
  }

  /** One event taken, in terms of its own fields: what is hashed, observed, called and counted. */
  lemma {:induction false} StepTakes<P, U>(prog: Program<P, U>, m: Machine<P, U>, e: SimEvent<P>)
    requires Valid(m.kernel) && Front(m.kernel.queue) == Some(e)
    ensures var s := MachineStep(prog, m);
            var called := e.eventType in prog.handlers;
            && s.next.kernel.hash ==
                 prog.sha(m.kernel.hash + [58] + (Decimal(e.timeUs) + [58] + (e.eventType + [58] +
                          Canonicalize(prog.reading(m.env, e.payload)))))
            && s.observed.Some? && s.observed.value.timeUs == e.timeUs
            && s.observed.value.eventType == e.eventType
            && s.observed.value.payload == prog.reading(m.env, e.payload)
            && s.next.env == (if called then prog.handlers[e.eventType](m.env, e, e.timeUs).0 else m.env)
            && s.next.kernel.clock == e.timeUs
            && s.next.kernel.processed == m.kernel.processed + (if s.failure.None? then 1 else 0)
            && (!called ==> s.failure.None? && s.next.kernel.queue == Pop(m.kernel.queue))
            && (called ==>
                  var asked := ApplyAll(m.kernel.(queue := Pop(m.kernel.queue), clock := e.timeUs),
                                        prog.handlers[e.eventType](m.env, e, e.timeUs).1);
                  s.next.kernel.queue == asked.0.queue && s.failure == asked.1)
  {
    StepHash(prog, m.kernel, m.env);
    StepSafe(prog, m.kernel, m.env);
    StepIs(prog, m.kernel, m.env);
    if e.eventType in prog.handlers {
      var entered := Entered(prog, m.kernel, m.env, e);
      HashIgnored(m.kernel.(queue := Pop(m.kernel.queue), clock := e.timeUs), entered.hash,
                  prog.handlers[e.eventType](m.env, e, e.timeUs).1);
    }
  }

  /** Requests neither read nor write the hash. */
  lemma {:induction false} HashIgnored<P>(k: Kernel<P>, hash: Text, requests: seq<Request<P>>)
    ensures ApplyAll(k.(hash := hash), requests) ==
            (ApplyAll(k, requests).0.(hash := hash), ApplyAll(k, requests).1)
    decreases |requests|
  {
    if requests != [] {
      HashIgnored(Apply(k, requests[0]).0, hash, requests[1..]);
    }
  }

  /** What one request does, field by field. */
  lemma {:induction false} ApplyMeans<P>(k: Kernel<P>, timeUs: int, delayUs: int, ty: Text, p: P, prio: int, id: Text)
    ensures var (k', error) := Apply(k, Schedule(timeUs, ty, p, prio));
            var next := k.queue.nextSequence;
            var name := [101, 118, 95] + (Decimal(next) + [95] + Decimal(timeUs));
            if timeUs < k.clock then k' == k && error == Some(ScheduledInPast)
            else error == None && k' == k.(queue := Queue(
                   k.queue.stored + {SimEvent(name, timeUs, prio, next, ty, p, false)}, next + 1))
    ensures var (k', error) := Apply(k, ScheduleIn(delayUs, ty, p, prio));
            if delayUs < 0 then k' == k && error == Some(NegativeDelay)
            else (k', error) == Apply(k, Schedule(k.clock + delayUs, ty, p, prio))
    ensures var (k', error) := Apply(k, CancelEvent(id));
            && error == None && k' == k.(queue := k.queue.(stored := k'.queue.stored))
            && forall x :: x in k'.queue.stored <==>
                 || (x in k.queue.stored && x.id != id)
                 || (x.id == id && x.cancelled && exists e :: e in k.queue.stored && x == e.(cancelled := true))
  {
    assert Ascii("ev_") == [101, 118, 95];
  }

  /** A step that finds nothing live changes nothing but drops what is cancelled. */
  lemma {:induction false} StepFindsNothing<P, U>(prog: Program<P, U>, m: Machine<P, U>)
    requires Valid(m.kernel) && Front(m.kernel.queue).None?
    ensures var s := MachineStep(prog, m);
            && s.observed.None? && s.failure.None?
            && s.next == m.(kernel := m.kernel.(queue := m.kernel.queue.(stored := {})))
  {
  }

  // ---------- runs ----------

  datatype Machine<P(==), U> = Machine(kernel: Kernel<P>, env: U)

  /** One step of the kernel as a step of a machine that observes the entry it hashes. */
  ghost function MachineStep<P, U>(prog: Program<P, U>, m: Machine<P, U>)
    : R.Stepped<Machine<P, U>, H.Entry, Error>
  {
    var s := Step(prog, m.kernel, m.env);
    R.Stepped(Machine(s.kernel, s.env),
              if s.event.None? then None else Some(EntryOf(prog, m.env, s.event.value)),
              if s.outcome.Threw? then Some(s.outcome.error) else None)
  }

  ghost function Stepper<P, U>(prog: Program<P, U>): R.StepOf<Machine<P, U>, H.Entry, Error> {
    (m: Machine<P, U>) => MachineStep(prog, m)
  }

  /** The machine after `n` steps; a run stops early when it idles or fails. */
  ghost function Run<P, U>(prog: Program<P, U>, m: Machine<P, U>, n: nat): Machine<P, U> {
    R.Run(Stepper(prog), m, n)
  }

  /** The entries hashed by `n` steps, one for each event taken from the queue. */
  ghost function Trace<P, U>(prog: Program<P, U>, m: Machine<P, U>, n: nat): seq<H.Entry> {
    R.Trace(Stepper(prog), m, n)
  }

  lemma {:induction false} RunValid<P(!new), U(!new)>(prog: Program<P, U>, m: Machine<P, U>, n: nat)
    requires Valid(m.kernel)
    ensures Valid(Run(prog, m, n).kernel)
  {
    StepperKeepsValid(prog);
    R.RunKeeps(Stepper(prog), (x: Machine<P, U>) => Valid(x.kernel), m, n);
  }

  lemma {:induction false} StepperKeepsValid<P(!new), U(!new)>(prog: Program<P, U>)
    ensures R.Kept(Stepper(prog), (x: Machine<P, U>) => Valid(x.kernel))
  {
    forall x: Machine<P, U> | Valid(x.kernel) ensures Valid(Stepper(prog)(x).next.kernel) {
      StepSafe(prog, x.kernel, x.env);
    }
  }

  // ---------- the hash of a run ----------

  /** The state hash is the chained hash of exactly the events processed, in order. */
  lemma {:induction false} HashIsChain<P(!new), U(!new)>(prog: Program<P, U>, m: Machine<P, U>, n: nat)
    requires Valid(m.kernel)
    ensures Run(prog, m, n).kernel.hash == H.Chain(prog.sha, m.kernel.hash, Trace(prog, m, n))
  {
    var step := Stepper(prog);
    var inv := (x: Machine<P, U>) => Valid(x.kernel);
    var hash := (x: Machine<P, U>) => x.kernel.hash;
    var add := (h: Text, e: H.Entry) => prog.sha(H.HashInput(h, e));
    StepperKeepsValid(prog);
    forall x: Machine<P, U> | inv(x)
      ensures hash(step(x).next) ==
              if step(x).observed.None? then hash(x) else add(hash(x), step(x).observed.value)
    {
      StepHash(prog, x.kernel, x.env);
    }
    R.RunFolds(step, inv, hash, add, m, n);
    ChainFolds(prog.sha, m.kernel.hash, Trace(prog, m, n));
  }

  lemma {:induction false} ChainFolds(sha: H.Digest, seed: Text, trace: seq<H.Entry>)
    ensures H.Chain(sha, seed, trace) == R.Fold((h: Text, e: H.Entry) => sha(H.HashInput(h, e)), seed, trace)
    decreases |trace|
  {
    if trace != [] {
      ChainFolds(sha, sha(H.HashInput(seed, trace[0])), trace[1..]);
      ChainCons(sha, seed, trace[0], trace[1..]);
      assert trace == [trace[0]] + trace[1..];
    }
  }

  lemma {:induction false} StepHash<P, U>(prog: Program<P, U>, k: Kernel<P>, env: U)
    requires Valid(k)
    ensures var s := Step(prog, k, env);
            s.kernel.hash == if s.event.None? then k.hash
                             else prog.sha(H.HashInput(k.hash, EntryOf(prog, env, s.event.value)))
  {
    PopLive(k.queue);
    if Front(k.queue).Some? {
      var e := Front(k.queue).value;
      var entered := Entered(prog, k, env, e);
      EnteredValid(prog, k, env);
      ApplyAllValid(entered, Handle(prog, entered, env, e).1);
    }
  }

  lemma {:induction false} ChainCons(sha: H.Digest, seed: Text, first: H.Entry, rest: seq<H.Entry>)
    ensures H.Chain(sha, seed, [first] + rest) == H.Chain(sha, sha(H.HashInput(seed, first)), rest)
    decreases |rest|
  {
    var whole := [first] + rest;
    if rest == [] {
      assert whole[..0] == [] && whole == [first];
      assert H.Chain(sha, seed, []) == seed;
    } else {
      ChainCons(sha, seed, first, rest[..|rest| - 1]);
      assert whole[..|whole| - 1] == [first] + rest[..|rest| - 1];
    }
  }

  /**
   Two runs that start with the initial hash reach equal hashes after equally many events
   exactly when they processed the same events: same times, same types, payloads equal up to
   key order.
  */
  lemma {:induction false} EqualHashesEqualTraces<P(!new), U(!new), Q(!new), V(!new)>(
    prog: Program<P, U>, m: Machine<P, U>, n: nat, prog': Program<Q, V>, m': Machine<Q, V>, n': nat)
    requires Valid(m.kernel) && Valid(m'.kernel) && m.kernel.hash == m'.kernel.hash == H.SEED
    requires prog.sha == prog'.sha && H.Lossless(prog.sha)
    requires |Trace(prog, m, n)| == |Trace(prog', m', n')|
    requires H.HashableTrace(Trace(prog, m, n)) && H.HashableTrace(Trace(prog', m', n'))
    ensures Run(prog, m, n).kernel.hash == Run(prog', m', n').kernel.hash <==>
            H.SameTrace(Trace(prog, m, n), Trace(prog', m', n'))
  {
    HashIsChain(prog, m, n);
    HashIsChain(prog', m', n');
    H.ZerosFree(64);
    H.TraceDetermined(prog.sha, H.SEED, H.SEED, Trace(prog, m, n), Trace(prog', m', n'));
  }

  // ---------- runUntil ----------

  datatype Reason = Finished | TimeLimit | EventLimit

  /** What the loop of runUntil looks at: isEmpty, then peek, then the event count. */
  ghost function Look<P, U>(m: Machine<P, U>, maxTimeUs: int, maxEvents: Option<nat>)
    : (Machine<P, U>, Option<Reason>)
  {
    var k := m.kernel;
    if k.queue.stored == {} || !Events.WellFormed(k.queue) then (m, Some(Finished))
    else
      var peeked := m.(kernel := k.(queue := Prune(k.queue)));
      if Front(k.queue).None? || Front(k.queue).value.timeUs > maxTimeUs then (peeked, Some(TimeLimit))
      else if maxEvents.Some? && k.processed >= maxEvents.value then (peeked, Some(EventLimit))
      else (peeked, None)
  }

  ghost function Looker<P, U>(maxTimeUs: int, maxEvents: Option<nat>): R.CheckOf<Machine<P, U>, Reason> {
    (m: Machine<P, U>) => Look(m, maxTimeUs, maxEvents)
  }

  type RunEnd<P(==), U> = R.Ended<Machine<P, U>, Reason, Error>

  /** runUntil, cut off after `fuel` steps. */
  ghost function RunUntil<P, U>(
    prog: Program<P, U>, m: Machine<P, U>, maxTimeUs: int, maxEvents: Option<nat>, fuel: nat): RunEnd<P, U>
  {
    R.Loop(Stepper(prog), Looker(maxTimeUs, maxEvents), m, fuel)
  }

  lemma {:induction false} LookHarmless<P(!new), U(!new)>(
    prog: Program<P, U>, m: Machine<P, U>, maxTimeUs: int, maxEvents: Option<nat>)
    requires Valid(m.kernel)
    ensures R.Harmless(Stepper(prog), Looker(maxTimeUs, maxEvents), m)
    ensures Look(m, maxTimeUs, maxEvents).1.None? ==>
              Stepper(prog)(m).observed.value.timeUs <= maxTimeUs
  {
    if Look(m, maxTimeUs, maxEvents).1.None? {
      PruneKeepsLive(m.kernel.queue);
      assert Step(prog, Look(m, maxTimeUs, maxEvents).0.kernel, m.env) == Step(prog, m.kernel, m.env);
    }
  }

  /**
   runUntil is a plain run that stops for the reason it gives: nothing later than the limit is
   processed, a stop at the time limit leaves no live event within it, and it reports being
   finished only when nothing at all is stored.
  */
  lemma {:induction false} RunUntilMeans<P(!new), U(!new)>(
    prog: Program<P, U>, m: Machine<P, U>, maxTimeUs: int, maxEvents: Option<nat>, fuel: nat)
    requires Valid(m.kernel)
    ensures var r := RunUntil(prog, m, maxTimeUs, maxEvents, fuel);
            var plain := Run(prog, m, r.steps);
            && r.steps <= fuel && Valid(plain.kernel)
            && SameFuture(r.state.kernel, plain.kernel) && r.state.env == plain.env
            && (forall e :: e in Trace(prog, m, r.steps) ==> e.timeUs <= maxTimeUs)
            && (r.stop == R.Checked(Finished) ==> plain.kernel.queue.stored == {})
            && (r.stop == R.Checked(TimeLimit) ==>
                  forall e :: e in Live(plain.kernel.queue.stored) ==> e.timeUs > maxTimeUs)
            && (r.stop == R.Checked(EventLimit) ==>
                  maxEvents.Some? && plain.kernel.processed >= maxEvents.value)
  {
    var step, look := Stepper(prog), Looker<P, U>(maxTimeUs, maxEvents);
    var inv := (x: Machine<P, U>) => Valid(x.kernel);
    StepperKeepsValid(prog);
    forall x: Machine<P, U> | inv(x) ensures R.Harmless(step, look, x) {
      LookHarmless(prog, x, maxTimeUs, maxEvents);
    }
    R.LoopIsRun(step, look, inv, m, fuel);
    RunUntilObserves(prog, m, maxTimeUs, maxEvents, fuel);
    var r := RunUntil(prog, m, maxTimeUs, maxEvents, fuel);
    RunValid(prog, m, r.steps);
    LookMeans(Run(prog, m, r.steps), maxTimeUs, maxEvents);
  }

  lemma {:induction false} RunUntilObserves<P(!new), U(!new)>(
    prog: Program<P, U>, m: Machine<P, U>, maxTimeUs: int, maxEvents: Option<nat>, fuel: nat)
    requires Valid(m.kernel)
    ensures forall e :: e in Trace(prog, m, RunUntil(prog, m, maxTimeUs, maxEvents, fuel).steps) ==>
              e.timeUs <= maxTimeUs
  {
    var step, look := Stepper(prog), Looker<P, U>(maxTimeUs, maxEvents);
    var inv := (x: Machine<P, U>) => Valid(x.kernel);
    var permitted := (o: H.Entry) => o.timeUs <= maxTimeUs;
    StepperKeepsValid(prog);
    forall x: Machine<P, U> | inv(x)
      ensures R.Harmless(step, look, x)
      ensures look(x).1.None? ==> step(x).observed.Some? && permitted(step(x).observed.value)
    {
      LookHarmless(prog, x, maxTimeUs, maxEvents);
    }
    R.LoopObserves(step, look, inv, permitted, m, fuel);
  }

  /** Nothing that a step can observe tells the two apart; their cancelled events may differ. */
  ghost predicate SameFuture<P>(a: Kernel<P>, b: Kernel<P>) {
    && Live(a.queue.stored) == Live(b.queue.stored)
    && a.queue.nextSequence == b.queue.nextSequence
    && a.clock == b.clock && a.processed == b.processed && a.hash == b.hash
  }

  lemma {:induction false} LookMeans<P, U>(m: Machine<P, U>, maxTimeUs: int, maxEvents: Option<nat>)
    requires Valid(m.kernel)
    ensures var (looked, reason) := Look(m, maxTimeUs, maxEvents);
            && SameFuture(looked.kernel, m.kernel) && looked.env == m.env
            && (reason == Some(Finished) <==> m.kernel.queue.stored == {})
            && (reason == Some(TimeLimit) ==>
                  forall e :: e in Live(m.kernel.queue.stored) ==> e.timeUs > maxTimeUs)
            && (reason == Some(EventLimit) ==> maxEvents.Some? && m.kernel.processed >= maxEvents.value)
  {
    LookSame(m, maxTimeUs, maxEvents);
    if Front(m.kernel.queue).Some? {
      FrontFirst(m.kernel.queue, Front(m.kernel.queue).value);
    }
  }

  lemma {:induction false} LookSame<P, U>(m: Machine<P, U>, maxTimeUs: int, maxEvents: Option<nat>)
    requires Valid(m.kernel)
    ensures var looked := Look(m, maxTimeUs, maxEvents).0;
            SameFuture(looked.kernel, m.kernel) && looked.env == m.env
  {
    PruneKeepsLive(m.kernel.queue);
  }

  lemma {:induction false} FrontFirst<P>(q: Queue<P>, e: SimEvent<P>)
    requires Events.WellFormed(q) && Front(q) == Some(e)
    ensures forall x :: x in Live(q.stored) ==> e.timeUs <= x.timeUs
  {
    assert IsLeast(e, Live(q.stored));
  }

  /** With an event limit, as many steps as events are left to the limit always suffice. */
  lemma {:induction false} EventLimitBounds<P(!new), U(!new)>(
    prog: Program<P, U>, m: Machine<P, U>, maxTimeUs: int, limit: nat, fuel: nat)
    requires Valid(m.kernel) && fuel > 0 && m.kernel.processed + fuel > limit
    ensures !RunUntil(prog, m, maxTimeUs, Some(limit), fuel).stop.OutOfFuel?
  {
    var step, look := Stepper(prog), Looker<P, U>(maxTimeUs, Some(limit));
    var inv := (x: Machine<P, U>) => Valid(x.kernel);
    var left: Machine<P, U> -> nat :=
      (x: Machine<P, U>) => if x.kernel.processed > limit then 0 else limit - x.kernel.processed;
    StepperKeepsValid(prog);
    forall x: Machine<P, U> | inv(x)
      ensures R.Harmless(step, look, x)
      ensures look(x).1.None? && step(x).failure.None? ==> left(step(x).next) < left(x)
    {
      LookHarmless(prog, x, maxTimeUs, Some(limit));
      StepSafe(prog, x.kernel, x.env);
    }
    R.LoopEnds(step, look, inv, left, m, fuel);
  }
}
