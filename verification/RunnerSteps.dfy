/**
 ARRIVAL keeps the invariant of module RunnerInvariant, and so does a handler that leaves all
 requests alone.
 */
module RunnerSteps {
  import opened Utf16
  import opened Resources
  import opened RunnerSpec
  import opened Pending
  import opened RunnerInvariant

  // ---------- sets of running requests ----------

  lemma {:induction false} Extended<T>(a: seq<T>, b: seq<T>)
    requires |a| <= |b| && b[..|a|] == a
    ensures forall q: nat :: q < |a| ==> b[q] == a[q]
  {
    assert forall q: nat :: q < |a| ==> b[q] == b[..|a|][q];
  }

  /** A request joins the running ones. */
  lemma {:induction false} RunningGrows(s: Runner, t: Runner)
    requires |t.requests| == |s.requests| + 1 && t.requests[..|s.requests|] == s.requests
    requires t.requests[|s.requests|].status == RUNNING
    ensures |Running(t)| == |Running(s)| + 1
  {
    Extended(s.requests, t.requests);
    assert Running(t) == Running(s) + {|s.requests|};
  }

  /** It joins those of its node. */
  lemma {:induction false} RunningOnGrows(s: Runner, t: Runner, n: Text)
    requires |t.requests| == |s.requests| + 1 && t.requests[..|s.requests|] == s.requests
    requires t.ops == s.ops && t.nodes.Keys == s.nodes.Keys
    requires t.requests[|s.requests|].status == RUNNING && HasRoot(t, |s.requests|)
    ensures |RunningOn(t, n)| == |RunningOn(s, n)| + One(RootOp(t, |s.requests|).nodeId == n)
  {
    var r := |s.requests|;
    Extended(s.requests, t.requests);
    forall q: nat | q < r ensures q in RunningOn(t, n) <==> q in RunningOn(s, n) {}
    if RootOp(t, r).nodeId == n {
      assert RunningOn(t, n) == RunningOn(s, n) + {r};
    } else {
      assert RunningOn(t, n) == RunningOn(s, n);
    }
  }

  /** A request leaves them when its status changes. */
  lemma {:induction false} RunningShrinks(s: Runner, t: Runner, r: nat, n: Text)
    requires r < |s.requests| == |t.requests| && SameConfig(s, t)
    requires forall q: nat :: q < |s.requests| && q != r ==> t.requests[q] == s.requests[q]
    requires s.requests[r].status == RUNNING && HasRoot(s, r) && t.requests[r].status != RUNNING
    ensures |Running(t)| == |Running(s)| - 1
    ensures |RunningOn(t, n)| == |RunningOn(s, n)| - One(RootOp(s, r).nodeId == n)
  {
    assert Running(t) == Running(s) - {r} && r in Running(s);
    if RootOp(s, r).nodeId == n {
      assert RunningOn(t, n) == RunningOn(s, n) - {r} && r in RunningOn(s, n);
    } else {
      assert RunningOn(t, n) == RunningOn(s, n);
    }
  }

  lemma {:induction false} RunningSame(s: Runner, t: Runner, n: Text)
    requires |s.requests| == |t.requests| && SameConfig(s, t)
    requires forall q: nat :: q < |s.requests| ==>
               t.requests[q].status == s.requests[q].status &&
               t.requests[q].rootOperationName == s.requests[q].rootOperationName
    ensures Running(t) == Running(s) && RunningOn(t, n) == RunningOn(s, n)
  {
  }

  // ---------- CPU bound ----------

  /** As many running requests as pending local completions at least, node by node. */
  lemma {:induction false} LocalEventsRun(s: Runner, live: set<Event>, clock: int, ds: seq<int>, n: Text)
    requires Invariant(s, live, clock, ds) && n in s.nodes
    ensures Tally(live, LocalAt(n)) <= |RunningOn(s, n)|
  {
    var events := Matching(live, LocalAt(n));
    forall e | e in events ensures e.payload.LocalOpComplete? && e.payload.request in RunningOn(s, n) {
      LocalEventRuns(s, live, clock, ds, e);
    }
    forall e, f | e in events && f in events && e != f ensures e.payload.request != f.payload.request {
      if e.payload.request == f.payload.request {
        LocalEventRuns(s, live, clock, ds, e);
        TallyTwo(live, e, f, LocalOf(e.payload.request));
      }
    }
    Injection(events, RunningOn(s, n));
  }

  lemma {:induction false} LocalEventRuns(s: Runner, live: set<Event>, clock: int, ds: seq<int>, e: Event)
    requires Invariant(s, live, clock, ds) && e in live && e.payload.LocalOpComplete?
    ensures var r := e.payload.request;
            && r < |s.requests| && s.requests[r].status == RUNNING && HasRoot(s, r)
            && InLocal(s, live, r, ds[r]) && RootOp(s, r) == e.payload.op
  {
    var r := e.payload.request;
    assert EventOk(s, e);
    assert RequestOk(s, live, clock, r, ds[r]);
    TallyPositive(live, e, LocalOf(r));
  }

  lemma {:induction false} Injection(events: set<Event>, rs: set<nat>)
    requires forall e :: e in events ==> e.payload.LocalOpComplete? && e.payload.request in rs
    requires forall e, f :: e in events && f in events && e != f ==> e.payload.request != f.payload.request
    ensures |events| <= |rs|
  {
    if events != {} {
      var e :| e in events;
      Injection(events - {e}, rs - {e.payload.request});
    }
  }

  // ---------- ARRIVAL ----------

  predicate Accepted(s: Runner, operationName: Text) {
    && operationName in s.ops && s.ops[operationName].nodeId in s.nodes
    && s.nodes[s.ops[operationName].nodeId].threadpool.TryAcquire().1 != REJECTED
  }

  /** How long the accepted request occupies the CPU: what processor sharing says once its task is counted. */
  function LocalDuration(s: Runner, operationName: Text): int
    requires Accepted(s, operationName)
  {
    var op := s.ops[operationName];
    s.nodes[op.nodeId].cpu.Acquire().Duration(op.baseLatencyUs)
  }

  /** The local duration of the request that an event brings into being, if it does. */
  function Started(s: Runner, e: Event): seq<int> {
    if e.payload.Arrival? && Accepted(s, e.payload.operationName) then [LocalDuration(s, e.payload.operationName)]
    else []
  }

  lemma {:induction false} ArrivalKeeps(
    s: Runner, live: set<Event>, clock: int, ds: seq<int>, e: Event, live': set<Event>)
    requires Invariant(s, live, clock, ds) && e.timeUs >= clock && e.payload.Arrival?
    requires AllForward(HandleEvent(s, e, e.timeUs).1) ==>
               Stepped(live, e, live', HandleEvent(s, e, e.timeUs).1, e.timeUs)
    ensures var (t, rs) := HandleEvent(s, e, e.timeUs);
            AllForward(rs) && SameConfig(s, t) && Invariant(t, live', e.timeUs, ds + Started(s, e))
  {
    if Accepted(s, e.payload.operationName) {
      AcceptedKeeps(s, live, clock, ds, e, live');
    } else {
      RejectedKeeps(s, live, clock, ds, e, live');
      assert ds + [] == ds;
    }
  }

  lemma {:induction false} RejectedKeeps(
    s: Runner, live: set<Event>, clock: int, ds: seq<int>, e: Event, live': set<Event>)
    requires Invariant(s, live, clock, ds) && e.timeUs >= clock && e.payload.Arrival?
    requires !Accepted(s, e.payload.operationName)
    requires AllForward(HandleEvent(s, e, e.timeUs).1) ==>
               Stepped(live, e, live', HandleEvent(s, e, e.timeUs).1, e.timeUs)
    ensures var (t, rs) := HandleEvent(s, e, e.timeUs);
            AllForward(rs) && SameConfig(s, t) && Invariant(t, live', e.timeUs, ds)
  {
    var (t, rs) := HandleEvent(s, e, e.timeUs);
    forall n | n in s.nodes ensures s.nodes[n].threadpool.Valid() {
      assert NodeOk(s, live, n);
    }
    RejectedShape(s, e);
    QuietKeeps(s, t, live, clock, ds, e, live');
  }

  lemma {:induction false} RejectedShape(s: Runner, e: Event)
    requires e.payload.Arrival? && forall n :: n in s.nodes ==> s.nodes[n].threadpool.Valid()
    requires !Accepted(s, e.payload.operationName)
    ensures var (t, rs) := HandleEvent(s, e, e.timeUs); rs == [] && Quiet(s, t)
  {
    var name := e.payload.operationName;
    if name in s.ops && s.ops[name].nodeId in s.nodes {
      ThreadPoolConserves(s.nodes[s.ops[name].nodeId].threadpool);
    }
  }

  /** Only counters change: a request failed on arrival, or nothing happened. */
  ghost predicate Quiet(s: Runner, t: Runner) {
    && SameConfig(s, t) && t.requests == s.requests && t.finished == s.finished && t.successes == s.successes
    && t.totalArrivals - s.totalArrivals == t.failures - s.failures >= 0
    && forall n :: n in s.nodes ==>
         && t.nodes[n].cpu == s.nodes[n].cpu && t.nodes[n].connPool == s.nodes[n].connPool
         && t.nodes[n].threadpool.Valid()
         && t.nodes[n].threadpool.Held() == s.nodes[n].threadpool.Held()
  }

  /** A handler that schedules nothing and leaves requests alone. */
  lemma {:induction false} QuietKeeps(
    s: Runner, t: Runner, live: set<Event>, clock: int, ds: seq<int>, e: Event, live': set<Event>)
    requires Invariant(s, live, clock, ds) && Stepped(live, e, live', [], e.timeUs) && e.timeUs >= clock
    requires e.payload.Arrival? || e.payload.AsyncInvoke?
    requires Quiet(s, t)
    ensures Invariant(t, live', e.timeUs, ds)
  {
    forall r | 0 <= r < |s.requests| ensures RequestOk(t, live', e.timeUs, r, ds[r]) {
      OtherRequest(s, t, live, live', e, [], clock, e.timeUs, r, ds[r]);
    }
    forall n | n in t.nodes ensures NodeOk(t, live', n) {
      assert NodeOk(s, live, n);
      RunningSame(s, t, n);
      assert Tally(live', LocalAt(n)) == Tally(live, LocalAt(n));
      assert Tally(live', DepAt(n)) == Tally(live, DepAt(n));
    }
    RunningSame(s, t, []);
    forall x | x in live' ensures EventOk(t, x) { assert EventOk(s, x); }
    LogSame(s, t, ds);
  }

  lemma {:induction false} LogSame(s: Runner, t: Runner, ds: seq<int>)
    requires |ds| == |s.requests| && LogOk(s, ds)
    requires SameConfig(s, t) && t.finished == s.finished && |t.requests| == |s.requests|
    requires forall r :: 0 <= r < |s.requests| ==>
               t.requests[r].status == s.requests[r].status &&
               t.requests[r].rootOperationName == s.requests[r].rootOperationName
    ensures LogOk(t, ds)
  {
    forall i | 0 <= i < |t.finished| ensures EntryOk(t, ds, t.finished[i]) {
      assert EntryOk(s, ds, s.finished[i]);
    }
  }

  /** The request is new: nothing mentions it yet. */
  lemma {:induction false} NothingMentions(s: Runner, live: set<Event>, r: nat)
    requires forall x :: x in live ==> EventOk(s, x)
    requires r >= |s.requests|
    ensures Tally(live, LocalOf(r)) == 0 && Tally(live, DepOf(r)) == 0
  {
    TallyNone(live, LocalOf(r));
    TallyNone(live, DepOf(r));
    forall x | x in live ensures x.payload !in LocalOf(r) && x.payload !in DepOf(r) {
      assert EventOk(s, x);
    }
  }

  lemma {:induction false} AcceptedKeeps(
    s: Runner, live: set<Event>, clock: int, ds: seq<int>, e: Event, live': set<Event>)
    requires Invariant(s, live, clock, ds) && e.timeUs >= clock && e.payload.Arrival?
    requires Accepted(s, e.payload.operationName)
    requires AllForward(HandleEvent(s, e, e.timeUs).1) ==>
               Stepped(live, e, live', HandleEvent(s, e, e.timeUs).1, e.timeUs)
    ensures var (t, rs) := HandleEvent(s, e, e.timeUs);
            && AllForward(rs) && SameConfig(s, t)
            && Invariant(t, live', e.timeUs, ds + [LocalDuration(s, e.payload.operationName)])
  {
    var (t, rs) := HandleEvent(s, e, e.timeUs);
    var op := s.ops[e.payload.operationName];
    assert NodeOk(s, live, op.nodeId);
    NewDuration(s, live, clock, ds, op);
    AcceptedShape(s, e, op);
    AcceptedInvariant(s, t, live, clock, ds, e, live', rs, op);
  }

  /** What accepting an arrival does, without the invariant. */
  ghost predicate Accepts(s: Runner, t: Runner, e: Event, rs: seq<Ask>, op: Operation) {
    && |rs| == 1 && rs[0].ScheduleIn? && rs[0] == In(rs[0].delayUs, LocalOpComplete(|s.requests|, op))
    && AllForward(rs) && SameConfig(s, t) && op.nodeId in t.nodes && PossibleDuration(t, op, rs[0].delayUs)
    && t.finished == s.finished && t.successes == s.successes && t.failures == s.failures
    && t.totalArrivals == s.totalArrivals + 1
    && |t.requests| == |s.requests| + 1 && t.requests[..|s.requests|] == s.requests
    && (var req := t.requests[|s.requests|];
        req.status == RUNNING && req.arrivalTimeUs == e.timeUs &&
        req.rootOperationName in t.ops && t.ops[req.rootOperationName] == op)
    && (forall m :: m in s.nodes ==>
          if m == op.nodeId
          then s.nodes[m].threadpool.TryAcquire().1 != REJECTED &&
               t.nodes[m] == s.nodes[m].(threadpool := s.nodes[m].threadpool.TryAcquire().0,
                                         cpu := s.nodes[m].cpu.Acquire())
          else t.nodes[m] == s.nodes[m])
  }

  lemma {:induction false} AcceptedShape(s: Runner, e: Event, op: Operation)
    requires e.payload.Arrival? && e.payload.operationName in s.ops
    requires op == s.ops[e.payload.operationName] && op.nodeId in s.nodes && op.baseLatencyUs >= 0
    requires s.nodes[op.nodeId].threadpool.Valid()
    requires s.nodes[op.nodeId].threadpool.TryAcquire().1 != REJECTED
    requires PossibleDuration(s, op, s.nodes[op.nodeId].cpu.Acquire().Duration(op.baseLatencyUs))
    ensures var (t, rs) := HandleEvent(s, e, e.timeUs); Accepts(s, t, e, rs, op)
  {
    ThreadPoolConserves(s.nodes[op.nodeId].threadpool);
    var (t, rs) := HandleEvent(s, e, e.timeUs);
    assert Forward(rs[0]);
  }

  lemma {:induction false} AcceptedInvariant(
    s: Runner, t: Runner, live: set<Event>, clock: int, ds: seq<int>, e: Event, live': set<Event>,
    rs: seq<Ask>, op: Operation)
    requires Invariant(s, live, clock, ds) && e.timeUs >= clock && e.payload.Arrival?
    requires Accepts(s, t, e, rs, op) && Stepped(live, e, live', rs, e.timeUs)
    ensures Invariant(t, live', e.timeUs, ds + [rs[0].delayUs])
  {
    var d := rs[0].delayUs;
    AcceptedRequests(s, t, live, clock, ds, e, live', rs, op);
    forall m | m in t.nodes ensures NodeOk(t, live', m) {
      AcceptedNode(s, t, live, live', e, rs, op, m);
    }
    RunningGrows(s, t);
    AcceptedEvents(s, t, live, live', e, rs, op);
    LogExtended(s, t, ds, d);
  }

  lemma {:induction false} SameRequest(s: Runner, live: set<Event>, clock: int, r: nat, d: int, d': int)
    requires r < |s.requests| && d == d' && RequestOk(s, live, clock, r, d)
    ensures RequestOk(s, live, clock, r, d')
  {
  }

  /** The old requests and the new one. */
  lemma {:induction false} AcceptedRequests(
    s: Runner, t: Runner, live: set<Event>, clock: int, ds: seq<int>, e: Event, live': set<Event>,
    rs: seq<Ask>, op: Operation)
    requires Invariant(s, live, clock, ds) && e.timeUs >= clock && e.payload.Arrival?
    requires Accepts(s, t, e, rs, op) && Stepped(live, e, live', rs, e.timeUs)
    ensures forall q :: 0 <= q < |t.requests| ==> RequestOk(t, live', e.timeUs, q, (ds + [rs[0].delayUs])[q])
  {
    var r, d := |s.requests|, rs[0].delayUs;
    NothingMentions(s, live, r);
    AcceptedRequest(s, t, live, live', e, rs, r, d, op);
    AcceptedOthers(s, t, live, live', e, rs, clock, ds);
    forall q | 0 <= q < |t.requests| ensures RequestOk(t, live', e.timeUs, q, (ds + [d])[q]) {
      SameRequest(t, live', e.timeUs, q, if q < r then ds[q] else d, (ds + [d])[q]);
    }
  }

  lemma {:induction false} AcceptedEvents(
    s: Runner, t: Runner, live: set<Event>, live': set<Event>, e: Event, rs: seq<Ask>, op: Operation)
    requires Accepts(s, t, e, rs, op) && Stepped(live, e, live', rs, e.timeUs)
    requires forall x :: x in live ==> EventOk(s, x)
    ensures forall x :: x in live' ==> EventOk(t, x)
  {
    forall x | x in live' ensures EventOk(t, x) {
      if x in live { assert EventOk(s, x); }
    }
  }

  lemma {:induction false} AcceptedOthers(
    s: Runner, t: Runner, live: set<Event>, live': set<Event>, e: Event, rs: seq<Ask>, clock: int, ds: seq<int>)
    requires |ds| == |s.requests| && forall q :: 0 <= q < |s.requests| ==> RequestOk(s, live, clock, q, ds[q])
    requires |t.requests| == |s.requests| + 1 && t.requests[..|s.requests|] == s.requests && SameConfig(s, t)
    requires Stepped(live, e, live', rs, e.timeUs) && e.payload.Arrival? && e.timeUs >= clock
    requires forall a :: a in rs ==> a.payload.LocalOpComplete? && a.payload.request == |s.requests|
    ensures forall q :: 0 <= q < |s.requests| ==> RequestOk(t, live', e.timeUs, q, ds[q])
  {
    Extended(s.requests, t.requests);
    forall q | 0 <= q < |s.requests| ensures RequestOk(t, live', e.timeUs, q, ds[q]) {
      OtherRequest(s, t, live, live', e, rs, clock, e.timeUs, q, ds[q]);
    }
  }

  lemma {:induction false} LogExtended(s: Runner, t: Runner, ds: seq<int>, d: int)
    requires |ds| == |s.requests| && LogOk(s, ds)
    requires SameConfig(s, t) && t.finished == s.finished
    requires |t.requests| == |s.requests| + 1 && t.requests[..|s.requests|] == s.requests
    requires t.requests[|s.requests|].status == RUNNING
    ensures LogOk(t, ds + [d])
  {
    Extended(s.requests, t.requests);
    forall i | 0 <= i < |t.finished| ensures EntryOk(t, ds + [d], t.finished[i]) {
      assert EntryOk(s, ds, s.finished[i]);
    }
  }

  /** On the node that accepts, one thread and one CPU task more; elsewhere nothing changes. */
  lemma {:induction false} AcceptedNode(
    s: Runner, t: Runner, live: set<Event>, live': set<Event>, e: Event, rs: seq<Ask>, op: Operation, m: Text)
    requires m in s.nodes && NodeOk(s, live, m) && SameConfig(s, t)
    requires |t.requests| == |s.requests| + 1 && t.requests[..|s.requests|] == s.requests
    requires t.requests[|s.requests|].status == RUNNING && HasRoot(t, |s.requests|)
    requires RootOp(t, |s.requests|) == op
    requires |rs| == 1 && rs[0].ScheduleIn? && rs[0].payload == LocalOpComplete(|s.requests|, op)
    requires Stepped(live, e, live', rs, e.timeUs) && e.payload.Arrival?
    requires if m == op.nodeId
             then s.nodes[m].threadpool.TryAcquire().1 != REJECTED &&
                  t.nodes[m] == s.nodes[m].(threadpool := s.nodes[m].threadpool.TryAcquire().0,
                                            cpu := s.nodes[m].cpu.Acquire())
             else t.nodes[m] == s.nodes[m]
    ensures NodeOk(t, live', m)
  {
    ThreadPoolConserves(s.nodes[m].threadpool);
    RunningOnGrows(s, t, m);
    AskedOne(rs, LocalAt(m));
    AskedOne(rs, DepAt(m));
    assert Tally(live', LocalAt(m)) == Tally(live, LocalAt(m)) + One(op.nodeId == m);
    assert Tally(live', DepAt(m)) == Tally(live, DepAt(m));
  }

  lemma {:induction false} AskedOne(rs: seq<Ask>, p: iset<Payload>)
    requires |rs| == 1 && AllForward(rs) && rs[0].ScheduleIn?
    ensures Asked(rs, p) == One(rs[0].payload in p)
  {
    assert Asked(rs[1..], p) == 0;
  }

  /** The duration computed on acceptance is within the bounds of the node's configuration. */
  lemma {:induction false} NewDuration(s: Runner, live: set<Event>, clock: int, ds: seq<int>, op: Operation)
    requires Invariant(s, live, clock, ds) && op.nodeId in s.nodes && op.baseLatencyUs >= 0
    requires s.nodes[op.nodeId].threadpool.TryAcquire().1 != REJECTED
    ensures PossibleDuration(s, op, s.nodes[op.nodeId].cpu.Acquire().Duration(op.baseLatencyUs))
  {
    var node := s.nodes[op.nodeId];
    assert NodeOk(s, live, op.nodeId);
    LocalEventsRun(s, live, clock, ds, op.nodeId);
    ThreadPoolConserves(node.threadpool);
    DurationBounds(node.cpu.Acquire(), op.baseLatencyUs, node.threadpool.workerCount + node.threadpool.queueCapacity);
  }

  lemma {:induction false} AcceptedRequest(
    s: Runner, t: Runner, live: set<Event>, live': set<Event>, e: Event, rs: seq<Ask>, r: nat, d: int, op: Operation)
    requires r == |s.requests| && |t.requests| == r + 1 && SameConfig(s, t)
    requires t.requests[r].status == RUNNING && t.requests[r].arrivalTimeUs == e.timeUs
    requires HasRoot(t, r) && RootOp(t, r) == op && PossibleDuration(t, op, d) && d >= 0
    requires rs == [In(d, LocalOpComplete(r, op))] && Stepped(live, e, live', rs, e.timeUs)
    requires e.payload.Arrival?
    requires Tally(live, LocalOf(r)) == 0 && Tally(live, DepOf(r)) == 0
    ensures RequestOk(t, live', e.timeUs, r, d)
  {
    AcceptedTallies(live, e, live', rs, r);
    AcceptedTimes(live, e, live', rs, r);
  }

  lemma {:induction false} AcceptedTallies(live: set<Event>, e: Event, live': set<Event>, rs: seq<Ask>, r: nat)
    requires |rs| == 1 && AllForward(rs) && rs[0].ScheduleIn? && rs[0].payload.LocalOpComplete?
    requires rs[0].payload.request == r
    requires Stepped(live, e, live', rs, e.timeUs) && e.payload.Arrival?
    requires Tally(live, LocalOf(r)) == 0 && Tally(live, DepOf(r)) == 0
    ensures Tally(live', LocalOf(r)) == 1 && Tally(live', DepOf(r)) == 0
  {
    AskedOne(rs, LocalOf(r));
    AskedOne(rs, DepOf(r));
  }

  lemma {:induction false} AcceptedTimes(live: set<Event>, e: Event, live': set<Event>, rs: seq<Ask>, r: nat)
    requires |rs| == 1 && AllForward(rs) && rs[0].ScheduleIn?
    requires Stepped(live, e, live', rs, e.timeUs)
    requires Tally(live, LocalOf(r)) == 0
    ensures forall x :: x in live' && x.payload in LocalOf(r) ==>
              x.timeUs == e.timeUs + rs[0].delayUs && x.payload == rs[0].payload
  {
    TallyNone(live, LocalOf(r));
    forall x | x in live' && x.payload in LocalOf(r)
      ensures x.timeUs == e.timeUs + rs[0].delayUs && x.payload == rs[0].payload
    {
      var a :| a in rs && MadeBy(x, a, e.timeUs);
      assert a == rs[0];
    }
  }
}
