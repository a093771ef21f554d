/**
 LOCAL_OP_COMPLETE keeps the invariant: it finishes the request, or starts its dependencies, or
 fails it at the first that cannot be started.
 */
module RunnerLocal {
  import opened Utf16
  import opened Resources
  import opened RunnerSpec
  import opened Pending
  import opened RunnerInvariant
  import opened RunnerSteps
  import opened RunnerMoves
  import opened RunnerHandlers

  // ---------- what the handler asks for ----------

  lemma {:induction false} AsyncAsksShape(ops: map<Text, Operation>, deps: seq<Dependency>)
    ensures forall a :: a in AsyncAsks(ops, deps) ==>
              a.ScheduleIn? && a.delayUs == 500 && a.payload.AsyncInvoke? && a.eventType == TypeOf(a.payload)
    ensures AllForward(AsyncAsks(ops, deps))
  {
    if deps != [] { AsyncAsksShape(ops, deps[1..]); }
  }

  /** Completions of the request `r` at existing nodes, each within `wait`. */
  ghost predicate DepAsks(s: Runner, asks: seq<Ask>, r: nat, wait: nat) {
    forall a :: a in asks ==>
      && a.ScheduleIn? && 0 <= a.delayUs <= wait
      && a.payload.DepComplete? && a.payload.request == r && a.payload.targetNodeId in s.nodes
      && a.eventType == TypeOf(a.payload)
  }

  lemma {:induction false} AskedDeps(s: Runner, asks: seq<Ask>, r: nat, wait: nat)
    requires DepAsks(s, asks, r, wait) && AllForward(asks)
    ensures Asked(asks, DepOf(r)) == |asks|
  {
    if asks != [] {
      assert asks[0] in asks;
      AskedDeps(s, asks[1..], r, wait);
    }
  }

  /** Only connection pools differ: each node holds one connection more for every event asked. */
  ghost predicate ConnectionsGrow(s: Runner, mid: Runner, asks: seq<Ask>)
    requires AllForward(asks)
  {
    && mid == s.(nodes := mid.nodes) && mid.nodes.Keys == s.nodes.Keys
    && forall n :: n in s.nodes ==>
         && mid.nodes[n].cpu == s.nodes[n].cpu && mid.nodes[n].threadpool == s.nodes[n].threadpool
         && mid.nodes[n].connPool.Valid()
         && mid.nodes[n].connPool.Held() == s.nodes[n].connPool.Held() + Asked(asks, DepAt(n))
  }

  lemma {:induction false} ConnectGrows(s: Runner, n: Text)
    requires n in s.nodes && forall m :: m in s.nodes ==> s.nodes[m].connPool.Valid()
    ensures var (t, granted) := Connect(s, n);
            && t == s.(nodes := t.nodes) && t.nodes.Keys == s.nodes.Keys
            && forall m :: m in s.nodes ==>
                 && t.nodes[m].cpu == s.nodes[m].cpu && t.nodes[m].threadpool == s.nodes[m].threadpool
                 && t.nodes[m].connPool.Valid()
                 && t.nodes[m].connPool.Held() == s.nodes[m].connPool.Held() + One(granted && m == n)
  {
    ConnectionPoolConserves(s.nodes[n].connPool);
  }

  /** Starting dependencies takes connections and, if one cannot be started, fails the request. */
  lemma {:induction false} StartEffect(s: Runner, r: nat, deps: seq<Dependency>, now: int) returns (mid: Runner)
    requires r < |s.requests| && NonNegative(s.ops)
    requires forall m :: m in s.nodes ==> s.nodes[m].connPool.Valid()
    ensures var (t, asks) := StartDependencies(s, r, deps, now);
            && AllForward(asks) && DepAsks(s, asks, r, Longest(s.ops, deps)) && ConnectionsGrow(s, mid, asks)
            && |asks| <= |deps|
            && t == (if |asks| == |deps| then mid else Fail(mid, r, now))
            && (|asks| == |deps| > 0 ==> exists a :: a in asks && a.delayUs == Longest(s.ops, deps))
    decreases |deps|
  {
    mid := s;
    if deps != [] {
      var dep := deps[0];
      if dep.targetOperationName in s.ops && dep.targetNodeId in s.nodes {
        var (s', granted) := Connect(s, dep.targetNodeId);
        ConnectGrows(s, dep.targetNodeId);
        mid := s';
        if granted {
          mid := StartEffect(s', r, deps[1..], now);
          StartStep(s, s', mid, r, deps, now);
        }
      }
    }
  }

  lemma {:induction false} StartStep(s: Runner, s': Runner, mid: Runner, r: nat, deps: seq<Dependency>, now: int)
    requires r < |s.requests| && NonNegative(s.ops) && deps != []
    requires var dep := deps[0];
             dep.targetOperationName in s.ops && dep.targetNodeId in s.nodes && Connect(s, dep.targetNodeId) == (s', true)
    requires s' == s.(nodes := s'.nodes) && s'.nodes.Keys == s.nodes.Keys
    requires forall m :: m in s.nodes ==>
               && s'.nodes[m].cpu == s.nodes[m].cpu && s'.nodes[m].threadpool == s.nodes[m].threadpool
               && s'.nodes[m].connPool.Held() == s.nodes[m].connPool.Held() + One(m == deps[0].targetNodeId)
    requires var (t, asks) := StartDependencies(s', r, deps[1..], now);
             && AllForward(asks) && DepAsks(s', asks, r, Longest(s.ops, deps[1..])) && ConnectionsGrow(s', mid, asks)
             && |asks| <= |deps[1..]|
             && t == (if |asks| == |deps[1..]| then mid else Fail(mid, r, now))
             && (|asks| == |deps[1..]| > 0 ==> exists a :: a in asks && a.delayUs == Longest(s.ops, deps[1..]))
    ensures var (t, asks) := StartDependencies(s, r, deps, now);
            && AllForward(asks) && DepAsks(s, asks, r, Longest(s.ops, deps)) && ConnectionsGrow(s, mid, asks)
            && |asks| <= |deps|
            && t == (if |asks| == |deps| then mid else Fail(mid, r, now))
            && (|asks| == |deps| > 0 ==> exists a :: a in asks && a.delayUs == Longest(s.ops, deps))
  {
    var rest := StartDependencies(s', r, deps[1..], now).1;
    var first := In(DownstreamDelay(s.ops[deps[0].targetOperationName]), DepComplete(r, deps[0].targetNodeId));
    var asks := [first] + rest;
    assert StartDependencies(s, r, deps, now).1 == asks;
    assert first in asks && Forward(first);
    if |asks| == |deps| && Longest(s.ops, deps) != first.delayUs {
      var a :| a in rest && a.delayUs == Longest(s.ops, deps[1..]);
      assert a in asks;
    }
    FirstGrows(s, s', mid, deps[0].targetNodeId, first, rest);
  }

  lemma {:induction false} FirstGrows(s: Runner, s': Runner, mid: Runner, target: Text, first: Ask, rest: seq<Ask>)
    requires s' == s.(nodes := s'.nodes) && s'.nodes.Keys == s.nodes.Keys
    requires forall m :: m in s.nodes ==>
               && s'.nodes[m].cpu == s.nodes[m].cpu && s'.nodes[m].threadpool == s.nodes[m].threadpool
               && s'.nodes[m].connPool.Held() == s.nodes[m].connPool.Held() + One(m == target)
    requires AllForward([first] + rest) && AllForward(rest) && ConnectionsGrow(s', mid, rest)
    requires Forward(first) && first.payload.DepComplete? && first.payload.targetNodeId == target
    ensures ConnectionsGrow(s, mid, [first] + rest)
  {
    assert ([first] + rest)[1..] == rest;
  }

  // ---------- the handler ----------

  /** What LOCAL_OP_COMPLETE may rely on about its own request. */
  ghost predicate LocalReady(s: Runner, live: set<Event>, clock: int, d: int, e: Event) {
    && e.payload.LocalOpComplete? && e in live && e.payload.request < |s.requests|
    && s.requests[e.payload.request].status == RUNNING && HasRoot(s, e.payload.request)
    && RequestOk(s, live, clock, e.payload.request, d)
    && InLocal(s, live, e.payload.request, d) && RootOp(s, e.payload.request) == e.payload.op
    && e.timeUs >= clock && NonNegative(s.ops)
    && (forall n :: n in s.nodes ==> NodeOk(s, live, n))
  }

  function SyncOf(op: Operation): seq<Dependency> {
    Synchronous(SortDependencies(op.dependencies))
  }

  function AsyncOf(s: Runner, op: Operation): seq<Ask> {
    AsyncAsks(s.ops, Asynchronous(SortDependencies(op.dependencies)))
  }

  /** The state before dependencies are looked at, with the number the handler will wait for. */
  function Idle(s: Runner, r: nat, op: Operation): Runner
    requires r < |s.requests|
  {
    var idle := ReleaseCpu(s, op.nodeId);
    if SyncOf(op) == [] then idle
    else idle.(requests := s.requests[r := s.requests[r].(pendingDependencies := |SyncOf(op)|)])
  }

  /** Giving the CPU back, connecting and asking, before the request is finished if it is. */
  lemma {:induction false} LocalMoves(
    s: Runner, live: set<Event>, clock: int, d: int, e: Event, mid: Runner, more: seq<Ask>)
    requires LocalReady(s, live, clock, d, e)
    requires var (r, op) := (e.payload.request, e.payload.op);
             && AllForward(more) && ConnectionsGrow(Idle(s, r, op), mid, more)
             && DepAsks(Idle(s, r, op), more, r, Longest(s.ops, SyncOf(op)))
    ensures var (r, op) := (e.payload.request, e.payload.op);
            AllForward(AsyncOf(s, op) + more) && Moves(s, mid, e, AsyncOf(s, op) + more, r, false)
  {
    LocalAsks(s, e.payload.request, e.payload.op, more);
    IdleMoves(s, mid, e.payload.request, e.payload.op, more);
    LocalNodes(s, live, clock, d, e, mid, more);
  }

  lemma {:induction false} LocalAsks(s: Runner, r: nat, op: Operation, more: seq<Ask>)
    requires r < |s.requests| && NonNegative(s.ops) && AllForward(more)
    requires DepAsks(Idle(s, r, op), more, r, Longest(s.ops, SyncOf(op)))
    ensures AllForward(AsyncOf(s, op) + more)
    ensures forall a :: a in AsyncOf(s, op) + more ==>
              a.eventType == TypeOf(a.payload) && (a.payload.AsyncInvoke? ||
              (a.payload.DepComplete? && a.payload.request == r && a.payload.targetNodeId in s.nodes))
  {
    AsyncAsksShape(s.ops, Asynchronous(SortDependencies(op.dependencies)));
    AskedConcat(AsyncOf(s, op), more, iset{});
  }

  lemma {:induction false} IdleMoves(s: Runner, mid: Runner, r: nat, op: Operation, more: seq<Ask>)
    requires r < |s.requests| && AllForward(more) && ConnectionsGrow(Idle(s, r, op), mid, more)
    ensures RequestMoves(s, mid, r, false) && SameConfig(s, mid)
  {
    IdleIs(s, r, op);
    GrowthKeepsLimits(s, Idle(s, r, op), mid, more);
  }

  lemma {:induction false} IdleIs(s: Runner, r: nat, op: Operation)
    requires r < |s.requests|
    ensures RequestMoves(s, Idle(s, r, op), r, false) && SameConfig(s, Idle(s, r, op))
  {
  }

  lemma {:induction false} GrowthKeepsLimits(s: Runner, idle: Runner, mid: Runner, more: seq<Ask>)
    requires AllForward(more) && SameConfig(s, idle) && ConnectionsGrow(idle, mid, more)
    ensures SameConfig(s, mid)
  {
  }

  lemma {:induction false} LocalNodes(
    s: Runner, live: set<Event>, clock: int, d: int, e: Event, mid: Runner, more: seq<Ask>)
    requires LocalReady(s, live, clock, d, e) && AllForward(more)
    requires ConnectionsGrow(Idle(s, e.payload.request, e.payload.op), mid, more)
    requires AllForward(AsyncOf(s, e.payload.op) + more)
    ensures forall n :: n in s.nodes ==>
              NodeMoves(s, mid, e, AsyncOf(s, e.payload.op) + more, e.payload.request, false, n)
  {
    forall n | n in s.nodes
      ensures NodeMoves(s, mid, e, AsyncOf(s, e.payload.op) + more, e.payload.request, false, n)
    {
      assert NodeOk(s, live, n);
      LocalNode(s, live, e, mid, more, n);
    }
  }

  lemma {:induction false} LocalNode(s: Runner, live: set<Event>, e: Event, mid: Runner, more: seq<Ask>, n: Text)
    requires e.payload.LocalOpComplete? && e in live && e.payload.request < |s.requests| && HasRoot(s, e.payload.request)
    requires n in s.nodes && NodeOk(s, live, n) && e.payload.op.nodeId in s.nodes
    requires AllForward(more) && ConnectionsGrow(Idle(s, e.payload.request, e.payload.op), mid, more)
    requires AllForward(AsyncOf(s, e.payload.op) + more)
    ensures NodeMoves(s, mid, e, AsyncOf(s, e.payload.op) + more, e.payload.request, false, n)
  {
    var r, op := e.payload.request, e.payload.op;
    AsyncAsksShape(s.ops, Asynchronous(SortDependencies(op.dependencies)));
    AskedConcat(AsyncOf(s, op), more, DepAt(n));
    NoneAsked(AsyncOf(s, op), DepAt(n));
    TallyPositive(live, e, LocalAt(op.nodeId));
  }

  lemma {:induction false} LocalTallies(
    s: Runner, live: set<Event>, d: int, e: Event, live': set<Event>, more: seq<Ask>, wait: nat)
    requires e.payload.LocalOpComplete? && e.payload.request < |s.requests| && HasRoot(s, e.payload.request)
    requires InLocal(s, live, e.payload.request, d)
    requires AllForward(more) && DepAsks(s, more, e.payload.request, wait)
    requires AllForward(AsyncOf(s, e.payload.op) + more)
    requires Stepped(live, e, live', AsyncOf(s, e.payload.op) + more, e.timeUs)
    ensures var r := e.payload.request;
            Tally(live', LocalOf(r)) == 0 && Tally(live', DepOf(r)) == |more|
    ensures e.timeUs == s.requests[e.payload.request].arrivalTimeUs + d
  {
    var r := e.payload.request;
    var async := AsyncOf(s, e.payload.op);
    AsyncAsksShape(s.ops, Asynchronous(SortDependencies(e.payload.op.dependencies)));
    AskedConcat(async, more, DepOf(r));
    AskedDeps(s, more, r, wait);
    NoneAsked(async, DepOf(r));
    NoneAsked(async + more, LocalOf(r));
  }

  /** All dependencies started: the request now waits for the slowest of them. */
  lemma {:induction false} WaitsOk(s: Runner, t: Runner, live: set<Event>, clock: int, live': set<Event>, e: Event, asks: seq<Ask>, r: nat, d: int)
    requires Moves(s, t, e, asks, r, false) && RequestOk(s, live, clock, r, d) && e.timeUs >= clock
    requires s.requests[r].status == RUNNING && e.timeUs == s.requests[r].arrivalTimeUs + d
    requires Tally(live', LocalOf(r)) == 0 && Tally(live', DepOf(r)) == t.requests[r].pendingDependencies >= 1
    requires var wait := DependencyWait(s.ops, RootOp(s, r));
             && (forall x :: x in live' && x.payload in DepOf(r) ==> x.timeUs <= e.timeUs + wait)
             && (exists x :: x in live' && x.payload in DepOf(r) && x.timeUs == e.timeUs + wait)
    ensures RequestOk(t, live', e.timeUs, r, d)
  {
    assert RootOp(t, r) == RootOp(s, r);
    assert InDependencies(t, live', r, d);
  }

  lemma {:induction false} LocalTimes(
    live: set<Event>, e: Event, live': set<Event>, async: seq<Ask>, more: seq<Ask>, r: nat, wait: nat)
    requires AllForward(async + more) && Stepped(live, e, live', async + more, e.timeUs)
    requires Tally(live, DepOf(r)) == 0
    requires forall a :: a in async ==> a.ScheduleIn? && a.payload.AsyncInvoke?
    requires forall a :: a in more ==> a.ScheduleIn? && a.delayUs <= wait && a.payload in DepOf(r)
    requires exists a :: a in more && a.delayUs == wait
    ensures forall x :: x in live' && x.payload in DepOf(r) ==> x.timeUs <= e.timeUs + wait
    ensures exists x :: x in live' && x.payload in DepOf(r) && x.timeUs == e.timeUs + wait
  {
    TallyNone(live, DepOf(r));
    forall x | x in live' && x.payload in DepOf(r) ensures x.timeUs <= e.timeUs + wait {
      var a :| a in async + more && MadeBy(x, a, e.timeUs);
    }
    var a :| a in more && a.delayUs == wait;
    assert a in async + more && Delivered(a, live', e.timeUs);
  }

  /** LOCAL_OP_COMPLETE in terms of the pieces above. */
  lemma {:induction false} LocalSplits(s: Runner, e: Event) returns (mid: Runner, more: seq<Ask>, t: Runner)
    requires e.payload.LocalOpComplete? && e.payload.request < |s.requests| && NonNegative(s.ops)
    requires forall n :: n in s.nodes ==> s.nodes[n].connPool.Valid()
    ensures var (r, op) := (e.payload.request, e.payload.op);
            && HandleEvent(s, e, e.timeUs) == (t, AsyncOf(s, op) + more)
            && AllForward(more) && ConnectionsGrow(Idle(s, r, op), mid, more)
            && DepAsks(Idle(s, r, op), more, r, DependencyWait(s.ops, op)) && |more| <= |SyncOf(op)|
            && t == (if SyncOf(op) == [] then FinishRequest(mid, r, e.timeUs)
                     else if |more| == |SyncOf(op)| then mid else Fail(mid, r, e.timeUs))
            && (|more| == |SyncOf(op)| > 0 ==> exists a :: a in more && a.delayUs == DependencyWait(s.ops, op))
  {
    var r, op := e.payload.request, e.payload.op;
    var idle := Idle(s, r, op);
    t := HandleEvent(s, e, e.timeUs).0;
    if SyncOf(op) == [] {
      mid, more := idle, [];
      assert AsyncOf(s, op) + more == AsyncOf(s, op);
    } else {
      mid := StartEffect(idle, r, SyncOf(op), e.timeUs);
      more := StartDependencies(idle, r, SyncOf(op), e.timeUs).1;
    }
  }

  lemma {:induction false} LocalKeeps(
    s: Runner, live: set<Event>, clock: int, ds: seq<int>, e: Event, live': set<Event>)
    requires Invariant(s, live, clock, ds) && e in live && e.timeUs >= clock && e.payload.LocalOpComplete?
    requires AllForward(HandleEvent(s, e, e.timeUs).1) ==>
               Stepped(live, e, live', HandleEvent(s, e, e.timeUs).1, e.timeUs)
    ensures var (t, rs) := HandleEvent(s, e, e.timeUs);
            AllForward(rs) && SameConfig(s, t) && Invariant(t, live', e.timeUs, ds)
  {
    LocalEventRuns(s, live, clock, ds, e);
    var r, op := e.payload.request, e.payload.op;
    assert RequestOk(s, live, clock, r, ds[r]);
    forall n | n in s.nodes ensures s.nodes[n].connPool.Valid() { assert NodeOk(s, live, n); }
    var mid, more, t := LocalSplits(s, e);
    LocalMoves(s, live, clock, ds[r], e, mid, more);
    HoldsThread(s, live, r);
    LocalTallies(s, live, ds[r], e, live', more, DependencyWait(s.ops, op));
    if SyncOf(op) != [] && |more| == |SyncOf(op)| {
      AsyncAsksShape(s.ops, Asynchronous(SortDependencies(op.dependencies)));
      LocalTimes(live, e, live', AsyncOf(s, op), more, r, DependencyWait(s.ops, op));
      WaitsOk(s, t, live, clock, live', e, AsyncOf(s, op) + more, r, ds[r]);
      MovesKeep(s, t, live, clock, ds, e, live', AsyncOf(s, op) + more, r, false);
    } else {
      LocalFinishes(s, mid, t, live, clock, ds, e, live', AsyncOf(s, op) + more, |more|);
    }
  }

  /** Without dependencies the request succeeds; with one that cannot be started it fails. */
  lemma {:induction false} LocalFinishes(
    s: Runner, mid: Runner, t: Runner, live: set<Event>, clock: int, ds: seq<int>, e: Event, live': set<Event>,
    asks: seq<Ask>, started: nat)
    requires Invariant(s, live, clock, ds) && e.timeUs >= clock && e.payload.LocalOpComplete?
    requires e.payload.request < |s.requests|
    requires var (r, op) := (e.payload.request, e.payload.op);
             && Moves(s, mid, e, asks, r, false) && Stepped(live, e, live', asks, e.timeUs)
             && s.requests[r].status == RUNNING && RootOp(s, r) == op
             && s.nodes[op.nodeId].threadpool.Held() >= 1
             && e.timeUs == s.requests[r].arrivalTimeUs + ds[r]
             && Tally(live', LocalOf(r)) == 0 && Tally(live', DepOf(r)) == started
             && (if SyncOf(op) == [] then started == 0 && t == FinishRequest(mid, r, e.timeUs)
                 else started < |SyncOf(op)| == mid.requests[r].pendingDependencies && t == Fail(mid, r, e.timeUs))
    ensures SameConfig(s, t) && Invariant(t, live', e.timeUs, ds)
  {
    var r, op := e.payload.request, e.payload.op;
    if SyncOf(op) == [] {
      FinishAll(s, mid, e, asks, r, e.timeUs);
      MovedLatency(s, mid, e, asks, r);
      assert DependencyWait(s.ops, op) == 0;
    } else {
      FailAll(s, mid, e, asks, r, e.timeUs);
    }
    MovedConfig(s, t, e, asks, r);
    FinishKeeps(s, t, live, clock, ds, e, live', asks, r);
  }

  lemma {:induction false} MovedLatency(s: Runner, mid: Runner, e: Event, asks: seq<Ask>, r: nat)
    requires Moves(s, mid, e, asks, r, false)
    ensures Latency(mid, r, e.timeUs) == Latency(s, r, e.timeUs)
  {
  }

  lemma {:induction false} MovedConfig(s: Runner, t: Runner, e: Event, asks: seq<Ask>, r: nat)
    requires Moves(s, t, e, asks, r, true)
    ensures SameConfig(s, t)
  {
  }

  lemma {:induction false} FinishedEntry(s: Runner, t: Runner, ds: seq<int>, e: Event, asks: seq<Ask>, r: nat)
    requires Moves(s, t, e, asks, r, true) && |ds| == |s.requests|
    requires (t.requests[r].status == SUCCESS && t.finished[|s.finished|].latencyUs == Latency(s, r, e.timeUs) &&
              e.timeUs == s.requests[r].arrivalTimeUs + ds[r] + DependencyWait(s.ops, RootOp(s, r)))
             || t.requests[r].status == FAILED
    ensures EntryOk(t, ds, t.finished[|s.finished|])
  {
    assert RootOp(t, r) == RootOp(s, r);
  }

  lemma {:induction false} FinishKeeps(
    s: Runner, t: Runner, live: set<Event>, clock: int, ds: seq<int>, e: Event, live': set<Event>,
    asks: seq<Ask>, r: nat)
    requires Invariant(s, live, clock, ds) && e.timeUs >= clock
    requires Moves(s, t, e, asks, r, true) && Stepped(live, e, live', asks, e.timeUs)
    requires Tally(live', LocalOf(r)) == 0
    requires (t.requests[r].status == SUCCESS && Tally(live', DepOf(r)) == 0 &&
              t.finished[|s.finished|].latencyUs == Latency(s, r, e.timeUs) &&
              e.timeUs == s.requests[r].arrivalTimeUs + ds[r] + DependencyWait(s.ops, RootOp(s, r))) ||
             (t.requests[r].status == FAILED && Tally(live', DepOf(r)) < t.requests[r].pendingDependencies)
    ensures Invariant(t, live', e.timeUs, ds)
  {
    assert RequestOk(s, live, clock, r, ds[r]);
    FinishedOk(s, t, live, clock, live', e.timeUs, e, asks, r, ds[r]);
    FinishedEntry(s, t, ds, e, asks, r);
    MovesKeep(s, t, live, clock, ds, e, live', asks, r, true);
  }
}
