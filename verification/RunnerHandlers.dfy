/**
 Finishing or failing a request as a move of module RunnerMoves, and DEP_COMPLETE keeping the
 invariant.
 */
module RunnerHandlers {
  import opened Utf16
  import opened Resources
  import opened RunnerSpec
  import opened Pending
  import opened RunnerInvariant
  import opened RunnerMoves

  // ---------- finishRequest ----------

  /** finishRequest, as a move of a state `mid` whose request is still counted as running by `s`. */
  lemma {:induction false} FinishMoves(s: Runner, mid: Runner, r: nat, now: int)
    requires r < |s.requests| && RequestMoves(s, mid, r, false) && s.requests[r].status == RUNNING
    ensures RequestMoves(s, FinishRequest(mid, r, now), r, true)
    ensures FinishRequest(mid, r, now).requests[r].status == SUCCESS
    ensures FinishRequest(mid, r, now).finished[|s.finished|] == Finish(r, SUCCESS, Latency(mid, r, now))
  {
  }

  lemma {:induction false} FailMoves(s: Runner, mid: Runner, r: nat, now: int)
    requires r < |s.requests| && RequestMoves(s, mid, r, false) && s.requests[r].status == RUNNING
    ensures RequestMoves(s, Fail(mid, r, now), r, true)
    ensures Fail(mid, r, now).requests[r] == mid.requests[r].(status := FAILED)
    ensures Fail(mid, r, now).finished[|s.finished|].status == FAILED
  {
  }

  ghost predicate AllNodesMove(s: Runner, t: Runner, e: Event, asks: seq<Ask>, r: nat, fin: bool)
    requires AllForward(asks) && r < |s.requests| && HasRoot(s, r)
  {
    t.nodes.Keys == s.nodes.Keys && forall n :: n in s.nodes ==> NodeMoves(s, t, e, asks, r, fin, n)
  }

  /** Finishing also gives back one thread of the request's node. */
  lemma {:induction false} ReleaseThreadMoves(s: Runner, mid: Runner, e: Event, asks: seq<Ask>, r: nat)
    requires AllForward(asks) && r < |s.requests| && HasRoot(s, r)
    requires AllNodesMove(s, mid, e, asks, r, false) && SameConfig(s, mid)
    requires r < |mid.requests| && mid.requests[r].rootOperationName == s.requests[r].rootOperationName
    requires s.nodes[RootOp(s, r).nodeId].threadpool.Held() >= 1
    ensures AllNodesMove(s, ReleaseThread(mid, r), e, asks, r, true)
    ensures SameConfig(s, ReleaseThread(mid, r))
  {
    var t := ReleaseThread(mid, r);
    var home := RootOp(s, r).nodeId;
    assert RootOp(mid, r).nodeId == home;
    assert NodeMoves(s, mid, e, asks, r, false, home);
    ThreadPoolConserves(mid.nodes[home].threadpool);
    forall n | n in s.nodes ensures NodeMoves(s, t, e, asks, r, true, n) {
      assert NodeMoves(s, mid, e, asks, r, false, n);
    }
  }

  /** A running request holds a thread of its node. */
  lemma {:induction false} HoldsThread(s: Runner, live: set<Event>, r: nat)
    requires r < |s.requests| && HasRoot(s, r) && s.requests[r].status == RUNNING
    requires NodeOk(s, live, RootOp(s, r).nodeId)
    ensures s.nodes[RootOp(s, r).nodeId].threadpool.Held() >= 1
  {
    assert r in RunningOn(s, RootOp(s, r).nodeId);
  }

  /** Everything that finishing changes, for a move `mid` that has not finished the request. */
  lemma {:induction false} FinishAll(s: Runner, mid: Runner, e: Event, asks: seq<Ask>, r: nat, now: int)
    requires Moves(s, mid, e, asks, r, false) && s.requests[r].status == RUNNING
    requires s.nodes[RootOp(s, r).nodeId].threadpool.Held() >= 1
    ensures var t := FinishRequest(mid, r, now);
            && Moves(s, t, e, asks, r, true) && t.requests[r] == mid.requests[r].(status := SUCCESS)
            && t.finished[|s.finished|] == Finish(r, SUCCESS, Latency(mid, r, now))
  {
    ReleaseThreadMoves(s, mid, e, asks, r);
    FinishMoves(s, mid, r, now);
    SameNodesMove(s, ReleaseThread(mid, r), FinishRequest(mid, r, now), e, asks, r);
  }

  lemma {:induction false} FailAll(s: Runner, mid: Runner, e: Event, asks: seq<Ask>, r: nat, now: int)
    requires Moves(s, mid, e, asks, r, false) && s.requests[r].status == RUNNING
    requires s.nodes[RootOp(s, r).nodeId].threadpool.Held() >= 1
    ensures var t := Fail(mid, r, now);
            && Moves(s, t, e, asks, r, true) && t.requests[r] == mid.requests[r].(status := FAILED)
            && t.finished[|s.finished|].status == FAILED
  {
    var failed := mid.(requests := mid.requests[r := mid.requests[r].(status := FAILED)]);
    SameNodesStay(s, mid, failed, e, asks, r);
    ReleaseThreadMoves(s, failed, e, asks, r);
    FailMoves(s, mid, r, now);
    SameNodesMove(s, ReleaseThread(failed, r), Fail(mid, r, now), e, asks, r);
  }

  lemma {:induction false} SameNodesMove(s: Runner, t: Runner, t': Runner, e: Event, asks: seq<Ask>, r: nat)
    requires AllForward(asks) && r < |s.requests| && HasRoot(s, r) && AllNodesMove(s, t, e, asks, r, true)
    requires t'.nodes == t.nodes
    ensures AllNodesMove(s, t', e, asks, r, true)
  {
    forall n | n in s.nodes ensures NodeMoves(s, t', e, asks, r, true, n) {
      assert NodeMoves(s, t, e, asks, r, true, n);
    }
  }

  lemma {:induction false} SameNodesStay(s: Runner, t: Runner, t': Runner, e: Event, asks: seq<Ask>, r: nat)
    requires AllForward(asks) && r < |s.requests| && HasRoot(s, r) && AllNodesMove(s, t, e, asks, r, false)
    requires t'.nodes == t.nodes
    ensures AllNodesMove(s, t', e, asks, r, false)
  {
    forall n | n in s.nodes ensures NodeMoves(s, t', e, asks, r, false, n) {
      assert NodeMoves(s, t, e, asks, r, false, n);
    }
  }

  // ---------- DEP_COMPLETE ----------

  /** The state in which DEP_COMPLETE decides whether to finish. */
  function Decremented(s: Runner, r: nat, n: Text): Runner
    requires r < |s.requests|
  {
    ReleaseConnection(s, n).(requests := s.requests[r := s.requests[r].(
      pendingDependencies := s.requests[r].pendingDependencies - 1)])
  }

  lemma {:induction false} DecrementedMoves(s: Runner, live: set<Event>, clock: int, ds: seq<int>, e: Event)
    requires Invariant(s, live, clock, ds) && e in live && e.payload.DepComplete?
    ensures var (r, n) := (e.payload.request, e.payload.targetNodeId);
            && r < |s.requests| && HasRoot(s, r) && n in s.nodes
            && var mid := Decremented(s, r, n);
               RequestMoves(s, mid, r, false) && SameConfig(s, mid) && AllNodesMove(s, mid, e, [], r, false)
  {
    var r, n := e.payload.request, e.payload.targetNodeId;
    assert EventOk(s, e);
    assert RequestOk(s, live, clock, r, ds[r]);
    DecrementedNodes(s, live, e);
    DecrementedRequest(s, r, n);
  }

  lemma {:induction false} DecrementedRequest(s: Runner, r: nat, n: Text)
    requires r < |s.requests| && n in s.nodes
    ensures RequestMoves(s, Decremented(s, r, n), r, false) && SameConfig(s, Decremented(s, r, n))
  {
  }

  lemma {:induction false} DecrementedNodes(s: Runner, live: set<Event>, e: Event)
    requires e in live && e.payload.DepComplete? && e.payload.request < |s.requests| && HasRoot(s, e.payload.request)
    requires e.payload.targetNodeId in s.nodes && forall m :: m in s.nodes ==> NodeOk(s, live, m)
    ensures AllNodesMove(s, Decremented(s, e.payload.request, e.payload.targetNodeId), e, [], e.payload.request, false)
  {
    forall m | m in s.nodes
      ensures NodeMoves(s, Decremented(s, e.payload.request, e.payload.targetNodeId), e, [], e.payload.request, false, m)
    {
      assert NodeOk(s, live, m);
      DecrementedNode(s, live, e, m);
    }
  }

  lemma {:induction false} DecrementedNode(s: Runner, live: set<Event>, e: Event, m: Text)
    requires e in live && e.payload.DepComplete? && e.payload.request < |s.requests|
    requires HasRoot(s, e.payload.request) && m in s.nodes && NodeOk(s, live, m)
    ensures NodeMoves(s, Decremented(s, e.payload.request, e.payload.targetNodeId), e, [], e.payload.request, false, m)
  {
    TallyPositive(live, e, DepAt(e.payload.targetNodeId));
    ConnectionPoolConserves(s.nodes[m].connPool);
  }

  /** If other completions of the request are outstanding, one of them is due last. */
  lemma {:induction false} StillDue(s: Runner, live: set<Event>, e: Event, live': set<Event>, r: nat, d: int)
    requires r < |s.requests| && HasRoot(s, r) && InDependencies(s, live, r, d)
    requires Stepped(live, e, live', [], e.timeUs) && e.payload in DepOf(r)
    requires forall x :: x in live ==> x.timeUs >= e.timeUs
    requires Tally(live, DepOf(r)) >= 2
    ensures exists x :: x in live' && x.payload in DepOf(r) && x.timeUs == Due(s, r, d)
  {
    var x :| x in live && x.payload in DepOf(r) && x.timeUs == Due(s, r, d);
    if x == e {
      TallyRemove(live, e, DepOf(r));
      var y := TallySome(live - {e}, DepOf(r));
      assert y in live' && y.timeUs == Due(s, r, d);
    }
  }

  /** The last outstanding completion is the one that is due last. */
  lemma {:induction false} LastIsDue(s: Runner, live: set<Event>, e: Event, r: nat, d: int)
    requires r < |s.requests| && HasRoot(s, r) && InDependencies(s, live, r, d)
    requires e in live && e.payload in DepOf(r) && Tally(live, DepOf(r)) == 1
    ensures e.timeUs == Due(s, r, d)
  {
    var x :| x in live && x.payload in DepOf(r) && x.timeUs == Due(s, r, d);
    if x != e { TallyTwo(live, e, x, DepOf(r)); }
  }

  lemma {:induction false} DepKeeps(
    s: Runner, live: set<Event>, clock: int, ds: seq<int>, e: Event, live': set<Event>)
    requires Invariant(s, live, clock, ds) && e.timeUs >= clock && e.payload.DepComplete?
    requires Stepped(live, e, live', [], e.timeUs) && forall x :: x in live ==> x.timeUs >= e.timeUs
    ensures var (t, rs) := HandleEvent(s, e, e.timeUs);
            rs == [] && SameConfig(s, t) && Invariant(t, live', e.timeUs, ds)
  {
    var r, n, now := e.payload.request, e.payload.targetNodeId, e.timeUs;
    var (t, _) := HandleEvent(s, e, now);
    DecrementedMoves(s, live, clock, ds, e);
    assert RequestOk(s, live, clock, r, ds[r]);
    DepTallies(live, e, live', r);
    assert NodeOk(s, live, RootOp(s, r).nodeId);
    if s.requests[r].status == RUNNING && s.requests[r].pendingDependencies == 1 {
      DepFinishes(s, live, clock, ds[r], e, live');
      DepOnTime(s, live, clock, ds[r], e, live');
      FinishedOk(s, t, live, clock, live', now, e, [], r, ds[r]);
      DepEntry(s, t, live, ds, e);
      MovesKeep(s, t, live, clock, ds, e, live', [], r, true);
    } else {
      DepContinues(s, live, clock, ds[r], e, live');
      MovesKeep(s, t, live, clock, ds, e, live', [], r, false);
    }
  }

  /** What DEP_COMPLETE may rely on about its own request. */
  ghost predicate DepReady(s: Runner, live: set<Event>, clock: int, d: int, e: Event, live': set<Event>) {
    && e.payload.DepComplete? && e.payload.request < |s.requests| && HasRoot(s, e.payload.request)
    && RequestOk(s, live, clock, e.payload.request, d) && e.timeUs >= clock
    && Stepped(live, e, live', [], e.timeUs) && (forall x :: x in live ==> x.timeUs >= e.timeUs)
    && NodeOk(s, live, RootOp(s, e.payload.request).nodeId)
    && e.payload.targetNodeId in s.nodes
    && var mid := Decremented(s, e.payload.request, e.payload.targetNodeId);
       RequestMoves(s, mid, e.payload.request, false) && SameConfig(s, mid) &&
       AllNodesMove(s, mid, e, [], e.payload.request, false)
  }

  lemma {:induction false} DepFinishes(
    s: Runner, live: set<Event>, clock: int, d: int, e: Event, live': set<Event>)
    requires DepReady(s, live, clock, d, e, live')
    requires s.requests[e.payload.request].status == RUNNING && s.requests[e.payload.request].pendingDependencies == 1
    ensures var (t, r) := (HandleEvent(s, e, e.timeUs).0, e.payload.request);
            && Moves(s, t, e, [], r, true) && t.requests[r].status == SUCCESS
            && t.finished[|s.finished|] == Finish(r, SUCCESS, Latency(s, r, e.timeUs))
  {
    var r := e.payload.request;
    var mid := Decremented(s, r, e.payload.targetNodeId);
    HoldsThread(s, live, r);
    FinishAll(s, mid, e, [], r, e.timeUs);
    assert FinishRequest(mid, r, e.timeUs) == HandleEvent(s, e, e.timeUs).0;
  }

  /** The completion that finishes a request is the one that was due last. */
  lemma {:induction false} DepOnTime(
    s: Runner, live: set<Event>, clock: int, d: int, e: Event, live': set<Event>)
    requires DepReady(s, live, clock, d, e, live')
    requires s.requests[e.payload.request].status == RUNNING && s.requests[e.payload.request].pendingDependencies == 1
    ensures var r := e.payload.request;
            e.timeUs == Due(s, r, d) && Tally(live', LocalOf(r)) == 0 && Tally(live', DepOf(r)) == 0
  {
    DepTallies(live, e, live', e.payload.request);
    LastIsDue(s, live, e, e.payload.request, d);
  }

  /** A request with a status to match and no events left is as it should be. */
  lemma {:induction false} FinishedOk(s: Runner, t: Runner, live: set<Event>, clock: int, live': set<Event>, now: int, e: Event, asks: seq<Ask>, r: nat, d: int)
    requires Moves(s, t, e, asks, r, true) && RequestOk(s, live, clock, r, d) && now >= clock
    requires Tally(live', LocalOf(r)) == 0
    requires (t.requests[r].status == SUCCESS && Tally(live', DepOf(r)) == 0) ||
             (t.requests[r].status == FAILED && Tally(live', DepOf(r)) < t.requests[r].pendingDependencies)
    ensures RequestOk(t, live', now, r, d)
  {
    assert RootOp(t, r) == RootOp(s, r);
  }

  lemma {:induction false} DepEntry(s: Runner, t: Runner, live: set<Event>, ds: seq<int>, e: Event)
    requires e.payload.DepComplete? && e.payload.request < |s.requests| == |ds| && HasRoot(s, e.payload.request)
    requires Moves(s, t, e, [], e.payload.request, true)
    requires t.finished[|s.finished|] == Finish(e.payload.request, SUCCESS, Latency(s, e.payload.request, e.timeUs))
    requires e.timeUs == Due(s, e.payload.request, ds[e.payload.request])
    ensures EntryOk(t, ds, t.finished[|s.finished|])
  {
  }

  lemma {:induction false} DepContinues(
    s: Runner, live: set<Event>, clock: int, d: int, e: Event, live': set<Event>)
    requires DepReady(s, live, clock, d, e, live')
    requires s.requests[e.payload.request].status != RUNNING || s.requests[e.payload.request].pendingDependencies != 1
    ensures var (t, r) := (HandleEvent(s, e, e.timeUs).0, e.payload.request);
            Moves(s, t, e, [], r, false) && RequestOk(t, live', e.timeUs, r, d)
  {
    var r := e.payload.request;
    var t := Decremented(s, r, e.payload.targetNodeId);
    DepTallies(live, e, live', r);
    assert s.requests[r].pendingDependencies > 1;
    DepHandled(s, e);
    if s.requests[r].status == RUNNING {
      StillDue(s, live, e, live', r, d);
      assert InDependencies(t, live', r, d);
    }
  }

  lemma {:induction false} DepHandled(s: Runner, e: Event)
    requires e.payload.DepComplete? && e.payload.request < |s.requests|
    requires s.requests[e.payload.request].pendingDependencies > 1
    ensures HandleEvent(s, e, e.timeUs) == (Decremented(s, e.payload.request, e.payload.targetNodeId), [])
  {
  }

  lemma {:induction false} DepTallies(live: set<Event>, e: Event, live': set<Event>, r: nat)
    requires Stepped(live, e, live', [], e.timeUs) && e.payload in DepOf(r)
    ensures Tally(live, DepOf(r)) >= 1
    ensures Tally(live', DepOf(r)) == Tally(live, DepOf(r)) - 1
    ensures Tally(live', LocalOf(r)) == Tally(live, LocalOf(r))
  {
    TallyPositive(live, e, DepOf(r));
  }
}
