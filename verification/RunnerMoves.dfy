/**
 The completion handlers of the simulation keep the invariant of module RunnerInvariant. All
 their paths make one kind of move: they concern one request, give back what the event held,
 take the connections they ask events for, and perhaps finish the request.
 */
module RunnerMoves {
  import opened Utf16
  import opened RunnerSpec
  import opened Pending
  import opened RunnerInvariant
  import opened RunnerSteps

  // ---------- one move ----------

  ghost predicate NodeMoves(s: Runner, t: Runner, e: Event, asks: seq<Ask>, r: nat, fin: bool, n: Text)
    requires n in s.nodes && n in t.nodes && AllForward(asks) && r < |s.requests| && HasRoot(s, r)
  {
    && t.nodes[n].threadpool.Valid() && t.nodes[n].connPool.Valid()
    && t.nodes[n].threadpool.Held() == s.nodes[n].threadpool.Held() - One(fin && RootOp(s, r).nodeId == n)
    && t.nodes[n].cpu.active == s.nodes[n].cpu.active - One(e.payload in LocalAt(n))
    && t.nodes[n].connPool.Held() ==
         s.nodes[n].connPool.Held() - One(e.payload in DepAt(n)) + Asked(asks, DepAt(n))
  }

  /** The request keeps its identity; it is finished, with one entry in the log, or it is not. */
  ghost predicate RequestMoves(s: Runner, t: Runner, r: nat, fin: bool)
    requires r < |s.requests|
  {
    && |t.requests| == |s.requests|
    && (forall q: nat :: q < |s.requests| && q != r ==> t.requests[q] == s.requests[q])
    && t.requests[r].rootOperationName == s.requests[r].rootOperationName
    && t.requests[r].arrivalTimeUs == s.requests[r].arrivalTimeUs
    && t.totalArrivals == s.totalArrivals
    && (fin ==>
          && s.requests[r].status == RUNNING && t.requests[r].status != RUNNING
          && |t.finished| == |s.finished| + 1 && t.finished[..|s.finished|] == s.finished
          && t.finished[|s.finished|].request == r
          && t.finished[|s.finished|].status == t.requests[r].status
          && t.successes == s.successes + One(t.requests[r].status == SUCCESS)
          && t.failures == s.failures + One(t.requests[r].status == FAILED))
    && (!fin ==>
          && t.requests[r].status == s.requests[r].status && t.finished == s.finished
          && t.successes == s.successes && t.failures == s.failures)
  }

  ghost predicate Moves(s: Runner, t: Runner, e: Event, asks: seq<Ask>, r: nat, fin: bool) {
    && r < |s.requests| && HasRoot(s, r) && AllForward(asks) && SameConfig(s, t)
    && (e.payload.LocalOpComplete? || e.payload.DepComplete?) && e.payload.request == r
    && (forall a :: a in asks ==>
          a.eventType == TypeOf(a.payload) && (a.payload.AsyncInvoke? ||
          (a.payload.DepComplete? && a.payload.request == r && a.payload.targetNodeId in s.nodes)))
    && RequestMoves(s, t, r, fin)
    && (forall n :: n in s.nodes ==> NodeMoves(s, t, e, asks, r, fin, n))
  }

  lemma {:induction false} MoveNode(
    s: Runner, t: Runner, live: set<Event>, live': set<Event>, e: Event, asks: seq<Ask>, r: nat, fin: bool, n: Text)
    requires Moves(s, t, e, asks, r, fin) && Stepped(live, e, live', asks, e.timeUs)
    requires n in s.nodes && NodeOk(s, live, n)
    ensures NodeOk(t, live', n)
  {
    assert NodeMoves(s, t, e, asks, r, fin, n);
    NoneAsked(asks, LocalAt(n));
    assert Tally(live', LocalAt(n)) == Tally(live, LocalAt(n)) - One(e.payload in LocalAt(n));
    assert Tally(live', DepAt(n)) == Tally(live, DepAt(n)) - One(e.payload in DepAt(n)) + Asked(asks, DepAt(n));
    if fin { RunningShrinks(s, t, r, n); } else { RunningSame(s, t, n); }
  }

  lemma {:induction false} MoveNodes(
    s: Runner, t: Runner, live: set<Event>, live': set<Event>, e: Event, asks: seq<Ask>, r: nat, fin: bool)
    requires Moves(s, t, e, asks, r, fin) && Stepped(live, e, live', asks, e.timeUs)
    requires forall n :: n in s.nodes ==> NodeOk(s, live, n)
    ensures forall n :: n in t.nodes ==> NodeOk(t, live', n)
  {
    forall n | n in t.nodes ensures NodeOk(t, live', n) {
      MoveNode(s, t, live, live', e, asks, r, fin, n);
    }
  }

  lemma {:induction false} MoveEvents(
    s: Runner, t: Runner, live: set<Event>, live': set<Event>, e: Event, asks: seq<Ask>, r: nat, fin: bool)
    requires Moves(s, t, e, asks, r, fin) && Stepped(live, e, live', asks, e.timeUs)
    requires forall x :: x in live ==> EventOk(s, x)
    ensures forall x :: x in live' ==> EventOk(t, x)
  {
    forall x | x in live' ensures EventOk(t, x) {
      if x in live { assert EventOk(s, x); }
    }
  }

  lemma {:induction false} MoveOthers(
    s: Runner, t: Runner, live: set<Event>, live': set<Event>, e: Event, asks: seq<Ask>, r: nat, fin: bool,
    clock: int, ds: seq<int>)
    requires Moves(s, t, e, asks, r, fin) && Stepped(live, e, live', asks, e.timeUs) && e.timeUs >= clock
    requires |ds| == |s.requests| && forall q :: 0 <= q < |s.requests| ==> RequestOk(s, live, clock, q, ds[q])
    requires RequestOk(t, live', e.timeUs, r, ds[r])
    ensures forall q :: 0 <= q < |t.requests| ==> RequestOk(t, live', e.timeUs, q, ds[q])
  {
    forall q | 0 <= q < |t.requests| ensures RequestOk(t, live', e.timeUs, q, ds[q]) {
      if q != r { OtherRequest(s, t, live, live', e, asks, clock, e.timeUs, q, ds[q]); }
    }
  }

  lemma {:induction false} MoveLog(s: Runner, t: Runner, ds: seq<int>, r: nat, fin: bool)
    requires |ds| == |s.requests| && LogOk(s, ds) && SameConfig(s, t)
    requires r < |s.requests| && HasRoot(s, r) && RequestMoves(s, t, r, fin)
    requires fin ==> EntryOk(t, ds, t.finished[|s.finished|])
    ensures LogOk(t, ds)
  {
    if fin {
      MoveEntries(s, t, ds, r);
      MoveLogged(s, t, r);
      MoveDistinct(s, t, r);
    } else {
      LogSame(s, t, ds);
    }
  }

  lemma {:induction false} MoveEntries(s: Runner, t: Runner, ds: seq<int>, r: nat)
    requires |ds| == |s.requests| && LogOk(s, ds) && SameConfig(s, t)
    requires r < |s.requests| && HasRoot(s, r) && RequestMoves(s, t, r, true)
    requires EntryOk(t, ds, t.finished[|s.finished|])
    ensures forall i :: 0 <= i < |t.finished| ==> EntryOk(t, ds, t.finished[i])
    ensures forall i :: 0 <= i < |s.finished| ==> s.finished[i].request != r
  {
    Extended(s.finished, t.finished);
    forall i | 0 <= i < |s.finished| ensures EntryOk(t, ds, t.finished[i]) && s.finished[i].request != r {
      assert EntryOk(s, ds, s.finished[i]);
    }
  }

  lemma {:induction false} MoveDistinct(s: Runner, t: Runner, r: nat)
    requires r < |s.requests| && RequestMoves(s, t, r, true)
    requires forall i :: 0 <= i < |s.finished| ==> s.finished[i].request != r
    requires forall i, j :: 0 <= i < j < |s.finished| ==> s.finished[i].request != s.finished[j].request
    ensures forall i, j :: 0 <= i < j < |t.finished| ==> t.finished[i].request != t.finished[j].request
  {
    Extended(s.finished, t.finished);
  }

  lemma {:induction false} MoveLogged(s: Runner, t: Runner, r: nat)
    requires r < |s.requests| && RequestMoves(s, t, r, true)
    requires forall q :: 0 <= q < |s.requests| && s.requests[q].status != RUNNING ==>
               exists i :: 0 <= i < |s.finished| && s.finished[i].request == q
    ensures forall q :: 0 <= q < |t.requests| && t.requests[q].status != RUNNING ==>
              exists i :: 0 <= i < |t.finished| && t.finished[i].request == q
  {
    Extended(s.finished, t.finished);
    forall q | 0 <= q < |t.requests| && t.requests[q].status != RUNNING
      ensures exists i :: 0 <= i < |t.finished| && t.finished[i].request == q
    {
      if q == r {
        assert t.finished[|s.finished|].request == q;
      } else {
        var i :| 0 <= i < |s.finished| && s.finished[i].request == q;
        assert t.finished[i].request == q;
      }
    }
  }

  lemma {:induction false} CountGrows(s: seq<Finish>, t: seq<Finish>, status: Status)
    requires |t| == |s| + 1 && t[..|s|] == s
    ensures Count(t, status) == Count(s, status) + One(t[|s|].status == status)
  {
  }

  lemma {:induction false} MoveTotals(s: Runner, t: Runner, r: nat, fin: bool)
    requires TotalsOk(s) && r < |s.requests| && HasRoot(s, r) && RequestMoves(s, t, r, fin) && SameConfig(s, t)
    ensures TotalsOk(t)
  {
    if fin {
      RunningShrinks(s, t, r, []);
      CountGrows(s.finished, t.finished, SUCCESS);
      CountGrows(s.finished, t.finished, FAILED);
    } else {
      RunningSame(s, t, []);
    }
  }

  /** A move keeps the invariant if it keeps the standing of its own request. */
  lemma {:induction false} MovesKeep(
    s: Runner, t: Runner, live: set<Event>, clock: int, ds: seq<int>, e: Event, live': set<Event>,
    asks: seq<Ask>, r: nat, fin: bool)
    requires Invariant(s, live, clock, ds) && e.timeUs >= clock
    requires Moves(s, t, e, asks, r, fin) && Stepped(live, e, live', asks, e.timeUs)
    requires RequestOk(t, live', e.timeUs, r, ds[r])
    requires fin ==> EntryOk(t, ds, t.finished[|s.finished|])
    ensures Invariant(t, live', e.timeUs, ds)
  {
    MoveOthers(s, t, live, live', e, asks, r, fin, clock, ds);
    MoveNodes(s, t, live, live', e, asks, r, fin);
    MoveEvents(s, t, live, live', e, asks, r, fin);
    MoveTotals(s, t, r, fin);
    MoveLog(s, t, ds, r, fin);
  }
}
