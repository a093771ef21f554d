/**
 Counting the events that wait in a queue: how one kernel step changes the number of live
 events whose payload satisfies a given test.
 */
module Pending {
  import opened Common
  import opened Events
  import opened KernelSpec

  ghost function Matching<P>(s: set<SimEvent<P>>, p: iset<P>): set<SimEvent<P>> {
    set e | e in s && e.payload in p
  }

  /** How many events of `s` have a payload in `p`. */
  ghost function Tally<P>(s: set<SimEvent<P>>, p: iset<P>): nat {
    |Matching(s, p)|
  }

  function One(b: bool): nat { if b then 1 else 0 }

  lemma {:induction false} TallyAdd<P>(s: set<SimEvent<P>>, e: SimEvent<P>, p: iset<P>)
    requires e !in s
    ensures Tally(s + {e}, p) == Tally(s, p) + One(e.payload in p)
  {
    if e.payload in p {
      assert Matching(s + {e}, p) == Matching(s, p) + {e};
    } else {
      assert Matching(s + {e}, p) == Matching(s, p);
    }
  }

  lemma {:induction false} TallyRemove<P>(s: set<SimEvent<P>>, e: SimEvent<P>, p: iset<P>)
    requires e in s
    ensures Tally(s - {e}, p) == Tally(s, p) - One(e.payload in p)
  {
    assert s == (s - {e}) + {e};
    TallyAdd(s - {e}, e, p);
  }

  lemma {:induction false} TallyPositive<P>(s: set<SimEvent<P>>, e: SimEvent<P>, p: iset<P>)
    requires e in s && e.payload in p
    ensures Tally(s, p) >= 1
  {
    assert e in Matching(s, p);
  }

  /** Two events that both pass the test count as two. */
  lemma {:induction false} TallyTwo<P>(s: set<SimEvent<P>>, e: SimEvent<P>, f: SimEvent<P>, p: iset<P>)
    requires e in s && f in s && e != f && e.payload in p && f.payload in p
    ensures Tally(s, p) >= 2
  {
    assert {e, f} <= Matching(s, p);
    SubsetSize({e, f}, Matching(s, p));
  }

  lemma {:induction false} TallySome<P>(s: set<SimEvent<P>>, p: iset<P>) returns (e: SimEvent<P>)
    requires Tally(s, p) >= 1
    ensures e in s && e.payload in p
  {
    e :| e in Matching(s, p);
  }

  lemma {:induction false} TallyNone<P>(s: set<SimEvent<P>>, p: iset<P>)
    ensures Tally(s, p) == 0 <==> forall e :: e in s ==> e.payload !in p
  {
    if Tally(s, p) == 0 {
      forall e | e in s ensures e.payload !in p {
        if e.payload in p { TallyPositive(s, e, p); }
      }
    } else {
      var e := TallySome(s, p);
    }
  }

  // ---------- requests ----------

  /** A request that only schedules, and never in the past. */
  predicate Forward<P>(r: Request<P>) {
    r.ScheduleIn? && r.delayUs >= 0
  }

  ghost predicate AllForward<P>(rs: seq<Request<P>>) {
    forall r :: r in rs ==> Forward(r)
  }

  ghost function Asked<P>(rs: seq<Request<P>>, p: iset<P>): nat
    requires AllForward(rs)
  {
    if rs == [] then 0
    else
      assert Forward(rs[0]);
      One(rs[0].payload in p) + Asked(rs[1..], p)
  }

  lemma {:induction false} AskedConcat<P>(a: seq<Request<P>>, b: seq<Request<P>>, p: iset<P>)
    requires AllForward(a) && AllForward(b)
    ensures AllForward(a + b) && Asked(a + b, p) == Asked(a, p) + Asked(b, p)
  {
    if a == [] {
      assert a + b == b;
    } else {
      AskedConcat(a[1..], b, p);
      assert (a + b)[1..] == a[1..] + b;
    }
  }

  /** `e` is the event that request `r` schedules at time `now`. */
  ghost predicate MadeBy<P>(e: SimEvent<P>, r: Request<P>, now: int)
    requires Forward(r)
  {
    e.timeUs == now + r.delayUs && e.payload == r.payload && e.eventType == r.eventType
  }

  /** The event that `r` asks for is among the live ones. */
  ghost predicate Delivered<P>(r: Request<P>, live: set<SimEvent<P>>, now: int) {
    Forward(r) && exists x :: x in live && MadeBy(x, r, now)
  }

  /**
   What a step does to the live events: `e` leaves, one event arrives for every request, and
   nothing else changes.
  */
  ghost predicate Stepped<P(!new)>(
    live: set<SimEvent<P>>, e: SimEvent<P>, live': set<SimEvent<P>>, rs: seq<Request<P>>, now: int)
  {
    && AllForward(rs) && e in live
    && (forall p: iset<P> {:trigger Tally(live', p)} ::
          Tally(live', p) == Tally(live, p) - One(e.payload in p) + Asked(rs, p))
    && (forall x :: x in live' ==> (x in live && x != e) || exists r :: r in rs && MadeBy(x, r, now))
    && (forall r {:trigger Delivered(r, live', now)} :: r in rs ==> Delivered(r, live', now))
    && (forall x :: x in live && x != e ==> x in live')
  }

  ghost predicate Added<P(!new)>(
    live: set<SimEvent<P>>, live': set<SimEvent<P>>, rs: seq<Request<P>>, now: int)
    requires AllForward(rs)
  {
    && (forall p: iset<P> {:trigger Tally(live', p)} :: Tally(live', p) == Tally(live, p) + Asked(rs, p))
    && (forall x :: x in live' ==> x in live || exists r :: r in rs && MadeBy(x, r, now))
    && (forall r {:trigger Delivered(r, live', now)} :: r in rs ==> Delivered(r, live', now))
    && live <= live'
  }

  lemma {:induction false} ApplyAdds<P(!new)>(k: Kernel<P>, r: Request<P>)
    requires Valid(k) && Forward(r)
    ensures Apply(k, r).1.None?
    ensures Added(Live(k.queue.stored), Live(Apply(k, r).0.queue.stored), [r], k.clock)
  {
    var e := NewEvent(k.queue.nextSequence, k.clock + r.delayUs, r.eventType, r.payload, r.priority);
    var live, live' := Live(k.queue.stored), Live(Apply(k, r).0.queue.stored);
    assert live' == live + {e};
    assert e !in live;
    assert MadeBy(e, r, k.clock);
    assert Delivered(r, live', k.clock);
    forall p: iset<P> ensures Tally(live', p) == Tally(live, p) + Asked([r], p) {
      TallyAdd(live, e, p);
      assert Asked([r], p) == One(r.payload in p) + Asked([r][1..], p);
    }
  }

  lemma {:induction false} AddedTransitive<P(!new)>(
    a: set<SimEvent<P>>, b: set<SimEvent<P>>, c: set<SimEvent<P>>, r: Request<P>, rs: seq<Request<P>>, now: int)
    requires Forward(r) && AllForward(rs) && Added(a, b, [r], now) && Added(b, c, rs, now)
    ensures AllForward([r] + rs) && Added(a, c, [r] + rs, now)
  {
    forall p: iset<P> ensures Tally(c, p) == Tally(a, p) + Asked([r] + rs, p) {
      AskedConcat([r], rs, p);
      assert Tally(b, p) == Tally(a, p) + Asked([r], p);
    }
    forall q | q in [r] + rs ensures Delivered(q, c, now) {
      if q == r {
        assert r in [r] && Delivered(r, b, now);
        var x :| x in b && MadeBy(x, r, now);
        assert x in c;
      } else {
        assert q in rs && Delivered(q, c, now);
      }
    }
  }

  lemma {:induction false} ApplyAllAdds<P(!new)>(k: Kernel<P>, rs: seq<Request<P>>)
    requires Valid(k) && AllForward(rs)
    ensures ApplyAll(k, rs).1.None?
    ensures Added(Live(k.queue.stored), Live(ApplyAll(k, rs).0.queue.stored), rs, k.clock)
    decreases |rs|
  {
    if rs != [] {
      assert rs[0] in rs;
      ApplyAdds(k, rs[0]);
      ApplyValid(k, rs[0]);
      var k' := Apply(k, rs[0]).0;
      ApplyAllAdds(k', rs[1..]);
      AddedTransitive(Live(k.queue.stored), Live(k'.queue.stored), Live(ApplyAll(k, rs).0.queue.stored),
                      rs[0], rs[1..], k.clock);
      assert rs == [rs[0]] + rs[1..];
    }
  }

  /** One kernel step whose handler only schedules forward. */
  lemma {:induction false} StepMoves<P(!new), U>(prog: Program<P, U>, m: Machine<P, U>)
    requires Valid(m.kernel) && Front(m.kernel.queue).Some?
    requires var e := Front(m.kernel.queue).value;
             AllForward(Handle(prog, m.kernel.(clock := e.timeUs), m.env, e).1)
    ensures var e := Front(m.kernel.queue).value;
            var (env', rs) := Handle(prog, m.kernel.(clock := e.timeUs), m.env, e);
            var s := MachineStep(prog, m);
            && s.failure.None? && s.next.env == env' && Valid(s.next.kernel)
            && s.next.kernel.clock == e.timeUs >= m.kernel.clock
            && Stepped(Live(m.kernel.queue.stored), e, Live(s.next.kernel.queue.stored), rs, e.timeUs)
            && (forall x :: x in Live(m.kernel.queue.stored) ==> x.timeUs >= e.timeUs)
  {
    var e := Front(m.kernel.queue).value;
    var entered := Entered(prog, m.kernel, m.env, e);
    var rs := Handle(prog, entered, m.env, e).1;
    StepIs(prog, m.kernel, m.env);
    StepSafe(prog, m.kernel, m.env);
    EnteredValid(prog, m.kernel, m.env);
    ApplyAllAdds(entered, rs);
    PopLive(m.kernel.queue);
    AddedStepped(Live(m.kernel.queue.stored), e, Live(ApplyAll(entered, rs).0.queue.stored), rs, e.timeUs);
  }

  lemma {:induction false} AddedStepped<P(!new)>(
    live: set<SimEvent<P>>, e: SimEvent<P>, live': set<SimEvent<P>>, rs: seq<Request<P>>, now: int)
    requires e in live && AllForward(rs) && Added(live - {e}, live', rs, now)
    ensures Stepped(live, e, live', rs, now)
  {
    forall p: iset<P> ensures Tally(live', p) == Tally(live, p) - One(e.payload in p) + Asked(rs, p) {
      TallyRemove(live, e, p);
    }
  }
}
