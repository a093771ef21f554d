/**
 Simulation events and what a queue of them means: the set of events it stores, some of them
 cancelled but not yet removed, and the number the next event will get.
 */
module Events {
  import opened Common
  import opened Utf16

  datatype SimEvent<P> = SimEvent(
    id: Text, timeUs: int, priority: int, sequenceNum: nat,
    eventType: Text, payload: P, cancelled: bool)

  /** Negative, zero or positive: earlier time first, then lower priority number, then age. */
  function Compare<P>(a: SimEvent<P>, b: SimEvent<P>): int {
    if a.timeUs != b.timeUs then a.timeUs - b.timeUs
    else if a.priority != b.priority then a.priority - b.priority
    else if a.sequenceNum < b.sequenceNum then -1
    else if a.sequenceNum > b.sequenceNum then 1
    else 0
  }

  predicate Before<P>(a: SimEvent<P>, b: SimEvent<P>) {
    Compare(a, b) < 0
  }

  lemma {:induction false} BeforeMeans<P>(a: SimEvent<P>, b: SimEvent<P>)
    ensures Before(a, b) <==>
            || a.timeUs < b.timeUs
            || (a.timeUs == b.timeUs && (a.priority < b.priority
                || (a.priority == b.priority && a.sequenceNum < b.sequenceNum)))
  {
  }

  /** The id an event gets when the caller supplies none. */
  function AutoId(sequenceNum: nat, timeUs: int): Text {
    Ascii("ev_") + (Decimal(sequenceNum) + [UNDERSCORE] + Decimal(timeUs))
  }

  lemma {:induction false} AutoIdInjective(m: nat, s: int, n: nat, t: int)
    requires AutoId(m, s) == AutoId(n, t)
    ensures m == n && s == t
  {
    var x, y := Decimal(m) + [UNDERSCORE] + Decimal(s), Decimal(n) + [UNDERSCORE] + Decimal(t);
    assert x == AutoId(m, s)[3..] && y == AutoId(n, t)[3..];
    DecimalUnits(m);
    DecimalUnits(n);
    SplitAtMark(Decimal(m), Decimal(n), UNDERSCORE, Decimal(s), Decimal(t));
    DecimalSplit(m, n, [], []);
    DecimalSplit(s, t, [], []);
  }

  // ---------- the abstract queue ----------

  datatype Queue<P(==)> = Queue(stored: set<SimEvent<P>>, nextSequence: nat)

  /** No two stored events share an id or a sequence number. */
  ghost predicate Unique<P>(s: set<SimEvent<P>>) {
    forall a, b :: a in s && b in s && a != b ==> a.id != b.id && a.sequenceNum != b.sequenceNum
  }

  ghost predicate WellFormed<P>(q: Queue<P>) {
    Unique(q.stored) && forall e :: e in q.stored ==> e.sequenceNum < q.nextSequence
  }

  ghost function Live<P>(s: set<SimEvent<P>>): set<SimEvent<P>> {
    set e | e in s && !e.cancelled
  }

  ghost predicate IsLeast<P>(m: SimEvent<P>, s: set<SimEvent<P>>) {
    m in s && forall e :: e in s && e != m ==> Before(m, e)
  }

  lemma {:induction false} LeastExists<P>(s: set<SimEvent<P>>)
    requires Unique(s) && s != {}
    ensures exists m :: IsLeast(m, s)
  {
    var x :| x in s;
    var rest := s - {x};
    if rest == {} {
      assert s == {x};
      assert IsLeast(x, s);
    } else {
      LeastExists(rest);
      var m :| IsLeast(m, rest);
      var least := if Before(m, x) then m else x;
      forall e | e in s && e != least ensures Before(least, e) {
        assert e == x || e == m || (e in rest && Before(m, e));
        assert m.sequenceNum != x.sequenceNum;
      }
      assert IsLeast(least, s);
    }
  }

  /** The event of `s` that comes first; there is exactly one. */
  ghost function Least<P>(s: set<SimEvent<P>>): (m: SimEvent<P>)
    requires Unique(s) && s != {}
    ensures IsLeast(m, s)
  {
    LeastExists(s);
    var m :| IsLeast(m, s);
    m
  }

  lemma {:induction false} LeastUnique<P>(m: SimEvent<P>, s: set<SimEvent<P>>)
    requires Unique(s) && IsLeast(m, s)
    ensures m == Least(s)
  {
  }

  /** Removing what is cancelled from the front leaves what does not precede a live event. */
  ghost function Prune<P>(q: Queue<P>): Queue<P>
    requires WellFormed(q)
  {
    var live := Live(q.stored);
    if live == {} then q.(stored := {})
    else q.(stored := set e | e in q.stored && !Before(e, Least(live)))
  }

  /** The event a peek or pop yields. */
  ghost function Front<P>(q: Queue<P>): Option<SimEvent<P>>
    requires WellFormed(q)
  {
    if Live(q.stored) == {} then None else Some(Least(Live(q.stored)))
  }

  /** A pop keeps exactly the stored events that come after the one it returns. */
  ghost function Pop<P>(q: Queue<P>): Queue<P>
    requires WellFormed(q)
  {
    match Front(q)
    case None => q.(stored := {})
    case Some(e) => q.(stored := set x | x in q.stored && Before(e, x))
  }

  ghost function Push<P>(q: Queue<P>, e: SimEvent<P>): Queue<P> {
    Queue(q.stored + {e}, q.nextSequence + 1)
  }

  /** Only a live event with this id can be cancelled; the queue stays as it is otherwise. */
  ghost function Cancel<P>(q: Queue<P>, id: Text): Queue<P> {
    q.(stored := (set e | e in q.stored && e.id != id) +
                 (set e | e in q.stored && e.id == id :: e.(cancelled := true)))
  }

  ghost predicate HasLive<P>(q: Queue<P>, id: Text) {
    exists e :: e in Live(q.stored) && e.id == id
  }

  /** Every stored event carries the id it would get without a custom one. */
  ghost predicate AutoNamed<P>(q: Queue<P>) {
    forall e :: e in q.stored ==> e.id == AutoId(e.sequenceNum, e.timeUs)
  }

  /** A generated id never collides with another generated id. */
  lemma {:induction false} AutoIdFresh<P>(q: Queue<P>, timeUs: int)
    requires WellFormed(q) && AutoNamed(q)
    ensures forall e :: e in q.stored ==> e.id != AutoId(q.nextSequence, timeUs)
  {
    forall e | e in q.stored ensures e.id != AutoId(q.nextSequence, timeUs) {
      if e.id == AutoId(q.nextSequence, timeUs) {
        AutoIdInjective(e.sequenceNum, e.timeUs, q.nextSequence, timeUs);
      }
    }
  }

  // ---------- what the operations do to the live events ----------

  lemma {:induction false} PruneKeepsLive<P>(q: Queue<P>)
    requires WellFormed(q)
    ensures WellFormed(Prune(q)) && Live(Prune(q).stored) == Live(q.stored)
    ensures Front(Prune(q)) == Front(q) && Pop(Prune(q)) == Pop(q)
  {
    var live := Live(q.stored);
    if live != {} {
      var m := Least(live);
      assert Live(Prune(q).stored) == live;
      assert Pop(Prune(q)).stored == Pop(q).stored by {
        forall x | x in q.stored && Before(m, x) ensures x in Prune(q).stored {}
      }
    }
  }

  lemma {:induction false} PopLive<P>(q: Queue<P>)
    requires WellFormed(q)
    ensures WellFormed(Pop(q))
    ensures Front(q).Some? ==> Live(Pop(q).stored) == Live(q.stored) - {Front(q).value}
    ensures Front(q).None? ==> Live(q.stored) == Live(Pop(q).stored) == {}
  {
    if Front(q).Some? {
      var m := Front(q).value;
      forall x | x in Live(q.stored) ensures x == m || Before(m, x) {}
    }
  }

  /** The front is the live event of the earliest time, there of the lowest priority number, there the oldest. */
  lemma {:induction false} FrontIsEarliest<P>(q: Queue<P>)
    requires WellFormed(q)
    ensures Front(q).None? <==> forall x :: x in q.stored ==> x.cancelled
    ensures Front(q).Some? ==>
              var e := Front(q).value;
              && e in q.stored && !e.cancelled
              && forall x :: x in q.stored && !x.cancelled && x != e ==>
                   || e.timeUs < x.timeUs
                   || (e.timeUs == x.timeUs && (e.priority < x.priority
                       || (e.priority == x.priority && e.sequenceNum < x.sequenceNum)))
    ensures forall x :: x in Prune(q).stored <==>
              && x in q.stored && Front(q).Some?
              && var e := Front(q).value;
                 || x == e || e.timeUs < x.timeUs
                 || (e.timeUs == x.timeUs && (e.priority < x.priority
                     || (e.priority == x.priority && e.sequenceNum < x.sequenceNum)))
    ensures forall x :: x in Pop(q).stored <==> x in Prune(q).stored && Front(q) != Some(x)
  {
    var live := Live(q.stored);
    forall x | x in q.stored && !x.cancelled ensures x in live {}
    if Front(q).Some? {
      var e := Front(q).value;
      forall x | x in q.stored
        ensures Before(x, e) <==> x != e && !Before(e, x)
      {
        BeforeMeans(e, x);
        BeforeMeans(x, e);
      }
      forall x | x in live && x != e ensures Before(e, x) {}
    }
  }

  lemma {:induction false} CancelLive<P>(q: Queue<P>, id: Text)
    requires WellFormed(q)
    ensures WellFormed(Cancel(q, id)) && !HasLive(Cancel(q, id), id)
    ensures Live(Cancel(q, id).stored) == set e | e in Live(q.stored) && e.id != id
    ensures !HasLive(q, id) ==> Cancel(q, id) == q
    ensures AutoNamed(q) ==> AutoNamed(Cancel(q, id))
  {
    var c := Cancel(q, id);
    forall a | a in c.stored ensures exists x :: x in q.stored && SameButFlag(a, x) {
      if a.id != id { assert a in q.stored && SameButFlag(a, a); }
      else {
        var x :| x in q.stored && x.id == id && a == x.(cancelled := true);
        assert SameButFlag(a, x);
      }
    }
    forall a, b | a in c.stored && b in c.stored && a != b
      ensures a.id != b.id && a.sequenceNum != b.sequenceNum
    {
      var x :| x in q.stored && SameButFlag(a, x);
      var y :| y in q.stored && SameButFlag(b, y);
    }
    if !HasLive(q, id) {
      forall e | e in q.stored && e.id == id ensures e.cancelled && e.(cancelled := true) == e {
        assert !e.cancelled ==> e in Live(q.stored);
      }
      assert c.stored == q.stored;
    }
  }

  ghost predicate SameButFlag<P>(a: SimEvent<P>, b: SimEvent<P>) {
    a.(cancelled := true) == b.(cancelled := true)
  }

  // ---------- draining ----------

  /** The events that repeated pops return, in order. */
  ghost function Drain<P>(q: Queue<P>): seq<SimEvent<P>>
    requires WellFormed(q)
    decreases |Live(q.stored)|
  {
    PopLive(q);
    if Front(q).None? then [] else [Front(q).value] + Drain(Pop(q))
  }

  ghost predicate InOrder<P>(d: seq<SimEvent<P>>) {
    forall i, j :: 0 <= i < j < |d| ==> Before(d[i], d[j])
  }

  /** Draining yields every live event once, in strictly increasing order. */
  lemma {:induction false} DrainSorts<P>(q: Queue<P>)
    requires WellFormed(q)
    ensures (set e | e in Drain(q)) == Live(q.stored)
    ensures var d := Drain(q);
            forall i, j :: 0 <= i < j < |d| ==>
              || d[i].timeUs < d[j].timeUs
              || (d[i].timeUs == d[j].timeUs && (d[i].priority < d[j].priority
                  || (d[i].priority == d[j].priority && d[i].sequenceNum < d[j].sequenceNum)))
  {
    DrainInOrder(q);
    forall i, j | 0 <= i < j < |Drain(q)| ensures Before(Drain(q)[i], Drain(q)[j]) {}
  }

  lemma {:induction false} DrainInOrder<P>(q: Queue<P>)
    requires WellFormed(q)
    ensures (set e | e in Drain(q)) == Live(q.stored) && InOrder(Drain(q))
    decreases |Live(q.stored)|
  {
    PopLive(q);
    if Front(q).Some? {
      DrainInOrder(Pop(q));
      Prepend(Front(q).value, Drain(Pop(q)), Live(Pop(q).stored));
      assert Drain(q) == [Front(q).value] + Drain(Pop(q));
    }
  }

  lemma {:induction false} Prepend<P>(m: SimEvent<P>, d: seq<SimEvent<P>>, rest: set<SimEvent<P>>)
    requires InOrder(d) && (set e | e in d) == rest
    requires forall e :: e in rest ==> Before(m, e)
    ensures InOrder([m] + d) && (set e | e in [m] + d) == {m} + rest
  {
    forall j | 0 <= j < |d| ensures Before(m, d[j]) {
      assert d[j] in rest;
    }
  }
}
