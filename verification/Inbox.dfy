/**
 InboxConsumer: check for a row, run the handler, insert the row. The unique index on consumer
 and event makes the insert the deciding step: under any interleaving one call at most reports
 that it processed a pair. One message at a time, the handler runs exactly once for each.
 */
module Inbox {
  import opened Utf16
  import Outbox

  /** The key of the unique index. */
  datatype Pair = Pair(consumerName: Text, eventId: Text)

  /** One call of consumeWithIdempotency, by what it is about to do. */
  datatype Consumer =
    | Checking(pair: Pair)
    | Handling(pair: Pair)
    | Inserting(pair: Pair)
    | Done(pair: Pair, processed: bool, handled: bool)
    | Failed(pair: Pair)

  /** `handled` lists every completed run of a handler, `processed` every report of success. */
  datatype System = System(rows: set<Pair>, calls: map<nat, Consumer>, handled: seq<Pair>, processed: seq<Pair>)

  datatype Action =
    | Begin(id: nat, pair: Pair)
    | Go(id: nat)
    | HandlerThrows(id: nat)
    | Crash(id: nat)

  const EMPTY: System := System({}, map[], [], [])

  function Next(s: System, a: Action): System {
    match a
    case Begin(id, pair) => if id in s.calls then s else s.(calls := s.calls[id := Checking(pair)])
    case Go(id) =>
      if id !in s.calls then s
      else
        (match s.calls[id]
         case Checking(pair) =>
           s.(calls := s.calls[id := if pair in s.rows then Done(pair, false, false) else Handling(pair)])
         case Handling(pair) =>
           s.(calls := s.calls[id := Inserting(pair)], handled := s.handled + [pair])
         case Inserting(pair) =>
           if pair in s.rows then s.(calls := s.calls[id := Done(pair, false, true)])
           else System(s.rows + {pair}, s.calls[id := Done(pair, true, true)], s.handled, s.processed + [pair])
         case _ => s)
    case HandlerThrows(id) =>
      if id in s.calls && s.calls[id].Handling? then s.(calls := s.calls[id := Failed(s.calls[id].pair)]) else s
    case Crash(id) => s.(calls := s.calls - {id})
  }

  function After(s: System, actions: seq<Action>): System
    decreases |actions|
  {
    if actions == [] then s else After(Next(s, actions[0]), actions[1..])
  }

  // ---------- any interleaving ----------

  /** One report of success per row and one row per report; no row without a completed handler. */
  ghost predicate Invariant(s: System) {
    && (forall i, j :: 0 <= i < j < |s.processed| ==> s.processed[i] != s.processed[j])
    && (forall pair :: pair in s.rows <==> pair in s.processed)
    && (forall pair :: pair in s.rows ==> pair in s.handled)
    && (forall id :: id in s.calls && (s.calls[id].Inserting? || (s.calls[id].Done? && s.calls[id].processed)) ==>
          s.calls[id].pair in s.handled)
    && (forall id :: id in s.calls && s.calls[id].Done? ==> s.calls[id].pair in s.rows)
  }

  lemma {:induction false} NextKeeps(s: System, a: Action)
    requires Invariant(s)
    ensures Invariant(Next(s, a))
  {
    match a
    case Begin(id, pair) =>
    case Go(id) =>
      if id in s.calls {
        var t := Next(s, a);
        assert forall pair :: pair in s.handled ==> pair in t.handled;
        if s.calls[id].Inserting? && s.calls[id].pair !in s.rows {
          var pair := s.calls[id].pair;
          assert t.processed == s.processed + [pair];
        }
        if s.calls[id].Handling? {
          assert t.handled == s.handled + [s.calls[id].pair];
        }
      }
    case HandlerThrows(id) =>
    case Crash(id) =>
  }

  lemma {:induction false} AfterKeeps(s: System, actions: seq<Action>)
    requires Invariant(s)
    ensures Invariant(After(s, actions))
    decreases |actions|
  {
    if actions != [] {
      NextKeeps(s, actions[0]);
      AfterKeeps(Next(s, actions[0]), actions[1..]);
    }
  }

  /** However calls interleave, fail or crash: one `processed: true` per pair, exactly for the rows, and only after a handler. */
  lemma {:induction false} ProcessedOnce(actions: seq<Action>)
    ensures var s := After(EMPTY, actions);
            && (forall i, j :: 0 <= i < j < |s.processed| ==> s.processed[i] != s.processed[j])
            && (forall pair :: pair in s.processed <==> pair in s.rows)
            && (forall pair :: pair in s.processed ==> pair in s.handled)
  {
    AfterKeeps(EMPTY, actions);
  }

  // ---------- when a handler runs again ----------

  lemma {:induction false} AfterSnoc(s: System, actions: seq<Action>, a: Action)
    ensures After(s, actions + [a]) == Next(After(s, actions), a)
    decreases |actions|
  {
    if actions == [] {
      assert [] + [a] == [a] && [a][1..] == [];
      assert After(Next(s, a), []) == Next(s, a);
    } else {
      assert (actions + [a])[1..] == actions[1..] + [a];
      AfterSnoc(Next(s, actions[0]), actions[1..], a);
    }
  }

  /** The state before action `i` of a run. */
  function At(actions: seq<Action>, i: nat): System
    requires i <= |actions|
  {
    After(EMPTY, actions[..i])
  }

  lemma {:induction false} AtNext(actions: seq<Action>, i: nat)
    requires i < |actions|
    ensures At(actions, i + 1) == Next(At(actions, i), actions[i])
  {
    assert actions[..i + 1] == actions[..i] + [actions[i]];
    AfterSnoc(EMPTY, actions[..i], actions[i]);
  }

  /** Action `i` lets call `id` past its check: no row for the pair yet. */
  predicate PassesCheck(actions: seq<Action>, i: nat, id: nat, pair: Pair)
    requires i < |actions|
  {
    var s := At(actions, i);
    actions[i] == Go(id) && id in s.calls && s.calls[id] == Checking(pair) && pair !in s.rows
  }

  /** Action `i` completes the handler of call `id`. */
  predicate CompletesHandler(actions: seq<Action>, i: nat, id: nat, pair: Pair)
    requires i < |actions|
  {
    var s := At(actions, i);
    actions[i] == Go(id) && id in s.calls && s.calls[id] == Handling(pair)
  }

  /** A call whose handler runs has passed its check before. */
  lemma {:induction false} HandlingWasChecked(actions: seq<Action>, i: nat, id: nat, pair: Pair)
    requires i <= |actions| && id in At(actions, i).calls && At(actions, i).calls[id] == Handling(pair)
    ensures exists c: nat :: c < i && PassesCheck(actions, c, id, pair)
  {
    if i > 0 {
      AtNext(actions, i - 1);
      var s := At(actions, i - 1);
      if id in s.calls && s.calls[id] == Handling(pair) {
        HandlingWasChecked(actions, i - 1, id, pair);
      } else {
        assert PassesCheck(actions, i - 1, id, pair);
      }
    }
  }

  /** How often the handler has run for the pair. */
  function Times(handled: seq<Pair>, pair: Pair): nat {
    if handled == [] then 0
    else Times(handled[..|handled| - 1], pair) + if handled[|handled| - 1] == pair then 1 else 0
  }

  lemma {:induction false} TimesPush(handled: seq<Pair>, pair: Pair, next: Pair)
    ensures Times(handled + [next], pair) == Times(handled, pair) + if next == pair then 1 else 0
  {
    assert (handled + [next])[..|handled|] == handled;
  }

  lemma {:induction false} TimesPositive(handled: seq<Pair>, pair: Pair)
    ensures Times(handled, pair) >= 1 <==> pair in handled
  {
    if handled != [] {
      TimesPositive(handled[..|handled| - 1], pair);
      assert handled == handled[..|handled| - 1] + [handled[|handled| - 1]];
    }
  }

  /** A call completes its handler although another has done so before. */
  predicate Again(actions: seq<Action>, i: nat, id: nat, pair: Pair)
    requires i < |actions|
  {
    CompletesHandler(actions, i, id, pair) && pair in At(actions, i).handled
  }

  lemma {:induction false} TimesAt(actions: seq<Action>, n: nat, pair: Pair)
    requires n <= |actions|
    ensures Times(At(actions, n).handled, pair) >= 2 <==>
            exists i: nat, id: nat :: i < n && Again(actions, i, id, pair)
  {
    if n > 0 {
      TimesAt(actions, n - 1, pair);
      AtNext(actions, n - 1);
      var s, t := At(actions, n - 1), At(actions, n);
      TimesPositive(s.handled, pair);
      if actions[n - 1].Go? && CompletesHandler(actions, n - 1, actions[n - 1].id, pair) {
        TimesPush(s.handled, pair, pair);
        assert Again(actions, n - 1, actions[n - 1].id, pair) <==> pair in s.handled;
      } else {
        HandledStep(s, actions[n - 1], pair);
      }
    }
  }

  lemma {:induction false} HandledStep(s: System, a: Action, pair: Pair)
    requires !(a.Go? && a.id in s.calls && s.calls[a.id] == Handling(pair))
    ensures Times(Next(s, a).handled, pair) == Times(s.handled, pair)
  {
    if a.Go? && a.id in s.calls && s.calls[a.id].Handling? {
      TimesPush(s.handled, pair, s.calls[a.id].pair);
    }
  }

  /**
   The handler runs more than once for a pair exactly when a call that passed its check while
   there was no row for the pair completes its handler after another call has completed its own.
  */
  lemma {:induction false} HandledAgainIff(actions: seq<Action>, pair: Pair)
    ensures Times(After(EMPTY, actions).handled, pair) >= 2 <==>
            exists c: nat, i: nat, id: nat ::
              c < i < |actions| && PassesCheck(actions, c, id, pair) && Again(actions, i, id, pair)
  {
    assert actions[..|actions|] == actions;
    TimesAt(actions, |actions|, pair);
    if i: nat, id: nat :| i < |actions| && Again(actions, i, id, pair) {
      HandlingWasChecked(actions, i, id, pair);
    }
  }

  /** Two calls that check before either inserts: the handler runs twice. */
  lemma {:induction false} ConcurrentCallsBothHandle(pair: Pair)
    ensures var both := Next(Next(EMPTY, Begin(1, pair)), Begin(2, pair));
            var checked := Next(Next(both, Go(1)), Go(2));
            Next(Next(checked, Go(1)), Go(2)).handled == [pair, pair]
  {
  }

  // ---------- one message at a time ----------

  /** The three steps of one call with nothing in between, as call number `id`. */
  function Consume(s: System, id: nat, pair: Pair): System {
    Next(Next(Next(Next(s, Begin(id, pair)), Go(id)), Go(id)), Go(id))
  }

  function ConsumeAll(s: System, consumerName: Text, log: seq<Outbox.Message>): System {
    if log == [] then s
    else
      var t := ConsumeAll(s, consumerName, log[..|log| - 1]);
      Consume(t.(calls := map[]), 0, Pair(consumerName, log[|log| - 1].id))
  }

  function Ids(log: seq<Outbox.Message>): (r: seq<Text>)
    ensures |r| == |log| && forall i :: 0 <= i < |log| ==> r[i] == log[i].id
  {
    if log == [] then [] else Ids(log[..|log| - 1]) + [log[|log| - 1].id]
  }

  function Pairs(consumerName: Text, ids: seq<Text>): (r: seq<Pair>)
    ensures |r| == |ids| && forall i :: 0 <= i < |ids| ==> r[i] == Pair(consumerName, ids[i])
  {
    if ids == [] then [] else Pairs(consumerName, ids[..|ids| - 1]) + [Pair(consumerName, ids[|ids| - 1])]
  }

  lemma {:induction false} ConsumeMeans(s: System, pair: Pair)
    requires s.calls == map[]
    ensures var t := Consume(s, 0, pair);
            && t.rows == s.rows + {pair}
            && t.handled == (if pair in s.rows then s.handled else s.handled + [pair])
            && t.processed == (if pair in s.rows then s.processed else s.processed + [pair])
  {
  }

  /** Each distinct event is handled and reported exactly once, in the order of first appearance. */
  lemma {:induction false} HandledOnce(consumerName: Text, log: seq<Outbox.Message>)
    ensures var s := ConsumeAll(EMPTY, consumerName, log);
            && s.handled == s.processed == Pairs(consumerName, Outbox.Firsts(Ids(log)))
            && forall pair :: pair in s.rows <==> pair in s.handled
  {
    if log != [] {
      var front, last := log[..|log| - 1], log[|log| - 1].id;
      HandledOnce(consumerName, front);
      HandledOneMore(ConsumeAll(EMPTY, consumerName, front), consumerName, Ids(front), last);
    }
  }

  lemma {:induction false} HandledOneMore(s: System, consumerName: Text, ids: seq<Text>, last: Text)
    requires s.handled == s.processed == Pairs(consumerName, Outbox.Firsts(ids))
    requires forall pair :: pair in s.rows <==> pair in s.handled
    ensures var t := Consume(s.(calls := map[]), 0, Pair(consumerName, last));
            && t.handled == t.processed == Pairs(consumerName, Outbox.Firsts(ids + [last]))
            && forall pair :: pair in t.rows <==> pair in t.handled
  {
    ConsumeMeans(s.(calls := map[]), Pair(consumerName, last));
    Outbox.FirstsPush(ids, last);
    PairsPush(consumerName, Outbox.Firsts(ids), last);
  }

  lemma {:induction false} PairsPush(consumerName: Text, ids: seq<Text>, id: Text)
    ensures Pairs(consumerName, ids + [id]) == Pairs(consumerName, ids) + [Pair(consumerName, id)]
    ensures Pair(consumerName, id) in Pairs(consumerName, ids) <==> id in ids
  {
    assert (ids + [id])[..|ids|] == ids;
    if id in ids {
      var k :| 0 <= k < |ids| && ids[k] == id;
      assert Pairs(consumerName, ids)[k] == Pair(consumerName, id);
    }
  }

  // ---------- from the outbox to the handler ----------

  lemma {:induction false} IdsPush(log: seq<Outbox.Message>, m: Outbox.Message)
    ensures Ids(log + [m]) == Ids(log) + [m.id]
  {
    assert (log + [m])[..|log|] == log;
  }

  lemma {:induction false} IdsOfFirsts(log: seq<Outbox.Message>)
    requires forall a, b :: a in log && b in log && a.id == b.id ==> a == b
    ensures Outbox.Firsts(Ids(log)) == Ids(Outbox.Firsts(log))
  {
    if log != [] {
      var front, last := log[..|log| - 1], log[|log| - 1];
      assert log == front + [last];
      assert forall m :: m in front ==> m in log;
      IdsOfFirsts(front);
      Outbox.FirstsPush(front, last);
      Outbox.FirstsPush(Ids(front), last.id);
      IdsShow(front, last);
      IdsPush(Outbox.Firsts(front), last);
    }
  }

  lemma {:induction false} IdsShow(log: seq<Outbox.Message>, m: Outbox.Message)
    requires forall a :: a in log && a.id == m.id ==> a == m
    ensures m in log <==> m.id in Ids(log)
  {
    if m in log {
      var k :| 0 <= k < |log| && log[k] == m;
      assert Ids(log)[k] == m.id;
    }
    if m.id in Ids(log) {
      var k :| 0 <= k < |log| && Ids(log)[k] == m.id;
      assert log[k] in log;
    }
  }

  /** Messages of the log with the same id are the same row. */
  lemma {:induction false} LogIdsDiffer(actions: seq<Outbox.Action>, a: Outbox.Message, b: Outbox.Message)
    requires var log := Outbox.After(Outbox.EMPTY, actions).log; a in log && b in log && a.id == b.id
    ensures a == b
  {
    var s := Outbox.After(Outbox.EMPTY, actions);
    Outbox.LogFollowsOutbox(actions);
    Outbox.EmptyKeeps();
    Outbox.AfterKeeps(Outbox.EMPTY, actions);
    RowIdsDiffer(s.rows, Outbox.Firsts(s.log), a, b);
  }

  lemma {:induction false} RowIdsDiffer(
    rows: seq<Outbox.OutboxRow>, shown: seq<Outbox.Message>, a: Outbox.Message, b: Outbox.Message)
    requires forall i, j :: 0 <= i < j < |rows| ==> rows[i].message.id != rows[j].message.id
    requires shown <= Outbox.Messages(rows) && a in shown && b in shown && a.id == b.id
    ensures a == b
  {
    var i :| 0 <= i < |shown| && shown[i] == a;
    var j :| 0 <= j < |shown| && shown[j] == b;
    assert rows[i].message == a && rows[j].message == b;
  }

  lemma {:induction false} PairsOf(consumerName: Text, some: seq<Outbox.Message>, all: seq<Outbox.Message>)
    requires some <= all
    ensures Pairs(consumerName, Ids(some)) <= Pairs(consumerName, Ids(all))
    ensures forall m :: m in some ==> Pair(consumerName, m.id) in Pairs(consumerName, Ids(some))
  {
    forall m | m in some ensures Pair(consumerName, m.id) in Pairs(consumerName, Ids(some)) {
      var i :| 0 <= i < |some| && some[i] == m;
      assert Pairs(consumerName, Ids(some))[i] == Pair(consumerName, m.id);
    }
  }

  /**
   Whatever the relay went through, a consumer that reads the log one message at a time handles
   outbox events once each, in outbox order, and misses none that is published.
   */
  lemma {:induction false} OutboxToHandler(actions: seq<Outbox.Action>, consumerName: Text)
    ensures var outbox := Outbox.After(Outbox.EMPTY, actions);
            var s := ConsumeAll(EMPTY, consumerName, outbox.log);
            && s.handled <= Pairs(consumerName, Ids(Outbox.Messages(outbox.rows)))
            && forall r :: r in outbox.rows && r.published ==> Pair(consumerName, r.message.id) in s.handled
  {
    var outbox := Outbox.After(Outbox.EMPTY, actions);
    Outbox.LogFollowsOutbox(actions);
    HandledOnce(consumerName, outbox.log);
    forall a, b | a in outbox.log && b in outbox.log && a.id == b.id ensures a == b {
      LogIdsDiffer(actions, a, b);
    }
    IdsOfFirsts(outbox.log);
    PairsOf(consumerName, Outbox.Firsts(outbox.log), Outbox.Messages(outbox.rows));
  }

  // ---------- the object ----------

  datatype ConsumeResult = Consumed(processed: bool, duplicate: bool) | HandlerThrew | InsertFailed

  class InboxConsumer {
    var rows: set<Pair>
    /** Every run of a handler, in order. */
    var handled: seq<Pair>

    constructor ()
      ensures rows == {} && handled == []
    {
      rows, handled := {}, [];
    }

    /**
     `meanwhile` is what other calls insert while the handler runs. The handler may throw, and
     the insert may fail for another reason than a duplicate key.
    */
    method ConsumeWithIdempotency(
      eventId: Text, consumerName: Text, meanwhile: set<Pair>, handlerThrows: bool, insertFails: bool
    ) returns (r: ConsumeResult)
      modifies this
      ensures var pair := Pair(consumerName, eventId);
              if pair in old(rows) then
                r == Consumed(false, true) && handled == old(handled) && rows == old(rows)
              else if handlerThrows then
                r == HandlerThrew && handled == old(handled) && rows == old(rows) + meanwhile
              else
                && handled == old(handled) + [pair]
                && if insertFails then r == InsertFailed && rows == old(rows) + meanwhile
                   else r == Consumed(pair !in meanwhile, pair in meanwhile)
                        && rows == old(rows) + meanwhile + {pair}
      ensures meanwhile == {} && !handlerThrows && !insertFails ==>
                var t := Consume(System(old(rows), map[], old(handled), []), 0, Pair(consumerName, eventId));
                rows == t.rows && handled == t.handled && r == Consumed(t.processed != [], t.processed == [])
    {
      var pair := Pair(consumerName, eventId);
      ConsumeMeans(System(rows, map[], handled, []), pair);
      if pair in rows {
        return Consumed(false, true);
      }
      if handlerThrows {
        rows := rows + meanwhile;
        return HandlerThrew;
      }
      handled := handled + [pair];
      rows := rows + meanwhile;
      if insertFails {
        return InsertFailed;
      }
      if pair in rows {
        return Consumed(false, true);
      }
      rows := rows + {pair};
      return Consumed(true, false);
    }
  }
}
