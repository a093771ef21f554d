/**
 OutboxRelay: one relay that sends pending rows to the log and marks them, with a crash possible
 between any two store accesses. Published rows are always in the log, the log without its
 repeats is the beginning of the outbox in order, and there are no more repeats than crashes.
 */
module Outbox {
  import opened Utf16

  datatype Message = Message(id: Text, key: Text, payload: Text, eventType: Text, aggregateType: Text, epoch: int)

  /** A row of the table; the row's creation time orders the table. */
  datatype OutboxRow = OutboxRow(message: Message, createdAt: int, published: bool)

  /** What relayPendingEvents still has to do with the rows it selected. */
  datatype Relay = Idle | Sending(batch: seq<OutboxRow>) | Marking(batch: seq<OutboxRow>)

  datatype System = System(rows: seq<OutboxRow>, log: seq<Message>, relay: Relay, crashes: nat)

  datatype Action =
    | QueueEvent(message: Message, createdAt: int)
    | RelayPending(limit: nat)
    | Send
    | Mark
    | Crash

  const EMPTY: System := System([], [], Idle, 0)

  /** The rows with no publication time, oldest first. */
  function Pending(rows: seq<OutboxRow>): seq<OutboxRow> {
    if rows == [] then []
    else (if rows[0].published then [] else [rows[0]]) + Pending(rows[1..])
  }

  function Take<T>(s: seq<T>, n: nat): seq<T> {
    if n < |s| then s[..n] else s
  }

  /** UPDATE … SET published_at WHERE id = …. */
  function MarkPublished(rows: seq<OutboxRow>, id: Text): seq<OutboxRow> {
    if rows == [] then []
    else
      [if rows[0].message.id == id then rows[0].(published := true) else rows[0]] + MarkPublished(rows[1..], id)
  }

  /** Ids are random and creation times increase. */
  predicate CanQueue(rows: seq<OutboxRow>, message: Message, createdAt: int) {
    forall r :: r in rows ==> r.message.id != message.id && r.createdAt < createdAt
  }

  function Working(batch: seq<OutboxRow>): Relay {
    if batch == [] then Idle else Sending(batch)
  }

  /** Actions that make no sense in a state do nothing. */
  function Next(s: System, a: Action): System {
    match a
    case QueueEvent(message, createdAt) =>
      if CanQueue(s.rows, message, createdAt) then s.(rows := s.rows + [OutboxRow(message, createdAt, false)]) else s
    case RelayPending(limit) =>
      if s.relay.Idle? then s.(relay := Working(Take(Pending(s.rows), limit))) else s
    case Send =>
      if s.relay.Sending? && s.relay.batch != [] then
        s.(log := s.log + [s.relay.batch[0].message], relay := Marking(s.relay.batch))
      else s
    case Mark =>
      if s.relay.Marking? && s.relay.batch != [] then
        s.(rows := MarkPublished(s.rows, s.relay.batch[0].message.id), relay := Working(s.relay.batch[1..]))
      else s
    case Crash => s.(relay := Idle, crashes := s.crashes + 1)
  }

  function After(s: System, actions: seq<Action>): System
    decreases |actions|
  {
    if actions == [] then s else After(Next(s, actions[0]), actions[1..])
  }

  // ---------- the log without its repeats ----------

  /** Each element where it first occurs. */
  function Firsts<T(==,!new)>(s: seq<T>): (r: seq<T>)
    ensures |r| <= |s|
    ensures forall x :: x in r <==> x in s
    ensures forall i, j :: 0 <= i < j < |r| ==> r[i] != r[j]
  {
    if s == [] then []
    else
      var front, last := Firsts(s[..|s| - 1]), s[|s| - 1];
      assert s == s[..|s| - 1] + [last];
      if last in front then front else front + [last]
  }

  lemma {:induction false} FirstsPush<T(!new)>(s: seq<T>, x: T)
    ensures Firsts(s + [x]) == if x in s then Firsts(s) else Firsts(s) + [x]
  {
    assert (s + [x])[..|s|] == s;
  }

  /** How many elements of the log are there for the second time or more. */
  function Repeats(log: seq<Message>): nat {
    |log| - |Firsts(log)|
  }

  function Messages(rows: seq<OutboxRow>): (r: seq<Message>)
    ensures |r| == |rows| && forall i :: 0 <= i < |rows| ==> r[i] == rows[i].message
  {
    if rows == [] then [] else [rows[0].message] + Messages(rows[1..])
  }

  // ---------- what every step keeps ----------

  /** The first `p` rows are published, the others are not; ids are unique and times increase. */
  ghost predicate PublishedUpTo(rows: seq<OutboxRow>, p: nat) {
    && p <= |rows|
    && (forall i :: 0 <= i < |rows| ==> (rows[i].published <==> i < p))
    && (forall i, j :: 0 <= i < j < |rows| ==>
          rows[i].message.id != rows[j].message.id && rows[i].createdAt < rows[j].createdAt)
  }

  /** These are the next rows to publish. */
  ghost predicate NextRows(rows: seq<OutboxRow>, p: nat, batch: seq<OutboxRow>) {
    p + |batch| <= |rows| && forall i :: 0 <= i < |batch| ==> batch[i] == rows[p + i]
  }

  ghost predicate InHand(s: System, p: nat) {
    s.relay.Idle? || (s.relay.batch != [] && NextRows(s.rows, p, s.relay.batch))
  }

  /** The log shows `n` rows, at most one more than are published, and each repeat is paid for by a crash. */
  ghost predicate LogShows(s: System, p: nat, n: nat) {
    && p <= n <= p + 1 && n <= |s.rows|
    && Firsts(s.log) == Messages(s.rows)[..n]
    && (s.relay.Marking? ==> n == p + 1 && |s.log| <= p + 1 + s.crashes)
    && (!s.relay.Marking? ==> |s.log| <= p + s.crashes)
  }

  ghost predicate Invariant(s: System) {
    exists p: nat, n: nat :: PublishedUpTo(s.rows, p) && InHand(s, p) && LogShows(s, p, n)
  }

  lemma {:induction false} PendingIsRest(rows: seq<OutboxRow>, p: nat)
    requires p <= |rows| && forall i :: 0 <= i < |rows| ==> (rows[i].published <==> i < p)
    ensures Pending(rows) == rows[p..]
  {
    if rows != [] {
      PendingIsRest(rows[1..], if p > 0 then p - 1 else 0);
      if p > 0 {
        assert rows[1..][p - 1..] == rows[p..];
      } else {
        assert rows == [rows[0]] + rows[1..];
      }
    }
  }

  lemma {:induction false} PendingIsNext(rows: seq<OutboxRow>, p: nat, limit: nat)
    requires PublishedUpTo(rows, p)
    ensures Pending(rows) == rows[p..] && NextRows(rows, p, Take(Pending(rows), limit))
  {
    PendingIsRest(rows, p);
  }

  lemma {:induction false} MarkPublishedAt(rows: seq<OutboxRow>, k: nat)
    requires k < |rows| && forall i :: 0 <= i < |rows| && i != k ==> rows[i].message.id != rows[k].message.id
    ensures MarkPublished(rows, rows[k].message.id) == rows[k := rows[k].(published := true)]
  {
    if k > 0 {
      MarkPublishedAt(rows[1..], k - 1);
    } else {
      NothingToMark(rows[1..], rows[0].message.id);
    }
  }

  lemma {:induction false} NothingToMark(rows: seq<OutboxRow>, id: Text)
    requires forall r :: r in rows ==> r.message.id != id
    ensures MarkPublished(rows, id) == rows
  {
    if rows != [] {
      assert rows[0] in rows;
      NothingToMark(rows[1..], id);
    }
  }

  lemma {:induction false} QueuePublished(rows: seq<OutboxRow>, message: Message, createdAt: int, p: nat)
    requires PublishedUpTo(rows, p) && CanQueue(rows, message, createdAt)
    ensures PublishedUpTo(rows + [OutboxRow(message, createdAt, false)], p)
  {
    assert forall i :: 0 <= i < |rows| ==> rows[i] in rows;
  }

  lemma {:induction false} QueueKeeps(s: System, message: Message, createdAt: int)
    requires Invariant(s)
    ensures Invariant(Next(s, QueueEvent(message, createdAt)))
  {
    var p: nat, n: nat :| PublishedUpTo(s.rows, p) && InHand(s, p) && LogShows(s, p, n);
    if CanQueue(s.rows, message, createdAt) {
      var t := Next(s, QueueEvent(message, createdAt));
      QueuePublished(s.rows, message, createdAt, p);
      assert InHand(t, p);
      assert Messages(t.rows)[..n] == Messages(s.rows)[..n];
      assert LogShows(t, p, n);
    }
  }

  lemma {:induction false} RelayKeeps(s: System, limit: nat)
    requires Invariant(s)
    ensures Invariant(Next(s, RelayPending(limit)))
  {
    var p: nat, n: nat :| PublishedUpTo(s.rows, p) && InHand(s, p) && LogShows(s, p, n);
    var t := Next(s, RelayPending(limit));
    PendingIsNext(s.rows, p, limit);
    assert InHand(t, p);
    assert LogShows(t, p, n);
  }

  /** Sending the first row not yet published: the log may already show it. */
  lemma {:induction false} SendShows(log: seq<Message>, all: seq<Message>, p: nat, n: nat)
    requires p <= n <= p + 1 && n <= |all| && p < |all| && Firsts(log) == all[..n]
    requires forall i, j :: 0 <= i < j < |all| ==> all[i] != all[j]
    ensures Firsts(log + [all[p]]) == all[..p + 1]
  {
    FirstsPush(log, all[p]);
    assert all[p] in log <==> all[p] in all[..n];
    if n == p {
      assert all[p] !in all[..n];
      assert all[..n] + [all[p]] == all[..p + 1];
    } else {
      assert all[..n][p] == all[p];
    }
  }

  lemma {:induction false} MessagesDiffer(rows: seq<OutboxRow>, p: nat)
    requires PublishedUpTo(rows, p)
    ensures forall i, j :: 0 <= i < j < |rows| ==> Messages(rows)[i] != Messages(rows)[j]
  {
  }

  lemma {:induction false} SendKeeps(s: System)
    requires Invariant(s)
    ensures Invariant(Next(s, Send))
  {
    var p: nat, n: nat :| PublishedUpTo(s.rows, p) && InHand(s, p) && LogShows(s, p, n);
    if s.relay.Sending? {
      var t := Next(s, Send);
      MessagesDiffer(s.rows, p);
      SendShows(s.log, Messages(s.rows), p, n);
      assert t.log == s.log + [Messages(s.rows)[p]];
      assert InHand(t, p);
      assert LogShows(t, p, p + 1);
    } else {
      assert Next(s, Send) == s;
    }
  }

  /** Marking the first row not yet published. */
  lemma {:induction false} MarkAdvances(rows: seq<OutboxRow>, p: nat)
    requires PublishedUpTo(rows, p) && p < |rows|
    ensures var rows' := MarkPublished(rows, rows[p].message.id);
            && rows' == rows[p := rows[p].(published := true)]
            && PublishedUpTo(rows', p + 1) && Messages(rows') == Messages(rows)
  {
    MarkPublishedAt(rows, p);
  }

  lemma {:induction false} MarkKeeps(s: System)
    requires Invariant(s)
    ensures Invariant(Next(s, Mark))
  {
    var p: nat, n: nat :| PublishedUpTo(s.rows, p) && InHand(s, p) && LogShows(s, p, n);
    if s.relay.Marking? {
      MarkKeepsAt(s, p, n);
    } else {
      assert Next(s, Mark) == s;
    }
  }

  lemma {:induction false} MarkKeepsAt(s: System, p: nat, n: nat)
    requires PublishedUpTo(s.rows, p) && InHand(s, p) && LogShows(s, p, n) && s.relay.Marking?
    ensures var t := Next(s, Mark); PublishedUpTo(t.rows, p + 1) && InHand(t, p + 1) && LogShows(t, p + 1, n)
  {
    var t := Next(s, Mark);
    var rest := s.relay.batch[1..];
    MarkAdvances(s.rows, p);
    assert s.relay.batch[0] == s.rows[p];
    assert t.rows == s.rows[p := s.rows[p].(published := true)];
    assert NextRows(t.rows, p + 1, rest);
  }

  lemma {:induction false} NextKeeps(s: System, a: Action)
    requires Invariant(s)
    ensures Invariant(Next(s, a))
  {
    match a
    case QueueEvent(message, createdAt) => QueueKeeps(s, message, createdAt);
    case RelayPending(limit) => RelayKeeps(s, limit);
    case Send => SendKeeps(s);
    case Mark => MarkKeeps(s);
    case Crash =>
      var p: nat, n: nat :| PublishedUpTo(s.rows, p) && InHand(s, p) && LogShows(s, p, n);
      var t := Next(s, Crash);
      assert PublishedUpTo(t.rows, p) && InHand(t, p) && LogShows(t, p, n);
  }

  lemma {:induction false} AfterKeeps(s: System, actions: seq<Action>)
    requires Invariant(s)
    ensures Invariant(After(s, actions))
    decreases |actions|
  {
    if actions != [] {
      NextKeeps(s, actions[0]);
      AfterKeeps(Next(s, actions[0]), actions[1..]);
    }
  }

  lemma {:induction false} EmptyKeeps()
    ensures Invariant(EMPTY)
  {
    assert PublishedUpTo(EMPTY.rows, 0) && InHand(EMPTY, 0) && LogShows(EMPTY, 0, 0);
  }

  /** After any run: no loss, outbox order, and no more repeats than crashes. */
  lemma {:induction false} LogFollowsOutbox(actions: seq<Action>)
    ensures var s := After(EMPTY, actions);
            && (forall r :: r in s.rows && r.published ==> r.message in s.log)
            && Firsts(s.log) <= Messages(s.rows)
            && Repeats(s.log) <= s.crashes
  {
    EmptyKeeps();
    AfterKeeps(EMPTY, actions);
    var s := After(EMPTY, actions);
    var p: nat, n: nat :| PublishedUpTo(s.rows, p) && InHand(s, p) && LogShows(s, p, n);
    forall r | r in s.rows && r.published ensures r.message in s.log {
      var i :| 0 <= i < |s.rows| && s.rows[i] == r;
      assert Messages(s.rows)[..n][i] == r.message;
    }
  }

  // ---------- one call of relayPendingEvents ----------

  /** The first `k` store accesses after the select. */
  function Accesses(k: nat, sending: bool): seq<Action> {
    if k == 0 then [] else [if sending then Send else Mark] + Accesses(k - 1, !sending)
  }

  lemma {:induction false} AfterAccess(s: System, k: nat, sending: bool)
    requires k > 0
    ensures After(s, Accesses(k, sending)) ==
            After(Next(s, if sending then Send else Mark), Accesses(k - 1, !sending))
  {
    assert Accesses(k, sending)[1..] == Accesses(k - 1, !sending);
  }

  /** `t` is `s` with the batch, the first rows not published, logged and published. */
  ghost predicate Delivered(s: System, t: System, p: nat, batch: seq<OutboxRow>) {
    && t.crashes == s.crashes && t.log == s.log + Messages(batch)
    && PublishedUpTo(t.rows, p + |batch|) && Messages(t.rows) == Messages(s.rows)
    && |t.rows| == |s.rows| && forall i :: p + |batch| <= i < |t.rows| ==> t.rows[i] == s.rows[i]
  }

  /** A send and the mark after it. */
  lemma {:induction false} DeliversOne(s: System, p: nat, batch: seq<OutboxRow>)
    requires PublishedUpTo(s.rows, p) && batch != [] && NextRows(s.rows, p, batch) && s.relay == Working(batch)
    ensures var t := Next(Next(s, Send), Mark);
            t.relay == Working(batch[1..]) && Delivered(s, t, p, [batch[0]]) && NextRows(t.rows, p + 1, batch[1..])
  {
    MarkAdvances(s.rows, p);
    var t := Next(Next(s, Send), Mark);
    assert t.rows == s.rows[p := s.rows[p].(published := true)];
    assert Messages([batch[0]]) == [batch[0].message];
  }

  lemma {:induction false} DeliveredOn(s: System, t: System, u: System, p: nat, batch: seq<OutboxRow>)
    requires batch != [] && Delivered(s, t, p, [batch[0]]) && Delivered(t, u, p + 1, batch[1..])
    ensures Delivered(s, u, p, batch)
  {
    assert Messages([batch[0]]) == [batch[0].message];
    assert u.log == s.log + ([batch[0].message] + Messages(batch[1..]));
  }

  /** A call that is not interrupted logs its batch in order and publishes exactly that. */
  lemma {:induction false} Delivers(s: System, p: nat, batch: seq<OutboxRow>)
    requires PublishedUpTo(s.rows, p) && NextRows(s.rows, p, batch) && s.relay == Working(batch)
    ensures var t := After(s, Accesses(2 * |batch|, true));
            t.relay == Idle && Delivered(s, t, p, batch)
    decreases |batch|
  {
    if batch != [] {
      var k: nat := 2 * |batch|;
      AfterAccess(s, k, true);
      AfterAccess(Next(s, Send), k - 1, false);
      DeliversOne(s, p, batch);
      var t := Next(Next(s, Send), Mark);
      Delivers(t, p + 1, batch[1..]);
      DeliveredOn(s, t, After(t, Accesses(k - 2, true)), p, batch);
    }
  }

  lemma {:induction false} PendingAfter(s: System, t: System, p: nat, batch: seq<OutboxRow>)
    requires PublishedUpTo(s.rows, p) && p + |batch| <= |s.rows| && Delivered(s, t, p, batch)
    ensures |batch| <= |Pending(s.rows)| && Pending(t.rows) == Pending(s.rows)[|batch|..]
  {
    PendingIsRest(s.rows, p);
    PendingIsRest(t.rows, p + |batch|);
  }

  /** A call that meets no crash sends the oldest pending rows and leaves the rest pending. */
  lemma {:induction false} RelayDelivers(s: System, limit: nat)
    requires Invariant(s) && s.relay == Idle
    ensures var batch := Take(Pending(s.rows), limit);
            var t := After(Next(s, RelayPending(limit)), Accesses(2 * |batch|, true));
            && t.relay == Idle && t.log == s.log + Messages(batch)
            && Pending(t.rows) == Pending(s.rows)[|batch|..] && Messages(t.rows) == Messages(s.rows)
  {
    var p: nat, n: nat :| PublishedUpTo(s.rows, p) && InHand(s, p) && LogShows(s, p, n);
    var batch := Take(Pending(s.rows), limit);
    PendingIsNext(s.rows, p, limit);
    var selected := Next(s, RelayPending(limit));
    Delivers(selected, p, batch);
    PendingAfter(selected, After(selected, Accesses(2 * |batch|, true)), p, batch);
  }

  // ---------- the object ----------

  /** The table, the log, and a relay that is between calls. */
  class OutboxRelay {
    var rows: seq<OutboxRow>
    var log: seq<Message>
    ghost var crashes: nat

    ghost function State(): System
      reads this
    {
      System(rows, log, Idle, crashes)
    }

    constructor ()
      ensures State() == EMPTY && rows == [] && log == []
    {
      rows, log, crashes := [], [], 0;
    }

    method QueueEvent(message: Message, createdAt: int)
      requires CanQueue(rows, message, createdAt)
      modifies this
      ensures State() == Next(old(State()), Action.QueueEvent(message, createdAt))
      ensures rows == old(rows) + [OutboxRow(message, createdAt, false)] && log == old(log)
    {
      rows := rows + [OutboxRow(message, createdAt, false)];
    }

    /** `accesses` is how many sends and updates succeed before a crash, should one come that early. */
    method RelayPendingEvents(limit: nat, accesses: nat) returns (published: nat, crashed: bool)
      modifies this
      ensures var n := |Take(Pending(old(rows)), limit)|;
              var selected := Next(old(State()), RelayPending(limit));
              && crashed == (accesses < 2 * n)
              && State() == (if crashed then Next(After(selected, Accesses(accesses, true)), Crash)
                             else After(selected, Accesses(2 * n, true)))
              && (!crashed ==> published == n)
    {
      var pending := Take(Pending(rows), limit);
      ghost var total := if accesses < 2 * |pending| then accesses else 2 * |pending|;
      ghost var whole := After(System(rows, log, Working(pending), crashes), Accesses(total, true));
      for i := 0 to |pending|
        invariant 2 * i <= total
        invariant whole == After(System(rows, log, Working(pending[i..]), crashes), Accesses(total - 2 * i, true))
      {
        assert pending[i..][0] == pending[i] && pending[i..][1..] == pending[i + 1..];
        if accesses == 2 * i {
          crashes := crashes + 1;
          return 0, true;
        }
        AfterAccess(System(rows, log, Working(pending[i..]), crashes), total - 2 * i, true);
        log := log + [pending[i].message];
        if accesses == 2 * i + 1 {
          crashes := crashes + 1;
          return 0, true;
        }
        AfterAccess(System(rows, log, Marking(pending[i..]), crashes), total - 2 * i - 1, false);
        rows := MarkPublished(rows, pending[i].message.id);
      }
      return |pending|, false;
    }
  }
}
