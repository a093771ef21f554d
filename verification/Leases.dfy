/**
 LeaseManager and the epoch fence when each operation runs as one step.

 The object keeps the Redis locks and counters and the MySQL rows of all resources; every
 method does what its process of module LeaseSteps does when it runs alone. Over whole runs the
 MySQL epoch then equals the Redis counter, grows with every change of holder, and the fence
 lets through the leases of the latest epoch and no others.
 */
module Leases {
  import opened Common
  import opened Utf16
  import opened LeaseSteps

  // ---------- an operation as one step ----------

  function Alone(slot: Slot, p: Proc, now: int, newId: Text): (Slot, Proc)
    decreases StepsLeft(p)
  {
    if Finished(p) then (slot, p)
    else
      AdvanceEnds(slot, p, now, newId);
      var (t, q) := Advance(slot, p, now, newId);
      Alone(t, q, now, newId)
  }

  function Repeat(a: Action, n: nat): seq<Action> {
    if n == 0 then [] else [a] + Repeat(a, n - 1)
  }

  /** Running alone is a run of the interleaved system in which nobody else moves. */
  lemma {:induction false} AloneIsARun(s: System, pid: nat, now: int, newId: Text, n: nat)
    requires pid in s.procs && n >= StepsLeft(s.procs[pid])
    ensures var t := After(s, Repeat(Go(pid, now, newId), n));
            var (slot, p) := Alone(s.slot, s.procs[pid], now, newId);
            t.slot == slot && pid in t.procs && t.procs[pid] == p
    decreases n
  {
    if n > 0 {
      var a := Go(pid, now, newId);
      var p := s.procs[pid];
      assert Repeat(a, n)[1..] == Repeat(a, n - 1);
      if !Finished(p) {
        AdvanceEnds(s.slot, p, now, newId);
      }
      AloneIsARun(Next(s, a), pid, now, newId, n - 1);
    }
  }

  // ---------- runs of whole operations ----------

  datatype Event =
    | Acquires(holderId: Text, ttlMs: int, now: int, newId: Text)
    | Renews(holderId: Text, ttlMs: int, now: int)
    | Releases(holderId: Text)
    | Expires

  datatype Ledger = Ledger(slot: Slot, returned: seq<Lease>)

  const FRESH: Ledger := Ledger(Slot(None, 0, None), [])

  function Call(l: Ledger, p: Proc, now: int, newId: Text): Ledger {
    var (slot, q) := Alone(l.slot, p, now, newId);
    Ledger(slot, if q.Returned? then l.returned + [q.lease] else l.returned)
  }

  function Happens(l: Ledger, e: Event): Ledger {
    match e
    case Acquires(h, ttl, now, newId) => Call(l, AcquireGet(h, ttl), now, newId)
    case Renews(h, ttl, now) => Call(l, RenewGet(h, ttl), now, [])
    case Releases(h) => Call(l, ReleaseGet(h), 0, [])
    case Expires => l.(slot := l.slot.(lock := None))
  }

  function History(l: Ledger, events: seq<Event>): Ledger
    decreases |events|
  {
    if events == [] then l else History(Happens(l, events[0]), events[1..])
  }

  /** The row follows the counter, the lock agrees with the row, and the leases are in order. */
  ghost predicate Consistent(l: Ledger) {
    && (l.slot.row.Some? <==> l.slot.counter > 0)
    && (l.slot.row.Some? ==> l.slot.row.value.epoch == l.slot.counter)
    && (l.slot.lock.Some? ==>
          && l.slot.row.Some? && l.slot.lock.value.epoch == l.slot.counter
          && l.slot.lock.value.holderId == l.slot.row.value.holderId)
    && (l.returned != [] <==> l.slot.row.Some?)
    && (l.returned != [] ==> l.returned[|l.returned| - 1].epoch == l.slot.counter)
    && (forall i :: 0 <= i < |l.returned| ==> l.returned[i].epoch <= l.slot.counter)
    && (forall i :: 0 <= i < |l.returned| && l.returned[i].epoch == l.slot.counter ==>
          l.returned[i].holderId == l.slot.row.value.holderId)
    && (forall i, j :: 0 <= i < j < |l.returned| ==>
          && l.returned[i].epoch <= l.returned[j].epoch
          && (l.returned[i].holderId != l.returned[j].holderId ==> l.returned[i].epoch < l.returned[j].epoch))
  }

  /** acquire on a free resource, all at once. */
  lemma {:induction false} AloneAcquires(slot: Slot, h: Text, ttl: int, now: int, newId: Text)
    requires slot.lock.None?
    ensures var epoch := slot.counter + 1;
            var id := if slot.row.Some? then slot.row.value.id else newId;
            Alone(slot, AcquireGet(h, ttl), now, newId) ==
            (Slot(Some(Lock(h, epoch, now + ttl)), epoch, Some(Row(id, h, epoch, ACTIVE, now + ttl, now, now))),
             Returned(Lease(id, h, epoch, ACTIVE, now + ttl, now, now)))
  {
    var epoch := slot.counter + 1;
    var counted := slot.(counter := epoch);
    var locked := counted.(lock := Some(Lock(h, epoch, now + ttl)));
    assert Alone(slot, AcquireGet(h, ttl), now, newId) == Alone(slot, AcquireIncr(h, ttl), now, newId);
    assert Alone(slot, AcquireIncr(h, ttl), now, newId) == Alone(counted, AcquireSet(h, ttl, epoch, now), now, newId);
    assert Alone(counted, AcquireSet(h, ttl, epoch, now), now, newId) ==
           Alone(locked, AcquireSelect(h, ttl, epoch, now), now, newId);
    var existing := if slot.row.Some? then Some(slot.row.value.id) else None;
    var write := AcquireWrite(h, ttl, epoch, now, existing);
    assert Alone(locked, AcquireSelect(h, ttl, epoch, now), now, newId) == Alone(locked, write, now, newId);
    assert Alone(locked, write, now, newId) == WriteRow(locked, write, newId);
  }

  /** renew: the stored epoch, a later expiry, and the row found or missing. */
  lemma {:induction false} AloneRenews(slot: Slot, h: Text, ttl: int, now: int, newId: Text)
    ensures Alone(slot, RenewGet(h, ttl), now, newId) ==
            if slot.lock.None? then (slot, Threw(ExpiredOrLost))
            else if slot.lock.value.holderId != h then (slot, Threw(HeldByAnother(slot.lock.value.holderId)))
            else
              var epoch := slot.lock.value.epoch;
              var locked := slot.(lock := Some(Lock(h, epoch, now + ttl)));
              if slot.row.None? then (locked, Threw(RowMissing))
              else
                var row := slot.row.value.(status := ACTIVE, expiresAt := now + ttl, renewedAt := now);
                (locked.(row := Some(row)), Returned(Lease(row.id, h, epoch, ACTIVE, now + ttl, row.acquiredAt, now)))
  {
    if slot.lock.Some? && slot.lock.value.holderId == h {
      var epoch := slot.lock.value.epoch;
      var locked := slot.(lock := Some(Lock(h, epoch, now + ttl)));
      assert Alone(slot, RenewGet(h, ttl), now, newId) == Alone(slot, RenewSet(h, ttl, epoch, now), now, newId);
      assert Alone(slot, RenewSet(h, ttl, epoch, now), now, newId) ==
             Alone(locked, RenewUpdate(h, ttl, epoch, now), now, newId);
      var (updated, select) := Advance(locked, RenewUpdate(h, ttl, epoch, now), now, newId);
      assert Alone(locked, RenewUpdate(h, ttl, epoch, now), now, newId) == Alone(updated, select, now, newId);
      assert Alone(updated, select, now, newId) == Advance(updated, select, now, newId);
    }
  }

  /** acquire while the lock is held: an error for others, a renewal for the holder. */
  lemma {:induction false} AloneReacquires(slot: Slot, h: Text, ttl: int, now: int, newId: Text)
    requires slot.lock.Some?
    ensures Alone(slot, AcquireGet(h, ttl), now, newId) ==
            if slot.lock.value.holderId != h then (slot, Threw(HeldByAnother(slot.lock.value.holderId)))
            else Alone(slot, RenewGet(h, ttl), now, newId)
  {
  }

  /** release: the lock goes only if it is the caller's, but the row is marked whoever calls. */
  lemma {:induction false} AloneReleases(slot: Slot, h: Text, now: int, newId: Text)
    ensures Alone(slot, ReleaseGet(h), now, newId) ==
            (Slot(if slot.lock.Some? && slot.lock.value.holderId == h then None else slot.lock, slot.counter,
                  if slot.row.Some? then Some(slot.row.value.(status := RELEASED)) else None),
             Released)
  {
    var free := slot.(lock := None);
    assert Alone(slot, ReleaseUpdate(h), now, newId) == Advance(slot, ReleaseUpdate(h), now, newId);
    assert Alone(free, ReleaseUpdate(h), now, newId) == Advance(free, ReleaseUpdate(h), now, newId);
    if slot.lock.Some? && slot.lock.value.holderId == h {
      assert Alone(slot, ReleaseGet(h), now, newId) == Alone(slot, ReleaseDel(h), now, newId);
      assert Alone(slot, ReleaseDel(h), now, newId) == Alone(free, ReleaseUpdate(h), now, newId);
    } else {
      assert Alone(slot, ReleaseGet(h), now, newId) == Alone(slot, ReleaseUpdate(h), now, newId);
    }
  }

  lemma {:induction false} HappensKeeps(l: Ledger, e: Event)
    requires Consistent(l)
    ensures Consistent(Happens(l, e))
  {
    match e
    case Acquires(h, ttl, now, newId) =>
      if l.slot.lock.None? {
        AloneAcquires(l.slot, h, ttl, now, newId);
      } else {
        AloneReacquires(l.slot, h, ttl, now, newId);
        AloneRenews(l.slot, h, ttl, now, newId);
      }
    case Renews(h, ttl, now) => AloneRenews(l.slot, h, ttl, now, []);
    case Releases(h) => AloneReleases(l.slot, h, 0, []);
    case Expires =>
  }

  lemma {:induction false} HistoryKeeps(l: Ledger, events: seq<Event>)
    requires Consistent(l)
    ensures Consistent(History(l, events))
    decreases |events|
  {
    if events != [] {
      HappensKeeps(l, events[0]);
      HistoryKeeps(Happens(l, events[0]), events[1..]);
    }
  }

  // ---------- the fence ----------

  /** assertValidEpoch throws. */
  predicate Fenced(claimedEpoch: nat, activeEpoch: nat) {
    claimedEpoch < activeEpoch
  }

  /** assertValidEpochFromDb throws. */
  predicate FencedFromDb(row: Option<Row>, claimedEpoch: nat) {
    row.Some? && Fenced(claimedEpoch, row.value.epoch)
  }

  /** After any run of whole operations the authoritative epoch in MySQL is the Redis counter. */
  lemma {:induction false} EpochIsCounter(events: seq<Event>)
    ensures var slot := History(FRESH, events).slot;
            (if slot.row.Some? then slot.row.value.epoch else 0) == slot.counter
  {
    HistoryKeeps(FRESH, events);
  }

  /** Of two leases, one after the other, the later never has the lower epoch, and a new holder has a higher one. */
  lemma {:induction false} HandoffGrows(events: seq<Event>, i: nat, j: nat)
    requires i < j < |History(FRESH, events).returned|
    ensures var leases := History(FRESH, events).returned;
            && leases[i].epoch <= leases[j].epoch
            && (leases[i].holderId != leases[j].holderId ==> leases[i].epoch < leases[j].epoch)
  {
    HistoryKeeps(FRESH, events);
  }

  /** The fence lets a lease through exactly when it has the epoch of the latest one, so every handoff shuts out the past. */
  lemma {:induction false} FenceAdmitsLatest(events: seq<Event>, i: nat)
    requires i < |History(FRESH, events).returned|
    ensures var l := History(FRESH, events); var latest := l.returned[|l.returned| - 1];
            && (FencedFromDb(l.slot.row, l.returned[i].epoch) <==> l.returned[i].epoch != latest.epoch)
            && (forall j :: i < j < |l.returned| && l.returned[j].holderId != l.returned[i].holderId ==>
                  FencedFromDb(l.slot.row, l.returned[i].epoch))
  {
    HistoryKeeps(FRESH, events);
  }

  /** However operations interleave, the newest epoch issued passes the fence, and with it whoever holds it. */
  lemma {:induction false} NewestPasses(actions: seq<Action>)
    ensures var s := After(IDLE, actions);
            !FencedFromDb(s.slot.row, s.slot.counter) && (s.slot.row.Some? ==> 1 <= s.slot.row.value.epoch)
  {
    AfterKeeps(IDLE, actions);
  }

  /** In such runs renew never misses its row. */
  lemma {:induction false} RenewFindsRow(events: seq<Event>, h: Text, ttl: int, now: int, newId: Text)
    ensures Alone(History(FRESH, events).slot, RenewGet(h, ttl), now, newId).1 != Threw(RowMissing)
    ensures Alone(History(FRESH, events).slot, AcquireGet(h, ttl), now, newId).1 !in {Threw(RowMissing), Threw(DuplicateRow)}
  {
    HistoryKeeps(FRESH, events);
    var slot := History(FRESH, events).slot;
    AloneRenews(slot, h, ttl, now, newId);
    if slot.lock.None? {
      AloneAcquires(slot, h, ttl, now, newId);
    } else {
      AloneReacquires(slot, h, ttl, now, newId);
    }
  }

  // ---------- the object ----------

  datatype LeaseResult = Ok(lease: Lease) | Err(error: LeaseError)

  /** What the caller sees of a finished process. */
  function Outcome(p: Proc): LeaseResult
    requires p.Returned? || p.Threw?
  {
    if p.Returned? then Ok(p.lease) else Err(p.error)
  }

  class LeaseManager {
    var locks: map<Text, Lock>
    var epochs: map<Text, nat>
    var rows: map<Text, Row>

    function SlotOf(resourceId: Text): Slot
      reads this
    {
      Slot(if resourceId in locks then Some(locks[resourceId]) else None,
           if resourceId in epochs then epochs[resourceId] else 0,
           if resourceId in rows then Some(rows[resourceId]) else None)
    }

    /** The other resources are as they were. */
    twostate predicate OnlyTouches(resourceId: Text)
      reads this
    {
      forall other :: other != resourceId ==> SlotOf(other) == old(SlotOf(other))
    }

    constructor ()
      ensures forall resourceId :: SlotOf(resourceId) == Slot(None, 0, None)
    {
      locks, epochs, rows := map[], map[], map[];
    }

    method Acquire(resourceId: Text, holderId: Text, ttlMs: int, now: int, newId: Text) returns (r: LeaseResult)
      modifies this
      ensures OnlyTouches(resourceId)
      ensures SlotOf(resourceId) == Alone(old(SlotOf(resourceId)), AcquireGet(holderId, ttlMs), now, newId).0
      ensures var p := Alone(old(SlotOf(resourceId)), AcquireGet(holderId, ttlMs), now, newId).1;
              (p.Returned? || p.Threw?) && r == Outcome(p)
    {
      ghost var before := SlotOf(resourceId);
      if resourceId in locks {
        AloneReacquires(before, holderId, ttlMs, now, newId);
        var current := locks[resourceId];
        if current.holderId != holderId {
          return Err(HeldByAnother(current.holderId));
        }
        AloneRenews(before, holderId, ttlMs, now, newId);
        AloneRenews(before, holderId, ttlMs, now, []);
        r := Renew(resourceId, holderId, ttlMs, now);
        return;
      }
      AloneAcquires(before, holderId, ttlMs, now, newId);
      var epoch: nat := (if resourceId in epochs then epochs[resourceId] else 0) + 1;
      epochs := epochs[resourceId := epoch];
      var expiresAt := now + ttlMs;
      locks := locks[resourceId := Lock(holderId, epoch, expiresAt)];
      var leaseId := if resourceId in rows then rows[resourceId].id else newId;
      rows := rows[resourceId := Row(leaseId, holderId, epoch, ACTIVE, expiresAt, now, now)];
      r := Ok(Lease(leaseId, holderId, epoch, ACTIVE, expiresAt, now, now));
    }

    method Renew(resourceId: Text, holderId: Text, ttlMs: int, now: int) returns (r: LeaseResult)
      modifies this
      ensures OnlyTouches(resourceId)
      ensures SlotOf(resourceId) == Alone(old(SlotOf(resourceId)), RenewGet(holderId, ttlMs), now, []).0
      ensures var p := Alone(old(SlotOf(resourceId)), RenewGet(holderId, ttlMs), now, []).1;
              (p.Returned? || p.Threw?) && r == Outcome(p)
    {
      AloneRenews(SlotOf(resourceId), holderId, ttlMs, now, []);
      if resourceId !in locks {
        return Err(ExpiredOrLost);
      }
      var current := locks[resourceId];
      if current.holderId != holderId {
        return Err(HeldByAnother(current.holderId));
      }
      var expiresAt := now + ttlMs;
      locks := locks[resourceId := Lock(holderId, current.epoch, expiresAt)];
      if resourceId in rows {
        rows := rows[resourceId := rows[resourceId].(status := ACTIVE, expiresAt := expiresAt, renewedAt := now)];
      }
      if resourceId !in rows {
        return Err(RowMissing);
      }
      var updated := rows[resourceId];
      r := Ok(Lease(updated.id, holderId, current.epoch, ACTIVE, expiresAt, updated.acquiredAt, now));
    }

    method Release(resourceId: Text, holderId: Text)
      modifies this
      ensures OnlyTouches(resourceId)
      ensures SlotOf(resourceId) == Alone(old(SlotOf(resourceId)), ReleaseGet(holderId), 0, []).0
    {
      AloneReleases(SlotOf(resourceId), holderId, 0, []);
      if resourceId in locks && locks[resourceId].holderId == holderId {
        locks := locks - {resourceId};
      }
      if resourceId in rows {
        rows := rows[resourceId := rows[resourceId].(status := RELEASED)];
      }
    }

    /** Redis drops the lock when its time is up. */
    method Expire(resourceId: Text)
      modifies this
      ensures OnlyTouches(resourceId)
      ensures SlotOf(resourceId) == old(SlotOf(resourceId)).(lock := None)
    {
      locks := locks - {resourceId};
    }

    /** MySQL first, the Redis counter if there is no row. */
    method GetCurrentEpoch(resourceId: Text) returns (epoch: nat)
      ensures epoch == if resourceId in rows then rows[resourceId].epoch else SlotOf(resourceId).counter
      ensures forall l: Ledger :: Consistent(l) && l.slot == SlotOf(resourceId) ==> epoch == l.slot.counter
    {
      if resourceId in rows {
        return rows[resourceId].epoch;
      }
      epoch := if resourceId in epochs then epochs[resourceId] else 0;
    }

    /** Throws exactly when a row is there and its epoch is higher. */
    method AssertValidEpochFromDb(resourceId: Text, claimedEpoch: nat) returns (throws: bool)
      ensures throws <==> FencedFromDb(SlotOf(resourceId).row, claimedEpoch)
    {
      throws := resourceId in rows && claimedEpoch < rows[resourceId].epoch;
    }
  }
}
