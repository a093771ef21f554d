/**
 LeaseManager on one resource: each operation as a process that takes one step per await, over
 a Redis lock, a Redis counter and a MySQL row.

 With every await an interleaving point, and with expiry and crashes at any time, an epoch is
 only ever returned to one holder. What else may go wrong then is shown by an example: the
 epoch in MySQL can fall.
 */
module LeaseSteps {
  import opened Common
  import opened Utf16

  datatype LeaseStatus = ACTIVE | EXPIRED | RELEASED

  datatype Lock = Lock(holderId: Text, epoch: nat, expiresAt: int)

  datatype Row = Row(
    id: Text, holderId: Text, epoch: nat, status: LeaseStatus, expiresAt: int, acquiredAt: int, renewedAt: int)

  datatype Lease = Lease(
    id: Text, holderId: Text, epoch: nat, status: LeaseStatus, expiresAt: int, acquiredAt: int, renewedAt: int)

  datatype LeaseError = HeldByAnother(holderId: Text) | ExpiredOrLost | DuplicateRow | RowMissing

  /** What the stores hold for one resource. */
  datatype Slot = Slot(lock: Option<Lock>, counter: nat, row: Option<Row>)

  /** An operation, by the store access it is about to make. */
  datatype Proc =
    | AcquireGet(holderId: Text, ttlMs: int)
    | AcquireIncr(holderId: Text, ttlMs: int)
    | AcquireSet(holderId: Text, ttlMs: int, epoch: nat, now: int)
    | AcquireSelect(holderId: Text, ttlMs: int, epoch: nat, now: int)
    | AcquireWrite(holderId: Text, ttlMs: int, epoch: nat, now: int, existing: Option<Text>)
    | RenewGet(holderId: Text, ttlMs: int)
    | RenewSet(holderId: Text, ttlMs: int, epoch: nat, now: int)
    | RenewUpdate(holderId: Text, ttlMs: int, epoch: nat, now: int)
    | RenewSelect(holderId: Text, ttlMs: int, epoch: nat, now: int)
    | ReleaseGet(holderId: Text)
    | ReleaseDel(holderId: Text)
    | ReleaseUpdate(holderId: Text)
    | Returned(lease: Lease)
    | Released
    | Threw(error: LeaseError)

  predicate Finished(p: Proc) {
    p.Returned? || p.Released? || p.Threw?
  }

  /** Store accesses still to make, at most. */
  function StepsLeft(p: Proc): nat {
    match p
    case AcquireGet(_, _) => 6
    case AcquireIncr(_, _) => 5
    case RenewGet(_, _) => 4
    case AcquireSet(_, _, _, _) | RenewSet(_, _, _, _) | ReleaseGet(_) => 3
    case AcquireSelect(_, _, _, _) | RenewUpdate(_, _, _, _) | ReleaseDel(_) => 2
    case AcquireWrite(_, _, _, _, _) | RenewSelect(_, _, _, _) | ReleaseUpdate(_) => 1
    case _ => 0
  }

  /** The insert or update that ends acquire. A second insert violates the unique resource id. */
  function WriteRow(slot: Slot, p: Proc, newId: Text): (Slot, Proc)
    requires p.AcquireWrite?
  {
    var expiresAt := p.now + p.ttlMs;
    var id := if p.existing.Some? then p.existing.value else newId;
    var lease := Lease(id, p.holderId, p.epoch, ACTIVE, expiresAt, p.now, p.now);
    if p.existing.None? then
      if slot.row.Some? then (slot, Threw(DuplicateRow))
      else (slot.(row := Some(Row(id, p.holderId, p.epoch, ACTIVE, expiresAt, p.now, p.now))), Returned(lease))
    else if slot.row.Some? then
      (slot.(row := Some(Row(slot.row.value.id, p.holderId, p.epoch, ACTIVE, expiresAt, p.now, p.now))), Returned(lease))
    else (slot, Returned(lease))
  }

  /** One store access and the code up to the next one, at time `now`. */
  function Advance(slot: Slot, p: Proc, now: int, newId: Text): (Slot, Proc) {
    match p
    case AcquireGet(h, ttl) =>
      (slot, if slot.lock.None? then AcquireIncr(h, ttl)
             else if slot.lock.value.holderId != h then Threw(HeldByAnother(slot.lock.value.holderId))
             else RenewGet(h, ttl))
    case AcquireIncr(h, ttl) =>
      (slot.(counter := slot.counter + 1), AcquireSet(h, ttl, slot.counter + 1, now))
    case AcquireSet(h, ttl, epoch, at) =>
      (slot.(lock := Some(Lock(h, epoch, at + ttl))), AcquireSelect(h, ttl, epoch, at))
    case AcquireSelect(h, ttl, epoch, at) =>
      (slot, AcquireWrite(h, ttl, epoch, at, if slot.row.Some? then Some(slot.row.value.id) else None))
    case AcquireWrite(_, _, _, _, _) => WriteRow(slot, p, newId)
    case RenewGet(h, ttl) =>
      (slot, if slot.lock.None? then Threw(ExpiredOrLost)
             else if slot.lock.value.holderId != h then Threw(HeldByAnother(slot.lock.value.holderId))
             else RenewSet(h, ttl, slot.lock.value.epoch, now))
    case RenewSet(h, ttl, epoch, at) =>
      (slot.(lock := Some(Lock(h, epoch, at + ttl))), RenewUpdate(h, ttl, epoch, at))
    case RenewUpdate(h, ttl, epoch, at) =>
      (if slot.row.Some? then
         slot.(row := Some(slot.row.value.(status := ACTIVE, expiresAt := at + ttl, renewedAt := at)))
       else slot,
       RenewSelect(h, ttl, epoch, at))
    case RenewSelect(h, ttl, epoch, at) =>
      (slot, if slot.row.None? then Threw(RowMissing)
             else Returned(Lease(slot.row.value.id, h, epoch, ACTIVE, at + ttl, slot.row.value.acquiredAt, at)))
    case ReleaseGet(h) =>
      (slot, if slot.lock.Some? && slot.lock.value.holderId == h then ReleaseDel(h) else ReleaseUpdate(h))
    case ReleaseDel(h) => (slot.(lock := None), ReleaseUpdate(h))
    case ReleaseUpdate(_) =>
      (if slot.row.Some? then slot.(row := Some(slot.row.value.(status := RELEASED))) else slot, Released)
    case _ => (slot, p)
  }

  lemma {:induction false} AdvanceEnds(slot: Slot, p: Proc, now: int, newId: Text)
    requires !Finished(p)
    ensures StepsLeft(Advance(slot, p, now, newId).1) < StepsLeft(p)
  {
  }

  // ---------- many processes ----------

  /** `issued[e - 1]` is who incremented the counter to `e`; `returned` lists the leases handed out. */
  datatype System = System(slot: Slot, procs: map<nat, Proc>, issued: seq<Text>, returned: seq<Lease>)

  datatype Action =
    | Begin(pid: nat, p: Proc)
    | Go(pid: nat, now: int, newId: Text)
    | Expire
    | Crash(pid: nat)

  const IDLE: System := System(Slot(None, 0, None), map[], [], [])

  /** A call of acquire, renew or release. */
  predicate IsCall(p: Proc) {
    p.AcquireGet? || p.RenewGet? || p.ReleaseGet?
  }

  /** Actions that make no sense in a state do nothing. */
  function Next(s: System, a: Action): System {
    match a
    case Begin(pid, p) => if pid !in s.procs && IsCall(p) then s.(procs := s.procs[pid := p]) else s
    case Go(pid, now, newId) =>
      if pid in s.procs && !Finished(s.procs[pid]) then
        var p := s.procs[pid];
        var (slot, q) := Advance(s.slot, p, now, newId);
        System(slot, s.procs[pid := q],
               if p.AcquireIncr? then s.issued + [p.holderId] else s.issued,
               if q.Returned? then s.returned + [q.lease] else s.returned)
      else s
    case Expire => s.(slot := s.slot.(lock := None))
    case Crash(pid) => s.(procs := s.procs - {pid})
  }

  function After(s: System, actions: seq<Action>): System
    decreases |actions|
  {
    if actions == [] then s else After(Next(s, actions[0]), actions[1..])
  }

  /** The epoch was issued, to this holder. */
  ghost predicate IssuedTo(issued: seq<Text>, epoch: nat, holderId: Text) {
    1 <= epoch <= |issued| && issued[epoch - 1] == holderId
  }

  /** The epoch a process carries was issued to the holder it works for. */
  ghost predicate CarriesOwn(issued: seq<Text>, p: Proc) {
    match p
    case AcquireSet(h, _, epoch, _) => IssuedTo(issued, epoch, h)
    case AcquireSelect(h, _, epoch, _) => IssuedTo(issued, epoch, h)
    case AcquireWrite(h, _, epoch, _, _) => IssuedTo(issued, epoch, h)
    case RenewSet(h, _, epoch, _) => IssuedTo(issued, epoch, h)
    case RenewUpdate(h, _, epoch, _) => IssuedTo(issued, epoch, h)
    case RenewSelect(h, _, epoch, _) => IssuedTo(issued, epoch, h)
    case Returned(lease) => IssuedTo(issued, lease.epoch, lease.holderId)
    case _ => true
  }

  ghost predicate Invariant(s: System) {
    && s.slot.counter == |s.issued|
    && (s.slot.lock.Some? ==> IssuedTo(s.issued, s.slot.lock.value.epoch, s.slot.lock.value.holderId))
    && (s.slot.row.Some? ==> IssuedTo(s.issued, s.slot.row.value.epoch, s.slot.row.value.holderId))
    && (forall pid :: pid in s.procs ==> CarriesOwn(s.issued, s.procs[pid]))
    && (forall l :: l in s.returned ==> IssuedTo(s.issued, l.epoch, l.holderId))
  }

  /** A process keeps what it carries, whatever it meets in the stores. */
  lemma {:induction false} AdvanceCarries(slot: Slot, p: Proc, now: int, newId: Text, issued: seq<Text>)
    requires slot.counter == |issued| && CarriesOwn(issued, p) && !Finished(p)
    requires slot.lock.Some? ==> IssuedTo(issued, slot.lock.value.epoch, slot.lock.value.holderId)
    requires slot.row.Some? ==> IssuedTo(issued, slot.row.value.epoch, slot.row.value.holderId)
    ensures var (slot', q) := Advance(slot, p, now, newId);
            var issued' := if p.AcquireIncr? then issued + [p.holderId] else issued;
            && slot'.counter == |issued'| && CarriesOwn(issued', q)
            && (slot'.lock.Some? ==> IssuedTo(issued', slot'.lock.value.epoch, slot'.lock.value.holderId))
            && (slot'.row.Some? ==> IssuedTo(issued', slot'.row.value.epoch, slot'.row.value.holderId))
  {
  }

  lemma {:induction false} NextKeeps(s: System, a: Action)
    requires Invariant(s)
    ensures Invariant(Next(s, a))
  {
    match a
    case Go(pid, now, newId) =>
      if pid in s.procs && !Finished(s.procs[pid]) {
        AdvanceCarries(s.slot, s.procs[pid], now, newId, s.issued);
        var t := Next(s, a);
        assert forall e: nat, h :: IssuedTo(s.issued, e, h) ==> IssuedTo(t.issued, e, h);
        assert forall q :: CarriesOwn(s.issued, q) ==> CarriesOwn(t.issued, q);
      }
    case _ =>
  }

  lemma {:induction false} AfterKeeps(s: System, actions: seq<Action>)
    requires Invariant(s)
    ensures Invariant(After(s, actions))
    decreases |actions|
  {
    if actions != [] {
      NextKeeps(s, actions[0]);
      AfterKeeps(Next(s, actions[0]), actions[1..]);
    }
  }

  /** Whoever the row names was issued the epoch it names. */
  lemma {:induction false} RowIsIssued(actions: seq<Action>)
    ensures var s := After(IDLE, actions);
            s.slot.row.Some? ==> IssuedTo(s.issued, s.slot.row.value.epoch, s.slot.row.value.holderId)
  {
    AfterKeeps(IDLE, actions);
  }

  /** No two holders are ever returned leases with the same epoch, however their operations interleave. */
  lemma {:induction false} EpochHasOneHolder(actions: seq<Action>, a: Lease, b: Lease)
    requires a in After(IDLE, actions).returned && b in After(IDLE, actions).returned
    requires a.epoch == b.epoch
    ensures a.holderId == b.holderId
  {
    AfterKeeps(IDLE, actions);
  }

  // ---------- what interleaving costs ----------

  /** The epoch in MySQL falls in exactly one kind of step: an acquire that was overtaken updates the row. */
  lemma {:induction false} EpochFallsIff(s: System, a: Action)
    ensures (s.slot.row.Some? && Next(s, a).slot.row.Some? && Next(s, a).slot.row.value.epoch < s.slot.row.value.epoch)
            <==> (a.Go? && a.pid in s.procs && s.procs[a.pid].AcquireWrite? && s.procs[a.pid].existing.Some?
                  && s.slot.row.Some? && s.procs[a.pid].epoch < s.slot.row.value.epoch)
  {
    match a
    case Go(pid, now, newId) =>
      if pid in s.procs && !Finished(s.procs[pid]) && s.procs[pid].AcquireWrite? {
        assert Next(s, a).slot == WriteRow(s.slot, s.procs[pid], newId).0;
      }
    case _ =>
  }

  const ONE: Text := [49]
  const TWO: Text := [50]

  /** Both find the lock free and count; the second then finishes its acquire. */
  function SecondFirst(): seq<Action> {
    [Go(1, 0, []), Go(2, 0, []), Go(1, 0, []), Go(2, 0, []), Go(2, 0, []), Go(2, 0, []), Go(2, 0, [])]
  }

  /** And then the first, whose epoch is the lower one. */
  function FirstLast(): seq<Action> {
    [Go(1, 0, []), Go(1, 0, []), Go(1, 0, [])]
  }

  /** The system with just these two processes. */
  function Two(slot: Slot, p: Proc, q: Proc, issued: seq<Text>, returned: seq<Lease>): System {
    System(slot, map[1 := p, 2 := q], issued, returned)
  }

  lemma {:induction false} FirstGoes(
    slot: Slot, p: Proc, q: Proc, issued: seq<Text>, returned: seq<Lease>, actions: seq<Action>, slot': Slot, p': Proc)
    requires actions != [] && actions[0] == Go(1, 0, [])
    requires !Finished(p) && Advance(slot, p, 0, []) == (slot', p')
    ensures After(Two(slot, p, q, issued, returned), actions) ==
            After(Two(slot', p', q, if p.AcquireIncr? then issued + [p.holderId] else issued,
                      if p'.Returned? then returned + [p'.lease] else returned), actions[1..])
  {
    assert map[1 := p, 2 := q][1 := p'] == map[1 := p', 2 := q];
  }

  lemma {:induction false} SecondGoes(
    slot: Slot, p: Proc, q: Proc, issued: seq<Text>, returned: seq<Lease>, actions: seq<Action>, slot': Slot, q': Proc)
    requires actions != [] && actions[0] == Go(2, 0, [])
    requires !Finished(q) && Advance(slot, q, 0, []) == (slot', q')
    ensures After(Two(slot, p, q, issued, returned), actions) ==
            After(Two(slot', p, q', if q.AcquireIncr? then issued + [q.holderId] else issued,
                      if q'.Returned? then returned + [q'.lease] else returned), actions[1..])
  {
    assert map[1 := p, 2 := q][2 := q'] == map[1 := p, 2 := q'];
  }

  const ROW_TWO: Row := Row([], TWO, 2, ACTIVE, 10, 0, 0)
  const ROW_ONE: Row := Row([], ONE, 1, ACTIVE, 10, 0, 0)
  const LEASE_TWO: Lease := Lease([], TWO, 2, ACTIVE, 10, 0, 0)
  const LEASE_ONE: Lease := Lease([], ONE, 1, ACTIVE, 10, 0, 0)

  /** Where the two stand when the second has its lease. */
  function Between(): System {
    Two(Slot(Some(Lock(TWO, 2, 10)), 2, Some(ROW_TWO)), AcquireSet(ONE, 10, 1, 0), Returned(LEASE_TWO),
        [ONE, TWO], [LEASE_TWO])
  }

  lemma {:induction false} BothFindItFree(actions: seq<Action>)
    requires |actions| >= 2 && actions[0] == Go(1, 0, []) && actions[1] == Go(2, 0, [])
    ensures After(Two(Slot(None, 0, None), AcquireGet(ONE, 10), AcquireGet(TWO, 10), [], []), actions) ==
            After(Two(Slot(None, 0, None), AcquireIncr(ONE, 10), AcquireIncr(TWO, 10), [], []), actions[2..])
  {
    var free, none := Slot(None, 0, None), [];
    FirstGoes(free, AcquireGet(ONE, 10), AcquireGet(TWO, 10), [], none, actions, free, AcquireIncr(ONE, 10));
    SecondGoes(free, AcquireIncr(ONE, 10), AcquireGet(TWO, 10), [], none, actions[1..], free, AcquireIncr(TWO, 10));
  }

  lemma {:induction false} BothCount(actions: seq<Action>)
    requires |actions| >= 2 && actions[0] == Go(1, 0, []) && actions[1] == Go(2, 0, [])
    ensures After(Two(Slot(None, 0, None), AcquireIncr(ONE, 10), AcquireIncr(TWO, 10), [], []), actions) ==
            After(Two(Slot(None, 2, None), AcquireSet(ONE, 10, 1, 0), AcquireSet(TWO, 10, 2, 0), [ONE, TWO], []),
                  actions[2..])
  {
    var none, one, two := [], AcquireIncr(ONE, 10), AcquireIncr(TWO, 10);
    FirstGoes(Slot(None, 0, None), one, two, [], none, actions, Slot(None, 1, None), AcquireSet(ONE, 10, 1, 0));
    assert [] + [ONE] == [ONE] && [ONE] + [TWO] == [ONE, TWO];
    SecondGoes(Slot(None, 1, None), AcquireSet(ONE, 10, 1, 0), two, [ONE], none, actions[1..],
               Slot(None, 2, None), AcquireSet(TWO, 10, 2, 0));
  }

  lemma {:induction false} SecondWrites(actions: seq<Action>)
    requires |actions| == 3 && forall i :: 0 <= i < 3 ==> actions[i] == Go(2, 0, [])
    ensures After(Two(Slot(None, 2, None), AcquireSet(ONE, 10, 1, 0), AcquireSet(TWO, 10, 2, 0), [ONE, TWO], []), actions)
            == Between()
  {
    var waiting, issued, none := AcquireSet(ONE, 10, 1, 0), [ONE, TWO], [];
    var locked := Slot(Some(Lock(TWO, 2, 10)), 2, None);
    SecondGoes(Slot(None, 2, None), waiting, AcquireSet(TWO, 10, 2, 0), issued, none, actions,
               locked, AcquireSelect(TWO, 10, 2, 0));
    SecondGoes(locked, waiting, AcquireSelect(TWO, 10, 2, 0), issued, none, actions[1..],
               locked, AcquireWrite(TWO, 10, 2, 0, None));
    SecondGoes(locked, waiting, AcquireWrite(TWO, 10, 2, 0, None), issued, none, actions[1..][1..],
               locked.(row := Some(ROW_TWO)), Returned(LEASE_TWO));
    assert none + [LEASE_TWO] == [LEASE_TWO];
    assert actions[1..][1..][1..] == [];
  }

  lemma {:induction false} SecondGetsItsLease()
    ensures After(Two(Slot(None, 0, None), AcquireGet(ONE, 10), AcquireGet(TWO, 10), [], []), SecondFirst()) == Between()
  {
    BothFindItFree(SecondFirst());
    BothCount(SecondFirst()[2..]);
    var rest := SecondFirst()[2..][2..];
    assert rest == [Go(2, 0, []), Go(2, 0, []), Go(2, 0, [])];
    SecondWrites(rest);
  }

  lemma {:induction false} FirstOverwrites()
    ensures After(Between(), FirstLast()) ==
            Two(Slot(Some(Lock(ONE, 1, 10)), 2, Some(ROW_ONE)), Returned(LEASE_ONE), Returned(LEASE_TWO),
                [ONE, TWO], [LEASE_TWO, LEASE_ONE])
  {
    var a, q, issued := FirstLast(), Returned(LEASE_TWO), [ONE, TWO];
    var locked := Slot(Some(Lock(ONE, 1, 10)), 2, Some(ROW_TWO));
    FirstGoes(Between().slot, AcquireSet(ONE, 10, 1, 0), q, issued, [LEASE_TWO], a, locked, AcquireSelect(ONE, 10, 1, 0));
    FirstGoes(locked, AcquireSelect(ONE, 10, 1, 0), q, issued, [LEASE_TWO], a[1..],
              locked, AcquireWrite(ONE, 10, 1, 0, Some([])));
    FirstGoes(locked, AcquireWrite(ONE, 10, 1, 0, Some([])), q, issued, [LEASE_TWO], a[2..],
              locked.(row := Some(ROW_ONE)), Returned(LEASE_ONE));
    assert [LEASE_TWO] + [LEASE_ONE] == [LEASE_TWO, LEASE_ONE];
    assert a[2..][1..] == [];
  }

  /**
   Two interleaved acquires both return leases, and MySQL ends with the lower epoch although the
   higher one had been written.
   */
  lemma {:induction false} EpochCanFall() returns (before: seq<Action>, after: seq<Action>)
    ensures var s := After(IDLE, before); var t := After(s, after);
            && s.slot.row.Some? && t.slot.row.Some?
            && t.slot.row.value.epoch < s.slot.row.value.epoch == t.slot.counter
            && LEASE_ONE in t.returned && LEASE_TWO in t.returned
  {
    var first, second := Begin(1, AcquireGet(ONE, 10)), Begin(2, AcquireGet(TWO, 10));
    before, after := [first, second] + SecondFirst(), FirstLast();
    assert before[1..] == [second] + SecondFirst() && before[1..][1..] == SecondFirst();
    var both := Two(Slot(None, 0, None), AcquireGet(ONE, 10), AcquireGet(TWO, 10), [], []);
    assert IDLE.procs[1 := AcquireGet(ONE, 10)][2 := AcquireGet(TWO, 10)] == both.procs;
    assert Next(Next(IDLE, first), second) == both;
    assert After(IDLE, before) == After(both, SecondFirst());
    SecondGetsItsLease();
    FirstOverwrites();
  }
}
