/**
 What every reachable state of a simulation satisfies: conservation of requests, threads, CPU
 tasks and connections, and the times at which the events of a request are due.
 */
module RunnerInvariant {
  import opened Utf16
  import opened Resources
  import opened RunnerSpec
  import opened Pending

  // ---------- which events are meant ----------

  ghost function LocalOf(r: nat): iset<Payload> {
    iset p: Payload | p.LocalOpComplete? && p.request == r
  }

  ghost function DepOf(r: nat): iset<Payload> {
    iset p: Payload | p.DepComplete? && p.request == r
  }

  ghost function LocalAt(n: Text): iset<Payload> {
    iset p: Payload | p.LocalOpComplete? && p.op.nodeId == n
  }

  ghost function DepAt(n: Text): iset<Payload> {
    iset p: Payload | p.DepComplete? && p.targetNodeId == n
  }

  // ---------- requests ----------

  ghost function Running(s: Runner): set<nat> {
    set r: nat | r < |s.requests| && s.requests[r].status == RUNNING
  }

  ghost function RunningOn(s: Runner, n: Text): set<nat> {
    set r: nat | r < |s.requests| && s.requests[r].status == RUNNING && HasRoot(s, r) && RootOp(s, r).nodeId == n
  }

  /** The longest delay among the given dependencies, 0 when there is none. */
  function Longest(ops: map<Text, Operation>, deps: seq<Dependency>): nat {
    if deps == [] then 0
    else
      var rest := Longest(ops, deps[1..]);
      var name := deps[0].targetOperationName;
      if name in ops && DownstreamDelay(ops[name]) > rest then DownstreamDelay(ops[name]) else rest
  }

  /** How long a request waits for its synchronous dependencies. */
  function DependencyWait(ops: map<Text, Operation>, op: Operation): nat {
    Longest(ops, Synchronous(SortDependencies(op.dependencies)))
  }

  /** Latencies are not negative; negative ones make the kernel throw. */
  ghost predicate NonNegative(ops: map<Text, Operation>) {
    forall name :: name in ops ==> ops[name].baseLatencyUs >= 0
  }

  /** A local duration that processor sharing can produce on the node of `op`. */
  ghost predicate PossibleDuration(s: Runner, op: Operation, durationUs: int)
    requires op.nodeId in s.nodes
  {
    var node := s.nodes[op.nodeId];
    op.baseLatencyUs <= durationUs <=
      WorstDuration(node.cpu.cores, op.baseLatencyUs, node.threadpool.workerCount + node.threadpool.queueCapacity)
  }

  /** The request runs locally: one completion is scheduled, at its arrival plus its duration. */
  ghost predicate InLocal(s: Runner, live: set<Event>, r: nat, d: int)
    requires r < |s.requests| && HasRoot(s, r)
  {
    && Tally(live, LocalOf(r)) == 1 && Tally(live, DepOf(r)) == 0
    && forall e :: e in live && e.payload in LocalOf(r) ==>
         e.timeUs == s.requests[r].arrivalTimeUs + d && e.payload.op == RootOp(s, r)
  }

  /** When the last synchronous dependency of the request completes. */
  ghost function Due(s: Runner, r: nat, d: int): int
    requires r < |s.requests| && HasRoot(s, r)
  {
    s.requests[r].arrivalTimeUs + d + DependencyWait(s.ops, RootOp(s, r))
  }

  /** The request waits: as many completions as it counts, none late, one of them due last. */
  ghost predicate InDependencies(s: Runner, live: set<Event>, r: nat, d: int)
    requires r < |s.requests| && HasRoot(s, r)
  {
    && Tally(live, LocalOf(r)) == 0
    && Tally(live, DepOf(r)) == s.requests[r].pendingDependencies
    && s.requests[r].pendingDependencies >= 1
    && (forall e :: e in live && e.payload in DepOf(r) ==> e.timeUs <= Due(s, r, d))
    && (exists e :: e in live && e.payload in DepOf(r) && e.timeUs == Due(s, r, d))
  }

  ghost predicate RequestOk(s: Runner, live: set<Event>, clock: int, r: nat, d: int)
    requires r < |s.requests|
  {
    && HasRoot(s, r) && s.requests[r].arrivalTimeUs <= clock
    && PossibleDuration(s, RootOp(s, r), d)
    && match s.requests[r].status
       case RUNNING => InLocal(s, live, r, d) || InDependencies(s, live, r, d)
       case SUCCESS => Tally(live, LocalOf(r)) == 0 && Tally(live, DepOf(r)) == 0
       case FAILED =>
         Tally(live, LocalOf(r)) == 0 && Tally(live, DepOf(r)) < s.requests[r].pendingDependencies
  }

  // ---------- nodes, events, totals ----------

  ghost predicate NodeOk(s: Runner, live: set<Event>, n: Text)
    requires n in s.nodes
  {
    && s.nodes[n].threadpool.Valid() && s.nodes[n].connPool.Valid()
    && s.nodes[n].threadpool.Held() == |RunningOn(s, n)|
    && s.nodes[n].cpu.active == Tally(live, LocalAt(n))
    && s.nodes[n].connPool.Held() == Tally(live, DepAt(n))
  }

  /** Every live event has the type of its payload and speaks of things that exist. */
  ghost predicate EventOk(s: Runner, e: Event) {
    && e.eventType == TypeOf(e.payload)
    && match e.payload
       case Arrival(_, _) => true
       case LocalOpComplete(r, op) => r < |s.requests| && op.nodeId in s.nodes
       case DepComplete(r, n) => r < |s.requests| && n in s.nodes
       case AsyncInvoke(_) => true
  }

  function Count(log: seq<Finish>, status: Status): nat {
    if log == [] then 0 else One(log[|log| - 1].status == status) + Count(log[..|log| - 1], status)
  }

  /**
   finishRequest was called exactly once for every request that is no longer running, and the
   latency of a success is its local duration plus the wait for its slowest dependency.
  */
  ghost predicate LogOk(s: Runner, ds: seq<int>)
    requires |ds| == |s.requests|
  {
    && (forall i :: 0 <= i < |s.finished| ==> EntryOk(s, ds, s.finished[i]))
    && (forall i, j :: 0 <= i < j < |s.finished| ==> s.finished[i].request != s.finished[j].request)
    && (forall r :: 0 <= r < |s.requests| && s.requests[r].status != RUNNING ==>
          exists i :: 0 <= i < |s.finished| && s.finished[i].request == r)
  }

  ghost predicate EntryOk(s: Runner, ds: seq<int>, f: Finish)
    requires |ds| == |s.requests|
  {
    && f.request < |s.requests| && HasRoot(s, f.request)
    && f.status == s.requests[f.request].status != RUNNING
    && (f.status == SUCCESS ==>
          var whole := ds[f.request] + DependencyWait(s.ops, RootOp(s, f.request));
          f.latencyUs == if whole > 1 then whole else 1)
  }

  /** A failure is a request that finished FAILED, or an arrival that never became a request. */
  ghost predicate TotalsOk(s: Runner) {
    && s.totalArrivals == s.successes + s.failures + |Running(s)|
    && s.successes == Count(s.finished, SUCCESS)
    && s.failures == Count(s.finished, FAILED) + (s.totalArrivals - |s.requests|)
  }

  /** `ds` holds the local duration of each request. */
  ghost predicate Invariant(s: Runner, live: set<Event>, clock: int, ds: seq<int>) {
    && |ds| == |s.requests|
    && NonNegative(s.ops)
    && (forall r :: 0 <= r < |s.requests| ==> RequestOk(s, live, clock, r, ds[r]))
    && (forall n :: n in s.nodes ==> NodeOk(s, live, n))
    && (forall e :: e in live ==> EventOk(s, e))
    && LogOk(s, ds)
    && TotalsOk(s)
  }

  // ---------- frames ----------

  /** Operations, nodes and their limits stay as configured. */
  ghost predicate SameConfig(s: Runner, t: Runner) {
    && t.ops == s.ops && t.nodes.Keys == s.nodes.Keys
    && forall n :: n in s.nodes ==>
         && t.nodes[n].cpu.cores == s.nodes[n].cpu.cores
         && t.nodes[n].threadpool.workerCount == s.nodes[n].threadpool.workerCount
         && t.nodes[n].threadpool.queueCapacity == s.nodes[n].threadpool.queueCapacity
  }

  lemma {:induction false} NoneAsked(rs: seq<Ask>, p: iset<Payload>)
    requires AllForward(rs) && forall a :: a in rs ==> a.payload !in p
    ensures Asked(rs, p) == 0
  {
    if rs != [] {
      assert rs[0] in rs;
      NoneAsked(rs[1..], p);
    }
  }

  /** A request that neither the event nor what it asks for mentions keeps its standing. */
  lemma {:induction false} OtherRequest(
    s: Runner, t: Runner, live: set<Event>, live': set<Event>, e: Event, rs: seq<Ask>,
    clock: int, now: int, q: nat, d: int)
    requires q < |s.requests| <= |t.requests| && t.requests[q] == s.requests[q] && SameConfig(s, t)
    requires RequestOk(s, live, clock, q, d) && Stepped(live, e, live', rs, now) && now >= clock
    requires e.payload !in LocalOf(q) && e.payload !in DepOf(q)
    requires forall a :: a in rs ==> a.payload !in LocalOf(q) && a.payload !in DepOf(q)
    ensures RequestOk(t, live', now, q, d)
  {
    NoneAsked(rs, LocalOf(q));
    NoneAsked(rs, DepOf(q));
    assert Tally(live', LocalOf(q)) == Tally(live, LocalOf(q));
    assert Tally(live', DepOf(q)) == Tally(live, DepOf(q));
    assert RootOp(t, q) == RootOp(s, q);
    if InDependencies(s, live, q, d) {
      var x :| x in live && x.payload in DepOf(q) && x.timeUs == Due(s, q, d);
      assert x in live';
    }
  }
}
