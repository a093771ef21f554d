/**
 The three resources of a simulated node: CPU, thread pool and connection pool.

 Each class is proved against a value of the same name with `State`: its counters, and what
 every call does to them. The lemmas say what the counters mean: a call that grants something
 adds one to what is held, a release gives back exactly one, and the limits are never passed.
 */
module Resources {

  // ---------- connection pool ----------

  datatype ConnectionGrant = ACQUIRED | WAITING | EXHAUSTED

  datatype ConnectionPoolState = ConnectionPoolState(
    maxConnections: int, maxWaiters: int,
    active: nat, waiting: nat, acquired: nat, exhausted: nat)
  {
    predicate Valid() {
      maxConnections > 0 && maxWaiters >= 0 && active <= maxConnections && waiting <= maxWaiters
      && (waiting > 0 ==> active == maxConnections)
    }

    /** Connections and waiters together: everything a caller still has to release. */
    function Held(): nat { active + waiting }

    function TryAcquire(): (ConnectionPoolState, ConnectionGrant) {
      if active < maxConnections then (this.(active := active + 1, acquired := acquired + 1), ACQUIRED)
      else if waiting < maxWaiters then (this.(waiting := waiting + 1), WAITING)
      else (this.(exhausted := exhausted + 1), EXHAUSTED)
    }

    /** A waiter is promoted before a connection is given back. */
    function Release(): (ConnectionPoolState, bool) {
      if waiting > 0 then (this.(waiting := waiting - 1, acquired := acquired + 1), true)
      else if active > 0 then (this.(active := active - 1), false)
      else (this, false)
    }
  }

  lemma {:induction false} ConnectionPoolConserves(p: ConnectionPoolState)
    requires p.Valid()
    ensures var (q, grant) := p.TryAcquire();
            && q.Valid() && q.maxConnections == p.maxConnections && q.maxWaiters == p.maxWaiters
            && q.Held() == p.Held() + (if grant == EXHAUSTED then 0 else 1)
            && (grant == EXHAUSTED <==> p.Held() == p.maxConnections + p.maxWaiters)
    ensures var (q, promoted) := p.Release();
            && q.Valid() && q.maxConnections == p.maxConnections && q.maxWaiters == p.maxWaiters
            && q.Held() == (if p.Held() == 0 then 0 else p.Held() - 1)
            && (promoted <==> p.Held() > p.maxConnections)
  {
  }

  class ConnectionPoolResource {
    const maxConnections: int
    const maxWaiters: int
    var activeConnections: nat
    var waitingWaiters: nat
    var totalAcquisitions: nat
    var totalExhausted: nat

    function State(): ConnectionPoolState
      reads this
    {
      ConnectionPoolState(maxConnections, maxWaiters,
                          activeConnections, waitingWaiters, totalAcquisitions, totalExhausted)
    }

    /** The constructor throws unless maxConnections is positive. */
    constructor (maxConnections: int, maxWaiters: int := 100)
      requires maxConnections > 0
      ensures State() == ConnectionPoolState(maxConnections, maxWaiters, 0, 0, 0, 0)
    {
      this.maxConnections := maxConnections;
      this.maxWaiters := maxWaiters;
      activeConnections, waitingWaiters, totalAcquisitions, totalExhausted := 0, 0, 0, 0;
    }

    method TryAcquire() returns (grant: ConnectionGrant)
      modifies this
      ensures (State(), grant) == old(State()).TryAcquire()
      ensures grant == ACQUIRED <==> old(activeConnections) < maxConnections
      ensures grant == WAITING <==> old(activeConnections) >= maxConnections && old(waitingWaiters) < maxWaiters
      ensures activeConnections == old(activeConnections) + (if grant == ACQUIRED then 1 else 0)
      ensures waitingWaiters == old(waitingWaiters) + (if grant == WAITING then 1 else 0)
      ensures totalAcquisitions == old(totalAcquisitions) + (if grant == ACQUIRED then 1 else 0)
      ensures totalExhausted == old(totalExhausted) + (if grant == EXHAUSTED then 1 else 0)
    {
      if activeConnections < maxConnections {
        activeConnections := activeConnections + 1;
        totalAcquisitions := totalAcquisitions + 1;
        return ACQUIRED;
      }
      if waitingWaiters < maxWaiters {
        waitingWaiters := waitingWaiters + 1;
        return WAITING;
      }
      totalExhausted := totalExhausted + 1;
      return EXHAUSTED;
    }

    method Release() returns (unblockedWaiter: bool)
      modifies this
      ensures (State(), unblockedWaiter) == old(State()).Release()
      ensures unblockedWaiter <==> old(waitingWaiters) > 0
      ensures waitingWaiters == old(waitingWaiters) - (if unblockedWaiter then 1 else 0)
      ensures totalAcquisitions == old(totalAcquisitions) + (if unblockedWaiter then 1 else 0)
      ensures activeConnections ==
              old(activeConnections) - (if !unblockedWaiter && old(activeConnections) > 0 then 1 else 0)
      ensures totalExhausted == old(totalExhausted)
    {
      if waitingWaiters > 0 {
        waitingWaiters := waitingWaiters - 1;
        totalAcquisitions := totalAcquisitions + 1;
        return true;
      }
      if activeConnections > 0 {
        activeConnections := activeConnections - 1;
      }
      return false;
    }
  }

  // ---------- thread pool ----------

  datatype ThreadGrant = IMMEDIATE | QUEUED | REJECTED

  datatype ThreadPoolState = ThreadPoolState(
    workerCount: int, queueCapacity: int,
    active: nat, queued: nat, executed: nat, rejected: nat)
  {
    predicate Valid() {
      workerCount > 0 && queueCapacity >= 0 && active <= workerCount && queued <= queueCapacity
      && (queued > 0 ==> active == workerCount)
    }

    function Held(): nat { active + queued }

    function TryAcquire(): (ThreadPoolState, ThreadGrant) {
      if active < workerCount then (this.(active := active + 1, executed := executed + 1), IMMEDIATE)
      else if queued < queueCapacity then (this.(queued := queued + 1), QUEUED)
      else (this.(rejected := rejected + 1), REJECTED)
    }

    function Release(): (ThreadPoolState, bool) {
      if queued > 0 then (this.(queued := queued - 1, executed := executed + 1), true)
      else if active > 0 then (this.(active := active - 1), false)
      else (this, false)
    }
  }

  lemma {:induction false} ThreadPoolConserves(p: ThreadPoolState)
    requires p.Valid()
    ensures var (q, grant) := p.TryAcquire();
            && q.Valid() && q.workerCount == p.workerCount && q.queueCapacity == p.queueCapacity
            && q.Held() == p.Held() + (if grant == REJECTED then 0 else 1)
            && (grant == REJECTED <==> p.Held() == p.workerCount + p.queueCapacity)
    ensures var (q, promoted) := p.Release();
            && q.Valid() && q.workerCount == p.workerCount && q.queueCapacity == p.queueCapacity
            && q.Held() == (if p.Held() == 0 then 0 else p.Held() - 1)
            && (promoted <==> p.Held() > p.workerCount)
  {
  }

  class ThreadPoolResource {
    const workerCount: int
    const queueCapacity: int
    var activeWorkers: nat
    var queuedTasks: nat
    var totalExecuted: nat
    var totalRejected: nat

    function State(): ThreadPoolState
      reads this
    {
      ThreadPoolState(workerCount, queueCapacity, activeWorkers, queuedTasks, totalExecuted, totalRejected)
    }

    /** The constructor throws unless workerCount is positive and queueCapacity not negative. */
    constructor (workerCount: int, queueCapacity: int)
      requires workerCount > 0 && queueCapacity >= 0
      ensures State() == ThreadPoolState(workerCount, queueCapacity, 0, 0, 0, 0)
    {
      this.workerCount := workerCount;
      this.queueCapacity := queueCapacity;
      activeWorkers, queuedTasks, totalExecuted, totalRejected := 0, 0, 0, 0;
    }

    method TryAcquire() returns (grant: ThreadGrant)
      modifies this
      ensures (State(), grant) == old(State()).TryAcquire()
      ensures grant == IMMEDIATE <==> old(activeWorkers) < workerCount
      ensures grant == QUEUED <==> old(activeWorkers) >= workerCount && old(queuedTasks) < queueCapacity
      ensures activeWorkers == old(activeWorkers) + (if grant == IMMEDIATE then 1 else 0)
      ensures queuedTasks == old(queuedTasks) + (if grant == QUEUED then 1 else 0)
      ensures totalExecuted == old(totalExecuted) + (if grant == IMMEDIATE then 1 else 0)
      ensures totalRejected == old(totalRejected) + (if grant == REJECTED then 1 else 0)
    {
      if activeWorkers < workerCount {
        activeWorkers := activeWorkers + 1;
        totalExecuted := totalExecuted + 1;
        return IMMEDIATE;
      }
      if queuedTasks < queueCapacity {
        queuedTasks := queuedTasks + 1;
        return QUEUED;
      }
      totalRejected := totalRejected + 1;
      return REJECTED;
    }

    method Release() returns (promotedFromQueue: bool)
      modifies this
      ensures (State(), promotedFromQueue) == old(State()).Release()
      ensures promotedFromQueue <==> old(queuedTasks) > 0
      ensures queuedTasks == old(queuedTasks) - (if promotedFromQueue then 1 else 0)
      ensures totalExecuted == old(totalExecuted) + (if promotedFromQueue then 1 else 0)
      ensures activeWorkers == old(activeWorkers) - (if !promotedFromQueue && old(activeWorkers) > 0 then 1 else 0)
      ensures totalRejected == old(totalRejected)
    {
      if queuedTasks > 0 {
        queuedTasks := queuedTasks - 1;
        totalExecuted := totalExecuted + 1;
        return true;
      }
      if activeWorkers > 0 {
        activeWorkers := activeWorkers - 1;
      }
      return false;
    }
  }

  // ---------- CPU ----------

  /** Math.round of a quotient: to the nearest integer, halves upwards. */
  function RoundDiv(a: int, b: int): int
    requires b > 0
  {
    (2 * a + b) / (2 * b)
  }

  /** The number of cores; the constructor throws unless it is positive. */
  type Cores = c: int | c > 0 witness 1

  datatype CpuState = CpuState(cores: Cores, active: nat, peak: nat) {
    function Acquire(): CpuState {
      this.(active := active + 1, peak := if active + 1 > peak then active + 1 else peak)
    }

    function Release(): CpuState {
      if active > 0 then this.(active := active - 1) else this
    }

    /** Processor sharing: more tasks than cores stretch the duration. */
    function Duration(baseUs: int): int {
      var concurrency := if active > 1 then active else 1;
      if concurrency > cores then RoundDiv(baseUs * concurrency, cores) else baseUs
    }
  }

  lemma {:induction false} MultipleAtLeast(d: int, p: int)
    requires d > 0
    ensures p >= 1 ==> d * p >= d
  {
  }

  lemma {:induction false} QuotientUnique(x: int, d: int, q: int, r: int)
    requires d > 0 && x == d * q + r && 0 <= r < d
    ensures x / d == q
  {
    var p := x / d - q;
    assert x == d * (x / d) + x % d;
    assert d * p == r - x % d;
    MultipleAtLeast(d, p);
    MultipleAtLeast(d, -p);
    assert d * p == -(d * -p);
  }

  lemma {:induction false} RoundDivMonotone(a: int, c: int, b: int)
    requires b > 0 && a <= c
    ensures RoundDiv(a, b) <= RoundDiv(c, b)
  {
    var x, y, d := 2 * a + b, 2 * c + b, 2 * b;
    var p := x / d - y / d;
    assert x == d * (x / d) + x % d && y == d * (y / d) + y % d;
    assert d * p == (x - x % d) - (y - y % d);
    MultipleAtLeast(d, p);
  }

  lemma {:induction false} RoundDivExact(a: int, b: int)
    requires b > 0
    ensures RoundDiv(a * b, b) == a
  {
    assert 2 * (a * b) + b == (2 * b) * a + b;
    QuotientUnique(2 * (a * b) + b, 2 * b, a, b);
  }

  /** The longest a task can take when at most `tasks` of them run at once. */
  function WorstDuration(cores: Cores, baseUs: int, tasks: int): int {
    if tasks > cores then RoundDiv(baseUs * tasks, cores) else baseUs
  }

  lemma {:induction false} WorstDurationMeans(cores: Cores, baseUs: int, tasks: int)
    ensures tasks <= cores ==> WorstDuration(cores, baseUs, tasks) == baseUs
    ensures tasks > cores ==>
              0 < 2 * cores * WorstDuration(cores, baseUs, tasks) - 2 * (baseUs * tasks) + cores <= 2 * cores
  {
    RoundDivMeans(baseUs * tasks, cores);
  }

  lemma {:induction false} ProductGrows(a: int, b: int, c: int)
    requires 0 <= a && b <= c
    ensures a * b <= a * c
  {
  }

  /** Sharing never shortens a task, and stretches it by no more than the worst concurrency. */
  lemma {:induction false} DurationBounds(cpu: CpuState, baseUs: int, tasks: int)
    requires baseUs >= 0 && cpu.active <= tasks
    ensures baseUs <= cpu.Duration(baseUs) <= WorstDuration(cpu.cores, baseUs, tasks)
  {
    var concurrency := if cpu.active > 1 then cpu.active else 1;
    RoundDivExact(baseUs, cpu.cores);
    if concurrency > cpu.cores {
      assert concurrency <= tasks;
      ProductGrows(baseUs, cpu.cores, concurrency);
      ProductGrows(baseUs, concurrency, tasks);
      RoundDivMonotone(baseUs * cpu.cores, baseUs * concurrency, cpu.cores);
      RoundDivMonotone(baseUs * concurrency, baseUs * tasks, cpu.cores);
    } else if tasks > cpu.cores {
      ProductGrows(baseUs, cpu.cores, tasks);
      RoundDivMonotone(baseUs * cpu.cores, baseUs * tasks, cpu.cores);
    }
  }

  /** Rounding to the nearest, halves up. */
  lemma {:induction false} RoundDivMeans(a: int, b: int)
    requires b > 0
    ensures 0 < 2 * b * RoundDiv(a, b) - 2 * a + b <= 2 * b
  {
    var x, d := 2 * a + b, 2 * b;
    assert x == d * (x / d) + x % d;
  }

  /** Up to as many tasks as cores nothing is stretched; beyond, base * tasks / cores is rounded, halves up. */
  lemma {:induction false} DurationMeans(cpu: CpuState, baseUs: int)
    ensures cpu.active <= cpu.cores ==> cpu.Duration(baseUs) == baseUs
    ensures cpu.active > cpu.cores ==>
              0 < 2 * cpu.cores * cpu.Duration(baseUs) - 2 * (baseUs * cpu.active) + cpu.cores <= 2 * cpu.cores
  {
    RoundDivMeans(baseUs * cpu.active, cpu.cores);
  }

  /** A duration that sharing among so many tasks can produce. */
  predicate Shared(cores: Cores, baseUs: int, tasks: int, durationUs: int) {
    baseUs <= durationUs && durationUs <= WorstDuration(cores, baseUs, tasks)
  }

  lemma {:induction false} DurationShared(cpu: CpuState, baseUs: int)
    ensures forall tasks: int :: baseUs >= 0 && cpu.active <= tasks ==>
              Shared(cpu.cores, baseUs, tasks, cpu.Duration(baseUs))
  {
    forall tasks: int | baseUs >= 0 && cpu.active <= tasks
      ensures Shared(cpu.cores, baseUs, tasks, cpu.Duration(baseUs))
    {
      DurationBounds(cpu, baseUs, tasks);
    }
  }

  class CpuResource {
    const cores: Cores
    var activeTasks: nat
    var peakConcurrent: nat

    function State(): CpuState
      reads this
    {
      CpuState(cores, activeTasks, peakConcurrent)
    }

    constructor (cores: Cores)
      ensures State() == CpuState(cores, 0, 0)
    {
      this.cores := cores;
      activeTasks, peakConcurrent := 0, 0;
    }

    method Acquire()
      modifies this
      ensures State() == old(State()).Acquire()
      ensures activeTasks == old(activeTasks) + 1
      ensures peakConcurrent == if old(peakConcurrent) > activeTasks then old(peakConcurrent) else activeTasks
    {
      activeTasks := activeTasks + 1;
      if activeTasks > peakConcurrent {
        peakConcurrent := activeTasks;
      }
    }

    /**
     The base time while there is a core for every task, and base * tasks / cores rounded when
     there is not; never longer than with any number of tasks that bounds those active.
    */
    function CalculateExecutionDurationUs(baseDurationUs: int): (durationUs: int)
      reads this
      ensures forall tasks: int :: baseDurationUs >= 0 && activeTasks <= tasks ==>
                Shared(cores, baseDurationUs, tasks, durationUs)
      ensures activeTasks <= cores ==> durationUs == baseDurationUs
      ensures activeTasks > cores ==>
                0 < 2 * cores * durationUs - 2 * (baseDurationUs * activeTasks) + cores <= 2 * cores
    {
      DurationMeans(State(), baseDurationUs);
      DurationShared(State(), baseDurationUs);
      State().Duration(baseDurationUs)
    }

    method Release()
      modifies this
      ensures State() == old(State()).Release()
      ensures activeTasks == (if old(activeTasks) > 0 then old(activeTasks) - 1 else 0)
      ensures peakConcurrent == old(peakConcurrent)
    {
      if activeTasks > 0 {
        activeTasks := activeTasks - 1;
      }
    }
  }
}
