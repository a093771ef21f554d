/**
 Runs of a deterministic machine given by its step function: n steps, the observations they
 make, and a loop that checks before every step whether to go on.
 */
module Runs {
  import opened Common

  /** One step: the next state, what was observed, and whether the machine can go on. */
  datatype Stepped<S, O, F> = Stepped(next: S, observed: Option<O>, failure: Option<F>) {
    predicate GoesOn() {
      observed.Some? && failure.None?
    }
  }

  type StepOf<!S, O, F> = S -> Stepped<S, O, F>

  ghost function Run<S, O, F>(step: StepOf<S, O, F>, s: S, n: nat): S
    decreases n
  {
    if n == 0 then s
    else if step(s).GoesOn() then Run(step, step(s).next, n - 1)
    else step(s).next
  }

  ghost function Trace<S, O, F>(step: StepOf<S, O, F>, s: S, n: nat): seq<O>
    decreases n
  {
    if n == 0 || step(s).observed.None? then []
    else [step(s).observed.value] + if step(s).GoesOn() then Trace(step, step(s).next, n - 1) else []
  }

  ghost predicate Kept<S(!new), O, F>(step: StepOf<S, O, F>, inv: S -> bool) {
    forall x {:trigger step(x)} :: inv(x) ==> inv(step(x).next)
  }

  /** A fact that every step keeps holds after any number of steps. */
  lemma {:induction false} RunKeeps<S(!new), O, F>(step: StepOf<S, O, F>, inv: S -> bool, s: S, n: nat)
    requires Kept(step, inv)
    requires inv(s)
    ensures inv(Run(step, s, n))
    decreases n
  {
    if n > 0 && step(s).GoesOn() {
      RunKeeps(step, inv, step(s).next, n - 1);
    }
  }

  // ---------- accumulating observations ----------

  ghost function Fold<O, A>(add: (A, O) -> A, a: A, trace: seq<O>): A
    decreases |trace|
  {
    if trace == [] then a else Fold(add, add(a, trace[0]), trace[1..])
  }

  /** A part of the state that every step extends by its observation is the fold of the trace. */
  lemma {:induction false} RunFolds<S(!new), O, F, A>(
    step: StepOf<S, O, F>, inv: S -> bool, part: S -> A, add: (A, O) -> A, s: S, n: nat)
    requires Kept(step, inv) && inv(s)
    requires forall x {:trigger step(x)} :: inv(x) ==>
               part(step(x).next) ==
               if step(x).observed.None? then part(x) else add(part(x), step(x).observed.value)
    ensures part(Run(step, s, n)) == Fold(add, part(s), Trace(step, s, n))
    decreases n
  {
    if n > 0 && step(s).GoesOn() {
      RunFolds(step, inv, part, add, step(s).next, n - 1);
    }
  }

  // ---------- what the steps of a run start ----------

  /** What `log` reads off each state before a step is taken from it, over `n` steps. */
  ghost function RunLog<S, O, F, L>(step: StepOf<S, O, F>, log: S -> seq<L>, s: S, n: nat): seq<L>
    decreases n
  {
    if n == 0 then []
    else log(s) + if step(s).GoesOn() then RunLog(step, log, step(s).next, n - 1) else []
  }

  /** A fact about a state and the log so far that every step keeps. */
  lemma {:induction false} RunLogs<S(!new), O, F, L(!new)>(
    step: StepOf<S, O, F>, log: S -> seq<L>, inv: (S, seq<L>) -> bool, s: S, l: seq<L>, n: nat)
    requires forall x, a {:trigger step(x), inv(x, a)} :: inv(x, a) ==> inv(step(x).next, a + log(x))
    requires inv(s, l)
    ensures inv(Run(step, s, n), l + RunLog(step, log, s, n))
    decreases n
  {
    if n == 0 {
      assert l + [] == l;
    } else if step(s).GoesOn() {
      assert inv(step(s).next, l + log(s));
      RunLogs(step, log, inv, step(s).next, l + log(s), n - 1);
      var rest := RunLog(step, log, step(s).next, n - 1);
      assert (l + log(s)) + rest == l + (log(s) + rest);
    } else {
      assert log(s) + [] == log(s);
      assert inv(step(s).next, l + log(s));
    }
  }

  /** Where steps log at most one thing each, every entry of the log has its step. */
  lemma {:induction false} RunLogOrigin<S(!new), O, F, L>(
    step: StepOf<S, O, F>, log: S -> seq<L>, s: S, n: nat, i: nat) returns (k: nat)
    requires forall x {:trigger log(x)} :: |log(x)| <= 1
    requires i < |RunLog(step, log, s, n)|
    ensures k < n && log(Run(step, s, k)) == [RunLog(step, log, s, n)[i]]
    ensures |RunLog(step, log, s, k)| == i && |RunLog(step, log, s, k + 1)| == i + 1
    decreases n
  {
    if i == 0 && log(s) != [] {
      k := 0;
      assert RunLog(step, log, step(s).next, 0) == [];
    } else {
      var j := RunLogOrigin(step, log, step(s).next, n - 1, i - |log(s)|);
      k := j + 1;
    }
  }

  lemma {:induction false} RunLogGrows<S(!new), O, F, L>(step: StepOf<S, O, F>, log: S -> seq<L>, s: S, j: nat, n: nat)
    requires j <= n
    ensures |RunLog(step, log, s, j)| <= |RunLog(step, log, s, n)|
    decreases n
  {
    if j > 0 && step(s).GoesOn() {
      RunLogGrows(step, log, step(s).next, j - 1, n - 1);
    }
  }

  /** Step `k`, and no other, takes the count from `i` to `i + 1`. */
  ghost predicate Counts<S(!new), O, F>(step: StepOf<S, O, F>, count: S -> nat, s: S, k: nat, i: nat) {
    && count(Run(step, s, k)) == i && count(Run(step, s, k + 1)) == i + 1
    && forall j: nat {:trigger Run(step, s, j + 1)} ::
         count(Run(step, s, j)) == i && count(Run(step, s, j + 1)) == i + 1 ==> j == k
  }

  /** If the state counts what has been logged, the step of each entry is the one at which the count passes it. */
  lemma {:induction false} RunLogCounts<S(!new), O, F, L>(
    step: StepOf<S, O, F>, log: S -> seq<L>, count: S -> nat, s: S, n: nat, i: nat) returns (k: nat)
    requires forall x {:trigger log(x)} :: |log(x)| <= 1
    requires forall j: nat {:trigger Run(step, s, j)} :: count(Run(step, s, j)) == |RunLog(step, log, s, j)|
    requires i < |RunLog(step, log, s, n)|
    ensures k < n && log(Run(step, s, k)) == [RunLog(step, log, s, n)[i]] && Counts(step, count, s, k, i)
  {
    k := RunLogOrigin(step, log, s, n, i);
    forall j: nat | count(Run(step, s, j)) == i && count(Run(step, s, j + 1)) == i + 1 ensures j == k {
      if j < k {
        RunLogGrows(step, log, s, j + 1, k);
      } else if j > k {
        RunLogGrows(step, log, s, k + 1, j);
      }
    }
  }

  // ---------- bisimulation ----------

  /** Related states make the same observation, fail alike, and step to related states. */
  ghost predicate Bisimulation<S(!new), O, F>(step: StepOf<S, O, F>, related: (S, S) -> bool) {
    forall a, b {:trigger step(a), step(b)} :: related(a, b) ==>
      && related(step(a).next, step(b).next)
      && step(a).observed == step(b).observed
      && step(a).failure == step(b).failure
  }

  lemma {:induction false} RelatedRuns<S(!new), O, F>(
    step: StepOf<S, O, F>, related: (S, S) -> bool, a: S, b: S, n: nat)
    requires Bisimulation(step, related) && related(a, b)
    ensures related(Run(step, a, n), Run(step, b, n))
    ensures Trace(step, a, n) == Trace(step, b, n)
    decreases n
  {
    if n > 0 && step(a).GoesOn() {
      RelatedRuns(step, related, step(a).next, step(b).next, n - 1);
    }
  }

  // ---------- a checked loop ----------

  /** What is looked at before a step: the state it leaves, and a reason to stop if any. */
  type CheckOf<!S, R> = S -> (S, Option<R>)

  datatype Stop<R, F> = Checked(reason: R) | Failed(error: F) | OutOfFuel

  datatype Ended<S, R, F> = Ended(state: S, stop: Stop<R, F>, steps: nat)

  /** The loop, cut off after `fuel` steps. A machine that cannot go on counts as failed. */
  ghost function Loop<S, O, F(00), R>(step: StepOf<S, O, F>, check: CheckOf<S, R>, s: S, fuel: nat): Ended<S, R, F>
    decreases fuel
  {
    var (looked, reason) := check(s);
    if reason.Some? then Ended(looked, Checked(reason.value), 0)
    else if fuel == 0 then Ended(looked, OutOfFuel, 0)
    else if step(looked).failure.Some? then Ended(step(looked).next, Failed(step(looked).failure.value), 1)
    else
      var r := Loop(step, check, step(looked).next, fuel - 1);
      r.(steps := r.steps + 1)
  }

  /** One round of the loop from `s`, with `fuel` steps left, does this. */
  ghost predicate IsRound<S, O, F(00), R>(
    step: StepOf<S, O, F>, check: CheckOf<S, R>, s: S, fuel: nat, stop: Option<Stop<R, F>>, next: S, left: nat)
  {
    var (looked, reason) := check(s);
    if reason.Some? then stop == Some(Checked(reason.value)) && next == looked && left == fuel
    else if fuel == 0 then stop == Some(OutOfFuel) && next == looked && left == fuel
    else
      && left == fuel - 1 && next == step(looked).next
      && stop == if step(looked).failure.Some? then Some(Failed(step(looked).failure.value)) else None
  }

  /** From `s`, with `fuel` of `total` steps left, the loop ends in `whole`. */
  ghost predicate LeadsTo<S, O, F(00), R>(
    step: StepOf<S, O, F>, check: CheckOf<S, R>, s: S, fuel: nat, total: nat, whole: Ended<S, R, F>)
  {
    var rest := Loop(step, check, s, fuel);
    whole.state == rest.state && whole.stop == rest.stop && whole.steps == rest.steps + (total - fuel)
  }

  lemma {:induction false} RoundLeads<S, O, F(00), R>(
    step: StepOf<S, O, F>, check: CheckOf<S, R>, s: S, fuel: nat,
    stop: Option<Stop<R, F>>, next: S, left: nat, total: nat, whole: Ended<S, R, F>)
    requires fuel <= total
    requires IsRound(step, check, s, fuel, stop, next, left) && LeadsTo(step, check, s, fuel, total, whole)
    ensures left <= fuel && (stop.None? ==> left < fuel)
    ensures stop.Some? ==> whole == Ended(next, stop.value, total - left)
    ensures stop.None? ==> LeadsTo(step, check, next, left, total, whole)
  {
  }

  /** While the loop that ends with an answer goes on, steps are left. */
  lemma {:induction false} RoundRemains<S, O, F(00), R>(
    step: StepOf<S, O, F>, check: CheckOf<S, R>, s: S, fuel: nat, total: nat, whole: Ended<S, R, F>)
    requires LeadsTo(step, check, s, fuel, total, whole) && whole.stop.Checked? && check(s).1.None?
    ensures fuel > 0
  {
  }

  /** Looking changes nothing that a step could notice. */
  ghost predicate Harmless<S(!new), O, F, R>(step: StepOf<S, O, F>, check: CheckOf<S, R>, s: S) {
    check(s).1.None? ==> step(check(s).0) == step(s) && step(s).observed.Some?
  }

  /** The loop is a plain run that stops for the reason it gives. */
  lemma {:induction false} LoopIsRun<S(!new), O, F(00), R>(
    step: StepOf<S, O, F>, check: CheckOf<S, R>, inv: S -> bool, s: S, fuel: nat)
    requires Kept(step, inv) && forall x :: inv(x) ==> Harmless(step, check, x)
    requires inv(s)
    ensures var r := Loop(step, check, s, fuel);
            var plain := Run(step, s, r.steps);
            && r.steps <= fuel
            && (r.stop.Checked? ==> check(plain) == (r.state, Some(r.stop.reason)))
            && (r.stop.Failed? ==> r.state == plain)
            && (r.stop.OutOfFuel? ==> r.steps == fuel && check(plain) == (r.state, None))
    decreases fuel
  {
    var (looked, reason) := check(s);
    assert Harmless(step, check, s);
    if reason.None? && fuel > 0 && step(s).failure.None? {
      LoopIsRun(step, check, inv, step(s).next, fuel - 1);
    }
  }

  /** Whatever every permitted step observes is all that the loop observes. */
  lemma {:induction false} LoopObserves<S(!new), O, F(00), R>(
    step: StepOf<S, O, F>, check: CheckOf<S, R>, inv: S -> bool, permitted: O -> bool, s: S, fuel: nat)
    requires Kept(step, inv) && forall x :: inv(x) ==> Harmless(step, check, x)
    requires forall x {:trigger step(x)} :: inv(x) && check(x).1.None? && step(x).observed.Some? ==>
               permitted(step(x).observed.value)
    requires inv(s)
    ensures forall o :: o in Trace(step, s, Loop(step, check, s, fuel).steps) ==> permitted(o)
    decreases fuel
  {
    var (looked, reason) := check(s);
    assert Harmless(step, check, s);
    if reason.None? && fuel > 0 && step(s).failure.None? {
      LoopObserves(step, check, inv, permitted, step(s).next, fuel - 1);
    }
  }

  /** Enough fuel: some measure falls with every permitted step. */
  lemma {:induction false} LoopEnds<S(!new), O, F(00), R>(
    step: StepOf<S, O, F>, check: CheckOf<S, R>, inv: S -> bool, measure: S -> nat, s: S, fuel: nat)
    requires Kept(step, inv) && forall x :: inv(x) ==> Harmless(step, check, x)
    requires forall x {:trigger step(x)} :: inv(x) && check(x).1.None? && step(x).failure.None? ==>
               measure(step(x).next) < measure(x)
    requires inv(s) && fuel > measure(s)
    ensures !Loop(step, check, s, fuel).stop.OutOfFuel?
    decreases fuel
  {
    var (looked, reason) := check(s);
    assert Harmless(step, check, s);
    if reason.None? {
      assert step(looked) == step(s);
    }
    if reason.None? && step(s).failure.None? {
      LoopEnds(step, check, inv, measure, step(s).next, fuel - 1);
    }
  }

  /** Looks at related states leave related states and agree on whether to go on. */
  ghost predicate LooksAlike<S(!new), R(!new)>(
    check: CheckOf<S, R>, related: (S, S) -> bool, alike: (R, R) -> bool)
  {
    forall a, b {:trigger check(a), check(b)} :: related(a, b) ==>
      && related(check(a).0, check(b).0)
      && (check(a).1.None? <==> check(b).1.None?)
      && (check(a).1.Some? ==> alike(check(a).1.value, check(b).1.value))
  }

  lemma {:induction false} RelatedLoops<S(!new), O, F(00), R(!new)>(
    step: StepOf<S, O, F>, check: CheckOf<S, R>, related: (S, S) -> bool, alike: (R, R) -> bool,
    a: S, b: S, fuel: nat)
    requires Bisimulation(step, related) && LooksAlike(check, related, alike) && related(a, b)
    ensures var r, q := Loop(step, check, a, fuel), Loop(step, check, b, fuel);
            && related(r.state, q.state) && r.steps == q.steps
            && (r.stop == q.stop ||
                (r.stop.Checked? && q.stop.Checked? && alike(r.stop.reason, q.stop.reason)))
    decreases fuel
  {
    var x, y := check(a).0, check(b).0;
    if check(a).1.None? && fuel > 0 && step(x).failure.None? {
      assert step(y).failure.None?;
      RelatedLoops(step, check, related, alike, step(x).next, step(y).next, fuel - 1);
    }
  }

  /** A loop that never fails, whose measure falls, stops for one of the reasons its states allow. */
  lemma {:induction false} LoopSettles<S(!new), O, F(00), R>(
    step: StepOf<S, O, F>, check: CheckOf<S, R>, inv: S -> bool, wanted: R -> bool, measure: S -> nat,
    s: S, fuel: nat)
    requires forall x {:trigger check(x)} :: inv(x) ==>
               match check(x).1
               case Some(reason) => wanted(reason)
               case None =>
                 var next := step(check(x).0);
                 next.failure.None? && inv(next.next) && measure(next.next) < measure(x)
    requires inv(s) && fuel >= measure(s)
    ensures var r := Loop(step, check, s, fuel); r.stop.Checked? && wanted(r.stop.reason) && r.steps <= measure(s)
    decreases fuel
  {
    if check(s).1.None? {
      assert measure(step(check(s).0).next) < measure(s);
      LoopSettles(step, check, inv, wanted, measure, step(check(s).0).next, fuel - 1);
    }
  }
}
