/**
 runBisectionSearch: probe for irregularities, then either sweep upwards or bisect.

 The evaluator is a function of the rate. Of any evaluator the search returns a rate that passes,
 or minRps; of one that never improves under load it returns the largest passing rate up to a
 known error.
 */
module Bisection {

  datatype Evaluation = Evaluation(p99Us: real, errorRate: real)

  type Evaluator = int -> Evaluation

  datatype SloConstraint = SloConstraint(maxP99Us: real, maxErrorRate: real)

  datatype Step = Step(stepIndex: nat, candidateRps: int, p99Us: real, errorRate: real, satisfiesSlo: bool)

  datatype SearchStrategy = BISECTION | ADAPTIVE_SWEEP

  datatype SearchResult = SearchResult(
    maxSustainableRps: int, steps: seq<Step>, nonMonotonicDetected: bool, strategy: SearchStrategy)

  predicate Passes(evaluator: Evaluator, slo: SloConstraint, rps: int) {
    evaluator(rps).p99Us <= slo.maxP99Us && evaluator(rps).errorRate <= slo.maxErrorRate
  }

  /** Neither latency nor errors fall as the load rises. */
  ghost predicate Monotone(evaluator: Evaluator) {
    forall a, b :: a <= b ==>
      evaluator(a).p99Us <= evaluator(b).p99Us && evaluator(a).errorRate <= evaluator(b).errorRate
  }

  /** Math.round: to the nearest integer, halves upwards. */
  function Round(x: real): int {
    (x + 0.5).Floor
  }

  function MaxOf(a: int, b: int): int {
    if a >= b then a else b
  }

  function Pow2(k: nat): (p: nat)
    ensures p >= 1
  {
    if k == 0 then 1 else 2 * Pow2(k - 1)
  }

  function CeilDiv(a: int, b: int): int
    requires b > 0
  {
    (a + b - 1) / b
  }

  /** The step recorded for one evaluation. */
  function Recorded(evaluator: Evaluator, slo: SloConstraint, index: nat, rps: int): Step {
    Step(index, rps, evaluator(rps).p99Us, evaluator(rps).errorRate, Passes(evaluator, slo, rps))
  }

  /** Steps are numbered from one and tell what the evaluator said. */
  ghost predicate Faithful(evaluator: Evaluator, slo: SloConstraint, steps: seq<Step>) {
    forall i :: 0 <= i < |steps| ==> steps[i] == Recorded(evaluator, slo, i + 1, steps[i].candidateRps)
  }

  lemma {:induction false} FaithfulMeans(evaluator: Evaluator, slo: SloConstraint, steps: seq<Step>)
    requires Faithful(evaluator, slo, steps)
    ensures forall i :: 0 <= i < |steps| ==>
              var (step, said) := (steps[i], evaluator(steps[i].candidateRps));
              && step.stepIndex == i + 1 && step.p99Us == said.p99Us && step.errorRate == said.errorRate
              && (step.satisfiesSlo <==> said.p99Us <= slo.maxP99Us && said.errorRate <= slo.maxErrorRate)
  {
  }

  /** How far below the best rate the bisection may stop. */
  function Slack(minRps: int, maxRps: int, toleranceRps: int, maxIterations: nat): int {
    MaxOf(toleranceRps, CeilDiv(maxRps - minRps, Pow2(maxIterations)))
  }

  // ---------- halving ----------

  lemma {:induction false} MulAtLeast(b: int, x: int, y: int)
    requires b > 0
    ensures x >= y ==> b * x >= b * y
  {
  }

  lemma {:induction false} QuotientBound(a: int, b: int, q: int)
    requires b > 0 && a <= b * q
    ensures CeilDiv(a, b) <= q
  {
    var c := (a + b - 1) / b;
    assert b * c <= a + b - 1;
    MulAtLeast(b, c, q + 1);
    assert b * (q + 1) == b * q + b;
  }

  lemma {:induction false} CeilDivCovers(a: int, b: int)
    requires b > 0
    ensures a <= b * CeilDiv(a, b) < a + b
  {
    var x := a + b - 1;
    assert x == b * (x / b) + x % b;
  }

  /** Half of a width, rounded up, is within the next power of two. */
  lemma {:induction false} HalfWidth(w: int, width: int, k: nat)
    requires w <= CeilDiv(width, Pow2(k)) && width >= 0
    ensures CeilDiv(w, 2) <= CeilDiv(width, Pow2(k + 1))
  {
    var p, q := Pow2(k), CeilDiv(width, Pow2(k + 1));
    CeilDivCovers(width, Pow2(k + 1));
    assert width <= 2 * p * q;
    assert p * (2 * q) == 2 * p * q;
    QuotientBound(width, p, 2 * q);
    QuotientBound(w, 2, q);
  }

  // ---------- the three phases ----------

  function ProbePoints(minRps: int, maxRps: int): seq<int> {
    var span := (maxRps - minRps) as real;
    [minRps, Round(minRps as real + span * 0.33), Round(minRps as real + span * 0.66), maxRps]
  }

  /** The ends of the range, and the rates a third and two thirds up, each within half a unit. */
  lemma {:induction false} ProbePointsMean(minRps: int, maxRps: int)
    ensures var p := ProbePoints(minRps, maxRps);
            var span := (maxRps - minRps) as real;
            && |p| == 4 && p[0] == minRps && p[3] == maxRps
            && -0.5 < (p[1] - minRps) as real - span * 0.33 <= 0.5
            && -0.5 < (p[2] - minRps) as real - span * 0.66 <= 0.5
  {
  }

  /** Errors rise while latency falls, as when load is shed. */
  predicate Dips(prev: Step, curr: Step) {
    curr.errorRate > prev.errorRate && curr.p99Us < prev.p99Us
  }

  /** A probe passes above one that fails, or latency dips. */
  predicate OddProbe(prev: Step, curr: Step) {
    (!prev.satisfiesSlo && curr.satisfiesSlo) || Dips(prev, curr)
  }

  /** Latency dips on the way up. */
  predicate OddStep(prev: Step, curr: Step) {
    curr.candidateRps > prev.candidateRps && Dips(prev, curr)
  }

  /** Some probe is odd next to the one before it. */
  ghost predicate ProbesFlag(steps: seq<Step>) {
    exists i :: 0 < i < |steps| && OddProbe(steps[i - 1], steps[i])
  }

  /** Some step from position `first` on is odd next to the one before it. */
  predicate StepsFlag(steps: seq<Step>, first: nat) {
    |steps| > first && |steps| > 1
    && (OddStep(steps[|steps| - 2], steps[|steps| - 1]) || StepsFlag(steps[..|steps| - 1], first))
  }

  predicate OddAt(steps: seq<Step>, i: int)
    requires 0 < i < |steps|
  {
    OddStep(steps[i - 1], steps[i])
  }

  lemma {:induction false} OddMeans(prev: Step, curr: Step)
    ensures OddProbe(prev, curr) <==>
            || (!prev.satisfiesSlo && curr.satisfiesSlo)
            || (prev.errorRate < curr.errorRate && curr.p99Us < prev.p99Us)
    ensures OddStep(prev, curr) <==>
            prev.candidateRps < curr.candidateRps && prev.errorRate < curr.errorRate && curr.p99Us < prev.p99Us
  {
  }

  lemma {:induction false} StepsFlagMeans(steps: seq<Step>, first: nat)
    ensures StepsFlag(steps, first) <==> exists i :: 0 < i < |steps| && first <= i && OddAt(steps, i)
  {
    if |steps| > first && |steps| > 1 {
      var front := steps[..|steps| - 1];
      StepsFlagMeans(front, first);
      assert OddAt(steps, |front|) <==> OddStep(steps[|steps| - 2], steps[|steps| - 1]);
      assert forall i :: 0 < i < |front| ==> OddAt(front, i) == OddAt(steps, i);
    }
  }

  /** The coarse check on four rates. */
  method Probe(evaluator: Evaluator, slo: SloConstraint, minRps: int, maxRps: int)
    returns (steps: seq<Step>, nonMonotonicDetected: bool)
    requires maxRps > minRps + 100
    ensures Faithful(evaluator, slo, steps) && |steps| == 4
    ensures forall i :: 0 <= i < 4 ==> steps[i].candidateRps == ProbePoints(minRps, maxRps)[i]
    ensures nonMonotonicDetected ==> !Monotone(evaluator)
    ensures nonMonotonicDetected <==> ProbesFlag(steps)
    ensures var span := (maxRps - minRps) as real;
            && steps[0].candidateRps == minRps && steps[3].candidateRps == maxRps
            && -0.5 < (steps[1].candidateRps - minRps) as real - span * 0.33 <= 0.5
            && -0.5 < (steps[2].candidateRps - minRps) as real - span * 0.66 <= 0.5
  {
    ProbePointsMean(minRps, maxRps);
    var probePoints := ProbePoints(minRps, maxRps);
    steps := [];
    for i := 0 to |probePoints|
      invariant Faithful(evaluator, slo, steps) && |steps| == i
      invariant forall j :: 0 <= j < i ==> steps[j].candidateRps == probePoints[j]
    {
      steps := steps + [Recorded(evaluator, slo, |steps| + 1, probePoints[i])];
    }
    nonMonotonicDetected := false;
    for i := 1 to |steps|
      invariant nonMonotonicDetected ==> !Monotone(evaluator)
      invariant nonMonotonicDetected <==> exists j :: 0 < j < i && OddProbe(steps[j - 1], steps[j])
    {
      var prev, curr := steps[i - 1], steps[i];
      assert prev.candidateRps <= curr.candidateRps;
      if !prev.satisfiesSlo && curr.satisfiesSlo {
        nonMonotonicDetected := true;
      }
      if curr.errorRate > prev.errorRate && curr.p99Us < prev.p99Us {
        nonMonotonicDetected := true;
      }
    }
  }

  /** A tenth of the range, within half a unit, and at least ten. */
  function SweepStep(minRps: int, maxRps: int): (s: int)
    ensures s >= 10
    ensures maxRps - minRps < 95 ==> s == 10
    ensures maxRps - minRps >= 95 ==> -5 < 10 * s - (maxRps - minRps) <= 5
  {
    MaxOf(10, Round((maxRps - minRps) as real / 10.0))
  }

  /** Up from minRps in equal steps, to the first failure or the end of the range. */
  method Sweep(evaluator: Evaluator, slo: SloConstraint, minRps: int, maxRps: int, steps0: seq<Step>)
    returns (bestRps: int, steps: seq<Step>)
    requires Faithful(evaluator, slo, steps0)
    ensures Faithful(evaluator, slo, steps) && steps0 <= steps
    ensures exists n: nat :: SweptTo(evaluator, slo, minRps, maxRps, bestRps, n)
    ensures bestRps == minRps || Passes(evaluator, slo, bestRps)
    ensures forall i :: |steps0| <= i < |steps| ==>
              steps[i].candidateRps == minRps + (i - |steps0| + 1) * SweepStep(minRps, maxRps)
    ensures bestRps == minRps + (|steps| - |steps0|) * SweepStep(minRps, maxRps)
            || (|steps| > |steps0| && !steps[|steps| - 1].satisfiesSlo
                && bestRps == minRps + (|steps| - |steps0| - 1) * SweepStep(minRps, maxRps))
  {
    var stepSize := SweepStep(minRps, maxRps);
    bestRps, steps := minRps, steps0;
    var cand := minRps + stepSize;
    ghost var n: nat := 0;
    assert n * stepSize == 0;
    while cand <= maxRps
      invariant bestRps == minRps + n * stepSize && cand == bestRps + stepSize
      invariant forall k :: 1 <= k <= n ==>
                  Passes(evaluator, slo, minRps + k * stepSize) && minRps + k * stepSize <= maxRps
      invariant Faithful(evaluator, slo, steps) && steps0 <= steps && |steps| == |steps0| + n
      invariant forall i :: |steps0| <= i < |steps| ==>
                  steps[i].candidateRps == minRps + (i - |steps0| + 1) * stepSize
      decreases maxRps - cand
    {
      var step := Recorded(evaluator, slo, |steps| + 1, cand);
      steps := steps + [step];
      if !step.satisfiesSlo {
        break;
      }
      bestRps := cand;
      n := n + 1;
      assert n * stepSize == (n - 1) * stepSize + stepSize;
      cand := cand + stepSize;
    }
    assert SweptTo(evaluator, slo, minRps, maxRps, bestRps, n);
  }

  /** The ends of the bracket after these steps: the last rate that passed and the last that failed. */
  function Bracket(steps: seq<Step>, minRps: int, maxRps: int): (int, int) {
    if steps == [] then (minRps, maxRps)
    else
      var (low, high), last := Bracket(steps[..|steps| - 1], minRps, maxRps), steps[|steps| - 1];
      if last.satisfiesSlo then (last.candidateRps, high) else (low, last.candidateRps)
  }

  /** Each step tries the middle of the bracket before it, a half counting upwards, while that is too wide. */
  ghost predicate Halved(steps: seq<Step>, minRps: int, maxRps: int, toleranceRps: int) {
    forall i :: 0 <= i < |steps| ==> Halves(Bracket(steps[..i], minRps, maxRps), steps[i].candidateRps, toleranceRps)
  }

  predicate Halves(bracket: (int, int), rps: int, toleranceRps: int) {
    bracket.1 - bracket.0 > toleranceRps && 0 <= 2 * rps - (bracket.0 + bracket.1) <= 1
  }

  lemma {:induction false} HalvedPush(steps: seq<Step>, step: Step, minRps: int, maxRps: int, toleranceRps: int)
    requires Halved(steps, minRps, maxRps, toleranceRps)
    requires Halves(Bracket(steps, minRps, maxRps), step.candidateRps, toleranceRps)
    ensures Halved(steps + [step], minRps, maxRps, toleranceRps)
    ensures Bracket(steps + [step], minRps, maxRps) ==
            var (low, high) := Bracket(steps, minRps, maxRps);
            if step.satisfiesSlo then (step.candidateRps, high) else (low, step.candidateRps)
  {
    assert (steps + [step])[..|steps|] == steps;
    forall i | 0 <= i < |steps| + 1
      ensures Halves(Bracket((steps + [step])[..i], minRps, maxRps), (steps + [step])[i].candidateRps, toleranceRps)
    {
      assert i < |steps| ==> (steps + [step])[..i] == steps[..i];
    }
  }

  lemma {:induction false} StepsFlagPush(steps: seq<Step>, step: Step, first: nat)
    requires first <= |steps|
    ensures StepsFlag(steps + [step], first) <==>
            StepsFlag(steps, first) || (|steps| > 0 && OddStep(steps[|steps| - 1], step))
  {
    assert (steps + [step])[..|steps|] == steps;
  }

  lemma {:induction false} FlaggedIsNotMonotone(evaluator: Evaluator, slo: SloConstraint, steps: seq<Step>, first: nat)
    requires Faithful(evaluator, slo, steps) && StepsFlag(steps, first)
    ensures !Monotone(evaluator)
  {
    StepsFlagMeans(steps, first);
    var i :| 0 < i < |steps| && OddAt(steps, i);
    OddMeans(steps[i - 1], steps[i]);
    FaithfulMeans(evaluator, slo, steps);
  }

  lemma {:induction false} HalvedFront(steps: seq<Step>, minRps: int, maxRps: int, toleranceRps: int)
    requires Halved(steps, minRps, maxRps, toleranceRps) && steps != []
    ensures Halved(steps[..|steps| - 1], minRps, maxRps, toleranceRps)
  {
    var front := steps[..|steps| - 1];
    forall i | 0 <= i < |front|
      ensures Halves(Bracket(front[..i], minRps, maxRps), front[i].candidateRps, toleranceRps)
    {
      assert front[..i] == steps[..i];
    }
  }

  /** The bracket has passed below and failed above. */
  lemma {:induction false} BracketEnds(
    evaluator: Evaluator, slo: SloConstraint, steps: seq<Step>, minRps: int, maxRps: int)
    requires forall i :: 0 <= i < |steps| ==> (steps[i].satisfiesSlo <==> Passes(evaluator, slo, steps[i].candidateRps))
    ensures var (low, high) := Bracket(steps, minRps, maxRps);
            (low == minRps || Passes(evaluator, slo, low)) && (high == maxRps || !Passes(evaluator, slo, high))
  {
    if steps != [] { BracketEnds(evaluator, slo, steps[..|steps| - 1], minRps, maxRps); }
  }

  lemma {:induction false} HalfIsWithin(low: int, high: int, mid: int, whole: int, k: nat)
    requires low < high && 0 <= 2 * mid - (low + high) <= 1 && whole >= 0 && high - low <= CeilDiv(whole, Pow2(k))
    ensures low <= mid <= high
    ensures mid - low <= CeilDiv(whole, Pow2(k + 1)) && high - mid <= CeilDiv(whole, Pow2(k + 1))
  {
    HalfWidth(high - low, whole, k);
  }

  /** Every step halves it. */
  lemma {:induction false} BracketShrinks(steps: seq<Step>, minRps: int, maxRps: int, toleranceRps: int)
    requires Halved(steps, minRps, maxRps, toleranceRps) && minRps <= maxRps && toleranceRps >= 1
    ensures var (low, high) := Bracket(steps, minRps, maxRps);
            minRps <= low <= high <= maxRps && high - low <= CeilDiv(maxRps - minRps, Pow2(|steps|))
  {
    if steps == [] {
      assert CeilDiv(maxRps - minRps, 1) == maxRps - minRps;
    } else {
      var n := |steps| - 1;
      HalvedFront(steps, minRps, maxRps, toleranceRps);
      BracketShrinks(steps[..n], minRps, maxRps, toleranceRps);
      var (low, high) := Bracket(steps[..n], minRps, maxRps);
      HalfIsWithin(low, high, steps[n].candidateRps, maxRps - minRps, n);
    }
  }

  /** Between a rate that passes and one that fails, or the ends of the range. */
  method Bisect(
    evaluator: Evaluator, slo: SloConstraint, minRps: int, maxRps: int,
    toleranceRps: int, maxIterations: nat, steps0: seq<Step>
  ) returns (best: int, steps: seq<Step>, nonMonotonicDetected: bool, ghost above: int)
    requires Faithful(evaluator, slo, steps0)
    ensures Faithful(evaluator, slo, steps) && steps0 <= steps && |steps| <= |steps0| + maxIterations
    ensures nonMonotonicDetected ==> !Monotone(evaluator)
    ensures nonMonotonicDetected <==> StepsFlag(steps, |steps0|)
    ensures best == minRps || Passes(evaluator, slo, best)
    ensures above == maxRps || !Passes(evaluator, slo, above)
    ensures maxRps >= minRps && toleranceRps >= 1 ==>
              minRps <= best <= above <= maxRps && above <= best + Slack(minRps, maxRps, toleranceRps, maxIterations)
    ensures Halved(steps[|steps0|..], minRps, maxRps, toleranceRps)
    ensures Bracket(steps[|steps0|..], minRps, maxRps) == (best, above)
    ensures above - best <= toleranceRps || |steps| == |steps0| + maxIterations
  {
    ghost var halvings;
    best, above, steps, halvings, nonMonotonicDetected :=
      Halve(evaluator, slo, minRps, maxRps, toleranceRps, maxIterations, steps0);
    assert steps[|steps0|..] == halvings;
    BracketEnds(evaluator, slo, halvings, minRps, maxRps);
    if minRps <= maxRps && toleranceRps >= 1 {
      BracketShrinks(halvings, minRps, maxRps, toleranceRps);
    }
    if nonMonotonicDetected { FlaggedIsNotMonotone(evaluator, slo, steps, |steps0|); }
  }

  method Halve(
    evaluator: Evaluator, slo: SloConstraint, minRps: int, maxRps: int,
    toleranceRps: int, maxIterations: nat, steps0: seq<Step>
  ) returns (best: int, ghost above: int, steps: seq<Step>, ghost halvings: seq<Step>, nonMonotonicDetected: bool)
    requires Faithful(evaluator, slo, steps0)
    ensures Faithful(evaluator, slo, steps) && steps == steps0 + halvings
    ensures Halved(halvings, minRps, maxRps, toleranceRps) && Bracket(halvings, minRps, maxRps) == (best, above)
    ensures |halvings| <= maxIterations && (above - best <= toleranceRps || |halvings| == maxIterations)
    ensures nonMonotonicDetected <==> StepsFlag(steps, |steps0|)
  {
    var low, high := minRps, maxRps;
    best, steps, halvings, nonMonotonicDetected := minRps, steps0, [], false;
    var iteration: nat := 0;
    while high - low > toleranceRps && iteration < maxIterations
      invariant iteration == |halvings| <= maxIterations && best == low
      invariant Faithful(evaluator, slo, steps) && steps == steps0 + halvings
      invariant Halved(halvings, minRps, maxRps, toleranceRps) && Bracket(halvings, minRps, maxRps) == (low, high)
      invariant nonMonotonicDetected <==> StepsFlag(steps, |steps0|)
      decreases maxIterations - iteration
    {
      iteration := iteration + 1;
      var mid := (low + high + 1) / 2;
      var step := Recorded(evaluator, slo, |steps| + 1, mid);
      if |steps| > 0 {
        var prev := steps[|steps| - 1];
        if mid > prev.candidateRps && step.errorRate > prev.errorRate && step.p99Us < prev.p99Us {
          nonMonotonicDetected := true;
        }
      }
      StepsFlagPush(steps, step, |steps0|);
      HalvedPush(halvings, step, minRps, maxRps, toleranceRps);
      steps, halvings := steps + [step], halvings + [step];
      if step.satisfiesSlo {
        best, low := mid, mid;
      } else {
        high := mid;
      }
    }
    above := high;
  }

  // ---------- the search ----------

  /** `n` steps of the sweep passed, and the next one fails or leaves the range. */
  ghost predicate SweptTo(evaluator: Evaluator, slo: SloConstraint, minRps: int, maxRps: int, best: int, n: nat) {
    var step := SweepStep(minRps, maxRps);
    && best == minRps + n * step
    && (forall k :: 1 <= k <= n ==> Passes(evaluator, slo, minRps + k * step) && minRps + k * step <= maxRps)
    && (best + step > maxRps || !Passes(evaluator, slo, best + step))
  }

  /** Above the best rate there is one that fails, or the end of the range. */
  ghost predicate FoundBoundary(
    evaluator: Evaluator, slo: SloConstraint, minRps: int, maxRps: int, best: int, above: int) {
    minRps <= best <= above <= maxRps && (above == maxRps || !Passes(evaluator, slo, above))
  }

  method RunBisectionSearch(
    evaluator: Evaluator, slo: SloConstraint, minRps: int, maxRps: int,
    toleranceRps: int := 10, maxIterations: nat := 20, enableMonotonicityCheck: bool := true
  ) returns (r: SearchResult)
    ensures Faithful(evaluator, slo, r.steps)
    ensures r.maxSustainableRps == minRps || Passes(evaluator, slo, r.maxSustainableRps)
    ensures r.nonMonotonicDetected ==> !Monotone(evaluator)
    ensures var probed := enableMonotonicityCheck && maxRps > minRps + 100;
            && (probed ==> |r.steps| >= 4)
            && (r.strategy == ADAPTIVE_SWEEP <==> probed && ProbesFlag(r.steps[..4]))
            && (r.strategy == BISECTION ==>
                  (r.nonMonotonicDetected <==> StepsFlag(r.steps, if probed then 4 else 0)))
    ensures r.strategy == ADAPTIVE_SWEEP ==>
              r.nonMonotonicDetected
              && exists n: nat :: SweptTo(evaluator, slo, minRps, maxRps, r.maxSustainableRps, n)
    ensures forall i :: 0 <= i < |r.steps| ==>
              var (step, said) := (r.steps[i], evaluator(r.steps[i].candidateRps));
              && step.stepIndex == i + 1 && step.p99Us == said.p99Us && step.errorRate == said.errorRate
              && (step.satisfiesSlo <==> said.p99Us <= slo.maxP99Us && said.errorRate <= slo.maxErrorRate)
    ensures r.strategy == BISECTION ==>
              var halvings := r.steps[if enableMonotonicityCheck && maxRps > minRps + 100 then 4 else 0..];
              var (low, high) := Bracket(halvings, minRps, maxRps);
              && Halved(halvings, minRps, maxRps, toleranceRps) && r.maxSustainableRps == low
              && (high - low <= toleranceRps || |halvings| == maxIterations)
    ensures r.strategy == BISECTION && minRps <= maxRps && toleranceRps >= 1 ==>
              exists above :: FoundBoundary(evaluator, slo, minRps, maxRps, r.maxSustainableRps, above)
                && above <= r.maxSustainableRps + Slack(minRps, maxRps, toleranceRps, maxIterations)
    ensures Monotone(evaluator) && minRps <= maxRps && toleranceRps >= 1 ==>
              && (Passes(evaluator, slo, r.maxSustainableRps) <==> Passes(evaluator, slo, minRps))
              && forall rps :: minRps <= rps <= maxRps && Passes(evaluator, slo, rps) ==>
                   rps <= r.maxSustainableRps + Slack(minRps, maxRps, toleranceRps, maxIterations)
  {
    var steps: seq<Step> := [];
    if enableMonotonicityCheck && maxRps > minRps + 100 {
      var nonMonotonic;
      steps, nonMonotonic := Probe(evaluator, slo, minRps, maxRps);
      if nonMonotonic {
        var bestRps;
        ghost var probes := steps;
        bestRps, steps := Sweep(evaluator, slo, minRps, maxRps, steps);
        assert steps[..4] == probes;
        FaithfulMeans(evaluator, slo, steps);
        return SearchResult(bestRps, steps, true, ADAPTIVE_SWEEP);
      }
    }
    var best, all, nonMonotonicDetected, above :=
      Bisect(evaluator, slo, minRps, maxRps, toleranceRps, maxIterations, steps);
    assert |steps| == 4 ==> all[..4] == steps;
    FaithfulMeans(evaluator, slo, all);
    r := SearchResult(best, all, nonMonotonicDetected, BISECTION);
    if minRps <= maxRps && toleranceRps >= 1 {
      assert FoundBoundary(evaluator, slo, minRps, maxRps, best, above);
      BoundaryIsBest(evaluator, slo, minRps, maxRps, best, above);
    }
  }

  /** When nothing improves under load, no rate above the boundary passes. */
  lemma {:induction false} BoundaryIsBest(
    evaluator: Evaluator, slo: SloConstraint, minRps: int, maxRps: int, best: int, above: int)
    requires FoundBoundary(evaluator, slo, minRps, maxRps, best, above)
    requires best == minRps || Passes(evaluator, slo, best)
    ensures Monotone(evaluator) ==>
              && (Passes(evaluator, slo, best) <==> Passes(evaluator, slo, minRps))
              && forall rps :: minRps <= rps <= maxRps && Passes(evaluator, slo, rps) ==> rps <= above
  {
  }
}
