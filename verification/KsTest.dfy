/**
 computeTwoSampleKsTest: the merge walk over two sorted samples.

 The statistic D should be the largest |F1(x) - F2(x)|. The walk takes values found in both
 samples pairwise, so a value that occurs more often in one sample than in the other leaves a
 gap in mid-value that no x shows. D is exactly the larger of the two kinds of gap.
 */
module KsTest {

  /** How many elements are at most x. */
  function AtMost(s: seq<real>, x: real): (n: nat)
    ensures n <= |s|
  {
    if s == [] then 0 else (if s[0] <= x then 1 else 0) + AtMost(s[1..], x)
  }

  /** How many elements are less than x. */
  function Below(s: seq<real>, x: real): (n: nat)
    ensures n <= AtMost(s, x)
    ensures n < AtMost(s, x) <==> x in s
  {
    if s == [] then 0 else (if s[0] < x then 1 else 0) + Below(s[1..], x)
  }

  function Abs(x: real): real {
    if x < 0.0 then -x else x
  }

  /** The part of a sample of `n` values that `i` of them are. */
  function Share(i: int, n: nat): real
    requires n > 0
  {
    i as real / n as real
  }

  /** The distance between two such parts. */
  function Dist(n1: nat, n2: nat, i: int, j: int): real
    requires n1 > 0 && n2 > 0
  {
    Abs(Share(i, n1) - Share(j, n2))
  }

  /** |F1(x) - F2(x)|, the difference of the empirical distribution functions. */
  function Gap(a: seq<real>, b: seq<real>, x: real): real
    requires a != [] && b != []
  {
    Dist(|a|, |b|, AtMost(a, x), AtMost(b, x))
  }

  function Min(x: int, y: int): int {
    if x <= y then x else y
  }

  /** How often `v` is taken from both samples at once. */
  function Pairs(a: seq<real>, b: seq<real>, v: real): int {
    Min(AtMost(a, v) - Below(a, v), AtMost(b, v) - Below(b, v))
  }

  /** The difference in mid-value, when the sample with fewer occurrences of `v` has run out of them. */
  function MidGap(a: seq<real>, b: seq<real>, v: real): real
    requires a != [] && b != []
  {
    Dist(|a|, |b|, Below(a, v) + Pairs(a, b, v), Below(b, v) + Pairs(a, b, v))
  }

  predicate Shared(a: seq<real>, b: seq<real>, v: real) {
    v in a && v in b
  }

  /** D is the largest of all gaps and all mid-value gaps. */
  ghost predicate IsStatistic(a: seq<real>, b: seq<real>, d: real)
    requires a != [] && b != []
  {
    && (forall x :: Gap(a, b, x) <= d)
    && (forall v :: Shared(a, b, v) ==> MidGap(a, b, v) <= d)
    && ((exists x :: d == Gap(a, b, x)) || (exists v :: Shared(a, b, v) && d == MidGap(a, b, v)))
  }

  // ---------- what the statistic means ----------

  /** D is the largest distance between the distribution functions. */
  ghost predicate IsSupremum(a: seq<real>, b: seq<real>, d: real)
    requires a != [] && b != []
  {
    (forall x :: Gap(a, b, x) <= d) && exists x :: d == Gap(a, b, x)
  }

  /** It is what it should be exactly when no mid-value gap stands out. */
  lemma {:induction false} StatisticIsSupremumIff(a: seq<real>, b: seq<real>, d: real)
    requires a != [] && b != [] && IsStatistic(a, b, d)
    ensures IsSupremum(a, b, d) <==>
            forall v :: Shared(a, b, v) ==> exists x :: MidGap(a, b, v) <= Gap(a, b, x)
  {
  }

  /** In particular when every shared value occurs equally often in both samples, as it does if no sample repeats one. */
  lemma {:induction false} EqualRepeatsGiveSupremum(a: seq<real>, b: seq<real>, d: real)
    requires a != [] && b != [] && IsStatistic(a, b, d)
    requires forall v :: Shared(a, b, v) ==> AtMost(a, v) - Below(a, v) == AtMost(b, v) - Below(b, v)
    ensures IsSupremum(a, b, d)
  {
    forall v | Shared(a, b, v) ensures MidGap(a, b, v) <= Gap(a, b, v) {
    }
    StatisticIsSupremumIff(a, b, d);
  }

  lemma {:induction false} SingleOccurrence(s: seq<real>, v: real)
    requires forall i, j :: 0 <= i < j < |s| ==> s[i] != s[j]
    ensures AtMost(s, v) - Below(s, v) == if v in s then 1 else 0
  {
    if s != [] {
      SingleOccurrence(s[1..], v);
      assert s == [s[0]] + s[1..];
    }
  }

  lemma {:induction false} NoRepeatsGiveSupremum(a: seq<real>, b: seq<real>, d: real)
    requires a != [] && b != [] && IsStatistic(a, b, d)
    requires forall i, j :: 0 <= i < j < |a| ==> a[i] != a[j]
    requires forall i, j :: 0 <= i < j < |b| ==> b[i] != b[j]
    ensures IsSupremum(a, b, d)
  {
    forall v | Shared(a, b, v) ensures AtMost(a, v) - Below(a, v) == AtMost(b, v) - Below(b, v) {
      SingleOccurrence(a, v);
      SingleOccurrence(b, v);
    }
    EqualRepeatsGiveSupremum(a, b, d);
  }

  /** The samples may be exchanged. */
  lemma {:induction false} StatisticSymmetric(a: seq<real>, b: seq<real>, d: real, e: real)
    requires a != [] && b != [] && IsStatistic(a, b, d) && IsStatistic(b, a, e)
    ensures d == e
  {
    forall x ensures Gap(a, b, x) == Gap(b, a, x) {
    }
    forall v ensures MidGap(a, b, v) == MidGap(b, a, v) {
    }
  }

  /** Two equal values against one: the distribution functions are the same, the statistic is a half. */
  lemma {:induction false} RepeatsMislead(d: real)
    requires IsStatistic([1.0, 1.0], [1.0], d)
    ensures d == 0.5 && forall x :: Gap([1.0, 1.0], [1.0], x) == 0.0
  {
    var a, b := [1.0, 1.0], [1.0];
    assert a[1..] == [1.0] && b[1..] == [] && a[1..][1..] == [];
    forall x ensures Gap(a, b, x) == 0.0 {
      assert AtMost(b, x) == if 1.0 <= x then 1 else 0;
      assert AtMost(a, x) == if 1.0 <= x then 2 else 0;
    }
    assert Below(b, 1.0) == 0 && Below(a, 1.0) == 0 && AtMost(a, 1.0) == 2 && AtMost(b, 1.0) == 1;
    assert MidGap(a, b, 1.0) == 0.5;
    assert Shared(a, b, 1.0);
  }

  // ---------- sorted samples ----------

  ghost predicate Sorted(s: seq<real>) {
    forall i, j :: 0 <= i < j < |s| ==> s[i] <= s[j]
  }

  function Insert(x: real, s: seq<real>): seq<real> {
    if s == [] || x <= s[0] then [x] + s else [s[0]] + Insert(x, s[1..])
  }

  function Sort(s: seq<real>): seq<real> {
    if s == [] then [] else Insert(s[0], Sort(s[1..]))
  }

  lemma {:induction false} InsertSorted(x: real, s: seq<real>)
    requires Sorted(s)
    ensures Sorted(Insert(x, s)) && |Insert(x, s)| == |s| + 1
    ensures forall y :: y in Insert(x, s) ==> y == x || y in s
  {
    if s != [] && x > s[0] {
      InsertSorted(x, s[1..]);
      var rest := Insert(x, s[1..]);
      forall k | 0 <= k < |rest| ensures s[0] <= rest[k] {
        assert rest[k] in rest;
      }
    }
  }

  lemma {:induction false} InsertCounts(x: real, s: seq<real>, y: real)
    ensures AtMost(Insert(x, s), y) == AtMost(s, y) + if x <= y then 1 else 0
    ensures Below(Insert(x, s), y) == Below(s, y) + if x < y then 1 else 0
  {
    if s == [] || x <= s[0] {
      assert ([x] + s)[1..] == s;
    } else {
      InsertCounts(x, s[1..], y);
      var rest := Insert(x, s[1..]);
      assert ([s[0]] + rest)[1..] == rest;
    }
  }

  /** Sorting changes neither count. */
  lemma {:induction false} SortKeeps(s: seq<real>)
    ensures Sorted(Sort(s)) && |Sort(s)| == |s|
    ensures forall y :: AtMost(Sort(s), y) == AtMost(s, y) && Below(Sort(s), y) == Below(s, y)
  {
    if s != [] {
      SortKeeps(s[1..]);
      InsertSorted(s[0], Sort(s[1..]));
      forall y ensures AtMost(Sort(s), y) == AtMost(s, y) && Below(Sort(s), y) == Below(s, y) {
        InsertCounts(s[0], Sort(s[1..]), y);
      }
    }
  }

  /** In a sorted sample the counts are positions. */
  lemma {:induction false} CountsArePositions(s: seq<real>, x: real, k: nat)
    requires Sorted(s) && k < |s|
    ensures k < AtMost(s, x) <==> s[k] <= x
    ensures k < Below(s, x) <==> s[k] < x
  {
    if s[0] > x {
      AllAbove(s, x);
    } else if k > 0 {
      CountsArePositions(s[1..], x, k - 1);
      if s[0] == x {
        NoneBelow(s, x);
      }
    } else if s[0] == x {
      NoneBelow(s, x);
    }
  }

  lemma {:induction false} AllAbove(s: seq<real>, x: real)
    requires forall i :: 0 <= i < |s| ==> s[i] > x
    ensures AtMost(s, x) == 0
  {
    if s != [] { AllAbove(s[1..], x); }
  }

  lemma {:induction false} NoneBelow(s: seq<real>, x: real)
    requires forall i :: 0 <= i < |s| ==> s[i] >= x
    ensures Below(s, x) == 0
  {
    if s != [] { NoneBelow(s[1..], x); }
  }

  // ---------- the walk ----------

  /** Values left in either sample, the least of them being `v`. */
  ghost predicate Head(a: seq<real>, b: seq<real>, i: nat, j: nat, v: real) {
    && i <= |a| && j <= |b|
    && (i < |a| ==> v <= a[i]) && (j < |b| ==> v <= b[j])
    && ((i < |a| && a[i] == v) || (j < |b| && b[j] == v))
  }

  /** Among the occurrences of `v`: taken pairwise until one sample has no more. */
  ghost predicate Within(a: seq<real>, b: seq<real>, i: int, j: int, v: real) {
    && Below(a, v) <= i <= AtMost(a, v) && Below(b, v) <= j <= AtMost(b, v)
    && (i - Below(a, v) > j - Below(b, v) ==> j == AtMost(b, v))
    && (i - Below(a, v) < j - Below(b, v) ==> i == AtMost(a, v))
  }

  /** On the way to the point where the pairs of `v` run out. */
  ghost predicate Before(a: seq<real>, b: seq<real>, i: int, j: int, v: real) {
    || (i <= Below(a, v) && j <= Below(b, v))
    || (i - Below(a, v) == j - Below(b, v) && 0 <= i - Below(a, v) <= Pairs(a, b, v))
  }

  /** Gaps that do not lie ahead have been met. */
  ghost predicate Recorded(a: seq<real>, b: seq<real>, i: nat, j: nat, d: real)
    requires a != [] && b != []
  {
    && (forall x :: (i <= AtMost(a, x) && j <= AtMost(b, x)) || Gap(a, b, x) <= d)
    && (forall v :: Shared(a, b, v) ==> Before(a, b, i, j, v) || MidGap(a, b, v) <= d)
  }

  /** Nothing larger than every gap has been met. */
  ghost predicate Attained(a: seq<real>, b: seq<real>, d: real)
    requires a != [] && b != []
  {
    (exists x :: d <= Gap(a, b, x)) || (exists v :: Shared(a, b, v) && d <= MidGap(a, b, v))
  }

  /** What the three loops keep. */
  ghost predicate Walked(a: seq<real>, b: seq<real>, i: nat, j: nat, d: real)
    requires a != [] && b != []
  {
    && Sorted(a) && Sorted(b) && i <= |a| && j <= |b| && 0.0 <= d <= 1.0 && Dist(|a|, |b|, i, j) <= d
    && Recorded(a, b, i, j, d) && Attained(a, b, d)
    && (forall v :: Head(a, b, i, j, v) ==> Within(a, b, i, j, v))
  }

  /** One step takes `v` from each sample that has it next. */
  lemma {:induction false} StepWithin(a: seq<real>, b: seq<real>, i: nat, j: nat, v: real, i': nat, j': nat)
    requires Sorted(a) && Sorted(b) && Head(a, b, i, j, v) && Within(a, b, i, j, v)
    requires i' == if i < |a| && a[i] == v then i + 1 else i
    requires j' == if j < |b| && b[j] == v then j + 1 else j
    ensures Within(a, b, i', j', v)
  {
    if i < |a| { CountsArePositions(a, v, i); }
    if j < |b| { CountsArePositions(b, v, j); }
  }

  lemma {:induction false} PastValue(s: seq<real>, v: real, w: real, i: nat)
    requires Sorted(s) && v < w && i == AtMost(s, v) && (i < |s| ==> w <= s[i])
    ensures i == Below(s, w)
  {
    if i < |s| { CountsArePositions(s, w, i); }
    if i > 0 { CountsArePositions(s, v, i - 1); CountsArePositions(s, w, i - 1); }
  }

  /** When `v` has run out, the walk stands just below the next value. */
  lemma {:induction false} NextWithin(a: seq<real>, b: seq<real>, i: nat, j: nat, v: real, w: real)
    requires Sorted(a) && Sorted(b) && Within(a, b, i, j, v) && Head(a, b, i, j, w) && v <= w
    ensures Within(a, b, i, j, w)
  {
    if v < w {
      if i < |a| { CountsArePositions(a, v, i); }
      if j < |b| { CountsArePositions(b, v, j); }
      PastValue(a, v, w, i);
      PastValue(b, v, w, j);
    }
  }

  /** A point on the way is not jumped over. */
  lemma {:induction false} MeetsGap(
    a: seq<real>, b: seq<real>, i: nat, j: nat, v: real, i': nat, j': nat, x: real)
    requires Sorted(a) && Sorted(b) && Head(a, b, i, j, v)
    requires i' == if i < |a| && a[i] == v then i + 1 else i
    requires j' == if j < |b| && b[j] == v then j + 1 else j
    requires i <= AtMost(a, x) && j <= AtMost(b, x)
    ensures (i' <= AtMost(a, x) && j' <= AtMost(b, x)) || (i == AtMost(a, x) && j == AtMost(b, x))
  {
    if i < |a| { CountsArePositions(a, x, i); }
    if j < |b| { CountsArePositions(b, x, j); }
  }

  lemma {:induction false} MeetsMidGap(
    a: seq<real>, b: seq<real>, i: nat, j: nat, v: real, i': nat, j': nat, w: real)
    requires Sorted(a) && Sorted(b) && Head(a, b, i, j, v) && Shared(a, b, w)
    requires i' == if i < |a| && a[i] == v then i + 1 else i
    requires j' == if j < |b| && b[j] == v then j + 1 else j
    requires Before(a, b, i, j, w)
    ensures Before(a, b, i', j', w)
            || (i == Below(a, w) + Pairs(a, b, w) && j == Below(b, w) + Pairs(a, b, w))
  {
    if i < |a| { CountsArePositions(a, w, i); CountsArePositions(a, v, i); }
    if j < |b| { CountsArePositions(b, w, j); CountsArePositions(b, v, j); }
  }

  // ---------- every gap seen is a gap of the right kind ----------

  /** A value below `v` with nothing between. */
  lemma {:induction false} Predecessor(s: seq<real>, v: real) returns (x: real)
    ensures x < v && forall y :: y in s && y < v ==> y <= x
  {
    if s == [] {
      x := v - 1.0;
    } else {
      x := Predecessor(s[1..], v);
      assert s == [s[0]] + s[1..];
      if x < s[0] < v {
        x := s[0];
      }
    }
  }

  lemma {:induction false} SameCount(s: seq<real>, x: real, v: real)
    requires forall y :: y in s ==> (y <= x <==> y < v)
    ensures AtMost(s, x) == Below(s, v)
  {
    if s != [] {
      assert s[0] in s;
      assert forall y :: y in s[1..] ==> y in s;
      SameCount(s[1..], x, v);
    }
  }

  /** The gap just below a value is the gap of some x. */
  lemma {:induction false} GapBelow(a: seq<real>, b: seq<real>, v: real) returns (x: real)
    requires a != [] && b != []
    ensures Gap(a, b, x) == Dist(|a|, |b|, Below(a, v), Below(b, v))
  {
    x := Predecessor(a + b, v);
    assert forall y :: y in a ==> y in a + b;
    assert forall y :: y in b ==> y in a + b;
    SameCount(a, x, v);
    SameCount(b, x, v);
  }

  lemma {:induction false} Sign(a: real, c: real, p: real)
    requires a >= 0.0 && p == a * c
    ensures (c >= 0.0 ==> p >= 0.0) && (c <= 0.0 ==> p <= 0.0)
  {
  }

  lemma {:induction false} Straight(x: real, t: real, m: real, c: real, y: real, z: real)
    requires 0.0 <= t <= m && y == x + t * c && z == x + m * c
    ensures Abs(y) <= Abs(x) || Abs(y) <= Abs(z)
  {
    Sign(t, c, y - x);
    Sign(m - t, c, z - y);
  }

  function If(p: bool, t: int): int {
    if p then t else 0
  }

  /** i / n1 - j / n2. */
  function Signed(n1: nat, n2: nat, i: int, j: int): real
    requires n1 > 0 && n2 > 0
  {
    Share(i, n1) - Share(j, n2)
  }

  function Slope(n1: nat, n2: nat, p: bool, q: bool): real
    requires n1 > 0 && n2 > 0
  {
    (if p then 1.0 / n1 as real else 0.0) - (if q then 1.0 / n2 as real else 0.0)
  }

  lemma {:induction false} Over(n: nat, i: int, t: int, p: bool)
    requires n > 0
    ensures (i + If(p, t)) as real / n as real == i as real / n as real + t as real * (if p then 1.0 / n as real else 0.0)
  {
    assert (i + If(p, t)) as real == i as real + If(p, t) as real;
    assert If(p, t) as real / n as real == t as real * (if p then 1.0 / n as real else 0.0);
  }

  lemma {:induction false} Along(n1: nat, n2: nat, i: int, j: int, p: bool, q: bool, t: int)
    requires n1 > 0 && n2 > 0
    ensures Signed(n1, n2, i + If(p, t), j + If(q, t)) ==
            Signed(n1, n2, i, j) + t as real * Slope(n1, n2, p, q)
  {
    Over(n1, i, t, p);
    Over(n2, j, t, q);
  }

  /** Along a straight piece of the walk the distance is largest at an end. */
  lemma {:induction false} EndsAreWorst(n1: nat, n2: nat, i: int, j: int, p: bool, q: bool, t: int, m: int)
    requires n1 > 0 && n2 > 0 && 0 <= t <= m
    ensures Dist(n1, n2, i + If(p, t), j + If(q, t)) <= Dist(n1, n2, i, j)
            || Dist(n1, n2, i + If(p, t), j + If(q, t)) <= Dist(n1, n2, i + If(p, m), j + If(q, m))
  {
    Along(n1, n2, i, j, p, q, t);
    Along(n1, n2, i, j, p, q, m);
    Straight(Signed(n1, n2, i, j), t as real, m as real, Slope(n1, n2, p, q),
             Signed(n1, n2, i + If(p, t), j + If(q, t)), Signed(n1, n2, i + If(p, m), j + If(q, m)));
  }

  /** Where the pairs of `v` run out; below `v` itself if it is not in both samples. */
  lemma {:induction false} MidPoint(a: seq<real>, b: seq<real>, v: real)
    requires a != [] && b != []
    ensures Pairs(a, b, v) >= 0 && (Pairs(a, b, v) > 0 <==> Shared(a, b, v))
  {
  }

  /** While pairs are taken. */
  lemma {:induction false} SeenInPairs(a: seq<real>, b: seq<real>, i: nat, j: nat, v: real)
    requires a != [] && b != [] && Within(a, b, i, j, v) && i - Below(a, v) == j - Below(b, v)
    ensures Dist(|a|, |b|, i, j) <= Dist(|a|, |b|, Below(a, v), Below(b, v))
            || (Shared(a, b, v) && Dist(|a|, |b|, i, j) <= MidGap(a, b, v))
  {
    MidPoint(a, b, v);
    EndsAreWorst(|a|, |b|, Below(a, v), Below(b, v), true, true, i - Below(a, v), Pairs(a, b, v));
  }

  /** While one sample goes on alone. */
  lemma {:induction false} SeenAlone(a: seq<real>, b: seq<real>, i: nat, j: nat, v: real)
    requires a != [] && b != [] && Within(a, b, i, j, v) && i - Below(a, v) != j - Below(b, v)
    ensures Dist(|a|, |b|, i, j) <= Dist(|a|, |b|, Below(a, v), Below(b, v))
            || (Shared(a, b, v) && Dist(|a|, |b|, i, j) <= MidGap(a, b, v))
            || Dist(|a|, |b|, i, j) <= Gap(a, b, v)
  {
    MidPoint(a, b, v);
    var i0, j0 := Below(a, v) + Pairs(a, b, v), Below(b, v) + Pairs(a, b, v);
    if i - Below(a, v) > j - Below(b, v) {
      EndsAreWorst(|a|, |b|, i0, j0, true, false, i - i0, AtMost(a, v) - i0);
    } else {
      EndsAreWorst(|a|, |b|, i0, j0, false, true, j - j0, AtMost(b, v) - j0);
    }
  }

  /** Wherever the walk stands among the occurrences of `v`. */
  lemma {:induction false} SeenIsAttained(a: seq<real>, b: seq<real>, i: nat, j: nat, v: real)
    requires a != [] && b != [] && Within(a, b, i, j, v)
    ensures Attained(a, b, Dist(|a|, |b|, i, j))
  {
    var x := GapBelow(a, b, v);
    if i - Below(a, v) == j - Below(b, v) {
      SeenInPairs(a, b, i, j, v);
    } else {
      SeenAlone(a, b, i, j, v);
    }
  }

  // ---------- the method ----------

  lemma {:induction false} DistBounded(n1: nat, n2: nat, i: nat, j: nat)
    requires 0 < n1 && 0 < n2 && i <= n1 && j <= n2
    ensures 0.0 <= Dist(n1, n2, i, j) <= 1.0
  {
    assert 0.0 <= i as real / n1 as real <= 1.0;
    assert 0.0 <= j as real / n2 as real <= 1.0;
  }

  lemma {:induction false} StepRecords(
    a: seq<real>, b: seq<real>, i: nat, j: nat, d: real, v: real, i': nat, j': nat)
    requires a != [] && b != [] && Sorted(a) && Sorted(b) && Head(a, b, i, j, v)
    requires Recorded(a, b, i, j, d) && Dist(|a|, |b|, i, j) <= d
    requires i' == if i < |a| && a[i] == v then i + 1 else i
    requires j' == if j < |b| && b[j] == v then j + 1 else j
    ensures Recorded(a, b, i', j', d)
  {
    forall x ensures (i' <= AtMost(a, x) && j' <= AtMost(b, x)) || Gap(a, b, x) <= d {
      if i <= AtMost(a, x) && j <= AtMost(b, x) {
        MeetsGap(a, b, i, j, v, i', j', x);
      }
    }
    forall w | Shared(a, b, w) ensures Before(a, b, i', j', w) || MidGap(a, b, w) <= d {
      if Before(a, b, i, j, w) {
        MeetsMidGap(a, b, i, j, v, i', j', w);
      }
    }
  }

  lemma {:induction false} RecordsMore(a: seq<real>, b: seq<real>, i: nat, j: nat, d: real, d': real)
    requires a != [] && b != [] && Recorded(a, b, i, j, d) && d <= d'
    ensures Recorded(a, b, i, j, d')
  {
  }

  function Max(x: real, y: real): real {
    if y > x then y else x
  }

  /** One step of any of the three loops. */
  lemma {:induction false} StepKeeps(a: seq<real>, b: seq<real>, i: nat, j: nat, d: real, v: real, i': nat, j': nat)
    requires a != [] && b != [] && Walked(a, b, i, j, d) && Head(a, b, i, j, v)
    requires i' == if i < |a| && a[i] == v then i + 1 else i
    requires j' == if j < |b| && b[j] == v then j + 1 else j
    ensures Walked(a, b, i', j', Max(d, Dist(|a|, |b|, i', j')))
  {
    StepWithin(a, b, i, j, v, i', j');
    DistBounded(|a|, |b|, i', j');
    StepRecords(a, b, i, j, d, v, i', j');
    RecordsMore(a, b, i', j', d, Max(d, Dist(|a|, |b|, i', j')));
    forall w | Head(a, b, i', j', w) ensures Within(a, b, i', j', w) {
      NextWithin(a, b, i', j', v, w);
    }
    SeenIsAttained(a, b, i', j', v);
  }

  lemma {:induction false} StartsWalked(a: seq<real>, b: seq<real>)
    requires a != [] && b != [] && Sorted(a) && Sorted(b)
    ensures Walked(a, b, 0, 0, 0.0)
  {
    StartsBounded(a, b);
    StartsRecorded(a, b);
    forall w | Head(a, b, 0, 0, w) ensures Within(a, b, 0, 0, w) { StartsWithin(a, b, w); }
  }

  lemma {:induction false} StartsBounded(a: seq<real>, b: seq<real>)
    requires a != [] && b != []
    ensures Dist(|a|, |b|, 0, 0) == 0.0 && Attained(a, b, 0.0)
  {
    assert 0.0 <= Gap(a, b, 0.0);
  }

  lemma {:induction false} StartsRecorded(a: seq<real>, b: seq<real>)
    requires a != [] && b != []
    ensures Recorded(a, b, 0, 0, 0.0)
  {
  }

  lemma {:induction false} StartsWithin(a: seq<real>, b: seq<real>, w: real)
    requires a != [] && b != [] && Sorted(a) && Sorted(b) && Head(a, b, 0, 0, w)
    ensures Within(a, b, 0, 0, w)
  {
    NoneBelow(a, w);
    NoneBelow(b, w);
  }

  /** At the end of both samples every gap has been met. */
  lemma {:induction false} EndsWalked(a: seq<real>, b: seq<real>, d: real)
    requires a != [] && b != [] && Walked(a, b, |a|, |b|, d)
    ensures IsStatistic(a, b, d)
  {
    forall x ensures Gap(a, b, x) <= d {
      if AtMost(a, x) == |a| && AtMost(b, x) == |b| {
        assert Gap(a, b, x) == Dist(|a|, |b|, |a|, |b|);
      }
    }
    forall v | Shared(a, b, v) ensures MidGap(a, b, v) <= d {
      if Before(a, b, |a|, |b|, v) {
        assert MidGap(a, b, v) == Dist(|a|, |b|, |a|, |b|);
      }
    }
  }

  lemma {:induction false} SortedCounts(s: seq<real>, x: real)
    ensures |Sort(s)| == |s| && AtMost(Sort(s), x) == AtMost(s, x) && Below(Sort(s), x) == Below(s, x)
    ensures x in Sort(s) <==> x in s
  {
    SortKeeps(s);
    assert Below(s, x) < AtMost(s, x) <==> x in s;
  }

  /** Gaps depend on the counts only. */
  lemma {:induction false} SameGaps(a: seq<real>, b: seq<real>, a': seq<real>, b': seq<real>, x: real)
    requires a != [] && b != [] && |a| == |a'| && |b| == |b'|
    requires AtMost(a, x) == AtMost(a', x) && Below(a, x) == Below(a', x)
    requires AtMost(b, x) == AtMost(b', x) && Below(b, x) == Below(b', x)
    ensures Gap(a, b, x) == Gap(a', b', x) && MidGap(a, b, x) == MidGap(a', b', x)
  {
    assert Pairs(a, b, x) == Pairs(a', b', x);
  }

  lemma {:induction false} SortedStatistic(a: seq<real>, b: seq<real>, d: real)
    requires a != [] && b != [] && Sort(a) != [] && Sort(b) != [] && IsStatistic(Sort(a), Sort(b), d)
    ensures IsStatistic(a, b, d)
  {
    var a', b' := Sort(a), Sort(b);
    forall x ensures Gap(a, b, x) == Gap(a', b', x) && MidGap(a, b, x) == MidGap(a', b', x)
                     && Shared(a, b, x) == Shared(a', b', x) {
      SortedCounts(a, x);
      SortedCounts(b, x);
      SameGaps(a, b, a', b', x);
    }
  }

  /** The step of the main loop, by its two comparisons. */
  lemma {:induction false} MergeStep(a: seq<real>, b: seq<real>, i: nat, j: nat, d: real, i': nat, j': nat)
    requires a != [] && b != [] && Walked(a, b, i, j, d) && i < |a| && j < |b|
    requires i' == (if a[i] <= b[j] then i + 1 else i) && j' == (if b[j] <= a[i] then j + 1 else j)
    ensures Walked(a, b, i', j', Max(d, Dist(|a|, |b|, i', j')))
  {
    StepKeeps(a, b, i, j, d, if a[i] <= b[j] then a[i] else b[j], i', j');
  }

  lemma {:induction false} DistToOne(n1: nat, n2: nat, i: nat)
    requires n1 > 0 && n2 > 0
    ensures Dist(n1, n2, i, n2) == Abs(Share(i, n1) - 1.0)
    ensures Dist(n2, n1, n2, i) == Abs(1.0 - Share(i, n1))
  {
    assert n2 as real / n2 as real == 1.0;
  }

  /** The steps of the two loops that finish one sample. */
  lemma {:induction false} FirstRestStep(a: seq<real>, b: seq<real>, i: nat, d: real, diff: real)
    requires a != [] && b != [] && 0 < i <= |a| && Walked(a, b, i - 1, |b|, d) && diff == Abs(Share(i, |a|) - 1.0)
    ensures Walked(a, b, i, |b|, Max(d, diff))
  {
    DistToOne(|a|, |b|, i);
    StepKeeps(a, b, i - 1, |b|, d, a[i - 1], i, |b|);
  }

  lemma {:induction false} SecondRestStep(a: seq<real>, b: seq<real>, j: nat, d: real, diff: real)
    requires a != [] && b != [] && 0 < j <= |b| && Walked(a, b, |a|, j - 1, d) && diff == Abs(1.0 - Share(j, |b|))
    ensures Walked(a, b, |a|, j, Max(d, diff))
  {
    DistToOne(|b|, |a|, j);
    StepKeeps(a, b, |a|, j - 1, d, b[j - 1], |a|, j);
  }

  datatype KsResult = EmptySample | Statistic(d: real, rejectNull: bool)

  /** The square of the critical value c(alpha) * sqrt((n1 + n2) / (n1 * n2)). */
  function CriticalSquare(alpha: real, n1: nat, n2: nat): real
    requires n1 > 0 && n2 > 0
  {
    var cAlpha := if alpha == 0.01 then 1.628 else 1.358;
    cAlpha * cAlpha * ((n1 + n2) as real / (n1 as real * n2 as real))
  }

  predicate IsRoot(root: real, square: real) {
    root >= 0.0 && root * root == square
  }

  /** c(alpha) * sqrt((n1 + n2) / (n1 * n2)), with c 1.628 for alpha 0.01 and 1.358 otherwise. */
  predicate IsCritical(critical: real, alpha: real, n1: nat, n2: nat) {
    && critical >= 0.0
    && critical * critical * (n1 as real * n2 as real) ==
       (if alpha == 0.01 then 1.628 * 1.628 else 1.358 * 1.358) * (n1 + n2) as real
  }

  lemma {:induction false} Divided(x: real, y: real, d: real)
    requires d > 0.0 && x * d == y
    ensures x == y / d
  {
  }

  lemma {:induction false} CriticalIsRoot(critical: real, alpha: real, n1: nat, n2: nat)
    requires n1 > 0 && n2 > 0 && IsCritical(critical, alpha, n1, n2)
    ensures IsRoot(critical, CriticalSquare(alpha, n1, n2))
  {
    var c := if alpha == 0.01 then 1.628 * 1.628 else 1.358 * 1.358;
    var d, s := n1 as real * n2 as real, (n1 + n2) as real;
    PositiveProduct(n1 as real, n2 as real, d);
    Divided(critical * critical, c * s, d);
    Divided(c * (s / d), c * s, d);
  }

  /** Whether D exceeds the root of a number. */
  predicate Exceeds(d: real, square: real) {
    d * d > square
  }

  lemma {:induction false} PositiveProduct(x: real, y: real, p: real)
    requires p == x * y && x > 0.0
    ensures p > 0.0 <==> y > 0.0
  {
  }

  lemma {:induction false} ExceedsRoot(d: real, square: real, root: real)
    requires d >= 0.0 && IsRoot(root, square)
    ensures Exceeds(d, square) <==> d > root
  {
    if d + root > 0.0 {
      var p := (d + root) * (d - root);
      assert p == d * d - square;
      PositiveProduct(d + root, d - root, p);
    }
  }

  /** The main loop, and then the rest. */
  method Walk(s1: seq<real>, s2: seq<real>) returns (dMax: real)
    requires s1 != [] && s2 != [] && Sorted(s1) && Sorted(s2)
    ensures Walked(s1, s2, |s1|, |s2|, dMax)
  {
    var n1, n2 := |s1|, |s2|;
    var i: nat, j: nat := 0, 0;
    dMax := 0.0;
    StartsWalked(s1, s2);
    while i < n1 && j < n2
      invariant Walked(s1, s2, i, j, dMax)
    {
      var v1, v2 := s1[i], s2[j];
      ghost var i0: nat, j0: nat := i, j;
      if v1 <= v2 {
        i := i + 1;
      }
      if v2 <= v1 {
        j := j + 1;
      }
      MergeStep(s1, s2, i0, j0, dMax, i, j);
      var diff := Dist(n1, n2, i, j);
      if diff > dMax {
        dMax := diff;
      }
    }
    dMax := Rest(s1, s2, i, j, dMax);
  }

  /** The two loops over what is left of one sample. */
  method Rest(s1: seq<real>, s2: seq<real>, i0: nat, j0: nat, d0: real) returns (dMax: real)
    requires s1 != [] && s2 != [] && Walked(s1, s2, i0, j0, d0) && (i0 < |s1| ==> j0 == |s2|)
    ensures Walked(s1, s2, |s1|, |s2|, dMax)
  {
    var n1, n2 := |s1|, |s2|;
    var i: nat, j: nat := i0, j0;
    dMax := d0;
    while i < n1
      invariant Walked(s1, s2, i, j, dMax) && (i < n1 ==> j == n2)
    {
      i := i + 1;
      var diff := Abs(Share(i, n1) - 1.0);
      FirstRestStep(s1, s2, i, dMax, diff);
      if diff > dMax {
        dMax := diff;
      }
    }
    while j < n2
      invariant Walked(s1, s2, i, j, dMax) && i == n1
    {
      j := j + 1;
      var diff := Abs(1.0 - Share(j, n2));
      SecondRestStep(s1, s2, j, dMax, diff);
      if diff > dMax {
        dMax := diff;
      }
    }
  }

  method ComputeTwoSampleKsTest(sample1: seq<real>, sample2: seq<real>, alpha: real := 0.05) returns (r: KsResult)
    ensures r.EmptySample? <==> sample1 == [] || sample2 == []
    ensures r.Statistic? ==> 0.0 <= r.d <= 1.0 && IsStatistic(sample1, sample2, r.d)
    ensures r.Statistic? ==> forall critical: real ::
              IsCritical(critical, alpha, |sample1|, |sample2|) ==> (r.rejectNull <==> r.d > critical)
  {
    if |sample1| == 0 || |sample2| == 0 {
      return EmptySample;
    }
    SortKeeps(sample1);
    SortKeeps(sample2);
    var s1, s2 := Sort(sample1), Sort(sample2);
    var dMax := Walk(s1, s2);
    EndsWalked(s1, s2, dMax);
    SortedStatistic(sample1, sample2, dMax);
    var square := CriticalSquare(alpha, |sample1|, |sample2|);
    forall critical: real | IsCritical(critical, alpha, |sample1|, |sample2|)
      ensures Exceeds(dMax, square) <==> dMax > critical
    {
      CriticalIsRoot(critical, alpha, |sample1|, |sample2|);
      ExceedsRoot(dMax, square, critical);
    }
    r := Statistic(dMax, Exceeds(dMax, square));
  }
}
