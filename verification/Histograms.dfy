/**
 LogLinearHistogram: counts per bucket in an Int32Array, with quantiles read off the counts.

 The bucket of a value is some non-decreasing function of it and the boundaries some
 non-decreasing table. Counts are exact modulo 2^32, the width of the array; a quantile is the
 midpoint of the bucket that holds the value of that rank.
 */
module Histograms {
  import opened KsTest

  const BUCKET_COUNT: nat := 512
  const MAX_SAFE_INTEGER: real := 9007199254740991.0

  type Buckets = real -> int

  function BucketOf(bucket: Buckets, v: real): int {
    bucket(v)
  }

  /** Larger values go to later buckets. */
  ghost predicate Monotone(bucket: Buckets) {
    && (forall v :: 0 <= BucketOf(bucket, v) < BUCKET_COUNT)
    && forall v, w :: v <= w ==> BucketOf(bucket, v) <= BucketOf(bucket, w)
  }

  ghost predicate Rising(boundaries: seq<int>) {
    |boundaries| == BUCKET_COUNT + 1
    && forall i, j :: 0 <= i <= j <= BUCKET_COUNT ==> boundaries[i] <= boundaries[j]
  }

  /** What a slot of an Int32Array keeps of an integer. */
  function Int32(x: int): (slot: int)
    ensures -0x8000_0000 <= slot < 0x8000_0000
    ensures -0x8000_0000 <= x < 0x8000_0000 ==> slot == x
  {
    (x + 0x8000_0000) % 0x1_0000_0000 - 0x8000_0000
  }

  /** How many values fall into bucket `i`. */
  function InBucket(values: seq<real>, bucket: Buckets, i: int): (n: nat)
    ensures n <= |values|
  {
    if values == [] then 0
    else InBucket(values[..|values| - 1], bucket, i) + if BucketOf(bucket, values[|values| - 1]) == i then 1 else 0
  }

  /** How many fall into the buckets up to `i`. */
  function UpTo(values: seq<real>, bucket: Buckets, i: int): (n: nat)
    ensures n <= |values|
  {
    if values == [] then 0
    else UpTo(values[..|values| - 1], bucket, i) + if BucketOf(bucket, values[|values| - 1]) <= i then 1 else 0
  }

  function Least(values: seq<real>): real {
    if values == [] then MAX_SAFE_INTEGER
    else
      var m, v := Least(values[..|values| - 1]), values[|values| - 1];
      if v < m then v else m
  }

  function Largest(values: seq<real>): real {
    if values == [] then 0.0
    else
      var m, v := Largest(values[..|values| - 1]), values[|values| - 1];
      if v > m then v else m
  }

  function Ceil(x: real): int {
    -((-x).Floor)
  }

  /** Math.round of the mean of two integers. */
  function Midpoint(low: int, high: int): (middle: int)
    ensures 0 <= 2 * middle - (low + high) <= 1
  {
    (low + high + 1) / 2
  }

  /** The k-th smallest value. */
  function Ranked(values: seq<real>, k: int): real
    requires 1 <= k <= |values|
  {
    SortKeeps(values);
    Sort(values)[k - 1]
  }

  lemma {:induction false} ModUnique(x: int, q: int, r: int)
    requires x == q * 0x1_0000_0000 + r && 0 <= r < 0x1_0000_0000
    ensures x % 0x1_0000_0000 == r
  {
    var d := x / 0x1_0000_0000 - q;
    assert d * 0x1_0000_0000 == r - x % 0x1_0000_0000;
  }

  /** Multiples of 2^32 are lost. */
  lemma {:induction false} Int32Drops(a: int, k: int)
    ensures Int32(a + k * 0x1_0000_0000) == Int32(a)
  {
    var x := a + 0x8000_0000;
    ModUnique(x + k * 0x1_0000_0000, x / 0x1_0000_0000 + k, x % 0x1_0000_0000);
  }

  lemma {:induction false} Int32Differs(a: int) returns (k: int)
    ensures Int32(a) == a + k * 0x1_0000_0000
  {
    k := -((a + 0x8000_0000) / 0x1_0000_0000);
  }

  lemma {:induction false} Int32Adds(a: int, b: int)
    ensures Int32(Int32(a) + b) == Int32(a + b)
    ensures Int32(Int32(a) + Int32(b)) == Int32(a + b)
  {
    var k := Int32Differs(a);
    var m := Int32Differs(b);
    Int32Drops(a + b, k);
    Int32Drops(a + b, k + m);
  }

  /** The slots hold the counts of the values. */
  ghost predicate Tallies(slots: seq<int>, values: seq<real>, bucket: Buckets) {
    |slots| == BUCKET_COUNT && forall i :: 0 <= i < BUCKET_COUNT ==> slots[i] == Int32(InBucket(values, bucket, i))
  }

  lemma {:induction false} TallyOne(slots: seq<int>, values: seq<real>, bucket: Buckets, v: real)
    requires Monotone(bucket) && Tallies(slots, values, bucket)
    ensures Tallies(slots[BucketOf(bucket, v) := Int32(slots[BucketOf(bucket, v)] + 1)], values + [v], bucket)
  {
    assert (values + [v])[..|values|] == values;
    Int32Adds(InBucket(values, bucket, BucketOf(bucket, v)), 1);
  }

  lemma {:induction false} TallyBoth(
    mine: seq<int>, theirs: seq<int>, sums: seq<int>, xs: seq<real>, ys: seq<real>, bucket: Buckets)
    requires Tallies(mine, xs, bucket) && Tallies(theirs, ys, bucket) && |sums| == BUCKET_COUNT
    requires forall i :: 0 <= i < BUCKET_COUNT ==> sums[i] == Int32(mine[i] + theirs[i])
    ensures Tallies(sums, xs + ys, bucket)
  {
    forall i | 0 <= i < BUCKET_COUNT ensures sums[i] == Int32(InBucket(xs + ys, bucket, i)) {
      InBucketJoins(xs, ys, bucket, i);
      Int32Adds(InBucket(xs, bucket, i), InBucket(ys, bucket, i));
    }
  }

  // ---------- counting ----------

  lemma {:induction false} InBucketJoins(xs: seq<real>, ys: seq<real>, bucket: Buckets, i: int)
    ensures InBucket(xs + ys, bucket, i) == InBucket(xs, bucket, i) + InBucket(ys, bucket, i)
  {
    if ys == [] {
      assert xs + ys == xs;
    } else {
      InBucketJoins(xs, ys[..|ys| - 1], bucket, i);
      assert (xs + ys)[..|xs + ys| - 1] == xs + ys[..|ys| - 1];
    }
  }

  lemma {:induction false} ExtremesJoin(xs: seq<real>, ys: seq<real>)
    ensures Least(xs + ys) == if Least(ys) < Least(xs) then Least(ys) else Least(xs)
    ensures Largest(xs + ys) == if Largest(ys) > Largest(xs) then Largest(ys) else Largest(xs)
  {
    if ys == [] {
      assert xs + ys == xs;
      LeastBounded(xs);
    } else {
      ExtremesJoin(xs, ys[..|ys| - 1]);
      assert (xs + ys)[..|xs + ys| - 1] == xs + ys[..|ys| - 1];
    }
  }

  lemma {:induction false} ExtremesPush(values: seq<real>, v: real)
    ensures Least(values + [v]) == if v < Least(values) then v else Least(values)
    ensures Largest(values + [v]) == if v > Largest(values) then v else Largest(values)
  {
    assert (values + [v])[..|values|] == values;
  }

  lemma {:induction false} LeastBounded(xs: seq<real>)
    ensures Least(xs) <= MAX_SAFE_INTEGER && Largest(xs) >= 0.0
  {
    if xs != [] { LeastBounded(xs[..|xs| - 1]); }
  }

  /** The least value, unless all are beyond the largest safe integer, and the largest. */
  lemma {:induction false} ExtremesMean(values: seq<real>)
    requires forall v :: v in values ==> v >= 0.0
    ensures forall v :: v in values ==> Least(values) <= v <= Largest(values)
    ensures Least(values) in values || Least(values) == 9007199254740991.0
    ensures Largest(values) in values || Largest(values) == 0.0
  {
    if values != [] {
      var front, last := values[..|values| - 1], values[|values| - 1];
      assert values == front + [last];
      assert forall v :: v in front ==> v in values;
      ExtremesMean(front);
    }
  }

  lemma {:induction false} UpToNext(values: seq<real>, bucket: Buckets, i: int)
    ensures UpTo(values, bucket, i) == UpTo(values, bucket, i - 1) + InBucket(values, bucket, i)
  {
    if values != [] { UpToNext(values[..|values| - 1], bucket, i); }
  }

  lemma {:induction false} UpToEnds(values: seq<real>, bucket: Buckets)
    requires Monotone(bucket)
    ensures UpTo(values, bucket, -1) == 0 && UpTo(values, bucket, BUCKET_COUNT - 1) == |values|
  {
    if values != [] {
      UpToEnds(values[..|values| - 1], bucket);
      assert 0 <= BucketOf(bucket, values[|values| - 1]) < BUCKET_COUNT;
    }
  }

  lemma {:induction false} CountsPush(values: seq<real>, x: real, v: real)
    ensures AtMost(values + [x], v) == AtMost(values, v) + if x <= v then 1 else 0
    ensures Below(values + [x], v) == Below(values, v) + if x < v then 1 else 0
  {
    if values == [] {
      assert values + [x] == [x] && [x][1..] == [];
    } else {
      CountsPush(values[1..], x, v);
      assert (values + [x])[1..] == values[1..] + [x];
    }
  }

  /** The bucket of `v` comes when at least the values up to `v` are counted, and not before. */
  lemma {:induction false} BucketCounts(values: seq<real>, bucket: Buckets, v: real)
    requires Monotone(bucket)
    ensures UpTo(values, bucket, BucketOf(bucket, v)) >= AtMost(values, v)
    ensures forall i :: i < BucketOf(bucket, v) ==> UpTo(values, bucket, i) <= Below(values, v)
  {
    if values != [] {
      var front, last := values[..|values| - 1], values[|values| - 1];
      BucketCounts(front, bucket, v);
      CountsPush(front, last, v);
      assert values == front + [last];
    }
  }

  lemma {:induction false} RankedCounts(values: seq<real>, k: int)
    requires 1 <= k <= |values|
    ensures Below(values, Ranked(values, k)) < k <= AtMost(values, Ranked(values, k))
  {
    SortKeeps(values);
    CountsArePositions(Sort(values), Ranked(values, k), k - 1);
  }

  /** The first bucket at which the running count reaches a rank is the bucket of the value of that rank. */
  lemma {:induction false} FirstReaching(values: seq<real>, bucket: Buckets, k: int, i: int)
    requires Monotone(bucket) && 1 <= k <= |values|
    requires UpTo(values, bucket, i - 1) < k <= UpTo(values, bucket, i)
    ensures i == BucketOf(bucket, Ranked(values, k))
  {
    var v := Ranked(values, k);
    RankedCounts(values, k);
    BucketCounts(values, bucket, v);
    if i > BucketOf(bucket, v) {
      UpToMonotone(values, bucket, BucketOf(bucket, v), i - 1);
    }
  }

  lemma {:induction false} UpToMonotone(values: seq<real>, bucket: Buckets, i: int, j: int)
    requires i <= j
    ensures UpTo(values, bucket, i) <= UpTo(values, bucket, j)
  {
    if values != [] { UpToMonotone(values[..|values| - 1], bucket, i, j); }
  }

  /** The rank of a share among `n` values. */
  function RankOf(q: real, n: nat): int {
    Ceil(q * n as real)
  }

  lemma {:induction false} ShareBetween(q: real, n: real, x: real)
    requires 0.0 < q < 1.0 && n > 0.0 && x == q * n
    ensures 0.0 < x < n
  {
    PositiveProduct(n, q, x);
    assert n * (1.0 - q) == n - x;
    PositiveProduct(n, 1.0 - q, n - x);
  }

  lemma {:induction false} CeilBetween(x: real, n: nat)
    requires 0.0 < x < n as real
    ensures 1 <= Ceil(x) <= n
  {
  }

  lemma {:induction false} RankInRange(q: real, n: nat)
    requires 0.0 < q < 1.0 && n > 0
    ensures 1 <= RankOf(q, n) <= n
  {
    var x := q * n as real;
    ShareBetween(q, n as real, x);
    CeilBetween(x, n);
  }

  lemma {:induction false} SharesInOrder(p: real, q: real, n: real, x: real, y: real)
    requires p <= q && n >= 0.0 && x == p * n && y == q * n
    ensures x <= y
  {
    assert n * (q - p) == y - x;
    Sign(n, q - p, y - x);
  }

  lemma {:induction false} CeilMonotone(x: real, y: real)
    requires x <= y
    ensures Ceil(x) <= Ceil(y)
  {
  }

  lemma {:induction false} RankMonotone(p: real, q: real, n: nat)
    requires p <= q
    ensures RankOf(p, n) <= RankOf(q, n)
  {
    var x, y := p * n as real, q * n as real;
    SharesInOrder(p, q, n as real, x, y);
    CeilMonotone(x, y);
  }

  /** The midpoint of the bucket that holds the k-th smallest value. */
  function MidpointAt(values: seq<real>, bucket: Buckets, boundaries: seq<int>, k: int): int
    requires Monotone(bucket) && Rising(boundaries) && 1 <= k <= |values|
  {
    var i := BucketOf(bucket, Ranked(values, k));
    Midpoint(boundaries[i], boundaries[i + 1])
  }

  lemma {:induction false} MidpointMonotone(values: seq<real>, bucket: Buckets, boundaries: seq<int>, j: int, k: int)
    requires Monotone(bucket) && Rising(boundaries) && 1 <= j <= k <= |values|
    ensures MidpointAt(values, bucket, boundaries, j) <= MidpointAt(values, bucket, boundaries, k)
  {
    SortKeeps(values);
    assert BucketOf(bucket, Ranked(values, j)) <= BucketOf(bucket, Ranked(values, k));
  }

  /** Between the endpoints, the quantile of the values. */
  function Quantile(values: seq<real>, bucket: Buckets, boundaries: seq<int>, q: real): int
    requires Monotone(bucket) && Rising(boundaries) && values != [] && 0.0 < q < 1.0
  {
    RankInRange(q, |values|);
    MidpointAt(values, bucket, boundaries, RankOf(q, |values|))
  }

  /** The rank of a share is the share of the values, rounded up. */
  ghost predicate RankOfShare(rank: int, share: real) {
    rank as real - 1.0 < share <= rank as real
  }

  /** In sorted order, `v` stands at position `rank`, counted from one. */
  ghost predicate HasRank(values: seq<real>, v: real, rank: int) {
    v in values && Below(values, v) < rank <= AtMost(values, v)
  }

  /** Halfway through the bucket of the value whose rank is the share, rounded up. */
  ghost predicate IsQuantile(values: seq<real>, bucket: Buckets, boundaries: seq<int>, q: real, r: real)
    requires Rising(boundaries)
  {
    exists rank: int, v: real ::
      && RankOfShare(rank, q * |values| as real) && HasRank(values, v, rank) && 0 <= bucket(v) < BUCKET_COUNT
      && Halfway(r, boundaries[bucket(v)], boundaries[bucket(v) + 1])
  }

  lemma {:induction false} HalfwayMidpoint(low: int, high: int)
    ensures Halfway(Midpoint(low, high) as real, low, high)
  {
  }

  lemma {:induction false} QuantileMeans(values: seq<real>, bucket: Buckets, boundaries: seq<int>, q: real)
    requires Monotone(bucket) && Rising(boundaries) && values != [] && 0.0 < q < 1.0
    ensures IsQuantile(values, bucket, boundaries, q, Quantile(values, bucket, boundaries, q) as real)
  {
    var rank := RankOf(q, |values|);
    RankInRange(q, |values|);
    var v := Ranked(values, rank);
    RankedCounts(values, rank);
    SortKeeps(values);
    assert 0 <= BucketOf(bucket, v) < BUCKET_COUNT;
    HalfwayMidpoint(boundaries[bucket(v)], boundaries[bucket(v) + 1]);
    assert RankOfShare(rank, q * |values| as real) && HasRank(values, v, rank);
  }

  /** A larger share never has the smaller quantile. */
  lemma {:induction false} QuantileMonotone(values: seq<real>, bucket: Buckets, boundaries: seq<int>, p: real, q: real)
    requires Monotone(bucket) && Rising(boundaries) && values != [] && 0.0 < p <= q < 1.0
    ensures Quantile(values, bucket, boundaries, p) <= Quantile(values, bucket, boundaries, q)
  {
    RankInRange(p, |values|);
    RankInRange(q, |values|);
    RankMonotone(p, q, |values|);
    MidpointMonotone(values, bucket, boundaries, RankOf(p, |values|), RankOf(q, |values|));
  }

  // ---------- reading the slots ----------

  /** The sum of the first `k` slots. */
  function Running(slots: seq<int>, k: nat): int
    requires k <= |slots|
  {
    if k == 0 then 0 else Running(slots, k - 1) + slots[k - 1]
  }

  /** The first slot at which the running sum reaches the rank; the number of slots if none does. */
  ghost predicate Reaches(slots: seq<int>, rank: int, i: nat) {
    && i <= |slots|
    && (forall k: nat :: k <= i ==> k == 0 || Running(slots, k) < rank)
    && (i < |slots| ==> Running(slots, i + 1) >= rank)
  }

  /** Halfway between two boundaries, in whole units, a half counting upwards. */
  ghost predicate Halfway(r: real, low: int, high: int) {
    r == r.Floor as real && 0.0 <= 2.0 * r - (low + high) as real <= 1.0
  }

  /** Halfway through the slot that reaches the rank, or the maximum if none does. */
  ghost predicate ReadAt(slots: seq<int>, boundaries: seq<int>, maxUs: real, rank: int, i: nat, r: real)
    requires |boundaries| == BUCKET_COUNT + 1
  {
    Reaches(slots, rank, i) && if i < BUCKET_COUNT then Halfway(r, boundaries[i], boundaries[i + 1]) else r == maxUs
  }

  /** What the slots say about a rank. */
  ghost predicate ReadOff(slots: seq<int>, boundaries: seq<int>, maxUs: real, rank: int, r: real)
    requires |boundaries| == BUCKET_COUNT + 1
  {
    exists i: nat :: ReadAt(slots, boundaries, maxUs, rank, i, r)
  }

  lemma {:induction false} ReadOffAt(slots: seq<int>, boundaries: seq<int>, maxUs: real, rank: int, i: nat)
    requires |boundaries| == BUCKET_COUNT + 1 && |slots| == BUCKET_COUNT && Reaches(slots, rank, i)
    ensures i < BUCKET_COUNT ==>
              ReadOff(slots, boundaries, maxUs, rank, Midpoint(boundaries[i], boundaries[i + 1]) as real)
    ensures i >= BUCKET_COUNT ==> ReadOff(slots, boundaries, maxUs, rank, maxUs)
  {
    if i < BUCKET_COUNT {
      HalfwayMidpoint(boundaries[i], boundaries[i + 1]);
      assert ReadAt(slots, boundaries, maxUs, rank, i, Midpoint(boundaries[i], boundaries[i + 1]) as real);
    } else {
      assert ReadAt(slots, boundaries, maxUs, rank, i, maxUs);
    }
  }

  /** No slot has counted past the range of its 32 bits. */
  ghost predicate Unwrapped(values: seq<real>, bucket: Buckets) {
    forall i :: 0 <= i < BUCKET_COUNT ==> InBucket(values, bucket, i) < 0x8000_0000
  }

  lemma {:induction false} RunningCounts(slots: seq<int>, values: seq<real>, bucket: Buckets, k: nat)
    requires Monotone(bucket) && Tallies(slots, values, bucket) && Unwrapped(values, bucket) && k <= BUCKET_COUNT
    ensures Running(slots, k) == UpTo(values, bucket, k - 1)
  {
    if k == 0 {
      UpToEnds(values, bucket);
    } else {
      RunningCounts(slots, values, bucket, k - 1);
      UpToNext(values, bucket, k - 1);
      assert slots[k - 1] == Int32(InBucket(values, bucket, k - 1)) == InBucket(values, bucket, k - 1);
    }
  }

  /** Without wrapping, the slot reached is the bucket of the value of that rank, and there is one. */
  lemma {:induction false} ReachesBucket(slots: seq<int>, values: seq<real>, bucket: Buckets, rank: int, i: nat)
    requires Monotone(bucket) && Tallies(slots, values, bucket) && Unwrapped(values, bucket)
    requires 1 <= rank <= |values| && Reaches(slots, rank, i)
    ensures i == BucketOf(bucket, Ranked(values, rank))
  {
    UpToEnds(values, bucket);
    RunningCounts(slots, values, bucket, i);
    assert i < BUCKET_COUNT;
    RunningCounts(slots, values, bucket, i + 1);
    FirstReaching(values, bucket, rank, i);
  }

  // ---------- the object ----------

  class LogLinearHistogram {
    const bucket: Buckets
    const boundaries: seq<int>
    const counts: array<int>
    var total: nat
    var minUs: real
    var maxUs: real
    /** The values recorded. */
    ghost var values: seq<real>

    ghost predicate Valid()
      reads this, counts
    {
      && Monotone(bucket) && Rising(boundaries) && counts.Length == BUCKET_COUNT
      && total == |values| && minUs == Least(values) && maxUs == Largest(values)
      && Tallies(counts[..], values, bucket)
    }

    constructor (bucket: Buckets, boundaries: seq<int>)
      requires Monotone(bucket) && Rising(boundaries)
      ensures Valid() && values == [] && fresh(counts) && this.bucket == bucket && this.boundaries == boundaries
      ensures counts.Length == 512 && forall i :: 0 <= i < 512 ==> counts[i] == 0
    {
      this.bucket := bucket;
      this.boundaries := boundaries;
      counts := new int[BUCKET_COUNT](_ => 0);
      total, minUs, maxUs, values := 0, MAX_SAFE_INTEGER, 0.0, [];
    }

    /** Negative values are ignored. */
    method Record(valUs: real)
      requires Valid()
      modifies this, counts
      ensures Valid() && values == if valUs < 0.0 then old(values) else old(values) + [valUs]
    {
      if valUs < 0.0 {
        return;
      }
      Count(valUs);
    }

    method Count(valUs: real)
      requires Valid() && valUs >= 0.0
      modifies this, counts
      ensures Valid() && values == old(values) + [valUs]
    {
      ghost var slots, more := counts[..], values + [valUs];
      ExtremesPush(values, valUs);
      TallyOne(slots, values, bucket, valUs);
      var bucketIdx := BucketOf(bucket, valUs);
      total := total + 1;
      if valUs < minUs {
        minUs := valUs;
      }
      if valUs > maxUs {
        maxUs := valUs;
      }
      counts[bucketIdx] := Int32(counts[bucketIdx] + 1);
      assert counts[..] == slots[bucketIdx := Int32(slots[bucketIdx] + 1)];
      values := more;
    }

    /**
     Strictly between the endpoints, what the slots say; and that is the quantile of the values
     as long as no slot has wrapped.
    */
    method GetQuantile(q: real) returns (r: real)
      requires Valid()
      ensures values == [] ==> r == 0.0
      ensures values != [] && q <= 0.0 ==> r == Least(values)
      ensures values != [] && q >= 1.0 ==> r == Largest(values)
      ensures values != [] && 0.0 < q < 1.0 ==>
                ReadOff(counts[..], boundaries, maxUs, RankOf(q, |values|), r)
      ensures values != [] && 0.0 < q < 1.0 && Unwrapped(values, bucket) ==>
                r == Quantile(values, bucket, boundaries, q) as real
      ensures values != [] && 0.0 < q < 1.0 && Unwrapped(values, bucket) ==>
                IsQuantile(values, bucket, boundaries, q, r)
    {
      if total == 0 {
        return 0.0;
      }
      if q <= 0.0 {
        return minUs;
      }
      if q >= 1.0 {
        return maxUs;
      }
      RankInRange(q, total);
      QuantileMeans(values, bucket, boundaries, q);
      ghost var answer := Quantile(values, bucket, boundaries, q) as real;
      r := AtRank(RankOf(q, total));
      assert Unwrapped(values, bucket) ==> r == answer;
    }

    method AtRank(rank: int) returns (r: real)
      requires Valid() && 1 <= rank <= |values|
      ensures ReadOff(counts[..], boundaries, maxUs, rank, r)
      ensures Unwrapped(values, bucket) ==> r == MidpointAt(values, bucket, boundaries, rank) as real
    {
      var i := BucketOfRank(rank);
      if Unwrapped(values, bucket) {
        ReachesBucket(counts[..], values, bucket, rank, i);
      }
      ReadOffAt(counts[..], boundaries, maxUs, rank, i);
      r := if i < BUCKET_COUNT then Midpoint(boundaries[i], boundaries[i + 1]) as real else maxUs;
    }

    /** The loop over the buckets; past the last one means that the rank was not reached. */
    method BucketOfRank(rank: int) returns (i: nat)
      requires Valid() && 1 <= rank <= |values|
      ensures Reaches(counts[..], rank, i)
      ensures Unwrapped(values, bucket) ==> i == BucketOf(bucket, Ranked(values, rank))
    {
      i := 0;
      var running := 0;
      ghost var slots := counts[..];
      while i < BUCKET_COUNT
        invariant i <= BUCKET_COUNT && running == Running(slots, i)
        invariant forall k: nat :: k <= i ==> k == 0 || Running(slots, k) < rank
      {
        running := running + counts[i];
        if running >= rank {
          break;
        }
        i := i + 1;
      }
      if Unwrapped(values, bucket) {
        ReachesBucket(slots, values, bucket, rank, i);
      }
    }

    /** `other` may be this histogram itself. */
    method Merge(other: LogLinearHistogram)
      requires Valid() && other.Valid() && other.bucket == bucket && other.boundaries == boundaries
      requires other == this || other.counts != counts
      modifies this, counts
      ensures Valid() && values == old(values) + old(other.values)
    {
      ghost var xs, ys := values, other.values;
      ghost var mine, theirs := counts[..], other.counts[..];
      for i := 0 to BUCKET_COUNT
        invariant unchanged(this) && unchanged(other)
        invariant forall j :: 0 <= j < i ==> counts[j] == Int32(mine[j] + theirs[j])
        invariant forall j :: i <= j < BUCKET_COUNT ==> counts[j] == mine[j] && other.counts[j] == theirs[j]
      {
        counts[i] := Int32(counts[i] + other.counts[i]);
      }
      TallyBoth(mine, theirs, counts[..], xs, ys, bucket);
      ExtremesJoin(xs, ys);
      total := total + other.total;
      if other.minUs < minUs {
        minUs := other.minUs;
      }
      if other.maxUs > maxUs {
        maxUs := other.maxUs;
      }
      values := xs + ys;
    }
  }
}
