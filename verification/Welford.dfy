/**
 WelfordStats over the reals: count, mean and sum of squared deviations, one value at a time or
 by merging. Both ways the state is exactly that of the values seen.
 */
module Welford {

  function Sum(xs: seq<real>): real {
    if xs == [] then 0.0 else Sum(xs[..|xs| - 1]) + xs[|xs| - 1]
  }

  /** `m` is the mean of the values; of no values, zero. */
  predicate IsMean(xs: seq<real>, m: real) {
    Sum(xs) == |xs| as real * m && (xs == [] ==> m == 0.0)
  }

  lemma {:induction false} MeanIsQuotient(xs: seq<real>, m: real)
    requires IsMean(xs, m) && xs != []
    ensures m == Sum(xs) / |xs| as real
  {
  }

  function Square(x: real): real {
    x * x
  }

  function Minus(xs: seq<real>, c: real): (r: seq<real>)
    ensures |r| == |xs| && forall i :: 0 <= i < |xs| ==> r[i] == xs[i] - c
  {
    seq(|xs|, i requires 0 <= i < |xs| => xs[i] - c)
  }

  function Squares(xs: seq<real>): (r: seq<real>)
    ensures |r| == |xs| && forall i :: 0 <= i < |xs| ==> r[i] == Square(xs[i])
  {
    seq(|xs|, i requires 0 <= i < |xs| => Square(xs[i]))
  }

  function Scaled(xs: seq<real>, k: real): (r: seq<real>)
    ensures |r| == |xs| && forall i :: 0 <= i < |xs| ==> r[i] == k * xs[i]
  {
    seq(|xs|, i requires 0 <= i < |xs| => k * xs[i])
  }

  function Copies(n: nat, v: real): (r: seq<real>)
    ensures |r| == n && forall i :: 0 <= i < n ==> r[i] == v
  {
    seq(n, _ => v)
  }

  function Added(xs: seq<real>, ys: seq<real>): (r: seq<real>)
    requires |xs| == |ys|
    ensures |r| == |xs| && forall i :: 0 <= i < |xs| ==> r[i] == xs[i] + ys[i]
  {
    seq(|xs|, i requires 0 <= i < |xs| => xs[i] + ys[i])
  }

  /** The sum of squared deviations from `c`. */
  function Deviation(xs: seq<real>, c: real): real {
    Sum(Squares(Minus(xs, c)))
  }

  lemma {:induction false} SumJoins(xs: seq<real>, ys: seq<real>)
    ensures Sum(xs + ys) == Sum(xs) + Sum(ys)
  {
    if ys == [] {
      assert xs + ys == xs;
    } else {
      SumJoins(xs, ys[..|ys| - 1]);
      assert (xs + ys)[..|xs + ys| - 1] == xs + ys[..|ys| - 1];
    }
  }

  lemma {:induction false} DeviationJoins(xs: seq<real>, ys: seq<real>, c: real)
    ensures Deviation(xs + ys, c) == Deviation(xs, c) + Deviation(ys, c)
  {
    assert Squares(Minus(xs + ys, c)) == Squares(Minus(xs, c)) + Squares(Minus(ys, c));
    SumJoins(Squares(Minus(xs, c)), Squares(Minus(ys, c)));
  }

  lemma {:induction false} SumNotNegative(xs: seq<real>)
    requires forall i :: 0 <= i < |xs| ==> xs[i] >= 0.0
    ensures Sum(xs) >= 0.0
  {
    if xs != [] { SumNotNegative(xs[..|xs| - 1]); }
  }

  lemma {:induction false} SumAdds(xs: seq<real>, ys: seq<real>, zs: seq<real>)
    requires |xs| == |ys| == |zs| && forall i :: 0 <= i < |xs| ==> xs[i] == ys[i] + zs[i]
    ensures Sum(xs) == Sum(ys) + Sum(zs)
  {
    if xs != [] { SumAdds(xs[..|xs| - 1], ys[..|ys| - 1], zs[..|zs| - 1]); }
  }

  lemma {:induction false} SumScales(xs: seq<real>, ys: seq<real>, k: real)
    requires |ys| == |xs| && forall i :: 0 <= i < |xs| ==> ys[i] == k * xs[i]
    ensures Sum(ys) == k * Sum(xs)
  {
    if xs != [] {
      SumScales(xs[..|xs| - 1], ys[..|ys| - 1], k);
      Distributes(k, Sum(xs[..|xs| - 1]), xs[|xs| - 1]);
    }
  }

  lemma {:induction false} Distributes(k: real, x: real, y: real)
    ensures k * (x + y) == k * x + k * y
  {
  }

  lemma {:induction false} SumOfCopies(n: nat, xs: seq<real>, v: real)
    requires |xs| == n && forall i :: 0 <= i < n ==> xs[i] == v
    ensures Sum(xs) == n as real * v
  {
    if n > 0 {
      SumOfCopies(n - 1, xs[..n - 1], v);
      Distributes(v, (n - 1) as real, 1.0);
    }
  }

  /** Deviations from the mean add up to nothing. */
  lemma {:induction false} MeanBalances(xs: seq<real>, m: real)
    requires IsMean(xs, m)
    ensures Sum(Minus(xs, m)) == 0.0
  {
    SumAdds(xs, Minus(xs, m), Copies(|xs|, m));
    SumOfCopies(|xs|, Copies(|xs|, m), m);
  }

  lemma {:induction false} SquareOfSum(f: real, e: real, k: real, g: real)
    requires k == 2.0 * e && g == f + e
    ensures Square(g) == Square(f) + (k * f + Square(e))
  {
  }

  lemma {:induction false} ShiftTerms(xs: seq<real>, ys: seq<real>, e: real)
    requires |ys| == |xs| && forall i :: 0 <= i < |xs| ==> ys[i] == xs[i] + e
    ensures Sum(Squares(ys)) == Sum(Squares(xs)) + (Sum(Scaled(xs, 2.0 * e)) + Sum(Copies(|xs|, Square(e))))
  {
    var scaled, copies := Scaled(xs, 2.0 * e), Copies(|xs|, Square(e));
    var rest := Added(scaled, copies);
    forall i | 0 <= i < |xs| ensures Squares(ys)[i] == Squares(xs)[i] + rest[i] {
      SquareOfSum(xs[i], e, 2.0 * e, ys[i]);
      assert Squares(ys)[i] == Square(ys[i]) && Squares(xs)[i] == Square(xs[i]);
      assert rest[i] == scaled[i] + copies[i];
    }
    SumAdds(Squares(ys), Squares(xs), rest);
    SumAdds(rest, scaled, copies);
  }

  lemma {:induction false} SquareOf(n: real, e: real, u: real)
    requires e == u || e == -u
    ensures n * Square(e) == n * Square(u)
  {
    assert Square(e) == Square(u);
  }

  lemma {:induction false} ScaledBalances(xs: seq<real>, m: real, k: real)
    requires IsMean(xs, m)
    ensures Sum(Scaled(Minus(xs, m), k)) == 0.0
  {
    MeanBalances(xs, m);
    SumScales(Minus(xs, m), Scaled(Minus(xs, m), k), k);
    TimesZero(k, Sum(Minus(xs, m)));
  }

  lemma {:induction false} CopiesOfSquare(c: nat, n: real, e: real, u: real)
    requires n == c as real && (e == u || e == -u)
    ensures Sum(Copies(c, Square(e))) == n * Square(u)
  {
    SumOfCopies(c, Copies(c, Square(e)), Square(e));
    SquareOf(n, e, u);
  }

  /** From the mean, deviations grow with the square of the shift. */
  lemma {:induction false} MeanIsBest(xs: seq<real>, n: real, m: real, d: real, e: real)
    requires IsMean(xs, m) && n == |xs| as real && (d == m + e || d == m - e)
    ensures Deviation(xs, d) == Deviation(xs, m) + n * Square(e)
  {
    ShiftTerms(Minus(xs, m), Minus(xs, d), m - d);
    ScaledBalances(xs, m, 2.0 * (m - d));
    CopiesOfSquare(|xs|, n, m - d, e);
  }

  // ---------- the arithmetic of joining n values to k values ----------

  lemma {:induction false} JoinedMean(n: real, k: real, t: real, a: real, b: real, delta: real, shift: real)
    requires n >= 0.0 && k > 0.0 && t == n + k && delta == b - a && shift == delta * k / t
    ensures t * (a + shift) == n * a + k * b
  {
    assert shift * t == delta * k;
    assert t * (a + shift) == t * a + t * shift;
    assert t * a == n * a + k * a;
    assert delta * k == k * b - k * a;
  }

  lemma {:induction false} JoinedSquares(n: real, k: real, t: real, delta: real, u: real, w: real)
    requires n >= 0.0 && k > 0.0 && t == n + k && u == delta * k / t && w == delta - u
    ensures n * Square(u) + k * Square(w) == delta * delta * n * k / t
  {
    assert u * t == delta * k;
    assert w * t == delta * n by {
      assert w * t == delta * t - u * t;
      assert delta * t == delta * n + delta * k;
    }
    var left := n * Square(u) + k * Square(w);
    assert left * t == n * u * (u * t) + k * w * (w * t);
    assert n * u * (u * t) == n * u * delta * k;
    assert k * w * (w * t) == k * w * delta * n;
    assert n * u * delta * k + k * w * delta * n == delta * n * k * (u + w);
    assert left * t == delta * delta * n * k;
    assert left == (left * t) / t;
  }

  // ---------- merge and update ----------

  /** merge: the state of two samples gives the state of one after the other. */
  lemma {:induction false} JoinExact(
    xs: seq<real>, ys: seq<real>, n: real, k: real, t: real, a: real, b: real, delta: real, shift: real, spread: real)
    requires n == |xs| as real && k == |ys| as real && k > 0.0 && t == n + k && IsMean(xs, a) && IsMean(ys, b)
    requires delta == b - a && shift == delta * k / t && spread == delta * delta * n * k / t
    ensures IsMean(xs + ys, a + shift)
    ensures Deviation(xs + ys, a + shift) == Deviation(xs, a) + (Deviation(ys, b) + spread)
  {
    var c := a + shift;
    assert IsMean(xs + ys, c) by {
      SumJoins(xs, ys);
      JoinedMean(n, k, t, a, b, delta, shift);
      SumOfMean(xs, n, a);
      SumOfMean(ys, k, b);
      MeanOfSum(xs + ys, t, c);
    }
    DeviationJoins(xs, ys, c);
    var w := delta - shift;
    MeanIsBest(xs, n, a, c, shift);
    MeanIsBest(ys, k, b, c, w);
    JoinedSquares(n, k, t, delta, shift, w);
  }

  lemma {:induction false} SumOfMean(xs: seq<real>, n: real, m: real)
    requires IsMean(xs, m) && n == |xs| as real
    ensures Sum(xs) == n * m
  {
  }

  lemma {:induction false} MeanOfSum(xs: seq<real>, n: real, m: real)
    requires n == |xs| as real && n > 0.0 && Sum(xs) == n * m
    ensures IsMean(xs, m)
  {
  }

  lemma {:induction false} TimesZero(a: real, z: real)
    requires z == 0.0
    ensures a * z == 0.0
  {
  }

  lemma {:induction false} Singleton(x: real)
    ensures IsMean([x], x) && Deviation([x], x) == 0.0
  {
    assert Sum([x]) == x by {
      assert [x][..0] == [];
    }
    var squares := Squares(Minus([x], x));
    assert squares == [Square(0.0)];
    assert Sum(squares) == 0.0 by {
      assert squares[..0] == [];
    }
  }

  lemma {:induction false} UpdateTerm(delta: real, n: real, k: real, delta2: real)
    requires n > 0.0 && k == n - 1.0 && delta2 == delta - delta / n
    ensures delta * delta * k * 1.0 / n == delta * delta2
  {
    var q := delta / n;
    assert q * n == delta;
    assert (delta - q) * n == delta * k;
    assert delta * (delta - q) * n == delta * (delta * k);
    assert delta * (delta * k) == delta * delta * k;
    assert delta * (delta - q) == (delta * (delta - q) * n) / n;
  }

  /** update: a new value is a sample of one. */
  lemma {:induction false} UpdateExact(
    xs: seq<real>, x: real, n: real, a: real, delta: real, shift: real, delta2: real, spread: real)
    requires n == |xs| as real + 1.0 && IsMean(xs, a)
    requires delta == x - a && shift == delta / n && delta2 == delta - shift && spread == delta * delta2
    ensures IsMean(xs + [x], a + shift)
    ensures Deviation(xs + [x], a + shift) == Deviation(xs, a) + spread
  {
    var k := |xs| as real;
    Singleton(x);
    assert delta * 1.0 == delta;
    UpdateTerm(delta, n, k, delta2);
    JoinExact(xs, [x], k, 1.0, n, a, x, delta, shift, spread);
  }

  class WelfordStats {
    var n: nat
    var m: real
    var s: real
    /** The values seen. */
    ghost var values: seq<real>

    /** The state is exactly that of the values. */
    ghost predicate Valid()
      reads this
    {
      n == |values| && IsMean(values, m) && s == Deviation(values, m)
    }

    constructor ()
      ensures Valid() && values == []
    {
      n, m, s, values := 0, 0.0, 0.0, [];
    }

    /** The mean of the values, if there are any. */
    function Mean(): (mean: real)
      requires Valid()
      reads this
      ensures n > 0 ==> mean == Sum(values) / n as real
    {
      if n > 0 then MeanIsQuotient(values, m); m else m
    }

    /** The sample variance. */
    function Variance(): (v: real)
      requires Valid()
      reads this
      ensures v >= 0.0 && (n <= 1 ==> v == 0.0)
      ensures n > 1 ==> v * (n - 1) as real == Deviation(values, Mean())
    {
      SumNotNegative(Squares(Minus(values, m)));
      if n > 1 then s / (n - 1) as real else 0.0
    }

    method Update(x: real)
      requires Valid()
      modifies this
      ensures Valid() && values == old(values) + [x]
    {
      n := n + 1;
      var delta := x - m;
      ghost var mean, shift := m, delta / n as real;
      m := m + delta / n as real;
      var delta2 := x - m;
      UpdateExact(values, x, n as real, mean, delta, shift, delta2, delta * delta2);
      s := s + delta * delta2;
      values := values + [x];
    }

    /** `other` may be this object itself. */
    method Merge(other: WelfordStats)
      requires Valid() && other.Valid()
      modifies this
      ensures Valid() && values == old(values) + old(other.values)
    {
      ghost var joined := values + other.values;
      if other.n == 0 {
        assert joined == values;
        return;
      }
      if n == 0 {
        assert joined == other.values;
        n := other.n;
        m := other.m;
        s := other.s;
        values := joined;
        return;
      }
      var newN := n + other.n;
      var thisCount, otherCount, count := n as real, other.n as real, newN as real;
      var delta := other.m - m;
      var shift := delta * otherCount / count;
      var spread := delta * delta * thisCount * otherCount / count;
      JoinExact(values, other.values, thisCount, otherCount, count, m, other.m, delta, shift, spread);
      m := m + shift;
      s := s + (other.s + spread);
      n := newN;
      values := joined;
    }
  }
}
