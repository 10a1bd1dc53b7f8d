/** Sums, means, extremes and the sample variance of a numeric sample.
    These are the pandas/numpy reductions (`sum`, `mean`, `max`, `min`,
    `std(ddof=1)`) that every statistical cell of the notebook relies on,
    stated over exact reals. */
module Sums {

  /** A value that may be missing: an empty sample has no mean. */
  datatype Option<T> = None | Some(value: T)

  /** Sum of the sample, first element first. */
  function Sum(s: seq<real>): real
  {
    if |s| == 0 then 0.0 else s[0] + Sum(s[1..])
  }

  /** The column of products x*y of paired observations (the `xy` column
      of the regression table). */
  function Products(xs: seq<real>, ys: seq<real>): (r: seq<real>)
    requires |xs| == |ys|
    ensures |r| == |xs|
    ensures forall i :: 0 <= i < |xs| ==> r[i] == xs[i] * ys[i]
  {
    seq(|xs|, i requires 0 <= i < |xs| => xs[i] * ys[i])
  }

  /** The column of squares x*x (the `x2` column). */
  function Squares(s: seq<real>): (r: seq<real>)
    ensures |r| == |s|
  {
    Products(s, s)
  }

  /** Sum of squared deviations (x - c)^2 from a centre c. */
  function SumSqDev(s: seq<real>, c: real): real
  {
    if |s| == 0 then 0.0 else (s[0] - c) * (s[0] - c) + SumSqDev(s[1..], c)
  }

  /** Arithmetic mean (pandas `mean`). */
  function Mean(s: seq<real>): real
    requires |s| > 0
  {
    Sum(s) / |s| as real
  }

  /** Sample variance with divisor N - 1 (pandas `std()` squared, numpy `std(ddof=1)` squared). */
  function Variance(s: seq<real>): real
    requires |s| >= 2
  {
    SumSqDev(s, Mean(s)) / (|s| - 1) as real
  }

  /** Largest observation (pandas `max`). */
  function Max(s: seq<real>): (m: real)
    requires |s| > 0
    ensures m in s
    ensures forall i :: 0 <= i < |s| ==> s[i] <= m
  {
    if |s| == 1 then s[0]
    else
      var rest := Max(s[1..]);
      assert forall i :: 1 <= i < |s| ==> s[i] == s[1..][i - 1];
      if s[0] >= rest then s[0] else rest
  }

  /** Smallest observation (pandas `min`). */
  function Min(s: seq<real>): (m: real)
    requires |s| > 0
    ensures m in s
    ensures forall i :: 0 <= i < |s| ==> m <= s[i]
  {
    if |s| == 1 then s[0]
    else
      var rest := Min(s[1..]);
      assert forall i :: 1 <= i < |s| ==> s[i] == s[1..][i - 1];
      if s[0] <= rest then s[0] else rest
  }

  predicate AllEqual(s: seq<real>)
  {
    forall i, j :: 0 <= i < |s| && 0 <= j < |s| ==> s[i] == s[j]
  }

  /** Summing a concatenation sums the parts. */
  lemma {:induction false} SumAppend(a: seq<real>, b: seq<real>)
    ensures Sum(a + b) == Sum(a) + Sum(b)
  {
    if |a| > 0 {
      assert (a + b)[1..] == a[1..] + b;
      SumAppend(a[1..], b);
    } else {
      assert a + b == b;
    }
  }

  /** The sum is at most N times the maximum and at least N times the minimum. */
  lemma {:induction false} SumBounds(s: seq<real>, lo: real, hi: real)
    requires forall i :: 0 <= i < |s| ==> lo <= s[i] <= hi
    ensures |s| as real * lo <= Sum(s) <= |s| as real * hi
  {
    if |s| > 0 {
      assert forall i :: 0 <= i < |s| - 1 ==> s[1..][i] == s[i + 1];
      SumBounds(s[1..], lo, hi);
    }
  }

  /** Dividing bounds n*lo <= a <= n*hi by a positive n. */
  lemma DivideBounds(a: real, n: real, lo: real, hi: real)
    requires n > 0.0 && n * lo <= a <= n * hi
    ensures lo <= a / n <= hi
  {
    var q := a / n;
    assert a == n * q;
  }

  /** A square is never negative, and positive for a nonzero number. */
  lemma SquarePositive(d: real)
    ensures d * d >= 0.0
    ensures d != 0.0 ==> d * d > 0.0
  {
    if d < 0.0 {
      var e := -d;
      assert e * e > 0.0;
      assert d * d == e * e;
    }
  }

  /** A mean of observations that all lie in [lo, hi] lies in [lo, hi]. */
  lemma MeanBounds(s: seq<real>, lo: real, hi: real)
    requires |s| > 0
    requires forall i :: 0 <= i < |s| ==> lo <= s[i] <= hi
    ensures lo <= Mean(s) <= hi
  {
    SumBounds(s, lo, hi);
    DivideBounds(Sum(s), |s| as real, lo, hi);
  }

  /** The mean lies between the smallest and the largest observation. */
  lemma MeanBetweenMinMax(s: seq<real>)
    requires |s| > 0
    ensures Min(s) <= Mean(s) <= Max(s)
  {
    MeanBounds(s, Min(s), Max(s));
  }

  /** Peeling the first observation off a sum of squared deviations: the
      sum grows by a nonnegative amount, a positive one when that
      observation is off the centre. */
  lemma SumSqDevStep(s: seq<real>, c: real)
    requires |s| > 0
    ensures SumSqDev(s, c) >= SumSqDev(s[1..], c)
    ensures s[0] != c ==> SumSqDev(s, c) > SumSqDev(s[1..], c)
    ensures s[0] == c ==> SumSqDev(s, c) == SumSqDev(s[1..], c)
  {
    var d := s[0] - c;
    if d != 0.0 {
      calc {
        SumSqDev(s, c);
        d * d + SumSqDev(s[1..], c);
      > { SquarePositive(d); }
        SumSqDev(s[1..], c);
      }
    } else {
      calc {
        SumSqDev(s, c);
        0.0 * 0.0 + SumSqDev(s[1..], c);
        SumSqDev(s[1..], c);
      }
    }
  }

  /** A sum of squares is never negative, and is zero exactly when every
      observation equals the centre. */
  lemma {:induction false} SumSqDevZero(s: seq<real>, c: real)
    ensures SumSqDev(s, c) >= 0.0
    ensures SumSqDev(s, c) == 0.0 <==> forall i :: 0 <= i < |s| ==> s[i] == c
  {
    if |s| > 0 {
      SumSqDevZero(s[1..], c);
      SumSqDevStep(s, c);
      assert forall i :: 0 <= i < |s| - 1 ==> s[1..][i] == s[i + 1];
      if forall i :: 0 <= i < |s| ==> s[i] == c {
        assert forall i :: 0 <= i < |s| - 1 ==> s[1..][i] == c;
      }
    }
  }

  /** A column of products starts with the first product and goes on with
      the products of the tails. */
  lemma ProductsTail(xs: seq<real>, ys: seq<real>)
    requires |xs| == |ys| && |xs| > 0
    ensures Sum(Products(xs, ys)) == xs[0] * ys[0] + Sum(Products(xs[1..], ys[1..]))
  {
    var p, q := Products(xs, ys)[1..], Products(xs[1..], ys[1..]);
    forall i | 0 <= i < |p|
      ensures p[i] == q[i]
    {
      assert xs[1..][i] == xs[i + 1] && ys[1..][i] == ys[i + 1];
    }
    assert p == q;
  }

  /** q - 2 c s + n c^2: the sum of squared deviations from c of n
      observations with sum s and sum of squares q. */
  function DevExpansion(n: real, s: real, q: real, c: real): real
  {
    q - 2.0 * c * s + n * c * c
  }

  lemma ExpandStep(x: real, c: real, n: real, q: real, s: real, v: real, n1: real, q1: real, s1: real, v1: real)
    requires v == DevExpansion(n, s, q, c)
    requires n1 == n + 1.0 && q1 == x * x + q && s1 == x + s && v1 == (x - c) * (x - c) + v
    ensures v1 == DevExpansion(n1, s1, q1, c)
  {
  }

  /** Expansion of the squared deviations:
      sum (x - c)^2 == sum x^2 - 2 c sum x + N c^2. */
  lemma {:induction false} SumSqDevExpand(s: seq<real>, c: real)
    ensures SumSqDev(s, c) == DevExpansion(|s| as real, Sum(s), Sum(Squares(s)), c)
  {
    if |s| > 0 {
      SumSqDevExpand(s[1..], c);
      ProductsTail(s, s);
      ExpandStep(s[0], c, |s[1..]| as real, Sum(Squares(s[1..])), Sum(s[1..]), SumSqDev(s[1..], c),
        |s| as real, Sum(Squares(s)), Sum(s), SumSqDev(s, c));
    }
  }

  /** Every observation equals the mean exactly when all observations are equal. */
  lemma AllEqualMean(s: seq<real>)
    requires |s| > 0
    ensures AllEqual(s) <==> forall i :: 0 <= i < |s| ==> s[i] == Mean(s)
  {
    if AllEqual(s) {
      var c := s[0];
      SumBounds(s, c, c);
      var n := |s| as real;
      assert Sum(s) == n * c;
      assert Mean(s) == c;
    }
  }

  /** The sample variance is never negative and is zero exactly when all
      observations are equal. */
  lemma VarianceZeroIffConstant(s: seq<real>)
    requires |s| >= 2
    ensures Variance(s) >= 0.0
    ensures Variance(s) == 0.0 <==> AllEqual(s)
  {
    SumSqDevZero(s, Mean(s));
    AllEqualMean(s);
  }
}
