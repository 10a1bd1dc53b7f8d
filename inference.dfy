/** Confidence interval for a mean and the test statistics of the
    hypothesis-testing cells: one-sample T and Z, the two-sample Welch T
    with its Welch-Satterthwaite degrees of freedom, the pooled two-sample
    T, the chi-square statistic for a variance and the F ratio of two
    variances.

    Critical values (Student t, normal, chi-square and F quantiles) are
    parameters. Square roots are avoided: a statistic of the form
    |d / sqrt(se2)| is handled through its square d^2 / se2, and the
    two-sided rule |T| > c becomes T^2 > c^2 for a nonnegative critical
    value c. */
module Inference {
  import opened Sums

  function Abs(x: real): real
  {
    if x < 0.0 then -x else x
  }

  // ---------------------------------------------------------------------
  // Decision rules

  /** The two-sided rule |T| > c, given the square of T. */
  predicate ExceedsCritical(statSq: real, crit: real)
  {
    statSq > crit * crit
  }

  /** The rule for chi-square and F statistics: reject when the statistic
      falls below the lower or above the upper critical value. */
  predicate OutsideRange(stat: real, lower: real, upper: real)
  {
    stat < lower || stat > upper
  }

  lemma MulPos(x: real, y: real)
    requires x > 0.0 && y > 0.0
    ensures x * y > 0.0
  {
  }

  lemma MulNonneg(x: real, y: real)
    requires x >= 0.0 && y >= 0.0
    ensures x * y >= 0.0
  {
  }

  lemma DivideNonnegative(v: real, n: real)
    requires v >= 0.0 && n > 0.0
    ensures v / n >= 0.0
  {
  }

  lemma DividePositive(v: real, n: real)
    requires v > 0.0 && n > 0.0
    ensures v / n > 0.0
  {
  }

  /** d^2 / n is nonnegative, and positive when d is nonzero. */
  lemma SquareOver(d: real, n: real)
    requires n > 0.0
    ensures d * d / n >= 0.0
    ensures d != 0.0 ==> d * d / n > 0.0
  {
    var e := if d < 0.0 then -d else d;
    assert d * d == e * e;
    if e > 0.0 {
      DividePositive(e, n);
      MulPos(e, e / n);
      assert e * (e / n) == e * e / n;
    }
  }

  lemma SquareLess(u: real, v: real)
    requires 0.0 <= u < v
    ensures u * u < v * v
  {
    MulPos(v - u, v + u);
    assert (v - u) * (v + u) == v * v - u * u;
  }

  lemma SquareAtMost(u: real, v: real)
    requires 0.0 <= u <= v
    ensures u * u <= v * v
  {
    MulNonneg(v - u, v + u);
    assert (v - u) * (v + u) == v * v - u * u;
  }

  /** Comparing squares compares absolute values. */
  lemma AbsCompare(x: real, c: real)
    requires c >= 0.0
    ensures Abs(x) > c <==> x * x > c * c
  {
    assert Abs(x) * Abs(x) == x * x;
    if Abs(x) > c {
      SquareLess(c, Abs(x));
    } else {
      SquareAtMost(Abs(x), c);
    }
  }

  /** The squared rule is the two-sided rule |x| > c. */
  lemma ExceedsCriticalIsAbs(x: real, crit: real)
    requires crit >= 0.0
    ensures ExceedsCritical(x * x, crit) <==> Abs(x) > crit
  {
    AbsCompare(x, crit);
  }

  /** A statistic that exceeds a critical value exceeds every smaller
      one: rejecting at a stricter level implies rejecting at a looser
      one. */
  lemma ExceedsCriticalMonotone(statSq: real, c1: real, c2: real)
    requires 0.0 <= c1 <= c2 && ExceedsCritical(statSq, c2)
    ensures ExceedsCritical(statSq, c1)
  {
    SquareAtMost(c1, c2);
  }

  // ---------------------------------------------------------------------
  // Standardised differences

  /** d^2 / se2: the square of a difference d over its standard error
      sqrt(se2). */
  function ScoreSq(d: real, se2: real): real
    requires se2 > 0.0
  {
    d * d / se2
  }

  lemma ScoreSqNonnegative(d: real, se2: real)
    requires se2 > 0.0
    ensures ScoreSq(d, se2) >= 0.0
    ensures ScoreSq(d, se2) == 0.0 <==> d == 0.0
  {
    SquareOver(d, se2);
  }

  /** Comparing a squared score with c^2 compares d^2 with c^2 se2. */
  lemma ScoreSqCompare(d: real, se2: real, c: real)
    requires se2 > 0.0
    ensures ExceedsCritical(ScoreSq(d, se2), c) <==> d * d > c * c * se2
  {
    var q := ScoreSq(d, se2);
    assert q * se2 == d * d;
    if q > c * c {
      assert q * se2 > c * c * se2;
    } else {
      assert q * se2 <= c * c * se2;
    }
  }

  // ---------------------------------------------------------------------
  // One sample: T with the sample variance, Z with a known variance

  /** Square of T = (mean - mu0) / (S / sqrt(N)); none when the sample has
      fewer than two observations or no spread. */
  function OneSampleTSq(xs: seq<real>, mu0: real): Option<real>
  {
    if |xs| < 2 || AllEqual(xs) then None
    else
      VariancePositive(xs);
      DividePositive(Variance(xs), |xs| as real);
      Some(ScoreSq(Mean(xs) - mu0, Variance(xs) / |xs| as real))
  }

  /** Square of Z = (mean - mu0) / (sigma / sqrt(N)) for a known population
      variance sigma2; none for an empty sample. */
  function OneSampleZSq(xs: seq<real>, mu0: real, sigma2: real): Option<real>
    requires sigma2 > 0.0
  {
    if |xs| == 0 then None
    else Some(ScoreSq(Mean(xs) - mu0, sigma2 / |xs| as real))
  }

  lemma VariancePositive(xs: seq<real>)
    requires |xs| >= 2 && !AllEqual(xs)
    ensures Variance(xs) > 0.0
  {
    VarianceZeroIffConstant(xs);
  }

  /** T is defined exactly when there are two observations that differ;
      it is then zero exactly when the sample mean is mu0. */
  lemma OneSampleTDefined(xs: seq<real>, mu0: real)
    ensures OneSampleTSq(xs, mu0).Some? <==> |xs| >= 2 && !AllEqual(xs)
    ensures OneSampleTSq(xs, mu0).Some? ==>
      OneSampleTSq(xs, mu0).value >= 0.0 && (OneSampleTSq(xs, mu0).value == 0.0 <==> Mean(xs) == mu0)
  {
    if |xs| >= 2 && !AllEqual(xs) {
      VariancePositive(xs);
      DividePositive(Variance(xs), |xs| as real);
      ScoreSqNonnegative(Mean(xs) - mu0, Variance(xs) / |xs| as real);
    }
  }

  /** With the sample variance in the place of the known variance, Z is T. */
  lemma ZWithSampleVarianceIsT(xs: seq<real>, mu0: real)
    requires |xs| >= 2 && !AllEqual(xs)
    ensures Variance(xs) > 0.0
    ensures OneSampleZSq(xs, mu0, Variance(xs)) == OneSampleTSq(xs, mu0)
  {
    VariancePositive(xs);
  }

  // ---------------------------------------------------------------------
  // Confidence interval for the mean

  datatype Interval = Interval(lo: real, hi: real)

  predicate Contains(iv: Interval, x: real)
  {
    iv.lo <= x <= iv.hi
  }

  /** mean -+ t se, where se = S / sqrt(N) is the standard error, given by
      its defining property se >= 0 and se^2 N = S^2, and t the Student
      quantile for N - 1 degrees of freedom. */
  function TInterval(xs: seq<real>, t: real, se: real): Interval
    requires |xs| >= 2 && t >= 0.0 && se >= 0.0 && se * se * |xs| as real == Variance(xs)
  {
    Interval(Mean(xs) - t * se, Mean(xs) + t * se)
  }

  /** The interval is centred on the sample mean and has width 2 t se. */
  lemma TIntervalShape(xs: seq<real>, t: real, se: real)
    requires |xs| >= 2 && t >= 0.0 && se >= 0.0 && se * se * |xs| as real == Variance(xs)
    ensures Contains(TInterval(xs, t, se), Mean(xs))
    ensures Mean(xs) - TInterval(xs, t, se).lo == TInterval(xs, t, se).hi - Mean(xs) == t * se
  {
    assert t * se >= 0.0;
  }

  /** A larger quantile (a higher confidence) gives a wider interval that
      contains the narrower one. */
  lemma TIntervalNested(xs: seq<real>, t1: real, t2: real, se: real)
    requires |xs| >= 2 && 0.0 <= t1 <= t2 && se >= 0.0 && se * se * |xs| as real == Variance(xs)
    ensures TInterval(xs, t2, se).lo <= TInterval(xs, t1, se).lo
    ensures TInterval(xs, t1, se).hi <= TInterval(xs, t2, se).hi
  {
    assert t1 * se <= t2 * se;
  }

  lemma StandardError(v: real, n: real, se: real)
    requires n > 0.0 && se >= 0.0 && se * se * n == v && v > 0.0
    ensures se > 0.0 && v / n == se * se
  {
  }

  lemma ProductSquare(t: real, se: real)
    ensures (t * se) * (t * se) == t * t * (se * se)
  {
  }

  /** The interval and the two-sided T test agree: mu0 lies in the
      interval exactly when the test does not reject mu0 at the same
      quantile. */
  lemma TIntervalDuality(xs: seq<real>, t: real, se: real, mu0: real)
    requires |xs| >= 2 && t >= 0.0 && se >= 0.0 && se * se * |xs| as real == Variance(xs)
    requires !AllEqual(xs)
    ensures OneSampleTSq(xs, mu0).Some?
    ensures Contains(TInterval(xs, t, se), mu0) <==> !ExceedsCritical(OneSampleTSq(xs, mu0).value, t)
  {
    OneSampleTDefined(xs, mu0);
    VariancePositive(xs);
    var d, v, n := Mean(xs) - mu0, Variance(xs), |xs| as real;
    StandardError(v, n, se);
    ScoreSqCompare(d, v / n, t);
    ProductSquare(t, se);
    AbsCompare(d, t * se);
  }

  // ---------------------------------------------------------------------
  // Two samples

  /** Squared standard error of a difference of means: vx/N + vy/M. */
  function DiffSe2(vx: real, n: real, vy: real, m: real): real
    requires n > 0.0 && m > 0.0
  {
    vx / n + vy / m
  }

  /** Square of Welch's T = (mean x - mean y) / sqrt(Sx^2/N + Sy^2/M);
      none when a sample has fewer than two observations or neither has
      any spread. */
  function WelchTSq(xs: seq<real>, ys: seq<real>): Option<real>
  {
    if |xs| < 2 || |ys| < 2 then None
    else
      var se2 := DiffSe2(Variance(xs), |xs| as real, Variance(ys), |ys| as real);
      if se2 <= 0.0 then None else Some(ScoreSq(Mean(xs) - Mean(ys), se2))
  }

  /** Welch's T does not depend on which sample is called X. */
  lemma WelchTSymmetric(xs: seq<real>, ys: seq<real>)
    ensures WelchTSq(xs, ys) == WelchTSq(ys, xs)
  {
    if |xs| >= 2 && |ys| >= 2 {
      var d := Mean(xs) - Mean(ys);
      assert (-d) * (-d) == d * d;
    }
  }

  /** Welch's T is defined exactly when both samples have two observations
      and at least one of them varies. */
  lemma WelchTDefined(xs: seq<real>, ys: seq<real>)
    ensures WelchTSq(xs, ys).Some? <==> |xs| >= 2 && |ys| >= 2 && !(AllEqual(xs) && AllEqual(ys))
  {
    if |xs| >= 2 && |ys| >= 2 {
      VarianceZeroIffConstant(xs);
      VarianceZeroIffConstant(ys);
      var n, m := |xs| as real, |ys| as real;
      DivideNonnegative(Variance(xs), n);
      DivideNonnegative(Variance(ys), m);
      if !AllEqual(xs) {
        DividePositive(Variance(xs), n);
      }
      if !AllEqual(ys) {
        DividePositive(Variance(ys), m);
      }
    }
  }

  /** The Welch-Satterthwaite approximation (a + b)^2 / (a^2/p + b^2/q)
      for a = Sx^2/N, b = Sy^2/M, p = N - 1 and q = M - 1. */
  function SatterthwaiteDf(a: real, p: real, b: real, q: real): real
    requires a >= 0.0 && b >= 0.0 && a + b > 0.0 && p > 0.0 && q > 0.0
  {
    DfDenominatorPositive(a, p, b, q);
    (a + b) * (a + b) / (a * a / p + b * b / q)
  }

  lemma DfDenominatorPositive(a: real, p: real, b: real, q: real)
    requires a >= 0.0 && b >= 0.0 && a + b > 0.0 && p > 0.0 && q > 0.0
    ensures a * a / p + b * b / q > 0.0
  {
    SquareOver(a, p);
    SquareOver(b, q);
  }

  /** The degrees of freedom of the Welch test; none under the same
      conditions as the statistic. */
  function WelchDf(xs: seq<real>, ys: seq<real>): Option<real>
  {
    if |xs| < 2 || |ys| < 2 then None
    else
      var a, b := Variance(xs) / |xs| as real, Variance(ys) / |ys| as real;
      if a < 0.0 || b < 0.0 || a + b <= 0.0 then None
      else Some(SatterthwaiteDf(a, (|xs| - 1) as real, b, (|ys| - 1) as real))
  }

  lemma CrossBound(a: real, p: real, b: real, q: real, u: real, w: real)
    requires a >= 0.0 && b >= 0.0 && p > 0.0 && q > 0.0
    requires u * p == a * a && w * q == b * b
    ensures q * u + p * w >= 2.0 * a * b
  {
    var e := q * a - p * b;
    SquarePositive(e);
    assert e * e == q * q * (a * a) - 2.0 * a * b * (p * q) + p * p * (b * b);
    assert p * q * (q * u + p * w) == q * q * (a * a) + p * p * (b * b);
    assert p * q * (q * u + p * w) >= p * q * (2.0 * a * b);
    assert p * q > 0.0;
  }

  lemma QuotientBounds(s: real, d: real, lo: real, hi: real)
    requires d > 0.0 && lo * d <= s <= hi * d
    ensures lo <= s / d <= hi
  {
    var r := s / d;
    assert r * d == s;
  }

  /** The Welch-Satterthwaite degrees of freedom lie between the smaller
      of N - 1 and M - 1 and the pooled N + M - 2. */
  lemma SatterthwaiteBounds(a: real, p: real, b: real, q: real)
    requires a >= 0.0 && b >= 0.0 && a + b > 0.0 && p > 0.0 && q > 0.0
    ensures (if p <= q then p else q) <= SatterthwaiteDf(a, p, b, q) <= p + q
  {
    DfDenominatorPositive(a, p, b, q);
    var r := if p <= q then p else q;
    SpreadBounds(a, p, b, q, r);
    QuotientBounds((a + b) * (a + b), a * a / p + b * b / q, r, p + q);
  }

  /** The square (a + b)^2 lies between r d and (p + q) d for the
      denominator d = a^2/p + b^2/q and any r <= p, q. */
  lemma SpreadBounds(a: real, p: real, b: real, q: real, r: real)
    requires a >= 0.0 && b >= 0.0 && p > 0.0 && q > 0.0 && r <= p && r <= q
    ensures r * (a * a / p + b * b / q) <= (a + b) * (a + b) <= (p + q) * (a * a / p + b * b / q)
  {
    SquareOver(a, p);
    SquareOver(b, q);
    var u, w := a * a / p, b * b / q;
    assert u * p == a * a && w * q == b * b;
    CrossBound(a, p, b, q, u, w);
    MulNonneg(a, b);
    assert (a + b) * (a + b) == a * a + 2.0 * a * b + b * b;
    assert (p + q) * (u + w) == p * u + q * u + p * w + q * w;
    MulNonneg(p - r, u);
    MulNonneg(q - r, w);
    assert (p - r) * u == p * u - r * u;
    assert (q - r) * w == q * w - r * w;
    assert r * (u + w) == r * u + r * w;
  }

  /** For samples with N and M observations, Welch's degrees of freedom
      lie between min(N, M) - 1 and N + M - 2. */
  lemma WelchDfBounds(xs: seq<real>, ys: seq<real>)
    requires WelchDf(xs, ys).Some?
    ensures var lo := if |xs| <= |ys| then |xs| - 1 else |ys| - 1;
      lo as real <= WelchDf(xs, ys).value <= (|xs| + |ys| - 2) as real
  {
    var a, b := Variance(xs) / |xs| as real, Variance(ys) / |ys| as real;
    SatterthwaiteBounds(a, (|xs| - 1) as real, b, (|ys| - 1) as real);
  }

  /** The pooled two-sample statistic for variances assumed equal,
      squared: d^2 N M (N + M - 2) / (((N-1) Sx^2 + (M-1) Sy^2)(N + M)). */
  function PooledTSq(d: real, vx: real, n: real, vy: real, m: real): real
    requires n >= 2.0 && m >= 2.0 && (n - 1.0) * vx + (m - 1.0) * vy > 0.0
  {
    d * d * (n * m * (n + m - 2.0)) / (((n - 1.0) * vx + (m - 1.0) * vy) * (n + m))
  }

  /** When the two sample variances coincide, the pooled statistic and
      Welch's statistic are the same number. */
  lemma PooledEqualsWelch(d: real, v: real, n: real, m: real)
    requires n >= 2.0 && m >= 2.0 && v > 0.0
    ensures (n - 1.0) * v + (m - 1.0) * v > 0.0 && DiffSe2(v, n, v, m) > 0.0
    ensures PooledTSq(d, v, n, v, m) == ScoreSq(d, DiffSe2(v, n, v, m))
  {
    var k := n + m - 2.0;
    var pooled := (n - 1.0) * v + (m - 1.0) * v;
    assert pooled == k * v;
    assert k > 0.0;
    var se2 := DiffSe2(v, n, v, m);
    assert se2 * (n * m) == v * (n + m) by {
      assert (v / n) * n == v && (v / m) * m == v;
    }
    var lhs := PooledTSq(d, v, n, v, m);
    assert lhs * (pooled * (n + m)) == d * d * (n * m * k);
    assert lhs * (k * (v * (n + m))) == (d * d * (n * m)) * k;
    assert lhs * (v * (n + m)) == d * d * (n * m);
    assert lhs * (se2 * (n * m)) == d * d * (n * m);
    assert lhs * se2 == d * d;
  }

  // ---------------------------------------------------------------------
  // One variance: the chi-square statistic

  /** K = (N - 1) S^2 / sigma0^2 for a hypothesised variance sigma0^2. */
  function ChiSquareStat(xs: seq<real>, sigma2: real): real
    requires |xs| >= 2 && sigma2 > 0.0
  {
    Scaled((|xs| - 1) as real, Variance(xs), sigma2)
  }

  /** k v / s2. */
  function Scaled(k: real, v: real, s2: real): real
    requires s2 > 0.0
  {
    k * (v / s2)
  }

  /** K sigma0^2 is the sum of squared deviations from the mean. */
  lemma ChiSquareAsSumOfSquares(xs: seq<real>, sigma2: real)
    requires |xs| >= 2 && sigma2 > 0.0
    ensures ChiSquareStat(xs, sigma2) * sigma2 == SumSqDev(xs, Mean(xs))
  {
    var k := (|xs| - 1) as real;
    assert ChiSquareStat(xs, sigma2) == Scaled(k, Variance(xs), sigma2);
    VarianceTimesDegrees(xs);
    ScaledQuotient(k, Variance(xs), sigma2, SumSqDev(xs, Mean(xs)));
  }

  /** K is never negative, and is zero exactly when all observations are
      equal. */
  lemma ChiSquareZeroIffConstant(xs: seq<real>, sigma2: real)
    requires |xs| >= 2 && sigma2 > 0.0
    ensures ChiSquareStat(xs, sigma2) >= 0.0
    ensures ChiSquareStat(xs, sigma2) == 0.0 <==> AllEqual(xs)
  {
    VarianceZeroIffConstant(xs);
    ScaledSign((|xs| - 1) as real, Variance(xs), sigma2);
  }

  /** (N - 1) S^2 is the sum of squared deviations from the mean. */
  lemma VarianceTimesDegrees(xs: seq<real>)
    requires |xs| >= 2
    ensures Variance(xs) * (|xs| - 1) as real == SumSqDev(xs, Mean(xs))
  {
  }

  lemma ScaledQuotient(k: real, v: real, s2: real, ss: real)
    requires s2 > 0.0 && v * k == ss
    ensures Scaled(k, v, s2) * s2 == ss
  {
    var r := v / s2;
    assert r * s2 == v;
    assert (k * r) * s2 == k * (r * s2);
  }

  lemma ScaledSign(k: real, v: real, s2: real)
    requires k > 0.0 && s2 > 0.0 && v >= 0.0
    ensures Scaled(k, v, s2) >= 0.0
    ensures Scaled(k, v, s2) == 0.0 <==> v == 0.0
  {
    var r := v / s2;
    DivideNonnegative(v, s2);
    MulNonneg(k, r);
    if v > 0.0 {
      DividePositive(v, s2);
      MulPos(k, r);
    }
  }

  lemma Cancel(x: real, y: real, n: real)
    requires n != 0.0 && x * n == y * n
    ensures x == y
  {
    assert (x - y) * n == 0.0;
  }

  // ---------------------------------------------------------------------
  // Two variances: the F ratio

  /** The ratio of two variances, f = Sx^2 / Sy^2: the factor by which the
      second must be multiplied to give the first. */
  function VarianceRatio(vx: real, vy: real): (f: real)
    requires vy != 0.0
    ensures f * vy == vx
    ensures vx > 0.0 && vy > 0.0 ==> f > 0.0
  {
    DividePositiveIf(vx, vy);
    vx / vy
  }

  lemma DividePositiveIf(x: real, y: real)
    requires y != 0.0
    ensures x > 0.0 && y > 0.0 ==> x / y > 0.0
  {
    if x > 0.0 && y > 0.0 {
      DividePositive(x, y);
    }
  }

  /** f = Sx^2 / Sy^2 of two samples; none when a sample has fewer than two
      observations or the second has no spread. */
  function FRatio(xs: seq<real>, ys: seq<real>): Option<real>
  {
    if |xs| < 2 || |ys| < 2 || Variance(ys) == 0.0 then None
    else Some(VarianceRatio(Variance(xs), Variance(ys)))
  }

  /** Swapping the samples inverts the ratio. */
  lemma FRatioSwap(xs: seq<real>, ys: seq<real>)
    requires |xs| >= 2 && |ys| >= 2 && !AllEqual(xs) && !AllEqual(ys)
    ensures FRatio(xs, ys).Some? && FRatio(ys, xs).Some?
    ensures FRatio(xs, ys).value > 0.0
    ensures FRatio(ys, xs).value == 1.0 / FRatio(xs, ys).value
  {
    VariancePositive(xs);
    VariancePositive(ys);
    DividePositive(Variance(xs), Variance(ys));
    Reciprocal(Variance(xs), Variance(ys));
  }

  lemma Reciprocal(x: real, y: real)
    requires x > 0.0 && y > 0.0
    ensures x / y > 0.0 && y / x == 1.0 / (x / y)
  {
    DividePositive(x, y);
  }

  lemma ReciprocalLess(x: real, y: real)
    requires 0.0 < x < y
    ensures 1.0 / y < 1.0 / x
  {
    var rx, ry := 1.0 / x, 1.0 / y;
    assert rx * x == 1.0 && ry * y == 1.0;
    assert ry * x < ry * y;
    assert ry * x < rx * x;
  }

  /** The two-sided rule for f at [lower, upper] is the rule for 1/f at
      [1/upper, 1/lower]: testing Sx^2/Sy^2 or Sy^2/Sx^2 decides alike. */
  lemma OutsideRangeReciprocal(f: real, lower: real, upper: real)
    requires f > 0.0 && lower > 0.0 && upper > 0.0
    ensures OutsideRange(f, lower, upper) <==> OutsideRange(1.0 / f, 1.0 / upper, 1.0 / lower)
  {
    if f < lower {
      ReciprocalLess(f, lower);
    }
    if f > upper {
      ReciprocalLess(upper, f);
    }
    if 1.0 / f < 1.0 / upper {
      if f <= upper {
        if f < upper {
          ReciprocalLess(f, upper);
        }
      }
    }
    if 1.0 / f > 1.0 / lower {
      if f >= lower {
        if f > lower {
          ReciprocalLess(lower, f);
        }
      }
    }
  }

  // ---------------------------------------------------------------------
  // The worked examples of the notebook

  /** The sample (7, 4, 2, 5, 7) has mean 5 and variance 4.5. */
  lemma SmallSampleMoments()
    ensures Mean([7.0, 4.0, 2.0, 5.0, 7.0]) == 5.0
    ensures Variance([7.0, 4.0, 2.0, 5.0, 7.0]) == 4.5
  {
    var s := [7.0, 4.0, 2.0, 5.0, 7.0];
    assert s[1..] == [4.0, 2.0, 5.0, 7.0];
    assert s[1..][1..] == [2.0, 5.0, 7.0];
    assert s[1..][1..][1..] == [5.0, 7.0];
    assert s[1..][1..][1..][1..] == [7.0];
    assert Sum(s) == 25.0;
    assert SumSqDev(s, 5.0) == 18.0;
  }

  /** The 90% interval for that sample with t = 2.132 (4 degrees of
      freedom) is about 5 -+ 2.02. */
  lemma SmallSampleInterval(se: real)
    requires se >= 0.0 && se * se * 5.0 == Variance([7.0, 4.0, 2.0, 5.0, 7.0])
    ensures var iv := TInterval([7.0, 4.0, 2.0, 5.0, 7.0], 2.132, se);
      2.97 < iv.lo < 2.98 && 7.02 < iv.hi < 7.03
  {
    SmallSampleMoments();
    var h := 2.132 * se;
    assert h * h == 2.132 * 2.132 * (se * se);
    assert se * se == 0.9;
    assert h >= 0.0;
    if h <= 2.02 {
      SquareAtMost(h, 2.02);
    }
    if h >= 2.03 {
      SquareAtMost(2.03, h);
    }
  }

  /** July flows at Ponte Nova do Paraopeba: 62 years with mean 44.526
      and S = 12.406 against mu0 = 47.65 give |T| of about 1.98, below
      t(0.975, 61) = 1.9996, so the mean is not rejected; with the
      variance 153.9183 taken as known, |Z| is also about 1.98 but above
      Z(0.975) = 1.96, so the mean is rejected. */
  lemma ParaopebaMeanTests(xs: seq<real>)
    requires |xs| == 62 && Mean(xs) == 44.526 && Variance(xs) == 12.406 * 12.406
    ensures OneSampleTSq(xs, 47.65).Some? && !ExceedsCritical(OneSampleTSq(xs, 47.65).value, 1.9996)
    ensures OneSampleZSq(xs, 47.65, 153.9183).Some? && ExceedsCritical(OneSampleZSq(xs, 47.65, 153.9183).value, 1.96)
  {
    VarianceZeroIffConstant(xs);
    assert OneSampleTSq(xs, 47.65) == Some(ScoreSq(44.526 - 47.65, 12.406 * 12.406 / 62.0));
    assert OneSampleZSq(xs, 47.65, 153.9183) == Some(ScoreSq(44.526 - 47.65, 153.9183 / 62.0));
    ParaopebaScores();
  }

  /** The two scores of the July example, from the summary values. */
  lemma ParaopebaScores()
    ensures !ExceedsCritical(ScoreSq(44.526 - 47.65, 12.406 * 12.406 / 62.0), 1.9996)
    ensures ExceedsCritical(ScoreSq(44.526 - 47.65, 153.9183 / 62.0), 1.96)
  {
    ScoreSqCompare(44.526 - 47.65, 12.406 * 12.406 / 62.0, 1.9996);
    ScoreSqCompare(44.526 - 47.65, 153.9183 / 62.0, 1.96);
  }

  /** The two halves of the July series, 31 years each, with means 45.08
      and 43.97 and standard deviations 11.505 and 13.415: |T| is far
      below t = 2.00, and the Welch-Satterthwaite degrees of freedom are
      between 58 and 59. */
  lemma ParaopebaWelch(xs: seq<real>, ys: seq<real>)
    requires |xs| == 31 && Mean(xs) == 45.08 && Variance(xs) == 11.505 * 11.505
    requires |ys| == 31 && Mean(ys) == 43.97 && Variance(ys) == 13.415 * 13.415
    ensures WelchTSq(xs, ys).Some? && !ExceedsCritical(WelchTSq(xs, ys).value, 2.0)
    ensures WelchDf(xs, ys).Some? && 58.0 < WelchDf(xs, ys).value < 59.0
  {
    var se2 := DiffSe2(11.505 * 11.505, 31.0, 13.415 * 13.415, 31.0);
    assert se2 == (11.505 * 11.505 + 13.415 * 13.415) / 31.0;
    assert WelchTSq(xs, ys) == Some(ScoreSq(45.08 - 43.97, se2));
    var a, b := 11.505 * 11.505 / 31.0, 13.415 * 13.415 / 31.0;
    assert WelchDf(xs, ys) == Some(SatterthwaiteDf(a, 30.0, b, 30.0));
    ParaopebaWelchValues();
  }

  /** The Welch score and degrees of freedom of the halves, from the
      summary values. */
  lemma ParaopebaWelchValues()
    ensures !ExceedsCritical(ScoreSq(45.08 - 43.97, DiffSe2(11.505 * 11.505, 31.0, 13.415 * 13.415, 31.0)), 2.0)
    ensures 58.0 < SatterthwaiteDf(11.505 * 11.505 / 31.0, 30.0, 13.415 * 13.415 / 31.0, 30.0) < 59.0
  {
    var se2 := DiffSe2(11.505 * 11.505, 31.0, 13.415 * 13.415, 31.0);
    assert se2 == (11.505 * 11.505 + 13.415 * 13.415) / 31.0;
    ScoreSqCompare(45.08 - 43.97, se2, 2.0);
    var a, b := 11.505 * 11.505 / 31.0, 13.415 * 13.415 / 31.0;
    DfDenominatorPositive(a, 30.0, b, 30.0);
    var d := a * a / 30.0 + b * b / 30.0;
    var s := (a + b) * (a + b);
    assert 58.0 * d < s < 59.0 * d;
    var r := s / d;
    assert r * d == s;
    if r <= 58.0 {
      assert r * d <= 58.0 * d;
    }
    if r >= 59.0 {
      assert r * d >= 59.0 * d;
    }
  }

  /** For the 62 July flows, with S^2 = 153.9183, K against sigma0^2 = 150
      is about 62.593, below the 95% chi-square quantile 80.232 for 61
      degrees of freedom, so the variance 150 is not rejected. */
  lemma ParaopebaVariance(xs: seq<real>)
    requires |xs| == 62 && Variance(xs) == 153.9183
    ensures 62.593 < ChiSquareStat(xs, 150.0) < 62.594
    ensures !(ChiSquareStat(xs, 150.0) > 80.232)
  {
    assert ChiSquareStat(xs, 150.0) == Scaled(61.0, 153.9183, 150.0);
  }

  /** Procedures X (7 analyses, S = 1.9) and Y (9 analyses, S = 0.8):
      f = 5.640625, above F(6, 8) = 3.58, so procedure Y is the more
      precise. */
  lemma EffluentPrecision(xs: seq<real>, ys: seq<real>)
    requires |xs| == 7 && |ys| == 9
    requires Variance(xs) == 1.9 * 1.9 && Variance(ys) == 0.8 * 0.8
    ensures FRatio(xs, ys) == Some(5.640625)
    ensures FRatio(xs, ys).value > 3.58
  {
    assert VarianceRatio(1.9 * 1.9, 0.8 * 0.8) == 5.640625;
  }
}
