/** Simple linear regression y = a + b x by the normal equations:
    b = (N Sxy - Sx Sy) / (N Sxx - Sx^2) and a = mean(y) - b mean(x),
    from the sums of the `xy` and `x2` columns added to the table. */
module Regression {
  import opened Sums

  datatype Line = Line(a: real, b: real)

  /** The fit, or why there is none. */
  datatype Result = Fitted(line: Line) | NoFit(reason: string)

  /** N Sxy - Sx Sy, the shape of both the slope's numerator and its
      denominator. */
  function CrossTerm(n: real, sxy: real, sx: real, sy: real): real
  {
    n * sxy - sx * sy
  }

  /** The count N and the four column sums the notebook reads off the
      table: of x, of y, of the `xy` column and of the `x2` column. */
  datatype Totals = Totals(n: real, sx: real, sy: real, sxy: real, sxx: real)

  function TotalsOf(xs: seq<real>, ys: seq<real>): Totals
    requires |xs| == |ys|
  {
    Totals(|xs| as real, Sum(xs), Sum(ys), Sum(Products(xs, ys)), Sum(Squares(xs)))
  }

  /** N Sxx - Sx^2, the slope's denominator. */
  function Denominator(xs: seq<real>): real
  {
    CrossTerm(|xs| as real, Sum(Squares(xs)), Sum(xs), Sum(xs))
  }

  /** The slope b = (N Sxy - Sx Sy) / (N Sxx - Sx^2) and the intercept
      a = mean(y) - b mean(x), the means being the sums over N; with no
      points or a zero denominator there is no line. */
  function FitTotals(t: Totals): Result
  {
    if t.n == 0.0 || CrossTerm(t.n, t.sxx, t.sx, t.sx) == 0.0 then NoFit("the x values do not vary")
    else
      var b := CrossTerm(t.n, t.sxy, t.sx, t.sy) / CrossTerm(t.n, t.sxx, t.sx, t.sx);
      Fitted(Line(t.sy / t.n - b * (t.sx / t.n), b))
  }

  /** The notebook's least-squares line through the points (x, y). */
  function FitLine(xs: seq<real>, ys: seq<real>): Result
    requires |xs| == |ys|
  {
    FitTotals(TotalsOf(xs, ys))
  }

  // ---------------------------------------------------------------------
  // The denominator

  /** Putting one more point x in front of the sample t raises the
      denominator by the sum of squared distances of t from x. */
  lemma DenominatorStep(xs: seq<real>)
    requires |xs| > 0
    ensures Denominator(xs) == Denominator(xs[1..]) + SumSqDev(xs[1..], xs[0])
  {
    var t := xs[1..];
    SumSqDevExpand(t, xs[0]);
    ProductsTail(xs, xs);
    assert Sum(Squares(xs)) == xs[0] * xs[0] + Sum(Squares(t));
    assert Sum(xs) == xs[0] + Sum(t);
    StepAlgebra(xs[0], |t| as real, Sum(t), Sum(Squares(t)), SumSqDev(t, xs[0]), Denominator(t),
      |xs| as real, Sum(xs), Sum(Squares(xs)), Denominator(xs));
  }

  lemma StepAlgebra(x: real, n: real, s: real, q: real, v: real, dt: real,
                    n1: real, s1: real, q1: real, d1: real)
    requires v == DevExpansion(n, s, q, x)
    requires dt == CrossTerm(n, q, s, s)
    requires n1 == n + 1.0 && s1 == x + s && q1 == x * x + q
    requires d1 == CrossTerm(n1, q1, s1, s1)
    ensures d1 == dt + v
  {
  }

  /** The denominator is never negative, and it is zero exactly when there
      are no points or all x values are equal. */
  lemma {:induction false} DenominatorSign(xs: seq<real>)
    ensures Denominator(xs) >= 0.0
    ensures Denominator(xs) == 0.0 <==> |xs| == 0 || AllEqual(xs)
  {
    if |xs| > 0 {
      var t := xs[1..];
      DenominatorSign(t);
      DenominatorStep(xs);
      SumSqDevZero(t, xs[0]);
      assert forall i :: 0 <= i < |t| ==> t[i] == xs[i + 1];
      if AllEqual(xs) {
        assert forall i :: 0 <= i < |t| ==> t[i] == xs[0];
      }
      if Denominator(xs) == 0.0 {
        assert forall i :: 1 <= i < |xs| ==> xs[i] == xs[0];
      }
    }
  }

  /** A line is fitted exactly when there are points and the x values
      are not all equal. */
  lemma FitDefined(xs: seq<real>, ys: seq<real>)
    requires |xs| == |ys|
    ensures FitLine(xs, ys).Fitted? <==> |xs| > 0 && !AllEqual(xs)
  {
    DenominatorSign(xs);
  }

  /** The line of the formulas passes through the point of means. */
  lemma TotalsThroughMeans(t: Totals)
    requires FitTotals(t).Fitted?
    ensures t.n != 0.0
    ensures FitTotals(t).line.a + FitTotals(t).line.b * (t.sx / t.n) == t.sy / t.n
  {
  }

  /** The fitted line passes through the point of means. */
  lemma FitThroughMeans(xs: seq<real>, ys: seq<real>)
    requires |xs| == |ys| && FitLine(xs, ys).Fitted?
    ensures |xs| > 0
    ensures var l := FitLine(xs, ys).line; l.a + l.b * Mean(xs) == Mean(ys)
  {
    TotalsThroughMeans(TotalsOf(xs, ys));
  }

  // ---------------------------------------------------------------------
  // Columns that are linear combinations of other columns

  /** a u + b v. */
  function Weighted(a: real, u: real, b: real, v: real): real
  {
    a * u + b * v
  }

  /** The column a s + b t. */
  function Combination(a: real, s: seq<real>, b: real, t: seq<real>): (r: seq<real>)
    requires |s| == |t|
    ensures |r| == |s|
    ensures forall i :: 0 <= i < |s| ==> r[i] == a * s[i] + b * t[i]
  {
    seq(|s|, i requires 0 <= i < |s| => a * s[i] + b * t[i])
  }

  lemma CombinationTail(a: real, s: seq<real>, b: real, t: seq<real>)
    requires |s| == |t| && |s| > 0
    ensures Sum(Combination(a, s, b, t)) == Weighted(a, s[0], b, t[0]) + Sum(Combination(a, s[1..], b, t[1..]))
  {
    var p, q := Combination(a, s, b, t)[1..], Combination(a, s[1..], b, t[1..]);
    forall i | 0 <= i < |p|
      ensures p[i] == q[i]
    {
      assert s[1..][i] == s[i + 1] && t[1..][i] == t[i + 1];
    }
    assert p == q;
  }

  lemma CombinationStep(a: real, b: real, x: real, y: real, s: real, t: real, c: real, s1: real, t1: real, c1: real)
    requires c == Weighted(a, s, b, t)
    requires s1 == x + s && t1 == y + t && c1 == Weighted(a, x, b, y) + c
    ensures c1 == Weighted(a, s1, b, t1)
  {
  }

  /** Summing a linear combination of columns combines their sums. */
  lemma {:induction false} SumCombination(a: real, s: seq<real>, b: real, t: seq<real>)
    requires |s| == |t|
    ensures Sum(Combination(a, s, b, t)) == Weighted(a, Sum(s), b, Sum(t))
  {
    if |s| > 0 {
      SumCombination(a, s[1..], b, t[1..]);
      CombinationTail(a, s, b, t);
      CombinationStep(a, b, s[0], t[0], Sum(s[1..]), Sum(t[1..]), Sum(Combination(a, s[1..], b, t[1..])),
        Sum(s), Sum(t), Sum(Combination(a, s, b, t)));
    }
  }

  // ---------------------------------------------------------------------
  // Residuals and the normal equations

  /** The value the line gives at x. */
  function Predict(l: Line, x: real): real
  {
    l.a + l.b * x
  }

  /** a u + b v: with u = N and v = Sx it is the sum of the line's values,
      with u = Sx and v = Sxx the sum of x times them. */
  function LineSum(l: Line, u: real, v: real): real
  {
    Weighted(l.a, u, l.b, v)
  }

  /** The line's values at every x. */
  function Predicted(xs: seq<real>, l: Line): (r: seq<real>)
    ensures |r| == |xs|
    ensures forall i :: 0 <= i < |xs| ==> r[i] == Predict(l, xs[i])
  {
    seq(|xs|, i requires 0 <= i < |xs| => Predict(l, xs[i]))
  }

  /** The residual column y - (a + b x). */
  function Residuals(xs: seq<real>, ys: seq<real>, l: Line): (r: seq<real>)
    requires |xs| == |ys|
    ensures |r| == |xs|
    ensures forall i :: 0 <= i < |xs| ==> r[i] == ys[i] - Predict(l, xs[i])
  {
    seq(|xs|, i requires 0 <= i < |xs| => ys[i] - Predict(l, xs[i]))
  }

  lemma Distribute(x: real, a: real, b: real)
    ensures x * (a + b * x) == a * x + b * (x * x)
  {
  }

  lemma DistributeDifference(x: real, y: real, p: real)
    ensures x * (y - p) == 1.0 * (x * y) + -1.0 * (x * p)
  {
  }

  /** x times the predicted column is a times x plus b times x^2. */
  lemma PredictedProducts(xs: seq<real>, l: Line)
    ensures Products(xs, Predicted(xs, l)) == Combination(l.a, xs, l.b, Squares(xs))
  {
    var p := Products(xs, Predicted(xs, l));
    var c := Combination(l.a, xs, l.b, Squares(xs));
    forall i | 0 <= i < |xs|
      ensures p[i] == c[i]
    {
      Distribute(xs[i], l.a, l.b);
    }
  }

  /** The residual column is y minus the predicted column. */
  lemma ResidualsCombination(xs: seq<real>, ys: seq<real>, l: Line)
    requires |xs| == |ys|
    ensures Residuals(xs, ys, l) == Combination(1.0, ys, -1.0, Predicted(xs, l))
  {
  }

  /** x times the residual column is xy minus x times the predicted column. */
  lemma ResidualProducts(xs: seq<real>, ys: seq<real>, l: Line)
    requires |xs| == |ys|
    ensures Products(xs, Residuals(xs, ys, l)) ==
      Combination(1.0, Products(xs, ys), -1.0, Products(xs, Predicted(xs, l)))
  {
    var pr := Predicted(xs, l);
    var p := Products(xs, Residuals(xs, ys, l));
    var c := Combination(1.0, Products(xs, ys), -1.0, Products(xs, pr));
    forall i | 0 <= i < |xs|
      ensures p[i] == c[i]
    {
      DistributeDifference(xs[i], ys[i], pr[i]);
    }
  }

  /** The sum of the predicted column. */
  lemma {:induction false} SumOfPredicted(xs: seq<real>, l: Line)
    ensures Sum(Predicted(xs, l)) == LineSum(l, |xs| as real, Sum(xs))
  {
    if |xs| > 0 {
      assert Predicted(xs, l)[1..] == Predicted(xs[1..], l);
      SumOfPredicted(xs[1..], l);
    }
  }

  /** The sum of the products of x with the predicted column. */
  lemma SumOfPredictedProducts(xs: seq<real>, l: Line)
    ensures Sum(Products(xs, Predicted(xs, l))) == LineSum(l, Sum(xs), Sum(Squares(xs)))
  {
    PredictedProducts(xs, l);
    SumCombination(l.a, xs, l.b, Squares(xs));
  }

  /** The sums of the residual column and of its products with x. */
  lemma SumsOfResiduals(xs: seq<real>, ys: seq<real>, l: Line)
    requires |xs| == |ys|
    ensures Sum(Residuals(xs, ys, l)) == Sum(ys) - Sum(Predicted(xs, l))
    ensures Sum(Products(xs, Residuals(xs, ys, l))) ==
      Sum(Products(xs, ys)) - Sum(Products(xs, Predicted(xs, l)))
  {
    ResidualsCombination(xs, ys, l);
    SumCombination(1.0, ys, -1.0, Predicted(xs, l));
    ResidualProducts(xs, ys, l);
    SumCombination(1.0, Products(xs, ys), -1.0, Products(xs, Predicted(xs, l)));
  }

  /** The residuals of any line, in terms of the column sums. */
  lemma ResidualSums(xs: seq<real>, ys: seq<real>, l: Line)
    requires |xs| == |ys|
    ensures Sum(Residuals(xs, ys, l)) == Sum(ys) - LineSum(l, |xs| as real, Sum(xs))
    ensures Sum(Products(xs, Residuals(xs, ys, l))) ==
      Sum(Products(xs, ys)) - LineSum(l, Sum(xs), Sum(Squares(xs)))
  {
    SumsOfResiduals(xs, ys, l);
    SumOfPredicted(xs, l);
    SumOfPredictedProducts(xs, l);
  }

  /** The coefficients of the formulas solve the normal equations
      sy = a N + b sx and sxy = a sx + b sxx. */
  lemma TotalsNormal(t: Totals)
    requires FitTotals(t).Fitted?
    ensures var l := FitTotals(t).line;
      t.sy - LineSum(l, t.n, t.sx) == 0.0 && t.sxy - LineSum(l, t.sx, t.sxx) == 0.0
  {
    var l := FitTotals(t).line;
    var n, sx, sy, sxy, sxx := t.n, t.sx, t.sy, t.sxy, t.sxx;
    var num, den, mx, my := CrossTerm(n, sxy, sx, sy), CrossTerm(n, sxx, sx, sx), sx / n, sy / n;
    assert l.b * den == num;
    assert mx * n == sx && my * n == sy;
    calc {
      n * (sxy - l.a * sx - l.b * sxx);
      n * sxy - (my - l.b * mx) * n * sx - n * l.b * sxx;
      n * sxy - (my * n) * sx + l.b * (mx * n) * sx - n * l.b * sxx;
      n * sxy - sy * sx + l.b * sx * sx - n * l.b * sxx;
      num - l.b * den;
      0.0;
    }
  }

  /** The fitted line satisfies both normal equations: its residuals sum
      to zero, and so do its residuals weighted by x. */
  lemma NormalEquations(xs: seq<real>, ys: seq<real>)
    requires |xs| == |ys| && FitLine(xs, ys).Fitted?
    ensures Sum(Residuals(xs, ys, FitLine(xs, ys).line)) == 0.0
    ensures Sum(Products(xs, Residuals(xs, ys, FitLine(xs, ys).line))) == 0.0
  {
    TotalsNormal(TotalsOf(xs, ys));
    ResidualSums(xs, ys, FitLine(xs, ys).line);
  }

  // ---------------------------------------------------------------------
  // Least squares

  /** The fitted line is the one that minimises the sum of squared errors:
      no line has a smaller sum of squared residuals. */
  lemma FitMinimisesSquaredResiduals(xs: seq<real>, ys: seq<real>, l: Line)
    requires |xs| == |ys| && FitLine(xs, ys).Fitted?
    ensures Sum(Squares(Residuals(xs, ys, FitLine(xs, ys).line))) <= Sum(Squares(Residuals(xs, ys, l)))
  {
    var f := FitLine(xs, ys).line;
    var r := Residuals(xs, ys, f);
    var shift := Line(l.a - f.a, l.b - f.b);
    var d := Predicted(xs, shift);
    ResidualsShift(xs, ys, f, l);
    SumSquaresOfDifference(r, d);
    NormalEquations(xs, ys);
    CrossWithLine(xs, r, shift);
    SumSquaresNonnegative(d);
  }

  /** The residuals of any line are those of f minus the values of the
      line that separates the two. */
  lemma ResidualsShift(xs: seq<real>, ys: seq<real>, f: Line, l: Line)
    requires |xs| == |ys|
    ensures Residuals(xs, ys, l) ==
      Combination(1.0, Residuals(xs, ys, f), -1.0, Predicted(xs, Line(l.a - f.a, l.b - f.b)))
  {
    var c := Combination(1.0, Residuals(xs, ys, f), -1.0, Predicted(xs, Line(l.a - f.a, l.b - f.b)));
    forall i | 0 <= i < |xs|
      ensures Residuals(xs, ys, l)[i] == c[i]
    {
      ShiftAlgebra(xs[i], ys[i], f, l);
    }
  }

  lemma ShiftAlgebra(x: real, y: real, f: Line, l: Line)
    ensures y - Predict(l, x) == 1.0 * (y - Predict(f, x)) + -1.0 * Predict(Line(l.a - f.a, l.b - f.b), x)
  {
  }

  /** Summing (r - d)^2 gives the sum of r^2, minus twice the sum of r d,
      plus the sum of d^2. */
  lemma SumSquaresOfDifference(r: seq<real>, d: seq<real>)
    requires |r| == |d|
    ensures Sum(Squares(Combination(1.0, r, -1.0, d))) ==
      Sum(Squares(r)) - 2.0 * Sum(Products(r, d)) + Sum(Squares(d))
  {
    var inner := Combination(-2.0, Products(r, d), 1.0, Squares(d));
    var c := Combination(1.0, r, -1.0, d);
    var e := Combination(1.0, Squares(r), 1.0, inner);
    forall i | 0 <= i < |r|
      ensures Squares(c)[i] == e[i]
    {
      SquareOfDifference(r[i], d[i]);
    }
    assert Squares(c) == e;
    SumCombination(1.0, Squares(r), 1.0, inner);
    SumCombination(-2.0, Products(r, d), 1.0, Squares(d));
  }

  lemma SquareOfDifference(r: real, d: real)
    ensures (1.0 * r + -1.0 * d) * (1.0 * r + -1.0 * d) == 1.0 * (r * r) + 1.0 * (-2.0 * (r * d) + 1.0 * (d * d))
  {
  }

  /** The residuals times a line's values sum to a times their sum plus b
      times their sum weighted by x. */
  lemma CrossWithLine(xs: seq<real>, r: seq<real>, l: Line)
    requires |xs| == |r|
    ensures Sum(Products(r, Predicted(xs, l))) == Weighted(l.a, Sum(r), l.b, Sum(Products(xs, r)))
  {
    var p := Products(r, Predicted(xs, l));
    var c := Combination(l.a, r, l.b, Products(xs, r));
    forall i | 0 <= i < |xs|
      ensures p[i] == c[i]
    {
      CrossAlgebra(xs[i], r[i], l);
    }
    assert p == c;
    SumCombination(l.a, r, l.b, Products(xs, r));
  }

  lemma CrossAlgebra(x: real, r: real, l: Line)
    ensures r * Predict(l, x) == l.a * r + l.b * (x * r)
  {
  }

  /** A sum of squares is never negative. */
  lemma SumSquaresNonnegative(d: seq<real>)
    ensures Sum(Squares(d)) >= 0.0
  {
    SumSqDevZero(d, 0.0);
    SumSqDevExpand(d, 0.0);
    assert DevExpansion(|d| as real, Sum(d), Sum(Squares(d)), 0.0) == Sum(Squares(d));
  }

  lemma ZeroFactor(n: real, v: real)
    requires n > 0.0 && n * v == 0.0
    ensures v == 0.0
  {
  }

  /** Totals of points lying on a line, with x values that vary, give
      back that line. */
  lemma TotalsRecover(n: real, sx: real, sy: real, sxy: real, sxx: real, l: Line)
    requires n > 0.0 && CrossTerm(n, sxx, sx, sx) != 0.0
    requires sy == LineSum(l, n, sx) && sxy == LineSum(l, sx, sxx)
    ensures FitTotals(Totals(n, sx, sy, sxy, sxx)) == Fitted(l)
  {
    SlopeRecover(n, sx, sxx, l);
    QuotientRecover(CrossTerm(n, sxy, sx, sy), CrossTerm(n, sxx, sx, sx), l.b);
    InterceptRecover(n, sx, l);
  }

  /** For y values on the line, the slope's numerator is b times its
      denominator. */
  lemma SlopeRecover(n: real, sx: real, sxx: real, l: Line)
    ensures CrossTerm(n, LineSum(l, sx, sxx), sx, LineSum(l, n, sx)) == l.b * CrossTerm(n, sxx, sx, sx)
  {
    assert n * (l.a * sx + l.b * sxx) == l.a * (n * sx) + l.b * (n * sxx);
    assert sx * (l.a * n + l.b * sx) == l.a * (n * sx) + l.b * (sx * sx);
  }

  lemma QuotientRecover(num: real, den: real, b: real)
    requires den != 0.0 && num == b * den
    ensures num / den == b
  {
  }

  /** For y values on the line, the mean of y less b times the mean of x
      is a. */
  lemma InterceptRecover(n: real, sx: real, l: Line)
    requires n > 0.0
    ensures LineSum(l, n, sx) / n - l.b * (sx / n) == l.a
  {
    var mx, my := sx / n, LineSum(l, n, sx) / n;
    assert mx * n == sx && my * n == LineSum(l, n, sx);
    assert my * n == (l.a + l.b * mx) * n;
    ZeroFactor(n, my - (l.a + l.b * mx));
  }

  /** Points lying exactly on a line whose x values vary give back that
      line. */
  lemma FitRecoversLine(xs: seq<real>, l: Line)
    requires |xs| > 0 && !AllEqual(xs)
    ensures FitLine(xs, Predicted(xs, l)) == Fitted(l)
  {
    DenominatorSign(xs);
    SumOfPredicted(xs, l);
    SumOfPredictedProducts(xs, l);
    TotalsRecover(|xs| as real, Sum(xs), Sum(Predicted(xs, l)), Sum(Products(xs, Predicted(xs, l))),
      Sum(Squares(xs)), l);
  }
}
