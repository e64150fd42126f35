/** The bivariate analyzer (`AnalizadorBivariado`): paired observations, their
    covariance, the least-squares line, and the summary that turns a degenerate
    input into an error entry instead of an exception. */
module Bivariate {
  import opened Results
  import opened SeqMath
  import opened Quantitative

  /** Two variables observed together. */
  datatype Pairs = Pairs(x: seq<real>, y: seq<real>)

  /** The data a bivariate analyzer holds: as many `y` as `x`, and at least one of each. */
  type Paired = p: Pairs | |p.x| == |p.y| > 0 witness Pairs([0.0], [0.0])

  /** `list(zip(x, y))` for lists of equal length. */
  function Zip(x: seq<real>, y: seq<real>): (z: seq<(real, real)>)
    requires |x| == |y|
    ensures |z| == |x|
    ensures forall i :: 0 <= i < |z| ==> z[i] == (x[i], y[i])
  {
    if |x| == 0 then []
    else
      var rest := Zip(x[1..], y[1..]);
      assert forall i :: 1 <= i < |x| ==> x[i] == x[1..][i - 1] && y[i] == y[1..][i - 1];
      [(x[0], y[0])] + rest
  }

  /** `AnalizadorBivariado.__init__`: lists of different lengths are refused, then
      the base class refuses an empty list of pairs. */
  function NewPaired(x: seq<real>, y: seq<real>): (r: Result<Paired>)
    ensures r == Err(SizeMismatch) <==> |x| != |y|
    ensures r == Err(EmptyData) <==> |x| == 0 && |y| == 0
    ensures r.Ok? ==> r.value.x == x && r.value.y == y
  {
    if |x| != |y| then Err(SizeMismatch)
    else
      var base := NewBase(Zip(x, y));
      if base.Err? then Err(base.error) else Ok(Pairs(x, y))
  }

  /** `covarianza`: cross deviations from the two means over `n - 1` (sample) or
      `n` (population); the sample form of one pair divides by zero. */
  function Covariance(p: Paired, sample: bool): (r: Result<real>)
    ensures r.Err? <==> sample && |p.x| == 1
    ensures r.Err? ==> r.error == DivisionByZero
  {
    var mx := Sum(p.x) / |p.x| as real;
    var my := Sum(p.y) / |p.x| as real;
    var total := SumCrossDeviations(p.x, p.y, mx, my);
    var divisor := if sample then |p.x| - 1 else |p.x|;
    if divisor == 0 then Err(DivisionByZero) else Ok(total / divisor as real)
  }

  /** Covariance does not depend on which variable is called `x`. */
  lemma CovarianceSymmetric(p: Paired, sample: bool)
    ensures Covariance(Pairs(p.y, p.x), sample) == Covariance(p, sample)
  {
    var mx := Sum(p.x) / |p.x| as real;
    var my := Sum(p.y) / |p.x| as real;
    CrossSymmetric(p.x, p.y, mx, my);
  }

  /** The covariance of a variable with itself is its variance. */
  lemma CovarianceWithItself(s: Sample, sample: bool)
    ensures Covariance(Pairs(s, s), sample) == Variance(s, sample)
  {
    CrossWithItself(s, Mean(s));
  }

  /** A fitted line `y = intercept + slope * x`. */
  datatype Line = Line(intercept: real, slope: real)

  /** `regresion_lineal_simple`: the least-squares slope is the cross deviations
      over the squared deviations of `x`, which fails when `x` does not vary; the
      intercept puts the line through the two means. */
  function Regression(p: Paired): (r: Result<Line>)
    ensures r.Err? <==> Constant(p.x)
    ensures r.Err? ==> r.error == ZeroXVariance
    ensures r.Ok? ==> r.value.intercept + Scale(r.value.slope, Mean(p.x)) == Mean(p.y)
  {
    var mx := Sum(p.x) / |p.x| as real;
    var my := Sum(p.y) / |p.x| as real;
    var numerator := SumCrossDeviations(p.x, p.y, mx, my);
    var denominator := SumSquaredDeviations(p.x, mx);
    NoDeviationIffAllEqual(p.x, mx);
    ConstantIffAllMean(p.x);
    if denominator == 0.0 then Err(ZeroXVariance)
    else
      var slope := numerator / denominator;
      Ok(Line(my - Scale(slope, mx), slope))
  }

  /** Points exactly on a line `y = a + b * x` (with `x` not constant) give back
      that line. */
  lemma RegressionRecoversLine(p: Paired, a: real, b: real)
    requires OnLine(p.x, p.y, a, b) && !Constant(p.x)
    ensures Regression(p) == Ok(Line(a, b))
  {
    var x, y := p.x, p.y;
    var mx := Sum(x) / |x| as real;
    var my := Sum(y) / |x| as real;
    assert my == a + Scale(b, mx) by {
      SumOnLine(x, y, a, b);
      LineMean(|x|, a, b, Sum(x));
    }
    var den := SumSquaredDeviations(x, mx);
    var num := SumCrossDeviations(x, y, mx, my);
    assert num == Scale(b, den) by {
      CrossOnLine(x, y, a, b, mx);
    }
    assert den != 0.0 by {
      NoDeviationIffAllEqual(x, mx);
      ConstantIffAllMean(x);
    }
    assert num / den == b by {
      ScaleQuotient(b, den);
    }
  }

  /** The slope is the population covariance over the population variance of `x`. */
  lemma SlopeIsCovarianceOverVariance(p: Paired)
    requires !Constant(p.x)
    ensures Regression(p).Ok? && Covariance(p, false).Ok? && Variance(p.x, false).Ok?
    ensures Variance(p.x, false).value != 0.0
    ensures Regression(p).value.slope == Covariance(p, false).value / Variance(p.x, false).value
  {
    var n := |p.x| as real;
    var mx := Sum(p.x) / n;
    var my := Sum(p.y) / n;
    var num := SumCrossDeviations(p.x, p.y, mx, my);
    var den := SumSquaredDeviations(p.x, mx);
    NoDeviationIffAllEqual(p.x, mx);
    ConstantIffAllMean(p.x);
    QuotientOfShares(num, den, n);
  }

  /** `correlacion_pearson` up to its square roots: the sample standard deviations
      of `x` and then `y` are computed (dividing by zero for one pair), and a zero
      deviation, which is a zero variance, is refused. */
  function CorrelationGuard(p: Paired): (r: Outcome)
    ensures r == Fail(DivisionByZero) <==> |p.x| == 1
    ensures r == Fail(ZeroStdDev) <==> |p.x| > 1 && (Constant(p.x) || Constant(p.y))
    ensures r == Pass || r == Fail(DivisionByZero) || r == Fail(ZeroStdDev)
  {
    var vx := Variance(p.x, true);
    var vy := Variance(p.y, true);
    if vx.Err? then Fail(vx.error)
    else if vy.Err? then Fail(DivisionByZero)
    else if vx.value == 0.0 || vy.value == 0.0 then Fail(ZeroStdDev)
    else Pass
  }

  /** What `resumen` returns: the figures, or only the message of the `ValueError`
      it caught. */
  datatype Summary =
    | Figures(n: nat, covariance: real, regression: Line)
    | ErrorEntry(reason: Error)

  /** `resumen`: the regression, then the correlation (twice, the second time
      for the coefficient of determination), with any `ValueError` turned into an
      error entry; the sample covariance is computed only afterwards. */
  function Summarize(p: Paired): (r: Result<Summary>)
  {
    var reg := Regression(p);
    if reg.Err? then
      (if reg.error.IsValueError() then Ok(ErrorEntry(reg.error)) else Err(reg.error))
    else
      var guard := CorrelationGuard(p);
      if guard.Fail? then
        (if guard.error.IsValueError() then Ok(ErrorEntry(guard.error)) else Err(guard.error))
      else
        var cov := Covariance(p, true);
        if cov.Err? then Err(cov.error) else Ok(Figures(|p.x|, cov.value, reg.value))
  }

  /** `resumen` never raises: constant data gives an error entry, the regression's
      message taking priority over the correlation's; otherwise it reports the
      sample covariance and the fitted line. */
  lemma SummarizeSpec(p: Paired)
    ensures Summarize(p).Ok?
    ensures Summarize(p).value.ErrorEntry? <==> Constant(p.x) || Constant(p.y)
    ensures Constant(p.x) ==> Summarize(p).value == ErrorEntry(ZeroXVariance)
    ensures !Constant(p.x) && Constant(p.y) ==> Summarize(p).value == ErrorEntry(ZeroStdDev)
    ensures Summarize(p).value.Figures? ==>
      Summarize(p).value == Figures(|p.x|, Covariance(p, true).value, Regression(p).value)
  {
  }
}
