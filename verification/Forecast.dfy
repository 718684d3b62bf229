/**
 The trend behind the KPI forecast: least squares over the last sixty points at most.

 Numbers are reals; rounding for display is not part of this model.
 */
module Forecast {
  /** A value for every position. */
  type Values = int -> real

  // ---------------------------------------------------------------- sums of products

  /** f(0) g(0) + ... + f(n - 1) g(n - 1) */
  ghost function Dot(f: Values, g: Values, n: nat): real {
    if n == 0 then 0.0 else Dot(f, g, n - 1) + f(n - 1) * g(n - 1)
  }

  lemma {:induction false} DotIsSymmetric(f: Values, g: Values, n: nat)
    ensures Dot(f, g, n) == Dot(g, f, n)
  {
    if n > 0 { DotIsSymmetric(f, g, n - 1); }
  }

  lemma {:induction false} DotIsLinear(f: Values, g: Values, u: Values, b: real, v: Values, n: nat)
    requires forall i :: 0 <= i < n ==> g(i) == u(i) + b * v(i)
    ensures Dot(f, g, n) == Dot(f, u, n) + b * Dot(f, v, n)
  {
    if n > 0 {
      DotIsLinear(f, g, u, b, v, n - 1);
      Distribute(f(n - 1), g(n - 1), u(n - 1), b, v(n - 1), Dot(f, v, n - 1));
    }
  }

  lemma Distribute(f: real, g: real, u: real, b: real, v: real, s: real)
    requires g == u + b * v
    ensures f * g + b * s == f * u + b * (s + f * v)
  {
  }

  lemma {:induction false} DotIsPositive(f: Values, n: nat)
    ensures Dot(f, f, n) >= 0.0
    ensures forall i :: 0 <= i < n && f(i) != 0.0 ==> Dot(f, f, n) > 0.0
  {
    if n > 0 {
      DotIsPositive(f, n - 1);
      SquareIsPositive(f(n - 1), f(n - 1) * f(n - 1));
      forall i | 0 <= i < n && f(i) != 0.0
        ensures Dot(f, f, n) > 0.0
      {
        assert i < n - 1 ==> Dot(f, f, n - 1) > 0.0;
      }
    }
  }

  lemma ProductOfPositives(x: real, y: real, product: real)
    requires product == x * y && x > 0.0 && y > 0.0
    ensures product > 0.0
  {
  }

  lemma ProductOfNegatives(x: real, y: real, product: real)
    requires product == x * y && x < 0.0 && y < 0.0
    ensures product > 0.0
  {
  }

  lemma SquareIsPositive(x: real, square: real)
    requires square == x * x
    ensures square >= 0.0
    ensures x != 0.0 ==> square > 0.0
  {
    if x < 0.0 {
      ProductOfNegatives(x, x, square);
    } else if x != 0.0 {
      ProductOfPositives(x, x, square);
    }
  }

  lemma Quotient(a: real, b: real)
    requires b != 0.0
    ensures a / b * b == a
  {
  }

  lemma TimesZero(x: real)
    ensures x * 0.0 == 0.0
  {
  }

  // ---------------------------------------------------------------- the normal equations

  /** Deviations from a mean cancel. */
  lemma DeviationsCancel(one: Values, x: Values, m: real, d: Values, n: nat)
    requires forall i :: 0 <= i < n ==> d(i) == x(i) + -m * one(i)
    requires m * Dot(one, one, n) == Dot(one, x, n)
    ensures Dot(one, d, n) == 0.0
  {
    hide Dot;
    DotIsLinear(one, d, x, -m, one, n);
  }

  /** The squared deviations of x, from its squares and its sum. */
  lemma SquaredDeviations(one: Values, x: Values, m: real, d: Values, n: nat)
    requires forall i :: 0 <= i < n ==> d(i) == x(i) + -m * one(i)
    requires m * Dot(one, one, n) == Dot(one, x, n)
    ensures Dot(d, d, n) == Dot(x, x, n) + -m * Dot(one, x, n)
  {
    hide Dot;
    DeviationsCancel(one, x, m, d, n);
    DotIsSymmetric(one, d, n);
    DotIsLinear(d, d, x, -m, one, n);
    TimesZero(-m);
    DotIsSymmetric(d, x, n);
    DotIsLinear(x, d, x, -m, one, n);
    DotIsSymmetric(one, x, n);
  }

  /** Residuals e - b d cancel, and are orthogonal to x, when b is covariation over squared deviations. */
  lemma NormalEquations(one: Values, x: Values, m: real, d: Values, e: Values, b: real, r: Values, n: nat)
    requires forall i :: 0 <= i < n ==> x(i) == d(i) + m * one(i)
    requires forall i :: 0 <= i < n ==> r(i) == e(i) + -b * d(i)
    requires Dot(one, d, n) == 0.0 && Dot(one, e, n) == 0.0
    requires b * Dot(d, d, n) == Dot(d, e, n)
    ensures Dot(one, r, n) == 0.0 && Dot(x, r, n) == 0.0
  {
    hide Dot;
    DotIsLinear(one, r, e, -b, d, n);
    TimesZero(-b);
    DotIsLinear(d, r, e, -b, d, n);
    DotIsSymmetric(d, r, n);
    DotIsSymmetric(one, r, n);
    DotIsLinear(r, x, d, m, one, n);
    TimesZero(m);
    DotIsSymmetric(x, r, n);
  }

  /** Moving the line away by p + q x adds the squared distance to the squared error. */
  lemma MovedLine(one: Values, x: Values, r: Values, base: Values, p: real, q: real, gap: Values, r': Values, n: nat)
    requires forall i :: 0 <= i < n ==> base(i) == 0.0
    requires forall i :: 0 <= i < n ==> gap(i) == (base(i) + p * one(i)) + q * x(i)
    requires forall i :: 0 <= i < n ==> r'(i) == r(i) + 1.0 * gap(i)
    requires Dot(one, r, n) == 0.0 && Dot(x, r, n) == 0.0
    ensures Dot(r', r', n) == Dot(r, r, n) + Dot(gap, gap, n)
  {
    hide Dot;
    GapIsOrthogonal(one, x, r, base, p, q, gap, n);
    DotIsLinear(r', r', r, 1.0, gap, n);
    DotIsSymmetric(r', r, n);
    DotIsLinear(r, r', r, 1.0, gap, n);
    DotIsSymmetric(r', gap, n);
    DotIsLinear(gap, r', r, 1.0, gap, n);
    DotIsSymmetric(r, gap, n);
  }

  lemma GapIsOrthogonal(one: Values, x: Values, r: Values, base: Values, p: real, q: real, gap: Values, n: nat)
    requires forall i :: 0 <= i < n ==> base(i) == 0.0
    requires forall i :: 0 <= i < n ==> gap(i) == (base(i) + p * one(i)) + q * x(i)
    requires Dot(one, r, n) == 0.0 && Dot(x, r, n) == 0.0
    ensures Dot(r, gap, n) == 0.0
  {
    hide Dot;
    var constant: Values := i => base(i) + p * one(i);
    DotIsSymmetric(one, r, n);
    DotIsSymmetric(x, r, n);
    DotWithZero(r, base, n);
    DotIsLinear(r, constant, base, p, one, n);
    TimesZero(p);
    DotIsLinear(r, gap, constant, q, x, n);
    TimesZero(q);
  }

  lemma {:induction false} DotWithZero(f: Values, zero: Values, n: nat)
    requires forall i :: 0 <= i < n ==> zero(i) == 0.0
    ensures Dot(f, zero, n) == 0.0
  {
    if n > 0 {
      DotWithZero(f, zero, n - 1);
      TimesZero(f(n - 1));
    }
  }

  // ---------------------------------------------------------------- a series and its line

  ghost function At(ys: seq<real>): Values {
    i => if 0 <= i < |ys| then ys[i] else 0.0
  }

  ghost function Position(): Values {
    i => i as real
  }

  ghost function One(): Values {
    i => 1.0
  }

  ghost function MeanX(n: nat): real
    requires n > 0
  {
    Dot(One(), Position(), n) / n as real
  }

  ghost function MeanY(ys: seq<real>): real
    requires ys != []
  {
    Dot(One(), At(ys), |ys|) / |ys| as real
  }

  /** f(i) - m */
  ghost function From(f: Values, m: real): Values {
    i => f(i) - m
  }

  ghost function Denominator(n: nat): real
    requires n > 0
  {
    Dot(From(Position(), MeanX(n)), From(Position(), MeanX(n)), n)
  }

  ghost function Covariation(ys: seq<real>): real
    requires ys != []
  {
    Dot(From(Position(), MeanX(|ys|)), From(At(ys), MeanY(ys)), |ys|)
  }

  /** The line a + b x runs through the two means with the slope covariation over denominator. */
  ghost predicate Fitted(ys: seq<real>, a: real, b: real) {
    && ys != []
    && b * Denominator(|ys|) == Covariation(ys)
    && a == MeanY(ys) - b * MeanX(|ys|)
  }

  ghost function Residual(ys: seq<real>, a: real, b: real): Values {
    var y := At(ys);
    i => y(i) - (a + b * i as real)
  }

  /** The sum of squared residuals of the line a + b x. */
  ghost function SquaredError(ys: seq<real>, a: real, b: real): real {
    Dot(Residual(ys, a, b), Residual(ys, a, b), |ys|)
  }

  lemma {:induction false} CountOfOnes(n: nat)
    ensures Dot(One(), One(), n) == n as real
  {
    if n > 0 { CountOfOnes(n - 1); }
  }

  lemma {:induction false} SumOfPositions(n: nat)
    ensures Dot(One(), Position(), n) == n as real * (n as real - 1.0) / 2.0
  {
    if n > 0 {
      SumOfPositions(n - 1);
      NextTriangle(n as real);
    }
  }

  lemma NextTriangle(x: real)
    ensures (x - 1.0) * (x - 1.0 - 1.0) / 2.0 + (x - 1.0) == x * (x - 1.0) / 2.0
  {
  }

  lemma {:induction false} SumOfSquares(n: nat)
    ensures Dot(Position(), Position(), n) == Pyramid(n as real)
  {
    if n > 0 {
      SumOfSquares(n - 1);
      NextPyramid(n as real);
    }
  }

  ghost function Pyramid(x: real): real {
    x * (x - 1.0) * (2.0 * x - 1.0) / 6.0
  }

  lemma NextPyramid(x: real)
    ensures Pyramid(x - 1.0) + (x - 1.0) * (x - 1.0) == Pyramid(x)
  {
  }

  lemma MeanXTimesN(n: nat)
    requires n > 0
    ensures MeanX(n) * Dot(One(), One(), n) == Dot(One(), Position(), n)
  {
    CountOfOnes(n);
    Quotient(Dot(One(), Position(), n), n as real);
  }

  lemma MeanYTimesN(ys: seq<real>)
    requires ys != []
    ensures MeanY(ys) * Dot(One(), One(), |ys|) == Dot(One(), At(ys), |ys|)
  {
    CountOfOnes(|ys|);
    Quotient(Dot(One(), At(ys), |ys|), |ys| as real);
  }

  lemma MiddleOf(m: real, count: real, sum: real, x: real)
    requires x != 0.0 && count == x && sum == x * (x - 1.0) / 2.0 && m * count == sum
    ensures m == (x - 1.0) / 2.0
  {
    Half(x);
    CancelFactor(m, count, (x - 1.0) / 2.0, x, sum);
  }

  lemma Half(x: real)
    ensures (x - 1.0) / 2.0 * x == x * (x - 1.0) / 2.0
  {
  }

  lemma CancelFactor(a: real, x: real, b: real, y: real, product: real)
    requires a * x == product && b * y == product && x == y && x != 0.0
    ensures a == b
  {
    assert (a - b) * x == a * x - b * x;
    assert (a - b) * x == 0.0;
  }

  lemma ClosedForm(x: real, m: real)
    requires m == (x - 1.0) / 2.0
    ensures Pyramid(x) + -m * (x * (x - 1.0) / 2.0) == x * (x * x - 1.0) / 12.0
  {
    var p := x * (x - 1.0);
    assert m * (p / 2.0) == p * (x - 1.0) / 4.0;
    assert x * (x * x - 1.0) == p * (x + 1.0);
    assert p * (2.0 * x - 1.0) == 2.0 * (p * x) - p;
    assert p * (x - 1.0) == p * x - p;
    assert p * (x + 1.0) == p * x + p;
  }

  /** The denominator is n(n^2 - 1)/12, so with two points or more the fallback of 1.0 is never taken. */
  lemma DenominatorClosedForm(n: nat)
    requires n > 0
    ensures var x := n as real; Denominator(n) == x * (x * x - 1.0) / 12.0
    ensures n >= 2 ==> Denominator(n) > 0.0
  {
    hide Dot;
    var m, d := MeanX(n), From(Position(), MeanX(n));
    MeanXTimesN(n);
    SquaredDeviations(One(), Position(), m, d, n);
    CountOfOnes(n);
    SumOfPositions(n);
    SumOfSquares(n);
    MiddleOf(m, Dot(One(), One(), n), Dot(One(), Position(), n), n as real);
    ClosedForm(n as real, m);
    if n >= 2 {
      DotIsPositive(d, n);
      assert d(0) != 0.0;
    }
  }

  // ---------------------------------------------------------------- the fit is the best one

  /** The residuals of the fitted line cancel and are orthogonal to the positions. */
  lemma ResidualsAreOrthogonal(ys: seq<real>, a: real, b: real)
    requires Fitted(ys, a, b)
    ensures Dot(One(), Residual(ys, a, b), |ys|) == 0.0
    ensures Dot(Position(), Residual(ys, a, b), |ys|) == 0.0
  {
    hide Dot;
    var n, mx, my := |ys|, MeanX(|ys|), MeanY(ys);
    var d, e := From(Position(), mx), From(At(ys), my);
    MeanXTimesN(n);
    MeanYTimesN(ys);
    DeviationsCancel(One(), Position(), mx, d, n);
    DeviationsCancel(One(), At(ys), my, e, n);
    forall i | 0 <= i < n
      ensures Residual(ys, a, b)(i) == e(i) + -b * d(i)
    {
      SplitLine(b, mx, i as real);
    }
    NormalEquations(One(), Position(), mx, d, e, b, Residual(ys, a, b), n);
  }

  lemma SplitLine(b: real, m: real, x: real)
    ensures -b * (x - m) == b * m - b * x
  {
  }

  /** How far two lines are apart. */
  ghost function Gap(p: real, q: real): Values {
    i => p + q * i as real
  }

  /** Any other line has the squared error of the fitted one plus the squared gap between the lines. */
  lemma ErrorSplits(ys: seq<real>, a: real, b: real, a': real, b': real)
    requires Fitted(ys, a, b)
    ensures SquaredError(ys, a', b') ==
            SquaredError(ys, a, b) + Dot(Gap(a - a', b - b'), Gap(a - a', b - b'), |ys|)
  {
    hide Dot;
    ResidualsAreOrthogonal(ys, a, b);
    forall i | 0 <= i < |ys|
      ensures Residual(ys, a', b')(i) == Residual(ys, a, b)(i) + 1.0 * Gap(a - a', b - b')(i)
    {
      Difference(b, b', i as real);
    }
    MovedLine(One(), Position(), Residual(ys, a, b), i => 0.0, a - a', b - b', Gap(a - a', b - b'),
              Residual(ys, a', b'), |ys|);
  }

  lemma Difference(b: real, b': real, x: real)
    ensures (b - b') * x == b * x - b' * x
  {
  }

  /** No line fits the points better, and no other line fits them as well. */
  lemma LeastSquares(ys: seq<real>, a: real, b: real, a': real, b': real)
    requires Fitted(ys, a, b) && |ys| >= 2
    ensures SquaredError(ys, a, b) <= SquaredError(ys, a', b')
    ensures SquaredError(ys, a, b) == SquaredError(ys, a', b') ==> a' == a && b' == b
  {
    var e := Gap(a - a', b - b');
    ErrorSplits(ys, a, b, a', b');
    DotIsPositive(e, |ys|);
    if SquaredError(ys, a, b) == SquaredError(ys, a', b') {
      assert e(0) == 0.0 && e(1) == 0.0;
      TimesZero(b - b');
    }
  }

  /** Points that lie on a line are fitted by that line. */
  lemma PointsOnALine(ys: seq<real>, a: real, b: real, a': real, b': real)
    requires Fitted(ys, a, b) && |ys| >= 2 && forall i :: 0 <= i < |ys| ==> ys[i] == a' + b' * i as real
    ensures a == a' && b == b'
  {
    var rest := Residual(ys, a', b');
    assert forall i :: 0 <= i < |ys| ==> rest(i) == 0.0;
    DotWithZero(rest, rest, |ys|);
    DotIsPositive(Residual(ys, a, b), |ys|);
    LeastSquares(ys, a, b, a', b');
  }

  // ---------------------------------------------------------------- the program

  /** How many of the last values the fit looks at. */
  function Window(series: seq<real>): nat {
    if |series| < 60 then |series| else 60
  }

  /** `series[-n:]` */
  function Last(series: seq<real>, n: nat): seq<real>
    requires n <= |series|
  {
    series[|series| - n..]
  }

  method Total(xs: seq<real>) returns (total: real)
    ensures total == Dot(One(), At(xs), |xs|)
  {
    total := 0.0;
    for i := 0 to |xs|
      invariant total == Dot(One(), At(xs), i)
    {
      total := total + xs[i];
    }
  }

  method TotalOfPositions(n: nat) returns (total: real)
    ensures total == Dot(One(), Position(), n)
  {
    total := 0.0;
    for i := 0 to n
      invariant total == Dot(One(), Position(), i)
    {
      total := total + i as real;
    }
  }

  /** The sums of `(x - x_mean) ** 2` and of `(x - x_mean) * (y - y_mean)`. */
  method SpreadSums(ys: seq<real>, meanX: real, meanY: real) returns (denominator: real, covariation: real)
    ensures denominator == Dot(From(Position(), meanX), From(Position(), meanX), |ys|)
    ensures covariation == Dot(From(Position(), meanX), From(At(ys), meanY), |ys|)
  {
    denominator, covariation := 0.0, 0.0;
    ghost var d, e := From(Position(), meanX), From(At(ys), meanY);
    for i := 0 to |ys|
      invariant denominator == Dot(d, d, i)
      invariant covariation == Dot(d, e, i)
    {
      var dx, dy := i as real - meanX, ys[i] - meanY;
      assert d(i) == dx && e(i) == dy;
      denominator := denominator + dx * dx;
      covariation := covariation + dx * dy;
    }
  }

  method Line(denominator: real, covariation: real, meanX: real, meanY: real) returns (slope: real, intercept: real)
    ensures denominator != 0.0 ==> slope * denominator == covariation
    ensures denominator == 0.0 ==> slope == covariation
    ensures intercept == meanY - slope * meanX
  {
    var divisor := if denominator != 0.0 then denominator else 1.0;
    slope := covariation / divisor;
    Quotient(covariation, divisor);
    intercept := meanY - slope * meanX;
  }

  method Residuals(ys: seq<real>, intercept: real, slope: real) returns (residuals: seq<real>)
    ensures |residuals| == |ys| && forall i :: 0 <= i < |ys| ==> residuals[i] == Residual(ys, intercept, slope)(i)
  {
    residuals := [];
    for i := 0 to |ys|
      invariant |residuals| == i
      invariant forall k :: 0 <= k < i ==> residuals[k] == Residual(ys, intercept, slope)(k)
    {
      residuals := residuals + [ys[i] - (intercept + slope * i as real)];
    }
  }

  /** The regression of `_forecast_series` on the last sixty points at most. */
  method Fit(series: seq<real>) returns (n: nat, slope: real, intercept: real, residuals: seq<real>)
    requires |series| >= 3
    ensures n == Window(series)
    ensures Fitted(Last(series, n), intercept, slope)
    ensures |residuals| == n && forall i :: 0 <= i < n ==>
        residuals[i] == Residual(Last(series, n), intercept, slope)(i)
  {
    hide Dot;
    n := Window(series);
    var ys := Last(series, n);
    var sumX := TotalOfPositions(n);
    var sumY := Total(ys);
    var meanX, meanY := sumX / n as real, sumY / n as real;
    var denominator, covariation := SpreadSums(ys, meanX, meanY);
    DenominatorClosedForm(n);
    slope, intercept := Line(denominator, covariation, meanX, meanY);
    residuals := Residuals(ys, intercept, slope);
  }

  // ---------------------------------------------------------------- the projection

  datatype Point = Point(predicted: real, low: real, high: real)

  function Max(x: real, y: real): real {
    if x >= y then x else y
  }

  /** The day `i` days after one that is a Saturday or Sunday, weekdays counted from Monday as 0. */
  predicate Weekend(weekday: nat, i: nat) {
    (weekday + i) % 7 >= 5
  }

  function Predicted(n: nat, weekday: nat, a: real, b: real, i: nat): real {
    var trend := a + b * (n - 1 + i) as real;
    Max(0.0, if Weekend(weekday, i) then trend * 0.6 else trend)
  }

  function ProjectedPoint(n: nat, weekday: nat, a: real, b: real, sigma: real, i: nat): Point {
    var predicted := Predicted(n, weekday, a, b, i);
    var band := Max(sigma * 1.64, predicted * 0.08);
    Point(predicted, Max(0.0, predicted - band), predicted + band)
  }

  function ConstantPoint(base: real): Point {
    Point(base, base * 0.9, base * 1.1)
  }

  /** A projected value is never negative and lies inside its band, which is at least 8% wide to each side. */
  lemma BandHoldsTheValue(n: nat, weekday: nat, a: real, b: real, sigma: real, i: nat)
    ensures var point := ProjectedPoint(n, weekday, a, b, sigma, i);
            && 0.0 <= point.low <= point.predicted <= point.high
            && point.high - point.predicted >= point.predicted * 0.08
            && point.low <= point.predicted - point.predicted * 0.08
  {
  }

  /** The constant band holds its value exactly when the last value is not negative: below zero it is turned around. */
  lemma ConstantBandHoldsTheValueIffNotNegative(base: real)
    ensures var point := ConstantPoint(base);
            point.low <= point.predicted <= point.high <==> base >= 0.0
  {
  }

  /** Week on week the projection moves the way the slope points, weekend or not. */
  lemma WeekOnWeek(n: nat, weekday: nat, a: real, b: real, i: nat)
    ensures b >= 0.0 ==> Predicted(n, weekday, a, b, i) <= Predicted(n, weekday, a, b, i + 7)
    ensures b <= 0.0 ==> Predicted(n, weekday, a, b, i) >= Predicted(n, weekday, a, b, i + 7)
  {
    var x := (n - 1 + i) as real;
    assert (n - 1 + (i + 7)) as real == x + 7.0;
    assert b * (x + 7.0) == b * x + b * 7.0;
  }

  /**
   Each projected day by number, Monday being 0: from Monday to Friday the line itself, on Saturday and Sunday six
   tenths of it, and zero where that is negative; the line goes on from the last position.
   */
  lemma PredictedByDay(n: nat, weekday: nat, a: real, b: real, i: nat)
    ensures var day, line := (weekday + i) % 7, a + b * (n - 1 + i) as real;
            var r := Predicted(n, weekday, a, b, i);
            && (day in {0, 1, 2, 3, 4} ==> r == if line >= 0.0 then line else 0.0)
            && (day in {5, 6} ==> r == if line >= 0.0 then 0.6 * line else 0.0)
  {
  }

  /** The band reaches 1.64 standard errors to each side, or 8 percent of the value if that is more, down to zero. */
  lemma BandByNumber(n: nat, weekday: nat, a: real, b: real, sigma: real, i: nat)
    ensures var point := ProjectedPoint(n, weekday, a, b, sigma, i);
            var up := point.high - point.predicted;
            && point.predicted == Predicted(n, weekday, a, b, i)
            && up >= 1.64 * sigma && up >= 0.08 * point.predicted
            && (up == 1.64 * sigma || up == 0.08 * point.predicted)
            && (up <= point.predicted ==> point.predicted - point.low == up)
            && (up > point.predicted ==> point.low == 0.0)
  {
  }

  /** Without three points to fit, the last value is held, ten percent to each side. */
  lemma ConstantByNumber(base: real)
    ensures ConstantPoint(base).predicted == base
    ensures ConstantPoint(base).low == base - base / 10.0 && ConstantPoint(base).high == base + base / 10.0
  {
  }

  /** The fit sees the last sixty values, or all of fewer. */
  lemma LastSixty(series: seq<real>)
    ensures Window(series) <= |series|
    ensures var ys := Last(series, Window(series));
            && |ys| == (if |series| <= 60 then |series| else 60)
            && (forall i :: 0 <= i < |ys| ==> ys[i] == series[|series| - |ys| + i])
  {
  }

  /** `x ** 0.5` */
  ghost predicate IsRoot(root: real -> real) {
    forall x :: x >= 0.0 ==> root(x) >= 0.0 && root(x) * root(x) == x
  }

  method SumOfSquaredResiduals(residuals: seq<real>, ghost r: Values) returns (total: real)
    requires forall i :: 0 <= i < |residuals| ==> residuals[i] == r(i)
    ensures total == Dot(r, r, |residuals|)
  {
    total := 0.0;
    for i := 0 to |residuals|
      invariant total == Dot(r, r, i)
    {
      total := total + residuals[i] * residuals[i];
    }
  }

  method Project(n: nat, weekday: nat, intercept: real, slope: real, sigma: real, horizon: int)
      returns (points: seq<Point>)
    ensures |points| == if horizon > 0 then horizon else 0
    ensures forall i :: 0 <= i < |points| ==> points[i] == ProjectedPoint(n, weekday, intercept, slope, sigma, i + 1)
  {
    points := [];
    var i := 1;
    while i < horizon + 1
      invariant |points| == i - 1 && (i == 1 || i <= horizon + 1)
      invariant forall k :: 0 <= k < |points| ==>
          points[k] == ProjectedPoint(n, weekday, intercept, slope, sigma, k + 1)
    {
      var predicted := intercept + slope * (n - 1 + i) as real;
      if (weekday + i) % 7 >= 5 {
        predicted := predicted * 0.6;
      }
      predicted := Max(0.0, predicted);
      var band := Max(sigma * 1.64, predicted * 0.08);
      points := points + [Point(predicted, Max(0.0, predicted - band), predicted + band)];
      i := i + 1;
    }
  }

  /** The standard error the band is made from. */
  ghost function Sigma(ys: seq<real>, a: real, b: real, root: real -> real): real {
    root(SquaredError(ys, a, b) / (if |ys| > 3 then |ys| - 2 else 1) as real)
  }

  /** The squared standard error is the sum of squared residuals over the points less two. */
  lemma SigmaSquared(ys: seq<real>, a: real, b: real, root: real -> real)
    requires IsRoot(root) && |ys| >= 3
    ensures var sigma := Sigma(ys, a, b, root);
            sigma >= 0.0 && sigma * sigma * (|ys| - 2) as real == SquaredError(ys, a, b)
  {
    hide Dot;
    var error, rest := SquaredError(ys, a, b), (|ys| - 2) as real;
    DotIsPositive(Residual(ys, a, b), |ys|);
    Quotient(error, rest);
    QuotientIsPositive(error, rest);
  }

  lemma QuotientIsPositive(x: real, y: real)
    requires x >= 0.0 && y > 0.0
    ensures x / y >= 0.0
  {
  }

  method ForecastSeries(series: seq<real>, weekday: nat, horizon: int, root: real -> real)
    returns (points: seq<Point>, slope: real, intercept: real)
    requires IsRoot(root)
    ensures |points| == if horizon > 0 then horizon else 0
    ensures |series| < 3 ==> forall point :: point in points ==>
      point == ConstantPoint(if series == [] then 0.0 else series[|series| - 1])
    ensures |series| >= 3 ==>
      var ys := Last(series, Window(series));
      && Fitted(ys, intercept, slope)
      && forall i :: 0 <= i < |points| ==>
        points[i] == ProjectedPoint(|ys|, weekday, intercept, slope, Sigma(ys, intercept, slope, root), i + 1)
  {
    if |series| < 3 {
      var base := if series == [] then 0.0 else series[|series| - 1];
      points := seq(if horizon > 0 then horizon else 0, _ => ConstantPoint(base));
      slope, intercept := 0.0, base;
      return;
    }
    var n, residuals;
    n, slope, intercept, residuals := Fit(series);
    var squares := SumOfSquaredResiduals(residuals, Residual(Last(series, n), intercept, slope));
    var sigma := root(squares / (if n > 3 then n - 2 else 1) as real);
    points := Project(n, weekday, intercept, slope, sigma, horizon);
  }
}
