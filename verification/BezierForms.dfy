/**
 The interpolants of src/dlm/rdx.cpp in closed form: the derivative at each knot, the polynomial of
 each interval in the data and the derivatives at its ends, and the lines outside. Nothing here
 speaks of control values or weights.
 */
module BezierForms {
  import opened RealMath
  import opened BezierMath
  import opened Bezier

  // ---------------------------------------------------------------- derivatives

  lemma WeightTimesWidths(dx: real, dx1: real)
    requires dx > 0.0 && dx1 > 0.0
    ensures Lambda(dx, dx1) * (3.0 * (dx + dx1)) == dx + 2.0 * dx1
  {
    var ratio := dx1 / (dx1 + dx);
    Quotient(dx1, dx1 + dx);
    assert Lambda(dx, dx1) == (1.0 + ratio) / 3.0;
    assert Lambda(dx, dx1) * (3.0 * (dx + dx1)) == (1.0 + ratio) * (dx + dx1);
    Distribute(1.0, -ratio, dx + dx1);
  }

  lemma MeanTimesWeights(lambda: real, der: real, der1: real)
    requires 0.0 < lambda < 1.0 && der * der1 > 0.0
    ensures lambda * der1 + (1.0 - lambda) * der != 0.0
    ensures HarmonicMean(lambda, der, der1) * (lambda * der1 + (1.0 - lambda) * der) == der * der1
  {
    BlendNonzero(lambda, der, der1);
    Divided(der, der1, lambda * der1 + (1.0 - lambda) * der);
  }

  lemma Divided(a: real, b: real, w: real)
    requires w != 0.0
    ensures ((a / w) * b) * w == a * b
  {
    assert (a / w) * w == a;
  }

  /** The mean of two slopes of the same sign, without division: the width of the other interval
      counts twice. */
  lemma LimitedExactly(dx: real, der: real, dx1: real, der1: real)
    requires dx > 0.0 && dx1 > 0.0
    ensures var d := Limited(dx, der, dx1, der1);
            if der * der1 > 0.0
            then d * ((dx + 2.0 * dx1) * der1 + (2.0 * dx + dx1) * der) == 3.0 * (dx + dx1) * (der * der1)
            else d == 0.0
  {
    hide HarmonicMean;
    if der * der1 > 0.0 {
      var lambda, d, sum := Lambda(dx, dx1), Limited(dx, der, dx1, der1), 3.0 * (dx + dx1);
      WeightTimesWidths(dx, dx1);
      MeanTimesWeights(lambda, der, der1);
      Scaled(lambda, sum, der, der1, dx + 2.0 * dx1, d, der * der1);
    }
  }

  lemma Scaled(lambda: real, sum: real, der: real, der1: real, first: real, d: real, product: real)
    requires lambda * sum == first && d * (lambda * der1 + (1.0 - lambda) * der) == product
    ensures d * (first * der1 + (sum - first) * der) == sum * product
  {
    var w := lambda * der1 + (1.0 - lambda) * der;
    assert (lambda * sum) * der1 == sum * (lambda * der1);
    assert (sum - lambda * sum) * der == sum * ((1.0 - lambda) * der);
    assert first * der1 + (sum - first) * der == sum * w;
    assert d * (sum * w) == sum * (d * w);
  }

  /** `d` is the mean of the slopes `s` and `s1` of two intervals of widths `h` and `h1`. */
  ghost predicate IsMean(d: real, h: real, h1: real, s: real, s1: real) {
    if s * s1 > 0.0 then d * ((h + 2.0 * h1) * s1 + (2.0 * h + h1) * s) == 3.0 * (h + h1) * (s * s1) else d == 0.0
  }

  lemma LimitedIsMean(h: real, s: real, h1: real, s1: real)
    requires h > 0.0 && h1 > 0.0
    ensures IsMean(Limited(h, s, h1, s1), h, h1, s, s1)
  {
    hide Limited;
    LimitedExactly(h, s, h1, s1);
  }

  /** The derivative at every knot: the end slopes at the ends; inside, zero at an extremum, and a
      mean of the two slopes otherwise. */
  lemma DerivativeExactly(x: seq<real>, y: seq<real>, k: nat)
    requires Table(x, y) && k < |x|
    ensures k == 0 ==> Derivative(x, y, k) == (y[1] - y[0]) / (x[1] - x[0])
    ensures k == |x| - 1 ==> Derivative(x, y, k) == (y[k] - y[k - 1]) / (x[k] - x[k - 1])
    ensures 0 < k < |x| - 1 ==>
              IsMean(Derivative(x, y, k), x[k] - x[k - 1], x[k + 1] - x[k],
                     (y[k] - y[k - 1]) / (x[k] - x[k - 1]), (y[k + 1] - y[k]) / (x[k + 1] - x[k]))
  {
    hide Limited, IsMean;
    if 0 < k < |x| - 1 {
      LimitedIsMean(x[k] - x[k - 1], Slope(x, y, k - 1), x[k + 1] - x[k], Slope(x, y, k));
    }
  }

  // ---------------------------------------------------------------- the cubic form

  /** A product that the solver is not to look into. */
  function Times(a: real, b: real): real { a * b }

  lemma CubicPolynomial(y0: real, y1: real, rise: real, e0: real, e1: real, u: real)
    requires rise == y1 - y0
    ensures Cubic(y0, y0 + e0 / 3.0, y1 - e1 / 3.0, y1, u)
         == y0 + Times(e0, u) + Times(3.0 * rise - 2.0 * e0 - e1, u * u) + Times(e0 + e1 - 2.0 * rise, u * u * u)
  {
    var v, a, b := 1.0 - u, u * u, u * u * u;
    assert v * v == 1.0 - 2.0 * u + a;
    assert v * v * v == 1.0 - 3.0 * u + 3.0 * a - b;
    assert u * (v * v) == u - 2.0 * a + b;
    assert a * v == a - b;
    CubicTerms(y0, y0 + e0 / 3.0, y1 - e1 / 3.0, y1, u, v);
  }

  lemma CubicTerms(y0: real, c1: real, c2: real, y1: real, u: real, v: real)
    requires v == 1.0 - u
    ensures Cubic(y0, c1, c2, y1, u) == y0 * (v * v * v) + y1 * (u * u * u) + 3.0 * (c1 * (u * (v * v))) + 3.0 * (c2 * ((u * u) * v))
  {
  }

  /** The cubic with the given values and derivatives at both ends of an interval of width `w`. */
  ghost predicate IsHermite(p: real, w: real, h: real, y0: real, y1: real, d: real, d1: real)
    requires w > 0.0
  {
    var u, s := h / w, (y1 - y0) / w;
    p == y0 + d * h + (3.0 * s - 2.0 * d - d1) * (h * u) + (d + d1 - 2.0 * s) * (h * (u * u))
  }

  lemma HermiteForm(w: real, h: real, y0: real, y1: real, d: real, d1: real)
    requires w > 0.0
    ensures IsHermite(Cubic(y0, LeftControl(y0, w, d), RightControl(y1, w, d1), y1, h / w), w, h, y0, y1, d, d1)
  {
    hide Cubic, Times, LeftControl, RightControl, IsHermite;
    var u, s, e0, e1, rise := h / w, (y1 - y0) / w, w * d, w * d1, y1 - y0;
    Quotient(h, w);
    Quotient(rise, w);
    ControlsAre(y0, w, d, e0);
    ControlsAre(y1, w, d1, e1);
    CubicPolynomial(y0, y1, rise, e0, e1, u);
    InWidths(w, h, u, s, d, d1, rise, e0, e1);
    HermiteSum(Cubic(y0, y0 + e0 / 3.0, y1 - e1 / 3.0, y1, u), w, h, u, s, y0, y1, d, d1);
  }

  lemma ControlsAre(y: real, w: real, d: real, e: real)
    requires e == w * d
    ensures LeftControl(y, w, d) == y + e / 3.0 && RightControl(y, w, d) == y - e / 3.0
  {
  }

  lemma HermiteSum(p: real, w: real, h: real, u: real, s: real, y0: real, y1: real, d: real, d1: real)
    requires w > 0.0 && u == h / w && s == (y1 - y0) / w
    requires p == y0 + Times(d, h) + Times(3.0 * s - 2.0 * d - d1, h * u) + Times(d + d1 - 2.0 * s, h * (u * u))
    ensures IsHermite(p, w, h, y0, y1, d, d1)
  {
  }

  /** bezier3 between two knots is the cubic that has the tabulated value and the limited derivative
      at both of them: it leaves the left knot with the derivative of that knot, and the curve is
      smooth. */
  lemma CubicExactly(x: seq<real>, y: seq<real>, k: nat, q: real)
    requires Table(x, y) && k + 1 < |x| && x[k] <= q < x[k + 1]
    ensures IsHermite(Interpolant(Three, x, y, q), x[k + 1] - x[k], q - x[k], y[k], y[k + 1],
                      Derivative(x, y, k), Derivative(x, y, k + 1))
  {
    hide Derivative, Cubic, IsHermite, LeftControl, RightControl, Interpolant;
    InInterval(Three, x, y, k, q);
    HermiteForm(x[k + 1] - x[k], q - x[k], y[k], y[k + 1], Derivative(x, y, k), Derivative(x, y, k + 1));
  }

  lemma Rescaled(w: real, h: real, u: real, d: real, e: real)
    requires u * w == h && e == w * d
    ensures Times(e, u) == Times(d, h) && Times(e, u * u) == Times(d, h * u) && Times(e, u * u * u) == Times(d, h * (u * u))
  {
    assert (w * d) * u == d * (u * w);
    assert (w * d) * (u * u) == d * ((u * w) * u);
    assert (w * d) * (u * u * u) == d * ((u * w) * (u * u));
  }

  lemma Combined(w: real, a: real, b: real, c: real, s: real, d: real, d1: real)
    ensures a * (w * s) + b * (w * d) + c * (w * d1) == w * (a * s + b * d + c * d1)
  {
  }

  lemma InWidths(w: real, h: real, u: real, s: real, d: real, d1: real, rise: real, e0: real, e1: real)
    requires u * w == h && s * w == rise && e0 == w * d && e1 == w * d1
    ensures Times(e0, u) == Times(d, h)
    ensures Times(3.0 * rise - 2.0 * e0 - e1, u * u) == Times(3.0 * s - 2.0 * d - d1, h * u)
    ensures Times(e0 + e1 - 2.0 * rise, u * u * u) == Times(d + d1 - 2.0 * s, h * (u * u))
    ensures Times(rise + (e0 - e1) / 2.0, u) == Times(s + (d - d1) / 2.0, h)
    ensures Times((e0 - e1) / 2.0, u * u) == Times((d - d1) / 2.0, h * u)
  {
    hide Times;
    Combined(w, 3.0, -2.0, -1.0, s, d, d1);
    Combined(w, -2.0, 1.0, 1.0, s, d, d1);
    Combined(w, 1.0, 0.5, -0.5, s, d, d1);
    Combined(w, 0.0, 0.5, -0.5, s, d, d1);
    Rescaled(w, h, u, d, e0);
    Rescaled(w, h, u, 3.0 * s - 2.0 * d - d1, 3.0 * rise - 2.0 * e0 - e1);
    Rescaled(w, h, u, d + d1 - 2.0 * s, e0 + e1 - 2.0 * rise);
    Rescaled(w, h, u, s + (d - d1) / 2.0, rise + (e0 - e1) / 2.0);
    Rescaled(w, h, u, (d - d1) / 2.0, (e0 - e1) / 2.0);
  }

  // ---------------------------------------------------------------- the quadratic form

  lemma QuadraticPolynomial(y0: real, y1: real, rise: real, e0: real, e1: real, u: real)
    requires rise == y1 - y0
    ensures Quadratic(y0, 0.5 * (y0 + 0.5 * e0 + y1 - 0.5 * e1), y1, u)
         == y0 + Times(rise + (e0 - e1) / 2.0, u) - Times((e0 - e1) / 2.0, u * u)
  {
    QuadraticForm(y0, 0.5 * (y0 + 0.5 * e0 + y1 - 0.5 * e1), y1, u);
  }

  /** The parabola through the values at both ends whose slope there is that of the data plus and
      minus half the difference of the derivatives. */
  ghost predicate IsParabola(p: real, w: real, h: real, y0: real, y1: real, d: real, d1: real)
    requires w > 0.0
  {
    var u, s := h / w, (y1 - y0) / w;
    p == y0 + (s + (d - d1) / 2.0) * h - ((d - d1) / 2.0) * (h * u)
  }

  lemma ParabolaForm(w: real, h: real, y0: real, y1: real, d: real, d1: real)
    requires w > 0.0
    ensures IsParabola(Quadratic(y0, MiddleControl(y0, y1, w, d, d1), y1, h / w), w, h, y0, y1, d, d1)
  {
    hide Quadratic, Times, MiddleControl, IsParabola;
    var u, s, e0, e1, rise := h / w, (y1 - y0) / w, w * d, w * d1, y1 - y0;
    Quotient(h, w);
    Quotient(rise, w);
    MiddleIs(y0, y1, w, d, d1, e0, e1);
    QuadraticPolynomial(y0, y1, rise, e0, e1, u);
    InWidths(w, h, u, s, d, d1, rise, e0, e1);
    ParabolaSum(Quadratic(y0, 0.5 * (y0 + 0.5 * e0 + y1 - 0.5 * e1), y1, u), w, h, u, s, y0, y1, d, d1);
  }

  lemma MiddleIs(y0: real, y1: real, w: real, d: real, d1: real, e0: real, e1: real)
    requires e0 == w * d && e1 == w * d1
    ensures MiddleControl(y0, y1, w, d, d1) == 0.5 * (y0 + 0.5 * e0 + y1 - 0.5 * e1)
  {
  }

  lemma ParabolaSum(p: real, w: real, h: real, u: real, s: real, y0: real, y1: real, d: real, d1: real)
    requires w > 0.0 && u == h / w && s == (y1 - y0) / w
    requires p == y0 + Times(s + (d - d1) / 2.0, h) - Times((d - d1) / 2.0, h * u)
    ensures IsParabola(p, w, h, y0, y1, d, d1)
  {
  }

  /** bezier2 between two knots is that parabola. */
  lemma QuadraticExactly(x: seq<real>, y: seq<real>, k: nat, q: real)
    requires Table(x, y) && k + 1 < |x| && x[k] <= q < x[k + 1]
    ensures IsParabola(Interpolant(Two, x, y, q), x[k + 1] - x[k], q - x[k], y[k], y[k + 1],
                       Derivative(x, y, k), Derivative(x, y, k + 1))
  {
    hide Derivative, Quadratic, IsParabola, MiddleControl, Interpolant;
    InInterval(Two, x, y, k, q);
    ParabolaForm(x[k + 1] - x[k], q - x[k], y[k], y[k + 1], Derivative(x, y, k), Derivative(x, y, k + 1));
  }

  // ---------------------------------------------------------------- outside, and falling tables

  /** Outside the knots both forms are the lines through the first two and the last two knots. */
  lemma OutsideExactly(deg: Degree, x: seq<real>, y: seq<real>, q: real)
    requires Table(x, y)
    ensures q < x[0] ==> Interpolant(deg, x, y, q) == y[0] + (y[1] - y[0]) / (x[1] - x[0]) * (q - x[0])
    ensures var n := |x|;
            q >= x[n - 1] ==>
              Interpolant(deg, x, y, q) == y[n - 1] + (y[n - 1] - y[n - 2]) / (x[n - 1] - x[n - 2]) * (q - x[n - 1])
  {
    hide Line, Segment;
    OutOfRange(deg, x, y, q);
    LineForm(x, y, 0, 0, q);
    LineForm(x, y, |x| - 2, |x| - 1, q);
  }

  /** A table may be given in rising or falling order: the curve goes through its points as given. */
  lemma ThroughTheGivenData(deg: Degree, x: seq<real>, y: seq<real>, k: nat)
    requires |x| == |y| >= 2 && (Increasing(x) || Decreasing(x)) && k < |x|
    ensures Table(Upright(x, x), Upright(x, y)) && Interpolant(deg, Upright(x, x), Upright(x, y), x[k]) == y[k]
  {
    hide Interpolant;
    UprightTable(x, y);
    var i := if x[1] - x[0] > 0.0 then k else |x| - 1 - k;
    ThroughTheData(deg, Upright(x, x), Upright(x, y), i);
  }
}
