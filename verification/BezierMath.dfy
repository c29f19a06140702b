/**
 The real-number facts behind the interpolators of src/dlm/rdx.cpp: the limited
 derivative, and the cubic and quadratic Bezier segments built from it.
 */
module BezierMath {
  import opened RealMath

  /** `v` lies between `a` and `b`, whichever of the two is the larger. */
  predicate Within(a: real, v: real, b: real) {
    a <= v <= b || b <= v <= a
  }

  // ---------------------------------------------------------------- the limiter

  /** The blend weight of two neighbouring slopes, from the two interval widths. */
  function Lambda(dx: real, dx1: real): (lambda: real)
    requires dx > 0.0 && dx1 > 0.0
    ensures 1.0 < 3.0 * lambda < 2.0
    ensures dx == dx1 ==> 2.0 * lambda == 1.0
  {
    var ratio := dx1 / (dx1 + dx);
    Quotient(dx1, dx1 + dx);
    assert dx == dx1 ==> ratio * (2.0 * dx) == dx && (2.0 * ratio - 1.0) * dx == 0.0;
    (1.0 + ratio) / 3.0
  }

  /** The denominator of the weighted harmonic mean never vanishes where it is used. */
  lemma BlendNonzero(lambda: real, der: real, der1: real)
    requires 0.0 < lambda < 1.0
    requires der * der1 > 0.0
    ensures lambda * der1 + (1.0 - lambda) * der != 0.0
    ensures der > 0.0 ==> der1 > 0.0 && lambda * der1 > 0.0 && (1.0 - lambda) * der > 0.0
    ensures der < 0.0 ==> der1 < 0.0 && lambda * der1 < 0.0 && (1.0 - lambda) * der < 0.0
  {
  }

  /** The weighted harmonic mean of two slopes. */
  function HarmonicMean(lambda: real, der: real, der1: real): real
    requires lambda * der1 + (1.0 - lambda) * der != 0.0
  {
    (der / (lambda * der1 + (1.0 - lambda) * der)) * der1
  }

  /** The derivative at an inner knot: a weighted harmonic mean of the two adjacent
      slopes, or zero where the data turn. */
  function Limited(dx: real, der: real, dx1: real, der1: real): real
    requires dx > 0.0 && dx1 > 0.0
  {
    if der * der1 > 0.0 then
      var lambda := Lambda(dx, dx1);
      BlendNonzero(lambda, der, der1);
      HarmonicMean(lambda, der, der1)
    else
      0.0
  }

  /** A weighted harmonic mean of positives is below each of them over its weight. */
  lemma MeanBound(lambda: real, der: real, der1: real)
    requires 0.0 < lambda < 1.0
    requires der > 0.0 && der1 > 0.0
    ensures lambda * der1 + (1.0 - lambda) * der > 0.0
    ensures var d := HarmonicMean(lambda, der, der1);
            0.0 < d && lambda * d <= der && (1.0 - lambda) * d <= der1
  {
    MulPositive(lambda, der1);
    MulPositive(1.0 - lambda, der);
    var w := lambda * der1 + (1.0 - lambda) * der;
    Quotient(der, w);
    MeanParts(lambda, der, der1, w, der / w, HarmonicMean(lambda, der, der1));
  }

  lemma MeanParts(lambda: real, der: real, der1: real, w: real, e: real, d: real)
    requires 0.0 < lambda < 1.0 && der > 0.0 && der1 > 0.0 && e > 0.0
    requires w == lambda * der1 + (1.0 - lambda) * der && e * w == der && d == e * der1
    ensures 0.0 < d && lambda * d <= der && (1.0 - lambda) * d <= der1
  {
    var f := (1.0 - lambda) * e;
    MulPositive(e, der1);
    MulPositive(lambda, d);
    MulPositive(f, der);
    assert e * w == lambda * d + f * der;
    assert f <= 1.0 by {
      if f > 1.0 { MulPositive(f - 1.0, der); }
    }
    MulMonotone(der1, f, 1.0);
  }

  /** Negating both slopes negates the derivative. */
  lemma LimitedNegates(dx: real, der: real, dx1: real, der1: real)
    requires dx > 0.0 && dx1 > 0.0
    ensures Limited(dx, -der, dx1, -der1) == -Limited(dx, der, dx1, der1)
  {
  }

  /** The derivative has the sign of the data and is at most three times either
      adjacent slope; at most twice when the two intervals have the same width. */
  lemma LimitedBound(dx: real, der: real, dx1: real, der1: real)
    requires dx > 0.0 && dx1 > 0.0
    ensures var d := Limited(dx, der, dx1, der1);
            Within(0.0, d, 3.0 * der) && Within(0.0, d, 3.0 * der1)
    ensures dx == dx1 ==> var d := Limited(dx, der, dx1, der1);
            Within(0.0, d, 2.0 * der) && Within(0.0, d, 2.0 * der1)
  {
    if der * der1 > 0.0 {
      BlendNonzero(Lambda(dx, dx1), der, der1);
      if der > 0.0 {
        PositiveBound(dx, der, dx1, der1);
      } else {
        LimitedNegates(dx, der, dx1, der1);
        PositiveBound(dx, -der, dx1, -der1);
      }
    }
  }

  lemma PositiveBound(dx: real, der: real, dx1: real, der1: real)
    requires dx > 0.0 && dx1 > 0.0 && der > 0.0 && der1 > 0.0
    ensures var d := Limited(dx, der, dx1, der1);
            && 0.0 < d <= 3.0 * der && d <= 3.0 * der1
            && (dx == dx1 ==> d <= 2.0 * der && d <= 2.0 * der1)
  {
    var lambda := Lambda(dx, dx1);
    MulPositive(der, der1);
    MeanBound(lambda, der, der1);
    ScaledBound(lambda, HarmonicMean(lambda, der, der1), der, der1);
  }

  lemma ScaledBound(lambda: real, d: real, der: real, der1: real)
    requires 1.0 < 3.0 * lambda < 2.0 && d > 0.0
    requires lambda * d <= der && (1.0 - lambda) * d <= der1
    ensures d <= 3.0 * der && d <= 3.0 * der1
    ensures 2.0 * lambda == 1.0 ==> d <= 2.0 * der && d <= 2.0 * der1
  {
  }

  /** Exchanging the two sides exchanges the weights, so the mean stays the same. */
  lemma LimitedSwaps(dx: real, der: real, dx1: real, der1: real)
    requires dx > 0.0 && dx1 > 0.0
    ensures Limited(dx1, der1, dx, der) == Limited(dx, der, dx1, der1)
  {
    if der * der1 > 0.0 {
      LambdaSwaps(dx, dx1);
      var lambda := Lambda(dx, dx1);
      BlendNonzero(lambda, der, der1);
      var w := lambda * der1 + (1.0 - lambda) * der;
      MeanSwaps(der, der1, w);
    }
  }

  lemma LambdaSwaps(dx: real, dx1: real)
    requires dx > 0.0 && dx1 > 0.0
    ensures Lambda(dx1, dx) == 1.0 - Lambda(dx, dx1)
  {
    assert dx1 / (dx1 + dx) + dx / (dx + dx1) == 1.0;
  }

  lemma MeanSwaps(der: real, der1: real, w: real)
    requires w != 0.0
    ensures (der / w) * der1 == (der1 / w) * der
  {
  }

  // ---------------------------------------------------------------- cubic segments

  /** A cubic Bezier segment with end values `y0`, `y1` and control values `c1`, `c2`. */
  function Cubic(y0: real, c1: real, c2: real, y1: real, u: real): real {
    var u1 := 1.0 - u;
    y0 * u1 * u1 * u1 + y1 * u * u * u + 3.0 * c1 * u * u1 * u1 + 3.0 * c2 * u * u * u1
  }

  // The four extreme segments: both derivatives zero, only the left one at three times
  // the slope, only the right one, and both.
  function Flat(u: real): real { 3.0 * (u * u) - 2.0 * (u * u * u) }
  function LeftSteep(u: real): real { 3.0 * u - 3.0 * (u * u) + u * u * u }
  function RightSteep(u: real): real { u * u * u }
  function BothSteep(u: real): real { 3.0 * u - 6.0 * (u * u) + 4.0 * (u * u * u) }

  lemma CubeMonotone(a: real, b: real)
    requires a <= b
    ensures a * a * a <= b * b * b
  {
    var q := a * a + a * b + b * b;
    assert 2.0 * q == a * a + b * b + (a + b) * (a + b);
    SquareNonneg(a);
    SquareNonneg(b);
    SquareNonneg(a + b);
    MulNonneg(b - a, q);
    assert b * b * b - a * a * a == (b - a) * q;
  }

  lemma FlatMonotone(u: real, v: real)
    requires 0.0 <= u <= v <= 1.0
    ensures Flat(u) <= Flat(v)
  {
    var q := 2.0 * (u * (1.0 - u)) + 2.0 * (v * (1.0 - v)) + u * (1.0 - v) + v * (1.0 - u);
    MulNonneg(u, 1.0 - u);
    MulNonneg(v, 1.0 - v);
    MulNonneg(u, 1.0 - v);
    MulNonneg(v, 1.0 - u);
    MulNonneg(v - u, q);
    assert q == 3.0 * (u + v) - 2.0 * (u * u + u * v + v * v);
    assert Flat(v) - Flat(u) == (v - u) * q;
  }

  lemma ExtremesMonotone(u: real, v: real)
    requires 0.0 <= u <= v <= 1.0
    ensures Flat(u) <= Flat(v)
    ensures LeftSteep(u) <= LeftSteep(v)
    ensures RightSteep(u) <= RightSteep(v)
    ensures BothSteep(u) <= BothSteep(v)
  {
    FlatMonotone(u, v);
    CubeMonotone(u, v);
    CubeMonotone(1.0 - v, 1.0 - u);
    assert LeftSteep(u) == 1.0 - (1.0 - u) * (1.0 - u) * (1.0 - u);
    assert LeftSteep(v) == 1.0 - (1.0 - v) * (1.0 - v) * (1.0 - v);
    CubeMonotone(1.0 - 2.0 * v, 1.0 - 2.0 * u);
    assert 2.0 * BothSteep(u) == 1.0 - (1.0 - 2.0 * u) * (1.0 - 2.0 * u) * (1.0 - 2.0 * u);
    assert 2.0 * BothSteep(v) == 1.0 - (1.0 - 2.0 * v) * (1.0 - 2.0 * v) * (1.0 - 2.0 * v);
  }

  /** `p` is the left value plus a blend of the values `l`, `r`, `f`, `s` of the extreme
      segments: `a` and `b` are how far the control values are from their own ends, and `d`
      is the rise of the data. */
  ghost predicate IsBlend(p: real, y0: real, a: real, b: real, d: real,
                          l: real, r: real, f: real, s: real) {
    && p == y0 + a * l + b * r + (d - a - b) * f
    && p == y0 + (d - b) * l + (d - a) * r + (a + b - d) * s
  }

  lemma CubicBlend(y0: real, c1: real, c2: real, y1: real, u: real)
    ensures IsBlend(Cubic(y0, c1, c2, y1, u), y0, c1 - y0, y1 - c2, y1 - y0,
                    LeftSteep(u), RightSteep(u), Flat(u), BothSteep(u))
  {
  }

  /** With both control values between the end values, the segment rises with the data:
      the control values themselves may be in either order. */
  lemma CubicRises(y0: real, c1: real, c2: real, y1: real, u: real, v: real)
    requires y0 <= c1 <= y1 && y0 <= c2 <= y1
    requires 0.0 <= u <= v <= 1.0
    ensures Cubic(y0, c1, c2, y1, u) <= Cubic(y0, c1, c2, y1, v)
  {
    ExtremesMonotone(u, v);
    CubicBlend(y0, c1, c2, y1, u);
    CubicBlend(y0, c1, c2, y1, v);
    BlendRises(y0, c1 - y0, y1 - c2, y1 - y0, Cubic(y0, c1, c2, y1, u), Cubic(y0, c1, c2, y1, v),
               LeftSteep(u), LeftSteep(v), RightSteep(u), RightSteep(v),
               Flat(u), Flat(v), BothSteep(u), BothSteep(v));
  }

  lemma BlendRises(y0: real, a: real, b: real, d: real, p: real, q: real, l: real, l': real,
                   r: real, r': real, f: real, f': real, s: real, s': real)
    requires 0.0 <= a <= d && 0.0 <= b <= d
    requires l <= l' && r <= r' && f <= f' && s <= s'
    requires IsBlend(p, y0, a, b, d, l, r, f, s) && IsBlend(q, y0, a, b, d, l', r', f', s')
    ensures p <= q
  {
    if a + b <= d {
      BlendMonotone(y0, p, q, a, l, l', b, r, r', d - a - b, f, f');
    } else {
      BlendMonotone(y0, p, q, d - b, l, l', d - a, r, r', a + b - d, s, s');
    }
  }

  lemma CubicNegates(y0: real, c1: real, c2: real, y1: real, u: real)
    ensures Cubic(-y0, -c1, -c2, -y1, u) == -Cubic(y0, c1, c2, y1, u)
  {
  }

  lemma CubicEnds(y0: real, c1: real, c2: real, y1: real)
    ensures Cubic(y0, c1, c2, y1, 0.0) == y0
    ensures Cubic(y0, c1, c2, y1, 1.0) == y1
  {
  }

  lemma CubicMirrors(y0: real, c1: real, c2: real, y1: real, u: real)
    ensures Cubic(y0, c1, c2, y1, u) == Cubic(y1, c2, c1, y0, 1.0 - u)
  {
  }

  // ---------------------------------------------------------------- quadratic segments

  /** A quadratic Bezier segment with end values `y0`, `y1` and control value `c`. */
  function Quadratic(y0: real, c: real, y1: real, u: real): real {
    var u1 := 1.0 - u;
    y0 * u1 * u1 + y1 * u * u + 2.0 * c * u * u1
  }

  lemma QuadraticForm(y0: real, c: real, y1: real, u: real)
    ensures Quadratic(y0, c, y1, u) == y0 + 2.0 * ((c - y0) * u) + (y0 - 2.0 * c + y1) * (u * u)
  {
  }

  lemma QuadraticNegates(y0: real, c: real, y1: real, u: real)
    ensures Quadratic(-y0, -c, -y1, u) == -Quadratic(y0, c, y1, u)
  {
  }

  lemma QuadraticRises(y0: real, c: real, y1: real, u: real, v: real)
    requires y0 <= c <= y1
    requires 0.0 <= u <= v <= 1.0
    ensures Quadratic(y0, c, y1, u) <= Quadratic(y0, c, y1, v)
  {
    QuadraticForm(y0, c, y1, u);
    QuadraticForm(y0, c, y1, v);
    var a, b := c - y0, y1 - c;
    var s := u + v;
    MulNonneg(a, 2.0 - s);
    MulNonneg(b, s);
    MulNonneg(v - u, a * (2.0 - s) + b * s);
    assert Quadratic(y0, c, y1, v) - Quadratic(y0, c, y1, u) == (v - u) * (a * (2.0 - s) + b * s);
  }

  /** A control value below the lower end value drags the segment below it. */
  lemma QuadraticUndershoots(y0: real, c: real, y1: real) returns (u: real)
    requires c < y0 <= y1
    ensures 0.0 < u < 1.0
    ensures Quadratic(y0, c, y1, u) < y0
  {
    var e, d := y0 - c, y1 - y0;
    u := e / (d + 2.0 * e);
    Quotient(e, d + 2.0 * e);
    MulPositive(u, e);
    QuadraticForm(y0, c, y1, u);
    assert Quadratic(y0, c, y1, u) - y0 == u * (u * (d + 2.0 * e) - 2.0 * e);
    assert Quadratic(y0, c, y1, u) - y0 == u * (-e);
  }

  lemma QuadraticMirrors(y0: real, c: real, y1: real, u: real)
    ensures Quadratic(y0, c, y1, u) == Quadratic(y1, c, y0, 1.0 - u)
  {
  }

  /** A control value outside the end values makes the segment leave them somewhere. */
  lemma QuadraticEscapes(y0: real, c: real, y1: real) returns (u: real)
    requires !Within(y0, c, y1)
    ensures 0.0 <= u < 1.0
    ensures !Within(y0, Quadratic(y0, c, y1, u), y1)
  {
    if y0 <= y1 {
      if c < y0 {
        u := QuadraticUndershoots(y0, c, y1);
      } else {
        var w := QuadraticUndershoots(-y1, -c, -y0);
        u := 1.0 - w;
        QuadraticNegates(y1, c, y0, w);
        QuadraticMirrors(y0, c, y1, u);
      }
    } else {
      if c < y1 {
        var w := QuadraticUndershoots(y1, c, y0);
        u := 1.0 - w;
        QuadraticMirrors(y0, c, y1, u);
      } else {
        u := QuadraticUndershoots(-y0, -c, -y1);
        QuadraticNegates(y0, c, y1, u);
      }
    }
  }

  // ---------------------------------------------------------------- control values

  /** The cubic's control value next to its left end, from the derivative there. */
  function LeftControl(y: real, dx: real, d: real): real { y + dx * d / 3.0 }

  /** The cubic's control value next to its right end. */
  function RightControl(y: real, dx: real, d: real): real { y - dx * d / 3.0 }

  /** The quadratic's only control value. */
  function MiddleControl(y0: real, y1: real, dx: real, d0: real, d1: real): real {
    0.5 * (y0 + 0.5 * dx * d0 + y1 - dx * 0.5 * d1)
  }

  lemma MirrorControls(y0: real, y1: real, dx: real, d0: real, d1: real)
    ensures LeftControl(y1, dx, -d1) == RightControl(y1, dx, d1)
    ensures RightControl(y0, dx, -d0) == LeftControl(y0, dx, d0)
    ensures MiddleControl(y1, y0, dx, -d1, -d0) == MiddleControl(y0, y1, dx, d0, d1)
  {
  }

  /** `slope` is the slope from `y0` to `y1` over a width of `dx`. */
  ghost predicate IsSlope(slope: real, dx: real, y0: real, y1: real) {
    dx > 0.0 && dx * slope == y1 - y0
  }

  /** A cubic control value is between the data when its derivative is at most three times
      the slope. */
  lemma ControlBetween(y0: real, y1: real, dx: real, d: real, slope: real)
    requires IsSlope(slope, dx, y0, y1) && Within(0.0, d, 3.0 * slope)
    ensures Within(y0, LeftControl(y0, dx, d), y1)
    ensures Within(y0, RightControl(y1, dx, d), y1)
  {
    if 0.0 <= d <= 3.0 * slope {
      MulNonneg(dx, d);
      MulMonotone(dx, d / 3.0, slope);
      assert LeftControl(y0, dx, d) == y0 + dx * (d / 3.0);
      assert RightControl(y1, dx, d) == y1 - dx * (d / 3.0);
    } else {
      MulNonneg(dx, -d);
      MulMonotone(dx, slope, d / 3.0);
      assert LeftControl(y0, dx, d) == y0 + dx * (d / 3.0);
      assert RightControl(y1, dx, d) == y1 - dx * (d / 3.0);
    }
  }

  /** The quadratic's control value is between the data exactly when the derivatives differ
      by at most twice the slope. */
  lemma MiddleWithin(y0: real, y1: real, dx: real, d0: real, d1: real, slope: real)
    requires IsSlope(slope, dx, y0, y1)
    ensures Within(y0, MiddleControl(y0, y1, dx, d0, d1), y1) <==> Abs(d0 - d1) <= 2.0 * Abs(slope)
  {
  }

  /** `y0` and `y1` are `dx` apart on a line of slope `b`, and `y` is a part `u` of the way. */
  ghost predicate OnLine(y0: real, y1: real, dx: real, b: real, u: real, y: real) {
    y1 == y0 + b * dx && y == y0 + b * (u * dx)
  }

  /** With every derivative equal to the slope, both forms are the straight line. */
  lemma StraightLine(y0: real, y1: real, dx: real, b: real, u: real, y: real)
    requires OnLine(y0, y1, dx, b, u, y)
    ensures Cubic(y0, LeftControl(y0, dx, b), RightControl(y1, dx, b), y1, u) == y
    ensures Quadratic(y0, MiddleControl(y0, y1, dx, b, b), y1, u) == y
  {
  }

}
