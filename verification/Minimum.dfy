/**
 getmin (src/dlm/libgrid.cpp:104-151): the sub-pixel minimum of a quadratic through a 3x3 table of
 residuals.
 */
module Minimum {
  import opened RealMath

  /** A 3x3 table, row by row; the index of an entry is 3 * row + column. */
  type Table = t: seq<real> | |t| == 9 witness [0.0, 0.0, 0.0, 0.0, 0.0, 0.0, 0.0, 0.0, 0.0]

  function Fx(p: Table): real { 0.5 * (p[5] - p[3]) }
  function Fy(p: Table): real { 0.5 * (p[7] - p[1]) }
  function Fxx(p: Table): real { p[5] + p[3] - 2.0 * p[4] }
  function Fyy(p: Table): real { p[7] + p[1] - 2.0 * p[4] }

  /** The mixed difference, taken towards one of the corners. */
  function Fxy(p: Table): real {
    if p[8] < p[0] then
      if p[8] < p[2] then
        if p[8] < p[6] then p[8] + p[4] - p[5] - p[7] else p[7] + p[3] - p[4] - p[6]
      else
        if p[2] < p[6] then p[5] + p[1] - p[2] - p[4] else p[7] + p[3] - p[4] - p[6]
    else
      if p[0] < p[2] then
        if p[0] < p[6] then p[4] + p[0] - p[1] - p[3] else p[7] + p[3] - p[4] - p[6]
      else
        if p[2] < p[6] then p[5] + p[1] - p[2] - p[4] else p[7] + p[3] - p[4] - p[6]
  }

  datatype Correction = At(x: real, y: real) | NotANumber

  /** The minimum along each axis alone. */
  function AxisMinimum(p: Table): Correction {
    if Fxx(p) == 0.0 || Fyy(p) == 0.0 then NotANumber else At(-Fx(p) / Fxx(p), -Fy(p) / Fyy(p))
  }

  /** The stationary point of the quadratic, or `axis` if that point is far away. Division by a
      zero determinant gives an infinity, which is far away, or, when there is nothing to divide, no
      number at all. */
  function Solve(fx: real, fy: real, fxx: real, fyy: real, fxy: real, axis: Correction): Correction {
    var det := fxx * fyy - fxy * fxy;
    var nx, ny := fx * fyy - fy * fxy, fy * fxx - fx * fxy;
    if det == 0.0 then
      if nx == 0.0 && ny == 0.0 then NotANumber else axis
    else
      var t := -1.0 / det;
      if Abs(t * nx) >= 0.75 || Abs(t * ny) >= 0.75 then axis else At(t * nx, t * ny)
  }

  function GetMin(p: Table): Correction {
    Solve(Fx(p), Fy(p), Fxx(p), Fyy(p), Fxy(p), AxisMinimum(p))
  }

  // ---------------------------------------------------------------- what is fitted

  /** The quadratic with these coefficients. */
  function Model(p: Table, x: real, y: real): real {
    p[4] + Fx(p) * x + Fy(p) * y + 0.5 * Fxx(p) * x * x + 0.5 * Fyy(p) * y * y + Fxy(p) * x * y
  }

  /** The value at a corner: `x` and `y` are 1 or -1. */
  function Corner(p: Table, x: int, y: int): real {
    if x == 1 then (if y == 1 then p[8] else p[2]) else (if y == 1 then p[6] else p[0])
  }

  /** The quadratic goes through the centre and its four neighbours, and through a corner that no
      other corner is below. */
  lemma ModelInterpolates(p: Table)
    ensures Model(p, 0.0, 0.0) == p[4]
    ensures Model(p, 1.0, 0.0) == p[5] && Model(p, -1.0, 0.0) == p[3]
    ensures Model(p, 0.0, 1.0) == p[7] && Model(p, 0.0, -1.0) == p[1]
    ensures exists x, y :: (x == 1 || x == -1) && (y == 1 || y == -1)
              && Model(p, x as real, y as real) == Corner(p, x, y)
              && Corner(p, x, y) <= p[0] && Corner(p, x, y) <= p[2] && Corner(p, x, y) <= p[6] && Corner(p, x, y) <= p[8]
  {
    var x, y := SmallestCorner(p);
  }

  lemma SmallestCorner(p: Table) returns (x: int, y: int)
    ensures (x == 1 || x == -1) && (y == 1 || y == -1)
    ensures Model(p, x as real, y as real) == Corner(p, x, y)
    ensures Corner(p, x, y) <= p[0] && Corner(p, x, y) <= p[2] && Corner(p, x, y) <= p[6] && Corner(p, x, y) <= p[8]
  {
    if p[8] < p[0] && p[8] < p[2] && p[8] < p[6] {
      x, y := 1, 1;
    } else if p[2] <= p[8] && p[2] <= p[0] && p[2] < p[6] {
      x, y := 1, -1;
    } else if p[0] <= p[8] && p[0] < p[2] && p[0] < p[6] {
      x, y := -1, -1;
    } else {
      x, y := -1, 1;
    }
    assert Model(p, 1.0, 1.0) == p[5] + p[7] - p[4] + Fxy(p);
    assert Model(p, 1.0, -1.0) == p[5] + p[1] - p[4] - Fxy(p);
    assert Model(p, -1.0, 1.0) == p[3] + p[7] - p[4] - Fxy(p);
    assert Model(p, -1.0, -1.0) == p[3] + p[1] - p[4] + Fxy(p);
  }

  /** Both partial derivatives of a quadratic with these coefficients vanish at (x, y). */
  ghost predicate Stationary(fx: real, fy: real, fxx: real, fyy: real, fxy: real, x: real, y: real) {
    fx + fxx * x + fxy * y == 0.0 && fy + fyy * y + fxy * x == 0.0
  }

  /** Where the point returned is the quadratic's own, both its partial derivatives vanish there. */
  lemma StationaryPoint(p: Table)
    requires GetMin(p).At? && GetMin(p) != AxisMinimum(p)
    ensures Stationary(Fx(p), Fy(p), Fxx(p), Fyy(p), Fxy(p), GetMin(p).x, GetMin(p).y)
  {
    hide Solve, Fx, Fy, Fxx, Fyy, Fxy, AxisMinimum, Stationary;
    SolveStationary(Fx(p), Fy(p), Fxx(p), Fyy(p), Fxy(p), AxisMinimum(p));
  }

  lemma SolveStationary(fx: real, fy: real, fxx: real, fyy: real, fxy: real, axis: Correction)
    requires Solve(fx, fy, fxx, fyy, fxy, axis).At? && Solve(fx, fy, fxx, fyy, fxy, axis) != axis
    ensures var c := Solve(fx, fy, fxx, fyy, fxy, axis); Stationary(fx, fy, fxx, fyy, fxy, c.x, c.y)
  {
    hide Stationary, Abs;
    var c := Solve(fx, fy, fxx, fyy, fxy, axis);
    var det := fxx * fyy - fxy * fxy;
    Cramer(fxx, fyy, fxy, fx, fy, det, -1.0 / det, c.x, c.y);
  }

  lemma Cramer(a: real, b: real, c: real, fx: real, fy: real, det: real, t: real, x: real, y: real)
    requires det == a * b - c * c && t * det == -1.0
    requires x == t * (fx * b - fy * c) && y == t * (fy * a - fx * c)
    ensures Stationary(fx, fy, a, b, c, x, y)
  {
  }

  // ---------------------------------------------------------------- which point is returned

  /** Where the determinant is not zero there is one stationary point, and the solution is that
      point, if it is less than three quarters away on both axes, and the other one otherwise. */
  lemma SolveExactly(fx: real, fy: real, fxx: real, fyy: real, fxy: real, axis: Correction, x: real, y: real)
    requires fxx * fyy != fxy * fxy && Stationary(fx, fy, fxx, fyy, fxy, x, y)
    ensures Solve(fx, fy, fxx, fyy, fxy, axis) == if -0.75 < x < 0.75 && -0.75 < y < 0.75 then At(x, y) else axis
  {
    hide Stationary;
    var det := fxx * fyy - fxy * fxy;
    var t := -1.0 / det;
    Eliminated(fx, fy, fxx, fyy, fxy, x, y, det);
    TimesReciprocal(det, t, x, fx * fyy - fy * fxy);
    TimesReciprocal(det, t, y, fy * fxx - fx * fxy);
  }

  lemma Eliminated(fx: real, fy: real, a: real, b: real, c: real, x: real, y: real, det: real)
    requires det == a * b - c * c && Stationary(fx, fy, a, b, c, x, y)
    ensures det * x == -(fx * b - fy * c) && det * y == -(fy * a - fx * c)
  {
    assert (fx + a * x + c * y) * b == fx * b + a * b * x + c * b * y;
    assert (fy + b * y + c * x) * c == fy * c + b * c * y + c * c * x;
    assert (fy + b * y + c * x) * a == fy * a + a * b * y + a * c * x;
    assert (fx + a * x + c * y) * c == fx * c + a * c * x + c * c * y;
    assert (a * b - c * c) * x == a * b * x - c * c * x && (a * b - c * c) * y == a * b * y - c * c * y;
  }

  lemma TimesReciprocal(det: real, t: real, x: real, n: real)
    requires det != 0.0 && t == -1.0 / det && det * x == -n
    ensures t * n == x
  {
    assert t * det == -1.0;
    assert (t * det) * x == t * (det * x);
  }

  /** The correction, without its formula: with a nonzero determinant the only stationary point of
      the quadratic, if that is less than three quarters of a pixel away on both axes, and the minimum
      along each axis alone otherwise; with a zero determinant that minimum, or no number when both
      numerators vanish, too. */
  lemma GetMinExactly(p: Table, x: real, y: real)
    requires Stationary(Fx(p), Fy(p), Fxx(p), Fyy(p), Fxy(p), x, y) && Fxx(p) * Fyy(p) != Fxy(p) * Fxy(p)
    ensures GetMin(p) == if -0.75 < x < 0.75 && -0.75 < y < 0.75 then At(x, y) else AxisMinimum(p)
  {
    hide Fx, Fy, Fxx, Fyy, Fxy, Stationary, Solve, AxisMinimum;
    SolveExactly(Fx(p), Fy(p), Fxx(p), Fyy(p), Fxy(p), AxisMinimum(p), x, y);
  }

  lemma GetMinDegenerate(p: Table)
    requires Fxx(p) * Fyy(p) == Fxy(p) * Fxy(p)
    ensures GetMin(p) == if Fx(p) * Fyy(p) == Fy(p) * Fxy(p) && Fy(p) * Fxx(p) == Fx(p) * Fxy(p)
                         then NotANumber else AxisMinimum(p)
  {
    hide Fx, Fy, Fxx, Fyy, Fxy, AxisMinimum;
  }

  /** Along each axis, the minimum is where the derivative of the parabola through three entries
      vanishes; there is none if one of the parabolas is a line. */
  lemma AxisExactly(p: Table)
    ensures var c, across, down := AxisMinimum(p), p[5] + p[3] - 2.0 * p[4], p[7] + p[1] - 2.0 * p[4];
            && (c.At? <==> across != 0.0 && down != 0.0)
            && (c.At? ==> across * c.x + (p[5] - p[3]) / 2.0 == 0.0 && down * c.y + (p[7] - p[1]) / 2.0 == 0.0)
  {
    if AxisMinimum(p).At? {
      TimesQuotient(Fx(p), Fxx(p));
      TimesQuotient(Fy(p), Fyy(p));
    }
  }

  lemma TimesQuotient(n: real, d: real)
    requires d != 0.0
    ensures d * (-n / d) == -n
  {
  }

  // ---------------------------------------------------------------- how far it goes

  /** The centre is the first smallest entry: below the entries before it, not above those after. */
  predicate CentreIsFirstMinimum(p: Table) {
    && p[4] < p[0] && p[4] < p[1] && p[4] < p[2] && p[4] < p[3]
    && p[4] <= p[5] && p[4] <= p[6] && p[4] <= p[7] && p[4] <= p[8]
  }

  /** Along an axis, the minimum of a parabola through a lowest middle point is within half a step. */
  lemma AxisHalfStep(lo: real, mid: real, hi: real)
    requires mid < lo && mid <= hi
    ensures hi + lo - 2.0 * mid > 0.0
    ensures Abs(-(0.5 * (hi - lo)) / (hi + lo - 2.0 * mid)) <= 0.5
  {
  }

  lemma AxisIsSmall(p: Table)
    requires CentreIsFirstMinimum(p)
    ensures var c := AxisMinimum(p); c.At? && Abs(c.x) <= 0.5 && Abs(c.y) <= 0.5
  {
    AxisHalfStep(p[3], p[4], p[5]);
    AxisHalfStep(p[1], p[4], p[7]);
  }

  lemma SolveIsSmall(fx: real, fy: real, fxx: real, fyy: real, fxy: real, axis: Correction)
    requires axis.At? && Abs(axis.x) < 0.75 && Abs(axis.y) < 0.75
    ensures var c := Solve(fx, fy, fxx, fyy, fxy, axis);
            && (c.At? ==> Abs(c.x) < 0.75 && Abs(c.y) < 0.75)
            && (c.NotANumber? <==> fxx * fyy == fxy * fxy && fx * fyy == fy * fxy && fy * fxx == fx * fxy)
  {
  }

  /** If the centre of the table is its first minimum, the correction is below 0.75 on each axis;
      there is none exactly when the determinant and both numerators vanish. */
  lemma CorrectionIsSmall(p: Table)
    requires CentreIsFirstMinimum(p)
    ensures GetMin(p).At? ==> Abs(GetMin(p).x) < 0.75 && Abs(GetMin(p).y) < 0.75
    ensures GetMin(p).NotANumber? <==>
              && Fxx(p) * Fyy(p) == Fxy(p) * Fxy(p)
              && Fx(p) * Fyy(p) == Fy(p) * Fxy(p) && Fy(p) * Fxx(p) == Fx(p) * Fxy(p)
  {
    hide Solve, Fx, Fy, Fxx, Fyy, Fxy, AxisMinimum, CentreIsFirstMinimum;
    AxisIsSmall(p);
    SolveIsSmall(Fx(p), Fy(p), Fxx(p), Fyy(p), Fxy(p), AxisMinimum(p));
  }
}
