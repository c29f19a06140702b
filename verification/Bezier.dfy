/**
 The interpolators bezier2 and bezier3 of src/dlm/rdx.cpp: tabulated data (x, y), a limited
 derivative at every knot, one Bezier segment per interval, and straight lines outside.
 */
module Bezier {
  import opened RealMath
  import opened BezierMath

  datatype Degree = Two | Three

  ghost predicate Increasing(x: seq<real>) {
    forall i, j :: 0 <= i < j < |x| ==> x[i] < x[j]
  }

  ghost predicate Decreasing(x: seq<real>) {
    forall i, j :: 0 <= i < j < |x| ==> x[i] > x[j]
  }

  ghost predicate Nondecreasing(y: seq<real>) {
    forall i, j :: 0 <= i <= j < |y| ==> y[i] <= y[j]
  }

  ghost predicate Nonincreasing(y: seq<real>) {
    forall i, j :: 0 <= i <= j < |y| ==> y[i] >= y[j]
  }

  /** A table that can be interpolated: at least two knots, in increasing order. */
  ghost predicate Table(x: seq<real>, y: seq<real>) {
    |x| == |y| >= 2 && Increasing(x)
  }

  // ---------------------------------------------------------------- specification

  ghost function Slope(x: seq<real>, y: seq<real>, k: nat): real
    requires Table(x, y) && k + 1 < |x|
  {
    (y[k + 1] - y[k]) / (x[k + 1] - x[k])
  }

  /** The derivative at knot `k`: the end slopes at the ends, the limited mean inside. */
  ghost function Derivative(x: seq<real>, y: seq<real>, k: nat): real
    requires Table(x, y) && k < |x|
  {
    if k == 0 then Slope(x, y, 0)
    else if k == |x| - 1 then Slope(x, y, k - 1)
    else Limited(x[k] - x[k - 1], Slope(x, y, k - 1), x[k + 1] - x[k], Slope(x, y, k))
  }

  ghost function Control1(x: seq<real>, y: seq<real>, k: nat): real
    requires Table(x, y) && k + 1 < |x|
  {
    LeftControl(y[k], x[k + 1] - x[k], Derivative(x, y, k))
  }

  ghost function Control2(x: seq<real>, y: seq<real>, k: nat): real
    requires Table(x, y) && k + 1 < |x|
  {
    RightControl(y[k + 1], x[k + 1] - x[k], Derivative(x, y, k + 1))
  }

  /** The single control value of the quadratic form. */
  ghost function Control(x: seq<real>, y: seq<real>, k: nat): real
    requires Table(x, y) && k + 1 < |x|
  {
    MiddleControl(y[k], y[k + 1], x[k + 1] - x[k], Derivative(x, y, k), Derivative(x, y, k + 1))
  }

  /** How far `q` is along interval `k`: 0 at its left knot, 1 at its right knot. */
  ghost function Along(x: seq<real>, k: nat, q: real): real
    requires Increasing(x) && k + 1 < |x|
  {
    (q - x[k]) / (x[k + 1] - x[k])
  }

  ghost function Segment(deg: Degree, x: seq<real>, y: seq<real>, k: nat, q: real): real
    requires Table(x, y) && k + 1 < |x|
  {
    match deg
    case Three => Cubic(y[k], Control1(x, y, k), Control2(x, y, k), y[k + 1], Along(x, k, q))
    case Two => Quadratic(y[k], Control(x, y, k), y[k + 1], Along(x, k, q))
  }

  ghost function Line(x: seq<real>, y: seq<real>, k: nat, at: nat, q: real): real
    requires Table(x, y) && k + 1 < |x| && at < |x|
  {
    Straight(q, Slope(x, y, k), y[at] - Slope(x, y, k) * x[at])
  }

  function Straight(q: real, a: real, b: real): real { q * a + b }

  /** The interval that holds `q`, searched from knot `k` on. */
  ghost function Locate(x: seq<real>, q: real, k: nat): (i: nat)
    requires Increasing(x) && k + 1 < |x|
    requires x[k] <= q < x[|x| - 1]
    ensures k <= i && i + 1 < |x| && x[i] <= q < x[i + 1]
    decreases |x| - k
  {
    if q < x[k + 1] then k else Locate(x, q, k + 1)
  }

  /** The interpolant over the whole line. */
  ghost function Interpolant(deg: Degree, x: seq<real>, y: seq<real>, q: real): real
    requires Table(x, y)
  {
    if q < x[0] then Line(x, y, 0, 0, q)
    else if q >= x[|x| - 1] then Line(x, y, |x| - 2, |x| - 1, q)
    else Segment(deg, x, y, Locate(x, q, 0), q)
  }

  /** Which interval holds a point is a matter of the point alone. */
  lemma LocateUnique(x: seq<real>, q: real, k: nat)
    requires Increasing(x) && k + 1 < |x|
    requires x[k] <= q < x[k + 1]
    ensures x[0] <= q < x[|x| - 1]
    ensures Locate(x, q, 0) == k
  {
  }

  // ---------------------------------------------------------------- local shape

  lemma AlongRange(x: seq<real>, k: nat, q: real, r: real)
    requires Increasing(x) && k + 1 < |x|
    requires x[k] <= q <= r <= x[k + 1]
    ensures 0.0 <= Along(x, k, q) <= Along(x, k, r) <= 1.0
  {
    AlongOrder(x[k + 1] - x[k], q - x[k], r - x[k]);
  }

  lemma AlongOrder(dx: real, p: real, q: real)
    requires dx > 0.0 && 0.0 <= p <= q <= dx
    ensures 0.0 <= p / dx <= q / dx <= 1.0
  {
  }

  lemma SlopeTimesWidth(x: seq<real>, y: seq<real>, k: nat)
    requires Table(x, y) && k + 1 < |x|
    ensures IsSlope(Slope(x, y, k), x[k + 1] - x[k], y[k], y[k + 1])
  {
  }

  /** At both knots of an interval the derivative is limited by the slope of the interval:
      by three times the slope in general, by twice the slope on equally spaced knots. */
  lemma DerivativeBound(x: seq<real>, y: seq<real>, k: nat)
    requires Table(x, y) && k + 1 < |x|
    ensures Within(0.0, Derivative(x, y, k), 3.0 * Slope(x, y, k))
    ensures Within(0.0, Derivative(x, y, k + 1), 3.0 * Slope(x, y, k))
    ensures EquallySpaced(x) ==>
              && Within(0.0, Derivative(x, y, k), 2.0 * Slope(x, y, k))
              && Within(0.0, Derivative(x, y, k + 1), 2.0 * Slope(x, y, k))
  {
    hide Limited, Slope;
    assert EquallySpaced(x) && k > 0 ==> Width(x, k) == Width(x, k - 1);
    assert EquallySpaced(x) && k + 2 < |x| ==> Width(x, k + 1) == Width(x, k);
    if k > 0 {
      LimitedBound(x[k] - x[k - 1], Slope(x, y, k - 1), x[k + 1] - x[k], Slope(x, y, k));
    }
    if k + 1 < |x| - 1 {
      LimitedBound(x[k + 1] - x[k], Slope(x, y, k), x[k + 2] - x[k + 1], Slope(x, y, k + 1));
    }
  }

  ghost function Width(x: seq<real>, i: nat): real
    requires i + 1 < |x|
  {
    x[i + 1] - x[i]
  }

  ghost predicate EquallySpaced(x: seq<real>) {
    forall i :: 0 < i < |x| - 1 ==> Width(x, i) == Width(x, i - 1)
  }

  lemma ControlsWithin(x: seq<real>, y: seq<real>, k: nat)
    requires Table(x, y) && k + 1 < |x|
    ensures Within(y[k], Control1(x, y, k), y[k + 1])
    ensures Within(y[k], Control2(x, y, k), y[k + 1])
  {
    DerivativeBound(x, y, k);
    SlopeTimesWidth(x, y, k);
    hide Derivative, Slope, LeftControl, RightControl, IsSlope;
    ControlBetween(y[k], y[k + 1], x[k + 1] - x[k], Derivative(x, y, k), Slope(x, y, k));
    ControlBetween(y[k], y[k + 1], x[k + 1] - x[k], Derivative(x, y, k + 1), Slope(x, y, k));
  }

  /** Whether the segment of interval `k` has its control values between the data. The cubic
      always has; the quadratic has exactly when the two derivatives differ by at most twice
      the slope. */
  ghost predicate Tame(deg: Degree, x: seq<real>, y: seq<real>, k: nat)
    requires Table(x, y) && k + 1 < |x|
  {
    deg == Three
    || Abs(Derivative(x, y, k) - Derivative(x, y, k + 1)) <= 2.0 * Abs(Slope(x, y, k))
  }

  lemma QuadraticControlWithin(x: seq<real>, y: seq<real>, k: nat)
    requires Table(x, y) && k + 1 < |x|
    ensures Within(y[k], Control(x, y, k), y[k + 1]) <==> Tame(Two, x, y, k)
  {
    SlopeTimesWidth(x, y, k);
    hide Derivative, Slope, IsSlope, MiddleControl;
    MiddleWithin(y[k], y[k + 1], x[k + 1] - x[k], Derivative(x, y, k), Derivative(x, y, k + 1), Slope(x, y, k));
  }

  /** On equally spaced knots every quadratic segment is tame. */
  lemma EquallySpacedTame(x: seq<real>, y: seq<real>, k: nat)
    requires Table(x, y) && EquallySpaced(x) && k + 1 < |x|
    ensures Tame(Two, x, y, k)
  {
    DerivativeBound(x, y, k);
  }

  /** A tame segment moves in the direction of its data over the whole closed interval. */
  lemma SegmentFollowsData(deg: Degree, x: seq<real>, y: seq<real>, k: nat, q: real, r: real)
    requires Table(x, y) && k + 1 < |x| && Tame(deg, x, y, k)
    requires x[k] <= q <= r <= x[k + 1]
    ensures y[k] <= y[k + 1] ==> Segment(deg, x, y, k, q) <= Segment(deg, x, y, k, r)
    ensures y[k] >= y[k + 1] ==> Segment(deg, x, y, k, q) >= Segment(deg, x, y, k, r)
  {
    AlongRange(x, k, q, r);
    var u, v := Along(x, k, q), Along(x, k, r);
    match deg
    case Three =>
      ControlsWithin(x, y, k);
      CubicDirected(y[k], Control1(x, y, k), Control2(x, y, k), y[k + 1], u, v);
    case Two =>
      QuadraticControlWithin(x, y, k);
      QuadraticDirected(y[k], Control(x, y, k), y[k + 1], u, v);
  }

  lemma CubicDirected(y0: real, c1: real, c2: real, y1: real, u: real, v: real)
    requires Within(y0, c1, y1) && Within(y0, c2, y1) && 0.0 <= u <= v <= 1.0
    ensures y0 <= y1 ==> Cubic(y0, c1, c2, y1, u) <= Cubic(y0, c1, c2, y1, v)
    ensures y0 >= y1 ==> Cubic(y0, c1, c2, y1, u) >= Cubic(y0, c1, c2, y1, v)
  {
    if y0 <= y1 {
      CubicRises(y0, c1, c2, y1, u, v);
    }
    if y0 >= y1 {
      CubicRises(-y0, -c1, -c2, -y1, u, v);
      CubicNegates(y0, c1, c2, y1, u);
      CubicNegates(y0, c1, c2, y1, v);
    }
  }

  lemma QuadraticDirected(y0: real, c: real, y1: real, u: real, v: real)
    requires Within(y0, c, y1) && 0.0 <= u <= v <= 1.0
    ensures y0 <= y1 ==> Quadratic(y0, c, y1, u) <= Quadratic(y0, c, y1, v)
    ensures y0 >= y1 ==> Quadratic(y0, c, y1, u) >= Quadratic(y0, c, y1, v)
  {
    if y0 <= y1 {
      QuadraticRises(y0, c, y1, u, v);
    }
    if y0 >= y1 {
      QuadraticRises(-y0, -c, -y1, u, v);
      QuadraticNegates(y0, c, y1, u);
      QuadraticNegates(y0, c, y1, v);
    }
  }

  lemma SegmentEnds(deg: Degree, x: seq<real>, y: seq<real>, k: nat)
    requires Table(x, y) && k + 1 < |x|
    ensures Segment(deg, x, y, k, x[k]) == y[k]
    ensures Segment(deg, x, y, k, x[k + 1]) == y[k + 1]
  {
    hide Control1, Control2, Control;
    assert Along(x, k, x[k]) == 0.0;
    Quotient(x[k + 1] - x[k], x[k + 1] - x[k]);
    CubicEnds(y[k], Control1(x, y, k), Control2(x, y, k), y[k + 1]);
  }

  lemma LineForm(x: seq<real>, y: seq<real>, k: nat, at: nat, q: real)
    requires Table(x, y) && k + 1 < |x| && at < |x|
    ensures Line(x, y, k, at, q) == y[at] + Slope(x, y, k) * (q - x[at])
  {
  }

  // ---------------------------------------------------------------- main theorems

  /** The interpolant takes the tabulated value at every knot, the last one included. */
  lemma ThroughTheData(deg: Degree, x: seq<real>, y: seq<real>, k: nat)
    requires Table(x, y) && k < |x|
    ensures Interpolant(deg, x, y, x[k]) == y[k]
  {
    if k == |x| - 1 {
      LineForm(x, y, |x| - 2, |x| - 1, x[k]);
    } else {
      LocateUnique(x, x[k], k);
      SegmentEnds(deg, x, y, k);
    }
  }

  /** Between two knots the cubic interpolant never leaves the two tabulated values,
      whatever the data do. */
  lemma CubicBetweenTheData(x: seq<real>, y: seq<real>, k: nat, q: real)
    requires Table(x, y) && k + 1 < |x|
    requires x[k] <= q < x[k + 1]
    ensures Within(y[k], Interpolant(Three, x, y, q), y[k + 1])
  {
    TameBetweenTheData(Three, x, y, k, q);
  }

  lemma TameBetweenTheData(deg: Degree, x: seq<real>, y: seq<real>, k: nat, q: real)
    requires Table(x, y) && k + 1 < |x| && Tame(deg, x, y, k)
    requires x[k] <= q < x[k + 1]
    ensures Interpolant(deg, x, y, q) == Segment(deg, x, y, k, q)
    ensures Within(y[k], Interpolant(deg, x, y, q), y[k + 1])
  {
    LocateUnique(x, q, k);
    SegmentEnds(deg, x, y, k);
    SegmentFollowsData(deg, x, y, k, x[k], q);
    SegmentFollowsData(deg, x, y, k, q, x[k + 1]);
  }

  /** The quadratic interpolant stays between the data on an interval exactly when the two
      derivatives there differ by at most twice the slope. */
  lemma QuadraticBetweenTheData(x: seq<real>, y: seq<real>, k: nat)
    requires Table(x, y) && k + 1 < |x|
    ensures (forall q :: x[k] <= q < x[k + 1] ==> Within(y[k], Interpolant(Two, x, y, q), y[k + 1]))
            <==> Abs(Derivative(x, y, k) - Derivative(x, y, k + 1)) <= 2.0 * Abs(Slope(x, y, k))
  {
    QuadraticControlWithin(x, y, k);
    if Tame(Two, x, y, k) {
      forall q | x[k] <= q < x[k + 1]
        ensures Within(y[k], Interpolant(Two, x, y, q), y[k + 1])
      {
        TameBetweenTheData(Two, x, y, k, q);
      }
    } else {
      var u := QuadraticEscapes(y[k], Control(x, y, k), y[k + 1]);
      var q := PointAlong(x, k, u);
      LocateUnique(x, q, k);
      assert !Within(y[k], Interpolant(Two, x, y, q), y[k + 1]);
    }
  }

  lemma PartOf(u: real, dx: real) returns (step: real)
    requires 0.0 <= u < 1.0 && dx > 0.0
    ensures 0.0 <= step < dx && step / dx == u
  {
    step := u * dx;
    PartOfWhole(u, dx, step);
    Quotient(step, dx);
    ProductCancel(step / dx, u, dx);
  }

  lemma PointAlong(x: seq<real>, k: nat, u: real) returns (q: real)
    requires Increasing(x) && k + 1 < |x| && 0.0 <= u < 1.0
    ensures x[k] <= q < x[k + 1] && Along(x, k, q) == u
  {
    var dx := x[k + 1] - x[k];
    var step := PartOf(u, dx);
    q := x[k] + step;
    assert q - x[k] == step;
  }

  /** Unequal spacing can break the quadratic form: a steep step before a long, gentle
      interval that ends in a plateau. */
  lemma QuadraticCanOvershoot()
    ensures var x, y := [0.0, 1.0, 10.0, 11.0], [0.0, 1000.0, 1009.0, 1009.0];
            && Table(x, y) && Nondecreasing(y)
            && exists q :: x[1] <= q < x[2] && !Within(y[1], Interpolant(Two, x, y, q), y[2])
  {
    hide Limited, Interpolant;
    var x, y := [0.0, 1.0, 10.0, 11.0], [0.0, 1000.0, 1009.0, 1009.0];
    QuadraticBetweenTheData(x, y, 1);
    assert Slope(x, y, 0) == 1000.0 && Slope(x, y, 1) == 1.0 && Slope(x, y, 2) == 0.0;
    OvershootNumbers();
    assert Derivative(x, y, 1) == Limited(1.0, 1000.0, 9.0, 1.0);
    assert Derivative(x, y, 2) == Limited(9.0, 1.0, 1.0, 0.0);
  }

  lemma OvershootNumbers()
    ensures Limited(1.0, 1000.0, 9.0, 1.0) > 2.0
    ensures Limited(9.0, 1.0, 1.0, 0.0) == 0.0
  {
  }

  ghost predicate AllTame(deg: Degree, x: seq<real>, y: seq<real>)
    requires Table(x, y)
  {
    forall k: nat :: k + 1 < |x| ==> Tame(deg, x, y, k)
  }

  lemma SlopeNonneg(x: seq<real>, y: seq<real>, k: nat)
    requires Table(x, y) && Nondecreasing(y) && k + 1 < |x|
    ensures Slope(x, y, k) >= 0.0
  {
  }

  lemma LineRises(x: seq<real>, y: seq<real>, k: nat, at: nat, q: real, r: real)
    requires Table(x, y) && Nondecreasing(y) && k + 1 < |x| && at < |x|
    requires q <= r
    ensures Line(x, y, k, at, q) <= Line(x, y, k, at, r)
    ensures Line(x, y, k, at, x[at]) == y[at]
  {
    SlopeNonneg(x, y, k);
    hide Slope, Line;
    LineForm(x, y, k, at, q);
    LineForm(x, y, k, at, r);
    LineForm(x, y, k, at, x[at]);
    MulMonotone(Slope(x, y, k), q - x[at], r - x[at]);
  }

  /** The interpolant of nondecreasing data is on the right side of the knots around it. */
  lemma BelowNextKnot(deg: Degree, x: seq<real>, y: seq<real>, k: nat, q: real)
    requires Table(x, y) && Nondecreasing(y) && AllTame(deg, x, y) && k < |x|
    requires q <= x[k]
    ensures Interpolant(deg, x, y, q) <= y[k]
  {
    hide Line, Segment, Tame;
    if q == x[k] {
      ThroughTheData(deg, x, y, k);
    } else if q < x[0] {
      LineRises(x, y, 0, 0, q, x[0]);
    } else {
      assert x[k] <= x[|x| - 1];
      var i := Locate(x, q, 0);
      assert i < k;
      TameBetweenTheData(deg, x, y, i, q);
    }
  }

  lemma AbovePreviousKnot(deg: Degree, x: seq<real>, y: seq<real>, k: nat, q: real)
    requires Table(x, y) && Nondecreasing(y) && AllTame(deg, x, y) && k < |x|
    requires q >= x[k]
    ensures Interpolant(deg, x, y, q) >= y[k]
  {
    hide Line, Segment, Tame;
    assert x[0] <= x[k];
    if q >= x[|x| - 1] {
      LineRises(x, y, |x| - 2, |x| - 1, x[|x| - 1], q);
    } else {
      var i := Locate(x, q, 0);
      assert k <= i;
      TameBetweenTheData(deg, x, y, i, q);
    }
  }

  /** Nondecreasing data give a nondecreasing interpolant over the whole line: inside the
      intervals, across the knots, and into both straight extrapolations. */
  lemma MonotoneEverywhere(deg: Degree, x: seq<real>, y: seq<real>, q: real, r: real)
    requires Table(x, y) && Nondecreasing(y) && AllTame(deg, x, y)
    requires q <= r
    ensures Interpolant(deg, x, y, q) <= Interpolant(deg, x, y, r)
  {
    hide Line, Segment, Tame;
    if k: nat :| k < |x| && q <= x[k] <= r {
      BelowNextKnot(deg, x, y, k, q);
      AbovePreviousKnot(deg, x, y, k, r);
    } else {
      WithinOnePiece(deg, x, y, q, r);
    }
  }

  lemma WithinOnePiece(deg: Degree, x: seq<real>, y: seq<real>, q: real, r: real)
    requires Table(x, y) && Nondecreasing(y) && AllTame(deg, x, y)
    requires q <= r && forall k :: 0 <= k < |x| ==> !(q <= x[k] <= r)
    ensures Interpolant(deg, x, y, q) <= Interpolant(deg, x, y, r)
  {
    hide Line, Segment, Tame;
    if q < x[0] {
      LineRises(x, y, 0, 0, q, r);
    } else if q >= x[|x| - 1] {
      LineRises(x, y, |x| - 2, |x| - 1, q, r);
    } else {
      var i := Locate(x, q, 0);
      LocateUnique(x, r, i);
      SegmentFollowsData(deg, x, y, i, q, r);
    }
  }

  ghost predicate RisesEverywhere(deg: Degree, x: seq<real>, y: seq<real>)
    requires Table(x, y)
  {
    forall q, r :: q <= r ==> Interpolant(deg, x, y, q) <= Interpolant(deg, x, y, r)
  }

  lemma RisingStaysBetween(x: seq<real>, y: seq<real>, k: nat)
    requires Table(x, y) && Nondecreasing(y) && k + 1 < |x| && RisesEverywhere(Two, x, y)
    ensures Tame(Two, x, y, k)
  {
    hide Interpolant, Derivative, Slope, Abs;
    forall q | x[k] <= q < x[k + 1] ensures Within(y[k], Interpolant(Two, x, y, q), y[k + 1]) {
      ThroughTheData(Two, x, y, k);
      ThroughTheData(Two, x, y, k + 1);
      assert Interpolant(Two, x, y, x[k]) <= Interpolant(Two, x, y, q) <= Interpolant(Two, x, y, x[k + 1]);
    }
    QuadraticBetweenTheData(x, y, k);
  }

  /** For nondecreasing data, the interpolant is nondecreasing everywhere exactly when all its
      segments have their control values between the data. */
  lemma MonotoneExactly(deg: Degree, x: seq<real>, y: seq<real>)
    requires Table(x, y) && Nondecreasing(y)
    ensures RisesEverywhere(deg, x, y) <==> AllTame(deg, x, y)
  {
    hide Interpolant, Derivative, Slope, Abs;
    if AllTame(deg, x, y) {
      forall q, r | q <= r ensures Interpolant(deg, x, y, q) <= Interpolant(deg, x, y, r) {
        MonotoneEverywhere(deg, x, y, q, r);
      }
    }
    if RisesEverywhere(deg, x, y) && deg == Two {
      forall k: nat | k + 1 < |x| ensures Tame(deg, x, y, k) {
        RisingStaysBetween(x, y, k);
      }
    }
  }

  /** bezier3 keeps the order of monotone data, for every spacing of the knots. */
  lemma CubicMonotoneEverywhere(x: seq<real>, y: seq<real>, q: real, r: real)
    requires Table(x, y) && Nondecreasing(y) && q <= r
    ensures Interpolant(Three, x, y, q) <= Interpolant(Three, x, y, r)
  {
    MonotoneEverywhere(Three, x, y, q, r);
  }

  /** bezier2 keeps the order of monotone data on equally spaced knots. */
  lemma QuadraticMonotoneEverywhere(x: seq<real>, y: seq<real>, q: real, r: real)
    requires Table(x, y) && EquallySpaced(x) && Nondecreasing(y) && q <= r
    ensures Interpolant(Two, x, y, q) <= Interpolant(Two, x, y, r)
  {
    forall k: nat | k + 1 < |x| ensures Tame(Two, x, y, k) { EquallySpacedTame(x, y, k); }
    MonotoneEverywhere(Two, x, y, q, r);
  }

  // ---------------------------------------------------------------- straight data

  ghost predicate Collinear(x: seq<real>, y: seq<real>, a: real, b: real) {
    |x| == |y| && forall i :: 0 <= i < |x| ==> y[i] == a + b * x[i]
  }

  lemma CollinearDerivative(x: seq<real>, y: seq<real>, a: real, b: real, k: nat)
    requires Table(x, y) && Collinear(x, y, a, b) && k < |x|
    ensures Derivative(x, y, k) == b
    ensures k + 1 < |x| ==> Slope(x, y, k) == b
  {
    if k + 1 < |x| { CollinearSlope(x, y, a, b, k); }
    if k > 0 { CollinearSlope(x, y, a, b, k - 1); }
    if 0 < k < |x| - 1 { LimitedOfEqual(x[k] - x[k - 1], x[k + 1] - x[k], b); }
  }

  lemma CollinearSlope(x: seq<real>, y: seq<real>, a: real, b: real, k: nat)
    requires Table(x, y) && Collinear(x, y, a, b) && k + 1 < |x|
    ensures Slope(x, y, k) == b
  {
  }

  lemma LimitedOfEqual(dx: real, dx1: real, b: real)
    requires dx > 0.0 && dx1 > 0.0
    ensures Limited(dx, b, dx1, b) == b
  {
  }

  /** Data on a straight line are continued along that line everywhere, in both forms. */
  lemma LinesAreReproduced(deg: Degree, x: seq<real>, y: seq<real>, a: real, b: real, q: real)
    requires Table(x, y) && Collinear(x, y, a, b)
    ensures Interpolant(deg, x, y, q) == a + b * q
  {
    var n := |x|;
    if q < x[0] {
      CollinearSlope(x, y, a, b, 0);
    } else if q >= x[n - 1] {
      CollinearSlope(x, y, a, b, n - 2);
    } else {
      StraightSegment(deg, x, y, a, b, Locate(x, q, 0), q);
    }
  }

  lemma StraightSegment(deg: Degree, x: seq<real>, y: seq<real>, a: real, b: real, k: nat, q: real)
    requires Table(x, y) && Collinear(x, y, a, b) && k + 1 < |x|
    ensures Segment(deg, x, y, k, q) == a + b * q
  {
    CollinearDerivative(x, y, a, b, k);
    CollinearDerivative(x, y, a, b, k + 1);
    CollinearSteps(x, y, a, b, k, q);
    hide Derivative, Along, Cubic, Quadratic, LeftControl, RightControl, MiddleControl, Collinear, OnLine;
    StraightLine(y[k], y[k + 1], x[k + 1] - x[k], b, Along(x, k, q), a + b * q);
  }

  lemma CollinearSteps(x: seq<real>, y: seq<real>, a: real, b: real, k: nat, q: real)
    requires Table(x, y) && Collinear(x, y, a, b) && k + 1 < |x|
    ensures OnLine(y[k], y[k + 1], x[k + 1] - x[k], b, Along(x, k, q), a + b * q)
  {
  }

  // ---------------------------------------------------------------- mirror symmetry

  ghost function Reversed(v: seq<real>): seq<real> {
    seq(|v|, i requires 0 <= i < |v| => v[|v| - 1 - i])
  }

  /** The abscissae seen from the other side: reversed in order and in sign. */
  ghost function Mirrored(x: seq<real>): seq<real> {
    seq(|x|, i requires 0 <= i < |x| => -x[|x| - 1 - i])
  }

  lemma MirroredTable(x: seq<real>, y: seq<real>)
    requires Table(x, y)
    ensures Table(Mirrored(x), Reversed(y))
  {
  }

  lemma MirroredSlope(x: seq<real>, y: seq<real>, k: nat)
    requires Table(x, y) && Table(Mirrored(x), Reversed(y)) && k + 1 < |x|
    ensures Slope(Mirrored(x), Reversed(y), k) == -Slope(x, y, |x| - 2 - k)
  {
    var i := |x| - 2 - k;
    var dx, dy := x[i + 1] - x[i], y[i + 1] - y[i];
    NegatedQuotient(dy, dx);
  }

  lemma MirroredDerivative(x: seq<real>, y: seq<real>, k: nat)
    requires Table(x, y) && Table(Mirrored(x), Reversed(y)) && k < |x|
    ensures Derivative(Mirrored(x), Reversed(y), k) == -Derivative(x, y, |x| - 1 - k)
  {
    hide Slope, Limited;
    var i := |x| - 1 - k;
    if k > 0 { MirroredSlope(x, y, k - 1); }
    if k + 1 < |x| { MirroredSlope(x, y, k); }
    if 0 < k < |x| - 1 {
      var dx, dx1 := x[i] - x[i - 1], x[i + 1] - x[i];
      var der, der1 := Slope(x, y, i - 1), Slope(x, y, i);
      LimitedNegates(dx1, der1, dx, der);
      LimitedSwaps(dx, der, dx1, der1);
    }
  }

  lemma MirroredSegment(deg: Degree, x: seq<real>, y: seq<real>, k: nat, q: real)
    requires Table(x, y) && Table(Mirrored(x), Reversed(y)) && k + 1 < |x|
    ensures Segment(deg, Mirrored(x), Reversed(y), |x| - 2 - k, -q) == Segment(deg, x, y, k, q)
  {
    MirroredAlong(x, k, q);
    hide Along;
    MirroredControls(x, y, k);
    hide Control1, Control2, Control;
    match deg
    case Three =>
      CubicMirrors(y[k], Control1(x, y, k), Control2(x, y, k), y[k + 1], Along(x, k, q));
    case Two =>
      QuadraticMirrors(y[k], Control(x, y, k), y[k + 1], Along(x, k, q));
  }

  lemma MirroredControls(x: seq<real>, y: seq<real>, k: nat)
    requires Table(x, y) && Table(Mirrored(x), Reversed(y)) && k + 1 < |x|
    ensures var i := |x| - 2 - k;
            && Control1(Mirrored(x), Reversed(y), i) == Control2(x, y, k)
            && Control2(Mirrored(x), Reversed(y), i) == Control1(x, y, k)
            && Control(Mirrored(x), Reversed(y), i) == Control(x, y, k)
  {
    var i := |x| - 2 - k;
    MirroredDerivative(x, y, i);
    MirroredDerivative(x, y, i + 1);
    hide Derivative;
    MirrorControls(y[k], y[k + 1], x[k + 1] - x[k], Derivative(x, y, k), Derivative(x, y, k + 1));
  }

  lemma MirroredAlong(x: seq<real>, k: nat, q: real)
    requires Increasing(x) && Increasing(Mirrored(x)) && k + 1 < |x|
    ensures Along(Mirrored(x), |x| - 2 - k, -q) == 1.0 - Along(x, k, q)
  {
    var dx := x[k + 1] - x[k];
    Quotient(dx, dx);
    assert (x[k + 1] - q) / dx == dx / dx - (q - x[k]) / dx;
  }

  lemma MirroredLine(x: seq<real>, y: seq<real>, k: nat, at: nat, q: real)
    requires Table(x, y) && Table(Mirrored(x), Reversed(y)) && k + 1 < |x| && at < |x|
    ensures Line(Mirrored(x), Reversed(y), |x| - 2 - k, |x| - 1 - at, -q) == Line(x, y, k, at, q)
  {
    hide Slope, Line, Increasing, Reversed, Mirrored;
    MirroredSlope(x, y, |x| - 2 - k);
    MirroredEntry(x, y, at);
    LineForm(x, y, k, at, q);
    LineForm(Mirrored(x), Reversed(y), |x| - 2 - k, |x| - 1 - at, -q);
    NegatedProduct(Slope(x, y, k), q, x[at]);
  }

  lemma MirroredEntry(x: seq<real>, y: seq<real>, at: nat)
    requires |x| == |y| && at < |x|
    ensures |Mirrored(x)| == |Reversed(y)| == |x|
    ensures Mirrored(x)[|x| - 1 - at] == -x[at] && Reversed(y)[|x| - 1 - at] == y[at]
  {
  }

  lemma NegatedProduct(s: real, q: real, t: real)
    ensures (-s) * ((-q) - (-t)) == s * (q - t)
  {
  }

  lemma MirroredInside(deg: Degree, x: seq<real>, y: seq<real>, k: nat, q: real)
    requires Table(x, y) && Table(Mirrored(x), Reversed(y)) && k + 1 < |x|
    requires x[k] < q < x[k + 1]
    ensures Interpolant(deg, Mirrored(x), Reversed(y), -q) == Interpolant(deg, x, y, q)
  {
    hide Mirrored, Reversed, Increasing, Segment, Interpolant;
    MirroredSegment(deg, x, y, k, q);
    MirroredAt(x, k, q);
    InInterval(deg, x, y, k, q);
    InInterval(deg, Mirrored(x), Reversed(y), |x| - 2 - k, -q);
  }

  lemma MirroredAt(x: seq<real>, k: nat, q: real)
    requires k + 1 < |x| && x[k] < q < x[k + 1]
    ensures var i := |x| - 2 - k;
            |Mirrored(x)| == |x| && Mirrored(x)[i] <= -q < Mirrored(x)[i + 1]
  {
  }

  lemma MirroredKnot(deg: Degree, x: seq<real>, y: seq<real>, k: nat, q: real)
    requires Table(x, y) && Table(Mirrored(x), Reversed(y)) && k < |x| && q == x[k]
    ensures Interpolant(deg, Mirrored(x), Reversed(y), -q) == Interpolant(deg, x, y, q)
  {
    hide Interpolant;
    ThroughTheData(deg, x, y, k);
    ThroughTheData(deg, Mirrored(x), Reversed(y), |x| - 1 - k);
  }

  lemma MirroredOutside(deg: Degree, x: seq<real>, y: seq<real>, q: real)
    requires Table(x, y) && Table(Mirrored(x), Reversed(y))
    requires q < x[0] || q > x[|x| - 1]
    ensures Interpolant(deg, Mirrored(x), Reversed(y), -q) == Interpolant(deg, x, y, q)
  {
    hide Segment, Line, Increasing;
    var n := |x|;
    assert Mirrored(x)[n - 1] == -x[0] && Mirrored(x)[0] == -x[n - 1];
    assert x[0] < x[n - 1] by { FirstBelowLast(x); }
    if q < x[0] {
      MirroredLine(x, y, 0, 0, q);
    } else {
      MirroredLine(x, y, n - 2, n - 1, q);
    }
  }

  lemma FirstBelowLast(x: seq<real>)
    requires Increasing(x) && |x| >= 2
    ensures x[0] < x[|x| - 1]
  {
  }

  lemma Steps(x: seq<real>)
    requires Increasing(x)
    ensures forall i :: 0 < i < |x| ==> x[i - 1] < x[i]
  {
  }

  lemma TableParts(x: seq<real>, y: seq<real>)
    requires Table(x, y)
    ensures |x| == |y| >= 2 && Increasing(x)
  {
  }

  /** Looking at the table from the other side gives the same curve. */
  lemma MirrorSymmetry(deg: Degree, x: seq<real>, y: seq<real>, q: real)
    requires Table(x, y)
    ensures Table(Mirrored(x), Reversed(y))
    ensures Interpolant(deg, Mirrored(x), Reversed(y), -q) == Interpolant(deg, x, y, q)
  {
    MirroredTable(x, y);
    hide Interpolant, Mirrored, Reversed, Increasing, Table;
    assert |x| == |y| >= 2 && Increasing(x) by { TableParts(x, y); }
    var last := |x| - 1;
    if q == x[last] {
      MirroredKnot(deg, x, y, last, q);
    } else if q < x[0] || q > x[last] {
      MirroredOutside(deg, x, y, q);
    } else {
      var k := Locate(x, q, 0);
      if q == x[k] {
        MirroredKnot(deg, x, y, k, q);
      } else {
        MirroredInside(deg, x, y, k, q);
      }
    }
  }

  /** Falling data give a falling interpolant: the mirrored table rises. */
  lemma CubicFallsEverywhere(x: seq<real>, y: seq<real>, q: real, r: real)
    requires Table(x, y) && Nonincreasing(y) && q <= r
    ensures Interpolant(Three, x, y, q) >= Interpolant(Three, x, y, r)
  {
    hide Interpolant, Mirrored, Increasing;
    MirrorSymmetry(Three, x, y, q);
    MirrorSymmetry(Three, x, y, r);
    ReversedRises(y);
    CubicMonotoneEverywhere(Mirrored(x), Reversed(y), -r, -q);
  }

  lemma ReversedRises(y: seq<real>)
    requires Nonincreasing(y)
    ensures Nondecreasing(Reversed(y))
  {
  }

  // ---------------------------------------------------------------- the code

  /** The table as the code sets it up: turned round when its first step is not upward. */
  ghost function Upright(x: seq<real>, v: seq<real>): seq<real>
    requires |x| >= 2
  {
    if x[1] - x[0] > 0.0 then v else Reversed(v)
  }

  lemma UprightTable(x: seq<real>, y: seq<real>)
    requires |x| == |y| >= 2 && (Increasing(x) || Decreasing(x))
    ensures Table(Upright(x, x), Upright(x, y))
  {
  }

  /** Fills `yprime` with the limited derivatives, carrying the previous slope and width. */
  method CentralDerivative(x: array<real>, y: array<real>, yprime: array<real>)
    requires Table(x[..], y[..]) && yprime.Length == x.Length
    requires yprime != x && yprime != y
    modifies yprime
    ensures forall k :: 0 <= k < x.Length ==> yprime[k] == Derivative(x[..], y[..], k)
  {
    var n := x.Length;
    ghost var xs, ys := x[..], y[..];
    Steps(xs);
    for i := 0 to n
      invariant forall j :: 0 <= j < i ==> yprime[j] == 0.0
    {
      yprime[i] := 0.0;
    }
    var dx := x[1] - x[0];
    var der := (y[1] - y[0]) / dx;
    yprime[0] := der;
    for k := 1 to n - 1
      invariant x[..] == xs && y[..] == ys
      invariant dx == xs[k] - xs[k - 1] && der == Slope(xs, ys, k - 1)
      invariant forall j :: 0 <= j < k ==> yprime[j] == Derivative(xs, ys, j)
      invariant forall j :: k <= j < n ==> yprime[j] == 0.0
    {
      hide Derivative, Slope, HarmonicMean, Lambda, Increasing;
      var dx1 := x[k + 1] - x[k];
      var der1 := (y[k + 1] - y[k]) / dx1;
      SlopeIs(xs, ys, k, der1);
      InnerDerivative(xs, ys, k);
      if der * der1 > 0.0 {
        var lambda := Lambda(dx, dx1);
        BlendNonzero(lambda, der, der1);
        yprime[k] := HarmonicMean(lambda, der, der1);
      }
      der := der1;
      dx := dx1;
    }
    yprime[n - 1] := der;
  }

  lemma SlopeIs(x: seq<real>, y: seq<real>, k: nat, der: real)
    requires Table(x, y) && k + 1 < |x| && der == (y[k + 1] - y[k]) / (x[k + 1] - x[k])
    ensures der == Slope(x, y, k)
  {
  }

  lemma InnerDerivative(x: seq<real>, y: seq<real>, k: nat)
    requires Table(x, y) && 0 < k < |x| - 1
    ensures Derivative(x, y, k)
         == Limited(x[k] - x[k - 1], Slope(x, y, k - 1), x[k + 1] - x[k], Slope(x, y, k))
  {
  }

  /** The table, turned round in fresh arrays when its first step is not upward. */
  method SetUp(xin: array<real>, yin: array<real>) returns (x: array<real>, y: array<real>)
    requires xin.Length == yin.Length >= 2
    ensures x[..] == Upright(xin[..], xin[..]) && y[..] == Upright(xin[..], yin[..])
  {
    var n := xin.Length;
    if xin[1] - xin[0] > 0.0 {
      x, y := xin, yin;
    } else {
      x, y := new real[n], new real[n];
      for k := 0 to n
        invariant forall i :: 0 <= i < k ==> x[i] == xin[n - i - 1] && y[i] == yin[n - i - 1]
      {
        x[k] := xin[n - k - 1];
        y[k] := yin[n - k - 1];
      }
      assert x[..] == Reversed(xin[..]) && y[..] == Reversed(yin[..]);
    }
  }

  /** Slot `j` of the output holds the interpolant at query `j`, for the queries below `bound`
      among the first `n`, and for those below `lower` among the rest. */
  ghost predicate Filled(deg: Degree, x: seq<real>, y: seq<real>, xp: seq<real>, res: seq<real>,
                         n: int, bound: real, lower: real)
    requires Table(x, y)
  {
    && |res| == |xp|
    && (forall j :: 0 <= j < n && j < |xp| && x[0] <= xp[j] < bound ==> res[j] == Interpolant(deg, x, y, xp[j]))
    && (forall j :: n <= j < |xp| && 0 <= j && x[0] <= xp[j] < lower ==> res[j] == Interpolant(deg, x, y, xp[j]))
  }

  lemma InInterval(deg: Degree, x: seq<real>, y: seq<real>, k: nat, q: real)
    requires Table(x, y) && k + 1 < |x| && x[k] <= q < x[k + 1]
    ensures Interpolant(deg, x, y, q) == Segment(deg, x, y, k, q)
  {
  }

  lemma OutOfRange(deg: Degree, x: seq<real>, y: seq<real>, q: real)
    requires Table(x, y)
    ensures q < x[0] ==> Interpolant(deg, x, y, q) == Line(x, y, 0, 0, q)
    ensures q >= x[|x| - 1] ==> Interpolant(deg, x, y, q) == Line(x, y, |x| - 2, |x| - 1, q)
    ensures x[0] < x[|x| - 1]
  {
  }

  ghost predicate Coefficients(x: seq<real>, y: seq<real>, k: nat, at: nat, a: real, b: real)
    requires Table(x, y) && k + 1 < |x| && at < |x|
  {
    a == Slope(x, y, k) && b == y[at] - a * x[at]
  }

  lemma LineIs(x: seq<real>, y: seq<real>, k: nat, at: nat, a: real, b: real, q: real)
    requires Table(x, y) && k + 1 < |x| && at < |x| && Coefficients(x, y, k, at, a, b)
    ensures Line(x, y, k, at, q) == Straight(q, a, b)
  {
  }

  /** The out-of-range pass: straight lines through the first two and the last two knots. */
  method Extrapolate(ghost deg: Degree, x: array<real>, y: array<real>, xp: array<real>, res: array<real>)
    requires Table(x[..], y[..]) && res.Length == xp.Length
    requires res != x && res != y && res != xp
    requires Filled(deg, x[..], y[..], xp[..], res[..], 0, x[x.Length - 1], x[x.Length - 1])
    modifies res
    ensures forall j :: 0 <= j < xp.Length ==> res[j] == Interpolant(deg, x[..], y[..], xp[j])
  {
    hide Interpolant, Increasing, Straight, Line;
    var n := x.Length;
    ghost var xs, ys, q := x[..], y[..], xp[..];
    Steps(xs);
    var aa0 := (y[1] - y[0]) / (x[1] - x[0]);
    var bb0 := y[0] - aa0 * x[0];
    var aa1 := (y[n - 1] - y[n - 2]) / (x[n - 1] - x[n - 2]);
    var bb1 := y[n - 1] - aa1 * x[n - 1];
    assert Coefficients(xs, ys, 0, 0, aa0, bb0) && Coefficients(xs, ys, n - 2, n - 1, aa1, bb1);
    hide Slope, Coefficients;
    for k := 0 to xp.Length
      invariant x[..] == xs && y[..] == ys && xp[..] == q
      invariant forall j :: 0 <= j < k ==> res[j] == Interpolant(deg, xs, ys, q[j])
      invariant forall j :: k <= j < xp.Length && xs[0] <= q[j] < xs[n - 1] ==>
                  res[j] == Interpolant(deg, xs, ys, q[j])
    {
      OutOfRange(deg, xs, ys, xp[k]);
      LineIs(xs, ys, 0, 0, aa0, bb0, xp[k]);
      LineIs(xs, ys, n - 2, n - 1, aa1, bb1, xp[k]);
      if xp[k] < x[0] { res[k] := Straight(xp[k], aa0, bb0); }
      if xp[k] >= x[n - 1] { res[k] := Straight(xp[k], aa1, bb1); }
    }
  }

  /** Interpolates every query with cubic segments. The reversal, the derivatives, the pass
      over the intervals and the extrapolation follow each other as in the code. */
  method Bezier3(xin: array<real>, yin: array<real>, xp: array<real>) returns (res: array<real>)
    requires xin.Length == yin.Length >= 2
    requires Increasing(xin[..]) || Decreasing(xin[..])
    ensures fresh(res) && res.Length == xp.Length
    ensures Table(Upright(xin[..], xin[..]), Upright(xin[..], yin[..]))
    ensures forall j :: 0 <= j < xp.Length ==>
              res[j] == Interpolant(Three, Upright(xin[..], xin[..]), Upright(xin[..], yin[..]), xp[j])
  {
    hide Interpolant, Derivative, Increasing, Decreasing, Upright, Segment;
    UprightTable(xin[..], yin[..]);
    var x, y := SetUp(xin, yin);
    var yp := new real[x.Length];
    CentralDerivative(x, y, yp);
    res := CubicPass(x, y, yp, xp);
    Extrapolate(Three, x, y, xp, res);
  }

  /** The double loop of the cubic form: every interval, and for it every query. */
  method CubicPass(x: array<real>, y: array<real>, yp: array<real>, xp: array<real>)
    returns (res: array<real>)
    requires Table(x[..], y[..]) && yp.Length == x.Length
    requires forall k :: 0 <= k < x.Length ==> yp[k] == Derivative(x[..], y[..], k)
    ensures fresh(res)
    ensures Filled(Three, x[..], y[..], xp[..], res[..], 0, x[x.Length - 1], x[x.Length - 1])
  {
    hide Interpolant, Derivative, Increasing, Cubic, LeftControl, RightControl;
    var n := x.Length;
    ghost var xs, ys, q, ds := x[..], y[..], xp[..], yp[..];
    Steps(xs);
    res := new real[xp.Length];
    for k := 0 to n - 1
      invariant Filled(Three, xs, ys, q, res[..], 0, xs[k], xs[k])
    {
      var dx := x[k + 1] - x[k];
      var cntrl1 := LeftControl(y[k], dx, yp[k]);
      var cntrl2 := RightControl(y[k + 1], dx, yp[k + 1]);
      for j := 0 to xp.Length
        invariant Filled(Three, xs, ys, q, res[..], j, xs[k + 1], xs[k])
      {
        if xp[j] >= x[k] && xp[j] < x[k + 1] {
          var u := (xp[j] - x[k]) / dx;
          res[j] := Cubic(y[k], cntrl1, cntrl2, y[k + 1], u);
          InInterval(Three, xs, ys, k, xp[j]);
        }
      }
    }
  }

  /** Interpolates every query with quadratic segments; otherwise as Bezier3. */
  method Bezier2(xin: array<real>, yin: array<real>, xp: array<real>) returns (res: array<real>)
    requires xin.Length == yin.Length >= 2
    requires Increasing(xin[..]) || Decreasing(xin[..])
    ensures fresh(res) && res.Length == xp.Length
    ensures Table(Upright(xin[..], xin[..]), Upright(xin[..], yin[..]))
    ensures forall j :: 0 <= j < xp.Length ==>
              res[j] == Interpolant(Two, Upright(xin[..], xin[..]), Upright(xin[..], yin[..]), xp[j])
  {
    hide Interpolant, Derivative, Increasing, Decreasing, Upright, Segment;
    UprightTable(xin[..], yin[..]);
    var x, y := SetUp(xin, yin);
    var yp := new real[x.Length];
    CentralDerivative(x, y, yp);
    res := QuadraticPass(x, y, yp, xp);
    Extrapolate(Two, x, y, xp, res);
  }

  /** The double loop of the quadratic form. */
  method QuadraticPass(x: array<real>, y: array<real>, yp: array<real>, xp: array<real>)
    returns (res: array<real>)
    requires Table(x[..], y[..]) && yp.Length == x.Length
    requires forall k :: 0 <= k < x.Length ==> yp[k] == Derivative(x[..], y[..], k)
    ensures fresh(res)
    ensures Filled(Two, x[..], y[..], xp[..], res[..], 0, x[x.Length - 1], x[x.Length - 1])
  {
    hide Interpolant, Derivative, Increasing, Quadratic, MiddleControl;
    var n := x.Length;
    ghost var xs, ys, q, ds := x[..], y[..], xp[..], yp[..];
    Steps(xs);
    res := new real[xp.Length];
    for k := 0 to n - 1
      invariant Filled(Two, xs, ys, q, res[..], 0, xs[k], xs[k])
    {
      var dx := x[k + 1] - x[k];
      var cntrl := MiddleControl(y[k], y[k + 1], dx, yp[k], yp[k + 1]);
      for j := 0 to xp.Length
        invariant Filled(Two, xs, ys, q, res[..], j, xs[k + 1], xs[k])
      {
        if xp[j] >= x[k] && xp[j] < x[k + 1] {
          var u := (xp[j] - x[k]) / dx;
          res[j] := Quadratic(y[k], cntrl, y[k + 1], u);
          InInterval(Two, xs, ys, k, xp[j]);
        }
      }
    }
  }
}
