/**
 The residual in coordinates (src/dlm/libgrid.cpp:156-239): a weighted mean over the pixels of the
 clipped window, whichever way they are counted, and when it vanishes.
 */
module ResidualForms {
  import opened RealMath
  import opened Residual

  // ---------------------------------------------------------------- sums over rectangles

  /** What each pixel contributes. */
  type Cells = (int, int) -> real

  ghost function RowTotal(t: Cells, x: int, n: nat, j: int): real {
    if n == 0 then 0.0 else RowTotal(t, x, n - 1, j) + t(x + n - 1, j)
  }

  ghost function RowsTotal(t: Cells, x: int, n: nat, y: int, m: nat): real {
    if m == 0 then 0.0 else RowsTotal(t, x, n, y, m - 1) + RowTotal(t, x, n, y + m - 1)
  }

  ghost function ColumnTotal(t: Cells, i: int, y: int, m: nat): real {
    if m == 0 then 0.0 else ColumnTotal(t, i, y, m - 1) + t(i, y + m - 1)
  }

  /** The sum over `n` columns from `x` on and `m` rows from `y` on, column by column. */
  ghost function ColumnsTotal(t: Cells, x: int, n: nat, y: int, m: nat): real {
    if n == 0 then 0.0 else ColumnsTotal(t, x, n - 1, y, m) + ColumnTotal(t, x + n - 1, y, m)
  }

  lemma {:induction false} OneMoreRow(t: Cells, x: int, n: nat, y: int, m: nat)
    requires m > 0
    ensures ColumnsTotal(t, x, n, y, m) == ColumnsTotal(t, x, n, y, m - 1) + RowTotal(t, x, n, y + m - 1)
  {
    if n > 0 {
      OneMoreRow(t, x, n - 1, y, m);
    }
  }

  lemma {:induction false} NoRows(t: Cells, x: int, n: nat, y: int)
    ensures ColumnsTotal(t, x, n, y, 0) == 0.0
  {
    if n > 0 {
      NoRows(t, x, n - 1, y);
    }
  }

  lemma {:induction false} RowsAreColumns(t: Cells, x: int, n: nat, y: int, m: nat)
    ensures RowsTotal(t, x, n, y, m) == ColumnsTotal(t, x, n, y, m)
  {
    if m == 0 {
      NoRows(t, x, n, y);
    } else {
      RowsAreColumns(t, x, n, y, m - 1);
      OneMoreRow(t, x, n, y, m);
    }
  }

  // ---------------------------------------------------------------- the residual as a mean

  function Get(s: seq<real>, k: int): real {
    if 0 <= k < |s| then s[k] else 0.0
  }

  /** The difference of pixel (i, j) and its shifted partner, with the bias added. */
  function Difference(f: Window, m1: seq<real>, m2: seq<real>, idx: int, idy: int, bias: real, i: int, j: int): real {
    Get(m1, j * f.nxs + i) - Get(m2, (j + idy) * f.nxs + (i + idx)) + bias
  }

  function Squared(d: real, cap: real): real {
    if d * d < cap then d * d else cap
  }

  /** Weighted squares, and weights. */
  function Squares(f: Window, m1: seq<real>, m2: seq<real>, gx: seq<real>, gy: seq<real>, idx: int, idy: int,
                   bias: real, cap: real): Cells
  {
    (i: int, j: int) => Get(gx, i) * Get(gy, j) * Squared(Difference(f, m1, m2, idx, idy, bias, i, j), cap)
  }

  function Weights(gx: seq<real>, gy: seq<real>): Cells {
    (i: int, j: int) => Get(gx, i) * Get(gy, j)
  }

  lemma Regrouped(g: real, w: real, s: real)
    ensures w * (g * s) == g * w * s
  {
  }

  lemma Distributed(w: real, a: real, b: real)
    ensures w * (a + b) == w * a + w * b
  {
  }

  lemma {:induction false} RowIsTotal(f: Window, m1: seq<real>, m2: seq<real>, gx: seq<real>, gy: seq<real>, idx: int, idy: int,
                                      bias: real, cap: real, x: int, j: int, n: nat)
    requires 0 <= x && x + n <= |gx| && 0 <= j < |gy|
    requires 0 <= j * f.nxs + x && j * f.nxs + x + n <= |m1|
    requires 0 <= (j + idy) * f.nxs + x + idx && (j + idy) * f.nxs + x + idx + n <= |m2|
    ensures gy[j] * RowSum(gx, m1, m2, x, j * f.nxs + x, (j + idy) * f.nxs + x + idx, n, bias, cap)
         == RowTotal(Squares(f, m1, m2, gx, gy, idx, idy, bias, cap), x, n, j)
  {
    hide Squared, Squares, Term;
    if n > 0 {
      RowIsTotal(f, m1, m2, gx, gy, idx, idy, bias, cap, x, j, n - 1);
      var p, q := j * f.nxs + x, (j + idy) * f.nxs + x + idx;
      SquareAt(f, m1, m2, gx, gy, idx, idy, bias, cap, x + n - 1, j, p + n - 1, q + n - 1);
      Distributed(gy[j], RowSum(gx, m1, m2, x, p, q, n - 1, bias, cap), gx[x + n - 1] * Term(m1, m2, p + n - 1, q + n - 1, bias, cap));
    }
  }

  lemma SquareAt(f: Window, m1: seq<real>, m2: seq<real>, gx: seq<real>, gy: seq<real>, idx: int, idy: int,
                 bias: real, cap: real, i: int, j: int, p: int, q: int)
    requires 0 <= i < |gx| && 0 <= j < |gy| && 0 <= p < |m1| && 0 <= q < |m2|
    requires p == j * f.nxs + i && q == (j + idy) * f.nxs + (i + idx)
    ensures Squares(f, m1, m2, gx, gy, idx, idy, bias, cap)(i, j) == gy[j] * (gx[i] * Term(m1, m2, p, q, bias, cap))
  {
    var t := Term(m1, m2, p, q, bias, cap);
    assert t == Squared(Difference(f, m1, m2, idx, idy, bias, i, j), cap);
    hide Term, Squared;
    Regrouped(gx[i], gy[j], t);
  }

  lemma {:induction false} GridIsTotal(f: Window, m1: seq<real>, m2: seq<real>, gx: seq<real>, gy: seq<real>, idx: int, idy: int,
                                       rows: nat, bias: real, cap: real)
    requires Fits(f, m1, m2, gx, gy) && !Empty(Clip(f, idx, idy)) && rows <= Height(Clip(f, idx, idy))
    ensures var l := Clip(f, idx, idy);
            var total := RowsTotal(Squares(f, m1, m2, gx, gy, idx, idy, bias, cap), l.xc, Width(l), l.yc, rows);
            GridSum(f, m1, m2, gx, gy, idx, idy, rows, bias, cap) == total
  {
    hide RowSum, Clip, Squares, RowTotal;
    if rows > 0 {
      var l := Clip(f, idx, idy);
      GridIsTotal(f, m1, m2, gx, gy, idx, idy, rows - 1, bias, cap);
      RowInBounds(f, idx, idy, rows - 1);
      FitsInside(f, m1, m2, gx, gy);
      RowIsTotal(f, m1, m2, gx, gy, idx, idy, bias, cap, l.xc, l.yc + rows - 1, Width(l));
    }
  }

  lemma {:induction false} RowWeightIsTotal(gx: seq<real>, gy: seq<real>, x: int, n: nat, j: int)
    requires 0 <= x && x + n <= |gx| && 0 <= j < |gy|
    ensures RowWeight(gx, x, n, gy[j]) == RowTotal(Weights(gx, gy), x, n, j)
  {
    if n > 0 {
      RowWeightIsTotal(gx, gy, x, n - 1, j);
    }
  }

  lemma {:induction false} WeightIsTotal(l: Limits, gx: seq<real>, gy: seq<real>, rows: nat)
    requires LimitsFit(l, gx, gy) && rows <= Height(l)
    ensures GridWeight(l, gx, gy, rows) == RowsTotal(Weights(gx, gy), l.xc, Width(l), l.yc, rows)
  {
    hide RowWeight, RowTotal, Weights;
    if rows > 0 {
      WeightIsTotal(l, gx, gy, rows - 1);
      RowWeightIsTotal(gx, gy, l.xc, Width(l), l.yc + rows - 1);
    }
  }

  /** Where the shifted window overlaps the image, the residual is the sum over its pixels of the
      weighted squares of the biased differences, over the sum of their weights. */
  lemma ResidExactly(f: Window, m1: seq<real>, m2: seq<real>, gx: seq<real>, gy: seq<real>, idx: int, idy: int, bias: real, cap: real)
    requires Fits(f, m1, m2, gx, gy) && !Empty(Clip(f, idx, idy))
    ensures var l := Clip(f, idx, idy);
            var sum := ColumnsTotal(Squares(f, m1, m2, gx, gy, idx, idy, bias, cap), l.xc, Width(l), l.yc, Height(l));
            var weight := ColumnsTotal(Weights(gx, gy), l.xc, Width(l), l.yc, Height(l));
            && (weight != 0.0 ==> Resid(f, m1, m2, gx, gy, idx, idy, bias, cap) == Finite(sum / weight))
            && (weight == 0.0 ==> Resid(f, m1, m2, gx, gy, idx, idy, bias, cap) == NotFinite)
  {
    hide GridSum, GridWeight, Clip, Squares, Weights, ColumnsTotal, RowsTotal;
    var l := Clip(f, idx, idy);
    ClipFits(f, m1, m2, gx, gy, idx, idy);
    GridIsTotal(f, m1, m2, gx, gy, idx, idy, Height(l), bias, cap);
    WeightIsTotal(l, gx, gy, Height(l));
    RowsAreColumns(Squares(f, m1, m2, gx, gy, idx, idy, bias, cap), l.xc, Width(l), l.yc, Height(l));
    RowsAreColumns(Weights(gx, gy), l.xc, Width(l), l.yc, Height(l));
  }

  // ---------------------------------------------------------------- constant differences

  lemma {:induction false} ColumnScales(s: Cells, t: Cells, v: real, i: int, y: int, m: nat)
    requires forall j :: y <= j < y + m ==> s(i, j) == t(i, j) * v
    ensures ColumnTotal(s, i, y, m) == ColumnTotal(t, i, y, m) * v
  {
    if m > 0 {
      ColumnScales(s, t, v, i, y, m - 1);
      TimesBoth(ColumnTotal(t, i, y, m - 1), t(i, y + m - 1), v);
    }
  }

  lemma TimesBoth(a: real, b: real, v: real)
    ensures (a + b) * v == a * v + b * v
  {
  }

  lemma {:induction false} ColumnsScale(s: Cells, t: Cells, v: real, x: int, n: nat, y: int, m: nat)
    requires forall i, j :: x <= i < x + n && y <= j < y + m ==> s(i, j) == t(i, j) * v
    ensures ColumnsTotal(s, x, n, y, m) == ColumnsTotal(t, x, n, y, m) * v
  {
    if n > 0 {
      ColumnsScale(s, t, v, x, n - 1, y, m);
      ColumnScales(s, t, v, x + n - 1, y, m);
      TimesBoth(ColumnsTotal(t, x, n - 1, y, m), ColumnTotal(t, x + n - 1, y, m), v);
    }
  }

  /** If the biased difference is the same everywhere in the clipped window, the residual is its
      square, but at most the cap. In particular it is zero where the second image exceeds the first
      by just the bias. */
  lemma ConstantDifference(f: Window, m1: seq<real>, m2: seq<real>, gx: seq<real>, gy: seq<real>, idx: int, idy: int,
                           bias: real, cap: real, d: real)
    requires Fits(f, m1, m2, gx, gy) && !Empty(Clip(f, idx, idy))
    requires var l := Clip(f, idx, idy);
             && LimitsFit(l, gx, gy) && GridWeight(l, gx, gy, Height(l)) != 0.0
             && forall i, j :: l.xc <= i <= l.xd && l.yc <= j <= l.yd ==> Difference(f, m1, m2, idx, idy, bias, i, j) == d
    ensures Resid(f, m1, m2, gx, gy, idx, idy, bias, cap) == Finite(if d * d < cap then d * d else cap)
  {
    hide GridSum, GridWeight, Clip, ColumnsTotal, Squared, RowsTotal, Fits, LimitsFit, Resid, Difference;
    var l := Clip(f, idx, idy);
    ResidExactly(f, m1, m2, gx, gy, idx, idy, bias, cap);
    WeightIsTotal(l, gx, gy, Height(l));
    RowsAreColumns(Weights(gx, gy), l.xc, Width(l), l.yc, Height(l));
    var weight := ColumnsTotal(Weights(gx, gy), l.xc, Width(l), l.yc, Height(l));
    ColumnsScale(Squares(f, m1, m2, gx, gy, idx, idy, bias, cap), Weights(gx, gy), Squared(d, cap), l.xc, Width(l), l.yc, Height(l));
    QuotientBack(weight, Squared(d, cap));
    SquaredIs(d, cap);
  }

  lemma SquaredIs(d: real, cap: real)
    ensures Squared(d, cap) == if d * d < cap then d * d else cap
  {
  }

  lemma QuotientBack(w: real, v: real)
    requires w != 0.0
    ensures w * v / w == v
  {
  }
}
