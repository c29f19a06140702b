/**
 The weighted residual of two image windows (src/dlm/libgrid.cpp:156-239): the mean of the
 clipped squared difference over the part of the window that both images cover.
 */
module Residual {
  import opened RealMath

  /** A window of an image, and the size of the image. */
  datatype Window = Window(nxa: int, nxb: int, nya: int, nyb: int, nxs: int, nys: int)

  /** The window lies in the image; it may be empty. */
  predicate Inside(f: Window) {
    f.nxs > 0 && f.nys > 0 && 0 <= f.nxa && f.nxb < f.nxs && 0 <= f.nya && f.nyb < f.nys
  }

  /** The part of the window that stays in the image when shifted. */
  datatype Limits = Limits(xc: int, xd: int, yc: int, yd: int)

  function Clip(f: Window, idx: int, idy: int): Limits {
    Limits(if f.nxa + idx < 0 then -idx else f.nxa,
           if f.nxb + idx >= f.nxs then f.nxs - idx - 1 else f.nxb,
           if f.nya + idy < 0 then -idy else f.nya,
           if f.nyb + idy >= f.nys then f.nys - idy - 1 else f.nyb)
  }

  predicate Empty(l: Limits) {
    l.yd - l.yc + 1 <= 0 || l.xd - l.xc + 1 <= 0
  }

  /** Every pixel of the clipped window, and its shifted partner, is in the image; and every pixel
      of the window whose partner is in the image is in the clipped window. */
  lemma ClipExactly(f: Window, idx: int, idy: int, i: int, j: int)
    requires Inside(f)
    ensures var l := Clip(f, idx, idy);
            l.xc <= i <= l.xd && l.yc <= j <= l.yd
            <==> f.nxa <= i <= f.nxb && f.nya <= j <= f.nyb
                 && 0 <= i + idx < f.nxs && 0 <= j + idy < f.nys
  {
  }

  // ---------------------------------------------------------------- sums

  function Min(a: real, b: real): real {
    if a < b then a else b
  }

  /** The clipped squared difference of a pixel and its shifted partner. */
  function Term(m1: seq<real>, m2: seq<real>, p: int, q: int, bias: real, cap: real): real
    requires 0 <= p < |m1| && 0 <= q < |m2|
  {
    var t := m1[p] - m2[q] + bias;
    Min(t * t, cap)
  }

  /** The first `n` terms of a row, weighted; `p` and `q` are where the row starts in the images. */
  function RowSum(gx: seq<real>, m1: seq<real>, m2: seq<real>, lo: int, p: int, q: int, n: nat,
                  bias: real, cap: real): real
    requires 0 <= lo && lo + n <= |gx| && 0 <= p && p + n <= |m1| && 0 <= q && q + n <= |m2|
  {
    if n == 0 then 0.0
    else RowSum(gx, m1, m2, lo, p, q, n - 1, bias, cap) + gx[lo + n - 1] * Term(m1, m2, p + n - 1, q + n - 1, bias, cap)
  }

  /** The weights of a row times the weight of the row. */
  function RowWeight(gx: seq<real>, lo: int, n: nat, w: real): real
    requires 0 <= lo && lo + n <= |gx|
  {
    if n == 0 then 0.0 else RowWeight(gx, lo, n - 1, w) + gx[lo + n - 1] * w
  }

  /** The start of row `r` of the clipped window in each image, and its width. */
  function Start1(f: Window, l: Limits, r: int): int { (l.yc + r) * f.nxs + l.xc }
  function Start2(f: Window, l: Limits, idx: int, idy: int, r: int): int { (l.yc + r + idy) * f.nxs + l.xc + idx }
  function Width(l: Limits): int { l.xd - l.xc + 1 }
  function Height(l: Limits): int { l.yd - l.yc + 1 }

  /** Images and weights that fit the window. */
  predicate Fits(f: Window, m1: seq<real>, m2: seq<real>, gx: seq<real>, gy: seq<real>) {
    Inside(f) && |m1| == |m2| == f.nxs * f.nys && |gx| == f.nxs && |gy| == f.nys
  }

  lemma RowInBounds(f: Window, idx: int, idy: int, r: int)
    requires Inside(f) && !Empty(Clip(f, idx, idy)) && 0 <= r < Height(Clip(f, idx, idy))
    ensures var l := Clip(f, idx, idy);
            && 0 <= l.xc && l.xc + Width(l) <= f.nxs && 0 <= l.yc + r < f.nys
            && 0 <= Start1(f, l, r) && Start1(f, l, r) + Width(l) <= f.nxs * f.nys
            && 0 <= Start2(f, l, idx, idy, r) && Start2(f, l, idx, idy, r) + Width(l) <= f.nxs * f.nys
  {
    var l := Clip(f, idx, idy);
    RowOfImage(f.nxs, f.nys, l.yc + r, l.xc, Width(l));
    RowOfImage(f.nxs, f.nys, l.yc + r + idy, l.xc + idx, Width(l));
  }

  lemma RowOfImage(nxs: int, nys: int, y: int, x: int, n: int)
    requires 0 <= y < nys && 0 <= x && 0 <= n && x + n <= nxs
    ensures 0 <= y * nxs + x && y * nxs + x + n <= nxs * nys
  {
    assert nxs * nys == y * nxs + nxs * (nys - y);
    assert nxs * (nys - y) == nxs + nxs * (nys - y - 1);
    NonnegProduct(nxs, nys - y - 1);
    NonnegProduct(y, nxs);
  }

  lemma NonnegProduct(a: int, b: int)
    requires a >= 0 && b >= 0
    ensures a * b >= 0
  {
  }

  /** The weighted terms of the first `rows` rows, and their weights. */
  ghost function GridSum(f: Window, m1: seq<real>, m2: seq<real>, gx: seq<real>, gy: seq<real>,
                         idx: int, idy: int, rows: nat, bias: real, cap: real): real
    requires Fits(f, m1, m2, gx, gy) && !Empty(Clip(f, idx, idy)) && rows <= Height(Clip(f, idx, idy))
  {
    if rows == 0 then 0.0 else
      var l := Clip(f, idx, idy);
      RowInBounds(f, idx, idy, rows - 1);
      GridSum(f, m1, m2, gx, gy, idx, idy, rows - 1, bias, cap)
      + gy[l.yc + rows - 1] * RowSum(gx, m1, m2, l.xc, Start1(f, l, rows - 1), Start2(f, l, idx, idy, rows - 1), Width(l), bias, cap)
  }

  predicate LimitsFit(l: Limits, gx: seq<real>, gy: seq<real>) {
    !Empty(l) && 0 <= l.xc && l.xd < |gx| && 0 <= l.yc && l.yd < |gy|
  }

  function GridWeight(l: Limits, gx: seq<real>, gy: seq<real>, rows: nat): real
    requires LimitsFit(l, gx, gy) && rows <= Height(l)
  {
    if rows == 0 then 0.0
    else GridWeight(l, gx, gy, rows - 1) + RowWeight(gx, l.xc, Width(l), gy[l.yc + rows - 1])
  }

  lemma ClipFits(f: Window, m1: seq<real>, m2: seq<real>, gx: seq<real>, gy: seq<real>, idx: int, idy: int)
    requires Fits(f, m1, m2, gx, gy) && !Empty(Clip(f, idx, idy))
    ensures LimitsFit(Clip(f, idx, idy), gx, gy)
  {
  }

  /** A quotient, or whatever division by zero gives. */
  datatype Ratio = Finite(value: real) | NotFinite

  function Divide(a: real, b: real): Ratio {
    if b == 0.0 then NotFinite else Finite(a / b)
  }

  /** The residual: -1 if nothing overlaps, else the weighted mean of the clipped squares. */
  ghost function Resid(f: Window, m1: seq<real>, m2: seq<real>, gx: seq<real>, gy: seq<real>,
                       idx: int, idy: int, bias: real, cap: real): Ratio
    requires Fits(f, m1, m2, gx, gy)
  {
    var l := Clip(f, idx, idy);
    if Empty(l) then Finite(-1.0) else
      ClipFits(f, m1, m2, gx, gy, idx, idy);
      Divide(GridSum(f, m1, m2, gx, gy, idx, idy, Height(l), bias, cap), GridWeight(l, gx, gy, Height(l)))
  }

  // ---------------------------------------------------------------- range

  /** The weights are positive from index `a` to index `b`. */
  predicate Positive(g: seq<real>, a: int, b: int) {
    forall i :: a <= i <= b && 0 <= i < |g| ==> g[i] > 0.0
  }

  lemma TermRange(m1: seq<real>, m2: seq<real>, p: int, q: int, bias: real, cap: real)
    requires 0 <= p < |m1| && 0 <= q < |m2| && cap >= 0.0
    ensures 0.0 <= Term(m1, m2, p, q, bias, cap) <= cap
  {
    SquareNonneg(m1[p] - m2[q] + bias);
  }

  /** The weighted sum `s` of a row of weight `w` is within what its weights `sw` allow. */
  ghost predicate RowBounded(w: real, s: real, sw: real, cap: real) {
    s >= 0.0 && sw >= 0.0 && w * s <= cap * sw
  }

  ghost predicate Bounded(s: real, sw: real, cap: real) {
    0.0 <= s <= cap * sw && sw >= 0.0
  }

  lemma RowOfNothing(w: real, cap: real)
    ensures RowBounded(w, 0.0, 0.0, cap) && Bounded(0.0, 0.0, cap)
  {
  }

  /** A row's sum is between zero and the cap times its weights. */
  lemma {:induction false} RowRange(gx: seq<real>, m1: seq<real>, m2: seq<real>, lo: int, p: int, q: int, n: nat,
                                    bias: real, cap: real, w: real)
    requires 0 <= lo && lo + n <= |gx| && 0 <= p && p + n <= |m1| && 0 <= q && q + n <= |m2|
    requires Positive(gx, lo, lo + n - 1) && w > 0.0 && cap >= 0.0
    ensures RowBounded(w, RowSum(gx, m1, m2, lo, p, q, n, bias, cap), RowWeight(gx, lo, n, w), cap)
    ensures n > 0 ==> RowWeight(gx, lo, n, w) > 0.0
  {
    if n == 0 {
      RowOfNothing(w, cap);
    } else {
      hide Term, RowBounded;
      RowRange(gx, m1, m2, lo, p, q, n - 1, bias, cap, w);
      TermRange(m1, m2, p + n - 1, q + n - 1, bias, cap);
      RowStep(w, gx[lo + n - 1], Term(m1, m2, p + n - 1, q + n - 1, bias, cap), cap,
              RowSum(gx, m1, m2, lo, p, q, n - 1, bias, cap), RowWeight(gx, lo, n - 1, w),
              RowSum(gx, m1, m2, lo, p, q, n, bias, cap), RowWeight(gx, lo, n, w));
    }
  }

  lemma RowStep(w: real, g: real, t: real, cap: real, s: real, sw: real, s': real, sw': real)
    requires w > 0.0 && g > 0.0 && 0.0 <= t <= cap && RowBounded(w, s, sw, cap)
    requires s' == s + g * t && sw' == sw + g * w
    ensures RowBounded(w, s', sw', cap) && sw' > 0.0
  {
    MulNonneg(g, t);
    MulPositive(g, w);
    MulMonotone(g * w, t, cap);
    assert w * (s + g * t) == w * s + g * w * t;
    assert cap * (sw + g * w) == cap * sw + g * w * cap;
  }

  lemma {:induction false} GridRange(f: Window, m1: seq<real>, m2: seq<real>, gx: seq<real>, gy: seq<real>,
                                     idx: int, idy: int, rows: nat, bias: real, cap: real)
    requires Fits(f, m1, m2, gx, gy) && LimitsFit(Clip(f, idx, idy), gx, gy) && rows <= Height(Clip(f, idx, idy))
    requires Positive(gx, Clip(f, idx, idy).xc, Clip(f, idx, idy).xd)
    requires Positive(gy, Clip(f, idx, idy).yc, Clip(f, idx, idy).yd) && cap >= 0.0
    ensures Bounded(GridSum(f, m1, m2, gx, gy, idx, idy, rows, bias, cap),
                    GridWeight(Clip(f, idx, idy), gx, gy, rows), cap)
    ensures rows > 0 ==> GridWeight(Clip(f, idx, idy), gx, gy, rows) > 0.0
  {
    hide RowSum, RowWeight, Clip, Start1, Start2, Fits, Bounded, RowBounded;
    if rows == 0 {
      RowOfNothing(0.0, cap);
    } else {
      var l := Clip(f, idx, idy);
      var w := gy[l.yc + rows - 1];
      FitsInside(f, m1, m2, gx, gy);
      GridRange(f, m1, m2, gx, gy, idx, idy, rows - 1, bias, cap);
      RowInBounds(f, idx, idy, rows - 1);
      RowRange(gx, m1, m2, l.xc, Start1(f, l, rows - 1), Start2(f, l, idx, idy, rows - 1), Width(l), bias, cap, w);
      GridStep(w, RowSum(gx, m1, m2, l.xc, Start1(f, l, rows - 1), Start2(f, l, idx, idy, rows - 1), Width(l), bias, cap),
               RowWeight(gx, l.xc, Width(l), w), cap,
               GridSum(f, m1, m2, gx, gy, idx, idy, rows - 1, bias, cap), GridWeight(l, gx, gy, rows - 1),
               GridSum(f, m1, m2, gx, gy, idx, idy, rows, bias, cap), GridWeight(l, gx, gy, rows));
    }
  }

  lemma FitsInside(f: Window, m1: seq<real>, m2: seq<real>, gx: seq<real>, gy: seq<real>)
    requires Fits(f, m1, m2, gx, gy)
    ensures Inside(f) && |m1| == |m2| == f.nxs * f.nys && |gx| == f.nxs && |gy| == f.nys
  {
  }

  lemma GridStep(w: real, row: real, rowWeight: real, cap: real, s: real, sw: real, s': real, sw': real)
    requires w > 0.0 && RowBounded(w, row, rowWeight, cap) && rowWeight > 0.0 && Bounded(s, sw, cap)
    requires s' == s + w * row && sw' == sw + rowWeight
    ensures Bounded(s', sw', cap) && sw' > 0.0
  {
  }

  /** With positive weights the residual is a number between 0 and the cap wherever the shifted
      window overlaps the image, and -1 exactly where it does not. */
  lemma ResidRange(f: Window, m1: seq<real>, m2: seq<real>, gx: seq<real>, gy: seq<real>,
                   idx: int, idy: int, bias: real, cap: real)
    requires Fits(f, m1, m2, gx, gy) && cap >= 0.0
    requires Positive(gx, f.nxa, f.nxb) && Positive(gy, f.nya, f.nyb)
    ensures var r := Resid(f, m1, m2, gx, gy, idx, idy, bias, cap);
            && r.Finite?
            && (Empty(Clip(f, idx, idy)) <==> r.value < 0.0)
            && (Empty(Clip(f, idx, idy)) ==> r.value == -1.0)
            && r.value <= cap
  {
    var l := Clip(f, idx, idy);
    if !Empty(l) {
      ClipFits(f, m1, m2, gx, gy, idx, idy);
      GridRange(f, m1, m2, gx, gy, idx, idy, Height(l), bias, cap);
      hide GridSum, GridWeight, Bounded;
      QuotientRange(GridSum(f, m1, m2, gx, gy, idx, idy, Height(l), bias, cap), GridWeight(l, gx, gy, Height(l)), cap);
    }
  }

  lemma QuotientRange(s: real, w: real, cap: real)
    requires w > 0.0 && Bounded(s, w, cap)
    ensures 0.0 <= s / w <= cap
  {
  }
}
