/**
 resid as the pointer walks it is: the uncached version (src/dlm/libgrid.cpp:156-239) and the one
 that keeps the normalisation between calls (src/dlm/gridmatch.cpp:167-249).
 */
module ResidualCode {
  import opened Residual

  lemma NextRow(f: Window, l: Limits, idx: int, idy: int, r: int)
    ensures Start1(f, l, r + 1) == Start1(f, l, r) + f.nxs
    ensures Start2(f, l, idx, idy, r + 1) == Start2(f, l, idx, idy, r) + f.nxs
  {
  }

  /** Sums the products of the weights over the clipped window, walking two pointers. */
  method SumWeights(gx: array<real>, gy: array<real>, l: Limits) returns (sumg: real)
    requires LimitsFit(l, gx[..], gy[..])
    ensures sumg == GridWeight(l, gx[..], gy[..], Height(l))
  {
    hide GridWeight, RowWeight;
    ghost var xs, ys := gx[..], gy[..];
    sumg := 0.0;
    var nx := l.xd - l.xc + 1;
    var p2, ps := l.yc, l.xc;
    var j := l.yd - l.yc + 1;
    NoWeights(l, xs, ys);
    while j != 0
      invariant 0 <= j <= Height(l) && p2 == l.yc + (Height(l) - j)
      invariant sumg == GridWeight(l, xs, ys, Height(l) - j)
    {
      ghost var before := sumg;
      var i := nx;
      var p1 := ps;
      NoRowWeight(xs, l.xc, ys[p2]);
      while i != 0
        invariant 0 <= i <= nx && p1 == ps + (nx - i)
        invariant sumg == before + RowWeight(xs, l.xc, nx - i, ys[p2])
      {
        WeightStep(xs, l.xc, nx - i + 1, ys[p2]);
        sumg := sumg + gx[p1] * gy[p2];
        p1 := p1 + 1;
        i := i - 1;
      }
      WeightRow(l, xs, ys, Height(l) - j + 1);
      p2 := p2 + 1;
      j := j - 1;
    }
  }

  lemma NoWeights(l: Limits, gx: seq<real>, gy: seq<real>)
    requires LimitsFit(l, gx, gy)
    ensures GridWeight(l, gx, gy, 0) == 0.0
  {
  }

  lemma NoRowWeight(gx: seq<real>, lo: int, w: real)
    requires 0 <= lo <= |gx|
    ensures RowWeight(gx, lo, 0, w) == 0.0
  {
  }

  lemma WeightStep(gx: seq<real>, lo: int, n: nat, w: real)
    requires 0 <= lo && lo + n <= |gx| && n > 0
    ensures RowWeight(gx, lo, n, w) == RowWeight(gx, lo, n - 1, w) + gx[lo + n - 1] * w
  {
  }

  lemma WeightRow(l: Limits, gx: seq<real>, gy: seq<real>, rows: nat)
    requires LimitsFit(l, gx, gy) && 0 < rows <= Height(l)
    ensures GridWeight(l, gx, gy, rows)
         == GridWeight(l, gx, gy, rows - 1) + RowWeight(gx, l.xc, Width(l), gy[l.yc + rows - 1])
  {
  }

  /** One row of the residual: three pointers move together. */
  method SumRow(m1: array<real>, m2: array<real>, gx: array<real>, p: int, q: int, ps: int, nx: nat, bs: real, cap: real)
    returns (sumx: real, p': int, q': int)
    requires 0 <= ps && ps + nx <= gx.Length && 0 <= p && p + nx <= m1.Length && 0 <= q && q + nx <= m2.Length
    ensures sumx == RowSum(gx[..], m1[..], m2[..], ps, p, q, nx, bs, cap)
    ensures p' == p + nx && q' == q + nx
  {
    hide Term;
    var i := nx;
    var p1 := ps;
    p', q' := p, q;
    sumx := 0.0;
    while i != 0
      invariant 0 <= i <= nx && p1 == ps + (nx - i) && p' == p + (nx - i) && q' == q + (nx - i)
      invariant sumx == RowSum(gx[..], m1[..], m2[..], ps, p, q, nx - i, bs, cap)
    {
      var t := Term(m1[..], m2[..], p', q', bs, cap);
      p', q' := p' + 1, q' + 1;
      sumx := sumx + gx[p1] * t;
      p1 := p1 + 1;
      i := i - 1;
    }
  }

  /** The residual loop: after each row both image pointers skip to the next row of the window. */
  method SumTerms(f: Window, m1: array<real>, m2: array<real>, gx: array<real>, gy: array<real>,
                  idx: int, idy: int, bs: real, cap: real) returns (sum: real)
    requires Residual.Fits(f, m1[..], m2[..], gx[..], gy[..]) && !Empty(Clip(f, idx, idy))
    ensures sum == GridSum(f, m1[..], m2[..], gx[..], gy[..], idx, idy, Height(Clip(f, idx, idy)), bs, cap)
  {
    var l := Clip(f, idx, idy);
    hide Clip, GridSum, RowSum, Start1, Start2;
    FitsInside(f, m1[..], m2[..], gx[..], gy[..]);
    var nx := l.xd - l.xc + 1;
    var q1 := l.yc * f.nxs + l.xc;
    var q2 := (l.yc + idy) * f.nxs + l.xc + idx;
    FirstRow(f, l, idx, idy);
    var ny := f.nxs - nx;
    var p2 := l.yc;
    var j := l.yd - l.yc + 1;
    sum := 0.0;
    NoSum(f, m1[..], m2[..], gx[..], gy[..], idx, idy, bs, cap);
    while j != 0
      invariant 0 <= j <= Height(l) && p2 == l.yc + (Height(l) - j)
      invariant q1 == Start1(f, l, Height(l) - j) && q2 == Start2(f, l, idx, idy, Height(l) - j)
      invariant sum == GridSum(f, m1[..], m2[..], gx[..], gy[..], idx, idy, Height(l) - j, bs, cap)
    {
      ghost var r := Height(l) - j;
      RowInBounds(f, idx, idy, r);
      var sumx;
      sumx, q1, q2 := SumRow(m1, m2, gx, q1, q2, l.xc, nx, bs, cap);
      SumStep(f, m1[..], m2[..], gx[..], gy[..], idx, idy, r + 1, bs, cap);
      sum := sum + gy[p2] * sumx;
      p2 := p2 + 1;
      NextRow(f, l, idx, idy, r);
      q1 := q1 + ny;
      q2 := q2 + ny;
      j := j - 1;
    }
  }

  lemma FirstRow(f: Window, l: Limits, idx: int, idy: int)
    ensures Start1(f, l, 0) == l.yc * f.nxs + l.xc
    ensures Start2(f, l, idx, idy, 0) == (l.yc + idy) * f.nxs + l.xc + idx
  {
  }

  lemma NoSum(f: Window, m1: seq<real>, m2: seq<real>, gx: seq<real>, gy: seq<real>, idx: int, idy: int, bs: real, cap: real)
    requires Residual.Fits(f, m1, m2, gx, gy) && !Empty(Clip(f, idx, idy))
    ensures GridSum(f, m1, m2, gx, gy, idx, idy, 0, bs, cap) == 0.0
  {
  }

  lemma SumStep(f: Window, m1: seq<real>, m2: seq<real>, gx: seq<real>, gy: seq<real>, idx: int, idy: int,
                rows: nat, bs: real, cap: real)
    requires Residual.Fits(f, m1, m2, gx, gy) && !Empty(Clip(f, idx, idy)) && 0 < rows <= Height(Clip(f, idx, idy))
    ensures var l := Clip(f, idx, idy);
            && 0 <= l.xc && l.xc + Width(l) <= |gx| && 0 <= l.yc + rows - 1 < |gy|
            && 0 <= Start1(f, l, rows - 1) && Start1(f, l, rows - 1) + Width(l) <= |m1|
            && 0 <= Start2(f, l, idx, idy, rows - 1) && Start2(f, l, idx, idy, rows - 1) + Width(l) <= |m2|
            && GridSum(f, m1, m2, gx, gy, idx, idy, rows, bs, cap)
               == GridSum(f, m1, m2, gx, gy, idx, idy, rows - 1, bs, cap)
                  + gy[l.yc + rows - 1] * RowSum(gx, m1, m2, l.xc, Start1(f, l, rows - 1), Start2(f, l, idx, idy, rows - 1), Width(l), bs, cap)
  {
    RowInBounds(f, idx, idy, rows - 1);
    hide Clip, RowSum, Start1, Start2;
  }

  /** resid without a cache. */
  method ResidWalk(f: Window, m1: array<real>, m2: array<real>, gx: array<real>, gy: array<real>,
                   idx: int, idy: int, bs: real, ndmx: real) returns (r: Ratio)
    requires Residual.Fits(f, m1[..], m2[..], gx[..], gy[..])
    ensures r == Resid(f, m1[..], m2[..], gx[..], gy[..], idx, idy, bs, ndmx * ndmx)
  {
    hide GridSum, GridWeight;
    var l := Clip(f, idx, idy);
    var j := l.yd - l.yc + 1;
    if j <= 0 || l.xd - l.xc + 1 <= 0 { return Finite(-1.0); }
    ClipFits(f, m1[..], m2[..], gx[..], gy[..], idx, idy);
    var sumg := SumWeights(gx, gy, l);
    var sum := SumTerms(f, m1, m2, gx, gy, idx, idy, bs, ndmx * ndmx);
    r := Divide(sum, sumg);
  }

  // ---------------------------------------------------------------- the cached version

  /** The static variables of the older resid: the limits of the last window that was normalised,
      and its sum of weights. They start as zeros. */
  class NormCache {
    var limits: Limits
    var gsum: real

    constructor ()
      ensures limits == Limits(0, 0, 0, 0) && gsum == 0.0
    {
      limits := Limits(0, 0, 0, 0);
      gsum := 0.0;
    }

    /** resid with the cache: the weights are summed only if the limits differ from the last ones. */
    method Resid(f: Window, m1: array<real>, m2: array<real>, gx: array<real>, gy: array<real>,
                 idx: int, idy: int, bs: real, ndmx: real) returns (r: Ratio)
      requires Residual.Fits(f, m1[..], m2[..], gx[..], gy[..])
      requires !Empty(limits)
      modifies this
      ensures !Empty(limits)
      ensures r == ResidGiven(old(limits), old(gsum), f, m1[..], m2[..], gx[..], gy[..], idx, idy, bs, ndmx * ndmx)
      ensures Memo(limits, gsum)
           == Remember(Memo(old(limits), old(gsum)), Call(f, m1[..], m2[..], idx, idy, bs, ndmx * ndmx), gx[..], gy[..])
    {
      hide GridSum, GridWeight;
      var l := Clip(f, idx, idy);
      var sumg;
      if l != limits {
        var j := l.yd - l.yc + 1;
        if j <= 0 || l.xd - l.xc + 1 <= 0 { return Finite(-1.0); }
        ClipFits(f, m1[..], m2[..], gx[..], gy[..], idx, idy);
        sumg := SumWeights(gx, gy, l);
        gsum := sumg;
        limits := l;
      } else {
        sumg := gsum;
      }
      var sum := SumTerms(f, m1, m2, gx, gy, idx, idy, bs, ndmx * ndmx);
      r := Divide(sum, sumg);
    }
  }

  /** The residual as the cached code computes it from the remembered limits and sum. */
  ghost function ResidGiven(limits: Limits, gsum: real, f: Window, m1: seq<real>, m2: seq<real>, gx: seq<real>, gy: seq<real>,
                            idx: int, idy: int, bias: real, cap: real): Ratio
    requires Residual.Fits(f, m1, m2, gx, gy)
  {
    var l := Clip(f, idx, idy);
    if l == limits && !Empty(l) then Divide(GridSum(f, m1, m2, gx, gy, idx, idy, Height(l), bias, cap), gsum)
    else Residual.Resid(f, m1, m2, gx, gy, idx, idy, bias, cap)
  }

  lemma SameQuotient(s: real, a: real, b: real)
    requires a != 0.0
    ensures Divide(s, a) == Divide(s, b) <==> a == b || (s == 0.0 && b != 0.0)
  {
  }

  /** With weights that do not sum to zero, the cached residual is the uncached one exactly when
      the limits are new, or the remembered sum is that of the current weights, or the images agree
      so well that the sum does not matter. */
  lemma CacheIsTransparentExactly(limits: Limits, gsum: real, f: Window, m1: seq<real>, m2: seq<real>,
                                  gx: seq<real>, gy: seq<real>, idx: int, idy: int, bias: real, cap: real)
    requires Residual.Fits(f, m1, m2, gx, gy) && LimitsFit(Clip(f, idx, idy), gx, gy)
    requires GridWeight(Clip(f, idx, idy), gx, gy, Height(Clip(f, idx, idy))) != 0.0
    ensures var l := Clip(f, idx, idy);
            ResidGiven(limits, gsum, f, m1, m2, gx, gy, idx, idy, bias, cap)
              == Residual.Resid(f, m1, m2, gx, gy, idx, idy, bias, cap)
            <==> || l != limits
                 || gsum == GridWeight(l, gx, gy, Height(l))
                 || (GridSum(f, m1, m2, gx, gy, idx, idy, Height(l), bias, cap) == 0.0 && gsum != 0.0)
  {
    hide GridSum, GridWeight, Divide;
    var l := Clip(f, idx, idy);
    if l == limits {
      SameQuotient(GridSum(f, m1, m2, gx, gy, idx, idy, Height(l), bias, cap), GridWeight(l, gx, gy, Height(l)), gsum);
    }
  }

  // ---------------------------------------------------------------- whole sessions

  /** One call of the cached version; the weights are those of the session. */
  datatype Call = Call(f: Window, m1: seq<real>, m2: seq<real>, idx: int, idy: int, bias: real, cap: real)
  {
    function Limits(): Limits { Clip(f, idx, idy) }
  }

  datatype Memo = Memo(limits: Limits, gsum: real)

  const CORNER: Limits := Limits(0, 0, 0, 0)
  const FRESH: Memo := Memo(CORNER, 0.0)

  ghost predicate Callable(c: Call, gx: seq<real>, gy: seq<real>) {
    Residual.Fits(c.f, c.m1, c.m2, gx, gy)
  }

  /** What the static variables hold after a call. */
  ghost function Remember(memo: Memo, c: Call, gx: seq<real>, gy: seq<real>): Memo
    requires Callable(c, gx, gy)
  {
    var l := c.Limits();
    if l == memo.limits || Empty(l) then memo
    else
      ClipFits(c.f, c.m1, c.m2, gx, gy, c.idx, c.idy);
      Memo(l, GridWeight(l, gx, gy, Height(l)))
  }

  ghost function RememberAll(memo: Memo, calls: seq<Call>, gx: seq<real>, gy: seq<real>): Memo
    requires forall i :: 0 <= i < |calls| ==> Callable(calls[i], gx, gy)
  {
    if calls == [] then memo
    else Remember(RememberAll(memo, calls[..|calls| - 1], gx, gy), calls[|calls| - 1], gx, gy)
  }

  /** The memo holds the sum of the session's weights. */
  ghost predicate MemoHolds(memo: Memo, gx: seq<real>, gy: seq<real>) {
    LimitsFit(memo.limits, gx, gy) && memo.gsum == GridWeight(memo.limits, gx, gy, Height(memo.limits))
  }

  /** Some call was about more, or other, than the corner pixel. */
  ghost predicate Moved(calls: seq<Call>) {
    exists i :: 0 <= i < |calls| && !Empty(calls[i].Limits()) && calls[i].Limits() != CORNER
  }

  /** Over any session with the same weights, the static variables hold the right sum from the first
      call on that has other limits than the corner pixel, and are the initial ones until then. */
  lemma {:induction false} MemoHoldsThroughout(calls: seq<Call>, gx: seq<real>, gy: seq<real>)
    requires forall i :: 0 <= i < |calls| ==> Callable(calls[i], gx, gy)
    ensures if Moved(calls) then MemoHolds(RememberAll(FRESH, calls, gx, gy), gx, gy)
            else RememberAll(FRESH, calls, gx, gy) == FRESH
  {
    hide GridWeight, Clip, Residual.Fits, Empty, LimitsFit;
    if calls != [] {
      var c, before := calls[|calls| - 1], calls[..|calls| - 1];
      MemoHoldsThroughout(before, gx, gy);
      if !Empty(c.Limits()) { ClipFits(c.f, c.m1, c.m2, gx, gy, c.idx, c.idy); }
      assert Moved(calls) <==> Moved(before) || (!Empty(c.Limits()) && c.Limits() != CORNER) by {
        if i :| 0 <= i < |before| && !Empty(before[i].Limits()) && before[i].Limits() != CORNER {
          assert calls[i] == before[i];
        }
      }
    }
  }

  /** Over any session of calls with the same weights, from the start of the program, a call gives
      the uncached residual exactly when its window is not clipped to the corner pixel, or an earlier
      call had other limits, or the weight of that pixel is zero and there is no residual at all. */
  lemma {:induction false} SessionIsTransparentExactly(calls: seq<Call>, gx: seq<real>, gy: seq<real>, c: Call)
    requires forall i :: 0 <= i < |calls| ==> Callable(calls[i], gx, gy)
    requires Callable(c, gx, gy)
    ensures var memo := RememberAll(FRESH, calls, gx, gy);
            ResidGiven(memo.limits, memo.gsum, c.f, c.m1, c.m2, gx, gy, c.idx, c.idy, c.bias, c.cap)
              == Residual.Resid(c.f, c.m1, c.m2, gx, gy, c.idx, c.idy, c.bias, c.cap)
            <==> || c.Limits() != CORNER || Moved(calls)
                 || (LimitsFit(CORNER, gx, gy) && GridWeight(CORNER, gx, gy, 1) == 0.0)
  {
    hide GridWeight, GridSum, RememberAll, Clip, Residual.Fits, Moved;
    MemoHoldsThroughout(calls, gx, gy);
    if !Empty(c.Limits()) { ClipFits(c.f, c.m1, c.m2, gx, gy, c.idx, c.idy); }
  }

  /** A cache that has seen no window yet is taken for one that has seen the corner pixel: the first
      residual of a window of that one pixel divides by zero. */
  lemma FreshCacheMissesTheCorner(f: Window, m1: seq<real>, m2: seq<real>, gx: seq<real>, gy: seq<real>, bias: real, cap: real)
    requires Residual.Fits(f, m1, m2, gx, gy) && f.nxa == f.nxb == f.nya == f.nyb == 0
    ensures ResidGiven(Limits(0, 0, 0, 0), 0.0, f, m1, m2, gx, gy, 0, 0, bias, cap) == NotFinite
  {
  }
}
