/**
 Bilinear resampling: stretch (src/dlm/libgrid.cpp:506-621) moves every pixel by a displacement
 that is interpolated from a coarse grid, and congrid (src/dlm/mathlib.hpp:156-182) changes the
 size of an image.
 */
module Resample {
  // ---------------------------------------------------------------- images

  function Trunc(x: real): int {
    if x >= 0.0 then x.Floor else -((-x).Floor)
  }

  function MinInt(a: int, b: int): int { if b < a then b else a }
  function MaxInt(a: int, b: int): int { if a < b then b else a }
  function MinReal(a: real, b: real): real { if b < a then b else a }
  function MaxReal(a: real, b: real): real { if a < b then b else a }

  /** Row-major data with `nx` columns and `ny` rows. */
  predicate IsImage(im: seq<real>, ny: int, nx: int) {
    nx >= 1 && ny >= 1 && |im| == ny * nx
  }

  lemma InBounds(j: int, i: int, ny: int, nx: int)
    requires 0 <= j < ny && 0 <= i < nx
    ensures 0 <= j * nx + i < ny * nx
  {
    assert (j + 1) * nx <= ny * nx;
    assert j * nx >= 0;
  }

  lemma RowAndColumn(j: int, i: int, nx: int)
    requires 0 <= i < nx
    ensures (j * nx + i) / nx == j && (j * nx + i) % nx == i
  {
    var k := j * nx + i;
    QuotientIsUnique(k / nx, k % nx, j, i, nx);
  }

  lemma QuotientIsUnique(q: int, r: int, j: int, i: int, nx: int)
    requires 0 <= i < nx && 0 <= r < nx && q * nx + r == j * nx + i
    ensures q == j && r == i
  {
    RowOrder(q + 1, j, nx);
    RowOrder(j + 1, q, nx);
    assert (q + 1) * nx == q * nx + nx && (j + 1) * nx == j * nx + nx;
  }

  lemma RowOrder(a: int, b: int, n: int)
    requires n >= 0
    ensures a <= b ==> a * n <= b * n
  {
  }

  function Px(im: seq<real>, ny: int, nx: int, j: int, i: int): real
    requires IsImage(im, ny, nx) && 0 <= j < ny && 0 <= i < nx
  {
    InBounds(j, i, ny, nx);
    im[j * nx + i]
  }

  ghost predicate InRange(im: seq<real>, lo: real, hi: real) {
    forall k :: 0 <= k < |im| ==> lo <= im[k] <= hi
  }

  // ---------------------------------------------------------------- one cell

  function Blend(p: real, q: real, r: real, s: real, dx: real, dy: real): real {
    p * ((1.0 - dx) * (1.0 - dy)) + q * (dx * (1.0 - dy)) + r * ((1.0 - dx) * dy) + s * (dx * dy)
  }

  function Mix(p: real, q: real, d: real): real { p * (1.0 - d) + q * d }

  lemma BlendIsMixed(p: real, q: real, r: real, s: real, dx: real, dy: real)
    ensures Blend(p, q, r, s, dx, dy) == Mix(Mix(p, q, dx), Mix(r, s, dx), dy)
  {
  }

  lemma MixRange(p: real, q: real, d: real, lo: real, hi: real)
    requires 0.0 <= d <= 1.0 && lo <= p <= hi && lo <= q <= hi
    ensures lo <= Mix(p, q, d) <= hi
  {
    WeighedSum(1.0 - d, d, lo, p, lo, q);
    WeighedSum(1.0 - d, d, p, hi, q, hi);
    assert Mix(lo, lo, d) == lo && Mix(hi, hi, d) == hi;
  }

  lemma WeighedSum(e: real, d: real, p: real, p': real, q: real, q': real)
    requires e >= 0.0 && d >= 0.0 && p <= p' && q <= q'
    ensures p * e + q * d <= p' * e + q' * d
  {
  }

  lemma BlendRange(p: real, q: real, r: real, s: real, dx: real, dy: real, lo: real, hi: real)
    requires 0.0 <= dx <= 1.0 && 0.0 <= dy <= 1.0
    requires lo <= p <= hi && lo <= q <= hi && lo <= r <= hi && lo <= s <= hi
    ensures lo <= Blend(p, q, r, s, dx, dy) <= hi
  {
    hide Blend, Mix;
    BlendIsMixed(p, q, r, s, dx, dy);
    MixRange(p, q, dx, lo, hi);
    MixRange(r, s, dx, lo, hi);
    MixRange(Mix(p, q, dx), Mix(r, s, dx), dy, lo, hi);
  }

  // ---------------------------------------------------------------- interpolation in an image

  /** The cell of a coordinate in a row of `n` pixels: the last one also holds the far edge. */
  function Cell(x: real, n: int): (c: int)
    requires n >= 2
    ensures 0 <= c <= n - 2
  {
    MinInt(MaxInt(Trunc(x), 0), n - 2)
  }

  lemma CellHolds(x: real, n: int)
    requires n >= 2 && 0.0 <= x <= (n - 1) as real
    ensures 0.0 <= x - Cell(x, n) as real <= 1.0
  {
  }

  function Interp(im: seq<real>, ny: int, nx: int, y: real, x: real): real
    requires IsImage(im, ny, nx) && nx >= 2 && ny >= 2
  {
    var j, i := Cell(y, ny), Cell(x, nx);
    Blend(Px(im, ny, nx, j, i), Px(im, ny, nx, j, i + 1), Px(im, ny, nx, j + 1, i), Px(im, ny, nx, j + 1, i + 1),
          x - i as real, y - j as real)
  }

  ghost predicate Inside(ny: int, nx: int, y: real, x: real) {
    0.0 <= y <= (ny - 1) as real && 0.0 <= x <= (nx - 1) as real
  }

  lemma PxWithin(im: seq<real>, ny: int, nx: int, j: int, i: int, lo: real, hi: real)
    requires IsImage(im, ny, nx) && 0 <= j < ny && 0 <= i < nx && InRange(im, lo, hi)
    ensures lo <= Px(im, ny, nx, j, i) <= hi
  {
    InBounds(j, i, ny, nx);
  }

  lemma InterpRange(im: seq<real>, ny: int, nx: int, y: real, x: real, lo: real, hi: real)
    requires IsImage(im, ny, nx) && nx >= 2 && ny >= 2 && Inside(ny, nx, y, x) && InRange(im, lo, hi)
    ensures lo <= Interp(im, ny, nx, y, x) <= hi
  {
    hide Px, Blend, Cell, IsImage, InRange;
    CellHolds(y, ny);
    CellHolds(x, nx);
    var j, i := Cell(y, ny), Cell(x, nx);
    PxWithin(im, ny, nx, j, i, lo, hi);
    PxWithin(im, ny, nx, j, i + 1, lo, hi);
    PxWithin(im, ny, nx, j + 1, i, lo, hi);
    PxWithin(im, ny, nx, j + 1, i + 1, lo, hi);
    BlendRange(Px(im, ny, nx, j, i), Px(im, ny, nx, j, i + 1), Px(im, ny, nx, j + 1, i), Px(im, ny, nx, j + 1, i + 1),
               x - i as real, y - j as real, lo, hi);
  }

  lemma BlendAtCorner(p: real, q: real, r: real, s: real, dx: real, dy: real)
    requires (dx == 0.0 || dx == 1.0) && (dy == 0.0 || dy == 1.0)
    ensures Blend(p, q, r, s, dx, dy)
         == if dy == 0.0 then (if dx == 0.0 then p else q) else (if dx == 0.0 then r else s)
  {
  }

  lemma CellOfPixel(i: int, n: int)
    requires n >= 2 && 0 <= i < n
    ensures Cell(i as real, n) == if i == n - 1 then i - 1 else i
  {
  }

  /** At a pixel the interpolation is the pixel. */
  lemma InterpAtPixel(im: seq<real>, ny: int, nx: int, j: int, i: int)
    requires IsImage(im, ny, nx) && nx >= 2 && ny >= 2 && 0 <= j < ny && 0 <= i < nx
    ensures Interp(im, ny, nx, j as real, i as real) == Px(im, ny, nx, j, i)
  {
    hide Px, Blend, Cell, IsImage;
    CellOfPixel(j, ny);
    CellOfPixel(i, nx);
    var j0, i0 := Cell(j as real, ny), Cell(i as real, nx);
    BlendAtCorner(Px(im, ny, nx, j0, i0), Px(im, ny, nx, j0, i0 + 1), Px(im, ny, nx, j0 + 1, i0),
                  Px(im, ny, nx, j0 + 1, i0 + 1), i as real - i0 as real, j as real - j0 as real);
  }

  /** A surface that is linear in each coordinate. */
  function Surface(a: real, b: real, c: real, d: real, y: real, x: real): real {
    (a + b * x) + (c + d * x) * y
  }

  ghost predicate IsSurface(im: seq<real>, ny: int, nx: int, a: real, b: real, c: real, d: real)
    requires IsImage(im, ny, nx)
  {
    forall j, i :: 0 <= j < ny && 0 <= i < nx ==> Px(im, ny, nx, j, i) == Surface(a, b, c, d, j as real, i as real)
  }

  lemma BlendOfSurface(a: real, b: real, c: real, d: real, y0: real, y1: real, x0: real, x1: real, y: real, x: real)
    requires x1 == x0 + 1.0 && y1 == y0 + 1.0
    ensures Blend(Surface(a, b, c, d, y0, x0), Surface(a, b, c, d, y0, x1),
                  Surface(a, b, c, d, y1, x0), Surface(a, b, c, d, y1, x1), x - x0, y - y0)
         == Surface(a, b, c, d, y, x)
  {
  }

  /** Interpolation meets every surface that is linear in each coordinate, anywhere. */
  lemma SurfacesAreReproduced(im: seq<real>, ny: int, nx: int, a: real, b: real, c: real, d: real, y: real, x: real)
    requires IsImage(im, ny, nx) && nx >= 2 && ny >= 2 && IsSurface(im, ny, nx, a, b, c, d)
    ensures Interp(im, ny, nx, y, x) == Surface(a, b, c, d, y, x)
  {
    hide Px, Blend, Cell, Surface, IsImage;
    var j, i := Cell(y, ny), Cell(x, nx);
    BlendOfSurface(a, b, c, d, j as real, (j + 1) as real, i as real, (i + 1) as real, y, x);
  }

  // ---------------------------------------------------------------- the displacement grid

  /** A grid of pairs: horizontal and vertical displacement. */
  predicate IsGrid(gr: seq<real>, npy: int, npx: int) {
    npy >= 1 && npx >= 1 && |gr| == npy * (2 * npx)
  }

  function Node(gr: seq<real>, npy: int, npx: int, j: int, i: int, c: int): real
    requires IsGrid(gr, npy, npx) && 0 <= j < npy && 0 <= i < npx && 0 <= c < 2
  {
    InBounds(j, 2 * i + c, npy, 2 * npx);
    gr[j * (2 * npx) + (2 * i + c)]
  }

  /** The place of pixel `i` on an axis of `n` pixels and `ng` nodes. */
  function Spacing(n: int, ng: int): real
    requires ng >= 1
  {
    n as real / ng as real
  }

  function Start(n: int, ng: int): real
    requires n >= 1 && ng >= 1
  {
    SpacingPositive(n, ng);
    var d := Spacing(n, ng);
    1.0 / d + (d - 1.0) / (2.0 * d)
  }

  function Place(n: int, ng: int, i: int): real
    requires n >= 1 && ng >= 1
  {
    SpacingPositive(n, ng);
    Start(n, ng) + i as real * (1.0 / Spacing(n, ng))
  }

  lemma SpacingPositive(n: int, ng: int)
    requires n >= 1 && ng >= 1
    ensures Spacing(n, ng) > 0.0
  {
  }

  /** The centre of pixel `i`, in grid cells, plus one half. */
  lemma PlaceOf(n: int, ng: int, i: int)
    requires n >= 1 && ng >= 1
    ensures Spacing(n, ng) > 0.0
    ensures Place(n, ng, i) == 0.5 + (i as real + 0.5) * (1.0 / Spacing(n, ng))
    ensures i >= 0 ==> Place(n, ng, i) > 0.5
  {
  }

  /** The two nodes around a place; beyond the first and the last node both are that node. */
  function Low(y: real, ng: int): (j: int)
    requires ng >= 1
    ensures 0 <= j < ng
  {
    var t := Trunc(y);
    if t < 1 then 0 else if t >= ng then ng - 1 else t - 1
  }

  function High(y: real, ng: int): (j: int)
    requires ng >= 1
    ensures 0 <= j < ng
  {
    var t := Trunc(y);
    if t < 1 then 0 else if t >= ng then ng - 1 else t
  }

  function Frac(y: real): real { y - Trunc(y) as real }

  function NodeBlend(gr: seq<real>, npy: int, npx: int, y: real, x: real, c: int): real
    requires IsGrid(gr, npy, npx) && 0 <= c < 2
  {
    var j1, j2, i1, i2 := Low(y, npy), High(y, npy), Low(x, npx), High(x, npx);
    Blend(Node(gr, npy, npx, j1, i1, c), Node(gr, npy, npx, j1, i2, c), Node(gr, npy, npx, j2, i1, c),
          Node(gr, npy, npx, j2, i2, c), Frac(x), Frac(y))
  }

  function Displacement(ny: int, nx: int, npy: int, npx: int, gr: seq<real>, iy: int, ix: int, c: int): real
    requires IsGrid(gr, npy, npx) && ny >= 1 && nx >= 1 && 0 <= c < 2
  {
    NodeBlend(gr, npy, npx, Place(ny, npy, iy), Place(nx, npx, ix), c)
  }

  ghost predicate NodesWithin(gr: seq<real>, npy: int, npx: int, c: int, lo: real, hi: real)
    requires IsGrid(gr, npy, npx) && 0 <= c < 2
  {
    forall j, i :: 0 <= j < npy && 0 <= i < npx ==> lo <= Node(gr, npy, npx, j, i, c) <= hi
  }

  /** A displacement lies between those of the nodes. */
  lemma DisplacementRange(ny: int, nx: int, npy: int, npx: int, gr: seq<real>, iy: int, ix: int, c: int, lo: real, hi: real)
    requires IsGrid(gr, npy, npx) && ny >= 1 && nx >= 1 && 0 <= c < 2 && iy >= 0 && ix >= 0
    requires NodesWithin(gr, npy, npx, c, lo, hi)
    ensures lo <= Displacement(ny, nx, npy, npx, gr, iy, ix, c) <= hi
  {
    hide Node, Place, Blend, Low, High;
    PlaceOf(ny, npy, iy);
    PlaceOf(nx, npx, ix);
    var y, x := Place(ny, npy, iy), Place(nx, npx, ix);
    var j1, j2, i1, i2 := Low(y, npy), High(y, npy), Low(x, npx), High(x, npx);
    BlendRange(Node(gr, npy, npx, j1, i1, c), Node(gr, npy, npx, j1, i2, c), Node(gr, npy, npx, j2, i1, c),
               Node(gr, npy, npx, j2, i2, c), Frac(x), Frac(y), lo, hi);
  }

  /** A pixel at the centre of a grid cell is displaced as the node says. */
  lemma NodesAreMet(ny: int, nx: int, npy: int, npx: int, gr: seq<real>, iy: int, ix: int, j: int, i: int, c: int)
    requires IsGrid(gr, npy, npx) && ny >= 1 && nx >= 1 && 0 <= c < 2
    requires 0 <= j < npy && 0 <= i < npx
    requires iy as real + 0.5 == (j as real + 0.5) * Spacing(ny, npy)
    requires ix as real + 0.5 == (i as real + 0.5) * Spacing(nx, npx)
    ensures Displacement(ny, nx, npy, npx, gr, iy, ix, c) == Node(gr, npy, npx, j, i, c)
  {
    hide Node, Place, Blend, IsGrid, Spacing;
    PlaceOfNode(ny, npy, iy, j);
    PlaceOfNode(nx, npx, ix, i);
    var y, x := Place(ny, npy, iy), Place(nx, npx, ix);
    var j2, i2 := High(y, npy), High(x, npx);
    BlendAtCorner(Node(gr, npy, npx, j, i, c), Node(gr, npy, npx, j, i2, c), Node(gr, npy, npx, j2, i, c),
                  Node(gr, npy, npx, j2, i2, c), Frac(x), Frac(y));
  }

  lemma PlaceOfNode(n: int, ng: int, i: int, k: int)
    requires n >= 1 && ng >= 1 && 0 <= k < ng
    requires i as real + 0.5 == (k as real + 0.5) * Spacing(n, ng)
    ensures Place(n, ng, i) == (k + 1) as real
  {
  }

  // ---------------------------------------------------------------- stretch

  function Clamp(x: real, n: int): real {
    MaxReal(MinReal((n - 1) as real, x), 0.0)
  }

  function StretchAt(im: seq<real>, ny: int, nx: int, gr: seq<real>, npy: int, npx: int, iy: int, ix: int): real
    requires IsImage(im, ny, nx) && nx >= 2 && ny >= 2 && IsGrid(gr, npy, npx)
  {
    Interp(im, ny, nx,
           Clamp(Displacement(ny, nx, npy, npx, gr, iy, ix, 1) + iy as real, ny),
           Clamp(Displacement(ny, nx, npy, npx, gr, iy, ix, 0) + ix as real, nx))
  }

  /** Any displacements leave the values within the range of the image. */
  lemma StretchRange(im: seq<real>, ny: int, nx: int, gr: seq<real>, npy: int, npx: int, iy: int, ix: int, lo: real, hi: real)
    requires IsImage(im, ny, nx) && nx >= 2 && ny >= 2 && IsGrid(gr, npy, npx) && InRange(im, lo, hi)
    ensures lo <= StretchAt(im, ny, nx, gr, npy, npx, iy, ix) <= hi
  {
    hide Interp, Displacement, IsImage, IsGrid, InRange;
    InterpRange(im, ny, nx,
                Clamp(Displacement(ny, nx, npy, npx, gr, iy, ix, 1) + iy as real, ny),
                Clamp(Displacement(ny, nx, npy, npx, gr, iy, ix, 0) + ix as real, nx), lo, hi);
  }

  function ClampInt(i: int, n: int): int { MaxInt(MinInt(n - 1, i), 0) }

  /** Moving all nodes by the same whole number of pixels shifts the image, with its edges
      repeated; moving none leaves it as it is. */
  lemma UniformShift(im: seq<real>, ny: int, nx: int, gr: seq<real>, npy: int, npx: int, iy: int, ix: int, sy: int, sx: int)
    requires IsImage(im, ny, nx) && nx >= 2 && ny >= 2 && IsGrid(gr, npy, npx)
    requires 0 <= iy < ny && 0 <= ix < nx
    requires NodesWithin(gr, npy, npx, 0, sx as real, sx as real) && NodesWithin(gr, npy, npx, 1, sy as real, sy as real)
    ensures StretchAt(im, ny, nx, gr, npy, npx, iy, ix) == Px(im, ny, nx, ClampInt(iy + sy, ny), ClampInt(ix + sx, nx))
  {
    hide Interp, Displacement, IsImage, IsGrid, NodesWithin, Px;
    DisplacementRange(ny, nx, npy, npx, gr, iy, ix, 0, sx as real, sx as real);
    DisplacementRange(ny, nx, npy, npx, gr, iy, ix, 1, sy as real, sy as real);
    var y, x := ClampInt(iy + sy, ny), ClampInt(ix + sx, nx);
    InterpAtPixel(im, ny, nx, y, x);
    assert Clamp(sy as real + iy as real, ny) == y as real;
    assert Clamp(sx as real + ix as real, nx) == x as real;
  }

  // ---------------------------------------------------------------- congrid

  function Scale(n: int, n1: int): real
    requires n1 >= 2
  {
    (n - 1) as real / (n1 - 1) as real
  }

  function Target(n: int, n1: int, i: int): real
    requires n1 >= 2
  {
    MinReal(i as real * Scale(n, n1), (n - 1) as real)
  }

  function CongridAt(im: seq<real>, ny: int, nx: int, ny1: int, nx1: int, jj: int, ii: int): real
    requires IsImage(im, ny, nx) && nx >= 2 && ny >= 2 && ny1 >= 2 && nx1 >= 2
  {
    Interp(im, ny, nx, Target(ny, ny1, jj), Target(nx, nx1, ii))
  }

  lemma TargetInside(n: int, n1: int, i: int)
    requires n >= 2 && n1 >= 2 && i >= 0
    ensures 0.0 <= Target(n, n1, i) <= (n - 1) as real
  {
  }

  lemma CongridRange(im: seq<real>, ny: int, nx: int, ny1: int, nx1: int, jj: int, ii: int, lo: real, hi: real)
    requires IsImage(im, ny, nx) && nx >= 2 && ny >= 2 && ny1 >= 2 && nx1 >= 2 && jj >= 0 && ii >= 0 && InRange(im, lo, hi)
    ensures lo <= CongridAt(im, ny, nx, ny1, nx1, jj, ii) <= hi
  {
    hide Interp, Target, IsImage, InRange;
    TargetInside(ny, ny1, jj);
    TargetInside(nx, nx1, ii);
    InterpRange(im, ny, nx, Target(ny, ny1, jj), Target(nx, nx1, ii), lo, hi);
  }

  /** The pixel that lands exactly on another one. */
  lemma TargetOnPixel(n: int, n1: int, i: int, k: int)
    requires n >= 2 && n1 >= 2 && 0 <= k < n && i * (n - 1) == k * (n1 - 1)
    ensures Target(n, n1, i) == k as real
  {
  }

  /** Where the two rasters meet, the new image has the old pixel. That holds for the corners,
      and for every pixel when the size does not change. */
  lemma CongridMeets(im: seq<real>, ny: int, nx: int, ny1: int, nx1: int, jj: int, ii: int, j: int, i: int)
    requires IsImage(im, ny, nx) && nx >= 2 && ny >= 2 && ny1 >= 2 && nx1 >= 2
    requires 0 <= j < ny && 0 <= i < nx
    requires jj * (ny - 1) == j * (ny1 - 1) && ii * (nx - 1) == i * (nx1 - 1)
    ensures CongridAt(im, ny, nx, ny1, nx1, jj, ii) == Px(im, ny, nx, j, i)
  {
    hide Interp, Target, Px;
    TargetOnPixel(ny, ny1, jj, j);
    TargetOnPixel(nx, nx1, ii, i);
    InterpAtPixel(im, ny, nx, j, i);
  }

  ghost function Congridded(im: seq<real>, ny: int, nx: int, ny1: int, nx1: int): (r: seq<real>)
    requires IsImage(im, ny, nx) && nx >= 2 && ny >= 2 && ny1 >= 2 && nx1 >= 2
    ensures IsImage(r, ny1, nx1)
  {
    assert ny1 * nx1 >= 0;
    seq(ny1 * nx1, k requires 0 <= k < ny1 * nx1 => CongridAt(im, ny, nx, ny1, nx1, k / nx1, k % nx1))
  }

  lemma CongriddedPixel(im: seq<real>, ny: int, nx: int, ny1: int, nx1: int, jj: int, ii: int)
    requires IsImage(im, ny, nx) && nx >= 2 && ny >= 2 && ny1 >= 2 && nx1 >= 2
    requires 0 <= jj < ny1 && 0 <= ii < nx1
    ensures Px(Congridded(im, ny, nx, ny1, nx1), ny1, nx1, jj, ii) == CongridAt(im, ny, nx, ny1, nx1, jj, ii)
  {
    hide CongridAt;
    InBounds(jj, ii, ny1, nx1);
    RowAndColumn(jj, ii, nx1);
  }

  lemma SamePixels(s: seq<real>, t: seq<real>, ny: int, nx: int)
    requires IsImage(s, ny, nx) && IsImage(t, ny, nx)
    requires forall j, i :: 0 <= j < ny && 0 <= i < nx ==> Px(s, ny, nx, j, i) == Px(t, ny, nx, j, i)
    ensures s == t
  {
    forall k | 0 <= k < |s| ensures s[k] == t[k] {
      var j, i := k / nx, k % nx;
      RowOf(k, ny, nx);
      assert Px(s, ny, nx, j, i) == Px(t, ny, nx, j, i);
    }
  }

  lemma RowOf(k: int, ny: int, nx: int)
    requires nx >= 1 && 0 <= k < ny * nx
    ensures 0 <= k / nx < ny && 0 <= k % nx < nx && k == k / nx * nx + k % nx
  {
  }

  /** The size stays: nothing changes. */
  lemma CongridSameSize(im: seq<real>, ny: int, nx: int)
    requires IsImage(im, ny, nx) && nx >= 2 && ny >= 2
    ensures Congridded(im, ny, nx, ny, nx) == im
  {
    hide Congridded, Px, CongridAt;
    var r := Congridded(im, ny, nx, ny, nx);
    forall j, i | 0 <= j < ny && 0 <= i < nx ensures Px(r, ny, nx, j, i) == Px(im, ny, nx, j, i) {
      CongriddedPixel(im, ny, nx, ny, nx, j, i);
      CongridMeets(im, ny, nx, ny, nx, j, i, j, i);
    }
    SamePixels(r, im, ny, nx);
  }

  /** Dividing every step into `ky` by `kx` smaller ones, and going back, restores the image. */
  lemma RefineThenReduce(im: seq<real>, ny: int, nx: int, ky: int, kx: int)
    requires IsImage(im, ny, nx) && nx >= 2 && ny >= 2 && ky >= 1 && kx >= 1
    ensures var ny1, nx1 := ky * (ny - 1) + 1, kx * (nx - 1) + 1;
            ny1 >= 2 && nx1 >= 2
            && Congridded(Congridded(im, ny, nx, ny1, nx1), ny1, nx1, ny, nx) == im
  {
    hide Congridded, Px, CongridAt;
    var ny1, nx1 := ky * (ny - 1) + 1, kx * (nx - 1) + 1;
    RefinedSize(ny, ky);
    RefinedSize(nx, kx);
    var fine := Congridded(im, ny, nx, ny1, nx1);
    var r := Congridded(fine, ny1, nx1, ny, nx);
    forall j, i | 0 <= j < ny && 0 <= i < nx ensures Px(r, ny, nx, j, i) == Px(im, ny, nx, j, i) {
      RefinedPlace(ny, ky, j);
      RefinedPlace(nx, kx, i);
      CongriddedPixel(fine, ny1, nx1, ny, nx, j, i);
      CongridMeets(fine, ny1, nx1, ny, nx, j, i, ky * j, kx * i);
      CongriddedPixel(im, ny, nx, ny1, nx1, ky * j, kx * i);
      CongridMeets(im, ny, nx, ny1, nx1, ky * j, kx * i, j, i);
    }
    SamePixels(r, im, ny, nx);
  }

  lemma RefinedSize(n: int, k: int)
    requires n >= 2 && k >= 1
    ensures k * (n - 1) + 1 >= 2
  {
  }

  lemma RefinedPlace(n: int, k: int, i: int)
    requires n >= 2 && k >= 1 && 0 <= i < n
    ensures 0 <= k * i < k * (n - 1) + 1
    ensures (k * i) * (n - 1) == i * (k * (n - 1))
  {
  }

  ghost function Stretched(im: seq<real>, ny: int, nx: int, gr: seq<real>, npy: int, npx: int): (r: seq<real>)
    requires IsImage(im, ny, nx) && nx >= 2 && ny >= 2 && IsGrid(gr, npy, npx)
    ensures IsImage(r, ny, nx)
  {
    seq(ny * nx, k requires 0 <= k < ny * nx => StretchAt(im, ny, nx, gr, npy, npx, k / nx, k % nx))
  }

  lemma StretchedPixel(im: seq<real>, ny: int, nx: int, gr: seq<real>, npy: int, npx: int, iy: int, ix: int)
    requires IsImage(im, ny, nx) && nx >= 2 && ny >= 2 && IsGrid(gr, npy, npx)
    requires 0 <= iy < ny && 0 <= ix < nx
    ensures Px(Stretched(im, ny, nx, gr, npy, npx), ny, nx, iy, ix) == StretchAt(im, ny, nx, gr, npy, npx, iy, ix)
  {
    hide StretchAt;
    InBounds(iy, ix, ny, nx);
    RowAndColumn(iy, ix, nx);
  }

  /** With a grid of zeros stretch returns the image. */
  lemma NoDisplacement(im: seq<real>, ny: int, nx: int, gr: seq<real>, npy: int, npx: int)
    requires IsImage(im, ny, nx) && nx >= 2 && ny >= 2 && IsGrid(gr, npy, npx)
    requires NodesWithin(gr, npy, npx, 0, 0.0, 0.0) && NodesWithin(gr, npy, npx, 1, 0.0, 0.0)
    ensures Stretched(im, ny, nx, gr, npy, npx) == im
  {
    hide Stretched, StretchAt, Px, NodesWithin;
    var r := Stretched(im, ny, nx, gr, npy, npx);
    forall j, i | 0 <= j < ny && 0 <= i < nx ensures Px(r, ny, nx, j, i) == Px(im, ny, nx, j, i) {
      StretchedPixel(im, ny, nx, gr, npy, npx, j, i);
      UniformShift(im, ny, nx, gr, npy, npx, j, i, 0, 0);
    }
    SamePixels(r, im, ny, nx);
  }

  // ---------------------------------------------------------------- the loops

  lemma CellReads(ny: int, nx: int, j: int, i: int)
    requires 0 <= j <= ny - 2 && 0 <= i <= nx - 2
    ensures 0 <= j * nx + i && j * nx + i + 1 < ny * nx && 0 <= (j + 1) * nx + i && (j + 1) * nx + i + 1 < ny * nx
  {
    InBounds(j, i, ny, nx);
    InBounds(j, i + 1, ny, nx);
    InBounds(j + 1, i, ny, nx);
    InBounds(j + 1, i + 1, ny, nx);
  }

  lemma CellPixels(im: seq<real>, ny: int, nx: int, j: int, i: int)
    requires IsImage(im, ny, nx) && 0 <= j <= ny - 2 && 0 <= i <= nx - 2
    ensures 0 <= j * nx + i && j * nx + i + 1 < |im| && 0 <= (j + 1) * nx + i && (j + 1) * nx + i + 1 < |im|
    ensures im[j * nx + i] == Px(im, ny, nx, j, i) && im[j * nx + i + 1] == Px(im, ny, nx, j, i + 1)
    ensures im[(j + 1) * nx + i] == Px(im, ny, nx, j + 1, i) && im[(j + 1) * nx + i + 1] == Px(im, ny, nx, j + 1, i + 1)
  {
    CellReads(ny, nx, j, i);
  }

  lemma BlendProducts(p: real, q: real, r: real, s: real, dx: real, dy: real)
    ensures p * (1.0 - dx) * (1.0 - dy) + q * dx * (1.0 - dy) + r * (1.0 - dx) * dy + s * dx * dy == Blend(p, q, r, s, dx, dy)
  {
  }

  /** One pixel of congrid. */
  method CongridPixel(im: array<real>, ny: int, nx: int, iy: int, ix: int, dy: real, dx: real) returns (v: real)
    requires IsImage(im[..], ny, nx) && 0 <= iy <= ny - 2 && 0 <= ix <= nx - 2
    ensures v == Blend(Px(im[..], ny, nx, iy, ix), Px(im[..], ny, nx, iy, ix + 1), Px(im[..], ny, nx, iy + 1, ix),
                       Px(im[..], ny, nx, iy + 1, ix + 1), dx, dy)
  {
    hide Px, Blend;
    CellPixels(im[..], ny, nx, iy, ix);
    var dx1, dy1 := 1.0 - dx, 1.0 - dy;
    var p, q, r, s := im[iy * nx + ix], im[iy * nx + ix + 1], im[(iy + 1) * nx + ix], im[(iy + 1) * nx + ix + 1];
    v := p * dx1 * dy1 + q * dx * dy1 + r * dx1 * dy + s * dx * dy;
    BlendProducts(p, q, r, s, dx, dy);
  }

  /** One row of congrid. */
  method CongridRow(im: array<real>, ny: int, nx: int, ny1: int, nx1: int, sclx: real, scly: real, jj: int,
                    base: int, res: array<real>, ghost want: seq<real>)
    requires IsImage(im[..], ny, nx) && nx >= 2 && ny >= 2 && ny1 >= 2 && nx1 >= 2 && 0 <= jj < ny1
    requires sclx == Scale(nx, nx1) && scly == Scale(ny, ny1) && base == jj * nx1 && im != res
    requires want == Congridded(im[..], ny, nx, ny1, nx1) && res.Length == |want|
    requires 0 <= base && base + nx1 <= |want| && forall k :: 0 <= k < base ==> res[k] == want[k]
    modifies res
    ensures forall k :: 0 <= k < base + nx1 ==> res[k] == want[k]
  {
    hide Congridded, Blend, Px, IsImage, Scale;
    ghost var s := im[..];
    var yl := MinReal(jj as real * scly, (ny - 1) as real);
    assert yl == Target(ny, ny1, jj);
    hide Target;
    TargetInside(ny, ny1, jj);
    var iy := MinInt(Trunc(yl), ny - 2);
    for ii := 0 to nx1
      invariant im[..] == s
      invariant forall k :: 0 <= k < base + ii ==> res[k] == want[k]
    {
      var xl := TargetOf(ii, sclx, nx, nx1);
      TargetInside(nx, nx1, ii);
      var ix := MinInt(Trunc(xl), nx - 2);
      var v := CongridPixel(im, ny, nx, iy, ix, yl - iy as real, xl - ix as real);
      CongriddedAt(s, ny, nx, ny1, nx1, jj, ii, base + ii);
      res[base + ii] := v;
    }
  }

  method TargetOf(i: int, scl: real, n: int, n1: int) returns (x: real)
    requires n1 >= 2 && scl == Scale(n, n1)
    ensures x == Target(n, n1, i)
  {
    x := MinReal(i as real * scl, (n - 1) as real);
  }

  lemma CongriddedAt(im: seq<real>, ny: int, nx: int, ny1: int, nx1: int, jj: int, ii: int, k: int)
    requires IsImage(im, ny, nx) && nx >= 2 && ny >= 2 && ny1 >= 2 && nx1 >= 2
    requires 0 <= jj < ny1 && 0 <= ii < nx1 && k == jj * nx1 + ii
    ensures 0 <= k < |Congridded(im, ny, nx, ny1, nx1)|
    ensures Congridded(im, ny, nx, ny1, nx1)[k] == CongridAt(im, ny, nx, ny1, nx1, jj, ii)
  {
    hide Congridded, CongridAt;
    InBounds(jj, ii, ny1, nx1);
    CongriddedPixel(im, ny, nx, ny1, nx1, jj, ii);
  }

  method Congrid(ny: int, nx: int, im: array<real>, ny1: int, nx1: int) returns (res: array<real>)
    requires IsImage(im[..], ny, nx) && nx >= 2 && ny >= 2 && ny1 >= 2 && nx1 >= 2
    ensures fresh(res) && res[..] == Congridded(im[..], ny, nx, ny1, nx1)
  {
    hide Congridded;
    ghost var s := im[..];
    ghost var want := Congridded(s, ny, nx, ny1, nx1);
    res := new real[ny1 * nx1](_ => 0.0);
    var sclx, scly := (nx - 1) as real / (nx1 - 1) as real, (ny - 1) as real / (ny1 - 1) as real;
    for jj := 0 to ny1
      invariant im[..] == s
      invariant forall k :: 0 <= k < jj * nx1 ==> k < res.Length && res[k] == want[k]
    {
      RowFits(jj, ny1, nx1);
      CongridRow(im, ny, nx, ny1, nx1, sclx, scly, jj, jj * nx1, res, want);
    }
  }

  lemma RowFits(j: int, ny: int, nx: int)
    requires 0 <= j < ny && nx >= 0
    ensures 0 <= j * nx && j * nx + nx <= ny * nx && (j + 1) * nx == j * nx + nx
  {
    RowOrder(j + 1, ny, nx);
    RowOrder(0, j, nx);
  }

  /** The displacement between four nodes. */
  method GridValue(gr: array<real>, npy: int, npx: int, j1: int, j2: int, i1: int, i2: int, c: int, dy: real, dx: real) returns (v: real)
    requires IsGrid(gr[..], npy, npx) && 0 <= j1 < npy && 0 <= j2 < npy && 0 <= i1 < npx && 0 <= i2 < npx && 0 <= c < 2
    ensures v == Blend(Node(gr[..], npy, npx, j1, i1, c), Node(gr[..], npy, npx, j1, i2, c),
                       Node(gr[..], npy, npx, j2, i1, c), Node(gr[..], npy, npx, j2, i2, c), dx, dy)
  {
    hide Node, Blend;
    var dx1, dy1 := 1.0 - dx, 1.0 - dy;
    var w1, w2, w3, w4 := dy1 * dx1, dy1 * dx, dy * dx1, dy * dx;
    var jbase, jpbase := j1 * 2 * npx, j2 * 2 * npx;
    var e1, e2 := 2 * i1 + c, 2 * i2 + c;
    NodeAt(gr[..], npy, npx, j1, i1, c);
    NodeAt(gr[..], npy, npx, j1, i2, c);
    NodeAt(gr[..], npy, npx, j2, i1, c);
    NodeAt(gr[..], npy, npx, j2, i2, c);
    var p, q, r, s := gr[jbase + e1], gr[jbase + e2], gr[jpbase + e1], gr[jpbase + e2];
    v := w1 * p + w2 * q + w3 * r + w4 * s;
    BlendWeights(p, q, r, s, dx, dy);
  }

  lemma NodeAt(gr: seq<real>, npy: int, npx: int, j: int, i: int, c: int)
    requires IsGrid(gr, npy, npx) && 0 <= j < npy && 0 <= i < npx && 0 <= c < 2
    ensures 0 <= j * 2 * npx + (2 * i + c) < |gr| && gr[j * 2 * npx + (2 * i + c)] == Node(gr, npy, npx, j, i, c)
  {
    InBounds(j, 2 * i + c, npy, 2 * npx);
    assert j * 2 * npx == j * (2 * npx);
  }

  lemma BlendWeights(p: real, q: real, r: real, s: real, dx: real, dy: real)
    ensures (1.0 - dy) * (1.0 - dx) * p + (1.0 - dy) * dx * q + dy * (1.0 - dx) * r + dy * dx * s == Blend(p, q, r, s, dx, dy)
  {
  }

  /** The image at a point. */
  method ImageValue(im: array<real>, ny: int, nx: int, yl: real, xl: real) returns (v: real)
    requires IsImage(im[..], ny, nx) && nx >= 2 && ny >= 2
    ensures v == Interp(im[..], ny, nx, yl, xl)
  {
    hide Px, Trunc;
    var i2 := MinInt(MaxInt(Trunc(xl), 0), nx - 2);
    var j2 := MinInt(MaxInt(Trunc(yl), 0), ny - 2);
    var dxp, dyp := xl - i2 as real, yl - j2 as real;
    var dxp1, dyp1 := 1.0 - dxp, 1.0 - dyp;
    CellPixels(im[..], ny, nx, j2, i2);
    var w1, w2, w3, w4 := im[j2 * nx + i2], im[j2 * nx + i2 + 1], im[(j2 + 1) * nx + i2], im[(j2 + 1) * nx + i2 + 1];
    v := w1 * (dxp1 * dyp1) + w2 * (dxp * dyp1) + w3 * (dxp1 * dyp) + w4 * (dxp * dyp);
  }

  /** The nodes around a place on one axis, and how far it is between them. */
  method Bracket(x: real, ng: int) returns (i1: int, i2: int, d: real)
    requires ng >= 1
    ensures i1 == Low(x, ng) && i2 == High(x, ng) && d == Frac(x)
  {
    var j := Trunc(x);
    d := x - j as real;
    if j < 1 {
      i1, i2 := 0, 0;
    } else if j >= ng {
      i1, i2 := ng - 1, ng - 1;
    } else {
      i1 := j - 1;
      i2 := i1 + 1;
    }
  }

  /** One row of stretch. */
  method StretchRow(im: array<real>, ny: int, nx: int, gr: array<real>, npy: int, npx: int, iy: int,
                    y: real, xs: real, xinc: real, base: int, res: array<real>, ghost want: seq<real>)
    requires IsImage(im[..], ny, nx) && nx >= 2 && ny >= 2 && IsGrid(gr[..], npy, npx) && 0 <= iy < ny
    requires y == Place(ny, npy, iy) && xs == Start(nx, npx) && base == iy * nx && im != res && gr != res
    requires Spacing(nx, npx) > 0.0 && xinc == 1.0 / Spacing(nx, npx)
    requires want == Stretched(im[..], ny, nx, gr[..], npy, npx) && res.Length == |want|
    requires 0 <= base && base + nx <= |want| && forall k :: 0 <= k < base ==> res[k] == want[k]
    modifies res
    ensures forall k :: 0 <= k < base + nx ==> res[k] == want[k]
  {
    hide Stretched, Interp, Blend, Node, Low, High, Frac, Clamp, IsImage, Place, Start, Spacing;
    ghost var s, g := im[..], gr[..];
    var x := xs;
    FirstPlace(nx, npx);
    var j1, j2, dy := Bracket(y, npy);
    for ix := 0 to nx
      invariant im[..] == s && gr[..] == g && x == Place(nx, npx, ix)
      invariant forall k :: 0 <= k < base + ix ==> res[k] == want[k]
    {
      var i1, i2, dx := Bracket(x, npx);
      var gx := GridValue(gr, npy, npx, j1, j2, i1, i2, 0, dy, dx);
      var xl := Clamp(gx + ix as real, nx);
      var gy := GridValue(gr, npy, npx, j1, j2, i1, i2, 1, dy, dx);
      var yl := Clamp(gy + iy as real, ny);
      var v := ImageValue(im, ny, nx, yl, xl);
      StretchedAt(s, ny, nx, g, npy, npx, iy, ix, base + ix);
      res[base + ix] := v;
      NextPlace(nx, npx, ix);
      x := x + xinc;
    }
  }

  lemma StretchedAt(im: seq<real>, ny: int, nx: int, gr: seq<real>, npy: int, npx: int, iy: int, ix: int, k: int)
    requires IsImage(im, ny, nx) && nx >= 2 && ny >= 2 && IsGrid(gr, npy, npx)
    requires 0 <= iy < ny && 0 <= ix < nx && k == iy * nx + ix
    ensures 0 <= k < |Stretched(im, ny, nx, gr, npy, npx)|
    ensures Stretched(im, ny, nx, gr, npy, npx)[k] == StretchAt(im, ny, nx, gr, npy, npx, iy, ix)
  {
    hide Stretched, StretchAt;
    InBounds(iy, ix, ny, nx);
    StretchedPixel(im, ny, nx, gr, npy, npx, iy, ix);
  }

  lemma FirstPlace(n: int, ng: int)
    requires n >= 1 && ng >= 1
    ensures Place(n, ng, 0) == Start(n, ng)
  {
  }

  lemma NextPlace(n: int, ng: int, i: int)
    requires n >= 1 && ng >= 1
    ensures Spacing(n, ng) > 0.0 && Place(n, ng, i + 1) == Place(n, ng, i) + 1.0 / Spacing(n, ng)
  {
  }

  method Stretch(ny: int, nx: int, im: array<real>, npy: int, npx: int, gr: array<real>) returns (res: array<real>)
    requires IsImage(im[..], ny, nx) && nx >= 2 && ny >= 2 && IsGrid(gr[..], npy, npx)
    ensures fresh(res) && res[..] == Stretched(im[..], ny, nx, gr[..], npy, npx)
  {
    hide Stretched;
    ghost var s, g := im[..], gr[..];
    ghost var want := Stretched(s, ny, nx, g, npy, npx);
    res := new real[ny * nx](_ => 0.0);
    SpacingPositive(nx, npx);
    SpacingPositive(ny, npy);
    var xd, yd := nx as real / npx as real, ny as real / npy as real;
    var xinc, yinc := 1.0 / xd, 1.0 / yd;
    var xs, y0 := xinc + (xd - 1.0) / (2.0 * xd), yinc + (yd - 1.0) / (2.0 * yd);
    for iy := 0 to ny
      invariant im[..] == s && gr[..] == g
      invariant forall k :: 0 <= k < iy * nx ==> k < res.Length && res[k] == want[k]
    {
      var y := y0 + iy as real * yinc;
      RowFits(iy, ny, nx);
      StretchRow(im, ny, nx, gr, npy, npx, iy, y, xs, xinc, iy * nx, res, want);
    }
  }
}
