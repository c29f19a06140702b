/**
 Resampling in coordinates (src/dlm/libgrid.cpp:506-621, src/dlm/mathlib.hpp:156-182): where the data
 are, which point of the grid displaces a pixel, and which point of the image gives its value. All of
 it is stated on surfaces that are linear in each coordinate, where interpolation is exact.
 */
module ResampleForms {
  import opened RealMath
  import opened Resample

  // ---------------------------------------------------------------- storage

  /** Images are stored row by row, and grids as pairs, the horizontal displacement first. */
  lemma StoredByRows(im: seq<real>, ny: int, nx: int, j: int, i: int)
    requires IsImage(im, ny, nx) && 0 <= j < ny && 0 <= i < nx
    ensures 0 <= j * nx + i < |im| && Px(im, ny, nx, j, i) == im[j * nx + i]
  {
    InBounds(j, i, ny, nx);
  }

  lemma StoredInPairs(gr: seq<real>, npy: int, npx: int, j: int, i: int)
    requires IsGrid(gr, npy, npx) && 0 <= j < npy && 0 <= i < npx
    ensures 0 <= 2 * (j * npx + i) && 2 * (j * npx + i) + 1 < |gr|
    ensures Node(gr, npy, npx, j, i, 0) == gr[2 * (j * npx + i)] && Node(gr, npy, npx, j, i, 1) == gr[2 * (j * npx + i) + 1]
  {
    InBounds(j, 2 * i, npy, 2 * npx);
    InBounds(j, 2 * i + 1, npy, 2 * npx);
    assert j * (2 * npx) == 2 * (j * npx);
  }

  // ---------------------------------------------------------------- the grid

  /** `e` is the place between `lo` and `hi` at fraction `f`, or the one of them if they are the same. */
  predicate Between(lo: real, hi: real, f: real, e: real) {
    (lo == hi && e == lo) || (hi == lo + 1.0 && e == lo + f)
  }

  lemma MixOfSame(v: real, f: real)
    ensures Mix(v, v, f) == v
  {
  }

  lemma MixOnLine(p: real, q: real, v: real, a: real, b: real, lo: real, hi: real, f: real, e: real)
    requires Between(lo, hi, f, e) && p == a + b * lo && q == a + b * hi && v == a + b * e
    ensures Mix(p, q, f) == v
  {
    hide Mix;
    if lo == hi {
      assert q == p && v == p;
      MixOfSame(p, f);
    } else {
      MixStep(p, b, f);
      assert q == p + b by { TimesOneMore(b, lo); }
      assert v == p + b * f by { TimesSum(b, lo, f); }
    }
  }

  lemma MixStep(p: real, b: real, f: real)
    ensures Mix(p, p + b, f) == p + b * f
  {
  }

  lemma TimesOneMore(b: real, x: real)
    ensures b * (x + 1.0) == b * x + b
  {
  }

  lemma TimesSum(b: real, x: real, f: real)
    ensures b * (x + f) == b * x + b * f
  {
  }

  lemma SurfaceByRow(a: real, b: real, c: real, d: real, y: real, x: real)
    ensures Surface(a, b, c, d, y, x) == (a + c * y) + (b + d * y) * x
  {
  }

  lemma SurfaceByColumn(a: real, b: real, c: real, d: real, y: real, x: real)
    ensures Surface(a, b, c, d, y, x) == (a + b * x) + (c + d * x) * y
  {
  }

  lemma BlendOnSurface(a: real, b: real, c: real, d: real, y0: real, y1: real, fy: real, ey: real,
                       x0: real, x1: real, fx: real, ex: real)
    requires Between(y0, y1, fy, ey) && Between(x0, x1, fx, ex)
    ensures Blend(Surface(a, b, c, d, y0, x0), Surface(a, b, c, d, y0, x1),
                  Surface(a, b, c, d, y1, x0), Surface(a, b, c, d, y1, x1), fx, fy) == Surface(a, b, c, d, ey, ex)
  {
    hide Blend, Mix, Surface, Between;
    BlendIsMixed(Surface(a, b, c, d, y0, x0), Surface(a, b, c, d, y0, x1),
                 Surface(a, b, c, d, y1, x0), Surface(a, b, c, d, y1, x1), fx, fy);
    RowMix(a, b, c, d, y0, x0, x1, fx, ex);
    RowMix(a, b, c, d, y1, x0, x1, fx, ex);
    ColumnMix(a, b, c, d, y0, y1, fy, ey, ex);
  }

  lemma RowMix(a: real, b: real, c: real, d: real, y: real, x0: real, x1: real, fx: real, ex: real)
    requires Between(x0, x1, fx, ex)
    ensures Mix(Surface(a, b, c, d, y, x0), Surface(a, b, c, d, y, x1), fx) == Surface(a, b, c, d, y, ex)
  {
    hide Mix, Surface, Between;
    SurfaceByRow(a, b, c, d, y, x0);
    SurfaceByRow(a, b, c, d, y, x1);
    SurfaceByRow(a, b, c, d, y, ex);
    MixOnLine(Surface(a, b, c, d, y, x0), Surface(a, b, c, d, y, x1), Surface(a, b, c, d, y, ex), a + c * y, b + d * y, x0, x1, fx, ex);
  }

  lemma ColumnMix(a: real, b: real, c: real, d: real, y0: real, y1: real, fy: real, ey: real, x: real)
    requires Between(y0, y1, fy, ey)
    ensures Mix(Surface(a, b, c, d, y0, x), Surface(a, b, c, d, y1, x), fy) == Surface(a, b, c, d, ey, x)
  {
    hide Mix, Surface, Between;
    SurfaceByColumn(a, b, c, d, y0, x);
    SurfaceByColumn(a, b, c, d, y1, x);
    SurfaceByColumn(a, b, c, d, ey, x);
    MixOnLine(Surface(a, b, c, d, y0, x), Surface(a, b, c, d, y1, x), Surface(a, b, c, d, ey, x), a + b * x, c + d * x, y0, y1, fy, ey);
  }

  /** A number moved into the range from 0 to `n` - 1. */
  function Limited(v: real, n: int): real {
    if v < 0.0 then 0.0 else if v > (n - 1) as real then (n - 1) as real else v
  }

  /** Where the centre of pixel `i` of `n` lies among `ng` nodes, the first of which is at 0. */
  function GridPlace(n: int, ng: int, i: int): real
    requires n >= 1
  {
    (i as real + 0.5) * (ng as real / n as real) - 0.5
  }

  lemma PlaceIsGridPlace(n: int, ng: int, i: int)
    requires n >= 1 && ng >= 1
    ensures Place(n, ng, i) == GridPlace(n, ng, i) + 1.0
  {
    hide Place;
    PlaceOf(n, ng, i);
    InverseQuotient(n as real, ng as real);
  }

  lemma InverseQuotient(n: real, g: real)
    requires n > 0.0 && g > 0.0
    ensures n / g > 0.0 && 1.0 / (n / g) == g / n
  {
    Quotient(n, g);
    Quotient(g, n);
    Quotient(1.0, n / g);
    assert (1.0 / (n / g)) * (n / g) * g == g;
    assert (1.0 / (n / g)) * n == g by { assert (n / g) * g == n; }
    ProductCancel(1.0 / (n / g), g / n, n);
  }

  lemma NodesAround(y: real, ng: int)
    requires ng >= 1 && y > 0.0
    ensures Between(Low(y, ng) as real, High(y, ng) as real, Frac(y), Limited(y - 1.0, ng))
  {
  }

  ghost predicate NodesAre(gr: seq<real>, npy: int, npx: int, component: int, a: real, b: real, c: real, d: real)
    requires IsGrid(gr, npy, npx) && 0 <= component < 2
  {
    forall j, i :: 0 <= j < npy && 0 <= i < npx ==>
      Node(gr, npy, npx, j, i, component) == Surface(a, b, c, d, j as real, i as real)
  }

  /** The displacement of a pixel is that of the point of the grid which its centre falls on, or of the
      nearest point of the grid if it falls outside. */
  lemma DisplacementExactly(ny: int, nx: int, npy: int, npx: int, gr: seq<real>, iy: int, ix: int, component: int,
                            a: real, b: real, c: real, d: real)
    requires IsGrid(gr, npy, npx) && ny >= 1 && nx >= 1 && 0 <= component < 2 && iy >= 0 && ix >= 0
    requires NodesAre(gr, npy, npx, component, a, b, c, d)
    ensures Displacement(ny, nx, npy, npx, gr, iy, ix, component)
         == Surface(a, b, c, d, Limited(GridPlace(ny, npy, iy), npy), Limited(GridPlace(nx, npx, ix), npx))
  {
    hide Node, Place, Blend, Low, High, Frac, Surface, GridPlace, Limited, Between;
    PlaceOf(ny, npy, iy);
    PlaceOf(nx, npx, ix);
    PlaceIsGridPlace(ny, npy, iy);
    PlaceIsGridPlace(nx, npx, ix);
    var y, x := Place(ny, npy, iy), Place(nx, npx, ix);
    NodesAround(y, npy);
    NodesAround(x, npx);
    BlendOnSurface(a, b, c, d, Low(y, npy) as real, High(y, npy) as real, Frac(y), Limited(y - 1.0, npy),
                   Low(x, npx) as real, High(x, npx) as real, Frac(x), Limited(x - 1.0, npx));
  }

  // ---------------------------------------------------------------- stretch and congrid

  lemma ClampIsLimited(v: real, n: int)
    requires n >= 1
    ensures Clamp(v, n) == Limited(v, n)
  {
  }

  /** With displacements on a surface, and an image on a surface, every pixel gets the value of the
      image at the point it is displaced to, moved into the image. */
  lemma StretchExactly(im: seq<real>, ny: int, nx: int, gr: seq<real>, npy: int, npx: int, iy: int, ix: int,
                       a: real, b: real, c: real, d: real,
                       ax: real, bx: real, cx: real, dx: real, ay: real, by': real, cy: real, dy: real)
    requires IsImage(im, ny, nx) && nx >= 2 && ny >= 2 && IsGrid(gr, npy, npx) && iy >= 0 && ix >= 0
    requires IsSurface(im, ny, nx, a, b, c, d)
    requires NodesAre(gr, npy, npx, 0, ax, bx, cx, dx) && NodesAre(gr, npy, npx, 1, ay, by', cy, dy)
    ensures var gy, gx := Limited(GridPlace(ny, npy, iy), npy), Limited(GridPlace(nx, npx, ix), npx);
            var y, x := Surface(ay, by', cy, dy, gy, gx) + iy as real, Surface(ax, bx, cx, dx, gy, gx) + ix as real;
            StretchAt(im, ny, nx, gr, npy, npx, iy, ix) == Surface(a, b, c, d, Limited(y, ny), Limited(x, nx))
  {
    hide Interp, Displacement, IsSurface, NodesAre, Surface, Limited, Clamp, GridPlace, IsImage, IsGrid;
    DisplacementExactly(ny, nx, npy, npx, gr, iy, ix, 0, ax, bx, cx, dx);
    DisplacementExactly(ny, nx, npy, npx, gr, iy, ix, 1, ay, by', cy, dy);
    var v, h := Displacement(ny, nx, npy, npx, gr, iy, ix, 1) + iy as real, Displacement(ny, nx, npy, npx, gr, iy, ix, 0) + ix as real;
    ClampIsLimited(v, ny);
    ClampIsLimited(h, nx);
    SurfacesAreReproduced(im, ny, nx, a, b, c, d, Clamp(v, ny), Clamp(h, nx));
  }

  lemma TargetIs(n: int, n1: int, i: int)
    requires n >= 2 && n1 >= 2 && 0 <= i < n1
    ensures Target(n, n1, i) == i as real * ((n - 1) as real / (n1 - 1) as real)
  {
    var p, q := (n - 1) as real, (n1 - 1) as real;
    var e := p / q;
    Quotient(p, q);
    assert (q - i as real) * e >= 0.0 by { MulNonneg(q - i as real, e); }
    assert q * e - i as real * e >= 0.0;
  }

  /** congrid maps the first and last pixels onto each other and all others evenly in between. */
  lemma CongridExactly(im: seq<real>, ny: int, nx: int, ny1: int, nx1: int, jj: int, ii: int, a: real, b: real, c: real, d: real)
    requires IsImage(im, ny, nx) && nx >= 2 && ny >= 2 && ny1 >= 2 && nx1 >= 2 && 0 <= jj < ny1 && 0 <= ii < nx1
    requires IsSurface(im, ny, nx, a, b, c, d)
    ensures CongridAt(im, ny, nx, ny1, nx1, jj, ii)
         == Surface(a, b, c, d, jj as real * ((ny - 1) as real / (ny1 - 1) as real),
                                ii as real * ((nx - 1) as real / (nx1 - 1) as real))
  {
    hide Interp, Target, IsSurface, Surface;
    TargetIs(ny, ny1, jj);
    TargetIs(nx, nx1, ii);
    SurfacesAreReproduced(im, ny, nx, a, b, c, d, Target(ny, ny1, jj), Target(nx, nx1, ii));
  }
}
