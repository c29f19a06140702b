/**
 When a match succeeds and what it gives (src/dlm/libgrid.cpp:253-321), as paths of moves between
 whole-pixel offsets, each to the first smallest of nine residuals.
 */
module MatchPaths {
  import opened RealMath
  import opened Residual
  import opened ResidualForms
  import opened Minimum
  import opened Match

  /** The residual at distance (i, j) is not above that at (a, b), and below it if that comes first
      when the nine of them are read row by row. */
  ghost predicate Beats(p: Problem, x: int, y: int, i: int, j: int, a: int, b: int)
    requires Good(p)
  {
    if b < j || (b == j && a < i) then ResidualAt(p, x + i, y + j) < ResidualAt(p, x + a, y + b)
    else ResidualAt(p, x + i, y + j) <= ResidualAt(p, x + a, y + b)
  }

  /** Of the nine residuals around (x, y), that at distance (i, j) is the first smallest. */
  ghost predicate FirstSmallest(p: Problem, x: int, y: int, i: int, j: int)
    requires Good(p)
  {
    -1 <= i <= 1 && -1 <= j <= 1 && forall a, b :: -1 <= a <= 1 && -1 <= b <= 1 ==> Beats(p, x, y, i, j, a, b)
  }

  /** The offset overlaps the image and is within the clip. */
  ghost predicate Allowed(p: Problem, clip: int, x: int, y: int)
    requires Good(p)
  {
    ResidualAt(p, x, y) >= 0.0 && -clip <= x <= clip && -clip <= y <= clip
  }

  /** A move to the first smallest residual, which is not the one in the centre. */
  ghost predicate Moves(p: Problem, clip: int, from: (int, int), to: (int, int))
    requires Good(p)
  {
    from != to && FirstSmallest(p, from.0, from.1, to.0 - from.0, to.1 - from.1) && Allowed(p, clip, to.0, to.1)
  }

  /** A path of moves that ends where no move is left to make. */
  ghost predicate Path(p: Problem, clip: int, path: seq<(int, int)>)
    requires Good(p)
  {
    && path != []
    && (forall k :: 0 <= k < |path| - 1 ==> Moves(p, clip, path[k], path[k + 1]))
    && var end := path[|path| - 1];
       FirstSmallest(p, end.0, end.1, 0, 0) && Allowed(p, clip, end.0, end.1)
  }

  // ---------------------------------------------------------------- one round

  lemma TableEntry(p: Problem, x: int, y: int, a: int, b: int)
    requires Good(p) && -1 <= a <= 1 && -1 <= b <= 1
    ensures 0 <= 3 * (b + 1) + (a + 1) < 9
    ensures TableAt(p, x, y)[3 * (b + 1) + (a + 1)] == ResidualAt(p, x + a, y + b)
  {
    hide ResidualAt;
    var k := 3 * (b + 1) + (a + 1);
    assert k % 3 == a + 1 && k / 3 == b + 1;
  }

  /** The place of an index in the table. */
  lemma PlaceOfIndex(k: nat)
    requires k < 9
    ensures -1 <= Dx(k) <= 1 && -1 <= Dy(k) <= 1 && k == 3 * (Dy(k) + 1) + (Dx(k) + 1)
  {
  }

  lemma FirstMinIsSmallest(p: Problem, x: int, y: int)
    requires Good(p)
    ensures var n := FirstMin(TableAt(p, x, y), 9); FirstSmallest(p, x, y, Dx(n), Dy(n))
  {
    hide ResidualAt, TableAt, FirstMin, Good;
    var t := TableAt(p, x, y);
    var n := FirstMin(t, 9);
    PlaceOfIndex(n);
    TableEntry(p, x, y, Dx(n), Dy(n));
    forall a, b | -1 <= a <= 1 && -1 <= b <= 1
      ensures Beats(p, x, y, Dx(n), Dy(n), a, b)
    {
      TableEntry(p, x, y, a, b);
    }
  }

  /** There is one first smallest residual. */
  lemma SmallestIsUnique(p: Problem, x: int, y: int, i: int, j: int, a: int, b: int)
    requires Good(p) && FirstSmallest(p, x, y, i, j) && FirstSmallest(p, x, y, a, b)
    ensures i == a && j == b
  {
    hide ResidualAt, Good;
    assert Beats(p, x, y, i, j, a, b) && Beats(p, x, y, a, b, i, j);
  }

  /** What a round does, in terms of the first smallest residual. */
  lemma RoundIs(p: Problem, clip: int, x: int, y: int, i: int, j: int)
    requires Good(p) && FirstSmallest(p, x, y, i, j)
    ensures Round(p, clip, x, y)
         == if !Allowed(p, clip, x + i, y + j) then Off
            else if i == 0 && j == 0 then Centre
            else Move(x + i, y + j)
  {
    hide ResidualAt, TableAt, FirstSmallest, FirstMin, Good;
    var n := FirstMin(TableAt(p, x, y), 9);
    FirstMinIsSmallest(p, x, y);
    SmallestIsUnique(p, x, y, i, j, Dx(n), Dy(n));
    PlaceOfIndex(n);
    TableEntry(p, x, y, Dx(n), Dy(n));
  }

  // ---------------------------------------------------------------- the search

  /** A search that finds an offset has gone along a path. */
  lemma {:induction false} FoundHasPath(p: Problem, clip: int, x: int, y: int, iter: nat) returns (path: seq<(int, int)>)
    requires Good(p) && Search(p, clip, x, y, iter).Found?
    ensures Path(p, clip, path) && path[0] == (x, y) && |path| < iter
    ensures var s := Search(p, clip, x, y, iter); path[|path| - 1] == (s.x, s.y)
    decreases iter
  {
    hide ResidualAt, Round, Good, FirstSmallest, Allowed;
    var i, j := SmallestAround(p, x, y);
    RoundIs(p, clip, x, y, i, j);
    if i == 0 && j == 0 {
      path := [(x, y)];
    } else {
      var rest := FoundHasPath(p, clip, x + i, y + j, iter - 1);
      path := [(x, y)] + rest;
      assert forall k :: 1 <= k < |path| ==> path[k] == rest[k - 1];
      forall k | 0 <= k < |path| - 1 ensures Moves(p, clip, path[k], path[k + 1]) {
        if k > 0 { assert Moves(p, clip, rest[k - 1], rest[k]); }
      }
    }
  }

  lemma SmallestAround(p: Problem, x: int, y: int) returns (i: int, j: int)
    requires Good(p)
    ensures FirstSmallest(p, x, y, i, j)
  {
    hide ResidualAt, TableAt, FirstSmallest, FirstMin, Good;
    FirstMinIsSmallest(p, x, y);
    var n := FirstMin(TableAt(p, x, y), 9);
    i, j := Dx(n), Dy(n);
  }

  /** A path that is short enough is what the search finds. */
  lemma {:induction false} PathIsFound(p: Problem, clip: int, path: seq<(int, int)>, iter: nat)
    requires Good(p) && Path(p, clip, path) && |path| < iter
    ensures Search(p, clip, path[0].0, path[0].1, iter) == Found(path[|path| - 1].0, path[|path| - 1].1)
    decreases iter
  {
    hide ResidualAt, Round, Good, FirstSmallest, Allowed;
    var x, y := path[0].0, path[0].1;
    if |path| == 1 {
      RoundIs(p, clip, x, y, 0, 0);
    } else {
      assert Moves(p, clip, path[0], path[1]);
      RoundIs(p, clip, x, y, path[1].0 - x, path[1].1 - y);
      var rest := path[1..];
      forall k | 0 <= k < |rest| - 1 ensures Moves(p, clip, rest[k], rest[k + 1]) {
        assert rest[k] == path[k + 1] && Moves(p, clip, path[k + 1], path[k + 2]);
      }
      assert Path(p, clip, rest);
      PathIsFound(p, clip, rest, iter - 1);
    }
  }

  // ---------------------------------------------------------------- the match

  /** The nine residuals around an offset, row by row. */
  ghost function Around(p: Problem, x: int, y: int): Table
    requires Good(p)
  {
    [ResidualAt(p, x - 1, y - 1), ResidualAt(p, x, y - 1), ResidualAt(p, x + 1, y - 1),
     ResidualAt(p, x - 1, y), ResidualAt(p, x, y), ResidualAt(p, x + 1, y),
     ResidualAt(p, x - 1, y + 1), ResidualAt(p, x, y + 1), ResidualAt(p, x + 1, y + 1)]
  }

  lemma TableIsAround(p: Problem, x: int, y: int)
    requires Good(p)
    ensures TableAt(p, x, y) == Around(p, x, y)
  {
    hide ResidualAt, Good;
  }

  /** There is a path of at most 18 moves from the start. */
  ghost predicate CanMatch(p: Problem, clip: int, x: int, y: int)
    requires Good(p)
  {
    exists path :: Path(p, clip, path) && path[0] == (x, y) && |path| <= 19
  }

  /** A match succeeds exactly when there is a path of at most 18 moves from the rounded start. */
  lemma SucceedsExactly(p: Problem, clip: int, xoffset: real, yoffset: real)
    requires Good(p)
    ensures MatchOf(p, clip, xoffset, yoffset) != BadMatch <==> CanMatch(p, clip, Rint(xoffset), Rint(yoffset))
  {
    hide ResidualAt, Good, FirstSmallest, Allowed, Moves, Search, GetMin, TableAt;
    var x, y := Rint(xoffset), Rint(yoffset);
    if Search(p, clip, x, y, ITMAX).Found? {
      var path := FoundHasPath(p, clip, x, y, ITMAX);
    }
    if path :| Path(p, clip, path) && path[0] == (x, y) && |path| <= 19 {
      PathIsFound(p, clip, path, ITMAX);
    }
  }

  /** It then gives the end of that path, refined by the fit to the nine residuals around it. */
  lemma MatchIsRefinedEnd(p: Problem, clip: int, xoffset: real, yoffset: real, path: seq<(int, int)>)
    requires Good(p) && Path(p, clip, path) && path[0] == (Rint(xoffset), Rint(yoffset)) && |path| <= 19
    ensures var end := path[|path| - 1];
            var c := GetMin(Around(p, end.0, end.1));
            && (c.At? ==> MatchOf(p, clip, xoffset, yoffset) == Offset(end.0 as real + c.x, end.1 as real + c.y))
            && (c.NotANumber? ==> MatchOf(p, clip, xoffset, yoffset) == NoNumber)
  {
    hide ResidualAt, Good, FirstSmallest, Allowed, Moves, Search, GetMin, TableAt;
    PathIsFound(p, clip, path, ITMAX);
    TableIsAround(p, path[|path| - 1].0, path[|path| - 1].1);
  }

  /** The residual of an offset: the weighted mean of the biased squared differences, each at most a
      million, or -1 without overlap. */
  lemma ResidualAtExactly(p: Problem, i: int, j: int)
    requires Good(p)
    ensures var l := Clip(p.f, i, j);
            Empty(l) ==> ResidualAt(p, i, j) == -1.0
    ensures var l, b := Clip(p.f, i, j), BiasAt(p.bias, i, j);
            !Empty(l) ==>
              var t := Squares(p.f, p.m1, p.m2, p.gx, p.gy, i, j, b, 1000000.0);
              var weight := ColumnsTotal(Weights(p.gx, p.gy), l.xc, Width(l), l.yc, Height(l));
              weight != 0.0 && ResidualAt(p, i, j) == ColumnsTotal(t, l.xc, Width(l), l.yc, Height(l)) / weight
  {
    hide BiasAt, Clip, Squares, Weights, ColumnsTotal, Resid, Fits, Positive;
    var b := BiasAt(p.bias, i, j);
    ResidRange(p.f, p.m1, p.m2, p.gx, p.gy, i, j, b, 1000000.0);
    if !Empty(Clip(p.f, i, j)) {
      ResidExactly(p.f, p.m1, p.m2, p.gx, p.gy, i, j, b, 1000000.0);
    }
  }

  // ---------------------------------------------------------------- the bias

  /** The bias is a polynomial of degree two in the offset, given by its value at zero and its
      differences. */
  lemma BiasExactly(b: Bias, i: int, j: int)
    ensures BiasAt(b, 0, 0) == b.av2 - b.av1
    ensures BiasAt(b, i + 1, j) == BiasAt(b, i, j) + b.cx + (2 * i + 1) as real * b.cxx + j as real * b.cxy
    ensures BiasAt(b, i, j + 1) == BiasAt(b, i, j) + b.cy + (2 * j + 1) as real * b.cyy + i as real * b.cxy
  {
    hide BiasAt;
    BiasAtZero(b);
    BiasAcross(b, i, j);
    BiasDown(b, i, j);
  }

  lemma BiasAtZero(b: Bias)
    ensures BiasAt(b, 0, 0) == b.av2 - b.av1
  {
  }

  lemma BiasAcross(b: Bias, i: int, j: int)
    ensures BiasAt(b, i + 1, j) == BiasAt(b, i, j) + b.cx + (2 * i + 1) as real * b.cxx + j as real * b.cxy
  {
    hide BiasAt, TimesInt;
    BiasTerms(b, i + 1, j);
    BiasTerms(b, i, j);
    assert (i + 1) * (i + 1) == i * i + (2 * i + 1) && (i + 1) * j == i * j + j;
    TimesSum(i, 1, b.cx);
    TimesSum(i * i, 2 * i + 1, b.cxx);
    TimesSum(i * j, j, b.cxy);
  }

  lemma BiasDown(b: Bias, i: int, j: int)
    ensures BiasAt(b, i, j + 1) == BiasAt(b, i, j) + b.cy + (2 * j + 1) as real * b.cyy + i as real * b.cxy
  {
    hide BiasAt, TimesInt;
    BiasTerms(b, i, j + 1);
    BiasTerms(b, i, j);
    assert (j + 1) * (j + 1) == j * j + (2 * j + 1) && i * (j + 1) == i * j + i;
    TimesSum(j, 1, b.cy);
    TimesSum(j * j, 2 * j + 1, b.cyy);
    TimesSum(i * j, i, b.cxy);
  }

  function TimesInt(a: int, c: real): real { a as real * c }

  lemma BiasTerms(b: Bias, i: int, j: int)
    ensures BiasAt(b, i, j) == b.av2 - b.av1 + TimesInt(i, b.cx) + TimesInt(j, b.cy) + TimesInt(i * i, b.cxx)
                               + TimesInt(i * j, b.cxy) + TimesInt(j * j, b.cyy)
  {
  }

  lemma TimesSum(a: int, n: int, c: real)
    ensures TimesInt(a + n, c) == TimesInt(a, c) + n as real * c
  {
  }
}
