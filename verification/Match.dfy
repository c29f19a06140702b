/**
 match_1 (src/dlm/libgrid.cpp:253-321): a descent over whole-pixel offsets that moves to the
 smallest of nine residuals until that is the one in the centre, and then refines it.
 */
module Match {
  import opened RealMath
  import opened Residual
  import opened ResidualCode
  import opened Minimum

  /** The coefficients of the fit to the mean difference of the two windows. */
  datatype Bias = Bias(av1: real, av2: real, cx: real, cy: real, cxx: real, cxy: real, cyy: real)

  function BiasAt(b: Bias, i: int, j: int): real {
    b.av2 + i as real * b.cx + j as real * b.cy + (i * i) as real * b.cxx + (i * j) as real * b.cxy
    + (j * j) as real * b.cyy - b.av1
  }

  const NDMX: real := 1000.0
  const ITMAX: nat := 20

  /** Two images, a window with weights, and the bias fit. */
  datatype Problem = Problem(f: Window, m1: seq<real>, m2: seq<real>, gx: seq<real>, gy: seq<real>, bias: Bias)

  ghost predicate Good(p: Problem) {
    Residual.Fits(p.f, p.m1, p.m2, p.gx, p.gy) && Positive(p.gx, p.f.nxa, p.f.nxb) && Positive(p.gy, p.f.nya, p.f.nyb)
  }

  /** The residual at an offset. */
  ghost function ResidualAt(p: Problem, i: int, j: int): (r: real)
    requires Good(p)
    ensures r <= NDMX * NDMX
  {
    ResidRange(p.f, p.m1, p.m2, p.gx, p.gy, i, j, BiasAt(p.bias, i, j), NDMX * NDMX);
    Resid(p.f, p.m1, p.m2, p.gx, p.gy, i, j, BiasAt(p.bias, i, j), NDMX * NDMX).value
  }

  // ---------------------------------------------------------------- the search, recomputing everything

  function Dx(k: int): int { k % 3 - 1 }
  function Dy(k: int): int { k / 3 - 1 }

  /** The nine residuals around an offset. */
  ghost function TableAt(p: Problem, x: int, y: int): Table
    requires Good(p)
  {
    seq(9, k requires 0 <= k < 9 => ResidualAt(p, x + Dx(k), y + Dy(k)))
  }

  /** The first index of the smallest among the first `n` entries. */
  function FirstMin(t: seq<real>, n: nat): (i: nat)
    requires 0 < n <= |t|
    ensures i < n
    ensures forall k :: 0 <= k < i ==> t[i] < t[k]
    ensures forall k :: i <= k < n ==> t[i] <= t[k]
  {
    if n == 1 then 0
    else
      var i := FirstMin(t, n - 1);
      if t[n - 1] < t[i] then n - 1 else i
  }

  predicate TooFar(clip: int, x: int, y: int) {
    x > clip || -x > clip || y > clip || -y > clip
  }

  /** One round: the smallest residual is off the image or too far, in the centre, or elsewhere. */
  datatype Verdict = Off | Centre | Move(x: int, y: int)

  ghost function Round(p: Problem, clip: int, x: int, y: int): Verdict
    requires Good(p)
  {
    var t := TableAt(p, x, y);
    var i := FirstMin(t, 9);
    if t[i] < 0.0 || TooFar(clip, x + Dx(i), y + Dy(i)) then Off
    else if i == 4 then Centre
    else Move(x + Dx(i), y + Dy(i))
  }

  datatype Outcome = Found(x: int, y: int) | Lost

  /** The search from an offset with `iter` rounds left; using the last round is a failure too. */
  ghost function Search(p: Problem, clip: int, x: int, y: int, iter: nat): Outcome
    requires Good(p)
    decreases iter
  {
    if iter == 0 then Lost
    else
      match Round(p, clip, x, y)
      case Off => Lost
      case Centre => if iter == 1 then Lost else Found(x, y)
      case Move(x', y') => Search(p, clip, x', y', iter - 1)
  }

  // ---------------------------------------------------------------- what is found

  function Smaller(a: int, b: int): int { if a < b then a else b }
  function AbsInt(a: int): int { if a < 0 then -a else a }

  lemma CentreRound(p: Problem, clip: int, x: int, y: int)
    requires Good(p)
    ensures Round(p, clip, x, y) == Centre ==>
              && CentreIsFirstMinimum(TableAt(p, x, y))
              && ResidualAt(p, x, y) >= 0.0 && AbsInt(x) <= clip && AbsInt(y) <= clip
  {
    hide ResidualAt;
    var t := TableAt(p, x, y);
    var i := FirstMin(t, 9);
    assert t[4] == ResidualAt(p, x, y);
  }

  lemma MoveRound(p: Problem, clip: int, x: int, y: int)
    requires Good(p)
    ensures Round(p, clip, x, y).Move? ==>
            var Move(x', y') := Round(p, clip, x, y);
            AbsInt(x' - x) <= 1 && AbsInt(y' - y) <= 1
  {
    hide ResidualAt, TableAt;
  }

  /** A found offset is a first minimum of its neighbourhood, overlaps the image, is within the
      clip, and is no further from the start than the rounds allow. */
  lemma {:induction false} FoundIsMinimum(p: Problem, clip: int, x: int, y: int, iter: nat)
    requires Good(p)
    ensures Search(p, clip, x, y, iter).Found? ==>
            var Found(fx, fy) := Search(p, clip, x, y, iter);
            && CentreIsFirstMinimum(TableAt(p, fx, fy))
            && ResidualAt(p, fx, fy) >= 0.0
            && AbsInt(fx) <= clip && AbsInt(fy) <= clip
            && iter >= 2 && AbsInt(fx - x) <= iter - 2 && AbsInt(fy - y) <= iter - 2
    decreases iter
  {
    hide ResidualAt, TableAt, Round, Good, CentreIsFirstMinimum;
    if iter > 0 {
      match Round(p, clip, x, y)
      case Off =>
      case Centre => CentreRound(p, clip, x, y);
      case Move(x', y') =>
        MoveRound(p, clip, x, y);
        FoundIsMinimum(p, clip, x', y', iter - 1);
    }
  }

  /** The result of a match: whole pixels plus the correction, or a bad match. */
  datatype Result = Offset(x: real, y: real) | NoNumber | BadMatch

  /** The nearest whole number, the even one of two. */
  function Rint(x: real): (r: int)
    ensures -0.5 <= r as real - x <= 0.5
  {
    var f := x.Floor;
    var d := x - f as real;
    if d < 0.5 || (d == 0.5 && f % 2 == 0) then f else f + 1
  }

  ghost function MatchOf(p: Problem, clip: int, xoffset: real, yoffset: real): Result
    requires Good(p)
  {
    match Search(p, clip, Rint(xoffset), Rint(yoffset), ITMAX)
    case Lost => BadMatch
    case Found(x, y) =>
      match GetMin(TableAt(p, x, y))
      case At(dx, dy) => Offset(x as real + dx, y as real + dy)
      case NotANumber => NoNumber
  }

  /** An offset is always less than three quarters of a pixel beyond the clip, and beyond the 18
      moves from the start that twenty rounds leave. From a zero start that is one bound. */
  lemma OffsetsAreBounded(p: Problem, clip: int, xoffset: real, yoffset: real)
    requires Good(p)
    ensures MatchOf(p, clip, xoffset, yoffset).Offset? ==>
            var Offset(x, y) := MatchOf(p, clip, xoffset, yoffset);
            var moves := (ITMAX - 2) as real + 0.75;
            && Abs(x) < clip as real + 0.75 && Abs(y) < clip as real + 0.75
            && Abs(x - Rint(xoffset) as real) < moves && Abs(y - Rint(yoffset) as real) < moves
    ensures MatchOf(p, clip, 0.0, 0.0).Offset? ==>
            var Offset(x, y) := MatchOf(p, clip, 0.0, 0.0);
            var bound := Smaller(clip, ITMAX - 2) as real + 0.75;
            Abs(x) < bound && Abs(y) < bound
  {
    hide GetMin, ResidualAt, TableAt, Search, Good, CentreIsFirstMinimum;
    SearchIsBounded(p, clip, Rint(xoffset), Rint(yoffset));
    SearchIsBounded(p, clip, 0, 0);
  }

  lemma SearchIsBounded(p: Problem, clip: int, x0: int, y0: int)
    requires Good(p)
    ensures var s := Search(p, clip, x0, y0, ITMAX);
            s.Found? && GetMin(TableAt(p, s.x, s.y)).At? ==>
              var c := GetMin(TableAt(p, s.x, s.y));
              && Abs(c.x) < 0.75 && Abs(c.y) < 0.75
              && AbsInt(s.x) <= clip && AbsInt(s.y) <= clip
              && AbsInt(s.x - x0) <= ITMAX - 2 && AbsInt(s.y - y0) <= ITMAX - 2
  {
    hide GetMin, ResidualAt, TableAt, Search, Good, CentreIsFirstMinimum;
    FoundIsMinimum(p, clip, x0, y0, ITMAX);
    match Search(p, clip, x0, y0, ITMAX)
    case Lost =>
    case Found(x, y) => CorrectionIsSmall(TableAt(p, x, y));
  }

  // ---------------------------------------------------------------- the code, with its table of residuals

  /** The memo: entries that are marked done hold the residual of their place. */
  ghost predicate Remembered(p: Problem, x: int, y: int, done: seq<bool>, res: seq<real>)
    requires Good(p)
  {
    |done| == 9 && |res| == 9 && forall k :: 0 <= k < 9 && done[k] ==> res[k] == TableAt(p, x, y)[k]
  }

  /** Fills in the entries that are not known yet. */
  method FillTable(ghost p: Problem, m1: array<real>, m2: array<real>, gx: array<real>, gy: array<real>,
                   f: Window, bias: Bias, x: int, y: int, done: array<bool>, res: array<real>)
    requires p == Problem(f, m1[..], m2[..], gx[..], gy[..], bias) && Good(p)
    requires done.Length == 9 && res.Length == 9 && Remembered(p, x, y, done[..], res[..])
    requires res != m1 && res != m2 && res != gx && res != gy
    modifies res
    ensures res[..] == TableAt(p, x, y)
  {
    hide ResidualAt;
    ghost var m1s, m2s, gxs, gys := m1[..], m2[..], gx[..], gy[..];
    for k := 0 to 9
      invariant m1[..] == m1s && m2[..] == m2s && gx[..] == gxs && gy[..] == gys
      invariant forall j :: 0 <= j < k ==> res[j] == TableAt(p, x, y)[j]
      invariant forall j :: k <= j < 9 && done[j] ==> res[j] == TableAt(p, x, y)[j]
    {
      if !done[k] {
        var i, j := x + k % 3 - 1, y + k / 3 - 1;
        var avdif := BiasAt(bias, i, j);
        var r := ResidWalk(f, m1, m2, gx, gy, i, j, avdif, NDMX);
        AtIsResid(p, i, j);
        res[k] := r.value;
      }
    }
  }

  lemma AtIsResid(p: Problem, i: int, j: int)
    requires Good(p)
    ensures Resid(p.f, p.m1, p.m2, p.gx, p.gy, i, j, BiasAt(p.bias, i, j), NDMX * NDMX) == Finite(ResidualAt(p, i, j))
  {
    ResidRange(p.f, p.m1, p.m2, p.gx, p.gy, i, j, BiasAt(p.bias, i, j), NDMX * NDMX);
  }

  /** The loop that looks for the smallest entry. */
  method Smallest(res: array<real>) returns (t: real, i: nat)
    requires res.Length == 9
    ensures i == FirstMin(res[..], 9) && t == res[i]
  {
    t, i := res[0], 0;
    for k := 1 to 9
      invariant i == FirstMin(res[..], k) && t == res[i]
    {
      if res[k] < t {
        t := res[k];
        i := k;
      }
    }
  }

  /** Moves what is known so that entry `i` comes to the centre; the rest is marked unknown. */
  method Shuffle(ghost p: Problem, ghost x: int, ghost y: int, i: nat, done: array<bool>, res: array<real>, buf: array<real>)
    requires Good(p) && i < 9 && done.Length == 9 && res.Length == 9 && buf.Length == 9
    requires res[..] == TableAt(p, x, y) && res != buf
    modifies done, res, buf
    ensures Remembered(p, x + Dx(i), y + Dy(i), done[..], res[..])
  {
    hide ResidualAt;
    var di, dj := i % 3 - 1, i / 3 - 1;
    var dd := dj * 3 + di;
    ghost var old' := res[..];
    for k := 0 to 9
      invariant res[..] == old'
      invariant forall j :: 0 <= j < k && done[j] ==> buf[j] == TableAt(p, x + di, y + dj)[j]
    {
      var n, jn := k % 3 + di, k / 3 + dj;
      if n >= 0 && jn >= 0 && n < 3 && jn < 3 {
        done[k] := true;
        ShiftedEntry(p, x, y, di, dj, k);
        buf[k] := res[k + dd];
      } else {
        done[k] := false;
      }
    }
    for k := 0 to 9
      invariant forall j :: 0 <= j < k ==> res[j] == buf[j]
      invariant forall j :: 0 <= j < 9 && done[j] ==> buf[j] == TableAt(p, x + di, y + dj)[j]
    {
      res[k] := buf[k];
    }
  }

  lemma ShiftedEntry(p: Problem, x: int, y: int, di: int, dj: int, k: int)
    requires Good(p) && 0 <= k < 9 && -1 <= di <= 1 && -1 <= dj <= 1
    requires 0 <= k % 3 + di < 3 && 0 <= k / 3 + dj < 3
    ensures 0 <= k + dj * 3 + di < 9
    ensures TableAt(p, x + di, y + dj)[k] == TableAt(p, x, y)[k + dj * 3 + di]
  {
    hide ResidualAt;
    var e := k + dj * 3 + di;
    assert e % 3 == k % 3 + di && e / 3 == k / 3 + dj;
  }

  /** One round of the loop: the table is completed, its smallest entry found, and the centre moved
      there, with what is known of the table. */
  method OneRound(ghost p: Problem, m1: array<real>, m2: array<real>, gx: array<real>, gy: array<real>,
                  f: Window, bias: Bias, clip: int, x: int, y: int,
                  done: array<bool>, res: array<real>, buf: array<real>) returns (v: Verdict)
    requires p == Problem(f, m1[..], m2[..], gx[..], gy[..], bias) && Good(p)
    requires done.Length == 9 && res.Length == 9 && buf.Length == 9 && Remembered(p, x, y, done[..], res[..])
    requires res != buf && m1 !in {res, buf} && m2 !in {res, buf} && gx !in {res, buf} && gy !in {res, buf}
    modifies done, res, buf
    ensures v == Round(p, clip, x, y)
    ensures v == Centre ==> res[..] == TableAt(p, x, y)
    ensures v.Move? ==> Remembered(p, v.x, v.y, done[..], res[..])
  {
    hide ResidualAt, TableAt, Good, FirstMin;
    FillTable(p, m1, m2, gx, gy, f, bias, x, y, done, res);
    var t, i := Smallest(res);
    if t < 0.0 { return Off; }
    var x', y' := x + i % 3 - 1, y + i / 3 - 1;
    if TooFar(clip, x', y') { return Off; }
    if i == 4 { return Centre; }
    Shuffle(p, x, y, i, done, res, buf);
    v := Move(x', y');
  }

  /** match_1 from any offset. The table of residuals is shifted with the centre, and gives the
      same result as recomputing it. */
  method Match1(f: Window, m1: array<real>, m2: array<real>, gx: array<real>, gy: array<real>, bias: Bias, clip: int,
                xoffset: real, yoffset: real)
    returns (r: Result, badmatch: bool)
    requires Good(Problem(f, m1[..], m2[..], gx[..], gy[..], bias))
    ensures r == MatchOf(Problem(f, m1[..], m2[..], gx[..], gy[..], bias), clip, xoffset, yoffset)
    ensures badmatch == r.BadMatch?
  {
    hide ResidualAt, TableAt, GetMin, Good, Round, Rint;
    ghost var p := Problem(f, m1[..], m2[..], gx[..], gy[..], bias);
    var idelx, idely := Rint(xoffset), Rint(yoffset);
    ghost var x0, y0 := idelx, idely;
    var done := new bool[9](_ => false);
    var res := new real[9](_ => 0.0);
    var buf := new real[9](_ => 0.0);
    var iter: nat := ITMAX;
    badmatch := true;
    while iter > 0
      invariant m1[..] == p.m1 && m2[..] == p.m2 && gx[..] == p.gx && gy[..] == p.gy
      invariant iter <= ITMAX && badmatch
      invariant Remembered(p, idelx, idely, done[..], res[..])
      invariant Search(p, clip, x0, y0, ITMAX) == Search(p, clip, idelx, idely, iter)
    {
      iter := iter - 1;
      var v := OneRound(p, m1, m2, gx, gy, f, bias, clip, idelx, idely, done, res, buf);
      if v == Off { return BadMatch, true; }
      if v == Centre {
        badmatch := iter <= 0;
        assert Search(p, clip, x0, y0, ITMAX) == if badmatch then Lost else Found(idelx, idely);
        break;
      }
      idelx, idely := v.x, v.y;
    }
    if badmatch {
      assert Search(p, clip, x0, y0, ITMAX) == Lost;
      return BadMatch, true;
    }
    var c := GetMin(res[..]);
    match c
    case At(t1, t2) => r := Offset(idelx as real + t1, idely as real + t2);
    case NotANumber => r := NoNumber;
  }
}
