/**
 When reading back a printed vector gives that vector (include/redux/translators.hpp:164-267): not
 only if, but also only if every run the printer detects is sound. Runs that read back wrongly
 cannot make up for each other: what is read falls behind what was printed, and never catches up.
 */
module VectorExact {
  import opened Integers
  import opened Text
  import opened Ranges
  import opened VectorText

  // ---------------------------------------------------------------- concatenation

  function Flat(parts: seq<seq<int>>): seq<int> {
    if parts == [] then [] else Flat(parts[..|parts| - 1]) + parts[|parts| - 1]
  }

  /** Where part `k` starts. */
  function Offset(parts: seq<seq<int>>, k: nat): nat
    requires k <= |parts|
  {
    |Flat(parts[..k])|
  }

  lemma {:induction false} FlatCons(first: seq<int>, rest: seq<seq<int>>)
    ensures Flat([first] + rest) == first + Flat(rest)
    decreases |rest|
  {
    var all := [first] + rest;
    if rest == [] {
      assert all[..0] == [];
      assert Flat(all[..0]) == [];
    } else {
      var n := |rest| - 1;
      assert all[..n + 1] == [first] + rest[..n];
      FlatCons(first, rest[..n]);
    }
  }

  /** `s` is what `v` has from index `at` on. */
  ghost predicate Window(v: seq<int>, at: int, s: seq<int>) {
    0 <= at && at + |s| <= |v| && forall i :: 0 <= i < |s| ==> v[at + i] == s[i]
  }

  lemma NextOffset(parts: seq<seq<int>>, k: nat)
    requires k < |parts|
    ensures Flat(parts[..k + 1]) == Flat(parts[..k]) + parts[k]
  {
    assert parts[..k + 1][..k] == parts[..k];
  }

  lemma {:induction false} FlatPrefix(parts: seq<seq<int>>, k: nat)
    requires k <= |parts|
    ensures Flat(parts[..k]) <= Flat(parts)
    decreases |parts| - k
  {
    hide Flat;
    if k == |parts| {
      assert parts[..k] == parts;
    } else {
      NextOffset(parts, k);
      FlatPrefix(parts, k + 1);
    }
  }

  lemma PartWindow(parts: seq<seq<int>>, k: nat)
    requires k < |parts|
    ensures Offset(parts, k + 1) == Offset(parts, k) + |parts[k]|
    ensures Window(Flat(parts), Offset(parts, k), parts[k])
  {
    hide Flat;
    NextOffset(parts, k);
    FlatPrefix(parts, k + 1);
  }

  // ---------------------------------------------------------------- what a part reads back as

  /** Reading the printed part `p` gives `r`. */
  ghost predicate Reads(w: Width, p: seq<int>, r: seq<int>) {
    ProperPart(w, p) && if |p| == 1 then r == p else ReadBack(w, p) == Values(r)
  }

  /** The step of the reading loop. */
  ghost function StepBack(w: Width, p: seq<int>): int
    requires |p| >= 2 && Words(w, p)
  {
    StepRead(w, StepOf(p[0], p[1]))
  }

  predicate Falling(p: seq<int>) {
    |p| >= 2 && p[0] > p[|p| - 1]
  }

  lemma ReadsIsPushed(w: Width, p: seq<int>, r: seq<int>)
    requires Reads(w, p, r) && |p| >= 2
    ensures Words(w, p) && |p| >= 3
    ensures !Falling(p) ==> Pushed(Modulus(w), p[0], StepBack(w, p), p[|p| - 1], r)
    ensures Falling(p) ==> Pushed(Modulus(w), p[|p| - 1], Abs32(StepBack(w, p)), p[0], Reverse(r))
  {
    hide Expand, Signed32, Pushed;
    var m, t, last := Modulus(w), StepBack(w, p), p[|p| - 1];
    StepFits(w, p[0], p[1]);
    if Falling(p) {
      ExpandExactly(m, last, Abs32(t), p[0], Reverse(r));
      var e := Expand(m, last, Abs32(t), p[0]);
      ReverseTwice(e.v);
    } else {
      ExpandExactly(m, p[0], t, last, r);
    }
  }

  ghost predicate Chain(m: int, step: int, r: seq<int>) {
    forall j :: 1 <= j < |r| ==> r[j] == Wrap(m, r[j - 1] + step)
  }

  lemma {:induction false} Periodic(m: int, step: int, r: seq<int>, x: nat, i: nat)
    requires Chain(m, step, r) && x + i < |r| && r[x] == r[0]
    ensures r[x + i] == r[i]
  {
    if i > 0 {
      Periodic(m, step, r, x, i - 1);
    }
  }

  lemma NextOfPeriod(m: int, step: int, r: seq<int>, x: nat)
    requires Chain(m, step, r) && 0 < x < |r| && r[x] == r[0]
    ensures Wrap(m, r[|r| - 1] + step) == r[|r| - x]
  {
    Periodic(m, step, r, x, |r| - 1 - x);
  }

  /** A loop that ends never comes back to where it started. */
  lemma NeverBack(m: int, first: int, step: int, last: int, r: seq<int>, x: nat)
    requires Pushed(m, first, step, last, r) && 0 < x < |r|
    ensures r[x] != first
  {
    if r[x] == first {
      NextOfPeriod(m, step, r, x);
    }
  }

  // ---------------------------------------------------------------- falling behind

  /** The printer did not go on: after a run comes something else than its next element, and a
      single element does not start a run. */
  ghost predicate Stopped(w: Width, v: seq<int>, at: int, p: seq<int>)
    requires Window(v, at, p) && p != []
  {
    if |p| == 1 then at + 2 < |v| ==> v[at + 2] != Wrap(Modulus(w), v[at + 1] + StepOf(v[at], v[at + 1]))
    else at + |p| < |v| ==> v[at + |p|] != Wrap(Modulus(w), p[|p| - 1] + StepOf(p[0], p[1]))
  }

  /** The same where the elements have kinds, and a segment has one kind only: the printer stops
      also where the kind changes. */
  ghost predicate StoppedIn<T>(w: Width, v: seq<int>, kinds: seq<T>, at: int, p: seq<int>)
    requires Window(v, at, p) && p != [] && |kinds| == |v|
  {
    if |p| == 1 then
      at + 2 < |v| && kinds[at] == kinds[at + 1] == kinds[at + 2] ==>
        v[at + 2] != Wrap(Modulus(w), v[at + 1] + StepOf(v[at], v[at + 1]))
    else
      at + |p| < |v| && kinds[at + |p|] == kinds[at] ==>
        v[at + |p|] != Wrap(Modulus(w), p[|p| - 1] + StepOf(p[0], p[1]))
  }

  /** `n` elements from `at` on are of kind `kind`. */
  ghost predicate OneKind<T>(kinds: seq<T>, at: int, n: int, kind: T) {
    0 <= at && at + n <= |kinds| && forall i :: at <= i < at + n ==> kinds[i] == kind
  }

  /** A part that is read from further left ends left of where it was printed. */
  lemma ReadBehind(w: Width, v: seq<int>, at: int, from: int, p: seq<int>, r: seq<int>)
    requires Window(v, at, p) && Window(v, from, r) && Reads(w, p, r) && !Falling(p) && from < at
    ensures from + |r| <= at
  {
    hide Wrap, ReadBack;
    if |p| >= 2 && from + |r| > at {
      ReadsIsPushed(w, p, r);
      assert r[at - from] == p[0];
      NeverBack(Modulus(w), p[0], StepBack(w, p), p[|p| - 1], r, at - from);
    }
  }

  /** Both ways of adding the step agree in the words. */
  lemma SameStep(w: Width, p: seq<int>, x: int)
    requires |p| >= 2 && Words(w, p) && 0 <= x < Modulus(w)
    ensures Wrap(Modulus(w), x + StepBack(w, p)) == Wrap(Modulus(w), x + StepOf(p[0], p[1]))
  {
    hide Signed32;
    StepFits(w, p[0], p[1]);
  }

  lemma ReadNotLonger<T>(w: Width, v: seq<int>, kinds: seq<T>, at: int, p: seq<int>, r: seq<int>, kind: T)
    requires Window(v, at, p) && Window(v, at, r) && Reads(w, p, r) && !Falling(p) && p != []
    requires |kinds| == |v| && StoppedIn(w, v, kinds, at, p) && OneKind(kinds, at, |r|, kind)
    ensures |r| <= |p|
  {
    hide Wrap, StepOf, ReadBack;
    if |p| >= 2 && |r| > |p| {
      ReadsIsPushed(w, p, r);
      var n := |p|;
      assert r[n - 1] == p[n - 1] && r[n] == v[at + n];
      SameStep(w, p, p[n - 1]);
    }
  }

  /** A falling part that ends further right than it was printed starts there, too. */
  lemma ReadAhead(w: Width, v: seq<int>, at: int, from: int, p: seq<int>, r: seq<int>)
    requires Window(v, at, p) && Window(v, from, r) && Reads(w, p, r) && Falling(p) && from + |r| > at + |p|
    ensures from >= at + |p|
  {
    hide Wrap, ReadBack;
    if from < at + |p| {
      ReadsIsPushed(w, p, r);
      var j := at + |p| - 1 - from;
      assert r[j] == p[|p| - 1];
      assert Reverse(r)[|r| - 1 - j] == r[j];
      NeverBack(Modulus(w), p[|p| - 1], Abs32(StepBack(w, p)), p[0], Reverse(r), |r| - 1 - j);
    }
  }

  // ---------------------------------------------------------------- never catching up

  /** A falling part that is read to its own end: from there leftwards, each element is the next
      of the loop. */
  lemma FallingSteps(w: Width, v: seq<int>, at: int, from: int, p: seq<int>, r: seq<int>, k: int)
    requires Window(v, at, p) && Window(v, from, r) && Reads(w, p, r) && Falling(p)
    requires from + |r| == at + |p| && from < k < at + |p|
    ensures Words(w, p) && v[k - 1] == Wrap(Modulus(w), v[k] + Abs32(StepBack(w, p))) && v[k - 1] <= p[0]
  {
    hide Wrap, ReadBack, StepBack;
    ReadsIsPushed(w, p, r);
    var q, i := Reverse(r), at + |p| - 1 - k;
    assert q[i] == r[k - from] && q[i + 1] == r[k - 1 - from];
    assert v[k] == r[k - from] && v[k - 1] == r[k - 1 - from];
  }

  /** A falling run with step zero would never end. */
  lemma FallingHasStep(w: Width, p: seq<int>, r: seq<int>)
    requires Reads(w, p, r) && Falling(p)
    ensures Words(w, p) && Abs32(StepBack(w, p)) != 0
  {
    hide ReadBack, StepBack;
    ReadsIsPushed(w, p, r);
  }

  /** The two steps undo each other in the words. */
  predicate Opposite(m: int, up: int, down: int) {
    up + down == 0 || up + down == m || up + down == -m
  }

  lemma Undone(m: int, up: int, down: int, x: int, y: int)
    requires -m < up < m && -m < down < m && 0 <= x < m && 0 <= y < m
    requires y == Wrap(m, x + up) && x == Wrap(m, y + down)
    ensures Opposite(m, up, down)
  {
  }

  lemma Undo(m: int, up: int, down: int, x: int, y: int)
    requires -m < up < m && -m < down < m && 0 <= x < m && 0 <= y < m
    requires y == Wrap(m, x + up) && Opposite(m, up, down)
    ensures x == Wrap(m, y + down)
  {
  }

  /** A falling part that is read from further left, to its own end, goes on beyond its start with
      the opposite of its step. */
  lemma ReadBeyond(w: Width, v: seq<int>, at: int, from: int, p: seq<int>, r: seq<int>)
    requires Window(v, at, p) && Window(v, from, r) && Reads(w, p, r) && Falling(p)
    requires from < at && from + |r| == at + |p|
    ensures Words(w, p) && |p| >= 3
    ensures var m, up := Modulus(w), Abs32(StepBack(w, p));
            && v[at - 1] == Wrap(m, p[0] + up) && v[at - 1] <= p[0] && p[0] == Wrap(m, p[1] + up)
            && (from + 1 < at ==> v[at - 2] == Wrap(m, v[at - 1] + up))
            && up != 0 && -m < up < m && Opposite(m, up, StepOf(p[0], p[1]))
  {
    hide ReadBack, Wrap, StepOf, StepBack, Opposite, Abs32, Pushed;
    ReadsIsPushed(w, p, r);
    FallingHasStep(w, p, r);
    var n, up := |p|, Abs32(StepBack(w, p));
    StepsFit(w, p);
    FallingSteps(w, v, at, from, p, r, at);
    FallingSteps(w, v, at, from, p, r, at + 1);
    FallingSteps(w, v, at, from, p, r, at + n - 1);
    if from + 1 < at { FallingSteps(w, v, at, from, p, r, at - 1); }
    assert v[at + 0] == p[0] && v[at + 1] == p[1] && v[at + (n - 1)] == p[n - 1] && v[at + (n - 2)] == p[n - 2];
    Undone(Modulus(w), up, StepOf(p[0], p[1]), p[n - 1], p[n - 2]);
  }

  lemma StepsFit(w: Width, p: seq<int>)
    requires |p| >= 2 && Words(w, p)
    ensures var m, up, s := Modulus(w), Abs32(StepBack(w, p)), StepOf(p[0], p[1]);
            -m < up < m && -m < s < m
  {
    hide Signed32;
    StepFits(w, p[0], p[1]);
  }

  /** The element before such a part would have started a run with it. */
  lemma SingleStarts(w: Width, s: int, up: int, a: int, first: int, second: int)
    requires -INT_LIMIT <= s < INT_LIMIT && (w == W16 ==> -0x1_0000 < s < 0x1_0000)
    requires up == Abs32(StepRead(w, s)) && up != 0 && Opposite(Modulus(w), up, s)
    requires 0 <= a <= first < Modulus(w) && 0 <= second < Modulus(w)
    requires a == Wrap(Modulus(w), first + up) && first == Wrap(Modulus(w), second + up)
    ensures second == Wrap(Modulus(w), first + StepOf(a, first))
  {
    match w
    case W16 =>
    case W32 =>
    case W64 => assert s == -up && 0 < up < INT_LIMIT;
  }

  lemma PartBounds(w: Width, v: seq<int>, at: int, p: seq<int>, i: nat)
    requires Window(v, at, p) && Words(w, p) && i < |p|
    ensures v[at + i] == p[i] && 0 <= p[i] < Modulus(w)
  {
  }

  /** A single element before such a part is impossible. */
  lemma NoSingleBefore(w: Width, v: seq<int>, at: int, from: int, p: seq<int>, r: seq<int>)
    requires Words(w, v) && Window(v, at, p) && Window(v, from, r) && Reads(w, p, r) && Falling(p)
    requires from < at && from + |r| == at + |p|
    ensures |p| >= 2 && v[at + 1] == Wrap(Modulus(w), v[at] + StepOf(v[at - 1], v[at]))
  {
    hide ReadBack, Wrap, StepOf, Opposite, Abs32;
    ReadBeyond(w, v, at, from, p, r);
    PartBounds(w, v, at, p, 0);
    PartBounds(w, v, at, p, 1);
    StepFits(w, p[0], p[1]);
    SingleStarts(w, StepOf(p[0], p[1]), Abs32(StepBack(w, p)), v[at - 1], p[0], p[1]);
  }

  /** A run before such a part would have gone on into it. */
  lemma NoRunBefore(w: Width, v: seq<int>, at: int, from: int, p: seq<int>, r: seq<int>, s: int)
    requires Words(w, v) && Window(v, at, p) && Window(v, from, r) && Reads(w, p, r) && Falling(p)
    requires from + 1 < at && from + |r| == at + |p| && -Modulus(w) < s < Modulus(w)
    requires v[at - 1] == Wrap(Modulus(w), v[at - 2] + s)
    ensures v[at] == Wrap(Modulus(w), v[at - 1] + s)
  {
    hide ReadBack, Wrap, StepOf, Opposite, Abs32, StepBack;
    ReadBeyond(w, v, at, from, p, r);
    PartBounds(w, v, at, p, 0);
    var up := Abs32(StepBack(w, p));
    Undone(Modulus(w), up, s, v[at - 1], v[at - 2]);
    Undo(Modulus(w), up, s, v[at], v[at - 1]);
  }

  /** No run is read one element short. */
  lemma NotOneShort(w: Width, v: seq<int>, at: int, from: int, p: seq<int>, r: seq<int>)
    requires Window(v, at, p) && Window(v, from, r) && Reads(w, p, r) && |p| >= 2 && from <= at
    ensures from + |r| != at + |p| - 1
  {
    if from + |r| == at + |p| - 1 {
      if Falling(p) {
        FallingNotOneShort(w, v, at, from, p, r);
      } else if from < at {
        ReadBehind(w, v, at, from, p, r);
      } else {
        RisingNotOneShort(w, p, r);
      }
    }
  }

  lemma FallingNotOneShort(w: Width, v: seq<int>, at: int, from: int, p: seq<int>, r: seq<int>)
    requires Window(v, at, p) && Window(v, from, r) && Reads(w, p, r) && Falling(p) && |p| >= 2
    ensures from + |r| != at + |p| - 1
  {
    hide ReadBack, StepBack, Detected;
    ReadsIsPushed(w, p, r);
    FallingHasStep(w, p, r);
    EqualEnd(w, p);
    assert Reverse(r)[0] == r[|r| - 1] == v[from + (|r| - 1)];
    assert p[|p| - 2] == v[at + (|p| - 2)];
  }

  lemma EqualEnd(w: Width, p: seq<int>)
    requires Detected(w, p)
    ensures |p| >= 3 && Words(w, p) && (p[|p| - 2] == p[|p| - 1] ==> Abs32(StepBack(w, p)) == 0)
  {
    hide Signed32;
    StepFits(w, p[0], p[1]);
  }

  lemma RisingNotOneShort(w: Width, p: seq<int>, r: seq<int>)
    requires Reads(w, p, r) && !Falling(p) && |p| >= 2
    requires forall i :: 0 <= i < |r| && i < |p| ==> r[i] == p[i]
    ensures |r| != |p| - 1
  {
    hide ReadBack, Wrap, StepOf;
    ReadsIsPushed(w, p, r);
    SameStep(w, p, p[|p| - 2]);
  }

  /** So what is read can never catch up in a falling part: if it ends where the part ends, it
      started there, too. */
  lemma NeverCatchesUp<T>(w: Width, v: seq<int>, kinds: seq<T>, at': int, from': int, p': seq<int>, r': seq<int>, kind': T,
                          at: int, from: int, p: seq<int>, r: seq<int>, kind: T)
    requires Words(w, v) && p' != [] && Falling(p) && |kinds| == |v|
    requires Window(v, at', p') && Window(v, from', r') && Reads(w, p', r') && StoppedIn(w, v, kinds, at', p')
    requires Window(v, at, p) && Window(v, from, r) && Reads(w, p, r)
    requires OneKind(kinds, at', |p'|, kind') && OneKind(kinds, at, |p|, kind) && OneKind(kinds, from, |r|, kind)
    requires at == at' + |p'| && from == from' + |r'| && from' <= at' && from + |r| == at + |p|
    ensures from >= at
  {
    hide ReadBack, Wrap, StepOf, Detected, Window;
    if from < at {
      BeforeIs(v, at', p');
      BeforeIs(v, at, p);
      assert kind' == kinds[at - 1] == kind && kinds[at] == kinds[at + 1] == kind;
      if |p'| == 1 {
        NoSingleBefore(w, v, at, from, p, r);
      } else {
        NotOneShort(w, v, at', from', p', r');
        RunEnds(w, p');
        StepFits(w, p'[0], p'[1]);
        NoRunBefore(w, v, at, from, p, r, StepOf(p'[0], p'[1]));
      }
    }
  }

  lemma BeforeIs(v: seq<int>, at: int, p: seq<int>)
    requires Window(v, at, p) && p != []
    ensures 0 <= at && at + |p| <= |v|
    ensures v[at + |p| - 1] == p[|p| - 1] && (|p| >= 2 ==> v[at + |p| - 2] == p[|p| - 2])
  {
    assert v[at + (|p| - 1)] == p[|p| - 1];
    assert |p| >= 2 ==> v[at + (|p| - 2)] == p[|p| - 2];
  }

  lemma RunEnds(w: Width, p: seq<int>)
    requires Detected(w, p)
    ensures |p| >= 3 && Words(w, p)
    ensures p[|p| - 1] == Wrap(Modulus(w), p[|p| - 2] + StepOf(p[0], p[1]))
  {
  }

  // ---------------------------------------------------------------- all parts together

  /** A list of numbers and their kinds; its parts as printed, what they read back as, and the kind
      that each of them is read with. */
  datatype Reading<T> = Reading(v: seq<int>, kinds: seq<T>, parts: seq<seq<int>>, back: seq<seq<int>>, partKinds: seq<T>)

  /** The parts make up the list, and so does what is read back, both with the right kinds. */
  ghost predicate Aligned<T>(w: Width, x: Reading<T>) {
    && Words(w, x.v) && |x.kinds| == |x.v| && |x.parts| == |x.back| == |x.partKinds|
    && Flat(x.parts) == x.v && Flat(x.back) == x.v
    && forall k :: 0 <= k < |x.parts| ==> PartIs(w, x, k)
  }

  ghost predicate PartIs<T>(w: Width, x: Reading<T>, k: nat)
    requires |x.kinds| == |x.v| && k < |x.parts| == |x.back| == |x.partKinds|
  {
    var at, p, kind := Offset(x.parts, k), x.parts[k], x.partKinds[k];
    && Reads(w, p, x.back[k])
    && PartStops(w, x.v, x.kinds, at, p)
    && OneKind(x.kinds, at, |p|, kind) && OneKind(x.kinds, Offset(x.back, k), |x.back[k]|, kind)
  }

  ghost predicate PartStops<T>(w: Width, v: seq<int>, kinds: seq<T>, at: int, p: seq<int>)
    requires |kinds| == |v|
  {
    p != [] && Window(v, at, p) && StoppedIn(w, v, kinds, at, p)
  }

  /** What is read never gets ahead of what was printed, and once behind, a part that does not fall
      leaves it behind. */
  lemma {:induction false} NeverAhead<T>(w: Width, x: Reading<T>, k: nat)
    requires Aligned(w, x) && k <= |x.parts|
    ensures Offset(x.back, k) <= Offset(x.parts, k)
    ensures k > 0 && !Falling(x.parts[k - 1]) && Offset(x.back, k - 1) < Offset(x.parts, k - 1) ==>
              Offset(x.back, k) < Offset(x.parts, k)
  {
    hide Reads, StoppedIn, Window, Offset, Flat, OneKind;
    if k == 0 {
      NoOffset(x.parts);
      NoOffset(x.back);
    } else {
      var i := k - 1;
      NeverAhead(w, x, i);
      PartWindow(x.parts, i);
      PartWindow(x.back, i);
      var at, from, p, r := Offset(x.parts, i), Offset(x.back, i), x.parts[i], x.back[i];
      assert PartIs(w, x, i);
      if Falling(p) {
        if from + |r| > at + |p| { ReadAhead(w, x.v, at, from, p, r); }
      } else if from < at {
        ReadBehind(w, x.v, at, from, p, r);
      } else {
        ReadNotLonger(w, x.v, x.kinds, at, p, r, x.partKinds[i]);
      }
    }
  }

  lemma NoOffset(parts: seq<seq<int>>)
    ensures Offset(parts, 0) == 0
  {
    assert parts[..0] == [];
  }

  lemma AllRead(parts: seq<seq<int>>)
    ensures Offset(parts, |parts|) == |Flat(parts)|
  {
    assert parts[..|parts|] == parts;
  }

  /** Since it has caught up in the end, it was never behind. */
  lemma {:induction false} NeverBehind<T>(w: Width, x: Reading<T>, k: nat)
    requires Aligned(w, x) && k <= |x.parts|
    ensures Offset(x.back, k) == Offset(x.parts, k)
    decreases |x.parts| - k
  {
    hide Reads, StoppedIn, Window, Offset, Flat, Falling, OneKind;
    if k == |x.parts| {
      AllRead(x.parts);
      AllRead(x.back);
    } else {
      NeverBehind(w, x, k + 1);
      NeverAhead(w, x, k);
      NeverAhead(w, x, k + 1);
      if k == 0 {
        NoOffset(x.parts);
        NoOffset(x.back);
      } else if Falling(x.parts[k]) {
        NeverAhead(w, x, k - 1);
        PartWindow(x.parts, k - 1);
        PartWindow(x.back, k - 1);
        PartWindow(x.parts, k);
        PartWindow(x.back, k);
        assert PartIs(w, x, k - 1) && PartIs(w, x, k);
        NeverCatchesUp(w, x.v, x.kinds,
                       Offset(x.parts, k - 1), Offset(x.back, k - 1), x.parts[k - 1], x.back[k - 1], x.partKinds[k - 1],
                       Offset(x.parts, k), Offset(x.back, k), x.parts[k], x.back[k], x.partKinds[k]);
      }
    }
  }

  lemma SameWindows(v: seq<int>, at: int, p: seq<int>, r: seq<int>)
    requires Window(v, at, p) && Window(v, at, r) && |p| == |r|
    ensures p == r
  {
    forall i | 0 <= i < |p| ensures p[i] == r[i] {
      assert v[at + i] == p[i];
    }
  }

  /** So every part reads back as itself. */
  lemma EachReadsBack<T>(w: Width, x: Reading<T>, k: nat)
    requires Aligned(w, x) && k < |x.parts|
    ensures x.back[k] == x.parts[k]
  {
    hide PartIs, Window, Offset, Flat;
    NeverBehind(w, x, k);
    NeverBehind(w, x, k + 1);
    PartWindow(x.parts, k);
    PartWindow(x.back, k);
    SameWindows(x.v, Offset(x.parts, k), x.parts[k], x.back[k]);
  }

  // ---------------------------------------------------------------- the cuts of the printer

  lemma {:induction false} ExtendStops(w: Width, v: seq<int>, step: int, j: nat)
    requires 1 <= j <= |v|
    ensures var e := Extend(w, v, step, j); e < |v| ==> v[e] != Wrap(Modulus(w), v[e - 1] + step)
    decreases |v| - j
  {
    hide Wrap;
    if j < |v| && v[j] == Wrap(Modulus(w), v[j - 1] + step) {
      ExtendStops(w, v, step, j + 1);
    }
  }

  lemma {:induction false} ExtendAll(w: Width, p: seq<int>, j: nat)
    requires Detected(w, p) && 2 <= j <= |p|
    ensures Extend(w, p, StepOf(p[0], p[1]), j) == |p|
    decreases |p| - j
  {
    hide Wrap, StepOf;
    if j < |p| {
      ExtendAll(w, p, j + 1);
    }
  }

  lemma HeadStops(w: Width, v: seq<int>)
    requires v != []
    ensures var p := v[..Taken(w, v)]; Window(v, 0, p) && Stopped(w, v, 0, p)
  {
    hide Wrap, StepOf;
    if |v| >= 2 {
      ExtendStops(w, v, StepOf(v[0], v[1]), 2);
    }
  }

  lemma ShiftedStops(w: Width, v: seq<int>, n: nat, at: nat, p: seq<int>)
    requires n <= |v| && p != [] && Window(v[n..], at, p) && Stopped(w, v[n..], at, p)
    ensures Window(v, n + at, p) && Stopped(w, v, n + at, p)
  {
    hide Wrap, StepOf;
    forall i | 0 <= i < |p| ensures v[n + at + i] == p[i] {
      assert v[n..][at + i] == p[i];
    }
  }

  lemma {:induction false} CutsStop(w: Width, v: seq<int>, k: nat)
    requires k < |Cuts(w, v)|
    ensures var at, p := Offset(Cuts(w, v), k), Cuts(w, v)[k];
            p != [] && Window(v, at, p) && Stopped(w, v, at, p)
    decreases |v|
  {
    hide Taken, Stopped, Window, Flat;
    var n := Taken(w, v);
    var head, rest := v[..n], Cuts(w, v[n..]);
    var parts := Cuts(w, v);
    if k == 0 {
      NoOffset(parts);
      HeadStops(w, v);
    } else {
      CutsStop(w, v[n..], k - 1);
      assert parts[..k] == [head] + rest[..k - 1];
      FlatCons(head, rest[..k - 1]);
      ShiftedStops(w, v, n, Offset(rest, k - 1), rest[k - 1]);
    }
  }

  lemma {:induction false} CutsAreAll(w: Width, v: seq<int>)
    ensures Flat(Cuts(w, v)) == v
    decreases |v|
  {
    hide Taken;
    if v != [] {
      var n := Taken(w, v);
      CutsAreAll(w, v[n..]);
      FlatCons(v[..n], Cuts(w, v[n..]));
    }
  }

  /** What was parsed is put together from what the parts read back as. */
  lemma {:induction false} ParsedParts(w: Width, v: seq<int>, u: seq<int>) returns (back: seq<seq<int>>)
    requires Words(w, v) && ParseAll(w, Tokens(w, v)) == Values(u)
    ensures |back| == |Cuts(w, v)| && Flat(back) == u
    ensures forall k :: 0 <= k < |back| ==> Reads(w, Cuts(w, v)[k], back[k])
    decreases |v|
  {
    hide ParseSegment, Token, Taken, Words, Clean, ReadBack, ProperPart;
    if v == [] {
      back := [];
    } else {
      var n := Taken(w, v);
      var part, rest := v[..n], v[n..];
      WordsSplit(w, v, n);
      HeadIsProper(w, v);
      TokenIsClean(w, part);
      ParseToken(w, part);
      var tokens := Tokens(w, v);
      assert tokens[0] == Token(w, part) && tokens[1..] == Tokens(w, rest);
      var a := ParseSegment(w, Token(w, part)).v;
      var b := ParseAll(w, Tokens(w, rest)).v;
      var more := ParsedParts(w, rest, b);
      back := [a] + more;
      FlatCons(a, more);
      assert Cuts(w, v) == [part] + Cuts(w, rest);
    }
  }

  /** Without kinds, all elements are alike. */
  function Alike(n: nat): seq<bool> { seq(n, _ => true) }

  lemma PlainPartIs(w: Width, v: seq<int>, back: seq<seq<int>>, k: nat)
    requires k < |Cuts(w, v)| == |back| && Reads(w, Cuts(w, v)[k], back[k]) && Flat(back) == v
    ensures PartIs(w, Reading(v, Alike(|v|), Cuts(w, v), back, Alike(|back|)), k)
  {
    hide Flat, Offset, Cuts, Reads, Wrap, StepOf;
    CutsStop(w, v, k);
    PartWindow(back, k);
  }

  /** The tokens of a vector parse back to it only if all its runs are sound. */
  lemma ParsedIsSound(w: Width, v: seq<int>)
    requires Words(w, v) && ParseAll(w, Tokens(w, v)) == Values(v)
    ensures AllSound(w, v)
  {
    hide ParseAll, Tokens, Flat, Reads, Sound, Words, PartIs, Cuts;
    var back := ParsedParts(w, v, v);
    var x := Reading(v, Alike(|v|), Cuts(w, v), back, Alike(|back|));
    CutsAreAll(w, v);
    forall k | 0 <= k < |back| ensures PartIs(w, x, k) { PlainPartIs(w, v, back, k); }
    assert Aligned(w, x);
    forall k | 0 <= k < |back| ensures |x.parts[k]| == 1 || Sound(w, x.parts[k]) {
      EachReadsBack(w, x, k);
      OwnReading(w, x.parts[k]);
    }
  }

  lemma OwnReading(w: Width, p: seq<int>)
    requires Reads(w, p, p)
    ensures |p| == 1 || Sound(w, p)
  {
    hide ReadBack, Sound;
    if |p| != 1 { RunsReadBackExactly(w, p); }
  }

  /** Parsing a printed vector gives it back exactly when every run that the printer detects in it
      is sound. */
  lemma RoundTripExactly(w: Width, v: seq<int>)
    requires Words(w, v)
    ensures Parse(w, Print(w, v)) == Values(v) <==> AllSound(w, v)
  {
    hide ParseAll, Tokens, Token, Taken, Words, AllSound, Split, Join;
    if AllSound(w, v) {
      RoundTrip(w, v);
    } else if v == [] {
      NothingIsSound(w);
    } else {
      WordsSplit(w, v, Taken(w, v));
      PrintIsJoin(w, v);
      TokensAreClean(w, v);
      SplitJoin(Tokens(w, v), SEPARATORS);
      assert Print(w, v) != "" by { TokenIsClean(w, v[..Taken(w, v)]); }
      if ParseAll(w, Tokens(w, v)) == Values(v) { ParsedIsSound(w, v); }
    }
  }

  lemma NothingIsSound(w: Width)
    ensures AllSound(w, [])
  {
  }

  lemma {:induction false} TokensAreClean(w: Width, v: seq<int>)
    requires Words(w, v)
    ensures forall i :: 0 <= i < |Tokens(w, v)| ==> Clean(Tokens(w, v)[i], SEPARATORS)
    decreases |v|
  {
    hide Token, Taken, Words, Clean;
    if v != [] {
      var n := Taken(w, v);
      WordsSplit(w, v, n);
      TokenIsClean(w, v[..n]);
      TokensAreClean(w, v[n..]);
    }
  }
}
