/**
 The range loops of VectorTranslator (include/redux/translators.hpp:174-196): how a run of
 numbers is compressed to first, step and last, and what expanding those three gives back.
 Unsigned words wrap, the step is a 32-bit signed integer, and a loop may never end.
 */
module Ranges {
  import opened Integers

  datatype Width = W16 | W32 | W64

  function Modulus(w: Width): int {
    match w
    case W16 => 0x1_0000
    case W32 => 0x1_0000_0000
    case W64 => 0x1_0000_0000_0000_0000
  }

  /** `abs` on an `int`; the smallest one has no positive counterpart and stays as it is. */
  function Abs32(n: int): int {
    if n < 0 && n != -INT_LIMIT then -n else n
  }

  /** Unsigned addition of a word and a step shorter than the word, as the word type wraps it. */
  function Wrap(m: int, a: int): int {
    if a < 0 then a + m else if a >= m then a - m else a
  }

  predicate Words(w: Width, v: seq<int>) {
    forall i :: 0 <= i < |v| ==> 0 <= v[i] < Modulus(w)
  }

  function Reverse(v: seq<int>): (r: seq<int>)
    ensures |r| == |v|
  {
    seq(|v|, i requires 0 <= i < |v| => v[|v| - 1 - i])
  }

  lemma ReverseTwice(v: seq<int>)
    ensures Reverse(Reverse(v)) == v
  {
  }

  // ---------------------------------------------------------------- the push loop

  datatype Outcome = Values(v: seq<int>) | BadText | Diverges

  /** What the loop `while( first <= last ) { push( first ); first += step; }` pushes in at
      most `n` rounds. */
  ghost function Walk(m: int, first: int, step: int, last: int, n: nat): (v: seq<int>)
    requires 0 <= first < m && -m < step < m
    decreases n
  {
    if n == 0 || first > last then [] else [first] + Walk(m, Wrap(m, first + step), step, last, n - 1)
  }

  /** The loop has ended after at most `n` rounds. */
  ghost predicate StopsBy(m: int, first: int, step: int, last: int, n: nat)
    requires 0 <= first < m && -m < step < m
    decreases n
  {
    first > last || (n > 0 && StopsBy(m, Wrap(m, first + step), step, last, n - 1))
  }

  /** The outcome of the loop: what it pushes, if it ends at all. */
  ghost function Expand(m: int, first: int, step: int, last: int): Outcome
    requires 0 <= first < m && -m < step < m
  {
    if exists n: nat :: StopsBy(m, first, step, last, n) then
      var n: nat :| StopsBy(m, first, step, last, n);
      Values(Walk(m, first, step, last, n))
    else
      Diverges
  }

  /** `v` is a complete execution of the loop that pushes at least once. */
  ghost predicate Pushed(m: int, first: int, step: int, last: int, v: seq<int>) {
    && |v| > 0 && v[0] == first
    && (forall j :: 0 <= j < |v| ==> 0 <= v[j] <= last)
    && (forall j :: 1 <= j < |v| ==> v[j] == Wrap(m, v[j - 1] + step))
    && Wrap(m, v[|v| - 1] + step) > last
  }

  lemma PushedCons(m: int, first: int, step: int, last: int, rest: seq<int>)
    requires 0 <= first <= last && Pushed(m, Wrap(m, first + step), step, last, rest)
    ensures Pushed(m, first, step, last, [first] + rest)
  {
    var v := [first] + rest;
    assert forall j :: 1 <= j < |v| ==> v[j] == rest[j - 1];
    assert v[|v| - 1] == rest[|rest| - 1];
  }

  lemma {:induction false} StoppedWalk(m: int, first: int, step: int, last: int, n: nat)
    requires 0 <= first < m && -m < step < m && first <= last
    requires StopsBy(m, first, step, last, n)
    ensures Pushed(m, first, step, last, Walk(m, first, step, last, n))
    decreases n
  {
    var next := Wrap(m, first + step);
    var v := Walk(m, first, step, last, n);
    if next > last {
      assert Walk(m, next, step, last, n - 1) == [];
      assert v == [first];
    } else {
      StoppedWalk(m, next, step, last, n - 1);
      PushedCons(m, first, step, last, Walk(m, next, step, last, n - 1));
    }
  }

  lemma {:induction false} PushedWalk(m: int, first: int, step: int, last: int, v: seq<int>, n: nat)
    requires 0 <= first < m && -m < step < m
    requires Pushed(m, first, step, last, v)
    ensures StopsBy(m, first, step, last, n) <==> n >= |v|
    ensures n >= |v| ==> Walk(m, first, step, last, n) == v
    decreases n
  {
    if n > 0 {
      var next := Wrap(m, first + step);
      if |v| == 1 {
        assert v == [first];
      } else {
        PushedTail(m, first, step, last, v);
        PushedWalk(m, next, step, last, v[1..], n - 1);
        assert v == [first] + v[1..];
      }
    }
  }

  lemma PushedTail(m: int, first: int, step: int, last: int, v: seq<int>)
    requires Pushed(m, first, step, last, v) && |v| > 1
    ensures Pushed(m, Wrap(m, first + step), step, last, v[1..])
  {
  }

  /** The loop's outcome is the sequence `v` exactly when `v` is a complete execution. */
  lemma ExpandExactly(m: int, first: int, step: int, last: int, v: seq<int>)
    requires 0 <= first < m && -m < step < m && first <= last
    ensures Expand(m, first, step, last) == Values(v) <==> Pushed(m, first, step, last, v)
  {
    if Pushed(m, first, step, last, v) {
      forall n: nat ensures StopsBy(m, first, step, last, n) ==> Walk(m, first, step, last, n) == v {
        PushedWalk(m, first, step, last, v, n);
      }
      PushedWalk(m, first, step, last, v, |v|);
    } else if n: nat :| StopsBy(m, first, step, last, n) {
      forall n: nat | StopsBy(m, first, step, last, n)
        ensures Pushed(m, first, step, last, Walk(m, first, step, last, n))
      {
        StoppedWalk(m, first, step, last, n);
      }
    }
  }

  // ---------------------------------------------------------------- first, step, last

  /** What a `first:step:last` segment expands to: bounds in falling order are exchanged, a
      negative step made positive, and the result turned round. */
  ghost function Range(w: Width, first: int, step: int, last: int): Outcome
    requires 0 <= first < Modulus(w) && 0 <= last < Modulus(w)
    requires -Modulus(w) < step < Modulus(w)
  {
    if first > last then
      match Expand(Modulus(w), last, Abs32(step), first)
      case Values(v) => Values(Reverse(v))
      case other => other
    else
      Expand(Modulus(w), first, step, last)
  }

  /** The step that is read back from a printed step: the text is cast to the unsigned word
      and then narrowed to `int`. */
  function StepRead(w: Width, step: int): (s: int)
    requires -INT_LIMIT <= step < INT_LIMIT
    requires w == W16 ==> -0x1_0000 < step < 0x1_0000
    ensures w != W16 || step >= 0 ==> s == step
    ensures w == W16 && step < 0 ==> s == step + 0x1_0000
  {
    Signed32(if step < 0 then Modulus(w) + step else step)
  }

  function StepOf(a: int, b: int): int {
    Signed32(b - a)
  }

  lemma StepFits(w: Width, a: int, b: int)
    requires 0 <= a < Modulus(w) && 0 <= b < Modulus(w)
    ensures -Modulus(w) < StepOf(a, b) < Modulus(w)
    ensures w == W16 ==> -0x1_0000 < StepOf(a, b) < 0x1_0000
    ensures -INT_LIMIT <= StepOf(a, b) < INT_LIMIT
  {
  }

  /** `r` is what the printer takes for a run: from its third element on, every element is the
      previous one plus the first difference, both as the machine computes them. */
  ghost predicate Detected(w: Width, r: seq<int>) {
    && |r| >= 3 && Words(w, r)
    && forall j :: 2 <= j < |r| ==> r[j] == Wrap(Modulus(w), r[j - 1] + StepOf(r[0], r[1]))
  }

  /** A run that survives: a true progression with a nonzero step that fits an `int`, with room
      for one more step above it, and rising if the words have 16 bits. */
  predicate Sound(w: Width, r: seq<int>) {
    && |r| >= 2
    && var s := r[1] - r[0];
    && s != 0 && -INT_LIMIT < s < INT_LIMIT
    && (forall j :: 1 <= j < |r| ==> r[j] - r[j - 1] == s)
    && (if s > 0 then r[|r| - 1] + s else r[0] - s) < Modulus(w)
    && (s > 0 || w != W16)
  }

  /** What a run comes back as, once printed and read. */
  ghost function ReadBack(w: Width, r: seq<int>): Outcome
    requires |r| >= 2 && Words(w, r)
  {
    Range(w, r[0], StepRead(w, StepOf(r[0], r[1])), r[|r| - 1])
  }

  lemma {:induction false} ProgressionEnd(r: seq<int>, s: int, j: nat)
    requires j < |r| && forall i :: 1 <= i < |r| ==> r[i] - r[i - 1] == s
    ensures s > 0 ==> r[j] <= r[|r| - 1]
    decreases |r| - j
  {
    if j < |r| - 1 {
      assert r[j + 1] - r[j] == s;
      ProgressionEnd(r, s, j + 1);
    }
  }

  lemma RisingPushed(m: int, r: seq<int>, s: int)
    requires |r| >= 2 && s > 0 && r[|r| - 1] + s < m
    requires forall j :: 0 <= j < |r| ==> 0 <= r[j]
    requires forall j :: 1 <= j < |r| ==> r[j] - r[j - 1] == s
    ensures Pushed(m, r[0], s, r[|r| - 1], r)
    ensures r[0] < r[|r| - 1]
  {
    forall j | 0 <= j < |r| ensures r[j] <= r[|r| - 1] {
      ProgressionEnd(r, s, j);
    }
    assert r[1] - r[0] == s && r[1] <= r[|r| - 1];
  }

  lemma ReadBackCases(w: Width, r: seq<int>)
    requires |r| >= 2 && Words(w, r)
    ensures var m, t, last := Modulus(w), StepRead(w, StepOf(r[0], r[1])), r[|r| - 1];
            && -m < t < m
            && (r[0] <= last ==> ReadBack(w, r) == Expand(m, r[0], t, last))
            && (r[0] > last ==>
                  (ReadBack(w, r) == Values(r) <==> Expand(m, last, Abs32(t), r[0]) == Values(Reverse(r))))
  {
    hide Expand, Signed32, Reverse;
    StepFits(w, r[0], r[1]);
    var m, t, last := Modulus(w), StepRead(w, StepOf(r[0], r[1])), r[|r| - 1];
    if r[0] > last {
      ReverseTwice(r);
      var e := Expand(m, last, Abs32(t), r[0]);
      if e.Values? {
        ReverseTwice(e.v);
      }
    }
  }

  lemma RisingReadsBack(w: Width, r: seq<int>)
    requires Words(w, r) && Sound(w, r) && r[1] > r[0]
    ensures ReadBack(w, r) == Values(r)
  {
    hide Expand, Pushed, Wrap, Modulus, Signed32;
    var m, s, n := Modulus(w), r[1] - r[0], |r|;
    StepFits(w, r[0], r[1]);
    RisingPushed(m, r, s);
    ExpandExactly(m, r[0], s, r[n - 1], r);
  }

  lemma FallingReadsBack(w: Width, r: seq<int>)
    requires Words(w, r) && Sound(w, r) && r[1] < r[0]
    ensures ReadBack(w, r) == Values(r)
  {
    hide Expand, Pushed, Wrap, Modulus, Signed32, ReadBack;
    var m, s, n := Modulus(w), r[1] - r[0], |r|;
    var v := Reverse(r);
    StepFits(w, r[0], r[1]);
    ReadBackCases(w, r);
    ReverseFalls(r, s);
    RisingPushed(m, v, -s);
    ExpandExactly(m, r[n - 1], -s, r[0], v);
  }

  lemma ReverseFalls(r: seq<int>, s: int)
    requires forall j :: 1 <= j < |r| ==> r[j] - r[j - 1] == s
    ensures forall j :: 1 <= j < |r| ==> Reverse(r)[j] - Reverse(r)[j - 1] == -s
  {
    var v, n := Reverse(r), |r|;
    forall j | 1 <= j < n ensures v[j] - v[j - 1] == -s {
      assert v[j] == r[n - 1 - j] && v[j - 1] == r[n - j];
    }
  }

  lemma ForwardIsSound(w: Width, r: seq<int>, t: int)
    requires |r| >= 3 && Words(w, r) && -Modulus(w) < t < Modulus(w)
    requires t == StepRead(w, StepOf(r[0], r[1]))
    requires Pushed(Modulus(w), r[0], t, r[|r| - 1], r)
    ensures Sound(w, r)
  {
    var m, s, n := Modulus(w), StepOf(r[0], r[1]), |r|;
    assert r[1] == Wrap(m, r[0] + t);
    if t > 0 {
      assert forall j :: 1 <= j < n ==> r[j] == r[j - 1] + t;
    }
  }

  lemma BackwardIsSound(w: Width, r: seq<int>, t: int)
    requires Detected(w, r) && r[0] > r[|r| - 1] && -Modulus(w) < t < Modulus(w)
    requires t == Abs32(StepRead(w, StepOf(r[0], r[1])))
    requires Pushed(Modulus(w), r[|r| - 1], t, r[0], Reverse(r))
    ensures Sound(w, r)
  {
    hide Pushed, Wrap, Modulus;
    BackwardStep(w, r, t);
    NoWrap(Modulus(w), r[|r| - 1], t, r[0], Reverse(r));
    ReverseFalls(Reverse(r), t);
    ReverseTwice(r);
    assert r[1] - r[0] == -t;
  }

  lemma NoWrap(m: int, first: int, t: int, last: int, v: seq<int>)
    requires Pushed(m, first, t, last, v) && t > 0 && last + t < m
    requires forall j :: 0 <= j < |v| ==> 0 <= v[j]
    ensures forall j :: 1 <= j < |v| ==> v[j] - v[j - 1] == t
  {
  }

  lemma BackwardStep(w: Width, r: seq<int>, t: int)
    requires Detected(w, r) && r[0] > r[|r| - 1] && -Modulus(w) < t < Modulus(w)
    requires t == Abs32(StepRead(w, StepOf(r[0], r[1])))
    requires Pushed(Modulus(w), r[|r| - 1], t, r[0], Reverse(r))
    ensures 0 < t && r[0] + t < Modulus(w) && w != W16 && t < INT_LIMIT
  {
    hide Modulus, Wrap, Signed32, Abs32;
    var n := |r|;
    var v := Reverse(r);
    assert v[0] == r[n - 1] && v[1] == r[n - 2] && v[2] == r[n - 3] && v[n - 1] == r[0];
    StepFits(w, r[0], r[1]);
    LastThree(w, StepOf(r[0], r[1]), t, v[0], v[1], v[2], v[n - 1]);
  }

  /** The last three elements of a falling run and its first decide its step. */
  lemma LastThree(w: Width, s: int, t: int, lo: int, next: int, third: int, hi: int)
    requires -INT_LIMIT <= s < INT_LIMIT && (w == W16 ==> -0x1_0000 < s < 0x1_0000)
    requires t == Abs32(StepRead(w, s))
    requires 0 <= lo < hi < Modulus(w) && 0 <= next <= hi && 0 <= third <= hi
    requires next == Wrap(Modulus(w), lo + t) && third == Wrap(Modulus(w), next + t)
    requires lo == Wrap(Modulus(w), next + s)
    requires Wrap(Modulus(w), hi + t) > hi
    ensures 0 < t < INT_LIMIT && s == -t && hi + t < Modulus(w) && w != W16
  {
  }

  lemma ReadBackIsSound(w: Width, r: seq<int>)
    requires Detected(w, r) && ReadBack(w, r) == Values(r)
    ensures Sound(w, r)
  {
    hide Expand, Pushed, Wrap, Sound, Modulus, Signed32, ReadBack, Reverse, StepRead;
    var m, n := Modulus(w), |r|;
    StepFits(w, r[0], r[1]);
    ReadBackCases(w, r);
    var t := StepRead(w, StepOf(r[0], r[1]));
    if r[0] <= r[n - 1] {
      ExpandExactly(m, r[0], t, r[n - 1], r);
      ForwardIsSound(w, r, t);
    } else {
      ExpandExactly(m, r[n - 1], Abs32(t), r[0], Reverse(r));
      BackwardIsSound(w, r, Abs32(t));
    }
  }

  /** A run that the printer detects reads back as itself exactly when it is sound. */
  lemma RunsReadBackExactly(w: Width, r: seq<int>)
    requires Detected(w, r)
    ensures |r| >= 3 && Words(w, r)
    ensures ReadBack(w, r) == Values(r) <==> Sound(w, r)
  {
    DetectedParts(w, r);
    hide ReadBack, Detected;
    if Sound(w, r) {
      if r[1] > r[0] { RisingReadsBack(w, r); } else { FallingReadsBack(w, r); }
    }
    if ReadBack(w, r) == Values(r) {
      ReadBackIsSound(w, r);
    }
  }

  lemma DetectedParts(w: Width, r: seq<int>)
    requires Detected(w, r)
    ensures |r| >= 3 && Words(w, r)
  {
  }
}
