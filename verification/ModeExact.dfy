/**
 When reading back a printed mode list gives that list (include/redux/translators.hpp:411-525): where
 the letters tell neighbouring types apart, exactly if every run the printer detects is sound.
 */
module ModeExact {
  import opened Integers
  import opened Text
  import opened Ranges
  import opened VectorText
  import opened VectorExact
  import opened ModeText

  /** Neighbours of different types are printed with different letters. Of Zernike and
      Karhunen-Loeve modes that is always true. */
  predicate LettersTell(def: ModeBase, l: seq<ModeID>) {
    forall i :: 0 < i < |l| && l[i - 1].kind != l[i].kind ==> KindRead(def, l[i - 1].kind) != KindRead(def, l[i].kind)
  }

  /** The numbers of each segment, and the type it is read with. */
  function ModeParts(l: seq<ModeID>): seq<seq<int>>
    decreases |l|
  {
    if l == [] then [] else [Numbers(l[..ModesTaken(l)])] + ModeParts(l[ModesTaken(l)..])
  }

  function PartKinds(def: ModeBase, l: seq<ModeID>): (kinds: seq<ModeBase>)
    ensures |kinds| == |ModeParts(l)|
    decreases |l|
  {
    if l == [] then [] else [KindRead(def, l[0].kind)] + PartKinds(def, l[ModesTaken(l)..])
  }

  /** The type each element is read with. */
  function KindsRead(def: ModeBase, l: seq<ModeID>): (kinds: seq<ModeBase>)
    ensures |kinds| == |l|
    ensures forall i :: 0 <= i < |l| ==> kinds[i] == KindRead(def, l[i].kind)
  {
    seq(|l|, i requires 0 <= i < |l| => KindRead(def, l[i].kind))
  }

  lemma NumbersSplit(l: seq<ModeID>, n: nat)
    requires n <= |l|
    ensures Numbers(l[..n]) == Numbers(l)[..n] && Numbers(l[n..]) == Numbers(l)[n..]
    ensures Numbers(l[..n]) + Numbers(l[n..]) == Numbers(l)
  {
  }

  lemma {:induction false} ModePartsAreAll(l: seq<ModeID>)
    ensures Flat(ModeParts(l)) == Numbers(l)
    decreases |l|
  {
    hide ModesTaken;
    if l != [] {
      var n := ModesTaken(l);
      ModePartsAreAll(l[n..]);
      FlatCons(Numbers(l[..n]), ModeParts(l[n..]));
      NumbersSplit(l, n);
    }
  }

  lemma ConsOffset(first: seq<int>, rest: seq<seq<int>>, k: nat)
    requires k < |rest|
    ensures Offset([first] + rest, k + 1) == |first| + Offset(rest, k)
  {
    assert ([first] + rest)[..k + 1] == [first] + rest[..k];
    FlatCons(first, rest[..k]);
  }

  // ---------------------------------------------------------------- where segments stop

  /** The first segment stops where its run ends or the type changes. */
  lemma HeadOfModes(def: ModeBase, l: seq<ModeID>)
    requires l != [] && LettersTell(def, l)
    ensures var v, n := Numbers(l), ModesTaken(l);
            && PartStops(W16, v, KindsRead(def, l), 0, v[..n])
            && OneKind(KindsRead(def, l), 0, n, KindRead(def, l[0].kind))
  {
    hide Wrap, StepOf, Taken, KindRead;
    var k := SameKind(l, 1);
    var u, v := Numbers(l[..k]), Numbers(l);
    HeadStops(W16, u);
    var n := Taken(W16, u);
    assert u == v[..k] && u[..n] == v[..n];
    assert k < |l| ==> KindsRead(def, l)[k] != KindsRead(def, l)[k - 1];
  }

  lemma LaterModes(v: seq<int>, kinds: seq<ModeBase>, n: nat, at: nat, p: seq<int>)
    requires n <= |v| == |kinds| && PartStops(W16, v[n..], kinds[n..], at, p)
    ensures PartStops(W16, v, kinds, n + at, p)
  {
    hide Wrap, StepOf;
    forall i | 0 <= i < |p| ensures v[n + at + i] == p[i] {
      assert v[n..][at + i] == p[i];
    }
  }

  lemma {:induction false} ModePartStops(def: ModeBase, l: seq<ModeID>, k: nat)
    requires LettersTell(def, l) && k < |ModeParts(l)|
    ensures var at, p := Offset(ModeParts(l), k), ModeParts(l)[k];
            && PartStops(W16, Numbers(l), KindsRead(def, l), at, p)
            && OneKind(KindsRead(def, l), at, |p|, PartKinds(def, l)[k])
    decreases |l|
  {
    hide ModesTaken, PartStops, KindRead, Flat, LettersTell, OneKind, Numbers, KindsRead;
    var n := ModesTaken(l);
    var head, rest := Numbers(l[..n]), ModeParts(l[n..]);
    var parts, kinds := ModeParts(l), KindsRead(def, l);
    NumbersSplit(l, n);
    if k == 0 {
      NoOffset(parts);
      HeadOfModes(def, l);
    } else {
      RestTells(def, l, n);
      ModePartStops(def, l[n..], k - 1);
      ConsOffset(head, rest, k - 1);
      assert KindsRead(def, l[n..]) == kinds[n..] by { KindsSplit(def, l, n); }
      LaterModes(Numbers(l), kinds, n, Offset(rest, k - 1), rest[k - 1]);
      LaterKind(kinds, n, Offset(rest, k - 1), |rest[k - 1]|, PartKinds(def, l)[k]);
    }
  }

  lemma KindsSplit(def: ModeBase, l: seq<ModeID>, n: nat)
    requires n <= |l|
    ensures KindsRead(def, l[n..]) == KindsRead(def, l)[n..]
  {
  }

  lemma LaterKind(kinds: seq<ModeBase>, n: nat, at: nat, m: nat, kind: ModeBase)
    requires n <= |kinds| && OneKind(kinds[n..], at, m, kind)
    ensures OneKind(kinds, n + at, m, kind)
  {
    assert forall i :: n + at <= i < n + at + m ==> kinds[i] == kinds[n..][i - n];
  }

  lemma RestTells(def: ModeBase, l: seq<ModeID>, n: nat)
    requires LettersTell(def, l) && n <= |l|
    ensures LettersTell(def, l[n..])
  {
  }

  // ---------------------------------------------------------------- what is read

  lemma ParseModeTokenIs(def: ModeBase, part: seq<ModeID>)
    requires part != [] && ModeWords(part)
    ensures var o := ParseSegment(W16, Token(W16, Numbers(part)));
            o.Values? ==> ParseModes(ModeToken(def, part)) == Modes(OfKind(o.v, KindRead(def, part[0].kind)))
    ensures ParseModes(ModeToken(def, part)).Modes? ==> ParseSegment(W16, Token(W16, Numbers(part))).Values?
  {
    hide ParseSegment, Token, Stripped, Count;
    TokenIsLetterless(Numbers(part));
    StripLetter(Letter(def, part[0].kind), Token(W16, Numbers(part)));
  }

  /** The kinds in a list of modes. */
  ghost predicate KindsAre(u: seq<ModeID>, at: int, n: int, kind: ModeBase) {
    0 <= at && at + n <= |u| && forall i :: at <= i < at + n ==> u[i].kind == kind
  }

  lemma ShiftKinds(a: seq<ModeID>, b: seq<ModeID>, at: nat, n: nat, kind: ModeBase)
    requires KindsAre(b, at, n, kind)
    ensures KindsAre(a + b, |a| + at, n, kind)
  {
  }

  /** What the segments after the first read back as, seen from the whole list. */
  lemma ConsKinds(first: seq<int>, more: seq<seq<int>>, a: seq<ModeID>, b: seq<ModeID>, kinds: seq<ModeBase>, k: nat)
    requires |kinds| == |more| + 1 && k <= |more| && a == OfKind(first, kinds[0])
    requires k > 0 ==> KindsAre(b, Offset(more, k - 1), |more[k - 1]|, kinds[k])
    ensures var back := [first] + more; KindsAre(a + b, Offset(back, k), |back[k]|, kinds[k])
  {
    hide Offset;
    if k == 0 {
      NoOffset([first] + more);
    } else {
      ConsOffset(first, more, k - 1);
      ShiftKinds(a, b, Offset(more, k - 1), |more[k - 1]|, kinds[k]);
    }
  }

  lemma NumbersJoin(a: seq<ModeID>, b: seq<ModeID>, first: seq<int>, kind: ModeBase)
    requires a == OfKind(first, kind)
    ensures Numbers(a + b) == first + Numbers(b)
  {
  }

  /** What was parsed is put together from what the segments read back as, with their types. */
  lemma {:induction false} ParsedModes(def: ModeBase, l: seq<ModeID>, u: seq<ModeID>) returns (back: seq<seq<int>>)
    requires ModeWords(l) && ParseModesAll(ModeTokens(def, l)) == Modes(u)
    ensures |back| == |ModeParts(l)| && Flat(back) == Numbers(u)
    ensures forall k :: 0 <= k < |back| ==> Reads(W16, ModeParts(l)[k], back[k])
    ensures forall k :: 0 <= k < |back| ==> KindsAre(u, Offset(back, k), |back[k]|, PartKinds(def, l)[k])
    decreases |l|
  {
    hide ParseSegment, ParseModes, Token, ModeToken, ModesTaken, ModeWords, ReadBack, ProperPart, Offset, KindRead,
         KindsAre, Numbers, OfKind;
    if l == [] {
      back := [];
    } else {
      var n := ModesTaken(l);
      var part, rest := l[..n], l[n..];
      ModeWordsSplit(l, n);
      ModeNumbers(part);
      ModeHead(l);
      ParseToken(W16, Numbers(part));
      ParseModeTokenIs(def, part);
      var tokens := ModeTokens(def, l);
      assert tokens[0] == ModeToken(def, part) && tokens[1..] == ModeTokens(def, rest);
      var a, b := ParseModes(ModeToken(def, part)).l, ParseModesAll(ModeTokens(def, rest)).l;
      var more := ParsedModes(def, rest, b);
      var first := ParseSegment(W16, Token(W16, Numbers(part))).v;
      back := [first] + more;
      FlatCons(first, more);
      NumbersJoin(a, b, first, KindRead(def, l[0].kind));
      assert ModeParts(l) == [Numbers(part)] + ModeParts(rest);
      forall k | 0 <= k < |back| ensures KindsAre(u, Offset(back, k), |back[k]|, PartKinds(def, l)[k]) {
        ConsKinds(first, more, a, b, PartKinds(def, l), k);
      }
    }
  }

  // ---------------------------------------------------------------- the theorem

  lemma {:induction false} PartsSound(l: seq<ModeID>)
    requires forall k :: 0 <= k < |ModeParts(l)| ==> |ModeParts(l)[k]| == 1 || Sound(W16, ModeParts(l)[k])
    ensures ModesSound(l)
    decreases |l|
  {
    hide Sound, ModesTaken;
    if l != [] {
      var parts, rest := ModeParts(l), ModeParts(l[ModesTaken(l)..]);
      assert parts[0] == Numbers(l[..ModesTaken(l)]);
      assert forall k :: 0 <= k < |rest| ==> rest[k] == parts[k + 1];
      PartsSound(l[ModesTaken(l)..]);
    }
  }

  lemma ModePartIs(def: ModeBase, l: seq<ModeID>, back: seq<seq<int>>, k: nat)
    requires LettersTell(def, l) && k < |ModeParts(l)| == |back| && Reads(W16, ModeParts(l)[k], back[k])
    requires KindsAre(Retyped(def, l), Offset(back, k), |back[k]|, PartKinds(def, l)[k])
    ensures PartIs(W16, Reading(Numbers(l), KindsRead(def, l), ModeParts(l), back, PartKinds(def, l)), k)
  {
    hide LettersTell, Reads, PartStops, Offset, KindRead, ModeParts, PartKinds;
    ModePartStops(def, l, k);
  }

  lemma ParsedModesSound(def: ModeBase, l: seq<ModeID>)
    requires ModeWords(l) && LettersTell(def, l) && ParseModesAll(ModeTokens(def, l)) == Modes(Retyped(def, l))
    ensures ModesSound(l)
  {
    hide ParseModesAll, ModeTokens, Flat, Reads, Sound, PartIs, ModeParts, PartKinds, KindsAre, LettersTell, ModesSound;
    var back := ParsedModes(def, l, Retyped(def, l));
    var x := Reading(Numbers(l), KindsRead(def, l), ModeParts(l), back, PartKinds(def, l));
    ModePartsAreAll(l);
    ModeNumbers(l);
    assert Numbers(Retyped(def, l)) == Numbers(l);
    forall k | 0 <= k < |back| ensures PartIs(W16, x, k) { ModePartIs(def, l, back, k); }
    assert Aligned(W16, x);
    forall k | 0 <= k < |back| ensures |x.parts[k]| == 1 || Sound(W16, x.parts[k]) {
      EachReadsBack(W16, x, k);
      OwnReading(W16, x.parts[k]);
    }
    PartsSound(l);
  }

  lemma {:induction false} ModeTokensAreClean(def: ModeBase, l: seq<ModeID>)
    requires ModeWords(l)
    ensures forall i :: 0 <= i < |ModeTokens(def, l)| ==> Clean(ModeTokens(def, l)[i], {','})
    decreases |l|
  {
    hide ModeToken, ModesTaken, ModeWords, Clean;
    if l != [] {
      var n := ModesTaken(l);
      ModeWordsSplit(l, n);
      ModeTokenIsClean(def, l[..n]);
      ModeTokensAreClean(def, l[n..]);
    }
  }

  /** Parsing a printed mode list gives the same modes, with the types their letters stand for,
      exactly when every run that the printer detects in it is sound. */
  lemma ModesRoundTripExactly(def: ModeBase, l: seq<ModeID>)
    requires ModeWords(l) && LettersTell(def, l)
    ensures ModeParse(ModePrint(def, l)) == Modes(Retyped(def, l)) <==> ModesSound(l)
  {
    hide ParseModesAll, ModeTokens, ModeToken, ModesTaken, ModeWords, LettersTell, Split, Join, Sound;
    if ModesSound(l) {
      ModesRoundTrip(def, l);
    } else {
      ModeWordsSplit(l, ModesTaken(l));
      ModePrintIsJoin(def, l);
      ModeTokensAreClean(def, l);
      SplitJoin(ModeTokens(def, l), {','});
      assert ModePrint(def, l) != "" by { ModeTokenIsClean(def, l[..ModesTaken(l)]); }
      if ParseModesAll(ModeTokens(def, l)) == Modes(Retyped(def, l)) { ParsedModesSound(def, l); }
    }
  }

  /** For lists of Zernike and Karhunen-Loeve modes the letters always tell. */
  lemma UsualLettersTell(def: ModeBase, l: seq<ModeID>)
    requires forall i :: 0 <= i < |l| ==> l[i].kind == Zernike || l[i].kind == KarhunenLoeve
    ensures LettersTell(def, l)
  {
  }

  // ---------------------------------------------------------------- where the letters do not tell

  // Types without a letter of their own are printed as Zernike modes. These three runs read back
  // wrongly, the first one too long and the others too short, and yet add up to the same numbers.
  const FIRST_RUN: seq<int> := [8192, 28672, 49152]
  const SECOND_RUN: seq<int> := [4096, 24576, 45056, 0, 20480]
  const THIRD_RUN: seq<int> := [40960, 4096, 32768]

  function Cancelling(): seq<ModeID> {
    OfKind(FIRST_RUN, MbNone) + (OfKind(SECOND_RUN, Zernike) + OfKind(THIRD_RUN, MbNone))
  }

  /** A run of one type before another type is printed as one segment. */
  lemma RunIsTaken(p: seq<int>, kind: ModeBase, rest: seq<ModeID>)
    requires Detected(W16, p) && (rest != [] ==> rest[0].kind != kind)
    ensures var l := OfKind(p, kind) + rest; ModesTaken(l) == |p| && l[..|p|] == OfKind(p, kind) && l[|p|..] == rest
  {
    hide Wrap, StepOf, Extend;
    var l := OfKind(p, kind) + rest;
    assert |p| >= 3;
    assert SameKind(l, 1) == |p|;
    assert Numbers(l[..|p|]) == p;
    ExtendAll(W16, p, 2);
  }

  lemma RunIsRead(p: seq<int>, kind: ModeBase, rest: seq<ModeID>, r: seq<int>, u: seq<ModeID>)
    requires Detected(W16, p) && (rest != [] ==> rest[0].kind != kind) && kind != KarhunenLoeve
    requires Words(W16, p) && ReadBack(W16, p) == Values(r) && ModeWords(rest)
    requires ParseModesAll(ModeTokens(MbNone, rest)) == Modes(u)
    ensures var l := OfKind(p, kind) + rest;
            ModeWords(l) && ParseModesAll(ModeTokens(MbNone, l)) == Modes(OfKind(r, Zernike) + u)
  {
    hide ParseSegment, ParseModes, ModeToken, ModesTaken, ReadBack, Detected, Token;
    var part := OfKind(p, kind);
    var l := part + rest;
    RunIsTaken(p, kind, rest);
    assert |p| >= 3 by { DetectedParts(W16, p); }
    assert Numbers(part) == p;
    ParseToken(W16, p);
    ParseModeTokenIs(MbNone, part);
    ModesCons(ModeToken(MbNone, part), ModeTokens(MbNone, rest), OfKind(r, Zernike), u);
  }

  lemma FirstReadsTooLong()
    ensures Detected(W16, FIRST_RUN) && Words(W16, FIRST_RUN)
    ensures ReadBack(W16, FIRST_RUN) == Values(FIRST_RUN + ([4096, 24576, 45056, 0, 20480] + [40960]))
  {
    hide Expand, Pushed, Wrap;
    var all := [8192, 28672, 49152, 4096, 24576, 45056, 0, 20480, 40960];
    assert FIRST_RUN + ([4096, 24576, 45056, 0, 20480] + [40960]) == all;
    FirstIsPushed();
    FirstIsDetected();
    ExpandExactly(0x1_0000, 8192, 20480, 49152, all);
  }

  lemma FirstIsDetected()
    ensures Detected(W16, FIRST_RUN) && Words(W16, FIRST_RUN) && StepRead(W16, StepOf(FIRST_RUN[0], FIRST_RUN[1])) == 20480
  {
  }

  lemma FirstIsPushed()
    ensures Pushed(0x1_0000, 8192, 20480, 49152, [8192, 28672, 49152, 4096, 24576, 45056, 0, 20480, 40960])
  {
  }

  lemma SecondReadsTooShort()
    ensures Detected(W16, SECOND_RUN) && Words(W16, SECOND_RUN) && ReadBack(W16, SECOND_RUN) == Values([4096])
  {
    hide Expand;
    ExpandExactly(0x1_0000, 4096, 20480, 20480, [4096]);
  }

  lemma ThirdReadsTooShort()
    ensures Detected(W16, THIRD_RUN) && Words(W16, THIRD_RUN) && ReadBack(W16, THIRD_RUN) == Values([32768])
  {
    hide Expand;
    ExpandExactly(0x1_0000, 32768, 28672, 40960, [32768]);
    assert Reverse([32768]) == [32768];
  }

  /** So where neighbouring types share a letter, a list can be read back rightly although its runs
      are not sound. */
  lemma UnsoundCanCancel()
    ensures var l := Cancelling();
            ModeWords(l) && !ModesSound(l) && ModeParse(ModePrint(MbNone, l)) == Modes(Retyped(MbNone, l))
  {
    hide ReadBack, Detected, ParseModesAll, ModeTokens, ModeToken, Split, Join, ModesTaken;
    FirstReadsTooLong();
    SecondReadsTooShort();
    ThirdReadsTooShort();
    var c := OfKind(THIRD_RUN, MbNone);
    var b := OfKind(SECOND_RUN, Zernike) + c;
    var l := Cancelling();
    NoModes();
    RunIsRead(THIRD_RUN, MbNone, [], [32768], []);
    assert c + [] == c && OfKind([32768], Zernike) + [] == OfKind([32768], Zernike);
    RunIsRead(SECOND_RUN, Zernike, c, [4096], OfKind([32768], Zernike));
    RunIsRead(FIRST_RUN, MbNone, b, FIRST_RUN + ([4096, 24576, 45056, 0, 20480] + [40960]),
              OfKind([4096], Zernike) + OfKind([32768], Zernike));
    SameNumbers();
    RunIsTaken(FIRST_RUN, MbNone, b);
    FirstIsUnsound();
    ModePrintIsJoin(MbNone, l);
    ModeTokensAreClean(MbNone, l);
    SplitJoin(ModeTokens(MbNone, l), {','});
    assert ModePrint(MbNone, l) != "" by {
      ModeWordsSplit(l, ModesTaken(l));
      ModeTokenIsClean(MbNone, l[..ModesTaken(l)]);
    }
  }

  lemma NoModes()
    ensures ParseModesAll(ModeTokens(MbNone, [])) == Modes([])
  {
  }

  lemma SameNumbers()
    ensures OfKind(FIRST_RUN + ([4096, 24576, 45056, 0, 20480] + [40960]), Zernike) + (OfKind([4096], Zernike) + OfKind([32768], Zernike))
         == Retyped(MbNone, Cancelling())
  {
  }

  lemma FirstIsUnsound()
    ensures Numbers(OfKind(FIRST_RUN, MbNone)) == FIRST_RUN && !Sound(W16, FIRST_RUN)
  {
    assert FIRST_RUN[2] + (FIRST_RUN[1] - FIRST_RUN[0]) >= 0x1_0000;
  }
}
