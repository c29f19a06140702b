/**
 VectorTranslator for unsigned element types (include/redux/translators.hpp:153-268): a printer
 that compresses arithmetic progressions, and a parser that expands them.
 */
module VectorText {
  import opened Integers
  import opened Text
  import opened Ranges

  // ---------------------------------------------------------------- the printer's cuts

  /** How far a run goes on: the first index from `j` on whose element is not the previous one
      plus the step. */
  function Extend(w: Width, v: seq<int>, step: int, j: nat): (e: nat)
    requires 1 <= j <= |v|
    ensures j <= e <= |v|
    ensures forall i :: j <= i < e ==> v[i] == Wrap(Modulus(w), v[i - 1] + step)
    decreases |v| - j
  {
    if j < |v| && v[j] == Wrap(Modulus(w), v[j - 1] + step) then Extend(w, v, step, j + 1) else j
  }

  /** How many elements the next printed segment takes: a run of three or more, or one. */
  function Taken(w: Width, v: seq<int>): (n: nat)
    requires v != []
    ensures 1 <= n <= |v| && n != 2
  {
    if |v| == 1 then 1 else
      var e := Extend(w, v, StepOf(v[0], v[1]), 2);
      if e > 2 then e else 1
  }

  /** The vector cut into the parts that are printed as one segment each. */
  function Cuts(w: Width, v: seq<int>): (parts: seq<seq<int>>)
    ensures v != [] ==> parts != []
    decreases |v|
  {
    if v == [] then [] else [v[..Taken(w, v)]] + Cuts(w, v[Taken(w, v)..])
  }

  /** A part as it is printed: a number, or `first-last`, or `first:step:last`. */
  function Token(w: Width, part: seq<int>): string
    requires part != [] && Words(w, part)
  {
    if |part| == 1 then Decimal(part[0])
    else RangeToken(part[0], StepOf(part[0], part[1]), part[|part| - 1])
  }

  function RangeToken(first: nat, step: int, last: nat): string {
    Decimal(first) + (if step == 1 then "-" else ":" + SignedDecimal(step) + ":") + Decimal(last)
  }

  /** The printed vector. */
  function Print(w: Width, v: seq<int>): string
    requires Words(w, v)
    decreases |v|
  {
    if v == [] then "" else
      var n := Taken(w, v);
      Token(w, v[..n]) + (if n < |v| then "," + Print(w, v[n..]) else "")
  }

  function Tokens(w: Width, v: seq<int>): (tokens: seq<string>)
    requires Words(w, v)
    ensures v != [] ==> tokens != []
    decreases |v|
  {
    if v == [] then [] else [Token(w, v[..Taken(w, v)])] + Tokens(w, v[Taken(w, v)..])
  }

  /** What every part of a cut vector is: a single element, or a run the printer detects. */
  ghost predicate ProperPart(w: Width, part: seq<int>) {
    Words(w, part) && (|part| == 1 || Detected(w, part))
  }

  lemma WordsSplit(w: Width, v: seq<int>, n: nat)
    requires Words(w, v) && n <= |v|
    ensures Words(w, v[..n]) && Words(w, v[n..])
  {
  }

  lemma HeadIsProper(w: Width, v: seq<int>)
    requires v != [] && Words(w, v)
    ensures ProperPart(w, v[..Taken(w, v)])
  {
  }

  lemma {:induction false} CutsAreProper(w: Width, v: seq<int>)
    requires Words(w, v)
    ensures forall i :: 0 <= i < |Cuts(w, v)| ==> ProperPart(w, Cuts(w, v)[i])
    decreases |v|
  {
    if v != [] {
      HeadIsProper(w, v);
      CutsAreProper(w, v[Taken(w, v)..]);
    }
  }

  lemma {:induction false} PrintIsJoin(w: Width, v: seq<int>)
    requires Words(w, v)
    ensures Print(w, v) == Join(Tokens(w, v))
    decreases |v|
  {
    hide Taken, Token, Words;
    if v != [] {
      var n := Taken(w, v);
      WordsSplit(w, v, n);
      PrintIsJoin(w, v[n..]);
      JoinCons(Token(w, v[..n]), Tokens(w, v[n..]));
      assert n == |v| <==> v[n..] == [];
    }
  }

  // ---------------------------------------------------------------- the parser

  /** One segment: a number, a range with `-` or `:`, or a stepped range with two `:`; any other
      mix of the two characters is silently dropped. */
  ghost function ParseSegment(w: Width, elem: string): Outcome {
    var m := Modulus(w);
    var n1, n2 := Count(elem, '-'), Count(elem, ':');
    if n1 + n2 == 0 then
      match CastUnsigned(m, elem)
      case Value(n) => Values([n])
      case BadCast => BadText
    else if n1 + n2 == 1 then
      var n := FirstOf(elem, {':', '-'}, 0);
      if n == |elem| then BadText else
      match (CastUnsigned(m, elem[..n]), CastUnsigned(m, elem[n + 1..]))
      case (Value(first), Value(last)) => RangeOf(w, first, 1, last)
      case _ => BadText
    else if n2 == 2 then
      var n := FirstOf(elem, {':'}, 0);
      if n == |elem| then BadText else
      var nn := FirstOf(elem, {':'}, n + 1);
      if nn == |elem| then BadText else
      match (CastUnsigned(m, elem[..n]), CastUnsigned(m, elem[n + 1..nn]), CastUnsigned(m, elem[nn + 1..]))
      case (Value(first), Value(step), Value(last)) => RangeOf(w, first, Signed32(step), last)
      case _ => BadText
    else
      Values([])
  }

  /** Range, on the values the casts can produce. */
  ghost function RangeOf(w: Width, first: nat, step: int, last: nat): Outcome {
    if first < Modulus(w) && last < Modulus(w) && -Modulus(w) < step < Modulus(w)
    then Range(w, first, step, last) else BadText
  }

  ghost function ParseAll(w: Width, tokens: seq<string>): Outcome {
    if tokens == [] then Values([])
    else if tokens[0] == "" then ParseAll(w, tokens[1..])
    else
      match ParseSegment(w, tokens[0])
      case Values(a) =>
        (match ParseAll(w, tokens[1..])
         case Values(b) => Values(a + b)
         case other => other)
      case other => other
  }

  const SEPARATORS := {',', ' '}

  /** The parsed vector. */
  ghost function Parse(w: Width, str: string): Outcome {
    if str == "" then Values([]) else ParseAll(w, Split(str, SEPARATORS))
  }

  // ---------------------------------------------------------------- segments round trip

  lemma ParseNumber(w: Width, n: nat)
    requires n < Modulus(w)
    ensures ParseSegment(w, Decimal(n)) == Values([n])
  {
    hide FirstOf, Range;
    NumbersAreClean(Decimal(n));
    CountWithout(Decimal(n), '-');
    CountWithout(Decimal(n), ':');
    CastDecimal(Modulus(w), n);
  }

  lemma ParseUnitRange(w: Width, first: nat, last: nat)
    requires first < Modulus(w) && last < Modulus(w)
    ensures ParseSegment(w, Decimal(first) + "-" + Decimal(last)) == Range(w, first, 1, last)
  {
    hide Range, Decimal, Count, CastUnsigned, FirstOf;
    var a, b := Decimal(first), Decimal(last);
    var s := a + "-" + b;
    NumbersAreClean(a);
    NumbersAreClean(b);
    CountThree(a, "-", b, '-');
    CountThree(a, "-", b, ':');
    CountWithout(a, '-');
    CountWithout(b, '-');
    CountWithout(a, ':');
    CountWithout(b, ':');
    CountOne('-', '-');
    CountOne('-', ':');
    FirstOfAt(s, {':', '-'}, 0, |a|);
    assert s[..|a|] == a && s[|a| + 1..] == b;
    CastDecimal(Modulus(w), first);
    CastDecimal(Modulus(w), last);
  }

  lemma CountThree(a: string, b: string, c: string, ch: char)
    ensures Count(a + b + c, ch) == Count(a, ch) + Count(b, ch) + Count(c, ch)
  {
    CountConcat(a + b, c, ch);
    CountConcat(a, b, ch);
  }

  lemma CountOne(c: char, ch: char)
    ensures Count([c], ch) == if c == ch then 1 else 0
  {
  }

  lemma SteppedCounts(a: string, step: int, b: string)
    requires IsNumber(a) && IsNumber(b)
    ensures var s := a + ":" + SignedDecimal(step) + ":" + b;
            Count(s, ':') == 2 && Count(s, '-') == if step < 0 then 1 else 0
  {
    hide Decimal, Count;
    var c := SignedDecimal(step);
    var d := Decimal(if step < 0 then -step else step);
    NumbersAreClean(a);
    NumbersAreClean(b);
    NumbersAreClean(d);
    forall ch | ch == ':' || ch == '-'
      ensures Count(a + ":" + c + ":" + b, ch) == 2 * Count(":", ch) + Count(c, ch)
    {
      CountThree(a, ":", c, ch);
      CountThree(a + ":" + c, ":", b, ch);
      CountWithout(a, ch);
      CountWithout(b, ch);
    }
    CountWithout(d, ':');
    CountWithout(d, '-');
    CountConcat("-", d, ':');
    CountConcat("-", d, '-');
    CountOne(':', ':');
    CountOne(':', '-');
    CountOne('-', ':');
    CountOne('-', '-');
  }

  lemma SteppedCuts(a: string, c: string, b: string, s: string, rest: string)
    requires Without(a, ':') && Without(c, ':')
    requires rest == c + ":" + b && s == a + ":" + rest
    ensures FirstOf(s, {':'}, 0) == |a|
    ensures FirstOf(s, {':'}, |a| + 1) == |a| + 1 + |c|
    ensures s[..|a|] == a && s[|a| + 1..|a| + 1 + |c|] == c && s[|a| + 1 + |c| + 1..] == b
  {
    hide FirstOf, Without;
    CutAt(a, rest, s);
    CutAt(c, b, rest);
    FirstOfSuffix(s, {':'}, |a| + 1);
    SliceOfSlice(s, |a| + 1, |c|);
  }

  lemma Regroup(a: string, c: string, b: string)
    ensures a + ":" + c + ":" + b == a + ":" + (c + ":" + b)
  {
  }

  lemma SliceOfSlice(s: string, k: nat, n: nat)
    requires k + n < |s|
    ensures s[k..][..n] == s[k..k + n]
    ensures s[k..][n + 1..] == s[k + n + 1..]
  {
  }

  lemma CutAt(a: string, b: string, s: string)
    requires Without(a, ':') && s == a + ":" + b
    ensures FirstOf(s, {':'}, 0) == |a| && s[..|a|] == a && s[|a| + 1..] == b
  {
    FirstOfAt(s, {':'}, 0, |a|);
  }

  lemma {:induction false} FirstOfSuffix(s: string, chars: set<char>, k: nat)
    requires k <= |s|
    ensures FirstOf(s, chars, k) == k + FirstOf(s[k..], chars, 0)
  {
    FirstOfShift(s, chars, k, 0);
  }

  lemma {:induction false} FirstOfShift(s: string, chars: set<char>, k: nat, j: nat)
    requires k + j <= |s|
    ensures FirstOf(s, chars, k + j) == k + FirstOf(s[k..], chars, j)
    decreases |s| - j
  {
    if k + j < |s| && s[k + j] !in chars {
      FirstOfShift(s, chars, k, j + 1);
    }
  }

  lemma ParseSteppedRange(w: Width, first: nat, step: int, last: nat)
    requires first < Modulus(w) && last < Modulus(w)
    requires -INT_LIMIT <= step < INT_LIMIT && -Modulus(w) < step < Modulus(w)
    ensures ParseSegment(w, Decimal(first) + ":" + SignedDecimal(step) + ":" + Decimal(last))
         == Range(w, first, StepRead(w, step), last)
  {
    hide Range, Decimal, Count, CastUnsigned, FirstOf, SignedDecimal;
    var a, c, b := Decimal(first), SignedDecimal(step), Decimal(last);
    SteppedCounts(a, step, b);
    NumbersAreClean(a);
    SignedIsClean(step);
    Regroup(a, c, b);
    SteppedCuts(a, c, b, a + ":" + c + ":" + b, c + ":" + b);
    CastDecimal(Modulus(w), first);
    CastDecimal(Modulus(w), last);
    CastSignedDecimal(Modulus(w), step);
  }

  lemma SignedIsClean(step: int)
    ensures Without(SignedDecimal(step), ':') && Clean(SignedDecimal(step), SEPARATORS)
    ensures SignedDecimal(step) != ""
  {
  }

  /** Parsing a printed part is expanding its first element, step and last element. */
  lemma ParseToken(w: Width, part: seq<int>)
    requires ProperPart(w, part)
    ensures ParseSegment(w, Token(w, part)) == if |part| == 1 then Values(part) else ReadBack(w, part)
  {
    hide ParseSegment, Range, Decimal, SignedDecimal, Signed32, Modulus;
    if |part| == 1 {
      ParseNumber(w, part[0]);
    } else {
      var first, step, last := part[0], StepOf(part[0], part[1]), part[|part| - 1];
      StepFits(w, part[0], part[1]);
      if step == 1 {
        ParseUnitRange(w, first, last);
        assert Token(w, part) == Decimal(first) + "-" + Decimal(last);
      } else {
        ParseSteppedRange(w, first, step, last);
        assert Token(w, part) == Decimal(first) + ":" + SignedDecimal(step) + ":" + Decimal(last);
      }
    }
  }

  /** A printed part parses back to itself exactly when it is a single element or a sound run. */
  lemma SegmentsRoundTripExactly(w: Width, part: seq<int>)
    requires ProperPart(w, part)
    ensures ParseSegment(w, Token(w, part)) == Values(part) <==> (|part| == 1 || Sound(w, part))
  {
    ParseToken(w, part);
    if |part| != 1 {
      RunsReadBackExactly(w, part);
    }
  }

  lemma TokenIsClean(w: Width, part: seq<int>)
    requires part != [] && Words(w, part)
    ensures Token(w, part) != "" && Clean(Token(w, part), SEPARATORS)
  {
    hide Decimal, SignedDecimal, StepOf;
    NumbersAreClean(Decimal(part[0]));
    NumbersAreClean(Decimal(part[|part| - 1]));
    if |part| > 1 {
      SignedIsClean(StepOf(part[0], part[1]));
    }
  }

  // ---------------------------------------------------------------- vectors round trip

  /** Every run the printer detects in the vector is sound. */
  ghost predicate AllSound(w: Width, v: seq<int>) {
    forall i :: 0 <= i < |Cuts(w, v)| ==> |Cuts(w, v)[i]| == 1 || Sound(w, Cuts(w, v)[i])
  }

  lemma {:induction false} ParsePrinted(w: Width, v: seq<int>)
    requires Words(w, v) && AllSound(w, v)
    ensures ParseAll(w, Tokens(w, v)) == Values(v)
    ensures forall i :: 0 <= i < |Tokens(w, v)| ==> Clean(Tokens(w, v)[i], SEPARATORS)
    decreases |v|
  {
    hide ParseSegment, Sound, Token, Taken, Words, Clean;
    if v != [] {
      var n := Taken(w, v);
      var part, rest := v[..n], v[n..];
      WordsSplit(w, v, n);
      SoundSplit(w, v);
      HeadIsProper(w, v);
      SegmentsRoundTripExactly(w, part);
      TokenIsClean(w, part);
      ParsePrinted(w, rest);
      ParseCons(w, Token(w, part), Tokens(w, rest), part, rest);
      assert part + rest == v;
    }
  }

  lemma SoundSplit(w: Width, v: seq<int>)
    requires v != [] && AllSound(w, v)
    ensures var n := Taken(w, v);
            (n == 1 || Sound(w, v[..n])) && AllSound(w, v[n..])
  {
    hide Sound, Taken;
    var parts, rest := Cuts(w, v), Cuts(w, v[Taken(w, v)..]);
    assert parts[0] == v[..Taken(w, v)];
    assert forall i :: 0 <= i < |rest| ==> rest[i] == parts[i + 1];
  }

  lemma ParseCons(w: Width, token: string, tokens: seq<string>, a: seq<int>, b: seq<int>)
    requires token != "" && ParseSegment(w, token) == Values(a) && ParseAll(w, tokens) == Values(b)
    ensures ParseAll(w, [token] + tokens) == Values(a + b)
  {
  }

  /** Parsing what was printed gives the vector back whenever every detected run is sound. */
  lemma RoundTrip(w: Width, v: seq<int>)
    requires Words(w, v) && AllSound(w, v)
    ensures Parse(w, Print(w, v)) == Values(v)
  {
    hide ParseAll, Tokens, Token, Taken, Words, AllSound, Split, Join;
    if v != [] {
      WordsSplit(w, v, Taken(w, v));
      ParsePrinted(w, v);
      PrintIsJoin(w, v);
      SplitJoin(Tokens(w, v), SEPARATORS);
      assert Print(w, v) != "" by {
        TokenIsClean(w, v[..Taken(w, v)]);
      }
    }
  }

  // ---------------------------------------------------------------- values below 2^31

  ghost predicate Small(v: seq<int>) {
    forall i :: 0 <= i < |v| ==> 0 <= v[i] < INT_LIMIT
  }

  /** No printed segment is a run of equal elements. */
  ghost predicate NoConstantRun(w: Width, v: seq<int>) {
    forall i :: 0 <= i < |Cuts(w, v)| ==> |Cuts(w, v)[i]| <= 1 || Cuts(w, v)[i][0] != Cuts(w, v)[i][1]
  }

  lemma SmallRun(w: Width, part: seq<int>)
    requires w != W16 && Detected(w, part) && Small(part)
    ensures Sound(w, part) <==> part[0] != part[1]
    ensures forall j :: 1 <= j < |part| ==> part[j] - part[j - 1] == part[1] - part[0]
  {
  }

  lemma {:induction false} ConstantRun(part: seq<int>, j: nat)
    requires j < |part| && forall i :: 1 <= i < |part| ==> part[i] - part[i - 1] == 0
    ensures part[j] == part[0]
  {
    if j > 0 {
      ConstantRun(part, j - 1);
    }
  }

  lemma ZeroStepDiverges(m: int, a: int)
    requires 0 <= a < m
    ensures Expand(m, a, 0, a) == Diverges
  {
    hide Expand;
    forall v ensures Expand(m, a, 0, a) != Values(v) {
      ExpandExactly(m, a, 0, a, v);
    }
    ExpandCases(m, a, 0, a);
  }

  /** A step of zero makes the parser's loop run for ever. */
  lemma ConstantRunDiverges(w: Width, part: seq<int>)
    requires Detected(w, part) && part[0] == part[1]
    ensures ParseSegment(w, Token(w, part)) == Diverges
  {
    hide ParseSegment, Token, Expand, Modulus, Signed32;
    ParseToken(w, part);
    ConstantRun(part, |part| - 1);
    StepFits(w, part[0], part[1]);
    ZeroStepDiverges(Modulus(w), part[0]);
  }

  lemma ExpandCases(m: int, first: int, step: int, last: int)
    requires 0 <= first < m && -m < step < m
    ensures Expand(m, first, step, last) == Diverges
            || exists v :: Expand(m, first, step, last) == Values(v)
  {
  }

  lemma ParseConsFails(w: Width, token: string, tokens: seq<string>)
    requires token != ""
    requires ParseSegment(w, token) == Diverges
             || (ParseSegment(w, token).Values? && ParseAll(w, tokens) == Diverges)
    ensures ParseAll(w, [token] + tokens) == Diverges
  {
  }

  lemma ConstantSplit(w: Width, v: seq<int>)
    requires v != []
    ensures var n := Taken(w, v);
            NoConstantRun(w, v) <==> (n == 1 || v[0] != v[1]) && NoConstantRun(w, v[n..])
  {
    hide Taken;
    var n := Taken(w, v);
    var parts, rest := Cuts(w, v), Cuts(w, v[n..]);
    assert parts[0] == v[..n];
    assert forall i :: 0 <= i < |rest| ==> rest[i] == parts[i + 1];
    assert forall i :: 1 <= i < |parts| ==> parts[i] == rest[i - 1];
  }

  lemma {:induction false} SmallParse(w: Width, v: seq<int>)
    requires w != W16 && Words(w, v) && Small(v)
    ensures ParseAll(w, Tokens(w, v)) == if NoConstantRun(w, v) then Values(v) else Diverges
    ensures forall i :: 0 <= i < |Tokens(w, v)| ==> Clean(Tokens(w, v)[i], SEPARATORS)
    decreases |v|
  {
    hide ParseSegment, Sound, Token, Taken, Words, Clean, Detected, NoConstantRun;
    if v == [] {
      assert NoConstantRun(w, v) by { EmptyHasNoRun(w); }
    } else {
      var n := Taken(w, v);
      var part, rest := v[..n], v[n..];
      WordsSplit(w, v, n);
      HeadIsProper(w, v);
      TokenIsClean(w, part);
      ConstantSplit(w, v);
      SmallParse(w, rest);
      SegmentsRoundTripExactly(w, part);
      assert part + rest == v;
      if n > 1 {
        assert part[0] == v[0] && part[1] == v[1];
        SmallRun(w, part);
      }
      if n > 1 && v[0] == v[1] {
        ConstantRunDiverges(w, part);
        ParseConsFails(w, Token(w, part), Tokens(w, rest));
      } else if NoConstantRun(w, rest) {
        ParseCons(w, Token(w, part), Tokens(w, rest), part, rest);
      } else {
        ParseConsFails(w, Token(w, part), Tokens(w, rest));
      }
    }
  }

  lemma EmptyHasNoRun(w: Width)
    ensures NoConstantRun(w, [])
  {
  }

  /** For 32- and 64-bit words with values below 2^31 the round trip is the identity exactly
      when no printed run is constant; otherwise the parser does not terminate. */
  lemma SmallRoundTripExactly(w: Width, v: seq<int>)
    requires w != W16 && Words(w, v) && Small(v)
    ensures Parse(w, Print(w, v)) == if NoConstantRun(w, v) then Values(v) else Diverges
  {
    if v == [] {
      EmptyHasNoRun(w);
    } else {
      hide ParseAll, Tokens, Token, Taken, Words, NoConstantRun, Split, Join;
      WordsSplit(w, v, Taken(w, v));
      SmallParse(w, v);
      PrintIsJoin(w, v);
      SplitJoin(Tokens(w, v), SEPARATORS);
      assert Print(w, v) != "" by {
        TokenIsClean(w, v[..Taken(w, v)]);
      }
    }
  }

  /** Three equal elements in a row. */
  ghost predicate Triple(v: seq<int>, i: nat) {
    i + 2 < |v| && v[i] == v[i + 1] == v[i + 2]
  }

  lemma HeadTriple(w: Width, v: seq<int>)
    requires v != [] && Words(w, v) && Taken(w, v) > 1 && v[0] == v[1]
    ensures Triple(v, 0)
  {
  }

  lemma {:induction false} NoTripleNoConstantRun(w: Width, v: seq<int>)
    requires Words(w, v) && forall i: nat :: !Triple(v, i)
    ensures NoConstantRun(w, v)
    decreases |v|
  {
    if v == [] {
      EmptyHasNoRun(w);
    } else {
      var n := Taken(w, v);
      WordsSplit(w, v, n);
      ConstantSplit(w, v);
      forall i: nat ensures !Triple(v[n..], i) { assert !Triple(v, n + i); }
      NoTripleNoConstantRun(w, v[n..]);
      if n > 1 && v[0] == v[1] {
        HeadTriple(w, v);
      }
    }
  }

  /** The round trip holds for every vector of values below 2^31 with no three equal elements in
      a row: rising, stepped and falling runs alike. */
  lemma SmallRoundTrip(w: Width, v: seq<int>)
    requires w != W16 && Words(w, v) && Small(v)
    requires forall i: nat :: !Triple(v, i)
    ensures Parse(w, Print(w, v)) == Values(v)
  {
    hide Parse, Print;
    NoTripleNoConstantRun(w, v);
    SmallRoundTripExactly(w, v);
  }

  /** Falling runs do not survive in 16-bit words: the step is read back as 65533. */
  lemma FallingRunsOf16Bits()
    ensures Words(W16, [9, 6, 3]) && Detected(W16, [9, 6, 3])
    ensures ParseSegment(W16, Token(W16, [9, 6, 3])) == Values([0, 3])
  {
    hide ParseSegment, Token, Expand, Signed32;
    ParseToken(W16, [9, 6, 3]);
    assert Range(W16, 9, 0x1_0000 - 3, 3) == Values([0, 3]) by { FallingRangeOf16Bits(); }
  }

  lemma FallingRangeOf16Bits()
    ensures Range(W16, 9, 0x1_0000 - 3, 3) == Values([0, 3])
  {
    hide Expand;
    ExpandExactly(0x1_0000, 3, 0x1_0000 - 3, 9, [3, 0]);
    assert Reverse([3, 0]) == [0, 3];
  }
}
