/**
 ModeListTranslator (include/redux/translators.hpp:405-526): lists of mode numbers with a mode
 type each, printed as ranges with a type letter in front, and read back.
 */
module ModeText {
  import opened Integers
  import opened Text
  import opened Ranges
  import opened VectorText
  import opened VectorCode

  datatype ModeBase = MbNone | Zernike | KarhunenLoeve | MbZkl | MbFile

  datatype ModeID = ModeID(mode: int, kind: ModeBase)

  predicate ModeWords(l: seq<ModeID>) {
    forall i :: 0 <= i < |l| ==> 0 <= l[i].mode < Modulus(W16)
  }

  function Numbers(l: seq<ModeID>): (v: seq<int>)
    ensures |v| == |l|
    ensures forall i :: 0 <= i < |l| ==> v[i] == l[i].mode
  {
    seq(|l|, i requires 0 <= i < |l| => l[i].mode)
  }

  function OfKind(v: seq<int>, kind: ModeBase): (l: seq<ModeID>)
    ensures |l| == |v|
    ensures forall i :: 0 <= i < |v| ==> l[i] == ModeID(v[i], kind)
  {
    seq(|v|, i requires 0 <= i < |v| => ModeID(v[i], kind))
  }

  // ---------------------------------------------------------------- printing

  /** The length of the longest prefix whose elements all have the type of the first. */
  function SameKind(l: seq<ModeID>, n: nat): (k: nat)
    requires 1 <= n <= |l|
    ensures n <= k <= |l|
    ensures forall i :: n <= i < k ==> l[i].kind == l[0].kind
    ensures k < |l| ==> l[k].kind != l[0].kind
    decreases |l| - n
  {
    if n < |l| && l[n].kind == l[0].kind then SameKind(l, n + 1) else n
  }

  /** How many elements the next segment takes: a run never crosses a change of type. */
  function ModesTaken(l: seq<ModeID>): (n: nat)
    requires l != []
    ensures 1 <= n <= |l|
    ensures forall i :: 0 <= i < n ==> l[i].kind == l[0].kind
  {
    Taken(W16, Numbers(l[..SameKind(l, 1)]))
  }

  /** The letter printed in front of a segment; none for the list's own default type. */
  function Letter(def: ModeBase, kind: ModeBase): string {
    if def == MbNone || kind != def then (if kind == KarhunenLoeve then "K" else "Z") else ""
  }

  function ModeToken(def: ModeBase, part: seq<ModeID>): string
    requires part != [] && ModeWords(part)
  {
    Letter(def, part[0].kind) + Token(W16, Numbers(part))
  }

  function ModeTokens(def: ModeBase, l: seq<ModeID>): (tokens: seq<string>)
    requires ModeWords(l)
    ensures l != [] ==> tokens != []
    decreases |l|
  {
    if l == [] then [] else [ModeToken(def, l[..ModesTaken(l)])] + ModeTokens(def, l[ModesTaken(l)..])
  }

  function ModePrint(def: ModeBase, l: seq<ModeID>): string
    requires ModeWords(l)
    decreases |l|
  {
    if l == [] then "" else
      var n := ModesTaken(l);
      ModeToken(def, l[..n]) + (if n < |l| then "," + ModePrint(def, l[n..]) else "")
  }

  lemma ModeWordsSplit(l: seq<ModeID>, n: nat)
    requires ModeWords(l) && n <= |l|
    ensures ModeWords(l[..n]) && ModeWords(l[n..])
  {
  }

  lemma {:induction false} ModePrintIsJoin(def: ModeBase, l: seq<ModeID>)
    requires ModeWords(l)
    ensures ModePrint(def, l) == Join(ModeTokens(def, l))
    decreases |l|
  {
    hide ModesTaken, ModeToken, ModeWords;
    if l != [] {
      var n := ModesTaken(l);
      ModeWordsSplit(l, n);
      ModePrintIsJoin(def, l[n..]);
      JoinCons(ModeToken(def, l[..n]), ModeTokens(def, l[n..]));
      assert n == |l| <==> l[n..] == [];
    }
  }

  // ---------------------------------------------------------------- parsing

  datatype ModeOutcome = Modes(l: seq<ModeID>) | Rejected | Forever

  predicate IsTypeLetter(c: char) {
    c == 'Z' || c == 'z' || c == 'K' || c == 'k'
  }

  function Stripped(s: string): string {
    if s == "" then "" else if IsTypeLetter(s[0]) then Stripped(s[1..]) else [s[0]] + Stripped(s[1..])
  }

  /** One segment: at most one of the two type letters, anywhere in the text, and a range. */
  ghost function ParseModes(token: string): ModeOutcome {
    var nz := Count(token, 'z') + Count(token, 'Z');
    var nk := Count(token, 'k') + Count(token, 'K');
    if nz > 0 && nk > 0 then Rejected else
      var kind := if nk > 0 then KarhunenLoeve else if nz > 0 then Zernike else MbNone;
      match ParseSegment(W16, Stripped(token))
      case Values(v) => Modes(OfKind(v, kind))
      case BadText => Rejected
      case Diverges => Forever
  }

  ghost function ParseModesAll(tokens: seq<string>): ModeOutcome {
    if tokens == [] then Modes([])
    else
      match ParseModes(tokens[0])
      case Modes(a) =>
        (match ParseModesAll(tokens[1..])
         case Modes(b) => Modes(a + b)
         case other => other)
      case other => other
  }

  ghost function ModeParse(str: string): ModeOutcome {
    if str == "" then Modes([]) else ParseModesAll(Split(str, {','}))
  }

  // ---------------------------------------------------------------- round trip

  predicate Letterless(s: string) {
    forall i :: 0 <= i < |s| ==> !IsTypeLetter(s[i])
  }

  lemma {:induction false} StrippedLetterless(s: string)
    requires Letterless(s)
    ensures Stripped(s) == s
  {
    if s != "" {
      StrippedLetterless(s[1..]);
    }
  }

  lemma StripLetter(letter: string, s: string)
    requires letter == "" || letter == "Z" || letter == "K"
    requires Letterless(s)
    ensures Stripped(letter + s) == s
    ensures Count(letter + s, 'z') + Count(letter + s, 'Z') == (if letter == "Z" then 1 else 0)
    ensures Count(letter + s, 'k') + Count(letter + s, 'K') == (if letter == "K" then 1 else 0)
  {
    StrippedLetterless(s);
    if letter == "" {
      assert letter + s == s;
    } else {
      assert (letter + s)[1..] == s;
    }
    forall c | IsTypeLetter(c) ensures Count(s, c) == 0 { CountWithout(s, c); }
  }

  lemma TokenIsLetterless(part: seq<int>)
    requires part != [] && Words(W16, part)
    ensures Letterless(Token(W16, part))
  {
  }

  /** The type a printed element is read back with. */
  function KindRead(def: ModeBase, kind: ModeBase): ModeBase {
    if def == MbNone || kind != def then (if kind == KarhunenLoeve then KarhunenLoeve else Zernike) else MbNone
  }

  function Retyped(def: ModeBase, l: seq<ModeID>): (r: seq<ModeID>)
    ensures |r| == |l|
    ensures forall i :: 0 <= i < |l| ==> r[i] == ModeID(l[i].mode, KindRead(def, l[i].kind))
  {
    seq(|l|, i requires 0 <= i < |l| => ModeID(l[i].mode, KindRead(def, l[i].kind)))
  }

  lemma ParseModeToken(def: ModeBase, part: seq<ModeID>)
    requires part != [] && ModeWords(part)
    requires ParseSegment(W16, Token(W16, Numbers(part))) == Values(Numbers(part))
    requires forall i :: 0 <= i < |part| ==> part[i].kind == part[0].kind
    ensures ParseModes(ModeToken(def, part)) == Modes(Retyped(def, part))
  {
    hide ParseSegment, Token, Stripped, Count;
    TokenIsLetterless(Numbers(part));
    StripLetter(Letter(def, part[0].kind), Token(W16, Numbers(part)));
    assert OfKind(Numbers(part), KindRead(def, part[0].kind)) == Retyped(def, part);
  }

  /** Every run of the printed list is sound as a run of 16-bit words. */
  ghost predicate ModesSound(l: seq<ModeID>)
    decreases |l|
  {
    l == [] ||
    var n := ModesTaken(l);
    (n == 1 || Sound(W16, Numbers(l[..n]))) && ModesSound(l[n..])
  }

  lemma ModeHead(l: seq<ModeID>)
    requires l != [] && ModeWords(l)
    ensures ProperPart(W16, Numbers(l[..ModesTaken(l)]))
  {
  }

  lemma ModeTokenIsClean(def: ModeBase, part: seq<ModeID>)
    requires part != [] && ModeWords(part)
    ensures ModeToken(def, part) != "" && Clean(ModeToken(def, part), {','})
  {
    hide Token;
    TokenIsClean(W16, Numbers(part));
  }

  lemma {:induction false} ParsePrintedModes(def: ModeBase, l: seq<ModeID>)
    requires ModeWords(l) && ModesSound(l)
    ensures ParseModesAll(ModeTokens(def, l)) == Modes(Retyped(def, l))
    ensures forall i :: 0 <= i < |ModeTokens(def, l)| ==> Clean(ModeTokens(def, l)[i], {','})
    decreases |l|
  {
    hide ParseSegment, ParseModes, Sound, ModeToken, ModesTaken, Clean, ModeWords, Token;
    if l != [] {
      var n := ModesTaken(l);
      var part, rest := l[..n], l[n..];
      ModeWordsSplit(l, n);
      ModeHead(l);
      ModeNumbers(part);
      SegmentsRoundTripExactly(W16, Numbers(part));
      ParseModeToken(def, part);
      ModeTokenIsClean(def, part);
      ParsePrintedModes(def, rest);
      ModesCons(ModeToken(def, part), ModeTokens(def, rest), Retyped(def, part), Retyped(def, rest));
      RetypedSplit(def, l, n);
    }
  }

  lemma RetypedSplit(def: ModeBase, l: seq<ModeID>, n: nat)
    requires n <= |l|
    ensures Retyped(def, l[..n]) + Retyped(def, l[n..]) == Retyped(def, l)
  {
  }

  lemma ModeNumbers(part: seq<ModeID>)
    requires ModeWords(part)
    ensures Words(W16, Numbers(part))
  {
  }

  lemma ModesCons(token: string, tokens: seq<string>, a: seq<ModeID>, b: seq<ModeID>)
    requires ParseModes(token) == Modes(a) && ParseModesAll(tokens) == Modes(b)
    ensures ParseModesAll([token] + tokens) == Modes(a + b)
  {
  }

  /** Reading a printed list gives the same modes, with every type replaced by the one its
      letter, or the absence of a letter, stands for. */
  lemma ModesRoundTrip(def: ModeBase, l: seq<ModeID>)
    requires ModeWords(l) && ModesSound(l)
    ensures ModeParse(ModePrint(def, l)) == Modes(Retyped(def, l))
  {
    if l != [] {
      hide ParseModesAll, ModeTokens, ModeToken, ModesTaken, ModeWords, ModesSound, Split, Join;
      ModeWordsSplit(l, ModesTaken(l));
      ParsePrintedModes(def, l);
      ModePrintIsJoin(def, l);
      SplitJoin(ModeTokens(def, l), {','});
      assert ModePrint(def, l) != "" by {
        ModeTokenIsClean(def, l[..ModesTaken(l)]);
      }
    }
  }

  /** ModeList::setDefaultModeType: unmarked elements take the default type. */
  function WithDefault(def: ModeBase, l: seq<ModeID>): (r: seq<ModeID>)
    ensures |r| == |l|
    ensures forall i :: 0 <= i < |l| ==> r[i] == if l[i].kind == MbNone then ModeID(l[i].mode, def) else l[i]
  {
    seq(|l|, i requires 0 <= i < |l| => if l[i].kind == MbNone then ModeID(l[i].mode, def) else l[i])
  }

  /** The types that printing can express. */
  predicate Expressible(def: ModeBase, kind: ModeBase) {
    kind == Zernike || kind == KarhunenLoeve || (kind == def && def != MbNone)
  }

  /** After setting the default type on what was read, the list is the printed one exactly when
      every type in it can be expressed. */
  lemma TypesRoundTripExactly(def: ModeBase, l: seq<ModeID>)
    requires ModeWords(l) && ModesSound(l)
    ensures var r := ModeParse(ModePrint(def, l));
            r.Modes? && (WithDefault(def, r.l) == l <==> forall i :: 0 <= i < |l| ==> Expressible(def, l[i].kind))
  {
    hide ModeParse, ModePrint, ModesSound;
    ModesRoundTrip(def, l);
    var r := WithDefault(def, Retyped(def, l));
    forall i | 0 <= i < |l| ensures r[i] == l[i] <==> Expressible(def, l[i].kind) {
      assert Retyped(def, l)[i] == ModeID(l[i].mode, KindRead(def, l[i].kind));
    }
    if forall i :: 0 <= i < |l| ==> Expressible(def, l[i].kind) {
      assert r == l;
    }
  }

  // ---------------------------------------------------------------- rising lists

  ghost predicate RisingBelow(l: seq<ModeID>, limit: int) {
    && (forall i :: 0 <= i < |l| ==> 0 <= l[i].mode < limit)
    && (forall i, j :: 0 <= i < j < |l| ==> l[i].mode < l[j].mode)
  }

  lemma RisingRun(part: seq<int>)
    requires Detected(W16, part)
    requires forall i :: 0 <= i < |part| ==> 0 <= part[i] < 0x8000
    requires forall i, j :: 0 <= i < j < |part| ==> part[i] < part[j]
    ensures Sound(W16, part)
  {
  }

  lemma {:induction false} RisingIsSound(l: seq<ModeID>)
    requires ModeWords(l) && RisingBelow(l, 0x8000)
    ensures ModesSound(l)
    decreases |l|
  {
    if l != [] {
      hide ModesTaken, Sound;
      var n := ModesTaken(l);
      ModeWordsSplit(l, n);
      ModeHead(l);
      RisingIsSound(l[n..]);
      if n > 1 {
        RisingRun(Numbers(l[..n]));
      }
    }
  }

  /** Every rising list of Zernike and Karhunen-Loeve modes below 2^15 survives the round trip,
      whatever the default type is. */
  lemma RisingModesRoundTrip(def: ModeBase, l: seq<ModeID>)
    requires RisingBelow(l, 0x8000)
    requires forall i :: 0 <= i < |l| ==> l[i].kind == Zernike || l[i].kind == KarhunenLoeve
    ensures ModeWords(l)
    ensures var r := ModeParse(ModePrint(def, l));
            r.Modes? && WithDefault(def, r.l) == l && (def == MbNone ==> r.l == l)
  {
    assert ModeWords(l);
    hide ModeParse, ModePrint, ModesSound;
    RisingIsSound(l);
    ModesRoundTrip(def, l);
    TypesRoundTripExactly(def, l);
    if def == MbNone {
      assert Retyped(def, l) == l;
    }
  }

  // ---------------------------------------------------------------- the code

  /** Converts a mode list to a comma-separated string. The code inspects the last character of
      the result, so the list must not be empty. */
  method PutModes(def: ModeBase, l: seq<ModeID>) returns (ret: string)
    requires l != [] && ModeWords(l)
    ensures ret == ModePrint(def, l)
  {
    hide ModePrint, ModeToken, ModesTaken, ModeWords, Token, Letter;
    ret := "";
    var first := 0;
    assert l[0..] == l;
    while first != |l|
      invariant 0 <= first <= |l|
      invariant ModeWords(l[first..])
      invariant ret + ModePrint(def, l[first..]) == ModePrint(def, l)
      decreases |l| - first
    {
      ModePrintHead(def, l, first);
      var kind := l[first].kind;
      var oss, last := NextModes(l, first);
      ghost var number := oss;
      if last != |l| { oss := oss + ","; } else { assert l[last..] == []; }
      ghost var before := ret;
      ret := ret + Letter(def, kind);
      ret := ret + oss;
      ModesRegrouped(before, Letter(def, kind), number, ModePrint(def, l[last..]));
      ModeTokenIs(def, l[first..], ModesTaken(l[first..]));
      first := last;
    }
    assert l[first..] == [];
    ModePrintOfNothing(def);
    assert ret == ret + "";
    ModePrintEnds(def, l);
    ret := WithoutLastComma(ret);
  }

  method WithoutLastComma(s: string) returns (t: string)
    requires s != ""
    ensures t == if s[|s| - 1] == ',' then s[..|s| - 1] else s
  {
    t := s;
    if t[|t| - 1] == ',' { t := t[..|t| - 1]; }
  }

  lemma ModesRegrouped(a: string, b: string, c: string, d: string)
    ensures a + b + c == a + (b + c)
    ensures a + b + (c + ",") + d == a + (b + c + ("," + d))
  {
  }

  lemma ModeTokenIs(def: ModeBase, rest: seq<ModeID>, n: nat)
    requires 0 < n <= |rest| && ModeWords(rest[..n])
    ensures ModeToken(def, rest[..n]) == Letter(def, rest[0].kind) + Token(W16, Numbers(rest[..n]))
  {
  }

  lemma ModePrintHead(def: ModeBase, l: seq<ModeID>, first: nat)
    requires first < |l| && ModeWords(l[first..])
    ensures var rest := l[first..];
            var n := ModesTaken(rest);
            && ModeWords(rest[..n]) && ModeWords(l[first + n..])
            && ModePrint(def, rest)
               == ModeToken(def, rest[..n]) + (if first + n < |l| then "," + ModePrint(def, l[first + n..]) else "")
            && (first + n == |l| ==> ModePrint(def, l[first + n..]) == "")
  {
    hide ModeToken, ModesTaken, ModeWords;
    var rest := l[first..];
    var n := ModesTaken(rest);
    ModeWordsSplit(rest, n);
    assert rest[n..] == l[first + n..];
    if first + n == |l| { assert l[first + n..] == []; }
  }

  lemma ModePrintOfNothing(def: ModeBase)
    ensures ModePrint(def, []) == ""
  {
  }

  /** What is printed ends in a digit. */
  lemma {:induction false} ModePrintEnds(def: ModeBase, l: seq<ModeID>)
    requires l != [] && ModeWords(l)
    ensures var s := ModePrint(def, l); s != "" && IsDigit(s[|s| - 1])
    decreases |l|
  {
    var n := ModesTaken(l);
    ModeWordsSplit(l, n);
    hide ModesTaken, Decimal, StepOf, SignedDecimal, ModeWords;
    var part := Numbers(l[..n]);
    assert IsNumber(Decimal(part[0])) && IsNumber(Decimal(part[|part| - 1]));
    if n < |l| {
      ModePrintEnds(def, l[n..]);
    }
  }

  /** The next segment without its letter, and the index after it. */
  method NextModes(l: seq<ModeID>, first: nat) returns (text: string, last: nat)
    requires first < |l| && ModeWords(l[first..])
    ensures last == first + ModesTaken(l[first..])
    ensures ModeWords(l[first..][..ModesTaken(l[first..])])
    ensures text == Token(W16, Numbers(l[first..][..ModesTaken(l[first..])]))
  {
    hide Wrap, Signed32, Decimal, Extend, SignedDecimal, Token, Taken;
    ghost var rest := l[first..];
    ghost var same := Numbers(rest[..SameKind(rest, 1)]);
    ModeWordsSplit(rest, ModesTaken(rest));
    assert Words(W16, same);
    assert same[..ModesTaken(rest)] == Numbers(rest[..ModesTaken(rest)]);
    var kind := l[first].kind;
    last := first + 1;
    if last == |l| || l[last].kind != kind {
      OneLeft(W16, same);
      text := Decimal(l[first].mode);
      return;
    }
    var step := l[last].mode - l[first].mode;
    var count := ModeRunLength(l, first, step);
    last := first + count;
    assert same[0] == l[first].mode && same[1] == l[first + 1].mode && same[count - 1] == l[last - 1].mode;
    if count > 2 {
      RunTextIsToken(l[first].mode, step, l[last - 1].mode);
      RunToken(W16, same, count, step);
      text := RunText(l[first].mode, step, l[last - 1].mode);
    } else {
      SingleToken(W16, same);
      text := Decimal(l[first].mode);
      last := last - 1;
    }
  }

  /** The loop that counts how many elements of the same type follow the first step. */
  method ModeRunLength(l: seq<ModeID>, first: nat, step: int) returns (count: nat)
    requires first + 2 <= |l| && l[first + 1].kind == l[first].kind
    ensures var rest := l[first..];
            var same := Numbers(rest[..SameKind(rest, 1)]);
            2 <= count <= |same| && count == Extend(W16, same, step, 2)
  {
    hide Extend, Wrap;
    ghost var rest := l[first..];
    ghost var same := Numbers(rest[..SameKind(rest, 1)]);
    assert rest[1].kind == rest[0].kind;
    var kind := l[first].kind;
    var last := first + 1;
    var next := Wrap(Modulus(W16), l[last].mode + step);
    count := 2;
    last := last + 1;
    while last != |l| && l[last].mode == next && l[last].kind == kind
      invariant first + 2 <= last <= |l| && count == last - first <= |same|
      invariant next == Wrap(Modulus(W16), l[last - 1].mode + step)
      invariant Extend(W16, same, step, 2) == Extend(W16, same, step, count)
    {
      assert rest[count] == l[last] && rest[count - 1] == l[last - 1];
      ExtendStep(W16, same, step, count);
      next := Wrap(Modulus(W16), next + step);
      count := count + 1;
      last := last + 1;
    }
    if count < |same| { assert rest[count] == l[last] && same[count - 1] == l[last - 1].mode; }
    ExtendEnd(W16, same, step, count);
  }
}
