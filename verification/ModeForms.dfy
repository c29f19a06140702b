/**
 The text forms of mode lists as they are (include/redux/translators.hpp:411-525): which letter stands
 in front of a segment, and which letters are read, wherever they stand.
 */
module ModeForms {
  import opened Text
  import opened Ranges
  import opened VectorText
  import opened VectorExact
  import opened VectorForms
  import opened ModeText
  import opened ModeExact

  // ---------------------------------------------------------------- printing

  /** A single mode, or a run of modes of one type, is printed as its numbers are, after a K for
      Karhunen-Loeve modes and a Z for all others; only the type that the list has by default is left
      out. */
  lemma SegmentIsPrinted(def: ModeBase, p: seq<int>, kind: ModeBase)
    requires Words(W16, p) && (|p| == 1 || Detected(W16, p))
    ensures var l, s := OfKind(p, kind), Print(W16, p);
            && (def != MbNone && kind == def ==> ModePrint(def, l) == s)
            && ((def == MbNone || kind != def) && kind == KarhunenLoeve ==> ModePrint(def, l) == "K" + s)
            && ((def == MbNone || kind != def) && kind != KarhunenLoeve ==> ModePrint(def, l) == "Z" + s)
  {
    hide Token, Detected;
    var l := OfKind(p, kind);
    SegmentIsTaken(p, kind);
    assert l[..|p|] == l && p[..|p|] == p && Numbers(l) == p;
  }

  lemma SegmentIsTaken(p: seq<int>, kind: ModeBase)
    requires Words(W16, p) && (|p| == 1 || Detected(W16, p))
    ensures p != [] && Taken(W16, p) == |p| && ModesTaken(OfKind(p, kind)) == |p|
  {
    hide Wrap, StepOf, Extend;
    var l := OfKind(p, kind);
    if |p| > 1 { ExtendAll(W16, p, 2); }
    assert SameKind(l, 1) == |p|;
    assert Numbers(l[..|p|]) == p;
  }

  /** How much is taken: what the number printer takes of the elements before the first other type. */
  lemma ModesTakenExactly(l: seq<ModeID>, n: nat)
    requires 0 < n <= |l|
    requires forall i :: 0 <= i < n ==> l[i].kind == l[0].kind
    requires n < |l| ==> l[n].kind != l[0].kind
    ensures ModesTaken(l) == Taken(W16, Numbers(l[..n]))
  {
    assert SameKind(l, 1) == n;
  }

  /** Segments are printed one after the other, with a comma between them. */
  lemma ModesPrintedInTurn(def: ModeBase, l: seq<ModeID>)
    requires l != [] && ModeWords(l)
    ensures var n := ModesTaken(l);
            && ModeWords(l[..n]) && ModeWords(l[n..])
            && ModePrint(def, l) == ModePrint(def, l[..n]) + (if n < |l| then "," + ModePrint(def, l[n..]) else "")
  {
    hide ModeToken, ModesTaken;
    var n := ModesTaken(l);
    ModeWordsSplit(l, n);
    FirstAgain(l);
    assert l[..n][..n] == l[..n] && l[..n][n..] == [];
  }

  lemma FirstAgain(l: seq<ModeID>)
    requires l != [] && ModeWords(l)
    ensures ModesTaken(l[..ModesTaken(l)]) == ModesTaken(l)
  {
    hide Taken;
    var n := ModesTaken(l);
    var u := Numbers(l[..SameKind(l, 1)]);
    HeadAgain(W16, u);
    assert SameKind(l[..n], 1) == n;
    assert Numbers(l[..n][..n]) == u[..n];
  }

  // ---------------------------------------------------------------- reading

  /** A text of the right type, or the fault in it. */
  ghost function AsKind(o: Outcome, kind: ModeBase): ModeOutcome {
    match o
    case Values(v) => Modes(OfKind(v, kind))
    case BadText => Rejected
    case Diverges => Forever
  }

  lemma {:induction false} StrippedTwo(s: string, t: string)
    ensures Stripped(s + t) == Stripped(s) + Stripped(t)
  {
    if s == "" {
      assert s + t == t;
    } else {
      assert (s + t)[1..] == s[1..] + t;
      StrippedTwo(s[1..], t);
    }
  }

  lemma NoLetters(s: string)
    requires Letterless(s)
    ensures Count(s, 'z') == 0 && Count(s, 'Z') == 0 && Count(s, 'k') == 0 && Count(s, 'K') == 0 && Stripped(s) == s
  {
    CountWithout(s, 'z');
    CountWithout(s, 'Z');
    CountWithout(s, 'k');
    CountWithout(s, 'K');
    StrippedLetterless(s);
  }

  lemma OneLetter(c: char, d: char)
    ensures Count([c], d) == if c == d then 1 else 0
    ensures IsTypeLetter(c) ==> Stripped([c]) == ""
  {
    CountOne(c, d);
    assert [c][1..] == "";
  }

  /** A letter, small or large, in front of the numbers or anywhere among them, gives their type;
      without a letter they have none. */
  lemma LettersAreRead(s: string, c: char, t: string)
    requires Letterless(s) && Letterless(t) && IsTypeLetter(c)
    ensures ParseModes(s + [c] + t)
         == AsKind(ParseSegment(W16, s + t), if c == 'z' || c == 'Z' then Zernike else KarhunenLoeve)
    ensures ParseModes(s + t) == AsKind(ParseSegment(W16, s + t), MbNone)
  {
    hide ParseSegment, Count, Stripped;
    NoLetters(s);
    NoLetters(t);
    LetterCounts(s, c, t, 'z');
    LetterCounts(s, c, t, 'Z');
    LetterCounts(s, c, t, 'k');
    LetterCounts(s, c, t, 'K');
    StrippedTwo(s + [c], t);
    StrippedTwo(s, [c]);
    StrippedTwo(s, t);
    OneLetter(c, c);
    assert s + "" == s;
  }

  lemma LetterCounts(s: string, c: char, t: string, d: char)
    ensures Count(s + [c] + t, d) == Count(s, d) + (if c == d then 1 else 0) + Count(t, d)
    ensures Count(s + t, d) == Count(s, d) + Count(t, d)
  {
    CountConcat(s + [c], t, d);
    CountConcat(s, [c], d);
    CountConcat(s, t, d);
    CountOne(c, d);
  }

  /** Letters of both types are a conflict. */
  lemma ConflictIsRejected(s: string, c: char, t: string, d: char, u: string)
    requires (c == 'z' || c == 'Z') && (d == 'k' || d == 'K')
    ensures ParseModes(s + [c] + t + [d] + u) == Rejected && ParseModes(s + [d] + t + [c] + u) == Rejected
  {
    hide ParseSegment, Count, Stripped;
    LettersCounted(s, c, t, d, u, c);
    LettersCounted(s, c, t, d, u, d);
    LettersCounted(s, d, t, c, u, c);
    LettersCounted(s, d, t, c, u, d);
  }

  lemma LettersCounted(s: string, c: char, t: string, d: char, u: string, e: char)
    requires c != d
    ensures Count(s + [c] + t + [d] + u, e) >= if e == c || e == d then 1 else 0
  {
    LetterCounts(s + [c] + t, d, u, e);
    LetterCounts(s, c, t, e);
  }

  /** Two lists with a comma between them are read one after the other. */
  lemma ModeListsAreJoined(s: string, t: string, a: seq<ModeID>, b: seq<ModeID>)
    requires s != "" && t != "" && ModeParse(s) == Modes(a) && ModeParse(t) == Modes(b)
    ensures ModeParse(s + "," + t) == Modes(a + b)
  {
    hide ParseModesAll, Split;
    SplitTwo(s, ',', t, {','});
    ParseModesBoth(Split(s, {','}), Split(t, {','}), a, b);
  }

  lemma NoTokens(a: seq<ModeID>)
    requires ParseModesAll([]) == Modes(a)
    ensures a == []
  {
  }

  lemma FirstToken(x: seq<string>, a: seq<ModeID>) returns (first: seq<ModeID>, rest: seq<ModeID>)
    requires x != [] && ParseModesAll(x) == Modes(a)
    ensures ParseModes(x[0]) == Modes(first) && ParseModesAll(x[1..]) == Modes(rest) && a == first + rest
  {
    hide ParseModes;
    first, rest := ParseModes(x[0]).l, ParseModesAll(x[1..]).l;
  }

  lemma {:induction false} ParseModesBoth(x: seq<string>, y: seq<string>, a: seq<ModeID>, b: seq<ModeID>)
    requires ParseModesAll(x) == Modes(a) && ParseModesAll(y) == Modes(b)
    ensures ParseModesAll(x + y) == Modes(a + b)
    decreases |x|
  {
    hide ParseModes, ParseModesAll;
    if x == [] {
      NoTokens(a);
      assert x + y == y && a + b == b;
    } else {
      var first, rest := FirstToken(x, a);
      ParseModesBoth(x[1..], y, rest, b);
      ModesCons(x[0], x[1..] + y, first, rest + b);
      assert x + y == [x[0]] + (x[1..] + y);
      assert first + (rest + b) == (first + rest) + b;
    }
  }
}
