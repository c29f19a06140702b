/**
 The parser of ModeListTranslator as it is written (include/redux/translators.hpp:411-473): a loop
 over the tokens, and for each of them its type letters, its text without them, and its range.
 */
module ModeCode {
  import opened Text
  import opened Ranges
  import opened VectorText
  import opened VectorCode
  import opened ModeText

  /** Removes the type letters from a token. */
  method StripLetters(token: string) returns (text: string)
    ensures text == Stripped(token)
  {
    text := "";
    assert token[0..] == token;
    for i := 0 to |token|
      invariant text + Stripped(token[i..]) == Stripped(token)
    {
      assert token[i..][0] == token[i] && token[i..][1..] == token[i + 1..];
      if !IsTypeLetter(token[i]) { text := text + [token[i]]; }
    }
  }

  /** Reads one segment, wherever its loops end. */
  method ModeSegment(token: string) returns (r: ModeOutcome)
    requires ParseModes(token) != Forever
    ensures r == ParseModes(token)
  {
    hide ParseSegment, Stripped, Count;
    var nz := Count(token, 'z') + Count(token, 'Z');
    var nk := Count(token, 'k') + Count(token, 'K');
    if nz > 0 && nk > 0 { return Rejected; }
    var kind := MbNone;
    if nz > 0 { kind := Zernike; }
    if nk > 0 { kind := KarhunenLoeve; }
    var text := StripLetters(token);
    var v := SegmentCode(W16, text);
    match v
    case Values(numbers) => r := Modes(OfKind(numbers, kind));
    case BadText => r := Rejected;
  }

  ghost function PrependModes(acc: seq<ModeID>, o: ModeOutcome): ModeOutcome {
    if o.Modes? then Modes(acc + o.l) else o
  }

  lemma PrependTwice(a: seq<ModeID>, b: seq<ModeID>, o: ModeOutcome)
    ensures PrependModes(a, PrependModes(b, o)) == PrependModes(a + b, o)
  {
    if o.Modes? { assert a + (b + o.l) == (a + b) + o.l; }
  }

  /** Converts a string to a mode list, wherever its loops end; an empty token is rejected. */
  method GetModes(str: string) returns (r: ModeOutcome)
    requires ModeParse(str) != Forever
    ensures r == ModeParse(str)
  {
    hide ParseModes, Split;
    if str == "" { return Modes([]); }
    var tokens := Split(str, {','});
    var modeList: seq<ModeID> := [];
    assert tokens[0..] == tokens;
    for i := 0 to |tokens|
      invariant ParseModesAll(tokens) == PrependModes(modeList, ParseModesAll(tokens[i..]))
    {
      var token := tokens[i];
      assert tokens[i..][0] == token && tokens[i..][1..] == tokens[i + 1..];
      var res := ModeSegment(token);
      if !res.Modes? { return res; }
      PrependTwice(modeList, res.l, ParseModesAll(tokens[i + 1..]));
      modeList := modeList + res.l;
    }
    r := Modes(modeList);
  }
}
