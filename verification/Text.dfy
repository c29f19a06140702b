/**
 The text primitives the translators of include/redux/translators.hpp rely on: printing and
 reading of decimal numbers, splitting at separators, counting and finding characters.
 */
module Text {

  // ---------------------------------------------------------------- decimal numbers

  function DigitChar(d: nat): char
    requires d < 10
  {
    '0' + d as char
  }

  predicate IsDigit(c: char) {
    '0' <= c <= '9'
  }

  predicate IsNumber(s: string) {
    s != "" && forall i :: 0 <= i < |s| ==> IsDigit(s[i])
  }

  /** The decimal form of a number, without leading zeros. */
  function Decimal(n: nat): (s: string)
    ensures IsNumber(s)
  {
    if n < 10 then [DigitChar(n)] else Decimal(n / 10) + [DigitChar(n % 10)]
  }

  /** The number a string of digits stands for. */
  function NumberOf(s: string): nat
    requires forall i :: 0 <= i < |s| ==> IsDigit(s[i])
  {
    if s == "" then 0 else
      assert IsDigit(s[|s| - 1]);
      10 * NumberOf(s[..|s| - 1]) + (s[|s| - 1] as int - '0' as int)
  }

  lemma {:induction false} DecimalRoundTrip(n: nat)
    ensures NumberOf(Decimal(n)) == n
  {
    if n >= 10 {
      DecimalRoundTrip(n / 10);
      assert Decimal(n)[..|Decimal(n)| - 1] == Decimal(n / 10);
    }
  }

  /** A signed number as the stream operator prints it. */
  function SignedDecimal(n: int): string {
    if n < 0 then "-" + Decimal(-n) else Decimal(n)
  }

  datatype Cast = Value(n: nat) | BadCast

  /** boost::lexical_cast to an unsigned type with `modulus` values: an optional sign, then
      digits whose value fits; a minus sign wraps the value round. */
  function CastUnsigned(modulus: nat, s: string): Cast
    requires modulus > 0
  {
    var signed := s != "" && (s[0] == '-' || s[0] == '+');
    var digits := if signed then s[1..] else s;
    if !IsNumber(digits) || NumberOf(digits) >= modulus then BadCast
    else if signed && s[0] == '-' && NumberOf(digits) > 0 then Value(modulus - NumberOf(digits))
    else Value(NumberOf(digits))
  }

  lemma CastDecimal(modulus: nat, n: nat)
    requires n < modulus
    ensures CastUnsigned(modulus, Decimal(n)) == Value(n)
  {
    DecimalRoundTrip(n);
    assert IsDigit(Decimal(n)[0]);
  }

  lemma CastSignedDecimal(modulus: nat, n: int)
    requires 0 < modulus + n && n < modulus
    ensures CastUnsigned(modulus, SignedDecimal(n)) == Value(if n < 0 then modulus + n else n)
  {
    if n < 0 {
      DecimalRoundTrip(-n);
      assert SignedDecimal(n)[1..] == Decimal(-n);
    } else {
      CastDecimal(modulus, n);
    }
  }

  /** A plus sign does not count, and a minus sign takes the number from the modulus. */
  lemma SignsAreRead(modulus: nat, n: nat)
    requires n < modulus
    ensures CastUnsigned(modulus, "+" + Decimal(n)) == Value(n)
    ensures CastUnsigned(modulus, "-" + Decimal(n)) == Value((modulus - n) % modulus)
  {
    hide Decimal, NumberOf;
    DecimalRoundTrip(n);
    assert ("+" + Decimal(n))[1..] == Decimal(n) && ("-" + Decimal(n))[1..] == Decimal(n);
  }

  // ---------------------------------------------------------------- characters

  predicate Without(s: string, c: char) {
    forall i :: 0 <= i < |s| ==> s[i] != c
  }

  function Count(s: string, c: char): nat {
    if s == "" then 0 else (if s[0] == c then 1 else 0) + Count(s[1..], c)
  }

  lemma {:induction false} CountConcat(s: string, t: string, c: char)
    ensures Count(s + t, c) == Count(s, c) + Count(t, c)
  {
    if s == "" {
      assert s + t == t;
    } else {
      assert (s + t)[1..] == s[1..] + t;
      CountConcat(s[1..], t, c);
    }
  }

  lemma {:induction false} CountWithout(s: string, c: char)
    requires Without(s, c)
    ensures Count(s, c) == 0
  {
    if s != "" {
      CountWithout(s[1..], c);
    }
  }

  /** The index of the first character at or after `from` that is one of `set`, or the length. */
  function FirstOf(s: string, chars: set<char>, from: nat): (n: nat)
    requires from <= |s|
    ensures from <= n <= |s|
    decreases |s| - from
  {
    if from == |s| || s[from] in chars then from else FirstOf(s, chars, from + 1)
  }

  lemma {:induction false} FirstOfAt(s: string, chars: set<char>, from: nat, n: nat)
    requires from <= n < |s| && s[n] in chars
    requires forall i :: from <= i < n ==> s[i] !in chars
    ensures FirstOf(s, chars, from) == n
    decreases n - from
  {
    if from < n {
      FirstOfAt(s, chars, from + 1, n);
    }
  }

  // ---------------------------------------------------------------- tokens

  /** boost::split without token compression: a token per gap between separators. */
  function Split(s: string, seps: set<char>): (tokens: seq<string>)
    ensures tokens != []
    decreases |s|
  {
    var n := FirstOf(s, seps, 0);
    if n == |s| then [s] else [s[..n]] + Split(s[n + 1..], seps)
  }

  /** Tokens separated by commas. */
  function Join(tokens: seq<string>): string {
    if tokens == [] then ""
    else if |tokens| == 1 then tokens[0]
    else tokens[0] + "," + Join(tokens[1..])
  }

  lemma JoinCons(token: string, tokens: seq<string>)
    ensures Join([token] + tokens) == token + (if tokens == [] then "" else "," + Join(tokens))
  {
  }

  predicate Clean(s: string, seps: set<char>) {
    forall i :: 0 <= i < |s| ==> s[i] !in seps
  }

  lemma {:induction false} SplitClean(s: string, seps: set<char>)
    requires Clean(s, seps)
    ensures Split(s, seps) == [s]
  {
    FirstOfClean(s, seps, 0);
  }

  lemma {:induction false} FirstOfClean(s: string, chars: set<char>, from: nat)
    requires from <= |s| && Clean(s, chars)
    ensures FirstOf(s, chars, from) == |s|
    decreases |s| - from
  {
    if from < |s| {
      FirstOfClean(s, chars, from + 1);
    }
  }

  /** Splitting what was joined gives the tokens back. */
  lemma {:induction false} SplitJoin(tokens: seq<string>, seps: set<char>)
    requires tokens != [] && ',' in seps
    requires forall i :: 0 <= i < |tokens| ==> Clean(tokens[i], seps)
    ensures Split(Join(tokens), seps) == tokens
  {
    if |tokens| == 1 {
      SplitClean(tokens[0], seps);
    } else {
      var head, rest := tokens[0], Join(tokens[1..]);
      var s := head + "," + rest;
      FirstOfAt(s, seps, 0, |head|);
      assert s[..|head|] == head && s[|head| + 1..] == rest;
      SplitJoin(tokens[1..], seps);
    }
  }

  // ---------------------------------------------------------------- small facts

  lemma NumbersAreClean(s: string)
    requires IsNumber(s)
    ensures Without(s, '-') && Without(s, ':') && Without(s, ',') && Without(s, ' ')
  {
  }
}
