/**
 put_value, get_value and parseSegment of VectorTranslator as the loops they are
 (include/redux/translators.hpp:159-257), proved against the specification in VectorText.
 */
module VectorCode {
  import opened Integers
  import opened Text
  import opened Ranges
  import opened VectorText

  /** The text of a run of more than two elements, as the stream receives it. */
  function RunText(first: nat, step: int, last: nat): string {
    Decimal(first)
    + (if step == 1 then "-" else ":")
    + (if step != 1 then SignedDecimal(step) + ":" else "")
    + Decimal(last)
  }

  lemma RunTextIsToken(first: nat, step: int, last: nat)
    ensures RunText(first, step, last) == RangeToken(first, step, last)
  {
  }

  lemma PrintHead(w: Width, vec: seq<int>, first: nat)
    requires Words(w, vec) && first < |vec|
    ensures Words(w, vec[first..])
    ensures var rest := vec[first..];
            var n := Taken(w, rest);
            Words(w, rest[..n]) && Words(w, vec[first + n..])
            && Print(w, rest) == Token(w, rest[..n]) + (if first + n < |vec| then "," + Print(w, vec[first + n..]) else "")
  {
    var rest := vec[first..];
    var n := Taken(w, rest);
    WordsSplit(w, vec, first);
    WordsSplit(w, rest, n);
    assert rest[n..] == vec[first + n..];
  }

  /** Converts a vector to a comma-separated string. */
  method PutValue(w: Width, vec: seq<int>) returns (oss: string)
    requires Words(w, vec)
    ensures oss == Print(w, vec)
  {
    hide Print, Token, Taken, Words;
    oss := "";
    var first := 0;
    assert vec[0..] == vec;
    PrintOfNothing(w);
    while first != |vec|
      invariant 0 <= first <= |vec|
      invariant Words(w, vec[first..])
      invariant oss + Print(w, vec[first..]) == Print(w, vec)
      decreases |vec| - first
    {
      PrintHead(w, vec, first);
      var text, last := NextSegment(w, vec, first);
      ghost var before := oss;
      oss := oss + text;
      if last != |vec| {
        oss := oss + ",";
        Regrouped(before, text, Print(w, vec[last..]));
      } else {
        assert vec[last..] == [];
      }
      first := last;
    }
    assert vec[first..] == [];
  }

  lemma Regrouped(a: string, b: string, c: string)
    ensures a + (b + ("," + c)) == a + b + "," + c
  {
  }

  /** The next segment and the index after it: a lone last element, a run of at least three, or
      one element of a pair that does not go on. */
  method NextSegment(w: Width, vec: seq<int>, first: nat) returns (text: string, last: nat)
    requires first < |vec| && Words(w, vec) && Words(w, vec[first..])
    ensures last == first + Taken(w, vec[first..])
    ensures Words(w, vec[first..][..Taken(w, vec[first..])])
    ensures text == Token(w, vec[first..][..Taken(w, vec[first..])])
  {
    hide Wrap, Signed32, Decimal, Extend, SignedDecimal, Token, Taken;
    ghost var rest := vec[first..];
    last := first + 1;
    if last == |vec| {
      OneLeft(w, rest);
      text := Decimal(vec[first]);
      return;
    }
    var step := Signed32(vec[last] - vec[first]);
    var count := RunLength(w, vec, first, step);
    last := first + count;
    if count > 2 {
      RunTextIsToken(vec[first], step, vec[last - 1]);
      RunToken(w, rest, count, step);
      text := RunText(vec[first], step, vec[last - 1]);
    } else {
      SingleToken(w, rest);
      text := Decimal(vec[first]);
      last := last - 1;
    }
  }

  /** The loop that counts how many elements follow the first step. */
  method RunLength(w: Width, vec: seq<int>, first: nat, step: int) returns (count: nat)
    requires first + 2 <= |vec|
    ensures count == Extend(w, vec[first..], step, 2)
  {
    hide Extend, Wrap;
    ghost var rest := vec[first..];
    var last := first + 1;
    var next := Wrap(Modulus(w), vec[last] + step);
    count := 2;
    last := last + 1;
    while last != |vec| && vec[last] == next
      invariant first + 2 <= last <= |vec| && count == last - first
      invariant next == Wrap(Modulus(w), vec[last - 1] + step)
      invariant Extend(w, rest, step, 2) == Extend(w, rest, step, count)
    {
      ExtendStep(w, rest, step, count);
      next := Wrap(Modulus(w), next + step);
      count := count + 1;
      last := last + 1;
    }
    ExtendEnd(w, rest, step, count);
  }

  lemma PrintOfNothing(w: Width)
    ensures Print(w, []) == ""
  {
  }

  lemma OneLeft(w: Width, rest: seq<int>)
    requires |rest| == 1 && Words(w, rest)
    ensures Taken(w, rest) == 1 && Words(w, rest[..1]) && Token(w, rest[..1]) == Decimal(rest[0])
  {
  }

  lemma ExtendStep(w: Width, v: seq<int>, step: int, j: nat)
    requires 1 <= j < |v| && v[j] == Wrap(Modulus(w), v[j - 1] + step)
    ensures Extend(w, v, step, j) == Extend(w, v, step, j + 1)
  {
  }

  lemma ExtendEnd(w: Width, v: seq<int>, step: int, j: nat)
    requires 1 <= j <= |v|
    requires j == |v| || v[j] != Wrap(Modulus(w), v[j - 1] + step)
    ensures Extend(w, v, step, j) == j
  {
  }

  lemma RunToken(w: Width, rest: seq<int>, count: nat, step: int)
    requires Words(w, rest) && 2 < count <= |rest| && step == StepOf(rest[0], rest[1])
    requires Extend(w, rest, step, 2) == count
    ensures Taken(w, rest) == count && Words(w, rest[..count])
    ensures Token(w, rest[..count]) == RangeToken(rest[0], step, rest[count - 1])
  {
  }

  lemma SingleToken(w: Width, rest: seq<int>)
    requires Words(w, rest) && |rest| >= 2 && Extend(w, rest, StepOf(rest[0], rest[1]), 2) == 2
    ensures Taken(w, rest) == 1 && Words(w, rest[..1]) && Token(w, rest[..1]) == Decimal(rest[0])
  {
  }

  // ---------------------------------------------------------------- reading

  /** The loop that pushes `first`, `first + step`, ... up to `last`. */
  method PushRange(m: int, first0: int, step: int, last: int) returns (out: seq<int>)
    requires 0 <= first0 < m && -m < step < m
    requires Expand(m, first0, step, last) != Diverges
    ensures Expand(m, first0, step, last) == Values(out)
  {
    ghost var rounds: nat :| StopsBy(m, first0, step, last, rounds)
                             && Expand(m, first0, step, last) == Values(Walk(m, first0, step, last, rounds));
    ghost var all := Walk(m, first0, step, last, rounds);
    hide Expand;
    var first := first0;
    out := [];
    while first <= last
      invariant 0 <= first < m
      invariant StopsBy(m, first, step, last, rounds)
      invariant out + Walk(m, first, step, last, rounds) == all
      decreases rounds
    {
      out := out + [first];
      first := Wrap(m, first + step);
      rounds := rounds - 1;
    }
  }

  /** Expands `first`, `step`, `last`, exchanging falling bounds and turning the result round. */
  method ExpandRange(w: Width, first0: int, step0: int, last0: int) returns (out: seq<int>)
    requires 0 <= first0 < Modulus(w) && 0 <= last0 < Modulus(w) && -Modulus(w) < step0 < Modulus(w)
    requires Range(w, first0, step0, last0) != Diverges
    ensures Range(w, first0, step0, last0) == Values(out)
  {
    hide Expand, Modulus;
    var first, step, last := first0, step0, last0;
    var rev := false;
    if first > last {
      first, last := last, first;
      if step < 0 { step := Abs32(step); }
      rev := true;
    }
    out := PushRange(Modulus(w), first, step, last);
    if rev { out := Reverse(out); }
  }

  /** Reads one segment. */
  method SegmentCode(w: Width, elem: string) returns (r: Outcome)
    requires ParseSegment(w, elem) != Diverges
    ensures r == ParseSegment(w, elem)
  {
    hide Range, Count, FirstOf, CastUnsigned, Signed32;
    var m := Modulus(w);
    var n1, n2 := Count(elem, '-'), Count(elem, ':');
    if n1 + n2 == 0 {
      var c := CastUnsigned(m, elem);
      r := if c.Value? then Values([c.n]) else BadText;
    } else if n1 + n2 == 1 {
      var n := FirstOf(elem, {':', '-'}, 0);
      if n == |elem| { return BadText; }
      var first, last := CastUnsigned(m, elem[..n]), CastUnsigned(m, elem[n + 1..]);
      if first.BadCast? || last.BadCast? { return BadText; }
      r := RangeCode(w, first.n, 1, last.n);
    } else if n2 == 2 {
      var n := FirstOf(elem, {':'}, 0);
      if n == |elem| { return BadText; }
      var nn := FirstOf(elem, {':'}, n + 1);
      if nn == |elem| { return BadText; }
      var first := CastUnsigned(m, elem[..n]);
      var step := CastUnsigned(m, elem[n + 1..nn]);
      var last := CastUnsigned(m, elem[nn + 1..]);
      if first.BadCast? || step.BadCast? || last.BadCast? { return BadText; }
      r := RangeCode(w, first.n, Signed32(step.n), last.n);
    } else {
      r := Values([]);
    }
  }

  method RangeCode(w: Width, first: nat, step: int, last: nat) returns (r: Outcome)
    requires RangeOf(w, first, step, last) != Diverges
    ensures r == RangeOf(w, first, step, last)
  {
    hide Range;
    if first < Modulus(w) && last < Modulus(w) && -Modulus(w) < step < Modulus(w) {
      var out := ExpandRange(w, first, step, last);
      r := Values(out);
    } else {
      r := BadText;
    }
  }

  ghost function Prepend(acc: seq<int>, o: Outcome): Outcome {
    if o.Values? then Values(acc + o.v) else o
  }

  /** Converts a string to a vector. */
  method GetValue(w: Width, str: string) returns (r: Outcome)
    requires Parse(w, str) != Diverges
    ensures r == Parse(w, str)
  {
    hide ParseSegment, Split;
    if str == "" { return Values([]); }
    var tokens := Split(str, SEPARATORS);
    var result := [];
    assert tokens[0..] == tokens;
    for i := 0 to |tokens|
      invariant ParseAll(w, tokens) == Prepend(result, ParseAll(w, tokens[i..]))
    {
      var token := tokens[i];
      assert tokens[i..][0] == token && tokens[i..][1..] == tokens[i + 1..];
      if token == "" { continue; }
      var res := SegmentCode(w, token);
      if !res.Values? { return res; }
      AppendTwice(result, res.v, ParseAll(w, tokens[i + 1..]));
      result := result + res.v;
    }
    r := Values(result);
  }

  lemma AppendTwice(a: seq<int>, b: seq<int>, o: Outcome)
    ensures Prepend(a, Prepend(b, o)) == Prepend(a + b, o)
  {
  }
}
