/**
 The text forms of number lists as they are (include/redux/translators.hpp:164-267): what is printed,
 character by character, and what each form that can be read stands for.
 */
module VectorForms {
  import opened Integers
  import opened Text
  import opened Ranges
  import opened VectorText
  import opened VectorExact

  // ---------------------------------------------------------------- digits

  function Power10(k: nat): nat
    ensures Power10(k) > 0
  {
    if k == 0 then 1 else 10 * Power10(k - 1)
  }

  lemma QuotientTwice(n: nat, k: nat)
    ensures n / 10 / Power10(k) == n / Power10(k + 1)
  {
    var p, a := Power10(k), n / 10;
    var q, r := a / p, a % p;
    assert n == 10 * a + n % 10 && a == p * q + r;
    assert n == (10 * p) * q + (10 * r + n % 10);
    QuotientIs(n, 10 * p, q, 10 * r + n % 10);
  }

  lemma QuotientIs(n: nat, d: nat, q: nat, r: nat)
    requires 0 <= r < d && n == d * q + r
    ensures n / d == q
  {
    var e: int := n / d - q;
    assert d * (n / d) + n % d == n;
    assert d * e == r - n % d;
    AtLeastOnce(d, e);
  }

  lemma AtLeastOnce(d: nat, e: int)
    ensures e >= 1 ==> d * e >= d
    ensures e <= -1 ==> d * e + d <= 0
  {
    if e >= 1 { assert d * (e - 1) >= 0; }
    if e <= -1 { assert d * (-1 - e) >= 0; }
  }

  /** The digits of a number, the last one for the ones, and no zero in front. */
  lemma {:induction false} DecimalDigits(n: nat, k: nat)
    requires k < |Decimal(n)|
    ensures Decimal(n)[|Decimal(n)| - 1 - k] as int - '0' as int == (n / Power10(k)) % 10
    ensures |Decimal(n)| > 1 ==> Decimal(n)[0] != '0'
    decreases n
  {
    if n >= 10 {
      var s := Decimal(n / 10);
      DecimalDigits(n / 10, if k == 0 then 0 else k - 1);
      if n / 10 < 10 { assert s == [DigitChar(n / 10)]; }
      if k > 0 {
        QuotientTwice(n, k - 1);
        assert Decimal(n)[|Decimal(n)| - 1 - k] == s[|s| - 1 - (k - 1)];
      }
    }
  }

  // ---------------------------------------------------------------- printing

  /** A run is printed as its first and last element, with a dash between them if it counts up by
      one, and otherwise with its step between colons. */
  lemma RunIsPrinted(w: Width, v: seq<int>)
    requires Detected(w, v)
    ensures |v| >= 3 && Words(w, v)
    ensures var s, a, b := StepOf(v[0], v[1]), Decimal(v[0]), Decimal(v[|v| - 1]);
            && (s == 1 ==> Print(w, v) == a + "-" + b)
            && (s != 1 ==> Print(w, v) == a + ":" + (if s < 0 then "-" + Decimal(-s) else Decimal(s)) + ":" + b)
  {
    hide Wrap, StepOf, Extend, Decimal;
    DetectedParts(w, v);
    ExtendAll(w, v, 2);
    assert v[..|v|] == v;
    var s := StepOf(v[0], v[1]);
    if s != 1 {
      Colons(Decimal(v[0]), SignedDecimal(s), Decimal(v[|v| - 1]));
    }
  }

  lemma Colons(a: string, b: string, c: string)
    ensures a + (":" + b + ":") + c == a + ":" + b + ":" + c
  {
  }

  /** Consecutive numbers are printed as a range. */
  lemma CountingUpIsPrinted(w: Width, a: nat, n: nat)
    requires n >= 3 && a + n <= Modulus(w)
    ensures var v := seq(n, i requires 0 <= i < n => a + i);
            Words(w, v) && Print(w, v) == Decimal(a) + "-" + Decimal(a + n - 1)
  {
    hide Decimal, Print;
    var v := seq(n, i requires 0 <= i < n => a + i);
    assert Detected(w, v);
    RunIsPrinted(w, v);
  }

  /** Three elements that the printer would take for a run. */
  predicate RunAt(w: Width, v: seq<int>, i: nat) {
    i + 2 < |v| && v[i + 2] == Wrap(Modulus(w), v[i + 1] + StepOf(v[i], v[i + 1]))
  }

  function Decimals(v: seq<int>): (tokens: seq<string>)
    requires forall i :: 0 <= i < |v| ==> v[i] >= 0
    ensures |tokens| == |v|
    ensures forall i :: 0 <= i < |v| ==> tokens[i] == Decimal(v[i])
  {
    if v == [] then [] else [Decimal(v[0])] + Decimals(v[1..])
  }

  lemma NoRunTakesOne(w: Width, v: seq<int>)
    requires v != [] && !RunAt(w, v, 0)
    ensures Taken(w, v) == 1
  {
    hide Wrap, StepOf;
  }

  /** A vector without runs is printed as its elements between commas. */
  lemma {:induction false} ElementsArePrinted(w: Width, v: seq<int>)
    requires Words(w, v) && forall i: nat :: !RunAt(w, v, i)
    ensures Print(w, v) == Join(Decimals(v))
    decreases |v|
  {
    hide Taken, Decimal, Wrap, StepOf;
    if v != [] {
      NoRunTakesOne(w, v);
      WordsSplit(w, v, 1);
      forall i: nat ensures !RunAt(w, v[1..], i) { assert !RunAt(w, v, i + 1); }
      ElementsArePrinted(w, v[1..]);
      JoinCons(Decimal(v[0]), Decimals(v[1..]));
    }
  }

  /** The printer takes the longest run at the front, and otherwise one element. */
  lemma TakenExactly(w: Width, v: seq<int>)
    requires v != [] && Words(w, v)
    ensures var n := Taken(w, v);
            && (n == 1 <==> !RunAt(w, v, 0))
            && (n > 1 ==> Detected(w, v[..n]))
            && (n > 1 && n < |v| ==> !Detected(w, v[..n + 1]))
  {
    hide Wrap, StepOf, Detected;
    HeadIsProper(w, v);
    OneIsTaken(w, v);
    if Taken(w, v) > 1 && Taken(w, v) < |v| { NoMoreIsTaken(w, v); }
  }

  lemma OneIsTaken(w: Width, v: seq<int>)
    requires v != []
    ensures Taken(w, v) == 1 <==> !RunAt(w, v, 0)
  {
    hide Wrap, StepOf;
  }

  lemma NoMoreIsTaken(w: Width, v: seq<int>)
    requires v != [] && 1 < Taken(w, v) < |v|
    ensures !Detected(w, v[..Taken(w, v) + 1])
  {
    hide Wrap, StepOf;
    var n := Taken(w, v);
    ExtendStops(w, v, StepOf(v[0], v[1]), 2);
    var u := v[..n + 1];
    assert u[n] == v[n] && u[n - 1] == v[n - 1] && u[0] == v[0] && u[1] == v[1];
  }

  /** What it takes is printed by itself, and the rest after a comma. */
  lemma PrintedInTurn(w: Width, v: seq<int>)
    requires v != [] && Words(w, v)
    ensures var n := Taken(w, v);
            && Words(w, v[..n]) && Words(w, v[n..])
            && Print(w, v) == Print(w, v[..n]) + (if n < |v| then "," + Print(w, v[n..]) else "")
  {
    hide Wrap, StepOf, Token, Taken;
    var n := Taken(w, v);
    WordsSplit(w, v, n);
    HeadAgain(w, v);
    assert v[..n][..n] == v[..n] && v[..n][n..] == [];
  }

  lemma HeadAgain(w: Width, v: seq<int>)
    requires v != [] && Words(w, v)
    ensures Taken(w, v[..Taken(w, v)]) == Taken(w, v)
  {
    hide Wrap, StepOf, Extend;
    var n := Taken(w, v);
    if n > 1 {
      HeadIsProper(w, v);
      ExtendAll(w, v[..n], 2);
    }
  }

  // ---------------------------------------------------------------- reading ranges

  /** The numbers lo, lo + s, ... */
  function Counting(lo: int, s: int, n: nat): (v: seq<int>)
    ensures |v| == n
    ensures forall i :: 0 <= i < n ==> v[i] == lo + i * s
  {
    seq(n, i requires 0 <= i < n => lo + i * s)
  }

  lemma CountingIsPushed(m: int, lo: int, s: int, n: nat, hi: int)
    requires 0 <= lo && s > 0 && n > 0 && lo + (n - 1) * s <= hi < lo + n * s < m
    ensures Pushed(m, lo, s, hi, Counting(lo, s, n))
  {
    var v := Counting(lo, s, n);
    forall j | 0 <= j < n ensures 0 <= v[j] <= hi && (j > 0 ==> v[j] == v[j - 1] + s) {
      StepsGrow(j, n - 1, s);
      if j > 0 { assert j * s == (j - 1) * s + s; }
    }
    assert n * s == (n - 1) * s + s;
  }

  lemma StepsGrow(j: int, n: int, s: int)
    requires 0 <= j <= n && s > 0
    ensures 0 <= j * s <= n * s
  {
    assert (n - j) * s >= 0;
  }

  /** A range with a positive step, given in rising order, and the same range given in falling order,
      which is read backwards. */
  lemma RangeExactly(w: Width, lo: int, s: int, n: nat, hi: int)
    requires 0 <= lo && 0 < s < Modulus(w) && n > 0
    requires lo + (n - 1) * s <= hi < lo + n * s < Modulus(w)
    ensures lo <= hi && Range(w, lo, s, hi) == Values(Counting(lo, s, n))
    ensures lo < hi ==> Range(w, hi, s, lo) == Values(Reverse(Counting(lo, s, n)))
    ensures lo < hi && s < INT_LIMIT ==> Range(w, hi, -s, lo) == Values(Reverse(Counting(lo, s, n)))
  {
    hide Expand;
    StepsGrow(0, n - 1, s);
    CountingIsPushed(Modulus(w), lo, s, n, hi);
    ExpandExactly(Modulus(w), lo, s, hi, Counting(lo, s, n));
  }

  /** A dash and a colon are the same between two numbers. */
  lemma DashIsColon(w: Width, a: nat, b: nat)
    requires a < Modulus(w) && b < Modulus(w)
    ensures ParseSegment(w, Decimal(a) + ":" + Decimal(b)) == Range(w, a, 1, b)
    ensures ParseSegment(w, Decimal(a) + "-" + Decimal(b)) == Range(w, a, 1, b)
  {
    hide Range, Decimal, CastUnsigned, FirstOf, Count;
    ParseUnitRange(w, a, b);
    var x, y := Decimal(a), Decimal(b);
    NumbersAreClean(x);
    NumbersAreClean(y);
    CountWithout(x, ':');
    CountWithout(y, ':');
    CountWithout(x, '-');
    CountWithout(y, '-');
    CountThree(x, ":", y, ':');
    CountThree(x, ":", y, '-');
    CountOne(':', ':');
    CountOne(':', '-');
    var s := x + ":" + y;
    FirstOfAt(s, {':', '-'}, 0, |x|);
    assert s[..|x|] == x && s[|x| + 1..] == y;
    CastDecimal(Modulus(w), a);
    CastDecimal(Modulus(w), b);
  }

  /** Between two numbers, the range of all numbers from the one to the other, in that order, unless
      the larger is the largest word: then the loop does not end. */
  lemma UnitRangeExactly(w: Width, a: nat, b: nat)
    requires a < Modulus(w) && b < Modulus(w)
    ensures var s := Decimal(a) + "-" + Decimal(b);
            && (a <= b < Modulus(w) - 1 ==> ParseSegment(w, s) == Values(Counting(a, 1, b - a + 1)))
            && (b < a < Modulus(w) - 1 ==> ParseSegment(w, s) == Values(Counting(a, -1, a - b + 1)))
            && ((a == Modulus(w) - 1 || b == Modulus(w) - 1) ==> ParseSegment(w, s) == Diverges)
  {
    hide ParseSegment, Decimal, Range, Expand;
    DashIsColon(w, a, b);
    if a <= b < Modulus(w) - 1 {
      RangeExactly(w, a, 1, b - a + 1, b);
    } else if b < a < Modulus(w) - 1 {
      RangeExactly(w, b, 1, a - b + 1, a);
      assert Reverse(Counting(b, 1, a - b + 1)) == Counting(a, -1, a - b + 1);
    } else {
      FullRangeDiverges(w, if a < b then a else b);
      RangeOfFull(w, a, b);
    }
  }

  lemma RangeOfFull(w: Width, a: nat, b: nat)
    requires a < Modulus(w) && b < Modulus(w) && (a == Modulus(w) - 1 || b == Modulus(w) - 1)
    ensures Expand(Modulus(w), if a < b then a else b, 1, Modulus(w) - 1) == Diverges ==> Range(w, a, 1, b) == Diverges
  {
    hide Expand;
  }

  /** Nothing is above the largest word. */
  lemma FullRangeDiverges(w: Width, lo: nat)
    requires lo < Modulus(w)
    ensures Expand(Modulus(w), lo, 1, Modulus(w) - 1) == Diverges
  {
    hide Expand;
    var m := Modulus(w);
    forall v ensures Expand(m, lo, 1, m - 1) != Values(v) {
      ExpandExactly(m, lo, 1, m - 1, v);
    }
    ExpandCases(m, lo, 1, m - 1);
  }

  /** A number by itself, if it fits the words. */
  lemma NumberExactly(w: Width, n: nat)
    ensures ParseSegment(w, Decimal(n)) == if n < Modulus(w) then Values([n]) else BadText
  {
    hide FirstOf, Range;
    var s := Decimal(n);
    NumbersAreClean(s);
    CountWithout(s, '-');
    CountWithout(s, ':');
    DecimalRoundTrip(n);
    assert IsDigit(s[0]);
  }

  // ---------------------------------------------------------------- reading lists

  lemma {:induction false} FirstOfPrefix(s: string, t: string, seps: set<char>, from: nat)
    requires from <= |s| && FirstOf(s, seps, from) < |s|
    ensures FirstOf(s + t, seps, from) == FirstOf(s, seps, from)
    decreases |s| - from
  {
    if s[from] !in seps {
      FirstOfPrefix(s, t, seps, from + 1);
    }
  }

  lemma {:induction false} FirstOfEnd(s: string, c: char, t: string, seps: set<char>, from: nat)
    requires from <= |s| && c in seps && FirstOf(s, seps, from) == |s|
    ensures FirstOf(s + [c] + t, seps, from) == |s|
    decreases |s| - from
  {
    if from < |s| {
      FirstOfEnd(s, c, t, seps, from + 1);
    }
  }

  lemma {:induction false} SplitTwo(s: string, c: char, t: string, seps: set<char>)
    requires c in seps
    ensures Split(s + [c] + t, seps) == Split(s, seps) + Split(t, seps)
    decreases |s|
  {
    hide FirstOf;
    var n := FirstOf(s, seps, 0);
    var all := s + [c] + t;
    if n == |s| {
      FirstOfEnd(s, c, t, seps, 0);
      assert all[..n] == s && all[n + 1..] == t;
    } else {
      assert all == s + ([c] + t);
      FirstOfPrefix(s, [c] + t, seps, 0);
      SplitTwo(s[n + 1..], c, t, seps);
      assert all[..n] == s[..n] && all[n + 1..] == s[n + 1..] + [c] + t;
    }
  }

  lemma {:induction false} ParseBoth(w: Width, a: seq<string>, b: seq<string>, u: seq<int>, v: seq<int>)
    requires ParseAll(w, a) == Values(u) && ParseAll(w, b) == Values(v)
    ensures ParseAll(w, a + b) == Values(u + v)
    decreases |a|
  {
    hide ParseSegment;
    if a == [] {
      assert a + b == b;
    } else {
      assert (a + b)[0] == a[0] && (a + b)[1..] == a[1..] + b;
      if a[0] == "" {
        ParseBoth(w, a[1..], b, u, v);
      } else {
        var x, rest := ParseSegment(w, a[0]).v, ParseAll(w, a[1..]).v;
        ParseBoth(w, a[1..], b, rest, v);
        assert x + (rest + v) == (x + rest) + v;
      }
    }
  }

  lemma ParseIsAll(w: Width, s: string)
    ensures Parse(w, s) == ParseAll(w, Split(s, SEPARATORS))
  {
    hide ParseSegment;
    if s == "" {
      assert Split(s, SEPARATORS) == [""];
      assert ParseAll(w, [""]) == ParseAll(w, []);
    }
  }

  /** Two lists with a comma or a space between them are read one after the other; empty tokens do
      not count. */
  lemma ListsAreJoined(w: Width, s: string, c: char, t: string, u: seq<int>, v: seq<int>)
    requires (c == ',' || c == ' ') && Parse(w, s) == Values(u) && Parse(w, t) == Values(v)
    ensures Parse(w, s + [c] + t) == Values(u + v)
    ensures Parse(w, "") == Values([])
  {
    hide Parse, ParseAll, Split;
    ParseIsAll(w, s);
    ParseIsAll(w, t);
    ParseIsAll(w, s + [c] + t);
    SplitTwo(s, c, t, SEPARATORS);
    ParseBoth(w, Split(s, SEPARATORS), Split(t, SEPARATORS), u, v);
    NothingIsRead(w);
  }

  lemma NothingIsRead(w: Width)
    ensures Parse(w, "") == Values([])
  {
  }

  /** A text without separators is one segment. */
  lemma SegmentIsRead(w: Width, s: string)
    requires s != "" && Clean(s, SEPARATORS)
    ensures Parse(w, s) == ParseSegment(w, s)
  {
    hide ParseSegment;
    SplitClean(s, SEPARATORS);
    assert ParseAll(w, [s][1..]) == Values([]);
    assert [s][0] == s;
  }
}
