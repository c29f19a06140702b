/**
 matchNearest (src/dlm/imgtools.cpp:248-301): pairs the key points of two images. Every point
 proposes its nearest counterpart, and the proposals are accepted greedily, shortest first. The
 distances after mapping are inputs here.
 */
module Keypoints {

  datatype Pair = Pair(query: nat, train: nat, distance: real)

  predicate Shares(a: Pair, b: Pair) {
    a.query == b.query || a.train == b.train
  }

  // ---------------------------------------------------------------- proposals

  const FAR: real := 1000000000000.0

  /** The first place of the smallest distance in a row, if that is closer than FAR. */
  ghost predicate IsNearest(row: seq<real>, j: int) {
    && 0 <= j < |row| && row[j] < FAR
    && (forall k :: 0 <= k < j ==> row[j] < row[k])
    && (forall k :: j <= k < |row| ==> row[j] <= row[k])
  }

  ghost predicate NoneNear(row: seq<real>) {
    forall k :: 0 <= k < |row| ==> row[k] >= FAR
  }

  /** The inner loop of both passes. */
  method Nearest(row: seq<real>) returns (index: int, distance: real)
    ensures index == -1 ==> NoneNear(row) && distance == FAR
    ensures index != -1 ==> IsNearest(row, index) && distance == row[index]
  {
    distance := FAR;
    index := -1;
    for j := 0 to |row|
      invariant index == -1 ==> NoneNear(row[..j]) && distance == FAR
      invariant index != -1 ==> IsNearest(row[..j], index) && distance == row[index]
    {
      if row[j] < distance {
        distance := row[j];
        index := j;
      }
    }
    assert row[..|row|] == row;
  }

  /** Point `i` of the first image proposes `p`. */
  ghost predicate Forward(rows: seq<seq<real>>, limit: real, p: Pair) {
    p.query < |rows| && IsNearest(rows[p.query], p.train) && p.distance == rows[p.query][p.train] && p.distance < limit
  }

  /** Point `i` of the second image proposes `p`. */
  ghost predicate Backward(rows: seq<seq<real>>, limit: real, p: Pair) {
    p.train < |rows| && IsNearest(rows[p.train], p.query) && p.distance == rows[p.train][p.query] && p.distance < limit
  }

  /** The two passes. The first limit is scaled, the second is not. */
  method Proposals(there: seq<seq<real>>, back: seq<seq<real>>, maxDistance: real, scale: real) returns (s: seq<Pair>)
    ensures forall p :: p in s <==> Forward(there, maxDistance * scale, p) || Backward(back, maxDistance, p)
    ensures |s| <= |there| + |back|
  {
    s := [];
    for i := 0 to |there|
      invariant forall p :: p in s <==> Forward(there, maxDistance * scale, p) && p.query < i
      invariant |s| <= i
    {
      var j, d := Nearest(there[i]);
      if j >= 0 && d < maxDistance * scale {
        s := s + [Pair(i, j, d)];
      }
    }
    for i := 0 to |back|
      invariant forall p :: p in s <==> Forward(there, maxDistance * scale, p) || (Backward(back, maxDistance, p) && p.train < i)
      invariant |s| <= |there| + i
    {
      var j, d := Nearest(back[i]);
      if j >= 0 && d < maxDistance {
        s := s + [Pair(j, i, d)];
      }
    }
  }

  // ---------------------------------------------------------------- the order

  ghost predicate Sorted(s: seq<Pair>) {
    forall i, j :: 0 <= i < j < |s| ==> s[i].distance <= s[j].distance
  }

  /** An order that a sort by distance may produce; ties come in any order. */
  ghost predicate Arranged(s: seq<Pair>, c: seq<Pair>) {
    multiset(s) == multiset(c) && Sorted(s)
  }

  /** A sort by distance. */
  method SortByDistance(c: seq<Pair>) returns (s: seq<Pair>)
    ensures Arranged(s, c)
  {
    s := [];
    for n := 0 to |c|
      invariant Arranged(s, c[..n])
    {
      s := Insert(s, c[n]);
      assert c[..n + 1] == c[..n] + [c[n]];
    }
    assert c[..|c|] == c;
  }

  method Insert(s: seq<Pair>, p: Pair) returns (r: seq<Pair>)
    requires Sorted(s)
    ensures Arranged(r, s + [p])
  {
    hide Sorted, Arranged;
    var k := |s|;
    while k > 0 && s[k - 1].distance > p.distance
      invariant 0 <= k <= |s|
      invariant forall i :: k <= i < |s| ==> s[i].distance > p.distance
    {
      k := k - 1;
    }
    r := s[..k] + [p] + s[k..];
    Inserted(s, s[..k], s[k..], p);
  }

  lemma Inserted(s: seq<Pair>, l: seq<Pair>, h: seq<Pair>, p: Pair)
    requires Sorted(s) && s == l + h
    requires l != [] ==> l[|l| - 1].distance <= p.distance
    requires forall i :: 0 <= i < |h| ==> h[i].distance > p.distance
    ensures Arranged(l + [p] + h, s + [p])
  {
    hide Sorted;
    InsertedSorted(l, h, p);
  }

  lemma InsertedSorted(l: seq<Pair>, h: seq<Pair>, p: Pair)
    requires Sorted(l + h)
    requires l != [] ==> l[|l| - 1].distance <= p.distance
    requires forall i :: 0 <= i < |h| ==> h[i].distance > p.distance
    ensures Sorted(l + [p] + h)
  {
    var s, r := l + h, l + [p] + h;
    assert forall i :: 0 <= i < |l| ==> s[i] == l[i] && r[i] == l[i];
    assert forall i :: |l| <= i < |s| ==> s[i] == h[i - |l|];
    assert forall i :: |l| < i < |r| ==> r[i] == h[i - |l| - 1] && r[i] == s[i - 1];
    assert forall i :: 0 <= i < |l| ==> l[i].distance <= p.distance by {
      assert forall i :: 0 <= i < |l| - 1 ==> s[i].distance <= s[|l| - 1].distance;
    }
  }

  lemma SameMembers(s: seq<Pair>, c: seq<Pair>)
    requires multiset(s) == multiset(c)
    ensures forall p :: p in s <==> p in c
  {
    forall p ensures p in s <==> p in c {
      assert p in s <==> p in multiset(s);
      assert p in c <==> p in multiset(c);
    }
  }

  // ---------------------------------------------------------------- the greedy choice

  ghost predicate Clashes(kept: seq<Pair>, p: Pair) {
    exists k :: 0 <= k < |kept| && Shares(kept[k], p)
  }

  /** What is kept of a list: whatever clashes with nothing kept before it. */
  ghost function Kept(s: seq<Pair>): seq<Pair> {
    if s == [] then []
    else
      var k := Kept(s[..|s| - 1]);
      var p := s[|s| - 1];
      if Clashes(k, p) then k else k + [p]
  }

  ghost predicate OneToOne(s: seq<Pair>) {
    forall i, j :: 0 <= i < j < |s| ==> !Shares(s[i], s[j])
  }

  /** The filter: two sets of indices stand for what was kept. */
  method Filter(s: seq<Pair>) returns (kept: seq<Pair>)
    ensures kept == Kept(s)
  {
    kept := [];
    var queries: set<nat>, trains: set<nat> := {}, {};
    for n := 0 to |s|
      invariant kept == Kept(s[..n])
      invariant queries == set p | p in kept :: p.query
      invariant trains == set p | p in kept :: p.train
    {
      var p := s[n];
      assert s[..n + 1][..n] == s[..n];
      assert Clashes(kept, p) <==> p.query in queries || p.train in trains;
      if !(p.query in queries || p.train in trains) {
        queries := queries + {p.query};
        trains := trains + {p.train};
        kept := kept + [p];
      }
    }
    assert s[..|s|] == s;
  }

  lemma {:induction false} KeptIsOneToOne(s: seq<Pair>)
    ensures OneToOne(Kept(s))
    ensures multiset(Kept(s)) <= multiset(s)
  {
    if s != [] {
      var init := s[..|s| - 1];
      KeptIsOneToOne(init);
      assert s == init + [s[|s| - 1]];
      hide OneToOne;
      if !Clashes(Kept(init), s[|s| - 1]) {
        OneMore(Kept(init), s[|s| - 1]);
      }
    }
  }

  lemma OneMore(kept: seq<Pair>, p: Pair)
    requires OneToOne(kept) && !Clashes(kept, p)
    ensures OneToOne(kept + [p])
  {
  }

  lemma {:induction false} KeptKeepsOrder(s: seq<Pair>)
    requires Sorted(s)
    ensures Sorted(Kept(s))
    ensures forall k :: k in Kept(s) ==> k in s && k.distance <= s[|s| - 1].distance
  {
    if s != [] {
      KeptKeepsOrder(s[..|s| - 1]);
    }
  }

  /** Something in `kept` blocks `p`, or is `p`: it shares an index and is no further. */
  ghost predicate Settled(kept: set<Pair>, p: Pair) {
    exists k :: k in kept && Shares(k, p) && k.distance <= p.distance
  }

  lemma {:induction false} KeptSettlesAll(s: seq<Pair>, p: Pair)
    requires Sorted(s) && p in s
    ensures Settled(Members(Kept(s)), p)
  {
    hide Sorted;
    var init, last := s[..|s| - 1], s[|s| - 1];
    SortedPrefix(s);
    KeptKeepsOrder(init);
    if p in init {
      KeptSettlesAll(init, p);
      var k :| k in Members(Kept(init)) && Shares(k, p) && k.distance <= p.distance;
      assert k in Members(Kept(s));
    } else {
      assert s == init + [last] && p == last;
      if Clashes(Kept(init), p) {
        var i :| 0 <= i < |Kept(init)| && Shares(Kept(init)[i], p);
        assert Kept(init)[i] in Members(Kept(s));
      } else {
        assert p in Members(Kept(s));
      }
    }
  }

  lemma SortedPrefix(s: seq<Pair>)
    requires Sorted(s) && s != []
    ensures Sorted(s[..|s| - 1])
    ensures forall k :: k in s[..|s| - 1] ==> k.distance <= s[|s| - 1].distance
  {
  }

  // ---------------------------------------------------------------- stable sets

  ghost function Members(s: seq<Pair>): set<Pair> { set p | p in s }

  ghost predicate Disjoint(m: set<Pair>) {
    forall a, b :: a in m && b in m && Shares(a, b) ==> a == b
  }

  /** A one-to-one choice from the proposals that no proposal can improve upon: each proposal that
      is left out shares a point with a chosen one that is no further apart. */
  ghost predicate Stable(m: set<Pair>, proposals: set<Pair>) {
    m <= proposals && Disjoint(m) && forall p :: p in proposals ==> Settled(m, p)
  }

  lemma OneToOneIsDisjoint(s: seq<Pair>)
    requires OneToOne(s)
    ensures Disjoint(Members(s)) && |Members(s)| == |s|
  {
    forall a, b | a in Members(s) && b in Members(s) && Shares(a, b) ensures a == b {
      var i :| 0 <= i < |s| && s[i] == a;
      var j :| 0 <= j < |s| && s[j] == b;
    }
    DistinctCount(s);
  }

  lemma {:induction false} DistinctCount(s: seq<Pair>)
    requires OneToOne(s)
    ensures |Members(s)| == |s|
  {
    if s != [] {
      var init, last := s[..|s| - 1], s[|s| - 1];
      DistinctCount(init);
      assert Members(s) == Members(init) + {last};
      assert last !in Members(init);
    }
  }

  /** The matches are a stable choice from the proposals, in whatever order a sort leaves ties. */
  lemma KeptIsStable(s: seq<Pair>, c: seq<Pair>)
    requires Arranged(s, c)
    ensures Stable(Members(Kept(s)), Members(c))
    ensures OneToOne(Kept(s)) && Sorted(Kept(s)) && |Members(Kept(s))| == |Kept(s)|
  {
    hide Settled, Disjoint, OneToOne, Kept, Sorted;
    SameMembers(s, c);
    KeptIsOneToOne(s);
    KeptKeepsOrder(s);
    OneToOneIsDisjoint(Kept(s));
    forall p | p in Members(c) ensures Settled(Members(Kept(s)), p) {
      KeptSettlesAll(s, p);
    }
  }

  ghost predicate DistinctDistances(m: set<Pair>) {
    forall a, b :: a in m && b in m && a.distance == b.distance ==> a == b
  }

  /** No two proposals that share a point are equally long. */
  ghost predicate NoTies(m: set<Pair>) {
    forall a, b :: a in m && b in m && Shares(a, b) && a.distance == b.distance ==> a == b
  }

  /** Where no two proposals compete with the same distance there is only one stable choice. */
  lemma StableIsUnique(m: set<Pair>, n: set<Pair>, proposals: set<Pair>)
    requires Stable(m, proposals) && Stable(n, proposals) && NoTies(proposals)
    ensures m == n
  {
    hide Stable, NoTies;
    var difference := (m - n) + (n - m);
    if difference != {} {
      var shortest := Shortest(difference);
      if shortest in m {
        SmallerDifference(m, n, proposals, shortest);
      } else {
        SmallerDifference(n, m, proposals, shortest);
      }
    } else {
      assert m - n == {} && n - m == {};
    }
  }

  lemma SmallerDifference(m: set<Pair>, n: set<Pair>, proposals: set<Pair>, p: Pair)
    requires Stable(m, proposals) && Stable(n, proposals) && NoTies(proposals)
    requires p in m && p !in n
    ensures exists k :: k in n - m && k.distance < p.distance
  {
    hide Settled;
    assert p in proposals && Settled(n, p);
    var k := Blocker(n, p);
    assert Shares(p, k) && k in proposals;
    assert k.distance != p.distance;
    assert k !in m;
  }

  lemma Blocker(m: set<Pair>, p: Pair) returns (k: Pair)
    requires Settled(m, p)
    ensures k in m && Shares(k, p) && k.distance <= p.distance
  {
    k :| k in m && Shares(k, p) && k.distance <= p.distance;
  }

  lemma {:induction false} Shortest(m: set<Pair>) returns (p: Pair)
    requires m != {}
    ensures p in m && forall q :: q in m ==> p.distance <= q.distance
    decreases |m|
  {
    p :| p in m;
    if m != {p} {
      assert m - {p} != {};
      var q := Shortest(m - {p});
      if q.distance < p.distance {
        p := q;
      }
    }
  }

  /** So without ties the sort cannot change the pairs that are kept, nor, where all distances are
      different, their order. */
  lemma SortDoesNotMatter(s: seq<Pair>, s': seq<Pair>, c: seq<Pair>)
    requires Arranged(s, c) && Arranged(s', c)
    ensures NoTies(Members(c)) ==> Members(Kept(s)) == Members(Kept(s'))
    ensures DistinctDistances(Members(c)) ==> Kept(s) == Kept(s')
  {
    hide Kept, NoTies, DistinctDistances, Settled;
    KeptIsStable(s, c);
    KeptIsStable(s', c);
    if NoTies(Members(c)) {
      StableIsUnique(Members(Kept(s)), Members(Kept(s')), Members(c));
    }
    if DistinctDistances(Members(c)) {
      DistinctAreNotTied(Members(c));
      StableIsUnique(Members(Kept(s)), Members(Kept(s')), Members(c));
      OneToOneIsStrict(Kept(s), Members(c));
      OneToOneIsStrict(Kept(s'), Members(c));
      SortedSetOnce(Kept(s), Kept(s'));
    }
  }

  lemma DistinctAreNotTied(m: set<Pair>)
    requires DistinctDistances(m)
    ensures NoTies(m)
  {
  }

  /** Sorted by distance, with ties broken in favour of `m`. */
  ghost predicate SortedFor(m: set<Pair>, s: seq<Pair>) {
    forall i, j :: 0 <= i < j < |s| ==> Before(m, s[i], s[j])
  }

  ghost predicate Before(m: set<Pair>, a: Pair, b: Pair) {
    a.distance < b.distance || (a.distance == b.distance && (b in m ==> a in m))
  }

  lemma {:induction false} SplitFor(m: set<Pair>, s: seq<Pair>, p: Pair) returns (k: nat)
    requires SortedFor(m, s)
    ensures k <= |s|
    ensures forall i :: 0 <= i < k ==> Before(m, s[i], p)
    ensures forall i :: k <= i < |s| ==> Before(m, p, s[i])
  {
    k := |s|;
    while k > 0 && !Before(m, s[k - 1], p)
      invariant 0 <= k <= |s|
      invariant forall i :: k <= i < |s| ==> Before(m, p, s[i])
    {
      k := k - 1;
    }
    if k > 0 {
      assert forall i :: 0 <= i < k - 1 ==> Before(m, s[i], s[k - 1]);
    }
  }

  lemma InsertFor(m: set<Pair>, l: seq<Pair>, h: seq<Pair>, p: Pair)
    requires SortedFor(m, l + h)
    requires forall i :: 0 <= i < |l| ==> Before(m, l[i], p)
    requires forall i :: 0 <= i < |h| ==> Before(m, p, h[i])
    ensures SortedFor(m, l + [p] + h)
  {
    hide Before;
    var s, r := l + h, l + [p] + h;
    assert forall i :: 0 <= i < |l| ==> s[i] == l[i] && r[i] == l[i];
    assert forall i :: |l| < i < |r| ==> r[i] == h[i - |l| - 1] && r[i] == s[i - 1];
  }

  lemma {:induction false} ArrangeFor(m: set<Pair>, c: seq<Pair>) returns (s: seq<Pair>)
    ensures SortedFor(m, s) && multiset(s) == multiset(c)
  {
    if c == [] {
      s := [];
    } else {
      hide SortedFor, Before;
      var p, init := c[|c| - 1], c[..|c| - 1];
      var r := ArrangeFor(m, init);
      var k := SplitFor(m, r, p);
      assert r == r[..k] + r[k..] && c == init + [p];
      InsertFor(m, r[..k], r[k..], p);
      s := r[..k] + [p] + r[k..];
    }
  }

  lemma SortedForIsSorted(m: set<Pair>, s: seq<Pair>)
    requires SortedFor(m, s)
    ensures Sorted(s)
  {
  }

  /** In such an order a stable choice is exactly what the filter keeps. */
  lemma {:induction false} KeptFor(m: set<Pair>, s: seq<Pair>, n: nat)
    requires Stable(m, Members(s)) && SortedFor(m, s) && n <= |s|
    ensures forall p :: p in Kept(s[..n]) <==> p in m && p in s[..n]
  {
    hide SortedFor, Stable, Clashes;
    if n == 0 {
      assert s[..n] == [];
    } else {
      var init, p := s[..n - 1], s[n - 1];
      assert s[..n][..n - 1] == init && s[..n] == init + [p];
      KeptFor(m, s, n - 1);
      ClashFor(m, s, n - 1, Kept(init));
    }
  }

  lemma ClashFor(m: set<Pair>, s: seq<Pair>, n: nat, kept: seq<Pair>)
    requires Stable(m, Members(s)) && SortedFor(m, s) && n < |s|
    requires forall p :: p in kept <==> p in m && p in s[..n]
    ensures Clashes(kept, s[n]) <==> s[n] !in m || s[n] in s[..n]
  {
    hide Settled;
    var p := s[n];
    if p in m {
      if p in s[..n] {
        var i :| 0 <= i < |kept| && kept[i] == p;
        assert Shares(kept[i], p);
      } else {
        assert forall i :: 0 <= i < |kept| ==> kept[i] in m && kept[i] != p;
      }
    } else {
      assert p in Members(s) && Settled(m, p);
      var k := Blocker(m, p);
      var j :| 0 <= j < |s| && s[j] == k;
      assert s[..n][j] == k;
      var i :| 0 <= i < |kept| && kept[i] == k;
      assert Shares(kept[i], p);
    }
  }

  /** Every stable choice is what the filter keeps of some order that a sort may produce. */
  lemma StableIsKept(m: set<Pair>, c: seq<Pair>) returns (s: seq<Pair>)
    requires Stable(m, Members(c))
    ensures Arranged(s, c) && Members(Kept(s)) == m
  {
    hide Stable, Kept, SortedFor, Sorted;
    s := ArrangeFor(m, c);
    SortedForIsSorted(m, s);
    SameMembers(s, c);
    assert Members(s) == Members(c);
    KeptFor(m, s, |s|);
    assert s[..|s|] == s;
    StableAreMembers(m, s);
  }

  lemma StableAreMembers(m: set<Pair>, s: seq<Pair>)
    requires Stable(m, Members(s))
    ensures forall p :: p in m ==> p in s
  {
  }

  ghost predicate SortDecides(c: seq<Pair>) {
    exists s, s' :: Arranged(s, c) && Arranged(s', c) && Members(Kept(s)) != Members(Kept(s'))
  }

  ghost predicate TwoStable(proposals: set<Pair>) {
    exists m, n :: Stable(m, proposals) && Stable(n, proposals) && m != n
  }

  /** The sort decides which pairs are kept exactly when the proposals have more than one stable
      choice. */
  lemma SortMattersExactly(c: seq<Pair>)
    ensures SortDecides(c) <==> TwoStable(Members(c))
  {
    hide Stable, Kept, Arranged;
    if s, s' :| Arranged(s, c) && Arranged(s', c) && Members(Kept(s)) != Members(Kept(s')) {
      KeptIsStable(s, c);
      KeptIsStable(s', c);
    }
    if m, n :| Stable(m, Members(c)) && Stable(n, Members(c)) && m != n {
      var s := StableIsKept(m, c);
      var s' := StableIsKept(n, c);
    }
  }

  /** Greedy keeps at least half of the largest one-to-one choice. */
  lemma AtLeastHalf(m: set<Pair>, n: set<Pair>, proposals: set<Pair>)
    requires Stable(m, proposals) && n <= proposals && Disjoint(n)
    ensures |n| <= 2 * |m|
  {
    hide Settled, Disjoint;
    var queries, trains := set k | k in m :: k.query, set k | k in m :: k.train;
    var byQuery := set p | p in n && p.query in queries;
    var byTrain := n - byQuery;
    forall p | p in byTrain ensures p.train in trains {
      assert Settled(m, p);
      var k := Blocker(m, p);
      assert k.query in queries && k.train in trains;
    }
    hide Stable;
    PartDisjoint(n, byQuery);
    PartDisjoint(n, byTrain);
    ByQuery(byQuery, queries);
    ByTrain(byTrain, trains);
    FewerQueries(m);
    FewerTrains(m);
    assert n == byQuery + byTrain;
  }

  lemma PartDisjoint(n: set<Pair>, part: set<Pair>)
    requires Disjoint(n) && part <= n
    ensures Disjoint(part)
  {
  }

  lemma {:induction false} FewerQueries(m: set<Pair>)
    ensures |set k | k in m :: k.query| <= |m|
    decreases |m|
  {
    if p :| p in m {
      FewerQueries(m - {p});
      assert (set k | k in m :: k.query) == (set k | k in m - {p} :: k.query) + {p.query};
    }
  }

  lemma {:induction false} FewerTrains(m: set<Pair>)
    ensures |set k | k in m :: k.train| <= |m|
    decreases |m|
  {
    if p :| p in m {
      FewerTrains(m - {p});
      assert (set k | k in m :: k.train) == (set k | k in m - {p} :: k.train) + {p.train};
    }
  }

  lemma {:induction false} ByQuery(n: set<Pair>, queries: set<nat>)
    requires Disjoint(n) && forall p :: p in n ==> p.query in queries
    ensures |n| <= |queries|
    decreases |n|
  {
    if p :| p in n {
      assert forall q :: q in n - {p} ==> Shares(p, q) == false;
      ByQuery(n - {p}, queries - {p.query});
    }
  }

  lemma {:induction false} ByTrain(n: set<Pair>, trains: set<nat>)
    requires Disjoint(n) && forall p :: p in n ==> p.train in trains
    ensures |n| <= |trains|
    decreases |n|
  {
    if p :| p in n {
      assert forall q :: q in n - {p} ==> Shares(p, q) == false;
      ByTrain(n - {p}, trains - {p.train});
    }
  }

  /** A sorted list without equal distances is determined by its members. */
  lemma {:induction false} SortedSetOnce(s: seq<Pair>, t: seq<Pair>)
    requires Strict(s) && Strict(t) && Members(s) == Members(t) && |s| == |t|
    ensures s == t
  {
    hide Strict, Members;
    if s != [] {
      var a := s[|s| - 1];
      SameLast(s, t);
      var s', t' := s[..|s| - 1], t[..|t| - 1];
      DropLast(s);
      DropLast(t);
      SortedSetOnce(s', t');
      assert s == s' + [a] && t == t' + [a];
    }
  }

  lemma SameLast(s: seq<Pair>, t: seq<Pair>)
    requires Strict(s) && Strict(t) && Members(s) == Members(t) && s != [] && t != []
    ensures s[|s| - 1] == t[|t| - 1]
  {
    var a, b := s[|s| - 1], t[|t| - 1];
    assert a in Members(t) && b in Members(s);
    assert forall i :: 0 <= i < |s| ==> s[i] == a || s[i].distance < a.distance;
    assert forall i :: 0 <= i < |t| ==> t[i] == b || t[i].distance < b.distance;
  }

  ghost predicate Strict(s: seq<Pair>) {
    forall i, j :: 0 <= i < j < |s| ==> s[i].distance < s[j].distance
  }

  lemma OneToOneIsStrict(s: seq<Pair>, c: set<Pair>)
    requires OneToOne(s) && Sorted(s) && Members(s) <= c && DistinctDistances(c)
    ensures Strict(s)
  {
    forall i, j | 0 <= i < j < |s| ensures s[i].distance < s[j].distance {
      assert s[i] in Members(s) && s[j] in Members(s) && !Shares(s[i], s[j]);
    }
  }

  lemma DropLast(s: seq<Pair>)
    requires Strict(s) && s != []
    ensures Members(s[..|s| - 1]) == Members(s) - {s[|s| - 1]}
    ensures Strict(s[..|s| - 1])
  {
    var last := s[|s| - 1];
    assert s == s[..|s| - 1] + [last];
    assert last !in s[..|s| - 1];
  }

  lemma KeptNext(s: seq<Pair>, p: Pair)
    ensures Kept(s + [p]) == if Clashes(Kept(s), p) then Kept(s) else Kept(s) + [p]
  {
    assert (s + [p])[..|s|] == s;
  }

  lemma KeptOfThree(a: Pair, b: Pair, c: Pair)
    ensures Shares(a, b) && Shares(a, c) ==> Kept([a, b, c]) == [a]
    ensures !Shares(a, b) && Shares(a, c) ==> Kept([a, b, c]) == [a, b]
  {
    hide Kept;
    KeptNothing();
    KeptNext([], a);
    KeptNext([a], b);
    KeptNext([a, b], c);
    assert [] + [a] == [a] && [a] + [b] == [a, b] && [a, b] + [c] == [a, b, c];
    assert [a][0] == a && [a, b][0] == a;
  }

  lemma KeptNothing()
    ensures Kept([]) == []
  {
  }

  // Distances between two points of each image: two pairs of equal length compete with a third.
  const TIED_THERE: seq<seq<real>> := [[1.0, 2.0], [1.0, 2.0]]
  const TIED_BACK: seq<seq<real>> := [[100.0, 100.0], [1.0, 2.0]]

  lemma TiedProposals()
    ensures IsProposals(Members([Pair(0, 1, 1.0), Pair(1, 0, 1.0), Pair(0, 0, 1.0)]), TIED_THERE, TIED_BACK, 30.0, 1.0)
  {
    var m := Members([Pair(0, 1, 1.0), Pair(1, 0, 1.0), Pair(0, 0, 1.0)]);
    forall p ensures p in m <==> Forward(TIED_THERE, 30.0, p) || Backward(TIED_BACK, 30.0, p) {
      assert Forward(TIED_THERE, 30.0, p) <==> p == Pair(0, 0, 1.0) || p == Pair(1, 0, 1.0) by { TiedForward(p); }
      assert Backward(TIED_BACK, 30.0, p) <==> p == Pair(0, 1, 1.0) by { TiedBackward(p); }
      assert p in m <==> p == Pair(0, 1, 1.0) || p == Pair(1, 0, 1.0) || p == Pair(0, 0, 1.0);
    }
  }

  lemma TiedForward(p: Pair)
    ensures Forward(TIED_THERE, 30.0, p) <==> p == Pair(0, 0, 1.0) || p == Pair(1, 0, 1.0)
  {
    assert IsNearest([1.0, 2.0], 0) && !IsNearest([1.0, 2.0], 1);
  }

  lemma TiedBackward(p: Pair)
    ensures Backward(TIED_BACK, 30.0, p) <==> p == Pair(0, 1, 1.0)
  {
    assert IsNearest([1.0, 2.0], 0) && !IsNearest([1.0, 2.0], 1);
  }

  /** With ties the sort decides how many pairs there are. */
  lemma TiesCanMatter()
    ensures exists s, t ::
              && IsProposals(Members(t), TIED_THERE, TIED_BACK, 30.0, 1.0)
              && Arranged(s, t) && Arranged(t, t) && |Kept(s)| == 1 && |Kept(t)| == 2
  {
    hide Kept, IsProposals;
    var a, b, c := Pair(0, 0, 1.0), Pair(0, 1, 1.0), Pair(1, 0, 1.0);
    KeptOfThree(a, b, c);
    KeptOfThree(b, c, a);
    TiedProposals();
    var s, t := [a, b, c], [b, c, a];
    assert multiset(s) == multiset(t);
    assert Arranged(s, t) && Arranged(t, t) && |Kept(s)| == 1 && |Kept(t)| == 2;
  }

  // ---------------------------------------------------------------- the whole

  ghost predicate IsProposals(c: set<Pair>, there: seq<seq<real>>, back: seq<seq<real>>, maxDistance: real, scale: real) {
    forall p :: p in c <==> Forward(there, maxDistance * scale, p) || Backward(back, maxDistance, p)
  }

  /** matchNearest: a stable choice among the nearest pairs, shortest first. */
  method MatchNearest(there: seq<seq<real>>, back: seq<seq<real>>, maxDistance: real, scale: real) returns (matches: seq<Pair>)
    ensures OneToOne(matches) && Sorted(matches)
    ensures forall i, j :: 0 <= i < j < |matches| ==>
              matches[i].query != matches[j].query && matches[i].train != matches[j].train
    ensures forall p :: Forward(there, maxDistance * scale, p) || Backward(back, maxDistance, p) ==>
              exists k :: 0 <= k < |matches| && matches[k].distance <= p.distance
                          && (matches[k].query == p.query || matches[k].train == p.train)
    ensures exists c :: IsProposals(c, there, back, maxDistance, scale) && Stable(Members(matches), c)
  {
    var c := Proposals(there, back, maxDistance, scale);
    var s := SortByDistance(c);
    matches := Filter(s);
    KeptIsStable(s, c);
    assert IsProposals(Members(c), there, back, maxDistance, scale);
    forall p | p in c
      ensures exists k :: 0 <= k < |matches| && matches[k].distance <= p.distance
                          && (matches[k].query == p.query || matches[k].train == p.train)
    {
      BlockedBy(matches, c, p);
    }
  }

  lemma BlockedBy(matches: seq<Pair>, c: seq<Pair>, p: Pair)
    requires Stable(Members(matches), Members(c)) && p in c
    ensures exists k :: 0 <= k < |matches| && matches[k].distance <= p.distance
                        && (matches[k].query == p.query || matches[k].train == p.train)
  {
    hide Settled;
    assert p in Members(c);
    var b := Blocker(Members(matches), p);
    assert b in matches;
  }
}
