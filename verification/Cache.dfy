/**
 The cache file: cachestore and cacheload (src/dlm/rdx.cpp:917-931, 1016-1031) over packVar and
 unpackVar (src/dlm/idlutil.cpp:1030-1197), with the compression in between taken as identity.
 */
module Cache {
  import opened Bytes
  import opened StructDefs
  import opened StructCode
  import opened Variables

  type Key = seq<Byte>

  /** The cache in the order its map is walked. */
  type Entries = seq<(Key, Var)>

  predicate Storable(entries: Entries) {
    forall i :: 0 <= i < |entries| ==> NoZero(entries[i].0) && Plain(entries[i].1)
  }

  predicate NoneHuge(entries: Entries) {
    forall i :: 0 <= i < |entries| ==> !Huge(entries[i].1)
  }

  function EntryBytes(e: (Key, Var)): seq<Byte>
    requires Plain(e.1)
  {
    Terminated(e.0) + VarBytes(e.1)
  }

  function CacheBytes(entries: Entries): seq<Byte>
    requires Storable(entries)
  {
    if entries == [] then [] else EntryBytes(entries[0]) + CacheBytes(entries[1..])
  }

  /** The size pass over the cache, in size_t. */
  function CacheSize(entries: Entries): int
    requires Storable(entries)
  {
    if entries == [] then 0 else Size64(|entries[0].0| + 1 + VarSize(entries[0].1) + CacheSize(entries[1..]))
  }

  function TotalExcess(entries: Entries): int
    requires Storable(entries)
  {
    if entries == [] then 0 else Excess(entries[0].1) + TotalExcess(entries[1..])
  }

  lemma WrappedSum(a: int, b: int, c: int, d: int)
    requires Size64(a) == Size64(c) && Size64(b) == Size64(d)
    ensures Size64(a + b) == Size64(c + d)
  {
  }

  lemma {:induction false} CacheSizeIs(entries: Entries)
    requires Storable(entries)
    ensures CacheSize(entries) == Size64(|CacheBytes(entries)| - TotalExcess(entries))
    ensures 0 <= TotalExcess(entries) <= 2 * |CacheBytes(entries)|
    ensures TotalExcess(entries) == 0 <==> NoneHuge(entries)
  {
    hide Plain, NoZero, VarSize, VarBytes, Huge, Excess;
    if entries != [] {
      var (key, v) := entries[0];
      var rest := entries[1..];
      ExcessIs(v);
      CacheSizeIs(rest);
      TerminatedLength(key);
      WrappedSum(CacheSize(rest), VarSize(v), |CacheBytes(rest)| - TotalExcess(rest), |VarBytes(v)| - Excess(v));
      var sum := |CacheBytes(rest)| - TotalExcess(rest) + (|VarBytes(v)| - Excess(v));
      WrappedSum(CacheSize(rest) + VarSize(v), |key| + 1, sum, |key| + 1);
      assert NoneHuge(entries) <==> !Huge(v) && NoneHuge(rest) by { NoneHugeSplit(entries); }
    }
  }

  lemma NoneHugeSplit(entries: Entries)
    requires entries != []
    ensures NoneHuge(entries) <==> !Huge(entries[0].1) && NoneHuge(entries[1..])
  {
    hide Huge;
    assert entries == [entries[0]] + entries[1..];
  }

  const ADDRESS_LIMIT: int := 0x8000_0000_0000_0000

  /** The computed size is the number of packed bytes exactly when no entry is an array of two
      gigabytes or more; otherwise it is too small, or more than there can be memory for. */
  lemma CacheSizeExactly(entries: Entries)
    requires Storable(entries) && |CacheBytes(entries)| < ADDRESS_LIMIT
    ensures CacheSize(entries) == |CacheBytes(entries)| <==> NoneHuge(entries)
    ensures !NoneHuge(entries) ==> 0 <= CacheSize(entries) < |CacheBytes(entries)| || CacheSize(entries) >= ADDRESS_LIMIT
  {
    hide CacheBytes, TotalExcess, CacheSize, NoneHuge, Storable;
    CacheSizeIs(entries);
  }

  // ---------------------------------------------------------------- loading

  datatype Loaded = Loaded(cache: map<Key, Value>) | Broken

  /** The load loop: entries are read until the bytes are used up, and put into the map. */
  function LoadAll(bs: seq<Byte>, cache: map<Key, Value>): Loaded
    decreases |bs|
  {
    if bs == [] then Loaded(cache)
    else
      var key := ReadString(bs);
      if key.OutOfBounds? then Broken
      else
        var v := DecodeVar(bs[key.count..]);
        if v.OutOfBounds? then Broken
        else LoadAll(bs[key.count..][v.count..], cache[key.value := v.value])
  }

  /** A map after the entries were put into it one by one. */
  function Merged(cache: map<Key, Value>, entries: Entries): map<Key, Value>
    decreases entries
  {
    if entries == [] then cache else Merged(cache[entries[0].0 := ValueOf(entries[0].1)], entries[1..])
  }

  /** Loading a stored cache ends exactly at the end of the bytes, with every entry in the map. */
  lemma {:induction false} LoadStored(entries: Entries, cache: map<Key, Value>)
    requires Storable(entries)
    ensures LoadAll(CacheBytes(entries), cache) == Loaded(Merged(cache, entries))
  {
    hide Plain, NoZero, VarBytes, DecodeVar, ReadString;
    if entries != [] {
      var (key, v) := entries[0];
      var rest := CacheBytes(entries[1..]);
      TerminatedLength(key);
      Regroup(Terminated(key), VarBytes(v), rest);
      ReadStringBack(key, VarBytes(v) + rest);
      DecodeEncodeVar(v, rest);
      assert (VarBytes(v) + rest)[|VarBytes(v)|..] == rest;
      LoadStored(entries[1..], cache[key := ValueOf(v)]);
    }
  }

  /** Stored entries are read first, whatever comes after them; a name that does not end makes the
      file unreadable. */
  lemma {:induction false} LoadStoredThen(entries: Entries, more: seq<Byte>, cache: map<Key, Value>)
    requires Storable(entries)
    ensures LoadAll(CacheBytes(entries) + more, cache) == LoadAll(more, Merged(cache, entries))
    ensures more != [] && NoZero(more) ==> LoadAll(CacheBytes(entries) + more, cache) == Broken
    decreases |entries|
  {
    hide Plain, VarBytes, DecodeVar, ReadString;
    if entries == [] {
      assert CacheBytes(entries) + more == more;
      NameWithoutEnd(more, cache);
    } else {
      hide NoZero;
      var (key, v) := entries[0];
      var rest := CacheBytes(entries[1..]) + more;
      TerminatedLength(key);
      assert CacheBytes(entries) + more == Terminated(key) + (VarBytes(v) + rest);
      ReadStringBack(key, VarBytes(v) + rest);
      DecodeEncodeVar(v, rest);
      assert (VarBytes(v) + rest)[|VarBytes(v)|..] == rest;
      LoadStoredThen(entries[1..], more, cache[key := ValueOf(v)]);
    }
  }

  lemma NameWithoutEnd(bs: seq<Byte>, cache: map<Key, Value>)
    ensures bs != [] && NoZero(bs) ==> LoadAll(bs, cache) == Broken
  {
    if NoZero(bs) { NeverEnds(bs); }
  }

  lemma {:induction false} NeverEnds(bs: seq<Byte>)
    requires NoZero(bs)
    ensures Length(bs) == |bs|
  {
    if bs != [] { NeverEnds(bs[1..]); }
  }

  predicate DistinctKeys(entries: Entries) {
    forall i, j :: 0 <= i < j < |entries| ==> entries[i].0 != entries[j].0
  }

  lemma {:induction false} MergedGives(cache: map<Key, Value>, entries: Entries, key: Key)
    requires DistinctKeys(entries)
    ensures key in Merged(cache, entries)
       <==> key in cache || exists i :: 0 <= i < |entries| && entries[i].0 == key
    ensures (forall i :: 0 <= i < |entries| && entries[i].0 == key ==>
               key in Merged(cache, entries) && Merged(cache, entries)[key] == ValueOf(entries[i].1))
    ensures (forall i :: 0 <= i < |entries| ==> entries[i].0 != key) && key in cache ==>
              Merged(cache, entries)[key] == cache[key]
    decreases entries
  {
    if entries != [] {
      var rest := entries[1..];
      assert forall i :: 0 <= i < |rest| ==> rest[i] == entries[i + 1];
      MergedGives(cache[entries[0].0 := ValueOf(entries[0].1)], rest, key);
      assert forall i :: 1 <= i < |entries| ==> entries[i] == rest[i - 1];
    }
  }

  /** Storing a cache and loading it into an empty one gives the same map, up to the flags: the
      same keys, and for each the same type, dimensions and contents. */
  lemma StoreThenLoad(entries: Entries, key: Key)
    requires Storable(entries) && DistinctKeys(entries)
    ensures LoadAll(CacheBytes(entries), map[]).Loaded?
    ensures var m := LoadAll(CacheBytes(entries), map[]).cache;
            && (key in m <==> exists i :: 0 <= i < |entries| && entries[i].0 == key)
            && (forall i :: 0 <= i < |entries| && entries[i].0 == key ==> m[key] == ValueOf(entries[i].1))
  {
    hide Storable, LoadAll, Merged, CacheBytes;
    LoadStored(entries, map[]);
    MergedGives(map[], entries, key);
  }

  // ---------------------------------------------------------------- the code

  lemma {:induction false} CacheAppend(entries: Entries, e: (Key, Var))
    requires Storable(entries) && NoZero(e.0) && Plain(e.1)
    ensures Storable(entries + [e])
    ensures CacheBytes(entries + [e]) == CacheBytes(entries) + EntryBytes(e)
  {
    hide Plain, NoZero, EntryBytes;
    if entries == [] {
      assert CacheBytes([e]) == EntryBytes(e) + CacheBytes([e][1..]);
    } else {
      assert (entries + [e])[1..] == entries[1..] + [e];
      CacheAppend(entries[1..], e);
      Regroup(EntryBytes(entries[0]), CacheBytes(entries[1..]), EntryBytes(e));
    }
  }

  lemma {:induction false} CachePrefixFits(entries: Entries, i: nat)
    requires i < |entries| && Storable(entries)
    ensures Storable(entries[..i]) && Storable(entries[..i + 1])
    ensures CacheBytes(entries[..i + 1]) == CacheBytes(entries[..i]) + EntryBytes(entries[i])
    ensures |CacheBytes(entries[..i + 1])| <= |CacheBytes(entries)|
    decreases |entries| - i
  {
    hide Plain, NoZero, EntryBytes;
    assert entries[..i + 1] == entries[..i] + [entries[i]];
    CacheAppend(entries[..i], entries[i]);
    if i + 1 == |entries| {
      assert entries[..i + 1] == entries;
    } else {
      CachePrefixFits(entries, i + 1);
    }
  }

  /** What storing comes to: the packed bytes, a request for more memory than there is, or a write
      beyond the buffer. */
  datatype Stored = Stored(bytes: seq<Byte>) | NoMemory | Overrun

  /** Packs the cache into a buffer whose size the first pass has computed. That works exactly when
      no entry is an array of two gigabytes or more. */
  method CacheStore(entries: Entries) returns (r: Stored)
    requires Storable(entries) && |CacheBytes(entries)| < ADDRESS_LIMIT
    ensures r.Stored? <==> NoneHuge(entries)
    ensures r.Stored? ==> r.bytes == CacheBytes(entries)
  {
    hide Plain, NoZero, VarBytes, Huge, Written, CacheBytes, CacheSize, NoneHuge;
    var dataSize := SizePass(entries);
    CacheSizeExactly(entries);
    if dataSize >= ADDRESS_LIMIT { return NoMemory; }
    var data := new Byte[dataSize](_ => 0);
    ghost var pre := data[..];
    var packCount := 0;
    EmptyCache();
    WrittenNothing(pre, 0);
    for i := 0 to |entries|
      invariant Storable(entries[..i])
      invariant packCount == |CacheBytes(entries[..i])| <= dataSize
      invariant data[..] == Written(pre, 0, CacheBytes(entries[..i]))
    {
      var (key, v) := entries[i];
      CachePrefixFits(entries, i);
      TerminatedLength(key);
      if packCount + |EntryBytes(entries[i])| > dataSize { return Overrun; }
      ghost var done := CacheBytes(entries[..i]);
      var c := Put(data, packCount, Terminated(key));
      WrittenTwice(pre, 0, done, Terminated(key));
      packCount := packCount + c;
      c := PackVar(data, packCount, v);
      WrittenTwice(pre, 0, done + Terminated(key), VarBytes(v));
      Regroup(done, Terminated(key), VarBytes(v));
      packCount := packCount + c;
    }
    assert entries[..|entries|] == entries;
    AllWritten(pre, CacheBytes(entries));
    r := Stored(data[..]);
  }

  lemma EmptyCache()
    ensures CacheBytes([]) == []
  {
  }

  lemma AllWritten(pre: seq<Byte>, bs: seq<Byte>)
    requires |bs| == |pre|
    ensures Written(pre, 0, bs) == bs
  {
  }

  /** The size pass of cachestore. */
  method SizePass(entries: Entries) returns (dataSize: int)
    requires Storable(entries)
    ensures dataSize == CacheSize(entries) >= 0
  {
    hide Plain, NoZero, VarSize;
    dataSize := 0;
    assert entries[0..] == entries;
    SizeInRange(entries);
    for i := 0 to |entries|
      invariant Storable(entries[i..])
      invariant 0 <= dataSize < 0x1_0000_0000_0000_0000
      invariant Size64(dataSize + CacheSize(entries[i..])) == CacheSize(entries)
    {
      assert entries[i..][1..] == entries[i + 1..];
      var thisSize := |entries[i].0| + 1 + VarSize(entries[i].1);
      NextSize(dataSize, thisSize, CacheSize(entries[i + 1..]));
      dataSize := Size64(dataSize + thisSize);
    }
  }

  lemma SizeInRange(entries: Entries)
    requires Storable(entries)
    ensures Size64(CacheSize(entries)) == CacheSize(entries)
  {
    hide VarSize;
  }

  lemma NextSize(dataSize: int, thisSize: int, rest: int)
    ensures Size64(Size64(dataSize + thisSize) + rest) == Size64(dataSize + Size64(thisSize + rest))
  {
  }

  function VarHead(v: Var): seq<Byte>
    requires Plain(v)
  {
    [v.kind, v.flags] + if HasArr(v.flags) then [|v.dims|] + DimBytes(v.dims) else []
  }

  lemma HeadAndContents(v: Var)
    requires Plain(v)
    ensures VarBytes(v) == VarHead(v) + ContentBytes(v.contents)
  {
    hide DimBytes, StringBytes, Product, TypeSize, Fits, NoZero;
    var dims: seq<Byte> := if HasArr(v.flags) then [|v.dims|] + DimBytes(v.dims) else [];
    Regroup([v.kind, v.flags], dims, ContentBytes(v.contents));
  }

  /** Type and flags, and for an array the number of dimensions and the dimensions. */
  method PackVarHead(buf: array<Byte>, ptr: nat, v: Var) returns (count: nat)
    requires Plain(v) && ptr + |VarHead(v)| <= buf.Length
    modifies buf
    ensures buf[..] == Written(old(buf[..]), ptr, VarHead(v))
    ensures count == |VarHead(v)|
  {
    hide Written, DimBytes, HasArr, NoZero, Fits, Product, TypeSize;
    ghost var pre := buf[..];
    count := Put(buf, ptr, [v.kind, v.flags]);
    if HasArr(v.flags) {
      var c := Put(buf, ptr + count, [|v.dims|]);
      WrittenTwice(pre, ptr, [v.kind, v.flags], [|v.dims|]);
      count := count + c;
      c := PackDims(buf, ptr + count, v.dims);
      WrittenTwice(pre, ptr, [v.kind, v.flags] + [|v.dims|], DimBytes(v.dims));
      Regroup([v.kind, v.flags], [|v.dims|], DimBytes(v.dims));
      count := count + c;
    } else {
      assert [v.kind, v.flags] + [] == [v.kind, v.flags];
    }
  }

  /** packVar: type, flags, dimensions and contents, at `ptr` and nowhere else. */
  method PackVar(buf: array<Byte>, ptr: nat, v: Var) returns (count: nat)
    requires Plain(v) && ptr + |VarBytes(v)| <= buf.Length
    modifies buf
    ensures buf[..] == Written(old(buf[..]), ptr, VarBytes(v))
    ensures count == |VarBytes(v)|
  {
    hide Written, VarHead, VarBytes, Plain, StringBytes;
    ghost var pre := buf[..];
    HeadAndContents(v);
    count := PackVarHead(buf, ptr, v);
    var c;
    if v.contents.Strings? {
      c := PackStrings(buf, ptr + count, v.contents.strings);
    } else {
      c := Put(buf, ptr + count, v.contents.bytes);
    }
    WrittenTwice(pre, ptr, VarHead(v), ContentBytes(v.contents));
    count := count + c;
  }

  method PackDims(buf: array<Byte>, ptr: nat, dims: seq<int>) returns (count: nat)
    requires ptr + |DimBytes(dims)| <= buf.Length
    modifies buf
    ensures buf[..] == Written(old(buf[..]), ptr, DimBytes(dims))
    ensures count == |DimBytes(dims)|
  {
    hide Written, Little;
    ghost var pre := buf[..];
    count := 0;
    WrittenNothing(pre, ptr);
    for i := 0 to |dims|
      invariant count == MEMINT_SIZE * i
      invariant buf[..] == Written(pre, ptr, DimBytes(dims[..i]))
    {
      DimsAppend(dims[..i], dims[i]);
      assert dims[..i + 1] == dims[..i] + [dims[i]];
      var c := Put(buf, ptr + count, Little(dims[i], MEMINT_SIZE));
      WrittenTwice(pre, ptr, DimBytes(dims[..i]), Little(dims[i], MEMINT_SIZE));
      count := count + c;
    }
    assert dims[..|dims|] == dims;
  }

  lemma {:induction false} DimsAppend(dims: seq<int>, d: int)
    ensures DimBytes(dims + [d]) == DimBytes(dims) + Little(d, MEMINT_SIZE)
  {
    hide Little;
    if dims == [] {
      assert DimBytes([d]) == Little(d, MEMINT_SIZE) + DimBytes([d][1..]);
    } else {
      assert (dims + [d])[1..] == dims[1..] + [d];
      DimsAppend(dims[1..], d);
      Regroup(Little(dims[0], MEMINT_SIZE), DimBytes(dims[1..]), Little(d, MEMINT_SIZE));
    }
  }

  method PackStrings(buf: array<Byte>, ptr: nat, ss: seq<seq<Byte>>) returns (count: nat)
    requires ptr + |StringBytes(ss)| <= buf.Length
    modifies buf
    ensures buf[..] == Written(old(buf[..]), ptr, StringBytes(ss))
    ensures count == |StringBytes(ss)|
  {
    hide Written;
    ghost var pre := buf[..];
    count := 0;
    WrittenNothing(pre, ptr);
    for i := 0 to |ss|
      invariant count == |StringBytes(ss[..i])| <= |StringBytes(ss)|
      invariant buf[..] == Written(pre, ptr, StringBytes(ss[..i]))
    {
      StringsPrefix(ss, i);
      var c := Put(buf, ptr + count, Terminated(ss[i]));
      WrittenTwice(pre, ptr, StringBytes(ss[..i]), Terminated(ss[i]));
      count := count + c;
    }
    assert ss[..|ss|] == ss;
  }

  lemma {:induction false} StringsAppend(ss: seq<seq<Byte>>, s: seq<Byte>)
    ensures StringBytes(ss + [s]) == StringBytes(ss) + Terminated(s)
  {
    hide Terminated;
    if ss == [] {
      assert StringBytes([s]) == Terminated(s) + StringBytes([s][1..]);
    } else {
      assert (ss + [s])[1..] == ss[1..] + [s];
      StringsAppend(ss[1..], s);
      Regroup(Terminated(ss[0]), StringBytes(ss[1..]), Terminated(s));
    }
  }

  lemma {:induction false} StringsPrefix(ss: seq<seq<Byte>>, i: nat)
    requires i < |ss|
    ensures StringBytes(ss[..i + 1]) == StringBytes(ss[..i]) + Terminated(ss[i])
    ensures |StringBytes(ss[..i + 1])| <= |StringBytes(ss)|
    decreases |ss| - i
  {
    assert ss[..i + 1] == ss[..i] + [ss[i]];
    StringsAppend(ss[..i], ss[i]);
    if i + 1 == |ss| {
      assert ss[..i + 1] == ss;
    } else {
      StringsPrefix(ss, i + 1);
    }
  }

  /** The load loop of cacheload. */
  method CacheLoad(bs: seq<Byte>, cache0: map<Key, Value>) returns (r: Loaded)
    ensures r == LoadAll(bs, cache0)
  {
    hide ReadString, DecodeVar;
    var cache := cache0;
    var unpackCount := 0;
    assert bs[0..] == bs;
    while unpackCount < |bs|
      invariant 0 <= unpackCount <= |bs|
      invariant LoadAll(bs, cache0) == LoadAll(bs[unpackCount..], cache)
      decreases |bs| - unpackCount
    {
      var key := ReadString(bs[unpackCount..]);
      if key.OutOfBounds? { return Broken; }
      assert bs[unpackCount..][key.count..] == bs[unpackCount + key.count..];
      var v := DecodeVar(bs[unpackCount + key.count..]);
      if v.OutOfBounds? { return Broken; }
      assert bs[unpackCount + key.count..][v.count..] == bs[unpackCount + key.count + v.count..];
      unpackCount := unpackCount + key.count + v.count;
      cache := cache[key.value := v.value];
    }
    r := Loaded(cache);
  }
}
