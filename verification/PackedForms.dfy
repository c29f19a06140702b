/**
 Packed definitions, variables and cache entries byte by byte (src/dlm/idlutil.cpp:867-910, 1040-1109,
 src/dlm/rdx.cpp:928-931): which byte holds what.
 */
module PackedForms {
  import opened Wrappers
  import opened Bytes
  import opened StructDefs
  import opened Variables
  import opened Cache

  function Power256(k: nat): (p: nat)
    ensures p > 0
  {
    if k == 0 then 1 else 256 * Power256(k - 1)
  }

  lemma QuotientIs(n: int, d: int, q: int, r: int)
    requires 0 <= r < d && n == d * q + r
    ensures n / d == q
  {
    var e := n / d - q;
    assert d * (n / d) + n % d == n;
    assert d * e == r - n % d;
    AtLeastOnce(d, e);
  }

  lemma AtLeastOnce(d: int, e: int)
    requires d > 0
    ensures e >= 1 ==> d * e >= d
    ensures e <= -1 ==> d * e + d <= 0
  {
    if e >= 1 { assert d * (e - 1) >= 0; }
    if e <= -1 { assert d * (-1 - e) >= 0; }
  }

  lemma QuotientTwice(n: int, k: nat)
    ensures n / 256 / Power256(k) == n / Power256(k + 1)
  {
    var p, a := Power256(k), n / 256;
    var q, r := a / p, a % p;
    assert n == 256 * a + n % 256 && a == p * q + r;
    assert n == (256 * p) * q + (256 * r + n % 256);
    QuotientIs(n, 256 * p, q, 256 * r + n % 256);
  }

  /** Numbers are stored with their lowest byte first, negative ones as their two's complement. */
  lemma {:induction false} LowestByteFirst(n: int, width: nat, k: nat)
    requires k < width
    ensures Little(n, width)[k] == (n / Power256(k)) % 256
    decreases width
  {
    if k > 0 {
      LowestByteFirst(n / 256, width - 1, k - 1);
      QuotientTwice(n, k - 1);
      assert Little(n, width)[k] == Little(n / 256, width - 1)[k - 1];
    }
  }

  // ---------------------------------------------------------------- definitions

  lemma {:induction false} DimAt(dims: seq<int>, d: nat, k: nat)
    requires d < |dims| && k < 8
    ensures DimBytes(dims)[8 * d + k] == (dims[d] / Power256(k)) % 256
  {
    hide Power256, Little;
    if d == 0 {
      LowestByteFirst(dims[0], 8, k);
    } else {
      DimAt(dims[1..], d - 1, k);
      var first, rest := Little(dims[0], 8), DimBytes(dims[1..]);
      assert DimBytes(dims) == first + rest;
      assert (first + rest)[8 + (8 * (d - 1) + k)] == rest[8 * (d - 1) + k];
    }
  }

  /** The text of a name, or nothing. */
  function NameOf(id: Option<seq<Byte>>): seq<Byte> { if id.Some? then id.value else [] }

  lemma NameIs(id: Option<seq<Byte>>)
    ensures NameBytes(id) == NameOf(id) + [0]
  {
  }

  /** The fixed part of a tag: its name and a zero, eight bytes of offset, type and flags. */
  lemma TagBytes(tag: Tag, k: nat)
    requires 0 <= tag.kind < 256 && 0 <= tag.flags < 256 && |tag.dims| < 256 && k < 8
    ensures var b, n := TagHead(tag), |NameOf(tag.id)| + 1;
            && |b| >= n + 11 && b[..n] == NameOf(tag.id) + [0]
            && b[n + k] == (tag.offset / Power256(k)) % 256
            && b[n + 8] == tag.kind && b[n + 9] == tag.flags
            && b[n + 10..] == if HasArr(tag.flags) then [|tag.dims|] + DimBytes(tag.dims) else [0]
  {
    hide Little, NameBytes, HasArr, DimBytes, Power256, NameOf;
    NameIs(tag.id);
    LowestByteFirst(tag.offset, 8, k);
    var name, offset := NameBytes(tag.id), Little(tag.offset, 8);
    var dims: seq<Byte> := if HasArr(tag.flags) then [|tag.dims|] + DimBytes(tag.dims) else [0];
    FourParts(name, offset, [tag.kind, tag.flags], dims, k);
    assert TagHead(tag) == name + (offset + ([tag.kind, tag.flags] + dims));
  }

  lemma FourParts(a: seq<Byte>, b: seq<Byte>, c: seq<Byte>, d: seq<Byte>, k: nat)
    requires |b| == 8 && |c| == 2 && k < 8
    ensures var s, n := a + (b + (c + d)), |a|;
            && |s| == n + 10 + |d| && s[..n] == a && s[n + k] == b[k] && s[n + 8] == c[0] && s[n + 9] == c[1] && s[n + 10..] == d
  {
  }

  /** After them the number of dimensions, and eight bytes for each. */
  lemma DimensionBytes(dims: seq<int>, d: nat, k: nat)
    requires |dims| < 256 && d < |dims| && k < 8
    ensures var b := [|dims|] + DimBytes(dims);
            |b| == 1 + 8 * |dims| && b[0] == |dims| && b[1 + 8 * d + k] == (dims[d] / Power256(k)) % 256
  {
    hide DimBytes, Power256;
    DimAt(dims, d, k);
  }

  /** A definition: its name and a zero, four bytes for the number of tags, and the tags in order, each
      with the definition of its structure behind it. */
  lemma DefinitionBytes(def: StructDef, k: nat)
    requires Small(def) && k < 4
    ensures var b, n := Encode(def), |NameOf(def.id)| + 1;
            && |b| == n + 4 + |EncodeTags(def.tags)|
            && b[..n] == NameOf(def.id) + [0]
            && b[n + k] == (|def.tags| / Power256(k)) % 256
            && b[n + 4..] == EncodeTags(def.tags)
  {
    hide Little, NameBytes, EncodeTags, Power256;
    NameIs(def.id);
    LowestByteFirst(|def.tags|, 4, k);
    var name, count := NameBytes(def.id), Little(|def.tags|, 4);
    assert Encode(def) == name + (count + EncodeTags(def.tags));
  }

  lemma TagsInOrder(tag: Tag, rest: seq<Tag>)
    requires SmallTag(tag) && forall i :: 0 <= i < |rest| ==> SmallTag(rest[i])
    ensures EncodeTags([]) == []
    ensures EncodeTags([tag] + rest) == EncodeTag(tag) + EncodeTags(rest)
    ensures tag.kind != TYP_STRING && HasStruct(tag.flags) && tag.sub.Some? ==>
              EncodeTag(tag) == TagHead(tag) + Encode(tag.sub.value)
    ensures tag.kind == TYP_STRING || !HasStruct(tag.flags) ==> EncodeTag(tag) == TagHead(tag)
  {
    assert ([tag] + rest)[1..] == rest;
  }

  lemma {:induction false} OutlineAt(tags: seq<Tag>, i: nat)
    requires i < |tags|
    ensures |OutlineTags(tags)| == |tags| && OutlineTags(tags)[i] == OutlineTag(tags[i])
    decreases |tags|
  {
    hide OutlineTag;
    if |tags| > 1 {
      OutlineAt(tags[1..], if i > 0 then i - 1 else 0);
    } else {
      assert tags[1..] == [];
    }
  }

  /** What is rebuilt: the definition's name, and for each tag its name, flags, dimensions, and either
      its type or the definition of its structure. */
  lemma RebuiltTags(tags: seq<Tag>, i: nat)
    requires i < |tags|
    ensures |OutlineTags(tags)| == |tags|
    ensures var t, b := tags[i], OutlineTags(tags)[i];
            && b.name == NameOf(t.id) && b.flags == t.flags && b.dims == t.dims
            && (t.sub.None? ==> b.kind == Code(t.kind))
            && (t.sub.Some? ==> b.kind == Sub(Built(t.sub.value.id, OutlineTags(t.sub.value.tags))))
  {
    OutlineAt(tags, i);
  }

  lemma RebuiltDefinition(def: StructDef, v: Var)
    ensures Outline(def) == Built(def.id, OutlineTags(def.tags))
    ensures var x := ValueOf(v); x.kind == v.kind && x.dims == v.dims && x.contents == v.contents
  {
  }

  // ---------------------------------------------------------------- variables and cache entries

  /** A variable: type, flags, for an array the number of its dimensions and eight bytes for each, and
      its data, or its strings with a zero after each. */
  lemma VariableBytes(v: Var, d: nat, k: nat)
    requires Plain(v) && k < 8 && (HasArr(v.flags) ==> d < |v.dims|)
    ensures var b := VarBytes(v);
            var n := if HasArr(v.flags) then 3 + 8 * |v.dims| else 2;
            && |b| >= n && b[0] == v.kind && b[1] == v.flags
            && (HasArr(v.flags) ==> b[2] == |v.dims| && b[3 + 8 * d + k] == (v.dims[d] / Power256(k)) % 256)
            && (v.contents.Data? ==> b[n..] == v.contents.bytes)
            && (v.contents.Strings? ==> b[n..] == StringBytes(v.contents.strings))
  {
    hide DimBytes, StringBytes, HasArr, HasStruct, Fits, Product, TypeSize, NoZero, Power256;
    if HasArr(v.flags) {
      DimAt(v.dims, d, k);
      assert VarBytes(v) == [v.kind, v.flags] + ([|v.dims|] + DimBytes(v.dims) + ContentBytes(v.contents));
      assert VarBytes(v)[3 + 8 * d + k] == DimBytes(v.dims)[8 * d + k];
    } else {
      assert VarBytes(v) == [v.kind, v.flags] + ContentBytes(v.contents);
    }
  }

  lemma StringsInOrder(s: seq<Byte>, rest: seq<seq<Byte>>)
    ensures StringBytes([]) == [] && StringBytes([s] + rest) == s + [0] + StringBytes(rest)
  {
    assert ([s] + rest)[1..] == rest;
  }

  /** The cache: for each entry its name, a zero, and the variable. */
  lemma EntriesInOrder(e: (Key, Var), rest: Entries)
    requires Storable([e] + rest)
    ensures Storable(rest) && Plain(e.1)
    ensures CacheBytes([]) == [] && CacheBytes([e] + rest) == e.0 + [0] + VarBytes(e.1) + CacheBytes(rest)
  {
    hide VarBytes, Plain, NoZero;
    assert ([e] + rest)[0] == e && ([e] + rest)[1..] == rest;
  }

  // ---------------------------------------------------------------- odd input

  /** An array that says it has no dimensions is taken for nothing more than its three bytes. */
  lemma ArrayWithoutDimensions(kind: Byte, flags: Byte, rest: seq<Byte>)
    requires HasArr(flags) && kind != TYP_STRUCT && kind != TYP_OBJREF && !HasStruct(flags)
    ensures var r := DecodeVar([kind, flags, 0] + rest); r.Got? && r.count == 3
  {
    hide HasArr, HasStruct, DecodeContents;
    var bs := [kind, flags, 0] + rest;
    assert bs[1..][0] == flags && bs[1..][1..] == bs[2..] && bs[2..][0] == 0;
  }
}
