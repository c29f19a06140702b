/**
 getStructDefSize, packStructDef and unpackStructDef as recursive procedures over a buffer
 (src/dlm/idlutil.cpp:831-965), proved against StructDefs.
 */
module StructCode {
  import opened Wrappers
  import opened Bytes
  import opened StructDefs

  // ---------------------------------------------------------------- writing into a buffer

  /** The buffer after `bs` was written at `at`. */
  ghost function Written(pre: seq<Byte>, at: nat, bs: seq<Byte>): seq<Byte>
    requires at + |bs| <= |pre|
  {
    pre[..at] + bs + pre[at + |bs|..]
  }

  lemma WrittenTwice(pre: seq<Byte>, at: nat, a: seq<Byte>, b: seq<Byte>)
    requires at + |a| + |b| <= |pre|
    ensures |Written(pre, at, a)| == |pre|
    ensures Written(Written(pre, at, a), at + |a|, b) == Written(pre, at, a + b)
  {
  }

  lemma WrittenNothing(pre: seq<Byte>, at: nat)
    requires at <= |pre|
    ensures Written(pre, at, []) == pre
  {
  }

  /** Copies bytes into the buffer. */
  method Put(buf: array<Byte>, at: nat, bs: seq<Byte>) returns (count: nat)
    requires at + |bs| <= buf.Length
    modifies buf
    ensures buf[..] == Written(old(buf[..]), at, bs)
    ensures count == |bs|
  {
    for i := 0 to |bs|
      invariant buf[..at] == old(buf[..at])
      invariant buf[at..at + i] == bs[..i]
      invariant buf[at + i..] == old(buf[at + i..])
    {
      buf[at + i] := bs[i];
    }
    count := |bs|;
    assert buf[..] == buf[..at] + buf[at..at + |bs|] + buf[at + |bs|..];
  }

  // ---------------------------------------------------------------- prefixes of the tags

  lemma {:induction false} EncodeTagsAppend(tags: seq<Tag>, tag: Tag)
    requires forall i :: 0 <= i < |tags| ==> SmallTag(tags[i])
    requires SmallTag(tag)
    ensures EncodeTags(tags + [tag]) == EncodeTags(tags) + EncodeTag(tag)
  {
    hide EncodeTag, SmallTag;
    if tags == [] {
      assert EncodeTags([tag]) == EncodeTag(tag) + EncodeTags([tag][1..]);
    } else {
      assert (tags + [tag])[1..] == tags[1..] + [tag];
      EncodeTagsAppend(tags[1..], tag);
      Regroup(EncodeTag(tags[0]), EncodeTags(tags[1..]), EncodeTag(tag));
    }
  }

  lemma {:induction false} OffsetsAppend(tags: seq<Tag>, tag: Tag)
    ensures TagsStringOffsets(tags + [tag]) == TagsStringOffsets(tags) + TagStringOffsets(tag)
  {
    hide TagStringOffsets;
    if tags == [] {
      assert TagsStringOffsets([tag]) == TagStringOffsets(tag) + TagsStringOffsets([tag][1..]);
    } else {
      assert (tags + [tag])[1..] == tags[1..] + [tag];
      OffsetsAppend(tags[1..], tag);
    }
  }

  lemma {:induction false} EncodePrefix(tags: seq<Tag>, i: nat)
    requires i < |tags| && forall k :: 0 <= k < |tags| ==> SmallTag(tags[k])
    ensures EncodeTags(tags[..i + 1]) == EncodeTags(tags[..i]) + EncodeTag(tags[i])
    ensures TagsStringOffsets(tags[..i + 1]) == TagsStringOffsets(tags[..i]) + TagStringOffsets(tags[i])
  {
    assert tags[..i + 1] == tags[..i] + [tags[i]];
    EncodeTagsAppend(tags[..i], tags[i]);
    OffsetsAppend(tags[..i], tags[i]);
  }

  /** A prefix is never longer than the whole. */
  lemma {:induction false} EncodePrefixFits(tags: seq<Tag>, i: nat)
    requires i <= |tags| && forall k :: 0 <= k < |tags| ==> SmallTag(tags[k])
    ensures |EncodeTags(tags[..i])| <= |EncodeTags(tags)|
    decreases |tags| - i
  {
    if i == |tags| {
      assert tags[..i] == tags;
    } else {
      EncodePrefix(tags, i);
      EncodePrefixFits(tags, i + 1);
    }
  }

  // ---------------------------------------------------------------- size

  /** The size pass: how many bytes the packed definition takes, and where its strings are. */
  method StructDefSize(def: StructDef) returns (sz: nat, strOffsets: seq<(int, int)>)
    requires Small(def)
    ensures sz == |Encode(def)|
    ensures strOffsets == StringOffsets(def)
    decreases def, 1
  {
    hide EncodeTag, SmallTag, Little, TagStringOffsets;
    sz := 1;
    if def.id.Some? { sz := sz + |def.id.value|; }
    sz := sz + INT_SIZE;
    strOffsets := [];
    for i := 0 to |def.tags|
      invariant sz == |NameBytes(def.id)| + INT_SIZE + |EncodeTags(def.tags[..i])|
      invariant strOffsets == TagsStringOffsets(def.tags[..i])
    {
      var tagSize, offs := TagSize(def.tags[i]);
      EncodePrefix(def.tags, i);
      sz := sz + tagSize;
      strOffsets := strOffsets + offs;
    }
    assert def.tags[..|def.tags|] == def.tags;
  }

  method TagSize(tag: Tag) returns (sz: nat, strOffsets: seq<(int, int)>)
    requires SmallTag(tag)
    ensures sz == |EncodeTag(tag)|
    ensures strOffsets == TagStringOffsets(tag)
    decreases tag, 0
  {
    hide Encode, StringOffsets, Product;
    sz := 1;
    if tag.id.Some? { sz := sz + |tag.id.value|; }
    sz := sz + MEMINT_SIZE;
    sz := sz + 2;
    var count := 1;
    sz := sz + 1;
    if HasArr(tag.flags) {
      sz := sz + |tag.dims| * MEMINT_SIZE;
      count := Product(tag.dims);
    }
    strOffsets := [];
    if tag.kind == TYP_STRING {
      strOffsets := [(tag.offset, count)];
    } else if HasStruct(tag.flags) && tag.sub.Some? {
      var tagSize, mine := StructDefSize(tag.sub.value);
      sz := sz + tagSize;
      strOffsets := Shift(mine, tag.offset);
    }
  }

  // ---------------------------------------------------------------- packing

  /** The packing pass: writes the definition at `ptr` and nothing else, and collects the same
      string offsets as the size pass. */
  method PackStructDef(buf: array<Byte>, ptr: nat, def: StructDef) returns (count: nat, strOffsets: seq<(int, int)>)
    requires Small(def) && ptr + |Encode(def)| <= buf.Length
    modifies buf
    ensures buf[..] == Written(old(buf[..]), ptr, Encode(def))
    ensures count == |Encode(def)|
    ensures strOffsets == StringOffsets(def)
    decreases def, 1
  {
    hide EncodeTag, SmallTag, Little, TagStringOffsets, Written, NameBytes;
    ghost var pre := buf[..];
    ghost var head := NameBytes(def.id) + Little(|def.tags|, INT_SIZE);
    count := Put(buf, ptr, NameBytes(def.id));
    var c := Put(buf, ptr + count, Little(|def.tags|, INT_SIZE));
    count := count + c;
    WrittenTwice(pre, ptr, NameBytes(def.id), Little(|def.tags|, INT_SIZE));
    strOffsets := [];
    assert head + [] == head;
    for i := 0 to |def.tags|
      invariant ptr + |head + EncodeTags(def.tags[..i])| <= |pre|
      invariant buf[..] == Written(pre, ptr, head + EncodeTags(def.tags[..i]))
      invariant count == |head + EncodeTags(def.tags[..i])|
      invariant strOffsets == TagsStringOffsets(def.tags[..i])
    {
      ghost var done := head + EncodeTags(def.tags[..i]);
      EncodePrefix(def.tags, i);
      EncodePrefixFits(def.tags, i + 1);
      Regroup(head, EncodeTags(def.tags[..i]), EncodeTag(def.tags[i]));
      var tagCount, offs := PackTag(buf, ptr + count, def.tags[i]);
      WrittenTwice(pre, ptr, done, EncodeTag(def.tags[i]));
      count := count + tagCount;
      strOffsets := strOffsets + offs;
    }
    assert def.tags[..|def.tags|] == def.tags;
    Regroup(NameBytes(def.id), Little(|def.tags|, INT_SIZE), EncodeTags(def.tags));
  }

  method PackTag(buf: array<Byte>, ptr: nat, tag: Tag) returns (count: nat, strOffsets: seq<(int, int)>)
    requires SmallTag(tag) && ptr + |EncodeTag(tag)| <= buf.Length
    modifies buf
    ensures buf[..] == Written(old(buf[..]), ptr, EncodeTag(tag))
    ensures count == |EncodeTag(tag)|
    ensures strOffsets == TagStringOffsets(tag)
    decreases tag, 0
  {
    hide Encode, StringOffsets, Product, Written, TagHead, HasArr;
    ghost var pre := buf[..];
    count := PackHead(buf, ptr, tag);
    strOffsets := [];
    if tag.kind == TYP_STRING {
      strOffsets := [(tag.offset, if HasArr(tag.flags) then Product(tag.dims) else 1)];
    } else if HasStruct(tag.flags) && tag.sub.Some? {
      var c, mine := PackStructDef(buf, ptr + count, tag.sub.value);
      WrittenTwice(pre, ptr, TagHead(tag), Encode(tag.sub.value));
      count := count + c;
      strOffsets := Shift(mine, tag.offset);
    }
    assert TagHead(tag) + [] == TagHead(tag);
  }

  /** Name, offset, type, flags and dimensions of a tag. */
  method PackHead(buf: array<Byte>, ptr: nat, tag: Tag) returns (count: nat)
    requires 0 <= tag.kind < 256 && 0 <= tag.flags < 256 && |tag.dims| < 256
    requires ptr + |TagHead(tag)| <= buf.Length
    modifies buf
    ensures buf[..] == Written(old(buf[..]), ptr, TagHead(tag))
    ensures count == |TagHead(tag)|
  {
    hide Written, NameBytes, Little, HasArr, DimBytes;
    ghost var pre := buf[..];
    count := Put(buf, ptr, NameBytes(tag.id));
    ghost var done := NameBytes(tag.id);
    var c := Put(buf, ptr + count, Little(tag.offset, MEMINT_SIZE));
    WrittenTwice(pre, ptr, done, Little(tag.offset, MEMINT_SIZE));
    done := done + Little(tag.offset, MEMINT_SIZE);
    count := count + c;
    c := Put(buf, ptr + count, [tag.kind, tag.flags]);
    WrittenTwice(pre, ptr, done, [tag.kind, tag.flags]);
    done := done + [tag.kind, tag.flags];
    count := count + c;
    var dims: seq<Byte> := if HasArr(tag.flags) then [|tag.dims|] + DimBytes(tag.dims) else [0];
    c := Put(buf, ptr + count, dims);
    WrittenTwice(pre, ptr, done, dims);
    count := count + c;
    HeadGrouped(NameBytes(tag.id), Little(tag.offset, MEMINT_SIZE), [tag.kind, tag.flags], dims);
  }

  lemma HeadGrouped(a: seq<Byte>, b: seq<Byte>, c: seq<Byte>, d: seq<Byte>)
    ensures a + b + c + d == a + (b + (c + d))
  {
  }

  /** Packing anywhere in a buffer and unpacking there rebuilds the definition, from exactly the
      bytes that were written. */
  lemma PackedThenUnpacked(pre: seq<Byte>, ptr: nat, def: StructDef)
    requires Consistent(def) && Narrow(def) && Small(def) && ptr + |Encode(def)| <= |pre|
    ensures |Written(pre, ptr, Encode(def))| == |pre|
    ensures Decode(Written(pre, ptr, Encode(def))[ptr..]) == Got(Outline(def), |Encode(def)|)
  {
    hide Encode, Decode, Consistent, Narrow, Small;
    var bs := Encode(def);
    DecodeEncode(def, pre[ptr + |bs|..]);
    assert Written(pre, ptr, bs)[ptr..] == bs + pre[ptr + |bs|..];
  }

  // ---------------------------------------------------------------- unpacking

  /** Rebuilds the definition at `ptr`, wherever the packed bytes can be read. */
  method UnpackStructDef(bs: seq<Byte>, ptr: nat) returns (count: nat, def: Built)
    requires ptr <= |bs| && Decode(bs[ptr..]).Got?
    ensures Decode(bs[ptr..]) == Got(def, count)
    decreases |bs| - ptr, 2, 0
  {
    hide ReadString, ReadSigned, DecodeTags;
    var name := ReadString(bs[ptr..]);
    count := name.count;
    assert bs[ptr..][count..] == bs[ptr + count..];
    var n := ReadSigned(bs[ptr + count..], INT_SIZE);
    count := count + n.count;
    assert bs[ptr + name.count..][n.count..] == bs[ptr + count..];
    var c, tags := UnpackTags(bs, ptr + count, if n.value < 0 then 0 else n.value);
    count := count + c;
    def := Built(if name.value == [] then None else Some(name.value), tags);
  }

  method UnpackTags(bs: seq<Byte>, ptr: nat, total: nat) returns (count: nat, tags: seq<BuiltTag>)
    requires ptr <= |bs| && DecodeTags(bs[ptr..], total).Got?
    ensures DecodeTags(bs[ptr..], total) == Got(tags, count)
    decreases |bs| - ptr, 1, 0
  {
    hide DecodeTag, DecodeTags;
    ghost var all := DecodeTags(bs[ptr..], total);
    count, tags := 0, [];
    assert [] + all.value == all.value;
    assert bs[ptr + 0..] == bs[ptr..];
    for i := 0 to total
      invariant count <= |bs| - ptr
      invariant DecodeTags(bs[ptr + count..], total - i).Got?
      invariant all == Resume(tags, count, DecodeTags(bs[ptr + count..], total - i))
    {
      ghost var rest := bs[ptr + count..];
      TagStep(rest, total - i);
      var c, tag := UnpackTag(bs, ptr + count);
      assert rest[c..] == bs[ptr + count + c..];
      ResumeStep(tags, count, tag, c, DecodeTags(bs[ptr + count + c..], total - i - 1));
      tags := tags + [tag];
      count := count + c;
    }
    NoTagsLeft(bs[ptr + count..]);
    assert tags + [] == tags;
  }

  lemma NoTagsLeft(bs: seq<Byte>)
    ensures DecodeTags(bs, 0) == Got([], 0)
  {
  }

  /** The outcome of reading a list, of which `tags` were read in `count` bytes. */
  ghost function Resume(tags: seq<BuiltTag>, count: nat, rest: Read<seq<BuiltTag>>): Read<seq<BuiltTag>> {
    if rest.Got? then Got(tags + rest.value, count + rest.count) else OutOfBounds
  }

  lemma ResumeStep(tags: seq<BuiltTag>, count: nat, tag: BuiltTag, c: nat, rest: Read<seq<BuiltTag>>)
    ensures Resume(tags, count, Resume([tag], c, rest)) == Resume(tags + [tag], count + c, rest)
  {
    if rest.Got? {
      assert tags + ([tag] + rest.value) == tags + [tag] + rest.value;
    }
  }

  lemma TagStep(bs: seq<Byte>, n: nat)
    requires n > 0 && DecodeTags(bs, n).Got?
    ensures DecodeTag(bs).Got?
    ensures var t := DecodeTag(bs);
            DecodeTags(bs, n) == Resume([t.value], t.count, DecodeTags(bs[t.count..], n - 1))
  {
  }

  method UnpackTag(bs: seq<Byte>, ptr: nat) returns (count: nat, tag: BuiltTag)
    requires ptr <= |bs| && DecodeTag(bs[ptr..]).Got?
    ensures DecodeTag(bs[ptr..]) == Got(tag, count)
    decreases |bs| - ptr, 0, 0
  {
    hide DecodeHead, Decode;
    var head := DecodeHead(bs[ptr..]);
    count := head.count;
    assert bs[ptr..][count..] == bs[ptr + count..];
    var (name, kind, flags, dims) := head.value;
    if kind == TYP_STRUCT {
      var c, sub := UnpackStructDef(bs, ptr + count);
      count := count + c;
      tag := BuiltTag(name, flags, dims, Sub(sub));
    } else {
      tag := BuiltTag(name, flags, dims, Code(kind));
    }
  }
}
