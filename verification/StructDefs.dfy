/**
 Structure definitions (src/dlm/idlutil.cpp:831-965): their packed size, their packed bytes, the
 list of string offsets both passes collect, and what unpacking rebuilds.
 */
module StructDefs {
  import opened Wrappers
  import opened Bytes

  const TYP_STRING: int := 7
  const TYP_STRUCT: int := 8

  // widths of int, IDL_MEMINT and UCHAR
  const INT_SIZE: nat := 4
  const MEMINT_SIZE: nat := 8

  /** IDL_V_ARR and IDL_V_STRUCT. */
  predicate HasArr(flags: int) { (flags / 4) % 2 == 1 }
  predicate HasStruct(flags: int) { (flags / 32) % 2 == 1 }

  /** A definition: its name, if it has one, and its tags. A tag has a name, an offset within the
      structure, a type and flags, the dimensions of an array, and the definition of a structure. */
  datatype StructDef = StructDef(id: Option<seq<Byte>>, tags: seq<Tag>)
  datatype Tag = Tag(id: Option<seq<Byte>>, offset: int, kind: int, flags: int, dims: seq<int>, sub: Option<StructDef>)

  function Product(dims: seq<int>): int {
    if dims == [] then 1 else dims[0] * Product(dims[1..])
  }

  /** How many elements a tag has. */
  function Elements(tag: Tag): int {
    if HasArr(tag.flags) then Product(tag.dims) else 1
  }

  // ---------------------------------------------------------------- packed form

  function NameBytes(id: Option<seq<Byte>>): seq<Byte> {
    if id.Some? then Terminated(id.value) else [0]
  }

  function DimBytes(dims: seq<int>): (bs: seq<Byte>)
    ensures |bs| == MEMINT_SIZE * |dims|
  {
    if dims == [] then [] else Little(dims[0], MEMINT_SIZE) + DimBytes(dims[1..])
  }

  /** The fixed part of a tag: name, offset, type, flags, dimensions. */
  function TagHead(tag: Tag): seq<Byte>
    requires 0 <= tag.kind < 256 && 0 <= tag.flags < 256 && |tag.dims| < 256
  {
    NameBytes(tag.id) + (Little(tag.offset, MEMINT_SIZE) + ([tag.kind, tag.flags] +
      (if HasArr(tag.flags) then [|tag.dims|] + DimBytes(tag.dims) else [0])))
  }

  /** Which tags carry a nested definition in the packed form. */
  predicate Nested(tag: Tag) {
    tag.kind != TYP_STRING && HasStruct(tag.flags) && tag.sub.Some?
  }

  /** The sizes that fit their fields, at every level. */
  predicate Small(def: StructDef) {
    |def.tags| < 0x8000_0000 && forall i :: 0 <= i < |def.tags| ==> SmallTag(def.tags[i])
  }

  predicate SmallTag(tag: Tag) {
    && 0 <= tag.kind < 256 && 0 <= tag.flags < 256 && |tag.dims| <= 8
    && (tag.sub.Some? ==> Small(tag.sub.value))
  }

  function Encode(def: StructDef): seq<Byte>
    requires Small(def)
    decreases def, 1
  {
    NameBytes(def.id) + (Little(|def.tags|, INT_SIZE) + EncodeTags(def.tags))
  }

  function EncodeTags(tags: seq<Tag>): seq<Byte>
    requires forall i :: 0 <= i < |tags| ==> SmallTag(tags[i])
    decreases tags, 0
  {
    if tags == [] then [] else EncodeTag(tags[0]) + EncodeTags(tags[1..])
  }

  function EncodeTag(tag: Tag): seq<Byte>
    requires SmallTag(tag)
    decreases tag, 0
  {
    TagHead(tag) + (if Nested(tag) then Encode(tag.sub.value) else [])
  }

  // ---------------------------------------------------------------- string offsets

  function Shift(offs: seq<(int, int)>, delta: int): (r: seq<(int, int)>)
    ensures |r| == |offs|
    ensures forall i :: 0 <= i < |offs| ==> r[i] == (offs[i].0 + delta, offs[i].1)
  {
    seq(|offs|, i requires 0 <= i < |offs| => (offs[i].0 + delta, offs[i].1))
  }

  /** Where the strings of a structure are: an offset from its start and a number of elements for
      every string tag, at any depth. */
  function StringOffsets(def: StructDef): seq<(int, int)>
    decreases def, 1
  {
    TagsStringOffsets(def.tags)
  }

  function TagsStringOffsets(tags: seq<Tag>): seq<(int, int)>
    decreases tags, 0
  {
    if tags == [] then [] else TagStringOffsets(tags[0]) + TagsStringOffsets(tags[1..])
  }

  function TagStringOffsets(tag: Tag): seq<(int, int)>
    decreases tag, 0
  {
    if tag.kind == TYP_STRING then [(tag.offset, Elements(tag))]
    else if Nested(tag) then Shift(StringOffsets(tag.sub.value), tag.offset)
    else []
  }

  /** A string tag, possibly inside nested structures, whose offsets add up to `offset`. */
  ghost predicate StringAt(def: StructDef, offset: int, elements: int)
    decreases def, 1
  {
    exists i :: 0 <= i < |def.tags| && TagStringAt(def.tags[i], offset, elements)
  }

  ghost predicate TagStringAt(tag: Tag, offset: int, elements: int)
    decreases tag, 0
  {
    if tag.kind == TYP_STRING then offset == tag.offset && elements == Elements(tag)
    else Nested(tag) && StringAt(tag.sub.value, offset - tag.offset, elements)
  }

  /** The collected list names exactly the strings of the structure. */
  lemma {:induction false} StringOffsetsExactly(def: StructDef, offset: int, elements: int)
    ensures (offset, elements) in StringOffsets(def) <==> StringAt(def, offset, elements)
    decreases def, 1
  {
    hide TagsStringOffsets, TagStringAt;
    TagsStringOffsetsExactly(def.tags, offset, elements);
  }

  lemma {:induction false} TagsStringOffsetsExactly(tags: seq<Tag>, offset: int, elements: int)
    ensures (offset, elements) in TagsStringOffsets(tags)
       <==> exists i :: 0 <= i < |tags| && TagStringAt(tags[i], offset, elements)
    decreases tags, 0
  {
    hide TagStringOffsets, TagStringAt;
    if tags != [] {
      TagStringOffsetsExactly(tags[0], offset, elements);
      TagsStringOffsetsExactly(tags[1..], offset, elements);
      if i :| 0 <= i < |tags| && TagStringAt(tags[i], offset, elements) {
        if i > 0 { assert tags[1..][i - 1] == tags[i]; }
      }
    }
  }

  lemma {:induction false} TagStringOffsetsExactly(tag: Tag, offset: int, elements: int)
    ensures (offset, elements) in TagStringOffsets(tag) <==> TagStringAt(tag, offset, elements)
    decreases tag, 0
  {
    if tag.kind != TYP_STRING && Nested(tag) {
      hide StringOffsets, StringAt;
      var inner := StringOffsets(tag.sub.value);
      StringOffsetsExactly(tag.sub.value, offset - tag.offset, elements);
      var shifted := Shift(inner, tag.offset);
      if (offset, elements) in shifted {
        var i :| 0 <= i < |shifted| && shifted[i] == (offset, elements);
        assert inner[i] == (offset - tag.offset, elements);
      }
      if (offset - tag.offset, elements) in inner {
        var i :| 0 <= i < |inner| && inner[i] == (offset - tag.offset, elements);
        assert shifted[i] == (offset, elements);
      }
    }
  }

  // ---------------------------------------------------------------- rebuilding

  /** What IDL_MakeStruct is called with: names, types or nested structures, and dimensions. */
  datatype Built = Built(name: Option<seq<Byte>>, tags: seq<BuiltTag>)
  datatype BuiltTag = BuiltTag(name: seq<Byte>, flags: int, dims: seq<int>, kind: BuiltKind)
  datatype BuiltKind = Code(code: int) | Sub(def: Built)

  /** The array that receives the dimensions has room for their number and seven of them. */
  const MAX_TAG_DIMS: int := 7

  function DecodeDims(bs: seq<Byte>, n: nat): (r: Read<seq<int>>)
    ensures r.Got? ==> r.count <= |bs|
    decreases n
  {
    if n == 0 then Got([], 0)
    else
      var (d, c1) :- ReadSigned(bs, MEMINT_SIZE);
      var (ds, c2) :- DecodeDims(bs[c1..], n - 1);
      Got([d] + ds, c1 + c2)
  }

  function DecodeHead(bs: seq<Byte>): (r: Read<(seq<Byte>, int, int, seq<int>)>)
    ensures r.Got? ==> 0 < r.count <= |bs|
  {
    var (name, c1) :- ReadString(bs);
    var b1 := bs[c1..];
    var (offset, c2) :- ReadSigned(b1, MEMINT_SIZE);
    var b2 := b1[c2..];
    var (kind, c3) :- ReadByte(b2);
    var b3 := b2[c3..];
    var (flags, c4) :- ReadByte(b3);
    var b4 := b3[c4..];
    var (nDims, c5) :- ReadByte(b4);
    if nDims > MAX_TAG_DIMS then OutOfBounds
    else
      var (dims, c6) :- DecodeDims(b4[c5..], nDims);
      Got((name, kind, flags, dims), c1 + c2 + c3 + c4 + c5 + c6)
  }

  function Decode(bs: seq<Byte>): (r: Read<Built>)
    ensures r.Got? ==> r.count <= |bs|
    decreases |bs|, 2, 0
  {
    var (name, c1) :- ReadString(bs);
    var b1 := bs[c1..];
    var (n, c2) :- ReadSigned(b1, INT_SIZE);
    var (tags, c3) :- DecodeTags(b1[c2..], if n < 0 then 0 else n);
    Got(Built(if name == [] then None else Some(name), tags), c1 + c2 + c3)
  }

  function DecodeTags(bs: seq<Byte>, n: nat): (r: Read<seq<BuiltTag>>)
    ensures r.Got? ==> r.count <= |bs|
    decreases |bs|, 1, n
  {
    if n == 0 then Got([], 0)
    else
      var (tag, c1) :- DecodeTag(bs);
      var (tags, c2) :- DecodeTags(bs[c1..], n - 1);
      Got([tag] + tags, c1 + c2)
  }

  function DecodeTag(bs: seq<Byte>): (r: Read<BuiltTag>)
    ensures r.Got? ==> r.count <= |bs|
    decreases |bs|, 0, 0
  {
    var (head, c1) :- DecodeHead(bs);
    if head.1 == TYP_STRUCT then
      var (sub, c2) :- Decode(bs[c1..]);
      Got(BuiltTag(head.0, head.2, head.3, Sub(sub)), c1 + c2)
    else
      Got(BuiltTag(head.0, head.2, head.3, Code(head.1)), c1)
  }

  // ---------------------------------------------------------------- consistent definitions

  /** What IDL guarantees of its definitions: names without zero bytes, numbers that fit their
      fields, dimensions exactly on arrays, and a nested definition exactly on structures. */
  predicate Consistent(def: StructDef) {
    && |def.tags| < 0x8000_0000
    && (def.id.Some? ==> NoZero(def.id.value) && def.id.value != [])
    && forall i :: 0 <= i < |def.tags| ==> ConsistentTag(def.tags[i])
  }

  predicate ConsistentTag(tag: Tag) {
    && ConsistentHead(tag)
    && (HasStruct(tag.flags) <==> tag.kind == TYP_STRUCT)
    && (tag.sub.Some? <==> tag.kind == TYP_STRUCT)
    && (tag.sub.Some? ==> Consistent(tag.sub.value))
  }

  predicate ConsistentHead(tag: Tag) {
    && (tag.id.Some? ==> NoZero(tag.id.value))
    && Fits(tag.offset, MEMINT_SIZE) && 0 <= tag.kind < 256 && 0 <= tag.flags < 256
    && |tag.dims| <= 8 && (HasArr(tag.flags) <==> tag.dims != [])
    && forall i :: 0 <= i < |tag.dims| ==> Fits(tag.dims[i], MEMINT_SIZE)
  }

  lemma {:induction false} ConsistentIsSmall(def: StructDef)
    requires Consistent(def)
    ensures Small(def)
  {
    forall i | 0 <= i < |def.tags| ensures SmallTag(def.tags[i]) {
      ConsistentTagIsSmall(def.tags[i]);
    }
  }

  lemma {:induction false} ConsistentTagIsSmall(tag: Tag)
    requires ConsistentTag(tag)
    ensures SmallTag(tag)
  {
    if tag.sub.Some? {
      ConsistentIsSmall(tag.sub.value);
    }
  }

  /** No array tag, at any depth, has more dimensions than the unpacking code has room for. */
  predicate Narrow(def: StructDef) {
    forall i :: 0 <= i < |def.tags| ==> NarrowTag(def.tags[i])
  }

  predicate NarrowTag(tag: Tag) {
    |tag.dims| <= MAX_TAG_DIMS && (tag.sub.Some? ==> Narrow(tag.sub.value))
  }

  /** What is left of a definition once offsets are forgotten. */
  function Outline(def: StructDef): Built
    decreases def, 1
  {
    Built(def.id, OutlineTags(def.tags))
  }

  function OutlineTags(tags: seq<Tag>): seq<BuiltTag>
    decreases tags, 0
  {
    if tags == [] then [] else [OutlineTag(tags[0])] + OutlineTags(tags[1..])
  }

  function OutlineTag(tag: Tag): BuiltTag
    decreases tag, 0
  {
    BuiltTag(if tag.id.Some? then tag.id.value else [], tag.flags, tag.dims,
             if tag.sub.Some? then Sub(Outline(tag.sub.value)) else Code(tag.kind))
  }

  // ---------------------------------------------------------------- unpacking what was packed

  lemma Regroup(a: seq<Byte>, b: seq<Byte>, c: seq<Byte>)
    ensures (a + b) + c == a + (b + c)
  {
  }

  lemma {:induction false} DimsBack(dims: seq<int>, rest: seq<Byte>)
    requires forall i :: 0 <= i < |dims| ==> Fits(dims[i], MEMINT_SIZE)
    ensures DecodeDims(DimBytes(dims) + rest, |dims|) == Got(dims, MEMINT_SIZE * |dims|)
  {
    if dims != [] {
      hide Fits, ReadSigned, Little;
      DimsBack(dims[1..], rest);
      Regroup(Little(dims[0], MEMINT_SIZE), DimBytes(dims[1..]), rest);
      ReadSignedBack(dims[0], MEMINT_SIZE, DimBytes(dims[1..]) + rest);
      assert dims == [dims[0]] + dims[1..];
    }
  }

  lemma NameBack(id: Option<seq<Byte>>, rest: seq<Byte>)
    requires id.Some? ==> NoZero(id.value)
    ensures var name := if id.Some? then id.value else [];
            ReadString(NameBytes(id) + rest) == Got(name, |NameBytes(id)|)
    ensures (NameBytes(id) + rest)[|NameBytes(id)|..] == rest
  {
    var name: seq<Byte> := if id.Some? then id.value else [];
    assert NameBytes(id) == Terminated(name);
    ReadStringBack(name, rest);
  }

  lemma ByteBack(b: Byte, rest: seq<Byte>)
    ensures ReadByte([b] + rest) == Got(b, 1)
    ensures ([b] + rest)[1..] == rest
  {
  }

  lemma HeadParts(tag: Tag, rest: seq<Byte>)
    requires ConsistentHead(tag)
    ensures var dims: seq<Byte> := if HasArr(tag.flags) then DimBytes(tag.dims) else [];
            TagHead(tag) + rest
            == NameBytes(tag.id) + (Little(tag.offset, MEMINT_SIZE) +
                 ([tag.kind] + ([tag.flags] + ([|tag.dims|] + (dims + rest)))))
  {
    hide NameBytes, Little, HasArr, DimBytes, Fits;
    var dims: seq<Byte> := if HasArr(tag.flags) then DimBytes(tag.dims) else [];
    var name, offset := NameBytes(tag.id), Little(tag.offset, MEMINT_SIZE);
    var three: seq<Byte> := [tag.kind, tag.flags] + ([|tag.dims|] + dims);
    assert [0] + [] == [0];
    assert TagHead(tag) == name + (offset + three);
    Regroup(name, offset + three, rest);
    Regroup(offset, three, rest);
    ThreeParts(tag.kind, tag.flags, |tag.dims|, dims, rest);
  }

  lemma ThreeParts(k: Byte, f: Byte, d: Byte, dims: seq<Byte>, rest: seq<Byte>)
    ensures [k, f] + ([d] + dims) + rest == [k] + ([f] + ([d] + (dims + rest)))
  {
  }

  /** A tag's head is read back, unless it has more dimensions than there is room for. */
  lemma HeadBack(tag: Tag, rest: seq<Byte>)
    requires ConsistentHead(tag)
    ensures DecodeHead(TagHead(tag) + rest)
         == if |tag.dims| <= MAX_TAG_DIMS
            then Got((if tag.id.Some? then tag.id.value else [], tag.kind, tag.flags, tag.dims), |TagHead(tag)|)
            else OutOfBounds
    ensures (TagHead(tag) + rest)[|TagHead(tag)|..] == rest
  {
    hide HasArr, Fits, ReadSigned, ReadString, ReadByte, NameBytes, Little, DimBytes, DecodeDims;
    var dims: seq<Byte> := if HasArr(tag.flags) then DimBytes(tag.dims) else [];
    var r4: seq<Byte> := dims + rest;
    var r3: seq<Byte> := [|tag.dims|] + r4;
    var r2: seq<Byte> := [tag.flags] + r3;
    var r1: seq<Byte> := [tag.kind] + r2;
    var r0 := Little(tag.offset, MEMINT_SIZE) + r1;
    HeadParts(tag, rest);
    NameBack(tag.id, r0);
    ReadSignedBack(tag.offset, MEMINT_SIZE, r1);
    ByteBack(tag.kind, r2);
    ByteBack(tag.flags, r3);
    ByteBack(|tag.dims|, r4);
    DimsOfHead(tag, rest);
  }

  lemma DimsOfHead(tag: Tag, rest: seq<Byte>)
    requires ConsistentHead(tag)
    ensures var dims: seq<Byte> := if HasArr(tag.flags) then DimBytes(tag.dims) else [];
            DecodeDims(dims + rest, |tag.dims|) == Got(tag.dims, |dims|)
  {
    if HasArr(tag.flags) {
      DimsBack(tag.dims, rest);
    }
  }

  /** Unpacking a packed definition rebuilds its names, types and dimensions and consumes exactly
      the packed bytes; it runs out of room exactly when an array tag has eight dimensions. */
  lemma {:induction false} DecodeEncode(def: StructDef, rest: seq<Byte>)
    requires Consistent(def) && Small(def)
    ensures Decode(Encode(def) + rest)
         == if Narrow(def) then Got(Outline(def), |Encode(def)|) else OutOfBounds
    decreases def, 1
  {
    hide NameBytes, Little, ReadSigned, ReadString, EncodeTags, DecodeTags, OutlineTags, ConsistentTag, SmallTag, NarrowTag;
    var n := |def.tags|;
    var r1 := EncodeTags(def.tags) + rest;
    var r0 := Little(n, INT_SIZE) + r1;
    Regroup(NameBytes(def.id), Little(n, INT_SIZE) + EncodeTags(def.tags), rest);
    Regroup(Little(n, INT_SIZE), EncodeTags(def.tags), rest);
    NameBack(def.id, r0);
    assert Fits(n, INT_SIZE) by { IntRange(); }
    ReadSignedBack(n, INT_SIZE, r1);
    DecodeEncodeTags(def.tags, rest);
  }

  lemma IntRange()
    ensures Range(INT_SIZE) == 0x1_0000_0000
  {
  }

  lemma {:induction false} DecodeEncodeTags(tags: seq<Tag>, rest: seq<Byte>)
    requires forall i :: 0 <= i < |tags| ==> ConsistentTag(tags[i]) && SmallTag(tags[i])
    ensures DecodeTags(EncodeTags(tags) + rest, |tags|)
         == if (forall i :: 0 <= i < |tags| ==> NarrowTag(tags[i]))
            then Got(OutlineTags(tags), |EncodeTags(tags)|) else OutOfBounds
    decreases tags, 0
  {
    hide ConsistentTag, SmallTag, NarrowTag, EncodeTag, DecodeTag, OutlineTag;
    if tags != [] {
      var r := EncodeTags(tags[1..]) + rest;
      Regroup(EncodeTag(tags[0]), EncodeTags(tags[1..]), rest);
      DecodeEncodeTag(tags[0], r);
      DecodeEncodeTags(tags[1..], rest);
      assert (EncodeTag(tags[0]) + r)[|EncodeTag(tags[0])|..] == r;
      assert (forall i :: 0 <= i < |tags| ==> NarrowTag(tags[i]))
        <==> NarrowTag(tags[0]) && (forall i :: 0 <= i < |tags[1..]| ==> NarrowTag(tags[1..][i]));
    }
  }

  lemma {:induction false} DecodeEncodeTag(tag: Tag, rest: seq<Byte>)
    requires ConsistentTag(tag) && SmallTag(tag)
    ensures DecodeTag(EncodeTag(tag) + rest)
         == if NarrowTag(tag) then Got(OutlineTag(tag), |EncodeTag(tag)|) else OutOfBounds
    decreases tag, 0
  {
    hide DecodeHead, TagHead, Encode, Decode, Outline, ConsistentHead, Consistent, Small, Narrow;
    if tag.sub.Some? {
      var sub := Encode(tag.sub.value);
      Regroup(TagHead(tag), sub, rest);
      HeadBack(tag, sub + rest);
      DecodeEncode(tag.sub.value, rest);
    } else {
      HeadBack(tag, rest);
      assert EncodeTag(tag) == TagHead(tag);
    }
  }

  /** A definition with one array tag of eight dimensions, which IDL allows. */
  function EightDims(): StructDef {
    StructDef(None, [Tag(None, 0, 4, 4, [1, 1, 1, 1, 1, 1, 1, 1], None)])
  }

  /** It is packed, and unpacking it writes beyond the array of dimensions. */
  lemma EightDimsOverflow()
    ensures Consistent(EightDims()) && Small(EightDims())
    ensures Decode(Encode(EightDims())) == OutOfBounds
  {
    hide Encode, Decode;
    var def := EightDims();
    assert forall n :: n in {0, 1} ==> Fits(n, MEMINT_SIZE) by { SmallNumbersFit(); }
    assert ConsistentTag(def.tags[0]) && !NarrowTag(def.tags[0]);
    ConsistentIsSmall(def);
    DecodeEncode(def, []);
    assert Encode(def) + [] == Encode(def);
  }

  lemma SmallNumbersFit()
    ensures Fits(0, MEMINT_SIZE) && Fits(1, MEMINT_SIZE)
  {
  }
}
