/**
 Variables that are not structures (src/dlm/idlutil.cpp:968-1197), and the cache file that holds
 them by name (src/dlm/rdx.cpp:917-931, 1016-1031).
 */
module Variables {
  import opened Bytes
  import opened StructDefs
  import opened Integers

  const TYP_OBJREF: int := 11

  /** The size of an element of each type. */
  function TypeSize(kind: int): nat {
    match kind
    case 1 => 1    // BYTE
    case 2 => 2    // INT
    case 3 => 4    // LONG
    case 4 => 4    // FLOAT
    case 5 => 8    // DOUBLE
    case 6 => 8    // COMPLEX
    case 9 => 16   // DCOMPLEX
    case 10 => 4   // PTR
    case 12 => 2   // UINT
    case 13 => 4   // ULONG
    case 14 => 8   // LONG64
    case 15 => 8   // ULONG64
    case _ => 0    // UNDEF; strings, structures and objects are not sized this way
  }

  datatype Contents = Data(bytes: seq<Byte>) | Strings(strings: seq<seq<Byte>>)

  /** A variable: its type and flags, dimensions if it is an array, and its raw or text value. */
  datatype Var = Var(kind: int, flags: int, dims: seq<int>, contents: Contents)

  /** What holds of a variable that is not a structure or an object. */
  predicate Plain(v: Var) {
    && 0 <= v.kind < 256 && 0 <= v.flags < 256
    && v.kind != TYP_STRUCT && v.kind != TYP_OBJREF && !HasStruct(v.flags)
    && |v.dims| <= 8 && (HasArr(v.flags) <==> v.dims != [])
    && (forall i :: 0 <= i < |v.dims| ==> v.dims[i] >= 1 && Fits(v.dims[i], MEMINT_SIZE))
    && (v.contents.Strings? <==> v.kind == TYP_STRING)
    && (v.contents.Strings? ==> |v.contents.strings| == Product(v.dims) && AllText(v.contents.strings))
    && (v.contents.Data? ==> |v.contents.bytes| == Product(v.dims) * TypeSize(v.kind) < 0x8000_0000_0000_0000)
  }

  predicate AllText(ss: seq<seq<Byte>>) {
    forall i :: 0 <= i < |ss| ==> NoZero(ss[i])
  }

  // ---------------------------------------------------------------- packed form

  function StringBytes(ss: seq<seq<Byte>>): seq<Byte> {
    if ss == [] then [] else Terminated(ss[0]) + StringBytes(ss[1..])
  }

  function ContentBytes(c: Contents): seq<Byte> {
    if c.Strings? then StringBytes(c.strings) else c.bytes
  }

  function VarBytes(v: Var): seq<Byte>
    requires Plain(v)
  {
    [v.kind, v.flags] + ((if HasArr(v.flags) then [|v.dims|] + DimBytes(v.dims) else []) + ContentBytes(v.contents))
  }

  /** Arithmetic of size_t. */
  function Size64(n: int): int {
    n % 0x1_0000_0000_0000_0000
  }

  function StringsSize(ss: seq<seq<Byte>>): nat {
    if ss == [] then 0 else |ss[0]| + 1 + StringsSize(ss[1..])
  }

  /** The size pass. The number of elements of an array, and its product with the element size,
      are computed in `int`. */
  function VarSize(v: Var): int
    requires Plain(v)
  {
    if HasArr(v.flags) then
      var head := 2 + 1 + |v.dims| * MEMINT_SIZE;
      if v.kind == TYP_STRING then head + StringsSize(v.contents.strings)
      else Size64(head + Signed32(Signed32(Product(v.dims)) * TypeSize(v.kind)))
    else if v.kind == TYP_STRING then 2 + StringsSize(v.contents.strings)
    else 2 + TypeSize(v.kind)
  }

  lemma {:induction false} StringsSizeIs(ss: seq<seq<Byte>>)
    ensures StringsSize(ss) == |StringBytes(ss)|
  {
    if ss != [] {
      StringsSizeIs(ss[1..]);
    }
  }

  lemma IntProduct(n: int, size: nat)
    requires n >= 0 && n * size < INT_LIMIT
    ensures Signed32(Signed32(n) * size) == n * size
  {
  }

  lemma NonnegativeProduct(a: int, b: int)
    requires a >= 0 && b >= 0
    ensures a * b >= 0
  {
  }

  lemma {:induction false} ProductPositive(dims: seq<int>)
    requires forall i :: 0 <= i < |dims| ==> dims[i] >= 1
    ensures Product(dims) >= 1
  {
    if dims != [] {
      ProductPositive(dims[1..]);
      assert dims[0] * Product(dims[1..]) >= 1 by { NonnegativeProduct(dims[0] - 1, Product(dims[1..])); }
    }
  }

  /** An array whose data take two gigabytes or more. */
  predicate Huge(v: Var) {
    HasArr(v.flags) && v.contents.Data? && |v.contents.bytes| >= INT_LIMIT
  }

  /** The size pass gives the number of packed bytes exactly when the variable is not an array of
      two gigabytes or more. */
  lemma SizeExactly(v: Var)
    requires Plain(v)
    ensures VarSize(v) == |VarBytes(v)| <==> !Huge(v)
  {
    hide HasArr, HasStruct, Fits, DimBytes, NoZero;
    ProductPositive(v.dims);
    if v.contents.Strings? {
      StringsSizeIs(v.contents.strings);
    } else if HasArr(v.flags) {
      var size := |v.contents.bytes|;
      var head := 2 + 1 + |v.dims| * MEMINT_SIZE;
      var computed := Signed32(Signed32(Product(v.dims)) * TypeSize(v.kind));
      assert |VarBytes(v)| == head + size;
      if size < INT_LIMIT {
        IntProduct(Product(v.dims), TypeSize(v.kind));
      }
      SizeCompare(head, computed, size);
    }
  }

  lemma SizeCompare(head: int, computed: int, size: int)
    requires 0 <= head <= 67 && -INT_LIMIT <= computed < INT_LIMIT && 0 <= size < 0x8000_0000_0000_0000
    requires size < INT_LIMIT ==> computed == size
    ensures Size64(head + computed) == head + size <==> size < INT_LIMIT
  {
  }

  /** By how much the size pass falls short of the packed bytes, before its result is wrapped. */
  function Excess(v: Var): int
    requires Plain(v)
  {
    if HasArr(v.flags) && v.contents.Data?
    then |v.contents.bytes| - Signed32(Signed32(Product(v.dims)) * TypeSize(v.kind)) else 0
  }

  lemma ExcessIs(v: Var)
    requires Plain(v)
    ensures Size64(VarSize(v)) == Size64(|VarBytes(v)| - Excess(v))
    ensures 0 <= Excess(v) <= 2 * |VarBytes(v)| && (Excess(v) == 0 <==> !Huge(v))
  {
    hide HasArr, HasStruct, Fits, DimBytes, NoZero;
    ProductPositive(v.dims);
    if v.contents.Strings? {
      StringsSizeIs(v.contents.strings);
    } else if HasArr(v.flags) {
      assert |VarBytes(v)| == 2 + 1 + |v.dims| * MEMINT_SIZE + |v.contents.bytes|;
      if |v.contents.bytes| < INT_LIMIT {
        IntProduct(Product(v.dims), TypeSize(v.kind));
      }
      WrappedTwice(2 + 1 + |v.dims| * MEMINT_SIZE + Signed32(Signed32(Product(v.dims)) * TypeSize(v.kind)));
      hide Signed32, Product, Size64, TypeSize;
    }
  }

  lemma WrappedTwice(n: int)
    ensures Size64(Size64(n)) == Size64(n)
  {
  }

  // ---------------------------------------------------------------- unpacking

  /** What a variable is unpacked to: flags are not kept. */
  datatype Value = Value(kind: int, dims: seq<int>, contents: Contents)

  function ValueOf(v: Var): Value {
    Value(v.kind, v.dims, v.contents)
  }

  function DecodeStrings(bs: seq<Byte>, n: nat): (r: Read<seq<seq<Byte>>>)
    ensures r.Got? ==> r.count <= |bs|
    decreases n
  {
    if n == 0 then Got([], 0)
    else
      var (s, c1) :- ReadString(bs);
      var (ss, c2) :- DecodeStrings(bs[c1..], n - 1);
      Got([s] + ss, c1 + c2)
  }

  function DecodeContents(bs: seq<Byte>, kind: int, elements: nat): (r: Read<Contents>)
    ensures r.Got? ==> r.count <= |bs|
  {
    if kind == TYP_STRING then
      var (ss, c) :- DecodeStrings(bs, elements);
      Got(Strings(ss), c)
    else if elements * TypeSize(kind) > |bs| then OutOfBounds
    else Got(Data(bs[..elements * TypeSize(kind)]), elements * TypeSize(kind))
  }

  function AtLeastZero(n: int): nat {
    if n < 0 then 0 else n
  }

  /** unpackVar for anything but a structure. An array with no dimensions stops the reading. */
  function DecodeVar(bs: seq<Byte>): (r: Read<Value>)
    ensures r.Got? ==> 0 < r.count <= |bs|
  {
    if |bs| < 2 then OutOfBounds
    else
      var kind, flags, b2 := bs[0], bs[1], bs[2..];
      if !HasStruct(flags) && HasArr(flags) then
        var (n, c1) :- ReadByte(b2);
        if n > 8 then OutOfBounds
        else
          var b3 := b2[c1..];
          var (dims, c2) :- DecodeDims(b3, n);
          if n == 0 then Got(Value(kind, [], Data([])), 2 + c1)
          else
            var (c, c3) :- DecodeContents(b3[c2..], kind, AtLeastZero(Product(dims)));
            Got(Value(kind, dims, c), 2 + c1 + c2 + c3)
      else
        var (c, c3) :- DecodeContents(b2, kind, 1);
        Got(Value(kind, [], c), 2 + c3)
  }

  lemma {:induction false} StringsBack(ss: seq<seq<Byte>>, rest: seq<Byte>)
    requires AllText(ss)
    ensures DecodeStrings(StringBytes(ss) + rest, |ss|) == Got(ss, |StringBytes(ss)|)
  {
    hide ReadString, Terminated, NoZero;
    if ss != [] {
      StringsBack(ss[1..], rest);
      Regroup(Terminated(ss[0]), StringBytes(ss[1..]), rest);
      ReadStringBack(ss[0], StringBytes(ss[1..]) + rest);
      TerminatedLength(ss[0]);
      assert ss == [ss[0]] + ss[1..];
    }
  }

  lemma TerminatedLength(s: seq<Byte>)
    ensures |Terminated(s)| == |s| + 1
  {
  }

  lemma ContentsBack(v: Var, rest: seq<Byte>)
    requires Plain(v)
    ensures Product(v.dims) >= 1
    ensures DecodeContents(ContentBytes(v.contents) + rest, v.kind, Product(v.dims))
         == Got(v.contents, |ContentBytes(v.contents)|)
  {
    hide HasArr, HasStruct, Fits, NoZero, DecodeStrings, StringBytes;
    ProductPositive(v.dims);
    if v.contents.Strings? {
      StringsBack(v.contents.strings, rest);
    } else {
      assert (v.contents.bytes + rest)[..|v.contents.bytes|] == v.contents.bytes;
    }
  }

  /** Unpacking what was packed gives the type, the dimensions and the contents back, and consumes
      exactly the packed bytes. */
  lemma DecodeEncodeVar(v: Var, rest: seq<Byte>)
    requires Plain(v)
    ensures DecodeVar(VarBytes(v) + rest) == Got(ValueOf(v), |VarBytes(v)|)
  {
    hide Fits, NoZero, ReadByte, DecodeDims, DimBytes, DecodeContents, ContentBytes, Product, TypeSize, HasArr, HasStruct;
    ContentsBack(v, rest);
    var body := ContentBytes(v.contents) + rest;
    if HasArr(v.flags) {
      var d := DimBytes(v.dims);
      ArrayParts([v.kind, v.flags], [|v.dims|], d, ContentBytes(v.contents), rest);
      ByteBack(|v.dims|, d + body);
      DimsBack(v.dims, body);
      assert (d + body)[|d|..] == body;
      assert VarBytes(v) + rest == [v.kind, v.flags] + ([|v.dims|] + (d + body));
    } else {
      assert [] + ContentBytes(v.contents) == ContentBytes(v.contents);
      Regroup([v.kind, v.flags], ContentBytes(v.contents), rest);
      assert Product(v.dims) == 1 by { EmptyProduct(v.dims); }
    }
    assert forall b: seq<Byte> :: ([v.kind, v.flags] + b)[2..] == b;
  }

  lemma EmptyProduct(dims: seq<int>)
    requires dims == []
    ensures Product(dims) == 1
  {
  }

  lemma ArrayParts(a: seq<Byte>, b: seq<Byte>, c: seq<Byte>, d: seq<Byte>, rest: seq<Byte>)
    ensures a + ((b + c) + d) + rest == a + (b + (c + (d + rest)))
  {
  }
}
