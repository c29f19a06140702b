/**
 The pack and unpack primitives of include/redux/util/datautil.hpp: integers of fixed width in
 the machine's (little-endian) byte order, and zero-terminated strings.
 */
module Bytes {

  type Byte = b: int | 0 <= b < 256

  /** Text as the code keeps it: bytes without a terminator inside. */
  predicate NoZero(s: seq<Byte>) {
    forall i :: 0 <= i < |s| ==> s[i] != 0
  }

  // ---------------------------------------------------------------- integers

  function Range(width: nat): (m: int)
    ensures m >= 1
  {
    if width == 0 then 1 else 256 * Range(width - 1)
  }

  /** The low `width` bytes of a number, least significant first. */
  function Little(n: int, width: nat): (bs: seq<Byte>)
    ensures |bs| == width
    decreases width
  {
    if width == 0 then [] else [n % 256] + Little(n / 256, width - 1)
  }

  function Unsigned(bs: seq<Byte>): (n: int)
    ensures 0 <= n < Range(|bs|)
  {
    if bs == [] then 0 else bs[0] + 256 * Unsigned(bs[1..])
  }

  /** Two's complement reading. */
  function Signed(bs: seq<Byte>): int {
    var n := Unsigned(bs);
    if 2 * n >= Range(|bs|) then n - Range(|bs|) else n
  }

  predicate Fits(n: int, width: nat) {
    -Range(width) <= 2 * n < Range(width)
  }

  lemma {:induction false} UnsignedLittle(n: int, width: nat)
    requires 0 <= n < Range(width)
    ensures Unsigned(Little(n, width)) == n
    decreases width
  {
    if width > 0 {
      UnsignedLittle(n / 256, width - 1);
      assert Little(n, width)[1..] == Little(n / 256, width - 1);
    }
  }

  /** Negative numbers have the bytes of their two's complement. */
  lemma {:induction false} LittleWraps(n: int, width: nat)
    ensures Little(n, width) == Little(n + Range(width), width)
    decreases width
  {
    if width > 0 {
      var m := Range(width - 1);
      assert (n + 256 * m) % 256 == n % 256 && (n + 256 * m) / 256 == n / 256 + m;
      LittleWraps(n / 256, width - 1);
    }
  }

  lemma SignedLittle(n: int, width: nat)
    requires Fits(n, width)
    ensures Signed(Little(n, width)) == n
  {
    if n >= 0 {
      UnsignedLittle(n, width);
    } else {
      LittleWraps(n, width);
      UnsignedLittle(n + Range(width), width);
    }
  }

  // ---------------------------------------------------------------- strings

  /** The length of the string at the start of a buffer: up to its first zero byte, if any. */
  function Length(bs: seq<Byte>): (n: nat)
    ensures n <= |bs|
  {
    if bs == [] || bs[0] == 0 then 0 else 1 + Length(bs[1..])
  }

  function Terminated(s: seq<Byte>): seq<Byte> {
    s + [0]
  }

  lemma {:induction false} LengthOfTerminated(s: seq<Byte>, rest: seq<Byte>)
    requires NoZero(s)
    ensures Length(Terminated(s) + rest) == |s|
  {
    if s != [] {
      LengthOfTerminated(s[1..], rest);
      assert (Terminated(s) + rest)[1..] == Terminated(s[1..]) + rest;
    }
  }

  // ---------------------------------------------------------------- reading from the front

  /** A value and the number of bytes it took, or a read beyond what the buffer allows. */
  datatype Read<+T> = Got(value: T, count: nat) | OutOfBounds
  {
    predicate IsFailure() { OutOfBounds? }
    function PropagateFailure<U>(): Read<U> requires OutOfBounds? { OutOfBounds }
    function Extract(): (T, nat) requires Got? { (value, count) }
  }

  function ReadSigned(bs: seq<Byte>, width: nat): (r: Read<int>)
    ensures r.Got? ==> r.count == width <= |bs|
  {
    if |bs| < width then OutOfBounds else Got(Signed(bs[..width]), width)
  }

  function ReadByte(bs: seq<Byte>): Read<int> {
    if bs == [] then OutOfBounds else Got(bs[0], 1)
  }

  function ReadString(bs: seq<Byte>): (r: Read<seq<Byte>>)
    ensures r.Got? ==> 0 < r.count <= |bs|
  {
    var n := Length(bs);
    if n == |bs| then OutOfBounds else Got(bs[..n], n + 1)
  }

  lemma ReadSignedBack(n: int, width: nat, rest: seq<Byte>)
    requires Fits(n, width)
    ensures ReadSigned(Little(n, width) + rest, width) == Got(n, width)
    ensures (Little(n, width) + rest)[width..] == rest
  {
    SignedLittle(n, width);
    assert (Little(n, width) + rest)[..width] == Little(n, width);
  }

  lemma ReadStringBack(s: seq<Byte>, rest: seq<Byte>)
    requires NoZero(s)
    ensures ReadString(Terminated(s) + rest) == Got(s, |s| + 1)
    ensures (Terminated(s) + rest)[|s| + 1..] == rest
  {
    LengthOfTerminated(s, rest);
    assert (Terminated(s) + rest)[..|s|] == s;
  }
}
