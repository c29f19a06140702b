/** The 32-bit signed integers of the code. */
module Integers {
  const INT_LIMIT: int := 0x8000_0000

  /** Conversion of a wider integer to `int`. */
  function Signed32(n: int): (r: int)
    ensures -INT_LIMIT <= r < INT_LIMIT
    ensures -INT_LIMIT <= n < INT_LIMIT ==> r == n
  {
    (n + 0x8000_0000) % 0x1_0000_0000 - 0x8000_0000
  }
}
