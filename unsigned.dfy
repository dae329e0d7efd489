/** Fixed-width integer ranges of the JVM values the model works with. */
module Unsigned {

  const UINT64_LIMIT: int := 0x1_0000_0000_0000_0000
  const UINT32_LIMIT: int := 0x1_0000_0000
  const INT32_MIN: int := -0x8000_0000
  const INT32_LIMIT: int := 0x8000_0000

  /** teku's UInt64: an unsigned 64-bit value. */
  type uint64 = x: int | 0 <= x < UINT64_LIMIT

  /** Java's int (java.lang.Integer): a signed 32-bit value. */
  type int32 = x: int | INT32_MIN <= x < INT32_LIMIT
}
