/** What the encoders work on: bytes as numbers, and 32-bit unsigned counters. */
module Bytes {
  type Byte = x: int | 0 <= x < 256

  /** The number of values an unsigned int, or uint32_t, has. */
  const UINTS: int := 0x1_0000_0000
  type UInt = x: int | 0 <= x < 0x1_0000_0000
}
