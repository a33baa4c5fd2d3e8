/** Eight-bit values. */
module Bytes {
  type Byte = x: int | 0 <= x < 0x100 witness 0

  /** Truncation of an integer expression stored to a `uint8_t`. */
  function U8(x: int): Byte {
    x % 0x100
  }
}
