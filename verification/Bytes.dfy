/** Machine words. */
module Bytes {
  newtype byte = x: int | 0 <= x < 256

  const U32 := 0x1_0000_0000
}
