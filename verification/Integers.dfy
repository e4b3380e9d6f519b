/** Machine integers. */
module Integers {
  const U64 := 0x1_0000_0000_0000_0000

  type Byte = n: nat | n < 256
  type Usize = n: nat | n < U64
}
