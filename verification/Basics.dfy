/** Machine integers, byte strings and the optional value shared by every module. */
module Basics {

  /** A possibly null pointer of the program. */
  datatype Option<+T> = None | Some(value: T)

  newtype byte = b: int | 0 <= b < 0x100

  /** `size_t` and `uint64` on the 64-bit targets of the program. */
  newtype uint64 = n: int | 0 <= n < 0x1_0000_0000_0000_0000

  type Bytes = seq<byte>

  const MAX_UINT64: uint64 := 0xFFFF_FFFF_FFFF_FFFF
  const TWO_TO_THE_64: nat := 0x1_0000_0000_0000_0000

  /** `n + 1` on a `size_t`: unsigned arithmetic wraps. */
  function Increment(n: uint64): uint64 {
    if n == MAX_UINT64 then 0 else n + 1
  }
}
