/** The prime field of the circuits, p = 2^64 - 2^32 + 1, in canonical form. */
module Goldilocks {

  const P: int := 0xFFFF_FFFF_0000_0001

  type Felt = x: int | 0 <= x < P

  const NEG_ONE: Felt := P - 1

  /** Values that a 32-bit range check lets through lie below this bound. */
  const RANGE_32: int := 0x1_0000_0000

  function Add(a: Felt, b: Felt): Felt {
    if a + b < P then a + b else a + b - P
  }

  function Sub(a: Felt, b: Felt): Felt {
    if a >= b then a - b else a - b + P
  }

  /** The field element of an index, where -1 is the "nothing yet" sentinel. */
  function Of(i: int): Felt
    requires -1 <= i < P - 1
  {
    if i == -1 then NEG_ONE else i
  }
}
