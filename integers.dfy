/** The fixed-width unsigned integers of the C and C++ interfaces. */
module Integers {

  const TWO_TO_THE_16: int := 0x1_0000
  const TWO_TO_THE_32: int := 0x1_0000_0000
  const TWO_TO_THE_64: int := 0x1_0000_0000_0000_0000

  newtype uint16 = x: int | 0 <= x < TWO_TO_THE_16
  newtype uint32 = x: int | 0 <= x < TWO_TO_THE_32
  newtype uint64 = x: int | 0 <= x < TWO_TO_THE_64
}
