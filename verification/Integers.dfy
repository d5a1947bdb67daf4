// The machine integers of the sources, as ranges of the integers.
module Integers {

  type uint8 = v: int | 0 <= v < 0x100
  type uint16 = v: int | 0 <= v < 0x1_0000
  type uint24 = v: int | 0 <= v < 0x100_0000
  type uint32 = v: int | 0 <= v < 0x1_0000_0000
  type int16 = v: int | -0x8000 <= v < 0x8000
  type int32 = v: int | -0x8000_0000 <= v < 0x8000_0000
}
