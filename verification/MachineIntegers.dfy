/** The fixed-width integers of the C code, over unbounded ones. */
module MachineIntegers {
  type Byte = x: int | 0 <= x < 0x100
  type Uint16 = x: int | 0 <= x < 0x1_0000
  type Uint32 = x: int | 0 <= x < 0x1_0000_0000
  type Uint64 = x: int | 0 <= x < 0x1_0000_0000_0000_0000

  /** What a store into a uint32_t keeps. */
  function Wrap32(x: int): Uint32 {
    x % 0x1_0000_0000
  }

  /** The cast (int32_t)x of a uint32_t. */
  function ToInt32(x: Uint32): int {
    if x < 0x8000_0000 then x else x - 0x1_0000_0000
  }

  /** The cast (int64_t)x of a uint64_t. */
  function ToInt64(x: Uint64): int {
    if x < 0x8000_0000_0000_0000 then x else x - 0x1_0000_0000_0000_0000
  }

  function XorByte(a: Byte, b: Byte): Byte {
    ((a as bv8) ^ (b as bv8)) as int
  }

  /** C division: truncates toward zero. */
  function CDiv(a: int, b: int): int
    requires b > 0
  {
    if a >= 0 then a / b else -((-a) / b)
  }

  lemma WrapIgnoresTurns(x: int, turns: int)
    ensures Wrap32(x + turns * 0x1_0000_0000) == Wrap32(x)
  {
  }
}
