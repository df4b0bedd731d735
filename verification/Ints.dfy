/** The fixed-width integers of the exporter, as subsets of the mathematical integers. */
module Ints {
  const MAX_INT64: int := 0x7FFF_FFFF_FFFF_FFFF
  const MAX_UINT32: int := 0xFFFF_FFFF

  type int64 = x: int | -0x8000_0000_0000_0000 <= x <= 0x7FFF_FFFF_FFFF_FFFF
  type uint64 = x: int | 0 <= x <= 0xFFFF_FFFF_FFFF_FFFF
  type uint32 = x: int | 0 <= x <= 0xFFFF_FFFF
  type uint16 = x: int | 0 <= x <= 0xFFFF

  function Max(a: int, b: int): int {
    if a < b then b else a
  }

  function Min(a: int, b: int): int {
    if b < a then b else a
  }

  datatype Option<+T> = None | Some(value: T)
}
