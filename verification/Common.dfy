/** Fixed-width integers and the optional value shared by every component. */
module Common {

  datatype Option<+T> = None | Some(value: T)

  const INT64_MIN: int := -0x8000_0000_0000_0000
  const INT64_MAX: int := 0x7fff_ffff_ffff_ffff
  const UINT32_MAX: int := 0xffff_ffff
  const TWO_63: int := 0x8000_0000_0000_0000
  const TWO_64: int := 0x1_0000_0000_0000_0000

  newtype uint8 = x: int | 0 <= x < 0x100
  newtype int32 = x: int | -0x8000_0000 <= x < 0x8000_0000
  newtype uint32 = x: int | 0 <= x < 0x1_0000_0000
  newtype int64 = x: int | -0x8000_0000_0000_0000 <= x < 0x8000_0000_0000_0000
  newtype uint64 = x: int | 0 <= x < 0x1_0000_0000_0000_0000

  const UINT64_MAX: uint64 := 0xffff_ffff_ffff_ffff

  /** True when a mathematical integer is representable in a signed 64-bit word. */
  predicate FitsInt64(n: int) {
    INT64_MIN <= n <= INT64_MAX
  }

  // Unsigned arithmetic wraps modulo 2^64.

  function WrappingAdd(a: uint64, b: uint64): (r: uint64)
    ensures r as int == a as int + b as int || r as int == a as int + b as int - TWO_64
  {
    if a <= UINT64_MAX - b then a + b else a - (UINT64_MAX - b) - 1
  }

  function WrappingSubtract(a: uint64, b: uint64): (r: uint64)
    ensures r as int == a as int - b as int || r as int == a as int - b as int + TWO_64
  {
    if b <= a then a - b else a + (UINT64_MAX - b) + 1
  }

  /** The conversion of a signed word to an unsigned one. */
  function ToUnsigned(a: int64): (r: uint64)
    ensures r as int == if a < 0 then a as int + TWO_64 else a as int
  {
    if a < 0 then (a as int + TWO_64) as uint64 else a as uint64
  }
}
