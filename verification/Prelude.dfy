/** Shared value types and the integer widths the source relies on. */
module Prelude {

  datatype Option<+T> = None | Some(value: T)

  datatype Result<+T, +E> = Ok(value: T) | Err(error: E)

  const U32_MAX: nat := 0xFFFF_FFFF
  const U64_MAX: nat := 0xFFFF_FFFF_FFFF_FFFF
  const U128_MAX: nat := 0xFFFF_FFFF_FFFF_FFFF_FFFF_FFFF_FFFF_FFFF
  const I64_MIN: int := -0x8000_0000_0000_0000
  const I64_MAX: int := 0x7FFF_FFFF_FFFF_FFFF

  type Byte = b: int | 0 <= b < 256
  type U32 = n: int | 0 <= n <= 0xFFFF_FFFF
  type U64 = n: int | 0 <= n <= 0xFFFF_FFFF_FFFF_FFFF
  type I64 = n: int | -0x8000_0000_0000_0000 <= n <= 0x7FFF_FFFF_FFFF_FFFF

  function Min(a: int, b: int): int { if a <= b then a else b }

  function Max(a: int, b: int): int { if a <= b then b else a }

  /** `i64::saturating_sub`. */
  function SatSub64(a: I64, b: I64): I64 { Max(I64_MIN, Min(I64_MAX, a - b)) }

  /** `i64::saturating_mul`. */
  function SatMul64(a: I64, b: I64): I64 { Max(I64_MIN, Min(I64_MAX, a * b)) }

  /** `i64::saturating_add`. */
  function SatAdd64(a: I64, b: I64): I64 { Max(I64_MIN, Min(I64_MAX, a + b)) }

  /** `u64::saturating_add`. */
  function SatAddU64(a: U64, b: U64): U64 { Min(U64_MAX, a + b) }
}
