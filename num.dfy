/**
 The fixed-width integers the three programs store and compute with.

 Dafny's `int` is unbounded, so every width is a subset type, and every
 operation whose result could leave its width is written as a checked
 operation returning `None` where the compiled program panics (the programs
 are built with overflow checks, so an overflow aborts the instruction rather
 than wrapping around).
 */
module Num {

  datatype Option<+T> = None | Some(value: T)

  const U8_MAX: int := 0xFF
  const U32_MAX: int := 0xFFFF_FFFF
  const U64_MAX: int := 0xFFFF_FFFF_FFFF_FFFF
  const I64_MIN: int := -0x8000_0000_0000_0000
  const I64_MAX: int := 0x7FFF_FFFF_FFFF_FFFF

  type U8 = x: int | 0 <= x <= U8_MAX
  type U32 = x: int | 0 <= x <= U32_MAX
  type U64 = x: int | 0 <= x <= U64_MAX
  /** Unix timestamps and durations in seconds (`i64`). */
  type I64 = x: int | I64_MIN <= x <= I64_MAX

  /** A Rust `String` or `&[u8]`: its `len()` counts bytes. */
  type Bytes = seq<U8>

  /** `a + b` on `u64`; `None` where the addition overflows. */
  function AddU64(a: U64, b: U64): (r: Option<U64>)
    ensures r.Some? <==> a + b <= U64_MAX
    ensures r.Some? ==> r.value == a + b
  {
    if a + b <= U64_MAX then Some(a + b) else None
  }

  /** `a * b` on `u64`; `None` where the product overflows. */
  function MulU64(a: U64, b: U64): (r: Option<U64>)
    ensures r.Some? <==> a * b <= U64_MAX
    ensures r.Some? ==> r.value == a * b
  {
    if a * b <= U64_MAX then Some(a * b) else None
  }

  /** `a + b` on `u32`; `None` where the addition overflows. */
  function AddU32(a: U32, b: U32): (r: Option<U32>)
    ensures r.Some? <==> a + b <= U32_MAX
    ensures r.Some? ==> r.value == a + b
  {
    if a + b <= U32_MAX then Some(a + b) else None
  }

  /** `a + b` on `i64`; `None` where the sum leaves the `i64` range. */
  function AddI64(a: I64, b: I64): (r: Option<I64>)
    ensures r.Some? <==> I64_MIN <= a + b <= I64_MAX
    ensures r.Some? ==> r.value == a + b
  {
    if I64_MIN <= a + b <= I64_MAX then Some(a + b) else None
  }

  /** `a - b` on `i64`; `None` where the difference leaves the `i64` range. */
  function SubI64(a: I64, b: I64): (r: Option<I64>)
    ensures r.Some? <==> I64_MIN <= a - b <= I64_MAX
    ensures r.Some? ==> r.value == a - b
  {
    if I64_MIN <= a - b <= I64_MAX then Some(a - b) else None
  }

  /**
   Rust's `x as u64` on an `i64`: the same 64 bits read as unsigned, so a
   non-negative value is kept and a negative one lands in the upper half.
   */
  function AsU64(x: I64): (r: U64)
    ensures x >= 0 ==> r == x
    ensures x < 0 ==> r > I64_MAX
    ensures r % (U64_MAX + 1) == x % (U64_MAX + 1)
  {
    if x >= 0 then x else x + U64_MAX + 1
  }
}
