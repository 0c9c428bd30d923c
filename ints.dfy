/** Rust's fixed-width integer types used by the modelled code, as ranges of Dafny's unbounded `int`. */
module Ints {

  const I32_MIN: int := -0x8000_0000
  const I32_MAX: int := 0x7fff_ffff
  const U32_MAX: int := 0xffff_ffff

  type i32 = x: int | I32_MIN <= x <= I32_MAX
  type u32 = x: int | 0 <= x <= U32_MAX

  predicate IsI32(x: int) {
    I32_MIN <= x <= I32_MAX
  }
}
