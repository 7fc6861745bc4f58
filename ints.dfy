/** Fixed-width integer types of the Rust source, as subsets of `int`.
    Wrap-around is written out where the source performs a cast. */
module Ints {
  type u8 = x: int | 0 <= x < 0x100
  type u16 = x: int | 0 <= x < 0x1_0000
  type u32 = x: int | 0 <= x < 0x1_0000_0000
  type u64 = x: int | 0 <= x < 0x1_0000_0000_0000_0000
  type i8 = x: int | -0x80 <= x < 0x80
  type i16 = x: int | -0x8000 <= x < 0x8000
  type i32 = x: int | -0x8000_0000 <= x < 0x8000_0000
  type i64 = x: int | -0x8000_0000_0000_0000 <= x < 0x8000_0000_0000_0000

  const U16_MAX: u32 := 0xFFFF

  /** Rust's `x as i32` for a `u32`: two's-complement reinterpretation. */
  function U32AsI32(x: u32): (r: i32)
    ensures x < 0x8000_0000 ==> r == x
    ensures x >= 0x8000_0000 ==> r == x - 0x1_0000_0000
    ensures (r + 0x1_0000_0000) % 0x1_0000_0000 == x
  {
    if x < 0x8000_0000 then x else x - 0x1_0000_0000
  }
}
