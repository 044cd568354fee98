/** Machine integer ranges and the casts of the source that can wrap. */
module Ints {

  type u8 = x: int | 0 <= x < 0x100
  type u16 = x: int | 0 <= x < 0x1_0000
  type u32 = x: int | 0 <= x < 0x1_0000_0000

  const I32_MAX: int := 0x7FFF_FFFF

  type i32 = x: int | -0x8000_0000 <= x <= I32_MAX

  /** Rust's `n as i32` on an unsigned value: keep the low 32 bits, read as two's complement. */
  function AsI32(n: nat): (r: i32)
    ensures n <= I32_MAX ==> r == n
    ensures (r - n) % 0x1_0000_0000 == 0
  {
    var low := n % 0x1_0000_0000;
    if low <= I32_MAX then low else low - 0x1_0000_0000
  }
}
