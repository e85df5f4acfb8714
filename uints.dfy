/** Fixed-width unsigned integers of the Rust source, as bounded mathematical integers. */
module Uints {
  type u8 = x: int | 0 <= x < 0x100
  type u16 = x: int | 0 <= x < 0x1_0000
  type u32 = x: int | 0 <= x < 0x1_0000_0000
}
