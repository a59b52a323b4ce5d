/** Fixed-width integers of the source. Arithmetic on these types carries a proof
    obligation that the mathematical result fits, so a method that computes with them
    is also a proof that the C, C++ or Rust arithmetic never wraps. */
module Machine {
  newtype u8 = x: int | 0 <= x < 0x100
  newtype u16 = x: int | 0 <= x < 0x1_0000
  newtype u32 = x: int | 0 <= x < 0x1_0000_0000
  newtype u64 = x: int | 0 <= x < 0x1_0000_0000_0000_0000
}
