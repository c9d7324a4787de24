/** Fixed-width machine integers and the small wrappers shared by every module.
    The firmware works on `u8`, `u16`, `u32`, `i8`, `i16` and `i32`; Dafny integers are
    unbounded, so each width is a subset type and every wrap-around is written out. */
module Prelude {

  type u8 = x: int | 0 <= x < 0x100
  type u32 = x: int | 0 <= x < 0x1_0000_0000
  type i8 = x: int | -0x80 <= x < 0x80
  type i16 = x: int | -0x8000 <= x < 0x8000
  type i32 = x: int | -0x8000_0000 <= x < 0x8000_0000

  const U8_MAX: u8 := 0xFF
  const U32_MAX: u32 := 0xFFFF_FFFF

  datatype Option<T> = None | Some(value: T)

  /** Truncation of an integer to an unsigned 8-bit value (C's conversion to uint8_t). */
  function WrapU8(x: int): (r: u8)
    ensures (x - r) % 0x100 == 0
    ensures 0 <= x < 0x100 ==> r == x
  {
    x % 0x100
  }

  /** Truncation to an unsigned 32-bit value (Rust's wrapping add, C's uint32_t arithmetic). */
  function WrapU32(x: int): (r: u32)
    ensures (x - r) % 0x1_0000_0000 == 0
    ensures 0 <= x < 0x1_0000_0000 ==> r == x
  {
    x % 0x1_0000_0000
  }

  /** Two's-complement truncation to a signed 8-bit value. */
  function WrapI8(x: int): (r: i8)
    ensures (x - r) % 0x100 == 0
    ensures -0x80 <= x < 0x80 ==> r == x
  {
    var m := x % 0x100;
    if m >= 0x80 then m - 0x100 else m
  }

  /** Two's-complement truncation to a signed 16-bit value. */
  function WrapI16(x: int): (r: i16)
    ensures (x - r) % 0x1_0000 == 0
    ensures -0x8000 <= x < 0x8000 ==> r == x
  {
    var m := x % 0x1_0000;
    if m >= 0x8000 then m - 0x1_0000 else m
  }

  /** Two's-complement reading of a 32-bit pattern as a signed value. */
  function WrapI32(x: int): (r: i32)
    ensures (x - r) % 0x1_0000_0000 == 0
    ensures -0x8000_0000 <= x < 0x8000_0000 ==> r == x
  {
    var m := x % 0x1_0000_0000;
    if m >= 0x8000_0000 then m - 0x1_0000_0000 else m
  }

  /** The 32-bit pattern of a signed value (the bits a C cast to uint32_t keeps). */
  function BitsOfI32(x: i32): (r: u32)
    ensures WrapI32(r) == x
  {
    if x < 0 then x + 0x1_0000_0000 else x
  }
}
