/** Integer types of the C sources, as subset types of `int`. */
module Machine {
  type uint8 = x: int | 0 <= x < 0x100
  type uint16 = x: int | 0 <= x < 0x1_0000
  type uint32 = x: int | 0 <= x < 0x1_0000_0000
  type int8 = x: int | -0x80 <= x < 0x80
  type int16 = x: int | -0x8000 <= x < 0x8000
  type int32 = x: int | -0x8000_0000 <= x < 0x8000_0000

  datatype Option<+T> = None | Some(value: T)

  // C's conversions to narrower unsigned types keep the low bits.
  function U8(x: int): (r: uint8)
    ensures 0 <= x < 0x100 ==> r == x
  {
    x % 0x100
  }

  function U16(x: int): (r: uint16)
    ensures 0 <= x < 0x1_0000 ==> r == x
  {
    x % 0x1_0000
  }

  function U32(x: int): (r: uint32)
    ensures 0 <= x < 0x1_0000_0000 ==> r == x
  {
    x % 0x1_0000_0000
  }

  // Two's complement conversion to int32.
  function I32(x: int): (r: int32)
    ensures -0x8000_0000 <= x < 0x8000_0000 ==> r == x
  {
    if U32(x) < 0x8000_0000 then U32(x) else U32(x) - 0x1_0000_0000
  }

  function Min(a: int, b: int): int { if a < b then a else b }

  // C's integer division truncates toward zero.
  function TruncDiv(n: int, k: int): int
    requires k > 0
  {
    if n < 0 then -(-n / k) else n / k
  }
}
