/** Fixed-width unsigned arithmetic and the option type shared by the other modules. */
module Words {

  datatype Option<+T> = None | Some(value: T)

  type U8 = x: int | 0 <= x < 0x100
  type U32 = x: int | 0 <= x < 0x1_0000_0000
  type U64 = x: int | 0 <= x < 0x1_0000_0000_0000_0000

  /** 32-bit addition; `r` is the sum modulo 2^32. */
  function Add32(a: U32, b: U32): (r: U32)
    ensures r == a + b || r == a + b - 0x1_0000_0000
  {
    if a + b < 0x1_0000_0000 then a + b else a + b - 0x1_0000_0000
  }

  /** 32-bit subtraction; `r` is the difference modulo 2^32. */
  function Sub32(a: U32, b: U32): (r: U32)
    ensures r == a - b || r == a - b + 0x1_0000_0000
  {
    if a >= b then a - b else a - b + 0x1_0000_0000
  }

  function Min(a: int, b: int): (r: int)
    ensures r <= a && r <= b && (r == a || r == b)
  {
    if a < b then a else b
  }
}
