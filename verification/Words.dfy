/** Fixed-width machine integers as the firmware uses them. */
module Words {
  const U32_RANGE: int := 0x1_0000_0000

  type u8 = x: int | 0 <= x < 0x100
  type u16 = x: int | 0 <= x < 0x1_0000
  type u32 = x: int | 0 <= x < U32_RANGE

  /** `a - b` on uint32_t: wraps below zero. */
  function Sub32(a: u32, b: u32): (d: u32)
    ensures b <= a ==> d == a - b
  {
    if b <= a then a - b else a - b + U32_RANGE
  }

  /** `a + b` on uint32_t: wraps above the top. */
  function Add32(a: u32, b: u32): (s: u32)
    ensures a + b < U32_RANGE ==> s == a + b
  {
    if a + b < U32_RANGE then a + b else a + b - U32_RANGE
  }

  /** C's `a / 2` on a signed integer: rounds toward zero. */
  function HalfTowardZero(a: int): int {
    if 0 <= a then a / 2 else -((-a) / 2)
  }

  function Abs(a: int): nat {
    if a < 0 then -a else a
  }

  function Min(a: int, b: int): (m: int)
    ensures m <= a && m <= b && (m == a || m == b)
  {
    if a < b then a else b
  }

  function Max(a: int, b: int): (m: int)
    ensures a <= m && b <= m && (m == a || m == b)
  {
    if a < b then b else a
  }
}
