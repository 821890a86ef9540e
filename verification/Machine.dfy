/** Fixed-width integer arithmetic as Go and C define it. */
module Machine {
  const TWO63: int := 0x8000_0000_0000_0000
  const TWO64: int := 0x1_0000_0000_0000_0000

  type Int64 = x: int | -0x8000_0000_0000_0000 <= x < 0x8000_0000_0000_0000
  type UInt64 = x: int | 0 <= x < 0x1_0000_0000_0000_0000

  // Two's complement wrap-around of a sum or difference of two int64 values.
  function Wrap64(x: int): (r: Int64)
    requires -TWO64 <= x < TWO64
    ensures r == x || r == x - TWO64 || r == x + TWO64
  {
    if x >= TWO63 then x - TWO64 else if x < -TWO63 then x + TWO64 else x
  }

  function Add64(a: Int64, b: Int64): Int64 {
    Wrap64(a + b)
  }

  function Sub64(a: Int64, b: Int64): Int64 {
    Wrap64(a - b)
  }
}
