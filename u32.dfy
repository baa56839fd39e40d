/** Unsigned 32-bit pixel arithmetic as the list engine uses it: every height,
    offset and spacer is a `u32`, and every addition, subtraction and
    multiplication on them saturates instead of wrapping. */
module U32 {

  const U32_MAX: nat := 0xFFFF_FFFF
  const U32_MODULUS: nat := 0x1_0000_0000

  type u32 = x: nat | x <= 0xFFFF_FFFF

  function Min(a: nat, b: nat): nat { if a <= b then a else b }

  function Max(a: nat, b: nat): nat { if a <= b then b else a }

  /** `a.saturating_add(b)`: the exact sum when it fits, otherwise the ceiling. */
  function SatAdd(a: u32, b: u32): (r: u32)
    ensures a <= r && b <= r
    ensures r <= a + b
    ensures r < U32_MAX ==> r == a + b
  {
    if a + b <= U32_MAX then a + b else U32_MAX
  }

  /** `a.saturating_sub(b)`: the exact difference, or 0 when `b` exceeds `a`. */
  function SatSub(a: u32, b: u32): (r: u32)
    ensures r <= a
    ensures b <= a ==> r + b == a
    ensures a < b ==> r == 0
  {
    if b <= a then a - b else 0
  }

  /** `a.saturating_mul(b)`: the exact product when it fits, otherwise the ceiling. */
  function SatMul(a: u32, b: u32): (r: u32)
    ensures a * b <= U32_MAX ==> r == a * b
    ensures a * b > U32_MAX ==> r == U32_MAX
  {
    if a * b <= U32_MAX then a * b else U32_MAX
  }

  /** `n as u32` on a wider unsigned integer: keeps the low 32 bits. */
  function Truncate(n: nat): (r: u32)
    ensures n <= U32_MAX ==> r == n
    ensures (n - r) % U32_MODULUS == 0
  {
    n % U32_MODULUS
  }
}
