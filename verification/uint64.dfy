/**
 Go's `uint64` arithmetic as the agent uses it: values below 2^64, subtraction
 that wraps around, and unsigned division.
 */
module UInt64 {

  const TWO_64: int := 0x1_0000_0000_0000_0000

  type U64 = x: int | 0 <= x < TWO_64

  /** `a - b` on uint64: taken modulo 2^64, so subtracting a larger value wraps
      around to a value near 2^64 instead of going negative. */
  function Sub(a: U64, b: U64): (r: U64)
    ensures a >= b ==> r == a - b
    ensures a < b ==> r == TWO_64 - (b - a)
  {
    (a - b) % TWO_64
  }

  /** `a / d` on uint64 with `d > 0`. Go truncates toward zero, which on
      non-negative operands is the floor Dafny's `/` computes. */
  function Div(a: U64, d: U64): (r: U64)
    requires d > 0
    ensures r * d <= a < r * d + d
    ensures r <= a
  {
    var q := a / d;
    assert q * d + a % d == a;
    QuotientBelow(q, d);
    q
  }

  /** A non-negative multiple of a positive number is at least the multiplier. */
  lemma QuotientBelow(q: int, d: int)
    requires q >= 0 && d >= 1
    ensures q <= q * d
  {
  }
}
