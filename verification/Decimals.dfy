/** Uint128 and Decimal arithmetic: a Decimal is a number of atomics over 10^18. */
module Decimals {
  import opened Base

  const U128_MAX: nat := 0xFFFF_FFFF_FFFF_FFFF_FFFF_FFFF_FFFF_FFFF

  /** Decimal::one(), in atomics. */
  const ONE: nat := 1_000_000_000_000_000_000

  /** The quotient is the greatest integer not above the fraction. */
  lemma FloorBounds(n: nat, d: nat)
    requires d > 0
    ensures n / d * d <= n < n / d * d + d
  {
    assert n == n / d * d + n % d;
  }

  lemma MulMonotone(x: int, y: int, d: nat)
    ensures x <= y ==> x * d <= y * d
    ensures x < y ==> x * d + d <= y * d
  {
    if x < y {
      var k := y - x - 1;
      assert y * d == x * d + d + k * d;
    }
  }

  lemma FloorUnique(n: nat, d: nat, q: nat)
    requires d > 0
    requires q * d <= n < q * d + d
    ensures n / d == q
  {
    FloorBounds(n, d);
    MulMonotone(n / d, q, d);
    MulMonotone(q, n / d, d);
  }

  /** Uint128::checked_multiply_ratio: floor with a range check on the result. */
  function CheckedMultiplyRatio(x: nat, num: nat, den: nat): (r: Option<nat>)
    requires den > 0
    ensures r.Some? <==> x * num < (U128_MAX + 1) * den
    ensures r.Some? ==> r.value * den <= x * num < (r.value + 1) * den
  {
    var q := x * num / den;
    FloorBounds(x * num, den);
    MulMonotone(q, U128_MAX + 1, den);
    MulMonotone(U128_MAX + 1, q, den);
    if q <= U128_MAX then Some(q) else None
  }

  /** A fraction not above one never leaves the range. */
  lemma RatioInRange(x: nat, num: nat, den: nat)
    requires den > 0 && num <= den && x <= U128_MAX
    ensures CheckedMultiplyRatio(x, num, den) == Some(x * num / den)
    ensures x * num / den <= x
  {
    MulMonotone(num, den, x);
    MulMonotone(x, U128_MAX, den);
    FloorBounds(x * num, den);
    MulMonotone(x, x * num / den, den);
  }
}
