// 24-bit packet sequence numbers, with wrapping arithmetic and the half-window comparison.

module Psn {
  const BORDER: int := 0x100_0000

  const PSN_MAX_WINDOW_SIZE: int := 0x80_0000

  type Psn = n: nat | n < 0x100_0000

  // The sum is taken in 32 bits; 2^32 is a multiple of BORDER, so an overflow would not be visible here.
  function WrappingAdd(a: Psn, rhs: nat): Psn {
    (a + rhs) % BORDER
  }

  function WrappingSub(a: Psn, rhs: nat): Psn {
    var r := rhs % BORDER;
    if a >= r then a - r else BORDER - r + a
  }

  // "Larger or equal", under the assumption that the two are at most half the circle apart.
  predicate LargerInPsn(a: Psn, b: Psn) {
    WrappingSub(a, b) <= PSN_MAX_WINDOW_SIZE
  }

  // The 24-bit image of an unbounded sequence number.
  ghost function Wire(x: int): Psn {
    x % BORDER
  }

  lemma WireNear(x: int, y: int)
    requires -BORDER < x - y < BORDER
    ensures Wire(x - y) == if x >= y then x - y else x - y + BORDER
  {
  }

  // Wrapping arithmetic is the image of unbounded arithmetic.
  lemma WireAdd(x: int, k: nat)
    ensures WrappingAdd(Wire(x), k) == Wire(x + k)
  {
    var q := x / BORDER;
    assert x == q * BORDER + Wire(x);
    assert x + k == (Wire(x) + k) + q * BORDER;
    ModShift(Wire(x) + k, q);
  }

  lemma WireSub(x: int, y: int)
    ensures WrappingSub(Wire(x), Wire(y)) == Wire(x - y)
  {
    var qx, qy := x / BORDER, y / BORDER;
    assert x - y == (Wire(x) - Wire(y)) + (qx - qy) * BORDER;
    ModShift(Wire(x) - Wire(y), qx - qy);
  }

  lemma ModShift(a: int, q: int)
    ensures (a + q * BORDER) % BORDER == a % BORDER
  {
  }

  // The comparison agrees with the unbounded order exactly inside its asymmetric window:
  // y may be 2^23 below x but only 2^23 - 1 above it.
  lemma LargerIsOrder(x: int, y: int)
    requires -PSN_MAX_WINDOW_SIZE < x - y <= PSN_MAX_WINDOW_SIZE
    ensures LargerInPsn(Wire(x), Wire(y)) <==> x >= y
  {
    WireSub(x, y);
    WireNear(x, y);
  }
}
