/** `Math.round((part / whole) * 100)` on exact integers. `Math.round` rounds
    halves upwards, so for a non-negative ratio it is `floor(x + 1/2)`. */
module Percent {

  function RoundPercent(part: nat, whole: nat): (r: nat)
    requires 0 < whole && part <= whole
    ensures r <= 100
    // r is the integer nearest to 100 * part / whole, halves rounded up:
    // r - 1/2 <= 100 * part / whole < r + 1/2
    ensures whole * (2 * r) <= 200 * part + whole < whole * (2 * r + 2)
    ensures r == 100 <==> 200 * part >= 199 * whole
    ensures r == 0 <==> 200 * part < whole
  {
    var q := (200 * part + whole) / (2 * whole);
    DivBounds(200 * part + whole, 2 * whole);
    RoundedBounds(part, whole, q);
    q
  }

  lemma DivBounds(n: nat, d: nat)
    requires 0 < d
    ensures (n / d) * d <= n < (n / d + 1) * d
  {
  }

  /** From `a * c < b * c` with a positive `c`, `a < b`. */
  lemma CancelLess(a: int, b: int, c: int)
    requires 0 < c && a * c < b * c
    ensures a < b
  {
  }

  lemma RoundedBounds(part: nat, whole: nat, q: nat)
    requires 0 < whole && part <= whole
    requires q * (2 * whole) <= 200 * part + whole < (q + 1) * (2 * whole)
    ensures q <= 100
    ensures whole * (2 * q) <= 200 * part + whole < whole * (2 * q + 2)
    ensures q == 100 <==> 200 * part >= 199 * whole
    ensures q == 0 <==> 200 * part < whole
  {
    var w := 2 * whole;
    var n := 200 * part + whole;
    assert n < 101 * w;
    CancelLess(q, 101, w);
    assert whole * (2 * q) == q * w;
    assert whole * (2 * q + 2) == (q + 1) * w;
    if 200 * part >= 199 * whole {
      assert 100 * w <= n;
      CancelLess(99, q + 1, w);
    }
    if q == 100 {
      assert 100 * w <= n;
    }
    if 200 * part < whole {
      assert n < 1 * w;
      CancelLess(q, 1, w);
    }
    if q == 0 {
      assert n < w;
    }
  }
}
