/** Small facts about integer multiplication, division and remainder used to reason about flat indices and step counters. */
module Arith {

  /** (q * d + r) / d == q and (q * d + r) % d == r for 0 <= r < d. */
  lemma DivMod(q: int, d: int, r: int)
    requires 0 <= r < d
    ensures (q * d + r) / d == q && (q * d + r) % d == r
  {
    var x := q * d + r;
    var q', r' := x / d, x % d;
    assert x == q' * d + r';
    assert (q - q') * d == r' - r;
    if q > q' {
      MulLess(0, q - q', d);
    } else if q < q' {
      MulLess(0, q' - q, d);
    }
  }

  /** a < b and c > 0 give a * c + c <= b * c. */
  lemma MulLess(a: int, b: int, c: int)
    requires a < b && c > 0
    ensures a * c + c <= b * c
  {
    assert (b - a) * c >= c by {
      MulAtLeastOne(b - a, c);
    }
  }

  lemma MulAtLeastOne(k: int, c: int)
    requires k >= 1 && c > 0
    ensures k * c >= c
  {
  }

  /** x == (x / d) * d + x % d with the quotient below m when x < m * d. */
  lemma DivBelow(x: int, d: int, m: int)
    requires d > 0 && 0 <= x < m * d
    ensures x == (x / d) * d + x % d && 0 <= x % d < d
    ensures 0 <= x / d < m
  {
    var q := x / d;
    if q >= m {
      MulLess(m - 1, q, d);
    }
  }
}
