/** Facts about integer multiplication and division by a positive divisor that the
    channel arithmetic of the filters relies on. */
module Arith {

  /** Division by a positive constant keeps the order of its dividends. */
  lemma DivMonotone(a: int, b: int, d: int)
    requires 0 <= a <= b && d > 0
    ensures a / d <= b / d
  {
    var qa, qb := a / d, b / d;
    assert qa * d <= a;
    assert b < (qb + 1) * d;
    assert qa * d < (qb + 1) * d;
  }

  /** Multiplying by a positive constant and dividing by it again is the identity. */
  lemma MulDivCancel(c: int, d: int)
    requires d > 0
    ensures c * d / d == c
  {
    var q, r := c * d / d, c * d % d;
    assert (c - q) * d == r;
    assert 0 <= r < d;
    MulBelowDivisor(c - q, d);
  }

  /** The only multiple of `d` in [0, d) is 0. */
  lemma MulBelowDivisor(k: int, d: int)
    requires d > 0 && 0 <= k * d < d
    ensures k == 0
  {
    if k > 0 {
      MulMonotone(d, 1, k);
    } else if k < 0 {
      MulMonotone(d, k, -1);
    }
  }

  /** Multiplying a non-negative number by a larger factor gives a larger product. */
  lemma MulMonotone(c: int, m: int, n: int)
    requires c >= 0 && m <= n
    ensures c * m <= c * n
  {
    assert c * n - c * m == c * (n - m);
  }

  /** Division with remainder is unique: `a = q * d + r` with `0 <= r < d` fixes
      the quotient and the remainder. */
  lemma DivModUnique(a: int, d: int, q: int, r: int)
    requires d > 0 && 0 <= r < d && a == q * d + r
    ensures a / d == q && a % d == r
  {
    var q', r' := a / d, a % d;
    assert (q - q') * d == r' - r;
    MulBelowDivisor(q - q', d);
  }

  /** Stepping an index by one moves its column right, or wraps to the next row. */
  lemma DivModNext(i: int, d: int)
    requires d > 0
    ensures (i + 1) % d == if i % d + 1 == d then 0 else i % d + 1
    ensures (i + 1) / d == if i % d + 1 == d then i / d + 1 else i / d
  {
    if i % d + 1 == d {
      DivModUnique(i + 1, d, i / d + 1, 0);
    } else {
      DivModUnique(i + 1, d, i / d, i % d + 1);
    }
  }
}
