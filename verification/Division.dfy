/** Quotients and multiples. */
module Division {
  /** A quotient by a doubled divisor. */
  lemma HalveThenDivide(n: nat, d: nat)
    requires d >= 1
    ensures n / 2 / d == n / (2 * d)
  {
    var h := n / 2;
    var q, r := h / d, h % d;
    assert n == q * (2 * d) + (2 * r + n % 2) by {
      assert h == q * d + r;
    }
    QuotientIs(n, 2 * d, q, 2 * r + n % 2);
  }

  lemma QuotientIs(n: int, d: int, q: int, r: int)
    requires n == q * d + r && 0 <= r < d
    ensures n / d == q && n % d == r
  {
    var p, s := n / d, n % d;
    if p > q {
      Multiples(p, q, d);
    } else if p < q {
      Multiples(q, p, d);
    }
  }

  lemma Multiples(p: int, q: int, d: int)
    requires p > q && d > 0
    ensures p * d >= q * d + d
  {
    var k := p - q;
    AtLeastOnce(k, d);
    assert (q + k) * d == q * d + k * d;
  }

  lemma {:induction false} AtLeastOnce(k: int, d: int)
    requires k >= 1 && d > 0
    ensures k * d >= d
    decreases k
  {
    if k > 1 {
      AtLeastOnce(k - 1, d);
      assert k * d == (k - 1) * d + d;
    }
  }

  lemma SmallRemainder(x: int, m: int)
    requires 0 <= x < m
    ensures x % m == x
  {
  }
}
