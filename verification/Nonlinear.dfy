// Facts about products and quotients that the solver does not find by itself.
module Nonlinear {
  /** A product under a name of its own. */
  function Times(x: nat, y: nat): nat
  {
    x * y
  }

  lemma MulMonotonic(a: int, x: int, y: int)
    requires 0 <= a && x <= y
    ensures a * x <= a * y
  {
  }

  lemma Distribute(a: int, x: int, y: int)
    ensures a * (x + y) == a * x + a * y
    ensures (x + y) * a == x * a + y * a
  {
  }

  lemma MulAssoc(a: int, x: int, y: int)
    ensures a * (x * y) == (a * x) * y
  {
  }

  lemma DivModUnique(n: int, d: int, q: int, r: int)
    requires d > 0 && n == d * q + r && 0 <= r < d
    ensures n / d == q && n % d == r
  {
    var q', r' := n / d, n % d;
    assert n == d * q' + r';
    if q' > q {
      MulMonotonic(d, q + 1, q');
      Distribute(d, q, 1);
    } else if q' < q {
      MulMonotonic(d, q' + 1, q);
      Distribute(d, q', 1);
    }
  }

  function Pow2(k: nat): (p: nat)
    ensures p >= 1
  {
    if k == 0 then 1 else 2 * Pow2(k - 1)
  }

  predicate TestBit(x: nat, k: nat)
  {
    x / Pow2(k) % 2 == 1
  }

  lemma TwoQuotients(n: nat, d: nat, e: nat, low: nat, high: nat, q: nat, r: nat)
    requires d > 0 && e > 0 && n == low + d * high && low < d && high == q * e + r && r < e
    ensures d * e > 0 && n / (d * e) == q
  {
    Distribute(d, q * e, r);
    assert d * (q * e) == d * e * q;
    MulMonotonic(d, r + 1, e);
    Distribute(d, r, 1);
    MulMonotonic(d, 1, e);
    DivModUnique(n, d * e, q, d * r + low);
  }

  lemma DivTwice(v: nat, p: nat, q: nat)
    requires p > 0 && q > 0
    ensures p * q > 0 && v / (p * q) == v / p / q
  {
    var a := v / p;
    var b := a / q;
    assert v == v % p + p * a && a == b * q + a % q;
    TwoQuotients(v, p, q, v % p, a, b, a % q);
  }

  lemma QuotientBounds(n: nat, d: int)
    requires d > 0
    ensures n / d * d <= n < (n / d + 1) * d
  {
  }
}
