/** Integer division by a positive divisor. */
module Arithmetic {

  /** Multiples of a positive number are ordered like the factors. */
  lemma MultipleOrder(p: int, j: int, k: int)
    requires p > 0 && j < k
    ensures p * j + p <= p * k
  {
    assert p * k == p * j + p * (k - j);
    assert p * (k - j) == p + p * (k - j - 1);
    assert p * (k - j - 1) >= 0;
  }

  lemma FloorBound(n: int, q: int, x: int)
    requires q > 0
    ensures n / q <= x <==> n <= q * x + q - 1
  {
    var f := n / q;
    assert q * f <= n < q * f + q;
    if f < x {
      MultipleOrder(q, f, x);
    } else if x < f {
      MultipleOrder(q, x, f);
    }
  }

  lemma DivBounds(n: int, p: int, k: int)
    requires p > 0
    ensures k == n / p <==> p * k <= n < p * k + p
  {
    var f := n / p;
    assert p * f <= n < p * f + p;
    if k < f {
      MultipleOrder(p, k, f);
    } else if f < k {
      MultipleOrder(p, f, k);
    }
  }

  lemma ModOf(p: int, k: int, t: int)
    requires 0 <= t < p
    ensures (p * k + t) % p == t && (p * k + t) / p == k
  {
    DivBounds(p * k + t, p, k);
  }

  /** Reducing a summand first does not change the remainder of a sum. */
  lemma ModAdd(p: int, x: int, y: int)
    requires p > 0
    ensures (x % p + y) % p == (x + y) % p
  {
    var z := x % p + y;
    assert x == p * (x / p) + x % p;
    assert z == p * (z / p) + z % p;
    assert x + y == p * (x / p + z / p) + z % p;
    ModOf(p, x / p + z / p, z % p);
  }
}
