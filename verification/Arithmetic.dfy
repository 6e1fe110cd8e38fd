/** Division by a variable. */
module Arithmetic {

  lemma SmallMultiple(d: int, k: int)
    requires d > 0 && k != 0
    ensures d * k <= -d || d * k >= d
  {
    if k >= 1 {
      assert d * (k - 1) >= 0;
    } else {
      assert d * (-k - 1) >= 0;
    }
  }

  lemma Distribute(d: int, p: int, q: int)
    ensures d * (p - q) == d * p - d * q
  {}

  /** Quotient and remainder are unique. */
  lemma UniqueQuotient(d: int, p: int, q: int, r: int, s: int)
    requires 0 <= r < d && 0 <= s < d && d * p + s == d * q + r
    ensures p == q && r == s
  {
    Distribute(d, p, q);
    if p != q {
      SmallMultiple(d, p - q);
    }
  }

  lemma Division(x: int, d: int, q: int, r: int)
    requires 0 <= r < d && x == d * q + r
    ensures x / d == q && x % d == r
  {
    UniqueQuotient(d, x / d, q, r, x % d);
  }
}
