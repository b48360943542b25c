/** Facts about division that the solver does not find on its own. */
module Arithmetic {

  lemma SmallMultiple(d: nat, t: int)
    requires 0 - d < d * t < d
    ensures t == 0
  {
  }

  lemma QuotientIs(n: nat, d: nat, k: nat)
    requires 0 < d && k * d <= n < k * d + d
    ensures n / d == k
  {
    SmallMultiple(d, n / d - k);
  }

  lemma ExactQuotient(d: nat, q: nat)
    requires d > 0
    ensures (d * q) / d == q && (d * q) % d == 0
  {
    var t := q - (d * q) / d;
    assert d * t == (d * q) % d;
    SmallMultiple(d, t);
  }
}
