/** Quotient and remainder. */
module Division {

  lemma QuotientAndRemainder(d: nat, q: nat, r: nat)
    requires r < d
    ensures (d * q + r) / d == q && (d * q + r) % d == r
  {
    var n := d * q + r;
    var a, b := n / d, n % d;
    assert d * a + b == n;
    assert d * (q - a) == d * q - d * a && d * (a - q) == d * a - d * q;
    if a < q {
      Multiple(d, q - a);
    } else if a > q {
      Multiple(d, a - q);
    }
  }

  lemma Multiple(d: nat, k: nat)
    requires k >= 1
    ensures d * k >= d
  {
  }
}
