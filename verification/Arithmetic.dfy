/** The few facts about products and quotients the proofs need. */
module Arithmetic {
  lemma AtLeastOnce(d: nat, k: nat)
    requires d >= 1
    ensures d * k >= k
  {
    assert d * k == (d - 1) * k + k;
  }

  lemma Before(i: nat, j: nat, k: nat)
    requires i < j
    ensures i * k + k <= j * k
  {
    AtLeastOnce(j - i, k);
    assert j * k == i * k + (j - i) * k;
  }

  lemma Quotient(a: nat, k: nat, q: nat, r: nat)
    requires r < k && a == q * k + r
    ensures a / k == q
  {
    var p := a / k;
    assert a == p * k + a % k;
    if p > q {
      Before(q, p, k);
    } else if p < q {
      Before(p, q, k);
    }
  }

  lemma DivideOneMore(m: nat, k: nat)
    requires k > 0
    ensures (m + k) / k == 1 + m / k
  {
    var q, r := m / k, m % k;
    assert m == q * k + r;
    assert (q + 1) * k == q * k + k;
    Quotient(m + k, k, q + 1, r);
  }
}
