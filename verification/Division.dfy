/** Dividing twice. */
module Division {

  lemma DivideTwice(v: nat, b: nat, p: nat)
    requires b > 0 && p > 0
    ensures b * p > 0 && (v / b) / p == v / (b * p)
  {
    var q, r, s := (v / b) / p, (v / b) % p, v % b;
    assert v == (q * p + r) * b + s;
    Regroup(q, p, r, b);
    Below(r, p, b, s);
    Quotient(v, b * p, q, r * b + s);
  }

  lemma Regroup(q: nat, p: nat, r: nat, b: nat)
    ensures (q * p + r) * b == q * (b * p) + r * b
  {
    assert (q * p) * b == q * (p * b);
  }

  lemma Below(r: nat, p: nat, b: nat, s: nat)
    requires r < p && s < b
    ensures r * b + s < b * p
  {
    assert (r + 1) * b <= p * b;
  }

  lemma Quotient(v: nat, d: nat, q: nat, r: nat)
    requires v == q * d + r && r < d
    ensures v / d == q
  {
    var k := v / d;
    assert v == k * d + v % d;
    assert (k - q) * d == r - v % d;
    NoMultiple(k - q, d);
  }

  lemma NoMultiple(k: int, d: nat)
    requires 0 < k * d + d < 2 * d
    ensures k == 0
  {
  }
}
