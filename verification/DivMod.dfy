/** Quotients and remainders by a variable divisor. */
module DivMod {

  lemma {:induction false} MultiplesAreApart(r: nat, q: nat, d: nat)
    requires r < q
    ensures r * d + d <= q * d
    decreases q
  {
    assert q * d == (q - 1) * d + d;
    if r < q - 1 { MultiplesAreApart(r, q - 1, d); }
  }

  /** Quotient and remainder are unique. */
  lemma QuotientUnique(n: nat, d: nat, q: nat, r: nat)
    requires d > 0 && r < d && n == q * d + r
    ensures n / d == q && n % d == r
  {
    var q', r' := n / d, n % d;
    assert n == q' * d + r';
    if q' < q { MultiplesAreApart(q', q, d); }
    if q < q' { MultiplesAreApart(q, q', d); }
  }

  lemma ExactMultiple(n: nat, d: nat)
    requires d > 0 && n % d == 0
    ensures n == n / d * d
  {
  }

  lemma ModPlusMultiple(n: nat, q: nat, d: nat)
    requires d > 0
    ensures (n + q * d) % d == n % d
  {
    var p, r := n / d, n % d;
    assert n == p * d + r;
    assert n + q * d == (p + q) * d + r;
    QuotientUnique(n + q * d, d, p + q, r);
  }

  /** Numbers less than `d` apart have different remainders. */
  lemma RemaindersDiffer(a: nat, b: nat, d: nat)
    requires a < b < a + d
    ensures a % d != b % d
  {
    var p, q := a / d, b / d;
    assert a == p * d + a % d;
    assert b == q * d + b % d;
    if p < q { MultiplesAreApart(p, q, d); }
    if q < p { MultiplesAreApart(q, p, d); }
  }
}
