/** Division by a positive number. */
module Arithmetic {
  lemma DivMod(n: nat, d: nat)
    requires d > 0
    ensures n == n / d * d + n % d && 0 <= n % d < d
  {
  }

  lemma NextMultiple(p: nat, d: nat)
    ensures (p + 1) * d == p * d + d
  {
  }

  lemma {:induction false} MultiplesApart(p: nat, q: nat, d: nat)
    ensures p < q ==> p * d + d <= q * d
  {
    if p < q {
      NextMultiple(q - 1, d);
      MultiplesApart(p, q - 1, d);
    }
  }

  /** `n / d` is the only quotient that leaves a remainder below `d`. */
  lemma QuotientUnique(n: nat, d: nat, q: nat)
    requires d > 0 && q * d <= n < q * d + d
    ensures n / d == q
  {
    DivMod(n, d);
    MultiplesApart(n / d, q, d);
    MultiplesApart(q, n / d, d);
  }
}
