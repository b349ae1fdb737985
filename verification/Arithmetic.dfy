/** Facts about products, quotients and remainders that the layout proofs need. */
module Arithmetic {
  lemma MulMono(a: int, b: int, c: nat)
    requires a <= b
    ensures a * c <= b * c
  {
    assert b * c - a * c == (b - a) * c;
    MulNonNeg(b - a, c);
  }

  lemma MulNonNeg(a: nat, b: nat)
    ensures 0 <= a * b
  {
  }

  lemma MulDist(a: int, b: int, c: int)
    ensures (a + b) * c == a * c + b * c
  {
  }

  lemma QuotientUnique(p: nat, q: nat, r: nat, q': nat, r': nat)
    requires r < p && r' < p && q * p + r == q' * p + r'
    ensures q == q' && r == r'
  {
    if q < q' {
      MulMono(q + 1, q', p);
      MulDist(q, 1, p);
    } else if q' < q {
      MulMono(q' + 1, q, p);
      MulDist(q', 1, p);
    }
  }

  lemma DivModDef(n: nat, p: nat)
    requires p > 0
    ensures n == (n / p) * p + n % p && n % p < p
  {
  }

  lemma DivModIs(n: nat, p: nat, q: nat, r: nat)
    requires r < p && n == q * p + r
    ensures n / p == q && n % p == r
  {
    DivModDef(n, p);
    QuotientUnique(p, q, r, n / p, n % p);
  }

  lemma DivModShift(n: nat, p: nat, k: nat)
    requires p > 0
    ensures (k * p + n) / p == k + n / p && (k * p + n) % p == n % p
  {
    DivModDef(n, p);
    MulDist(k, n / p, p);
    DivModIs(k * p + n, p, k + n / p, n % p);
  }

  /** n / p < k exactly when n < k * p. */
  lemma DivLess(n: nat, p: nat, k: nat)
    requires p > 0
    ensures n / p < k <==> n < k * p
  {
    DivModDef(n, p);
    if n / p < k {
      MulMono(n / p + 1, k, p);
      MulDist(n / p, 1, p);
    } else {
      MulMono(k, n / p, p);
    }
  }

  /** (n + (p - 1)) / p <= k exactly when n <= k * p: division rounding up. */
  lemma CeilAtMost(n: nat, p: nat, k: nat)
    requires p > 0
    ensures (n + (p - 1)) / p <= k <==> n <= k * p
  {
    DivLess(n + (p - 1), p, k + 1);
    MulDist(k, 1, p);
  }
}
