// Small facts about products and quotients, each proved on its own.
module Arith {

  lemma QuotientBounds(n: nat, a: nat)
    requires a > 0
    ensures n / a * a <= n < n / a * a + a
  {
  }

  lemma MulMonotone(x: int, y: int, a: nat)
    requires x <= y
    ensures x * a <= y * a
  {
    assert (y - x) * a >= 0;
  }

  lemma MulStrict(s: nat, t: nat, a: nat)
    requires s < t && a > 0
    ensures s * a < t * a
  {
    assert (t - s) * a > 0;
  }

  lemma LessCancels(x: int, y: int, a: nat)
    requires a > 0 && x * a < y * a
    ensures x < y
  {
    assert (y - x) * a > 0;
  }

  // q is at most the quotient p of n by a
  lemma QuotientAtLeast(n: nat, a: nat, p: nat, q: nat)
    requires a > 0 && q * a <= n < p * a + a
    ensures q <= p
  {
    assert (p + 1) * a == p * a + a;
    LessCancels(q, p + 1, a);
  }

  // the quotients p of n by a and q of n by b
  lemma LargerDivisor(n: nat, a: nat, b: nat, p: nat, q: nat)
    requires 0 < a <= b && n < p * a + a && q * b <= n
    ensures q <= p
  {
    MulMonotone(a, b, q);
    assert a * q == q * a && b * q == q * b;
    QuotientAtLeast(n, a, p, q);
  }

  lemma QuotientAntitone(n: nat, a: nat, b: nat)
    requires 0 < a <= b
    ensures n / b <= n / a
  {
    QuotientBounds(n, a);
    QuotientBounds(n, b);
    LargerDivisor(n, a, b, n / a, n / b);
  }

  lemma SumBelowProduct(c: nat, q: nat)
    requires c >= 1 && q >= 1
    ensures c + q <= q * c + 1
  {
    assert (c - 1) * (q - 1) >= 0;
  }

  /** c + n/c <= n + 1: the sum is largest at the ends of the interval. */
  lemma SumOfQuotient(c: nat, n: nat)
    requires 1 <= c <= n
    ensures c + n / c <= n + 1
  {
    var q := n / c;
    QuotientBounds(n, c);
    QuotientAtLeast(n, c, q, 1);
    SumBelowProduct(c, q);
  }

  /** Quotient and remainder are determined by the decomposition. */
  lemma DivModUnique(x: nat, q: nat, r: nat, n: nat)
    requires n > 0 && r < n && x == q * n + r
    ensures x / n == q && x % n == r
  {
    QuotientBounds(x, n);
    QuotientAtLeast(x, n, x / n, q);
    QuotientAtLeast(x, n, q, x / n);
  }

  lemma DivModIdentity(x: nat, n: nat)
    requires n > 0
    ensures x == x / n * n + x % n && x % n < n
  {
  }

  lemma SuccOf(x: nat, q: nat, r: nat, n: nat)
    requires n > 0 && r < n && x == q * n + r
    ensures (x + 1) / n == q + (if r == n - 1 then 1 else 0)
    ensures (x + 1) % n == if r == n - 1 then 0 else r + 1
  {
    if r == n - 1 {
      assert (q + 1) * n == q * n + n;
      DivModUnique(x + 1, q + 1, 0, n);
    } else {
      DivModUnique(x + 1, q, r + 1, n);
    }
  }

  lemma DivModSucc(x: nat, n: nat)
    requires n > 0
    ensures (x + 1) / n == x / n + (if x % n == n - 1 then 1 else 0)
    ensures (x + 1) % n == if x % n == n - 1 then 0 else x % n + 1
  {
    DivModIdentity(x, n);
    SuccOf(x, x / n, x % n, n);
  }
}
