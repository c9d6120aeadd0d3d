/** Products and quotients of natural numbers. */
module Arithmetic {
  lemma MulLess(a: nat, b: nat, d: nat)
    requires a < b
    ensures a * d + d <= b * d
  {
    assert b * d == a * d + d + (b - a - 1) * d;
    assert (b - a - 1) * d >= 0;
  }

  lemma DivBounds(a: nat, d: nat)
    requires d >= 1
    ensures (a / d) * d <= a < (a / d) * d + d
    ensures a == (a / d) * d + a % d
  {
  }

  /** Quotient and remainder are the only ones that fit. */
  lemma DivUnique(q: nat, n: nat, r: nat)
    requires r < n
    ensures (q * n + r) / n == q && (q * n + r) % n == r
  {
    var p := (q * n + r) / n;
    DivBounds(q * n + r, n);
    if p < q { MulLess(p, q, n); } else if q < p { MulLess(q, p, n); }
  }

  lemma Distribute(x: nat, y: nat, d: nat)
    ensures x * d + y * d == (x + y) * d
  {
  }

  lemma Regroup(x: nat, y: nat, d: nat)
    ensures x * (y * d) == (x * y) * d
    ensures x * (y * d) == y * (x * d)
  {
  }

  /** n * s, kept as repeated addition so that addresses stay linear. */
  function Times(n: nat, s: nat): nat {
    if n == 0 then 0 else Times(n - 1, s) + s
  }

  lemma {:induction false} TimesStep(i: nat, j: nat, s: nat)
    requires i < j
    ensures Times(i, s) + s <= Times(j, s)
    decreases j
  {
    if i < j - 1 { TimesStep(i, j - 1, s); }
  }

  lemma {:induction false} TimesIsProduct(n: nat, s: nat)
    ensures Times(n, s) == n * s
  {
    if n != 0 { TimesIsProduct(n - 1, s); }
  }
}
