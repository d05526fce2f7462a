/** Facts about products and quotients that the solver does not find by itself in
    larger proofs. */
module Arithmetic {

  lemma AtLeastOne(d: int, n: int)
    requires d >= 1 && n > 0
    ensures n * d >= n
  {
  }

  /** Quotient and remainder are determined by their defining equation. */
  lemma SameQuotient(a: int, b: int, r: int, t: int, n: int)
    requires 0 <= r < n && 0 <= t < n && n * a + r == n * b + t
    ensures a == b && r == t
  {
    if a > b {
      AtLeastOne(a - b, n);
    } else if b > a {
      AtLeastOne(b - a, n);
    }
  }

  lemma Product(x: real, y: real)
    requires x > 0.0 && y > 0.0
    ensures x * y > 0.0
  {
  }

  lemma Quotient(a: real, n: real)
    requires a >= 0.0 && n > 0.0
    ensures a / n >= 0.0 && (a / n == 0.0 <==> a == 0.0)
  {
    assert a / n * n == a;
  }
}
