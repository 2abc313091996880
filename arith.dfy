/** Small facts of exact real arithmetic, each proved on its own so that the
    geometric proofs that use them need no nonlinear search of their own. */
module RealArith {

  lemma MulNonneg(a: real, b: real)
    requires a >= 0.0 && b >= 0.0
    ensures a * b >= 0.0
  {
  }

  lemma DivMul(n: real, m: real)
    requires m != 0.0
    ensures (n / m) * m == n
  {
  }

  lemma MulDiv(d: real, n: real, m: real)
    requires m != 0.0
    ensures d * n / m == (n / m) * d
  {
  }

  lemma ScaledQuotient(c: real, w: real, n: real, m: real, s: real)
    requires m != 0.0 && s == n / m
    ensures c + w * n / m == c + s * w
  {
    MulDiv(w, n, m);
  }

  lemma ProductNonzero(d: real, a: real, b: real)
    requires d == a * b && a != 0.0 && b != 0.0
    ensures d != 0.0
  {
    assert d / b == a;
  }

  lemma DivWithinUnit(n: real, m: real)
    requires m != 0.0
    requires (0.0 <= n <= m) || (m <= n <= 0.0)
    ensures 0.0 <= n / m <= 1.0
  {
  }

  lemma MulMonotone(t1: real, t2: real, d: real)
    requires t1 <= t2 && d >= 0.0
    ensures t1 * d <= t2 * d
  {
    MulNonneg(t2 - t1, d);
  }

  lemma MulAssoc(t: real, a: real, b: real)
    ensures t * (a * b) == (t * a) * b
  {
  }

  lemma MulDistrib(t: real, a: real, b: real)
    ensures t * (a - b) == t * a - t * b
  {
  }
}
