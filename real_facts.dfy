/** Facts about real arithmetic that the geometric proofs use step by step. */
module RealFacts {

  lemma PositiveProduct(a: real, b: real)
    requires a > 0.0 && b > 0.0
    ensures a * b > 0.0
  {
  }

  lemma NonNegativeProduct(a: real, b: real)
    requires a >= 0.0 && b >= 0.0
    ensures a * b >= 0.0
  {
  }

  lemma CancelFactor(w: real, u: real)
    requires w != 0.0
    ensures (w * u) / w == u
  {
  }

  lemma SquareOfSum(a: real, b: real, t: real)
    ensures (a + t * b) * (a + t * b) == a * a + 2.0 * t * (a * b) + t * t * (b * b)
  {
  }

  lemma CompletedSquare(a: real, halfB: real, c: real, t: real)
    ensures a * (a * t * t + 2.0 * halfB * t + c)
         == (a * t + halfB) * (a * t + halfB) - (halfB * halfB - a * c)
  {
  }

  lemma PositiveFactor(a: real, q: real)
    requires a > 0.0
    ensures a * q == 0.0 <==> q == 0.0
    ensures a * q > 0.0 <==> q > 0.0
  {
  }

  lemma DifferenceOfSquares(u: real, v: real)
    ensures (u - v) * (u + v) == u * u - v * v
  {
  }

  lemma ZeroProduct(x: real, y: real)
    ensures x * y == 0.0 <==> x == 0.0 || y == 0.0
  {
  }

  lemma DivisionByPositive(a: real, t: real, n: real)
    requires a > 0.0
    ensures t == n / a <==> a * t == n
  {
  }

  lemma DivisionMonotone(a: real, m: real, n: real)
    requires a > 0.0 && m <= n
    ensures m / a <= n / a
  {
  }

  lemma QuotientSquare(n: real, w: real, r: real)
    requires r != 0.0 && n == w / r
    ensures n * n * (r * r) == w * w
  {
    assert n * r == w;
    assert (n * r) * (n * r) == n * n * (r * r);
  }

  lemma Distribute(a: real, b: real, c: real, k: real)
    ensures (a + b + c) * k == a * k + b * k + c * k
  {
  }

  lemma UnitQuotient(x: real, k: real)
    requires k != 0.0 && x * k == k
    ensures x == 1.0
  {
  }

  lemma SquareAtMostOne(a: real)
    requires a * a <= 1.0
    ensures -1.0 <= a <= 1.0
  {
  }

  lemma SquareMonotone(a: real, b: real)
    requires a > b >= 0.0
    ensures a * a > b * b
  {
    PositiveProduct(a - b, a + b);
    assert (a - b) * (a + b) == a * a - b * b;
  }

  /** Zero divided by any non-zero number is zero. */
  lemma ZeroOver(k: real)
    requires k != 0.0
    ensures 0.0 / k == 0.0
  {
    ZeroFactor(k, 0.0 / k);
  }

  /** A product with a non-zero factor is zero only when the other factor is. */
  lemma ZeroFactor(k: real, q: real)
    requires k != 0.0 && k * q == 0.0
    ensures q == 0.0
  {
    ZeroProduct(k, q);
  }

  /** A non-zero common factor cancels. */
  lemma NonZeroCancel(k: real, a: real, b: real)
    requires k != 0.0 && k * a == k * b
    ensures a == b
  {
    assert k * (a - b) == 0.0;
    ZeroProduct(k, a - b);
  }

  /** Negating the length negates a position `i + 1/2` steps of `len / n` in from `-len / 2`. */
  lemma NegatedStep(len: real, n: real, i: real)
    requires n > 0.0
    ensures len / 2.0 + 0.5 * (-len / n) + i * (-len / n) == -(-len / 2.0 + 0.5 * (len / n) + i * (len / n))
  {
  }

  /** A positive number's square root is positive. */
  lemma PositiveRoot(d: real, sq: real)
    requires d > 0.0 && sq >= 0.0 && sq * sq == d
    ensures sq > 0.0
  {
    ZeroProduct(sq, sq);
  }
}
