/** Polynomial identities and sign facts, kept apart from the recursive sums that use them. */
module RealAlgebra {
  lemma ProductPositive(a: real, b: real)
    requires a > 0.0 && b > 0.0
    ensures a * b > 0.0
  {
  }

  lemma ProductZeroIff(a: real, b: real)
    ensures a * b == 0.0 <==> a == 0.0 || b == 0.0
  {
  }

  lemma SquareOrder(a: real, b: real)
    requires b >= 0.0 && a * a <= b * b
    ensures -b <= a <= b
  {
    DifferenceOfSquares(a, b);
    DifferenceOfSquares(-a, b);
    if a > b {
      ProductPositive(a - b, a + b);
    } else if a < -b {
      ProductPositive(-a - b, -a + b);
    }
  }

  lemma DifferenceOfSquares(a: real, b: real)
    ensures (a - b) * (a + b) == a * a - b * b
  {
  }

  lemma FormImpliesProduct(a: real, b: real, c: real)
    requires a > 0.0
    requires (-c) * (-c) * a + 2.0 * ((-c) * a * c) + a * a * b >= 0.0
    ensures c * c <= a * b
  {
  }
}
