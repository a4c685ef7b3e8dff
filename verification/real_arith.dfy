/** Facts about squares of reals, kept apart from the grid definitions so
    that the solver sees nothing but the arithmetic. */
module RealArith {

  lemma SquareNonnegative(d: real, q: real)
    requires q == d * d
    ensures q >= 0.0
  {
  }

  lemma SquareNonzero(d: real, q: real)
    requires d != 0.0 && q == d * d
    ensures q != 0.0
  {
    if d > 0.0 {
      PositiveProduct(d, d, q);
    } else {
      PositiveProduct(-d, -d, q);
    }
  }

  lemma PositiveProduct(a: real, b: real, p: real)
    requires a > 0.0 && b > 0.0 && p == a * b
    ensures p > 0.0
  {
  }

  /** The square of a real is nonnegative, and zero only for zero. */
  lemma Square(d: real, q: real)
    requires q == d * d
    ensures q >= 0.0
    ensures d != 0.0 ==> q > 0.0
  {
    SquareNonnegative(d, q);
    if d != 0.0 {
      SquareNonzero(d, q);
    }
  }

  /** Scaling `[0, top]` by a nonnegative factor stays within `[0, top * s]`. */
  lemma ScaleBounds(a: real, top: real, s: real, p: real, q: real)
    requires 0.0 <= a <= top && 0.0 <= s
    requires p == a * s && q == top * s
    ensures 0.0 <= p <= q
  {
  }

  /** Multiplying by `c / d` undoes a division by `d`. */
  lemma CancelQuotient(d: real, c: real, p: real)
    requires d != 0.0 && p == d * (c / d)
    ensures p == c
  {
  }
}
