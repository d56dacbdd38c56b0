/**
 * Facts about exact real arithmetic that the vector and matrix modules share.
 * Each is stated over plain variables so that the solver meets one product
 * at a time; callers chain them with `calc`.
 */
module Reals {

  /** A square is never negative. */
  lemma SquareNonNegative(x: real)
    ensures x * x >= 0.0
  {
  }

  /** The square of a non-zero real is positive. */
  lemma SquarePositive(x: real)
    requires x != 0.0
    ensures x * x > 0.0
  {
  }

  /** A sum of four squares is positive as soon as one of the four is non-zero. */
  lemma SumOfSquaresPositive(a: real, b: real, c: real, d: real)
    requires a != 0.0 || b != 0.0 || c != 0.0 || d != 0.0
    ensures a * a + b * b + c * c + d * d > 0.0
  {
    SquareNonNegative(a);
    SquareNonNegative(b);
    SquareNonNegative(c);
    SquareNonNegative(d);
    if a != 0.0 {
      SquarePositive(a);
    } else if b != 0.0 {
      SquarePositive(b);
    } else if c != 0.0 {
      SquarePositive(c);
    } else {
      SquarePositive(d);
    }
  }

  /** Multiplying a quotient back by its non-zero divisor restores the dividend. */
  lemma QuotientTimes(a: real, m: real)
    requires m != 0.0
    ensures (a / m) * m == a
  {
  }

  /** Equal reals have equal squares. */
  lemma SquareOfEqual(a: real, b: real)
    requires a == b
    ensures a * a == b * b
  {
  }

  /** The square of a product is the product of the squares. */
  lemma SquareOfProduct(n: real, m: real)
    ensures (n * m) * (n * m) == (n * n) * (m * m)
  {
  }

  /** A square is the square of its quotient by `m`, times the square of `m`. */
  lemma SquareThroughQuotient(a: real, m: real)
    requires m != 0.0
    ensures a * a == ((a / m) * (a / m)) * (m * m)
  {
    QuotientTimes(a, m);
    SquareOfEqual((a / m) * m, a);
    SquareOfProduct(a / m, m);
  }

  /** A non-zero real `x` that equals `y * q` with `q == x` forces `y` to be one. */
  lemma UnitFactor(x: real, y: real, q: real)
    requires x != 0.0 && q == x && x == y * q
    ensures y == 1.0
  {
    assert (y - 1.0) * x == 0.0;
  }

  /**
   * The map `x |-> (2 / (hi - lo)) * x + (-lo - hi) / (hi - lo)` sends `lo`
   * to -1 and `hi` to 1.
   */
  lemma UnitRangeEnds(lo: real, hi: real)
    requires hi != lo
    ensures (2.0 / (hi - lo)) * lo + (-lo - hi) / (hi - lo) == -1.0
    ensures (2.0 / (hi - lo)) * hi + (-lo - hi) / (hi - lo) == 1.0
  {
    var d := hi - lo;
    assert (2.0 / d) * lo == (2.0 * lo) / d;
    assert (2.0 / d) * hi == (2.0 * hi) / d;
    assert (2.0 * lo) / d + (-lo - hi) / d == (lo - hi) / d;
    assert (2.0 * hi) / d + (-lo - hi) / d == (hi - lo) / d;
  }

  /** The map `x |-> (1 / (f - n)) * x + (-n) / (f - n)` sends `n` to 0 and `f` to 1. */
  lemma DepthRangeEnds(n: real, f: real)
    requires f != n
    ensures (1.0 / (f - n)) * n + (-n) / (f - n) == 0.0
    ensures (1.0 / (f - n)) * f + (-n) / (f - n) == 1.0
  {
    var d := f - n;
    assert (1.0 / d) * n == n / d;
    assert (1.0 / d) * f == f / d;
    assert f / d + (-n) / d == (f - n) / d;
  }
}
