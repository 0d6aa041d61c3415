/** Facts about integer multiplication and Euclidean division that the
    index arithmetic of the aggregator rests on. */
module Arithmetic {

  /** `x * d` grows with `x`. */
  lemma MulMonotone(x: int, y: int, d: nat)
    requires x <= y
    ensures x * d <= y * d
  {
    assert y * d - x * d == (y - x) * d;
  }

  /** Multiplication distributes over one extra summand. */
  lemma MulSucc(x: int, d: int)
    ensures (x + 1) * d == x * d + d
  {
  }

  /** Euclidean division is determined by quotient and remainder. */
  lemma DivModUnique(a: int, d: int, q: int, r: int)
    requires 0 < d && 0 <= r < d && a == q * d + r
    ensures a / d == q && a % d == r
  {
    var q', r' := a / d, a % d;
    assert a == q' * d + r';
    MulSucc(q', d);
    MulSucc(q, d);
    if q' < q {
      MulMonotone(q' + 1, q, d);
    } else if q < q' {
      MulMonotone(q + 1, q', d);
    }
  }

  /** The walk's position after a whole layer `i` of `N * N` cubes. */
  lemma NextLayer(i: int, N: int)
    ensures i * N * N + N * N == (i + 1) * N * N
  {
    MulSucc(i, N);
    MulSucc(i * N, N);
  }

  /** Multiplication by `N` distributes over `a * N + b`. */
  lemma MulAddDistrib(a: int, b: int, N: int)
    ensures (a * N + b) * N == a * N * N + b * N
  {
  }

  /** Multiplication is associative. */
  lemma MulAssoc(a: int, b: int, c: int)
    ensures a * b * c == a * (b * c)
  {
  }

  /** A product of non-negative factors is non-negative. */
  lemma MulNonnegative(a: int, b: int)
    requires a >= 0 && b >= 0
    ensures a * b >= 0
  {
  }

  /** A product of positive factors is positive. */
  lemma MulPositive(a: int, b: int)
    requires a > 0 && b > 0
    ensures a * b > 0
  {
    MulMonotone(1, a, b);
  }

  /** `m * s == s * v` with `s > 0` determines `m`. */
  lemma RealCancel(m: real, s: real, v: real)
    requires s > 0.0 && m * s == s * v
    ensures m == v
  {
    assert (m - v) * s == 0.0;
  }
}
