/**
 * Small facts of real arithmetic. Each is stated over plain variables so that
 * the solver meets one nonlinear step at a time; the physics lemmas combine them.
 */
module RealArith {

  lemma MulPositive(a: real, b: real)
    requires a > 0.0 && b > 0.0
    ensures a * b > 0.0
  {
  }

  /** Squaring is strictly monotone on the non-negative reals. */
  lemma SquareLess(s: real, m: real)
    requires 0.0 <= s < m
    ensures s * s < m * m
  {
    MulPositive(m - s, m + s);
  }

  lemma SumOfSquares(a: real, b: real)
    ensures 0.0 <= a * a + b * b
  {
  }

  lemma DivPositive(a: real, b: real)
    requires a > 0.0 && b > 0.0
    ensures a / b > 0.0
  {
  }

  lemma DivSelf(t: real)
    requires t != 0.0
    ensures t / t == 1.0
  {
  }

  lemma DivAdd(a: real, b: real, t: real)
    requires t != 0.0
    ensures a / t + b / t == (a + b) / t
  {
  }

  lemma DivMul(a: real, d: real)
    requires d != 0.0
    ensures (a / d) * d == a
  {
  }

  /** Dividing by each of two masses is multiplying by the sum of their inverses. */
  lemma SplitDiv(a: real, m1: real, m2: real)
    requires m1 != 0.0 && m2 != 0.0
    ensures a / m2 + a / m1 == a * (1.0 / m1 + 1.0 / m2)
  {
  }

  /** An offset divided by its own positive length is a unit vector. */
  lemma UnitLength(dx: real, dy: real, d: real)
    requires d > 0.0 && d * d == dx * dx + dy * dy
    ensures (dx / d) * (dx / d) + (dy / d) * (dy / d) == 1.0
  {
    var nx, ny := dx / d, dy / d;
    assert nx * d == dx && ny * d == dy;
    calc {
      (nx * nx + ny * ny) * (d * d);
      (nx * d) * (nx * d) + (ny * d) * (ny * d);
      dx * dx + dy * dy;
      1.0 * (d * d);
    }
    assert d * d > 0.0;
  }

  /** A unit vector scaled by m has squared length m * m. */
  lemma ScaleUnit(ex: real, ey: real, nx: real, ny: real, m: real)
    requires ex == nx * m && ey == ny * m && nx * nx + ny * ny == 1.0
    ensures ex * ex + ey * ey == m * m
  {
    calc {
      ex * ex + ey * ey;
      (nx * nx + ny * ny) * (m * m);
      1.0 * (m * m);
    }
  }

  /** The vector (x, y) has length |m| (compared on squares). */
  predicate HasLength(x: real, y: real, m: real)
  {
    x * x + y * y == m * m
  }

  /** The vector (x, y) is no longer than |m| (compared on squares). */
  predicate WithinLength(x: real, y: real, m: real)
  {
    x * x + y * y <= m * m
  }
}
