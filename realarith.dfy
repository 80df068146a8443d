/**
 * Facts about products of reals that the solver does not find unaided; kept in
 * a module of their own, free of integer-to-real conversions.
 */
module RealArith {

  /** A product, named so that facts about it can be stated term by term. */
  function Mul(x: real, y: real): real { x * y }

  /** One more copy of v in a sum of c copies. */
  lemma MulSucc(v: real, c: real)
    ensures Mul(v, c + 1.0) == Mul(v, c) + v
  {
  }

  /** The mean of c copies of v is v. */
  lemma MeanOfCopies(v: real, c: real)
    requires c > 0.0
    ensures Mul(v, c) / c == v
  {
  }

  lemma MulPositive(x: real, y: real)
    requires x > 0.0 && y > 0.0
    ensures Mul(x, y) > 0.0
  {
  }

  /** An alpha blend a*alpha + b*(1 - alpha) with alpha in [0, 1] lies between a and b. */
  lemma BlendBetween(a: real, b: real, alpha: real)
    requires 0.0 <= alpha <= 1.0
    ensures var v := Mul(a, alpha) + Mul(b, 1.0 - alpha);
      (a <= b ==> a <= v <= b) && (b <= a ==> b <= v <= a)
  {
    assert Mul(a, alpha) + Mul(b, 1.0 - alpha) == b + (a - b) * alpha;
    if a <= b {
      MulNonneg(b - a, alpha);
      MulNonneg(b - a, 1.0 - alpha);
    } else {
      MulNonneg(a - b, alpha);
      MulNonneg(a - b, 1.0 - alpha);
    }
  }

  lemma MulNonneg(x: real, y: real)
    requires x >= 0.0 && y >= 0.0
    ensures x * y >= 0.0
  {
  }

  /** A byte scaled by a non-negative weight stays between 0 and 255 times that weight. */
  lemma ScaledByte(p: real, wt: real)
    requires 0.0 <= p <= 255.0 && wt >= 0.0
    ensures 0.0 <= Mul(p, wt) <= 255.0 * wt
  {
    MulNonneg(p, wt);
    MulNonneg(255.0 - p, wt);
  }

  lemma LinearBound(p0: real, p1: real, p2: real, p3: real, u0: real, u1: real, u2: real, u3: real)
    requires 0.0 <= p0 <= 255.0 * u0 && 0.0 <= p1 <= 255.0 * u1
    requires 0.0 <= p2 <= 255.0 * u2 && 0.0 <= p3 <= 255.0 * u3
    requires u0 + u1 + u2 + u3 == 1.0
    ensures 0.0 <= p0 + p1 + p2 + p3 <= 255.0
  {
  }

  /** A convex combination of four bytes lies within [0, 255]. */
  lemma ConvexBytes(a: real, b: real, d: real, e: real, u0: real, u1: real, u2: real, u3: real)
    requires 0.0 <= a <= 255.0 && 0.0 <= b <= 255.0 && 0.0 <= d <= 255.0 && 0.0 <= e <= 255.0
    requires u0 >= 0.0 && u1 >= 0.0 && u2 >= 0.0 && u3 >= 0.0
    requires u0 + u1 + u2 + u3 == 1.0
    ensures 0.0 <= a * u0 + b * u1 + d * u2 + e * u3 <= 255.0
  {
    ScaledByte(a, u0);
    ScaledByte(b, u1);
    ScaledByte(d, u2);
    ScaledByte(e, u3);
    LinearBound(Mul(a, u0), Mul(b, u1), Mul(d, u2), Mul(e, u3), u0, u1, u2, u3);
  }
}
