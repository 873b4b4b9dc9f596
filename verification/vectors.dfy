/** Vectors in 3-space: `Vector`/`DefaultVector` and the parallel
    `Vector3D`/`DefaultVector3D` hierarchy share one datatype, since every
    operation is written identically in both. */
module Vectors {

  datatype Vec = Vec(x: real, y: real, z: real)

  const Zero := Vec(0.0, 0.0, 0.0)

  /** Component-wise sum. */
  function Add(a: Vec, b: Vec): (r: Vec)
    ensures r.x - a.x == b.x && r.y - a.y == b.y && r.z - a.z == b.z
  {
    Vec(a.x + b.x, a.y + b.y, a.z + b.z)
  }

  /** `a.subtract(b)`: the implementation yields b - a, with the operands
      reversed relative to the arithmetic interface's description. */
  function Subtract(a: Vec, b: Vec): (r: Vec)
    ensures Add(a, r) == b
  {
    Vec(b.x - a.x, b.y - a.y, b.z - a.z)
  }

  /** Component-wise (Hadamard) product; its components add up to the dot
      product. */
  function Multiply(a: Vec, b: Vec): (r: Vec)
    ensures r.x + r.y + r.z == Dot(a, b)
    ensures a == Zero || b == Zero ==> r == Zero
  {
    Vec(b.x * a.x, b.y * a.y, b.z * a.z)
  }

  function Negate(a: Vec): Vec
  {
    Vec(-a.x, -a.y, -a.z)
  }

  function Cross(a: Vec, b: Vec): Vec
  {
    Vec(a.y * b.z - a.z * b.y,
        a.z * b.x - a.x * b.z,
        a.x * b.y - a.y * b.x)
  }

  function Dot(a: Vec, b: Vec): real
  {
    a.x * b.x + a.y * b.y + a.z * b.z
  }

  /** The radicand of `length()`: the sum of the squared components. */
  function LengthSquared(a: Vec): (r: real)
    ensures r >= 0.0
  {
    a.x * a.x + a.y * a.y + a.z * a.z
  }

  /** `sqrt` stands for `Math.sqrt`, which the model does not interpret. */
  ghost predicate IsSqrt(sqrt: real -> real)
  {
    forall q :: q >= 0.0 ==> sqrt(q) >= 0.0 && sqrt(q) * sqrt(q) == q
  }

  /** `length()`: the square root of the sum of squared components. */
  function Length(sqrt: real -> real, a: Vec): (r: real)
    ensures IsSqrt(sqrt) ==> r >= 0.0 && r * r == LengthSquared(a)
  {
    sqrt(LengthSquared(a))
  }

  /** The clamp `angleBetween` applies to the cosine before `acos`, so that
      rounding can never push it outside the domain of `acos`. */
  function Clamp(cos: real): (c: real)
    ensures -1.0 <= c <= 1.0
    ensures -1.0 <= cos <= 1.0 ==> c == cos
    ensures cos < -1.0 ==> c == -1.0
    ensures cos > 1.0 ==> c == 1.0
  {
    if cos < -1.0 then -1.0 else if cos > 1.0 then 1.0 else cos
  }

  /** The cosine of the angle between two vectors, as `angleBetween` divides it out. */
  function Cosine(sqrt: real -> real, a: Vec, b: Vec): real
    requires Length(sqrt, a) * Length(sqrt, b) != 0.0
  {
    Dot(a, b) / (Length(sqrt, a) * Length(sqrt, b))
  }

  /** `angleBetween(other)`; `acos` stands for `Math.acos`. The source requires
      both vectors to have non-zero length. */
  function AngleBetween(sqrt: real -> real, acos: real -> real, a: Vec, b: Vec): (r: real)
    requires Length(sqrt, a) * Length(sqrt, b) != 0.0
    ensures exists c :: -1.0 <= c <= 1.0 && r == acos(c)
    ensures -1.0 <= Cosine(sqrt, a, b) <= 1.0 ==> r == acos(Cosine(sqrt, a, b))
  {
    acos(Clamp(Cosine(sqrt, a, b)))
  }

  // ---------------------------------------------------------------------
  // Algebraic properties

  /** `add` and `subtract` undo each other, and the sum does not depend on
      the order of the operands or change under the zero vector. */
  lemma AddLaws(a: Vec, b: Vec)
    ensures Subtract(a, Add(a, b)) == b
    ensures Add(a, Subtract(a, b)) == b
    ensures Add(a, b) == Add(b, a)
    ensures Add(a, Zero) == a
    ensures Add(a, Negate(a)) == Zero
  {
  }

  lemma DotSymmetric(a: Vec, b: Vec)
    ensures Dot(a, b) == Dot(b, a)
  {
  }

  lemma DotSelfIsLengthSquared(a: Vec)
    ensures Dot(a, a) == LengthSquared(a) >= 0.0
  {
  }

  lemma MultiplyCommutative(a: Vec, b: Vec)
    ensures Multiply(a, b) == Multiply(b, a)
  {
  }

  lemma SubtractIsReversedDifference(a: Vec, b: Vec)
    ensures Subtract(a, b) == Add(b, Negate(a))
    ensures Subtract(a, a) == Zero
  {
  }

  lemma CrossAntisymmetric(a: Vec, b: Vec)
    ensures Cross(a, b) == Negate(Cross(b, a))
    ensures Cross(a, a) == Zero
  {
  }

  /** The cross product is perpendicular to both operands. */
  lemma CrossPerpendicular(a: Vec, b: Vec)
    ensures Dot(a, Cross(a, b)) == 0.0
    ensures Dot(b, Cross(a, b)) == 0.0
  {
  }

  /** Lagrange's identity: |a|^2 |b|^2 - (a.b)^2 == |a x b|^2. */
  lemma Lagrange(a: Vec, b: Vec)
    ensures LengthSquared(a) * LengthSquared(b) - Dot(a, b) * Dot(a, b) == LengthSquared(Cross(a, b))
  {
  }

  /** Cauchy-Schwarz: with a true square root, |a.b| <= |a| |b|, so in exact
      arithmetic the clamp in `angleBetween` never changes the cosine. */
  lemma ClampIsExactWithTrueSqrt(sqrt: real -> real, acos: real -> real, a: Vec, b: Vec)
    requires IsSqrt(sqrt)
    requires Length(sqrt, a) * Length(sqrt, b) != 0.0
    ensures -1.0 <= Cosine(sqrt, a, b) <= 1.0
    ensures AngleBetween(sqrt, acos, a, b) == acos(Cosine(sqrt, a, b))
  {
    var la, lb, d := Length(sqrt, a), Length(sqrt, b), Dot(a, b);
    var p := la * lb;
    CauchySchwarz(a, b);
    ProductSquare(la, lb);
    assert p * p == LengthSquared(a) * LengthSquared(b);
    assert p >= 0.0 by { NonNegProduct(la, lb); }
    SquareBound(d, p);
    CosineBound(sqrt, a, b, d, p);
  }

  /** The cosine is the dot product over the product of the lengths, so a
      dot product bounded by that product gives a cosine in [-1, 1]. */
  lemma CosineBound(sqrt: real -> real, a: Vec, b: Vec, d: real, p: real)
    requires p == Length(sqrt, a) * Length(sqrt, b) && d == Dot(a, b)
    requires p > 0.0 && -p <= d <= p
    ensures -1.0 <= Cosine(sqrt, a, b) <= 1.0
  {
    DivBound(d, p);
  }

  lemma NonNegProduct(p: real, q: real)
    requires p >= 0.0 && q >= 0.0
    ensures p * q >= 0.0
  {
  }

  lemma DivBound(d: real, p: real)
    requires p > 0.0 && -p <= d <= p
    ensures -1.0 <= d / p <= 1.0
  {
  }

  /** (a.b)^2 <= |a|^2 |b|^2, from Lagrange's identity. */
  lemma CauchySchwarz(a: Vec, b: Vec)
    ensures Dot(a, b) * Dot(a, b) <= LengthSquared(a) * LengthSquared(b)
  {
    Lagrange(a, b);
  }

  lemma ProductSquare(p: real, q: real)
    ensures (p * q) * (p * q) == (p * p) * (q * q)
  {
  }

  lemma SquareBound(d: real, p: real)
    requires p >= 0.0 && d * d <= p * p
    ensures -p <= d <= p
  {
    if d > p {
      MulStrict(d, p);
    } else if d < -p {
      MulStrict(-d, p);
    }
  }

  lemma MulStrict(d: real, p: real)
    requires d > p >= 0.0
    ensures d * d > p * p
  {
    assert d * d - d * p == d * (d - p);
    assert d * (d - p) > 0.0;
    assert d * p - p * p == (d - p) * p;
    assert (d - p) * p >= 0.0;
  }
}
