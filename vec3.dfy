/**
 * Three-component vectors and 3x3 matrices over the reals, standing for
 * glm::vec3 and glm::mat3 (floating-point rounding is not modelled).
 */
module Vec {

  datatype Vec3 = Vec3(x: real, y: real, z: real) {

    /** Component `k` (0 = x, 1 = y, 2 = z), as `v[k]` in glm. */
    function At(k: nat): real
      requires k < 3
    {
      if k == 0 then x else if k == 1 then y else z
    }
  }

  const Zero := Vec3(0.0, 0.0, 0.0)

  function Splat(s: real): Vec3 { Vec3(s, s, s) }

  function Add(a: Vec3, b: Vec3): Vec3 { Vec3(a.x + b.x, a.y + b.y, a.z + b.z) }

  function Sub(a: Vec3, b: Vec3): Vec3 { Vec3(a.x - b.x, a.y - b.y, a.z - b.z) }

  /** Component-wise product, as `a * b` on two glm vectors. */
  function Mul(a: Vec3, b: Vec3): Vec3 { Vec3(a.x * b.x, a.y * b.y, a.z * b.z) }

  function Scale(s: real, a: Vec3): Vec3 { Vec3(s * a.x, s * a.y, s * a.z) }

  function MinR(a: real, b: real): real { if a < b then a else b }

  function MaxR(a: real, b: real): real { if a < b then b else a }

  /** glm::min on vectors: component-wise minimum. */
  function Min(a: Vec3, b: Vec3): Vec3 { Vec3(MinR(a.x, b.x), MinR(a.y, b.y), MinR(a.z, b.z)) }

  /** glm::max on vectors: component-wise maximum. */
  function Max(a: Vec3, b: Vec3): Vec3 { Vec3(MaxR(a.x, b.x), MaxR(a.y, b.y), MaxR(a.z, b.z)) }

  /** glm::clamp on scalars: min(max(v, lo), hi). */
  function ClampR(v: real, lo: real, hi: real): real { MinR(MaxR(v, lo), hi) }

  function Clamp(v: Vec3, lo: Vec3, hi: Vec3): Vec3
  {
    Vec3(ClampR(v.x, lo.x, hi.x), ClampR(v.y, lo.y, hi.y), ClampR(v.z, lo.z, hi.z))
  }

  function Dot(a: Vec3, b: Vec3): real { a.x * b.x + a.y * b.y + a.z * b.z }

  /** glm::length2: the squared Euclidean length. */
  function Length2(a: Vec3): real { a.x * a.x + a.y * a.y + a.z * a.z }

  /** glm::distance2: the squared distance between two points. */
  function Distance2(a: Vec3, b: Vec3): real { Length2(Sub(b, a)) }

  /** Component-wise `a <= b` on every axis (glm::all(glm::lessThanEqual(a, b))). */
  predicate AllLessEq(a: Vec3, b: Vec3) { a.x <= b.x && a.y <= b.y && a.z <= b.z }

  lemma SquareNonNegative(r: real)
    ensures r * r >= 0.0
  {
  }

  lemma SquarePositive(r: real)
    requires r != 0.0
    ensures r * r > 0.0
  {
  }

  lemma SumOfSquaresPositive(x: real, y: real, z: real)
    requires x != 0.0 || y != 0.0 || z != 0.0
    ensures x * x + y * y + z * z > 0.0
  {
    SquareNonNegative(x);
    SquareNonNegative(y);
    SquareNonNegative(z);
    if x != 0.0 {
      SquarePositive(x);
    } else if y != 0.0 {
      SquarePositive(y);
    } else {
      SquarePositive(z);
    }
  }

  // The calculations below keep each nonlinear step on its own line, where
  // the solver proves it directly from the lemma named in the hint.

  lemma Length2NonNegative(a: Vec3)
    ensures Length2(a) >= 0.0
  {
    calc {
      Length2(a);
    ==
      a.x * a.x + a.y * a.y + a.z * a.z;
    >=  { SquareNonNegative(a.x); SquareNonNegative(a.y); SquareNonNegative(a.z); }
      0.0;
    }
  }

  lemma Length2Positive(a: Vec3)
    requires a.x != 0.0 || a.y != 0.0 || a.z != 0.0
    ensures Length2(a) > 0.0
  {
    calc {
      Length2(a);
    ==
      a.x * a.x + a.y * a.y + a.z * a.z;
    >  { SumOfSquaresPositive(a.x, a.y, a.z); }
      0.0;
    }
  }

  /** A squared length is zero exactly for the zero vector. */
  lemma Length2Zero(a: Vec3)
    ensures Length2(a) == 0.0 <==> a == Zero
  {
    Length2NonNegative(a);
    if a != Zero {
      Length2Positive(a);
    }
  }

  /**
   * A 3x3 matrix stored column by column as in glm: `m[j][i]` is row `i` of
   * column `j`.
   */
  datatype Mat3 = Mat3(c0: Vec3, c1: Vec3, c2: Vec3) {
    function Col(j: nat): Vec3
      requires j < 3
    {
      if j == 0 then c0 else if j == 1 then c1 else c2
    }

    function At(j: nat, i: nat): real
      requires j < 3 && i < 3
    {
      Col(j).At(i)
    }
  }

  /** glm::mat3(1.f) */
  const Identity := Mat3(Vec3(1.0, 0.0, 0.0), Vec3(0.0, 1.0, 0.0), Vec3(0.0, 0.0, 1.0))

  function MAdd(a: Mat3, b: Mat3): Mat3 { Mat3(Add(a.c0, b.c0), Add(a.c1, b.c1), Add(a.c2, b.c2)) }

  function MScale(s: real, a: Mat3): Mat3 { Mat3(Scale(s, a.c0), Scale(s, a.c1), Scale(s, a.c2)) }

  /** Matrix times column vector. */
  function MApply(a: Mat3, v: Vec3): Vec3
  {
    Add(Add(Scale(v.x, a.c0), Scale(v.y, a.c1)), Scale(v.z, a.c2))
  }

  /** glm's matrix product: column `j` of `a * b` is `a` applied to column `j` of `b`. */
  function MMul(a: Mat3, b: Mat3): Mat3 { Mat3(MApply(a, b.c0), MApply(a, b.c1), MApply(a, b.c2)) }
}
