/**
 * The axis-aligned bounding box of the light tree: merging, the squared
 * distance to a point, and re-expressing a box in the tangent frame of a
 * shading point (lc_aabb.h).
 */
module Aabb {
  import opened Vec

  datatype AABB = AABB(min: Vec3, max: Vec3)

  /** Every axis has min <= max. */
  predicate Ordered(b: AABB)
  {
    AllLessEq(b.min, b.max)
  }

  predicate Contains(b: AABB, p: Vec3)
  {
    AllLessEq(b.min, p) && AllLessEq(p, b.max)
  }

  /** `outer` contains `inner` on every axis. */
  predicate Encloses(outer: AABB, inner: AABB)
  {
    AllLessEq(outer.min, inner.min) && AllLessEq(inner.max, outer.max)
  }

  /**
   * AABB::merge: on every axis the lower bound is the smaller of the two
   * lower bounds and the upper bound the larger of the two upper bounds.
   */
  function Merge(a: AABB, b: AABB): (r: AABB)
    ensures Encloses(r, a) && Encloses(r, b)
    ensures forall k :: 0 <= k < 3 ==> (r.min.At(k) == a.min.At(k) || r.min.At(k) == b.min.At(k))
    ensures forall k :: 0 <= k < 3 ==> (r.max.At(k) == a.max.At(k) || r.max.At(k) == b.max.At(k))
  {
    AABB(Min(a.min, b.min), Max(a.max, b.max))
  }

  lemma MergeCommutative(a: AABB, b: AABB)
    ensures Merge(a, b) == Merge(b, a)
  {
  }

  lemma MergeAssociative(a: AABB, b: AABB, c: AABB)
    ensures Merge(Merge(a, b), c) == Merge(a, Merge(b, c))
  {
  }

  lemma MergeIdempotent(a: AABB)
    ensures Merge(a, a) == a
  {
  }

  /** Merge is the least box enclosing both: any box enclosing both encloses it. */
  lemma MergeIsLeast(a: AABB, b: AABB, c: AABB)
    requires Encloses(c, a) && Encloses(c, b)
    ensures Encloses(c, Merge(a, b))
  {
  }

  /** The degenerate box [p, p] of a single light position. */
  function Point(p: Vec3): (r: AABB)
    ensures Ordered(r) && Contains(r, p)
    ensures forall q :: Contains(r, q) <==> q == p
  {
    AABB(p, p)
  }

  lemma MergeOrdered(a: AABB, b: AABB)
    requires Ordered(a) && Ordered(b)
    ensures Ordered(Merge(a, b))
  {
  }

  /**
   * AABB::dist_sqr: the squared distance from `p` to the point of the box
   * closest to it, found by clamping `p` into the box.
   */
  function DistSqr(b: AABB, p: Vec3): (r: real)
    ensures r >= 0.0
  {
    Length2NonNegative(Sub(p, Clamp(p, b.min, b.max)));
    Length2(Sub(p, Clamp(p, b.min, b.max)))
  }

  lemma ClampInside(v: real, lo: real, hi: real)
    requires lo <= hi
    ensures lo <= ClampR(v, lo, hi) <= hi
    ensures ClampR(v, lo, hi) == v <==> lo <= v <= hi
  {
  }

  lemma MulMonotone(a: real, b: real, c: real)
    requires a <= b && c >= 0.0
    ensures a * c <= b * c
  {
  }

  lemma SquareMonotone(a: real, b: real)
    requires 0.0 <= a <= b
    ensures a * a <= b * b
  {
    calc {
      a * a;
    <=  { MulMonotone(a, b, a); }
      b * a;
    ==
      a * b;
    <=  { MulMonotone(a, b, b); }
      b * b;
    }
  }

  lemma SquareOfNegation(a: real)
    ensures (-a) * (-a) == a * a
  {
  }

  /** On one axis the clamped coordinate is at least as close as any coordinate in range. */
  lemma ClampClosest(v: real, lo: real, hi: real, q: real)
    requires lo <= q <= hi
    ensures (v - ClampR(v, lo, hi)) * (v - ClampR(v, lo, hi)) <= (v - q) * (v - q)
  {
    var c := ClampR(v, lo, hi);
    if v < lo {
      var a, b := lo - v, q - v;
      SquareMonotone(a, b);
      SquareOfNegation(a);
      SquareOfNegation(b);
      assert v - c == -a && v - q == -b;
    } else if v > hi {
      var a, b := v - hi, v - q;
      SquareMonotone(a, b);
      assert v - c == a;
    } else {
      calc {
        (v - c) * (v - c);
      ==
        0.0;
      <=  { SquareNonNegative(v - q); }
        (v - q) * (v - q);
      }
    }
  }

  /** Clamping leaves a point where it is exactly when the point lies in the box. */
  lemma ClampFixed(b: AABB, p: Vec3)
    requires Ordered(b)
    ensures Sub(p, Clamp(p, b.min, b.max)) == Zero <==> Contains(b, p)
  {
    ClampInside(p.x, b.min.x, b.max.x);
    ClampInside(p.y, b.min.y, b.max.y);
    ClampInside(p.z, b.min.z, b.max.z);
  }

  /** For an ordered box the distance is zero exactly when the point lies in the box. */
  lemma DistSqrZeroIffInside(b: AABB, p: Vec3)
    requires Ordered(b)
    ensures DistSqr(b, p) == 0.0 <==> Contains(b, p)
  {
    ClampFixed(b, p);
    Length2Zero(Sub(p, Clamp(p, b.min, b.max)));
  }

  /** Squared lengths compare like their per-axis squares. */
  lemma Length2Le(u: Vec3, w: Vec3)
    requires u.x * u.x <= w.x * w.x && u.y * u.y <= w.y * w.y && u.z * u.z <= w.z * w.z
    ensures Length2(u) <= Length2(w)
  {
    calc {
      Length2(u);
    ==
      u.x * u.x + u.y * u.y + u.z * u.z;
    <=
      w.x * w.x + w.y * w.y + w.z * w.z;
    ==
      Length2(w);
    }
  }

  /**
   * For an ordered box, dist_sqr is the brute-force closest-point distance:
   * it is attained by a point of the box and no point of the box is closer.
   */
  lemma DistSqrIsClosest(b: AABB, p: Vec3, q: Vec3)
    requires Ordered(b) && Contains(b, q)
    ensures Contains(b, Clamp(p, b.min, b.max))
    ensures DistSqr(b, p) == Distance2(Clamp(p, b.min, b.max), p)
    ensures DistSqr(b, p) <= Distance2(q, p)
  {
    var c := Clamp(p, b.min, b.max);
    ClampInside(p.x, b.min.x, b.max.x);
    ClampInside(p.y, b.min.y, b.max.y);
    ClampInside(p.z, b.min.z, b.max.z);
    var u, w := Sub(p, c), Sub(p, q);
    assert u.x * u.x <= w.x * w.x by { ClampClosest(p.x, b.min.x, b.max.x, q.x); }
    assert u.y * u.y <= w.y * w.y by { ClampClosest(p.y, b.min.y, b.max.y, q.y); }
    assert u.z * u.z <= w.z * w.z by { ClampClosest(p.z, b.min.z, b.max.z, q.z); }
    Length2Le(u, w);
  }

  // ---------------------------------------------------------------------------
  // AABB::align

  /** A real square root supplied from outside: positive for positive arguments. */
  ghost predicate PositiveRoot(sqrt: real -> real)
  {
    forall v :: v > 0.0 ==> sqrt(v) > 0.0
  }

  /** glm::mat3 K(0, k.z, -k.y, -k.z, 0, k.x, k.y, -k.x, 0): the cross-product matrix of k. */
  function CrossMatrix(k: Vec3): Mat3
  {
    Mat3(Vec3(0.0, k.z, -k.y), Vec3(-k.z, 0.0, k.x), Vec3(k.y, -k.x, 0.0))
  }

  /** The flip matrix m[0][0] = m[2][2] = -1 used when n is anti-parallel to z. */
  const Flip := Mat3(Vec3(-1.0, 0.0, 0.0), Vec3(0.0, 1.0, 0.0), Vec3(0.0, 0.0, -1.0))

  /** n.x^2 + n.y^2, the squared length of n x z. */
  function CrossSq(n: Vec3): real { n.y * n.y + n.x * n.x }

  /**
   * The general branch of AABB::align: the Rodrigues rotation
   * I + K + (1 - n.z) / |n x z|^2 * K^2, with K the cross-product matrix of
   * the unit vector along n x z.
   */
  function Rodrigues(n: Vec3, sqrt: real -> real): Mat3
    requires PositiveRoot(sqrt)
    requires CrossSq(n) >= 0.01
  {
    var crossSq := CrossSq(n);
    var k := Scale(1.0 / sqrt(crossSq), Vec3(n.y, -n.x, 0.0));
    var kk := CrossMatrix(k);
    MAdd(Identity, MAdd(kk, MScale((1.0 - n.z) / crossSq, MMul(kk, kk))))
  }

  /**
   * The matrix built by AABB::align for normal `n`: close to the z axis
   * (n.x^2 + n.y^2 < 0.01) it is the identity or the flip, and no division
   * happens; otherwise it is the Rodrigues rotation.
   */
  function AlignMatrix(n: Vec3, sqrt: real -> real): (m: Mat3)
    requires PositiveRoot(sqrt)
    ensures CrossSq(n) < 0.01 && n.z >= 0.0 ==> m == Identity
    ensures CrossSq(n) < 0.01 && n.z < 0.0 ==> m == Flip
  {
    if CrossSq(n) < 0.01 then
      (if n.z < 0.0 then Flip else Identity)
    else
      Rodrigues(n, sqrt)
  }

  /** min(m[j][i] * lo[j], m[j][i] * hi[j]), written as the loop's `a < b ? a : b`. */
  function LowTerm(m: Mat3, lo: Vec3, hi: Vec3, j: nat, i: nat): real
    requires j < 3 && i < 3
  {
    var a := m.At(j, i) * lo.At(j);
    var c := m.At(j, i) * hi.At(j);
    if a < c then a else c
  }

  /** max(m[j][i] * lo[j], m[j][i] * hi[j]), written as the loop's `a < b ? b : a`. */
  function HighTerm(m: Mat3, lo: Vec3, hi: Vec3, j: nat, i: nat): real
    requires j < 3 && i < 3
  {
    var a := m.At(j, i) * lo.At(j);
    var c := m.At(j, i) * hi.At(j);
    if a < c then c else a
  }

  /** Row `i` of the lower corner once columns j < upTo have been added. */
  function RowMin(m: Mat3, lo: Vec3, hi: Vec3, i: nat, upTo: nat): real
    requires i < 3 && upTo <= 3
  {
    (if 0 < upTo then LowTerm(m, lo, hi, 0, i) else 0.0)
    + (if 1 < upTo then LowTerm(m, lo, hi, 1, i) else 0.0)
    + (if 2 < upTo then LowTerm(m, lo, hi, 2, i) else 0.0)
  }

  /** Row `i` of the upper corner once columns j < upTo have been added. */
  function RowMax(m: Mat3, lo: Vec3, hi: Vec3, i: nat, upTo: nat): real
    requires i < 3 && upTo <= 3
  {
    (if 0 < upTo then HighTerm(m, lo, hi, 0, i) else 0.0)
    + (if 1 < upTo then HighTerm(m, lo, hi, 1, i) else 0.0)
    + (if 2 < upTo then HighTerm(m, lo, hi, 2, i) else 0.0)
  }

  /** The box bounding the image of the corners [lo, hi] under `m`, row by row. */
  function Transform(m: Mat3, lo: Vec3, hi: Vec3): AABB
  {
    AABB(Vec3(RowMin(m, lo, hi, 0, 3), RowMin(m, lo, hi, 1, 3), RowMin(m, lo, hi, 2, 3)),
         Vec3(RowMax(m, lo, hi, 0, 3), RowMax(m, lo, hi, 1, 3), RowMax(m, lo, hi, 2, 3)))
  }

  /** What AABB::align returns for box `b`, point `p` and normal `n`. */
  function AlignSpec(b: AABB, p: Vec3, n: Vec3, sqrt: real -> real): AABB
    requires PositiveRoot(sqrt)
  {
    Transform(AlignMatrix(n, sqrt), Sub(b.min, p), Sub(b.max, p))
  }

  lemma TermOrdered(m: Mat3, lo: Vec3, hi: Vec3, j: nat, i: nat)
    requires j < 3 && i < 3
    ensures LowTerm(m, lo, hi, j, i) <= HighTerm(m, lo, hi, j, i)
  {
  }

  lemma RowOrdered(m: Mat3, lo: Vec3, hi: Vec3, i: nat, upTo: nat)
    requires i < 3 && upTo <= 3
    ensures RowMin(m, lo, hi, i, upTo) <= RowMax(m, lo, hi, i, upTo)
  {
    TermOrdered(m, lo, hi, 0, i);
    TermOrdered(m, lo, hi, 1, i);
    TermOrdered(m, lo, hi, 2, i);
  }

  /** Whatever the box, point and normal, the aligned box has min <= max on every axis. */
  lemma AlignOrdered(b: AABB, p: Vec3, n: Vec3, sqrt: real -> real)
    requires PositiveRoot(sqrt)
    ensures Ordered(AlignSpec(b, p, n, sqrt))
  {
    var m := AlignMatrix(n, sqrt);
    RowOrdered(m, Sub(b.min, p), Sub(b.max, p), 0, 3);
    RowOrdered(m, Sub(b.min, p), Sub(b.max, p), 1, 3);
    RowOrdered(m, Sub(b.min, p), Sub(b.max, p), 2, 3);
  }

  /**
   * Near the +z axis the matrix is the identity, so the box comes back
   * translated by -p, with each axis's corners put in order; an ordered box
   * is just translated.
   */
  lemma AlignNearPlusZ(b: AABB, p: Vec3, n: Vec3, sqrt: real -> real)
    requires PositiveRoot(sqrt)
    requires CrossSq(n) < 0.01 && n.z >= 0.0
    ensures var lo, hi := Sub(b.min, p), Sub(b.max, p);
      AlignSpec(b, p, n, sqrt) == AABB(Min(lo, hi), Max(lo, hi))
    ensures Ordered(b) ==> AlignSpec(b, p, n, sqrt) == AABB(Sub(b.min, p), Sub(b.max, p))
  {
    var lo, hi := Sub(b.min, p), Sub(b.max, p);
    var m := Identity;
    assert RowMin(m, lo, hi, 0, 3) == MinR(lo.x, hi.x) && RowMax(m, lo, hi, 0, 3) == MaxR(lo.x, hi.x);
    assert RowMin(m, lo, hi, 1, 3) == MinR(lo.y, hi.y) && RowMax(m, lo, hi, 1, 3) == MaxR(lo.y, hi.y);
    assert RowMin(m, lo, hi, 2, 3) == MinR(lo.z, hi.z) && RowMax(m, lo, hi, 2, 3) == MaxR(lo.z, hi.z);
  }

  /**
   * Near the -z axis the matrix is diag(-1, 1, -1): x and z are mirrored
   * and y kept, each axis's corners put in order.
   */
  lemma AlignNearMinusZ(b: AABB, p: Vec3, n: Vec3, sqrt: real -> real)
    requires PositiveRoot(sqrt)
    requires CrossSq(n) < 0.01 && n.z < 0.0
    ensures var lo, hi := Sub(b.min, p), Sub(b.max, p);
      AlignSpec(b, p, n, sqrt)
      == AABB(Vec3(-MaxR(lo.x, hi.x), MinR(lo.y, hi.y), -MaxR(lo.z, hi.z)),
              Vec3(-MinR(lo.x, hi.x), MaxR(lo.y, hi.y), -MinR(lo.z, hi.z)))
    ensures Ordered(b) ==>
      AlignSpec(b, p, n, sqrt)
      == AABB(Vec3(p.x - b.max.x, b.min.y - p.y, p.z - b.max.z),
              Vec3(p.x - b.min.x, b.max.y - p.y, p.z - b.min.z))
  {
    var lo, hi := Sub(b.min, p), Sub(b.max, p);
    var m := Flip;
    assert RowMin(m, lo, hi, 0, 3) == -MaxR(lo.x, hi.x) && RowMax(m, lo, hi, 0, 3) == -MinR(lo.x, hi.x);
    assert RowMin(m, lo, hi, 1, 3) == MinR(lo.y, hi.y) && RowMax(m, lo, hi, 1, 3) == MaxR(lo.y, hi.y);
    assert RowMin(m, lo, hi, 2, 3) == -MaxR(lo.z, hi.z) && RowMax(m, lo, hi, 2, 3) == -MinR(lo.z, hi.z);
  }

  /** Adding column j to row i takes the partial sums from j to j + 1 columns. */
  lemma RowStep(m: Mat3, lo: Vec3, hi: Vec3, i: nat, j: nat)
    requires i < 3 && j < 3
    ensures RowMin(m, lo, hi, i, j + 1) == RowMin(m, lo, hi, i, j) + LowTerm(m, lo, hi, j, i)
    ensures RowMax(m, lo, hi, i, j + 1) == RowMax(m, lo, hi, i, j) + HighTerm(m, lo, hi, j, i)
  {
  }

  /**
   * AABB::align: builds the matrix, then accumulates, column by column and
   * row by row, the smaller and larger image of the two translated corners.
   */
  method Align(b: AABB, p: Vec3, n: Vec3, sqrt: real -> real) returns (r: AABB)
    requires PositiveRoot(sqrt)
    ensures r == AlignSpec(b, p, n, sqrt)
    ensures Ordered(r)
  {
    var m := AlignMatrix(n, sqrt);
    var lo := Sub(b.min, p);
    var hi := Sub(b.max, p);
    var mins := [0.0, 0.0, 0.0];
    var maxs := [0.0, 0.0, 0.0];
    for j := 0 to 3
      invariant |mins| == 3 && |maxs| == 3
      invariant forall i :: 0 <= i < 3 ==> mins[i] == RowMin(m, lo, hi, i, j)
      invariant forall i :: 0 <= i < 3 ==> maxs[i] == RowMax(m, lo, hi, i, j)
    {
      for i := 0 to 3
        invariant |mins| == 3 && |maxs| == 3
        invariant forall i' :: 0 <= i' < i ==> mins[i'] == RowMin(m, lo, hi, i', j + 1)
        invariant forall i' :: 0 <= i' < i ==> maxs[i'] == RowMax(m, lo, hi, i', j + 1)
        invariant forall i' :: i <= i' < 3 ==> mins[i'] == RowMin(m, lo, hi, i', j)
        invariant forall i' :: i <= i' < 3 ==> maxs[i'] == RowMax(m, lo, hi, i', j)
      {
        RowStep(m, lo, hi, i, j);
        mins := mins[i := mins[i] + LowTerm(m, lo, hi, j, i)];
        maxs := maxs[i := maxs[i] + HighTerm(m, lo, hi, j, i)];
      }
    }
    r := AABB(Vec3(mins[0], mins[1], mins[2]), Vec3(maxs[0], maxs[1], maxs[2]));
    AlignOrdered(b, p, n, sqrt);
  }
}
