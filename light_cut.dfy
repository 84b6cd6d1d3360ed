/**
 * LightCut: evaluating a light tree at a path vertex. A cut through the
 * tree starts at the root; while it is smaller than MAX_CUT, the cluster
 * with the largest error bound is replaced by its two children, until that
 * cluster is a leaf or its error bound is below THRESHOLD times the
 * current estimate. The clusters' estimates sum to the radiance estimate.
 */
module LightCut {
  import opened Opt
  import opened Vec
  import opened Aabb
  import opened LightTreeNode
  import opened KdTree
  import opened LightTreeBuild

  /** The largest cut eval refines to. */
  const MAX_CUT: nat := 1000
  /** The relative error at which refinement stops (0.02f). */
  const THRESHOLD: real := 0.02
  /** std::numeric_limits<float>::max(), the error bound of a vertex inside a cluster's box. */
  const FLT_MAX: real := 340282346638528859811704183484516925440.0
  /** Squared distances below 0.001f count as inside the box. */
  const NEAR: real := 0.001

  /** The path vertex being shaded: hit point, shading normal, whether the path escaped, throughput. */
  datatype Vertex = Vertex(p: Vec3, n: Vec3, escaped: bool, throughput: Vec3)

  /** LightCluster: a tree node in the cut with its estimate and error bound. */
  datatype LightCluster = LightCluster(node: nat, estimate: Vec3, error: Vec3)
  {
    /** The heap key: the squared length of the error bound. */
    function Cost(): real
    {
      Length2(error)
    }
  }

  function MinNat(a: nat, b: nat): nat
  {
    if a < b then a else b
  }

  // ---------------------------------------------------------------------------
  // Estimates

  /**
   * calc_estimate: the cluster intensity times what the representative
   * light contributes per unit intensity at the vertex. `shade(i)` is that
   * contribution of light i, the BRDF times the geometric term, or zero when
   * the shadow ray towards it is occluded.
   */
  function CalcEstimate(node: Node, shade: nat -> Vec3): Vec3
  {
    Mul(node.intensity, shade(node.light))
  }

  function ReuseAxis(prev: real, parent: real, current: real): real
  {
    if parent > 0.0 then prev / parent * current else 0.0
  }

  /**
   * reuse_estimate: rescale the parent's estimate per colour channel by the
   * ratio of the child's intensity to the parent's; a channel where the
   * parent's intensity is not positive gets zero.
   */
  function ReuseEstimate(prev: Vec3, parent: Vec3, current: Vec3): Vec3
  {
    Vec3(ReuseAxis(prev.x, parent.x, current.x), ReuseAxis(prev.y, parent.y, current.y),
         ReuseAxis(prev.z, parent.z, current.z))
  }

  /**
   * The estimate push_cluster computes for node `k`: reused from the parent's
   * estimate `prev` when the parent has the same representative light,
   * computed afresh otherwise (always for the root, which has no parent).
   */
  function PushEstimate(nodes: seq<Node>, k: nat, parent: Option<nat>, prev: Vec3, shade: nat -> Vec3): Vec3
    requires k < |nodes| && (parent.Some? ==> parent.value < |nodes|)
  {
    if parent.Some? && nodes[k].light == nodes[parent.value].light then
      ReuseEstimate(prev, nodes[parent.value].intensity, nodes[k].intensity)
    else
      CalcEstimate(nodes[k], shade)
  }

  /** Reuse on one channel is exact where the parent's intensity is positive or the child's is zero. */
  lemma ReuseAxisExact(parent: real, current: real, s: real)
    requires parent > 0.0 || current == 0.0
    ensures ReuseAxis(parent * s, parent, current) == current * s
  {
    if parent > 0.0 {
      assert parent * s / parent == s;
    }
  }

  /** Reuse is exact on every channel where the parent's intensity is positive or the child's is zero. */
  lemma ReuseExact(parent: Vec3, current: Vec3, s: Vec3)
    requires parent.x > 0.0 || current.x == 0.0
    requires parent.y > 0.0 || current.y == 0.0
    requires parent.z > 0.0 || current.z == 0.0
    ensures ReuseEstimate(Mul(parent, s), parent, current) == Mul(current, s)
  {
    ReuseAxisExact(parent.x, current.x, s.x);
    ReuseAxisExact(parent.y, current.y, s.y);
    ReuseAxisExact(parent.z, current.z, s.z);
  }

  /** All light colours are non-negative on every channel. */
  predicate NonNegativeColors(lights: seq<VirtualLight>)
  {
    forall i :: 0 <= i < |lights| ==> AllLessEq(Zero, lights[i].color)
  }

  /** With non-negative light colours every node's intensity is non-negative. */
  lemma {:induction false} IntensityNonNegative(lights: seq<VirtualLight>, nodes: seq<Node>, k: nat)
    requires WellFormed(lights, nodes) && NonNegativeColors(lights) && k < |nodes|
    ensures AllLessEq(Zero, nodes[k].intensity)
    decreases k
  {
    assert NodeBuilt(lights, nodes, k);
    if nodes[k].left.Some? && nodes[k].right.Some? {
      IntensityNonNegative(lights, nodes, nodes[k].left.value);
      IntensityNonNegative(lights, nodes, nodes[k].right.value);
    }
  }

  /**
   * Reusing the parent's estimate for a child with the same representative
   * light gives exactly what calc_estimate would, when light colours are
   * non-negative: a channel the parent has no intensity on has none in its
   * children either.
   */
  lemma PushEstimateExact(lights: seq<VirtualLight>, nodes: seq<Node>, parent: nat, k: nat, shade: nat -> Vec3)
    requires WellFormed(lights, nodes) && NonNegativeColors(lights)
    requires parent < |nodes| && !IsLeaf(nodes[parent])
    requires k == nodes[parent].left.value || k == nodes[parent].right.value
    ensures k < |nodes|
    ensures PushEstimate(nodes, k, Some(parent), CalcEstimate(nodes[parent], shade), shade) == CalcEstimate(nodes[k], shade)
  {
    assert NodeBuilt(lights, nodes, parent);
    var l, r := nodes[parent].left.value, nodes[parent].right.value;
    assert Sub(nodes[parent].intensity, nodes[r].intensity) == nodes[l].intensity;
    IntensityNonNegative(lights, nodes, l);
    IntensityNonNegative(lights, nodes, r);
    var ip, ik, s := nodes[parent].intensity, nodes[k].intensity, shade(nodes[parent].light);
    assert ip.x > 0.0 || ik.x == 0.0;
    assert ip.y > 0.0 || ik.y == 0.0;
    assert ip.z > 0.0 || ik.z == 0.0;
    if nodes[k].light == nodes[parent].light {
      ReuseExact(ip, ik, s);
    }
  }

  // ---------------------------------------------------------------------------
  // Error bounds

  /** A real square root supplied from outside: exact and non-negative on non-negative arguments. */
  ghost predicate TrueRoot(sqrt: real -> real)
  {
    forall v :: v >= 0.0 ==> sqrt(v) >= 0.0 && sqrt(v) * sqrt(v) == v
  }

  lemma TrueRootIsPositive(sqrt: real -> real)
    requires TrueRoot(sqrt)
    ensures PositiveRoot(sqrt)
  {
    forall v | v > 0.0
      ensures sqrt(v) > 0.0
    {
      assert sqrt(v) * sqrt(v) == v;
    }
  }

  lemma RootPositive(sqrt: real -> real, d: real)
    requires PositiveRoot(sqrt)
    requires d > 0.0
    ensures sqrt(d) > 0.0
  {
  }

  lemma AddSquare(q: real, z: real)
    requires q >= 0.0
    ensures q + z * z >= 0.0
    ensures z != 0.0 ==> q + z * z > 0.0
  {
    SquareNonNegative(z);
    calc {
      q + z * z;
    >=
      z * z;
    >=
      0.0;
    }
    if z != 0.0 {
      SquarePositive(z);
      calc {
        q + z * z;
      >=
        z * z;
      >
        0.0;
      }
    }
  }

  /** qx + qy + z * z for non-negative qx and qy: the squared length bound_cos_theta takes the root of. */
  function NormSquare(qx: real, qy: real, z: real): (d: real)
    requires qx >= 0.0 && qy >= 0.0
    ensures d >= 0.0 && (z != 0.0 ==> d > 0.0)
  {
    AddSquare(qx + qy, z);
    qx + qy + z * z
  }

  /** The smallest square on one axis of the box that bound_cos_theta uses when max.z > 0. */
  function NearSquare(lo: real, hi: real): (q: real)
    ensures q >= 0.0
  {
    var p := ClampR(0.0, lo, hi);
    SquareNonNegative(p);
    SquareNonNegative(lo);
    SquareNonNegative(hi);
    MinR(p * p, MinR(lo * lo, hi * hi))
  }

  /** The largest square on one axis of the box, which bound_cos_theta uses when max.z <= 0. */
  function FarSquare(lo: real, hi: real): (q: real)
    ensures q >= 0.0
  {
    SquareNonNegative(lo);
    MaxR(lo * lo, hi * hi)
  }

  /**
   * bound_cos_theta: for a box in the frame where the normal is +z, an upper
   * bound of the cosine between +z and the directions to the box. The
   * quotient 0 / 0 of a box whose upper corner is the origin, a NaN in
   * floating point that fmaxf(0, .) turns into 0, is 0 here.
   */
  function BoundCosTheta(b: AABB, sqrt: real -> real): real
    requires PositiveRoot(sqrt)
  {
    var m := b.max.z;
    if m > 0.0 then
      var d := NormSquare(NearSquare(b.min.x, b.max.x), NearSquare(b.min.y, b.max.y), m);
      RootPositive(sqrt, d);
      m / sqrt(d)
    else
      var d := NormSquare(FarSquare(b.min.x, b.max.x), FarSquare(b.min.y, b.max.y), m);
      if d > 0.0 then
        RootPositive(sqrt, d);
        m / sqrt(d)
      else 0.0
  }

  /** The BRDF value at the normal that bound_error assumes: one if the path escaped. */
  function BrdfCam(v: Vertex, brdfNormal: Vec3): Vec3
  {
    if v.escaped then Splat(1.0) else brdfNormal
  }

  /**
   * bound_error: no error for a leaf; the largest float for a vertex inside
   * (less than NEAR from) the cluster's box; otherwise the intensity times
   * the BRDF at the normal times the bounded cosine over the squared
   * distance. The light-side cosine is bounded by one. `brdfNormal` is the
   * vertex BRDF evaluated towards its normal.
   */
  function BoundError(node: Node, v: Vertex, brdfNormal: Vec3, sqrt: real -> real): Vec3
    requires PositiveRoot(sqrt)
  {
    if IsLeaf(node) then Zero
    else
      var d := DistSqr(node.aabb, v.p);
      if d < NEAR then Splat(FLT_MAX)
      else
        var cosVertex := MaxR(0.0, BoundCosTheta(AlignSpec(node.aabb, v.p, v.n, sqrt), sqrt));
        Scale(cosVertex * 1.0 / d, Mul(node.intensity, BrdfCam(v, brdfNormal)))
  }

  /** A leaf has no error and an internal cluster whose box holds the vertex has the largest. */
  lemma BoundErrorCases(node: Node, v: Vertex, brdfNormal: Vec3, sqrt: real -> real)
    requires PositiveRoot(sqrt)
    ensures IsLeaf(node) ==> BoundError(node, v, brdfNormal, sqrt) == Zero
    ensures !IsLeaf(node) && Contains(node.aabb, v.p) ==> BoundError(node, v, brdfNormal, sqrt) == Splat(FLT_MAX)
  {
    if !IsLeaf(node) && Contains(node.aabb, v.p) {
      DistSqrZeroIffInside(node.aabb, v.p);
    }
  }

  /** The error bound is non-negative when the intensity and the BRDF value are. */
  lemma BoundErrorNonNegative(node: Node, v: Vertex, brdfNormal: Vec3, sqrt: real -> real)
    requires PositiveRoot(sqrt)
    requires AllLessEq(Zero, node.intensity) && AllLessEq(Zero, brdfNormal)
    ensures AllLessEq(Zero, BoundError(node, v, brdfNormal, sqrt))
  {
    if !IsLeaf(node) {
      var d := DistSqr(node.aabb, v.p);
      if d >= NEAR {
        var g := MaxR(0.0, BoundCosTheta(AlignSpec(node.aabb, v.p, v.n, sqrt), sqrt)) * 1.0 / d;
        assert g >= 0.0;
        NonNegativeScale(g, Mul(node.intensity, BrdfCam(v, brdfNormal)));
      }
    }
  }

  lemma NonNegativeScale(g: real, a: Vec3)
    requires g >= 0.0 && AllLessEq(Zero, a)
    ensures AllLessEq(Zero, Scale(g, a))
  {
    MulMonotone(0.0, a.x, g);
    MulMonotone(0.0, a.y, g);
    MulMonotone(0.0, a.z, g);
  }


  // ---------------------------------------------------------------------------
  // The cut

  /** The position of the first cluster of largest cost: what cut.top() returns. */
  function Heaviest(cut: seq<LightCluster>): (m: nat)
    requires |cut| > 0
    ensures m < |cut| && forall j :: 0 <= j < |cut| ==> cut[j].Cost() <= cut[m].Cost()
  {
    if |cut| == 1 then 0
    else
      var k := Heaviest(cut[..|cut| - 1]);
      if cut[k].Cost() < cut[|cut| - 1].Cost() then |cut| - 1 else k
  }

  /** The summed estimate of the clusters of a cut. */
  function EstimateSum(cut: seq<LightCluster>): Vec3
  {
    if |cut| == 0 then Zero else Add(EstimateSum(cut[..|cut| - 1]), cut[|cut| - 1].estimate)
  }

  lemma EstimateSumPush(a: seq<LightCluster>, c: LightCluster)
    ensures EstimateSum(a + [c]) == Add(EstimateSum(a), c.estimate)
  {
    assert (a + [c])[..|a|] == a;
  }

  /** Replacing one cluster exchanges its estimate in the sum for the new one's. */
  lemma {:induction false} EstimateSumUpdate(cut: seq<LightCluster>, m: nat, x: LightCluster)
    requires m < |cut|
    ensures Add(EstimateSum(cut[m := x]), cut[m].estimate) == Add(EstimateSum(cut), x.estimate)
  {
    var n := |cut|;
    if m == n - 1 {
      assert cut[m := x][..n - 1] == cut[..n - 1];
      AddSwap(EstimateSum(cut[..n - 1]), x.estimate, cut[m].estimate);
    } else {
      var prefix := cut[..n - 1];
      assert cut[m := x][..n - 1] == prefix[m := x];
      EstimateSumUpdate(prefix, m, x);
      AddShift(EstimateSum(prefix[m := x]), EstimateSum(prefix), cut[n - 1].estimate, cut[m].estimate, x.estimate);
    }
  }

  lemma AddSwap(a: Vec3, b: Vec3, e: Vec3)
    ensures Add(Add(a, b), e) == Add(Add(a, e), b)
  {
  }

  lemma AddShift(a: Vec3, b: Vec3, l: Vec3, e: Vec3, f: Vec3)
    requires Add(a, e) == Add(b, f)
    ensures Add(Add(a, l), e) == Add(Add(b, l), f)
  {
    assert Add(a, e).x == Add(b, f).x && Add(a, e).y == Add(b, f).y && Add(a, e).z == Add(b, f).z;
  }

  /** The lights below the node of one cluster. */
  ghost function ClusterLeaves(nodes: seq<Node>, c: LightCluster): multiset<nat>
    requires ChildrenBefore(nodes)
  {
    if c.node < |nodes| then multiset(Leaves(nodes, c.node)) else multiset{}
  }

  /** The lights below the clusters of a cut, with multiplicity. */
  ghost function CutLeaves(nodes: seq<Node>, cut: seq<LightCluster>): multiset<nat>
    requires ChildrenBefore(nodes)
  {
    if |cut| == 0 then multiset{} else CutLeaves(nodes, cut[..|cut| - 1]) + ClusterLeaves(nodes, cut[|cut| - 1])
  }

  lemma CutLeavesPush(nodes: seq<Node>, a: seq<LightCluster>, c: LightCluster)
    requires ChildrenBefore(nodes)
    ensures CutLeaves(nodes, a + [c]) == CutLeaves(nodes, a) + ClusterLeaves(nodes, c)
  {
    assert (a + [c])[..|a|] == a;
  }

  /** Replacing one cluster exchanges its lights for the new one's. */
  lemma {:induction false} CutLeavesUpdate(nodes: seq<Node>, cut: seq<LightCluster>, m: nat, x: LightCluster)
    requires ChildrenBefore(nodes) && m < |cut|
    ensures CutLeaves(nodes, cut[m := x]) + ClusterLeaves(nodes, cut[m])
         == CutLeaves(nodes, cut) + ClusterLeaves(nodes, x)
  {
    var n := |cut|;
    var prefix, last := cut[..n - 1], cut[n - 1];
    var updated := cut[m := x];
    var rest := CutLeaves(nodes, prefix);
    assert CutLeaves(nodes, cut) == rest + ClusterLeaves(nodes, last);
    assert |updated| == n;
    if m == n - 1 {
      assert updated[..n - 1] == prefix && updated[n - 1] == x;
      assert CutLeaves(nodes, updated) == rest + ClusterLeaves(nodes, x);
      UnionSwap(rest, ClusterLeaves(nodes, x), ClusterLeaves(nodes, last));
    } else {
      assert updated[..n - 1] == prefix[m := x] && updated[n - 1] == last;
      assert CutLeaves(nodes, updated) == CutLeaves(nodes, prefix[m := x]) + ClusterLeaves(nodes, last);
      CutLeavesUpdate(nodes, prefix, m, x);
      assert prefix[m] == cut[m];
      UnionShift(CutLeaves(nodes, prefix[m := x]), ClusterLeaves(nodes, cut[m]), ClusterLeaves(nodes, last),
                 rest, ClusterLeaves(nodes, x));
    }
  }

  /** The clusters of a cut are tree nodes whose lights are every light exactly once. */
  ghost predicate Covers(lights: seq<VirtualLight>, nodes: seq<Node>, cut: seq<LightCluster>)
  {
    && ChildrenBefore(nodes)
    && (forall i :: 0 <= i < |cut| ==> cut[i].node < |nodes|)
    && CutLeaves(nodes, cut) == multiset(Range(|lights|))
  }

  /** Every cluster carries the error bound bound_error gives its node. */
  ghost predicate Bounded(nodes: seq<Node>, cut: seq<LightCluster>, v: Vertex, brdfNormal: Vec3, sqrt: real -> real)
    requires PositiveRoot(sqrt)
  {
    forall i :: 0 <= i < |cut| ==>
      cut[i].node < |nodes| && cut[i].error == BoundError(nodes[cut[i].node], v, brdfNormal, sqrt)
  }

  /** Every cluster carries the estimate calc_estimate gives its node. */
  ghost predicate Exact(nodes: seq<Node>, cut: seq<LightCluster>, shade: nat -> Vec3)
  {
    forall i :: 0 <= i < |cut| ==> cut[i].node < |nodes| && cut[i].estimate == CalcEstimate(nodes[cut[i].node], shade)
  }

  /**
   * Why refinement stopped at cluster `m`, the one it popped last: it has
   * the largest cost in the cut and is a leaf or has its error within
   * THRESHOLD of the total estimate on every channel.
   */
  ghost predicate StoppedAt(nodes: seq<Node>, cut: seq<LightCluster>, m: nat, total: Vec3)
  {
    && m < |cut| && cut[m].node < |nodes|
    && (IsLeaf(nodes[cut[m].node]) || AllLessEq(cut[m].error, Scale(THRESHOLD, total)))
    && forall j :: 0 <= j < |cut| ==> cut[j].Cost() <= cut[m].Cost()
  }

  /** Every node has at least one light below it. */
  lemma {:induction false} CutLeavesSize(lights: seq<VirtualLight>, nodes: seq<Node>, cut: seq<LightCluster>)
    requires WellFormed(lights, nodes) && ChildrenBefore(nodes)
    requires forall i :: 0 <= i < |cut| ==> cut[i].node < |nodes|
    ensures |CutLeaves(nodes, cut)| >= |cut|
  {
    if |cut| > 0 {
      CutLeavesSize(lights, nodes, cut[..|cut| - 1]);
      NodeSummarizesLeaves(lights, nodes, cut[|cut| - 1].node);
    }
  }

  /** A cut has at most as many clusters as there are lights. */
  lemma CutSize(lights: seq<VirtualLight>, nodes: seq<Node>, cut: seq<LightCluster>)
    requires WellFormed(lights, nodes) && Covers(lights, nodes, cut)
    ensures |cut| <= |lights|
  {
    CutLeavesSize(lights, nodes, cut);
    RangeCount(|lights|, 0);
  }

  // ---------------------------------------------------------------------------
  // Refinement. The heap is a sequence: popping cluster m and pushing its
  // two children leaves the clusters of cut[m := left] + [right].

  /** The cut of the root alone. */
  lemma RootCut(lights: seq<VirtualLight>, nodes: seq<Node>, c: LightCluster)
    requires RootCovers(lights, nodes) && c.node == |nodes| - 1
    ensures Covers(lights, nodes, [c]) && EstimateSum([c]) == c.estimate
  {
    CutLeavesPush(nodes, [], c);
    EstimateSumPush([], c);
    assert [] + [c] == [c];
  }

  /** The lights of an internal cluster are those of its two children. */
  lemma ChildLeaves(nodes: seq<Node>, p: LightCluster, c1: LightCluster, c2: LightCluster)
    requires ChildrenBefore(nodes) && p.node < |nodes| && !IsLeaf(nodes[p.node])
    requires c1.node == nodes[p.node].left.value && c2.node == nodes[p.node].right.value
    ensures ClusterLeaves(nodes, p) == ClusterLeaves(nodes, c1) + ClusterLeaves(nodes, c2)
  {
  }

  /** The lights of the split cut. */
  lemma SplitLeaves(nodes: seq<Node>, cut: seq<LightCluster>, m: nat, c1: LightCluster, c2: LightCluster)
    requires ChildrenBefore(nodes) && m < |cut|
    requires ClusterLeaves(nodes, cut[m]) == ClusterLeaves(nodes, c1) + ClusterLeaves(nodes, c2)
    ensures CutLeaves(nodes, cut[m := c1] + [c2]) == CutLeaves(nodes, cut)
  {
    var l1, l2 := ClusterLeaves(nodes, c1), ClusterLeaves(nodes, c2);
    var rest := CutLeaves(nodes, cut[m := c1]);
    CutLeavesPush(nodes, cut[m := c1], c2);
    CutLeavesUpdate(nodes, cut, m, c1);
    assert rest + l1 + l2 == CutLeaves(nodes, cut) + l1;
    MultisetCancel(rest + l2, CutLeaves(nodes, cut), l1);
  }

  /** Splitting an internal cluster into its two children keeps the lights of the cut. */
  lemma SplitCovers(lights: seq<VirtualLight>, nodes: seq<Node>, cut: seq<LightCluster>, m: nat,
                    c1: LightCluster, c2: LightCluster)
    requires Covers(lights, nodes, cut) && m < |cut| && !IsLeaf(nodes[cut[m].node])
    requires c1.node == nodes[cut[m].node].left.value && c2.node == nodes[cut[m].node].right.value
    ensures Covers(lights, nodes, cut[m := c1] + [c2])
  {
    ChildLeaves(nodes, cut[m], c1, c2);
    SplitLeaves(nodes, cut, m, c1, c2);
  }

  /** The children pushed carry bound_error's bounds. */
  lemma SplitBounded(nodes: seq<Node>, cut: seq<LightCluster>, m: nat, c1: LightCluster, c2: LightCluster,
                     v: Vertex, brdfNormal: Vec3, sqrt: real -> real)
    requires PositiveRoot(sqrt) && Bounded(nodes, cut, v, brdfNormal, sqrt) && m < |cut|
    requires c1.node < |nodes| && c1.error == BoundError(nodes[c1.node], v, brdfNormal, sqrt)
    requires c2.node < |nodes| && c2.error == BoundError(nodes[c2.node], v, brdfNormal, sqrt)
    ensures Bounded(nodes, cut[m := c1] + [c2], v, brdfNormal, sqrt)
  {
  }

  /** The running total follows the split: minus the parent's estimate, plus both children's. */
  lemma SplitSum(cut: seq<LightCluster>, m: nat, c1: LightCluster, c2: LightCluster)
    requires m < |cut|
    ensures EstimateSum(cut[m := c1] + [c2])
         == Add(Add(Sub(EstimateSum(cut), cut[m].estimate), c1.estimate), c2.estimate)
  {
    EstimateSumPush(cut[m := c1], c2);
    EstimateSumUpdate(cut, m, c1);
    SubAdd(EstimateSum(cut[m := c1]), cut[m].estimate, EstimateSum(cut), c1.estimate);
  }

  lemma SubAdd(a: Vec3, e: Vec3, s: Vec3, f: Vec3)
    requires Add(a, e) == Add(s, f)
    ensures a == Add(Sub(s, e), f)
  {
    assert Add(a, e).x == Add(s, f).x && Add(a, e).y == Add(s, f).y && Add(a, e).z == Add(s, f).z;
  }

  /**
   * With non-negative light colours the children pushed by push_cluster
   * carry exact estimates when their parent does.
   */
  lemma SplitExact(lights: seq<VirtualLight>, nodes: seq<Node>, cut: seq<LightCluster>, m: nat,
                   c1: LightCluster, c2: LightCluster, shade: nat -> Vec3)
    requires WellFormed(lights, nodes) && NonNegativeColors(lights) && Exact(nodes, cut, shade)
    requires m < |cut| && !IsLeaf(nodes[cut[m].node])
    requires c1.node == nodes[cut[m].node].left.value && c2.node == nodes[cut[m].node].right.value
    requires c1.node < |nodes| && c2.node < |nodes|
    requires c1.estimate == PushEstimate(nodes, c1.node, Some(cut[m].node), cut[m].estimate, shade)
    requires c2.estimate == PushEstimate(nodes, c2.node, Some(cut[m].node), cut[m].estimate, shade)
    ensures Exact(nodes, cut[m := c1] + [c2], shade)
  {
    PushEstimateExact(lights, nodes, cut[m].node, c1.node, shade);
    PushEstimateExact(lights, nodes, cut[m].node, c2.node, shade);
  }

  /** The cluster push_cluster makes for node `k` below `parent`. */
  function PushCluster(nodes: seq<Node>, k: nat, parent: Option<nat>, prev: Vec3, v: Vertex, brdfNormal: Vec3,
                       shade: nat -> Vec3, sqrt: real -> real): (c: LightCluster)
    requires k < |nodes| && (parent.Some? ==> parent.value < |nodes|) && PositiveRoot(sqrt)
    ensures c.node == k && c.estimate == PushEstimate(nodes, k, parent, prev, shade)
    ensures c.error == BoundError(nodes[k], v, brdfNormal, sqrt)
  {
    LightCluster(k, PushEstimate(nodes, k, parent, prev, shade), BoundError(nodes[k], v, brdfNormal, sqrt))
  }

  /**
   * The refinement loop of eval. The cut starts at the root; while it has
   * fewer than MAX_CUT clusters the heaviest is taken, and refinement stops
   * there when it is a leaf or its error is within THRESHOLD of the running
   * total; otherwise the running total trades its estimate for its
   * children's, which join the cut. `cut` is the heap before that last pop,
   * `m` the position of the popped cluster, and `cutSize` the size eval
   * reports: the heap size after the pop plus one.
   */
  method Refine(lights: seq<VirtualLight>, nodes: seq<Node>, v: Vertex, brdfNormal: Vec3,
                shade: nat -> Vec3, sqrt: real -> real)
      returns (cut: seq<LightCluster>, total: Vec3, cutSize: nat, ghost m: nat)
    requires WellFormed(lights, nodes) && RootCovers(lights, nodes) && PositiveRoot(sqrt)
    ensures Covers(lights, nodes, cut) && Bounded(nodes, cut, v, brdfNormal, sqrt)
    ensures total == EstimateSum(cut)
    ensures 0 < |cut| <= MinNat(MAX_CUT, |lights|)
    ensures NonNegativeColors(lights) ==> Exact(nodes, cut, shade)
    ensures |cut| < MAX_CUT ==> cutSize == |cut| && StoppedAt(nodes, cut, m, total)
    ensures |cut| == MAX_CUT ==> cutSize == MAX_CUT + 1
  {
    var root := PushCluster(nodes, |nodes| - 1, None, Zero, v, brdfNormal, shade, sqrt);
    RootCut(lights, nodes, root);
    cut, total, m := [root], root.estimate, 0;
    while |cut| < MAX_CUT
      invariant Covers(lights, nodes, cut) && Bounded(nodes, cut, v, brdfNormal, sqrt)
      invariant total == EstimateSum(cut) && 0 < |cut| <= MAX_CUT
      invariant NonNegativeColors(lights) ==> Exact(nodes, cut, shade)
      decreases MAX_CUT - |cut|
    {
      var top := Heaviest(cut);
      var c := cut[top];
      m := top;
      if IsLeaf(nodes[c.node]) || AllLessEq(c.error, Scale(THRESHOLD, total)) {
        CutSize(lights, nodes, cut);
        cutSize := |cut|;
        return;
      }
      var left, right := nodes[c.node].left.value, nodes[c.node].right.value;
      var c1 := PushCluster(nodes, left, Some(c.node), c.estimate, v, brdfNormal, shade, sqrt);
      var c2 := PushCluster(nodes, right, Some(c.node), c.estimate, v, brdfNormal, shade, sqrt);
      SplitCovers(lights, nodes, cut, top, c1, c2);
      SplitBounded(nodes, cut, top, c1, c2, v, brdfNormal, sqrt);
      SplitSum(cut, top, c1, c2);
      if NonNegativeColors(lights) {
        SplitExact(lights, nodes, cut, top, c1, c2, shade);
      }
      total := Add(Add(Sub(total, c.estimate), c1.estimate), c2.estimate);
      cut := cut[top := c1] + [c2];
    }
    CutSize(lights, nodes, cut);
    cutSize := MAX_CUT + 1;
  }

  // ---------------------------------------------------------------------------
  // Per-thread memory for the cut heaps

  /** A LightClusterQueue: its clusters and the capacity of its vector. */
  datatype ClusterQueue = ClusterQueue(items: seq<LightCluster>, capacity: nat)

  /**
   * The capacity of a vector of capacity `capacity` after it held `peak`
   * elements: unchanged when they fit, at least `peak` otherwise.
   */
  function CapacityAfter(capacity: nat, peak: nat): (c: nat)
    ensures c >= capacity && c >= peak
    ensures peak <= capacity <==> c == capacity
  {
    if peak <= capacity then capacity else peak
  }

  /**
   * LightTree::MemoryArena: one cluster queue per thread, each reserved
   * for `reserved` = min(MAX_CUT, light count) clusters.
   */
  class MemoryArena {
    var mem: seq<ClusterQueue>
    const reserved: nat

    /** Every queue is empty and holds at least its reservation. */
    ghost predicate Valid()
      reads this
    {
      forall i :: 0 <= i < |mem| ==> mem[i].items == [] && mem[i].capacity >= reserved
    }

    /** MemoryArena(light_count), with `threads` for omp_get_max_threads(). */
    constructor (lightCount: nat, threads: nat)
      ensures Valid() && reserved == MinNat(MAX_CUT, lightCount) && |mem| == threads
      ensures forall i :: 0 <= i < threads ==> mem[i] == ClusterQueue([], reserved)
    {
      reserved := MinNat(MAX_CUT, lightCount);
      mem := seq(threads, _ => ClusterQueue([], MinNat(MAX_CUT, lightCount)));
    }

    /**
     * alloc_thread_local: move the queue of `thread` out. The source
     * asserts that its capacity is positive; the moved-from queue left
     * behind is empty with no storage.
     */
    method AllocThreadLocal(thread: nat) returns (q: ClusterQueue)
      requires thread < |mem| && mem[thread].capacity > 0
      modifies this
      ensures q == old(mem[thread])
      ensures mem == old(mem)[thread := ClusterQueue([], 0)]
    {
      q := mem[thread];
      mem := mem[thread := ClusterQueue([], 0)];
    }

    /** free_thread_local: clear `q`, keeping its storage, and move it back as the queue of `thread`. */
    method FreeThreadLocal(thread: nat, q: ClusterQueue)
      requires thread < |mem|
      modifies this
      ensures mem == old(mem)[thread := ClusterQueue([], q.capacity)]
      ensures old(Valid()) && q.capacity >= reserved ==> Valid()
    {
      mem := mem[thread := ClusterQueue([], q.capacity)];
    }
  }
}
