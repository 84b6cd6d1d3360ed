/**
 * LightTree::Node: the cluster nodes of the light tree. The nodes live in one
 * vector and refer to their children and to their representative light by
 * index; a missing child (nullptr) is None.
 */
module LightTreeNode {
  import opened Opt
  import opened Vec
  import opened Aabb

  /** A virtual point light: position, surface normal and emitted colour. */
  datatype VirtualLight = VirtualLight(pos: Vec3, norm: Vec3, color: Vec3)

  /**
   * LightTree::Node. `light` is the index of the representative light,
   * `left`/`right` the indices of the children in the node vector.
   */
  datatype Node = Node(light: nat, intensity: Vec3, aabb: AABB, left: Option<nat>, right: Option<nat>)

  /** Node::is_leaf: at least one child is missing. */
  predicate IsLeaf(n: Node)
  {
    n.left == None || n.right == None
  }

  /** Node(const VirtualLight *l): the cluster of the single light `i`. */
  function MakeLeaf(lights: seq<VirtualLight>, i: nat): (n: Node)
    requires i < |lights|
    ensures IsLeaf(n) && n.left == None && n.right == None
    ensures n.light == i && n.intensity == lights[i].color
    ensures Ordered(n.aabb) && forall q :: Contains(n.aabb, q) <==> q == lights[i].pos
  {
    Node(i, lights[i].color, Point(lights[i].pos), None, None)
  }

  /**
   * Node(const Node *l, const Node *r): the cluster joining nodes `l` and `r`
   * of the vector; it keeps the left child's representative light.
   */
  function MakeInternal(nodes: seq<Node>, l: nat, r: nat): (n: Node)
    requires l < |nodes| && r < |nodes|
    ensures !IsLeaf(n) && n.left == Some(l) && n.right == Some(r)
    ensures n.light == nodes[l].light
    ensures Sub(n.intensity, nodes[r].intensity) == nodes[l].intensity
    ensures Encloses(n.aabb, nodes[l].aabb) && Encloses(n.aabb, nodes[r].aabb)
    ensures forall c :: Encloses(c, nodes[l].aabb) && Encloses(c, nodes[r].aabb) ==> Encloses(c, n.aabb)
  {
    Node(nodes[l].light, Add(nodes[l].intensity, nodes[r].intensity),
         Merge(nodes[l].aabb, nodes[r].aabb), Some(l), Some(r))
  }

  // ---------------------------------------------------------------------------
  // The node vector

  /** Every child index points to an earlier node of the vector. */
  predicate ChildrenBefore(nodes: seq<Node>)
  {
    forall k :: 0 <= k < |nodes| ==>
      (nodes[k].left.Some? ==> nodes[k].left.value < k) &&
      (nodes[k].right.Some? ==> nodes[k].right.value < k)
  }

  /** Node `k` was made by one of the two constructors from lights / earlier nodes. */
  predicate NodeBuilt(lights: seq<VirtualLight>, nodes: seq<Node>, k: nat)
    requires k < |nodes|
  {
    if nodes[k].left.Some? && nodes[k].right.Some? then
      var l, r := nodes[k].left.value, nodes[k].right.value;
      l < k && r < k && nodes[k] == MakeInternal(nodes, l, r)
    else
      nodes[k].light < |lights| && nodes[k] == MakeLeaf(lights, nodes[k].light)
  }

  /** A node vector that the two constructors can have produced. */
  predicate WellFormed(lights: seq<VirtualLight>, nodes: seq<Node>)
  {
    forall k :: 0 <= k < |nodes| ==> NodeBuilt(lights, nodes, k)
  }

  lemma WellFormedChildrenBefore(lights: seq<VirtualLight>, nodes: seq<Node>)
    requires WellFormed(lights, nodes)
    ensures ChildrenBefore(nodes)
  {
    forall k | 0 <= k < |nodes|
      ensures nodes[k].left.Some? ==> nodes[k].left.value < k
      ensures nodes[k].right.Some? ==> nodes[k].right.value < k
    {
      assert NodeBuilt(lights, nodes, k);
    }
  }

  /** Appending a node built from existing nodes keeps the vector well formed. */
  lemma AppendInternal(lights: seq<VirtualLight>, nodes: seq<Node>, l: nat, r: nat)
    requires WellFormed(lights, nodes)
    requires l < |nodes| && r < |nodes|
    ensures WellFormed(lights, nodes + [MakeInternal(nodes, l, r)])
  {
    var nodes' := nodes + [MakeInternal(nodes, l, r)];
    forall k | 0 <= k < |nodes'|
      ensures NodeBuilt(lights, nodes', k)
    {
      if k < |nodes| {
        assert NodeBuilt(lights, nodes, k);
        if nodes[k].left.Some? && nodes[k].right.Some? {
          assert MakeInternal(nodes', nodes[k].left.value, nodes[k].right.value)
              == MakeInternal(nodes, nodes[k].left.value, nodes[k].right.value);
        }
      } else {
        assert MakeInternal(nodes', l, r) == MakeInternal(nodes, l, r);
      }
    }
  }

  // ---------------------------------------------------------------------------
  // What a node stands for: the lights of the leaves below it

  predicate LightIndices(lights: seq<VirtualLight>, ids: seq<nat>)
  {
    forall k :: 0 <= k < |ids| ==> ids[k] < |lights|
  }

  /** The indices of the lights of the leaves below node `k`, left to right. */
  function Leaves(nodes: seq<Node>, k: nat): seq<nat>
    requires ChildrenBefore(nodes) && k < |nodes|
    decreases k
  {
    if IsLeaf(nodes[k]) then [nodes[k].light]
    else Leaves(nodes, nodes[k].left.value) + Leaves(nodes, nodes[k].right.value)
  }

  /** The summed colour of the lights `ids`. */
  function ColorSum(lights: seq<VirtualLight>, ids: seq<nat>): Vec3
    requires LightIndices(lights, ids)
  {
    if |ids| == 0 then Zero
    else Add(ColorSum(lights, ids[..|ids| - 1]), lights[ids[|ids| - 1]].color)
  }

  /** The smallest box holding the positions of the lights `ids`. */
  function Hull(lights: seq<VirtualLight>, ids: seq<nat>): AABB
    requires |ids| > 0 && LightIndices(lights, ids)
  {
    if |ids| == 1 then Point(lights[ids[0]].pos)
    else Merge(Hull(lights, ids[..|ids| - 1]), Point(lights[ids[|ids| - 1]].pos))
  }

  lemma {:induction false} ColorSumAppend(lights: seq<VirtualLight>, a: seq<nat>, b: seq<nat>)
    requires LightIndices(lights, a) && LightIndices(lights, b)
    ensures LightIndices(lights, a + b)
    ensures ColorSum(lights, a + b) == Add(ColorSum(lights, a), ColorSum(lights, b))
  {
    if |b| == 0 {
      assert a + b == a;
    } else {
      assert (a + b)[..|a + b| - 1] == a + b[..|b| - 1];
      ColorSumAppend(lights, a, b[..|b| - 1]);
    }
  }

  lemma {:induction false} HullAppend(lights: seq<VirtualLight>, a: seq<nat>, b: seq<nat>)
    requires |a| > 0 && |b| > 0
    requires LightIndices(lights, a) && LightIndices(lights, b)
    ensures LightIndices(lights, a + b)
    ensures Hull(lights, a + b) == Merge(Hull(lights, a), Hull(lights, b))
  {
    if |b| == 1 {
      assert (a + b)[..|a + b| - 1] == a;
    } else {
      assert (a + b)[..|a + b| - 1] == a + b[..|b| - 1];
      HullAppend(lights, a, b[..|b| - 1]);
      MergeAssociative(Hull(lights, a), Hull(lights, b[..|b| - 1]), Point(lights[b[|b| - 1]].pos));
    }
  }

  /**
   * In a well-formed vector every node's intensity is the summed colour of
   * the lights below it, its box is the hull of their positions, and its
   * representative light is the left-most of them.
   */
  lemma {:induction false} NodeSummarizesLeaves(lights: seq<VirtualLight>, nodes: seq<Node>, k: nat)
    requires WellFormed(lights, nodes) && k < |nodes|
    ensures ChildrenBefore(nodes)
    ensures LightIndices(lights, Leaves(nodes, k)) && |Leaves(nodes, k)| > 0
    ensures nodes[k].intensity == ColorSum(lights, Leaves(nodes, k))
    ensures nodes[k].aabb == Hull(lights, Leaves(nodes, k))
    ensures nodes[k].light == Leaves(nodes, k)[0]
    decreases k
  {
    WellFormedChildrenBefore(lights, nodes);
    assert NodeBuilt(lights, nodes, k);
    if IsLeaf(nodes[k]) {
      assert ColorSum(lights, [nodes[k].light])
          == Add(ColorSum(lights, []), lights[nodes[k].light].color);
    } else {
      var l, r := nodes[k].left.value, nodes[k].right.value;
      NodeSummarizesLeaves(lights, nodes, l);
      NodeSummarizesLeaves(lights, nodes, r);
      ColorSumAppend(lights, Leaves(nodes, l), Leaves(nodes, r));
      HullAppend(lights, Leaves(nodes, l), Leaves(nodes, r));
    }
  }
}
