/**
 * LightTree: the binary tree of light clusters of the lightcuts algorithm.
 * `build` agglomerates the virtual point lights greedily, always merging
 * the pair of clusters whose merge is cheapest, with a kd-tree over the
 * current clusters to find each cluster's partner; `eval` shades a path
 * vertex by refining a cut through the tree.
 */
module LightTree {
  import opened Opt
  import opened Vec
  import opened Aabb
  import opened LightTreeNode
  import opened KdTree
  import opened LightTreeBuild
  import opened LightCut

  /**
   * The push_nearest lambda of build: ask the kd-tree for a partner of the
   * cluster in slot `query` and queue the pair with its merge cost, if
   * there is one.
   */
  method PushNearest(kd: LcKdTree, lights: seq<VirtualLight>, nodes: seq<Node>, queue: seq<Candidate>, query: nat)
      returns (queue': seq<Candidate>)
    requires kd.Valid() && Paired(kd.slots) && WellFormed(lights, nodes)
    requires HeldBelow(Payloads(kd.slots), |nodes|)
    requires query < |kd.slots| && kd.slots[query].node.Some?
    ensures Pushed(Payloads(kd.slots), queue, query, queue')
    ensures |queue'| > |queue| ==>
      queue'[|queue|].pair2.node < |nodes| &&
      queue'[|queue|].distance == MergeCost(nodes, kd.slots[query].node.value, queue'[|queue|].pair2.node)
  {
    var slots := kd.slots;
    ghost var P := Payloads(slots);
    var q := slots[query].node.value;
    assert P[query] == slots[query].node;
    NodeSummarizesLeaves(lights, nodes, q);
    assert PayloadsBelow(slots, |nodes|) by {
      forall t | 0 <= t < |slots| && slots[t].node.Some?
        ensures slots[t].node.value < |nodes|
      {
        assert P[t] == slots[t].node;
      }
    }
    var nearest, cost := kd.FindNearest(lights, nodes, q);
    if nearest.Some? {
      var t := nearest.value;
      queue' := queue + [Candidate(NodePair(q, query), NodePair(slots[t].node.value, t), cost.v)];
      assert queue'[..|queue|] == queue;
      assert P[t] == slots[t].node;
    } else {
      queue' := queue;
      forall u | 0 <= u < |P| && P[u].Some?
        ensures P[u].value == q
      {
        assert !Eligible(slots, q, u);
      }
    }
  }

  /**
   * The merge of a valid pop: append the node joining the two candidate
   * clusters, pair1's on the left exactly when the draw `u` falls below
   * its share of the summed luma; delete the slot of greater depth (pair2's
   * on a tie) and write the new node into the other slot.
   */
  method MergePair(kd: LcKdTree, nodes: seq<Node>, c: Candidate, luma: Vec3 -> real, u: real)
      returns (nodes': seq<Node>, keep: nat, drop: nat)
    requires kd.Valid() && Paired(kd.slots) && Fresh(Payloads(kd.slots), c) && c.pair1.node != c.pair2.node
    requires HeldBelow(Payloads(kd.slots), |nodes|)
    modifies kd
    ensures nodes' == nodes + [Joined(nodes, c,
      PairFirst(luma(nodes[c.pair1.node].intensity), luma(nodes[c.pair2.node].intensity), u))]
    ensures (keep == c.pair1.slot && drop == c.pair2.slot) || (keep == c.pair2.slot && drop == c.pair1.slot)
    ensures old(kd.slots[keep].depth) <= old(kd.slots[drop].depth)
    ensures old(kd.slots[keep].depth) == old(kd.slots[drop].depth) ==> drop == c.pair2.slot
    ensures kd.Valid() && Paired(kd.slots)
    ensures Payloads(kd.slots) == old(Payloads(kd.slots))[drop := None][keep := Some(|nodes|)]
  {
    ghost var P := Payloads(kd.slots);
    assert P[c.pair1.slot] == kd.slots[c.pair1.slot].node && P[c.pair2.slot] == kd.slots[c.pair2.slot].node;
    var i1 := luma(nodes[c.pair1.node].intensity);
    var i2 := luma(nodes[c.pair2.node].intensity);
    nodes' := nodes + [Joined(nodes, c, PairFirst(i1, i2, u))];
    keep, drop := c.pair1.slot, c.pair2.slot;
    if kd.slots[keep].depth > kd.slots[drop].depth {
      keep, drop := drop, keep;
    }
    ghost var s0 := kd.slots;
    kd.DeleteNode(drop);
    ghost var s1 := kd.slots;
    DeletePayloads(s0, s1, drop);
    kd.UpdateNode(keep, |nodes|);
    UpdatePayloads(s1, kd.slots, keep, |nodes|);
  }

  /**
   * The all_nodes loop of build: query every slot of the fresh kd-tree for
   * its nearest partner. Every slot ends up on some queued candidate
   * unless there is a single cluster.
   */
  method PushAll(kd: LcKdTree, lights: seq<VirtualLight>, nodes: seq<Node>) returns (queue: seq<Candidate>)
    requires kd.Valid() && Paired(kd.slots) && WellFormed(lights, nodes)
    requires HeldBelow(Payloads(kd.slots), |nodes|) && Distinct(Payloads(kd.slots))
    requires forall t :: 0 <= t < |kd.slots| ==> Payloads(kd.slots)[t].Some?
    ensures QueueOk(queue, |kd.slots|) && CoveredUpTo(Payloads(kd.slots), queue, |kd.slots|)
  {
    ghost var P := Payloads(kd.slots);
    queue := [];
    for t := 0 to |kd.slots|
      invariant QueueOk(queue, |P|) && CoveredUpTo(P, queue, t)
    {
      assert P[t] == kd.slots[t].node;
      var queue' := PushNearest(kd, lights, nodes, queue, t);
      StartStep(P, queue, t, queue');
      queue := queue';
    }
  }

  /**
   * One pass of the while loop of build: pop the cheapest candidate; when
   * one of its sides is obsolete re-query the current sides, otherwise
   * merge the pair and query the new cluster. Either the live clusters or
   * the stale candidates become fewer.
   */
  method Step(kd: LcKdTree, lights: seq<VirtualLight>, nodes: seq<Node>, queue: seq<Candidate>,
              merges: nat, ghost holder: nat, luma: Vec3 -> real, draw: nat -> real)
      returns (nodes': seq<Node>, queue': seq<Candidate>, merges': nat, ghost holder': nat)
    requires kd.Valid() && Paired(kd.slots) && 0 < |queue|
    requires Forest(lights, nodes, Payloads(kd.slots), queue, merges, holder)
    modifies kd
    ensures kd.Valid() && Paired(kd.slots)
    ensures Forest(lights, nodes', Payloads(kd.slots), queue', merges', holder')
    ensures Live(Payloads(kd.slots)) < Live(old(Payloads(kd.slots)))
      || (Payloads(kd.slots) == old(Payloads(kd.slots)) && Stale(Payloads(kd.slots), queue') < Stale(Payloads(kd.slots), queue))
  {
    ghost var P := Payloads(kd.slots);
    var m := Top(queue);
    var c := queue[m];
    var rest := Remove(queue, m);
    ObsoleteIffNotCurrent(kd.slots, c.pair1);
    ObsoleteIffNotCurrent(kd.slots, c.pair2);
    var used1 := Obsolete(kd.slots, c.pair1);
    var used2 := Obsolete(kd.slots, c.pair2);
    if used1 || used2 {
      var q2 := rest;
      if !used1 {
        q2 := PushNearest(kd, lights, nodes, rest, c.pair1.slot);
      }
      queue' := q2;
      if !used2 {
        queue' := PushNearest(kd, lights, nodes, q2, c.pair2.slot);
      }
      Requeue(lights, nodes, P, queue, merges, holder, m, rest, q2, queue');
      nodes', merges', holder' := nodes, merges, holder;
    } else {
      ghost var first := PairFirst(luma(nodes[c.pair1.node].intensity), luma(nodes[c.pair2.node].intensity), draw(merges));
      var keep, drop;
      nodes', keep, drop := MergePair(kd, nodes, c, luma, draw(merges));
      ghost var P' := Payloads(kd.slots);
      MergeVector(lights, nodes, c, first, nodes');
      MergeSlots(P, c, keep, drop, |nodes|, P');
      queue' := PushNearest(kd, lights, nodes', rest, keep);
      Merged(lights, nodes, P, queue, merges, holder, m, rest, first, nodes', keep, drop, P', queue');
      merges', holder' := merges + 1, keep;
    }
  }

  /**
   * The while loop of build: it ends with one cluster holding every light,
   * the last of 2L - 1 nodes.
   */
  method Agglomerate(kd: LcKdTree, lights: seq<VirtualLight>, nodes: seq<Node>, queue: seq<Candidate>,
                     ghost holder: nat, luma: Vec3 -> real, draw: nat -> real)
      returns (nodes': seq<Node>)
    requires kd.Valid() && Paired(kd.slots) && Forest(lights, nodes, Payloads(kd.slots), queue, 0, holder)
    modifies kd
    ensures WellFormed(lights, nodes') && ChildrenBefore(nodes') && |nodes'| == 2 * |lights| - 1
    ensures forall k :: 0 <= k < |lights| ==> nodes'[k] == MakeLeaf(lights, k)
    ensures RootCovers(lights, nodes')
  {
    ghost var h := holder;
    nodes' := nodes;
    var queue := queue;
    var merges := 0;
    while |queue| > 0
      invariant kd.Valid() && Paired(kd.slots)
      invariant Forest(lights, nodes', Payloads(kd.slots), queue, merges, h)
      decreases Live(Payloads(kd.slots)), Stale(Payloads(kd.slots), queue)
    {
      nodes', queue, merges, h := Step(kd, lights, nodes', queue, merges, h, luma, draw);
    }
    assert queue == [];
    ghost var P := Payloads(kd.slots);
    Finished(lights, nodes', P, merges, h);
  }

  /**
   * The body of build for a non-empty light list: the leaves in light
   * order, the kd-tree over them, the initial queries and the merge loop.
   */
  method Agglomerated(lights: seq<VirtualLight>, luma: Vec3 -> real, draw: nat -> real) returns (store: seq<Node>)
    requires 0 < |lights| && Height(|lights|) <= DEPTH_LIMIT
    ensures |store| == 2 * |lights| - 1 && forall k :: 0 <= k < |lights| ==> store[k] == MakeLeaf(lights, k)
    ensures WellFormed(lights, store) && RootCovers(lights, store)
  {
    var leaves: seq<Node> := [];
    var i := 0;
    while i < |lights|
      invariant 0 <= i <= |lights| && |leaves| == i
      invariant forall k :: 0 <= k < i ==> leaves[k] == MakeLeaf(lights, k)
    {
      leaves := leaves + [MakeLeaf(lights, i)];
      i := i + 1;
    }
    var kd := new LcKdTree(leaves);
    ghost var holder := Started(lights, leaves, kd.slots, kd.span);
    var queue := PushAll(kd, lights, leaves);
    store := Agglomerate(kd, lights, leaves, queue, holder, luma, draw);
  }

  /** LightTree: the lights it was built over, its node vector and its root. */
  class LightTree {
    var lights: seq<VirtualLight>
    var nodes: seq<Node>
    var root: Option<nat>

    /**
     * An empty tree, or a built one: 2L - 1 well-formed nodes over L lights
     * whose last node is the root, with every light below it exactly once.
     */
    ghost predicate Valid()
      reads this
    {
      root.None? ||
      (0 < |lights| && |nodes| == 2 * |lights| - 1 && root.value == |nodes| - 1
       && WellFormed(lights, nodes) && RootCovers(lights, nodes))
    }

    /** LightTree::is_empty: there is no root. */
    predicate IsEmpty()
      reads this
    {
      root.None?
    }

    /** LightTree() = default: no lights, no nodes, no root. */
    constructor ()
      ensures Valid() && IsEmpty() && lights == [] && nodes == []
    {
      lights, nodes, root := [], [], None;
    }

    /**
     * LightTree::build. Without lights nothing changes. Otherwise the first
     * L nodes are the leaves of the lights in order, 2L - 1 nodes are built
     * and the last is the root, with every light below it exactly once.
     * `luma` is the luminance of a colour and draw(k) the uniform draw of
     * the k-th merge.
     */
    method Build(lights: seq<VirtualLight>, luma: Vec3 -> real, draw: nat -> real)
      requires Height(|lights|) <= DEPTH_LIMIT
      modifies this
      ensures |lights| == 0 ==> this.lights == old(this.lights) && nodes == old(nodes) && root == old(root)
      ensures |lights| > 0 ==> this.lights == lights && |nodes| == 2 * |lights| - 1
      ensures |lights| > 0 ==> forall k :: 0 <= k < |lights| ==> nodes[k] == MakeLeaf(lights, k)
      ensures |lights| > 0 ==> root.Some? && root.value == |nodes| - 1 && Valid()
    {
      if |lights| == 0 {
        return;
      }
      var store := Agglomerated(lights, luma, draw);
      this.lights, nodes, root := lights, store, Some(|store| - 1);
    }

    /** allocate_memory_arena: an arena for this tree's light count, `threads` = omp_get_max_threads(). */
    method AllocateMemoryArena(threads: nat) returns (memory: MemoryArena)
      ensures fresh(memory) && memory.Valid() && |memory.mem| == threads
      ensures memory.reserved == MinNat(MAX_CUT, |lights|)
    {
      memory := new MemoryArena(|lights|, threads);
    }

    /**
     * LightTree::eval at vertex `v` on thread `thread`: refine a cut in
     * the thread's queue and give it back, then return the heatmap colour
     * of cut size / MAX_CUT when `debug`, or else the throughput times the
     * total estimate over the number of lights. `brdfNormal` is the BRDF
     * at the vertex for a light along its normal, `shade` the per-light
     * contribution calc_estimate takes, `sqrt` the square root, `heatmap`
     * the debug palette. The cut is the heap before its last pop.
     */
    method Eval(memory: MemoryArena, thread: nat, v: Vertex, brdfNormal: Vec3, shade: nat -> Vec3,
                sqrt: real -> real, debug: bool, heatmap: real -> Vec3)
        returns (result: Vec3, ghost cut: seq<LightCluster>, ghost total: Vec3, ghost cutSize: nat)
      requires Valid() && !IsEmpty() && PositiveRoot(sqrt)
      requires memory.Valid() && thread < |memory.mem| && memory.mem[thread].capacity > 0
      modifies memory
      ensures memory.Valid()
      ensures memory.mem == old(memory.mem)[thread := ClusterQueue([], CapacityAfter(old(memory.mem[thread].capacity), |cut|))]
      ensures memory.reserved >= MinNat(MAX_CUT, |lights|) ==> memory.mem == old(memory.mem)
      ensures Covers(lights, nodes, cut) && Bounded(nodes, cut, v, brdfNormal, sqrt) && total == EstimateSum(cut)
      ensures 0 < |cut| <= MinNat(MAX_CUT, |lights|)
      ensures NonNegativeColors(lights) ==> Exact(nodes, cut, shade)
      ensures |cut| < MAX_CUT ==> cutSize == |cut| && exists m :: StoppedAt(nodes, cut, m, total)
      ensures |cut| == MAX_CUT ==> cutSize == MAX_CUT + 1
      ensures debug ==> result == heatmap(cutSize as real / MAX_CUT as real)
      ensures !debug ==> result == Mul(v.throughput, Scale(1.0 / |lights| as real, total))
    {
      var queue := memory.AllocThreadLocal(thread);
      var clusters, estimate, size;
      ghost var m;
      clusters, estimate, size, m := Refine(lights, nodes, v, brdfNormal, shade, sqrt);
      cut, total, cutSize := clusters, estimate, size;
      if memory.reserved >= MinNat(MAX_CUT, |lights|) {
        assert CapacityAfter(queue.capacity, |clusters|) == queue.capacity;
      }
      memory.FreeThreadLocal(thread, ClusterQueue(clusters, CapacityAfter(queue.capacity, |clusters|)));
      if debug {
        result := heatmap(size as real / MAX_CUT as real);
      } else {
        result := Mul(v.throughput, Scale(1.0 / |lights| as real, estimate));
      }
    }
  }
}
