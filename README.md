# LightCuts light tree, k-d tree and samplers, modelled in Dafny

This project models the core of the LightCuts many-light renderer of GlobIllum, together with two smaller parts of the renderer's sampling code.

**LightCuts renderer.** LightCuts groups the virtual point lights of a scene into a binary *light tree*. Each node of the tree is a cluster that carries:
- the summed intensity of its lights;
- the bounding box of their positions;
- one representative light.

To shade a vertex, the renderer evaluates a *cut* through that tree. The cut starts at the root and refines, one step at a time, the cluster whose error bound is largest.

**The model covers:**

- `Aabb` (aabb.dfy): the box type `AABB`, with `merge`, `dist_sqr` and `align`. `align` is a method with the nested accumulation loop of the source. It is proved against the function `AlignSpec`.
- `LightTreeNode` (light_tree_node.dfy): the leaf and internal constructors of `LightTree::Node` and `is_leaf`. The node vector is a sequence, and a child link (a `Node *`) is an optional index into it. A *well-formed* vector is one in which every node was made by one of the two constructors from nodes before it. For such a vector, every node sums the colours of the lights below it, and its box is their hull.
- `KdTree` (kdtree.dfy): the class `LcKdTree`. Its slots live in a sequence field, and the `node` field (a `Node *`) is an optional cluster index. The class covers:
  - the constructor and `build_recurse`, with `std::nth_element` on an `array`;
  - `find_nearest`, `find_nearest_recurse` and `check_nearest`;
  - `delete_node` and `update_node`;
  - `is_subtree_deleted_recurse`.

  The recursive methods are proved against the functions `Build`, `Search` and `SweepFrom`. Lemmas state what those functions mean.
- `LightTreeBuild` (light_tree_build.dfy): the candidate queue of `LightTree::build`. It defines obsolete sides, the invariant `Forest` of the agglomeration loop, and lemmas showing that each pop keeps that invariant.
  - The loop ends because each pop lowers the pair of live slots and stale candidates, in lexicographic order.
  - The loop ends with 2L - 1 nodes, and every light lies below the root exactly once.
- `LightCut` (light_cut.dfy):
  - `reuse_estimate`, `bound_error` and `bound_cos_theta`;
  - the refinement loop of `LightTree::eval`;
  - the class `MemoryArena`.
- `LightTree` (light_tree.dfy): the class `LightTree`, with `build` and the methods that make up its loops, `allocate_memory_arena`, `eval` and `is_empty`.
- `Random` (random.dfy): the low-discrepancy helpers and the sampler classes:
  - helpers: `halton`, `vandercorput`, `hammersley`, `sobol2`, `sample02`;
  - classes: `StratifiedSampler1D`, `StratifiedSampler2D`, `HaltonSampler2D`, `HammersleySampler2D`, `LDSampler2D` and `ShuffleSampler`.
- `LowerBoundDistribution` (distribution_a04.dfy): the piecewise-constant distributions of the a04 revision. Their samplers pick the bucket with `std::lower_bound`.
- `BinarySearchDistribution` (distribution_a03.dfy): the a03 revision. It has an early return for a zero integral and a hand-written binary search.
- `Opt`, `Vec`, `Series` hold the shared helpers: `Option`, vectors and matrices over reals, and sums over sequences of reals.

**How inputs are represented:**
- Floats are reals, and a float quotient by zero is `None` (`Series.Quotient`).
- Unsigned 32-bit words are `bv32` where the source relies on bit operations or wrap-around.
- Randomness, the luminance function, the BRDF and the shading term are parameters. The same goes for the square root in the general branch of `align`.

On an empty light list `LightTree::build` returns at once and keeps the tree built before, if any; it does not reset it to an empty tree (`LightTree.LightTree.Build`).

## Model

| member | source | states |
|---|---|---|
| Aabb.Merge | a01/src/algorithms/lightcuts/lc_aabb.h:19-21 | the merged box encloses both boxes, and each bound on each axis comes from one of the two inputs |
| Aabb.MergeCommutative | a01/src/algorithms/lightcuts/lc_aabb.h:19-21 | merge is commutative |
| Aabb.MergeAssociative | a01/src/algorithms/lightcuts/lc_aabb.h:19-21 | merge is associative |
| Aabb.MergeIdempotent | a01/src/algorithms/lightcuts/lc_aabb.h:19-21 | merging a box with itself gives the box |
| Aabb.MergeIsLeast | a01/src/algorithms/lightcuts/lc_aabb.h:19-21 | every box enclosing both inputs encloses their merge, so the merge is the least enclosing box |
| Aabb.MergeOrdered | a01/src/algorithms/lightcuts/lc_aabb.h:19-21 | merging two boxes with min <= max gives such a box |
| Aabb.Point | a01/src/algorithms/lightcuts/lc_light_tree.h:19-20 | the box [p, p] is ordered and contains exactly the point p |
| Aabb.DistSqr | a01/src/algorithms/lightcuts/lc_aabb.h:23-26 | the squared distance is never negative |
| Aabb.DistSqrZeroIffInside | a01/src/algorithms/lightcuts/lc_aabb.h:23-26 | for an ordered box the distance is 0 exactly when the point lies in the box |
| Aabb.DistSqrIsClosest | a01/src/algorithms/lightcuts/lc_aabb.h:23-26 | the clamped point lies in the box, and its distance is dist_sqr; no point of the box is closer |
| Aabb.ClampClosest | a01/src/algorithms/lightcuts/lc_aabb.h:24 | on one axis the clamped coordinate is at least as close as any coordinate in range |
| Aabb.AlignMatrix | a01/src/algorithms/lightcuts/lc_aabb.h:33-45 | when n.x^2 + n.y^2 < 0.01 the matrix is the identity for n.z >= 0 and diag(-1, 1, -1) otherwise |
| Aabb.AlignNearPlusZ | a01/src/algorithms/lightcuts/lc_aabb.h:35-59 | near +z, align returns the box translated by -p with each axis's two corners put in order; an ordered box is just translated |
| Aabb.AlignNearMinusZ | a01/src/algorithms/lightcuts/lc_aabb.h:35-59 | near -z, align mirrors x and z of the translated box and keeps y, each axis's corners put in order, for every box |
| Aabb.AlignOrdered | a01/src/algorithms/lightcuts/lc_aabb.h:50-59 | for any box, point, normal and square root the aligned box has min <= max on every axis |
| Aabb.Align | a01/src/algorithms/lightcuts/lc_aabb.h:28-62 | the nested loop computes AlignSpec, and its result is ordered |
| LightTreeNode.MakeLeaf | a01/src/algorithms/lightcuts/lc_light_tree.h:19-20 | a leaf has no children, is_leaf holds, its light is i, its intensity is the light's colour, and its box contains exactly the light's position |
| LightTreeNode.MakeInternal | a01/src/algorithms/lightcuts/lc_light_tree.h:22-29 | the internal node is not a leaf; its children are l and r; it keeps l's light; its intensity is l's plus r's; its box is the least box enclosing both children's boxes |
| LightTreeNode.AppendInternal | a01/src/algorithms/lightcuts/lc_light_tree.h:22-27 | appending an internal node built from existing nodes keeps the vector well formed |
| LightTreeNode.WellFormedChildrenBefore | a01/src/algorithms/lightcuts/lc_light_tree.h:22-27 | in a well-formed vector every child index lies before its parent |
| LightTreeNode.NodeSummarizesLeaves | a01/src/algorithms/lightcuts/lc_light_tree.h:19-27 | every node's intensity is the summed colour of the lights below it, its box is their hull, and its light is the left-most of them |
| LightTreeNode.ColorSumAppend | a01/src/algorithms/lightcuts/lc_light_tree.h:24 | summed colours add up over a concatenation of light lists |
| LightTreeNode.HullAppend | a01/src/algorithms/lightcuts/lc_light_tree.h:25 | the hull of a concatenation is the merge of the two hulls |
| KdTree.ChildDepths | a03/src/algorithms/lightcuts/lc_kdtree.h:71-86 | both child ranges around the median fit one level deeper, so the recursion stays below depth 255 |
| KdTree.SubtreeSplit | a03/src/algorithms/lightcuts/lc_kdtree.h:85-86 | the subtree of a slot is the slot itself plus the subtrees of its children |
| KdTree.DsMeansAllDeleted | a03/src/algorithms/lightcuts/lc_kdtree.h:142-156 | while the flags are sound, a flagged slot has every slot of its subtree deleted |
| KdTree.AllDeletedSplit | a03/src/algorithms/lightcuts/lc_kdtree.h:147-151 | a subtree is all deleted exactly when its root is deleted and both child subtrees are all deleted or null |
| KdTree.RaiseFlagSound | a03/src/algorithms/lightcuts/lc_kdtree.h:151-153 | raising the flag of a deleted slot whose children are null or flagged keeps the flags sound |
| KdTree.FlagsRaisedKeepsFlag | a03/src/algorithms/lightcuts/lc_kdtree.h:152 | a raised deleted_subtree flag is never reset |
| KdTree.FlagsRaisedKeepsDeleted | a03/src/algorithms/lightcuts/lc_kdtree.h:142-156 | raising flags changes no deleted bit, no link and no payload |
| KdTree.SweepStep | a03/src/algorithms/lightcuts/lc_kdtree.h:151-156 | one unfolding of the sweep at a deleted, unflagged slot: the right child is asked only when the left one answered true, and the flag is raised only when both did |
| KdTree.SweepSound | a03/src/algorithms/lightcuts/lc_kdtree.h:142-156 | the sweep answers whether the whole subtree is deleted (true for null); on true it raises the flag at its start; it raises flags only inside that subtree; it keeps the flags sound |
| KdTree.SweepSoundDeleted | a03/src/algorithms/lightcuts/lc_kdtree.h:151-156 | at a deleted slot whose flag is down, both children are swept and the same four facts hold |
| KdTree.SweepFrom | a03/src/algorithms/lightcuts/lc_kdtree.h:142-156 | the sweep changes no link of any slot |
| KdTree.RangeAllBelow | a03/src/algorithms/lightcuts/lc_kdtree.h:56-61 | the vector of node addresses that the constructor partitions starts as 0, 1, ..., n - 1 |
| KdTree.MinIndex | a03/src/algorithms/lightcuts/lc_kdtree.h:80 | the scan returns the position MinPos of a smallest key along the axis |
| KdTree.MinPosLeast | a03/src/algorithms/lightcuts/lc_kdtree.h:80 | no key in the range is smaller than the key at MinPos |
| KdTree.NthPartitions | a03/src/algorithms/lightcuts/lc_kdtree.h:80 | the nth_element model only permutes the range and leaves the rest alone; afterwards no key before mid is larger and no key after it smaller than the key at mid |
| KdTree.NthElement | a03/src/algorithms/lightcuts/lc_kdtree.h:80 | the in-place selection on the array leaves it equal to Nth of its old contents |
| KdTree.SelectStep | a03/src/algorithms/lightcuts/lc_kdtree.h:80 | swapping the smallest remaining key into place keeps a permutation and selects one more position |
| KdTree.SwapRearranged | a03/src/algorithms/lightcuts/lc_kdtree.h:80 | exchanging two elements of a range permutes the range and leaves the rest alone |
| KdTree.StepMedian | a03/src/algorithms/lightcuts/lc_kdtree.h:72-83 | the new slot takes axis depth mod 3, and its value is the median cluster's aabb.min on that axis |
| KdTree.StepKeys | a03/src/algorithms/lightcuts/lc_kdtree.h:80-86 | the median's key bounds the lower part's keys from above and the upper part's keys from below |
| KdTree.ChildBuild | a03/src/algorithms/lightcuts/lc_kdtree.h:85-86 | an empty range builds nothing and changes nothing |
| KdTree.BuildParts | a03/src/algorithms/lightcuts/lc_kdtree.h:74-88 | build_recurse runs nth_element at mid = lo + (hi - lo) / 2, then the left call over lo..mid and the right call over mid+1..hi; a left child exists exactly when mid > lo and a right child exactly when more than one element is left, counting from the median |
| KdTree.BuildGrown | a03/src/algorithms/lightcuts/lc_kdtree.h:68-89 | build_recurse appends whole subtrees in pre-order. They hold exactly the clusters of the range and are ordered as a search tree at each split value. No earlier slot changes, and only the range of the array is permuted. |
| KdTree.TreeBuilt | a03/src/algorithms/lightcuts/lc_kdtree.h:53-66 | the built tree has one slot per cluster and is rooted at slot 0. It holds every cluster exactly once, is a search tree, and carries no deletion mark. |
| KdTree.LcKdTree.BuildRecurse | a03/src/algorithms/lightcuts/lc_kdtree.h:68-89 | the method returns the median slot's index, and its new state is that of Build |
| KdTree.LcKdTree.BuildChild | a03/src/algorithms/lightcuts/lc_kdtree.h:85-86 | a child call is made exactly when the range is not empty; it returns the child's slot, or None for nullptr |
| KdTree.LcKdTree.constructor | a03/src/algorithms/lightcuts/lc_kdtree.h:53-66 | the tree is valid and has one slot per cluster; it holds every cluster exactly once and is a search tree over them |
| KdTree.Check | a03/src/algorithms/lightcuts/lc_kdtree.h:115-128 | the best result changes exactly when the squared diagonal of the merged box is below the radius and the cost \|diag\|^2 * \|Iq + Ic\|^2 is below the best cost; the new cost is that cost, the radius becomes cost / \|Iq\|^2 and the slot is the current one; the cost never grows |
| KdTree.LcKdTree.CheckNearest | a03/src/algorithms/lightcuts/lc_kdtree.h:115-128 | the method's result is Check |
| KdTree.VisitSound | a03/src/algorithms/lightcuts/lc_kdtree.h:102-104 | the visit of a slot takes it only when it is live and holds a cluster other than the query, and it never loses a result |
| KdTree.SearchStep | a03/src/algorithms/lightcuts/lc_kdtree.h:99-113 | one unfolding of the search: the near child is searched first; the far child is skipped exactly when dx^2 >= the radius after the near search |
| KdTree.SearchSound | a03/src/algorithms/lightcuts/lc_kdtree.h:99-113 | the search keeps the best result consistent and replaces it only by a slot of the subtree; it never loses a result; starting from nothing, it finds something exactly when the subtree holds an eligible slot |
| KdTree.DsNoEligible | a03/src/algorithms/lightcuts/lc_kdtree.h:100 | a flagged subtree holds no eligible slot, so skipping it loses nothing |
| KdTree.LcKdTree.FindNearestRecurse | a03/src/algorithms/lightcuts/lc_kdtree.h:99-113 | the recursive method computes Search |
| KdTree.LcKdTree.FindNearest | a03/src/algorithms/lightcuts/lc_kdtree.h:93-97 | it reports nothing, with cost FLT_MAX (Unbounded), exactly when no live, non-query slot exists; otherwise the slot is live, is not deleted, holds a cluster other than the query, and the cost is their merge cost |
| KdTree.LcKdTree.DeleteNode | a03/src/algorithms/lightcuts/lc_kdtree.h:132-136 | the slot is marked deleted and loses its cluster; value, axis, depth and links stay; afterwards its flag says whether its whole subtree is deleted; other slots change only by flags raised below it, so ancestors keep their flags |
| KdTree.LcKdTree.UpdateNode | a03/src/algorithms/lightcuts/lc_kdtree.h:138-140 | only the payload of slot t changes, and the tree stays valid |
| KdTree.LcKdTree.IsSubtreeDeletedRecurse | a03/src/algorithms/lightcuts/lc_kdtree.h:142-156 | the method answers and changes the slots as SweepFrom does |
| LightTreeBuild.ObsoleteIffNotCurrent | a03/src/algorithms/lightcuts/lc_light_tree.cpp:31-35 | while deleted slots hold no cluster, a candidate side is obsolete exactly when its slot no longer holds the snapshotted cluster |
| LightTreeBuild.DeletePayloads | a03/src/algorithms/lightcuts/lc_light_tree.cpp:113 | delete_node empties the payload of the deleted slot and no other |
| LightTreeBuild.UpdatePayloads | a03/src/algorithms/lightcuts/lc_light_tree.cpp:114 | update_node writes the new cluster into the kept slot and no other |
| LightTreeBuild.Top | a03/src/algorithms/lightcuts/lc_light_tree.cpp:36-43 | the top of the min-queue has a least distance |
| LightTreeBuild.Remove | a03/src/algorithms/lightcuts/lc_light_tree.cpp:86 | pop removes exactly that candidate and keeps the rest |
| LightTreeBuild.StaleRemove | a03/src/algorithms/lightcuts/lc_light_tree.cpp:86-95 | popping a candidate lowers the number of stale candidates by one exactly when it was stale |
| LightTreeBuild.LiveUpdate | a03/src/algorithms/lightcuts/lc_light_tree.cpp:113-114 | the number of live slots changes by what a payload write adds and removes |
| LightTreeBuild.PairFirstCases | a03/src/algorithms/lightcuts/lc_light_tree.cpp:97-104 | for a draw in [0, 1), a dark pair1 never becomes the left child and a dark pair2 never the right child; equal lumas decide on draw < 1/2 |
| LightTreeBuild.JoinedChildren | a03/src/algorithms/lightcuts/lc_light_tree.cpp:100-104 | the new node's children are exactly the two candidate clusters, pair1 on the left exactly when the draw comes first |
| LightTreeBuild.Started | a03/src/algorithms/lightcuts/lc_light_tree.cpp:58-82 | after the leaves, the kd-tree and the initial queries, the loop invariant holds, with no merge yet |
| LightTreeBuild.Requeue | a03/src/algorithms/lightcuts/lc_light_tree.cpp:88-95 | a pop with an obsolete side merges nothing, re-queries only the current sides, keeps the invariant, and leaves one stale candidate fewer |
| LightTreeBuild.MergeVector | a03/src/algorithms/lightcuts/lc_light_tree.cpp:100-104 | appending the joined node keeps the vector well formed and its leaves in place; the lights below it are those below its two children |
| LightTreeBuild.MergeSlots | a03/src/algorithms/lightcuts/lc_light_tree.cpp:106-114 | deleting one candidate slot and writing the new node into the other keeps the slots' clusters distinct and leaves exactly one live slot fewer |
| LightTreeBuild.Merged | a03/src/algorithms/lightcuts/lc_light_tree.cpp:97-116 | a valid pop keeps the invariant, counts one more merge, and leaves fewer live slots |
| LightTreeBuild.Finished | a03/src/algorithms/lightcuts/lc_light_tree.cpp:84-127 | when the queue is empty, L - 1 merges have happened; the vector holds 2L - 1 nodes, and every light is below the last node exactly once |
| LightTree.PushNearest | a03/src/algorithms/lightcuts/lc_light_tree.cpp:69-73 | a candidate is queued exactly when the kd-tree reports a partner; it snapshots both slots' clusters and carries the merge cost |
| LightTree.MergePair | a03/src/algorithms/lightcuts/lc_light_tree.cpp:97-114 | one internal node joining the two candidate clusters is appended, ordered by the draw; the deeper slot (pair2 on a tie) is deleted, and the other one gets the new node |
| LightTree.PushAll | a03/src/algorithms/lightcuts/lc_light_tree.cpp:78-82 | every slot ends up on a queued candidate unless there is a single cluster |
| LightTree.Step | a03/src/algorithms/lightcuts/lc_light_tree.cpp:84-119 | one pass keeps the invariant and lowers either the number of live slots or the number of stale candidates |
| LightTree.Agglomerate | a03/src/algorithms/lightcuts/lc_light_tree.cpp:84-123 | the loop ends with 2L - 1 well-formed nodes, the leaves in light order and every light below the last node exactly once |
| LightTree.Agglomerated | a03/src/algorithms/lightcuts/lc_light_tree.cpp:51-123 | the body of build for a non-empty list yields that vector |
| LightTree.LightTree.constructor | a01/src/algorithms/lightcuts/lc_light_tree.h:40-56 | a default tree has no lights, no nodes and no root, so it is empty |
| LightTree.LightTree.Build | a03/src/algorithms/lightcuts/lc_light_tree.cpp:48-128 | with no lights nothing changes; otherwise the first L nodes are the leaves in order, 2L - 1 nodes exist, the root is the last of them, and every light lies below it exactly once |
| LightTree.LightTree.AllocateMemoryArena | a03/src/algorithms/lightcuts/lc_light_tree.cpp:159-184 | a fresh arena with one queue per thread, each with min(MAX_CUT, L) reserved |
| LightCut.ReuseAxisExact | a03/src/algorithms/lightcuts/lc_light_tree.cpp:257-263 | on a channel with positive parent intensity, reuse gives prev / i_parent * i_current exactly; a channel at or below 0 gives 0 |
| LightCut.ReuseExact | a03/src/algorithms/lightcuts/lc_light_tree.cpp:257-263 | when the previous estimate scales the parent's intensity, reuse gives the child's intensity scaled alike, on every channel where this is defined |
| LightCut.PushEstimateExact | a03/src/algorithms/lightcuts/lc_light_tree.cpp:257-263 | with non-negative light colours, reusing the parent's estimate for a child with the same light equals calc_estimate of the child |
| LightCut.IntensityNonNegative | a01/src/algorithms/lightcuts/lc_light_tree.h:19-27 | with non-negative light colours every node's intensity is non-negative |
| LightCut.NormSquare | a03/src/algorithms/lightcuts/lc_light_tree.cpp:270-275 | the quantity under the root of bound_cos_theta is non-negative, and positive when max.z is not 0 |
| LightCut.NearSquare | a03/src/algorithms/lightcuts/lc_light_tree.cpp:267-269 | the least square on an axis is non-negative |
| LightCut.FarSquare | a03/src/algorithms/lightcuts/lc_light_tree.cpp:273-274 | the largest square on an axis is non-negative |
| LightCut.BoundErrorCases | a03/src/algorithms/lightcuts/lc_light_tree.cpp:278-289 | a leaf has error 0, and an internal cluster whose box holds the vertex has error FLT_MAX on every channel |
| LightCut.BoundErrorNonNegative | a03/src/algorithms/lightcuts/lc_light_tree.cpp:278-299 | the error bound is non-negative when the intensity and the BRDF value are |
| LightCut.Heaviest | a03/src/algorithms/lightcuts/lc_light_tree.cpp:138-148 | the top of the max-heap has the largest cost \|error\|^2 |
| LightCut.PushCluster | a03/src/algorithms/lightcuts/lc_light_tree.cpp:205-211 | the pushed cluster carries the node, the estimate push_cluster chooses, and bound_error as error |
| LightCut.SplitCovers | a03/src/algorithms/lightcuts/lc_light_tree.cpp:216-225 | replacing a cluster by its two children keeps every light in the cut exactly once |
| LightCut.SplitSum | a03/src/algorithms/lightcuts/lc_light_tree.cpp:223-225 | the running total follows a refinement: it loses the popped estimate and gains both children's |
| LightCut.CutSize | a03/src/algorithms/lightcuts/lc_light_tree.cpp:215-226 | a cut never has more clusters than there are lights |
| LightCut.Refine | a03/src/algorithms/lightcuts/lc_light_tree.cpp:213-228 | L is the sum of the cut's estimates, and the cut covers every light exactly once with bound_error's bounds. The cut has between 1 and min(MAX_CUT, L) clusters; below MAX_CUT the loop stopped at a leaf or within THRESHOLD of L. The reported size is the heap size plus one. Estimates are exact for non-negative colours. |
| LightCut.CapacityAfter | a03/src/algorithms/lightcuts/lc_light_tree.cpp:164-174 | a vector's capacity never shrinks and covers what it held; it is unchanged exactly when that fitted |
| LightCut.MemoryArena.constructor | a03/src/algorithms/lightcuts/lc_light_tree.cpp:159-166 | one empty queue per thread, each reserving min(MAX_CUT, light_count) |
| LightCut.MemoryArena.AllocThreadLocal | a03/src/algorithms/lightcuts/lc_light_tree.cpp:168-171 | the thread's queue is moved out, and an empty queue without storage is left behind |
| LightCut.MemoryArena.FreeThreadLocal | a03/src/algorithms/lightcuts/lc_light_tree.cpp:173-176 | the queue is cleared, keeps its storage, and is moved back as the thread's queue |
| LightTree.LightTree.Eval | a03/src/algorithms/lightcuts/lc_light_tree.cpp:200-236 | as Refine, plus the arena gets the thread's queue back, cleared, and unchanged when the reservation sufficed; the result is the heatmap of cut size / MAX_CUT when debugging, otherwise throughput * L / light count |
| Random.RadicalInverse | a01/src/gi/random.h:50-59 | the radical inverse lies in [0, 1) |
| Random.HaltonStep | a01/src/gi/random.h:53-57 | one round of the loop keeps result + f * base * (what is left of i) at the radical inverse of the start index |
| Random.Halton | a01/src/gi/random.h:50-59 | halton returns the radical inverse of i, and 0 for i <= 0; the loop runs once per base-b digit of i |
| Random.ReverseBits | a01/src/gi/random.h:70-74 | bit k of the result is bit 31 - k of the word |
| Random.ReverseTwice | a01/src/gi/random.h:70-74 | applying the five swap steps twice gives the word back |
| Random.Unit24 | a01/src/gi/random.h:76 | the result is k / 2^24 for the top 24 bits k of the word, and it lies in [0, 1) |
| Random.VanDerCorput | a01/src/gi/random.h:69-77 | the value is the 24-bit fraction of the reversed, scrambled word, in [0, 1) |
| Random.SobolRound | a01/src/gi/random.h:101-103 | one round xors in v when the low bit of i is set, keeping scramble ^ Mix(i, v) |
| Random.SobolScramble | a01/src/gi/random.h:101-103 | the loop xors into the scramble the direction word of every set bit of i; it runs once per binary digit |
| Random.Sobol2 | a01/src/gi/random.h:100-105 | sobol2 returns SobolValue, a fraction in [0, 1); its loop runs at most 32 times |
| Random.Hammersley | a01/src/gi/random.h:88-90 | the point is (i / n, vandercorput(i)), inside the unit square when i < n |
| Random.Ratio | a01/src/gi/random.h:89 | i / n times n gives i back, and it lies in [0, 1) for i < n |
| Random.Sample02 | a01/src/gi/random.h:115-117 | the point is (vandercorput, sobol2) with one scramble each, inside the unit square |
| Random.Shuffled | a01/src/gi/random.h:289-296 | a shuffle keeps the length and is a permutation |
| Random.StratifiedSampler1D.Init | a01/src/gi/random.h:134-143 | n = N, i = 0, and the strata are the shuffle of 0 .. N - 1, which is a permutation of it |
| Random.StratifiedSampler1D.Next | a01/src/gi/random.h:145-156 | the cursor wraps to 0 once i >= n, then advances; the sample is (stratum + u) / n, and for u in [0, 1) it lies in [s/n, (s+1)/n) within [0, 1) |
| Random.FloorSqrt | a01/src/gi/random.h:182 | floor(sqrt(N)) is the largest r with r * r <= N |
| Random.GridSample | a01/src/gi/random.h:199-206 | stratum s falls in cell (s mod n, s div n), and its sample lies in that cell inside the unit square |
| Random.StratifiedSampler2D.Init | a01/src/gi/random.h:179-191 | n = floor(sqrt(N)), totalStrata = n * n, i = 0, and N strata |
| Random.StratifiedSampler2D.Next | a01/src/gi/random.h:193-207 | the cursor wraps at n * n, then advances, and the sample is the jittered sample of the cell under the cursor |
| Random.SignedIndex | a01/src/gi/random.h:227 | the uint32 cursor becomes the one 32-bit int congruent to it modulo 2^32: unchanged below 2^31, negative from 2^31 on |
| Random.HaltonPoint | a01/src/gi/random.h:227 | the Halton point with bases 2 and 3 lies inside the unit square |
| Random.HaltonSampler2D.Init | a01/src/gi/random.h:218-222 | init resets the cursor to 0 |
| Random.HaltonSampler2D.Next | a01/src/gi/random.h:224-230 | next returns the Halton point of the cursor and advances it by one |
| Random.HammersleySampler2D.Init | a01/src/gi/random.h:238-244 | n = N, i = 0, and the scramble is the seed |
| Random.HammersleySampler2D.Next | a01/src/gi/random.h:246-252 | next returns hammersley(i, n, scramble) and advances the cursor by one |
| Random.LDSampler2D.Init | a01/src/gi/random.h:262-268 | the cursor is reset to 0 and both scrambles are the seeds |
| Random.LDSampler2D.Next | a01/src/gi/random.h:270-276 | next returns sample02 of the cursor, which lies in the unit square, and advances the cursor by one |
| Random.ShuffleSampler.constructor | a01/src/gi/random.h:289-294 | N samples are drawn in order, and the stored samples are a shuffle of them |
| Random.ShuffleSampler.At | a01/src/gi/random.h:296 | every sample read is one of the drawn samples |
| Series.Quotient | a04/src/gi/distribution.cpp:31-33 | a float quotient is defined exactly when the divisor is not 0, and then times the divisor gives the dividend |
| LowerBoundDistribution.Build | a04/src/gi/distribution.cpp:13-23 | func is kept, cdf[0] = 0, cdf[i] is the prefix sum over the integral (i / N for a zero integral), and the integral is the total |
| LowerBoundDistribution.CdfEnds | a04/src/gi/distribution.cpp:15-22 | the cdf starts at 0 and, for N > 0, ends at 1 as asserted |
| LowerBoundDistribution.EmptyCdf | a04/src/gi/distribution.cpp:22 | for N = 0 the cdf is [0], so the assertion cdf[N] == 1 fails |
| LowerBoundDistribution.CdfMonotone | a04/src/gi/distribution.cpp:15-21 | with non-negative values the cdf never decreases and stays in [0, 1] |
| LowerBoundDistribution.BucketMass | a04/src/gi/distribution.cpp:17-21 | for a non-zero integral the cdf steps by func[i] / integral |
| LowerBoundDistribution.Integral | a04/src/gi/distribution.cpp:27-29 | the integral is the sum of the values, non-negative when they are |
| LowerBoundDistribution.UnitIntegral | a04/src/gi/distribution.cpp:31-33 | integral / N is defined exactly for N > 0, and N times it is the total |
| LowerBoundDistribution.PdfIndex | a04/src/gi/distribution.cpp:40-43 | func[index] / integral is defined exactly for a non-zero integral, and it is the cdf step of the bucket |
| LowerBoundDistribution.PdfAt | a04/src/gi/distribution.cpp:35-38 | the density at a point is N times the cdf step of the bucket floor(sample * N), defined exactly for a non-zero integral |
| LowerBoundDistribution.LowerBound | a04/src/gi/distribution.cpp:47 | std::lower_bound gives the first entry not below x: all before are below, the entry at it is not |
| LowerBoundDistribution.Offset | a04/src/gi/distribution.cpp:47-49 | the offset is a bucket below N; the entry at it is below the sample unless it is 0; the sample is at most cdf[offset + 1] |
| LowerBoundDistribution.SampleIndex | a04/src/gi/distribution.cpp:58-66 | the bucket's cdf interval (cdf[offset], cdf[offset + 1]] holds the sample; the pdf is the bucket's cdf step for a positive integral, and 0 otherwise |
| LowerBoundDistribution.Interpolate | a04/src/gi/distribution.cpp:50-52 | the sample's share of its bucket lies in [0, 1], below 1 in the last bucket; it is divided only by a positive width |
| LowerBoundDistribution.Position | a04/src/gi/distribution.cpp:55 | (offset + du) / N lies in the offset's part of [0, 1) |
| LowerBoundDistribution.Sample01 | a04/src/gi/distribution.cpp:45-56 | the point lies in the part of [0, 1) of the bucket sample_index picks, and the density is N times that bucket's cdf step for a positive integral, and 0 otherwise |
| LowerBoundDistribution.Build2D | a04/src/gi/distribution.cpp:71-79 | one conditional per row over that row's values and a marginal over the row integrals |
| LowerBoundDistribution.GridSum | a04/src/gi/distribution.cpp:71-85 | the marginal's integral is the sum of all w * h values |
| LowerBoundDistribution.Integral2D | a04/src/gi/distribution.cpp:83-85 | integral() is the sum of all w * h values |
| LowerBoundDistribution.UnitIntegral2D | a04/src/gi/distribution.cpp:87-89 | the unit integral is defined exactly for w > 0, and h * w times it is the total |
| LowerBoundDistribution.Sample2D | a04/src/gi/distribution.cpp:91-98 | y lies in the part of the marginal's bucket, x in the part of the bucket of the conditional of row floor(y * h), and the pdf is the product of the two densities |
| LowerBoundDistribution.CellIndex | a04/src/gi/distribution.cpp:102-103 | for a sample in [0, 1) the clamped cell index equals the floor and lies in [0, n - 1] |
| LowerBoundDistribution.Pdf2DCell | a04/src/gi/distribution.cpp:100-105 | the 2D pdf is the value of the cell under the sample over the total |
| BinarySearchDistribution.Build | a03/src/gi/distribution.cpp:13-27 | func is kept; a zero integral leaves the cdf all zeros; otherwise cdf[i] = (func[0] + ... + func[i-1]) / integral for i < N, and cdf[N] = 1 |
| BinarySearchDistribution.Share | a03/src/gi/distribution.cpp:21-26 | for a non-zero integral every entry, the last included, is the share of the values before it |
| BinarySearchDistribution.CdfEnds | a03/src/gi/distribution.cpp:19-26 | the cdf starts at 0 and ends at 1 for a non-zero integral |
| BinarySearchDistribution.BucketMass | a03/src/gi/distribution.cpp:23-24 | for a non-zero integral the cdf steps by func[i] / integral |
| BinarySearchDistribution.CdfMonotone | a03/src/gi/distribution.cpp:21-26 | with non-negative values the cdf never decreases and stays in [0, 1] |
| BinarySearchDistribution.Integral | a03/src/gi/distribution.cpp:14-33 | the integral is the sum of the values |
| BinarySearchDistribution.UnitIntegral | a03/src/gi/distribution.cpp:35-37 | integral / N is defined exactly for N > 0, and N times it is the total |
| BinarySearchDistribution.PdfIndex | a03/src/gi/distribution.cpp:44-47 | func[index] / integral is defined exactly for a non-zero integral, and it is the bucket's cdf step |
| BinarySearchDistribution.Bucket | a03/src/gi/distribution.cpp:41 | a point of [0, 1) scaled by N and truncated is a bucket below N |
| BinarySearchDistribution.PdfAt | a03/src/gi/distribution.cpp:39-42 | the density at a point is N times the cdf step of its bucket, defined exactly for a non-zero integral |
| BinarySearchDistribution.UpperBound | a03/src/gi/distribution.cpp:54-61 | the first entry above x: all before are at most x, the entry at it is above |
| BinarySearchDistribution.BucketIsUpperBound | a03/src/gi/distribution.cpp:54-61 | on a non-decreasing cdf the bucket holding x is the one just before the upper bound, so it is unique |
| BinarySearchDistribution.Interpolation | a03/src/gi/distribution.cpp:62-63 | t lies in [0, 1) and interpolates back to the sample |
| BinarySearchDistribution.Search | a03/src/gi/distribution.cpp:54-61 | the loop ends with end = start + 1 <= N and cdf[start] <= sample < cdf[end] |
| BinarySearchDistribution.Position | a03/src/gi/distribution.cpp:62-64 | (start + t) / N lies in bucket start's part of [0, 1), truncates back to start, and reads back to the sample |
| BinarySearchDistribution.DrawnRange | a03/src/gi/distribution.cpp:53-65 | whatever the integral, the result lies in [0, 1), as asserted |
| BinarySearchDistribution.Sample01 | a03/src/gi/distribution.cpp:49-67 | a zero integral returns (sample, 1 / N). Otherwise the result lies in the bucket whose cdf interval holds the sample; that bucket is the one before the upper bound, and the result reads back to the sample. The pdf is N times the bucket's cdf step, which is pdf(result). The result always lies in [0, 1). |
| BinarySearchDistribution.SampleIndex | a03/src/gi/distribution.cpp:69-75 | the index is sample_01 scaled by N and truncated, a bucket below N; its pdf is pdf(index), None (0 / 0) for a zero integral |
| BinarySearchDistribution.NextCond | a03/src/gi/distribution.cpp:100-107 | one row of the second loop overwrites cond with the row over its integral unless that is 0 |
| BinarySearchDistribution.RowIntegrals | a03/src/gi/distribution.cpp:89-96 | the first loop yields each row's integral and their total |
| BinarySearchDistribution.Conditionals | a03/src/gi/distribution.cpp:99-108 | the second loop yields, for every row, a valid conditional over the carried `cond` buffer |
| BinarySearchDistribution.Build2D | a03/src/gi/distribution.cpp:80-111 | the rows, the row integrals, a marginal over them, and each row's conditional from the cond buffer |
| BinarySearchDistribution.ConditionalNormalised | a03/src/gi/distribution.cpp:101-107 | a row with a non-zero integral gets a conditional whose values sum to 1 |
| BinarySearchDistribution.GridSum | a03/src/gi/distribution.cpp:89-119 | f_integral is the sum of all w * h values and the marginal's integral |
| BinarySearchDistribution.Integral2D | a03/src/gi/distribution.cpp:115-119 | integral() is the sum of all w * h values |
| BinarySearchDistribution.UnitIntegral2D | a03/src/gi/distribution.cpp:121-125 | the unit integral is defined exactly for w > 0, and it is the sum of the grid divided by its h * w cells |
| BinarySearchDistribution.GridCells | a03/src/gi/distribution.cpp:121-125 | the marginal's size times the first conditional's size is h * w, which is 0 only for w = 0, and f_integral is the grid's sum |
| BinarySearchDistribution.Sample2D | a03/src/gi/distribution.cpp:127-133 | y is drawn from the marginal, x from the conditional of row floor(y * h), and the pdf is the product of their pdfs |
| BinarySearchDistribution.SampledRowHasMass | a03/src/gi/distribution.cpp:127-133 | the row a sample lands in has a non-zero integral, so its conditional sums to 1 and the inherited cond buffer is never drawn from |

## Left out

- Floating point: every `float`, `double` and `glm::vec3` is a real or a triple of reals, with no rounding and no overflow. A quotient by zero, which gives an infinity or NaN in floats, is `None` or an explicit case.
- `FLT_MAX` as the start cost and radius of `find_nearest` becomes the sentinel `Unbounded`: no finite float cost reaches it. `cost / |Iq|^2` with `|Iq|^2 = 0` becomes `Unbounded` as well, because both the infinity and the NaN never prune. `bound_error` returns the real value of `FLT_MAX`.
- `LightTreeBuild.PairFirst`: when `i1 + i2 = 0` the float quotient is an infinity or NaN; the model takes pair1 first exactly when `i1 > 0`, which is what the float comparison of a draw with +inf, -inf or NaN gives.
- The luma function, the BRDF call, the shadow-ray test of `calc_estimate` and the square root are parameters with no body. These are foreign calls into the colour, material and Embree code. `calc_estimate` becomes the parameter `shade`.
- `AlignMatrix`: the general Rodrigues branch is modelled with the given square root, but only that it gives an ordered box is proved about it.
- `bound_cos_theta` is modelled with the given square root, and only the signs of its parts are proved.
- OpenMP: the arena's queues are indexed by an explicit thread number, and the model has no concurrent threads.
- `RNG::uniform_float` and `RNG::uniform` are injected values (`draw(k)`, `u`, seeds). `RNG::shuffle` is a sequence of swaps given as a parameter, so any permutation can come out.
- `UniformSampler1D` and `UniformSampler2D` only return an injected random value; they are not modelled.
- `plot_samples`, `plot_all_samplers2D`, the sampler benchmarks, `plot_histogram`, `plot_heatmap`, `debug_distributions`, `print_binary`, `print_dot`, the progress bar and the timer are console and file output.
- The priority queues are sequences: the top is the first entry of least distance (or of largest cost). The order among equal keys, which a binary heap does not pin down, is this one choice.
- A vector's capacity growth is modelled only as "never shrinks and at least what it held" (`LightCut.CapacityAfter`). The `nodes.reserve` assertion that the vector never reallocated becomes the node count.
- `KdTree.LcKdTree.FindNearest`: only soundness is proved (the reported slot is eligible, and nothing is reported exactly when nothing is eligible), not that it is the cheapest. After `update_node`, the split values no longer bound the payload boxes, so pruning can miss the cheapest partner.
- `KdTree.NthElement`: `std::nth_element` leaves the order within each side unspecified; the model uses a partial selection sort, and only the partition and the permutation are stated about it.
- `Random.FloorSqrt`: `uint32_t(std::sqrt(N))` is taken as the exact floor of the square root; float rounding for large N is not modelled.
- `Random.Hammersley`, `Random.Ratio` and `Random.HammersleySampler2D.Next`: the model requires n > 0. For n = 0, `float(i) / float(n)` is an infinity or NaN in floats, and that case is not modelled. The sampler's constructor leaves n = 0, so a `next()` before any `init(N)` with N > 0 is outside the model. The unit-square bound is stated only for i < n.
- `Random.Halton`: a base below 2 divides by zero or never ends; the model requires base >= 2.
- The assertions `f_integral >= 0`, `func[i] >= 0`, `w > 0 && h > 0` and the finiteness checks are not modelled as checks: where a property needs them they are hypotheses (`NonNegative(f)`). Elsewhere the model follows the computation the code performs.
- `LowerBoundDistribution.LowerBound`: a04 does not assert `func[i] >= 0`. With a negative value the cdf is not sorted, and `std::lower_bound` then has no specified result. The model's linear scan finds the first entry not below the sample on any cdf. That is one choice among several results a library could give on an unsorted range; only on a sorted cdf is it the result `std::lower_bound` promises.
- `LowerBoundDistribution.Build`: for N = 0 the assertion `cdf[N] == 1` fails; the model builds the distribution and `EmptyCdf` states the failure.
- `BinarySearchDistribution.Sample01` requires N > 0. The a03 constructor accepts N = 0 (its zero integral returns early with cdf = [0]), and `sample_01` then returns `{sample, 1.f / 0}`, an infinity in floats. That case is not modelled.
- `LowerBoundDistribution.Sample2D` requires non-negative values: with a negative value the row index `uint32_t(y * h)` can leave the grid.
- `std::reduce` adds in an unspecified order; over reals the sum does not depend on it.
- `distribution.h` is not part of this model; `f(i)` is taken to be `func[i]` and `size()` to be N.
- The a03 `Distribution2D::pdf` throws "not implemented" and is not modelled.
- The a03 `Distribution2D` reuses the `cond` buffer: a row with a zero integral gets the previous non-zero row's normalised values, or zeros before the first one (`BinarySearchDistribution.Carried`). `SampledRowHasMass` states that sampling never lands in such a row.
- The memory arena's `free_memory_arena` is `delete` and is not modelled.
