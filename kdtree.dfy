/**
 * LcKdTree: the kd-tree over light-tree clusters that the light-tree builder
 * uses to find, for a cluster, the partner whose merge is cheapest.
 *
 * The tree's nodes live in one vector (`slots`) that is filled in pre-order
 * by the recursive construction, so the subtree of slot `s` is the
 * contiguous range [s, s + span[s]); `span` is ghost bookkeeping of that
 * layout. A slot refers to its cluster by the cluster's index into the
 * light tree's node vector (a `Node *` in the source, None for nullptr).
 */
module KdTree {
  import opened Opt
  import opened Vec
  import opened Aabb
  import opened LightTreeNode

  /** LcKdTree::Node */
  datatype KdNode = KdNode(node: Option<nat>, value: real, axis: nat, depth: nat,
                           deleted: bool, deletedSubtree: bool,
                           left: Option<nat>, right: Option<nat>)

  /** The depth of every slot must stay below the largest uint8_t. */
  const DEPTH_LIMIT: nat := 255

  /** The depth of the median-split tree over `count` elements. */
  function Height(count: nat): nat
  {
    if count == 0 then 0 else 1 + Height(count / 2)
  }

  lemma {:induction false} HeightMonotone(a: nat, b: nat)
    requires a <= b
    ensures Height(a) <= Height(b)
    decreases b
  {
    if a > 0 {
      HeightMonotone(a / 2, b / 2);
    }
  }

  /**
   * Both parts around the median of a range, perm[lo..mid) and
   * perm[upper..hi) with upper == mid + 1, fit one level deeper.
   */
  lemma ChildDepths(depth: nat, lo: nat, mid: nat, upper: nat, hi: nat)
    requires lo <= mid < hi && mid == lo + (hi - lo) / 2 && upper == mid + 1
    requires depth + Height(hi - lo) <= DEPTH_LIMIT
    ensures depth < DEPTH_LIMIT
    ensures depth + 1 + Height(mid - lo) <= DEPTH_LIMIT
    ensures depth + 1 + Height(hi - upper) <= DEPTH_LIMIT
  {
    HeightMonotone(hi - upper, (hi - lo) / 2);
  }

  /** The split coordinate of cluster `c` along `axis`: its box's min corner. */
  function Key(nodes: seq<Node>, c: nat, axis: nat): real
    requires c < |nodes| && axis < 3
  {
    nodes[c].aabb.min.At(axis)
  }

  // ---------------------------------------------------------------------------
  // Layout of the slot vector

  /**
   * Slot `s` heads a subtree of span[s] slots laid out in pre-order: the
   * left child (over the lower half, count / 2 elements) comes right after
   * it, the right child (over the rest but the median) after the left
   * subtree; children are one level deeper and the axis cycles with depth.
   */
  predicate ShapeAt(slots: seq<KdNode>, span: seq<nat>, s: nat)
    requires |span| == |slots| && s < |slots|
  {
    var n := span[s];
    var h := n / 2;
    1 <= n && s + n <= |slots|
    && slots[s].axis == slots[s].depth % 3 && slots[s].depth < DEPTH_LIMIT
    && slots[s].left == (if h > 0 then Some(s + 1) else None)
    && slots[s].right == (if n - h > 1 then Some(s + 1 + h) else None)
    && (h > 0 ==> span[s + 1] == h && slots[s + 1].depth == slots[s].depth + 1)
    && (n - h > 1 ==> span[s + 1 + h] == n - h - 1 && slots[s + 1 + h].depth == slots[s].depth + 1)
  }

  predicate Shape(slots: seq<KdNode>, span: seq<nat>)
  {
    |span| == |slots| && forall s :: 0 <= s < |slots| ==> ShapeAt(slots, span, s)
  }

  predicate InSubtree(span: seq<nat>, s: nat, t: nat)
    requires s < |span|
  {
    s <= t < s + span[s]
  }

  /** The subtree of `s` is `s` itself and the subtrees of its children. */
  lemma SubtreeSplit(slots: seq<KdNode>, span: seq<nat>, s: nat, t: nat)
    requires Shape(slots, span) && s < |slots|
    ensures slots[s].left.Some? ==> slots[s].left.value < |slots|
    ensures slots[s].right.Some? ==> slots[s].right.value < |slots|
    ensures InSubtree(span, s, t) <==>
      t == s
      || (slots[s].left.Some? && InSubtree(span, slots[s].left.value, t))
      || (slots[s].right.Some? && InSubtree(span, slots[s].right.value, t))
  {
    assert ShapeAt(slots, span, s);
  }

  /** A child's subtree is a smaller part of its parent's subtree. */
  lemma ChildSubtree(slots: seq<KdNode>, span: seq<nat>, s: nat, c: Option<nat>)
    requires Shape(slots, span) && s < |slots| && (c == slots[s].left || c == slots[s].right)
    ensures c.Some? ==> c.value < |slots| && span[c.value] < span[s]
    ensures c.Some? ==> forall t :: InSubtree(span, c.value, t) ==> InSubtree(span, s, t)
  {
    assert ShapeAt(slots, span, s);
  }

  /** The deleted_subtree flag is set only on a deleted slot whose children are null or flagged. */
  predicate DsSoundAt(slots: seq<KdNode>, s: nat)
    requires s < |slots|
  {
    slots[s].deletedSubtree ==>
      slots[s].deleted
      && (slots[s].left.None? || (slots[s].left.value < |slots| && slots[slots[s].left.value].deletedSubtree))
      && (slots[s].right.None? || (slots[s].right.value < |slots| && slots[slots[s].right.value].deletedSubtree))
  }

  predicate DsSound(slots: seq<KdNode>)
  {
    forall s :: 0 <= s < |slots| ==> DsSoundAt(slots, s)
  }

  /** A slot that is not deleted holds a cluster. */
  predicate LiveHavePayload(slots: seq<KdNode>)
  {
    forall s :: 0 <= s < |slots| ==> !slots[s].deleted ==> slots[s].node.Some?
  }

  predicate AllDeleted(slots: seq<KdNode>, span: seq<nat>, s: nat)
    requires s < |span|
  {
    forall t :: s <= t < s + span[s] && t < |slots| ==> slots[t].deleted
  }

  /** Every slot below a flagged slot is deleted. */
  lemma {:induction false} DsMeansAllDeleted(slots: seq<KdNode>, span: seq<nat>, s: nat)
    requires Shape(slots, span) && DsSound(slots) && s < |slots|
    requires slots[s].deletedSubtree
    ensures AllDeleted(slots, span, s)
    decreases span[s]
  {
    assert ShapeAt(slots, span, s);
    assert DsSoundAt(slots, s);
    var n := span[s];
    if n / 2 > 0 {
      DsMeansAllDeleted(slots, span, s + 1);
    }
    if n - n / 2 > 1 {
      DsMeansAllDeleted(slots, span, s + 1 + n / 2);
    }
    forall t | s <= t < s + n && t < |slots|
      ensures slots[t].deleted
    {
      SubtreeSplit(slots, span, s, t);
    }
  }

  /** The subtree of `s` is all deleted exactly when `s` and its children's subtrees are. */
  lemma AllDeletedSplit(slots: seq<KdNode>, span: seq<nat>, s: nat)
    requires Shape(slots, span) && s < |slots|
    ensures slots[s].left.Some? ==> slots[s].left.value < |slots|
    ensures slots[s].right.Some? ==> slots[s].right.value < |slots|
    ensures AllDeleted(slots, span, s) <==>
      slots[s].deleted
      && (slots[s].left.None? || AllDeleted(slots, span, slots[s].left.value))
      && (slots[s].right.None? || AllDeleted(slots, span, slots[s].right.value))
  {
    assert ShapeAt(slots, span, s);
    forall t | 0 <= t < |slots|
      ensures InSubtree(span, s, t) <==>
        t == s
        || (slots[s].left.Some? && InSubtree(span, slots[s].left.value, t))
        || (slots[s].right.Some? && InSubtree(span, slots[s].right.value, t))
    {
      SubtreeSplit(slots, span, s, t);
    }
  }

  /** Two slot vectors with the same links, depths and axes. */
  predicate SameLinks(a: seq<KdNode>, b: seq<KdNode>)
  {
    |a| == |b| && forall t :: 0 <= t < |a| ==>
      a[t].left == b[t].left && a[t].right == b[t].right
      && a[t].depth == b[t].depth && a[t].axis == b[t].axis
  }

  lemma ShapeSameLinks(a: seq<KdNode>, b: seq<KdNode>, span: seq<nat>)
    requires Shape(a, span) && SameLinks(a, b)
    ensures Shape(b, span)
  {
    forall s | 0 <= s < |b|
      ensures ShapeAt(b, span, s)
    {
      assert ShapeAt(a, span, s);
    }
  }

  /** `b` is `a` with some deleted_subtree flags raised inside the subtree of `s`. */
  predicate FlagsRaised(a: seq<KdNode>, b: seq<KdNode>, span: seq<nat>, s: nat)
    requires s < |span|
  {
    |a| == |b| && forall t :: 0 <= t < |a| ==>
      b[t] == a[t].(deletedSubtree := b[t].deletedSubtree)
      && (a[t].deletedSubtree ==> b[t].deletedSubtree)
      && (!InSubtree(span, s, t) ==> b[t] == a[t])
  }

  lemma FlagsRaisedReflexive(a: seq<KdNode>, span: seq<nat>, s: nat)
    requires s < |span|
    ensures FlagsRaised(a, a, span, s)
  {
  }

  lemma FlagsRaisedTransitive(a: seq<KdNode>, b: seq<KdNode>, c: seq<KdNode>, span: seq<nat>, s: nat)
    requires s < |span| && FlagsRaised(a, b, span, s) && FlagsRaised(b, c, span, s)
    ensures FlagsRaised(a, c, span, s)
  {
  }

  /** Changes below a child are changes below its parent. */
  lemma FlagsRaisedWiden(a: seq<KdNode>, b: seq<KdNode>, span: seq<nat>, child: nat, s: nat)
    requires Shape(a, span) && s < |a| && child < |a|
    requires a[s].left == Some(child) || a[s].right == Some(child)
    requires FlagsRaised(a, b, span, child)
    ensures FlagsRaised(a, b, span, s)
  {
    forall t | 0 <= t < |a| && InSubtree(span, child, t)
      ensures InSubtree(span, s, t)
    {
      SubtreeSplit(a, span, s, t);
    }
  }

  /** Raising flags changes no deleted bit, so no AllDeleted answer. */
  lemma FlagsRaisedKeepsDeleted(a: seq<KdNode>, b: seq<KdNode>, span: seq<nat>, s: nat)
    requires Shape(a, span) && s < |a| && FlagsRaised(a, b, span, s)
    ensures Shape(b, span)
    ensures forall x :: 0 <= x < |a| ==> (AllDeleted(a, span, x) <==> AllDeleted(b, span, x))
    ensures LiveHavePayload(a) ==> LiveHavePayload(b)
  {
    assert SameLinks(a, b);
    ShapeSameLinks(a, b, span);
    forall x | 0 <= x < |a|
      ensures AllDeleted(a, span, x) <==> AllDeleted(b, span, x)
    {
      assert forall t :: 0 <= t < |a| ==> a[t].deleted == b[t].deleted;
    }
  }

  /** Flags raised below `s` and then below one of its children are flags raised below `s`. */
  lemma FlagsRaisedChild(a: seq<KdNode>, b: seq<KdNode>, c: seq<KdNode>, span: seq<nat>, s: nat, child: Option<nat>)
    requires Shape(a, span) && s < |a| && FlagsRaised(a, b, span, s)
    requires child == b[s].left || child == b[s].right
    requires child.None? ==> c == b
    requires child.Some? ==> child.value < |b| && FlagsRaised(b, c, span, child.value)
    ensures FlagsRaised(a, c, span, s) && Shape(c, span)
    ensures forall x :: 0 <= x < |a| ==> (AllDeleted(a, span, x) <==> AllDeleted(c, span, x))
    ensures LiveHavePayload(a) ==> LiveHavePayload(c)
  {
    FlagsRaisedKeepsDeleted(a, b, span, s);
    if child.Some? {
      FlagsRaisedWiden(b, c, span, child.value, s);
      FlagsRaisedTransitive(a, b, c, span, s);
    }
    FlagsRaisedKeepsDeleted(a, c, span, s);
  }

  /** A raised flag stays raised. */
  lemma FlagsRaisedKeepsFlag(a: seq<KdNode>, b: seq<KdNode>, span: seq<nat>, s: nat, x: nat)
    requires s < |span| && FlagsRaised(a, b, span, s) && x < |a| && a[x].deletedSubtree
    ensures b[x].deletedSubtree
  {
  }

  /** Raising the flag of a deleted slot whose children are null or flagged keeps the flags sound. */
  lemma RaiseFlagSound(a: seq<KdNode>, span: seq<nat>, s: nat)
    requires Shape(a, span) && DsSound(a) && s < |a|
    requires a[s].deleted
    requires a[s].left.None? || (a[s].left.value < |a| && a[a[s].left.value].deletedSubtree)
    requires a[s].right.None? || (a[s].right.value < |a| && a[a[s].right.value].deletedSubtree)
    ensures var b := a[s := a[s].(deletedSubtree := true)];
      FlagsRaised(a, b, span, s) && Shape(b, span) && DsSound(b)
  {
    var b := a[s := a[s].(deletedSubtree := true)];
    assert SameLinks(a, b);
    ShapeSameLinks(a, b, span);
    assert ShapeAt(a, span, s);
    assert forall u :: 0 <= u < |b| ==> DsSoundAt(a, u) ==> DsSoundAt(b, u);
  }

  /** What is_subtree_deleted_recurse answers and the slots it leaves behind. */
  datatype Sweep = Sweep(deleted: bool, slots: seq<KdNode>)

  /**
   * is_subtree_deleted_recurse below `cur`: true for a null child or a
   * flagged slot, false for a live slot, and otherwise true exactly when
   * both children's subtrees are (the right one is asked only when the left
   * one is), in which case the slot's flag is raised. Only flags change.
   */
  function SweepFrom(slots: seq<KdNode>, span: seq<nat>, cur: Option<nat>): (r: Sweep)
    requires Shape(slots, span) && (cur.Some? ==> cur.value < |slots|)
    ensures SameLinks(slots, r.slots)
    decreases if cur.Some? && cur.value < |span| then span[cur.value] else 0
  {
    if cur.None? || slots[cur.value].deletedSubtree then Sweep(true, slots)
    else if !slots[cur.value].deleted then Sweep(false, slots)
    else
      var s := cur.value;
      assert ShapeAt(slots, span, s);
      var l := SweepFrom(slots, span, slots[s].left);
      if !l.deleted then l
      else
        ShapeSameLinks(slots, l.slots, span);
        var r := SweepFrom(l.slots, span, l.slots[s].right);
        if !r.deleted then r
        else Sweep(true, r.slots[s := r.slots[s].(deletedSubtree := true)])
  }

  /** One unfolding of SweepFrom at a deleted, unflagged slot `s`, stated over the step's own values. */
  lemma SweepStep(slots: seq<KdNode>, span: seq<nat>, s: nat, l: Sweep, rr: Sweep, r: Sweep)
    requires Shape(slots, span) && s < |slots| && slots[s].deleted && !slots[s].deletedSubtree
    requires ShapeAt(slots, span, s)
    requires l == SweepFrom(slots, span, slots[s].left)
    requires Shape(l.slots, span) && (l.slots[s].right.Some? ==> l.slots[s].right.value < |slots|)
    requires rr == SweepFrom(l.slots, span, l.slots[s].right)
    requires r == SweepFrom(slots, span, Some(s))
    ensures r == if !l.deleted then l else if !rr.deleted then rr
                 else Sweep(true, rr.slots[s := rr.slots[s].(deletedSubtree := true)])
  {
  }

  /**
   * The sweeps below the two children of a deleted, unflagged slot `s` add
   * up to the promise of the sweep below `s`.
   */
  lemma SweepJoin(slots: seq<KdNode>, span: seq<nat>, s: nat, l: Sweep, rr: Sweep, r: Sweep)
    requires Shape(slots, span) && DsSound(slots) && s < |slots| && slots[s].deleted
    requires slots[s].left.Some? ==> slots[s].left.value < |slots|
    requires slots[s].right.Some? ==> slots[s].right.value < |slots|
    requires |l.slots| == |slots| && l.slots[s].right == slots[s].right
    requires Shape(l.slots, span) && DsSound(l.slots) && |rr.slots| == |slots|
    requires l.deleted == (slots[s].left.None? || AllDeleted(slots, span, slots[s].left.value))
    requires l.deleted && slots[s].left.Some? ==> l.slots[slots[s].left.value].deletedSubtree
    requires FlagsRaised(slots, l.slots, span, s)
    requires l.deleted ==> Shape(rr.slots, span) && DsSound(rr.slots)
    requires l.deleted ==> rr.deleted == (slots[s].right.None? || AllDeleted(l.slots, span, slots[s].right.value))
    requires l.deleted && rr.deleted && slots[s].right.Some? ==> rr.slots[slots[s].right.value].deletedSubtree
    requires l.deleted ==> FlagsRaised(l.slots, rr.slots, span, s)
    requires r == if !l.deleted then l else if !rr.deleted then rr
                 else Sweep(true, rr.slots[s := rr.slots[s].(deletedSubtree := true)])
    ensures Shape(r.slots, span) && DsSound(r.slots)
    ensures r.deleted == AllDeleted(slots, span, s)
    ensures r.deleted ==> r.slots[s].deletedSubtree
    ensures FlagsRaised(slots, r.slots, span, s)
  {
    AllDeletedSplit(slots, span, s);
    FlagsRaisedKeepsDeleted(slots, l.slots, span, s);
    if l.deleted {
      FlagsRaisedTransitive(slots, l.slots, rr.slots, span, s);
      FlagsRaisedKeepsDeleted(slots, rr.slots, span, s);
      if rr.deleted {
        if slots[s].left.Some? {
          FlagsRaisedKeepsFlag(l.slots, rr.slots, span, s, slots[s].left.value);
        }
        RaiseFlagSound(rr.slots, span, s);
        FlagsRaisedTransitive(slots, rr.slots, r.slots, span, s);
      }
    }
  }

  /**
   * The sweep below `cur` answers whether every slot of the subtree is
   * deleted, raises the flag of `cur` when it answers true, raises flags
   * only inside the subtree, and keeps the flags sound.
   */
  lemma {:induction false} SweepSound(slots: seq<KdNode>, span: seq<nat>, cur: Option<nat>, r: Sweep)
    requires Shape(slots, span) && DsSound(slots) && (cur.Some? ==> cur.value < |slots|)
    requires r == SweepFrom(slots, span, cur)
    ensures Shape(r.slots, span) && DsSound(r.slots)
    ensures r.deleted == (cur.None? || AllDeleted(slots, span, cur.value))
    ensures r.deleted && cur.Some? ==> r.slots[cur.value].deletedSubtree
    ensures cur.None? ==> r.slots == slots
    ensures cur.Some? ==> FlagsRaised(slots, r.slots, span, cur.value)
    decreases if cur.Some? && cur.value < |span| then span[cur.value] else 0, 1
  {
    if cur.None? {
    } else if slots[cur.value].deletedSubtree {
      FlagsRaisedReflexive(slots, span, cur.value);
      DsMeansAllDeleted(slots, span, cur.value);
    } else if !slots[cur.value].deleted {
      FlagsRaisedReflexive(slots, span, cur.value);
      AllDeletedSplit(slots, span, cur.value);
    } else {
      SweepSoundDeleted(slots, span, cur.value, r);
    }
  }

  /** SweepSound at a deleted slot whose flag is not yet raised: both children are swept. */
  lemma {:induction false} SweepSoundDeleted(slots: seq<KdNode>, span: seq<nat>, s: nat, r: Sweep)
    requires Shape(slots, span) && DsSound(slots) && s < |slots|
    requires slots[s].deleted && !slots[s].deletedSubtree
    requires r == SweepFrom(slots, span, Some(s))
    ensures Shape(r.slots, span) && DsSound(r.slots)
    ensures r.deleted == AllDeleted(slots, span, s)
    ensures r.deleted ==> r.slots[s].deletedSubtree
    ensures FlagsRaised(slots, r.slots, span, s)
    decreases if s < |span| then span[s] else 0, 0
  {
    assert ShapeAt(slots, span, s);
    var l := SweepFrom(slots, span, slots[s].left);
    SweepSound(slots, span, slots[s].left, l);
    FlagsRaisedReflexive(slots, span, s);
    FlagsRaisedChild(slots, slots, l.slots, span, s, slots[s].left);
    assert ShapeAt(l.slots, span, s);
    var rr := SweepFrom(l.slots, span, l.slots[s].right);
    if l.deleted {
      SweepSound(l.slots, span, l.slots[s].right, rr);
      FlagsRaisedReflexive(l.slots, span, s);
      FlagsRaisedChild(l.slots, l.slots, rr.slots, span, s, l.slots[s].right);
    }
    SweepStep(slots, span, s, l, rr, r);
    SweepJoin(slots, span, s, l, rr, r);
  }

  // ---------------------------------------------------------------------------
  // The clusters held by the slots

  /** The clusters held by slots [lo, hi), with multiplicity (empty slots skipped). */
  function Clusters(slots: seq<KdNode>, lo: nat, hi: nat): multiset<nat>
    requires lo <= hi <= |slots|
    decreases hi - lo
  {
    if lo == hi then multiset{}
    else Clusters(slots, lo, hi - 1)
         + (if slots[hi - 1].node.Some? then multiset{slots[hi - 1].node.value} else multiset{})
  }

  lemma {:induction false} ClustersSplit(slots: seq<KdNode>, lo: nat, mid: nat, hi: nat)
    requires lo <= mid <= hi <= |slots|
    ensures Clusters(slots, lo, hi) == Clusters(slots, lo, mid) + Clusters(slots, mid, hi)
    decreases hi - mid
  {
    if mid < hi {
      ClustersSplit(slots, lo, mid, hi - 1);
    }
  }

  lemma {:induction false} ClustersMember(slots: seq<KdNode>, lo: nat, hi: nat, k: nat)
    requires lo <= k < hi <= |slots| && slots[k].node.Some?
    ensures slots[k].node.value in Clusters(slots, lo, hi)
    decreases hi - lo
  {
    if k < hi - 1 {
      ClustersMember(slots, lo, hi - 1, k);
    }
  }

  /** The clusters of a range depend only on the slots in it. */
  lemma {:induction false} ClustersStable(a: seq<KdNode>, b: seq<KdNode>, lo: nat, hi: nat)
    requires lo <= hi <= |a| && hi <= |b|
    requires forall t :: lo <= t < hi ==> a[t] == b[t]
    ensures Clusters(a, lo, hi) == Clusters(b, lo, hi)
    decreases hi - lo
  {
    if lo < hi {
      ClustersStable(a, b, lo, hi - 1);
    }
  }

  /** Every cluster of a slot is an index into a vector of `n` clusters. */
  predicate PayloadsBelow(slots: seq<KdNode>, n: nat)
  {
    forall t :: 0 <= t < |slots| ==> slots[t].node.Some? ==> slots[t].node.value < n
  }

  /** The indices 0 .. n-1 in order. */
  function Range(n: nat): seq<nat>
  {
    if n == 0 then [] else Range(n - 1) + [n - 1]
  }

  lemma {:induction false} RangeCount(n: nat, c: nat)
    ensures |Range(n)| == n
    ensures multiset(Range(n))[c] == if c < n then 1 else 0
  {
    if n > 0 {
      RangeCount(n - 1, c);
    }
  }

  lemma {:induction false} RangeAllBelow(n: nat)
    ensures |Range(n)| == n && AllBelow(Range(n), n)
    ensures forall i :: 0 <= i < n ==> Range(n)[i] == i
  {
    if n > 0 {
      RangeAllBelow(n - 1);
    }
  }

  /** Slot `t` as the construction leaves it: live, unflagged, keyed by its cluster. */
  predicate Built(nodes: seq<Node>, k: KdNode)
  {
    k.node.Some? && k.node.value < |nodes| && k.axis < 3
    && !k.deleted && !k.deletedSubtree
    && k.value == Key(nodes, k.node.value, k.axis)
  }

  /**
   * The search-tree order at slot `t`: the clusters of its left subtree do
   * not lie above its split value along its axis, those of its right
   * subtree not below it.
   */
  predicate BstAt(nodes: seq<Node>, slots: seq<KdNode>, span: seq<nat>, t: nat)
    requires |span| == |slots| && t < |slots|
  {
    var a := slots[t].axis;
    var h := span[t] / 2;
    a < 3
    && (forall u :: t + 1 <= u < t + 1 + h && u < |slots| && slots[u].node.Some? && slots[u].node.value < |nodes| ==>
          Key(nodes, slots[u].node.value, a) <= slots[t].value)
    && (forall u :: t + 1 + h <= u < t + span[t] && u < |slots| && slots[u].node.Some? && slots[u].node.value < |nodes| ==>
          slots[t].value <= Key(nodes, slots[u].node.value, a))
  }

  // ---------------------------------------------------------------------------
  // The nearest-neighbour cost

  /** A float bound that may still be FLT_MAX, which no computed cost reaches. */
  datatype Bound = Finite(v: real) | Unbounded

  /** `x < b`, the test under which check_nearest keeps going. */
  predicate Below(x: real, b: Bound)
  {
    b.Unbounded? || x < b.v
  }

  predicate BoundLe(a: Bound, b: Bound)
  {
    b.Unbounded? || (a.Finite? && a.v <= b.v)
  }

  /** The squared diagonal of the box that merges clusters `q` and `c`. */
  function MergeDiag(nodes: seq<Node>, q: nat, c: nat): real
    requires q < |nodes| && c < |nodes|
  {
    var m := Merge(nodes[q].aabb, nodes[c].aabb);
    Distance2(m.min, m.max)
  }

  /** The merge cost: squared diagonal times squared length of the summed intensity. */
  function MergeCost(nodes: seq<Node>, q: nat, c: nat): real
    requires q < |nodes| && c < |nodes|
  {
    MergeDiag(nodes, q, c) * Length2(Add(nodes[q].intensity, nodes[c].intensity))
  }

  /**
   * The search radius after accepting `cost`: cost / |I_q|^2. For a query
   * of zero intensity the float quotient is +inf or NaN, neither of which
   * ever stops the search, so the radius stays unbounded.
   */
  function SearchRadius(nodes: seq<Node>, q: nat, cost: real): Bound
    requires q < |nodes|
  {
    var iq := Length2(nodes[q].intensity);
    if iq == 0.0 then Unbounded else Finite(cost / iq)
  }

  /** The far side is skipped once the squared distance to the split plane reaches the radius. */
  predicate Prunes(dx: real, radius: Bound)
  {
    radius.Finite? && dx * dx >= radius.v
  }

  /** LcKdTree::NearestResult */
  datatype Nearest = Nearest(cost: Bound, radius: Bound, slot: Option<nat>)

  /** Slot `t` may be reported for query `q`: live and not the query itself. */
  predicate Eligible(slots: seq<KdNode>, q: nat, t: nat)
  {
    t < |slots| && !slots[t].deleted && slots[t].node.Some? && slots[t].node.value != q
  }

  ghost predicate HasEligible(slots: seq<KdNode>, span: seq<nat>, q: nat, s: nat)
    requires s < |span|
  {
    exists t :: s <= t < s + span[s] && Eligible(slots, q, t)
  }

  /** An eligible slot lies in the subtree of `s` exactly when it is `s` or lies below a child. */
  lemma HasEligibleSplit(slots: seq<KdNode>, span: seq<nat>, q: nat, s: nat)
    requires Shape(slots, span) && s < |slots|
    ensures slots[s].left.Some? ==> slots[s].left.value < |slots|
    ensures slots[s].right.Some? ==> slots[s].right.value < |slots|
    ensures HasEligible(slots, span, q, s) <==>
      Eligible(slots, q, s)
      || (slots[s].left.Some? && HasEligible(slots, span, q, slots[s].left.value))
      || (slots[s].right.Some? && HasEligible(slots, span, q, slots[s].right.value))
  {
    assert ShapeAt(slots, span, s);
    if HasEligible(slots, span, q, s) {
      var t :| s <= t < s + span[s] && Eligible(slots, q, t);
      SubtreeSplit(slots, span, s, t);
    }
  }

  /**
   * One step of find_nearest_recurse at slot `s`: what the visit of `s` and
   * the searches of its near and (unless pruned) far child each promise
   * add up to the promise for the subtree of `s`.
   */
  lemma SearchCombine(slots: seq<KdNode>, span: seq<nat>, q: nat, s: nat, near: Option<nat>, far: Option<nat>,
                      best: Nearest, b1: Nearest, b2: Nearest, r: Nearest, pruned: bool)
    requires Shape(slots, span) && s < |slots|
    requires (near == slots[s].left && far == slots[s].right) || (near == slots[s].right && far == slots[s].left)
    requires b1.slot == best.slot || b1.slot == Some(s)
    requires best.slot.Some? ==> b1.slot.Some?
    requires best.slot.None? ==> (b1.slot.Some? <==> Eligible(slots, q, s))
    requires near.Some? ==> near.value < |slots|
    requires near.None? ==> b2 == b1
    requires b1.slot.Some? ==> b2.slot.Some?
    requires b2.slot != b1.slot ==> b2.slot.Some? && near.Some? && InSubtree(span, near.value, b2.slot.value)
    requires near.Some? && b1.slot.None? ==> (b2.slot.Some? <==> HasEligible(slots, span, q, near.value))
    requires pruned ==> r == b2 && b2.slot.Some? && Eligible(slots, q, b2.slot.value)
    requires !pruned && far.Some? ==> far.value < |slots|
    requires !pruned && far.None? ==> r == b2
    requires !pruned ==> (b2.slot.Some? ==> r.slot.Some?)
    requires !pruned ==> (r.slot != b2.slot ==> r.slot.Some? && far.Some? && InSubtree(span, far.value, r.slot.value))
    requires !pruned && far.Some? && b2.slot.None? ==> (r.slot.Some? <==> HasEligible(slots, span, q, far.value))
    ensures best.slot.Some? ==> r.slot.Some?
    ensures r.slot != best.slot ==> r.slot.Some? && InSubtree(span, s, r.slot.value)
    ensures best.slot.None? ==> (r.slot.Some? <==> HasEligible(slots, span, q, s))
  {
    ChildSubtree(slots, span, s, near);
    ChildSubtree(slots, span, s, far);
    HasEligibleSplit(slots, span, q, s);
    assert ShapeAt(slots, span, s);
    if best.slot.None? && r.slot.Some? {
      assert r.slot != best.slot;
      if pruned {
        assert s <= r.slot.value < s + span[s] && Eligible(slots, q, r.slot.value);
      }
    }
  }

  /** A flagged subtree holds nothing eligible. */
  lemma DsNoEligible(slots: seq<KdNode>, span: seq<nat>, q: nat, s: nat)
    requires Shape(slots, span) && DsSound(slots) && s < |slots|
    requires slots[s].deletedSubtree
    ensures !HasEligible(slots, span, q, s)
  {
    DsMeansAllDeleted(slots, span, s);
  }

  /**
   * What a best-so-far result means: nothing found with both bounds still
   * FLT_MAX, or an eligible slot whose merge cost is the recorded one.
   */
  predicate Consistent(nodes: seq<Node>, slots: seq<KdNode>, q: nat, b: Nearest)
    requires q < |nodes| && PayloadsBelow(slots, |nodes|)
  {
    if b.slot.None? then b.cost == Unbounded && b.radius == Unbounded
    else Eligible(slots, q, b.slot.value)
         && b.cost == Finite(MergeCost(nodes, q, slots[b.slot.value].node.value))
  }

  /**
   * check_nearest on the slot `t` holding cluster `c`: the slot is taken when
   * the merged box's squared diagonal is below the search radius and the
   * merge cost below the best cost; taking it records the cost and shrinks
   * the radius.
   */
  function Check(nodes: seq<Node>, q: nat, c: nat, t: nat, best: Nearest): (r: Nearest)
    requires q < |nodes| && c < |nodes|
    ensures r != best <==> Below(MergeDiag(nodes, q, c), best.radius) && Below(MergeCost(nodes, q, c), best.cost)
    ensures r != best ==>
      r.cost == Finite(MergeCost(nodes, q, c)) && r.slot == Some(t) && r.radius == SearchRadius(nodes, q, MergeCost(nodes, q, c))
    ensures BoundLe(r.cost, best.cost)
    ensures best.cost == Unbounded && best.radius == Unbounded ==> r.slot == Some(t)
  {
    var cost := MergeCost(nodes, q, c);
    if Below(MergeDiag(nodes, q, c), best.radius) && Below(cost, best.cost)
    then Nearest(Finite(cost), SearchRadius(nodes, q, cost), Some(t))
    else best
  }

  /** What a search for cluster `q` reads: a laid-out tree whose live slots hold existing clusters. */
  predicate SearchReady(lights: seq<VirtualLight>, nodes: seq<Node>, slots: seq<KdNode>, span: seq<nat>, q: nat)
  {
    Shape(slots, span) && LiveHavePayload(slots) && PayloadsBelow(slots, |nodes|)
    && q < |nodes| && nodes[q].light < |lights|
  }

  /** The visit of slot `s`: a live slot holding another cluster is offered to check_nearest. */
  function Visited(nodes: seq<Node>, slots: seq<KdNode>, q: nat, s: nat, best: Nearest): Nearest
    requires q < |nodes| && s < |slots| && LiveHavePayload(slots) && PayloadsBelow(slots, |nodes|)
  {
    if !slots[s].deleted && slots[s].node.value != q then Check(nodes, q, slots[s].node.value, s, best)
    else best
  }

  /** The signed distance of cluster `q`'s light from the split plane of slot `s`. */
  function Offset(lights: seq<VirtualLight>, nodes: seq<Node>, slots: seq<KdNode>, q: nat, s: nat): real
    requires q < |nodes| && nodes[q].light < |lights| && s < |slots| && slots[s].axis < 3
  {
    lights[nodes[q].light].pos.At(slots[s].axis) - slots[s].value
  }

  /**
   * find_nearest_recurse below `cur` from the best-so-far `best`: skip a
   * missing or flagged subtree, visit the slot, search the near child, and
   * search the far child unless the squared distance to the split plane
   * reaches the search radius.
   */
  function Search(lights: seq<VirtualLight>, nodes: seq<Node>, slots: seq<KdNode>, span: seq<nat>, q: nat,
                  cur: Option<nat>, best: Nearest): Nearest
    requires SearchReady(lights, nodes, slots, span, q) && (cur.Some? ==> cur.value < |slots|)
    decreases if cur.Some? && cur.value < |span| then span[cur.value] else 0
  {
    if cur.None? || slots[cur.value].deletedSubtree then best
    else
      var s := cur.value;
      assert ShapeAt(slots, span, s);
      var b1 := Visited(nodes, slots, q, s, best);
      var dx := Offset(lights, nodes, slots, q, s);
      var near := if dx <= 0.0 then slots[s].left else slots[s].right;
      var far := if dx <= 0.0 then slots[s].right else slots[s].left;
      var b2 := Search(lights, nodes, slots, span, q, near, b1);
      if Prunes(dx, b2.radius) then b2 else Search(lights, nodes, slots, span, q, far, b2)
  }

  /** The visit keeps the best result consistent and takes `s` when nothing was found and `s` is eligible. */
  lemma VisitSound(nodes: seq<Node>, slots: seq<KdNode>, q: nat, s: nat, best: Nearest)
    requires q < |nodes| && s < |slots| && LiveHavePayload(slots) && PayloadsBelow(slots, |nodes|)
    requires Consistent(nodes, slots, q, best)
    ensures Consistent(nodes, slots, q, Visited(nodes, slots, q, s, best))
    ensures Visited(nodes, slots, q, s, best).slot == best.slot || Visited(nodes, slots, q, s, best).slot == Some(s)
    ensures best.slot.Some? ==> Visited(nodes, slots, q, s, best).slot.Some?
    ensures best.slot.None? ==> (Visited(nodes, slots, q, s, best).slot.Some? <==> Eligible(slots, q, s))
  {
  }

  /** One unfolding of Search at an unflagged slot `s`, stated over the step's own values. */
  lemma SearchStep(lights: seq<VirtualLight>, nodes: seq<Node>, slots: seq<KdNode>, span: seq<nat>, q: nat,
                   s: nat, best: Nearest, b1: Nearest, dx: real, near: Option<nat>, far: Option<nat>,
                   b2: Nearest, r: Nearest)
    requires SearchReady(lights, nodes, slots, span, q) && s < |slots| && !slots[s].deletedSubtree
    requires b1 == Visited(nodes, slots, q, s, best)
    requires slots[s].axis < 3 && dx == Offset(lights, nodes, slots, q, s)
    requires near == (if dx <= 0.0 then slots[s].left else slots[s].right)
    requires far == (if dx <= 0.0 then slots[s].right else slots[s].left)
    requires near.Some? ==> near.value < |slots|
    requires far.Some? ==> far.value < |slots|
    requires b2 == Search(lights, nodes, slots, span, q, near, b1)
    requires r == Search(lights, nodes, slots, span, q, Some(s), best)
    ensures r == if Prunes(dx, b2.radius) then b2 else Search(lights, nodes, slots, span, q, far, b2)
  {
  }

  /**
   * The search below `cur` keeps the best result consistent, replaces it
   * only by a slot of the subtree of `cur`, never loses a result, and when
   * nothing was found before finds something exactly when the subtree holds
   * an eligible slot.
   */
  lemma {:induction false} SearchSound(lights: seq<VirtualLight>, nodes: seq<Node>, slots: seq<KdNode>, span: seq<nat>,
                                       q: nat, cur: Option<nat>, best: Nearest, r: Nearest)
    requires SearchReady(lights, nodes, slots, span, q) && DsSound(slots) && (cur.Some? ==> cur.value < |slots|)
    requires Consistent(nodes, slots, q, best)
    requires r == Search(lights, nodes, slots, span, q, cur, best)
    ensures Consistent(nodes, slots, q, r)
    ensures cur.None? ==> r == best
    ensures best.slot.Some? ==> r.slot.Some?
    ensures r.slot != best.slot ==> r.slot.Some? && cur.Some? && InSubtree(span, cur.value, r.slot.value)
    ensures cur.Some? && best.slot.None? ==> (r.slot.Some? <==> HasEligible(slots, span, q, cur.value))
    decreases if cur.Some? && cur.value < |span| then span[cur.value] else 0
  {
    if cur.None? {
    } else if slots[cur.value].deletedSubtree {
      DsNoEligible(slots, span, q, cur.value);
    } else {
      var s := cur.value;
      assert ShapeAt(slots, span, s);
      var b1 := Visited(nodes, slots, q, s, best);
      VisitSound(nodes, slots, q, s, best);
      var dx := Offset(lights, nodes, slots, q, s);
      var near := if dx <= 0.0 then slots[s].left else slots[s].right;
      var far := if dx <= 0.0 then slots[s].right else slots[s].left;
      ChildSubtree(slots, span, s, near);
      ChildSubtree(slots, span, s, far);
      var b2 := Search(lights, nodes, slots, span, q, near, b1);
      SearchSound(lights, nodes, slots, span, q, near, b1, b2);
      SearchStep(lights, nodes, slots, span, q, s, best, b1, dx, near, far, b2, r);
      var pruned := Prunes(dx, b2.radius);
      if !pruned {
        SearchSound(lights, nodes, slots, span, q, far, b2, r);
      }
      SearchCombine(slots, span, q, s, near, far, best, b1, b2, r, pruned);
    }
  }

  // ---------------------------------------------------------------------------
  // Construction

  /**
   * Slots [lo, hi) hold whole subtrees as the construction leaves them:
   * laid out, live, keyed by their clusters and ordered as a search tree.
   */
  predicate GoodRange(nodes: seq<Node>, slots: seq<KdNode>, span: seq<nat>, lo: nat, hi: nat)
    requires |span| == |slots| && hi <= |slots|
  {
    forall t {:trigger ShapeAt(slots, span, t)} :: lo <= t < hi ==>
      ShapeAt(slots, span, t) && t + span[t] <= hi && Built(nodes, slots[t]) && BstAt(nodes, slots, span, t)
  }

  /** Slots that are whole subtrees from slot 0 on, with slot 0 spanning them all, form a valid tree. */
  lemma GoodRangeValid(nodes: seq<Node>, slots: seq<KdNode>, span: seq<nat>)
    requires |span| == |slots| && 0 < |slots| && span[0] == |slots|
    requires GoodRange(nodes, slots, span, 0, |slots|)
    ensures Shape(slots, span) && DsSound(slots) && LiveHavePayload(slots)
  {
    forall t | 0 <= t < |slots|
      ensures ShapeAt(slots, span, t) && DsSoundAt(slots, t)
      ensures !slots[t].deleted ==> slots[t].node.Some?
    {
      assert ShapeAt(slots, span, t);
    }
  }

  /** A range of whole subtrees keeps its meaning wherever the slots around it change. */
  lemma GoodRangeStable(nodes: seq<Node>, a: seq<KdNode>, sa: seq<nat>, b: seq<KdNode>, sb: seq<nat>, lo: nat, hi: nat)
    requires |sa| == |a| && |sb| == |b| && lo <= hi <= |a| && hi <= |b|
    requires forall t :: lo <= t < hi ==> a[t] == b[t] && sa[t] == sb[t]
    requires GoodRange(nodes, a, sa, lo, hi)
    ensures GoodRange(nodes, b, sb, lo, hi)
  {
    forall t | lo <= t < hi
      ensures ShapeAt(b, sb, t) && t + sb[t] <= hi && Built(nodes, b[t]) && BstAt(nodes, b, sb, t)
    {
      assert ShapeAt(a, sa, t) && BstAt(nodes, a, sa, t);
    }
  }

  lemma MultisetSplit(a: seq<nat>, lo: nat, mid: nat, hi: nat)
    requires lo <= mid < hi <= |a|
    ensures multiset(a[lo..hi]) == multiset(a[lo..mid]) + multiset{a[mid]} + multiset(a[mid + 1..hi])
  {
    assert a[lo..hi] == a[lo..mid] + [a[mid]] + a[mid + 1..hi];
  }

  /** A key bound on every element of a range is a bound on every member of its multiset. */
  lemma KeysBelow(nodes: seq<Node>, a: seq<nat>, lo: nat, hi: nat, dim: nat, bound: real)
    requires lo <= hi <= |a| && dim < 3
    requires forall i :: lo <= i < hi ==> a[i] < |nodes| && Key(nodes, a[i], dim) <= bound
    ensures forall x :: x in multiset(a[lo..hi]) ==> x < |nodes| && Key(nodes, x, dim) <= bound
  {
    forall x | x in multiset(a[lo..hi])
      ensures x < |nodes| && Key(nodes, x, dim) <= bound
    {
      var i :| lo <= i < hi && a[i] == x;
    }
  }

  lemma KeysAbove(nodes: seq<Node>, a: seq<nat>, lo: nat, hi: nat, dim: nat, bound: real)
    requires lo <= hi <= |a| && dim < 3
    requires forall i :: lo <= i < hi ==> a[i] < |nodes| && bound <= Key(nodes, a[i], dim)
    ensures forall x :: x in multiset(a[lo..hi]) ==> x < |nodes| && bound <= Key(nodes, x, dim)
  {
    forall x | x in multiset(a[lo..hi])
      ensures x < |nodes| && bound <= Key(nodes, x, dim)
    {
      var i :| lo <= i < hi && a[i] == x;
    }
  }

  lemma GoodRangeJoin(nodes: seq<Node>, slots: seq<KdNode>, span: seq<nat>, lo: nat, mid: nat, hi: nat)
    requires |span| == |slots| && lo <= mid <= hi <= |slots|
    requires GoodRange(nodes, slots, span, lo, mid) && GoodRange(nodes, slots, span, mid, hi)
    ensures GoodRange(nodes, slots, span, lo, hi)
  {
    forall t | lo <= t < hi
      ensures ShapeAt(slots, span, t) && t + span[t] <= hi
      ensures Built(nodes, slots[t]) && BstAt(nodes, slots, span, t)
    {
      assert ShapeAt(slots, span, t);
    }
  }

  /** The order at slot `s` follows from where the clusters of its two child ranges lie. */
  lemma BstFromClusters(nodes: seq<Node>, slots: seq<KdNode>, span: seq<nat>, s: nat, leftEnd: nat)
    requires |span| == |slots| && s < leftEnd <= |slots| && slots[s].axis < 3
    requires span[s] == |slots| - s && leftEnd == s + 1 + span[s] / 2
    requires forall x :: x in Clusters(slots, s + 1, leftEnd) ==>
      x < |nodes| && Key(nodes, x, slots[s].axis) <= slots[s].value
    requires forall x :: x in Clusters(slots, leftEnd, |slots|) ==>
      x < |nodes| && slots[s].value <= Key(nodes, x, slots[s].axis)
    ensures BstAt(nodes, slots, span, s)
  {
    forall u | s + 1 <= u < leftEnd && slots[u].node.Some? && slots[u].node.value < |nodes|
      ensures Key(nodes, slots[u].node.value, slots[s].axis) <= slots[s].value
    {
      ClustersMember(slots, s + 1, leftEnd, u);
    }
    forall u | leftEnd <= u < |slots| && slots[u].node.Some? && slots[u].node.value < |nodes|
      ensures slots[s].value <= Key(nodes, slots[u].node.value, slots[s].axis)
    {
      ClustersMember(slots, leftEnd, |slots|, u);
    }
  }

  /** BstFromClusters, with the clusters of the two ranges and their bound given by name. */
  lemma BstFromBounds(nodes: seq<Node>, slots: seq<KdNode>, span: seq<nat>, s: nat, leftEnd: nat,
                      lower: multiset<nat>, upper: multiset<nat>, dim: nat, v: real)
    requires |span| == |slots| && s < leftEnd <= |slots| && dim < 3
    requires slots[s].axis == dim && slots[s].value == v
    requires span[s] == |slots| - s && leftEnd == s + 1 + span[s] / 2
    requires Clusters(slots, s + 1, leftEnd) == lower && Clusters(slots, leftEnd, |slots|) == upper
    requires forall x :: x in lower ==> x < |nodes| && Key(nodes, x, dim) <= v
    requires forall x :: x in upper ==> x < |nodes| && v <= Key(nodes, x, dim)
    ensures BstAt(nodes, slots, span, s)
  {
    BstFromClusters(nodes, slots, span, s, leftEnd);
  }

  /** The clusters of slot `s` and of the two ranges after it. */
  lemma ClustersOfSubtree(slots: seq<KdNode>, s: nat, leftEnd: nat)
    requires s < leftEnd <= |slots| && slots[s].node.Some?
    ensures Clusters(slots, s, |slots|)
      == multiset{slots[s].node.value} + Clusters(slots, s + 1, leftEnd) + Clusters(slots, leftEnd, |slots|)
  {
    ClustersSplit(slots, s, s + 1, |slots|);
    ClustersSplit(slots, s + 1, leftEnd, |slots|);
    assert Clusters(slots, s, s + 1) == multiset{slots[s].node.value};
  }

  /**
   * Slot `s` followed by the subtrees of its two children, in pre-order,
   * is a whole subtree as the construction leaves it.
   */
  lemma AssembleSubtree(nodes: seq<Node>, slots: seq<KdNode>, span: seq<nat>, s: nat, leftEnd: nat)
    requires |span| == |slots| && s < leftEnd <= |slots|
    requires ShapeAt(slots, span, s) && span[s] == |slots| - s && leftEnd == s + 1 + span[s] / 2
    requires Built(nodes, slots[s]) && BstAt(nodes, slots, span, s)
    requires GoodRange(nodes, slots, span, s + 1, leftEnd) && GoodRange(nodes, slots, span, leftEnd, |slots|)
    ensures GoodRange(nodes, slots, span, s, |slots|)
  {
    GoodRangeJoin(nodes, slots, span, s + 1, leftEnd, |slots|);
    forall t | s <= t < |slots|
      ensures ShapeAt(slots, span, t) && t + span[t] <= |slots| && Built(nodes, slots[t]) && BstAt(nodes, slots, span, t)
    {
      if t > s {
        assert ShapeAt(slots, span, t);
      }
    }
  }

  /** `b` is `a` with the elements of [lo, hi) permuted among themselves. */
  predicate Rearranged(a: seq<nat>, b: seq<nat>, lo: nat, hi: nat)
    requires lo <= hi <= |a|
  {
    |b| == |a|
    && (forall i :: 0 <= i < |a| && !(lo <= i < hi) ==> b[i] == a[i])
    && multiset(b[lo..hi]) == multiset(a[lo..hi])
  }

  lemma RearrangedReflexive(a: seq<nat>, lo: nat, hi: nat)
    requires lo <= hi <= |a|
    ensures Rearranged(a, a, lo, hi)
  {
  }

  lemma RearrangedTransitive(a: seq<nat>, b: seq<nat>, c: seq<nat>, lo: nat, hi: nat)
    requires lo <= hi <= |a|
    requires Rearranged(a, b, lo, hi) && Rearranged(b, c, lo, hi)
    ensures Rearranged(a, c, lo, hi)
  {
  }

  /** Permuting a sub-range permutes every range around it. */
  lemma RearrangedWiden(a: seq<nat>, b: seq<nat>, lo: nat, lo': nat, hi': nat, hi: nat)
    requires lo <= lo' <= hi' <= hi <= |a|
    requires Rearranged(a, b, lo', hi')
    ensures Rearranged(a, b, lo, hi)
  {
    assert a[lo..hi] == a[lo..lo'] + a[lo'..hi'] + a[hi'..hi];
    assert b[lo..hi] == b[lo..lo'] + b[lo'..hi'] + b[hi'..hi];
    assert a[lo..lo'] == b[lo..lo'];
    assert a[hi'..hi] == b[hi'..hi];
  }

  lemma RearrangedOutside(a: seq<nat>, b: seq<nat>, lo: nat, hi: nat, x: nat, y: nat)
    requires lo <= hi <= x <= y <= |a| && Rearranged(a, b, lo, hi)
    ensures b[x..y] == a[x..y]
  {
  }

  /** Exchanging two elements of a range permutes the range. */
  lemma SwapRearranged(a: seq<nat>, b: seq<nat>, lo: nat, i: nat, j: nat, hi: nat)
    requires lo <= i < hi && lo <= j < hi && hi <= |a|
    requires b == a[i := a[j]][j := a[i]]
    ensures Rearranged(a, b, lo, hi)
  {
    assert b[lo..hi] == a[lo..hi][i - lo := a[j]][j - lo := a[i]];
  }

  predicate AllBelow(a: seq<nat>, n: nat)
  {
    forall i :: 0 <= i < |a| ==> a[i] < n
  }

  /** std::nth_element's promise: nothing before `mid` is above a[mid], nothing after it below. */
  predicate Partitioned(nodes: seq<Node>, a: seq<nat>, lo: nat, mid: nat, hi: nat, dim: nat)
    requires lo <= mid < hi <= |a| && dim < 3 && AllBelow(a, |nodes|)
  {
    (forall i :: lo <= i < mid ==> Key(nodes, a[i], dim) <= Key(nodes, a[mid], dim))
    && (forall i :: mid < i < hi ==> Key(nodes, a[mid], dim) <= Key(nodes, a[i], dim))
  }

  /** a[lo..t) holds the smallest keys of a[lo..hi), in order. */
  predicate Selected(nodes: seq<Node>, a: seq<nat>, lo: nat, t: nat, hi: nat, dim: nat)
    requires lo <= t <= hi <= |a| && dim < 3 && AllBelow(a, |nodes|)
  {
    (forall i, j :: lo <= i < j < t ==> Key(nodes, a[i], dim) <= Key(nodes, a[j], dim))
    && (forall i, j :: lo <= i < t <= j < hi ==> Key(nodes, a[i], dim) <= Key(nodes, a[j], dim))
  }

  /** Moving the smallest key of a[t..hi) to position t selects one more element. */
  lemma SelectStep(nodes: seq<Node>, a: seq<nat>, b: seq<nat>, lo: nat, t: nat, m: nat, hi: nat, dim: nat)
    requires lo <= t <= m < hi <= |a| && dim < 3 && AllBelow(a, |nodes|)
    requires Selected(nodes, a, lo, t, hi, dim)
    requires forall j :: t <= j < hi ==> Key(nodes, a[m], dim) <= Key(nodes, a[j], dim)
    requires b == a[t := a[m]][m := a[t]]
    ensures AllBelow(b, |nodes|)
    ensures Rearranged(a, b, lo, hi)
    ensures Selected(nodes, b, lo, t + 1, hi, dim)
  {
    SwapRearranged(a, b, lo, t, m, hi);
  }

  /**
   * The scan for a smallest key: `m` is the best position among those seen
   * so far, positions u..hi are still to be seen, and a later position
   * replaces `m` only when its key is strictly smaller.
   */
  function MinFrom(nodes: seq<Node>, a: seq<nat>, m: nat, u: nat, hi: nat, dim: nat): (r: nat)
    requires m < u <= hi <= |a| && dim < 3 && AllBelow(a, |nodes|)
    ensures m <= r < hi
    decreases hi - u
  {
    if u == hi then m
    else MinFrom(nodes, a, if Key(nodes, a[u], dim) < Key(nodes, a[m], dim) then u else m, u + 1, hi, dim)
  }

  /** The scan ends on a key no larger than the best one seen and than any one still to be seen. */
  lemma {:induction false} MinFromLeast(nodes: seq<Node>, a: seq<nat>, m: nat, u: nat, hi: nat, dim: nat)
    requires m < u <= hi <= |a| && dim < 3 && AllBelow(a, |nodes|)
    ensures var r := MinFrom(nodes, a, m, u, hi, dim);
      Key(nodes, a[r], dim) <= Key(nodes, a[m], dim)
      && forall j :: u <= j < hi ==> Key(nodes, a[r], dim) <= Key(nodes, a[j], dim)
    decreases hi - u
  {
    if u < hi {
      MinFromLeast(nodes, a, if Key(nodes, a[u], dim) < Key(nodes, a[m], dim) then u else m, u + 1, hi, dim);
    }
  }

  /** The position of a smallest key in a[lo..hi). */
  function MinPos(nodes: seq<Node>, a: seq<nat>, lo: nat, hi: nat, dim: nat): (m: nat)
    requires lo < hi <= |a| && dim < 3 && AllBelow(a, |nodes|)
    ensures lo <= m < hi
  {
    MinFrom(nodes, a, lo, lo + 1, hi, dim)
  }

  /** No key of a[lo..hi) is smaller than the one at MinPos. */
  lemma MinPosLeast(nodes: seq<Node>, a: seq<nat>, lo: nat, hi: nat, dim: nat)
    requires lo < hi <= |a| && dim < 3 && AllBelow(a, |nodes|)
    ensures forall j :: lo <= j < hi ==> Key(nodes, a[MinPos(nodes, a, lo, hi, dim)], dim) <= Key(nodes, a[j], dim)
  {
    MinFromLeast(nodes, a, lo, lo + 1, hi, dim);
  }

  /** The selection passes t..mid: each moves the smallest remaining key to its position. */
  function SelectFrom(nodes: seq<Node>, a: seq<nat>, t: nat, mid: nat, hi: nat, dim: nat): (r: seq<nat>)
    requires t <= mid + 1 && mid < hi <= |a| && dim < 3 && AllBelow(a, |nodes|)
    ensures |r| == |a| && AllBelow(r, |nodes|)
    decreases mid + 1 - t
  {
    if t > mid then a
    else
      var m := MinPos(nodes, a, t, hi, dim);
      SelectFrom(nodes, a[t := a[m]][m := a[t]], t + 1, mid, hi, dim)
  }

  /**
   * std::nth_element over a[lo..hi) with the comparator "min corner along
   * `dim` is smaller", modelled by a partial selection sort.
   */
  function Nth(nodes: seq<Node>, a: seq<nat>, lo: nat, mid: nat, hi: nat, dim: nat): (r: seq<nat>)
    requires lo <= mid < hi <= |a| && dim < 3 && AllBelow(a, |nodes|)
    ensures |r| == |a| && AllBelow(r, |nodes|)
  {
    SelectFrom(nodes, a, lo, mid, hi, dim)
  }

  lemma {:induction false} SelectFromSelects(nodes: seq<Node>, a: seq<nat>, lo: nat, t: nat, mid: nat, hi: nat, dim: nat)
    requires lo <= t <= mid + 1 && mid < hi <= |a| && dim < 3 && AllBelow(a, |nodes|)
    requires Selected(nodes, a, lo, t, hi, dim)
    ensures Rearranged(a, SelectFrom(nodes, a, t, mid, hi, dim), lo, hi)
    ensures Selected(nodes, SelectFrom(nodes, a, t, mid, hi, dim), lo, mid + 1, hi, dim)
    decreases mid + 1 - t
  {
    if t > mid {
      RearrangedReflexive(a, lo, hi);
    } else {
      var m := MinPos(nodes, a, t, hi, dim);
      MinPosLeast(nodes, a, t, hi, dim);
      var b := a[t := a[m]][m := a[t]];
      SelectStep(nodes, a, b, lo, t, m, hi, dim);
      SelectFromSelects(nodes, b, lo, t + 1, mid, hi, dim);
      RearrangedTransitive(a, b, SelectFrom(nodes, b, t + 1, mid, hi, dim), lo, hi);
    }
  }

  /**
   * What std::nth_element promises: the range is only permuted, the rest of
   * the array is untouched, and the element at `mid` splits the range.
   */
  lemma NthPartitions(nodes: seq<Node>, a: seq<nat>, lo: nat, mid: nat, hi: nat, dim: nat)
    requires lo <= mid < hi <= |a| && dim < 3 && AllBelow(a, |nodes|)
    ensures Rearranged(a, Nth(nodes, a, lo, mid, hi, dim), lo, hi)
    ensures Partitioned(nodes, Nth(nodes, a, lo, mid, hi, dim), lo, mid, hi, dim)
  {
    SelectFromSelects(nodes, a, lo, lo, mid, hi, dim);
  }

  /** The position of a smallest key in perm[lo..hi). */
  method MinIndex(nodes: seq<Node>, perm: array<nat>, lo: nat, hi: nat, dim: nat) returns (m: nat)
    requires lo < hi <= perm.Length && dim < 3 && AllBelow(perm[..], |nodes|)
    ensures m == MinPos(nodes, perm[..], lo, hi, dim)
  {
    m := lo;
    var u := lo + 1;
    while u < hi
      invariant lo <= m < u <= hi
      invariant MinFrom(nodes, perm[..], m, u, hi, dim) == MinPos(nodes, perm[..], lo, hi, dim)
    {
      if Key(nodes, perm[u], dim) < Key(nodes, perm[m], dim) {
        m := u;
      }
      u := u + 1;
    }
  }

  /**
   * std::nth_element: permutes perm[lo..hi) so that no key before `mid` is
   * larger and no key after it smaller than the key at `mid`
   * (NthPartitions). The standard leaves the order within each side
   * unspecified; the selection sort here is one choice.
   */
  method NthElement(nodes: seq<Node>, perm: array<nat>, lo: nat, mid: nat, hi: nat, dim: nat)
    requires lo <= mid < hi <= perm.Length && dim < 3 && AllBelow(perm[..], |nodes|)
    modifies perm
    ensures perm[..] == Nth(nodes, old(perm[..]), lo, mid, hi, dim)
  {
    ghost var start := perm[..];
    var t := lo;
    while t <= mid
      invariant lo <= t <= mid + 1 && AllBelow(perm[..], |nodes|)
      invariant SelectFrom(nodes, perm[..], t, mid, hi, dim) == Nth(nodes, start, lo, mid, hi, dim)
    {
      var m := MinIndex(nodes, perm, t, hi, dim);
      perm[t], perm[m] := perm[m], perm[t];
      t := t + 1;
    }
  }

  /** The median slot build_recurse appends for the clusters `nth` after nth_element. */
  function MedianSlot(nodes: seq<Node>, nth: seq<nat>, mid: nat, depth: nat): KdNode
    requires mid < |nth| && nth[mid] < |nodes|
  {
    KdNode(Some(nth[mid]), Key(nodes, nth[mid], depth % 3), depth % 3, depth, false, false, None, None)
  }

  /** Sets the left child link of slot `s`. */
  function LinkLeft(slots: seq<KdNode>, s: nat, l: Option<nat>): (r: seq<KdNode>)
    requires s < |slots|
    ensures |r| == |slots|
  {
    slots[s := slots[s].(left := l)]
  }

  /** Sets the right child link of slot `s`. */
  function LinkRight(slots: seq<KdNode>, s: nat, l: Option<nat>): (r: seq<KdNode>)
    requires s < |slots|
    ensures |r| == |slots|
  {
    slots[s := slots[s].(right := l)]
  }

  /** Appending `x` and then overwriting it with `y` appends `y`. */
  lemma AppendThenSet<T>(a: seq<T>, x: T, y: T)
    ensures (a + [x])[|a| := y] == a + [y]
  {
  }

  /** The layout facts of a freshly linked parent slot. */
  lemma ParentShape(f: seq<KdNode>, spf: seq<nat>, s: nat, n: nat, depth: nat, leftEnd: nat)
    requires |spf| == |f| == s + n && n >= 1 && leftEnd == s + 1 + n / 2 && depth < DEPTH_LIMIT
    requires f[s].axis == depth % 3 && f[s].depth == depth && spf[s] == n
    requires f[s].left == (if n / 2 > 0 then Some(s + 1) else None)
    requires f[s].right == (if n - n / 2 > 1 then Some(leftEnd) else None)
    requires n / 2 > 0 ==> spf[s + 1] == n / 2 && f[s + 1].depth == depth + 1
    requires n - n / 2 > 1 ==> spf[leftEnd] == n - n / 2 - 1 && f[leftEnd].depth == depth + 1
    ensures ShapeAt(f, spf, s)
  {
  }

  /**
   * What build_recurse over perm[lo..hi) at `depth` leaves behind, from
   * slots `a` (with spans `sa`) and array contents `pa` to `b`, `sb`, `pb`.
   */
  ghost predicate Grown(nodes: seq<Node>, a: seq<KdNode>, sa: seq<nat>, pa: seq<nat>,
                        b: seq<KdNode>, sb: seq<nat>, pb: seq<nat>, lo: nat, hi: nat, depth: nat)
  {
    var s := |a|;
    lo < hi <= |pa| && |sa| == s && |sb| == |b| == s + (hi - lo)
    && (forall t :: 0 <= t < s ==> b[t] == a[t] && sb[t] == sa[t])
    && sb[s] == hi - lo && b[s].depth == depth
    && GoodRange(nodes, b, sb, s, |b|)
    && Clusters(b, s, |b|) == multiset(pa[lo..hi])
    && AllBelow(pb, |nodes|) && Rearranged(pa, pb, lo, hi)
  }

  /** A child call over perm[lo..hi), or no call and no change when the range is empty. */
  ghost predicate ChildGrown(nodes: seq<Node>, a: seq<KdNode>, sa: seq<nat>, pa: seq<nat>,
                             b: seq<KdNode>, sb: seq<nat>, pb: seq<nat>, lo: nat, hi: nat, depth: nat)
  {
    if lo < hi then Grown(nodes, a, sa, pa, b, sb, pb, lo, hi, depth)
    else b == a && sb == sa && pb == pa
  }

  lemma ChildFacts(nodes: seq<Node>, a: seq<KdNode>, sa: seq<nat>, pa: seq<nat>,
                   b: seq<KdNode>, sb: seq<nat>, pb: seq<nat>, lo: nat, hi: nat, depth: nat)
    requires lo <= hi <= |pa| && |sa| == |a| && AllBelow(pa, |nodes|)
    requires ChildGrown(nodes, a, sa, pa, b, sb, pb, lo, hi, depth)
    ensures |sb| == |b| == |a| + (hi - lo) && |pb| == |pa|
    ensures forall t :: 0 <= t < |a| ==> b[t] == a[t] && sb[t] == sa[t]
    ensures lo < hi ==> sb[|a|] == hi - lo && b[|a|].depth == depth
    ensures GoodRange(nodes, b, sb, |a|, |b|)
    ensures Clusters(b, |a|, |b|) == multiset(pa[lo..hi])
    ensures AllBelow(pb, |nodes|) && Rearranged(pa, pb, lo, hi)
  {
    if lo == hi {
      assert pa[lo..hi] == [];
      RearrangedReflexive(pa, lo, hi);
    }
  }

  /**
   * The state at the end of one build_recurse call over perm[lo..hi): `a`
   * were the slots before it, `s1` has the median slot appended, `nth` is
   * the array after nth_element, `left` and `right` the slots after the
   * two child calls (`s2` and `f` with the parent's links set) and `pl`,
   * `pf` the array after them.
   */
  ghost predicate StepState(nodes: seq<Node>, a: seq<KdNode>, sa: seq<nat>, pa: seq<nat>, nth: seq<nat>,
                            s1: seq<KdNode>, left: seq<KdNode>, s2: seq<KdNode>, sp2: seq<nat>, pl: seq<nat>,
                            right: seq<KdNode>, f: seq<KdNode>, spf: seq<nat>, pf: seq<nat>,
                            lo: nat, mid: nat, hi: nat, depth: nat)
  {
    lo < hi <= |pa| && |sa| == |a| && mid == lo + (hi - lo) / 2 && depth < DEPTH_LIMIT
    && |nth| == |pa| && AllBelow(pa, |nodes|) && AllBelow(nth, |nodes|) && Rearranged(pa, nth, lo, hi)
    && Partitioned(nodes, nth, lo, mid, hi, depth % 3)
    && s1 == a + [MedianSlot(nodes, nth, mid, depth)]
    && ChildGrown(nodes, s1, sa + [hi - lo], nth, left, sp2, pl, lo, mid, depth + 1)
    && |left| == |s1| + (mid - lo)
    && s2 == LinkLeft(left, |a|, if lo < mid then Some(|a| + 1) else None)
    && ChildGrown(nodes, s2, sp2, pl, right, spf, pf, mid + 1, hi, depth + 1)
    && |right| == |s2| + (hi - (mid + 1))
    && f == LinkRight(right, |a|, if mid + 1 < hi then Some(|s2|) else None)
  }

  /** What the left child call of the step leaves behind: its frame ... */
  lemma StepLeftFrame(nodes: seq<Node>, a: seq<KdNode>, sa: seq<nat>, pa: seq<nat>, nth: seq<nat>,
                    s1: seq<KdNode>, left: seq<KdNode>, s2: seq<KdNode>, sp2: seq<nat>, pl: seq<nat>,
                    right: seq<KdNode>, f: seq<KdNode>, spf: seq<nat>, pf: seq<nat>,
                    lo: nat, mid: nat, hi: nat, depth: nat)
    requires StepState(nodes, a, sa, pa, nth, s1, left, s2, sp2, pl, right, f, spf, pf, lo, mid, hi, depth)
    ensures |sp2| == |left| == |a| + 1 + (mid - lo) && |pl| == |pa|
    ensures forall t :: 0 <= t < |s1| ==> left[t] == s1[t] && sp2[t] == (sa + [hi - lo])[t]
    ensures lo < mid ==> sp2[|a| + 1] == mid - lo && left[|a| + 1].depth == depth + 1
  {
    ChildFacts(nodes, s1, sa + [hi - lo], nth, left, sp2, pl, lo, mid, depth + 1);
  }

  /** ... and its subtrees. */
  lemma StepLeftRange(nodes: seq<Node>, a: seq<KdNode>, sa: seq<nat>, pa: seq<nat>, nth: seq<nat>,
                    s1: seq<KdNode>, left: seq<KdNode>, s2: seq<KdNode>, sp2: seq<nat>, pl: seq<nat>,
                    right: seq<KdNode>, f: seq<KdNode>, spf: seq<nat>, pf: seq<nat>,
                    lo: nat, mid: nat, hi: nat, depth: nat)
    requires StepState(nodes, a, sa, pa, nth, s1, left, s2, sp2, pl, right, f, spf, pf, lo, mid, hi, depth)
    ensures |sp2| == |left| == |a| + 1 + (mid - lo) && |pl| == |pa|
    ensures GoodRange(nodes, left, sp2, |a| + 1, |left|)
    ensures Clusters(left, |a| + 1, |left|) == multiset(nth[lo..mid])
    ensures AllBelow(pl, |nodes|) && Rearranged(nth, pl, lo, mid)
  {
    ChildFacts(nodes, s1, sa + [hi - lo], nth, left, sp2, pl, lo, mid, depth + 1);
  }

  /** What the right child call of the step leaves behind: its frame ... */
  lemma StepRightFrame(nodes: seq<Node>, a: seq<KdNode>, sa: seq<nat>, pa: seq<nat>, nth: seq<nat>,
                    s1: seq<KdNode>, left: seq<KdNode>, s2: seq<KdNode>, sp2: seq<nat>, pl: seq<nat>,
                    right: seq<KdNode>, f: seq<KdNode>, spf: seq<nat>, pf: seq<nat>,
                    lo: nat, mid: nat, hi: nat, depth: nat)
    requires StepState(nodes, a, sa, pa, nth, s1, left, s2, sp2, pl, right, f, spf, pf, lo, mid, hi, depth)
    ensures |s2| == |left| && |spf| == |right| == |s2| + (hi - mid - 1) && |pf| == |pl|
    ensures forall t :: 0 <= t < |s2| ==> right[t] == s2[t] && spf[t] == sp2[t]
    ensures mid + 1 < hi ==> spf[|s2|] == hi - mid - 1 && right[|s2|].depth == depth + 1
  {
    ChildFacts(nodes, s2, sp2, pl, right, spf, pf, mid + 1, hi, depth + 1);
  }

  /** ... and its subtrees. */
  lemma StepRightRange(nodes: seq<Node>, a: seq<KdNode>, sa: seq<nat>, pa: seq<nat>, nth: seq<nat>,
                    s1: seq<KdNode>, left: seq<KdNode>, s2: seq<KdNode>, sp2: seq<nat>, pl: seq<nat>,
                    right: seq<KdNode>, f: seq<KdNode>, spf: seq<nat>, pf: seq<nat>,
                    lo: nat, mid: nat, hi: nat, depth: nat)
    requires StepState(nodes, a, sa, pa, nth, s1, left, s2, sp2, pl, right, f, spf, pf, lo, mid, hi, depth)
    ensures |s2| == |left| && |spf| == |right| == |s2| + (hi - mid - 1) && |pf| == |pl|
    ensures GoodRange(nodes, right, spf, |s2|, |right|)
    ensures Clusters(right, |s2|, |right|) == multiset(pl[mid + 1..hi])
    ensures AllBelow(pf, |nodes|) && Rearranged(pl, pf, mid + 1, hi)
  {
    ChildFacts(nodes, s2, sp2, pl, right, spf, pf, mid + 1, hi, depth + 1);
  }

  /** In the step, the parent slot is laid out and built, and the slots before it are untouched. */
  lemma StepParent(nodes: seq<Node>, a: seq<KdNode>, sa: seq<nat>, pa: seq<nat>, nth: seq<nat>,
                   s1: seq<KdNode>, left: seq<KdNode>, s2: seq<KdNode>, sp2: seq<nat>, pl: seq<nat>,
                   right: seq<KdNode>, f: seq<KdNode>, spf: seq<nat>, pf: seq<nat>,
                   lo: nat, mid: nat, hi: nat, depth: nat)
    requires StepState(nodes, a, sa, pa, nth, s1, left, s2, sp2, pl, right, f, spf, pf, lo, mid, hi, depth)
    ensures |spf| == |f| == |a| + (hi - lo) && |s2| == |a| + 1 + (mid - lo)
    ensures forall t :: 0 <= t < |a| ==> f[t] == a[t] && spf[t] == sa[t]
    ensures ShapeAt(f, spf, |a|) && Built(nodes, f[|a|]) && spf[|a|] == hi - lo && f[|a|].depth == depth
    ensures f[|a|].axis == depth % 3 && f[|a|].value == Key(nodes, nth[mid], depth % 3)
    ensures f[|a|].node == Some(nth[mid])
  {
    var s := |a|;
    var sp1 := sa + [hi - lo];
    var leftEnd := |s2|;
    StepLeftFrame(nodes, a, sa, pa, nth, s1, left, s2, sp2, pl, right, f, spf, pf, lo, mid, hi, depth);
    StepRightFrame(nodes, a, sa, pa, nth, s1, left, s2, sp2, pl, right, f, spf, pf, lo, mid, hi, depth);
    var leftLink := if lo < mid then Some(s + 1) else None;
    var rightLink := if mid + 1 < hi then Some(leftEnd) else None;
    assert s2[s] == s1[s].(left := leftLink);
    assert f[s] == s1[s].(left := leftLink, right := rightLink);
    assert spf[s] == hi - lo;
    assert lo < mid ==> spf[s + 1] == mid - lo && f[s + 1].depth == depth + 1;
    assert mid + 1 < hi ==> spf[leftEnd] == hi - mid - 1 && f[leftEnd].depth == depth + 1;
    ParentShape(f, spf, s, hi - lo, depth, leftEnd);
  }

  /** In the step, the left child's subtrees keep their meaning once the parent is linked. */
  lemma StepLeftMoved(nodes: seq<Node>, a: seq<KdNode>, sa: seq<nat>, pa: seq<nat>, nth: seq<nat>,
      s1: seq<KdNode>, left: seq<KdNode>, s2: seq<KdNode>, sp2: seq<nat>, pl: seq<nat>,
      right: seq<KdNode>, f: seq<KdNode>, spf: seq<nat>, pf: seq<nat>,
      lo: nat, mid: nat, hi: nat, depth: nat)
    requires StepState(nodes, a, sa, pa, nth, s1, left, s2, sp2, pl, right, f, spf, pf, lo, mid, hi, depth)
    ensures |spf| == |f| && |a| + 1 <= |s2| <= |f|
    ensures GoodRange(nodes, f, spf, |a| + 1, |s2|)
  {
    StepLeftFrame(nodes, a, sa, pa, nth, s1, left, s2, sp2, pl, right, f, spf, pf, lo, mid, hi, depth);
    StepRightFrame(nodes, a, sa, pa, nth, s1, left, s2, sp2, pl, right, f, spf, pf, lo, mid, hi, depth);
    StepLeftRange(nodes, a, sa, pa, nth, s1, left, s2, sp2, pl, right, f, spf, pf, lo, mid, hi, depth);
    GoodRangeStable(nodes, left, sp2, s2, sp2, |a| + 1, |s2|);
    GoodRangeStable(nodes, s2, sp2, f, spf, |a| + 1, |s2|);
  }

  /** In the step, the left child's slots hold the clusters of the lower part. */
  lemma StepLeftHeld(nodes: seq<Node>, a: seq<KdNode>, sa: seq<nat>, pa: seq<nat>, nth: seq<nat>,
      s1: seq<KdNode>, left: seq<KdNode>, s2: seq<KdNode>, sp2: seq<nat>, pl: seq<nat>,
      right: seq<KdNode>, f: seq<KdNode>, spf: seq<nat>, pf: seq<nat>,
      lo: nat, mid: nat, hi: nat, depth: nat)
    requires StepState(nodes, a, sa, pa, nth, s1, left, s2, sp2, pl, right, f, spf, pf, lo, mid, hi, depth)
    ensures |spf| == |f| && |a| + 1 <= |s2| <= |f|
    ensures Clusters(f, |a| + 1, |s2|) == multiset(nth[lo..mid])
  {
    StepLeftFrame(nodes, a, sa, pa, nth, s1, left, s2, sp2, pl, right, f, spf, pf, lo, mid, hi, depth);
    StepRightFrame(nodes, a, sa, pa, nth, s1, left, s2, sp2, pl, right, f, spf, pf, lo, mid, hi, depth);
    StepLeftRange(nodes, a, sa, pa, nth, s1, left, s2, sp2, pl, right, f, spf, pf, lo, mid, hi, depth);
    ClustersStable(left, s2, |a| + 1, |s2|);
    ClustersStable(s2, f, |a| + 1, |s2|);
  }

  /** In the step, the left child call leaves the upper part of perm alone. */
  lemma StepLeftKeepsUpper(nodes: seq<Node>, a: seq<KdNode>, sa: seq<nat>, pa: seq<nat>, nth: seq<nat>,
      s1: seq<KdNode>, left: seq<KdNode>, s2: seq<KdNode>, sp2: seq<nat>, pl: seq<nat>,
      right: seq<KdNode>, f: seq<KdNode>, spf: seq<nat>, pf: seq<nat>,
      lo: nat, mid: nat, hi: nat, depth: nat)
    requires StepState(nodes, a, sa, pa, nth, s1, left, s2, sp2, pl, right, f, spf, pf, lo, mid, hi, depth)
    ensures |pl| == |nth| && pl[mid + 1..hi] == nth[mid + 1..hi]
  {
    StepLeftRange(nodes, a, sa, pa, nth, s1, left, s2, sp2, pl, right, f, spf, pf, lo, mid, hi, depth);
    RearrangedOutside(nth, pl, lo, mid, mid + 1, hi);
  }

  /** In the step, so do the right child's. */
  lemma StepRightMoved(nodes: seq<Node>, a: seq<KdNode>, sa: seq<nat>, pa: seq<nat>, nth: seq<nat>,
      s1: seq<KdNode>, left: seq<KdNode>, s2: seq<KdNode>, sp2: seq<nat>, pl: seq<nat>,
      right: seq<KdNode>, f: seq<KdNode>, spf: seq<nat>, pf: seq<nat>,
      lo: nat, mid: nat, hi: nat, depth: nat)
    requires StepState(nodes, a, sa, pa, nth, s1, left, s2, sp2, pl, right, f, spf, pf, lo, mid, hi, depth)
    ensures |spf| == |f| && |s2| <= |f|
    ensures GoodRange(nodes, f, spf, |s2|, |f|)
  {
    StepRightFrame(nodes, a, sa, pa, nth, s1, left, s2, sp2, pl, right, f, spf, pf, lo, mid, hi, depth);
    StepRightRange(nodes, a, sa, pa, nth, s1, left, s2, sp2, pl, right, f, spf, pf, lo, mid, hi, depth);
    GoodRangeStable(nodes, right, spf, f, spf, |s2|, |f|);
  }

  /** In the step, the right child's slots hold the clusters of the upper part. */
  lemma StepRightHeld(nodes: seq<Node>, a: seq<KdNode>, sa: seq<nat>, pa: seq<nat>, nth: seq<nat>,
      s1: seq<KdNode>, left: seq<KdNode>, s2: seq<KdNode>, sp2: seq<nat>, pl: seq<nat>,
      right: seq<KdNode>, f: seq<KdNode>, spf: seq<nat>, pf: seq<nat>,
      lo: nat, mid: nat, hi: nat, depth: nat)
    requires StepState(nodes, a, sa, pa, nth, s1, left, s2, sp2, pl, right, f, spf, pf, lo, mid, hi, depth)
    ensures |spf| == |f| && |s2| <= |f|
    ensures Clusters(f, |s2|, |f|) == multiset(nth[mid + 1..hi])
  {
    StepRightFrame(nodes, a, sa, pa, nth, s1, left, s2, sp2, pl, right, f, spf, pf, lo, mid, hi, depth);
    StepRightRange(nodes, a, sa, pa, nth, s1, left, s2, sp2, pl, right, f, spf, pf, lo, mid, hi, depth);
    StepLeftKeepsUpper(nodes, a, sa, pa, nth, s1, left, s2, sp2, pl, right, f, spf, pf, lo, mid, hi, depth);
    ClustersStable(right, f, |s2|, |f|);
  }

  /** In the step, the two child calls only rearrange perm[lo..hi). */
  lemma StepArray(nodes: seq<Node>, a: seq<KdNode>, sa: seq<nat>, pa: seq<nat>, nth: seq<nat>,
      s1: seq<KdNode>, left: seq<KdNode>, s2: seq<KdNode>, sp2: seq<nat>, pl: seq<nat>,
      right: seq<KdNode>, f: seq<KdNode>, spf: seq<nat>, pf: seq<nat>,
      lo: nat, mid: nat, hi: nat, depth: nat)
    requires StepState(nodes, a, sa, pa, nth, s1, left, s2, sp2, pl, right, f, spf, pf, lo, mid, hi, depth)
    ensures AllBelow(pf, |nodes|) && Rearranged(nth, pf, lo, hi)
  {
    StepLeftRange(nodes, a, sa, pa, nth, s1, left, s2, sp2, pl, right, f, spf, pf, lo, mid, hi, depth);
    StepRightRange(nodes, a, sa, pa, nth, s1, left, s2, sp2, pl, right, f, spf, pf, lo, mid, hi, depth);
    RearrangedWiden(nth, pl, lo, lo, mid, hi);
    RearrangedWiden(pl, pf, lo, mid + 1, hi, hi);
    RearrangedTransitive(nth, pl, pf, lo, hi);
  }

  /** In the step, the parent slot splits at the median's key. */
  lemma StepMedian(nodes: seq<Node>, a: seq<KdNode>, sa: seq<nat>, pa: seq<nat>, nth: seq<nat>,
      s1: seq<KdNode>, left: seq<KdNode>, s2: seq<KdNode>, sp2: seq<nat>, pl: seq<nat>,
      right: seq<KdNode>, f: seq<KdNode>, spf: seq<nat>, pf: seq<nat>,
      lo: nat, mid: nat, hi: nat, depth: nat)
    requires StepState(nodes, a, sa, pa, nth, s1, left, s2, sp2, pl, right, f, spf, pf, lo, mid, hi, depth)
    ensures |spf| == |f| == |a| + (hi - lo) && |s2| == |a| + 1 + (hi - lo) / 2
    ensures spf[|a|] == hi - lo && f[|a|].axis == depth % 3 && mid < |nth| && nth[mid] < |nodes|
    ensures f[|a|].value == Key(nodes, nth[mid], depth % 3)
  {
    StepParent(nodes, a, sa, pa, nth, s1, left, s2, sp2, pl, right, f, spf, pf, lo, mid, hi, depth);
  }

  /** In the step, the median's key bounds the clusters of the lower part from above, of the upper from below. */
  lemma StepKeys(nodes: seq<Node>, a: seq<KdNode>, sa: seq<nat>, pa: seq<nat>, nth: seq<nat>,
      s1: seq<KdNode>, left: seq<KdNode>, s2: seq<KdNode>, sp2: seq<nat>, pl: seq<nat>,
      right: seq<KdNode>, f: seq<KdNode>, spf: seq<nat>, pf: seq<nat>,
      lo: nat, mid: nat, hi: nat, depth: nat)
    requires StepState(nodes, a, sa, pa, nth, s1, left, s2, sp2, pl, right, f, spf, pf, lo, mid, hi, depth)
    ensures mid < hi <= |nth| && nth[mid] < |nodes|
    ensures forall x :: x in multiset(nth[lo..mid]) ==>
      x < |nodes| && Key(nodes, x, depth % 3) <= Key(nodes, nth[mid], depth % 3)
    ensures forall x :: x in multiset(nth[mid + 1..hi]) ==>
      x < |nodes| && Key(nodes, nth[mid], depth % 3) <= Key(nodes, x, depth % 3)
  {
    var dim := depth % 3;
    assert Partitioned(nodes, nth, lo, mid, hi, dim);
    KeysBelow(nodes, nth, lo, mid, dim, Key(nodes, nth[mid], dim));
    KeysAbove(nodes, nth, mid + 1, hi, dim, Key(nodes, nth[mid], dim));
  }

  /** In the step, the median's split value separates the two child ranges. */
  lemma StepOrder(nodes: seq<Node>, a: seq<KdNode>, sa: seq<nat>, pa: seq<nat>, nth: seq<nat>,
      s1: seq<KdNode>, left: seq<KdNode>, s2: seq<KdNode>, sp2: seq<nat>, pl: seq<nat>,
      right: seq<KdNode>, f: seq<KdNode>, spf: seq<nat>, pf: seq<nat>,
      lo: nat, mid: nat, hi: nat, depth: nat)
    requires StepState(nodes, a, sa, pa, nth, s1, left, s2, sp2, pl, right, f, spf, pf, lo, mid, hi, depth)
    ensures |spf| == |f| && |a| < |f|
    ensures BstAt(nodes, f, spf, |a|)
  {
    var dim := depth % 3;
    StepMedian(nodes, a, sa, pa, nth, s1, left, s2, sp2, pl, right, f, spf, pf, lo, mid, hi, depth);
    StepLeftHeld(nodes, a, sa, pa, nth, s1, left, s2, sp2, pl, right, f, spf, pf, lo, mid, hi, depth);
    StepRightHeld(nodes, a, sa, pa, nth, s1, left, s2, sp2, pl, right, f, spf, pf, lo, mid, hi, depth);
    StepKeys(nodes, a, sa, pa, nth, s1, left, s2, sp2, pl, right, f, spf, pf, lo, mid, hi, depth);
    BstFromBounds(nodes, f, spf, |a|, |s2|, multiset(nth[lo..mid]), multiset(nth[mid + 1..hi]),
                  depth % 3, Key(nodes, nth[mid], depth % 3));
  }

  /** In the step, the parent slot and its two child ranges form one ordered subtree. */
  lemma StepTree(nodes: seq<Node>, a: seq<KdNode>, sa: seq<nat>, pa: seq<nat>, nth: seq<nat>,
      s1: seq<KdNode>, left: seq<KdNode>, s2: seq<KdNode>, sp2: seq<nat>, pl: seq<nat>,
      right: seq<KdNode>, f: seq<KdNode>, spf: seq<nat>, pf: seq<nat>,
      lo: nat, mid: nat, hi: nat, depth: nat)
    requires StepState(nodes, a, sa, pa, nth, s1, left, s2, sp2, pl, right, f, spf, pf, lo, mid, hi, depth)
    ensures |spf| == |f| && |a| <= |f|
    ensures GoodRange(nodes, f, spf, |a|, |f|)
  {
    StepParent(nodes, a, sa, pa, nth, s1, left, s2, sp2, pl, right, f, spf, pf, lo, mid, hi, depth);
    StepLeftMoved(nodes, a, sa, pa, nth, s1, left, s2, sp2, pl, right, f, spf, pf, lo, mid, hi, depth);
    StepRightMoved(nodes, a, sa, pa, nth, s1, left, s2, sp2, pl, right, f, spf, pf, lo, mid, hi, depth);
    StepOrder(nodes, a, sa, pa, nth, s1, left, s2, sp2, pl, right, f, spf, pf, lo, mid, hi, depth);
    AssembleSubtree(nodes, f, spf, |a|, |s2|);
  }

  /** In the step, the new slots hold exactly the clusters of perm[lo..hi). */
  lemma StepClusters(nodes: seq<Node>, a: seq<KdNode>, sa: seq<nat>, pa: seq<nat>, nth: seq<nat>,
      s1: seq<KdNode>, left: seq<KdNode>, s2: seq<KdNode>, sp2: seq<nat>, pl: seq<nat>,
      right: seq<KdNode>, f: seq<KdNode>, spf: seq<nat>, pf: seq<nat>,
      lo: nat, mid: nat, hi: nat, depth: nat)
    requires StepState(nodes, a, sa, pa, nth, s1, left, s2, sp2, pl, right, f, spf, pf, lo, mid, hi, depth)
    ensures |a| <= |f| && hi <= |pa|
    ensures Clusters(f, |a|, |f|) == multiset(pa[lo..hi])
  {
    StepParent(nodes, a, sa, pa, nth, s1, left, s2, sp2, pl, right, f, spf, pf, lo, mid, hi, depth);
    StepLeftHeld(nodes, a, sa, pa, nth, s1, left, s2, sp2, pl, right, f, spf, pf, lo, mid, hi, depth);
    StepRightHeld(nodes, a, sa, pa, nth, s1, left, s2, sp2, pl, right, f, spf, pf, lo, mid, hi, depth);
    ClustersOfSubtree(f, |a|, |s2|);
    MultisetSplit(nth, lo, mid, hi);
  }

  /**
   * The step of build_recurse: slot |a| holding the median cluster,
   * followed by the left and the right child's subtrees, is a subtree over
   * the whole range.
   */
  lemma StepGrown(nodes: seq<Node>, a: seq<KdNode>, sa: seq<nat>, pa: seq<nat>, nth: seq<nat>,
      s1: seq<KdNode>, left: seq<KdNode>, s2: seq<KdNode>, sp2: seq<nat>, pl: seq<nat>,
      right: seq<KdNode>, f: seq<KdNode>, spf: seq<nat>, pf: seq<nat>,
      lo: nat, mid: nat, hi: nat, depth: nat)
    requires StepState(nodes, a, sa, pa, nth, s1, left, s2, sp2, pl, right, f, spf, pf, lo, mid, hi, depth)
    ensures Grown(nodes, a, sa, pa, f, spf, pf, lo, hi, depth)
  {
    StepParent(nodes, a, sa, pa, nth, s1, left, s2, sp2, pl, right, f, spf, pf, lo, mid, hi, depth);
    StepTree(nodes, a, sa, pa, nth, s1, left, s2, sp2, pl, right, f, spf, pf, lo, mid, hi, depth);
    StepClusters(nodes, a, sa, pa, nth, s1, left, s2, sp2, pl, right, f, spf, pf, lo, mid, hi, depth);
    StepArray(nodes, a, sa, pa, nth, s1, left, s2, sp2, pl, right, f, spf, pf, lo, mid, hi, depth);
    RearrangedTransitive(pa, nth, pf, lo, hi);
  }

  /**
   * StepGrown in the form build_recurse reaches it: after the left child
   * call and the link of the left child, after the right child call and the
   * link of the right child.
   */
  lemma GrowStep(nodes: seq<Node>, a: seq<KdNode>, sa: seq<nat>, pa: seq<nat>, nth: seq<nat>,
               left: seq<KdNode>, sp2: seq<nat>, pl: seq<nat>, l: Option<nat>,
               right: seq<KdNode>, spf: seq<nat>, pf: seq<nat>, r: Option<nat>,
               lo: nat, mid: nat, hi: nat, depth: nat)
    requires lo < hi <= |pa| && |sa| == |a| && mid == lo + (hi - lo) / 2 && depth < DEPTH_LIMIT
    requires |nth| == |pa| && AllBelow(pa, |nodes|) && AllBelow(nth, |nodes|) && Rearranged(pa, nth, lo, hi)
    requires Partitioned(nodes, nth, lo, mid, hi, depth % 3)
    requires ChildGrown(nodes, a + [MedianSlot(nodes, nth, mid, depth)],
                        sa + [hi - lo], nth, left, sp2, pl, lo, mid, depth + 1)
    requires l == (if lo < mid then Some(|a| + 1) else None) && |a| < |left|
    requires ChildGrown(nodes, LinkLeft(left, |a|, l), sp2, pl, right, spf, pf, mid + 1, hi, depth + 1)
    requires r == (if mid + 1 < hi then Some(|left|) else None) && |a| < |right|
    ensures Grown(nodes, a, sa, pa, LinkRight(right, |a|, r), spf, pf, lo, hi, depth)
  {
    var s1 := a + [MedianSlot(nodes, nth, mid, depth)];
    ChildLength(nodes, s1, sa + [hi - lo], nth, left, sp2, pl, lo, mid, depth + 1);
    var s2 := LinkLeft(left, |a|, l);
    ChildLength(nodes, s2, sp2, pl, right, spf, pf, mid + 1, hi, depth + 1);
    // Separate calls for an empty and a non-empty lower part keep the proof cheap.
    if lo < mid {
      StepGrown(nodes, a, sa, pa, nth, s1, left, s2, sp2, pl, right, LinkRight(right, |a|, r), spf, pf, lo, mid, hi, depth);
    } else {
      StepGrown(nodes, a, sa, pa, nth, s1, left, s2, sp2, pl, right, LinkRight(right, |a|, r), spf, pf, lo, mid, hi, depth);
    }
  }

  /** How far a child call grows the slots, the spans and the array. */
  lemma ChildLength(nodes: seq<Node>, a: seq<KdNode>, sa: seq<nat>, pa: seq<nat>,
                   b: seq<KdNode>, sb: seq<nat>, pb: seq<nat>, lo: nat, hi: nat, depth: nat)
    requires lo <= hi <= |pa| && |sa| == |a|
    requires ChildGrown(nodes, a, sa, pa, b, sb, pb, lo, hi, depth)
    ensures |sb| == |b| == |a| + (hi - lo) && |pb| == |pa|
  {
  }

  /** The slots, their spans and the cluster array, as build_recurse leaves them. */
  datatype BuildState = BuildState(slots: seq<KdNode>, span: seq<nat>, perm: seq<nat>)

  /**
   * LcKdTree::build_recurse over the clusters perm[lo..hi) at `depth`, on
   * values: append the median slot after nth_element, grow the lower
   * part's subtree and link it as the left child, grow the upper part's
   * subtree and link it as the right child.
   */
  function Build(nodes: seq<Node>, slots: seq<KdNode>, span: seq<nat>, perm: seq<nat>,
                 lo: nat, hi: nat, depth: nat): (r: BuildState)
    requires lo < hi <= |perm| && |span| == |slots| && AllBelow(perm, |nodes|)
    ensures |r.span| == |r.slots| == |slots| + (hi - lo) && |r.perm| == |perm| && AllBelow(r.perm, |nodes|)
    decreases hi - lo, 1
  {
    var mid := lo + (hi - lo) / 2;
    BuildSplit(nodes, slots, span, Nth(nodes, perm, lo, mid, hi, depth % 3), lo, mid, hi, depth)
  }

  /** build_recurse after nth_element has left `nth` with its median at `mid`. */
  function BuildSplit(nodes: seq<Node>, slots: seq<KdNode>, span: seq<nat>, nth: seq<nat>,
                      lo: nat, mid: nat, hi: nat, depth: nat): (r: BuildState)
    requires lo <= mid < hi <= |nth| && mid == lo + (hi - lo) / 2 && |span| == |slots| && AllBelow(nth, |nodes|)
    ensures |r.span| == |r.slots| == |slots| + (hi - lo) && |r.perm| == |nth| && AllBelow(r.perm, |nodes|)
    decreases hi - lo, 0
  {
    var s := |slots|;
    var low := ChildBuild(nodes, slots + [MedianSlot(nodes, nth, mid, depth)], span + [hi - lo], nth, lo, mid, depth + 1);
    var linked := LinkLeft(low.slots, s, if lo < mid then Some(s + 1) else None);
    var high := ChildBuild(nodes, linked, low.span, low.perm, mid + 1, hi, depth + 1);
    BuildState(LinkRight(high.slots, s, if mid + 1 < hi then Some(|linked|) else None),
               high.span, high.perm)
  }

  /** A guarded child call of build_recurse: nothing happens for an empty range. */
  function ChildBuild(nodes: seq<Node>, slots: seq<KdNode>, span: seq<nat>, perm: seq<nat>,
                      lo: nat, hi: nat, depth: nat): (r: BuildState)
    requires lo <= hi <= |perm| && |span| == |slots| && AllBelow(perm, |nodes|)
    ensures |r.span| == |r.slots| == |slots| + (hi - lo) && |r.perm| == |perm| && AllBelow(r.perm, |nodes|)
    ensures lo == hi ==> r == BuildState(slots, span, perm)
    decreases hi - lo, 2
  {
    if lo < hi then Build(nodes, slots, span, perm, lo, hi, depth) else BuildState(slots, span, perm)
  }

  /**
   * build_recurse over perm[lo..hi) appends whole subtrees in pre-order
   * holding exactly the clusters of perm[lo..hi), ordered as a search tree;
   * it changes no earlier slot and only permutes perm[lo..hi).
   */
  lemma BuildGrown(nodes: seq<Node>, a: seq<KdNode>, sa: seq<nat>, pa: seq<nat>, lo: nat, hi: nat, depth: nat)
    requires lo < hi <= |pa| && |sa| == |a| && AllBelow(pa, |nodes|)
    requires depth + Height(hi - lo) <= DEPTH_LIMIT
    ensures var r := Build(nodes, a, sa, pa, lo, hi, depth);
      Grown(nodes, a, sa, pa, r.slots, r.span, r.perm, lo, hi, depth)
  {
    ChildBuildGrown(nodes, a, sa, pa, lo, hi, depth, Build(nodes, a, sa, pa, lo, hi, depth));
  }

  /** The induction behind BuildGrown, over a guarded child call. */
  lemma {:induction false} ChildBuildGrown(nodes: seq<Node>, a: seq<KdNode>, sa: seq<nat>, pa: seq<nat>,
                                           lo: nat, hi: nat, depth: nat, r: BuildState)
    requires lo <= hi <= |pa| && |sa| == |a| && AllBelow(pa, |nodes|)
    requires depth + Height(hi - lo) <= DEPTH_LIMIT
    requires r == ChildBuild(nodes, a, sa, pa, lo, hi, depth)
    ensures ChildGrown(nodes, a, sa, pa, r.slots, r.span, r.perm, lo, hi, depth)
    decreases hi - lo, 1
  {
    if lo < hi {
      var mid, nth, low, l, high, rl := BuildParts(nodes, a, sa, pa, lo, hi, depth);
      BuildJoin(nodes, a, sa, pa, lo, hi, depth, mid, nth, low, l, high, rl);
      HighBuildGrown(nodes, LinkLeft(low.slots, |a|, l), low.span, low.perm, lo, mid, hi, depth, high);
      LowBuildGrown(nodes, a, sa, nth, lo, mid, hi, depth, low);
      NthPartitions(nodes, pa, lo, mid, hi, depth % 3);
      GrowStep(nodes, a, sa, pa, nth, low.slots, low.span, low.perm, l, high.slots, high.span, high.perm, rl, lo, mid, hi, depth);
    }
  }

  /** ChildBuildGrown for the lower part lo..mid of a call over lo..hi at `depth`, after the median slot. */
  lemma {:induction false} LowBuildGrown(nodes: seq<Node>, a: seq<KdNode>, sa: seq<nat>, nth: seq<nat>,
                                         lo: nat, mid: nat, hi: nat, depth: nat, r: BuildState)
    requires lo <= mid < hi <= |nth| && mid == lo + (hi - lo) / 2 && |sa| == |a| && AllBelow(nth, |nodes|)
    requires depth + Height(hi - lo) <= DEPTH_LIMIT
    requires r == ChildBuild(nodes, a + [MedianSlot(nodes, nth, mid, depth)], sa + [hi - lo], nth, lo, mid, depth + 1)
    ensures ChildGrown(nodes, a + [MedianSlot(nodes, nth, mid, depth)], sa + [hi - lo], nth,
                       r.slots, r.span, r.perm, lo, mid, depth + 1)
    decreases hi - lo, 0
  {
    ChildBuildGrown(nodes, a + [MedianSlot(nodes, nth, mid, depth)], sa + [hi - lo], nth, lo, mid, depth + 1, r);
  }

  /** ChildBuildGrown for the upper part mid+1..hi of a call over lo..hi at `depth`. */
  lemma {:induction false} HighBuildGrown(nodes: seq<Node>, a: seq<KdNode>, sa: seq<nat>, pa: seq<nat>,
                                          lo: nat, mid: nat, hi: nat, depth: nat, r: BuildState)
    requires lo <= mid < hi <= |pa| && mid == lo + (hi - lo) / 2 && |sa| == |a| && AllBelow(pa, |nodes|)
    requires depth + Height(hi - lo) <= DEPTH_LIMIT
    requires r == ChildBuild(nodes, a, sa, pa, mid + 1, hi, depth + 1)
    ensures ChildGrown(nodes, a, sa, pa, r.slots, r.span, r.perm, mid + 1, hi, depth + 1)
    decreases hi - lo, 0
  {
    HeightMonotone(hi - mid - 1, (hi - lo) / 2);
    ChildBuildGrown(nodes, a, sa, pa, mid + 1, hi, depth + 1, r);
  }

  /**
   * The intermediate states of Build: the array `nth` after nth_element,
   * `low` after the guarded left call, the left link `l`, `high` after the
   * guarded right call and the right link `r`.
   */
  lemma BuildParts(nodes: seq<Node>, a: seq<KdNode>, sa: seq<nat>, pa: seq<nat>, lo: nat, hi: nat, depth: nat)
    returns (mid: nat, nth: seq<nat>, low: BuildState, l: Option<nat>, high: BuildState, r: Option<nat>)
    requires lo < hi <= |pa| && |sa| == |a| && AllBelow(pa, |nodes|)
    ensures mid == lo + (hi - lo) / 2 && |nth| == |pa| && AllBelow(nth, |nodes|)
    ensures nth == Nth(nodes, pa, lo, mid, hi, depth % 3)
    ensures low == ChildBuild(nodes, a + [MedianSlot(nodes, nth, mid, depth)], sa + [hi - lo], nth, lo, mid, depth + 1)
    ensures l == (if lo < mid then Some(|a| + 1) else None) && |low.slots| == |a| + 1 + (mid - lo)
    ensures high == ChildBuild(nodes, LinkLeft(low.slots, |a|, l), low.span, low.perm, mid + 1, hi, depth + 1)
    ensures r == (if mid + 1 < hi then Some(|low.slots|) else None)
  {
    mid := lo + (hi - lo) / 2;
    nth := Nth(nodes, pa, lo, mid, hi, depth % 3);
    low := ChildBuild(nodes, a + [MedianSlot(nodes, nth, mid, depth)], sa + [hi - lo], nth, lo, mid, depth + 1);
    l := if lo < mid then Some(|a| + 1) else None;
    high := ChildBuild(nodes, LinkLeft(low.slots, |a|, l), low.span, low.perm, mid + 1, hi, depth + 1);
    r := if mid + 1 < hi then Some(|low.slots|) else None;
  }

  /** Build is the right link set in the state after its intermediate states. */
  lemma BuildJoin(nodes: seq<Node>, a: seq<KdNode>, sa: seq<nat>, pa: seq<nat>, lo: nat, hi: nat, depth: nat,
                  mid: nat, nth: seq<nat>, low: BuildState, l: Option<nat>, high: BuildState, r: Option<nat>)
    requires lo < hi <= |pa| && |sa| == |a| && AllBelow(pa, |nodes|)
    requires mid == lo + (hi - lo) / 2 && |nth| == |pa| && AllBelow(nth, |nodes|)
    requires nth == Nth(nodes, pa, lo, mid, hi, depth % 3)
    requires low == ChildBuild(nodes, a + [MedianSlot(nodes, nth, mid, depth)], sa + [hi - lo], nth, lo, mid, depth + 1)
    requires l == (if lo < mid then Some(|a| + 1) else None) && |low.slots| == |a| + 1 + (mid - lo)
    requires high == ChildBuild(nodes, LinkLeft(low.slots, |a|, l), low.span, low.perm, mid + 1, hi, depth + 1)
    requires r == (if mid + 1 < hi then Some(|low.slots|) else None)
    ensures Build(nodes, a, sa, pa, lo, hi, depth) == BuildState(LinkRight(high.slots, |a|, r), high.span, high.perm)
  {
    assert Build(nodes, a, sa, pa, lo, hi, depth) == BuildSplit(nodes, a, sa, nth, lo, mid, hi, depth);
    SplitJoin(nodes, a, sa, nth, lo, mid, hi, depth, low, l, high, r);
  }

  /** BuildSplit is the right link set in the state after its two child builds. */
  lemma SplitJoin(nodes: seq<Node>, a: seq<KdNode>, sa: seq<nat>, nth: seq<nat>, lo: nat, mid: nat, hi: nat, depth: nat,
                  low: BuildState, l: Option<nat>, high: BuildState, r: Option<nat>)
    requires lo <= mid < hi <= |nth| && mid == lo + (hi - lo) / 2 && |sa| == |a| && AllBelow(nth, |nodes|)
    requires low == ChildBuild(nodes, a + [MedianSlot(nodes, nth, mid, depth)], sa + [hi - lo], nth, lo, mid, depth + 1)
    requires l == (if lo < mid then Some(|a| + 1) else None) && |low.slots| == |a| + 1 + (mid - lo)
    requires high == ChildBuild(nodes, LinkLeft(low.slots, |a|, l), low.span, low.perm, mid + 1, hi, depth + 1)
    requires r == (if mid + 1 < hi then Some(|low.slots|) else None)
    ensures BuildSplit(nodes, a, sa, nth, lo, mid, hi, depth) == BuildState(LinkRight(high.slots, |a|, r), high.span, high.perm)
  {
  }

  /**
   * The tree the constructor builds over the clusters 0, 1, ..., |nodes| - 1:
   * one slot per cluster, rooted in slot 0, every cluster exactly once, a
   * search tree, and no deletion marks.
   */
  lemma TreeBuilt(nodes: seq<Node>, a: seq<KdNode>, sa: seq<nat>, pa: seq<nat>, lo: nat, hi: nat, depth: nat, r: BuildState)
    requires |a| == 0 && |sa| == 0 && 0 == lo < hi == |pa| && depth + Height(hi - lo) <= DEPTH_LIMIT && AllBelow(pa, |nodes|)
    requires r == Build(nodes, a, sa, pa, lo, hi, depth)
    ensures |r.slots| == |r.span| == |pa| && r.span[0] == |pa|
    ensures Shape(r.slots, r.span) && DsSound(r.slots) && LiveHavePayload(r.slots)
    ensures Clusters(r.slots, 0, |r.slots|) == multiset(pa)
    ensures GoodRange(nodes, r.slots, r.span, 0, |r.slots|)
  {
    BuildGrown(nodes, a, sa, pa, lo, hi, depth);
    assert Grown(nodes, a, sa, pa, r.slots, r.span, r.perm, lo, hi, depth);
    assert pa[lo..hi] == pa;
    GoodRangeValid(nodes, r.slots, r.span);
  }

  /** BuildJoin in the terms build_recurse has at hand after its two child calls. */
  lemma RecurseJoin(nodes: seq<Node>, a: seq<KdNode>, sa: seq<nat>, pa: seq<nat>, lo: nat, hi: nat, depth: nat,
                    want: BuildState, mid: nat, upper: nat, nth: seq<nat>, low: BuildState, l: Option<nat>,
                    high: BuildState, r: Option<nat>)
    requires lo < hi <= |pa| && |sa| == |a| && AllBelow(pa, |nodes|)
    requires want == Build(nodes, a, sa, pa, lo, hi, depth)
    requires mid == lo + (hi - lo) / 2 && upper == mid + 1
    requires nth == Nth(nodes, pa, lo, mid, hi, depth % 3)
    requires low == ChildBuild(nodes, a + [MedianSlot(nodes, nth, mid, depth)], sa + [hi - lo], nth, lo, mid, depth + 1)
    requires l == (if lo < mid then Some(|a + [MedianSlot(nodes, nth, mid, depth)]|) else None)
    requires high == ChildBuild(nodes, LinkLeft(low.slots, |a|, l), low.span, low.perm, upper, hi, depth + 1)
    requires r == (if upper < hi then Some(|LinkLeft(low.slots, |a|, l)|) else None)
    ensures want == BuildState(LinkRight(high.slots, |a|, r), high.span, high.perm)
  {
    BuildJoin(nodes, a, sa, pa, lo, hi, depth, mid, nth, low, l, high, r);
  }

  // ---------------------------------------------------------------------------
  // The tree

  class LcKdTree {
    var slots: seq<KdNode>
    var root: nat
    ghost var span: seq<nat>

    ghost predicate Valid()
      reads this
    {
      Shape(slots, span) && 0 < |slots| && root == 0 && span[0] == |slots|
      && DsSound(slots) && LiveHavePayload(slots)
    }

    /**
     * LcKdTree::build_recurse over the clusters perm[lo..hi), from slots
     * `a` with spans `sa` and array contents `pa`: appends the median slot,
     * then the subtrees of the lower and of the upper part, and returns the
     * median slot's index. The new state is that of Build; BuildGrown states
     * what it means.
     */
    method BuildRecurse(nodes: seq<Node>, perm: array<nat>, lo: nat, hi: nat, depth: nat,
                        ghost a: seq<KdNode>, ghost sa: seq<nat>, ghost pa: seq<nat>, ghost want: BuildState)
      returns (s: nat)
      requires lo < hi <= perm.Length && depth + Height(hi - lo) <= DEPTH_LIMIT
      requires slots == a && span == sa && perm[..] == pa && |sa| == |a| && AllBelow(pa, |nodes|)
      requires want == Build(nodes, a, sa, pa, lo, hi, depth)
      modifies this, perm
      ensures s == |a| && BuildState(slots, span, perm[..]) == want
      decreases hi - lo, 1
    {
      var dim := depth % 3;
      s := |slots|;
      slots := slots + [KdNode(None, 0.0, dim, depth, false, false, None, None)];
      span := span + [hi - lo];
      var count := hi - lo;
      var mid := lo + count / 2;
      NthElement(nodes, perm, lo, mid, hi, dim);
      ghost var nth := perm[..];
      assert nth == Nth(nodes, pa, lo, mid, hi, depth % 3);
      var c := perm[mid];
      slots := slots[s := slots[s].(node := Some(c), value := Key(nodes, c, dim))];
      AppendThenSet(a, KdNode(None, 0.0, dim, depth, false, false, None, None), MedianSlot(nodes, nth, mid, depth));
      var upper := mid + 1;
      ChildDepths(depth, lo, mid, upper, hi);
      ghost var low := ChildBuild(nodes, a + [MedianSlot(nodes, nth, mid, depth)], sa + [hi - lo], nth, lo, mid, depth + 1);
      var l := BuildChild(nodes, perm, lo, mid, depth + 1, a + [MedianSlot(nodes, nth, mid, depth)], sa + [hi - lo], nth, low);
      slots := LinkLeft(slots, s, l);
      ghost var high := ChildBuild(nodes, LinkLeft(low.slots, |a|, l), low.span, low.perm, upper, hi, depth + 1);
      var r := BuildChild(nodes, perm, upper, hi, depth + 1, LinkLeft(low.slots, |a|, l), low.span, low.perm, high);
      slots := LinkRight(slots, s, r);
      RecurseJoin(nodes, a, sa, pa, lo, hi, depth, want, mid, upper, nth, low, l, high, r);
    }

    /**
     * A guarded child call of build_recurse: made only when perm[lo..hi) is
     * not empty, it yields the child's slot index, and None (nullptr) when
     * the range is empty.
     */
    method BuildChild(nodes: seq<Node>, perm: array<nat>, lo: nat, hi: nat, depth: nat,
                      ghost a: seq<KdNode>, ghost sa: seq<nat>, ghost pa: seq<nat>, ghost want: BuildState)
      returns (link: Option<nat>)
      requires lo <= hi <= perm.Length && depth + Height(hi - lo) <= DEPTH_LIMIT
      requires slots == a && span == sa && perm[..] == pa && |sa| == |a| && AllBelow(pa, |nodes|)
      requires want == ChildBuild(nodes, a, sa, pa, lo, hi, depth)
      modifies this, perm
      ensures link == (if lo < hi then Some(|a|) else None) && BuildState(slots, span, perm[..]) == want
      decreases hi - lo, 2
    {
      link := None;
      if lo < hi {
        var t := BuildRecurse(nodes, perm, lo, hi, depth, a, sa, pa, want);
        link := Some(t);
      }
    }

    /**
     * LcKdTree(nodes): the tree over all clusters of the node vector, built
     * from the array 0, 1, ..., |nodes| - 1 of their indices. It has one
     * slot per cluster, holds every cluster exactly once and is a search
     * tree laid out from its root in slot 0.
     */
    constructor (nodes: seq<Node>)
      requires 0 < |nodes| && Height(|nodes|) <= DEPTH_LIMIT
      ensures Valid() && |slots| == |nodes|
      ensures Clusters(slots, 0, |slots|) == multiset(Range(|nodes|))
      ensures GoodRange(nodes, slots, span, 0, |slots|)
    {
      var perm := new nat[|nodes|](i => i);
      RangeAllBelow(|nodes|);
      ghost var pa := Range(|nodes|);
      assert perm[..] == pa;
      // Variables rather than literals keep the solver from unfolding Build eagerly.
      var lo, depth := 0, 0;
      ghost var a, sa := [], [];
      ghost var built := Build(nodes, a, sa, pa, lo, |nodes|, depth);
      TreeBuilt(nodes, a, sa, pa, lo, |nodes|, depth, built);
      slots := [];
      span := [];
      root := 0;
      new;
      root := BuildRecurse(nodes, perm, lo, |nodes|, depth, a, sa, pa, built);
      assert slots == built.slots && span == built.span;
    }

    /** The clusters a search for cluster `q` reads exist. */
    predicate Searchable(lights: seq<VirtualLight>, nodes: seq<Node>, q: nat)
      reads this
    {
      q < |nodes| && nodes[q].light < |lights| && PayloadsBelow(slots, |nodes|)
    }

    /**
     * LcKdTree::check_nearest: offers slot `cur` to the best-so-far result,
     * returning early when the merged box is too large or the merge too
     * costly.
     */
    method CheckNearest(nodes: seq<Node>, q: nat, cur: nat, best: Nearest) returns (r: Nearest)
      requires q < |nodes| && cur < |slots| && slots[cur].node.Some? && slots[cur].node.value < |nodes|
      ensures r == Check(nodes, q, slots[cur].node.value, cur, best)
    {
      var c := slots[cur].node.value;
      var dist := MergeDiag(nodes, q, c);
      if !Below(dist, best.radius) {
        return best;
      }
      var cost := MergeCost(nodes, q, c);
      if !Below(cost, best.cost) {
        return best;
      }
      r := Nearest(Finite(cost), SearchRadius(nodes, q, cost), Some(cur));
    }

    /**
     * LcKdTree::find_nearest_recurse: the best result after searching below
     * `cur`, which is `want`, the result Search describes; SearchSound
     * states what it means.
     */
    method FindNearestRecurse(lights: seq<VirtualLight>, nodes: seq<Node>, q: nat, cur: Option<nat>, best: Nearest,
                              ghost want: Nearest)
      returns (r: Nearest)
      requires Valid() && Searchable(lights, nodes, q)
      requires cur.Some? ==> cur.value < |slots|
      requires want == Search(lights, nodes, slots, span, q, cur, best)
      ensures r == want
      decreases if cur.Some? && cur.value < |span| then span[cur.value] else 0
    {
      // The search changes nothing: local copies of the fields keep the proof about values.
      var slots := this.slots;
      ghost var span := this.span;
      if cur.None? || slots[cur.value].deletedSubtree {
        return best;
      }
      var s := cur.value;
      assert ShapeAt(slots, span, s);
      r := best;
      if !slots[s].deleted && slots[s].node.value != q {
        r := CheckNearest(nodes, q, s, r);
      }
      ghost var b1 := r;
      assert b1 == Visited(nodes, slots, q, s, best);
      var dx := lights[nodes[q].light].pos.At(slots[s].axis) - slots[s].value;
      var near := if dx <= 0.0 then slots[s].left else slots[s].right;
      var far := if dx <= 0.0 then slots[s].right else slots[s].left;
      ghost var b2 := Search(lights, nodes, slots, span, q, near, b1);
      r := FindNearestRecurse(lights, nodes, q, near, r, b2);
      SearchStep(lights, nodes, slots, span, q, s, best, b1, dx, near, far, b2, want);
      if Prunes(dx, r.radius) {
        return;
      }
      ghost var b3 := Search(lights, nodes, slots, span, q, far, b2);
      r := FindNearestRecurse(lights, nodes, q, far, r, b3);
    }

    /**
     * LcKdTree::find_nearest: the slot reported for cluster `q` and its merge
     * cost. Nothing is reported exactly when no live slot holds another
     * cluster; otherwise the slot is live, holds a cluster other than `q`,
     * and the cost is the cost of merging the two.
     */
    method FindNearest(lights: seq<VirtualLight>, nodes: seq<Node>, q: nat) returns (nearest: Option<nat>, cost: Bound)
      requires Valid() && Searchable(lights, nodes, q)
      ensures nearest.None? <==> !exists t :: 0 <= t < |slots| && Eligible(slots, q, t)
      ensures nearest.Some? ==>
        Eligible(slots, q, nearest.value) && cost == Finite(MergeCost(nodes, q, slots[nearest.value].node.value))
      ensures nearest.None? ==> cost == Unbounded
    {
      var start := Nearest(Unbounded, Unbounded, None);
      ghost var want := Search(lights, nodes, slots, span, q, Some(root), start);
      var best := FindNearestRecurse(lights, nodes, q, Some(root), start, want);
      SearchSound(lights, nodes, slots, span, q, Some(root), start, best);
      nearest, cost := best.slot, best.cost;
    }

    /**
     * LcKdTree::is_subtree_deleted_recurse: answers and changes the slots as
     * the sweep `want` below `cur` does; SweepSound states what that means.
     */
    method IsSubtreeDeletedRecurse(cur: Option<nat>, ghost want: Sweep) returns (b: bool)
      requires Shape(slots, span) && (cur.Some? ==> cur.value < |slots|)
      requires want == SweepFrom(slots, span, cur)
      modifies this
      ensures b == want.deleted && slots == want.slots && span == old(span) && root == old(root)
      decreases if cur.Some? && cur.value < |span| then span[cur.value] else 0
    {
      if cur.None? || slots[cur.value].deletedSubtree {
        return true;
      }
      var s := cur.value;
      if !slots[s].deleted {
        return false;
      }
      assert ShapeAt(slots, span, s);
      ghost var l := SweepFrom(slots, span, slots[s].left);
      var bl := IsSubtreeDeletedRecurse(slots[s].left, l);
      if bl {
        ShapeSameLinks(old(slots), slots, span);
        ghost var r := SweepFrom(slots, span, slots[s].right);
        var br := IsSubtreeDeletedRecurse(slots[s].right, r);
        if br {
          slots := slots[s := slots[s].(deletedSubtree := true)];
          return true;
        }
      }
      return false;
    }

    /**
     * LcKdTree::delete_node: mark slot `t` deleted, drop its cluster and
     * refresh its deleted_subtree flag. Nothing else changes but flags
     * inside the subtree of `t`, and afterwards the flag of `t` says whether
     * its whole subtree is deleted.
     */
    method DeleteNode(t: nat)
      requires Valid() && t < |slots|
      modifies this
      ensures Valid() && span == old(span) && root == old(root) && |slots| == old(|slots|)
      ensures slots[t] == old(slots[t]).(deleted := true, node := None, deletedSubtree := slots[t].deletedSubtree)
      ensures slots[t].deletedSubtree == AllDeleted(slots, span, t)
      ensures forall u :: 0 <= u < |slots| && u != t ==>
        slots[u] == old(slots[u]).(deletedSubtree := slots[u].deletedSubtree)
        && (old(slots[u].deletedSubtree) ==> slots[u].deletedSubtree)
        && (!InSubtree(span, t, u) ==> slots[u] == old(slots[u]))
    {
      ghost var before := slots;
      slots := slots[t := slots[t].(deleted := true, node := None)];
      ShapeSameLinks(before, slots, span);
      assert forall u :: 0 <= u < |slots| ==> DsSoundAt(before, u) ==> DsSoundAt(slots, u);
      ghost var marked := slots;
      ghost var want := SweepFrom(slots, span, Some(t));
      var _ := IsSubtreeDeletedRecurse(Some(t), want);
      SweepSound(marked, span, Some(t), want);
      FlagsRaisedKeepsDeleted(marked, slots, span, t);
      if slots[t].deletedSubtree {
        DsMeansAllDeleted(slots, span, t);
      }
    }

    /** LcKdTree::update_node: slot `t` now holds cluster `c`; nothing else changes. */
    method UpdateNode(t: nat, c: nat)
      requires Valid() && t < |slots|
      modifies this
      ensures Valid() && span == old(span) && root == old(root)
      ensures slots == old(slots)[t := old(slots[t]).(node := Some(c))]
    {
      ghost var before := slots;
      slots := slots[t := slots[t].(node := Some(c))];
      ShapeSameLinks(before, slots, span);
      assert forall u :: 0 <= u < |slots| ==> DsSoundAt(before, u) ==> DsSoundAt(slots, u);
    }
  }
}
