/**
 * The greedy agglomerative construction of the light tree (LightTree::build),
 * stated over values: the candidates of the min-cost queue and their lazy
 * invalidation, the merge step, and the invariant that ties the kd-tree's
 * live slots to the growing node vector.
 *
 * The invariant speaks about the payload column of the kd slots
 * (`Payloads`): P[t] is the cluster slot t holds, None once it is deleted.
 */
module LightTreeBuild {
  import opened Opt
  import opened Vec
  import opened Aabb
  import opened LightTreeNode
  import opened KdTree

  // ---------------------------------------------------------------------------
  // Candidates

  /** Candidate::NodePair: a kd slot and the cluster it held when the pair was made. */
  datatype NodePair = NodePair(node: nat, slot: nat)

  /** Candidate: a slot, the partner find_nearest reported for it, and their merge cost. */
  datatype Candidate = Candidate(pair1: NodePair, pair2: NodePair, distance: real)

  /** NodePair::obsolete: the slot was deleted or holds another cluster by now. */
  predicate Obsolete(slots: seq<KdNode>, p: NodePair)
    requires p.slot < |slots|
  {
    slots[p.slot].deleted || slots[p.slot].node != Some(p.node)
  }

  /** The payload column of the kd slots. */
  function Payloads(slots: seq<KdNode>): (p: seq<Option<nat>>)
    ensures |p| == |slots| && forall t :: 0 <= t < |slots| ==> p[t] == slots[t].node
  {
    seq(|slots|, t requires 0 <= t < |slots| => slots[t].node)
  }

  /** A slot is deleted exactly when it holds no cluster (delete_node clears both together). */
  predicate Paired(slots: seq<KdNode>)
  {
    forall t :: 0 <= t < |slots| ==> (slots[t].deleted <==> slots[t].node.None?)
  }

  /** Side `p` still names the cluster its slot holds. */
  predicate Current(P: seq<Option<nat>>, p: NodePair)
  {
    p.slot < |P| && P[p.slot] == Some(p.node)
  }

  /** Both sides of `c` are current: popping `c` merges. */
  predicate Fresh(P: seq<Option<nat>>, c: Candidate)
  {
    Current(P, c.pair1) && Current(P, c.pair2)
  }

  /** While deleted slots hold no cluster, a side is obsolete exactly when it is not current. */
  lemma ObsoleteIffNotCurrent(slots: seq<KdNode>, p: NodePair)
    requires Paired(slots) && p.slot < |slots|
    ensures Obsolete(slots, p) <==> !Current(Payloads(slots), p)
  {
  }

  /** delete_node on slot `t`: its payload column loses the cluster and nothing else. */
  lemma DeletePayloads(s0: seq<KdNode>, s1: seq<KdNode>, t: nat)
    requires Paired(s0) && t < |s0| && |s1| == |s0| && s1[t].deleted && s1[t].node == None
    requires forall u :: 0 <= u < |s1| && u != t ==> s1[u].node == s0[u].node && s1[u].deleted == s0[u].deleted
    ensures Paired(s1) && Payloads(s1) == Payloads(s0)[t := None]
  {
  }

  /** update_node on a live slot `t`: its payload column gets cluster `c` there. */
  lemma UpdatePayloads(s1: seq<KdNode>, s2: seq<KdNode>, t: nat, c: nat)
    requires Paired(s1) && t < |s1| && !s1[t].deleted && s2 == s1[t := s1[t].(node := Some(c))]
    ensures Paired(s2) && Payloads(s2) == Payloads(s1)[t := Some(c)]
  {
  }

  // ---------------------------------------------------------------------------
  // The candidate queue: a min-heap on distance, modelled as a sequence

  /** The position of the first candidate of least distance: what queue.top() returns. */
  function Top(queue: seq<Candidate>): (m: nat)
    requires |queue| > 0
    ensures m < |queue| && forall j :: 0 <= j < |queue| ==> queue[m].distance <= queue[j].distance
  {
    if |queue| == 1 then 0
    else
      var k := Top(queue[..|queue| - 1]);
      if queue[|queue| - 1].distance < queue[k].distance then |queue| - 1 else k
  }

  /** The queue without its entry at `m`. */
  function Remove<T>(queue: seq<T>, m: nat): (r: seq<T>)
    requires m < |queue|
    ensures |r| == |queue| - 1
    ensures forall j :: 0 <= j < |r| ==> r[j] == queue[if j < m then j else j + 1]
  {
    queue[..m] + queue[m + 1..]
  }

  /** All slots of the queue's candidates exist, and no candidate pairs a cluster with itself. */
  predicate QueueOk(queue: seq<Candidate>, n: nat)
  {
    forall i :: 0 <= i < |queue| ==>
      queue[i].pair1.slot < n && queue[i].pair2.slot < n && queue[i].pair1.node != queue[i].pair2.node
  }

  /** The number of queued candidates with an obsolete side. */
  function Stale(P: seq<Option<nat>>, queue: seq<Candidate>): nat
  {
    if |queue| == 0 then 0
    else Stale(P, queue[..|queue| - 1]) + (if Fresh(P, queue[|queue| - 1]) then 0 else 1)
  }

  lemma {:induction false} StaleAppend(P: seq<Option<nat>>, a: seq<Candidate>, b: seq<Candidate>)
    ensures Stale(P, a + b) == Stale(P, a) + Stale(P, b)
    decreases |b|
  {
    if |b| == 0 {
      assert a + b == a;
    } else {
      assert (a + b)[..|a + b| - 1] == a + b[..|b| - 1];
      StaleAppend(P, a, b[..|b| - 1]);
    }
  }

  /** Taking a candidate out lowers the count by one exactly when it was stale. */
  lemma StaleRemove(P: seq<Option<nat>>, queue: seq<Candidate>, m: nat)
    requires m < |queue|
    ensures Stale(P, Remove(queue, m)) + (if Fresh(P, queue[m]) then 0 else 1) == Stale(P, queue)
  {
    assert queue == queue[..m] + [queue[m]] + queue[m + 1..];
    StaleAppend(P, queue[..m] + [queue[m]], queue[m + 1..]);
    StaleAppend(P, queue[..m], [queue[m]]);
    StaleAppend(P, queue[..m], queue[m + 1..]);
    assert Stale(P, [queue[m]]) == Stale(P, []) + (if Fresh(P, queue[m]) then 0 else 1) by {
      assert [queue[m]][..0] == [];
    }
  }

  // ---------------------------------------------------------------------------
  // Live slots

  /** The number of slots that hold a cluster. */
  function Live(P: seq<Option<nat>>): nat
  {
    if |P| == 0 then 0 else Live(P[..|P| - 1]) + (if P[|P| - 1].Some? then 1 else 0)
  }

  lemma {:induction false} LiveUpdate(P: seq<Option<nat>>, t: nat, v: Option<nat>)
    requires t < |P|
    ensures Live(P[t := v]) + (if P[t].Some? then 1 else 0) == Live(P) + (if v.Some? then 1 else 0)
  {
    if t == |P| - 1 {
      assert P[t := v][..|P| - 1] == P[..|P| - 1];
    } else {
      assert P[t := v][..|P| - 1] == P[..|P| - 1][t := v];
      LiveUpdate(P[..|P| - 1], t, v);
    }
  }

  lemma {:induction false} LiveHas(P: seq<Option<nat>>, a: nat)
    requires a < |P| && P[a].Some?
    ensures Live(P) >= 1
  {
    if a < |P| - 1 {
      LiveHas(P[..|P| - 1], a);
    }
  }

  lemma {:induction false} LiveTwo(P: seq<Option<nat>>, a: nat, b: nat)
    requires a < b < |P| && P[a].Some? && P[b].Some?
    ensures Live(P) >= 2
  {
    if b < |P| - 1 {
      LiveTwo(P[..|P| - 1], a, b);
    } else {
      LiveHas(P[..|P| - 1], a);
    }
  }

  /** One live slot among none: a single live slot. */
  lemma {:induction false} LiveAlone(P: seq<Option<nat>>, a: nat)
    requires a < |P| && P[a].Some?
    requires forall u :: 0 <= u < |P| && u != a ==> P[u].None?
    ensures Live(P) == 1
  {
    if a < |P| - 1 {
      LiveAlone(P[..|P| - 1], a);
    } else {
      LiveNone(P[..|P| - 1]);
    }
  }

  lemma {:induction false} LiveNone(P: seq<Option<nat>>)
    requires forall u :: 0 <= u < |P| ==> P[u].None?
    ensures Live(P) == 0
  {
    if |P| > 0 {
      LiveNone(P[..|P| - 1]);
    }
  }

  lemma {:induction false} LiveFull(P: seq<Option<nat>>)
    requires forall u :: 0 <= u < |P| ==> P[u].Some?
    ensures Live(P) == |P|
  {
    if |P| > 0 {
      LiveFull(P[..|P| - 1]);
    }
  }

  /** With a single live slot `a`, every other slot is empty. */
  lemma LiveSingle(P: seq<Option<nat>>, a: nat)
    requires Live(P) == 1 && a < |P| && P[a].Some?
    ensures forall u :: 0 <= u < |P| && u != a ==> P[u].None?
  {
    forall u | 0 <= u < |P| && u != a
      ensures P[u].None?
    {
      if P[u].Some? {
        if u < a { LiveTwo(P, u, a); } else { LiveTwo(P, a, u); }
      }
    }
  }

  // ---------------------------------------------------------------------------
  // The lights below the live slots

  predicate HeldBelow(P: seq<Option<nat>>, n: nat)
  {
    forall t :: 0 <= t < |P| && P[t].Some? ==> P[t].value < n
  }

  /** No two slots hold the same cluster. */
  predicate Distinct(P: seq<Option<nat>>)
  {
    forall t, u :: 0 <= t < |P| && 0 <= u < |P| && t != u && P[t].Some? && P[u].Some? ==> P[t].value != P[u].value
  }

  /** The lights below the cluster a slot holds. */
  function Held(nodes: seq<Node>, o: Option<nat>): multiset<nat>
    requires ChildrenBefore(nodes)
  {
    if o.Some? && o.value < |nodes| then multiset(Leaves(nodes, o.value)) else multiset{}
  }

  /** The lights below all live slots, with multiplicity. */
  function LiveLeaves(nodes: seq<Node>, P: seq<Option<nat>>): multiset<nat>
    requires ChildrenBefore(nodes)
  {
    if |P| == 0 then multiset{}
    else LiveLeaves(nodes, P[..|P| - 1]) + Held(nodes, P[|P| - 1])
  }

  lemma {:induction false} LiveLeavesUpdate(nodes: seq<Node>, P: seq<Option<nat>>, t: nat, v: Option<nat>)
    requires ChildrenBefore(nodes) && t < |P|
    ensures LiveLeaves(nodes, P[t := v]) + Held(nodes, P[t]) == LiveLeaves(nodes, P) + Held(nodes, v)
  {
    var n := |P|;
    var Q, last := P[..n - 1], P[n - 1];
    var updated := P[t := v];
    var rest := LiveLeaves(nodes, Q);
    assert LiveLeaves(nodes, P) == rest + Held(nodes, last);
    assert |updated| == n;
    if t == n - 1 {
      assert updated[..n - 1] == Q && updated[n - 1] == v;
      assert LiveLeaves(nodes, updated) == rest + Held(nodes, v);
      UnionSwap(rest, Held(nodes, v), Held(nodes, last));
    } else {
      assert updated[..n - 1] == Q[t := v] && updated[n - 1] == last;
      assert LiveLeaves(nodes, updated) == LiveLeaves(nodes, Q[t := v]) + Held(nodes, last);
      LiveLeavesUpdate(nodes, Q, t, v);
      assert Q[t] == P[t];
      UnionShift(LiveLeaves(nodes, Q[t := v]), Held(nodes, P[t]), Held(nodes, last), rest, Held(nodes, v));
    }
  }

  lemma UnionSwap(p: multiset<nat>, x: multiset<nat>, b: multiset<nat>)
    ensures (p + x) + b == (p + b) + x
  {
  }

  /** Adding `l` on both sides keeps an equation between unions. */
  lemma UnionShift(a: multiset<nat>, b: multiset<nat>, l: multiset<nat>, c: multiset<nat>, x: multiset<nat>)
    requires a + b == c + x
    ensures (a + l) + b == (c + l) + x
  {
    assert (a + l) + b == (a + b) + l;
    assert (c + l) + x == (c + x) + l;
  }

  /** Multiset union cancels. */
  lemma MultisetCancel<T>(a: multiset<T>, b: multiset<T>, c: multiset<T>)
    requires a + c == b + c
    ensures a == b
  {
    forall x
      ensures a[x] == b[x]
    {
      assert (a + c)[x] == (b + c)[x];
    }
  }

  /** Appending a node changes no existing node's leaves. */
  lemma {:induction false} LeavesAppend(nodes: seq<Node>, x: Node, k: nat)
    requires ChildrenBefore(nodes) && ChildrenBefore(nodes + [x]) && k < |nodes|
    ensures Leaves(nodes + [x], k) == Leaves(nodes, k)
    decreases k
  {
    assert (nodes + [x])[k] == nodes[k];
    if !IsLeaf(nodes[k]) {
      LeavesAppend(nodes, x, nodes[k].left.value);
      LeavesAppend(nodes, x, nodes[k].right.value);
    }
  }

  lemma {:induction false} LiveLeavesAppend(nodes: seq<Node>, x: Node, P: seq<Option<nat>>)
    requires ChildrenBefore(nodes) && ChildrenBefore(nodes + [x]) && HeldBelow(P, |nodes|)
    ensures HeldBelow(P, |nodes + [x]|)
    ensures LiveLeaves(nodes + [x], P) == LiveLeaves(nodes, P)
  {
    if |P| > 0 {
      LiveLeavesAppend(nodes, x, P[..|P| - 1]);
      if P[|P| - 1].Some? {
        LeavesAppend(nodes, x, P[|P| - 1].value);
      }
    }
  }

  lemma {:induction false} LiveLeavesNone(nodes: seq<Node>, P: seq<Option<nat>>)
    requires ChildrenBefore(nodes) && forall u :: 0 <= u < |P| ==> P[u].None?
    ensures LiveLeaves(nodes, P) == multiset{}
  {
    if |P| > 0 {
      LiveLeavesNone(nodes, P[..|P| - 1]);
    }
  }

  /** With `a` the only live slot, the live leaves are those of its cluster. */
  lemma {:induction false} LiveLeavesAlone(nodes: seq<Node>, P: seq<Option<nat>>, a: nat)
    requires ChildrenBefore(nodes) && a < |P| && P[a].Some?
    requires forall u :: 0 <= u < |P| && u != a ==> P[u].None?
    ensures LiveLeaves(nodes, P) == Held(nodes, P[a])
  {
    if a < |P| - 1 {
      LiveLeavesAlone(nodes, P[..|P| - 1], a);
    } else {
      LiveLeavesNone(nodes, P[..|P| - 1]);
    }
  }

  lemma {:induction false} LiveLeavesHas(nodes: seq<Node>, P: seq<Option<nat>>, a: nat)
    requires ChildrenBefore(nodes) && a < |P|
    ensures Held(nodes, P[a]) <= LiveLeaves(nodes, P)
  {
    if a < |P| - 1 {
      LiveLeavesHas(nodes, P[..|P| - 1], a);
    }
  }

  lemma {:induction false} LiveLeavesPair(nodes: seq<Node>, P: seq<Option<nat>>, a: nat, b: nat)
    requires ChildrenBefore(nodes) && a < b < |P|
    ensures Held(nodes, P[a]) + Held(nodes, P[b]) <= LiveLeaves(nodes, P)
  {
    if b < |P| - 1 {
      LiveLeavesPair(nodes, P[..|P| - 1], a, b);
    } else {
      LiveLeavesHas(nodes, P[..|P| - 1], a);
    }
  }

  /** A light below some live slot is below the cluster of one particular slot. */
  lemma {:induction false} LiveLeavesFrom(nodes: seq<Node>, P: seq<Option<nat>>, x: nat) returns (t: nat)
    requires ChildrenBefore(nodes) && x in LiveLeaves(nodes, P)
    ensures t < |P| && P[t].Some? && x in Held(nodes, P[t])
  {
    if x in Held(nodes, P[|P| - 1]) {
      t := |P| - 1;
    } else {
      t := LiveLeavesFrom(nodes, P[..|P| - 1], x);
    }
  }

  /** When every light is below exactly one live slot, no two slots hold the same cluster. */
  lemma DistinctFromLeaves(lights: seq<VirtualLight>, nodes: seq<Node>, P: seq<Option<nat>>)
    requires WellFormed(lights, nodes) && ChildrenBefore(nodes) && HeldBelow(P, |nodes|)
    requires LiveLeaves(nodes, P) == multiset(Range(|lights|))
    ensures Distinct(P)
  {
    forall t, u | 0 <= t < |P| && 0 <= u < |P| && t != u && P[t].Some? && P[u].Some?
      ensures P[t].value != P[u].value
    {
      if P[t].value == P[u].value {
        if t < u { LiveLeavesPair(nodes, P, t, u); } else { LiveLeavesPair(nodes, P, u, t); }
        NodeSummarizesLeaves(lights, nodes, P[t].value);
        var x := Leaves(nodes, P[t].value)[0];
        assert Held(nodes, P[t])[x] >= 1;
        assert (Held(nodes, P[t]) + Held(nodes, P[u]))[x] >= 2;
        RangeCount(|lights|, x);
        assert false;
      }
    }
  }

  /** Before any merge, when every slot holds one of the leaf clusters, the live leaves are the slots' clusters. */
  lemma {:induction false} LeafPayloads(lights: seq<VirtualLight>, nodes: seq<Node>, slots: seq<KdNode>, n: nat)
    requires |nodes| == |lights| && forall k :: 0 <= k < |lights| ==> nodes[k] == MakeLeaf(lights, k)
    requires n <= |slots| && PayloadsBelow(slots, |nodes|)
    ensures ChildrenBefore(nodes)
    ensures LiveLeaves(nodes, Payloads(slots)[..n]) == Clusters(slots, 0, n)
  {
    var P := Payloads(slots);
    if n > 0 {
      LeafPayloads(lights, nodes, slots, n - 1);
      assert P[..n][..n - 1] == P[..n - 1];
      if slots[n - 1].node.Some? {
        var k := slots[n - 1].node.value;
        assert Leaves(nodes, k) == [k];
      }
    }
  }

  // ---------------------------------------------------------------------------
  // Re-querying a slot (the push_nearest lambda) and what keeps every live slot queued

  /** No other live slot holds a different cluster than slot `t`. */
  predicate Alone(P: seq<Option<nat>>, t: nat)
    requires t < |P| && P[t].Some?
  {
    forall u :: 0 <= u < |P| && P[u].Some? ==> P[u].value == P[t].value
  }

  /** `c` pairs slot `t`, as it is now, with a current slot of another cluster. */
  predicate Partner(P: seq<Option<nat>>, t: nat, c: Candidate)
    requires t < |P| && P[t].Some?
  {
    c.pair1 == NodePair(P[t].value, t) && Current(P, c.pair2) && c.pair2.node != P[t].value
  }

  /** push_nearest(t): a candidate for slot `t` is queued exactly when it has a partner. */
  predicate Pushed(P: seq<Option<nat>>, queue: seq<Candidate>, t: nat, queue': seq<Candidate>)
    requires t < |P| && P[t].Some?
  {
    if |queue'| == |queue| then queue' == queue && Alone(P, t)
    else |queue'| == |queue| + 1 && queue'[..|queue|] == queue && Partner(P, t, queue'[|queue|])
  }

  /** Slot `t` is one of the current sides of `c`. */
  predicate Side(P: seq<Option<nat>>, c: Candidate, t: nat)
  {
    (c.pair1.slot == t && Current(P, c.pair1)) || (c.pair2.slot == t && Current(P, c.pair2))
  }

  /** Some queued candidate has slot `t` as a current side. */
  ghost predicate Witnessed(P: seq<Option<nat>>, queue: seq<Candidate>, t: nat)
  {
    exists i :: 0 <= i < |queue| && Side(P, queue[i], t)
  }

  /**
   * Every live slot below `n` is a current side of a queued candidate,
   * unless it is the only live slot left.
   */
  ghost predicate CoveredUpTo(P: seq<Option<nat>>, queue: seq<Candidate>, n: nat)
  {
    Live(P) == 1 || forall t :: 0 <= t < n && t < |P| && P[t].Some? ==> Witnessed(P, queue, t)
  }

  lemma WitnessedAppend(P: seq<Option<nat>>, queue: seq<Candidate>, extra: seq<Candidate>, t: nat)
    requires Witnessed(P, queue, t)
    ensures Witnessed(P, queue + extra, t)
  {
    var i :| 0 <= i < |queue| && Side(P, queue[i], t);
    assert (queue + extra)[i] == queue[i];
  }

  lemma WitnessedRemove(P: seq<Option<nat>>, queue: seq<Candidate>, m: nat, i: nat, t: nat)
    requires m < |queue| && i < |queue| && i != m && Side(P, queue[i], t)
    ensures Witnessed(P, Remove(queue, m), t)
  {
    var j := if i < m then i else i - 1;
    assert Remove(queue, m)[j] == queue[i];
  }

  /** A re-queried slot is witnessed by its new candidate, or it is the last live slot. */
  lemma PushedCovers(P: seq<Option<nat>>, queue: seq<Candidate>, t: nat, queue': seq<Candidate>)
    requires t < |P| && P[t].Some? && Distinct(P) && Pushed(P, queue, t, queue')
    ensures Live(P) == 1 || Witnessed(P, queue', t)
  {
    if |queue'| == |queue| {
      LiveAlone(P, t);
    } else {
      assert Side(P, queue'[|queue|], t);
    }
  }

  /** Re-querying a slot keeps every other witness. */
  lemma PushedKeeps(P: seq<Option<nat>>, queue: seq<Candidate>, t: nat, queue': seq<Candidate>, u: nat)
    requires t < |P| && P[t].Some? && Pushed(P, queue, t, queue') && Witnessed(P, queue, u)
    ensures Witnessed(P, queue', u)
  {
    assert queue' == queue + queue'[|queue|..];
    WitnessedAppend(P, queue, queue'[|queue|..], u);
  }

  /** Re-querying a slot keeps the queue well formed and adds no stale candidate. */
  lemma PushedOk(P: seq<Option<nat>>, queue: seq<Candidate>, t: nat, queue': seq<Candidate>)
    requires t < |P| && P[t].Some? && QueueOk(queue, |P|) && Pushed(P, queue, t, queue')
    ensures QueueOk(queue', |P|) && Stale(P, queue') == Stale(P, queue)
  {
    if |queue'| > |queue| {
      assert queue' == queue + [queue'[|queue|]];
      StaleAppend(P, queue, [queue'[|queue|]]);
      assert Stale(P, [queue'[|queue|]]) == Stale(P, []) by {
        assert [queue'[|queue|]][..0] == [];
      }
    }
  }

  /** One step of the loop that re-queries every slot after construction. */
  lemma StartStep(P: seq<Option<nat>>, queue: seq<Candidate>, t: nat, queue': seq<Candidate>)
    requires t < |P| && P[t].Some? && Distinct(P)
    requires QueueOk(queue, |P|) && CoveredUpTo(P, queue, t) && Pushed(P, queue, t, queue')
    ensures QueueOk(queue', |P|) && CoveredUpTo(P, queue', t + 1)
  {
    PushedOk(P, queue, t, queue');
    PushedCovers(P, queue, t, queue');
    if Live(P) != 1 {
      forall u | 0 <= u < t + 1 && u < |P| && P[u].Some?
        ensures Witnessed(P, queue', u)
      {
        if u < t {
          PushedKeeps(P, queue, t, queue', u);
        }
      }
    }
  }

  // ---------------------------------------------------------------------------
  // The merge step

  /**
   * Whether pair1 becomes the left child: RNG::uniform_float() < i1 / (i1 + i2).
   * A zero denominator divides to +inf, -inf or NaN in floating point, so
   * the comparison then holds exactly when i1 > 0.
   */
  function PairFirst(i1: real, i2: real, u: real): bool
  {
    if i1 + i2 == 0.0 then i1 > 0.0 else u < i1 / (i1 + i2)
  }

  /**
   * With non-negative lumas of positive sum and a draw in [0, 1): a dark
   * pair1 never comes first, a dark pair2 never second, and equal lumas
   * decide on the draw against one half.
   */
  lemma PairFirstCases(i1: real, i2: real, u: real)
    requires 0.0 <= i1 && 0.0 <= i2 && 0.0 < i1 + i2 && 0.0 <= u < 1.0
    ensures i1 == 0.0 ==> !PairFirst(i1, i2, u)
    ensures i2 == 0.0 ==> PairFirst(i1, i2, u)
    ensures i1 == i2 ==> (PairFirst(i1, i2, u) <==> u < 0.5)
  {
    if i1 == 0.0 {
      assert i1 / (i1 + i2) == 0.0;
    }
    if i2 == 0.0 {
      assert i1 / (i1 + i2) == 1.0;
    }
    if i1 == i2 {
      assert (i1 + i2) * 0.5 == i1;
      assert i1 / (i1 + i2) == 0.5;
    }
  }

  /** The node a valid pop appends: pair1's cluster on the left when `first`. */
  function Joined(nodes: seq<Node>, c: Candidate, first: bool): Node
    requires c.pair1.node < |nodes| && c.pair2.node < |nodes|
  {
    if first then MakeInternal(nodes, c.pair1.node, c.pair2.node)
    else MakeInternal(nodes, c.pair2.node, c.pair1.node)
  }

  /**
   * The joined node's children are the two candidate clusters, pair1's on
   * the left exactly when `first`; its intensity and box do not depend on
   * the order, only its representative light does.
   */
  lemma JoinedChildren(nodes: seq<Node>, c: Candidate, first: bool)
    requires c.pair1.node < |nodes| && c.pair2.node < |nodes|
    ensures var n := Joined(nodes, c, first);
      && !IsLeaf(n)
      && {n.left.value, n.right.value} == {c.pair1.node, c.pair2.node}
      && (n.left == Some(c.pair1.node) <==> first || c.pair1.node == c.pair2.node)
      && n.intensity == Add(nodes[c.pair1.node].intensity, nodes[c.pair2.node].intensity)
      && n.aabb == Merge(nodes[c.pair1.node].aabb, nodes[c.pair2.node].aabb)
      && n.light == nodes[if first then c.pair1.node else c.pair2.node].light
  {
    MergeCommutative(nodes[c.pair1.node].aabb, nodes[c.pair2.node].aabb);
  }

  // ---------------------------------------------------------------------------
  // The loop invariant of LightTree::build

  /**
   * The state of the build loop after `merges` merges: the node vector
   * starts with one leaf per light and is well formed; every live slot holds
   * a distinct existing cluster, slot `holder` the newest one; the live
   * slots number one less per merge; every light is below exactly one live
   * slot; and each live slot is a current side of a queued candidate unless
   * it is the last.
   */
  ghost predicate Forest(lights: seq<VirtualLight>, nodes: seq<Node>, P: seq<Option<nat>>,
                         queue: seq<Candidate>, merges: nat, holder: nat)
  {
    && 0 < |P| == |lights|
    && WellFormed(lights, nodes) && ChildrenBefore(nodes) && |nodes| == |lights| + merges
    && (forall k :: 0 <= k < |lights| ==> nodes[k] == MakeLeaf(lights, k))
    && HeldBelow(P, |nodes|) && Distinct(P)
    && Live(P) + merges == |lights|
    && holder < |P| && P[holder].Some? && P[holder].value == |nodes| - 1
    && LiveLeaves(nodes, P) == multiset(Range(|lights|))
    && QueueOk(queue, |P|)
    && CoveredUpTo(P, queue, |P|)
  }

  /** The state right after the kd-tree is built over the leaves and every slot is queried. */
  lemma Started(lights: seq<VirtualLight>, nodes: seq<Node>, slots: seq<KdNode>, span: seq<nat>)
      returns (holder: nat)
    requires 0 < |nodes| == |lights| && forall k :: 0 <= k < |lights| ==> nodes[k] == MakeLeaf(lights, k)
    requires |slots| == |nodes| && |span| == |slots|
    requires Clusters(slots, 0, |slots|) == multiset(Range(|nodes|))
    requires GoodRange(nodes, slots, span, 0, |slots|)
    ensures Paired(slots) && holder < |slots| && Payloads(slots)[holder].Some? && Payloads(slots)[holder].value == |nodes| - 1
    ensures var P := Payloads(slots);
      WellFormed(lights, nodes) && ChildrenBefore(nodes) && HeldBelow(P, |nodes|) && Distinct(P)
      && Live(P) == |lights| && LiveLeaves(nodes, P) == multiset(Range(|lights|))
      && forall t :: 0 <= t < |P| ==> P[t].Some?
  {
    var P := Payloads(slots);
    StartedSlots(nodes, slots, span);
    LeavesWellFormed(lights, nodes);
    LeafPayloads(lights, nodes, slots, |slots|);
    assert P[..|slots|] == P;
    LiveFull(P);
    DistinctFromLeaves(lights, nodes, P);
    holder := LastLeafHolder(lights, nodes, P);
  }

  /** When the live slots hold leaves only, some slot holds the last leaf itself. */
  lemma LastLeafHolder(lights: seq<VirtualLight>, nodes: seq<Node>, P: seq<Option<nat>>) returns (holder: nat)
    requires 0 < |nodes| == |lights| && forall k :: 0 <= k < |lights| ==> nodes[k] == MakeLeaf(lights, k)
    requires ChildrenBefore(nodes) && HeldBelow(P, |nodes|)
    requires LiveLeaves(nodes, P) == multiset(Range(|nodes|))
    ensures holder < |P| && P[holder].Some? && P[holder].value == |nodes| - 1
  {
    var last := |nodes| - 1;
    RangeCount(|nodes|, last);
    holder := LiveLeavesFrom(nodes, P, last);
    LeafHeld(lights, nodes, P[holder], last);
  }

  /** Among leaves only, the light `x` is held by the slot holding leaf `x` and no other. */
  lemma LeafHeld(lights: seq<VirtualLight>, nodes: seq<Node>, o: Option<nat>, x: nat)
    requires |nodes| == |lights| && forall k :: 0 <= k < |lights| ==> nodes[k] == MakeLeaf(lights, k)
    requires ChildrenBefore(nodes) && x in Held(nodes, o)
    ensures o == Some(x)
  {
    var v := o.value;
    var leaf := MakeLeaf(lights, v);
    assert nodes[v] == leaf && IsLeaf(leaf) && leaf.light == v;
    assert Leaves(nodes, v) == [v];
  }

  /** Right after the build every slot holds a leaf and none is deleted. */
  lemma StartedSlots(nodes: seq<Node>, slots: seq<KdNode>, span: seq<nat>)
    requires |span| == |slots| && GoodRange(nodes, slots, span, 0, |slots|)
    ensures forall t :: 0 <= t < |slots| ==> slots[t].node.Some? && !slots[t].deleted && slots[t].node.value < |nodes|
  {
    forall t | 0 <= t < |slots|
      ensures slots[t].node.Some? && !slots[t].deleted && slots[t].node.value < |nodes|
    {
      assert ShapeAt(slots, span, t);
    }
  }

  /** A sequence of leaves made from the lights, in order, is a well-formed tree. */
  lemma LeavesWellFormed(lights: seq<VirtualLight>, nodes: seq<Node>)
    requires |nodes| == |lights| && forall k :: 0 <= k < |lights| ==> nodes[k] == MakeLeaf(lights, k)
    ensures WellFormed(lights, nodes)
  {
    forall k | 0 <= k < |nodes|
      ensures NodeBuilt(lights, nodes, k)
    {
    }
  }

  /**
   * Popping a candidate with an obsolete side merges nothing: re-querying
   * its current sides keeps the invariant and leaves one stale candidate
   * fewer.
   */
  lemma Requeue(lights: seq<VirtualLight>, nodes: seq<Node>, P: seq<Option<nat>>, queue: seq<Candidate>,
                merges: nat, holder: nat, m: nat, q1: seq<Candidate>, q2: seq<Candidate>, q3: seq<Candidate>)
    requires Forest(lights, nodes, P, queue, merges, holder)
    requires m < |queue| && q1 == Remove(queue, m) && !Fresh(P, queue[m])
    requires Current(P, queue[m].pair1) ==> Pushed(P, q1, queue[m].pair1.slot, q2)
    requires !Current(P, queue[m].pair1) ==> q2 == q1
    requires Current(P, queue[m].pair2) ==> Pushed(P, q2, queue[m].pair2.slot, q3)
    requires !Current(P, queue[m].pair2) ==> q3 == q2
    ensures Forest(lights, nodes, P, q3, merges, holder)
    ensures Stale(P, q3) < Stale(P, queue)
  {
    var c := queue[m];
    StaleRemove(P, queue, m);
    assert QueueOk(q1, |P|);
    if Current(P, c.pair1) { PushedOk(P, q1, c.pair1.slot, q2); }
    if Current(P, c.pair2) { PushedOk(P, q2, c.pair2.slot, q3); }
    if Live(P) != 1 {
      forall t | 0 <= t < |P| && P[t].Some?
        ensures Witnessed(P, q3, t)
      {
        var i :| 0 <= i < |queue| && Side(P, queue[i], t);
        if i != m {
          WitnessedRemove(P, queue, m, i, t);
          if Current(P, c.pair1) { PushedKeeps(P, q1, c.pair1.slot, q2, t); }
          if Current(P, c.pair2) { PushedKeeps(P, q2, c.pair2.slot, q3, t); }
        } else if c.pair1.slot == t && Current(P, c.pair1) {
          PushedCovers(P, q1, t, q2);
        } else {
          PushedCovers(P, q2, t, q3);
        }
      }
    }
  }

  /**
   * Appending the joined node keeps the vector well formed and its leaf
   * prefix, and the lights below the new node are those below its two
   * children.
   */
  lemma MergeVector(lights: seq<VirtualLight>, nodes: seq<Node>, c: Candidate, first: bool, nodes': seq<Node>)
    requires WellFormed(lights, nodes) && ChildrenBefore(nodes)
    requires |nodes| >= |lights| && forall k :: 0 <= k < |lights| ==> nodes[k] == MakeLeaf(lights, k)
    requires c.pair1.node < |nodes| && c.pair2.node < |nodes|
    requires nodes' == nodes + [Joined(nodes, c, first)]
    ensures |nodes'| == |nodes| + 1 && WellFormed(lights, nodes') && ChildrenBefore(nodes')
    ensures forall k :: 0 <= k < |lights| ==> nodes'[k] == MakeLeaf(lights, k)
    ensures Held(nodes', Some(|nodes|)) == Held(nodes', Some(c.pair1.node)) + Held(nodes', Some(c.pair2.node))
  {
    var a, b := c.pair1.node, c.pair2.node;
    AppendInternal(lights, nodes, if first then a else b, if first then b else a);
    WellFormedChildrenBefore(lights, nodes');
    assert nodes'[|nodes|] == Joined(nodes, c, first);
  }

  /**
   * Deleting slot `drop` and writing the new cluster |nodes| into slot
   * `keep` (the two candidate slots) keeps the slots' clusters distinct and
   * leaves one live slot fewer.
   */
  lemma MergeSlots(P: seq<Option<nat>>, c: Candidate, keep: nat, drop: nat, n: nat, P': seq<Option<nat>>)
    requires HeldBelow(P, n) && Distinct(P) && Fresh(P, c) && c.pair1.node != c.pair2.node
    requires (keep == c.pair1.slot && drop == c.pair2.slot) || (keep == c.pair2.slot && drop == c.pair1.slot)
    requires P' == P[drop := None][keep := Some(n)]
    ensures keep != drop && |P'| == |P| && P'[keep].Some? && P'[keep].value == n && HeldBelow(P', n + 1) && Distinct(P')
    ensures Live(P') + 1 == Live(P)
  {
    LiveUpdate(P, drop, None);
    LiveUpdate(P[drop := None], keep, Some(n));
  }

  /** The same merge keeps every light below exactly one live slot. */
  lemma MergeLeaves(nodes: seq<Node>, x: Node, P: seq<Option<nat>>, c: Candidate, keep: nat, drop: nat,
                    P': seq<Option<nat>>, R: multiset<nat>)
    requires ChildrenBefore(nodes) && ChildrenBefore(nodes + [x]) && HeldBelow(P, |nodes|)
    requires Fresh(P, c) && keep != drop
    requires (keep == c.pair1.slot && drop == c.pair2.slot) || (keep == c.pair2.slot && drop == c.pair1.slot)
    requires P' == P[drop := None][keep := Some(|nodes|)]
    requires Held(nodes + [x], Some(|nodes|)) == Held(nodes + [x], Some(c.pair1.node)) + Held(nodes + [x], Some(c.pair2.node))
    requires LiveLeaves(nodes, P) == R
    ensures LiveLeaves(nodes + [x], P') == R
  {
    var nodes' := nodes + [x];
    var Pd := P[drop := None];
    var before, between, after := LiveLeaves(nodes', P), LiveLeaves(nodes', Pd), LiveLeaves(nodes', P');
    var hk, hd, hn := Held(nodes', P[keep]), Held(nodes', P[drop]), Held(nodes', Some(|nodes|));
    LiveLeavesAppend(nodes, x, P);
    assert before == R;
    LiveLeavesUpdate(nodes', P, drop, None);
    assert Held(nodes', None) == multiset{};
    assert between + hd == R;
    assert Pd[keep] == P[keep];
    LiveLeavesUpdate(nodes', Pd, keep, Some(|nodes|));
    assert after + hk == between + hn;
    var h1, h2 := Held(nodes', Some(c.pair1.node)), Held(nodes', Some(c.pair2.node));
    if keep == c.pair1.slot {
      assert hk == h1 && hd == h2;
    } else {
      assert hk == h2 && hd == h1;
      UnionCommutes(h1, h2);
    }
    Exchange(after, between, R, hk, hd, hn);
  }

  lemma UnionCommutes(a: multiset<nat>, b: multiset<nat>)
    ensures a + b == b + a
  { }

  /** Trading parts `hk` and `hd` of a multiset for their union `hn` keeps it. */
  lemma Exchange<T>(after: multiset<T>, between: multiset<T>, before: multiset<T>,
                    hk: multiset<T>, hd: multiset<T>, hn: multiset<T>)
    requires between + hd == before && after + hk == between + hn && hk + hd == hn
    ensures after == before
  {
    calc {
      after + hn;
      after + hk + hd;
      between + hn + hd;
      before + hn;
    }
    MultisetCancel(after, before, hn);
  }

  /** After a valid pop, every live slot is still witnessed, or it is the last one. */
  lemma MergeQueue(P: seq<Option<nat>>, queue: seq<Candidate>, m: nat, keep: nat, drop: nat,
                   P': seq<Option<nat>>, q1: seq<Candidate>, q2: seq<Candidate>)
    requires QueueOk(queue, |P|) && CoveredUpTo(P, queue, |P|)
    requires m < |queue| && Fresh(P, queue[m]) && q1 == Remove(queue, m)
    requires (keep == queue[m].pair1.slot && drop == queue[m].pair2.slot)
          || (keep == queue[m].pair2.slot && drop == queue[m].pair1.slot)
    requires keep != drop && |P'| == |P| && P'[keep].Some? && Distinct(P')
    requires P'[drop] == None && forall t :: 0 <= t < |P| && t != keep && t != drop ==> P'[t] == P[t]
    requires Pushed(P', q1, keep, q2)
    ensures QueueOk(q2, |P'|) && CoveredUpTo(P', q2, |P'|)
  {
    var c := queue[m];
    assert QueueOk(q1, |P'|);
    PushedOk(P', q1, keep, q2);
    PushedCovers(P', q1, keep, q2);
    if Live(P') != 1 {
      if c.pair1.slot < c.pair2.slot {
        LiveTwo(P, c.pair1.slot, c.pair2.slot);
      } else {
        LiveTwo(P, c.pair2.slot, c.pair1.slot);
      }
      forall t | 0 <= t < |P'| && P'[t].Some?
        ensures Witnessed(P', q2, t)
      {
        if t != keep {
          var i :| 0 <= i < |queue| && Side(P, queue[i], t);
          assert Side(P', queue[i], t);
          WitnessedRemove(P', queue, m, i, t);
          PushedKeeps(P', q1, keep, q2, t);
        }
      }
    }
  }

  /** A valid pop keeps the invariant, with the slot that got the new node as holder, and one live slot fewer. */
  lemma Merged(lights: seq<VirtualLight>, nodes: seq<Node>, P: seq<Option<nat>>, queue: seq<Candidate>,
               merges: nat, holder: nat, m: nat, q1: seq<Candidate>, first: bool, nodes': seq<Node>,
               keep: nat, drop: nat, P': seq<Option<nat>>, q2: seq<Candidate>)
    requires Forest(lights, nodes, P, queue, merges, holder)
    requires m < |queue| && q1 == Remove(queue, m) && Fresh(P, queue[m])
    requires nodes' == nodes + [Joined(nodes, queue[m], first)]
    requires (keep == queue[m].pair1.slot && drop == queue[m].pair2.slot)
          || (keep == queue[m].pair2.slot && drop == queue[m].pair1.slot)
    requires P' == P[drop := None][keep := Some(|nodes|)]
    requires keep < |P'| && P'[keep].Some? && Pushed(P', q1, keep, q2)
    ensures Forest(lights, nodes', P', q2, merges + 1, keep)
    ensures Live(P') < Live(P)
  {
    var c := queue[m];
    MergeVector(lights, nodes, c, first, nodes');
    MergeSlots(P, c, keep, drop, |nodes|, P');
    MergeLeaves(nodes, Joined(nodes, c, first), P, c, keep, drop, P', multiset(Range(|lights|)));
    MergeQueue(P, queue, m, keep, drop, P', q1, q2);
  }

  /** The last node is a cluster of every light exactly once. */
  ghost predicate RootCovers(lights: seq<VirtualLight>, nodes: seq<Node>)
  {
    0 < |nodes| && ChildrenBefore(nodes) && multiset(Leaves(nodes, |nodes| - 1)) == multiset(Range(|lights|))
  }

  /**
   * When the queue runs empty a single live slot is left. So L - 1 merges
   * happened, the vector holds 2L - 1 nodes, and the last of them is the
   * root of a tree with every light below it exactly once.
   */
  lemma Finished(lights: seq<VirtualLight>, nodes: seq<Node>, P: seq<Option<nat>>, merges: nat, holder: nat)
    requires Forest(lights, nodes, P, [], merges, holder)
    ensures |nodes| == 2 * |lights| - 1 && merges == |lights| - 1
    ensures RootCovers(lights, nodes)
  {
    assert !Witnessed(P, [], holder);
    assert Live(P) == 1;
    LiveSingle(P, holder);
    LiveLeavesAlone(nodes, P, holder);
    assert Held(nodes, P[holder]) == multiset(Leaves(nodes, |nodes| - 1));
  }
}
