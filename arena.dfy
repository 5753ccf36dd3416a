/** The node arena of the BVH: a sequence of nodes that refer to their
    children by index, and what it means for the arena to hold a correct tree
    over a sequence of circles. */
module Arena {
  import opened Geometry
  import opened Ranges

  /** `BVHNode`. Both variants carry their bounds (`BVHNode::bounds` is the
      shared `bounds` field); a leaf owns the circles `[start, end)`. */
  datatype Node =
    | Internal(bounds: AABB, left: nat, right: nat)
    | Leaf(bounds: AABB, start: nat, end: nat)

  /** Every internal node's children are arena entries after it. */
  ghost predicate Ordered(nodes: seq<Node>) {
    forall i :: 0 <= i < |nodes| && nodes[i].Internal? ==>
      i < nodes[i].left < |nodes| && i < nodes[i].right < |nodes|
  }

  /** First circle index below node `i`: its leftmost leaf's start. */
  ghost function Lo(nodes: seq<Node>, i: nat): nat
    requires Ordered(nodes) && i < |nodes|
    decreases |nodes| - i
  {
    match nodes[i]
    case Leaf(_, s, _) => s
    case Internal(_, l, _) => Lo(nodes, l)
  }

  /** One past the last circle index below node `i`: its rightmost leaf's end. */
  ghost function Hi(nodes: seq<Node>, i: nat): nat
    requires Ordered(nodes) && i < |nodes|
    decreases |nodes| - i
  {
    match nodes[i]
    case Leaf(_, _, e) => e
    case Internal(_, _, r) => Hi(nodes, r)
  }

  /** The subtree at `i` is a correct BVH over `cs`: every leaf range is
      non-empty and inside `cs`, a leaf's bounds are the box of its circles,
      the left child's range ends where the right child's begins, and an
      internal node's bounds are the union of its children's. */
  ghost predicate Sound(nodes: seq<Node>, cs: seq<Circle>, i: nat): (ok: bool)
    requires Ordered(nodes) && i < |nodes|
    ensures ok ==> Lo(nodes, i) < Hi(nodes, i) <= |cs|
    decreases |nodes| - i
  {
    match nodes[i]
    case Leaf(b, s, e) => s < e <= |cs| && b == SeqBox(cs[s..e])
    case Internal(b, l, r) =>
      Sound(nodes, cs, l) && Sound(nodes, cs, r)
      && Hi(nodes, l) == Lo(nodes, r)
      && b == nodes[l].bounds.Union(nodes[r].bounds)
  }

  /** Every leaf of the subtree at `i` is one `subdivide` stops at: it holds at
      most `threshold` circles, or its split would leave the cursor at the
      range's start or last element. */
  ghost predicate Settled(nodes: seq<Node>, cs: seq<Circle>, i: nat, threshold: nat)
    requires Ordered(nodes) && i < |nodes|
    decreases |nodes| - i
  {
    match nodes[i]
    case Leaf(_, s, e) => e - s <= threshold || (s < e <= |cs| && Unsplittable(cs[s..e]))
    case Internal(_, l, r) => Settled(nodes, cs, l, threshold) && Settled(nodes, cs, r, threshold)
  }

  /** Every internal node of the subtree at `i` is a leaf `subdivide` split:
      its range holds more than `threshold` circles, the guard does not keep
      it, its left child ends where the partition cursor stopped, and the
      left child holds the circles below the split plane and the right child
      the others. */
  ghost predicate Divided(nodes: seq<Node>, cs: seq<Circle>, i: nat, threshold: nat)
    requires Ordered(nodes) && i < |nodes|
    decreases |nodes| - i
  {
    match nodes[i]
    case Leaf(_, _, _) => true
    case Internal(_, l, r) =>
      Divided(nodes, cs, l, threshold) && Divided(nodes, cs, r, threshold)
      && Cut(cs, Lo(nodes, l), Hi(nodes, l), Hi(nodes, r), threshold)
  }

  /** Arena indices of the subtree at `i`. */
  ghost function Reach(nodes: seq<Node>, i: nat): (r: set<nat>)
    requires Ordered(nodes) && i < |nodes|
    ensures i in r
    ensures forall j :: j in r ==> i <= j < |nodes|
    decreases |nodes| - i
  {
    match nodes[i]
    case Leaf(_, _, _) => {i}
    case Internal(_, l, r) => {i} + Reach(nodes, l) + Reach(nodes, r)
  }

  /** Ranges of the leaves of the subtree at `i`, left to right. */
  ghost function Leaves(nodes: seq<Node>, i: nat): seq<(nat, nat)>
    requires Ordered(nodes) && i < |nodes|
    decreases |nodes| - i
  {
    match nodes[i]
    case Leaf(_, s, e) => [(s, e)]
    case Internal(_, l, r) => Leaves(nodes, l) + Leaves(nodes, r)
  }

  /** `ls` is a run of non-empty ranges, each starting where the previous one
      ends, from `lo` to `hi`. */
  ghost predicate Chain(ls: seq<(nat, nat)>, lo: int, hi: int) {
    |ls| > 0 && ls[0].0 == lo && ls[|ls| - 1].1 == hi
    && (forall k :: 0 <= k < |ls| ==> ls[k].0 < ls[k].1)
    && (forall k :: 0 < k < |ls| ==> ls[k - 1].1 == ls[k].0)
  }

  /** Circle index `p` lies in the range `r`. */
  predicate Holds(r: (nat, nat), p: int) {
    r.0 <= p < r.1
  }

  lemma ChainAppend(x: seq<(nat, nat)>, y: seq<(nat, nat)>, lo: int, mid: int, hi: int)
    requires Chain(x, lo, mid) && Chain(y, mid, hi)
    ensures Chain(x + y, lo, hi)
  {
    var xy := x + y;
    forall k | 0 < k < |xy| ensures xy[k - 1].1 == xy[k].0 {
      if k < |x| {
      } else if k == |x| {
      } else {
        assert xy[k - 1] == y[k - 1 - |x|] && xy[k] == y[k - |x|];
      }
    }
  }

  /** The leaves of a sound subtree cut its circle range into consecutive,
      non-empty pieces. */
  lemma {:induction false} LeavesChain(nodes: seq<Node>, cs: seq<Circle>, i: nat)
    requires Ordered(nodes) && i < |nodes| && Sound(nodes, cs, i)
    ensures Chain(Leaves(nodes, i), Lo(nodes, i), Hi(nodes, i))
    decreases |nodes| - i
  {
    match nodes[i]
    case Leaf(_, _, _) =>
    case Internal(_, l, r) =>
      LeavesChain(nodes, cs, l);
      LeavesChain(nodes, cs, r);
      ChainAppend(Leaves(nodes, l), Leaves(nodes, r), Lo(nodes, l), Hi(nodes, l), Hi(nodes, r));
  }

  /** Ranges of a chain come in increasing order. */
  lemma {:induction false} ChainOrdered(ls: seq<(nat, nat)>, lo: int, hi: int, k1: int, k2: int)
    requires Chain(ls, lo, hi) && 0 <= k1 < k2 < |ls|
    ensures ls[k1].1 <= ls[k2].0
    decreases k2 - k1
  {
    if k1 + 1 < k2 {
      ChainOrdered(ls, lo, hi, k1 + 1, k2);
    }
  }

  /** Every range of a chain lies within the chain's bounds. */
  lemma ChainWithin(ls: seq<(nat, nat)>, lo: int, hi: int, k: int)
    requires Chain(ls, lo, hi) && 0 <= k < |ls|
    ensures lo <= ls[k].0 < ls[k].1 <= hi
  {
    if 0 < k { ChainOrdered(ls, lo, hi, 0, k); }
    if k < |ls| - 1 { ChainOrdered(ls, lo, hi, k, |ls| - 1); }
  }

  /** Each position of `[lo, hi)` lies in exactly one range of a chain over it,
      and no range of the chain reaches outside `[lo, hi)`. */
  lemma {:induction false} ChainCoversOnce(ls: seq<(nat, nat)>, lo: int, hi: int, p: int)
    requires Chain(ls, lo, hi)
    ensures (lo <= p < hi) <==> exists k :: 0 <= k < |ls| && Holds(ls[k], p)
    ensures forall k1, k2 :: 0 <= k1 < |ls| && 0 <= k2 < |ls| && Holds(ls[k1], p) && Holds(ls[k2], p) ==> k1 == k2
    decreases |ls|
  {
    forall k1, k2 | 0 <= k1 < |ls| && 0 <= k2 < |ls| && Holds(ls[k1], p) && Holds(ls[k2], p)
      ensures k1 == k2
    {
      if k1 < k2 { ChainOrdered(ls, lo, hi, k1, k2); }
      if k2 < k1 { ChainOrdered(ls, lo, hi, k2, k1); }
    }
    if k :| 0 <= k < |ls| && Holds(ls[k], p) {
      ChainWithin(ls, lo, hi, k);
    }
    if lo <= p < hi {
      if p >= ls[0].1 {
        assert |ls| > 1;
        var rest := ls[1..];
        assert Chain(rest, ls[0].1, hi) by {
          forall k | 0 < k < |rest| ensures rest[k - 1].1 == rest[k].0 {
            assert rest[k - 1] == ls[k] && rest[k] == ls[k + 1];
          }
        }
        ChainCoversOnce(rest, ls[0].1, hi, p);
        var k :| 0 <= k < |rest| && Holds(rest[k], p);
        assert ls[k + 1] == rest[k];
      } else {
        assert Holds(ls[0], p);
      }
    }
  }

  /** A leaf's or internal node's bounds are the box of all circles in its
      range: bounds are propagated bottom-up correctly. */
  lemma {:induction false} SoundBounds(nodes: seq<Node>, cs: seq<Circle>, i: nat)
    requires Ordered(nodes) && i < |nodes| && Sound(nodes, cs, i)
    ensures nodes[i].bounds == SeqBox(cs[Lo(nodes, i)..Hi(nodes, i)])
    decreases |nodes| - i
  {
    if nodes[i].Internal? {
      var l, r := nodes[i].left, nodes[i].right;
      SoundBounds(nodes, cs, l);
      SoundBounds(nodes, cs, r);
      var lo, mid, hi := Lo(nodes, l), Hi(nodes, l), Hi(nodes, r);
      assert Lo(nodes, i) == lo && Hi(nodes, i) == hi;
      SeqBoxSplit(cs, lo, mid, hi);
    }
  }

  /** Every node of a sound subtree is sound and covers part of the subtree's
      range. */
  lemma {:induction false} ReachSpan(nodes: seq<Node>, cs: seq<Circle>, i: nat, j: nat)
    requires Ordered(nodes) && i < |nodes| && Sound(nodes, cs, i) && j in Reach(nodes, i)
    ensures Sound(nodes, cs, j)
    ensures Lo(nodes, i) <= Lo(nodes, j) && Hi(nodes, j) <= Hi(nodes, i)
    decreases |nodes| - i
  {
    if j != i {
      match nodes[i]
      case Internal(_, l, r) =>
        if j in Reach(nodes, l) {
          ReachSpan(nodes, cs, l, j);
        } else {
          ReachSpan(nodes, cs, r, j);
        }
    }
  }

  /** The two subtrees of a sound internal node share no arena entry. */
  lemma ChildrenDisjoint(nodes: seq<Node>, cs: seq<Circle>, i: nat)
    requires Ordered(nodes) && i < |nodes| && Sound(nodes, cs, i) && nodes[i].Internal?
    ensures Reach(nodes, nodes[i].left) !! Reach(nodes, nodes[i].right)
    ensures i !in Reach(nodes, nodes[i].left) && i !in Reach(nodes, nodes[i].right)
  {
    var l, r := nodes[i].left, nodes[i].right;
    forall j | j in Reach(nodes, l) ensures j !in Reach(nodes, r) {
      ReachSpan(nodes, cs, l, j);
      if j in Reach(nodes, r) {
        ReachSpan(nodes, cs, r, j);
        assert false;
      }
    }
  }

  /** A subtree has the same range and entries in any arena that agrees on
      its entries. */
  lemma {:induction false} FrameShape(nodes: seq<Node>, nodes': seq<Node>, i: nat)
    requires Ordered(nodes) && Ordered(nodes') && i < |nodes|
    requires forall j :: j in Reach(nodes, i) ==> j < |nodes'| && nodes'[j] == nodes[j]
    ensures i < |nodes'|
    ensures Lo(nodes', i) == Lo(nodes, i) && Hi(nodes', i) == Hi(nodes, i)
    ensures Reach(nodes', i) == Reach(nodes, i)
    decreases |nodes| - i
  {
    assert i in Reach(nodes, i);
    match nodes[i]
    case Leaf(_, _, _) =>
    case Internal(_, l, r) =>
      FrameShape(nodes, nodes', l);
      FrameShape(nodes, nodes', r);
  }

  /** A sound subtree stays sound, with the same range, entries and
      settledness, in any arena that agrees on its entries and any circle
      sequence that agrees on its range. */
  lemma {:induction false} Frame(nodes: seq<Node>, cs: seq<Circle>, nodes': seq<Node>, cs': seq<Circle>,
                                 i: nat, threshold: nat)
    requires Ordered(nodes) && Ordered(nodes') && i < |nodes| && Sound(nodes, cs, i)
    requires forall j :: j in Reach(nodes, i) ==> j < |nodes'| && nodes'[j] == nodes[j]
    requires |cs'| == |cs|
    requires forall k :: Lo(nodes, i) <= k < Hi(nodes, i) ==> cs'[k] == cs[k]
    ensures i < |nodes'| && Sound(nodes', cs', i)
    ensures Lo(nodes', i) == Lo(nodes, i) && Hi(nodes', i) == Hi(nodes, i)
    ensures Reach(nodes', i) == Reach(nodes, i)
    ensures Settled(nodes, cs, i, threshold) ==> Settled(nodes', cs', i, threshold)
    decreases |nodes| - i
  {
    FrameShape(nodes, nodes', i);
    match nodes[i]
    case Leaf(_, s, e) =>
      assert cs'[s..e] == cs[s..e];
    case Internal(_, l, r) =>
      Frame(nodes, cs, nodes', cs', l, threshold);
      Frame(nodes, cs, nodes', cs', r, threshold);
  }

  /** A subtree whose internal nodes are ones `subdivide` split keeps that
      property in any arena that agrees on its entries and any circle
      sequence that agrees on its range. */
  lemma {:induction false} FrameDivided(nodes: seq<Node>, cs: seq<Circle>, nodes': seq<Node>, cs': seq<Circle>,
                                        i: nat, threshold: nat)
    requires Ordered(nodes) && Ordered(nodes') && i < |nodes| && Sound(nodes, cs, i)
    requires Divided(nodes, cs, i, threshold)
    requires forall j :: j in Reach(nodes, i) ==> j < |nodes'| && nodes'[j] == nodes[j]
    requires |cs'| == |cs|
    requires forall k :: Lo(nodes, i) <= k < Hi(nodes, i) ==> cs'[k] == cs[k]
    ensures i < |nodes'| && Divided(nodes', cs', i, threshold)
    decreases |nodes| - i
  {
    FrameShape(nodes, nodes', i);
    match nodes[i]
    case Leaf(_, _, _) =>
    case Internal(_, l, r) =>
      FrameShape(nodes, nodes', l);
      FrameShape(nodes, nodes', r);
      FrameDivided(nodes, cs, nodes', cs', l, threshold);
      FrameDivided(nodes, cs, nodes', cs', r, threshold);
      assert cs'[Lo(nodes, l)..Hi(nodes, r)] == cs[Lo(nodes, l)..Hi(nodes, r)];
  }

  /** Overwriting an entry before subtree `i` leaves that subtree as it was. */
  lemma FrameSet(nodes: seq<Node>, cs: seq<Circle>, k: nat, n: Node, i: nat, threshold: nat)
    requires Ordered(nodes) && k < i < |nodes| && Sound(nodes, cs, i) && Ordered(nodes[k := n])
    ensures Sound(nodes[k := n], cs, i)
    ensures Lo(nodes[k := n], i) == Lo(nodes, i) && Hi(nodes[k := n], i) == Hi(nodes, i)
    ensures Reach(nodes[k := n], i) == Reach(nodes, i)
    ensures Settled(nodes[k := n], cs, i, threshold) <==> Settled(nodes, cs, i, threshold)
    ensures Divided(nodes[k := n], cs, i, threshold) <==> Divided(nodes, cs, i, threshold)
    ensures nodes[k := n][i].bounds == nodes[i].bounds
  {
    Frame(nodes, cs, nodes[k := n], cs, i, threshold);
    Frame(nodes[k := n], cs, nodes, cs, i, threshold);
    if Divided(nodes, cs, i, threshold) {
      FrameDivided(nodes, cs, nodes[k := n], cs, i, threshold);
    }
    if Divided(nodes[k := n], cs, i, threshold) {
      FrameDivided(nodes[k := n], cs, nodes, cs, i, threshold);
    }
  }

  /** An internal entry over two adjacent sound subtrees, with the union of
      their bounds, is a sound subtree over their joint range. */
  lemma Join(nodes: seq<Node>, cs: seq<Circle>, i: nat, l: nat, r: nat, threshold: nat)
    requires Ordered(nodes) && i < l < |nodes| && i < r < |nodes|
    requires nodes[i] == Internal(nodes[l].bounds.Union(nodes[r].bounds), l, r)
    requires Sound(nodes, cs, l) && Sound(nodes, cs, r) && Hi(nodes, l) == Lo(nodes, r)
    ensures Sound(nodes, cs, i)
    ensures Lo(nodes, i) == Lo(nodes, l) && Hi(nodes, i) == Hi(nodes, r)
    ensures Reach(nodes, i) == {i} + Reach(nodes, l) + Reach(nodes, r)
    ensures Settled(nodes, cs, i, threshold) <==> Settled(nodes, cs, l, threshold) && Settled(nodes, cs, r, threshold)
  {
  }

  /** The internal entry of `Join` is one `subdivide` split exactly when its
      children are and its range is split, and partitioned, at the left
      child's end. */
  lemma JoinDivided(nodes: seq<Node>, cs: seq<Circle>, i: nat, l: nat, r: nat, threshold: nat)
    requires Ordered(nodes) && i < l < |nodes| && i < r < |nodes| && nodes[i].Internal?
    requires nodes[i].left == l && nodes[i].right == r
    requires Lo(nodes, l) <= Hi(nodes, l) == Lo(nodes, r) <= Hi(nodes, r) <= |cs|
    ensures Divided(nodes, cs, i, threshold) <==>
      Divided(nodes, cs, l, threshold) && Divided(nodes, cs, r, threshold)
      && Cut(cs, Lo(nodes, l), Hi(nodes, l), Hi(nodes, r), threshold)
  {
  }

  /** Node `n` with its bounds replaced by `b`. */
  function WithBounds(n: Node, b: AABB): (r: Node)
    ensures r.bounds == b
    ensures r.(bounds := n.bounds) == n
  {
    match n
    case Internal(_, l, r) => Internal(b, l, r)
    case Leaf(_, s, e) => Leaf(b, s, e)
  }

  /** The bounds `compute_bounds` writes into node `i`: the union of its
      children's bounds for an internal node, the fold over its circles for a
      leaf. */
  function FreshBounds(nodes: seq<Node>, cs: seq<Circle>, i: nat): AABB
    requires i < |nodes|
    requires nodes[i].Internal? ==> nodes[i].left < |nodes| && nodes[i].right < |nodes|
    requires nodes[i].Leaf? ==> nodes[i].start < nodes[i].end <= |cs|
  {
    match nodes[i]
    case Internal(_, l, r) => nodes[l].bounds.Union(nodes[r].bounds)
    case Leaf(_, s, e) => SeqBox(cs[s..e])
  }

  /** Overwriting an entry with a leaf, or with an internal node whose children
      come after it, keeps children after their parents. */
  lemma OrderedSet(nodes: seq<Node>, i: nat, n: Node)
    requires Ordered(nodes) && i < |nodes|
    requires n.Internal? ==> i < n.left < |nodes| && i < n.right < |nodes|
    ensures Ordered(nodes[i := n])
  {
  }

  /** The arena holds a finished BVH over `cs`: the root is entry 0, every
      entry belongs to the root's tree, the tree is sound over all of `cs`,
      every leaf is one the builder stops at, and every internal node is one
      it splits, at the cursor the partition gives. */
  ghost predicate Built(nodes: seq<Node>, cs: seq<Circle>, threshold: nat) {
    |nodes| > 0 && Ordered(nodes)
    && Sound(nodes, cs, 0) && Lo(nodes, 0) == 0 && Hi(nodes, 0) == |cs|
    && (forall j :: 0 <= j < |nodes| ==> j in Reach(nodes, 0))
    && Settled(nodes, cs, 0, threshold) && Divided(nodes, cs, 0, threshold)
  }

  /** In a finished BVH the leaves partition `[0, |cs|)` into consecutive
      non-empty ranges, so every circle index lies in exactly one leaf. */
  lemma BuiltPartition(nodes: seq<Node>, cs: seq<Circle>, threshold: nat, p: int)
    requires Built(nodes, cs, threshold)
    ensures Chain(Leaves(nodes, 0), 0, |cs|)
    ensures (0 <= p < |cs|) <==> exists k :: 0 <= k < |Leaves(nodes, 0)| && Holds(Leaves(nodes, 0)[k], p)
    ensures forall k1, k2 ::
              0 <= k1 < |Leaves(nodes, 0)| && 0 <= k2 < |Leaves(nodes, 0)|
              && Holds(Leaves(nodes, 0)[k1], p) && Holds(Leaves(nodes, 0)[k2], p)
              ==> k1 == k2
  {
    var ls := Leaves(nodes, 0);
    LeavesChain(nodes, cs, 0);
    assert Chain(ls, 0, |cs|);
    ChainCoversOnce(ls, 0, |cs|, p);
    if 0 <= p < |cs| {
      var k :| 0 <= k < |ls| && Holds(ls[k], p);
      assert Holds(Leaves(nodes, 0)[k], p);
      assert 0 <= k < |Leaves(nodes, 0)|;
      assert exists k :: 0 <= k < |Leaves(nodes, 0)| && Holds(Leaves(nodes, 0)[k], p);
    }
  }

  /** The root of a finished BVH is bounded by the box of all circles. */
  lemma BuiltRootBounds(nodes: seq<Node>, cs: seq<Circle>, threshold: nat)
    requires Built(nodes, cs, threshold)
    ensures |cs| > 0 && nodes[0].bounds == SeqBox(cs)
  {
    SoundBounds(nodes, cs, 0);
    assert cs[0..|cs|] == cs;
  }

  /** Over circles of non-negative radius, every node of a finished tree has
      a valid box. */
  lemma BuiltBoundsValid(nodes: seq<Node>, cs: seq<Circle>, threshold: nat, j: nat)
    requires Built(nodes, cs, threshold) && j < |nodes|
    requires forall k :: 0 <= k < |cs| ==> cs[k].radius >= 0.0
    ensures nodes[j].bounds.Valid()
  {
    ReachSpan(nodes, cs, 0, j);
    SoundBounds(nodes, cs, j);
    SeqBoxValid(cs[Lo(nodes, j)..Hi(nodes, j)]);
  }

  /** The circles of each leaf of the subtree at `i`, left to right. */
  ghost function LeafContents(nodes: seq<Node>, cs: seq<Circle>, i: nat): (r: seq<multiset<Circle>>)
    requires Ordered(nodes) && i < |nodes| && Sound(nodes, cs, i)
    ensures |r| == |Leaves(nodes, i)|
    decreases |nodes| - i
  {
    match nodes[i]
    case Leaf(_, s, e) => [multiset(cs[s..e])]
    case Internal(_, l, r) => LeafContents(nodes, cs, l) + LeafContents(nodes, cs, r)
  }

  /** Two internal nodes over the same range of two circle sequences
      holding the same circles there, both split and partitioned where
      their left children end, have left children over the same range
      holding the same circles, and likewise right children. */
  lemma ChildrenAlike(nodes: seq<Node>, cs: seq<Circle>, i: nat, nodes': seq<Node>, cs': seq<Circle>, i': nat, t: nat)
    requires Ordered(nodes) && i < |nodes| && nodes[i].Internal? && Sound(nodes, cs, i) && Divided(nodes, cs, i, t)
    requires Ordered(nodes') && i' < |nodes'| && nodes'[i'].Internal? && Sound(nodes', cs', i') && Divided(nodes', cs', i', t)
    requires Lo(nodes, i) == Lo(nodes', i') && Hi(nodes, i) == Hi(nodes', i')
    requires multiset(cs[Lo(nodes, i)..Hi(nodes, i)]) == multiset(cs'[Lo(nodes, i)..Hi(nodes, i)])
    ensures var l, l' := nodes[i].left, nodes'[i'].left;
      Lo(nodes, l) == Lo(nodes', l') && Hi(nodes, l) == Hi(nodes', l')
      && multiset(cs[Lo(nodes, l)..Hi(nodes, l)]) == multiset(cs'[Lo(nodes, l)..Hi(nodes, l)])
    ensures var r, r' := nodes[i].right, nodes'[i'].right;
      Lo(nodes, r) == Lo(nodes', r') && Hi(nodes, r) == Hi(nodes', r')
      && multiset(cs[Lo(nodes, r)..Hi(nodes, r)]) == multiset(cs'[Lo(nodes, r)..Hi(nodes, r)])
  {
    var l, l' := nodes[i].left, nodes'[i'].left;
    SameCutSlices(cs, cs', Lo(nodes, i), Hi(nodes, l), Hi(nodes', l'), Hi(nodes, i), t);
  }

  /** Two subtrees over the same range of two circle sequences, holding the
      same circles in that range, whose leaves are all ones the builder stops
      at and whose internal nodes are all ones it splits, have the same
      leaves, and each leaf holds the same circles in both: where the builder
      stops, where it cuts and which circles go to which side is determined
      by the circles alone, whatever their order. */
  lemma {:induction false} SameLeaves(nodes: seq<Node>, cs: seq<Circle>, i: nat,
                                      nodes': seq<Node>, cs': seq<Circle>, i': nat, t: nat)
    requires Ordered(nodes) && i < |nodes| && Sound(nodes, cs, i)
    requires Settled(nodes, cs, i, t) && Divided(nodes, cs, i, t)
    requires Ordered(nodes') && i' < |nodes'| && Sound(nodes', cs', i')
    requires Settled(nodes', cs', i', t) && Divided(nodes', cs', i', t)
    requires Lo(nodes, i) == Lo(nodes', i') && Hi(nodes, i) == Hi(nodes', i')
    requires multiset(cs[Lo(nodes, i)..Hi(nodes, i)]) == multiset(cs'[Lo(nodes, i)..Hi(nodes, i)])
    ensures Leaves(nodes, i) == Leaves(nodes', i')
    ensures LeafContents(nodes, cs, i) == LeafContents(nodes', cs', i')
    decreases |nodes| - i
  {
    var lo, hi := Lo(nodes, i), Hi(nodes, i);
    match (nodes[i], nodes'[i'])
    case (Leaf(_, _, _), Leaf(_, _, _)) =>
    case (Leaf(_, _, _), Internal(_, l', _)) =>
      SplitAtPermutation(cs[lo..hi], cs'[lo..hi], Hi(nodes', l') - lo, t);
      assert false;
    case (Internal(_, l, _), Leaf(_, _, _)) =>
      SplitAtPermutation(cs[lo..hi], cs'[lo..hi], Hi(nodes, l) - lo, t);
      assert false;
    case (Internal(_, l, r), Internal(_, l', r')) =>
      ChildrenAlike(nodes, cs, i, nodes', cs', i', t);
      SameLeaves(nodes, cs, l, nodes', cs', l', t);
      SameLeaves(nodes, cs, r, nodes', cs', r', t);
  }

  /** `BVH::new` over any two orderings of the same circles builds trees with
      the same leaves, each leaf holding the same circles: two finished trees
      over sequences with the same circles cut them alike. */
  lemma BuiltLeavesUnique(nodes: seq<Node>, cs: seq<Circle>, nodes': seq<Node>, cs': seq<Circle>, t: nat)
    requires Built(nodes, cs, t) && Built(nodes', cs', t) && multiset(cs) == multiset(cs')
    ensures Leaves(nodes, 0) == Leaves(nodes', 0)
    ensures LeafContents(nodes, cs, 0) == LeafContents(nodes', cs', 0)
  {
    assert |cs| == |cs'| by {
      assert |multiset(cs)| == |cs| && |multiset(cs')| == |cs'|;
    }
    assert cs[0..|cs|] == cs && cs'[0..|cs'|] == cs';
    SameLeaves(nodes, cs, 0, nodes', cs', 0, t);
  }
}
