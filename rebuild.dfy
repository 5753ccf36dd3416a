/** What one call of `subdivide` does to the arena and the circles, stated on
    snapshots of both, and the steps that prove the builder achieves it. */
module Rebuild {
  import opened Geometry
  import opened Ranges
  import opened Arena

  /** Going from arena `n0` and circles `c0` to `n1` and `c1` left alone
      everything outside the subtree at `idx`: the arena only grew, entries
      outside the subtree are unchanged, and only the subtree's circle range
      was permuted. */
  ghost predicate Untouched(n0: seq<Node>, c0: seq<Circle>, n1: seq<Node>, c1: seq<Circle>, idx: nat) {
    Ordered(n0) && idx < |n0| && Ordered(n1) && |n0| <= |n1|
    && (forall j :: 0 <= j < |n0| && j !in Reach(n0, idx) ==> n1[j] == n0[j])
    && Permuted(c0, c1, Lo(n0, idx), Hi(n0, idx))
  }

  /** `subdivide(idx, t)` took arena `n0` and circles `c0` to `n1` and `c1`:
      nothing outside the subtree at `idx` changed (`Untouched`); the subtree
      is sound over the same circle range with the same bounds and every leaf
      of it is one `subdivide` stops at; its entries are its old ones plus
      every appended one; a leaf the builder stops at left the arena as it was,
      one of at most `t` circles left the circles as they were too, and any
      other leaf became an internal node; an internal node's own entry is
      kept. */
  ghost predicate Rebuilt(n0: seq<Node>, c0: seq<Circle>, n1: seq<Node>, c1: seq<Circle>, idx: nat, t: nat) {
    Untouched(n0, c0, n1, c1, idx)
    && Sound(n1, c1, idx) && Settled(n1, c1, idx, t)
    && Lo(n1, idx) == Lo(n0, idx) && Hi(n1, idx) == Hi(n0, idx)
    && n1[idx].bounds == n0[idx].bounds
    && (forall j :: j in Reach(n1, idx) <==> j in Reach(n0, idx) || |n0| <= j < |n1|)
    && (n0[idx].Leaf? && Settled(n0, c0, idx, t) ==> n1 == n0)
    && (n0[idx].Leaf? && n0[idx].end - n0[idx].start <= t ==> c1 == c0)
    && (n0[idx].Leaf? && !Settled(n0, c0, idx, t) ==> n1[idx].Internal?)
    && (n0[idx].Internal? ==> n1[idx] == n0[idx])
  }

  /** A leaf of at most `t` circles is left as it is. */
  lemma SmallRebuilt(n: seq<Node>, c: seq<Circle>, idx: nat, t: nat)
    requires Ordered(n) && idx < |n| && n[idx].Leaf? && Sound(n, c, idx)
    requires n[idx].end - n[idx].start <= t
    ensures Rebuilt(n, c, n, c, idx, t)
  {
  }

  /** The leaf's split choice, the partition's count, and the guard. After the
      partition the leaf's bounds are still the box of its (permuted) circles,
      the cursor is before the range's end, and the guard fires exactly when
      the leaf is unsplittable. */
  lemma PartitionFacts(n: seq<Node>, c0: seq<Circle>, c1: seq<Circle>, idx: nat, i: int)
    requires Ordered(n) && idx < |n| && n[idx].Leaf? && Sound(n, c0, idx)
    requires Permuted(c0, c1, n[idx].start, n[idx].end)
    requires var b := n[idx].bounds; var a := SplitAxis(b);
      i - n[idx].start == CountBelow(c0[n[idx].start..n[idx].end], a, SplitPlane(b, a))
    ensures i < n[idx].end && Sound(n, c1, idx)
    ensures (i == n[idx].end - 1 || i == n[idx].start) <==> Unsplittable(c0[n[idx].start..n[idx].end])
    ensures Unsplittable(c0[n[idx].start..n[idx].end]) <==> Unsplittable(c1[n[idx].start..n[idx].end])
  {
    var s, e := n[idx].start, n[idx].end;
    SeqBoxPermutation(c0[s..e], c1[s..e]);
    SomeNotBelow(c0[s..e], SplitAxis(n[idx].bounds));
    UnsplittablePermutation(c0[s..e], c1[s..e]);
  }

  /** A leaf the guard keeps stays in the arena as it was; its circles may
      have been permuted. */
  lemma GuardRebuilt(n: seq<Node>, c0: seq<Circle>, c1: seq<Circle>, idx: nat, t: nat)
    requires Ordered(n) && idx < |n| && n[idx].Leaf? && Sound(n, c0, idx)
    requires Permuted(c0, c1, n[idx].start, n[idx].end)
    requires Unsplittable(c0[n[idx].start..n[idx].end])
    requires Unsplittable(c1[n[idx].start..n[idx].end])
    requires Sound(n, c1, idx) && n[idx].end - n[idx].start > t
    ensures Rebuilt(n, c0, n, c1, idx, t)
  {
  }

  /** The arena after both child leaves are pushed and bounded. */
  ghost predicate ChildrenPushed(n0: seq<Node>, c1: seq<Circle>, m0: seq<Node>, idx: nat, i: nat) {
    Ordered(n0) && idx < |n0| && n0[idx].Leaf?
    && n0[idx].start < i < n0[idx].end <= |c1|
    && |m0| == |n0| + 2 && m0[..|n0|] == n0
    && m0[|n0|] == Leaf(SeqBox(c1[n0[idx].start..i]), n0[idx].start, i)
    && m0[|n0| + 1] == Leaf(SeqBox(c1[i..n0[idx].end]), i, n0[idx].end)
  }

  /** Both new leaves are sound subtrees of the grown arena. */
  lemma ChildrenReady(n0: seq<Node>, c1: seq<Circle>, m0: seq<Node>, idx: nat, i: nat)
    requires ChildrenPushed(n0, c1, m0, idx, i)
    ensures Ordered(m0)
    ensures Sound(m0, c1, |n0|) && Sound(m0, c1, |n0| + 1)
    ensures Hi(m0, |n0|) - Lo(m0, |n0|) < n0[idx].end - n0[idx].start
    ensures Hi(m0, |n0| + 1) - Lo(m0, |n0| + 1) < n0[idx].end - n0[idx].start
  {
    forall j | 0 <= j < |m0| && m0[j].Internal?
      ensures j < m0[j].left < |m0| && j < m0[j].right < |m0|
    {
      assert m0[j] == n0[j];
    }
  }

  /** Subdividing the left child leaves the right child as it was. */
  lemma RightStillReady(n0: seq<Node>, c1: seq<Circle>, m0: seq<Node>, m1: seq<Node>, c2: seq<Circle>,
                        idx: nat, i: nat, t: nat)
    requires ChildrenPushed(n0, c1, m0, idx, i)
    requires Rebuilt(m0, c1, m1, c2, |n0|, t)
    ensures Ordered(m0) && Sound(m0, c1, |n0| + 1)
    ensures |n0| + 1 < |m1| && m1[|n0| + 1] == m0[|n0| + 1] && Sound(m1, c2, |n0| + 1)
    ensures Hi(m1, |n0| + 1) - Lo(m1, |n0| + 1) < n0[idx].end - n0[idx].start
  {
    ChildrenReady(n0, c1, m0, idx, i);
    Frame(m0, c1, m1, c2, |n0| + 1, t);
  }

  /** The arena and circles once both child leaves have been subdivided. */
  ghost predicate ChildrenDone(n0: seq<Node>, c1: seq<Circle>, m2: seq<Node>, c3: seq<Circle>,
                               idx: nat, i: nat, t: nat) {
    Ordered(n0) && idx < |n0| && n0[idx].Leaf? && n0[idx].start < i < n0[idx].end <= |c1|
    && Ordered(m2) && |n0| + 2 <= |m2|
    && Sound(m2, c3, |n0|) && Sound(m2, c3, |n0| + 1)
    && Settled(m2, c3, |n0|, t) && Settled(m2, c3, |n0| + 1, t)
    && Lo(m2, |n0|) == n0[idx].start && Hi(m2, |n0|) == i
    && Lo(m2, |n0| + 1) == i && Hi(m2, |n0| + 1) == n0[idx].end
    && m2[|n0|].bounds == SeqBox(c1[n0[idx].start..i])
    && m2[|n0| + 1].bounds == SeqBox(c1[i..n0[idx].end])
    && (forall j :: j in Reach(m2, |n0|) || j in Reach(m2, |n0| + 1) <==> |n0| <= j < |m2|)
    && (forall j :: 0 <= j < |n0| ==> m2[j] == n0[j])
    && Permuted(c1, c3, n0[idx].start, n0[idx].end)
  }

  /** The arena and circles once the left child leaf has been subdivided. */
  ghost predicate LeftDone(n0: seq<Node>, c1: seq<Circle>, m1: seq<Node>, c2: seq<Circle>,
                           idx: nat, i: nat, t: nat) {
    Ordered(n0) && idx < |n0| && n0[idx].Leaf? && n0[idx].start < i < n0[idx].end <= |c1|
    && Ordered(m1) && |n0| + 2 <= |m1|
    && Sound(m1, c2, |n0|) && Settled(m1, c2, |n0|, t)
    && Lo(m1, |n0|) == n0[idx].start && Hi(m1, |n0|) == i
    && m1[|n0|].bounds == SeqBox(c1[n0[idx].start..i])
    && m1[|n0| + 1] == Leaf(SeqBox(c1[i..n0[idx].end]), i, n0[idx].end) && Sound(m1, c2, |n0| + 1)
    && (forall j :: j in Reach(m1, |n0|) <==> j == |n0| || |n0| + 2 <= j < |m1|)
    && (forall j :: 0 <= j < |n0| ==> m1[j] == n0[j])
    && Permuted(c1, c2, n0[idx].start, i)
  }

  /** Subdividing the left child yields `LeftDone`. */
  lemma LeftChild(n0: seq<Node>, c1: seq<Circle>, m0: seq<Node>, m1: seq<Node>, c2: seq<Circle>,
                  idx: nat, i: nat, t: nat)
    requires ChildrenPushed(n0, c1, m0, idx, i)
    requires Rebuilt(m0, c1, m1, c2, |n0|, t)
    ensures LeftDone(n0, c1, m1, c2, idx, i, t)
  {
    RightStillReady(n0, c1, m0, m1, c2, idx, i, t);
    assert Reach(m0, |n0|) == {|n0|};
    forall j | 0 <= j < |n0| ensures m1[j] == n0[j] {
      assert m0[j] == m0[..|n0|][j];
    }
  }

  /** Subdividing the right child after the left one leaves the left
      subtree as it was. */
  lemma RightChildKeepsLeft(n0: seq<Node>, c1: seq<Circle>, m1: seq<Node>, c2: seq<Circle>,
                            m2: seq<Node>, c3: seq<Circle>, idx: nat, i: nat, t: nat)
    requires LeftDone(n0, c1, m1, c2, idx, i, t)
    requires Rebuilt(m1, c2, m2, c3, |n0| + 1, t)
    ensures m2[|n0|] == m1[|n0|] && Sound(m2, c3, |n0|) && Settled(m2, c3, |n0|, t)
    ensures Lo(m2, |n0|) == n0[idx].start && Hi(m2, |n0|) == i && Reach(m2, |n0|) == Reach(m1, |n0|)
    ensures Permuted(c2, c3, i, n0[idx].end)
    ensures forall j :: 0 <= j < |n0| ==> m2[j] == n0[j]
  {
    RightLeaf(n0, c1, m1, c2, idx, i, t);
    KeepsOther(m1, c2, m2, c3, |n0| + 1, |n0|, t);
  }

  /** Once the left child is subdivided, the right child is still the leaf
      over `[i, end)`, and its one entry is not in the left subtree. */
  lemma RightLeaf(n0: seq<Node>, c1: seq<Circle>, m1: seq<Node>, c2: seq<Circle>, idx: nat, i: nat, t: nat)
    requires LeftDone(n0, c1, m1, c2, idx, i, t)
    ensures Reach(m1, |n0| + 1) == {|n0| + 1} && Reach(m1, |n0| + 1) !! Reach(m1, |n0|)
    ensures Lo(m1, |n0| + 1) == i && Hi(m1, |n0| + 1) == n0[idx].end
  {
    assert |n0| + 1 !in Reach(m1, |n0|);
  }

  /** Subdividing the right child after the left one yields `ChildrenDone`. */
  lemma RightChild(n0: seq<Node>, c1: seq<Circle>, m1: seq<Node>, c2: seq<Circle>,
                   m2: seq<Node>, c3: seq<Circle>, idx: nat, i: nat, t: nat)
    requires LeftDone(n0, c1, m1, c2, idx, i, t)
    requires Rebuilt(m1, c2, m2, c3, |n0| + 1, t)
    ensures ChildrenDone(n0, c1, m2, c3, idx, i, t)
  {
    var s, e := n0[idx].start, n0[idx].end;
    RightChildKeepsLeft(n0, c1, m1, c2, m2, c3, idx, i, t);
    RightSubtree(n0, c1, m1, c2, m2, c3, idx, i, t);
    PermutedWiden(c1, c2, s, i, s, e);
    PermutedWiden(c2, c3, i, e, s, e);
    PermutedTrans(c1, c2, c3, s, e);
  }

  /** Subdividing the right child leaf gives a sound, settled subtree over
      its range, with its bounds, made of its entry and every entry appended
      meanwhile. */
  lemma RightSubtree(n0: seq<Node>, c1: seq<Circle>, m1: seq<Node>, c2: seq<Circle>,
                     m2: seq<Node>, c3: seq<Circle>, idx: nat, i: nat, t: nat)
    requires LeftDone(n0, c1, m1, c2, idx, i, t)
    requires Rebuilt(m1, c2, m2, c3, |n0| + 1, t)
    ensures Sound(m2, c3, |n0| + 1) && Settled(m2, c3, |n0| + 1, t)
    ensures Lo(m2, |n0| + 1) == i && Hi(m2, |n0| + 1) == n0[idx].end
    ensures m2[|n0| + 1].bounds == SeqBox(c1[i..n0[idx].end])
    ensures var r := |n0| + 1; forall j :: j in Reach(m2, r) <==> j == r || |m1| <= j < |m2|
  {
    RightLeaf(n0, c1, m1, c2, idx, i, t);
  }

  /** Overwriting entry `idx` with an internal node over two adjacent sound
      subtrees after it gives a sound subtree over their joint range. */
  lemma JoinNode(m2: seq<Node>, c3: seq<Circle>, m3: seq<Node>, idx: nat, l: nat, r: nat, t: nat)
    requires Ordered(m2) && idx < l < |m2| && idx < r < |m2|
    requires Sound(m2, c3, l) && Sound(m2, c3, r) && Hi(m2, l) == Lo(m2, r)
    requires Settled(m2, c3, l, t) && Settled(m2, c3, r, t)
    requires m3 == m2[idx := Internal(m2[l].bounds.Union(m2[r].bounds), l, r)]
    ensures Ordered(m3) && Sound(m3, c3, idx) && Settled(m3, c3, idx, t)
    ensures Lo(m3, idx) == Lo(m2, l) && Hi(m3, idx) == Hi(m2, r)
    ensures Reach(m3, idx) == {idx} + Reach(m2, l) + Reach(m2, r)
  {
    OrderedSet(m2, idx, m3[idx]);
    FrameSet(m2, c3, idx, m3[idx], l, t);
    FrameSet(m2, c3, idx, m3[idx], r, t);
    Join(m3, c3, idx, l, r, t);
  }

  /** The internal node that overwrites the split leaf has the leaf's
      bounds. */
  lemma SplitBounds(n0: seq<Node>, c1: seq<Circle>, m2: seq<Node>, c3: seq<Circle>, idx: nat, i: nat, t: nat)
    requires ChildrenDone(n0, c1, m2, c3, idx, i, t)
    requires n0[idx].bounds == SeqBox(c1[n0[idx].start..n0[idx].end])
    ensures m2[|n0|].bounds.Union(m2[|n0| + 1].bounds) == n0[idx].bounds
  {
    SeqBoxSplit(c1, n0[idx].start, i, n0[idx].end);
  }

  /** Entry `idx`, a leaf of `n0`, was replaced in `m3` by an internal node
      heading a sound, settled subtree over the leaf's range and with the
      leaf's bounds, made of the leaf's entry and every appended one; no other
      entry changed, and only the leaf's
      circles were permuted. */
  ghost predicate Replaced(n0: seq<Node>, c1: seq<Circle>, m3: seq<Node>, c3: seq<Circle>, idx: nat, t: nat) {
    Ordered(n0) && idx < |n0| && n0[idx].Leaf?
    && Ordered(m3) && |n0| <= |m3| && m3[idx].Internal?
    && Sound(m3, c3, idx) && Settled(m3, c3, idx, t)
    && Lo(m3, idx) == n0[idx].start && Hi(m3, idx) == n0[idx].end
    && m3[idx].bounds == n0[idx].bounds
    && (forall j :: j in Reach(m3, idx) <==> j == idx || |n0| <= j < |m3|)
    && (forall j :: 0 <= j < |n0| && j != idx ==> m3[j] == n0[j])
    && Permuted(c1, c3, n0[idx].start, n0[idx].end)
  }

  /** Overwriting the split leaf with an internal node over its two
      subdivided children gives `Replaced`. */
  lemma SplitReplaced(n0: seq<Node>, c1: seq<Circle>, m2: seq<Node>, c3: seq<Circle>,
                      m3: seq<Node>, idx: nat, i: nat, t: nat)
    requires ChildrenDone(n0, c1, m2, c3, idx, i, t)
    requires n0[idx].bounds == SeqBox(c1[n0[idx].start..n0[idx].end])
    requires m3 == m2[idx := Internal(m2[|n0|].bounds.Union(m2[|n0| + 1].bounds), |n0|, |n0| + 1)]
    ensures Replaced(n0, c1, m3, c3, idx, t)
  {
    JoinNode(m2, c3, m3, idx, |n0|, |n0| + 1, t);
    SplitBounds(n0, c1, m2, c3, idx, i, t);
    SplitEntries(n0, c1, m2, c3, m3, idx, i, t);
  }

  /** A leaf the builder does not stop at, replaced as `Replaced` says after
      its circles were partitioned, has had its call of `subdivide`. */
  lemma SplitRebuilt(n0: seq<Node>, c0: seq<Circle>, c1: seq<Circle>, m3: seq<Node>, c3: seq<Circle>,
                     idx: nat, t: nat)
    requires Ordered(n0) && idx < |n0| && n0[idx].Leaf? && Sound(n0, c0, idx)
    requires !Settled(n0, c0, idx, t)
    requires Permuted(c0, c1, n0[idx].start, n0[idx].end)
    requires Replaced(n0, c1, m3, c3, idx, t)
    ensures Rebuilt(n0, c0, m3, c3, idx, t)
  {
    PermutedTrans(c0, c1, c3, n0[idx].start, n0[idx].end);
    assert Reach(n0, idx) == {idx};
  }

  /** The split leaf's subtree holds the leaf's entry and every appended
      one, and no other entry changed. */
  lemma SplitEntries(n0: seq<Node>, c1: seq<Circle>, m2: seq<Node>, c3: seq<Circle>,
                     m3: seq<Node>, idx: nat, i: nat, t: nat)
    requires ChildrenDone(n0, c1, m2, c3, idx, i, t)
    requires m3 == m2[idx := Internal(m2[|n0|].bounds.Union(m2[|n0| + 1].bounds), |n0|, |n0| + 1)]
    requires Ordered(m3) && Reach(m3, idx) == {idx} + Reach(m2, |n0|) + Reach(m2, |n0| + 1)
    ensures forall j :: j in Reach(m3, idx) <==> j == idx || |n0| <= j < |m3|
    ensures forall j :: 0 <= j < |n0| && j != idx ==> m3[j] == n0[j]
  {
  }

  /** Subdividing the subtree at `i` leaves alone any subtree `j` whose
      entries and circle range are disjoint from those of `i`. */
  lemma KeepsOther(n0: seq<Node>, c0: seq<Circle>, n1: seq<Node>, c1: seq<Circle>, i: nat, j: nat, t: nat)
    requires Untouched(n0, c0, n1, c1, i)
    requires j < |n0| && Sound(n0, c0, j) && Reach(n0, i) !! Reach(n0, j)
    requires Hi(n0, j) <= Lo(n0, i) || Hi(n0, i) <= Lo(n0, j)
    ensures j < |n1| && n1[j] == n0[j] && Sound(n1, c1, j)
    ensures Lo(n1, j) == Lo(n0, j) && Hi(n1, j) == Hi(n0, j) && Reach(n1, j) == Reach(n0, j)
    ensures Settled(n0, c0, j, t) ==> Settled(n1, c1, j, t)
  {
    forall k | Lo(n0, j) <= k < Hi(n0, j) ensures c1[k] == c0[k] {
    }
    Frame(n0, c0, n1, c1, j, t);
  }

  /** An internal entry whose children are sound and settled, adjacent, and
      bounded as before is a sound, settled subtree over the old range and
      with the old entries plus whatever its children gained. */
  lemma InternalCompose(n0: seq<Node>, c0: seq<Circle>, n2: seq<Node>, c2: seq<Circle>, idx: nat, t: nat)
    requires Ordered(n0) && idx < |n0| && n0[idx].Internal? && Sound(n0, c0, idx)
    requires Ordered(n2) && |n0| <= |n2| && n2[idx] == n0[idx]
    requires var l, r := n0[idx].left, n0[idx].right;
      Sound(n2, c2, l) && Sound(n2, c2, r) && Settled(n2, c2, l, t) && Settled(n2, c2, r, t)
      && Lo(n2, l) == Lo(n0, l) && Hi(n2, l) == Hi(n0, l)
      && Lo(n2, r) == Lo(n0, r) && Hi(n2, r) == Hi(n0, r)
      && n2[l].bounds == n0[l].bounds && n2[r].bounds == n0[r].bounds
    ensures Sound(n2, c2, idx) && Settled(n2, c2, idx, t)
    ensures Lo(n2, idx) == Lo(n0, idx) && Hi(n2, idx) == Hi(n0, idx)
    ensures Reach(n2, idx) == {idx} + Reach(n2, n0[idx].left) + Reach(n2, n0[idx].right)
  {
  }

  /** Subdividing an internal node's left subtree leaves its right subtree
      sound, and smaller than the node. */
  lemma InternalMid(n0: seq<Node>, c0: seq<Circle>, n1: seq<Node>, c1: seq<Circle>, idx: nat, t: nat)
    requires Ordered(n0) && idx < |n0| && n0[idx].Internal? && Sound(n0, c0, idx)
    requires Rebuilt(n0, c0, n1, c1, n0[idx].left, t)
    ensures n0[idx].right < |n1| && Sound(n1, c1, n0[idx].right)
    ensures Hi(n1, n0[idx].right) - Lo(n1, n0[idx].right) < Hi(n0, idx) - Lo(n0, idx)
  {
    ChildrenDisjoint(n0, c0, idx);
    KeepsOther(n0, c0, n1, c1, n0[idx].left, n0[idx].right, t);
  }

  /** After both subtrees of an internal node are subdivided, the node's call
      of `subdivide` has done what `Rebuilt` says. */
  lemma InternalRebuilt(n0: seq<Node>, c0: seq<Circle>, n1: seq<Node>, c1: seq<Circle>,
                        n2: seq<Node>, c2: seq<Circle>, idx: nat, t: nat)
    requires Ordered(n0) && idx < |n0| && n0[idx].Internal? && Sound(n0, c0, idx)
    requires Rebuilt(n0, c0, n1, c1, n0[idx].left, t)
    requires Rebuilt(n1, c1, n2, c2, n0[idx].right, t)
    ensures Rebuilt(n0, c0, n2, c2, idx, t)
  {
    InternalKeeps(n0, c0, n1, c1, n2, c2, idx, t);
    InternalFinish(n0, c0, n1, c1, n2, c2, idx, t);
  }

  /** What two subdivisions in a row, of an internal node's left and then
      right subtree, leave behind. */
  ghost predicate BothSubtrees(n0: seq<Node>, c0: seq<Circle>, n1: seq<Node>, c1: seq<Circle>,
                               n2: seq<Node>, c2: seq<Circle>, idx: nat, t: nat) {
    Ordered(n0) && idx < |n0| && n0[idx].Internal? && Sound(n0, c0, idx)
    && Ordered(n1) && Ordered(n2) && |n0| <= |n1| <= |n2| && n2[idx] == n0[idx]
    && var l, r := n0[idx].left, n0[idx].right;
    Sound(n2, c2, l) && Sound(n2, c2, r) && Settled(n2, c2, l, t) && Settled(n2, c2, r, t)
    && Lo(n2, l) == Lo(n0, l) && Hi(n2, l) == Hi(n0, l)
    && Lo(n2, r) == Lo(n0, r) && Hi(n2, r) == Hi(n0, r)
    && n2[l].bounds == n0[l].bounds && n2[r].bounds == n0[r].bounds
    && Reach(n2, l) == Reach(n1, l) && Reach(n1, r) == Reach(n0, r)
    && (forall j :: j in Reach(n1, l) <==> j in Reach(n0, l) || |n0| <= j < |n1|)
    && (forall j :: j in Reach(n2, r) <==> j in Reach(n1, r) || |n1| <= j < |n2|)
    && (forall j :: 0 <= j < |n0| && j !in Reach(n0, l) ==> n1[j] == n0[j])
    && (forall j :: 0 <= j < |n1| && j !in Reach(n1, r) ==> n2[j] == n1[j])
    && Permuted(c0, c1, Lo(n0, l), Hi(n0, l)) && Permuted(c1, c2, Lo(n0, r), Hi(n0, r))
  }

  /** Subdividing one subtree of an internal node leaves the other subtree
      and the node itself as they were. */
  lemma InternalKeeps(n0: seq<Node>, c0: seq<Circle>, n1: seq<Node>, c1: seq<Circle>,
                      n2: seq<Node>, c2: seq<Circle>, idx: nat, t: nat)
    requires Ordered(n0) && idx < |n0| && n0[idx].Internal? && Sound(n0, c0, idx)
    requires Rebuilt(n0, c0, n1, c1, n0[idx].left, t)
    requires Rebuilt(n1, c1, n2, c2, n0[idx].right, t)
    ensures BothSubtrees(n0, c0, n1, c1, n2, c2, idx, t)
  {
    var l, r := n0[idx].left, n0[idx].right;
    ChildrenDisjoint(n0, c0, idx);
    KeepsOther(n0, c0, n1, c1, l, r, t);
    assert Reach(n1, l) !! Reach(n1, r) by {
      forall j | j in Reach(n1, l) ensures j !in Reach(n1, r) {
        assert j in Reach(n0, l) || |n0| <= j;
      }
    }
    KeepsOther(n1, c1, n2, c2, r, l, t);
    assert n1[idx] == n0[idx];
  }

  /** `BothSubtrees` is the internal node's call of `subdivide` done. */
  lemma InternalFinish(n0: seq<Node>, c0: seq<Circle>, n1: seq<Node>, c1: seq<Circle>,
                       n2: seq<Node>, c2: seq<Circle>, idx: nat, t: nat)
    requires BothSubtrees(n0, c0, n1, c1, n2, c2, idx, t)
    ensures Rebuilt(n0, c0, n2, c2, idx, t)
  {
    var l, r := n0[idx].left, n0[idx].right;
    InternalCompose(n0, c0, n2, c2, idx, t);
    assert Reach(n0, idx) == {idx} + Reach(n0, l) + Reach(n0, r);
    EntriesCompose(n0, n1, n2, Reach(n0, l), Reach(n0, r), Reach(n1, l), Reach(n2, r), idx);
    PermutedWiden(c0, c1, Lo(n0, l), Hi(n0, l), Lo(n0, idx), Hi(n0, idx));
    PermutedWiden(c1, c2, Lo(n0, r), Hi(n0, r), Lo(n0, idx), Hi(n0, idx));
    PermutedTrans(c0, c1, c2, Lo(n0, idx), Hi(n0, idx));
  }

  /** Entry bookkeeping for two subdivisions in a row: the first grew `a`
      into `a1`, the second grew `b` into `b2`, each touching only its own
      entries. */
  lemma EntriesCompose(n0: seq<Node>, n1: seq<Node>, n2: seq<Node>,
                       a: set<nat>, b: set<nat>, a1: set<nat>, b2: set<nat>, idx: nat)
    requires |n0| <= |n1| <= |n2| && idx < |n0|
    requires forall j :: j in b ==> j < |n0|
    requires forall j :: j in a1 <==> j in a || |n0| <= j < |n1|
    requires forall j :: j in b2 <==> j in b || |n1| <= j < |n2|
    requires forall j :: 0 <= j < |n0| && j !in a ==> n1[j] == n0[j]
    requires forall j :: 0 <= j < |n1| && j !in b ==> n2[j] == n1[j]
    ensures forall j :: j in {idx} + a1 + b2 <==> j in {idx} + a + b || |n0| <= j < |n2|
    ensures forall j :: 0 <= j < |n0| && j !in {idx} + a + b ==> n2[j] == n0[j]
  {
  }
}
