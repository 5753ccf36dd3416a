/** Why every internal node `subdivide` leaves behind is a leaf it split: the
    property `Arena.Divided`, carried through the calls of `subdivide` next to
    `Rebuild.Rebuilt`. */
module Division {
  import opened Geometry
  import opened Ranges
  import opened Arena
  import opened Rebuild

  /** Subdividing the subtree at `i` keeps any disjoint subtree `j` divided. */
  lemma KeepsOtherDivided(n0: seq<Node>, c0: seq<Circle>, n1: seq<Node>, c1: seq<Circle>, i: nat, j: nat, t: nat)
    requires Untouched(n0, c0, n1, c1, i)
    requires j < |n0| && Sound(n0, c0, j) && Reach(n0, i) !! Reach(n0, j)
    requires Hi(n0, j) <= Lo(n0, i) || Hi(n0, i) <= Lo(n0, j)
    requires Divided(n0, c0, j, t)
    ensures j < |n1| && Divided(n1, c1, j, t)
  {
    forall k | Lo(n0, j) <= k < Hi(n0, j) ensures c1[k] == c0[k] {
    }
    FrameDivided(n0, c0, n1, c1, j, t);
  }

  /** The range `[s, e)` of a leaf `subdivide` does not stop at, bounded
      by `b`, once partitioned into `c1` on axis `a` at plane `p` with the
      cursor at `i`, is split and partitioned at `i`. */
  lemma SplitDivided(c0: seq<Circle>, c1: seq<Circle>, b: AABB, a: Axis, p: real, s: nat, i: int, e: nat, t: nat)
    requires Permuted(c0, c1, s, e) && s <= i <= e && s < e
    requires b == SeqBox(c0[s..e]) && a == SplitAxis(b) && p == SplitPlane(b, a)
    requires e - s > t && !Unsplittable(c0[s..e])
    requires i - s == CountBelow(c0[s..e], a, p)
    requires forall k :: s <= k < i ==> Below(c1[k], a, p)
    requires forall k :: i <= k < e ==> !Below(c1[k], a, p)
    ensures Cut(c1, s, i, e, t)
  {
    assert SplitAt(c0[s..e], i - s, t);
    SplitAtPermutation(c0[s..e], c1[s..e], i - s, t);
    SeqBoxPermutation(c0[s..e], c1[s..e]);
    var u := c1[s..e];
    assert forall k :: 0 <= k < |u| ==> u[k] == c1[s + k];
  }

  /** Subdividing the right child leaves the divided left subtree divided. */
  lemma ChildrenDivided(n0: seq<Node>, c1: seq<Circle>, m1: seq<Node>, c2: seq<Circle>,
                        m2: seq<Node>, c3: seq<Circle>, idx: nat, i: nat, t: nat)
    requires LeftDone(n0, c1, m1, c2, idx, i, t)
    requires Rebuilt(m1, c2, m2, c3, |n0| + 1, t)
    requires Divided(m1, c2, |n0|, t)
    ensures Divided(m2, c3, |n0|, t)
  {
    RightLeaf(n0, c1, m1, c2, idx, i, t);
    KeepsOtherDivided(m1, c2, m2, c3, |n0| + 1, |n0|, t);
  }

  /** The split leaf, overwritten by an internal node over its two
      subdivided, divided children, is divided when its partitioned range
      `[s, e)` was split at `i` and each child only permuted its own side. */
  lemma SplitJoinDivided(c1: seq<Circle>, c2: seq<Circle>, m2: seq<Node>, c3: seq<Circle>, b: AABB,
                         idx: nat, l: nat, r: nat, s: nat, i: nat, e: nat, t: nat)
    requires Permuted(c1, c2, s, i) && Permuted(c2, c3, i, e)
    requires Cut(c1, s, i, e, t)
    requires Ordered(m2) && idx < l < |m2| && idx < r < |m2|
    requires Sound(m2, c3, l) && Sound(m2, c3, r) && Divided(m2, c3, l, t) && Divided(m2, c3, r, t)
    requires Lo(m2, l) == s && Hi(m2, l) == i && Lo(m2, r) == i && Hi(m2, r) == e
    ensures Divided(m2[idx := Internal(b, l, r)], c3, idx, t)
  {
    CutKept(c1, c2, c3, s, i, e, t);
    JoinNodeDivided(m2, c3, b, idx, l, r, t);
  }

  /** The split leaf, overwritten by an internal node over its two children
      once both are subdivided, is divided when its partitioned range was
      split at `i`. */
  lemma SplitLeafDivided(n0: seq<Node>, c1: seq<Circle>, m1: seq<Node>, c2: seq<Circle>,
                         m2: seq<Node>, c3: seq<Circle>, b: AABB, idx: nat, i: nat, t: nat)
    requires LeftDone(n0, c1, m1, c2, idx, i, t)
    requires Rebuilt(m1, c2, m2, c3, |n0| + 1, t)
    requires Divided(m1, c2, |n0|, t) && Divided(m2, c3, |n0| + 1, t)
    requires Cut(c1, n0[idx].start, i, n0[idx].end, t)
    ensures Divided(m2[idx := Internal(b, |n0|, |n0| + 1)], c3, idx, t)
  {
    ChildrenDivided(n0, c1, m1, c2, m2, c3, idx, i, t);
    RightChildKeepsLeft(n0, c1, m1, c2, m2, c3, idx, i, t);
    RightSubtree(n0, c1, m1, c2, m2, c3, idx, i, t);
    SplitJoinDivided(c1, c2, m2, c3, b, idx, |n0|, |n0| + 1, n0[idx].start, i, n0[idx].end, t);
  }

  /** An internal node written over two adjacent divided subtrees is divided
      when its range is split and partitioned at the left subtree's end. */
  lemma JoinNodeDivided(m2: seq<Node>, c3: seq<Circle>, b: AABB, idx: nat, l: nat, r: nat, t: nat)
    requires Ordered(m2) && idx < l < |m2| && idx < r < |m2|
    requires Sound(m2, c3, l) && Sound(m2, c3, r) && Hi(m2, l) == Lo(m2, r)
    requires Divided(m2, c3, l, t) && Divided(m2, c3, r, t)
    requires Cut(c3, Lo(m2, l), Hi(m2, l), Hi(m2, r), t)
    ensures Ordered(m2[idx := Internal(b, l, r)]) && Divided(m2[idx := Internal(b, l, r)], c3, idx, t)
  {
    var m3 := m2[idx := Internal(b, l, r)];
    OrderedSet(m2, idx, m3[idx]);
    FrameShape(m2, m3, l);
    FrameShape(m2, m3, r);
    FrameDivided(m2, c3, m3, c3, l, t);
    FrameDivided(m2, c3, m3, c3, r, t);
    JoinDivided(m3, c3, idx, l, r, t);
  }

  /** Subdividing the left subtree of a divided internal node leaves both its
      subtrees divided. */
  lemma DividedMid(n0: seq<Node>, c0: seq<Circle>, n1: seq<Node>, c1: seq<Circle>, idx: nat, t: nat)
    requires Ordered(n0) && idx < |n0| && n0[idx].Internal? && Sound(n0, c0, idx)
    requires Rebuilt(n0, c0, n1, c1, n0[idx].left, t)
    requires Divided(n0, c0, idx, t)
    requires Divided(n0, c0, n0[idx].left, t) ==> Divided(n1, c1, n0[idx].left, t)
    ensures Divided(n1, c1, n0[idx].left, t) && Divided(n1, c1, n0[idx].right, t)
  {
    ChildrenDisjoint(n0, c0, idx);
    KeepsOtherDivided(n0, c0, n1, c1, n0[idx].left, n0[idx].right, t);
  }

  /** After both subtrees of a divided internal node are subdivided, keeping
      them divided, the node is still divided: its cut is where it was, its
      circles are a permutation of the ones it had, and each side was only
      permuted within itself. */
  lemma DividedEnd(n0: seq<Node>, c0: seq<Circle>, n1: seq<Node>, c1: seq<Circle>,
                   n2: seq<Node>, c2: seq<Circle>, idx: nat, t: nat)
    requires Ordered(n0) && idx < |n0| && n0[idx].Internal? && Sound(n0, c0, idx)
    requires Rebuilt(n0, c0, n1, c1, n0[idx].left, t)
    requires Rebuilt(n1, c1, n2, c2, n0[idx].right, t)
    requires Divided(n0, c0, idx, t) && Divided(n1, c1, n0[idx].left, t) && Divided(n2, c2, n0[idx].right, t)
    ensures Divided(n2, c2, idx, t)
  {
    DividedLeftKept(n0, c0, n1, c1, n2, c2, idx, t);
    InternalKeeps(n0, c0, n1, c1, n2, c2, idx, t);
    DividedJoin(n0, c0, n1, c1, n2, c2, idx, t);
  }

  /** Subdividing the right subtree of an internal node keeps its divided
      left subtree divided. */
  lemma DividedLeftKept(n0: seq<Node>, c0: seq<Circle>, n1: seq<Node>, c1: seq<Circle>,
                        n2: seq<Node>, c2: seq<Circle>, idx: nat, t: nat)
    requires Ordered(n0) && idx < |n0| && n0[idx].Internal? && Sound(n0, c0, idx)
    requires Rebuilt(n0, c0, n1, c1, n0[idx].left, t)
    requires Rebuilt(n1, c1, n2, c2, n0[idx].right, t)
    requires Divided(n1, c1, n0[idx].left, t)
    ensures Divided(n2, c2, n0[idx].left, t)
  {
    var l, r := n0[idx].left, n0[idx].right;
    ChildrenDisjoint(n0, c0, idx);
    KeepsOther(n0, c0, n1, c1, l, r, t);
    assert Reach(n1, r) !! Reach(n1, l) by {
      forall j | j in Reach(n1, l) ensures j !in Reach(n1, r) {
        assert j in Reach(n0, l) || |n0| <= j;
      }
    }
    KeepsOtherDivided(n1, c1, n2, c2, r, l, t);
  }

  /** The internal node over two subtrees subdivided in turn, each left
      divided, is divided again: each side was only permuted within itself,
      so its range is still split and partitioned at the same cut. */
  lemma DividedJoin(n0: seq<Node>, c0: seq<Circle>, n1: seq<Node>, c1: seq<Circle>,
                    n2: seq<Node>, c2: seq<Circle>, idx: nat, t: nat)
    requires BothSubtrees(n0, c0, n1, c1, n2, c2, idx, t)
    requires Divided(n0, c0, idx, t) && Divided(n2, c2, n0[idx].left, t) && Divided(n2, c2, n0[idx].right, t)
    ensures Divided(n2, c2, idx, t)
  {
    var l, r := n0[idx].left, n0[idx].right;
    JoinDivided(n0, c0, idx, l, r, t);
    CutKept(c0, c1, c2, Lo(n0, idx), Hi(n0, l), Hi(n0, idx), t);
    JoinDivided(n2, c2, idx, l, r, t);
  }
}
