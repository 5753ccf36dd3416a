/** The BVH builder: an append-only node arena over a circle array that the
    builder permutes in place while it splits leaves. */
module Builder {
  import opened Geometry
  import opened Ranges
  import opened Arena
  import opened Rebuild
  import opened Division

  /** The threshold `BVH::new` passes to `subdivide`: leaves of at most two
      circles are not split. */
  const LeafThreshold: nat := 2

  class BVH {
    /** `Vec<BVHNode>`, only ever pushed to or overwritten. */
    var nodes: seq<Node>
    /** `Vec<Circle>`, never resized, permuted in place. */
    const circles: array<Circle>

    /** The finished tree: see `Arena.Built`. */
    ghost predicate Valid()
      reads this, circles
    {
      Built(nodes, circles[..], LeafThreshold)
    }

    /** `BVH::new`: a root leaf over all circles, its bounds computed, then
        subdivided with threshold 2. The circles end up permuted, the arena
        holds a sound tree covering every circle, every leaf holds at most two
        circles or is one the split guard rejects, and every internal node is
        a leaf that was split at the partition's cursor. At most two circles
        stay one leaf, in their order. */
    constructor (cs: seq<Circle>)
      requires |cs| > 0
      ensures Valid() && fresh(circles)
      ensures circles.Length == |cs| && multiset(circles[..]) == multiset(cs)
      ensures |cs| <= LeafThreshold ==> nodes == [Leaf(SeqBox(cs), 0, |cs|)] && circles[..] == cs
    {
      circles := new Circle[|cs|](k requires 0 <= k < |cs| => cs[k]);
      nodes := [Leaf(DefaultBox, 0, |cs|)];
      new;
      assert circles[..] == cs;
      ComputeBounds(0);
      ghost var n0, c0 := nodes, circles[..];
      assert cs[0..|cs|] == cs;
      RootLeaf(n0, c0, LeafThreshold);
      Subdivide(0, LeafThreshold);
      NewBuilt(n0, c0, nodes, circles[..], LeafThreshold);
    }

    /** `compute_bounds`: node `idx` gets the union of its children's bounds
        (internal) or the fold of its circles' boxes (leaf); no other node and
        no circle changes. */
    method ComputeBounds(idx: nat)
      requires idx < |nodes|
      requires nodes[idx].Internal? ==> nodes[idx].left < |nodes| && nodes[idx].right < |nodes|
      requires nodes[idx].Leaf? ==> nodes[idx].start < nodes[idx].end <= circles.Length
      modifies this
      ensures nodes == old(nodes[idx := WithBounds(nodes[idx], FreshBounds(nodes, circles[..], idx))])
    {
      var node := nodes[idx];
      match node {
        case Internal(_, left, right) =>
          node := Internal(nodes[left].bounds.Union(nodes[right].bounds), left, right);
        case Leaf(_, start, end) =>
          var newBounds := circles[start].Aabb();
          for i := start + 1 to end
            invariant newBounds == SeqBox(circles[start..i])
          {
            assert circles[start..i + 1][..i - start] == circles[start..i];
            newBounds := newBounds.Union(circles[i].Aabb());
          }
          node := Leaf(newBounds, start, end);
      }
      nodes := nodes[idx := node];
    }

    /** The partition loop of `subdivide`: swaps circles of `[start, end)`
        until those below the plane (`translation[axis] < split`) come first.
        Returns the cursor `i`: the circles before it are below the plane, the
        circles from it to `end` are not, only `[start, end)` is permuted, and
        `i - start` is the number of circles of the range below the plane. */
    method Partition(start: nat, end: nat, axis: Axis, split: real) returns (i: nat)
      requires start <= end <= circles.Length
      modifies circles
      ensures start <= i <= end
      ensures forall k :: start <= k < i ==> Below(circles[k], axis, split)
      ensures forall k :: i <= k < end ==> !Below(circles[k], axis, split)
      ensures Permuted(old(circles[..]), circles[..], start, end)
      ensures i - start == CountBelow(old(circles[start..end]), axis, split)
    {
      i := start;
      var j: int := end - 1;
      while i <= j
        invariant start <= i <= j + 1 <= end
        invariant forall k :: start <= k < i ==> Below(circles[k], axis, split)
        invariant forall k :: j < k < end ==> !Below(circles[k], axis, split)
        invariant Permuted(old(circles[..]), circles[..], start, end)
        decreases j - i
      {
        if circles[i].translation.At(axis) < split {
          i := i + 1;
        } else {
          ghost var before := circles[..];
          Swap(i, j);
          SwapStep(old(circles[..]), before, circles[..], start, end, i, j, axis, split);
          j := j - 1;
        }
      }
      assert old(circles[..])[start..end] == old(circles[start..end]);
      PartitionCount(old(circles[..]), circles[..], start, end, i, axis, split);
    }

    /** `Vec::swap`: exchanges two circles, possibly the same one. */
    method Swap(i: nat, j: nat)
      requires i < circles.Length && j < circles.Length
      modifies circles
      ensures circles[..] == old(circles[..])[i := old(circles[j])][j := old(circles[i])]
    {
      circles[i], circles[j] := circles[j], circles[i];
    }

    /** `subdivide` on node `idx`. An internal node has both subtrees
        subdivided, left then right; a leaf is handled by `SubdivideLeaf`.
        What the call achieves is `Rebuild.Rebuilt`, and a subtree whose
        internal nodes are ones `subdivide` splits keeps that property. */
    method Subdivide(idx: nat, threshold: nat)
      requires Ordered(nodes) && idx < |nodes| && Sound(nodes, circles[..], idx)
      modifies this, circles
      ensures Rebuilt(old(nodes), old(circles[..]), nodes, circles[..], idx, threshold)
      ensures Divided(old(nodes), old(circles[..]), idx, threshold) ==> Divided(nodes, circles[..], idx, threshold)
      decreases Hi(nodes, idx) - Lo(nodes, idx), 2
    {
      match nodes[idx] {
        case Internal(_, left, right) =>
          ghost var n0, c0 := nodes, circles[..];
          Subdivide(left, threshold);
          ghost var n1, c1 := nodes, circles[..];
          InternalMid(n0, c0, n1, c1, idx, threshold);
          if Divided(n0, c0, idx, threshold) {
            DividedMid(n0, c0, n1, c1, idx, threshold);
          }
          Subdivide(right, threshold);
          InternalRebuilt(n0, c0, n1, c1, nodes, circles[..], idx, threshold);
          if Divided(n0, c0, idx, threshold) {
            DividedEnd(n0, c0, n1, c1, nodes, circles[..], idx, threshold);
          }
        case Leaf(_, _, _) =>
          SubdivideLeaf(idx, threshold);
      }
    }

    /** The leaf case of `subdivide`. A leaf of at most `threshold` circles is
        left alone. Otherwise the split axis and plane are chosen from its
        bounds and its range is partitioned; if the cursor lands on the
        range's start or last element the leaf stays (its circles possibly
        permuted); otherwise the leaf is split at the cursor by `SplitLeaf`.
        Either way every internal node of the result is a leaf split at the
        partition's cursor. */
    method SubdivideLeaf(idx: nat, threshold: nat)
      requires Ordered(nodes) && idx < |nodes| && nodes[idx].Leaf? && Sound(nodes, circles[..], idx)
      modifies this, circles
      ensures Rebuilt(old(nodes), old(circles[..]), nodes, circles[..], idx, threshold)
      ensures Divided(nodes, circles[..], idx, threshold)
      decreases nodes[idx].end - nodes[idx].start, 1
    {
      var bounds, start, end := nodes[idx].bounds, nodes[idx].start, nodes[idx].end;
      if end - start <= threshold {
        SmallRebuilt(nodes, circles[..], idx, threshold);
        return;
      }

      var axis := SplitAxis(bounds);
      var split := SplitPlane(bounds, axis);
      ghost var n0, c0 := nodes, circles[..];
      var i := Partition(start, end, axis, split);
      ghost var c1 := circles[..];
      assert c0[start..end] == old(circles[start..end]);
      PartitionFacts(n0, c0, c1, idx, i);

      if i == end - 1 || i == start {
        GuardRebuilt(n0, c0, c1, idx, threshold);
        return;
      }

      SplitDivided(c0, c1, bounds, axis, split, start, i, end, threshold);
      SplitLeaf(idx, threshold, i);
      SplitRebuilt(n0, c0, c1, nodes, circles[..], idx, threshold);
    }

    /** The split of leaf `idx` at cursor `i`, reached once its circles are
        partitioned around the split plane at `i` and the guard has let the
        leaf through: leaves over `[start, i)` and `[i, end)` are appended,
        bounded and subdivided, then the leaf is overwritten by an internal
        node over them whose bounds are recomputed as the union of theirs.
        The result is a divided subtree. */
    method SplitLeaf(idx: nat, threshold: nat, i: nat)
      requires Ordered(nodes) && idx < |nodes| && nodes[idx].Leaf? && Sound(nodes, circles[..], idx)
      requires nodes[idx].start < i < nodes[idx].end
      requires Cut(circles[..], nodes[idx].start, i, nodes[idx].end, threshold)
      modifies this, circles
      ensures Replaced(old(nodes), old(circles[..]), nodes, circles[..], idx, threshold)
      ensures Divided(nodes, circles[..], idx, threshold)
      decreases nodes[idx].end - nodes[idx].start, 0
    {
      ghost var n0, c1 := nodes, circles[..];
      var l, r := PushChildren(idx, i);
      ghost var m0 := nodes;
      ChildrenReady(n0, c1, m0, idx, i);

      assert Divided(m0, c1, l, threshold);
      Subdivide(l, threshold);
      ghost var m1, c2 := nodes, circles[..];
      RightStillReady(n0, c1, m0, m1, c2, idx, i, threshold);
      LeftChild(n0, c1, m0, m1, c2, idx, i, threshold);
      assert Divided(m1, c2, r, threshold);
      Subdivide(r, threshold);
      ghost var m2, c3 := nodes, circles[..];
      RightChild(n0, c1, m1, c2, m2, c3, idx, i, threshold);

      nodes := nodes[idx := Internal(DefaultBox, l, r)];
      FreshInternal(m2, c3, idx, l, r);
      ComputeBounds(idx);
      SplitReplaced(n0, c1, m2, c3, nodes, idx, i, threshold);
      SplitLeafDivided(n0, c1, m1, c2, m2, c3, m2[l].bounds.Union(m2[r].bounds), idx, i, threshold);
    }

    /** The children of the split: leaves over `[start, i)` and `[i, end)`
        pushed onto the arena, then bounded. */
    method PushChildren(idx: nat, i: nat) returns (l: nat, r: nat)
      requires Ordered(nodes) && idx < |nodes| && nodes[idx].Leaf?
      requires nodes[idx].start < i < nodes[idx].end <= circles.Length
      modifies this
      ensures l == old(|nodes|) && r == l + 1
      ensures ChildrenPushed(old(nodes), circles[..], nodes, idx, i)
    {
      var start, end := nodes[idx].start, nodes[idx].end;
      ghost var n0 := nodes;
      l := |nodes|;
      nodes := nodes + [Leaf(DefaultBox, start, i)];
      r := |nodes|;
      nodes := nodes + [Leaf(DefaultBox, i, end)];
      ComputeBounds(l);
      ComputeBounds(r);
      assert nodes[..|n0|] == n0;
    }
  }

  /** The bounded root leaf over all circles is a sound, divided subtree. */
  lemma RootLeaf(n0: seq<Node>, c0: seq<Circle>, t: nat)
    requires |c0| > 0 && n0 == [Leaf(SeqBox(c0), 0, |c0|)]
    ensures Ordered(n0) && Sound(n0, c0, 0) && Divided(n0, c0, 0, t)
  {
    assert c0[0..|c0|] == c0;
  }

  /** Subdividing the root leaf over all circles builds a finished BVH over
      a permutation of them; at most `t` circles stay as they were. */
  lemma NewBuilt(n0: seq<Node>, c0: seq<Circle>, n1: seq<Node>, c1: seq<Circle>, t: nat)
    requires |c0| > 0 && n0 == [Leaf(SeqBox(c0), 0, |c0|)]
    requires Rebuilt(n0, c0, n1, c1, 0, t) && Divided(n1, c1, 0, t)
    ensures Built(n1, c1, t) && multiset(c1) == multiset(c0)
    ensures |c0| <= t ==> n1 == n0 && c1 == c0
  {
    assert Reach(n0, 0) == {0};
    PermutedWhole(c0, c1, 0, |c0|);
  }

  /** Recomputing the bounds of an entry just overwritten by an internal node
      gives it the union of its children's bounds. */
  lemma FreshInternal(nodes: seq<Node>, cs: seq<Circle>, i: nat, l: nat, r: nat)
    requires i < |nodes| && l < |nodes| && r < |nodes| && i != l && i != r
    ensures var m := nodes[i := Internal(DefaultBox, l, r)];
      m[i := WithBounds(m[i], FreshBounds(m, cs, i))]
      == nodes[i := Internal(nodes[l].bounds.Union(nodes[r].bounds), l, r)]
  {
  }
}
