/** The partition loop of `subdivide` with its downward cursor as the source
    declares it: a `usize`. Decrementing that cursor at zero is an arithmetic
    overflow, which panics in a debug build; in a release build the cursor
    wraps to `usize::MAX` and the next swap indexes out of bounds, which
    panics too. `Builder.BVH.Partition` is the loop with the cursor as a
    signed integer, which is what the guard after the loop expects. */
module UsizePartition {
  import opened Geometry
  import opened Ranges
  import Builder

  /** How the loop ends: with the permuted circles and the cursor, or by
      decrementing the `usize` cursor below zero. */
  datatype Outcome = Done(circles: seq<Circle>, cursor: nat) | Underflow

  /** The loop on leaf range `[start, end)` as written, on a copy of the
      circles. It underflows exactly when the range starts at the first
      circle and no circle of it is below the plane; otherwise it ends as
      `Builder.BVH.Partition` does. */
  method PartitionAsWritten(c: seq<Circle>, start: nat, end: nat, axis: Axis, split: real) returns (r: Outcome)
    requires start < end <= |c|
    ensures r.Underflow? <==> start == 0 && CountBelow(c[start..end], axis, split) == 0
    ensures r.Done? ==> Permuted(c, r.circles, start, end)
    ensures r.Done? ==> r.cursor - start == CountBelow(c[start..end], axis, split)
    ensures r.Done? ==> start <= r.cursor <= end && |r.circles| == |c|
    ensures r.Done? ==> forall k :: start <= k < r.cursor ==> Below(r.circles[k], axis, split)
    ensures r.Done? ==> forall k :: r.cursor <= k < end ==> !Below(r.circles[k], axis, split)
  {
    var cs := c;
    var i: nat, j: nat := start, end - 1;
    while i <= j
      invariant start <= i <= j + 1 <= end && |cs| == |c|
      invariant forall k :: start <= k < i ==> Below(cs[k], axis, split)
      invariant forall k :: j < k < end ==> !Below(cs[k], axis, split)
      invariant Permuted(c, cs, start, end)
      decreases j + 1 - i
    {
      if cs[i].translation.At(axis) < split {
        i := i + 1;
      } else {
        ghost var before := cs;
        cs := cs[i := cs[j]][j := cs[i]];
        SwapStep(c, before, cs, start, end, i, j, axis, split);
        if j == 0 {
          NoneBelow(c, cs, end, axis, split);
          return Underflow;
        }
        j := j - 1;
      }
    }
    PartitionCount(c, cs, start, end, i, axis, split);
    r := Done(cs, i);
  }

  /** When no circle of a permutation of `c[0..end]` is below the plane, no
      circle of `c[0..end]` is. */
  lemma NoneBelow(c: seq<Circle>, cs: seq<Circle>, end: nat, axis: Axis, split: real)
    requires 0 < end && Permuted(c, cs, 0, end)
    requires forall k :: 0 <= k < end ==> !Below(cs[k], axis, split)
    ensures CountBelow(c[0..end], axis, split) == 0
  {
    CountBelowSplit(cs[0..end], 0, axis, split);
    CountBelowPermutation(c[0..end], cs[0..end], axis, split);
  }

  /** Three circles for which `BVH::new` underflows: three unit circles at
      the origin, the case of circles sharing one position that the guard
      exists for. Their box spans x, y and z from -1 to 1, so the split is on
      x at 0, and no centre has a negative x. */
  const Witness: seq<Circle> := [
    Circle(Vec3(0.0, 0.0, 0.0), 1.0),
    Circle(Vec3(0.0, 0.0, 0.0), 1.0),
    Circle(Vec3(0.0, 0.0, 0.0), 1.0)]

  /** The root leaf of `Witness` holds more circles than the threshold `BVH::new`
      passes, so it reaches the partition; it is split on x at 0 and none of
      its circles is below that plane. */
  lemma WitnessNoneBelow()
    ensures |Witness| > Builder.LeafThreshold
    ensures SplitAxis(SeqBox(Witness)) == 0 && SplitPlane(SeqBox(Witness), 0) == 0.0
    ensures CountBelow(Witness, 0, 0.0) == 0
  {
    var s := Witness;
    assert s[..2][..1] == [s[0]];
    assert SeqBox(s) == AABB(Vec3(-1.0, -1.0, -1.0), Vec3(1.0, 1.0, 1.0));
    assert CountBelow(s, 0, 0.0) == 0 by {
      assert s[..2][..1][..0] == [];
    }
  }

  /** `BVH::new` over `Witness`: the root leaf's partition underflows. */
  method NewWitnessUnderflows() returns (r: Outcome)
    ensures r.Underflow?
  {
    var c := Witness;
    assert c[0..3] == c;
    WitnessNoneBelow();
    var axis := SplitAxis(SeqBox(c));
    r := PartitionAsWritten(c, 0, 3, axis, SplitPlane(SeqBox(c), axis));
  }
}
