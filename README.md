# BVH builder over circles

A model of the bounding-volume hierarchy builder of `src/main.rs`, together
with proofs about it. The builder takes a list of circles and builds a
binary tree of axis-aligned boxes over them.

- **Layout.** The tree lives in an append-only arena of nodes. A node refers
  to its children by arena index, and a leaf owns a contiguous range
  `[start, end)` of the circle list.
- **`compute_bounds`** gives a leaf the union of its circles' boxes, folded
  left to right. It gives an internal node the union of its two children's
  boxes.
- **`subdivide`** works on one leaf at a time:
  - it takes the axis of largest extent and the spatial midpoint on that axis;
  - it partitions the leaf's circles in place with a two-cursor swap loop;
  - a guard rejects one-sided splits;
  - otherwise it appends two child leaves, subdivides them, and overwrites the
    leaf with an internal node whose box is recomputed.
- **`BVH::new`** seeds a root leaf over all circles, bounds it, and subdivides
  it with threshold 2.

Modules:

- `geometry.dfy` (`Geometry`): vectors, `AABB` with `union`, and `Circle` with
  its box. Coordinates are reals. The constant `DefaultBox` is
  `AABB::default()`, the all-zero box placed in new nodes before their bounds
  are computed (`src/main.rs:172`, `177`, `193`, `207`).
- `ranges.dfy` (`Ranges`): functions of a run of circles.
  - `SeqBox` is the fold `compute_bounds` performs on a leaf.
  - `SplitAxis` and `SplitPlane` are the split choice.
  - `CountBelow` is the predicate the partition sorts by, counted.
  - `Unsplittable` describes a leaf the guard keeps.
  - `SplitAt` describes a leaf the builder splits, and at which cursor.
  - `Parted` describes a run partitioned around its own split plane, and
    `Cut` a range both split and partitioned at one cursor.
  - `Permuted` means "only this range was permuted".
- `arena.dfy` (`Arena`): `BVHNode` as the datatype `Node`. Its `bounds`
  destructor is `BVHNode::bounds`. In the module's own words:
  - `Ordered`: children come after their parent;
  - `Sound`: a subtree's boxes are right and its leaf ranges chain;
  - `Settled`: every leaf is one the builder stops at;
  - `Divided`: every internal node is a leaf the builder split, cut at the
    partition's cursor, with the circles below the split plane on the left;
  - `Reach`: the subtree's entries;
  - `Leaves`: the leaf ranges, and `LeafContents` the circles of each leaf;
  - `Built`: the finished tree.
  - `WithBounds` and `FreshBounds` are the write `compute_bounds` performs.
- `rebuild.dfy` (`Rebuild`): `Rebuilt`, what one call of `subdivide` achieves,
  and the steps proving that each branch of `subdivide` achieves it.
- `division.dfy` (`Division`): the steps proving that each branch of
  `subdivide` keeps `Divided`.
- `bvh.dfy` (`Builder`): the constant `LeafThreshold`, the `2` that `BVH::new`
  passes to `subdivide` (`src/main.rs:217`), and the class `BVH`, with the `circles` array and the
  `nodes` sequence as fields. `compute_bounds`, `subdivide` and `new` are
  methods that update them in place. The partition loop and the pushing of
  the children are methods of their own.
- `usize_partition.dfy` (`UsizePartition`): the partition loop with its cursor
  as the `usize` the source declares. See "Findings".

## Model

| member | source | states |
|---|---|---|
| Geometry.AABB.Union | src/main.rs:23-28 | the union encloses both operands |
| Geometry.UnionLeast | src/main.rs:23-28 | any box enclosing both operands encloses their union, so the union is the smallest such box |
| Geometry.UnionFaces | src/main.rs:23-28 | on every axis each face of the union is the corresponding face of one of the operands |
| Geometry.UnionCommutative | src/main.rs:23-28 | union is commutative |
| Geometry.UnionAssociative | src/main.rs:23-28 | union is associative |
| Geometry.Circle.Aabb | src/main.rs:38-43 | on every axis the box is centred on the translation and has side twice the radius; it is a valid box (lb <= ub) exactly when the radius is non-negative |
| Ranges.SeqBox | src/main.rs:113-118 | definition only: the left fold of `union` over the circles' boxes, seeded with the first box; `Ranges.SeqBoxEncloses` and `Ranges.SeqBoxTight` state what it computes |
| Ranges.SeqBoxEncloses | src/main.rs:113-118 | the leaf fold encloses the box of every circle in the range |
| Ranges.SeqBoxValid | src/main.rs:113-118 | the leaf fold of circles of non-negative radius is a valid box, its lower corner at most its upper corner on every axis |
| Ranges.SeqBoxTight | src/main.rs:113-118 | the leaf fold encloses every circle's box and each of its six faces is reached by some circle's box |
| Ranges.TightUnique | src/main.rs:113-118 | two runs holding the same circles have the same tightest box |
| Ranges.TightFace | src/main.rs:113-118 | on one axis, a tightest box of fewer circles is no larger than a tightest box of more circles |
| Ranges.SeqBoxPermutation | src/main.rs:113-118 | permuting a leaf's circles does not change the folded box, so a leaf's bounds survive the in-place partition |
| Ranges.SeqBoxAppend | src/main.rs:109-118 | the box of two adjacent runs is the union of their boxes |
| Ranges.SeqBoxSplit | src/main.rs:109-118 | the box of a range split at any inner index is the union of the boxes of the two parts |
| Geometry.AABB.Extent | src/main.rs:143 | definition only: the upper corner minus the lower corner, the extent `subdivide` compares axis by axis; `Ranges.SplitAxisLargest` states the choice made from it |
| Ranges.SplitAxis | src/main.rs:143-150 | definition only: x, then y if its extent is larger, then z if its extent is larger still; `Ranges.SplitAxisLargest` states the choice |
| Ranges.SplitAxisLargest | src/main.rs:143-150 | the chosen axis has the largest extent, and every earlier axis has a strictly smaller extent (ties go to the earlier axis) |
| Ranges.SplitPlane | src/main.rs:153 | the plane is equidistant from the two faces on the axis, and lies between them for a valid box |
| Ranges.Below | src/main.rs:156 | definition only: the circle's centre lies strictly below the plane on the axis, the test the partition loop applies; `Builder.BVH.Partition` and `Ranges.CountBelow` state what is done with it |
| Ranges.CountBelow | src/main.rs:154-162 | the number of circles below the plane is at most the number of circles |
| Ranges.CountBelowAppend | src/main.rs:154-162 | the count below the plane is additive over concatenation |
| Ranges.CountBelowSplit | src/main.rs:154-162 | a run whose first m circles are below the plane and whose rest are not has exactly m below |
| Ranges.CountAll | src/main.rs:154-162 | when every circle gets the same answer from the test, the count is all of them or none |
| Ranges.CountBelowPermutation | src/main.rs:154-162 | the count below the plane does not depend on the order of the circles |
| Ranges.CountBelowRemove | src/main.rs:154-162 | taking one circle out of a run takes it out of the run's multiset, and takes away one from the count below the plane exactly when that circle is below it |
| Ranges.SomeNotBelow | src/main.rs:164-169 | on any axis, some circle of a leaf is not below that axis's midpoint plane, so fewer than all are below |
| Ranges.CountBelowNotAll | src/main.rs:164-169 | a run with one circle not below the plane does not have all of its circles below it |
| Ranges.Unsplittable | src/main.rs:164 | definition only: the guard holds when the number of circles below the plane is 0 or one less than the leaf's size; `Rebuild.PartitionFacts` proves it equal to the guard on the cursor |
| Ranges.UnsplittablePermutation | src/main.rs:164-169 | whether the guard keeps a leaf depends only on which circles it holds, not their order |
| Ranges.SplitAt | src/main.rs:138-169 | a leaf's run that is split by `subdivide`: more circles than the threshold, not kept by the guard, cut at the number of its circles below the midpoint plane of its largest axis; `Ranges.SplitAtCut` and `Ranges.SplitAtPermutation` state its properties |
| Ranges.SplitAtPermutation | src/main.rs:154-169 | whether and where a run is split depends only on which circles it holds, not their order |
| Ranges.SplitAtCut | src/main.rs:164-169 | a run that is split is cut strictly inside it, leaving at least one circle on the left and at least two on the right |
| Ranges.Parted | src/main.rs:143-162 | definition only: the state the partition loop leaves a run in, the circles before the cursor below the midpoint plane of the run's largest axis and the rest not; `Ranges.PartedSides` and `Ranges.PartedHalves` state its properties |
| Ranges.Cut | src/main.rs:154-169 | definition only: a range the builder splits at a cursor, left partitioned around its split plane at that cursor; `Ranges.SameCutSlices` and `Ranges.CutKept` state its properties |
| Ranges.PartedSides | src/main.rs:154-162 | permuting each side of a partitioned run keeps it partitioned at the same cursor |
| Ranges.SideCounts | src/main.rs:154-162 | in a run split into a part below the plane and a part not below it, the first part holds every copy of each circle below the plane and the second every copy of each other circle |
| Ranges.SameSides | src/main.rs:154-162 | two runs holding the same circles, each split at the same place into a part below the plane and a part not below it, hold the same circles on each side |
| Ranges.PartedHalves | src/main.rs:154-162 | two partitioned runs holding the same circles, cut at the same place, hold the same circles on each side |
| Ranges.SameCut | src/main.rs:154-169 | two runs holding the same circles that are both split and partitioned are cut at the same place and hold the same circles on each side |
| Ranges.SameCutSlices | src/main.rs:154-169 | two circle lists whose range `[lo, hi)` holds the same circles, each split and partitioned in that range, are cut at the same index and hold the same circles on each side of it |
| Ranges.PartedKept | src/main.rs:189-190 | permuting the left side of a partitioned range and then its right side keeps it partitioned at the same cursor |
| Ranges.CutKept | src/main.rs:189-190 | permuting the left side of a split and partitioned range and then its right side keeps it split and partitioned at the same cursor |
| Ranges.SwapPermuted | src/main.rs:159 | swapping two positions inside a range permutes that range and leaves everything else |
| Ranges.SwapStep | src/main.rs:158-161 | one swap step of the partition keeps a permutation of the range, keeps the prefix before i, and leaves no circle below the plane from j on |
| Ranges.PartitionCount | src/main.rs:154-162 | a permuted range split at i into below and not-below parts has i - start circles below, as before the partition |
| Ranges.PermutedWiden | src/main.rs:154-162 | a permutation within a range is one within any enclosing range |
| Ranges.PermutedTrans | src/main.rs:154-162 | two permutations of the same range compose into one |
| Ranges.PermutedWhole | src/main.rs:204-220 | a permutation of the whole range has the same multiset of circles |
| Arena.Sound | src/main.rs:54-69 | a sound subtree covers a non-empty circle range that lies inside the circle list |
| Arena.Settled | src/main.rs:138-169 | definition only (the threshold test at 138-140 and the guard at 164-169): every leaf of the subtree holds at most the threshold of circles or is one the guard keeps; it is part of `Rebuild.Rebuilt` and of `Arena.Built`, and `Arena.SameLeaves` uses it |
| Arena.Divided | src/main.rs:124-202 | definition only: for every internal node of the subtree, the range from its left child's start to its right child's end is `Cut` where the left child ends. That range holds more circles than the threshold, the guard does not keep it, the cut is at its count below the midpoint plane of its largest axis, the left child's circles are below that plane and the right child's are not; `Arena.SameLeaves` and `Builder.BVH.Subdivide` state its consequences |
| Arena.Reach | src/main.rs:54-69 | a subtree's entries include its root and lie between its root and the end of the arena |
| Arena.WithBounds | src/main.rs:103-121 | the write through `bounds` in either arm: the node gets the new box, and its kind, its children and its range are kept |
| Arena.FreshBounds | src/main.rs:101-122 | definition only: the box `compute_bounds` writes, the union of the children's bounds for an internal node and the fold over the range for a leaf; `Builder.BVH.ComputeBounds` is proved against it and `Arena.SoundBounds` says what it means for a sound subtree |
| Arena.ChainAppend | src/main.rs:171-185 | two chains of ranges meeting at a point join into one chain |
| Arena.LeavesChain | src/main.rs:171-185 | the leaves of a sound subtree cut its range into consecutive non-empty ranges |
| Arena.ChainOrdered | src/main.rs:171-185 | the ranges of a chain come in increasing order |
| Arena.ChainWithin | src/main.rs:171-185 | every range of a chain lies within the chain's bounds |
| Arena.ChainCoversOnce | src/main.rs:171-185 | each position is in exactly one range of a chain over it exactly when it lies within the chain's bounds |
| Arena.SoundBounds | src/main.rs:101-122 | every node of a sound subtree has as bounds the box of all circles in its range |
| Arena.ReachSpan | src/main.rs:171-190 | every entry of a sound subtree is sound and covers part of the subtree's range |
| Arena.ChildrenDisjoint | src/main.rs:171-185 | the two subtrees of a sound internal node share no entry and do not contain the node |
| Arena.FrameShape | src/main.rs:124-202 | a subtree keeps its range and entries in any arena that agrees on its entries |
| Arena.Frame | src/main.rs:124-202 | a sound subtree stays sound and settled, with the same range and entries, when its entries and its circles are unchanged |
| Arena.FrameDivided | src/main.rs:124-202 | a sound, divided subtree stays divided in any arena and circle list that agree on its entries and on its circles |
| Arena.FrameSet | src/main.rs:200 | overwriting an entry before a subtree leaves that subtree's soundness, range, entries and bounds as they were, and the subtree is settled, and divided, after the overwrite exactly when it was before |
| Arena.Join | src/main.rs:192-201 | an internal node over two adjacent sound subtrees, bounded by the union of theirs, is sound over the joint range; it is settled exactly when both subtrees are |
| Arena.JoinDivided | src/main.rs:192-201 | an internal node over two adjacent subtrees is divided exactly when both subtrees are and its joint range is split, and partitioned around the split plane, where the left one ends |
| Arena.OrderedSet | src/main.rs:200 | overwriting an entry with a leaf, or with an internal node whose children come after it, keeps children after their parents |
| Arena.BuiltPartition | src/main.rs:204-220 | the leaves of a finished tree partition `[0, n)` into consecutive non-empty ranges, and every circle index lies in exactly one leaf |
| Arena.BuiltRootBounds | src/main.rs:204-220 | the root of a finished tree is bounded by the box of all circles |
| Arena.BuiltBoundsValid | src/main.rs:101-122 | over circles of non-negative radius, every node of a finished tree, leaf or internal, has a valid box, so `Ranges.SplitPlane` places its split plane inside it |
| Arena.LeafContents | src/main.rs:171-190 | one multiset of circles per leaf of the subtree, left to right, as many as there are leaves |
| Arena.ChildrenAlike | src/main.rs:171-190 | two divided internal nodes over the same range holding the same circles have left children over the same range holding the same circles, and likewise right children |
| Arena.SameLeaves | src/main.rs:124-202 | two sound, settled, divided subtrees over the same range of two circle lists that hold the same circles there, in any order, have the same leaf ranges, and each leaf holds the same circles in both |
| Arena.BuiltLeavesUnique | src/main.rs:204-220 | two finished trees over any two orderings of the same circles have the same leaf ranges, and each leaf holds the same circles in both, so the leaves of `BVH::new` depend only on which circles it is given |
| Rebuild.SmallRebuilt | src/main.rs:138-140 | a leaf of at most threshold circles is left as it is, with the circles untouched, and that is a complete call of `subdivide` |
| Rebuild.PartitionFacts | src/main.rs:143-169 | after the partition the cursor is before the range's end and the leaf's bounds are still right; the guard fires exactly when the leaf is unsplittable, before or after the permutation |
| Rebuild.GuardRebuilt | src/main.rs:164-169 | a leaf of more than threshold circles that the guard keeps stays in the arena unchanged while its circles may have been permuted, and that is a complete call of `subdivide` |
| Rebuild.ChildrenReady | src/main.rs:171-188 | the two pushed child leaves are sound and each holds fewer circles than the parent leaf, so the recursion terminates |
| Rebuild.RightStillReady | src/main.rs:189 | subdividing the left child leaves the right child as it was and sound |
| Rebuild.LeftChild | src/main.rs:189 | after the left child is subdivided, its subtree is sound and settled over `[start, i)`, its entries are it and the new ones, and only its circles moved |
| Rebuild.RightChildKeepsLeft | src/main.rs:190 | subdividing the right child leaves the left subtree, the older entries and the left circles unchanged |
| Rebuild.RightLeaf | src/main.rs:190 | before its own subdivision the right child is still the one-entry leaf over `[i, end)`, apart from the left subtree |
| Rebuild.RightSubtree | src/main.rs:190 | after the right child is subdivided, its subtree is sound and settled over `[i, end)`, with its old bounds, and its entries are it and the newly appended ones |
| Rebuild.RightChild | src/main.rs:190 | after both children are subdivided they are adjacent, sound, settled subtrees that together hold every appended entry, and only the leaf's circles moved |
| Rebuild.JoinNode | src/main.rs:192-201 | overwriting the leaf with an internal node over its children gives a sound, settled subtree over their joint range, made of the node and both subtrees |
| Rebuild.SplitBounds | src/main.rs:192-201 | the recomputed internal node has the leaf's old bounds |
| Rebuild.SplitEntries | src/main.rs:181-201 | the split leaf's new subtree is its entry plus every appended entry, and no other older entry changed |
| Rebuild.SplitReplaced | src/main.rs:192-201 | the split leaf is replaced by an internal node heading a sound, settled subtree over the same range, with the same bounds, and nothing else older changed |
| Rebuild.SplitRebuilt | src/main.rs:136-201 | a split leaf's call of `subdivide` turns it into an internal node and achieves everything `Rebuilt` says |
| Rebuild.KeepsOther | src/main.rs:130-134 | subdividing one subtree leaves any subtree with disjoint entries and circles as it was, keeping it sound and settled |
| Rebuild.InternalCompose | src/main.rs:125-135 | an unchanged internal node over children that are sound, settled, adjacent and bounded as before is a sound, settled subtree over its old range |
| Rebuild.InternalMid | src/main.rs:130-133 | after the left subtree is subdivided, the right one is still sound and smaller than the node |
| Rebuild.InternalKeeps | src/main.rs:130-134 | each of the two subdivisions leaves the other subtree and the internal node unchanged |
| Rebuild.InternalFinish | src/main.rs:125-135 | after both subdivisions the internal node's call of `subdivide` achieves everything `Rebuilt` says |
| Rebuild.InternalRebuilt | src/main.rs:125-135 | subdividing both subtrees of an internal node, without recomputing its bounds or rewriting its own entry, is a complete call of `subdivide` on it |
| Rebuild.EntriesCompose | src/main.rs:130-134 | the entries gained and kept by two subdivisions in a row are those of the node plus every appended one |
| Division.KeepsOtherDivided | src/main.rs:130-134 | subdividing one subtree keeps any subtree with disjoint entries and circles divided |
| Division.SplitDivided | src/main.rs:143-169 | a leaf range the builder does not stop at, partitioned on its split axis and plane with the cursor at its count below the plane, is `Cut` at that cursor: split there and partitioned there |
| Division.ChildrenDivided | src/main.rs:189-190 | subdividing the right child leaves the divided left subtree divided |
| Division.SplitLeafDivided | src/main.rs:171-201 | once both children of a split leaf are subdivided and divided, the leaf overwritten by an internal node over them is divided, given that its range was split and partitioned at the cursor |
| Division.SplitJoinDivided | src/main.rs:189-201 | an internal node written over two divided children, each of which only permuted its own side of a range split and partitioned at the cursor, is divided |
| Division.JoinNodeDivided | src/main.rs:192-201 | overwriting the leaf with an internal node over two adjacent divided subtrees gives a divided subtree when its range is split and partitioned where the left one ends |
| Division.DividedMid | src/main.rs:130-133 | after the left subtree of a divided internal node is subdivided, both of its subtrees are divided |
| Division.DividedEnd | src/main.rs:125-135 | after both subtrees of a divided internal node are subdivided, keeping each divided, the node is still divided: each side was only permuted within itself, so its range is still split and partitioned at the same cursor |
| Division.DividedLeftKept | src/main.rs:130-134 | subdividing the right subtree of a divided internal node keeps its left subtree divided |
| Division.DividedJoin | src/main.rs:125-135 | the internal node over two subtrees subdivided in turn, each left divided, is divided again |
| Builder.BVH.constructor | src/main.rs:204-220 | for a non-empty input the result is a finished tree over a permutation of the input circles: rooted at entry 0, every entry in the tree, sound over all circles, every leaf one the builder stops at, every internal node one it splits at the partition's cursor, with the circles below its split plane in its left subtree; an input of at most `LeafThreshold` circles gives the single root leaf over the circles as given |
| Builder.BVH.ComputeBounds | src/main.rs:101-122 | only entry `idx` changes, and it gets the folded box of its circles (leaf) or the union of its children's bounds (internal); the circles are untouched |
| Builder.BVH.Partition | src/main.rs:154-162 | the circles before the returned cursor are below the plane and those from it to `end` are not; only `[start, end)` is permuted; the cursor minus `start` is the number of circles below the plane |
| Builder.BVH.Swap | src/main.rs:159 | the two circles change places and nothing else changes |
| Builder.BVH.Subdivide | src/main.rs:124-202 | `Rebuilt`: the subtree is sound over the same range with the same bounds, every leaf is one the builder stops at, the arena only grew, older entries outside the subtree are unchanged, only the subtree's circles moved; a leaf the builder stops at leaves the arena unchanged, and one of at most the threshold of circles leaves the circles unchanged too; an internal node's own entry is not rewritten; a divided subtree stays divided, each internal node keeping the circles below its split plane on its left |
| Builder.BVH.SubdivideLeaf | src/main.rs:136-201 | `Rebuilt` for a leaf, in all three of the threshold, guard and split cases, and the leaf's new subtree is divided: a split leaf is cut at the partition's cursor, with the circles below its split plane on the left |
| Builder.BVH.SplitLeaf | src/main.rs:171-201 | called on a leaf range already split and partitioned at `i` (`Cut`), as `subdivide` reaches line 171: `Replaced`, the leaf becomes an internal node heading a sound, settled subtree over its range with its bounds, and no other older entry changes; the new subtree is divided |
| Builder.BVH.PushChildren | src/main.rs:171-188 | two leaves over `[start, i)` and `[i, end)` with their folded boxes are appended, and the arena is otherwise as before |
| Builder.RootLeaf | src/main.rs:204-214 | the seeded root leaf over all circles, with their folded box, is sound and divided |
| Builder.NewBuilt | src/main.rs:204-220 | a complete `subdivide` of the seeded root that leaves it divided gives a finished tree over a permutation of the circles, and the root leaf and circles as given when there are at most the threshold of them |
| Builder.FreshInternal | src/main.rs:197-201 | recomputing the bounds of a freshly written internal node gives it the union of its children's bounds |
| UsizePartition.PartitionAsWritten | src/main.rs:154-162 | with the cursor `j` as a `usize`, the loop underflows exactly when the range starts at 0 and no circle of it is below the plane; otherwise it ends as `Builder.BVH.Partition` does: the circles before the cursor are below the plane, those from it to `end` are not, only the range is permuted, and the cursor minus `start` counts the circles below |
| UsizePartition.NoneBelow | src/main.rs:154-162 | when no circle of a permutation of the range is below the plane, none of the original range is |
| UsizePartition.WitnessNoneBelow | src/main.rs:138-153 | the three witness circles, unit circles all at the origin, are more than the threshold `BVH::new` passes, so their root leaf reaches the partition; their box is split on x at 0 and none of them is below that plane |
| UsizePartition.NewWitnessUnderflows | src/main.rs:204-220 | the root leaf of `BVH::new` over the witness circles reaches the partition and it underflows |

## Left out

- Drawing: `AABB::draw`, `Circle::draw`, `BVHNode::draw`, `BVH::draw` and `view` are nannou rendering and hold no invariants.
- App plumbing: `main`, `model`, `update` and window creation.
- Scene generation: the random scene from `rand` is not modelled. The input circles are an arbitrary parameter.
- Floats: f32 coordinates and glam `Vec3` semantics (rounding, NaN, infinities) are modelled as exact reals.
- Builder.BVH.constructor: requires a non-empty input. On an empty input the source's first `compute_bounds` reads `circles[0]` and panics.
- Builder.BVH.ComputeBounds: requires `start < end` for a leaf. On an empty leaf the source would take the box of `circles[start]`. No such leaf is ever created on a non-empty input.
- Builder.BVH.Subdivide: stated only for a subtree that is already sound (correct bounds and chained ranges). That is how `BVH::new` and `subdivide` itself call it.
- Factoring: the partition loop, the pushing of the two children and the split are separate methods (`Partition`, `PushChildren`, `SplitLeaf`). They run the same statements in the same order as the single body of `subdivide`. `SplitLeaf` requires what holds when `subdivide` reaches line 171: the leaf's range partitioned and let through by the guard.
- Partition cursor: `Builder.BVH.Partition` uses a signed `j`, so the usize underflow is left out of the builder. It is modelled separately (see "Findings").
- Threshold comment: the comment at `src/main.rs:216` says leaves end with at most 4 elements. The code passes 2, and the model follows the code (`LeafThreshold`).
- Split comment: the comment at `src/main.rs:152` says "median circle". The code splits at the spatial midpoint of the box, and the model follows the code.
- Guard: the condition `i == end - 1 || i == start` also rejects a split that would leave exactly one circle on the right. It is modelled as written (`Ranges.Unsplittable`), so such a leaf is final even when it holds more than the threshold.

## Findings

| source | as written | input that shows it | evidently intended | confidence | as-written member | corrected member |
|---|---|---|---|---|---|---|
| src/main.rs:154-160 | `j` is a `usize` starting at `end - 1`, and `j -= 1` runs after every swap. When the leaf starts at index 0 and no circle is below the plane, `j` is decremented at 0. That overflows: a debug build panics, and in a release build `j` wraps and the next swap indexes out of bounds. | `BVH::new` on three unit circles all centred at the origin. The root box spans -1..1 on every axis, so the split is on x at 0, and no centre has x < 0 (`UsizePartition.NewWitnessUnderflows`). | the loop ends with `i == start`, and the guard at line 164, whose comment names the empty case, keeps the leaf | not executed | UsizePartition.PartitionAsWritten | Builder.BVH.Partition |
