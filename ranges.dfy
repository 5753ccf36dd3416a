/** What the builder computes from a contiguous range of circles: the box of
    the range (the fold of `compute_bounds`), the split choice of `subdivide`,
    and how many circles lie below a split plane. */
module Ranges {
  import opened Geometry

  /** The union of the boxes of a non-empty run of circles, folded left to
      right exactly as `compute_bounds` folds a leaf's range. */
  function SeqBox(s: seq<Circle>): AABB
    requires |s| > 0
    decreases |s|
  {
    if |s| == 1 then s[0].Aabb()
    else SeqBox(s[..|s| - 1]).Union(s[|s| - 1].Aabb())
  }

  /** The leaf fold encloses the box of every circle it folds. */
  lemma {:induction false} SeqBoxEncloses(s: seq<Circle>)
    requires |s| > 0
    ensures forall k :: 0 <= k < |s| ==> SeqBox(s).Encloses(s[k].Aabb())
    decreases |s|
  {
    if |s| > 1 {
      var p := s[..|s| - 1];
      SeqBoxEncloses(p);
      forall k | 0 <= k < |s| ensures SeqBox(s).Encloses(s[k].Aabb()) {
        if k < |s| - 1 {
          assert p[k] == s[k];
        }
      }
    }
  }

  /** Circles of non-negative radius fold to a valid box: on every axis its
      lower corner is at most its upper corner. */
  lemma SeqBoxValid(s: seq<Circle>)
    requires |s| > 0 && forall k :: 0 <= k < |s| ==> s[k].radius >= 0.0
    ensures SeqBox(s).Valid()
  {
    SeqBoxEncloses(s);
    assert s[0].Aabb().Valid();
  }

  /** `b` encloses the box of every circle of `s`, and each of its six faces is
      reached by the box of some circle of `s`: `b` is the tightest box of `s`. */
  ghost predicate Tight(b: AABB, s: seq<Circle>) {
    (forall k :: 0 <= k < |s| ==> b.Encloses(s[k].Aabb()))
    && (forall a: Axis :: FacesReached(b, s, a))
  }

  /** On axis `a`, some circle's box reaches the lower face of `b` and some
      circle's box reaches its upper face. */
  ghost predicate FacesReached(b: AABB, s: seq<Circle>, a: Axis) {
    (exists k :: 0 <= k < |s| && b.lb.At(a) == s[k].Aabb().lb.At(a))
    && (exists k :: 0 <= k < |s| && b.ub.At(a) == s[k].Aabb().ub.At(a))
  }

  /** Every face of the leaf fold is reached by one of the folded boxes. */
  lemma {:induction false} SeqBoxTight(s: seq<Circle>)
    requires |s| > 0
    ensures Tight(SeqBox(s), s)
    decreases |s|
  {
    SeqBoxEncloses(s);
    if |s| > 1 {
      var p := s[..|s| - 1];
      SeqBoxTight(p);
      var b := SeqBox(s);
      UnionFaces(SeqBox(p), s[|s| - 1].Aabb());
      forall a: Axis ensures FacesReached(b, s, a) {
        assert FacesReached(SeqBox(p), p, a);
        var kl :| 0 <= kl < |p| && SeqBox(p).lb.At(a) == p[kl].Aabb().lb.At(a);
        var ku :| 0 <= ku < |p| && SeqBox(p).ub.At(a) == p[ku].Aabb().ub.At(a);
        assert p[kl] == s[kl] && p[ku] == s[ku];
        if b.lb.At(a) == SeqBox(p).lb.At(a) {
          assert b.lb.At(a) == s[kl].Aabb().lb.At(a);
        } else {
          assert b.lb.At(a) == s[|s| - 1].Aabb().lb.At(a);
        }
        if b.ub.At(a) == SeqBox(p).ub.At(a) {
          assert b.ub.At(a) == s[ku].Aabb().ub.At(a);
        } else {
          assert b.ub.At(a) == s[|s| - 1].Aabb().ub.At(a);
        }
      }
    }
  }

  /** A tightest box depends only on the set of circles: two runs holding the
      same circles have the same tightest box. */
  lemma TightUnique(b1: AABB, s: seq<Circle>, b2: AABB, t: seq<Circle>)
    requires Tight(b1, s) && Tight(b2, t)
    requires forall c :: c in s <==> c in t
    ensures b1 == b2
  {
    forall a: Axis
      ensures b1.lb.At(a) == b2.lb.At(a) && b1.ub.At(a) == b2.ub.At(a)
    {
      TightFace(b1, s, b2, t, a);
      TightFace(b2, t, b1, s, a);
    }
    VecExt(b1.lb, b2.lb);
    VecExt(b1.ub, b2.ub);
  }

  /** One direction of TightUnique for one axis: the faces of `b2` are no
      tighter than those of `b1`. */
  lemma TightFace(b1: AABB, s: seq<Circle>, b2: AABB, t: seq<Circle>, a: Axis)
    requires Tight(b1, s) && Tight(b2, t)
    requires forall c :: c in s ==> c in t
    ensures b2.lb.At(a) <= b1.lb.At(a) && b1.ub.At(a) <= b2.ub.At(a)
  {
    assert FacesReached(b1, s, a);
    var kl :| 0 <= kl < |s| && b1.lb.At(a) == s[kl].Aabb().lb.At(a);
    var ku :| 0 <= ku < |s| && b1.ub.At(a) == s[ku].Aabb().ub.At(a);
    EnclosedFace(b2, t, s[kl], a);
    EnclosedFace(b2, t, s[ku], a);
  }

  /** A box enclosing every box of `t` is no tighter, on axis `a`, than the
      box of any circle of `t`. */
  lemma EnclosedFace(b: AABB, t: seq<Circle>, c: Circle, a: Axis)
    requires forall k :: 0 <= k < |t| ==> b.Encloses(t[k].Aabb())
    requires c in t
    ensures b.lb.At(a) <= c.Aabb().lb.At(a) && c.Aabb().ub.At(a) <= b.ub.At(a)
  {
    var m :| 0 <= m < |t| && t[m] == c;
    assert Le(b.lb, c.Aabb().lb) && Le(c.Aabb().ub, b.ub);
  }

  /** The leaf fold does not depend on the order of the circles, so a leaf's
      bounds stay correct when its range is permuted in place. */
  lemma SeqBoxPermutation(s: seq<Circle>, t: seq<Circle>)
    requires |s| > 0 && multiset(s) == multiset(t)
    ensures |t| > 0 && SeqBox(s) == SeqBox(t)
  {
    assert |t| == |multiset(t)| == |multiset(s)| == |s|;
    forall c ensures c in s <==> c in t {
      assert c in s <==> c in multiset(s);
      assert c in t <==> c in multiset(t);
    }
    SeqBoxTight(s);
    SeqBoxTight(t);
    TightUnique(SeqBox(s), s, SeqBox(t), t);
  }

  /** The box of two adjacent runs is the union of their boxes: an internal
      node's bounds are the box of all circles beneath it. */
  lemma SeqBoxAppend(s: seq<Circle>, t: seq<Circle>)
    requires |s| > 0 && |t| > 0
    ensures SeqBox(s + t) == SeqBox(s).Union(SeqBox(t))
  {
    var st := s + t;
    var u := SeqBox(s).Union(SeqBox(t));
    SeqBoxTight(s);
    SeqBoxTight(t);
    SeqBoxTight(st);
    UnionFaces(SeqBox(s), SeqBox(t));
    forall k | 0 <= k < |st| ensures u.Encloses(st[k].Aabb()) {
      if k < |s| {
        assert st[k] == s[k];
        assert SeqBox(s).Encloses(s[k].Aabb());
      } else {
        assert st[k] == t[k - |s|];
        assert SeqBox(t).Encloses(t[k - |s|].Aabb());
      }
    }
    forall a: Axis ensures FacesReached(u, st, a) {
      assert FacesReached(SeqBox(s), s, a) && FacesReached(SeqBox(t), t, a);
      var sl :| 0 <= sl < |s| && SeqBox(s).lb.At(a) == s[sl].Aabb().lb.At(a);
      var tl :| 0 <= tl < |t| && SeqBox(t).lb.At(a) == t[tl].Aabb().lb.At(a);
      var su :| 0 <= su < |s| && SeqBox(s).ub.At(a) == s[su].Aabb().ub.At(a);
      var tu :| 0 <= tu < |t| && SeqBox(t).ub.At(a) == t[tu].Aabb().ub.At(a);
      assert st[sl] == s[sl] && st[su] == s[su];
      assert st[|s| + tl] == t[tl] && st[|s| + tu] == t[tu];
      if u.lb.At(a) == SeqBox(s).lb.At(a) {
        assert u.lb.At(a) == st[sl].Aabb().lb.At(a);
      } else {
        assert u.lb.At(a) == st[|s| + tl].Aabb().lb.At(a);
      }
      if u.ub.At(a) == SeqBox(s).ub.At(a) {
        assert u.ub.At(a) == st[su].Aabb().ub.At(a);
      } else {
        assert u.ub.At(a) == st[|s| + tu].Aabb().ub.At(a);
      }
    }
    assert Tight(u, st);
    TightUnique(u, st, SeqBox(st), st);
  }

  /** The box of a range split at `i` is the union of the boxes of its two
      parts. */
  lemma SeqBoxSplit(c: seq<Circle>, s: int, i: int, e: int)
    requires 0 <= s < i < e <= |c|
    ensures SeqBox(c[s..i]).Union(SeqBox(c[i..e])) == SeqBox(c[s..e])
  {
    assert c[s..e] == c[s..i] + c[i..e];
    SeqBoxAppend(c[s..i], c[i..e]);
  }

  /** The split axis of `subdivide`: X, replaced by Y when Y's extent is
      strictly larger, then by Z when Z's extent is strictly larger than the
      current choice's. The result is the first axis of largest extent. */
  function SplitAxis(b: AABB): Axis {
    var extent := b.Extent();
    var axis: Axis := if extent.y > extent.x then 1 else 0;
    if extent.z > extent.At(axis) then 2 else axis
  }

  /** The split axis has the largest extent, and no earlier axis has as large
      an extent. */
  lemma SplitAxisLargest(b: AABB)
    ensures forall k: Axis :: b.Extent().At(k) <= b.Extent().At(SplitAxis(b))
    ensures forall k: Axis :: k < SplitAxis(b) ==> b.Extent().At(k) < b.Extent().At(SplitAxis(b))
  {
  }

  /** The split plane: the spatial midpoint of the box on axis `a`. */
  function SplitPlane(b: AABB, a: Axis): (p: real)
    ensures p - b.lb.At(a) == b.ub.At(a) - p
    ensures b.Valid() ==> b.lb.At(a) <= p <= b.ub.At(a)
  {
    b.lb.At(a) + b.Extent().At(a) / 2.0
  }

  /** The partition test: the circle's centre is strictly below the plane. */
  predicate Below(c: Circle, a: Axis, p: real) {
    c.translation.At(a) < p
  }

  /** Number of circles of `s` below the plane `p` on axis `a`. */
  function CountBelow(s: seq<Circle>, a: Axis, p: real): (n: nat)
    ensures n <= |s|
    decreases |s|
  {
    if s == [] then 0
    else CountBelow(s[..|s| - 1], a, p) + (if Below(s[|s| - 1], a, p) then 1 else 0)
  }

  lemma {:induction false} CountBelowAppend(s: seq<Circle>, t: seq<Circle>, a: Axis, p: real)
    ensures CountBelow(s + t, a, p) == CountBelow(s, a, p) + CountBelow(t, a, p)
    decreases |t|
  {
    if t == [] {
      assert s + t == s;
    } else {
      assert (s + t)[..|s + t| - 1] == s + t[..|t| - 1];
      CountBelowAppend(s, t[..|t| - 1], a, p);
    }
  }

  /** A run split into a part wholly below the plane and a part wholly at or
      above it has exactly the first part's length below the plane. */
  lemma CountBelowSplit(s: seq<Circle>, m: nat, a: Axis, p: real)
    requires m <= |s|
    requires forall k :: 0 <= k < m ==> Below(s[k], a, p)
    requires forall k :: m <= k < |s| ==> !Below(s[k], a, p)
    ensures CountBelow(s, a, p) == m
  {
    CountAll(s[..m], a, p, true);
    CountAll(s[m..], a, p, false);
    assert s == s[..m] + s[m..];
    CountBelowAppend(s[..m], s[m..], a, p);
  }

  /** When the test gives the same answer for every circle, the count is all or
      nothing. */
  lemma {:induction false} CountAll(s: seq<Circle>, a: Axis, p: real, below: bool)
    requires forall k :: 0 <= k < |s| ==> Below(s[k], a, p) == below
    ensures CountBelow(s, a, p) == if below then |s| else 0
    decreases |s|
  {
    if s != [] {
      CountAll(s[..|s| - 1], a, p, below);
    }
  }

  /** The count below the plane does not depend on the order of the circles. */
  lemma {:induction false} CountBelowPermutation(s: seq<Circle>, t: seq<Circle>, a: Axis, p: real)
    requires multiset(s) == multiset(t)
    ensures CountBelow(s, a, p) == CountBelow(t, a, p)
    decreases |s|
  {
    assert |t| == |multiset(t)| == |multiset(s)| == |s|;
    if s != [] {
      var x := s[|s| - 1];
      var s' := s[..|s| - 1];
      assert s == s' + [x];
      assert x in multiset(t);
      var k :| 0 <= k < |t| && t[k] == x;
      var t' := t[..k] + t[k + 1..];
      CountBelowRemove(t, k, a, p);
      assert multiset(s') == multiset(s) - multiset{x};
      CountBelowPermutation(s', t', a, p);
    }
  }

  /** Taking the circle at `k` out of `t` takes its own share out of the count
      and out of the multiset. */
  lemma CountBelowRemove(t: seq<Circle>, k: nat, a: Axis, p: real)
    requires k < |t|
    ensures multiset(t[..k] + t[k + 1..]) == multiset(t) - multiset{t[k]}
    ensures CountBelow(t, a, p) == CountBelow(t[..k] + t[k + 1..], a, p) + (if Below(t[k], a, p) then 1 else 0)
  {
    var x := t[k];
    assert t == t[..k] + [x] + t[k + 1..];
    CountBelowAppend(t[..k] + [x], t[k + 1..], a, p);
    CountBelowAppend(t[..k], [x], a, p);
    CountBelowAppend(t[..k], t[k + 1..], a, p);
    assert [x][..0] == [];
  }

  /** Whatever the axis, the circle whose box reaches the upper face of the
      range's box is not below the midpoint plane of that axis: the partition
      never puts a whole leaf on the "below" side. */
  lemma SomeNotBelow(s: seq<Circle>, a: Axis)
    requires |s| > 0
    ensures exists k :: 0 <= k < |s| && !Below(s[k], a, SplitPlane(SeqBox(s), a))
    ensures CountBelow(s, a, SplitPlane(SeqBox(s), a)) < |s|
  {
    var b := SeqBox(s);
    SeqBoxTight(s);
    assert FacesReached(b, s, a);
    var k :| 0 <= k < |s| && b.ub.At(a) == s[k].Aabb().ub.At(a);
    assert b.Encloses(s[k].Aabb());
    assert Le(b.lb, s[k].Aabb().lb);
    assert b.lb.At(a) <= s[k].Aabb().lb.At(a);
    assert !Below(s[k], a, SplitPlane(b, a));
    CountBelowNotAll(s, a, SplitPlane(b, a), k);
  }

  /** A run with one circle at or above the plane is not wholly below it. */
  lemma {:induction false} CountBelowNotAll(s: seq<Circle>, a: Axis, p: real, k: nat)
    requires k < |s| && !Below(s[k], a, p)
    ensures CountBelow(s, a, p) < |s|
    decreases |s|
  {
    if k < |s| - 1 {
      CountBelowNotAll(s[..|s| - 1], a, p, k);
    }
  }

  /** A leaf `subdivide` refuses to split: after the partition on the split
      axis at the midpoint plane, the cursor would sit at the range's start
      (nothing below) or at its last element (one circle at or above). */
  ghost predicate Unsplittable(s: seq<Circle>)
    requires |s| > 0
  {
    var b := SeqBox(s);
    var a := SplitAxis(b);
    var n := CountBelow(s, a, SplitPlane(b, a));
    n == 0 || n == |s| - 1
  }

  /** Whether a leaf is unsplittable depends only on which circles it holds. */
  lemma UnsplittablePermutation(s: seq<Circle>, t: seq<Circle>)
    requires |s| > 0 && multiset(s) == multiset(t)
    ensures |t| > 0 && (Unsplittable(s) <==> Unsplittable(t))
  {
    SeqBoxPermutation(s, t);
    var b := SeqBox(s);
    var a := SplitAxis(b);
    CountBelowPermutation(s, t, a, SplitPlane(b, a));
    assert |t| == |s| by {
      assert |multiset(s)| == |s| && |multiset(t)| == |t|;
    }
  }

  /** A run of circles `subdivide` splits with threshold `t` at cut `m`: it
      holds more than `t` circles, the guard does not keep it, and `m` of its
      circles are below the split plane of its box, so the partition cursor
      stops `m` past the run's start. */
  ghost predicate SplitAt(s: seq<Circle>, m: int, t: nat) {
    |s| > t && |s| > 0 && !Unsplittable(s)
    && var b := SeqBox(s); var a := SplitAxis(b);
    m == CountBelow(s, a, SplitPlane(b, a))
  }

  /** The range `[lo, hi)` of `cs` is split by `subdivide` at `mid` and
      partitioned there. */
  ghost predicate Cut(cs: seq<Circle>, lo: int, mid: int, hi: int, t: nat) {
    0 <= lo <= mid <= hi <= |cs| && SplitAt(cs[lo..hi], mid - lo, t) && Parted(cs[lo..hi], mid - lo)
  }

  /** Whether and where a run is split depends only on which circles it
      holds. */
  lemma SplitAtPermutation(s: seq<Circle>, u: seq<Circle>, m: int, t: nat)
    requires multiset(s) == multiset(u)
    ensures SplitAt(s, m, t) <==> SplitAt(u, m, t)
  {
    assert |s| == |u| by {
      assert |multiset(s)| == |s| && |multiset(u)| == |u|;
    }
    if |s| > 0 {
      UnsplittablePermutation(s, u);
      SeqBoxPermutation(s, u);
      var b := SeqBox(s);
      var a := SplitAxis(b);
      CountBelowPermutation(s, u, a, SplitPlane(b, a));
    }
  }

  /** A split run is cut into a non-empty left part and a right part of at
      least two circles. */
  lemma SplitAtCut(s: seq<Circle>, m: int, t: nat)
    requires SplitAt(s, m, t)
    ensures 0 < m < |s| - 1
  {
    SomeNotBelow(s, SplitAxis(SeqBox(s)));
  }

  /** The run `s` is partitioned at `m` around its own split plane: its
      first `m` circles are below the midpoint plane of its box's split axis
      and the rest are not, as the partition loop leaves a leaf's range. */
  ghost predicate Parted(s: seq<Circle>, m: int) {
    |s| > 0 && 0 <= m <= |s|
    && var b := SeqBox(s); var a := SplitAxis(b); var p := SplitPlane(b, a);
    (forall k :: 0 <= k < m ==> Below(s[k], a, p))
    && (forall k :: m <= k < |s| ==> !Below(s[k], a, p))
  }

  /** Permuting each side of a partitioned run keeps it partitioned: the
      run's box, and so its plane, do not change. */
  lemma PartedSides(s: seq<Circle>, u: seq<Circle>, m: int)
    requires Parted(s, m) && |u| == |s|
    requires multiset(s[..m]) == multiset(u[..m]) && multiset(s[m..]) == multiset(u[m..])
    ensures Parted(u, m)
  {
    assert s == s[..m] + s[m..] && u == u[..m] + u[m..];
    SeqBoxPermutation(s, u);
    var b := SeqBox(s);
    var a := SplitAxis(b);
    var p := SplitPlane(b, a);
    forall k | 0 <= k < m ensures Below(u[k], a, p) {
      assert u[..m][k] in multiset(s[..m]);
      var j :| 0 <= j < m && s[..m][j] == u[k];
    }
    forall k | m <= k < |u| ensures !Below(u[k], a, p) {
      assert u[m..][k - m] in multiset(s[m..]);
      var j :| 0 <= j < |s| - m && s[m..][j] == u[k];
    }
  }

  /** In a run split into a part below the plane and a part not below it,
      the first part holds every copy of each circle below the plane and the
      second part every copy of each other circle. */
  lemma SideCounts(s: seq<Circle>, m: int, a: Axis, p: real)
    requires 0 <= m <= |s|
    requires forall k :: 0 <= k < m ==> Below(s[k], a, p)
    requires forall k :: m <= k < |s| ==> !Below(s[k], a, p)
    ensures forall x :: multiset(s[..m])[x] == if Below(x, a, p) then multiset(s)[x] else 0
    ensures forall x :: multiset(s[m..])[x] == if Below(x, a, p) then 0 else multiset(s)[x]
  {
    assert s == s[..m] + s[m..];
  }

  /** Two partitioned runs holding the same circles, and cut at the same
      place, hold the same circles on each side: the partition decides which
      circles go left. */
  lemma PartedHalves(s: seq<Circle>, u: seq<Circle>, m: int)
    requires Parted(s, m) && Parted(u, m) && multiset(s) == multiset(u)
    ensures multiset(s[..m]) == multiset(u[..m]) && multiset(s[m..]) == multiset(u[m..])
  {
    SeqBoxPermutation(s, u);
    var a := SplitAxis(SeqBox(s));
    SameSides(s, u, m, a, SplitPlane(SeqBox(s), a));
  }

  /** Two runs holding the same circles, each split at `m` into a part below
      the plane and a part not below it, hold the same circles on each
      side. */
  lemma SameSides(s: seq<Circle>, u: seq<Circle>, m: int, a: Axis, p: real)
    requires multiset(s) == multiset(u) && 0 <= m <= |s| && m <= |u|
    requires forall k :: 0 <= k < m ==> Below(s[k], a, p)
    requires forall k :: m <= k < |s| ==> !Below(s[k], a, p)
    requires forall k :: 0 <= k < m ==> Below(u[k], a, p)
    requires forall k :: m <= k < |u| ==> !Below(u[k], a, p)
    ensures multiset(s[..m]) == multiset(u[..m]) && multiset(s[m..]) == multiset(u[m..])
  {
    SideCounts(s, m, a, p);
    SideCounts(u, m, a, p);
    assert multiset(s[..m]) == multiset(u[..m]) by {
      forall x ensures multiset(s[..m])[x] == multiset(u[..m])[x] {
      }
    }
    assert multiset(s[m..]) == multiset(u[m..]) by {
      forall x ensures multiset(s[m..])[x] == multiset(u[m..])[x] {
      }
    }
  }

  /** Two runs holding the same circles, both split and partitioned, are cut
      at the same place and hold the same circles on each side. */
  lemma SameCut(s: seq<Circle>, u: seq<Circle>, m: int, m': int, t: nat)
    requires multiset(s) == multiset(u)
    requires SplitAt(s, m, t) && Parted(s, m) && SplitAt(u, m', t) && Parted(u, m')
    ensures m == m' && multiset(s[..m]) == multiset(u[..m]) && multiset(s[m..]) == multiset(u[m..])
  {
    SeqBoxPermutation(s, u);
    var a := SplitAxis(SeqBox(s));
    CountBelowPermutation(s, u, a, SplitPlane(SeqBox(s), a));
    PartedHalves(s, u, m);
  }

  /** `SameCut` on the range `[lo, hi)` of two circle sequences, cut at
      `mid` and `mid'`. */
  lemma SameCutSlices(cs: seq<Circle>, cs': seq<Circle>, lo: int, mid: int, mid': int, hi: int, t: nat)
    requires Cut(cs, lo, mid, hi, t) && Cut(cs', lo, mid', hi, t)
    requires multiset(cs[lo..hi]) == multiset(cs'[lo..hi])
    ensures mid == mid'
    ensures multiset(cs[lo..mid]) == multiset(cs'[lo..mid]) && multiset(cs[mid..hi]) == multiset(cs'[mid..hi])
  {
    SameCut(cs[lo..hi], cs'[lo..hi], mid - lo, mid' - lo, t);
    assert cs[lo..hi][..mid - lo] == cs[lo..mid] && cs'[lo..hi][..mid - lo] == cs'[lo..mid];
    assert cs[lo..hi][mid - lo..] == cs[mid..hi] && cs'[lo..hi][mid - lo..] == cs'[mid..hi];
  }

  /** Permuting `[lo, mid)` and then `[mid, hi)` keeps `[lo, hi)`
      partitioned at `mid`. */
  lemma PartedKept(c0: seq<Circle>, c1: seq<Circle>, c2: seq<Circle>, lo: int, mid: int, hi: int)
    requires Permuted(c0, c1, lo, mid) && Permuted(c1, c2, mid, hi)
    requires Parted(c0[lo..hi], mid - lo)
    ensures Parted(c2[lo..hi], mid - lo)
  {
    assert c2[lo..mid] == c1[lo..mid];
    assert c1[mid..hi] == c0[mid..hi];
    assert c0[lo..hi][..mid - lo] == c0[lo..mid] && c0[lo..hi][mid - lo..] == c0[mid..hi];
    assert c2[lo..hi][..mid - lo] == c2[lo..mid] && c2[lo..hi][mid - lo..] == c2[mid..hi];
    PartedSides(c0[lo..hi], c2[lo..hi], mid - lo);
  }

  /** Permuting `[lo, mid)` and then `[mid, hi)` keeps `[lo, hi)` split and
      partitioned at `mid`. */
  lemma CutKept(c0: seq<Circle>, c1: seq<Circle>, c2: seq<Circle>, lo: int, mid: int, hi: int, t: nat)
    requires Permuted(c0, c1, lo, mid) && Permuted(c1, c2, mid, hi) && Cut(c0, lo, mid, hi, t)
    ensures Cut(c2, lo, mid, hi, t)
  {
    PartedKept(c0, c1, c2, lo, mid, hi);
    PermutedWiden(c0, c1, lo, mid, lo, hi);
    PermutedWiden(c1, c2, mid, hi, lo, hi);
    SplitAtPermutation(c0[lo..hi], c2[lo..hi], mid - lo, t);
  }

  /** `t` is `s` with only the range `[lo, hi)` permuted. */
  ghost predicate Permuted(s: seq<Circle>, t: seq<Circle>, lo: int, hi: int) {
    0 <= lo <= hi <= |s| == |t|
    && (forall k :: 0 <= k < |s| && !(lo <= k < hi) ==> t[k] == s[k])
    && multiset(s[lo..hi]) == multiset(t[lo..hi])
  }

  /** Swapping two positions of a range permutes that range. */
  lemma SwapPermuted(s: seq<Circle>, t: seq<Circle>, lo: int, hi: int, i: int, j: int)
    requires 0 <= lo <= i <= j < hi <= |s| == |t|
    requires t == s[i := s[j]][j := s[i]]
    ensures Permuted(s, t, lo, hi)
  {
    assert t[lo..hi] == s[lo..hi][i - lo := s[j]][j - lo := s[i]];
  }

  /** A permutation of `c0`'s range `[lo, hi)` whose circles before `i` are
      below the plane and whose circles from `i` on are not has `i - lo`
      circles of the range below the plane, as `c0` has. */
  lemma PartitionCount(c0: seq<Circle>, c: seq<Circle>, lo: int, hi: int, i: int, a: Axis, p: real)
    requires Permuted(c0, c, lo, hi) && lo <= i <= hi
    requires forall k :: lo <= k < i ==> Below(c[k], a, p)
    requires forall k :: i <= k < hi ==> !Below(c[k], a, p)
    ensures i - lo == CountBelow(c0[lo..hi], a, p)
  {
    var s := c[lo..hi];
    assert forall k :: 0 <= k < i - lo ==> Below(s[k], a, p) by {
      forall k | 0 <= k < i - lo ensures Below(s[k], a, p) {
        assert s[k] == c[lo + k];
      }
    }
    assert forall k :: i - lo <= k < |s| ==> !Below(s[k], a, p) by {
      forall k | i - lo <= k < |s| ensures !Below(s[k], a, p) {
        assert s[k] == c[lo + k];
      }
    }
    CountBelowSplit(s, i - lo, a, p);
    CountBelowPermutation(c0[lo..hi], s, a, p);
  }

  /** One swap of the partition loop: the circle at `i`, not below the
      plane, changes places with the one at `j`. The range stays a
      permutation of `c0`'s, the circles before `i` stay where they are, and
      the circles from `j` on are not below the plane. */
  lemma SwapStep(c0: seq<Circle>, s: seq<Circle>, t: seq<Circle>, lo: int, hi: int, i: int, j: int,
                 a: Axis, p: real)
    requires lo <= i <= j < hi && Permuted(c0, s, lo, hi)
    requires forall k :: j < k < hi ==> !Below(s[k], a, p)
    requires !Below(s[i], a, p)
    requires t == s[i := s[j]][j := s[i]]
    ensures Permuted(c0, t, lo, hi)
    ensures forall k :: lo <= k < i ==> t[k] == s[k]
    ensures forall k :: j <= k < hi ==> !Below(t[k], a, p)
  {
    SwapPermuted(s, t, lo, hi, i, j);
    PermutedTrans(c0, s, t, lo, hi);
  }

  /** A permutation inside a range is also one inside any wider range. */
  lemma PermutedWiden(s: seq<Circle>, t: seq<Circle>, lo: int, hi: int, lo': int, hi': int)
    requires Permuted(s, t, lo, hi)
    requires 0 <= lo' <= lo && hi <= hi' <= |s|
    ensures Permuted(s, t, lo', hi')
  {
    assert s[lo'..hi'] == s[lo'..lo] + s[lo..hi] + s[hi..hi'];
    assert t[lo'..hi'] == t[lo'..lo] + t[lo..hi] + t[hi..hi'];
    assert s[lo'..lo] == t[lo'..lo];
    assert s[hi..hi'] == t[hi..hi'];
  }

  lemma PermutedTrans(s: seq<Circle>, t: seq<Circle>, u: seq<Circle>, lo: int, hi: int)
    requires Permuted(s, t, lo, hi) && Permuted(t, u, lo, hi)
    ensures Permuted(s, u, lo, hi)
  {
  }

  /** A permutation of a range is a permutation of the whole sequence. */
  lemma PermutedWhole(s: seq<Circle>, t: seq<Circle>, lo: int, hi: int)
    requires Permuted(s, t, lo, hi)
    ensures multiset(s) == multiset(t)
  {
    PermutedWiden(s, t, lo, hi, 0, |s|);
    assert s[0..|s|] == s && t[0..|t|] == t;
  }
}
