/** Vectors, axis-aligned bounding boxes and circle primitives of the BVH builder.
    Coordinates are reals: the builder's logic does not depend on f32 rounding. */
module Geometry {

  /** An axis index as the builder uses it: 0 is X, 1 is Y, 2 is Z. */
  type Axis = a: int | 0 <= a < 3

  function RMin(a: real, b: real): real { if a <= b then a else b }
  function RMax(a: real, b: real): real { if a >= b then a else b }

  datatype Vec3 = Vec3(x: real, y: real, z: real) {

    /** Component on axis `a` (`v[axis]`). */
    function At(a: Axis): real {
      if a == 0 then x else if a == 1 then y else z
    }

    /** Componentwise minimum and maximum. */
    function Min(o: Vec3): Vec3 { Vec3(RMin(x, o.x), RMin(y, o.y), RMin(z, o.z)) }
    function Max(o: Vec3): Vec3 { Vec3(RMax(x, o.x), RMax(y, o.y), RMax(z, o.z)) }

    /** Componentwise difference. */
    function Sub(o: Vec3): Vec3 { Vec3(x - o.x, y - o.y, z - o.z) }

    /** A scalar added to or subtracted from every component. */
    function AddScalar(r: real): Vec3 { Vec3(x + r, y + r, z + r) }
    function SubScalar(r: real): Vec3 { Vec3(x - r, y - r, z - r) }
  }

  /** Componentwise `u <= v`. */
  predicate Le(u: Vec3, v: Vec3) {
    u.x <= v.x && u.y <= v.y && u.z <= v.z
  }

  /** Two vectors that agree on every axis are equal. */
  lemma VecExt(u: Vec3, v: Vec3)
    requires forall a: Axis :: u.At(a) == v.At(a)
    ensures u == v
  {
    assert u.At(0) == v.At(0) && u.At(1) == v.At(1) && u.At(2) == v.At(2);
  }

  datatype AABB = AABB(lb: Vec3, ub: Vec3) {

    /** The lower corner is below the upper corner on every axis. */
    predicate Valid() { Le(lb, ub) }

    /** `inner` lies inside this box. */
    predicate Encloses(inner: AABB) {
      Le(lb, inner.lb) && Le(inner.ub, ub)
    }

    /** `ub - lb`. */
    function Extent(): Vec3 { ub.Sub(lb) }

    /** Componentwise min of the lower corners and max of the upper corners:
        a box that encloses both operands (`UnionLeast`: the least one). */
    function Union(other: AABB): (r: AABB)
      ensures r.Encloses(this) && r.Encloses(other)
    {
      AABB(lb.Min(other.lb), ub.Max(other.ub))
    }
  }

  /** `AABB::default()`: both corners at the origin. */
  const DefaultBox: AABB := AABB(Vec3(0.0, 0.0, 0.0), Vec3(0.0, 0.0, 0.0))

  /** Every box that encloses both operands encloses their union. */
  lemma UnionLeast(a: AABB, b: AABB, c: AABB)
    requires c.Encloses(a) && c.Encloses(b)
    ensures c.Encloses(a.Union(b))
  {
  }

  /** Each face of the union is the corresponding face of one operand. */
  lemma UnionFaces(a: AABB, b: AABB)
    ensures forall x: Axis :: a.Union(b).lb.At(x) == a.lb.At(x) || a.Union(b).lb.At(x) == b.lb.At(x)
    ensures forall x: Axis :: a.Union(b).ub.At(x) == a.ub.At(x) || a.Union(b).ub.At(x) == b.ub.At(x)
  {
  }

  lemma UnionCommutative(a: AABB, b: AABB)
    ensures a.Union(b) == b.Union(a)
  {
  }

  lemma UnionAssociative(a: AABB, b: AABB, c: AABB)
    ensures a.Union(b).Union(c) == a.Union(b.Union(c))
  {
  }

  datatype Circle = Circle(translation: Vec3, radius: real) {

    /** The box `translation - radius .. translation + radius` on all axes:
        a cube centred on the translation, with side twice the radius. */
    function Aabb(): (r: AABB)
      ensures forall a: Axis :: r.lb.At(a) + r.ub.At(a) == 2.0 * translation.At(a)
      ensures forall a: Axis :: r.ub.At(a) - r.lb.At(a) == 2.0 * radius
      ensures r.Valid() <==> radius >= 0.0
    {
      AABB(translation.SubScalar(radius), translation.AddScalar(radius))
    }
  }
}
