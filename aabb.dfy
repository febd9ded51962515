/** The axis-aligned bounding box of AABB.hpp, over reals. The box is centred on
    its anchor horizontally and sits on it vertically. */
module BoundingBox {
  import opened Vectors

  class AABB {
    var min: Vec3
    var max: Vec3
    var dimensions: Vec3
    var position: Vec3

    /** A point lies in the closed box. */
    predicate Contains(p: Vec3)
      reads this
    {
      min.x <= p.x <= max.x && min.y <= p.y <= max.y && min.z <= p.z <= max.z
    }

    /** The box is not inverted on any axis. */
    predicate WellFormed()
      reads this
    {
      min.x <= max.x && min.y <= max.y && min.z <= max.z
    }

    /** Closed-interval overlap on x, y and z at once. */
    predicate IsColliding(other: AABB)
      reads this, other
    {
      (min.x <= other.max.x && max.x >= other.min.x) &&
      (min.y <= other.max.y && max.y >= other.min.y) &&
      (min.z <= other.max.z && max.z >= other.min.z)
    }

    /** Re-anchor the box at `p`; the dimensions stay as they are. */
    method Update(p: Vec3)
      modifies this
      ensures min == Vec3(p.x - old(dimensions).x / 2.0, p.y, p.z - old(dimensions).z / 2.0)
      ensures max == Vec3(p.x + old(dimensions).x / 2.0, p.y + old(dimensions).y, p.z + old(dimensions).z / 2.0)
      ensures position == p && dimensions == old(dimensions)
      ensures Sub(max, min) == dimensions
    {
      min := Vec3(p.x - dimensions.x / 2.0, p.y, p.z - dimensions.z / 2.0);
      max := Vec3(p.x + dimensions.x / 2.0, p.y + dimensions.y, p.z + dimensions.z / 2.0);
      position := p;
    }

    /** Half of the box's extent on every axis. */
    function GetHalfSize(): (h: Vec3)
      reads this
      ensures Add(h, h) == dimensions
    {
      Vec3(dimensions.x / 2.0, dimensions.y / 2.0, dimensions.z / 2.0)
    }

    /** AABB::Register(position, dimensions): a zeroed box given `d`, then anchored at `p`. */
    constructor Register(p: Vec3, d: Vec3)
      ensures dimensions == d && position == p
      ensures min == Vec3(p.x - d.x / 2.0, p.y, p.z - d.z / 2.0)
      ensures max == Vec3(p.x + d.x / 2.0, p.y + d.y, p.z + d.z / 2.0)
    {
      min, max, position := Zero, Zero, Zero;
      dimensions := d;
      new;
      Update(p);
    }

    /** AABB::Register(dimensions): the same box anchored at the origin. */
    constructor RegisterAtOrigin(d: Vec3)
      ensures dimensions == d && position == Zero
      ensures min == Vec3(-(d.x / 2.0), 0.0, -(d.z / 2.0))
      ensures max == Vec3(d.x / 2.0, d.y, d.z / 2.0)
    {
      min, max, position := Zero, Zero, Zero;
      dimensions := d;
      new;
      Update(Zero);
    }
  }

  /** Overlap is an iff with sharing a point, for boxes that are not inverted. */
  lemma CollidingIffCommonPoint(a: AABB, b: AABB)
    requires a.WellFormed() && b.WellFormed()
    ensures a.IsColliding(b) <==> exists p :: a.Contains(p) && b.Contains(p)
  {
    if a.IsColliding(b) {
      var p := Vec3(if a.min.x < b.min.x then b.min.x else a.min.x,
                    if a.min.y < b.min.y then b.min.y else a.min.y,
                    if a.min.z < b.min.z then b.min.z else a.min.z);
      assert a.Contains(p) && b.Contains(p);
    }
  }

  lemma CollidingIsSymmetric(a: AABB, b: AABB)
    ensures a.IsColliding(b) == b.IsColliding(a)
  {
  }

  /** A box with non-negative dimensions, anchored anywhere, collides with itself. */
  lemma AnchoredBoxCollidesWithItself(a: AABB)
    requires a.dimensions.x >= 0.0 && a.dimensions.y >= 0.0 && a.dimensions.z >= 0.0
    requires Sub(a.max, a.min) == a.dimensions
    ensures a.IsColliding(a)
  {
  }

  /** Boxes that only touch on a face still collide: the intervals are closed. */
  lemma TouchingBoxesCollide(a: AABB, b: AABB)
    requires a.WellFormed() && b.WellFormed()
    requires a.max.x == b.min.x
    requires a.min.y <= b.max.y && b.min.y <= a.max.y
    requires a.min.z <= b.max.z && b.min.z <= a.max.z
    ensures a.IsColliding(b)
  {
  }
}
