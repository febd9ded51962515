/** Transform (real) and TransformI (integer) from Transform.hpp and
    TransformI.hpp. Both use the pivot sentinel (-1,-1,-1): registering with it
    places the pivot at the position. */
module Transforms {
  import opened Vectors

  const Sentinel := Vec3(-1.0, -1.0, -1.0)
  const SentinelI := IVec3(-1, -1, -1)

  class Transform {
    var position: Vec3
    var rotation: Vec3
    var scale: Vec3
    var right: Vec3
    var up: Vec3
    var pivot: Vec3

    /** Transform::Register: copies position, rotation and scale; resolves the pivot sentinel. */
    constructor Register(position: Vec3, rotation: Vec3, scale: Vec3, pivot: Vec3)
      ensures this.position == position && this.rotation == rotation && this.scale == scale
      ensures pivot == Sentinel ==> this.pivot == position
      ensures pivot != Sentinel ==> this.pivot == pivot
      ensures right == Zero && up == Up
    {
      this.position := position;
      this.rotation := rotation;
      this.scale := scale;
      this.right := Zero;
      this.up := Up;
      this.pivot := if pivot == Sentinel then position else pivot;
    }

    /** TRANSFORM_DEFAULT: Register({0,0,0}) with the default rotation, scale and pivot. */
    constructor Default()
      ensures position == Zero && rotation == Zero && scale == One && pivot == Zero
      ensures right == Zero && up == Up
    {
      position, rotation, scale, right, up, pivot := Zero, Zero, One, Zero, Up, Zero;
    }

    method Translate(t: Vec3)
      modifies this
      ensures position == Add(old(position), t)
      ensures rotation == old(rotation) && scale == old(scale) && pivot == old(pivot)
      ensures right == old(right) && up == old(up)
    {
      position := Add(position, t);
    }

    method Rotate(r: Vec3)
      modifies this
      ensures rotation == Add(old(rotation), r)
      ensures position == old(position) && scale == old(scale) && pivot == old(pivot)
      ensures right == old(right) && up == old(up)
    {
      rotation := Add(rotation, r);
    }
  }

  class TransformI {
    var position: IVec3
    var rotation: IVec3
    var scale: IVec3
    var right: IVec3
    var up: IVec3
    var pivot: IVec3

    /** A value-initialised TransformI: every field zero except up = (0,1,0). */
    constructor Default()
      ensures position == ZeroI && rotation == ZeroI && scale == ZeroI && pivot == ZeroI
      ensures right == ZeroI && up == UpI
    {
      position, rotation, scale, right, up, pivot := ZeroI, ZeroI, ZeroI, ZeroI, UpI, ZeroI;
    }

    /** TransformI::Register: copies position, rotation and scale; resolves the pivot sentinel. */
    constructor Register(position: IVec3, rotation: IVec3, scale: IVec3, pivot: IVec3)
      ensures this.position == position && this.rotation == rotation && this.scale == scale
      ensures pivot == SentinelI ==> this.pivot == position
      ensures pivot != SentinelI ==> this.pivot == pivot
      ensures right == ZeroI && up == UpI
    {
      this.position := position;
      this.rotation := rotation;
      this.scale := scale;
      this.right := ZeroI;
      this.up := UpI;
      this.pivot := if pivot == SentinelI then position else pivot;
    }

    method Translate(t: IVec3)
      modifies this
      ensures position == AddI(old(position), t)
      ensures rotation == old(rotation) && scale == old(scale) && pivot == old(pivot)
      ensures right == old(right) && up == old(up)
    {
      position := AddI(position, t);
    }

    method Rotate(r: IVec3)
      modifies this
      ensures rotation == AddI(old(rotation), r)
      ensures position == old(position) && scale == old(scale) && pivot == old(pivot)
      ensures right == old(right) && up == old(up)
    {
      rotation := AddI(rotation, r);
    }

    /** Translating by t and then by -t gives back the original transform. */
    method TranslateThereAndBack(t: IVec3)
      modifies this
      ensures position == old(position) && rotation == old(rotation) && scale == old(scale)
      ensures pivot == old(pivot) && right == old(right) && up == old(up)
    {
      Translate(t);
      Translate(NegI(t));
    }

    /** ToTransform: hands the four fields to Transform::Register, so a stored
        sentinel pivot turns into the position there. */
    method ToTransform() returns (t: Transform)
      ensures fresh(t)
      ensures t.position == ToReal(position) && t.rotation == ToReal(rotation) && t.scale == ToReal(scale)
      ensures pivot == SentinelI ==> t.pivot == ToReal(position)
      ensures pivot != SentinelI ==> t.pivot == ToReal(pivot)
      ensures t.right == Zero && t.up == Up
    {
      t := new Transform.Register(ToReal(position), ToReal(rotation), ToReal(scale), ToReal(pivot));
    }
  }
}
