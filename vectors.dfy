/** The glm vector types the engine uses: integer triples (glm::ivec3), real
    triples standing for glm::vec3 (no float rounding is modelled) and real
    pairs standing for glm::vec2. */
module Vectors {

  datatype IVec3 = IVec3(x: int, y: int, z: int)

  datatype Vec3 = Vec3(x: real, y: real, z: real)

  datatype Vec2 = Vec2(x: real, y: real)

  const ZeroI := IVec3(0, 0, 0)
  const Zero := Vec3(0.0, 0.0, 0.0)
  const One := Vec3(1.0, 1.0, 1.0)
  const UpI := IVec3(0, 1, 0)
  const Up := Vec3(0.0, 1.0, 0.0)

  /** Componentwise `+=` on glm::ivec3. */
  function AddI(a: IVec3, b: IVec3): IVec3 {
    IVec3(a.x + b.x, a.y + b.y, a.z + b.z)
  }

  function NegI(a: IVec3): IVec3 {
    IVec3(-a.x, -a.y, -a.z)
  }

  /** Componentwise `+=` on glm::vec3. */
  function Add(a: Vec3, b: Vec3): Vec3 {
    Vec3(a.x + b.x, a.y + b.y, a.z + b.z)
  }

  function Sub(a: Vec3, b: Vec3): Vec3 {
    Vec3(a.x - b.x, a.y - b.y, a.z - b.z)
  }

  /** The implicit glm::ivec3 -> glm::vec3 conversion. */
  function ToReal(a: IVec3): Vec3 {
    Vec3(a.x as real, a.y as real, a.z as real)
  }
}
