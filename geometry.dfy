/** Plain geometric value types shared by the mesh pipeline (glam's `Vec3`)
    and the drawing pipeline (holoviz's `Point` and glam's `Vec2`). */
module Geometry {

  datatype Vec3 = Vec3(x: real, y: real, z: real)

  datatype Point = Point(x: real, y: real)

  /** glam's `Vec3::lerp`: `self + (rhs - self) * s`. */
  function Lerp(a: Vec3, b: Vec3, s: real): (p: Vec3)
    ensures s == 0.0 ==> p == a
    ensures s == 1.0 ==> p == b
  {
    Vec3(a.x + (b.x - a.x) * s, a.y + (b.y - a.y) * s, a.z + (b.z - a.z) * s)
  }
}
