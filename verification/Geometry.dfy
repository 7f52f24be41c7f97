/**
 * The vector arithmetic of THREE.js that the slicer relies on, over exact reals
 * (the source works on IEEE doubles; rounding of doubles is not modelled).
 */
module Geometry {

  datatype Vec2 = Vec2(x: real, y: real)

  datatype Vec3 = Vec3(x: real, y: real, z: real)

  /** An integer point: a pixel or a grid cell. */
  datatype Int2 = Int2(x: int, y: int)

  datatype Int3 = Int3(x: int, y: int, z: int)

  /** `THREE.Plane`: the points p with `normal · p + constant == 0`. */
  datatype Plane = Plane(normal: Vec3, constant: real)

  function Add(p: Vec3, q: Vec3): Vec3 { Vec3(p.x + q.x, p.y + q.y, p.z + q.z) }

  function Sub(p: Vec3, q: Vec3): Vec3 { Vec3(p.x - q.x, p.y - q.y, p.z - q.z) }

  function Scale(p: Vec3, t: real): Vec3 { Vec3(p.x * t, p.y * t, p.z * t) }

  function Sub2(u: Vec2, w: Vec2): Vec2 { Vec2(u.x - w.x, u.y - w.y) }

  function Scale2(u: Vec2, t: real): Vec2 { Vec2(u.x * t, u.y * t) }

  function Dot(p: Vec3, q: Vec3): real { p.x * q.x + p.y * q.y + p.z * q.z }

  function Cross(p: Vec3, q: Vec3): Vec3 {
    Vec3(p.y * q.z - p.z * q.y, p.z * q.x - p.x * q.z, p.x * q.y - p.y * q.x)
  }

  /** `Vector3.lerp`: `p + (q - p) * t`. */
  function Lerp3(p: Vec3, q: Vec3, t: real): Vec3 {
    Vec3(p.x + (q.x - p.x) * t, p.y + (q.y - p.y) * t, p.z + (q.z - p.z) * t)
  }

  /** `Vector2.lerp`: `u + (w - u) * t`. */
  function Lerp2(u: Vec2, w: Vec2, t: real): Vec2 {
    Vec2(u.x + (w.x - u.x) * t, u.y + (w.y - u.y) * t)
  }

  /** The signed distance `plane.distanceToPoint(p)` for a unit normal (a scaled one otherwise). */
  function Distance(plane: Plane, p: Vec3): real {
    Dot(plane.normal, p) + plane.constant
  }

  /** `a` lies between `b` and `c`, in either order. */
  predicate Between(a: real, b: real, c: real) {
    (b <= a <= c) || (c <= a <= b)
  }

  function MinInt(a: int, b: int): int { if a <= b then a else b }

  function MaxInt(a: int, b: int): int { if a >= b then a else b }
}
