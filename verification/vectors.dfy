/**
 The 3-vector over the reals that the cloth model computes with. bevy_silk
 works on `f32` vectors; the model uses exact real arithmetic, so every
 identity proved here is the exact-arithmetic one.
 */
module Vectors {

  /** A vector of three reals (bevy's `Vec3`). */
  datatype Vec3 = Vec3(x: real, y: real, z: real)

  const Zero: Vec3 := Vec3(0.0, 0.0, 0.0)

  function Add(a: Vec3, b: Vec3): Vec3 {
    Vec3(a.x + b.x, a.y + b.y, a.z + b.z)
  }

  function Sub(a: Vec3, b: Vec3): Vec3 {
    Vec3(a.x - b.x, a.y - b.y, a.z - b.z)
  }

  function Scale(a: Vec3, k: real): Vec3 {
    Vec3(a.x * k, a.y * k, a.z * k)
  }

  /** Component-wise division by a scalar (`Vec3 / f32`). */
  function Div(a: Vec3, k: real): Vec3
    requires k != 0.0
  {
    Vec3(a.x / k, a.y / k, a.z / k)
  }
}
