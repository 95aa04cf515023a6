/**
 * Unity value types used by the helpers: vectors and quaternions over the
 * reals (the C# code uses 32-bit floats; see the README for what that leaves out).
 */
module UnityMath {

  datatype Vec3 = Vec3(x: real, y: real, z: real)

  datatype Vec4 = Vec4(x: real, y: real, z: real, w: real)

  datatype Quat = Quat(x: real, y: real, z: real, w: real)

  /** Component sum of a four-vector. */
  function Vec4Sum(v: Vec4): real { v.x + v.y + v.z + v.w }

  /** Unity's `Vector4 / float`: every component divided by `d`. */
  function Vec4Div(v: Vec4, d: real): Vec4
    requires d != 0.0
  {
    Vec4(v.x / d, v.y / d, v.z / d, v.w / d)
  }
}
