// The engine's vector and transform values, over the reals.
//
// Single-precision floats are modelled as `real`; the geometric operations (atan2,
// normalize, quaternion/Euler conversion, rotating the X axis, looking_at) are left
// abstract: they are passed in through a `Geometry` record, so every statement proved
// about them holds for any implementation.
module Math {

  /** The unsigned machine words the engine hands out. */
  newtype U32 = x: int | 0 <= x < 0x1_0000_0000

  newtype U64 = x: int | 0 <= x < 0x1_0000_0000_0000_0000

  datatype Vec2 = Vec2(x: real, y: real)

  datatype Vec3 = Vec3(x: real, y: real, z: real)

  /** A rotation quaternion; its components are never inspected by the model. */
  datatype Quat = Quat(x: real, y: real, z: real, w: real)

  datatype Transform = Transform(translation: Vec3, rotation: Quat, scale: Vec3)

  const ZERO2: Vec2 := Vec2(0.0, 0.0)

  const IDENTITY: Quat := Quat(0.0, 0.0, 0.0, 1.0)

  /** Transform::from_translation(t).with_scale(s) */
  function FromTranslationScale(t: Vec3, s: Vec3): Transform
  {
    Transform(t, IDENTITY, s)
  }

  function Add2(a: Vec2, b: Vec2): Vec2
  {
    Vec2(a.x + b.x, a.y + b.y)
  }

  function Scale2(a: Vec2, k: real): Vec2
  {
    Vec2(a.x * k, a.y * k)
  }

  function Add3(a: Vec3, b: Vec3): Vec3
  {
    Vec3(a.x + b.x, a.y + b.y, a.z + b.z)
  }

  function Scale3(a: Vec3, k: real): Vec3
  {
    Vec3(a.x * k, a.y * k, a.z * k)
  }

  /** `(a - b).xy()` */
  function XyOfDifference(a: Vec3, b: Vec3): Vec2
  {
    Vec2(a.x - b.x, a.y - b.y)
  }

  /** `v.length() > r`, decided without a square root: a length is never negative. */
  predicate LongerThan(v: Vec2, r: real)
  {
    r < 0.0 || v.x * v.x + v.y * v.y > r * r
  }

  /** The floating-point operations of the engine's math library that the model leaves abstract. */
  datatype Geometry = Geometry(
    heading: Quat -> real,          // first angle of rotation.to_euler(EulerRot::ZXY)
    forward: Quat -> Vec2,          // (rotation * Vec3::X).xy()
    atan2: (real, real) -> real,    // f32::atan2(y, x)
    normalize: Vec2 -> Vec2,        // Vec2::normalize
    lookingAt: (Vec3, Vec3) -> Quat // rotation of Transform::looking_at(target, Vec3::Z), from a translation
  )
}
