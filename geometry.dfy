// Vectors, matrices and the transcendental functions the ray tracer uses.
//
// Vec3f/Vec2f/Matrix44f (Vec3.h) are not part of this model: vectors are
// triples of reals with component-wise operations, and a transform matrix is
// kept symbolically (how it was built), applied to a direction through the
// `multDir` oracle of `Numerics`.  Floating point rounding is not modelled.

module Geometry {

  /** A 3-component vector (Vec3f): a point, a direction, a colour or an irradiance. */
  datatype Vec3 = Vec3(x: real, y: real, z: real)

  /** A 2-component vector (Vec2f): texture / parametric coordinates. */
  datatype Vec2 = Vec2(x: real, y: real)

  /** Vec3f(s): the vector with all three components equal to `s`. */
  function Splat(s: real): Vec3 { Vec3(s, s, s) }

  const Zero: Vec3 := Splat(0.0)

  function Add(a: Vec3, b: Vec3): Vec3 { Vec3(a.x + b.x, a.y + b.y, a.z + b.z) }

  function Sub(a: Vec3, b: Vec3): Vec3 { Vec3(a.x - b.x, a.y - b.y, a.z - b.z) }

  function Neg(a: Vec3): Vec3 { Vec3(-a.x, -a.y, -a.z) }

  /** Product with a scalar, `a * s` and `s * a`. */
  function Scale(a: Vec3, s: real): Vec3 { Vec3(a.x * s, a.y * s, a.z * s) }

  /** Component-wise product, `a * b` (colour times colour). */
  function Mul(a: Vec3, b: Vec3): Vec3 { Vec3(a.x * b.x, a.y * b.y, a.z * b.z) }

  /** Every component is non-negative. */
  predicate NonNeg(a: Vec3) { a.x >= 0.0 && a.y >= 0.0 && a.z >= 0.0 }

  /** Component-wise `a <= b`. */
  predicate Le(a: Vec3, b: Vec3) { a.x <= b.x && a.y <= b.y && a.z <= b.z }

  /**
   * A Matrix44f, recorded by how it was built: the identity (the default
   * constructor), the frame whose y axis points from `from` to `to`
   * (`Matrix44f(from, to)`), or the inverse of another matrix.
   */
  datatype Matrix44 = Identity | LookAt(from: Vec3, to: Vec3) | Inverse(m: Matrix44)

  /** M_PI, taken as the real number it approximates. */
  const PI: real := 3.14159265358979323846

  /**
   * The C maths library and Matrix44f::multDirMatrix, passed in as functions.
   * `ValidNumerics` lists the facts the model relies on.
   */
  datatype Numerics = Numerics(
    sqrt: real -> real,
    acos: real -> real,
    atan2: (real, real) -> real,
    sin: real -> real,
    cos: real -> real,
    tan: real -> real,
    pow: (real, real) -> real,
    multDir: (Matrix44, Vec3) -> Vec3)

  // The oracles applied.  Every use goes through these, so that a term
  // written in a lemma is the same term as the one inside a function body.
  function Sqrt(num: Numerics, t: real): real { num.sqrt(t) }
  function Acos(num: Numerics, t: real): real { num.acos(t) }
  function Atan2(num: Numerics, y: real, x: real): real { num.atan2(y, x) }
  function Sin(num: Numerics, t: real): real { num.sin(t) }
  function Cos(num: Numerics, t: real): real { num.cos(t) }
  function Tan(num: Numerics, t: real): real { num.tan(t) }
  function Pow(num: Numerics, b: real, e: real): real { num.pow(b, e) }
  function MultDir(num: Numerics, m: Matrix44, v: Vec3): Vec3 { num.multDir(m, v) }

  ghost predicate ValidNumerics(num: Numerics) {
    (forall t: real :: t >= 0.0 ==> Sqrt(num, t) >= 0.0) &&
    (forall t: real :: t > 0.0 ==> Sqrt(num, t) > 0.0) &&
    Sqrt(num, 0.0) == 0.0 &&
    Sqrt(num, 1.0) == 1.0 &&
    (forall t: real :: 0.0 <= Acos(num, t) <= PI) &&
    Acos(num, 0.0) == PI / 2.0 &&
    (forall y: real, x: real :: -PI <= Atan2(num, y, x) <= PI)
  }

  /** The idealisation under which the optical identities hold exactly. */
  ghost predicate ExactSqrt(num: Numerics) {
    forall t: real :: t >= 0.0 ==> Sqrt(num, t) >= 0.0 && Sqrt(num, t) * Sqrt(num, t) == t
  }
}
