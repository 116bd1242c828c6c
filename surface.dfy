// A shade point on an object (Surface.h): its accumulated irradiance, its
// normal and local frame, and its optional buffer of angle buckets (one per
// direction of the hemisphere above it) that the object pass fills.
//
// SurfaceAngle.h is not part of this model: a bucket is represented by its
// `angleColor`, the only member the core reads or writes.  A pointer to a
// bucket is represented by its offset in the buffer.

module Surfaces {
  import opened Geometry
  import opened Maybe
  import opened Utils

  /** What getSurfaceAngleByDir finds: the bucket offset and its row and column. */
  datatype AngleBucket = AngleBucket(offset: nat, v: nat, h: nat)

  /** The mutable part of a Surface, as one value. */
  datatype SurfaceState = SurfaceState(
    diffuseAmt: Vec3,
    N: Vec3,
    local2World: Matrix44,
    world2Local: Matrix44,
    idx: nat,
    angleColors: seq<Vec3>)

  /** theta/90*vAngleRes (or phi/360*hAngleRes) stored in a uint32_t: the bucket row (column). */
  function Bucket(angle: real, range: real, res: nat): nat
    requires range > 0.0
  {
    ToUint(angle / range * res as real)
  }

  lemma BucketInRange(angle: real, range: real, res: nat)
    requires range > 0.0 && res > 0
    ensures 0.0 <= angle < range ==> Bucket(angle, range, res) < res
    ensures range <= angle ==> res <= Bucket(angle, range, res)
  {
    var x := angle / range;
    if 0.0 <= angle < range {
      DivBelowOne(angle, range);
      assert x * res as real < res as real by {
        assert (1.0 - x) * res as real > 0.0;
      }
    }
    if range <= angle {
      DivAtLeastOne(angle, range);
      assert x * res as real >= res as real by {
        assert (x - 1.0) * res as real >= 0.0;
      }
    }
  }

  lemma DivBelowOne(a: real, b: real)
    requires 0.0 < b && a < b
    ensures a / b < 1.0
  {
    var x := a / b;
    assert x * b == a;
    if x >= 1.0 {
      assert false;
    }
  }

  lemma DivAtLeastOne(a: real, b: real)
    requires 0.0 < b && b <= a
    ensures a / b >= 1.0
  {
    var x := a / b;
    assert x * b == a;
    if x < 1.0 {
      assert false;
    }
  }

  class Surface {
    /** Buckets per degree; 0 (no buffer) on diffuse objects. */
    const angleRatio: real
    const vAngleRes: nat
    const hAngleRes: nat
    /** The angle buckets, allocated only when angleRatio > 0. */
    const angles: array?<Vec3>
    var diffuseAmt: Vec3
    var N: Vec3
    var local2World: Matrix44
    var world2Local: Matrix44
    var idx: nat

    ghost predicate Valid() {
      (angles != null <==> angleRatio > 0.0) &&
      (angles != null ==> angles.Length == vAngleRes * hAngleRes)
    }

    /**
     * A hemisphere of 91 by 360 degrees, `angleRatio` buckets per degree;
     * the buffer is allocated and zeroed only for a positive ratio.
     * Vec3f() is taken to be the zero vector and Matrix44f() the identity.
     */
    constructor (surfaceAngleRatio: real)
      ensures angleRatio == surfaceAngleRatio
      ensures vAngleRes == ToUint(91.0 * surfaceAngleRatio)
      ensures hAngleRes == ToUint(360.0 * surfaceAngleRatio)
      ensures surfaceAngleRatio > 0.0 ==> angles != null && fresh(angles)
      ensures surfaceAngleRatio > 0.0 ==> forall i :: 0 <= i < angles.Length ==> angles[i] == Zero
      ensures !(surfaceAngleRatio > 0.0) ==> angles == null
      ensures diffuseAmt == Zero && N == Zero
      ensures local2World == Identity && world2Local == Identity
      ensures Valid()
    {
      angleRatio := surfaceAngleRatio;
      vAngleRes := ToUint(91.0 * surfaceAngleRatio);
      hAngleRes := ToUint(360.0 * surfaceAngleRatio);
      if surfaceAngleRatio > 0.0 {
        angles := new Vec3[ToUint(91.0 * surfaceAngleRatio) * ToUint(360.0 * surfaceAngleRatio)](_ => Zero);
      } else {
        angles := null;
      }
      diffuseAmt := Zero;
      N := Zero;
      local2World := Identity;
      world2Local := Identity;
    }

    ghost function State(): (st: SurfaceState)
      reads this, angles
    {
      SurfaceState(diffuseAmt, N, local2World, world2Local, idx,
                   if angles == null then [] else angles[..])
    }

    /** The state `reset(index, normal, center)` leaves behind. */
    ghost function AfterReset(st: SurfaceState, index: nat, normal: Vec3, center: Vec3): (r: SurfaceState)
      ensures r.diffuseAmt == st.diffuseAmt
      ensures |r.angleColors| == |st.angleColors|
      ensures forall i :: 0 <= i < |r.angleColors| ==> r.angleColors[i] == Zero
    {
      var frames := angleRatio > 0.0;
      SurfaceState(st.diffuseAmt, normal,
                   if frames then LookAt(center, Add(center, normal)) else st.local2World,
                   if frames then Inverse(LookAt(center, Add(center, normal))) else st.world2Local,
                   index, seq(|st.angleColors|, _ => Zero))
    }

    /** Resetting twice with the same arguments is resetting once. */
    lemma ResetIdempotent(st: SurfaceState, index: nat, normal: Vec3, center: Vec3)
      ensures AfterReset(AfterReset(st, index, normal, center), index, normal, center)
           == AfterReset(st, index, normal, center)
    {
    }

    /**
     * reset: the new index and normal, the frame looking along the normal
     * (only when there are buckets), every bucket zeroed.  `diffuseAmt` is kept.
     */
    method Reset(index: nat, normal: Vec3, center: Vec3)
      modifies this, angles
      ensures State() == AfterReset(old(State()), index, normal, center)
      ensures idx == index && N == normal && diffuseAmt == old(diffuseAmt)
      ensures angleRatio > 0.0 ==> local2World == LookAt(center, Add(center, normal))
      ensures angleRatio > 0.0 ==> world2Local == Inverse(local2World)
      ensures !(angleRatio > 0.0) ==> unchanged(this`local2World, this`world2Local)
    {
      idx := index;
      N := normal;
      if angleRatio > 0.0 {
        local2World := LookAt(center, Add(center, N));
        world2Local := Inverse(local2World);
      }
      if angles != null {
        forall i | 0 <= i < angles.Length {
          angles[i] := Zero;
        }
      }
    }

    /** getSurfaceAngleByVH: the wrapped bucket (v mod vAngleRes, h mod hAngleRes). */
    function AngleByVH(v: nat, h: nat): (r: Option<nat>)
      requires angles != null ==> vAngleRes > 0 && hAngleRes > 0
      ensures r.None? <==> angles == null
      ensures r.Some? ==> r.value < vAngleRes * hAngleRes
      ensures r.Some? && Valid() ==> r.value < angles.Length
      ensures r.Some? ==> r.value / hAngleRes == v % vAngleRes && r.value % hAngleRes == h % hAngleRes
    {
      if angles == null then None
      else
        var off := (v % vAngleRes) * hAngleRes + h % hAngleRes;
        assert off < vAngleRes * hAngleRes by { RowMajorBound(v % vAngleRes, h % hAngleRes, vAngleRes, hAngleRes); }
        RowMajorParts(v % vAngleRes, h % hAngleRes, hAngleRes);
        Some(off)
    }

    /**
     * The direction getSurfaceAngleByVH writes to `relPoint`: the polar
     * direction of bucket (v, h) in the local frame, taken to world space.
     */
    function AngleDirection(num: Numerics, v: nat, h: nat): Vec3
      requires vAngleRes > 0 && hAngleRes > 0
      reads this`local2World
    {
      PolarDirection(num, local2World, v, h, vAngleRes, hAngleRes)
    }

    /** getSurfaceAngleByPolar: the bucket of polar angles in degrees, without wrapping. */
    function AngleByPolar(theta: real, phi: real): (r: Option<nat>)
      ensures r.None? <==> angles == null
    {
      if angles == null then None
      else Some(Bucket(theta, 90.0, vAngleRes) * hAngleRes + Bucket(phi, 360.0, hAngleRes))
    }

    /** Inside the hemisphere, getSurfaceAngleByPolar finds the bucket of the two angles. */
    lemma AngleByPolarInRange(theta: real, phi: real)
      requires Valid() && angles != null && vAngleRes > 0 && hAngleRes > 0
      requires 0.0 <= theta < 90.0 && 0.0 <= phi < 360.0
      ensures AngleByPolar(theta, phi).value < angles.Length
      ensures AngleByPolar(theta, phi).value / hAngleRes == Bucket(theta, 90.0, vAngleRes)
      ensures AngleByPolar(theta, phi).value % hAngleRes == Bucket(phi, 360.0, hAngleRes)
    {
      BucketInRange(theta, 90.0, vAngleRes);
      BucketInRange(phi, 360.0, hAngleRes);
      RowMajorBound(Bucket(theta, 90.0, vAngleRes), Bucket(phi, 360.0, hAngleRes), vAngleRes, hAngleRes);
      RowMajorParts(Bucket(theta, 90.0, vAngleRes), Bucket(phi, 360.0, hAngleRes), hAngleRes);
    }

    /** From 90 degrees on, getSurfaceAngleByPolar points past the end of the buffer. */
    lemma AngleByPolarOutOfRange(theta: real, phi: real)
      requires Valid() && angles != null && vAngleRes > 0 && hAngleRes > 0
      requires 90.0 <= theta
      ensures AngleByPolar(theta, phi).value >= angles.Length
    {
      BucketInRange(theta, 90.0, vAngleRes);
      RowPastEnd(Bucket(theta, 90.0, vAngleRes), Bucket(phi, 360.0, hAngleRes), vAngleRes, hAngleRes);
    }

    /** From 360 degrees on, getSurfaceAngleByPolar aliases the next row's buckets. */
    lemma AngleByPolarRowAlias(theta: real, phi: real)
      requires angles != null && hAngleRes > 0
      requires 360.0 <= phi
      ensures Bucket(phi, 360.0, hAngleRes) >= hAngleRes
      ensures AngleByPolar(theta, phi).value
           == (Bucket(theta, 90.0, vAngleRes) + 1) * hAngleRes + (Bucket(phi, 360.0, hAngleRes) - hAngleRes)
    {
      BucketInRange(phi, 360.0, hAngleRes);
    }

    /** The local polar angles (degrees) of a world direction, as getSurfaceAngleByDir computes them. */
    function DirAngles(num: Numerics, dir: Vec3): (thetaPhi: (real, real))
      requires ValidNumerics(num)
      reads this`world2Local
      ensures 0.0 <= thetaPhi.0 <= 180.0 && 0.0 <= thetaPhi.1 < 360.0
    {
      var local := MultDir(num, world2Local, dir);
      (Rad2Deg(Acos(num, local.y)), Rad2Deg(Atan2(num, local.z, local.x)))
    }

    /**
     * getSurfaceAngleByDir as written: the unwrapped bucket of a direction,
     * with its row and column (what it stores through `angleV`, `angleH`).
     */
    function AngleByDirAsWritten(num: Numerics, dir: Vec3): (r: Option<AngleBucket>)
      requires ValidNumerics(num)
      reads this`world2Local
      ensures r.None? <==> angles == null
      ensures r.Some? ==> r.value.offset == r.value.v * hAngleRes + r.value.h
    {
      if angles == null then None
      else
        var (theta, phi) := DirAngles(num, dir);
        var v := Bucket(theta, 90.0, vAngleRes);
        var h := Bucket(phi, 360.0, hAngleRes);
        Some(AngleBucket(v * hAngleRes + h, v, h))
    }

    /**
     * A direction lying in the surface's tangent plane (local y = 0) is 90
     * degrees from the normal, and getSurfaceAngleByDir returns a pointer
     * one past the last bucket row.
     */
    lemma AngleByDirAsWrittenOverruns(num: Numerics, dir: Vec3)
      requires ValidNumerics(num) && Valid() && angles != null && vAngleRes > 0 && hAngleRes > 0
      requires MultDir(num, world2Local, dir).y == 0.0
      ensures AngleByDirAsWritten(num, dir).value.v == vAngleRes
      ensures AngleByDirAsWritten(num, dir).value.offset >= angles.Length
    {
      var (theta, phi) := DirAngles(num, dir);
      assert Rad2Deg(PI / 2.0) == 90.0;
      assert theta == 90.0;
      BucketInRange(theta, 90.0, vAngleRes);
      assert Bucket(theta, 90.0, vAngleRes) == vAngleRes;
      RowPastEnd(vAngleRes, Bucket(phi, 360.0, hAngleRes), vAngleRes, hAngleRes);
    }

    /**
     * getSurfaceAngleByDir, corrected: a direction outside the open
     * hemisphere above the surface (theta >= 90) has no bucket, and gives
     * null like a surface without buckets.
     */
    function AngleByDir(num: Numerics, dir: Vec3): (r: Option<nat>)
      requires ValidNumerics(num) && Valid()
      reads this`world2Local
      ensures r.Some? ==> angles != null && r.value < angles.Length
      ensures r.Some? <==> angles != null && vAngleRes > 0 && hAngleRes > 0 && DirAngles(num, dir).0 < 90.0
      ensures r.Some? ==> r.value == AngleByDirAsWritten(num, dir).value.offset
    {
      if angles == null || vAngleRes == 0 || hAngleRes == 0 then None
      else
        var (theta, phi) := DirAngles(num, dir);
        if theta < 90.0 then
          var b := AngleByDirAsWritten(num, dir).value;
          BucketInRange(theta, 90.0, vAngleRes);
          BucketInRange(phi, 360.0, hAngleRes);
          RowMajorBound(b.v, b.h, vAngleRes, hAngleRes);
          Some(b.offset)
        else None
    }
  }

  /**
   * The world direction of bucket (v, h) of a vRes by hRes hemisphere grid
   * whose local frame is `frame`: polar angle 90*v/vRes, azimuth 360*h/hRes.
   */
  function PolarDirection(num: Numerics, frame: Matrix44, v: nat, h: nat, vRes: nat, hRes: nat): Vec3
    requires vRes > 0 && hRes > 0
  {
    var theta := Deg2Rad(v as real * 90.0 / vRes as real);
    var phi := Deg2Rad(h as real * 360.0 / hRes as real);
    MultDir(num, frame, Vec3(Cos(num, phi) * Sin(num, theta), Cos(num, theta), Sin(num, phi) * Sin(num, theta)))
  }

  lemma RowMajorBound(v: nat, h: nat, vRes: nat, hRes: nat)
    requires v < vRes && h < hRes
    ensures v * hRes + h < vRes * hRes
  {
    assert v * hRes + h < v * hRes + hRes == (v + 1) * hRes;
    assert (v + 1) * hRes <= vRes * hRes;
  }

  lemma RowPastEnd(v: nat, h: nat, vRes: nat, hRes: nat)
    requires vRes <= v
    ensures vRes * hRes <= v * hRes + h
  {
    assert vRes * hRes <= v * hRes;
  }

  /** Row-major offsets of cells inside a row width identify the cell. */
  lemma RowMajorUnique(v1: nat, h1: nat, v2: nat, h2: nat, hRes: nat)
    requires h1 < hRes && h2 < hRes
    requires v1 * hRes + h1 == v2 * hRes + h2
    ensures v1 == v2 && h1 == h2
  {
    if v1 < v2 {
      RowBelow(v1, v2, hRes);
      assert false;
    } else if v2 < v1 {
      RowBelow(v2, v1, hRes);
      assert false;
    }
  }

  lemma RowBelow(a: nat, b: nat, hRes: nat)
    requires a < b
    ensures a * hRes + hRes <= b * hRes
  {
    var d := b - a - 1;
    assert b * hRes == a * hRes + hRes + d * hRes;
  }

  lemma RowMajorParts(v: nat, h: nat, hRes: nat)
    requires h < hRes
    ensures (v * hRes + h) / hRes == v && (v * hRes + h) % hRes == h
  {
    var n := v * hRes + h;
    var q, r := n / hRes, n % hRes;
    assert n == q * hRes + r;
    RowMajorUnique(q, r, v, h, hRes);
  }
}
