// The vector and optics helpers of src/utils.h.

module Utils {
  import opened Geometry
  import opened Maybe

  /** dotProduct */
  function Dot(a: Vec3, b: Vec3): real { a.x * b.x + a.y * b.y + a.z * b.z }

  /** crossProduct */
  function Cross(a: Vec3, b: Vec3): Vec3 {
    Vec3(a.y * b.z - a.z * b.y, a.z * b.x - a.x * b.z, a.x * b.y - a.y * b.x)
  }

  /** Squared length. */
  function Norm2(v: Vec3): real { Dot(v, v) }

  /**
   * normalize: a non-zero vector divided by its length; the zero vector is
   * returned as it is.
   */
  function Normalize(num: Numerics, v: Vec3): (r: Vec3)
    requires ValidNumerics(num)
    ensures v == Zero ==> r == Zero
  {
    var mag2 := Norm2(v);
    if mag2 > 0.0 then Scale(v, 1.0 / Sqrt(num, mag2)) else v
  }

  /** normalize only rescales: the result is a positive multiple of its argument. */
  lemma NormalizeIsPositiveMultiple(num: Numerics, v: Vec3)
    requires ValidNumerics(num)
    ensures exists k: real :: k > 0.0 && Normalize(num, v) == Scale(v, k)
  {
    if Norm2(v) > 0.0 {
      var k := 1.0 / Sqrt(num, Norm2(v));
      assert Normalize(num, v) == Scale(v, k);
    } else {
      assert Normalize(num, v) == Scale(v, 1.0);
    }
  }

  /** With an exact square root, a vector of non-zero length comes out with unit length. */
  lemma {:induction false} NormalizeUnit(num: Numerics, v: Vec3)
    requires ValidNumerics(num) && ExactSqrt(num)
    requires Norm2(v) > 0.0
    ensures Norm2(Normalize(num, v)) == 1.0
  {
    var m := Norm2(v);
    var s := Sqrt(num, m);
    assert s * s == m;
    var k := 1.0 / s;
    assert Normalize(num, v) == Scale(v, k);
    calc {
      Norm2(Scale(v, k));
      k * k * m;
      (1.0 / s) * (1.0 / s) * (s * s);
      1.0;
    }
  }

  /** normalize commutes with negation. */
  lemma NormalizeNeg(num: Numerics, v: Vec3)
    requires ValidNumerics(num)
    ensures Normalize(num, Neg(v)) == Neg(Normalize(num, v))
  {
    assert Norm2(Neg(v)) == Norm2(v);
  }

  /** clamp(lo, hi, v) = max(lo, min(hi, v)). */
  function Clamp(lo: real, hi: real, v: real): (r: real)
    ensures lo <= hi ==> lo <= r <= hi
    ensures lo <= v <= hi ==> r == v
    ensures v < lo ==> r == lo
    ensures lo <= hi < v ==> r == hi
  {
    var m := if hi < v then hi else v;
    if lo < m then m else lo
  }

  /** deg2rad */
  function Deg2Rad(deg: real): real { deg * PI / 180.0 }

  /**
   * A float converted to uint32_t (or floor() stored in one): truncation of a
   * non-negative value.  Converting a negative value is undefined in C++ and
   * gives 0 here; the 32-bit range is not modelled.
   */
  function ToUint(x: real): (n: nat)
    ensures x >= 0.0 ==> n as real <= x < n as real + 1.0
    ensures x < 1.0 ==> n == 0
  {
    if x < 0.0 then 0 else x.Floor
  }

  /**
   * rad2deg: an angle in radians to degrees, a negative result moved up by
   * a full turn.
   */
  function Rad2Deg(rad: real): (r: real)
    ensures -2.0 * PI < rad < 2.0 * PI ==> 0.0 <= r < 360.0
    ensures -PI <= rad <= PI ==> 0.0 <= r <= 180.0 || 180.0 <= r < 360.0
    ensures 0.0 <= rad ==> r * PI == rad * 180.0
    ensures rad < 0.0 ==> (r - 360.0) * PI == rad * 180.0
  {
    var deg := rad * 180.0 / PI;
    if deg < 0.0 then deg + 360.0 else deg
  }

  /** rad2deg undoes deg2rad on a turn [0, 360), and lifts (-360, 0) by a turn. */
  lemma Rad2DegDeg2Rad(deg: real)
    requires -360.0 < deg < 360.0
    ensures Rad2Deg(Deg2Rad(deg)) == if deg < 0.0 then deg + 360.0 else deg
  {
    assert Deg2Rad(deg) * 180.0 / PI == deg;
  }

  /** mix: linear blend from `a` (at 0) to `b` (at 1). */
  function Mix(a: Vec3, b: Vec3, t: real): (r: Vec3)
    ensures t == 0.0 ==> r == a
    ensures t == 1.0 ==> r == b
  {
    Add(Scale(a, 1.0 - t), Scale(b, t))
  }

  /** A blend with t in [0, 1] of a <= b lies between them, component by component. */
  lemma MixBetween(a: Vec3, b: Vec3, t: real)
    requires 0.0 <= t <= 1.0 && Le(a, b)
    ensures Le(a, Mix(a, b, t)) && Le(Mix(a, b, t), b)
  {
    assert Mix(a, b, t) == Vec3(Blend(a.x, b.x, t), Blend(a.y, b.y, t), Blend(a.z, b.z, t));
    BlendBetween(a.x, b.x, t);
    BlendBetween(a.y, b.y, t);
    BlendBetween(a.z, b.z, t);
  }

  /** One component of mix. */
  function Blend(p: real, q: real, t: real): real {
    p * (1.0 - t) + q * t
  }

  lemma BlendBetween(p: real, q: real, t: real)
    requires 0.0 <= t <= 1.0 && p <= q
    ensures p <= Blend(p, q, t) <= q
  {
    var d := q - p;
    assert Blend(p, q, t) == p + t * d;
    assert t * d >= 0.0;
    assert (1.0 - t) * d >= 0.0;
    assert t * d + (1.0 - t) * d == d;
  }

  /** The outcome of solveQuadratic: false, or the roots with x0 <= x1. */
  datatype Roots = NoRoots | Roots(x0: real, x1: real)

  /**
   * solveQuadratic: the real roots of a x^2 + b x + c, using the numerically
   * stable form q = -(b + sign(b) sqrt(discr)) / 2, x0 = q / a, x1 = c / q.
   */
  function SolveQuadratic(num: Numerics, a: real, b: real, c: real): (r: Roots)
    requires ValidNumerics(num) && a != 0.0
    ensures r.NoRoots? <==> b * b - 4.0 * a * c < 0.0
    ensures r.Roots? ==> r.x0 <= r.x1
    ensures b * b - 4.0 * a * c == 0.0 ==> r == Roots(-0.5 * b / a, -0.5 * b / a)
  {
    var discr := b * b - 4.0 * a * c;
    if discr < 0.0 then NoRoots
    else if discr == 0.0 then Roots(-0.5 * b / a, -0.5 * b / a)
    else
      var q := QuadraticQ(num, b, discr);
      Ordered(q / a, c / q)
  }

  /** The two roots in increasing order (the final swap of solveQuadratic). */
  function Ordered(x0: real, x1: real): (r: Roots)
    ensures r.Roots? && r.x0 <= r.x1
    ensures r == Roots(x0, x1) || r == Roots(x1, x0)
  {
    if x0 > x1 then Roots(x1, x0) else Roots(x0, x1)
  }

  /** The intermediate q of solveQuadratic, never zero for a positive discriminant. */
  function QuadraticQ(num: Numerics, b: real, discr: real): (q: real)
    requires ValidNumerics(num) && discr > 0.0
    ensures q != 0.0
  {
    if b > 0.0 then -0.5 * (b + Sqrt(num, discr)) else -0.5 * (b - Sqrt(num, discr))
  }

  /** x solves a x^2 + b x + c = 0. */
  predicate IsRoot(a: real, b: real, c: real, x: real) {
    a * x * x + b * x + c == 0.0
  }

  /** Each root returned by solveQuadratic solves the equation (exact square root). */
  lemma {:induction false} SolveQuadraticSolves(num: Numerics, a: real, b: real, c: real)
    requires ValidNumerics(num) && ExactSqrt(num) && a != 0.0
    ensures var r := SolveQuadratic(num, a, b, c);
      r.Roots? ==> IsRoot(a, b, c, r.x0) && IsRoot(a, b, c, r.x1)
  {
    var discr := b * b - 4.0 * a * c;
    if discr == 0.0 {
      DoubleRoot(a, b, c);
    } else if discr > 0.0 {
      DistinctRoots(num, a, b, c);
    }
  }

  lemma DistinctRoots(num: Numerics, a: real, b: real, c: real)
    requires ValidNumerics(num) && ExactSqrt(num) && a != 0.0 && b * b - 4.0 * a * c > 0.0
    ensures var r := SolveQuadratic(num, a, b, c); IsRoot(a, b, c, r.x0) && IsRoot(a, b, c, r.x1)
  {
    var q := QuadraticQ(num, b, b * b - 4.0 * a * c);
    var r := SolveQuadratic(num, a, b, c);
    assert r == Roots(q / a, c / q) || r == Roots(c / q, q / a) by {
      assert r == Ordered(q / a, c / q);
    }
    assert IsRoot(a, b, c, q / a) && IsRoot(a, b, c, c / q) by {
      QuadraticQIdentity(num, a, b, c);
      RootOfQ(a, b, c, q);
    }
  }

  lemma DoubleRoot(a: real, b: real, c: real)
    requires a != 0.0 && b * b - 4.0 * a * c == 0.0
    ensures IsRoot(a, b, c, -0.5 * b / a)
  {
    var x := -0.5 * b / a;
    assert a * x == -0.5 * b;
    assert a * x * x + b * x + c == 0.5 * b * x + c;
    assert 4.0 * a * (0.5 * b * x + c) == 2.0 * b * (a * x) + 4.0 * a * c;
  }

  /** q (q + b) = -a c whichever sign solveQuadratic picks. */
  lemma QuadraticQIdentity(num: Numerics, a: real, b: real, c: real)
    requires ValidNumerics(num) && ExactSqrt(num) && b * b - 4.0 * a * c > 0.0
    ensures var q := QuadraticQ(num, b, b * b - 4.0 * a * c); q * q + b * q + a * c == 0.0
  {
    var discr := b * b - 4.0 * a * c;
    var s := Sqrt(num, discr);
    assert s * s == discr;
    var q := QuadraticQ(num, b, discr);
    if b > 0.0 {
      assert q == -0.5 * (b + s);
      assert q * q + b * q == -0.25 * (b * b - s * s);
    } else {
      assert q == -0.5 * (b - s);
      assert q * q + b * q == -0.25 * (b * b - s * s);
    }
  }

  lemma RootOfQ(a: real, b: real, c: real, q: real)
    requires a != 0.0 && q != 0.0 && q * q + b * q + a * c == 0.0
    ensures IsRoot(a, b, c, q / a) && IsRoot(a, b, c, c / q)
  {
    var x0 := q / a;
    assert a * x0 == q;
    assert a * (a * x0 * x0 + b * x0 + c) == q * q + b * q + a * c;
    var x1 := c / q;
    assert q * x1 == c;
    assert (a * x1 * x1 + b * x1 + c) * (q * q) == c * (a * c + b * q + q * q);
    assert q * q != 0.0;
  }

  /** A triangle hit: distance along the ray and barycentric coordinates. */
  datatype TriangleHit = TriangleHit(tNear: real, u: real, v: real)

  /** The determinant of the Moller-Trumbore test. */
  function TriangleDet(v0: Vec3, v1: Vec3, v2: Vec3, dir: Vec3): real {
    Dot(Sub(v1, v0), Cross(dir, Sub(v2, v0)))
  }

  /**
   * rayTriangleIntersect: the Moller-Trumbore test, accepting only front
   * faces (positive determinant) and points inside the triangle or on its
   * edges.  None stands for `false`; the out-parameters are then not used.
   */
  function RayTriangleIntersect(v0: Vec3, v1: Vec3, v2: Vec3, orig: Vec3, dir: Vec3): (r: Option<TriangleHit>)
    ensures TriangleDet(v0, v1, v2, dir) <= 0.0 ==> r.None?
    ensures r.Some? ==> 0.0 <= r.value.u && 0.0 <= r.value.v && r.value.u + r.value.v <= 1.0
  {
    var edge1 := Sub(v1, v0);
    var edge2 := Sub(v2, v0);
    var pvec := Cross(dir, edge2);
    var det := Dot(edge1, pvec);
    if det == 0.0 || det < 0.0 then None
    else
      var tvec := Sub(orig, v0);
      var u := Dot(tvec, pvec);
      if u < 0.0 || u > det then None
      else
        var qvec := Cross(tvec, edge1);
        var v := Dot(dir, qvec);
        if v < 0.0 || u + v > det then None
        else
          Some(ScaledHit(Dot(edge2, qvec), u, v, det))
  }

  /** The hit with its three accumulated dot products divided by det. */
  function ScaledHit(t: real, u: real, v: real, det: real): (h: TriangleHit)
    requires det > 0.0 && 0.0 <= u && 0.0 <= v && u + v <= det
    ensures 0.0 <= h.u && 0.0 <= h.v && h.u + h.v <= 1.0
  {
    var invDet := 1.0 / det;
    assert u * invDet + v * invDet == (u + v) * invDet;
    assert (u + v) * invDet <= det * invDet;
    TriangleHit(t * invDet, u * invDet, v * invDet)
  }

  /** reflect: the mirror image of I about the plane with normal N. */
  function Reflect(I: Vec3, N: Vec3): Vec3 {
    Sub(I, Scale(N, 2.0 * Dot(I, N)))
  }

  /** For a unit normal, reflection flips the normal component and keeps the length. */
  lemma ReflectProperties(I: Vec3, N: Vec3)
    requires Norm2(N) == 1.0
    ensures Dot(Reflect(I, N), N) == -Dot(I, N)
    ensures Norm2(Reflect(I, N)) == Norm2(I)
    ensures Reflect(Reflect(I, N), N) == I
  {
    var d := Dot(I, N);
    assert Dot(Reflect(I, N), N) == d - 2.0 * d * Norm2(N);
    assert Norm2(Reflect(I, N)) == Norm2(I) - 4.0 * d * d + 4.0 * d * d * Norm2(N);
  }

  /** The cosine seen by refract and fresnel: dot(I, N) clamped to [-1, 1]. */
  function IncidenceCos(I: Vec3, N: Vec3): real { Clamp(-1.0, 1.0, Dot(I, N)) }

  /**
   * eta = etai / etat of refract: 1 / ior entering (cosi < 0), ior / 1 when
   * the ray is considered inside (cosi >= 0, where etai and etat swap).
   */
  function RefractEta(I: Vec3, N: Vec3, ior: real): real
    requires ior != 0.0
  {
    if IncidenceCos(I, N) < 0.0 then 1.0 / ior else ior / 1.0
  }

  /** k of refract: negative exactly at total internal reflection. */
  function RefractK(I: Vec3, N: Vec3, ior: real): real
    requires ior != 0.0
  {
    var cosi := IncidenceCos(I, N);
    var eta := RefractEta(I, N, ior);
    1.0 - Square(eta) * (1.0 - Square(cosi))
  }

  /**
   * refract: the transmitted direction by Snell's law, or the zero vector at
   * total internal reflection.  The tangential part of I (the part across
   * N) is scaled by eta.
   */
  function Refract(num: Numerics, I: Vec3, N: Vec3, ior: real): (r: Vec3)
    requires ValidNumerics(num) && ior != 0.0
    ensures RefractK(I, N, ior) < 0.0 ==> r == Zero
    ensures RefractK(I, N, ior) >= 0.0 ==> Cross(r, N) == Scale(Cross(I, N), RefractEta(I, N, ior))
  {
    var cosi0 := IncidenceCos(I, N);
    var cosi := if cosi0 < 0.0 then -cosi0 else cosi0;
    var n := if cosi0 < 0.0 then N else Neg(N);
    var eta := RefractEta(I, N, ior);
    var k := 1.0 - Square(eta) * (1.0 - Square(cosi));
    SquareAbs(cosi0);
    assert k == RefractK(I, N, ior);
    if k < 0.0 then Zero
    else
      var r := Add(Scale(I, eta), Scale(n, eta * cosi - Sqrt(num, k)));
      CrossScaledSum(I, n, N, eta, eta * cosi - Sqrt(num, k));
      r
  }

  lemma SquareAbs(c: real)
    ensures Square(if c < 0.0 then -c else c) == Square(c)
  {
  }

  lemma CrossScaledSum(I: Vec3, n: Vec3, N: Vec3, a: real, b: real)
    requires n == N || n == Neg(N)
    ensures Cross(Add(Scale(I, a), Scale(n, b)), N) == Scale(Cross(I, N), a)
  {
    assert Cross(n, N) == Zero;
    CrossLinear(Scale(I, a), Scale(n, b), N);
    CrossScale(I, N, a);
    CrossScale(n, N, b);
  }

  lemma CrossLinear(p: Vec3, q: Vec3, N: Vec3)
    ensures Cross(Add(p, q), N) == Add(Cross(p, N), Cross(q, N))
  {
  }

  lemma CrossScale(p: Vec3, N: Vec3, a: real)
    ensures Cross(Scale(p, a), N) == Scale(Cross(p, N), a)
  {
    var l, r := Cross(Scale(p, a), N), Scale(Cross(p, N), a);
    assert l.x == r.x by { assert (p.y * a) * N.z - (p.z * a) * N.y == (p.y * N.z - p.z * N.y) * a; }
    assert l.y == r.y by { assert (p.z * a) * N.x - (p.x * a) * N.z == (p.z * N.x - p.x * N.z) * a; }
    assert l.z == r.z by { assert (p.x * a) * N.y - (p.y * a) * N.x == (p.x * N.y - p.y * N.x) * a; }
  }

  /** The sine of the transmitted angle as fresnel computes it. */
  function FresnelSint(num: Numerics, I: Vec3, N: Vec3, ior: real): (sint: real)
    requires ValidNumerics(num) && ior > 0.0
    ensures sint >= 0.0
  {
    FresnelEta(IncidenceCos(I, N), ior) * Sqrt(num, NonNegPart(1.0 - Square(IncidenceCos(I, N))))
  }

  /** etai / etat of fresnel: 1 / ior, the two swapped (ior / 1) when cosi > 0. */
  function FresnelEta(cosi: real, ior: real): (e: real)
    requires ior > 0.0
    ensures e > 0.0
  {
    if cosi > 0.0 then ior / 1.0 else 1.0 / ior
  }

  /** max(0, m). */
  function NonNegPart(m: real): (r: real)
    ensures r >= 0.0 && r >= m
  {
    if 0.0 < m then m else 0.0
  }

  /**
   * fresnel: the fraction kr of light reflected (kt = 1 - kr is
   * transmitted); 1 at total internal reflection, otherwise the mean of the
   * squared s- and p-polarised amplitude ratios.
   */
  function Fresnel(num: Numerics, I: Vec3, N: Vec3, ior: real): (kr: real)
    requires ValidNumerics(num) && ior > 0.0
    ensures 0.0 <= kr <= 1.0
    ensures FresnelSint(num, I, N, ior) >= 1.0 ==> kr == 1.0
  {
    var cosi0 := IncidenceCos(I, N);
    var etai := if cosi0 > 0.0 then ior else 1.0;
    var etat := if cosi0 > 0.0 then 1.0 else ior;
    var sint := FresnelSint(num, I, N, ior);
    if sint >= 1.0 then 1.0
    else
      var m := NonNegPart(1.0 - Square(sint));
      SquareBelowOne(sint);
      var cost := Sqrt(num, m);
      var cosi := if cosi0 < 0.0 then -cosi0 else cosi0;
      FresnelMean(etai, etat, cosi, cost)
  }

  /** kr = (Rs^2 + Rp^2) / 2 from the two amplitude ratios of fresnel. */
  function FresnelMean(etai: real, etat: real, cosi: real, cost: real): (kr: real)
    requires etai > 0.0 && etat > 0.0 && cosi >= 0.0 && cost > 0.0
    ensures 0.0 <= kr <= 1.0
  {
    var p, q := etat * cosi, etai * cost;
    var p', q' := etai * cosi, etat * cost;
    assert p >= 0.0 && q > 0.0 && p' >= 0.0 && q' > 0.0;
    AmplitudeRatio(p, q);
    AmplitudeRatio(p', q');
    var Rs := (p - q) / (p + q);
    var Rp := (p' - q') / (p' + q');
    (Rs * Rs + Rp * Rp) / 2.0
  }

  /** (p - q) / (p + q) lies in [-1, 1] for p >= 0, q > 0, so its square is at most 1. */
  lemma AmplitudeRatio(p: real, q: real)
    requires p >= 0.0 && q > 0.0
    ensures 0.0 <= ((p - q) / (p + q)) * ((p - q) / (p + q)) <= 1.0
  {
    var r := (p - q) / (p + q);
    assert r * (p + q) == p - q;
    assert -1.0 <= r <= 1.0;
  }

  /** At normal incidence from outside, kr = ((ior - 1) / (ior + 1))^2. */
  lemma {:induction false} FresnelNormalIncidence(num: Numerics, I: Vec3, N: Vec3, ior: real)
    requires ValidNumerics(num) && ior > 0.0
    requires Dot(I, N) == -1.0
    ensures Fresnel(num, I, N, ior) == ((ior - 1.0) / (ior + 1.0)) * ((ior - 1.0) / (ior + 1.0))
  {
    assert IncidenceCos(I, N) == -1.0;
    assert FresnelSint(num, I, N, ior) == 0.0;
    var Rs := (ior * 1.0 - 1.0 * 1.0) / (ior * 1.0 + 1.0 * 1.0);
    var Rp := (1.0 * 1.0 - ior * 1.0) / (1.0 * 1.0 + ior * 1.0);
    assert Rp == -Rs;
    assert Fresnel(num, I, N, ior) == (Rs * Rs + Rp * Rp) / 2.0;
  }

  /**
   * Where refract reports total internal reflection, fresnel reflects
   * everything, away from the grazing case dot(I, N) = 0 (there refract
   * treats the ray as inside and fresnel as outside).
   */
  lemma {:induction false} RefractTirImpliesFullReflection(num: Numerics, I: Vec3, N: Vec3, ior: real)
    requires ValidNumerics(num) && ExactSqrt(num) && ior > 0.0
    requires Dot(I, N) != 0.0
    requires RefractK(I, N, ior) < 0.0
    ensures Fresnel(num, I, N, ior) == 1.0
  {
    RefractTirSint(num, I, N, ior);
  }

  lemma RefractTirSint(num: Numerics, I: Vec3, N: Vec3, ior: real)
    requires ValidNumerics(num) && ExactSqrt(num) && ior > 0.0
    requires Dot(I, N) != 0.0
    requires RefractK(I, N, ior) < 0.0
    ensures FresnelSint(num, I, N, ior) >= 1.0
  {
    var sine := Sqrt(num, 1.0 - Square(IncidenceCos(I, N)));
    FresnelSintAwayFromGrazing(num, I, N, ior);
    SineSquared(num, I, N);
    SquareProduct(RefractEta(I, N, ior), sine);
    assert Square(FresnelSint(num, I, N, ior)) == Square(RefractEta(I, N, ior)) * (1.0 - Square(IncidenceCos(I, N)));
    AboveOne(FresnelSint(num, I, N, ior));
  }

  function Square(p: real): real { p * p }

  lemma SquareProduct(a: real, b: real)
    ensures Square(a * b) == Square(a) * Square(b)
  {
  }

  lemma {:induction false} AboveOne(p: real)
    requires p >= 0.0 && Square(p) > 1.0
    ensures p >= 1.0
  {
    if p < 1.0 {
      SquareBelowOne(p);
      assert false;
    }
  }

  lemma SquareBelowOne(p: real)
    requires 0.0 <= p < 1.0
    ensures Square(p) < 1.0
  {
    assert p * p <= p;
  }

  /** Away from dot(I, N) = 0, fresnel's sint is refract's eta times sqrt(1 - cosi^2). */
  lemma FresnelSintAwayFromGrazing(num: Numerics, I: Vec3, N: Vec3, ior: real)
    requires ValidNumerics(num) && ior > 0.0
    requires Dot(I, N) != 0.0
    ensures RefractEta(I, N, ior) > 0.0
    ensures FresnelSint(num, I, N, ior) == RefractEta(I, N, ior) * Sqrt(num, 1.0 - Square(IncidenceCos(I, N)))
  {
    UnitSquare(IncidenceCos(I, N));
    assert NonNegPart(1.0 - Square(IncidenceCos(I, N))) == 1.0 - Square(IncidenceCos(I, N));
    assert FresnelEta(IncidenceCos(I, N), ior) == RefractEta(I, N, ior) by {
      assert IncidenceCos(I, N) != 0.0;
    }
  }

  /** Under exact square roots, sqrt(1 - cosi^2) squares back to 1 - cosi^2. */
  lemma SineSquared(num: Numerics, I: Vec3, N: Vec3)
    requires ExactSqrt(num)
    ensures Sqrt(num, 1.0 - Square(IncidenceCos(I, N))) >= 0.0
    ensures Square(Sqrt(num, 1.0 - Square(IncidenceCos(I, N)))) == 1.0 - Square(IncidenceCos(I, N))
  {
    UnitSquare(IncidenceCos(I, N));
  }

  lemma UnitSquare(c: real)
    requires -1.0 <= c <= 1.0
    ensures Square(c) <= 1.0
  {
    if c >= 0.0 {
      assert c * c <= c * 1.0;
    } else {
      assert c * c == (-c) * (-c);
      assert (-c) * (-c) <= (-c) * 1.0;
    }
  }
}
