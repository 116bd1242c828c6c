// The scene the casts of cloudray.cpp run on, and `trace`, the search for
// the nearest object a ray hits.
//
// The casts are specified over `isect`, each object's intersect as a
// function value: `Agrees` ties it to Object.Intersect for the objects as
// they are.  Nothing in a cast or a render pass changes the geometry an
// intersect reads (the objects and the surfaces' local frames), so one such
// value serves a whole pass.

module Scene {
  import opened Geometry
  import opened Maybe
  import opened Utils
  import opened Values
  import opened Rays
  import opened Surfaces
  import opened Objects

  /** Object k's hit for a ray (orig, dir), as trace asks it: tnear = kInfinity. */
  type Isect = (nat, Vec3, Vec3) -> Option<PrimHit>

  /** Each surface cell's normal, as the casts read it. */
  type Normals = Surface -> Vec3

  /**
   * What every cast is given: the math library, the objects, their
   * intersect, their surface cells' normals and the options.
   */
  datatype World = World(num: Numerics, objects: seq<Object>, isect: Isect, normal: Normals, options: Options)

  /**
   * Objects the casts can run on: every object has a valid, non-empty grid
   * and a positive index of refraction (the divisor of fresnel and refract).
   */
  ghost predicate SceneValid(num: Numerics, objects: seq<Object>)
    reads objects
  {
    ValidNumerics(num) &&
    (forall o {:trigger o.Valid()} :: o in objects ==> o.Valid()) &&
    (forall o {:trigger o.HasCells()} :: o in objects ==> o.HasCells()) &&
    (forall o {:trigger o.ior} :: o in objects ==> o.ior > 0.0)
  }

  /** Every surface cell of every object. */
  ghost function SceneSurfaces(objects: seq<Object>): set<Surface>
    reads objects
  {
    set o, s | o in objects && s in o.pSurfaces :: s
  }

  /** `cells` holds every surface cell of every object. */
  ghost predicate CellsOf(objects: seq<Object>, cells: set<Surface>)
    reads objects
  {
    forall o, s {:trigger s in o.pSurfaces, o in objects} :: o in objects && s in o.pSurfaces ==> s in cells
  }

  /** Every angle-bucket buffer of every surface cell. */
  ghost function SceneBuffers(objects: seq<Object>): set<array<Vec3>>
    reads objects
  {
    set o, s | o in objects && s in o.pSurfaces && s.angles != null :: s.angles
  }

  /** `isect` is what the objects' intersect reports. */
  ghost predicate Agrees(num: Numerics, objects: seq<Object>, isect: Isect)
    reads objects, SceneSurfaces(objects)`world2Local
  {
    SceneValid(num, objects) &&
    forall k, o, d {:trigger objects[k].Intersect(num, o, d, INFINITY)} :: 0 <= k < |objects| ==>
      isect(k, o, d) == objects[k].Intersect(num, o, d, INFINITY)
  }

  /**
   * What the casts rely on from an intersect: a hit names a surface cell
   * of the object hit, and a bucket offset inside that cell's buffer.
   */
  ghost predicate IsectSound(objects: seq<Object>, isect: Isect)
    reads objects
  {
    forall k, o, d :: 0 <= k < |objects| && isect(k, o, d).Some? ==>
      isect(k, o, d).value.surface in objects[k].pSurfaces &&
      (isect(k, o, d).value.angle.Some? ==>
         isect(k, o, d).value.surface.angles != null &&
         isect(k, o, d).value.angle.value < isect(k, o, d).value.surface.angles.Length)
  }

  /** `normal` is the N of every surface cell in `cells`. */
  ghost predicate NormalsAgree(cells: set<Surface>, normal: Normals)
    reads cells`N
  {
    forall s | s in cells :: normal(s) == s.N
  }

  /**
   * The scene as the specification functions of the casts need it: valid
   * numerics and positive indices of refraction, which are constants of
   * the objects.
   */
  ghost predicate Ready(w: World) {
    ValidNumerics(w.num) && forall o | o in w.objects :: o.ior > 0.0
  }

  /** What every backward cast and every render pass is given about the scene. */
  ghost predicate SceneReady(num: Numerics, objects: seq<Object>, isect: Isect, normal: Normals, cells: set<Surface>)
    reads objects, SceneSurfaces(objects)`world2Local, cells`N
  {
    Agrees(num, objects, isect) && IsectSound(objects, isect) && NormalsAgree(cells, normal) && CellsOf(objects, cells)
  }

  /** The objects' own intersect is sound, so an intersect that agrees with it is. */
  lemma AgreesSound(num: Numerics, objects: seq<Object>, isect: Isect)
    requires Agrees(num, objects, isect)
    ensures IsectSound(objects, isect)
  {
    forall k, o, d | 0 <= k < |objects| && isect(k, o, d).Some?
      ensures isect(k, o, d).value.surface in objects[k].pSurfaces
      ensures isect(k, o, d).value.angle.Some? ==>
        isect(k, o, d).value.surface.angles != null &&
        isect(k, o, d).value.angle.value < isect(k, o, d).value.surface.angles.Length
    {
      assert isect(k, o, d) == objects[k].Intersect(num, o, d, INFINITY);
    }
  }

  // ---------------------------------------------------------------------
  // trace
  // ---------------------------------------------------------------------

  /** A hit on the scene: which object, and what its intersect reported. */
  datatype SceneHit = SceneHit(index: nat, hit: PrimHit)

  /** The running `tnear` of trace: the distance of the hit kept so far, or the caller's bound. */
  function KeptDistance(kept: Option<SceneHit>, tNear: real): real {
    if kept.Some? then kept.value.hit.tNear else tNear
  }

  /**
   * What trace keeps once it has asked the first n objects: object n-1's
   * hit when it is strictly closer than what the first n-1 kept, else what
   * they kept; nothing before any object is asked.
   */
  function TraceHit(isect: Isect, n: nat, orig: Vec3, dir: Vec3, tNear: real): (r: Option<SceneHit>)
    ensures r.Some? ==> r.value.index < n && isect(r.value.index, orig, dir) == Some(r.value.hit)
    ensures r.Some? ==> r.value.hit.tNear < tNear
  {
    if n == 0 then None
    else
      var kept := TraceHit(isect, n - 1, orig, dir, tNear);
      var h := isect(n - 1, orig, dir);
      if h.Some? && h.value.tNear < KeptDistance(kept, tNear) then Some(SceneHit(n - 1, h.value)) else kept
  }

  /**
   * trace finds nothing exactly when no object is hit closer than `tNear`;
   * otherwise its object is at the least distance of all, and strictly
   * closer than every object before it.
   */
  lemma {:induction false} TraceIsFirstLeast(isect: Isect, n: nat, orig: Vec3, dir: Vec3, tNear: real)
    ensures TraceHit(isect, n, orig, dir, tNear).None? <==>
      forall k :: 0 <= k < n && isect(k, orig, dir).Some? ==> isect(k, orig, dir).value.tNear >= tNear
    ensures TraceHit(isect, n, orig, dir, tNear).Some? ==>
      var h := TraceHit(isect, n, orig, dir, tNear).value;
      (forall k :: 0 <= k < n && isect(k, orig, dir).Some? ==> h.hit.tNear <= isect(k, orig, dir).value.tNear) &&
      (forall k :: 0 <= k < h.index && isect(k, orig, dir).Some? ==> h.hit.tNear < isect(k, orig, dir).value.tNear)
  {
    if n > 0 {
      TraceIsFirstLeast(isect, n - 1, orig, dir, tNear);
    }
  }

  /** The out-parameters of trace, which keep the caller's values when nothing is hit. */
  datatype Probe = Probe(tNear: real, hitPoint: Vec3, mapIdx: Vec2, hitSurface: Surface?, hitAngle: Option<nat>)

  /** What every caller passes trace: tnear = kInfinity, nothing found yet. */
  const NoProbe: Probe := Probe(INFINITY, Zero, Vec2(0.0, 0.0), null, None)

  /** The call of object k's intersect that trace makes. */
  method IntersectObject(num: Numerics, orig: Vec3, dir: Vec3, objects: seq<Object>, ghost isect: Isect, k: nat)
    returns (r: Option<PrimHit>)
    requires Agrees(num, objects, isect) && k < |objects|
    ensures r == isect(k, orig, dir)
  {
    r := objects[k].IntersectRay(num, orig, dir, INFINITY);
  }

  /**
   * What trace holds once it has asked the first n objects: the index and
   * the hit TraceHit keeps, or nothing and the caller's values.
   */
  ghost predicate Kept(isect: Isect, n: nat, orig: Vec3, dir: Vec3, p: Probe, hitObject: Option<nat>, q: Probe) {
    var kept := TraceHit(isect, n, orig, dir, p.tNear);
    (hitObject.None? <==> kept.None?) &&
    (kept.None? ==> q == p) &&
    (kept.Some? ==>
       var h := kept.value.hit;
       hitObject.value == kept.value.index && q == Probe(h.tNear, h.point, h.mapIdx, h.surface, h.angle))
  }

  /**
   * trace: ask every object in turn, keeping a hit whenever it is strictly
   * closer than the best so far.  Returns the index of the object hit.
   */
  method Trace(num: Numerics, orig: Vec3, dir: Vec3, objects: seq<Object>, ghost isect: Isect, p: Probe)
    returns (hitObject: Option<nat>, q: Probe)
    requires Agrees(num, objects, isect)
    ensures hitObject.None? <==> TraceHit(isect, |objects|, orig, dir, p.tNear).None?
    ensures hitObject.None? ==> q == p
    ensures hitObject.Some? ==>
      var h := TraceHit(isect, |objects|, orig, dir, p.tNear).value;
      hitObject.value == h.index &&
      q == Probe(h.hit.tNear, h.hit.point, h.hit.mapIdx, h.hit.surface, h.hit.angle)
  {
    hitObject := None;
    q := p;
    var k := 0;
    while k < |objects|
      invariant 0 <= k <= |objects|
      invariant Kept(isect, k, orig, dir, p, hitObject, q)
    {
      hitObject, q := TraceStep(num, orig, dir, objects, isect, p, k, hitObject, q);
      k := k + 1;
    }
  }

  /** Object k asked: its hit is kept when it is strictly closer than the best so far. */
  method TraceStep(num: Numerics, orig: Vec3, dir: Vec3, objects: seq<Object>, ghost isect: Isect, p: Probe,
                   k: nat, hitObject: Option<nat>, q: Probe)
    returns (hitObject': Option<nat>, q': Probe)
    requires Agrees(num, objects, isect) && k < |objects|
    requires Kept(isect, k, orig, dir, p, hitObject, q)
    ensures Kept(isect, k + 1, orig, dir, p, hitObject', q')
  {
    var hitK := IntersectObject(num, orig, dir, objects, isect, k);
    hitObject', q' := hitObject, q;
    if hitK.Some? && hitK.value.tNear < q.tNear {
      hitObject' := Some(k);
      q' := Probe(hitK.value.tNear, hitK.value.point, hitK.value.mapIdx, hitK.value.surface, hitK.value.angle);
    }
  }

  // ---------------------------------------------------------------------
  // Bookkeeping shared by both casts
  // ---------------------------------------------------------------------

  /**
   * Where a child ray starts: the hit point moved by `bias` along the normal,
   * to the side of the surface the child travels into.
   */
  function BiasedOrigin(point: Vec3, N: Vec3, d: Vec3, bias: real): (o: Vec3)
    ensures Dot(d, N) < 0.0 ==> Add(o, Scale(N, bias)) == point
    ensures Dot(d, N) >= 0.0 ==> Sub(o, Scale(N, bias)) == point
  {
    if Dot(d, N) < 0.0 then Sub(point, Scale(N, bias)) else Add(point, Scale(N, bias))
  }
}
