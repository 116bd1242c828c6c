// backwardCastRay of cloudray.cpp: the Whitted shade of a ray cast from the
// eye (or from just outside a surface cell, in the object pass).  Past
// options.maxDepth it gives the background; a miss gives the background;
// with `withObjectRender` a hit is shaded from the angle cache alone;
// otherwise reflective and refractive objects shade from child rays, and a
// diffuse object from its lights, either tested for shadow one by one or,
// with `withLightRender`, replaced by the irradiance the light pass left in
// the cell.
//
// The method BackwardCastRay updates the RayStore counters; the ghost
// function Backward says what colour it returns and what the counters are
// once it returns.  A backward cast writes nothing else: the caches it reads
// are passed to the specification as values (Caches) that agree with the
// cells.  The `pDeltaAmt` parameter of the source is left out: the only call
// passing it sits in code that never runs.

module Backward {
  import opened Geometry
  import opened Maybe
  import opened Utils
  import opened Values
  import opened Rays
  import opened Surfaces
  import opened Objects
  import opened Scene

  /** What a backward cast does: its colour and the counters once it returns. */
  datatype Shade = Shade(color: Vec3, counts: Counters)

  /**
   * The caches a backward cast may read, as values: each surface cell's
   * `diffuseAmt`, and each (cell, bucket offset)'s `angleColor`.
   */
  datatype Caches = Caches(amt: Surface -> Vec3, angleColor: (Surface, nat) -> Vec3)

  /** The bucket buffers of the cells. */
  ghost function CellBuffers(cells: set<Surface>): set<array<Vec3>>
  {
    set s | s in cells && s.angles != null :: s.angles
  }

  /** `caches` holds what the cells hold. */
  ghost predicate CachesAgree(cells: set<Surface>, caches: Caches)
    reads cells`diffuseAmt, CellBuffers(cells)
  {
    (forall s | s in cells :: caches.amt(s) == s.diffuseAmt) &&
    (forall s, i | s in cells && s.angles != null && 0 <= i < s.angles.Length :: caches.angleColor(s, i) == s.angles[i])
  }

  /** The share of the reflected colour a REFLECTION object shows. */
  const BACKWARD_KR: real := 0.5

  /**
   * The shade of a hit when the angle cache is read: the colour stored in
   * the hit's bucket, or, when the hit has no bucket, the cell's irradiance
   * times the object's diffuse colour (the specular term is zero there).
   */
  function CachedShade(caches: Caches, obj: Object, hit: PrimHit): Vec3 {
    if hit.angle.None? then
      Add(Mul(Add(caches.amt(hit.surface), Zero), obj.EvalDiffuseColor(hit.mapIdx)), Scale(Zero, obj.Ks))
    else caches.angleColor(hit.surface, hit.angle.value)
  }

  /** The cached diffuse term reflective objects add with `withLightRender`, zero without. */
  function DiffuseTerm(caches: Caches, obj: Object, hit: PrimHit, withLightRender: bool): Vec3 {
    if withLightRender then Mul(caches.amt(hit.surface), obj.EvalDiffuseColor(hit.mapIdx)) else Zero
  }

  /**
   * backwardCastRay: past options.maxDepth only an overflow is counted.
   * Otherwise the ray is counted and traced.
   */
  ghost function Backward(w: World, lights: seq<Light>, caches: Caches, depth: nat, orig: Vec3, dir: Vec3,
                          withLightRender: bool, withObjectRender: bool, pre: Counters): (r: Shade)
    ensures SameOrigins(pre, r.counts)
    requires Ready(w)
    decreases w.options.maxDepth + 1 - depth, w, 8
  {
    if depth > w.options.maxDepth then
      Shade(w.options.backgroundColor, pre.(overflowRays := pre.overflowRays + 1))
    else
      BackwardTraced(w, lights, caches, depth, dir, withLightRender, withObjectRender,
                     TraceHit(w.isect, |w.objects|, orig, dir, INFINITY), pre.(totalRays := pre.totalRays + 1))
  }

  /**
   * backwardCastRay once the trace has found `hit`: a miss is a no-hit;
   * with `withObjectRender` a hit is shaded from the cache, else by its material.
   */
  ghost function BackwardTraced(w: World, lights: seq<Light>, caches: Caches, depth: nat, dir: Vec3,
                                withLightRender: bool, withObjectRender: bool, hit: Option<SceneHit>,
                                pre: Counters): (r: Shade)
    ensures SameOrigins(pre, r.counts)
    requires Ready(w) && depth <= w.options.maxDepth
    requires hit.Some? ==> hit.value.index < |w.objects|
    decreases w.options.maxDepth + 1 - depth, w, 7
  {
    if hit.None? then Shade(w.options.backgroundColor, pre.(nohitRays := pre.nohitRays + 1))
    else
      var obj := w.objects[hit.value.index];
      if withObjectRender then Shade(CachedShade(caches, obj, hit.value.hit), pre)
      else BackwardMaterial(w, lights, caches, depth, dir, withLightRender, obj, hit.value.hit, pre)
  }

  /** The material switch of a backward hit. */
  ghost function BackwardMaterial(w: World, lights: seq<Light>, caches: Caches, depth: nat, dir: Vec3,
                                  withLightRender: bool, obj: Object, hit: PrimHit, pre: Counters): (r: Shade)
    ensures SameOrigins(pre, r.counts)
    requires Ready(w) && depth <= w.options.maxDepth && obj in w.objects
    decreases w.options.maxDepth + 1 - depth, w, 6
  {
    var N := w.normal(hit.surface);
    match obj.materialType
    case ReflectionAndRefraction => BackwardRR(w, lights, caches, depth, dir, withLightRender, obj, hit, N, pre)
    case Reflection => BackwardReflect(w, lights, caches, depth, dir, withLightRender, obj, hit, N, pre)
    case DiffuseAndGlossy => BackwardDiffuse(w, lights, caches, dir, withLightRender, obj, hit, N, pre)
  }

  /**
   * Reflective and refractive: the two children mixed by the Fresnel share
   * kr, plus the cached diffuse term.  Nothing is pruned here.
   */
  ghost function BackwardRR(w: World, lights: seq<Light>, caches: Caches, depth: nat, dir: Vec3,
                            withLightRender: bool, obj: Object, hit: PrimHit, N: Vec3, pre: Counters): (r: Shade)
    ensures SameOrigins(pre, r.counts)
    requires Ready(w) && depth <= w.options.maxDepth && obj in w.objects
    decreases w.options.maxDepth + 1 - depth, w, 5
  {
    var kr := Fresnel(w.num, dir, N, obj.ior);
    var children := BackRRChildren(w, lights, caches, depth, dir, withLightRender, N, hit.point, obj.ior, kr, pre);
    Shade(Add(children.color, DiffuseTerm(caches, obj, hit, withLightRender)), children.counts)
  }

  /**
   * Both children of a reflective and refractive hit: the reflected one
   * (none when its direction points into the surface), then the refracted
   * one, their colours mixed in the shares kr and 1 - kr.
   */
  ghost function BackRRChildren(w: World, lights: seq<Light>, caches: Caches, depth: nat, dir: Vec3,
                                withLightRender: bool, N: Vec3, point: Vec3, ior: real, kr: real,
                                pre: Counters): (r: Shade)
    ensures SameOrigins(pre, r.counts)
    requires Ready(w) && depth <= w.options.maxDepth && ior > 0.0
    decreases w.options.maxDepth + 1 - depth, w, 4
  {
    var refl := BackRRReflection(w, lights, caches, depth, dir, withLightRender, N, point, pre);
    var refr := BackRRRefraction(w, lights, caches, depth, dir, withLightRender, N, point, ior, refl.counts);
    Shade(Add(Scale(refl.color, kr), Scale(refr.color, 1.0 - kr)), refr.counts)
  }

  /** The reflected child of a reflective and refractive hit: black and uncounted when it would go inside. */
  ghost function BackRRReflection(w: World, lights: seq<Light>, caches: Caches, depth: nat, dir: Vec3,
                                  withLightRender: bool, N: Vec3, point: Vec3, pre: Counters): (r: Shade)
    ensures SameOrigins(pre, r.counts)
    requires Ready(w) && depth <= w.options.maxDepth
    decreases w.options.maxDepth + 1 - depth, w, 3
  {
    var reflDir := Normalize(w.num, Reflect(dir, N));
    if Dot(reflDir, N) < 0.0 then Shade(Zero, pre)
    else BackwardChild(w, lights, caches, depth, RayTypeReflection, BiasedOrigin(point, N, reflDir, w.options.bias),
                       reflDir, withLightRender, pre)
  }

  /** The refracted child of a reflective and refractive hit, always cast. */
  ghost function BackRRRefraction(w: World, lights: seq<Light>, caches: Caches, depth: nat, dir: Vec3,
                                  withLightRender: bool, N: Vec3, point: Vec3, ior: real, pre: Counters): (r: Shade)
    ensures SameOrigins(pre, r.counts)
    requires Ready(w) && depth <= w.options.maxDepth && ior > 0.0
    decreases w.options.maxDepth + 1 - depth, w, 3
  {
    var refrDir := Normalize(w.num, Refract(w.num, dir, N, ior));
    BackwardChild(w, lights, caches, depth, RayTypeRefraction, BiasedOrigin(point, N, refrDir, w.options.bias),
                  refrDir, withLightRender, pre)
  }

  /** Reflective: one child along the (not normalized) mirror direction, at half weight, plus the cached diffuse term. */
  ghost function BackwardReflect(w: World, lights: seq<Light>, caches: Caches, depth: nat, dir: Vec3,
                                 withLightRender: bool, obj: Object, hit: PrimHit, N: Vec3, pre: Counters): (r: Shade)
    ensures SameOrigins(pre, r.counts)
    requires Ready(w) && depth <= w.options.maxDepth
    decreases w.options.maxDepth + 1 - depth, w, 5
  {
    var reflDir := Reflect(dir, N);
    var refl := BackwardChild(w, lights, caches, depth, RayTypeReflection,
                              BiasedOrigin(hit.point, N, reflDir, w.options.bias), reflDir, withLightRender, pre);
    Shade(Add(Scale(refl.color, BACKWARD_KR), DiffuseTerm(caches, obj, hit, withLightRender)), refl.counts)
  }

  /**
   * A child ray: counted by its kind, then cast one level deeper; it keeps
   * `withLightRender` and never reads the angle cache.
   */
  ghost function BackwardChild(w: World, lights: seq<Light>, caches: Caches, depth: nat, rayType: RayType,
                               orig: Vec3, dir: Vec3, withLightRender: bool, pre: Counters): (r: Shade)
    ensures SameOrigins(pre, r.counts)
    requires Ready(w) && depth <= w.options.maxDepth && rayType != RayTypeOrig
    decreases w.options.maxDepth + 1 - depth, w, 2
  {
    Backward(w, lights, caches, depth + 1, orig, dir, withLightRender, false, ChildCounted(pre, rayType))
  }

  // ---------------------------------------------------------------------
  // The diffuse (Phong) case
  // ---------------------------------------------------------------------

  /** Where the shadow rays start: the hit point moved by `bias` to the side the ray came from. */
  function ShadowOrigin(point: Vec3, N: Vec3, dir: Vec3, bias: real): (o: Vec3)
    ensures Dot(dir, N) < 0.0 ==> Sub(o, Scale(N, bias)) == point
    ensures Dot(dir, N) >= 0.0 ==> Add(o, Scale(N, bias)) == point
  {
    if Dot(dir, N) < 0.0 then Add(point, Scale(N, bias)) else Sub(point, Scale(N, bias))
  }

  /**
   * The shadow test of one light: the shadow ray from `orig` towards the
   * light hits an object nearer than the light (squared distances).
   */
  function InShadow(w: World, orig: Vec3, lightDir: Vec3, lightDistance2: real): bool {
    var h := TraceHit(w.isect, |w.objects|, orig, lightDir, INFINITY);
    h.Some? && Square(h.value.hit.tNear) < lightDistance2
  }

  /** One light's Lambert term: (1 - inShadow) * intensity * max(0, L.N) * Kd. */
  function LightShare(w: World, light: Light, lightDir: Vec3, lightDistance2: real, N: Vec3, shadowOrig: Vec3,
                      Kd: real): Vec3
  {
    var LdotN := NonNegPart(Dot(lightDir, N));
    var lit := if InShadow(w, shadowOrig, lightDir, lightDistance2) then 0.0 else 1.0;
    Scale(Scale(Scale(light.intensity, lit), LdotN), Kd)
  }

  /** One light's Phong term: max(0, -R.dir)^specularExponent * intensity, R the mirror of -L. */
  function SpecularShare(num: Numerics, light: Light, lightDir: Vec3, N: Vec3, dir: Vec3, specularExponent: real): Vec3 {
    Scale(light.intensity, Pow(num, NonNegPart(-Dot(Reflect(Neg(lightDir), N), dir)), specularExponent))
  }

  /** What the lights loop accumulates: the local irradiance, the specular sum and the last light's term. */
  datatype LightAcc = LightAcc(localAmt: Vec3, specular: Vec3, tmpAmt: Vec3)

  /**
   * The lights loop after the first n lights.  With `withLightRender` no
   * shadow ray is traced and only the specular sum grows.
   */
  function LightSums(w: World, lights: seq<Light>, n: nat, point: Vec3, N: Vec3, dir: Vec3, shadowOrig: Vec3,
                     obj: Object, withLightRender: bool): LightAcc
    requires ValidNumerics(w.num) && n <= |lights|
  {
    if n == 0 then LightAcc(Zero, Zero, Zero)
    else
      var acc := LightSums(w, lights, n - 1, point, N, dir, shadowOrig, obj, withLightRender);
      var light := lights[n - 1];
      var toLight := Sub(light.position, point);
      var lightDir := Normalize(w.num, toLight);
      var specular := Add(acc.specular, SpecularShare(w.num, light, lightDir, N, dir, obj.specularExponent));
      if withLightRender then LightAcc(acc.localAmt, specular, acc.tmpAmt)
      else
        var tmp := LightShare(w, light, lightDir, Dot(toLight, toLight), N, shadowOrig, obj.Kd);
        LightAcc(Add(acc.localAmt, tmp), specular, tmp)
  }

  /**
   * Diffuse: the lights' local irradiance (or, with `withLightRender`, the
   * cell's cached one) times the diffuse colour, plus the specular sum
   * times Ks.  Counted invisible when the last light's term is zero.
   */
  ghost function BackwardDiffuse(w: World, lights: seq<Light>, caches: Caches, dir: Vec3, withLightRender: bool,
                                 obj: Object, hit: PrimHit, N: Vec3, pre: Counters): (r: Shade)
    ensures SameOrigins(pre, r.counts)
    requires Ready(w)
  {
    var shadowOrig := ShadowOrigin(hit.point, N, dir, w.options.bias);
    var acc := LightSums(w, lights, |lights|, hit.point, N, dir, shadowOrig, obj, withLightRender);
    var globalAmt := if withLightRender then caches.amt(hit.surface) else Zero;
    var localAmt := if withLightRender then Zero else acc.localAmt;
    Shade(Add(Mul(Add(globalAmt, localAmt), obj.EvalDiffuseColor(hit.mapIdx)), Scale(acc.specular, obj.Ks)),
          if acc.tmpAmt == Zero then pre.(invisibleRays := pre.invisibleRays + 1)
          else pre.(validRays := pre.validRays + 1))
  }

  // ---------------------------------------------------------------------
  // The casts.  As in the forward cast, no Ray node is current during a
  // cast (rayStore.currRay stays null), so nothing is recorded.
  // ---------------------------------------------------------------------

  /** backwardCastRay. */
  method BackwardCastRay(num: Numerics, rayStore: RayStore, orig: Vec3, dir: Vec3, objects: seq<Object>,
                         lights: seq<Light>, options: Options, depth: nat, withLightRender: bool, withObjectRender: bool,
                         ghost isect: Isect, ghost normal: Normals, ghost caches: Caches, ghost cells: set<Surface>)
    returns (color: Vec3)
    requires SceneReady(num, objects, isect, normal, cells)
    requires withLightRender || withObjectRender ==> CachesAgree(cells, caches)
    requires rayStore.currRay == null
    modifies rayStore
    ensures var r := Backward(World(num, objects, isect, normal, options), lights, caches, depth, orig, dir,
                              withLightRender, withObjectRender, old(rayStore.Counts()));
      color == r.color && rayStore.Counts() == r.counts
    ensures rayStore.currRay == null && rayStore.currPixel == old(rayStore.currPixel)
    decreases options.maxDepth + 1 - depth, 12
  {
    if depth > options.maxDepth {
      rayStore.CountOverflow();
      return options.backgroundColor;
    }
    color := BackwardTrace(num, rayStore, orig, dir, objects, lights, options, depth, withLightRender,
                           withObjectRender, isect, normal, caches, cells);
  }

  /** backwardCastRay within the depth limit: the ray is counted, then traced. */
  method BackwardTrace(num: Numerics, rayStore: RayStore, orig: Vec3, dir: Vec3, objects: seq<Object>,
                       lights: seq<Light>, options: Options, depth: nat, withLightRender: bool,
                       withObjectRender: bool,
                       ghost isect: Isect, ghost normal: Normals, ghost caches: Caches, ghost cells: set<Surface>)
    returns (color: Vec3)
    requires SceneReady(num, objects, isect, normal, cells)
    requires withLightRender || withObjectRender ==> CachesAgree(cells, caches)
    requires rayStore.currRay == null && depth <= options.maxDepth
    modifies rayStore
    ensures var r := BackwardTraced(World(num, objects, isect, normal, options), lights, caches, depth, dir,
                                    withLightRender, withObjectRender, TraceHit(isect, |objects|, orig, dir, INFINITY),
                                    old(rayStore.Counts()).(totalRays := old(rayStore.totalRays) + 1));
      color == r.color && rayStore.Counts() == r.counts
    ensures rayStore.currRay == null && rayStore.currPixel == old(rayStore.currPixel)
    decreases options.maxDepth + 1 - depth, 11
  {
    rayStore.CountTraced();
    color := BackwardTraceHit(num, rayStore, orig, dir, objects, lights, options, depth, withLightRender,
                              withObjectRender, isect, normal, caches, cells);
  }

  /** backwardCastRay within the depth limit, once the ray is counted: the trace. */
  method BackwardTraceHit(num: Numerics, rayStore: RayStore, orig: Vec3, dir: Vec3, objects: seq<Object>,
                          lights: seq<Light>, options: Options, depth: nat, withLightRender: bool,
                          withObjectRender: bool,
                          ghost isect: Isect, ghost normal: Normals, ghost caches: Caches, ghost cells: set<Surface>)
    returns (color: Vec3)
    requires SceneReady(num, objects, isect, normal, cells)
    requires withLightRender || withObjectRender ==> CachesAgree(cells, caches)
    requires rayStore.currRay == null && depth <= options.maxDepth
    modifies rayStore
    ensures var r := BackwardTraced(World(num, objects, isect, normal, options), lights, caches, depth, dir,
                                    withLightRender, withObjectRender,
                                    TraceHit(isect, |objects|, orig, dir, INFINITY), old(rayStore.Counts()));
      color == r.color && rayStore.Counts() == r.counts
    ensures rayStore.currRay == null && rayStore.currPixel == old(rayStore.currPixel)
    decreases options.maxDepth + 1 - depth, 10
  {
    var hitObject, probe := Trace(num, orig, dir, objects, isect, NoProbe);
    ghost var hit := TraceHit(isect, |objects|, orig, dir, INFINITY);
    if hit.Some? {
      assert isect(hit.value.index, orig, dir) == Some(hit.value.hit);
    }
    color := BackwardTracedCast(num, rayStore, dir, objects, lights, options, depth, withLightRender,
                                withObjectRender, hitObject, probe, hit, isect, normal, caches, cells);
  }

  /** backwardCastRay after the trace: the miss, the angle-cache shade, or the material switch. */
  method BackwardTracedCast(num: Numerics, rayStore: RayStore, dir: Vec3, objects: seq<Object>,
                            lights: seq<Light>, options: Options, depth: nat, withLightRender: bool,
                            withObjectRender: bool, hitObject: Option<nat>, probe: Probe, ghost hit: Option<SceneHit>,
                            ghost isect: Isect, ghost normal: Normals, ghost caches: Caches, ghost cells: set<Surface>)
    returns (color: Vec3)
    requires SceneReady(num, objects, isect, normal, cells)
    requires withLightRender || withObjectRender ==> CachesAgree(cells, caches)
    requires rayStore.currRay == null && depth <= options.maxDepth
    requires hitObject == if hit.Some? then Some(hit.value.index) else None
    requires hit.Some? ==>
      var h := hit.value.hit;
      hit.value.index < |objects| && h.surface in objects[hit.value.index].pSurfaces &&
      (h.angle.Some? ==> h.surface.angles != null && h.angle.value < h.surface.angles.Length) &&
      probe == Probe(h.tNear, h.point, h.mapIdx, h.surface, h.angle)
    modifies rayStore
    ensures var r := BackwardTraced(World(num, objects, isect, normal, options), lights, caches, depth, dir,
                                    withLightRender, withObjectRender, hit, old(rayStore.Counts()));
      color == r.color && rayStore.Counts() == r.counts
    ensures rayStore.currRay == null && rayStore.currPixel == old(rayStore.currPixel)
    decreases options.maxDepth + 1 - depth, 9
  {
    if hitObject.None? {
      rayStore.CountNohit();
      return options.backgroundColor;
    }
    var obj := objects[hitObject.value];
    var hitSurface := probe.hitSurface;
    SurfaceInCells(objects, cells, obj, hitSurface);
    var N := hitSurface.N;
    rayStore.MarkValid(obj, probe.hitPoint);
    ghost var h := hit.value.hit;
    if withObjectRender {
      if probe.hitAngle.None? {
        var globalAmt := hitSurface.diffuseAmt;
        var localAmt := Zero;
        color := Add(Mul(Add(globalAmt, localAmt), obj.EvalDiffuseColor(probe.mapIdx)), Scale(Zero, obj.Ks));
      } else {
        color := hitSurface.angles[probe.hitAngle.value];
      }
      return;
    }
    color := BackwardMaterialCast(num, rayStore, dir, objects, lights, options, depth, withLightRender, obj, h,
                                  hitSurface, N, probe.hitPoint, probe.mapIdx, isect, normal, caches, cells);
  }

  lemma SurfaceInCells(objects: seq<Object>, cells: set<Surface>, obj: Object, s: Surface)
    requires CellsOf(objects, cells) && obj in objects && s in obj.pSurfaces
    ensures s in cells
  {
  }

  /** backwardCastRay's material switch. */
  method BackwardMaterialCast(num: Numerics, rayStore: RayStore, dir: Vec3, objects: seq<Object>,
                              lights: seq<Light>, options: Options, depth: nat, withLightRender: bool, obj: Object,
                              ghost hit: PrimHit, hitSurface: Surface, N: Vec3, hitPoint: Vec3, mapIdx: Vec2,
                              ghost isect: Isect, ghost normal: Normals, ghost caches: Caches, ghost cells: set<Surface>)
    returns (color: Vec3)
    requires SceneReady(num, objects, isect, normal, cells) && (withLightRender ==> CachesAgree(cells, caches))
    requires rayStore.currRay == null && depth <= options.maxDepth && obj in objects
    requires hitSurface == hit.surface && hitSurface in cells && N == hitSurface.N
    requires hitPoint == hit.point && mapIdx == hit.mapIdx
    modifies rayStore
    ensures var r := BackwardMaterial(World(num, objects, isect, normal, options), lights, caches, depth, dir,
                                      withLightRender, obj, hit, old(rayStore.Counts()));
      color == r.color && rayStore.Counts() == r.counts
    ensures rayStore.currRay == null && rayStore.currPixel == old(rayStore.currPixel)
    decreases options.maxDepth + 1 - depth, 8
  {
    assert N == normal(hit.surface);
    match obj.materialType
    case ReflectionAndRefraction =>
      color := BackwardRRCast(num, rayStore, dir, objects, lights, options, depth, withLightRender, obj, hit,
                              hitSurface, N, hitPoint, mapIdx, isect, normal, caches, cells);
    case Reflection =>
      color := BackwardReflectCast(num, rayStore, dir, objects, lights, options, depth, withLightRender, obj, hit,
                                   hitSurface, N, hitPoint, mapIdx, isect, normal, caches, cells);
    case DiffuseAndGlossy =>
      color := BackwardDiffuseCast(num, rayStore, dir, objects, lights, options, withLightRender, obj, hit,
                                   hitSurface, N, hitPoint, mapIdx, isect, normal, caches, cells);
  }

  /** The REFLECTION_AND_REFRACTION case of backwardCastRay. */
  method BackwardRRCast(num: Numerics, rayStore: RayStore, dir: Vec3, objects: seq<Object>,
                        lights: seq<Light>, options: Options, depth: nat, withLightRender: bool, obj: Object,
                        ghost hit: PrimHit, hitSurface: Surface, N: Vec3, hitPoint: Vec3, mapIdx: Vec2,
                        ghost isect: Isect, ghost normal: Normals, ghost caches: Caches, ghost cells: set<Surface>)
    returns (color: Vec3)
    requires SceneReady(num, objects, isect, normal, cells) && (withLightRender ==> CachesAgree(cells, caches))
    requires rayStore.currRay == null && depth <= options.maxDepth && obj in objects
    requires hitSurface == hit.surface && hitSurface in cells
    requires hitPoint == hit.point && mapIdx == hit.mapIdx
    modifies rayStore
    ensures var r := BackwardRR(World(num, objects, isect, normal, options), lights, caches, depth, dir,
                                withLightRender, obj, hit, N, old(rayStore.Counts()));
      color == r.color && rayStore.Counts() == r.counts
    ensures rayStore.currRay == null && rayStore.currPixel == old(rayStore.currPixel)
    decreases options.maxDepth + 1 - depth, 7
  {
    var kr := Fresnel(num, dir, N, obj.ior);
    color := BackRRChildrenCast(num, rayStore, dir, objects, lights, options, depth, withLightRender, N, hitPoint,
                                obj.ior, kr, isect, normal, caches, cells);
    var diffuseColor := Zero;
    if withLightRender {
      diffuseColor := Mul(hitSurface.diffuseAmt, obj.EvalDiffuseColor(mapIdx));
    }
    color := Add(color, diffuseColor);
  }

  /** Both children of the REFLECTION_AND_REFRACTION case, and their colours mixed. */
  method BackRRChildrenCast(num: Numerics, rayStore: RayStore, dir: Vec3, objects: seq<Object>,
                            lights: seq<Light>, options: Options, depth: nat, withLightRender: bool,
                            N: Vec3, hitPoint: Vec3, ior: real, kr: real,
                            ghost isect: Isect, ghost normal: Normals, ghost caches: Caches, ghost cells: set<Surface>)
    returns (color: Vec3)
    requires SceneReady(num, objects, isect, normal, cells) && (withLightRender ==> CachesAgree(cells, caches))
    requires rayStore.currRay == null && depth <= options.maxDepth && ior > 0.0
    modifies rayStore
    ensures var r := BackRRChildren(World(num, objects, isect, normal, options), lights, caches, depth, dir,
                                    withLightRender, N, hitPoint, ior, kr, old(rayStore.Counts()));
      color == r.color && rayStore.Counts() == r.counts
    ensures rayStore.currRay == null && rayStore.currPixel == old(rayStore.currPixel)
    decreases options.maxDepth + 1 - depth, 6
  {
    var reflectionColor := BackRRReflectionCast(num, rayStore, dir, objects, lights, options, depth,
                                                withLightRender, N, hitPoint, isect, normal, caches, cells);
    var refractionColor := BackRRRefractionCast(num, rayStore, dir, objects, lights, options, depth,
                                                withLightRender, N, hitPoint, ior, isect, normal, caches, cells);
    color := Add(Scale(reflectionColor, kr), Scale(refractionColor, 1.0 - kr));
  }

  /** The reflected child of the REFLECTION_AND_REFRACTION case. */
  method BackRRReflectionCast(num: Numerics, rayStore: RayStore, dir: Vec3, objects: seq<Object>,
                              lights: seq<Light>, options: Options, depth: nat, withLightRender: bool,
                              N: Vec3, hitPoint: Vec3,
                              ghost isect: Isect, ghost normal: Normals, ghost caches: Caches, ghost cells: set<Surface>)
    returns (color: Vec3)
    requires SceneReady(num, objects, isect, normal, cells) && (withLightRender ==> CachesAgree(cells, caches))
    requires rayStore.currRay == null && depth <= options.maxDepth
    modifies rayStore
    ensures var r := BackRRReflection(World(num, objects, isect, normal, options), lights, caches, depth, dir,
                                      withLightRender, N, hitPoint, old(rayStore.Counts()));
      color == r.color && rayStore.Counts() == r.counts
    ensures rayStore.currRay == null && rayStore.currPixel == old(rayStore.currPixel)
    decreases options.maxDepth + 1 - depth, 5
  {
    var reflectionDirection := Normalize(num, Reflect(dir, N));
    var insideObject := Dot(reflectionDirection, N) < 0.0;
    var reflectionRayOrig := BiasedOrigin(hitPoint, N, reflectionDirection, options.bias);
    color := Zero;
    // no reflection ray is traced inside the object
    if !insideObject {
      color := BackwardChildRay(num, rayStore, objects, lights, options, depth, RayTypeReflection, reflectionRayOrig,
                                 reflectionDirection, withLightRender, isect, normal, caches, cells);
    }
  }

  /** The refracted child of the REFLECTION_AND_REFRACTION case. */
  method BackRRRefractionCast(num: Numerics, rayStore: RayStore, dir: Vec3, objects: seq<Object>,
                              lights: seq<Light>, options: Options, depth: nat, withLightRender: bool,
                              N: Vec3, hitPoint: Vec3, ior: real,
                              ghost isect: Isect, ghost normal: Normals, ghost caches: Caches, ghost cells: set<Surface>)
    returns (color: Vec3)
    requires SceneReady(num, objects, isect, normal, cells) && (withLightRender ==> CachesAgree(cells, caches))
    requires rayStore.currRay == null && depth <= options.maxDepth && ior > 0.0
    modifies rayStore
    ensures var r := BackRRRefraction(World(num, objects, isect, normal, options), lights, caches, depth, dir,
                                      withLightRender, N, hitPoint, ior, old(rayStore.Counts()));
      color == r.color && rayStore.Counts() == r.counts
    ensures rayStore.currRay == null && rayStore.currPixel == old(rayStore.currPixel)
    decreases options.maxDepth + 1 - depth, 5
  {
    var refractionDirection := Normalize(num, Refract(num, dir, N, ior));
    var refractionRayOrig := BiasedOrigin(hitPoint, N, refractionDirection, options.bias);
    color := BackwardChildRay(num, rayStore, objects, lights, options, depth, RayTypeRefraction, refractionRayOrig,
                               refractionDirection, withLightRender, isect, normal, caches, cells);
  }

  /** The REFLECTION case of backwardCastRay. */
  method BackwardReflectCast(num: Numerics, rayStore: RayStore, dir: Vec3, objects: seq<Object>,
                             lights: seq<Light>, options: Options, depth: nat, withLightRender: bool, obj: Object,
                             ghost hit: PrimHit, hitSurface: Surface, N: Vec3, hitPoint: Vec3, mapIdx: Vec2,
                             ghost isect: Isect, ghost normal: Normals, ghost caches: Caches, ghost cells: set<Surface>)
    returns (color: Vec3)
    requires SceneReady(num, objects, isect, normal, cells) && (withLightRender ==> CachesAgree(cells, caches))
    requires rayStore.currRay == null && depth <= options.maxDepth
    requires hitSurface == hit.surface && hitSurface in cells
    requires hitPoint == hit.point && mapIdx == hit.mapIdx
    modifies rayStore
    ensures var r := BackwardReflect(World(num, objects, isect, normal, options), lights, caches, depth, dir,
                                     withLightRender, obj, hit, N, old(rayStore.Counts()));
      color == r.color && rayStore.Counts() == r.counts
    ensures rayStore.currRay == null && rayStore.currPixel == old(rayStore.currPixel)
    decreases options.maxDepth + 1 - depth, 7
  {
    var kr := BACKWARD_KR;
    var reflectionDirection := Reflect(dir, N);
    var reflectionRayOrig := BiasedOrigin(hitPoint, N, reflectionDirection, options.bias);
    var reflectionColor := BackwardChildRay(num, rayStore, objects, lights, options, depth, RayTypeReflection,
                                             reflectionRayOrig,
                                             reflectionDirection, withLightRender, isect, normal, caches, cells);
    reflectionColor := Scale(reflectionColor, kr);
    var diffuseColor := Zero;
    if withLightRender {
      diffuseColor := Mul(hitSurface.diffuseAmt, obj.EvalDiffuseColor(mapIdx));
    }
    color := Add(reflectionColor, diffuseColor);
  }

  /** A child ray of a backward hit: counted by its kind, then cast. */
  method BackwardChildRay(num: Numerics, rayStore: RayStore, objects: seq<Object>, lights: seq<Light>,
                          options: Options, depth: nat, rayType: RayType, orig: Vec3, dir: Vec3, withLightRender: bool,
                          ghost isect: Isect, ghost normal: Normals, ghost caches: Caches, ghost cells: set<Surface>)
    returns (color: Vec3)
    requires SceneReady(num, objects, isect, normal, cells) && (withLightRender ==> CachesAgree(cells, caches))
    requires rayStore.currRay == null && depth <= options.maxDepth && rayType != RayTypeOrig
    modifies rayStore
    ensures var r := BackwardChild(World(num, objects, isect, normal, options), lights, caches, depth, rayType, orig,
                                   dir, withLightRender, old(rayStore.Counts()));
      color == r.color && rayStore.Counts() == r.counts
    ensures rayStore.currRay == null && rayStore.currPixel == old(rayStore.currPixel)
    decreases options.maxDepth + 1 - depth, 4
  {
    rayStore.CountChild(rayType);
    color := BackwardChildTail(num, rayStore, objects, lights, options, depth, orig, dir, withLightRender,
                               isect, normal, caches, cells);
  }

  /**
   * A child ray of a backward hit, once counted: its cast one level deeper
   * without the angle cache, then the Ray node current before it (none)
   * made current again.
   */
  method BackwardChildTail(num: Numerics, rayStore: RayStore, objects: seq<Object>, lights: seq<Light>,
                           options: Options, depth: nat, orig: Vec3, dir: Vec3, withLightRender: bool,
                           ghost isect: Isect, ghost normal: Normals, ghost caches: Caches, ghost cells: set<Surface>)
    returns (color: Vec3)
    requires SceneReady(num, objects, isect, normal, cells) && (withLightRender ==> CachesAgree(cells, caches))
    requires rayStore.currRay == null && depth <= options.maxDepth
    modifies rayStore
    ensures var r := Backward(World(num, objects, isect, normal, options), lights, caches, depth + 1, orig, dir,
                              withLightRender, false, old(rayStore.Counts()));
      color == r.color && rayStore.Counts() == r.counts
    ensures rayStore.currRay == null && rayStore.currPixel == old(rayStore.currPixel)
    decreases options.maxDepth + 1 - depth, 3
  {
    var parent: Ray? := null;
    color := BackwardCastRay(num, rayStore, orig, dir, objects, lights, options, depth + 1, withLightRender, false,
                             isect, normal, caches, cells);
    rayStore.Restore(parent);
  }

  /** The default (diffuse and glossy) case of backwardCastRay. */
  method BackwardDiffuseCast(num: Numerics, rayStore: RayStore, dir: Vec3, objects: seq<Object>,
                             lights: seq<Light>, options: Options, withLightRender: bool, obj: Object,
                             ghost hit: PrimHit, hitSurface: Surface, N: Vec3, hitPoint: Vec3, mapIdx: Vec2,
                             ghost isect: Isect, ghost normal: Normals, ghost caches: Caches, ghost cells: set<Surface>)
    returns (color: Vec3)
    requires SceneReady(num, objects, isect, normal, cells) && (withLightRender ==> CachesAgree(cells, caches))
    requires hitSurface == hit.surface && hitSurface in cells
    requires hitPoint == hit.point && mapIdx == hit.mapIdx
    modifies rayStore`invisibleRays, rayStore`validRays
    ensures var r := BackwardDiffuse(World(num, objects, isect, normal, options), lights, caches, dir,
                                     withLightRender, obj, hit, N, old(rayStore.Counts()));
      color == r.color && rayStore.Counts() == r.counts
  {
    var shadowPointOrig := ShadowOrigin(hitPoint, N, dir, options.bias);
    var localAmt, specularColor, tmpAmt := ShadeLights(num, objects, lights, options, dir, N, hitPoint,
                                                       shadowPointOrig, obj, withLightRender, isect, normal);
    var globalAmt := Zero;
    if withLightRender {
      globalAmt := hitSurface.diffuseAmt;
      localAmt := Zero;
    }
    if tmpAmt == Zero {
      rayStore.CountInvisible();
    } else {
      rayStore.CountValid();
    }
    color := Add(Mul(Add(globalAmt, localAmt), obj.EvalDiffuseColor(mapIdx)), Scale(specularColor, obj.Ks));
  }

  /**
   * The lights loop of the diffuse case: for each light its specular term
   * and, unless the irradiance cache is read, its shadow-tested Lambert term.
   */
  method ShadeLights(num: Numerics, objects: seq<Object>, lights: seq<Light>, options: Options, dir: Vec3, N: Vec3,
                     hitPoint: Vec3, shadowPointOrig: Vec3, obj: Object, withLightRender: bool,
                     ghost isect: Isect, ghost normal: Normals)
    returns (localAmt: Vec3, specularColor: Vec3, tmpAmt: Vec3)
    requires Agrees(num, objects, isect)
    ensures LightAcc(localAmt, specularColor, tmpAmt)
         == LightSums(World(num, objects, isect, normal, options), lights, |lights|, hitPoint, N, dir,
                      shadowPointOrig, obj, withLightRender)
  {
    ghost var w := World(num, objects, isect, normal, options);
    localAmt, specularColor, tmpAmt := Zero, Zero, Zero;
    var i := 0;
    while i < |lights|
      invariant 0 <= i <= |lights|
      invariant LightAcc(localAmt, specularColor, tmpAmt)
             == LightSums(w, lights, i, hitPoint, N, dir, shadowPointOrig, obj, withLightRender)
    {
      localAmt, specularColor, tmpAmt := ShadeLight(num, objects, lights, i, options, dir, N, hitPoint,
                                                    shadowPointOrig, obj, withLightRender, isect, normal,
                                                    localAmt, specularColor, tmpAmt);
      i := i + 1;
    }
  }

  /** One light of the diffuse case's loop: light i. */
  method ShadeLight(num: Numerics, objects: seq<Object>, lights: seq<Light>, i: nat, options: Options, dir: Vec3,
                    N: Vec3, hitPoint: Vec3, shadowPointOrig: Vec3, obj: Object, withLightRender: bool,
                    ghost isect: Isect, ghost normal: Normals, localAmt: Vec3, specularColor: Vec3, tmpAmt: Vec3)
    returns (localAmt': Vec3, specularColor': Vec3, tmpAmt': Vec3)
    requires Agrees(num, objects, isect) && i < |lights|
    requires LightAcc(localAmt, specularColor, tmpAmt)
          == LightSums(World(num, objects, isect, normal, options), lights, i, hitPoint, N, dir, shadowPointOrig, obj,
                       withLightRender)
    ensures LightAcc(localAmt', specularColor', tmpAmt')
         == LightSums(World(num, objects, isect, normal, options), lights, i + 1, hitPoint, N, dir, shadowPointOrig,
                      obj, withLightRender)
  {
    ghost var w := World(num, objects, isect, normal, options);
    localAmt', specularColor', tmpAmt' := localAmt, specularColor, tmpAmt;
    var light := lights[i];
    var lightDir := Sub(light.position, hitPoint);
    // square of the distance between hitPoint and the light
    var lightDistance2 := Dot(lightDir, lightDir);
    lightDir := Normalize(num, lightDir);
    if !withLightRender {
      var LdotN := NonNegPart(Dot(lightDir, N));
      var shadowHitObject, shadowProbe := Trace(num, shadowPointOrig, lightDir, objects, isect, NoProbe);
      var inShadow := shadowHitObject.Some? && Square(shadowProbe.tNear) < lightDistance2;
      assert inShadow == InShadow(w, shadowPointOrig, lightDir, lightDistance2);
      tmpAmt' := Scale(Scale(Scale(light.intensity, if inShadow then 0.0 else 1.0), LdotN), obj.Kd);
      localAmt' := Add(localAmt', tmpAmt');
    }
    specularColor' := Add(specularColor', SpecularShare(num, light, lightDir, N, dir, obj.specularExponent));
  }

  // ---------------------------------------------------------------------
  // Properties of a backward cast
  // ---------------------------------------------------------------------

  /** Past options.maxDepth a cast is only an overflow: the background, no ray traced. */
  lemma BackwardOverflow(w: World, lights: seq<Light>, caches: Caches, depth: nat, orig: Vec3, dir: Vec3,
                         withLightRender: bool, withObjectRender: bool, pre: Counters)
    requires Ready(w) && depth > w.options.maxDepth
    ensures Backward(w, lights, caches, depth, orig, dir, withLightRender, withObjectRender, pre) ==
      Shade(w.options.backgroundColor, pre.(overflowRays := pre.overflowRays + 1))
  {
  }

  /** A ray that hits nothing shows the background and is counted as a no-hit. */
  lemma BackwardMiss(w: World, lights: seq<Light>, caches: Caches, depth: nat, orig: Vec3, dir: Vec3,
                     withLightRender: bool, withObjectRender: bool, pre: Counters)
    requires Ready(w) && depth <= w.options.maxDepth
    requires TraceHit(w.isect, |w.objects|, orig, dir, INFINITY).None?
    ensures Backward(w, lights, caches, depth, orig, dir, withLightRender, withObjectRender, pre) ==
      Shade(w.options.backgroundColor, pre.(totalRays := pre.totalRays + 1).(nohitRays := pre.nohitRays + 1))
  {
  }

  /**
   * With `withObjectRender` a hit is shaded from the angle cache alone,
   * whatever its material and whatever the lights: no child and no shadow
   * ray is cast, and only the ray itself is counted.
   */
  lemma BackwardCachedHit(w: World, lights: seq<Light>, caches: Caches, depth: nat, orig: Vec3, dir: Vec3,
                          withLightRender: bool, pre: Counters)
    requires Ready(w) && depth <= w.options.maxDepth
    requires TraceHit(w.isect, |w.objects|, orig, dir, INFINITY).Some?
    ensures var h := TraceHit(w.isect, |w.objects|, orig, dir, INFINITY).value;
      Backward(w, lights, caches, depth, orig, dir, withLightRender, true, pre) ==
      Shade(CachedShade(caches, w.objects[h.index], h.hit), pre.(totalRays := pre.totalRays + 1))
  {
  }

  /**
   * The shadow rule: a light the shadow ray finds blocked adds nothing;
   * an unblocked one adds intensity * max(0, L.N) * Kd.
   */
  lemma LightShareShadow(w: World, light: Light, lightDir: Vec3, lightDistance2: real, N: Vec3, shadowOrig: Vec3,
                         Kd: real)
    ensures InShadow(w, shadowOrig, lightDir, lightDistance2) ==>
      LightShare(w, light, lightDir, lightDistance2, N, shadowOrig, Kd) == Zero
    ensures !InShadow(w, shadowOrig, lightDir, lightDistance2) ==>
      LightShare(w, light, lightDir, lightDistance2, N, shadowOrig, Kd) ==
      Scale(Scale(light.intensity, NonNegPart(Dot(lightDir, N))), Kd)
  {
  }

  /**
   * With `withLightRender` the lights loop traces no shadow ray: the local
   * irradiance and the last light's term stay zero, and the sums do not
   * depend on what the objects of the scene are or where they lie.
   */
  lemma {:induction false} LightSumsCached(w: World, w': World, lights: seq<Light>, n: nat, point: Vec3, N: Vec3,
                                           dir: Vec3, shadowOrig: Vec3, obj: Object)
    requires ValidNumerics(w.num) && w'.num == w.num && n <= |lights|
    ensures var acc := LightSums(w, lights, n, point, N, dir, shadowOrig, obj, true);
      acc.localAmt == Zero && acc.tmpAmt == Zero &&
      acc == LightSums(w', lights, n, point, N, dir, shadowOrig, obj, true)
  {
    if n > 0 {
      LightSumsCached(w, w', lights, n - 1, point, N, dir, shadowOrig, obj);
    }
  }

  /**
   * With `withLightRender` a diffuse hit shows the cell's cached irradiance
   * times its diffuse colour plus the specular sum times Ks, and, as the
   * last light's term is never set, it is always counted invisible.
   */
  lemma BackwardDiffuseCached(w: World, lights: seq<Light>, caches: Caches, dir: Vec3, obj: Object, hit: PrimHit,
                              N: Vec3, pre: Counters)
    requires Ready(w)
    ensures var acc := LightSums(w, lights, |lights|, hit.point, N, dir, ShadowOrigin(hit.point, N, dir, w.options.bias),
                                 obj, true);
      BackwardDiffuse(w, lights, caches, dir, true, obj, hit, N, pre) ==
      Shade(Add(Mul(caches.amt(hit.surface), obj.EvalDiffuseColor(hit.mapIdx)), Scale(acc.specular, obj.Ks)),
            pre.(invisibleRays := pre.invisibleRays + 1))
  {
    var shadowOrig := ShadowOrigin(hit.point, N, dir, w.options.bias);
    LightSumsCached(w, w, lights, |lights|, hit.point, N, dir, shadowOrig, obj);
    var amt := caches.amt(hit.surface);
    assert Add(amt, Zero) == amt;
  }
}
