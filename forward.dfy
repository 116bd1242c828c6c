// forwordCastRay of cloudray.cpp: a ray cast from a light.  Wherever it
// hits, it adds the irradiance it brings to the hit surface cell's
// `diffuseAmt`; reflective and refractive objects pass the light on to
// child rays.  The light pass aims it at one surface cell ("target"), and
// it reaches the cell unless something at distance at most 1 is in the way.
//
// The method ForwordCastRay updates the RayStore counters and the surfaces
// in place; the ghost function Forward says what it returns, what the
// counters are once it returns and what it deposits where, in order.

module Forward {
  import opened Geometry
  import opened Maybe
  import opened Utils
  import opened Values
  import opened Rays
  import opened Surfaces
  import opened Objects
  import opened Scene

  /** The light pass's forced hit: the target object, its surface cell and the cell's point. */
  datatype Target = Target(obj: Object, surface: Surface, point: Vec3)

  /** Irradiance added to one surface cell's `diffuseAmt`. */
  datatype Deposit = Deposit(surface: Surface, amount: Vec3)

  /**
   * What a forward cast does: its colour, the counters once it returns
   * (the specification functions are given the counters it starts from)
   * and its deposits in order.
   */
  datatype Cast = Cast(color: Vec3, counts: Counters, deposits: seq<Deposit>)

  ghost predicate TargetValid(objects: seq<Object>, target: Option<Target>)
    reads objects
  {
    target.Some? ==> target.value.obj in objects && target.value.surface in target.value.obj.pSurfaces
  }

  lemma SurfaceInScene(objects: seq<Object>, cells: set<Surface>, obj: Object, s: Surface)
    requires CellsOf(objects, cells) && obj in objects && s in obj.pSurfaces
    ensures s in cells
  {
  }

  /** The sum of the deposits into surface s. */
  function Deposited(ds: seq<Deposit>, s: Surface): Vec3
  {
    if ds == [] then Zero
    else Add(Deposited(ds[..|ds| - 1], s), if ds[|ds| - 1].surface == s then ds[|ds| - 1].amount else Zero)
  }

  /** The `diffuseAmt` of every surface cell in `cells`. */
  ghost function Amounts(cells: set<Surface>): map<Surface, Vec3>
    reads cells`diffuseAmt
  {
    map s | s in cells :: s.diffuseAmt
  }

  /** The amounts m once the deposits ds are made one after another (into the cells m has). */
  function Applied(ds: seq<Deposit>, m: map<Surface, Vec3>): map<Surface, Vec3>
  {
    if ds == [] then m
    else
      var prev := Applied(ds[..|ds| - 1], m);
      var d := ds[|ds| - 1];
      if d.surface in prev then prev[d.surface := Add(prev[d.surface], d.amount)] else prev
  }

  /** Deposits made in two runs, one after the other, are the deposits of both in order. */
  lemma {:induction false} AppliedAppend(a: seq<Deposit>, b: seq<Deposit>, m: map<Surface, Vec3>)
    ensures Applied(a + b, m) == Applied(b, Applied(a, m))
    decreases |b|
  {
    if b == [] {
      assert a + b == a;
    } else {
      var b' := b[..|b| - 1];
      assert (a + b)[..|a + b| - 1] == a + b';
      AppliedAppend(a, b', m);
    }
  }

  /** Making the deposits adds, to every cell, the sum of the deposits into it, and to no other. */
  lemma {:induction false} AppliedIsSum(ds: seq<Deposit>, m: map<Surface, Vec3>)
    ensures Applied(ds, m).Keys == m.Keys
    ensures forall s :: s in m ==> Applied(ds, m)[s] == Add(m[s], Deposited(ds, s))
    decreases |ds|
  {
    if ds != [] {
      AppliedIsSum(ds[..|ds| - 1], m);
    }
  }

  /**
   * The irradiance a forward hit deposits: intensity * max(0, -lightDir.N) * Kd,
   * lightDir being the unit direction from the ray origin to the hit point.
   */
  function Irradiance(num: Numerics, orig: Vec3, point: Vec3, N: Vec3, intensity: Vec3, Kd: real): Vec3
    requires ValidNumerics(num)
  {
    var lightDir := Normalize(num, Sub(point, orig));
    Scale(Scale(intensity, NonNegPart(Dot(Neg(lightDir), N))), Kd)
  }

  /** The share of the intensity a REFLECTION object passes on. */
  const FORWARD_KR: real := 0.9

  /**
   * forwordCastRay: past OVERSTACK_PROTECT_DEPTH only an overflow is
   * counted.  Otherwise the ray is counted and traced.
   *
   * The world, the same at every level, is part of the measure only so that
   * the verifier never unfolds the recursion on a literal depth alone.
   */
  ghost function Forward(w: World, depth: nat, orig: Vec3, dir: Vec3, intensity: Vec3,
                         target: Option<Target>, pre: Counters): (r: Cast)
    ensures SameOrigins(pre, r.counts)
    requires Ready(w) && (target.Some? ==> target.value.obj in w.objects)
    decreases OVERSTACK_PROTECT_DEPTH + 1 - depth, w, 7
  {
    if depth > OVERSTACK_PROTECT_DEPTH then
      Cast(w.options.backgroundColor, pre.(overflowRays := pre.overflowRays + 1), [])
    else
      ForwardTraced(w, depth, orig, dir, intensity, target, TraceHit(w.isect, |w.objects|, orig, dir, INFINITY),
                    pre.(totalRays := pre.totalRays + 1))
  }

  /**
   * forwordCastRay once the trace has found `hit`: with a target, any hit
   * at tnear <= 1 shadows it (a no-hit, nothing deposited), and otherwise
   * the target is the hit.  Without a target, a miss is a no-hit.
   */
  ghost function ForwardTraced(w: World, depth: nat, orig: Vec3, dir: Vec3, intensity: Vec3,
                               target: Option<Target>, hit: Option<SceneHit>, pre: Counters): (r: Cast)
    ensures SameOrigins(pre, r.counts)
    requires Ready(w) && depth <= OVERSTACK_PROTECT_DEPTH && (target.Some? ==> target.value.obj in w.objects)
    requires hit.Some? ==> hit.value.index < |w.objects|
    decreases OVERSTACK_PROTECT_DEPTH + 1 - depth, w, 6
  {
    var missed := Cast(w.options.backgroundColor, pre.(nohitRays := pre.nohitRays + 1), []);
    if target.Some? then
      if hit.Some? && hit.value.hit.tNear <= 1.0 then missed
      else
        var t := target.value;
        ForwardAt(w, depth, orig, dir, intensity, t.obj, t.surface, t.point, pre)
    else if hit.None? then missed
    else
      ForwardAt(w, depth, orig, dir, intensity, w.objects[hit.value.index], hit.value.hit.surface,
                hit.value.hit.point, pre)
  }

  /**
   * A forward hit: the material's case, then, whatever the case did, the
   * deposit into the hit surface.
   */
  ghost function ForwardAt(w: World, depth: nat, orig: Vec3, dir: Vec3, intensity: Vec3,
                           obj: Object, surface: Surface, point: Vec3, pre: Counters): (r: Cast)
    ensures SameOrigins(pre, r.counts)
    requires Ready(w) && depth <= OVERSTACK_PROTECT_DEPTH
    requires obj in w.objects
    decreases OVERSTACK_PROTECT_DEPTH + 1 - depth, w, 5
  {
    var N := w.normal(surface);
    var branch := ForwardMaterial(w, depth, dir, intensity, obj, N, point, pre);
    Cast(branch.color, branch.counts,
         branch.deposits + [Deposit(surface, Irradiance(w.num, orig, point, N, intensity, obj.Kd))])
  }

  /** The material switch of a forward hit.  A diffuse hit casts nothing further. */
  ghost function ForwardMaterial(w: World, depth: nat, dir: Vec3, intensity: Vec3,
                                 obj: Object, N: Vec3, point: Vec3, pre: Counters): (r: Cast)
    ensures SameOrigins(pre, r.counts)
    requires Ready(w) && depth <= OVERSTACK_PROTECT_DEPTH
    requires obj in w.objects
    decreases OVERSTACK_PROTECT_DEPTH + 1 - depth, w, 4
  {
    match obj.materialType
    case ReflectionAndRefraction => ForwardRR(w, depth, dir, intensity, obj, N, point, pre)
    case Reflection => ForwardReflect(w, depth, dir, intensity, N, point, pre)
    case DiffuseAndGlossy => Cast(w.options.backgroundColor, pre, [])
  }

  /**
   * Reflective and refractive: kr, the Fresnel share, of the intensity; if
   * that is too weak, neither child is cast.  Otherwise the reflected child
   * carries intensity*kr and the refracted one intensity*(1-kr), and the
   * colours mix in the same shares.
   */
  ghost function ForwardRR(w: World, depth: nat, dir: Vec3, intensity: Vec3,
                           obj: Object, N: Vec3, point: Vec3, pre: Counters): (r: Cast)
    ensures SameOrigins(pre, r.counts)
    requires Ready(w) && depth <= OVERSTACK_PROTECT_DEPTH && obj in w.objects
    decreases OVERSTACK_PROTECT_DEPTH + 1 - depth, w, 3
  {
    var kr := Fresnel(w.num, dir, N, obj.ior);
    if Norm2(Scale(intensity, kr)) < INTENSITY_TOO_WEAK then
      Cast(w.options.backgroundColor, pre.(weakRays := pre.weakRays + 1), [])
    else RRChildren(w, depth, dir, intensity, N, point, obj.ior, kr, pre)
  }

  /**
   * Both children of a reflective and refractive hit: the reflected one
   * carries intensity*kr, then the refracted one intensity*(1-kr), and
   * their colours mix in the same shares.
   */
  ghost function RRChildren(w: World, depth: nat, dir: Vec3, intensity: Vec3, N: Vec3, point: Vec3, ior: real,
                            kr: real, pre: Counters): (r: Cast)
    ensures SameOrigins(pre, r.counts)
    requires Ready(w) && depth <= OVERSTACK_PROTECT_DEPTH && ior > 0.0
    decreases OVERSTACK_PROTECT_DEPTH + 1 - depth, w, 2
  {
    var refl := RRReflection(w, depth, dir, N, point, Scale(intensity, kr), pre);
    var refr := RRRefraction(w, depth, dir, N, point, ior, Scale(intensity, 1.0 - kr), refl.counts);
    Cast(Add(Scale(refl.color, kr), Scale(refr.color, 1.0 - kr)), refr.counts, refl.deposits + refr.deposits)
  }

  /**
   * The reflected child of a reflective and refractive hit, along the
   * normalized mirror direction; none is traced when that direction points
   * into the surface (black, nothing counted).
   */
  ghost function RRReflection(w: World, depth: nat, dir: Vec3, N: Vec3, point: Vec3, intensity: Vec3,
                              pre: Counters): (r: Cast)
    ensures SameOrigins(pre, r.counts)
    requires Ready(w) && depth <= OVERSTACK_PROTECT_DEPTH
    decreases OVERSTACK_PROTECT_DEPTH + 1 - depth, w, 1
  {
    var reflDir := Normalize(w.num, Reflect(dir, N));
    if Dot(reflDir, N) < 0.0 then Cast(Zero, pre, [])
    else ChildCast(w, depth, RayTypeReflection, BiasedOrigin(point, N, reflDir, w.options.bias), reflDir, intensity, pre)
  }

  /** The refracted child of a reflective and refractive hit, along the normalized refraction direction. */
  ghost function RRRefraction(w: World, depth: nat, dir: Vec3, N: Vec3, point: Vec3, ior: real,
                              intensity: Vec3, pre: Counters): (r: Cast)
    ensures SameOrigins(pre, r.counts)
    requires Ready(w) && depth <= OVERSTACK_PROTECT_DEPTH && ior > 0.0
    decreases OVERSTACK_PROTECT_DEPTH + 1 - depth, w, 1
  {
    var refrDir := Normalize(w.num, Refract(w.num, dir, N, ior));
    ChildCast(w, depth, RayTypeRefraction, BiasedOrigin(point, N, refrDir, w.options.bias), refrDir, intensity, pre)
  }

  /** Reflective: one child, not normalized, with 0.9 of the intensity, unless that is too weak. */
  ghost function ForwardReflect(w: World, depth: nat, dir: Vec3, intensity: Vec3, N: Vec3, point: Vec3,
                                pre: Counters): (r: Cast)
    ensures SameOrigins(pre, r.counts)
    requires Ready(w) && depth <= OVERSTACK_PROTECT_DEPTH
    decreases OVERSTACK_PROTECT_DEPTH + 1 - depth, w, 2
  {
    var left := Scale(intensity, FORWARD_KR);
    if Norm2(left) < INTENSITY_TOO_WEAK then Cast(w.options.backgroundColor, pre.(weakRays := pre.weakRays + 1), [])
    else
      var reflDir := Reflect(dir, N);
      var refl := ChildCast(w, depth, RayTypeReflection, BiasedOrigin(point, N, reflDir, w.options.bias), reflDir, left,
                            pre);
      refl.(color := Scale(refl.color, FORWARD_KR))
  }

  /** A reflected or refracted child ray: counted by its kind, then cast one level deeper with no target. */
  ghost function ChildCast(w: World, depth: nat, rayType: RayType, orig: Vec3, dir: Vec3,
                           intensity: Vec3, pre: Counters): (r: Cast)
    ensures SameOrigins(pre, r.counts)
    requires Ready(w) && depth <= OVERSTACK_PROTECT_DEPTH && rayType != RayTypeOrig
    decreases OVERSTACK_PROTECT_DEPTH + 1 - depth, w, 0
  {
    Forward(w, depth + 1, orig, dir, intensity, None, ChildCounted(pre, rayType))
  }

  // ---------------------------------------------------------------------
  // The casts.  `rec` of the specification is whether a Ray node is being
  // recorded (rayStore.currRay non-null): each child ray is then recorded
  // under it, at sizeof(Ray) of totalMem.
  // ---------------------------------------------------------------------

  /** forwordCastRay. */
  method ForwordCastRay(num: Numerics, rayStore: RayStore, orig: Vec3, dir: Vec3, objects: seq<Object>,
                        intensity: Vec3, options: Options, depth: nat, target: Option<Target>,
                        ghost isect: Isect, ghost normal: Normals, ghost cells: set<Surface>)
    returns (color: Vec3)
    requires Agrees(num, objects, isect) && IsectSound(objects, isect) && NormalsAgree(cells, normal)
    requires rayStore.currRay == null
    requires CellsOf(objects, cells) && TargetValid(objects, target)
    modifies rayStore, cells`diffuseAmt
    ensures var r := Forward(World(num, objects, isect, normal, options), depth, orig, dir,
                             intensity, target, old(rayStore.Counts()));
      color == r.color && rayStore.Counts() == r.counts &&
      Amounts(cells) == Applied(r.deposits, old(Amounts(cells)))
    ensures rayStore.currRay == null && rayStore.currPixel == old(rayStore.currPixel)
    decreases OVERSTACK_PROTECT_DEPTH + 1 - depth, 10
  {
    if depth > OVERSTACK_PROTECT_DEPTH {
      rayStore.CountOverflow();
      return options.backgroundColor;
    }
    color := ForwardTrace(num, rayStore, orig, dir, objects, intensity, options, depth, target, isect, normal, cells);
  }

  /** forwordCastRay within the depth limit: the ray is counted, then traced. */
  method ForwardTrace(num: Numerics, rayStore: RayStore, orig: Vec3, dir: Vec3, objects: seq<Object>,
                      intensity: Vec3, options: Options, depth: nat, target: Option<Target>,
                      ghost isect: Isect, ghost normal: Normals, ghost cells: set<Surface>)
    returns (color: Vec3)
    requires Agrees(num, objects, isect) && IsectSound(objects, isect) && NormalsAgree(cells, normal)
    requires rayStore.currRay == null
    requires CellsOf(objects, cells) && TargetValid(objects, target) && depth <= OVERSTACK_PROTECT_DEPTH
    modifies rayStore, cells`diffuseAmt
    ensures var r := ForwardTraced(World(num, objects, isect, normal, options), depth, orig,
                                   dir, intensity, target, TraceHit(isect, |objects|, orig, dir, INFINITY),
                                   old(rayStore.Counts()).(totalRays := old(rayStore.totalRays) + 1));
      color == r.color && rayStore.Counts() == r.counts &&
      Amounts(cells) == Applied(r.deposits, old(Amounts(cells)))
    ensures rayStore.currRay == null && rayStore.currPixel == old(rayStore.currPixel)
    decreases OVERSTACK_PROTECT_DEPTH + 1 - depth, 9
  {
    rayStore.CountTraced();
    color := ForwardTraceHit(num, rayStore, orig, dir, objects, intensity, options, depth, target, isect, normal, cells);
  }

  /** forwordCastRay within the depth limit, once the ray is counted: the trace. */
  method ForwardTraceHit(num: Numerics, rayStore: RayStore, orig: Vec3, dir: Vec3, objects: seq<Object>,
                         intensity: Vec3, options: Options, depth: nat, target: Option<Target>,
                         ghost isect: Isect, ghost normal: Normals, ghost cells: set<Surface>)
    returns (color: Vec3)
    requires Agrees(num, objects, isect) && IsectSound(objects, isect) && NormalsAgree(cells, normal)
    requires rayStore.currRay == null
    requires CellsOf(objects, cells) && TargetValid(objects, target) && depth <= OVERSTACK_PROTECT_DEPTH
    modifies rayStore, cells`diffuseAmt
    ensures var r := ForwardTraced(World(num, objects, isect, normal, options), depth, orig,
                                   dir, intensity, target, TraceHit(isect, |objects|, orig, dir, INFINITY),
                                   old(rayStore.Counts()));
      color == r.color && rayStore.Counts() == r.counts &&
      Amounts(cells) == Applied(r.deposits, old(Amounts(cells)))
    ensures rayStore.currRay == null && rayStore.currPixel == old(rayStore.currPixel)
    decreases OVERSTACK_PROTECT_DEPTH + 1 - depth, 8
  {
    var hitObject, probe := Trace(num, orig, dir, objects, isect, NoProbe);
    ghost var hit := TraceHit(isect, |objects|, orig, dir, INFINITY);
    if hit.Some? {
      assert isect(hit.value.index, orig, dir) == Some(hit.value.hit);
    }
    color := ForwardTracedCast(num, rayStore, orig, dir, objects, intensity, options, depth, target, hitObject, probe, hit,
                               isect, normal, cells);
  }

  /** forwordCastRay after the trace: the shadow test or the miss, else the hit. */
  method ForwardTracedCast(num: Numerics, rayStore: RayStore, orig: Vec3, dir: Vec3, objects: seq<Object>,
                           intensity: Vec3, options: Options, depth: nat, target: Option<Target>,
                           hitObject: Option<nat>, probe: Probe, ghost hit: Option<SceneHit>,
                           ghost isect: Isect, ghost normal: Normals, ghost cells: set<Surface>)
    returns (color: Vec3)
    requires Agrees(num, objects, isect) && IsectSound(objects, isect) && NormalsAgree(cells, normal)
    requires rayStore.currRay == null
    requires CellsOf(objects, cells) && TargetValid(objects, target) && depth <= OVERSTACK_PROTECT_DEPTH
    requires hitObject == if hit.Some? then Some(hit.value.index) else None
    requires hit.Some? ==>
      hit.value.index < |objects| && hit.value.hit.surface in objects[hit.value.index].pSurfaces &&
      probe.tNear == hit.value.hit.tNear && probe.hitSurface == hit.value.hit.surface && probe.hitPoint == hit.value.hit.point
    modifies rayStore, cells`diffuseAmt
    ensures var r := ForwardTraced(World(num, objects, isect, normal, options), depth, orig,
                                   dir, intensity, target, hit, old(rayStore.Counts()));
      color == r.color && rayStore.Counts() == r.counts &&
      Amounts(cells) == Applied(r.deposits, old(Amounts(cells)))
    ensures rayStore.currRay == null && rayStore.currPixel == old(rayStore.currPixel)
    decreases OVERSTACK_PROTECT_DEPTH + 1 - depth, 7
  {
    var obj: Object, surface: Surface, point: Vec3;
    if target.Some? {
      if hitObject.Some? && probe.tNear <= 1.0 {
        rayStore.CountNohit();
        return options.backgroundColor;
      }
      obj, surface, point := target.value.obj, target.value.surface, target.value.point;
    } else {
      if hitObject.None? {
        rayStore.CountNohit();
        return options.backgroundColor;
      }
      obj, surface, point := objects[hitObject.value], probe.hitSurface, probe.hitPoint;
    }
    SurfaceInScene(objects, cells, obj, surface);
    color := ForwardHit(num, rayStore, orig, dir, objects, intensity, options, depth, obj, surface, point, isect, normal, cells);
  }

  /** forwordCastRay after a hit: the material switch, then the deposit. */
  method ForwardHit(num: Numerics, rayStore: RayStore, orig: Vec3, dir: Vec3, objects: seq<Object>,
                    intensity: Vec3, options: Options, depth: nat, obj: Object, surface: Surface, point: Vec3,
                    ghost isect: Isect, ghost normal: Normals, ghost cells: set<Surface>)
    returns (color: Vec3)
    requires Agrees(num, objects, isect) && IsectSound(objects, isect) && NormalsAgree(cells, normal)
    requires rayStore.currRay == null
    requires CellsOf(objects, cells) && depth <= OVERSTACK_PROTECT_DEPTH
    requires obj in objects && surface in cells
    modifies rayStore, cells`diffuseAmt
    ensures var r := ForwardAt(World(num, objects, isect, normal, options), depth, orig, dir,
                               intensity, obj, surface, point, old(rayStore.Counts()));
      color == r.color && rayStore.Counts() == r.counts &&
      Amounts(cells) == Applied(r.deposits, old(Amounts(cells)))
    ensures rayStore.currRay == null && rayStore.currPixel == old(rayStore.currPixel)
    decreases OVERSTACK_PROTECT_DEPTH + 1 - depth, 6
  {
    var N := surface.N;
    assert N == normal(surface);
    color := ForwardMaterialCast(num, rayStore, dir, objects, intensity, options, depth, obj, N, point, isect, normal, cells);
    ghost var branch := ForwardMaterial(World(num, objects, isect, normal, options), depth,
                                        dir, intensity, obj, N, point, old(rayStore.Counts()));
    DepositIrradiance(num, surface, orig, point, N, intensity, obj.Kd, cells);
    ghost var d := Deposit(surface, Irradiance(num, orig, point, N, intensity, obj.Kd));
    assert (branch.deposits + [d])[..|branch.deposits|] == branch.deposits;
    AppliedIsSum(branch.deposits, old(Amounts(cells)));
  }

  /** The pre-calculated diffuse amount: a forward hit's irradiance, added to the hit surface cell. */
  method DepositIrradiance(num: Numerics, surface: Surface, orig: Vec3, point: Vec3, N: Vec3, intensity: Vec3, Kd: real,
                           ghost cells: set<Surface>)
    requires ValidNumerics(num) && surface in cells
    modifies surface`diffuseAmt
    ensures Amounts(cells) == old(Amounts(cells))[surface := Add(old(surface.diffuseAmt), Irradiance(num, orig, point, N, intensity, Kd))]
  {
    var lightDir := Normalize(num, Sub(point, orig));
    var LdotN := NonNegPart(Dot(Neg(lightDir), N));
    surface.diffuseAmt := Add(surface.diffuseAmt, Scale(Scale(intensity, LdotN), Kd));
  }

  /**
   * forwordCastRay's hit, up to the deposit: the current Ray node, if any,
   * is marked valid, then the material's case runs.
   */
  method ForwardMaterialCast(num: Numerics, rayStore: RayStore, dir: Vec3, objects: seq<Object>, intensity: Vec3,
                             options: Options, depth: nat, obj: Object, N: Vec3, point: Vec3,
                             ghost isect: Isect, ghost normal: Normals, ghost cells: set<Surface>)
    returns (color: Vec3)
    requires Agrees(num, objects, isect) && IsectSound(objects, isect) && NormalsAgree(cells, normal)
    requires rayStore.currRay == null
    requires CellsOf(objects, cells) && depth <= OVERSTACK_PROTECT_DEPTH && obj in objects
    modifies rayStore, cells`diffuseAmt
    ensures var r := ForwardMaterial(World(num, objects, isect, normal, options), depth, dir,
                                     intensity, obj, N, point, old(rayStore.Counts()));
      color == r.color && rayStore.Counts() == r.counts &&
      Amounts(cells) == Applied(r.deposits, old(Amounts(cells)))
    ensures rayStore.currRay == null && rayStore.currPixel == old(rayStore.currPixel)
    decreases OVERSTACK_PROTECT_DEPTH + 1 - depth, 5
  {
    rayStore.MarkValid(obj, point);
    match obj.materialType
    case ReflectionAndRefraction =>
      color := ForwardRRCast(num, rayStore, dir, objects, intensity, options, depth, obj, N, point, isect, normal, cells);
    case Reflection =>
      color := ForwardReflectCast(num, rayStore, dir, objects, intensity, options, depth, N, point, isect, normal, cells);
    case DiffuseAndGlossy =>
      color := options.backgroundColor;
  }

  /** The REFLECTION_AND_REFRACTION case of forwordCastRay. */
  method ForwardRRCast(num: Numerics, rayStore: RayStore, dir: Vec3, objects: seq<Object>, intensity: Vec3,
                       options: Options, depth: nat, obj: Object, N: Vec3, point: Vec3,
                       ghost isect: Isect, ghost normal: Normals, ghost cells: set<Surface>)
    returns (color: Vec3)
    requires Agrees(num, objects, isect) && IsectSound(objects, isect) && NormalsAgree(cells, normal)
    requires rayStore.currRay == null
    requires CellsOf(objects, cells) && depth <= OVERSTACK_PROTECT_DEPTH && obj in objects
    modifies rayStore, cells`diffuseAmt
    ensures var r := ForwardRR(World(num, objects, isect, normal, options), depth, dir,
                               intensity, obj, N, point, old(rayStore.Counts()));
      color == r.color && rayStore.Counts() == r.counts &&
      Amounts(cells) == Applied(r.deposits, old(Amounts(cells)))
    ensures rayStore.currRay == null && rayStore.currPixel == old(rayStore.currPixel)
    decreases OVERSTACK_PROTECT_DEPTH + 1 - depth, 4
  {
    var kr := Fresnel(num, dir, N, obj.ior);
    var leftIntensity := Scale(intensity, kr);
    if Dot(leftIntensity, leftIntensity) < INTENSITY_TOO_WEAK {
      rayStore.CountWeak();
      return options.backgroundColor;
    }
    color := RRChildrenCast(num, rayStore, dir, objects, intensity, options, depth, N, point, obj.ior, kr,
                            isect, normal, cells);
  }

  /** Both children of the REFLECTION_AND_REFRACTION case, and their colours mixed. */
  method RRChildrenCast(num: Numerics, rayStore: RayStore, dir: Vec3, objects: seq<Object>, intensity: Vec3,
                        options: Options, depth: nat, N: Vec3, point: Vec3, ior: real, kr: real,
                        ghost isect: Isect, ghost normal: Normals, ghost cells: set<Surface>)
    returns (color: Vec3)
    requires Agrees(num, objects, isect) && IsectSound(objects, isect) && NormalsAgree(cells, normal)
    requires rayStore.currRay == null
    requires CellsOf(objects, cells) && depth <= OVERSTACK_PROTECT_DEPTH && ior > 0.0
    modifies rayStore, cells`diffuseAmt
    ensures var r := RRChildren(World(num, objects, isect, normal, options), depth, dir, intensity, N, point, ior, kr,
                                old(rayStore.Counts()));
      color == r.color && rayStore.Counts() == r.counts &&
      Amounts(cells) == Applied(r.deposits, old(Amounts(cells)))
    ensures rayStore.currRay == null && rayStore.currPixel == old(rayStore.currPixel)
    decreases OVERSTACK_PROTECT_DEPTH + 1 - depth, 3
  {
    ghost var w := World(num, objects, isect, normal, options);
    ghost var c0 := rayStore.Counts();
    var leftIntensity := Scale(intensity, kr);
    var reflectionColor := RRReflectionCast(num, rayStore, dir, objects, leftIntensity, options, depth, N, point,
                                            isect, normal, cells);
    ghost var refl := RRReflection(w, depth, dir, N, point, leftIntensity, c0);
    leftIntensity := Scale(intensity, 1.0 - kr);
    var refractionColor := RRRefractionCast(num, rayStore, dir, objects, leftIntensity, options, depth, N, point, ior,
                                            isect, normal, cells);
    ghost var refr := RRRefraction(w, depth, dir, N, point, ior, leftIntensity, refl.counts);
    color := Add(Scale(reflectionColor, kr), Scale(refractionColor, 1.0 - kr));
    AppliedAppend(refl.deposits, refr.deposits, old(Amounts(cells)));
  }

  /** The reflected child of the REFLECTION_AND_REFRACTION case. */
  method RRReflectionCast(num: Numerics, rayStore: RayStore, dir: Vec3, objects: seq<Object>, intensity: Vec3,
                          options: Options, depth: nat, N: Vec3, point: Vec3,
                          ghost isect: Isect, ghost normal: Normals, ghost cells: set<Surface>)
    returns (color: Vec3)
    requires Agrees(num, objects, isect) && IsectSound(objects, isect) && NormalsAgree(cells, normal)
    requires rayStore.currRay == null
    requires CellsOf(objects, cells) && depth <= OVERSTACK_PROTECT_DEPTH
    modifies rayStore, cells`diffuseAmt
    ensures var r := RRReflection(World(num, objects, isect, normal, options), depth, dir,
                                  N, point, intensity, old(rayStore.Counts()));
      color == r.color && rayStore.Counts() == r.counts &&
      Amounts(cells) == Applied(r.deposits, old(Amounts(cells)))
    ensures rayStore.currRay == null && rayStore.currPixel == old(rayStore.currPixel)
    decreases OVERSTACK_PROTECT_DEPTH + 1 - depth, 2
  {
    var reflectionDirection := Normalize(num, Reflect(dir, N));
    var insideObject := Dot(reflectionDirection, N) < 0.0;
    var reflectionRayOrig := BiasedOrigin(point, N, reflectionDirection, options.bias);
    color := Zero;
    // no reflection ray is traced inside the object
    if !insideObject {
      color := ChildRay(num, rayStore, objects, options, depth, RayTypeReflection, reflectionRayOrig,
                         reflectionDirection, intensity, isect, normal, cells);
    }
  }

  /** The refracted child of the REFLECTION_AND_REFRACTION case. */
  method RRRefractionCast(num: Numerics, rayStore: RayStore, dir: Vec3, objects: seq<Object>, intensity: Vec3,
                          options: Options, depth: nat, N: Vec3, point: Vec3, ior: real,
                          ghost isect: Isect, ghost normal: Normals, ghost cells: set<Surface>)
    returns (color: Vec3)
    requires Agrees(num, objects, isect) && IsectSound(objects, isect) && NormalsAgree(cells, normal)
    requires rayStore.currRay == null
    requires CellsOf(objects, cells) && depth <= OVERSTACK_PROTECT_DEPTH && ior > 0.0
    modifies rayStore, cells`diffuseAmt
    ensures var r := RRRefraction(World(num, objects, isect, normal, options), depth, dir,
                                  N, point, ior, intensity, old(rayStore.Counts()));
      color == r.color && rayStore.Counts() == r.counts &&
      Amounts(cells) == Applied(r.deposits, old(Amounts(cells)))
    ensures rayStore.currRay == null && rayStore.currPixel == old(rayStore.currPixel)
    decreases OVERSTACK_PROTECT_DEPTH + 1 - depth, 2
  {
    var refractionDirection := Normalize(num, Refract(num, dir, N, ior));
    var refractionRayOrig := BiasedOrigin(point, N, refractionDirection, options.bias);
    color := ChildRay(num, rayStore, objects, options, depth, RayTypeRefraction, refractionRayOrig,
                       refractionDirection, intensity, isect, normal, cells);
  }

  /** The REFLECTION case of forwordCastRay. */
  method ForwardReflectCast(num: Numerics, rayStore: RayStore, dir: Vec3, objects: seq<Object>, intensity: Vec3,
                            options: Options, depth: nat, N: Vec3, point: Vec3,
                            ghost isect: Isect, ghost normal: Normals, ghost cells: set<Surface>)
    returns (color: Vec3)
    requires Agrees(num, objects, isect) && IsectSound(objects, isect) && NormalsAgree(cells, normal)
    requires rayStore.currRay == null
    requires CellsOf(objects, cells) && depth <= OVERSTACK_PROTECT_DEPTH
    modifies rayStore, cells`diffuseAmt
    ensures var r := ForwardReflect(World(num, objects, isect, normal, options), depth, dir,
                                    intensity, N, point, old(rayStore.Counts()));
      color == r.color && rayStore.Counts() == r.counts &&
      Amounts(cells) == Applied(r.deposits, old(Amounts(cells)))
    ensures rayStore.currRay == null && rayStore.currPixel == old(rayStore.currPixel)
    decreases OVERSTACK_PROTECT_DEPTH + 1 - depth, 4
  {
    var kr := FORWARD_KR;
    var leftIntensity := Scale(intensity, kr);
    if Dot(leftIntensity, leftIntensity) < INTENSITY_TOO_WEAK {
      rayStore.CountWeak();
      return options.backgroundColor;
    }
    var reflectionDirection := Reflect(dir, N);
    var reflectionRayOrig := BiasedOrigin(point, N, reflectionDirection, options.bias);
    var reflectionColor := ChildRay(num, rayStore, objects, options, depth, RayTypeReflection, reflectionRayOrig,
                                     reflectionDirection, leftIntensity, isect, normal, cells);
    color := Scale(reflectionColor, kr);
  }

  /** A child ray of a forward hit: counted by its kind, then cast. */
  method ChildRay(num: Numerics, rayStore: RayStore, objects: seq<Object>, options: Options, depth: nat,
                  rayType: RayType, orig: Vec3, dir: Vec3, intensity: Vec3,
                  ghost isect: Isect, ghost normal: Normals, ghost cells: set<Surface>)
    returns (color: Vec3)
    requires Agrees(num, objects, isect) && IsectSound(objects, isect) && NormalsAgree(cells, normal)
    requires rayStore.currRay == null && rayType != RayTypeOrig
    requires CellsOf(objects, cells) && depth <= OVERSTACK_PROTECT_DEPTH
    modifies rayStore, cells`diffuseAmt
    ensures var r := ChildCast(World(num, objects, isect, normal, options), depth, rayType, orig, dir, intensity,
                               old(rayStore.Counts()));
      color == r.color && rayStore.Counts() == r.counts &&
      Amounts(cells) == Applied(r.deposits, old(Amounts(cells)))
    ensures rayStore.currRay == null && rayStore.currPixel == old(rayStore.currPixel)
    decreases OVERSTACK_PROTECT_DEPTH + 1 - depth, 1
  {
    rayStore.CountChild(rayType);
    color := ChildTail(num, rayStore, objects, options, depth, orig, dir, intensity, isect, normal, cells);
  }

  /**
   * A child ray of a forward hit, once counted: its cast one level deeper,
   * then the Ray node current before it (none) made current again.  No Ray
   * node is current in any cast, so the child is not recorded.
   */
  method ChildTail(num: Numerics, rayStore: RayStore, objects: seq<Object>, options: Options, depth: nat,
                   orig: Vec3, dir: Vec3, intensity: Vec3,
                   ghost isect: Isect, ghost normal: Normals, ghost cells: set<Surface>)
    returns (color: Vec3)
    requires Agrees(num, objects, isect) && IsectSound(objects, isect) && NormalsAgree(cells, normal)
    requires rayStore.currRay == null
    requires CellsOf(objects, cells) && depth <= OVERSTACK_PROTECT_DEPTH
    modifies rayStore, cells`diffuseAmt
    ensures var r := Forward(World(num, objects, isect, normal, options), depth + 1, orig, dir, intensity,
                             None, old(rayStore.Counts()));
      color == r.color && rayStore.Counts() == r.counts &&
      Amounts(cells) == Applied(r.deposits, old(Amounts(cells)))
    ensures rayStore.currRay == null && rayStore.currPixel == old(rayStore.currPixel)
    decreases OVERSTACK_PROTECT_DEPTH + 1 - depth, 0
  {
    var parent: Ray? := null;
    color := ForwordCastRay(num, rayStore, orig, dir, objects, intensity, options, depth + 1, None, isect, normal, cells);
    rayStore.Restore(parent);
  }

  // ---------------------------------------------------------------------
  // Properties of a forward cast
  // ---------------------------------------------------------------------

  /** Every deposit adds a componentwise non-negative amount. */
  predicate DepositsNonNeg(ds: seq<Deposit>) {
    forall k :: 0 <= k < |ds| ==> NonNeg(ds[k].amount)
  }

  /** Every object of the scene reflects a non-negative share of the light it receives. */
  ghost predicate KdNonNeg(w: World) {
    forall o | o in w.objects :: o.Kd >= 0.0
  }

  /** Past OVERSTACK_PROTECT_DEPTH a cast is only an overflow: not traced, nothing deposited. */
  lemma ForwardOverflow(w: World, depth: nat, orig: Vec3, dir: Vec3, intensity: Vec3, target: Option<Target>,
                        pre: Counters)
    requires Ready(w) && (target.Some? ==> target.value.obj in w.objects) && depth > OVERSTACK_PROTECT_DEPTH
    ensures var r := Forward(w, depth, orig, dir, intensity, target, pre);
      r.color == w.options.backgroundColor && r.deposits == [] &&
      r.counts == pre.(overflowRays := pre.overflowRays + 1)
  {
  }

  /**
   * An aimed cast whose ray hits something at distance at most 1 never
   * reaches its target: one traced ray and one no-hit are counted, and
   * nothing is deposited anywhere.
   */
  lemma ForwardTargetShadowed(w: World, depth: nat, orig: Vec3, dir: Vec3, intensity: Vec3, t: Target, pre: Counters)
    requires Ready(w) && t.obj in w.objects && depth <= OVERSTACK_PROTECT_DEPTH
    requires var h := TraceHit(w.isect, |w.objects|, orig, dir, INFINITY); h.Some? && h.value.hit.tNear <= 1.0
    ensures var r := Forward(w, depth, orig, dir, intensity, Some(t), pre);
      r.color == w.options.backgroundColor && r.deposits == [] &&
      r.counts == pre.(totalRays := pre.totalRays + 1).(nohitRays := pre.nohitRays + 1)
  {
  }

  /**
   * Otherwise the aimed cast reaches its target, whatever lies beyond: its
   * last deposit is the irradiance the target cell receives from the ray's
   * origin.
   */
  lemma ForwardTargetReached(w: World, depth: nat, orig: Vec3, dir: Vec3, intensity: Vec3, t: Target, pre: Counters)
    requires Ready(w) && t.obj in w.objects && depth <= OVERSTACK_PROTECT_DEPTH
    requires var h := TraceHit(w.isect, |w.objects|, orig, dir, INFINITY); h.None? || h.value.hit.tNear > 1.0
    ensures var r := Forward(w, depth, orig, dir, intensity, Some(t), pre);
      |r.deposits| > 0 &&
      r.deposits[|r.deposits| - 1] ==
        Deposit(t.surface, Irradiance(w.num, orig, t.point, w.normal(t.surface), intensity, t.obj.Kd))
  {
    var c := pre.(totalRays := pre.totalRays + 1);
    var at := ForwardAt(w, depth, orig, dir, intensity, t.obj, t.surface, t.point, c);
    assert Forward(w, depth, orig, dir, intensity, Some(t), pre) == at;
  }

  /** A cast with no target that hits nothing is a no-hit: nothing is deposited. */
  lemma ForwardMiss(w: World, depth: nat, orig: Vec3, dir: Vec3, intensity: Vec3, pre: Counters)
    requires Ready(w) && depth <= OVERSTACK_PROTECT_DEPTH
    requires TraceHit(w.isect, |w.objects|, orig, dir, INFINITY).None?
    ensures Forward(w, depth, orig, dir, intensity, None, pre) ==
      Cast(w.options.backgroundColor, pre.(totalRays := pre.totalRays + 1).(nohitRays := pre.nohitRays + 1), [])
  {
  }

  /** A diffuse hit passes no light on: its one deposit is its own irradiance, and no ray is counted. */
  lemma ForwardDiffuseStops(w: World, depth: nat, orig: Vec3, dir: Vec3, intensity: Vec3,
                            obj: Object, surface: Surface, point: Vec3, pre: Counters)
    requires Ready(w) && depth <= OVERSTACK_PROTECT_DEPTH && obj in w.objects
    requires obj.materialType == DiffuseAndGlossy
    ensures ForwardAt(w, depth, orig, dir, intensity, obj, surface, point, pre) ==
      Cast(w.options.backgroundColor, pre,
           [Deposit(surface, Irradiance(w.num, orig, point, w.normal(surface), intensity, obj.Kd))])
  {
  }

  /**
   * A reflective and refractive hit whose reflected share of the intensity
   * is too weak casts neither child: one weak ray is counted and only the
   * hit's own irradiance is deposited.
   */
  lemma ForwardRRWeak(w: World, depth: nat, orig: Vec3, dir: Vec3, intensity: Vec3,
                      obj: Object, surface: Surface, point: Vec3, pre: Counters)
    requires Ready(w) && depth <= OVERSTACK_PROTECT_DEPTH && obj in w.objects
    requires obj.materialType == ReflectionAndRefraction
    requires Norm2(Scale(intensity, Fresnel(w.num, dir, w.normal(surface), obj.ior))) < INTENSITY_TOO_WEAK
    ensures ForwardAt(w, depth, orig, dir, intensity, obj, surface, point, pre) ==
      Cast(w.options.backgroundColor, pre.(weakRays := pre.weakRays + 1),
           [Deposit(surface, Irradiance(w.num, orig, point, w.normal(surface), intensity, obj.Kd))])
  {
    var N := w.normal(surface);
    assert ForwardMaterial(w, depth, dir, intensity, obj, N, point, pre) ==
      Cast(w.options.backgroundColor, pre.(weakRays := pre.weakRays + 1), []);
  }

  /** The same for a reflective hit whose 0.9 share of the intensity is too weak. */
  lemma ForwardReflectWeak(w: World, depth: nat, orig: Vec3, dir: Vec3, intensity: Vec3,
                           obj: Object, surface: Surface, point: Vec3, pre: Counters)
    requires Ready(w) && depth <= OVERSTACK_PROTECT_DEPTH && obj in w.objects
    requires obj.materialType == Reflection && Norm2(Scale(intensity, FORWARD_KR)) < INTENSITY_TOO_WEAK
    ensures ForwardAt(w, depth, orig, dir, intensity, obj, surface, point, pre) ==
      Cast(w.options.backgroundColor, pre.(weakRays := pre.weakRays + 1),
           [Deposit(surface, Irradiance(w.num, orig, point, w.normal(surface), intensity, obj.Kd))])
  {
    var N := w.normal(surface);
    assert ForwardMaterial(w, depth, dir, intensity, obj, N, point, pre) ==
      Cast(w.options.backgroundColor, pre.(weakRays := pre.weakRays + 1), []);
  }

  /** Non-negative light on a non-negative Kd gives a non-negative irradiance. */
  lemma IrradianceNonNeg(num: Numerics, orig: Vec3, point: Vec3, N: Vec3, intensity: Vec3, Kd: real)
    requires ValidNumerics(num) && NonNeg(intensity) && Kd >= 0.0
    ensures NonNeg(Irradiance(num, orig, point, N, intensity, Kd))
  {
    var c := NonNegPart(Dot(Neg(Normalize(num, Sub(point, orig))), N));
    ScaleNonNeg(intensity, c);
    ScaleNonNeg(Scale(intensity, c), Kd);
  }

  /** A product of two non-negative reals is non-negative. */
  lemma ProductNonNeg(a: real, b: real)
    requires a >= 0.0 && b >= 0.0
    ensures a * b >= 0.0
  {}

  /** Scaling by a non-negative factor keeps a vector non-negative. */
  lemma ScaleNonNeg(a: Vec3, k: real)
    requires NonNeg(a) && k >= 0.0
    ensures NonNeg(Scale(a, k))
  {
    ProductNonNeg(a.x, k);
    ProductNonNeg(a.y, k);
    ProductNonNeg(a.z, k);
  }

  lemma DepositsNonNegAppend(a: seq<Deposit>, b: seq<Deposit>)
    requires DepositsNonNeg(a) && DepositsNonNeg(b)
    ensures DepositsNonNeg(a + b)
  {
    forall k | 0 <= k < |a + b|
      ensures NonNeg((a + b)[k].amount)
    {
      if k >= |a| {
        assert (a + b)[k] == b[k - |a|];
      }
    }
  }

  /** A share in [0, 1] of a non-negative intensity is non-negative, and so is the rest. */
  lemma SharesNonNeg(intensity: Vec3, kr: real)
    requires NonNeg(intensity) && 0.0 <= kr <= 1.0
    ensures NonNeg(Scale(intensity, kr)) && NonNeg(Scale(intensity, 1.0 - kr))
  {
    ScaleNonNeg(intensity, kr);
    ScaleNonNeg(intensity, 1.0 - kr);
  }

  /**
   * Light only ever adds: a cast of non-negative intensity, in a scene of
   * non-negative Kd, deposits non-negative amounts only, at every depth of
   * its reflections and refractions.
   */
  lemma {:induction false} ForwardDepositsNonNeg(w: World, depth: nat, orig: Vec3, dir: Vec3, intensity: Vec3,
                                                 target: Option<Target>, pre: Counters)
    requires Ready(w) && (target.Some? ==> target.value.obj in w.objects)
    requires NonNeg(intensity) && KdNonNeg(w)
    ensures DepositsNonNeg(Forward(w, depth, orig, dir, intensity, target, pre).deposits)
    decreases OVERSTACK_PROTECT_DEPTH + 1 - depth, 7
  {
    if depth <= OVERSTACK_PROTECT_DEPTH {
      var hit := TraceHit(w.isect, |w.objects|, orig, dir, INFINITY);
      var c := pre.(totalRays := pre.totalRays + 1);
      if target.Some? {
        var t := target.value;
        ForwardAtDepositsNonNeg(w, depth, orig, dir, intensity, t.obj, t.surface, t.point, c);
      } else if hit.Some? {
        ForwardAtDepositsNonNeg(w, depth, orig, dir, intensity, w.objects[hit.value.index], hit.value.hit.surface,
                                hit.value.hit.point, c);
      }
    }
  }

  /** The same for a hit, whatever its material. */
  lemma {:induction false} ForwardAtDepositsNonNeg(w: World, depth: nat, orig: Vec3, dir: Vec3, intensity: Vec3,
                                                   obj: Object, surface: Surface, point: Vec3, pre: Counters)
    requires Ready(w) && depth <= OVERSTACK_PROTECT_DEPTH && obj in w.objects
    requires NonNeg(intensity) && KdNonNeg(w)
    ensures DepositsNonNeg(ForwardAt(w, depth, orig, dir, intensity, obj, surface, point, pre).deposits)
    decreases OVERSTACK_PROTECT_DEPTH + 1 - depth, 5
  {
    var N := w.normal(surface);
    var own := [Deposit(surface, Irradiance(w.num, orig, point, N, intensity, obj.Kd))];
    IrradianceNonNeg(w.num, orig, point, N, intensity, obj.Kd);
    MaterialDepositsNonNeg(w, depth, dir, intensity, obj, N, point, pre);
    DepositsNonNegAppend(ForwardMaterial(w, depth, dir, intensity, obj, N, point, pre).deposits, own);
  }

  lemma {:induction false} MaterialDepositsNonNeg(w: World, depth: nat, dir: Vec3, intensity: Vec3,
                                                  obj: Object, N: Vec3, point: Vec3, pre: Counters)
    requires Ready(w) && depth <= OVERSTACK_PROTECT_DEPTH && obj in w.objects
    requires NonNeg(intensity) && KdNonNeg(w)
    ensures DepositsNonNeg(ForwardMaterial(w, depth, dir, intensity, obj, N, point, pre).deposits)
    decreases OVERSTACK_PROTECT_DEPTH + 1 - depth, 4
  {
    match obj.materialType
    case DiffuseAndGlossy =>
    case ReflectionAndRefraction =>
      RRDepositsNonNeg(w, depth, dir, intensity, obj, N, point, pre);
    case Reflection =>
      ReflectDepositsNonNeg(w, depth, dir, intensity, N, point, pre);
  }

  lemma {:induction false} RRDepositsNonNeg(w: World, depth: nat, dir: Vec3, intensity: Vec3,
                                            obj: Object, N: Vec3, point: Vec3, pre: Counters)
    requires Ready(w) && depth <= OVERSTACK_PROTECT_DEPTH && obj in w.objects
    requires NonNeg(intensity) && KdNonNeg(w)
    ensures DepositsNonNeg(ForwardRR(w, depth, dir, intensity, obj, N, point, pre).deposits)
    decreases OVERSTACK_PROTECT_DEPTH + 1 - depth, 3
  {
    var kr := Fresnel(w.num, dir, N, obj.ior);
    if Norm2(Scale(intensity, kr)) >= INTENSITY_TOO_WEAK {
      SharesNonNeg(intensity, kr);
      var refl := RRReflection(w, depth, dir, N, point, Scale(intensity, kr), pre);
      var refr := RRRefraction(w, depth, dir, N, point, obj.ior, Scale(intensity, 1.0 - kr), refl.counts);
      var reflDir := Normalize(w.num, Reflect(dir, N));
      if Dot(reflDir, N) >= 0.0 {
        ChildDepositsNonNeg(w, depth, RayTypeReflection, BiasedOrigin(point, N, reflDir, w.options.bias), reflDir,
                            Scale(intensity, kr), pre);
      }
      var refrDir := Normalize(w.num, Refract(w.num, dir, N, obj.ior));
      ChildDepositsNonNeg(w, depth, RayTypeRefraction, BiasedOrigin(point, N, refrDir, w.options.bias), refrDir,
                          Scale(intensity, 1.0 - kr), refl.counts);
      DepositsNonNegAppend(refl.deposits, refr.deposits);
    }
  }

  lemma {:induction false} ReflectDepositsNonNeg(w: World, depth: nat, dir: Vec3, intensity: Vec3, N: Vec3,
                                                 point: Vec3, pre: Counters)
    requires Ready(w) && depth <= OVERSTACK_PROTECT_DEPTH
    requires NonNeg(intensity) && KdNonNeg(w)
    ensures DepositsNonNeg(ForwardReflect(w, depth, dir, intensity, N, point, pre).deposits)
    decreases OVERSTACK_PROTECT_DEPTH + 1 - depth, 2
  {
    var left := Scale(intensity, FORWARD_KR);
    if Norm2(left) >= INTENSITY_TOO_WEAK {
      SharesNonNeg(intensity, FORWARD_KR);
      var reflDir := Reflect(dir, N);
      ChildDepositsNonNeg(w, depth, RayTypeReflection, BiasedOrigin(point, N, reflDir, w.options.bias), reflDir, left,
                          pre);
    }
  }

  lemma {:induction false} ChildDepositsNonNeg(w: World, depth: nat, rayType: RayType, orig: Vec3, dir: Vec3,
                                               intensity: Vec3, pre: Counters)
    requires Ready(w) && depth <= OVERSTACK_PROTECT_DEPTH && rayType != RayTypeOrig
    requires NonNeg(intensity) && KdNonNeg(w)
    ensures DepositsNonNeg(ChildCast(w, depth, rayType, orig, dir, intensity, pre).deposits)
    decreases OVERSTACK_PROTECT_DEPTH + 1 - depth, 0
  {
    ForwardDepositsNonNeg(w, depth + 1, orig, dir, intensity, None, ChildCounted(pre, rayType));
  }
}
