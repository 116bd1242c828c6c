# CloudMagicGraphics ray tracer core, modelled in Dafny

This project models the core of the CloudMagicGraphics ray tracer, a C++
Whitted-style tracer with surface caches.  It models these parts:

- The light pass (`lightRender`) aims one forward ray from every light at
  every surface cell of every object.  The forward cast (`forwordCastRay`)
  deposits irradiance into the cell's `diffuseAmt`.
- The object pass (`objectRender`) fills each cell's angle buckets
  (`angleColor`).  For every bucket it casts a backward ray (`backwardCastRay`)
  from just outside the cell.
- The eye pass (`eyeRender`) shades one backward ray per pixel into a
  row-major framebuffer.  It may read either cache in place of tracing shadow
  rays or children.
- All three passes share the nearest-hit search `trace`.
- The rest of the core: the surface grids of spheres and triangle meshes
  (`Sphere`, `MeshTriangle`), the cells and their angle buckets (`Surface`),
  and the recording structures (`RayStore`, `Ray`, the `Object` recorder
  flags).
- The helpers of `utils.h`, stated over the reals.

How the source is modelled:

- The code works by updating state, so the model is imperative Dafny:
  - `Surface`, `Object` (spheres and meshes), `RayStore` and `Ray` are classes.
  - The angle buffers, trace-link buffers and framebuffer are arrays.
  - Counters and caches are fields that the methods update.
- Each imperative method is proved against a ghost specification function:
  - `Forward` and `Backward` for the two casts.
  - The folds `LightPass`, `ObjectPass` and `EyeRows` for the three passes.
- The properties are proved about those functions.

Geometry is abstract:

- Vectors are triples of reals.
- `sqrt`, `acos`, `atan2`, `tan`, `sin`, `cos`, `pow` and the matrix
  transforms come from a `Numerics` record of uninterpreted functions.
  - `ValidNumerics` gives only the facts used, seven in all:
    - square roots of non-negative numbers are non-negative;
    - square roots of positive numbers are positive;
    - sqrt(0) = 0 and sqrt(1) = 1;
    - `acos` lies in [0, π], and acos(0) = π/2;
    - `atan2` lies in [-π, π].
  - `ExactSqrt` is assumed only by the optical identities that need it.
- The casts see primitive hits through a pure function `isect` (object index,
  origin, direction). Every cast and pass requires (`Scene.Agrees`) that it
  agrees with each object's own `intersect`. The caller supplies it, and
  nothing in the model constructs it.

Source paths below are relative to the repository root.

## Model

| member | source | states |
|---|---|---|
| Utils.Normalize | src/utils.h:1-10 | the zero vector is returned unchanged |
| Utils.NormalizeIsPositiveMultiple | src/utils.h:1-10 | normalize scales its argument by a positive factor, so directions keep their sense |
| Utils.NormalizeUnit | src/utils.h:1-10 | with an exact square root a non-zero vector normalizes to unit length |
| Utils.NormalizeNeg | src/utils.h:1-10 | normalize commutes with negation |
| Utils.Clamp | src/utils.h:24-26 | for lo <= hi the result lies in [lo, hi]; an in-range value is returned unchanged; below lo gives lo, above hi gives hi |
| Utils.ToUint | src/Surface.h:13-14 | the float-to-uint32 cast used for resolutions: the floor of a non-negative value, 0 for values below 1 |
| Utils.Rad2Deg | src/utils.h:32-39 | for rad in (-2π, 2π) the result lies in [0, 360); it is rad·180/π, plus 360 for negative rad |
| Utils.Rad2DegDeg2Rad | src/utils.h:28-39 | deg2rad then rad2deg gives back deg, wrapped into [0, 360) |
| Utils.Deg2Rad | src/utils.h:28-30 | definition, no contract of its own: deg·π/180; Utils.Rad2DegDeg2Rad proves rad2deg undoes it |
| Utils.Mix | src/utils.h:41-43 | mix(a, b, 0) = a and mix(a, b, 1) = b |
| Utils.MixBetween | src/utils.h:41-43 | for t in [0, 1], mix of a <= b lies componentwise between a and b |
| Utils.SolveQuadratic | src/utils.h:45-59 | no roots iff the discriminant is negative; on success x0 <= x1; a zero discriminant gives x0 = x1 = -b/(2a) |
| Utils.Ordered | src/utils.h:57 | the final swap orders the two roots without losing either |
| Utils.QuadraticQ | src/utils.h:51-53 | the stable intermediate q is never zero when the discriminant is positive |
| Utils.SolveQuadraticSolves | src/utils.h:45-59 | with an exact square root both reported roots solve a·x² + b·x + c = 0 |
| Utils.DistinctRoots | src/utils.h:50-56 | a positive discriminant gives two roots of the equation (q/a and c/q) |
| Utils.DoubleRoot | src/utils.h:49 | a zero discriminant's -b/(2a) solves the equation |
| Utils.QuadraticQIdentity | src/utils.h:51-53 | q satisfies q² + b·q + a·c = 0 |
| Utils.RootOfQ | src/utils.h:54-55 | from that identity both q/a and c/q are roots |
| Utils.RayTriangleIntersect | src/utils.h:61-87 | no hit whenever det <= 0; on a hit the scaled barycentric u, v are >= 0 with u + v <= 1 |
| Utils.ScaledHit | src/utils.h:80-84 | dividing by a positive det keeps u, v >= 0 and u + v <= 1 |
| Utils.ReflectProperties | src/utils.h:92-95 | for unit N: dot(reflect(I,N), N) = -dot(I,N), length is kept, and reflecting twice gives I back |
| Utils.Reflect | src/utils.h:92-95 | definition, no contract of its own: I - 2·dot(I,N)·N; Utils.ReflectProperties proves that it flips the normal component, keeps the length and is an involution |
| Utils.IncidenceCos | src/utils.h:122 | definition, no contract of its own: dot(I,N) clamped to [-1, 1], the cosi both refract and fresnel (src/utils.h:144) start from; Utils.Clamp's contract gives its range |
| Utils.RefractK | src/utils.h:122-127 | definition, no contract of its own: k = 1 - eta²·(1 - cosi²) with refract's eta; Utils.RefractTirSint and Utils.RefractTirImpliesFullReflection tie k < 0 to fresnel's sint >= 1 and kr = 1 |
| Utils.Refract | src/utils.h:120-129 | k < 0 (total internal reflection) gives the zero vector; otherwise the tangential part is I's scaled by eta (Snell's law) |
| Utils.FresnelSint | src/utils.h:144-148 | sint is never negative |
| Utils.FresnelEta | src/utils.h:145-146 | the ratio etai/etat is positive for a positive ior |
| Utils.Fresnel | src/utils.h:142-162 | kr lies in [0, 1] and is exactly 1 when sint >= 1 |
| Utils.FresnelMean | src/utils.h:154-158 | (Rs² + Rp²)/2 lies in [0, 1] |
| Utils.AmplitudeRatio | src/utils.h:156-157 | each squared amplitude ratio lies in [0, 1] |
| Utils.FresnelNormalIncidence | src/utils.h:142-162 | at normal incidence kr = ((ior-1)/(ior+1))² |
| Utils.RefractTirImpliesFullReflection | src/utils.h:127-128 | whenever refract reports total internal reflection (k < 0), fresnel reflects everything (kr = 1) |
| Utils.RefractTirSint | src/utils.h:127-150 | refract's k < 0 implies fresnel's sint >= 1 |
| Utils.FresnelSintAwayFromGrazing | src/utils.h:144-148 | off the grazing direction, sint = eta·sqrt(1 - cosi²), with refract's eta |
| Utils.NonNegPart | src/cloudray.cpp:333 | max(0, m) is non-negative and at least m |
| Nearest.FirstMin | src/cloudray.cpp:61-75 | the choice of the strict-< minimum loop, when there is one, is a present distance below the bound |
| Nearest.FirstMinStep | src/cloudray.cpp:67-74 | one more loop step replaces the choice exactly when the new distance is strictly below the best so far |
| Nearest.FirstMinIsFirstLeast | src/MeshTriangle.h:117-129 | none is chosen iff no distance is below the bound; otherwise the chosen one is least and strictly below every earlier one (first of the least) |
| Surfaces.BucketInRange | src/Surface.h:54-55 | floor(angle/range·res) is below res for angles in [0, range) and at least res from range on |
| Surfaces.Surface.constructor | src/Surface.h:10-20 | vAngleRes = (uint)(91·ratio), hAngleRes = (uint)(360·ratio); a zeroed buffer of vAngleRes·hAngleRes buckets exists iff ratio > 0 |
| Surfaces.Surface.AfterReset | src/Surface.h:21-30 | reset keeps diffuseAmt and the buffer length and zeroes every bucket |
| Surfaces.Surface.ResetIdempotent | src/Surface.h:21-30 | resetting twice with the same arguments is resetting once |
| Surfaces.Surface.Reset | src/Surface.h:21-30 | sets idx and N, rebuilds the frames only when angleRatio > 0, zeroes the buckets, leaves diffuseAmt unchanged |
| Surfaces.Surface.AngleByVH | src/Surface.h:32-46 | no bucket iff there is no buffer; otherwise the wrapped offset (v%vRes)·hRes + h%hRes is inside the buffer and decodes to (v%vRes, h%hRes) |
| Surfaces.Surface.AngleDirection | src/Surface.h:37-44 | definition, no contract of its own: the relPoint getSurfaceAngleByVH writes, the bucket's polar direction taken to world space by local2World |
| Surfaces.PolarDirection | src/Surface.h:38-43 | definition, no contract of its own: polar angle 90·v/vRes and azimuth 360·h/hRes degrees, the unit vector (cos φ sin θ, cos θ, sin φ sin θ) mapped by the frame |
| Surfaces.Surface.AngleByPolar | src/Surface.h:48-57 | no bucket iff there is no buffer |
| Surfaces.Surface.AngleByPolarInRange | src/Surface.h:53-56 | for theta < 90 and phi < 360 the unwrapped offset is inside the buffer and decodes to the two buckets |
| Surfaces.Surface.AngleByPolarOutOfRange | src/Surface.h:53-56 | theta >= 90 puts the offset past the end of the buffer |
| Surfaces.Surface.AngleByPolarRowAlias | src/Surface.h:55-56 | phi >= 360 spills into the next bucket row |
| Surfaces.Surface.DirAngles | src/Surface.h:63-65 | the local polar angles lie in theta ∈ [0, 180], phi ∈ [0, 360) |
| Surfaces.Surface.AngleByDirAsWritten | src/Surface.h:59-74 | as written: no bucket iff no buffer, offset v·hAngleRes + h with unbounded v |
| Surfaces.Surface.AngleByDirAsWrittenOverruns | src/Surface.h:64-73 | a direction tangent to the cell (local y = 0) gives v = vAngleRes and an offset past the buffer |
| Surfaces.Surface.AngleByDir | src/Surface.h:59-74 | corrected lookup: a bucket exactly when the direction lies in the covered hemisphere (theta < 90), always inside the buffer and equal to the as-written offset there |
| Objects.GridSize | src/Sphere.h:24 | the uint cast of a resolution: floor of a non-negative product, 0 below 1 |
| Objects.MaxIndex | src/MeshTriangle.h:31-34 | 1 + the largest of the first n vertex indices: above every one of them, and attained (or 1) |
| Objects.MeshCopyWellFormed | src/MeshTriangle.h:35-41 | the copied vertices, indices and st coordinates have the sizes every triangle needs |
| Objects.Fmod1 | src/MeshTriangle.h:167 | fmodf(x, 1) lies in [0, 1) for x >= 0 and in (-1, 0] for x < 0 |
| Objects.Object.Densities | src/Sphere.h:13-22 | DIFFUSE_AND_GLOSSY gives (ratio, 0), other materials (factor·ratio, ratio); factor 4 for spheres, 2 for meshes (src/MeshTriangle.h:21-30) |
| Objects.Object.Sphere | src/Sphere.h:10-42 | Object defaults (ior 1.3, Kd 0.1, Ks 0.2, diffuse 0.2, exponent 25, no recorder), densities, vRes = (uint)(181·amp·r), hRes = (uint)(360·amp·r), exactly vRes·hRes fresh cells reset row-major |
| Objects.Object.SphereSetup | src/Sphere.h:24-41 | type, name, resolutions, then a fresh reset grid |
| Objects.Object.Mesh | src/MeshTriangle.h:12-69 | Object defaults, densities, copies of size maxIndex and 3·numTris, vRes/hRes from the two edge lengths², exactly vRes·hRes fresh cells reset |
| Objects.Object.MeshSetup | src/MeshTriangle.h:49-64 | type, name, resolutions from the squared edges, then a fresh reset grid |
| Objects.Object.CopyMesh | src/MeshTriangle.h:31-41 | the mesh keeps maxIndex vertices and st coordinates and 3·numTris indices, well formed |
| Objects.Object.VertexCount | src/MeshTriangle.h:31-34 | the max-index loop computes MaxIndex |
| Objects.Object.SetType | src/Object.h:50 | sets the type |
| Objects.Object.SetName | src/Object.h:51-54 | sets the name |
| Objects.Object.BuildGrid | src/Sphere.h:27-41 | sets the resolution, creates vRes·hRes cells and resets them |
| Objects.Object.AddSurfaces | src/Sphere.h:32-37 | exactly vRes·hRes fresh cells, each with the object's angle ratio and a fresh zeroed buffer of its own |
| Objects.Object.AddSurface | src/MeshTriangle.h:58-63 | appends one fresh cell (push_back) and records which object owns it and its buffer |
| Objects.Object.CellIndex | src/Sphere.h:120 | the wrapped index (v%vRes)·hRes + h%hRes lies in [0, vRes·hRes) |
| Objects.Object.CellIndexWraps | src/MeshTriangle.h:75 | the index is periodic in v mod vRes and h mod hRes and decodes to (v%vRes, h%hRes) |
| Objects.Object.CellIndexInGrid | src/Sphere.h:120 | inside the grid the index is v·hRes + h |
| Objects.Object.SurfaceByVH | src/Sphere.h:116-124 | getSurfaceByVH returns the object's own cell at the wrapped index, never null |
| Objects.Object.CellPoint | src/Sphere.h:121-122 | definition, no contract of its own: the worldPoint getSurfaceByVH reports, center + N·radius on a sphere and the grid point on a mesh (src/MeshTriangle.h:76-84) |
| Objects.Object.MeshGridPoint | src/MeshTriangle.h:77-82 | definition, no contract of its own: v0 + h·e0 + v·e1 with e0 = (v1-v0)/hRes and e1 = (v2-v0)/vRes; Objects.Object.MeshCellPointIsCenter proves it is the centre reset gives the cell |
| Objects.Object.CellNormal | src/Sphere.h:55-58 | definition, no contract of its own: the normal reset gives cell j = v·hRes + h, the unit direction at θ = 180·v/vRes and φ = 360·h/hRes on a sphere, normalize(cross(e0, e1)) on a mesh (src/MeshTriangle.h:97-99); Objects.Object.Reset and Objects.Object.MeshNormalShared state what reset does with it |
| Objects.Object.CellCenter | src/Sphere.h:59 | definition, no contract of its own: center + normal·radius on a sphere, the grid point on a mesh (src/MeshTriangle.h:105-107) |
| Objects.Object.MeshCellPointIsCenter | src/MeshTriangle.h:76-82 | the worldPoint v0 + h·e0 + v·e1 of a grid cell is the centre reset gives that cell |
| Objects.Object.MeshNormalShared | src/MeshTriangle.h:97-107 | every mesh cell gets the same normal |
| Objects.Object.Reset | src/Sphere.h:44-67 | every cell j is reset with index j and its own normal and centre, in row-major order (sphere and mesh, src/MeshTriangle.h:88-110) |
| Objects.Object.ResetRow | src/Sphere.h:50-66 | one row resets cells v·hRes .. v·hRes + hRes - 1 and no other |
| Objects.Object.ResetCell | src/Sphere.h:52-60 | one cell is reset with index v·hRes + h; every other cell is unchanged |
| Objects.Object.SurfacesSeparate | src/Sphere.h:32-37 | distinct cells never share an object or a buffer |
| Objects.Object.PointMapsRoundTrip | src/Sphere.h:106-114 | pointAbs2Rel(pointRel2Abs(p)) = p for a non-zero radius; for a mesh both maps are identities (src/MeshTriangle.h:153-161) |
| Objects.Object.PointRel2Abs | src/Sphere.h:106-109 | definition, no contract of its own: center + rel·radius, the identity on a mesh (src/MeshTriangle.h:153-156); Objects.Object.PointMapsRoundTrip proves PointAbs2Rel inverts it |
| Objects.Object.PointAbs2Rel | src/Sphere.h:111-114 | definition, no contract of its own: (abs - center)·(1/radius), the identity on a mesh (src/MeshTriangle.h:158-161) |
| Objects.Object.EvalDiffuseColor | src/MeshTriangle.h:163-171 | a sphere returns diffuseColor (src/Object.h:29); a mesh returns localDiffuseColor unless it is -1, then one of the two checker colours |
| Objects.Object.NearRoot | src/Sphere.h:76-79 | none iff no roots or both negative; otherwise t0 if t0 >= 0 else t1, the least non-negative root |
| Objects.Object.SphereIntersect | src/Sphere.h:68-104 | hit iff the quadratic has a non-negative root; tnear is that root, point = orig + dir·tnear, the cell is the object's own; its bucket comes from Surfaces.Surface.AngleByDir (the corrected, bounded lookup of the Findings row, not the as-written one) |
| Objects.Object.TriangleDistances | src/MeshTriangle.h:117-129 | one entry per triangle: rayTriangleIntersect's tK, or none |
| Objects.Object.MeshIntersect | src/MeshTriangle.h:112-151 | hit iff some triangle is nearer than tnear; then tnear is the first least tK and the cell is the object's own |
| Objects.Object.MeshHit | src/MeshTriangle.h:131-149 | the hit's point is orig + dir·t, its cell is in the grid and its angle bucket, from Surfaces.Surface.AngleByDir (the corrected, bounded lookup of the Findings row, not the as-written one), is inside the cell's buffer |
| Objects.Object.Intersect | src/Object.h:27 | any hit names a cell of the object and, when it has a bucket, one inside that cell's buffer; the bucket is the corrected lookup's, so this bound holds for the model, not for the source as written |
| Objects.Object.NearestTriangleIsFirstLeast | src/MeshTriangle.h:117-129 | the chosen triangle has the least tK below tnear and is the first with it; none is chosen iff none is below tnear |
| Objects.Object.IntersectMesh | src/MeshTriangle.h:112-151 | the imperative mesh intersect computes MeshIntersect |
| Objects.Object.NearestTriangle | src/MeshTriangle.h:114-129 | the min-update loop picks FirstMin of the triangle distances, with that triangle's hit |
| Objects.Object.IntersectRay | src/Object.h:27 | the virtual intersect dispatches to the sphere or mesh version and computes Intersect |
| Objects.Object.EnableRecorder | src/Object.h:33-47 | allocates vRes·hRes empty link lists only when there are none, so a second call keeps the buffer; afterwards recorderEnabled holds with a buffer present |
| Objects.Object.DisableRecorder | src/Object.h:48 | clears recorderEnabled only |
| Objects.Object.SetResolution | src/Object.h:56-60 | sets vRes and hRes only |
| Rays.Ray.constructor | src/Ray.h:10-17 | type, orig, dir and intensity are the arguments; status NOHIT, no hit object, outside; all five counters 0; the three child lists empty |
| Rays.RayStore.Counts | src/RayStore.h:134-159 | the counters record, field for field, the store's counter fields |
| Rays.RayStore.constructor | src/RayStore.h:25-50 | every counter and totalMem is 0, currRay null, currPixel zero, no eye trace links (recorder switched off) |
| Rays.RayStore.Record | src/RayStore.h:51-62 | null links: returns null and changes nothing; otherwise appends exactly one new Ray (given type, orig, dir; intensity -1 whatever was passed) to links[index] only, totalMem grows by sizeof(Ray), currRay and every ray counter unchanged |
| Rays.RayStore.RecordChild | src/cloudray.cpp:217-222 | recording into a Ray's child list appends one node to that list only and grows totalMem; unreachable in the source, since `currRay` is always null, and called nowhere in the model |
| Rays.RayStore.CountOrigin | src/cloudray.cpp:778 | originRays grows by one, nothing else |
| Rays.RayStore.SetPixel | src/cloudray.cpp:779 | sets currPixel |
| Rays.RayStore.CountChild | src/cloudray.cpp:215 | a reflection, refraction or diffuse child grows its own counter |
| Rays.RayStore.Restore | src/cloudray.cpp:224 | currRay becomes the saved node |
| Rays.RayStore.CountTraced | src/cloudray.cpp:109 | totalRays grows by one |
| Rays.RayStore.CountOverflow | src/cloudray.cpp:100-105 | overflowRays grows by one; a current ray is marked overflow |
| Rays.RayStore.CountNohit | src/cloudray.cpp:152-157 | nohitRays grows by one; a current ray is marked no-hit |
| Rays.RayStore.CountWeak | src/cloudray.cpp:193-196 | weakRays grows by one |
| Rays.RayStore.CountInvisible | src/cloudray.cpp:592 | invisibleRays grows by one |
| Rays.RayStore.CountValid | src/cloudray.cpp:593 | validRays grows by one |
| Rays.RayStore.MarkValid | src/cloudray.cpp:179-184 | a current ray is marked valid with the hit object and point |
| Scene.AgreesSound | src/cloudray.cpp:67 | hits of an intersect that agrees with the objects name cells of the hit object with in-buffer buckets; the buckets come from the corrected lookup of the Findings row |
| Scene.TraceHit | src/cloudray.cpp:55-81 | a hit names an object index with that object's hit, nearer than the incoming tNear |
| Scene.TraceIsFirstLeast | src/cloudray.cpp:55-81 | trace hits iff some object reports tNearK below tNear; the hit is the least and the first object reaching it (strict <) |
| Scene.IntersectObject | src/cloudray.cpp:67 | one object's intersect is the isect of that object |
| Scene.Trace | src/cloudray.cpp:55-81 | the trace loop returns the TraceHit choice; on a miss the outputs are exactly the incoming ones |
| Scene.TraceStep | src/cloudray.cpp:62-74 | one loop step keeps the outputs equal to the best hit among the objects seen so far |
| Scene.BiasedOrigin | src/cloudray.cpp:200-203 | a child starts bias·N off the hit point, on the side its direction goes |
| Forward.AppliedAppend | src/cloudray.cpp:337 | deposits made in two runs are the deposits of both in order |
| Forward.AppliedIsSum | src/cloudray.cpp:337 | making the deposits adds to every cell exactly the sum deposited into it and touches no other |
| Forward.Forward | src/cloudray.cpp:84-110 | the specification of forwordCastRay: the origin counters and totalMem are never changed by a cast |
| Forward.ForwordCastRay | src/cloudray.cpp:84-344 | the cast returns Forward's colour, leaves the counters as Forward says and adds Forward's deposits to the cells' diffuseAmt; currRay stays null and currPixel is kept |
| Forward.ForwardTrace | src/cloudray.cpp:109-119 | counts the ray, traces, and continues as ForwardTraced |
| Forward.ForwardTraceHit | src/cloudray.cpp:119 | the trace result is TraceHit |
| Forward.ForwardTracedCast | src/cloudray.cpp:130-165 | the target and no-hit rules of ForwardTraced, imperatively |
| Forward.ForwardHit | src/cloudray.cpp:165-337 | a hit: material case, then the irradiance deposit, as ForwardAt |
| Forward.DepositIrradiance | src/cloudray.cpp:329-337 | adds intensity·max(0, -lightDir·N)·Kd to the hit cell's diffuseAmt, nothing else |
| Forward.ForwardMaterialCast | src/cloudray.cpp:186-327 | the material switch, as ForwardMaterial |
| Forward.ForwardRRCast | src/cloudray.cpp:187-246 | reflective and refractive case, as ForwardRR |
| Forward.RRChildrenCast | src/cloudray.cpp:199-244 | both children, as RRChildren |
| Forward.RRReflectionCast | src/cloudray.cpp:199-226 | reflected child skipped when it points into the surface, as RRReflection |
| Forward.RRRefractionCast | src/cloudray.cpp:228-243 | refracted child always cast, as RRRefraction |
| Forward.ForwardReflectCast | src/cloudray.cpp:247-276 | reflective case, as ForwardReflect |
| Forward.ChildRay | src/cloudray.cpp:214-224 | a child: counted by kind, cast one level deeper, currRay restored |
| Forward.ChildTail | src/cloudray.cpp:223-224 | the recursive call then the restore of the saved (null) currRay |
| Forward.ForwardOverflow | src/cloudray.cpp:100-107 | past OVERSTACK_PROTECT_DEPTH only overflowRays grows (totalRays unchanged), the background is returned and nothing is deposited |
| Forward.ForwardTargetShadowed | src/cloudray.cpp:137-145 | aimed at a target, a hit at tnear <= 1 counts one traced ray and one no-hit, returns the background and deposits nothing |
| Forward.ForwardTargetReached | src/cloudray.cpp:146-150 | otherwise the target is the hit: the last deposit is the target cell's irradiance from the ray's origin |
| Forward.ForwardMiss | src/cloudray.cpp:151-159 | untargeted, a miss counts one traced ray and one no-hit and deposits nothing |
| Forward.ForwardDiffuseStops | src/cloudray.cpp:277-280 | a diffuse hit casts no child: its only deposit is its own irradiance and no ray is counted |
| Forward.ForwardRRWeak | src/cloudray.cpp:189-198 | a reflective-refractive hit whose kr share is too weak counts one weak ray and casts neither child (refraction skipped too), yet still deposits |
| Forward.ForwardReflectWeak | src/cloudray.cpp:249-258 | the same for a reflective hit whose 0.9 share is too weak |
| Forward.IrradianceNonNeg | src/cloudray.cpp:330-337 | a non-negative intensity and Kd give a componentwise non-negative increment |
| Forward.Irradiance | src/cloudray.cpp:330-337 | definition, no contract of its own: intensity·max(0, -lightDir·N)·Kd with lightDir the unit direction from the ray's origin to the hit; Forward.IrradianceNonNeg proves it non-negative and Forward.DepositIrradiance adds it to the hit cell |
| Forward.ForwardDepositsNonNeg | src/cloudray.cpp:84-344 | every deposit of a cast, at every depth of its children, is non-negative when the intensity and every Kd are |
| Forward.ForwardTraced | src/cloudray.cpp:119-160 | specification after the trace: a forced target shadowed at tnear <= 1 or a miss ends the ray; the origin counters are untouched; as its contract states, no such step ever changes originRays or totalMem |
| Forward.ForwardAt | src/cloudray.cpp:165-337 | at a hit: the material's children first, then the own irradiance deposit last; as its contract states, no such step ever changes originRays or totalMem |
| Forward.ForwardMaterial | src/cloudray.cpp:186-327 | REFLECTION_AND_REFRACTION, REFLECTION, and any other material casting no child; as its contract states, no such step ever changes originRays or totalMem |
| Forward.ForwardRR | src/cloudray.cpp:187-246 | too weak a kr share counts one weak ray and casts nothing; otherwise both children, colour mixed by kr; as its contract states, no such step ever changes originRays or totalMem |
| Forward.RRChildren | src/cloudray.cpp:199-244 | the reflection's deposits precede the refraction's; as its contract states, no such step ever changes originRays or totalMem |
| Forward.RRReflection | src/cloudray.cpp:199-226 | a reflected direction pointing into the surface casts nothing; as its contract states, no such step ever changes originRays or totalMem |
| Forward.RRRefraction | src/cloudray.cpp:228-243 | the refracted child carries intensity·(1-kr); as its contract states, no such step ever changes originRays or totalMem |
| Forward.ForwardReflect | src/cloudray.cpp:247-276 | too weak a 0.9 share counts one weak ray; otherwise one reflected child with intensity·0.9; as its contract states, no such step ever changes originRays or totalMem |
| Forward.ChildCast | src/cloudray.cpp:214-224 | a child is counted by kind and cast one level deeper; as its contract states, no such step ever changes originRays or totalMem |
| Forward.DepositsNonNegAppend | src/cloudray.cpp:337 | non-negative deposit lists stay non-negative when joined |
| Forward.SharesNonNeg | src/cloudray.cpp:206-232 | for kr in [0, 1] both shares intensity·kr and intensity·(1-kr) of a non-negative intensity are non-negative |
| Forward.ForwardAtDepositsNonNeg | src/cloudray.cpp:165-337 | a hit's deposits are non-negative |
| Forward.MaterialDepositsNonNeg | src/cloudray.cpp:186-327 | the material's children deposit non-negative amounts |
| Forward.RRDepositsNonNeg | src/cloudray.cpp:187-246 | both children of a reflective-refractive hit deposit non-negative amounts |
| Forward.ReflectDepositsNonNeg | src/cloudray.cpp:247-276 | the reflected child deposits non-negative amounts |
| Forward.ChildDepositsNonNeg | src/cloudray.cpp:214-224 | a child cast with a non-negative intensity deposits non-negative amounts |
| Backward.Backward | src/cloudray.cpp:361-388 | the specification of backwardCastRay: the origin counters and totalMem are never changed by a cast |
| Backward.ShadowOrigin | src/cloudray.cpp:507-509 | shadow rays start bias·N off the hit point on the side the ray came from |
| Backward.BackwardCastRay | src/cloudray.cpp:361-618 | the cast returns Backward's colour and leaves the counters as Backward says; it writes nothing else; currRay stays null |
| Backward.BackwardTrace | src/cloudray.cpp:388-399 | counts the ray, traces, continues as BackwardTraced |
| Backward.BackwardTraceHit | src/cloudray.cpp:399 | the trace result is TraceHit |
| Backward.BackwardTracedCast | src/cloudray.cpp:399-616 | no-hit, cached fast path and material switch, as BackwardTraced |
| Backward.SurfaceInCells | src/cloudray.cpp:400 | a hit cell is one of the scene's cells |
| Backward.BackwardMaterialCast | src/cloudray.cpp:427-606 | the material switch, as BackwardMaterial |
| Backward.BackwardRRCast | src/cloudray.cpp:428-473 | Fresnel mix of both children plus the cached diffuse term, as BackwardRR |
| Backward.BackRRChildrenCast | src/cloudray.cpp:430-468 | both children, as BackRRChildren |
| Backward.BackRRReflectionCast | src/cloudray.cpp:430-451 | reflected child skipped (black) when it points inside, as BackRRReflection |
| Backward.BackRRRefractionCast | src/cloudray.cpp:453-468 | refracted child always cast, as BackRRRefraction |
| Backward.BackwardReflectCast | src/cloudray.cpp:474-500 | half the reflected colour plus the cached diffuse term, as BackwardReflect |
| Backward.BackwardChildRay | src/cloudray.cpp:440-450 | a child: counted by kind, cast deeper with withObjectRender false, currRay restored |
| Backward.BackwardChildTail | src/cloudray.cpp:449-450 | the recursive call then the restore |
| Backward.BackwardDiffuseCast | src/cloudray.cpp:501-605 | the diffuse case, as BackwardDiffuse |
| Backward.ShadeLights | src/cloudray.cpp:555-586 | the lights loop computes LightSums |
| Backward.ShadeLight | src/cloudray.cpp:556-585 | one light's shadow test, Lambert and Phong terms, as one step of LightSums |
| Backward.BackwardOverflow | src/cloudray.cpp:379-386 | past options.maxDepth: one overflow, background, no ray traced |
| Backward.BackwardMiss | src/cloudray.cpp:608-615 | a miss: one traced ray, one no-hit, background |
| Backward.BackwardCachedHit | src/cloudray.cpp:411-420 | with withObjectRender a hit returns the bucket's angleColor, or diffuseAmt·diffuse colour without a bucket, whatever the material and lights; no child is cast and only the ray is counted |
| Backward.CachedShade | src/cloudray.cpp:411-420 | definition, no contract of its own: the hit bucket's angleColor, or diffuseAmt·diffuse colour without a bucket; Backward.BackwardCachedHit proves a cached hit returns it |
| Backward.DiffuseTerm | src/cloudray.cpp:469-470 | definition, no contract of its own: diffuseAmt·diffuse colour with withLightRender, zero without; the reflective cases add it (also src/cloudray.cpp:495-496) |
| Backward.InShadow | src/cloudray.cpp:570-571 | definition, no contract of its own: the shadow trace hits and tNearShadow² < lightDistance2; Backward.LightShareShadow proves a light in shadow contributes zero |
| Backward.LightShare | src/cloudray.cpp:562-577 | definition, no contract of its own: (1 - inShadow)·intensity·max(0, L·N)·Kd; Backward.LightShareShadow states both cases |
| Backward.SpecularShare | src/cloudray.cpp:584-585 | definition, no contract of its own: pow(max(0, -reflect(-L, N)·dir), specularExponent)·intensity |
| Backward.LightSums | src/cloudray.cpp:555-586 | definition, no contract of its own: the lights loop as a fold over the first n lights, local irradiance, specular sum and the last light's term; Backward.ShadeLights proves the loop computes it and Backward.LightSumsCached states the withLightRender case |
| Backward.LightShareShadow | src/cloudray.cpp:562-577 | a light is zeroed exactly when the shadow trace hits with tNearShadow² < lightDistance2; otherwise it adds intensity·max(0, L·N)·Kd |
| Backward.LightSumsCached | src/cloudray.cpp:556-586 | with withLightRender no shadow ray is traced: local irradiance and the last light's term stay zero and the sums do not depend on the scene's objects |
| Backward.BackwardDiffuseCached | src/cloudray.cpp:587-595 | with withLightRender the diffuse term is diffuseAmt alone, and every such hit is counted invisible |
| Backward.BackwardTraced | src/cloudray.cpp:399-616 | specification after the trace: a miss gives the background, a cached hit its bucket, else the material's shade; as its contract states, no such step ever changes originRays or totalMem |
| Backward.BackwardMaterial | src/cloudray.cpp:427-606 | REFLECTION_AND_REFRACTION, REFLECTION, and the diffuse default; as its contract states, no such step ever changes originRays or totalMem |
| Backward.BackwardRR | src/cloudray.cpp:428-473 | reflection·kr + refraction·(1-kr); as its contract states, no such step ever changes originRays or totalMem |
| Backward.BackRRChildren | src/cloudray.cpp:430-468 | both children in order, counters threaded; as its contract states, no such step ever changes originRays or totalMem |
| Backward.BackRRReflection | src/cloudray.cpp:430-451 | a reflected direction pointing inside gives black and casts nothing; as its contract states, no such step ever changes originRays or totalMem |
| Backward.BackRRRefraction | src/cloudray.cpp:453-468 | the refracted child is always cast; as its contract states, no such step ever changes originRays or totalMem |
| Backward.BackwardReflect | src/cloudray.cpp:474-500 | the reflected child's colour times 0.5; as its contract states, no such step ever changes originRays or totalMem |
| Backward.BackwardChild | src/cloudray.cpp:440-450 | a child is counted by kind and cast one level deeper with withObjectRender false; as its contract states, no such step ever changes originRays or totalMem |
| Backward.BackwardDiffuse | src/cloudray.cpp:501-605 | Lambert and Phong sums over the lights; invisible when the last light's term is zero, valid otherwise; as its contract states, no such step ever changes originRays or totalMem |
| Render.Originated | src/cloudray.cpp:716-719 | an original ray grows originRays by one and totalMem by sizeof(Ray) exactly when it is recorded; no other counter changes |
| Render.LightRender | src/cloudray.cpp:689-741 | the light pass leaves the counters and currPixel as LightPass says and adds LightPass's deposits to the cells; currRay stays null |
| Render.LightRenderStep | src/cloudray.cpp:702-703 | one light extends the fold by that light's pass over all objects |
| Render.LightFrom | src/cloudray.cpp:704-739 | one light over all objects, as LightObjects |
| Render.LightFromStep | src/cloudray.cpp:705-738 | one object extends the fold |
| Render.LightObject | src/cloudray.cpp:706-735 | one object's rows, as LightRows |
| Render.LightObjectStep | src/cloudray.cpp:706-707 | one row extends the fold |
| Render.LightRow | src/cloudray.cpp:707-734 | one row's cells, as LightCells |
| Render.LightRowStep | src/cloudray.cpp:708-733 | one cell extends the fold |
| Render.LightCell | src/cloudray.cpp:708-732 | one cell: its aim, then LightShot |
| Render.LightCast | src/cloudray.cpp:714-732 | test direction normalize(target + N·bias - light), originRays+1, record, currPixel = (v, h, 0), then a depth-0 forward cast at the cell with the light's intensity |
| Render.PaintedAppend | src/cloudray.cpp:668 | bucket writes made in two runs are the writes of both in order |
| Render.ObjectRender | src/cloudray.cpp:621-685 | the object pass leaves the counters and currPixel as ObjectPass says and writes ObjectPass's colours into the buckets; currRay stays null |
| Render.ObjectRenderStep | src/cloudray.cpp:636-639 | one object extends the fold; objects with surfaceAngleRatio <= 0 are skipped |
| Render.ObjectGrid | src/cloudray.cpp:640-679 | one object's rows, as ObjectRows |
| Render.ObjectGridStep | src/cloudray.cpp:640-641 | one row extends the fold |
| Render.ObjectRow | src/cloudray.cpp:641-678 | one row's cells, as ObjectCells |
| Render.ObjectRowStep | src/cloudray.cpp:642-677 | one cell extends the fold |
| Render.ObjectCell | src/cloudray.cpp:642-674 | one cell's bucket rows, as BucketRows |
| Render.ObjectCellStep | src/cloudray.cpp:652-653 | one bucket row extends the fold |
| Render.BucketRowCast | src/cloudray.cpp:653-673 | one bucket row, as BucketRow |
| Render.BucketStep | src/cloudray.cpp:654-672 | one bucket extends the fold |
| Render.BucketCell | src/cloudray.cpp:654-668 | one bucket, as BucketShot |
| Render.BucketCast | src/cloudray.cpp:654-668 | no buffer, no ray; otherwise as BucketRay, and the next origin is target + the bucket's direction |
| Render.BucketRay | src/cloudray.cpp:662-668 | originRays+1, record, currPixel = (v, h, 0), a backward cast with both cache flags false from target + dir along -dir, its colour written into exactly that bucket |
| Render.Originate | src/cloudray.cpp:662-667 | the pass's bookkeeping before a cast: Originated and currPixel = (v, h, 0); a node is recorded iff the object's recorder is on and it has link lists, and then that fresh node (RayTypeOrig, orig, dir, intensity -1) is appended to traceLinks[v·hRes + h] while every other list is unchanged; otherwise no list changes |
| Render.TestDir | src/cloudray.cpp:714-715 | definition, no contract of its own: normalize(point + N·bias - orig), the light pass's test direction |
| Render.LightShot | src/cloudray.cpp:714-732 | definition, no contract of its own: one cell of the light pass, Originated then a depth-0 Forward cast from the light at the cell with currPixel (v, h, 0); Render.LightCast proves the method computes it |
| Render.LightCells | src/cloudray.cpp:707-734 | definition, no contract of its own: the fold of LightShot over a row's first n cells, deposits in order; Render.LightCellsOrigins counts its original rays and Render.LightRow proves the loop computes it |
| Render.LightRows | src/cloudray.cpp:706-735 | definition, no contract of its own: the fold of LightCells over an object's first m rows; Render.LightRowsOrigins and Render.LightObject |
| Render.LightObjects | src/cloudray.cpp:704-739 | definition, no contract of its own: the fold of LightRows over the first n objects for one light; Render.LightObjectsOrigins and Render.LightFrom |
| Render.LightPass | src/cloudray.cpp:702-741 | definition, no contract of its own: the fold of LightObjects over the first n lights, the specification of lightRender; Render.LightPassOrigins proves it adds lights × cells original rays and Render.LightRender proves the method computes it |
| Render.BucketShot | src/cloudray.cpp:654-668 | definition, no contract of its own: no buffer gives nothing; otherwise Originated, then a Backward cast with no caches from point + dir along -dir, its colour painted into bucket (vAngle, hAngle); Render.BucketRay proves the method computes it |
| Render.BucketRow | src/cloudray.cpp:653-673 | definition, no contract of its own: the fold of BucketShot over a bucket row; Render.BucketRowOrigins |
| Render.BucketRows | src/cloudray.cpp:652-674 | definition, no contract of its own: the fold of BucketRow over a cell's bucket rows; Render.BucketRowsOrigins |
| Render.ObjectCells | src/cloudray.cpp:641-678 | definition, no contract of its own: the fold of BucketRows over a row's cells; Render.ObjectCellsOrigins |
| Render.ObjectRows | src/cloudray.cpp:640-679 | definition, no contract of its own: the fold of ObjectCells over an object's rows; Render.ObjectRowsOrigins |
| Render.ObjectPass | src/cloudray.cpp:636-681 | definition, no contract of its own: the fold of ObjectRows over the objects, skipping those with surfaceAngleRatio <= 0, the specification of objectRender; Render.ObjectPassOrigins counts its rays and Render.ObjectRender proves the method computes it |
| Render.LightCellsOrigins | src/cloudray.cpp:707-734 | n cells of a row add n original rays |
| Render.LightRowsOrigins | src/cloudray.cpp:706-735 | m rows add as many original rays as they have cells |
| Render.LightObjectsOrigins | src/cloudray.cpp:704-739 | one light adds one original ray per cell of the objects passed |
| Render.LightPassOrigins | src/cloudray.cpp:702-741 | the light pass adds exactly (number of lights) × (number of cells) original rays: one per (light, object, cell) |
| Render.BucketRowOrigins | src/cloudray.cpp:653-673 | a bucket row adds one original ray per bucket, none without a buffer |
| Render.BucketRowsOrigins | src/cloudray.cpp:652-674 | a cell adds vAngleRes·hAngleRes original rays, none without a buffer |
| Render.ObjectCellsOrigins | src/cloudray.cpp:641-678 | a row adds the buckets of its cells |
| Render.ObjectRowsOrigins | src/cloudray.cpp:640-679 | an object adds the buckets of its cells |
| Render.ObjectPassOrigins | src/cloudray.cpp:636-681 | the object pass adds one original ray per bucket of every object with surfaceAngleRatio > 0, none for the others |
| Eye.ScreenCoordInside | src/cloudray.cpp:775-776 | a pixel's centre maps strictly inside (-1, 1) |
| Eye.ScreenCoord | src/cloudray.cpp:775-776 | definition, no contract of its own: 2·(k + 0.5)/n - 1; Eye.ScreenCoordInside and Eye.ScreenCoordMirror state its range and symmetry |
| Eye.ImagePoint | src/cloudray.cpp:768-777 | definition, no contract of its own: (x·aspect·scale, y·scale, -1) with scale = tan(fov/2); Eye.ImagePointOnScreen and Eye.ImageSymmetric |
| Eye.PrimaryDir | src/cloudray.cpp:777 | definition, no contract of its own: the normalized image point; Eye.PrimaryDirForward proves it points into the screen |
| Eye.EyePixel | src/cloudray.cpp:779 | definition, no contract of its own: the current pixel (j, i, -1) |
| Eye.ImagePointOnScreen | src/cloudray.cpp:768-777 | the primary ray aims at ((2(i+0.5)/W - 1)·aspect·scale, (1 - 2(j+0.5)/H)·scale, -1) |
| Eye.ScreenCoordMirror | src/cloudray.cpp:775-776 | pixel k and pixel n-1-k map to opposite screen coordinates |
| Eye.ImageSymmetric | src/cloudray.cpp:775-776 | the image plane is symmetric: mirrored columns give opposite x, mirrored rows opposite y |
| Eye.PrimaryDirForward | src/cloudray.cpp:777 | every primary ray points into the screen (z < 0) |
| Eye.EyeShot | src/cloudray.cpp:775-803 | one pixel yields one colour and leaves currPixel = (j, i, -1) |
| Eye.EyePixels | src/cloudray.cpp:773-811 | a row's first n pixels yield n colours |
| Eye.EyeRows | src/cloudray.cpp:772-813 | m rows yield m·width colours |
| Eye.EyePixelsAt | src/cloudray.cpp:773-803 | colour i of a row is pixel i's backward cast, given the counters the earlier pixels left |
| Eye.EyeRowsAt | src/cloudray.cpp:772-803 | the framebuffer is row-major: entry j·width + i is pixel (j, i)'s colour |
| Eye.EyePixelsOrigins | src/cloudray.cpp:778 | n pixels add n original rays |
| Eye.EyeRowsOrigins | src/cloudray.cpp:772-813 | the eye pass adds exactly width·height original rays, one per pixel |
| Eye.EyeRender | src/cloudray.cpp:749-813 | returns a fresh width·height framebuffer holding exactly EyeRows' colours; counters and currPixel as EyeRows says; currRay stays null |
| Eye.EyeRenderStep | src/cloudray.cpp:772-813 | one row extends the framebuffer prefix by width colours |
| Eye.EyeRow | src/cloudray.cpp:773-811 | one row's pixels, as EyePixels, stored after the earlier rows |
| Eye.EyeRowStep | src/cloudray.cpp:773-803 | one pixel: its colour stored at pix, the next free entry |
| Eye.EyeCast | src/cloudray.cpp:775-803 | primary direction, bookkeeping, then a depth-0 backward cast with the pass's cache flags, as EyeShot |
| Eye.EyeOriginate | src/cloudray.cpp:778-781 | originRays+1, currPixel = (j, i, -1), and no trace link recorded (eye links are null) |

## Left out

- PPM output of `eyeRender` (src/cloudray.cpp:815-828), `dumpSurface`, `dumpSurfaceAngles`, the ray dumps of RayStore.h and every `printf`. These are I/O.
- `main`: scene construction, option table, the overrides of object properties such as ior and Kd, timing and statistics. These are orchestration and I/O.
- Floating point. The model works over the reals. `sqrt`, `acos`, `atan2`, `tan`, `sin`, `cos`, `pow`, `normalize`'s magnitude and the Matrix44 transforms (`lookAt`, `inverse`, `multDirMatrix`) are uninterpreted, with only the facts listed above. Matrix44.h, Vec3.h and Vec2.h are not part of this model.
- 32-bit wrap-around of the `uint32_t` counters, indices and resolution products. The model uses unbounded naturals.
- Dead and debug code:
  - the forward diffuse branch after `break` (src/cloudray.cpp:281-325);
  - the `if (false)` diffuse splitting in the backward cast, and the `pDeltaAmt` parameter only it passes;
  - the `#else` debug pixel loop of `eyeRender`;
  - the `CAMERATOWORLD` and `DEBUG_ANGLE_ZERO` paths.
- `diffuse` (src/utils.h:102-105) and `deg2rad` as anything but a product. `diffuse` is called only from the dead code.
- The `relPoint` and `worldPoint` out-parameters:
  - Objects.Object.SurfaceByVH and Surfaces.Surface.AngleByVH return the index only.
  - The point or direction they would write is a separate function (CellPoint, AngleDirection, PolarDirection).
- Rays.RayStore.Record and RecordChild: the Ray nodes are modelled, but `currRay` is never set non-null. As written, `record` assigns its local `currRay` to itself (src/RayStore.h:59). The casts record only when `currRay` is non-null, and no driver ever assigns `currRay`, so no cast sees a current Ray, and the child-link and Ray-status updates inside the casts are never reached.
- Objects.Object.SphereIntersect, Objects.Object.MeshHit, Objects.Object.Intersect: the hits take their angle bucket from the bounded lookup Surfaces.Surface.AngleByDir of the Findings row, not from `getSurfaceAngleByDir` as written (src/Sphere.h:99, src/MeshTriangle.h:146). For a hit whose reversed direction has local y <= 0 the source hands `trace` a bucket pointer past the buffer, which the cached path reads (src/cloudray.cpp:418); the model returns no bucket there, and every cast, pass and pixel downstream (Scene.AgreesSound, Backward.BackwardCachedHit) follows the corrected lookup.
- Render.LightCast, Render.BucketRay, Render.LightRender, Render.ObjectRender: these do not state which trace-link nodes they record. Render.Originate states the recorded node and its list, but the callers above it keep only the counts and the memory growth, not the nodes in the lists.
- Eye trace links. `RAY_TRACE_LINK_RECORDER` is undefined, so `eyeTraceLinks` stays null and Eye.EyeOriginate records nothing. The object and light passes do record into `traceLinks` when a recorder is enabled (Render.Originate).
- Render.ObjectRender and Render.LightRender: the origin the object pass threads from one bucket to the next is modelled at bucket level only (BucketCast). A bucket's recorded origin is therefore the previous bucket's cast origin, as in the source, but the passes' specifications do not carry the recorded rays.
- `getSurfaceByVH` never returns null here (it indexes the object's own vector with a wrapped index), so the `continue` on a null cell (src/cloudray.cpp:643, 709) is never taken and is not modelled.
- Surface::reset does not clear `diffuseAmt` (src/Surface.h:21-30). The irradiance from one light pass therefore stays in the cells when a later pass resets the objects. The model follows the code.
- The forced-target shadow test compares `tnear` along the normalized test direction with 1 (src/cloudray.cpp:137). This is a distance of one unit, not the end of the segment to the target. The model follows the code.
- Backward.BackwardDiffuse: the invisible/valid count uses only the last light's term `tmpAmt` (src/cloudray.cpp:592-593), as in the code.
- Scene.SceneValid: every cast and pass requires each object to have a non-empty grid (vRes > 0 and hRes > 0) and a positive ior. The source also accepts an object with an empty grid, for example a DIFFUSE_AND_GLOSSY sphere whose (uint)(181·0.25·r) is 0 (src/Sphere.h:24). On such a scene the source crashes as soon as a ray hits that object: `v%vRes` divides by zero in getSurfaceByVH (src/Sphere.h:120, src/MeshTriangle.h:75). The model excludes such scenes instead of modelling the crash. The scene that `main` builds meets the requirement.
- Concurrency: there is none in the core.

## Findings

| source | as written | input that shows it | evidently intended | confidence | as-written member | corrected member |
|---|---|---|---|---|---|---|
| src/Surface.h:64-73 | `getSurfaceAngleByDir` buckets theta = rad2deg(acos(y)) ∈ [0, 180] as v = floor(theta/90·vAngleRes) with no bound, and returns `angles + v·hAngleRes + h`; the buffer holds only vAngleRes·hAngleRes buckets (src/Surface.h:13-18) | any hit whose reversed ray direction is tangent to the cell or comes from behind it (local y <= 0), e.g. y = 0 gives theta = 90 and v = vAngleRes, an offset past the end of the buffer; the backward cast's cached path then reads `hitAngle->angleColor` out of bounds (src/cloudray.cpp:418) | a bucket only for directions in the hemisphere the buffer covers (theta < 90, as the comments at src/Surface.h:11-12 say), otherwise no bucket, so the cached shade falls back to diffuseAmt·diffuse colour | not executed; the overrun is proved for every cell with a buffer | Surfaces.Surface.AngleByDirAsWrittenOverruns | Surfaces.Surface.AngleByDir |
