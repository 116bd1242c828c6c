// The three render passes of cloudray.cpp.
//
//  * lightRender: from every light, one forward ray at every surface cell of
//    every object; the cell is the ray's target, and the irradiance the rays
//    bring accumulates in the cells' `diffuseAmt`.
//  * objectRender: from just outside every angle bucket of every surface
//    cell, one backward ray towards the cell; its colour is stored in the
//    bucket's `angleColor`.
//  * eyeRender: one backward ray per pixel from the viewpoint; the colours
//    fill a new framebuffer, row by row.
//
// Each pass is a method with one method per loop level.  Its specification
// is a fold over the cells (buckets, pixels) in loop order of the shot
// functions below, which say what one original ray does to the RayStore's
// counters and current pixel (`Tally`), and what it deposits or paints.
// The cells a pass visits are given as a table of values (`Aim`), tied to
// the objects by `Aimed`; nothing a pass changes is read by that table.

module Render {
  import opened Geometry
  import opened Maybe
  import opened Utils
  import opened Values
  import opened Rays
  import opened Surfaces
  import opened Objects
  import opened Scene
  import opened Forward
  import opened Backward

  // ---------------------------------------------------------------------
  // The cells a pass visits
  // ---------------------------------------------------------------------

  /**
   * Cell (v, h) of an object as a pass sees it: the surface getSurfaceByVH
   * returns, the point it reports, the surface's local frame and whether
   * the object records its original rays.
   */
  datatype Aim = Aim(v: nat, h: nat, surface: Surface, point: Vec3, frame: Matrix44, recorded: bool)

  /** `a` is cell (v, h) of `obj` as it is now. */
  ghost predicate AimAt(obj: Object, v: nat, h: nat, a: Aim)
    reads obj, (set s | s in obj.pSurfaces)`N, (set s | s in obj.pSurfaces)`local2World
  {
    obj.Valid() && obj.HasCells() && v < obj.vRes && h < obj.hRes &&
    a == Aim(v, h, obj.SurfaceByVH(v, h), obj.CellPoint(v, h), obj.SurfaceByVH(v, h).local2World,
             obj.recorderEnabled && obj.traceLinks != null)
  }

  /** `row` is row v of `obj`'s cells. */
  ghost predicate AimedRow(obj: Object, v: nat, row: seq<Aim>)
    reads obj, (set s | s in obj.pSurfaces)`N, (set s | s in obj.pSurfaces)`local2World
  {
    |row| == obj.hRes && forall h :: 0 <= h < |row| ==> AimAt(obj, v, h, row[h])
  }

  /** `rows` are the rows of `obj`'s cells. */
  ghost predicate Aimed(obj: Object, rows: seq<seq<Aim>>)
    reads obj, (set s | s in obj.pSurfaces)`N, (set s | s in obj.pSurfaces)`local2World
  {
    |rows| == obj.vRes && forall v :: 0 <= v < |rows| ==> AimedRow(obj, v, rows[v])
  }

  /** The objects' trace-link blocks. */
  ghost function LinksOf(objects: seq<Object>): set<array<seq<Ray>>>
    reads objects
  {
    set o | o in objects && o.traceLinks != null :: o.traceLinks
  }

  /** An object's trace-link block, if it has one. */
  ghost function Links(obj: Object): set<array<seq<Ray>>>
    reads obj
  {
    if obj.traceLinks == null then {} else {obj.traceLinks}
  }

  /** Every object's trace-link block, when it has one, holds a vector per cell. */
  ghost predicate RecordersValid(objects: seq<Object>)
    reads objects
  {
    forall o | o in objects :: o.RecorderValid()
  }

  /** `grids` holds the cells of every object, object by object. */
  ghost predicate AimedAll(objects: seq<Object>, grids: seq<seq<seq<Aim>>>)
    reads objects, SceneSurfaces(objects)`N, SceneSurfaces(objects)`local2World
  {
    |grids| == |objects| && forall k :: 0 <= k < |objects| ==> Aimed(objects[k], grids[k])
  }

  /** What the light and object passes are given and keep: the scene, its cells and the trace-link blocks. */
  ghost predicate Prepared(num: Numerics, objects: seq<Object>, isect: Isect, normal: Normals, cells: set<Surface>,
                            grids: seq<seq<seq<Aim>>>)
    reads objects, SceneSurfaces(objects)`world2Local, SceneSurfaces(objects)`N, SceneSurfaces(objects)`local2World
    reads cells`N
  {
    SceneReady(num, objects, isect, normal, cells) && AimedAll(objects, grids) && RecordersValid(objects)
  }

  /** What the RayStore shows between original rays: its counters and the current pixel. */
  datatype Tally = Tally(counts: Counters, pixel: Vec3)

  /** An original ray: counted, and its Ray node's size added when it is recorded. */
  function Originated(c: Counters, recorded: bool): (r: Counters)
    ensures r.originRays == c.originRays + 1
    ensures r.totalMem == if recorded then c.totalMem + RAY_SIZE else c.totalMem
    ensures r.(originRays := c.originRays, totalMem := c.totalMem) == c
  {
    var counted := c.(originRays := c.originRays + 1);
    if recorded then counted.(totalMem := counted.totalMem + RAY_SIZE) else counted
  }

  /** The current pixel a light or object pass sets for a cell: (v, h, 0). */
  function CellPixel(a: Aim): Vec3 {
    Vec3(a.v as real, a.h as real, 0.0)
  }

  // ---------------------------------------------------------------------
  // lightRender
  // ---------------------------------------------------------------------

  /** What (part of) the light pass does: the tally it leaves and its deposits in order. */
  datatype Lit = Lit(tally: Tally, deposits: seq<Deposit>)

  /**
   * The direction of the ray from `orig` at a cell: towards the cell's
   * point moved `bias` along the cell's normal, normalized.
   */
  function TestDir(num: Numerics, orig: Vec3, point: Vec3, N: Vec3, bias: real): Vec3
    requires ValidNumerics(num)
  {
    Normalize(num, Sub(Add(point, Scale(N, bias)), orig))
  }

  /**
   * One cell of the light pass: the ray is counted (and recorded), the
   * cell becomes the current pixel, and a forward cast from the light with
   * the light's intensity targets the cell.
   */
  ghost function LightShot(w: World, light: Light, obj: Object, a: Aim, pre: Tally): Lit
    requires Ready(w) && obj in w.objects
  {
    var cast := Forward.Forward(w, 0, light.position, TestDir(w.num, light.position, a.point, w.normal(a.surface), w.options.bias),
                        light.intensity, Some(Target(obj, a.surface, a.point)), Originated(pre.counts, a.recorded));
    Lit(Tally(cast.counts, CellPixel(a)), cast.deposits)
  }

  /** The first n cells of a row, one after the other. */
  ghost function LightCells(w: World, light: Light, obj: Object, row: seq<Aim>, n: nat, pre: Tally): Lit
    requires Ready(w) && obj in w.objects && n <= |row|
  {
    if n == 0 then Lit(pre, [])
    else
      var q := LightCells(w, light, obj, row, n - 1, pre);
      var s := LightShot(w, light, obj, row[n - 1], q.tally);
      Lit(s.tally, q.deposits + s.deposits)
  }

  /** The first m rows of an object. */
  ghost function LightRows(w: World, light: Light, obj: Object, rows: seq<seq<Aim>>, m: nat, pre: Tally): Lit
    requires Ready(w) && obj in w.objects && m <= |rows|
  {
    if m == 0 then Lit(pre, [])
    else
      var q := LightRows(w, light, obj, rows, m - 1, pre);
      var s := LightCells(w, light, obj, rows[m - 1], |rows[m - 1]|, q.tally);
      Lit(s.tally, q.deposits + s.deposits)
  }

  /** The first n objects, lit by one light. */
  ghost function LightObjects(w: World, light: Light, grids: seq<seq<seq<Aim>>>, n: nat, pre: Tally): Lit
    requires Ready(w) && n <= |w.objects| && n <= |grids|
  {
    if n == 0 then Lit(pre, [])
    else
      var q := LightObjects(w, light, grids, n - 1, pre);
      var s := LightRows(w, light, w.objects[n - 1], grids[n - 1], |grids[n - 1]|, q.tally);
      Lit(s.tally, q.deposits + s.deposits)
  }

  /** The first n lights, each over every object. */
  ghost function LightPass(w: World, lights: seq<Light>, grids: seq<seq<seq<Aim>>>, n: nat, pre: Tally): Lit
    requires Ready(w) && n <= |lights| && |grids| == |w.objects|
  {
    if n == 0 then Lit(pre, [])
    else
      var q := LightPass(w, lights, grids, n - 1, pre);
      var s := LightObjects(w, lights[n - 1], grids, |w.objects|, q.tally);
      Lit(s.tally, q.deposits + s.deposits)
  }

  /**
   * lightRender: every light, every object, every cell row by row, a
   * forward ray at the cell.  The counters, the current pixel and the
   * cells' irradiance end up as the fold says.
   */
  method LightRender(num: Numerics, rayStore: RayStore, options: Options, objects: seq<Object>, lights: seq<Light>,
                     ghost isect: Isect, ghost normal: Normals, ghost cells: set<Surface>,
                     ghost grids: seq<seq<seq<Aim>>>)
    requires Prepared(num, objects, isect, normal, cells, grids) && rayStore.currRay == null
    modifies rayStore, cells`diffuseAmt, LinksOf(objects)
    ensures var r := LightPass(World(num, objects, isect, normal, options), lights, grids, |lights|,
                               Tally(old(rayStore.Counts()), old(rayStore.currPixel)));
      Tally(rayStore.Counts(), rayStore.currPixel) == r.tally && Amounts(cells) == Applied(r.deposits, old(Amounts(cells)))
    ensures rayStore.currRay == null && Prepared(num, objects, isect, normal, cells, grids)
  {
    ghost var w := World(num, objects, isect, normal, options);
    ghost var t0 := Tally(rayStore.Counts(), rayStore.currPixel);
    var l := 0;
    while l < |lights|
      invariant 0 <= l <= |lights|
      invariant Tally(rayStore.Counts(), rayStore.currPixel) == LightPass(w, lights, grids, l, t0).tally
      invariant Amounts(cells) == Applied(LightPass(w, lights, grids, l, t0).deposits, old(Amounts(cells)))
      invariant rayStore.currRay == null && Prepared(num, objects, isect, normal, cells, grids)
    {
      LightRenderStep(num, rayStore, options, objects, lights, l, isect, normal, cells, grids, t0, old(Amounts(cells)));
      l := l + 1;
    }
    assert t0 == Tally(old(rayStore.Counts()), old(rayStore.currPixel));
  }

  /** One step of lightRender's loop over the lights: the fold over the first l lights becomes the fold over l + 1. */
  method LightRenderStep(num: Numerics, rayStore: RayStore, options: Options, objects: seq<Object>, lights: seq<Light>,
                         l: nat, ghost isect: Isect, ghost normal: Normals, ghost cells: set<Surface>,
                         ghost grids: seq<seq<seq<Aim>>>, ghost t0: Tally, ghost a0: map<Surface, Vec3>)
    requires Prepared(num, objects, isect, normal, cells, grids) && l < |lights| && rayStore.currRay == null
    requires var q := LightPass(World(num, objects, isect, normal, options), lights, grids, l, t0);
      Tally(rayStore.Counts(), rayStore.currPixel) == q.tally && Amounts(cells) == Applied(q.deposits, a0)
    modifies rayStore, cells`diffuseAmt, LinksOf(objects)
    ensures var q := LightPass(World(num, objects, isect, normal, options), lights, grids, l + 1, t0);
      Tally(rayStore.Counts(), rayStore.currPixel) == q.tally && Amounts(cells) == Applied(q.deposits, a0)
    ensures rayStore.currRay == null && Prepared(num, objects, isect, normal, cells, grids)
  {
    ghost var w := World(num, objects, isect, normal, options);
    ghost var q := LightPass(w, lights, grids, l, t0);
    LightFrom(num, rayStore, options, objects, lights[l], isect, normal, cells, grids);
    ghost var s := LightObjects(w, lights[l], grids, |objects|, q.tally);
    AppliedAppend(q.deposits, s.deposits, a0);
  }

  /** One light of lightRender: every object in turn. */
  method LightFrom(num: Numerics, rayStore: RayStore, options: Options, objects: seq<Object>, light: Light,
                   ghost isect: Isect, ghost normal: Normals, ghost cells: set<Surface>,
                   ghost grids: seq<seq<seq<Aim>>>)
    requires Prepared(num, objects, isect, normal, cells, grids) && rayStore.currRay == null
    modifies rayStore, cells`diffuseAmt, LinksOf(objects)
    ensures var r := LightObjects(World(num, objects, isect, normal, options), light, grids, |objects|,
                                  Tally(old(rayStore.Counts()), old(rayStore.currPixel)));
      Tally(rayStore.Counts(), rayStore.currPixel) == r.tally && Amounts(cells) == Applied(r.deposits, old(Amounts(cells)))
    ensures rayStore.currRay == null && Prepared(num, objects, isect, normal, cells, grids)
  {
    ghost var w := World(num, objects, isect, normal, options);
    ghost var t0 := Tally(rayStore.Counts(), rayStore.currPixel);
    var i := 0;
    while i < |objects|
      invariant 0 <= i <= |objects|
      invariant Tally(rayStore.Counts(), rayStore.currPixel) == LightObjects(w, light, grids, i, t0).tally
      invariant Amounts(cells) == Applied(LightObjects(w, light, grids, i, t0).deposits, old(Amounts(cells)))
      invariant rayStore.currRay == null && Prepared(num, objects, isect, normal, cells, grids)
    {
      LightFromStep(num, rayStore, options, objects, light, i, isect, normal, cells, grids, t0, old(Amounts(cells)));
      i := i + 1;
    }
    assert t0 == Tally(old(rayStore.Counts()), old(rayStore.currPixel));
  }

  /** One step of LightFrom's loop: the fold over the first i objects becomes the fold over i + 1. */
  method LightFromStep(num: Numerics, rayStore: RayStore, options: Options, objects: seq<Object>, light: Light,
                       i: nat, ghost isect: Isect, ghost normal: Normals, ghost cells: set<Surface>,
                       ghost grids: seq<seq<seq<Aim>>>, ghost t0: Tally, ghost a0: map<Surface, Vec3>)
    requires Prepared(num, objects, isect, normal, cells, grids) && i < |objects| && rayStore.currRay == null
    requires var q := LightObjects(World(num, objects, isect, normal, options), light, grids, i, t0);
      Tally(rayStore.Counts(), rayStore.currPixel) == q.tally && Amounts(cells) == Applied(q.deposits, a0)
    modifies rayStore, cells`diffuseAmt, LinksOf(objects)
    ensures var q := LightObjects(World(num, objects, isect, normal, options), light, grids, i + 1, t0);
      Tally(rayStore.Counts(), rayStore.currPixel) == q.tally && Amounts(cells) == Applied(q.deposits, a0)
    ensures rayStore.currRay == null && Prepared(num, objects, isect, normal, cells, grids)
  {
    ghost var w := World(num, objects, isect, normal, options);
    ghost var q := LightObjects(w, light, grids, i, t0);
    LightObject(num, rayStore, options, objects, light, i, isect, normal, cells, grids);
    ghost var s := LightRows(w, light, objects[i], grids[i], |grids[i]|, q.tally);
    AppliedAppend(q.deposits, s.deposits, a0);
  }

  /** One object lit by one light: its rows in turn. */
  method LightObject(num: Numerics, rayStore: RayStore, options: Options, objects: seq<Object>, light: Light, i: nat,
                     ghost isect: Isect, ghost normal: Normals, ghost cells: set<Surface>,
                     ghost grids: seq<seq<seq<Aim>>>)
    requires Prepared(num, objects, isect, normal, cells, grids) && i < |objects| && rayStore.currRay == null
    modifies rayStore, cells`diffuseAmt, LinksOf(objects)
    ensures var r := LightRows(World(num, objects, isect, normal, options), light, objects[i], grids[i], |grids[i]|,
                               Tally(old(rayStore.Counts()), old(rayStore.currPixel)));
      Tally(rayStore.Counts(), rayStore.currPixel) == r.tally && Amounts(cells) == Applied(r.deposits, old(Amounts(cells)))
    ensures rayStore.currRay == null && Prepared(num, objects, isect, normal, cells, grids)
  {
    ghost var w := World(num, objects, isect, normal, options);
    ghost var t0 := Tally(rayStore.Counts(), rayStore.currPixel);
    var obj := objects[i];
    assert Aimed(obj, grids[i]);
    var v := 0;
    while v < obj.vRes
      invariant 0 <= v <= |grids[i]| == obj.vRes
      invariant Tally(rayStore.Counts(), rayStore.currPixel) == LightRows(w, light, obj, grids[i], v, t0).tally
      invariant Amounts(cells) == Applied(LightRows(w, light, obj, grids[i], v, t0).deposits, old(Amounts(cells)))
      invariant rayStore.currRay == null && Prepared(num, objects, isect, normal, cells, grids)
    {
      LightObjectStep(num, rayStore, options, objects, light, i, v, isect, normal, cells, grids, t0, old(Amounts(cells)));
      v := v + 1;
    }
    assert v == |grids[i]| && t0 == Tally(old(rayStore.Counts()), old(rayStore.currPixel));
  }

  /** One step of LightObject's loop: the fold over the object's first v rows becomes the fold over v + 1. */
  method LightObjectStep(num: Numerics, rayStore: RayStore, options: Options, objects: seq<Object>, light: Light,
                         i: nat, v: nat, ghost isect: Isect, ghost normal: Normals, ghost cells: set<Surface>,
                         ghost grids: seq<seq<seq<Aim>>>, ghost t0: Tally, ghost a0: map<Surface, Vec3>)
    requires Prepared(num, objects, isect, normal, cells, grids) && i < |objects| && v < |grids[i]|
    requires rayStore.currRay == null
    requires var q := LightRows(World(num, objects, isect, normal, options), light, objects[i], grids[i], v, t0);
      Tally(rayStore.Counts(), rayStore.currPixel) == q.tally && Amounts(cells) == Applied(q.deposits, a0)
    modifies rayStore, cells`diffuseAmt, LinksOf(objects)
    ensures var q := LightRows(World(num, objects, isect, normal, options), light, objects[i], grids[i], v + 1, t0);
      Tally(rayStore.Counts(), rayStore.currPixel) == q.tally && Amounts(cells) == Applied(q.deposits, a0)
    ensures rayStore.currRay == null && Prepared(num, objects, isect, normal, cells, grids)
  {
    ghost var w := World(num, objects, isect, normal, options);
    ghost var q := LightRows(w, light, objects[i], grids[i], v, t0);
    LightRow(num, rayStore, options, objects, light, i, v, isect, normal, cells, grids);
    ghost var s := LightCells(w, light, objects[i], grids[i][v], |grids[i][v]|, q.tally);
    AppliedAppend(q.deposits, s.deposits, a0);
  }

  /** Row v of one object lit by one light: its cells in turn. */
  method LightRow(num: Numerics, rayStore: RayStore, options: Options, objects: seq<Object>, light: Light,
                  i: nat, v: nat, ghost isect: Isect, ghost normal: Normals, ghost cells: set<Surface>,
                  ghost grids: seq<seq<seq<Aim>>>)
    requires Prepared(num, objects, isect, normal, cells, grids) && i < |objects| && v < |grids[i]|
    requires rayStore.currRay == null
    modifies rayStore, cells`diffuseAmt, LinksOf(objects)
    ensures var r := LightCells(World(num, objects, isect, normal, options), light, objects[i], grids[i][v],
                                |grids[i][v]|, Tally(old(rayStore.Counts()), old(rayStore.currPixel)));
      Tally(rayStore.Counts(), rayStore.currPixel) == r.tally && Amounts(cells) == Applied(r.deposits, old(Amounts(cells)))
    ensures rayStore.currRay == null && Prepared(num, objects, isect, normal, cells, grids)
  {
    ghost var w := World(num, objects, isect, normal, options);
    ghost var t0 := Tally(rayStore.Counts(), rayStore.currPixel);
    var obj := objects[i];
    assert AimedRow(obj, v, grids[i][v]);
    var h := 0;
    while h < obj.hRes
      invariant 0 <= h <= |grids[i][v]| == obj.hRes
      invariant Tally(rayStore.Counts(), rayStore.currPixel) == LightCells(w, light, obj, grids[i][v], h, t0).tally
      invariant Amounts(cells) == Applied(LightCells(w, light, obj, grids[i][v], h, t0).deposits, old(Amounts(cells)))
      invariant rayStore.currRay == null && Prepared(num, objects, isect, normal, cells, grids)
    {
      LightRowStep(num, rayStore, options, objects, light, i, v, h, isect, normal, cells, grids, t0, old(Amounts(cells)));
      h := h + 1;
    }
    assert h == |grids[i][v]| && t0 == Tally(old(rayStore.Counts()), old(rayStore.currPixel));
  }

  /** One step of LightRow's loop: the fold over row v's first h cells becomes the fold over h + 1. */
  method LightRowStep(num: Numerics, rayStore: RayStore, options: Options, objects: seq<Object>, light: Light,
                   i: nat, v: nat, h: nat, ghost isect: Isect, ghost normal: Normals, ghost cells: set<Surface>,
                   ghost grids: seq<seq<seq<Aim>>>, ghost t0: Tally, ghost a0: map<Surface, Vec3>)
    requires Prepared(num, objects, isect, normal, cells, grids) && i < |objects|
    requires v < |grids[i]| && h < |grids[i][v]| && rayStore.currRay == null
    requires var q := LightCells(World(num, objects, isect, normal, options), light, objects[i], grids[i][v], h, t0);
      Tally(rayStore.Counts(), rayStore.currPixel) == q.tally && Amounts(cells) == Applied(q.deposits, a0)
    modifies rayStore, cells`diffuseAmt, LinksOf(objects)
    ensures var q := LightCells(World(num, objects, isect, normal, options), light, objects[i], grids[i][v], h + 1, t0);
      Tally(rayStore.Counts(), rayStore.currPixel) == q.tally && Amounts(cells) == Applied(q.deposits, a0)
    ensures rayStore.currRay == null && Prepared(num, objects, isect, normal, cells, grids)
  {
    ghost var w := World(num, objects, isect, normal, options);
    ghost var q := LightCells(w, light, objects[i], grids[i][v], h, t0);
    LightCell(num, rayStore, options, objects, light, i, v, h, isect, normal, cells, grids);
    ghost var s := LightShot(w, light, objects[i], grids[i][v][h], q.tally);
    AppliedAppend(q.deposits, s.deposits, a0);
  }

  /** The body of lightRender's innermost loop, cell (v, h) of object i; what the pass is given is kept. */
  method LightCell(num: Numerics, rayStore: RayStore, options: Options, objects: seq<Object>, light: Light,
                   i: nat, v: nat, h: nat, ghost isect: Isect, ghost normal: Normals, ghost cells: set<Surface>,
                   ghost grids: seq<seq<seq<Aim>>>)
    requires Prepared(num, objects, isect, normal, cells, grids) && i < |objects|
    requires v < |grids[i]| && h < |grids[i][v]| && rayStore.currRay == null
    modifies rayStore, cells`diffuseAmt, LinksOf(objects)
    ensures var r := LightShot(World(num, objects, isect, normal, options), light, objects[i], grids[i][v][h],
                               Tally(old(rayStore.Counts()), old(rayStore.currPixel)));
      Tally(rayStore.Counts(), rayStore.currPixel) == r.tally && Amounts(cells) == Applied(r.deposits, old(Amounts(cells)))
    ensures rayStore.currRay == null && Prepared(num, objects, isect, normal, cells, grids)
  {
    assert Aimed(objects[i], grids[i]) && AimedRow(objects[i], v, grids[i][v]);
    LightCast(num, rayStore, options, objects, light, i, v, h, isect, normal, cells, grids[i][v][h]);
  }

  /** Cell (v, h) of object i lit: the ray is originated, then cast forward at the cell. */
  method LightCast(num: Numerics, rayStore: RayStore, options: Options, objects: seq<Object>, light: Light,
                   i: nat, v: nat, h: nat, ghost isect: Isect, ghost normal: Normals, ghost cells: set<Surface>,
                   ghost a: Aim)
    requires SceneReady(num, objects, isect, normal, cells) && i < |objects| && AimAt(objects[i], v, h, a)
    requires objects[i].RecorderValid() && rayStore.currRay == null
    modifies rayStore, cells`diffuseAmt, LinksOf(objects)
    ensures var r := LightShot(World(num, objects, isect, normal, options), light, objects[i], a,
                               Tally(old(rayStore.Counts()), old(rayStore.currPixel)));
      Tally(rayStore.Counts(), rayStore.currPixel) == r.tally && Amounts(cells) == Applied(r.deposits, old(Amounts(cells)))
    ensures rayStore.currRay == null
  {
    var targetObject := objects[i];
    var targetSurface := targetObject.SurfaceByVH(v, h);
    var targetPoint := targetObject.CellPoint(v, h);
    var testPoint := TestDir(num, light.position, targetPoint, targetSurface.N, options.bias);
    SurfaceInScene(objects, cells, targetObject, targetSurface);
    var ray := Originate(rayStore, objects, i, v, h, light.position, testPoint);
    var color := ForwordCastRay(num, rayStore, light.position, testPoint, objects, light.intensity, options, 0,
                                Some(Target(targetObject, targetSurface, targetPoint)), isect, normal, cells);
  }

  // ---------------------------------------------------------------------
  // objectRender
  // ---------------------------------------------------------------------

  /** A colour written into bucket `offset` of an angle buffer. */
  datatype Paint = Paint(buffer: array<Vec3>, offset: nat, color: Vec3)

  /** What (part of) the object pass does: the tally it leaves and its paints in order. */
  datatype Painting = Painting(tally: Tally, paints: seq<Paint>)

  /** The contents of the buffers `bufs`. */
  ghost function Colors(bufs: set<array<Vec3>>): map<array<Vec3>, seq<Vec3>>
    reads bufs
  {
    map b | b in bufs :: b[..]
  }

  /** The contents m once the paints ps are made one after another (into the buffers m has). */
  function Painted(ps: seq<Paint>, m: map<array<Vec3>, seq<Vec3>>): map<array<Vec3>, seq<Vec3>>
  {
    if ps == [] then m
    else
      var prev := Painted(ps[..|ps| - 1], m);
      var p := ps[|ps| - 1];
      if p.buffer in prev && p.offset < |prev[p.buffer]| then prev[p.buffer := prev[p.buffer][p.offset := p.color]]
      else prev
  }

  /** Paints made in two runs, one after the other, are the paints of both in order. */
  lemma {:induction false} PaintedAppend(a: seq<Paint>, b: seq<Paint>, m: map<array<Vec3>, seq<Vec3>>)
    ensures Painted(a + b, m) == Painted(b, Painted(a, m))
    decreases |b|
  {
    if b == [] {
      assert a + b == a;
    } else {
      var b' := b[..|b| - 1];
      assert (a + b)[..|a + b| - 1] == a + b';
      PaintedAppend(a, b', m);
    }
  }

  /** The caches of a cast that reads none: every value zero. */
  const NoCaches: Caches := Caches(_ => Zero, (_, _) => Zero)

  /**
   * Bucket (vAngle, hAngle) of a cell of the object pass.  A surface
   * without buckets gives no ray.  Otherwise the ray is counted (and
   * recorded), the cell becomes the current pixel, and a backward cast,
   * reading no cache, goes from the cell's point moved along the bucket's
   * direction back towards the cell; its colour is painted into the bucket.
   */
  ghost function BucketShot(w: World, lights: seq<Light>, a: Aim, vAngle: nat, hAngle: nat, pre: Tally): Painting
    requires Ready(w) && vAngle < a.surface.vAngleRes && hAngle < a.surface.hAngleRes
  {
    var s := a.surface;
    var angle := s.AngleByVH(vAngle, hAngle);
    if angle.None? then Painting(pre, [])
    else
      var dir := PolarDirection(w.num, a.frame, vAngle, hAngle, s.vAngleRes, s.hAngleRes);
      var cast := Backward.Backward(w, lights, NoCaches, 0, Add(a.point, dir), Neg(dir), false, false,
                                    Originated(pre.counts, a.recorded));
      Painting(Tally(cast.counts, CellPixel(a)), [Paint(s.angles, angle.value, cast.color)])
  }

  /** The first n buckets of bucket row vAngle of a cell. */
  ghost function BucketRow(w: World, lights: seq<Light>, a: Aim, vAngle: nat, n: nat, pre: Tally): Painting
    requires Ready(w) && vAngle < a.surface.vAngleRes && n <= a.surface.hAngleRes
  {
    if n == 0 then Painting(pre, [])
    else
      var q := BucketRow(w, lights, a, vAngle, n - 1, pre);
      var s := BucketShot(w, lights, a, vAngle, n - 1, q.tally);
      Painting(s.tally, q.paints + s.paints)
  }

  /** The first m bucket rows of a cell. */
  ghost function BucketRows(w: World, lights: seq<Light>, a: Aim, m: nat, pre: Tally): Painting
    requires Ready(w) && m <= a.surface.vAngleRes
  {
    if m == 0 then Painting(pre, [])
    else
      var q := BucketRows(w, lights, a, m - 1, pre);
      var s := BucketRow(w, lights, a, m - 1, a.surface.hAngleRes, q.tally);
      Painting(s.tally, q.paints + s.paints)
  }

  /** The first n cells of a row, every bucket of each. */
  ghost function ObjectCells(w: World, lights: seq<Light>, row: seq<Aim>, n: nat, pre: Tally): Painting
    requires Ready(w) && n <= |row|
  {
    if n == 0 then Painting(pre, [])
    else
      var q := ObjectCells(w, lights, row, n - 1, pre);
      var s := BucketRows(w, lights, row[n - 1], row[n - 1].surface.vAngleRes, q.tally);
      Painting(s.tally, q.paints + s.paints)
  }

  /** The first m rows of an object. */
  ghost function ObjectRows(w: World, lights: seq<Light>, rows: seq<seq<Aim>>, m: nat, pre: Tally): Painting
    requires Ready(w) && m <= |rows|
  {
    if m == 0 then Painting(pre, [])
    else
      var q := ObjectRows(w, lights, rows, m - 1, pre);
      var s := ObjectCells(w, lights, rows[m - 1], |rows[m - 1]|, q.tally);
      Painting(s.tally, q.paints + s.paints)
  }

  /** The first n objects; an object with no buckets (ratio not above zero) is skipped. */
  ghost function ObjectPass(w: World, lights: seq<Light>, grids: seq<seq<seq<Aim>>>, n: nat, pre: Tally): Painting
    requires Ready(w) && n <= |w.objects| && n <= |grids|
  {
    if n == 0 then Painting(pre, [])
    else
      var q := ObjectPass(w, lights, grids, n - 1, pre);
      if w.objects[n - 1].surfaceAngleRatio <= 0.0 then q
      else
        var s := ObjectRows(w, lights, grids[n - 1], |grids[n - 1]|, q.tally);
        Painting(s.tally, q.paints + s.paints)
  }

  /**
   * objectRender: every object with buckets, every cell row by row, every
   * bucket of the cell row by row, a backward ray whose colour is stored
   * in the bucket.  The counters, the current pixel and the buckets end up
   * as the fold says.
   */
  method ObjectRender(num: Numerics, rayStore: RayStore, options: Options, objects: seq<Object>, lights: seq<Light>,
                      ghost isect: Isect, ghost normal: Normals, ghost cells: set<Surface>,
                      ghost grids: seq<seq<seq<Aim>>>)
    requires Prepared(num, objects, isect, normal, cells, grids) && rayStore.currRay == null
    modifies rayStore, CellBuffers(cells), LinksOf(objects)
    ensures var r := ObjectPass(World(num, objects, isect, normal, options), lights, grids, |objects|,
                                Tally(old(rayStore.Counts()), old(rayStore.currPixel)));
      Tally(rayStore.Counts(), rayStore.currPixel) == r.tally &&
      Colors(CellBuffers(cells)) == Painted(r.paints, old(Colors(CellBuffers(cells))))
    ensures rayStore.currRay == null && Prepared(num, objects, isect, normal, cells, grids)
  {
    ghost var w := World(num, objects, isect, normal, options);
    ghost var t0 := Tally(rayStore.Counts(), rayStore.currPixel);
    var orig := Zero;
    var i := 0;
    while i < |objects|
      invariant 0 <= i <= |objects|
      invariant Tally(rayStore.Counts(), rayStore.currPixel) == ObjectPass(w, lights, grids, i, t0).tally
      invariant Colors(CellBuffers(cells)) == Painted(ObjectPass(w, lights, grids, i, t0).paints, old(Colors(CellBuffers(cells))))
      invariant rayStore.currRay == null && Prepared(num, objects, isect, normal, cells, grids)
    {
      orig := ObjectRenderStep(num, rayStore, options, objects, lights, i, orig, isect, normal, cells, grids, t0,
                         old(Colors(CellBuffers(cells))));
      i := i + 1;
    }
    assert t0 == Tally(old(rayStore.Counts()), old(rayStore.currPixel));
  }

  /** One step of objectRender's loop: the fold over the first i objects becomes the fold over i + 1. */
  method ObjectRenderStep(num: Numerics, rayStore: RayStore, options: Options, objects: seq<Object>, lights: seq<Light>,
                    i: nat, orig: Vec3, ghost isect: Isect, ghost normal: Normals, ghost cells: set<Surface>,
                    ghost grids: seq<seq<seq<Aim>>>, ghost t0: Tally, ghost c0: map<array<Vec3>, seq<Vec3>>)
    returns (last: Vec3)
    requires Prepared(num, objects, isect, normal, cells, grids) && i < |objects| && rayStore.currRay == null
    requires var q := ObjectPass(World(num, objects, isect, normal, options), lights, grids, i, t0);
      Tally(rayStore.Counts(), rayStore.currPixel) == q.tally && Colors(CellBuffers(cells)) == Painted(q.paints, c0)
    modifies rayStore, CellBuffers(cells), LinksOf(objects)
    ensures var q := ObjectPass(World(num, objects, isect, normal, options), lights, grids, i + 1, t0);
      Tally(rayStore.Counts(), rayStore.currPixel) == q.tally && Colors(CellBuffers(cells)) == Painted(q.paints, c0)
    ensures rayStore.currRay == null && Prepared(num, objects, isect, normal, cells, grids)
  {
    last := orig;
    if objects[i].surfaceAngleRatio > 0.0 {
      ghost var w := World(num, objects, isect, normal, options);
      ghost var q := ObjectPass(w, lights, grids, i, t0);
      last := ObjectGrid(num, rayStore, options, objects, lights, i, orig, isect, normal, cells, grids);
      ghost var s := ObjectRows(w, lights, grids[i], |grids[i]|, q.tally);
      PaintedAppend(q.paints, s.paints, c0);
    }
  }

  /** One object of objectRender: its rows in turn. */
  method ObjectGrid(num: Numerics, rayStore: RayStore, options: Options, objects: seq<Object>, lights: seq<Light>,
                    i: nat, orig: Vec3, ghost isect: Isect, ghost normal: Normals, ghost cells: set<Surface>,
                    ghost grids: seq<seq<seq<Aim>>>)
    returns (last: Vec3)
    requires Prepared(num, objects, isect, normal, cells, grids) && i < |objects| && rayStore.currRay == null
    modifies rayStore, CellBuffers(cells), LinksOf(objects)
    ensures var r := ObjectRows(World(num, objects, isect, normal, options), lights, grids[i], |grids[i]|,
                                Tally(old(rayStore.Counts()), old(rayStore.currPixel)));
      Tally(rayStore.Counts(), rayStore.currPixel) == r.tally &&
      Colors(CellBuffers(cells)) == Painted(r.paints, old(Colors(CellBuffers(cells))))
    ensures rayStore.currRay == null && Prepared(num, objects, isect, normal, cells, grids)
  {
    ghost var w := World(num, objects, isect, normal, options);
    ghost var t0 := Tally(rayStore.Counts(), rayStore.currPixel);
    ghost var c0 := Colors(CellBuffers(cells));
    var obj := objects[i];
    assert Aimed(obj, grids[i]);
    last := orig;
    var v := 0;
    while v < obj.vRes
      invariant 0 <= v <= |grids[i]| == obj.vRes
      invariant Tally(rayStore.Counts(), rayStore.currPixel) == ObjectRows(w, lights, grids[i], v, t0).tally
      invariant Colors(CellBuffers(cells)) == Painted(ObjectRows(w, lights, grids[i], v, t0).paints, c0)
      invariant rayStore.currRay == null && Prepared(num, objects, isect, normal, cells, grids)
    {
      last := ObjectGridStep(num, rayStore, options, objects, lights, i, v, last, isect, normal, cells, grids, t0, c0);
      v := v + 1;
    }
    assert v == |grids[i]| && t0 == Tally(old(rayStore.Counts()), old(rayStore.currPixel));
  }

  /** One step of ObjectGrid's loop: the fold over the first v rows becomes the fold over v + 1. */
  method ObjectGridStep(num: Numerics, rayStore: RayStore, options: Options, objects: seq<Object>, lights: seq<Light>,
                        i: nat, v: nat, orig: Vec3, ghost isect: Isect, ghost normal: Normals, ghost cells: set<Surface>,
                        ghost grids: seq<seq<seq<Aim>>>, ghost t0: Tally, ghost c0: map<array<Vec3>, seq<Vec3>>)
    returns (last: Vec3)
    requires Prepared(num, objects, isect, normal, cells, grids) && i < |objects| && v < |grids[i]|
    requires rayStore.currRay == null
    requires var q := ObjectRows(World(num, objects, isect, normal, options), lights, grids[i], v, t0);
      Tally(rayStore.Counts(), rayStore.currPixel) == q.tally && Colors(CellBuffers(cells)) == Painted(q.paints, c0)
    modifies rayStore, CellBuffers(cells), LinksOf(objects)
    ensures var q := ObjectRows(World(num, objects, isect, normal, options), lights, grids[i], v + 1, t0);
      Tally(rayStore.Counts(), rayStore.currPixel) == q.tally && Colors(CellBuffers(cells)) == Painted(q.paints, c0)
    ensures rayStore.currRay == null && Prepared(num, objects, isect, normal, cells, grids)
  {
    ghost var w := World(num, objects, isect, normal, options);
    ghost var q := ObjectRows(w, lights, grids[i], v, t0);
    last := ObjectRow(num, rayStore, options, objects, lights, i, v, orig, isect, normal, cells, grids);
    ghost var s := ObjectCells(w, lights, grids[i][v], |grids[i][v]|, q.tally);
    PaintedAppend(q.paints, s.paints, c0);
  }

  /** Row v of one object of objectRender: its cells in turn. */
  method ObjectRow(num: Numerics, rayStore: RayStore, options: Options, objects: seq<Object>, lights: seq<Light>,
                   i: nat, v: nat, orig: Vec3, ghost isect: Isect, ghost normal: Normals, ghost cells: set<Surface>,
                   ghost grids: seq<seq<seq<Aim>>>)
    returns (last: Vec3)
    requires Prepared(num, objects, isect, normal, cells, grids) && i < |objects| && v < |grids[i]|
    requires rayStore.currRay == null
    modifies rayStore, CellBuffers(cells), LinksOf(objects)
    ensures var r := ObjectCells(World(num, objects, isect, normal, options), lights, grids[i][v], |grids[i][v]|,
                                 Tally(old(rayStore.Counts()), old(rayStore.currPixel)));
      Tally(rayStore.Counts(), rayStore.currPixel) == r.tally &&
      Colors(CellBuffers(cells)) == Painted(r.paints, old(Colors(CellBuffers(cells))))
    ensures rayStore.currRay == null && Prepared(num, objects, isect, normal, cells, grids)
  {
    ghost var w := World(num, objects, isect, normal, options);
    ghost var t0 := Tally(rayStore.Counts(), rayStore.currPixel);
    var obj := objects[i];
    assert AimedRow(obj, v, grids[i][v]);
    last := orig;
    var h := 0;
    while h < obj.hRes
      invariant 0 <= h <= |grids[i][v]| == obj.hRes
      invariant Tally(rayStore.Counts(), rayStore.currPixel) == ObjectCells(w, lights, grids[i][v], h, t0).tally
      invariant Colors(CellBuffers(cells)) ==
                Painted(ObjectCells(w, lights, grids[i][v], h, t0).paints, old(Colors(CellBuffers(cells))))
      invariant rayStore.currRay == null && Prepared(num, objects, isect, normal, cells, grids)
    {
      last := ObjectRowStep(num, rayStore, options, objects, lights, i, v, h, last, isect, normal, cells, grids, t0,
                            old(Colors(CellBuffers(cells))));
      h := h + 1;
    }
    assert h == |grids[i][v]| && t0 == Tally(old(rayStore.Counts()), old(rayStore.currPixel));
  }

  /** One step of ObjectRow's loop: the fold over the row's first h cells becomes the fold over h + 1. */
  method ObjectRowStep(num: Numerics, rayStore: RayStore, options: Options, objects: seq<Object>, lights: seq<Light>,
                       i: nat, v: nat, h: nat, orig: Vec3, ghost isect: Isect, ghost normal: Normals,
                       ghost cells: set<Surface>, ghost grids: seq<seq<seq<Aim>>>, ghost t0: Tally,
                       ghost c0: map<array<Vec3>, seq<Vec3>>)
    returns (last: Vec3)
    requires Prepared(num, objects, isect, normal, cells, grids) && i < |objects|
    requires v < |grids[i]| && h < |grids[i][v]| && rayStore.currRay == null
    requires var q := ObjectCells(World(num, objects, isect, normal, options), lights, grids[i][v], h, t0);
      Tally(rayStore.Counts(), rayStore.currPixel) == q.tally && Colors(CellBuffers(cells)) == Painted(q.paints, c0)
    modifies rayStore, CellBuffers(cells), LinksOf(objects)
    ensures var q := ObjectCells(World(num, objects, isect, normal, options), lights, grids[i][v], h + 1, t0);
      Tally(rayStore.Counts(), rayStore.currPixel) == q.tally && Colors(CellBuffers(cells)) == Painted(q.paints, c0)
    ensures rayStore.currRay == null && Prepared(num, objects, isect, normal, cells, grids)
  {
    ghost var w := World(num, objects, isect, normal, options);
    ghost var q := ObjectCells(w, lights, grids[i][v], h, t0);
    last := ObjectCell(num, rayStore, options, objects, lights, i, v, h, orig, isect, normal, cells, grids);
    ghost var s := BucketRows(w, lights, grids[i][v][h], grids[i][v][h].surface.vAngleRes, q.tally);
    PaintedAppend(q.paints, s.paints, c0);
  }

  /** Cell (v, h) of one object of objectRender: its bucket rows in turn. */
  method ObjectCell(num: Numerics, rayStore: RayStore, options: Options, objects: seq<Object>, lights: seq<Light>,
                    i: nat, v: nat, h: nat, orig: Vec3, ghost isect: Isect, ghost normal: Normals,
                    ghost cells: set<Surface>, ghost grids: seq<seq<seq<Aim>>>)
    returns (last: Vec3)
    requires Prepared(num, objects, isect, normal, cells, grids) && i < |objects|
    requires v < |grids[i]| && h < |grids[i][v]| && rayStore.currRay == null
    modifies rayStore, CellBuffers(cells), LinksOf(objects)
    ensures var a := grids[i][v][h];
      var r := BucketRows(World(num, objects, isect, normal, options), lights, a, a.surface.vAngleRes,
                          Tally(old(rayStore.Counts()), old(rayStore.currPixel)));
      Tally(rayStore.Counts(), rayStore.currPixel) == r.tally &&
      Colors(CellBuffers(cells)) == Painted(r.paints, old(Colors(CellBuffers(cells))))
    ensures rayStore.currRay == null && Prepared(num, objects, isect, normal, cells, grids)
  {
    ghost var w := World(num, objects, isect, normal, options);
    ghost var t0 := Tally(rayStore.Counts(), rayStore.currPixel);
    ghost var a := grids[i][v][h];
    var targetObject := objects[i];
    assert Aimed(targetObject, grids[i]) && AimedRow(targetObject, v, grids[i][v]) && AimAt(targetObject, v, h, a);
    var targetSurface := targetObject.SurfaceByVH(v, h);
    var target := targetObject.CellPoint(v, h);
    last := orig;
    var vAngle := 0;
    while vAngle < targetSurface.vAngleRes
      invariant 0 <= vAngle <= targetSurface.vAngleRes
      invariant Tally(rayStore.Counts(), rayStore.currPixel) == BucketRows(w, lights, a, vAngle, t0).tally
      invariant Colors(CellBuffers(cells)) == Painted(BucketRows(w, lights, a, vAngle, t0).paints, old(Colors(CellBuffers(cells))))
      invariant rayStore.currRay == null && Prepared(num, objects, isect, normal, cells, grids)
    {
      last := ObjectCellStep(num, rayStore, options, objects, lights, i, v, h, vAngle, targetSurface, target, last,
                             isect, normal, cells, grids, t0, old(Colors(CellBuffers(cells))));
      vAngle := vAngle + 1;
    }
    assert t0 == Tally(old(rayStore.Counts()), old(rayStore.currPixel));
  }

  /** One step of ObjectCell's loop: the fold over the cell's first vAngle bucket rows becomes the fold over vAngle + 1. */
  method ObjectCellStep(num: Numerics, rayStore: RayStore, options: Options, objects: seq<Object>, lights: seq<Light>,
                        i: nat, v: nat, h: nat, vAngle: nat, targetSurface: Surface, target: Vec3, orig: Vec3,
                        ghost isect: Isect, ghost normal: Normals, ghost cells: set<Surface>,
                        ghost grids: seq<seq<seq<Aim>>>, ghost t0: Tally, ghost c0: map<array<Vec3>, seq<Vec3>>)
    returns (last: Vec3)
    requires Prepared(num, objects, isect, normal, cells, grids) && i < |objects|
    requires v < |grids[i]| && h < |grids[i][v]| && rayStore.currRay == null
    requires targetSurface == grids[i][v][h].surface && target == grids[i][v][h].point
    requires vAngle < targetSurface.vAngleRes
    requires var q := BucketRows(World(num, objects, isect, normal, options), lights, grids[i][v][h], vAngle, t0);
      Tally(rayStore.Counts(), rayStore.currPixel) == q.tally && Colors(CellBuffers(cells)) == Painted(q.paints, c0)
    modifies rayStore, CellBuffers(cells), LinksOf(objects)
    ensures var q := BucketRows(World(num, objects, isect, normal, options), lights, grids[i][v][h], vAngle + 1, t0);
      Tally(rayStore.Counts(), rayStore.currPixel) == q.tally && Colors(CellBuffers(cells)) == Painted(q.paints, c0)
    ensures rayStore.currRay == null && Prepared(num, objects, isect, normal, cells, grids)
  {
    ghost var w := World(num, objects, isect, normal, options);
    ghost var q := BucketRows(w, lights, grids[i][v][h], vAngle, t0);
    last := BucketRowCast(num, rayStore, options, objects, lights, i, v, h, vAngle, targetSurface, target, orig,
                          isect, normal, cells, grids);
    ghost var s := BucketRow(w, lights, grids[i][v][h], vAngle, targetSurface.hAngleRes, q.tally);
    PaintedAppend(q.paints, s.paints, c0);
  }

  /** Bucket row vAngle of cell (v, h): its buckets in turn. */
  method BucketRowCast(num: Numerics, rayStore: RayStore, options: Options, objects: seq<Object>, lights: seq<Light>,
                       i: nat, v: nat, h: nat, vAngle: nat, targetSurface: Surface, target: Vec3, orig: Vec3,
                       ghost isect: Isect, ghost normal: Normals, ghost cells: set<Surface>,
                       ghost grids: seq<seq<seq<Aim>>>)
    returns (last: Vec3)
    requires Prepared(num, objects, isect, normal, cells, grids) && i < |objects|
    requires v < |grids[i]| && h < |grids[i][v]| && rayStore.currRay == null
    requires targetSurface == grids[i][v][h].surface && target == grids[i][v][h].point
    requires vAngle < targetSurface.vAngleRes
    modifies rayStore, CellBuffers(cells), LinksOf(objects)
    ensures var r := BucketRow(World(num, objects, isect, normal, options), lights, grids[i][v][h], vAngle,
                               targetSurface.hAngleRes, Tally(old(rayStore.Counts()), old(rayStore.currPixel)));
      Tally(rayStore.Counts(), rayStore.currPixel) == r.tally &&
      Colors(CellBuffers(cells)) == Painted(r.paints, old(Colors(CellBuffers(cells))))
    ensures rayStore.currRay == null && Prepared(num, objects, isect, normal, cells, grids)
  {
    ghost var w := World(num, objects, isect, normal, options);
    ghost var t0 := Tally(rayStore.Counts(), rayStore.currPixel);
    last := orig;
    var hAngle := 0;
    while hAngle < targetSurface.hAngleRes
      invariant 0 <= hAngle <= targetSurface.hAngleRes
      invariant Tally(rayStore.Counts(), rayStore.currPixel) == BucketRow(w, lights, grids[i][v][h], vAngle, hAngle, t0).tally
      invariant Colors(CellBuffers(cells)) ==
                Painted(BucketRow(w, lights, grids[i][v][h], vAngle, hAngle, t0).paints, old(Colors(CellBuffers(cells))))
      invariant rayStore.currRay == null && Prepared(num, objects, isect, normal, cells, grids)
    {
      last := BucketStep(num, rayStore, options, objects, lights, i, v, h, vAngle, hAngle, targetSurface, target, last,
                         isect, normal, cells, grids, t0, old(Colors(CellBuffers(cells))));
      hAngle := hAngle + 1;
    }
    assert t0 == Tally(old(rayStore.Counts()), old(rayStore.currPixel));
  }

  /** One step of objectRender's innermost loop: the fold over a bucket row's first n buckets becomes the fold over n + 1. */
  method BucketStep(num: Numerics, rayStore: RayStore, options: Options, objects: seq<Object>, lights: seq<Light>,
                    i: nat, v: nat, h: nat, vAngle: nat, hAngle: nat, targetSurface: Surface, target: Vec3, orig: Vec3,
                    ghost isect: Isect, ghost normal: Normals, ghost cells: set<Surface>,
                    ghost grids: seq<seq<seq<Aim>>>, ghost t0: Tally, ghost c0: map<array<Vec3>, seq<Vec3>>)
    returns (last: Vec3)
    requires Prepared(num, objects, isect, normal, cells, grids) && i < |objects|
    requires v < |grids[i]| && h < |grids[i][v]| && rayStore.currRay == null
    requires targetSurface == grids[i][v][h].surface && target == grids[i][v][h].point
    requires vAngle < targetSurface.vAngleRes && hAngle < targetSurface.hAngleRes
    requires var q := BucketRow(World(num, objects, isect, normal, options), lights, grids[i][v][h], vAngle, hAngle, t0);
      Tally(rayStore.Counts(), rayStore.currPixel) == q.tally && Colors(CellBuffers(cells)) == Painted(q.paints, c0)
    modifies rayStore, CellBuffers(cells), LinksOf(objects)
    ensures var q := BucketRow(World(num, objects, isect, normal, options), lights, grids[i][v][h], vAngle, hAngle + 1, t0);
      Tally(rayStore.Counts(), rayStore.currPixel) == q.tally && Colors(CellBuffers(cells)) == Painted(q.paints, c0)
    ensures rayStore.currRay == null && Prepared(num, objects, isect, normal, cells, grids)
  {
    ghost var w := World(num, objects, isect, normal, options);
    ghost var q := BucketRow(w, lights, grids[i][v][h], vAngle, hAngle, t0);
    last := BucketCell(num, rayStore, options, objects, lights, i, v, h, vAngle, hAngle, targetSurface, target, orig,
                       isect, normal, cells, grids);
    ghost var s := BucketShot(w, lights, grids[i][v][h], vAngle, hAngle, q.tally);
    PaintedAppend(q.paints, s.paints, c0);
  }

  /** Bucket (vAngle, hAngle) of cell (v, h) of object i; what the pass is given is kept. */
  method BucketCell(num: Numerics, rayStore: RayStore, options: Options, objects: seq<Object>, lights: seq<Light>,
                    i: nat, v: nat, h: nat, vAngle: nat, hAngle: nat, targetSurface: Surface, target: Vec3, orig: Vec3,
                    ghost isect: Isect, ghost normal: Normals, ghost cells: set<Surface>,
                    ghost grids: seq<seq<seq<Aim>>>)
    returns (last: Vec3)
    requires Prepared(num, objects, isect, normal, cells, grids) && i < |objects|
    requires v < |grids[i]| && h < |grids[i][v]| && rayStore.currRay == null
    requires targetSurface == grids[i][v][h].surface && target == grids[i][v][h].point
    requires vAngle < targetSurface.vAngleRes && hAngle < targetSurface.hAngleRes
    modifies rayStore, CellBuffers(cells), LinksOf(objects)
    ensures var r := BucketShot(World(num, objects, isect, normal, options), lights, grids[i][v][h], vAngle, hAngle,
                                Tally(old(rayStore.Counts()), old(rayStore.currPixel)));
      Tally(rayStore.Counts(), rayStore.currPixel) == r.tally &&
      Colors(CellBuffers(cells)) == Painted(r.paints, old(Colors(CellBuffers(cells))))
    ensures rayStore.currRay == null && Prepared(num, objects, isect, normal, cells, grids)
  {
    assert Aimed(objects[i], grids[i]) && AimedRow(objects[i], v, grids[i][v]);
    last := BucketCast(num, rayStore, options, objects, lights, i, v, h, vAngle, hAngle, targetSurface, target, orig,
                       isect, normal, cells, grids[i][v][h]);
  }

  /**
   * The body of objectRender's innermost loop: when the surface has
   * buckets, the bucket's ray is cast and its colour stored in the bucket.
   * The origin of that ray is returned for the next bucket.
   */
  method BucketCast(num: Numerics, rayStore: RayStore, options: Options, objects: seq<Object>, lights: seq<Light>,
                    i: nat, v: nat, h: nat, vAngle: nat, hAngle: nat, targetSurface: Surface, target: Vec3, orig: Vec3,
                    ghost isect: Isect, ghost normal: Normals, ghost cells: set<Surface>, ghost a: Aim)
    returns (last: Vec3)
    requires SceneReady(num, objects, isect, normal, cells) && i < |objects| && AimAt(objects[i], v, h, a)
    requires objects[i].RecorderValid() && rayStore.currRay == null
    requires targetSurface == a.surface && target == a.point
    requires vAngle < targetSurface.vAngleRes && hAngle < targetSurface.hAngleRes
    modifies rayStore, CellBuffers(cells), LinksOf(objects)
    ensures var r := BucketShot(World(num, objects, isect, normal, options), lights, a, vAngle, hAngle,
                                Tally(old(rayStore.Counts()), old(rayStore.currPixel)));
      Tally(rayStore.Counts(), rayStore.currPixel) == r.tally &&
      Colors(CellBuffers(cells)) == Painted(r.paints, old(Colors(CellBuffers(cells))))
    ensures targetSurface.angles == null ==> last == orig
    ensures targetSurface.angles != null ==>
      last == Add(target, PolarDirection(num, a.frame, vAngle, hAngle, targetSurface.vAngleRes, targetSurface.hAngleRes))
    ensures rayStore.currRay == null
  {
    var targetObject := objects[i];
    assert targetSurface.Valid() by {
      assert targetSurface == targetObject.pSurfaces[targetObject.CellIndex(v, h)];
    }
    var angle := targetSurface.AngleByVH(vAngle, hAngle);
    if angle.None? {
      return orig;
    }
    SurfaceInScene(objects, cells, targetObject, targetSurface);
    ghost var before := Colors(CellBuffers(cells));
    var color;
    color, last := BucketRay(num, rayStore, options, objects, lights, i, v, h, vAngle, hAngle, targetSurface, target,
                             orig, isect, normal, cells, a);
    assert Colors(CellBuffers(cells)) == before;
    targetSurface.angles[angle.value] := color;
    assert Colors(CellBuffers(cells)) == before[targetSurface.angles := before[targetSurface.angles][angle.value := color]];
    assert [Paint(targetSurface.angles, angle.value, color)][..0] == [];
  }

  /**
   * The ray of bucket (vAngle, hAngle) of a surface with buckets: it is
   * originated (recorded with the origin of the previous bucket's ray,
   * `orig`) and cast backward, reading no cache, from the cell's point
   * moved along the bucket's direction.
   */
  method BucketRay(num: Numerics, rayStore: RayStore, options: Options, objects: seq<Object>, lights: seq<Light>,
                   i: nat, v: nat, h: nat, vAngle: nat, hAngle: nat, targetSurface: Surface, target: Vec3, orig: Vec3,
                   ghost isect: Isect, ghost normal: Normals, ghost cells: set<Surface>, ghost a: Aim)
    returns (color: Vec3, last: Vec3)
    requires SceneReady(num, objects, isect, normal, cells) && i < |objects| && AimAt(objects[i], v, h, a)
    requires objects[i].RecorderValid() && rayStore.currRay == null
    requires targetSurface == a.surface && target == a.point && targetSurface.angles != null
    requires vAngle < targetSurface.vAngleRes && hAngle < targetSurface.hAngleRes
    modifies rayStore, Links(objects[i])
    ensures var r := BucketShot(World(num, objects, isect, normal, options), lights, a, vAngle, hAngle,
                                Tally(old(rayStore.Counts()), old(rayStore.currPixel)));
      Tally(rayStore.Counts(), rayStore.currPixel) == r.tally &&
      r.paints == [Paint(targetSurface.angles, targetSurface.AngleByVH(vAngle, hAngle).value, color)]
    ensures last == Add(target, PolarDirection(num, a.frame, vAngle, hAngle, targetSurface.vAngleRes, targetSurface.hAngleRes))
    ensures rayStore.currRay == null
  {
    var dir := targetSurface.AngleDirection(num, vAngle, hAngle);
    var ray := Originate(rayStore, objects, i, v, h, orig, dir);
    last := Add(target, dir);
    color := BackwardCastRay(num, rayStore, last, Neg(dir), objects, lights, options, 0, false, false,
                             isect, normal, NoCaches, cells);
  }

  /**
   * What the light and object passes do before casting the original ray
   * of cell (v, h) of object i: count it, record it when the object's
   * recorder is enabled, and make the cell the current pixel.
   */
  method Originate(rayStore: RayStore, objects: seq<Object>, i: nat, v: nat, h: nat, orig: Vec3, dir: Vec3)
    returns (ray: Ray?)
    requires i < |objects| && v < objects[i].vRes && h < objects[i].hRes
    requires objects[i].Valid() && objects[i].RecorderValid()
    modifies rayStore`originRays, rayStore`totalMem, rayStore`currPixel, Links(objects[i])
    ensures rayStore.Counts() == Originated(old(rayStore.Counts()),
                                            objects[i].recorderEnabled && objects[i].traceLinks != null)
    ensures rayStore.currPixel == Vec3(v as real, h as real, 0.0)
    ensures ray != null <==> objects[i].recorderEnabled && objects[i].traceLinks != null
    ensures ray == null ==> unchanged(Links(objects[i]))
    ensures ray != null ==> fresh(ray) && ray.rayType == RayTypeOrig && ray.orig == orig && ray.dir == dir
                            && ray.intensity == Splat(-1.0)
    ensures ray != null ==>
              var links, k := objects[i].traceLinks, v * objects[i].hRes + h;
              k < links.Length && links[k] == old(links[k]) + [ray]
              && forall m :: 0 <= m < links.Length && m != k ==> links[m] == old(links[m])
  {
    rayStore.CountOrigin();
    var obj := objects[i];
    ray := null;
    if obj.recorderEnabled {
      RowMajorBound(v, h, obj.vRes, obj.hRes);
      ray := rayStore.Record(RayTypeOrig, obj.traceLinks, v * obj.hRes + h, orig, dir, Splat(-1.0));
    }
    rayStore.SetPixel(Vec3(v as real, h as real, 0.0));
  }

  // ---------------------------------------------------------------------
  // Original rays: how many each pass counts
  // ---------------------------------------------------------------------

  /** The number of cells in the rows. */
  function RowsCells(rows: seq<seq<Aim>>): nat {
    if rows == [] then 0 else RowsCells(rows[..|rows| - 1]) + |rows[|rows| - 1]|
  }

  /** The number of cells in the grids. */
  function GridsCells(grids: seq<seq<seq<Aim>>>): nat {
    if grids == [] then 0 else GridsCells(grids[..|grids| - 1]) + RowsCells(grids[|grids| - 1])
  }

  /** Every cell of a row lit by a light counts one original ray. */
  lemma {:induction false} LightCellsOrigins(w: World, light: Light, obj: Object, row: seq<Aim>, n: nat, pre: Tally)
    requires Ready(w) && obj in w.objects && n <= |row|
    ensures LightCells(w, light, obj, row, n, pre).tally.counts.originRays == pre.counts.originRays + n
  {
    if n > 0 {
      LightCellsOrigins(w, light, obj, row, n - 1, pre);
    }
  }

  /** The first m rows of an object lit by a light count one original ray per cell. */
  lemma {:induction false} LightRowsOrigins(w: World, light: Light, obj: Object, rows: seq<seq<Aim>>, m: nat,
                                            pre: Tally)
    requires Ready(w) && obj in w.objects && m <= |rows|
    ensures LightRows(w, light, obj, rows, m, pre).tally.counts.originRays == pre.counts.originRays + RowsCells(rows[..m])
  {
    if m > 0 {
      var q := LightRows(w, light, obj, rows, m - 1, pre);
      LightRowsOrigins(w, light, obj, rows, m - 1, pre);
      LightCellsOrigins(w, light, obj, rows[m - 1], |rows[m - 1]|, q.tally);
      assert rows[..m][..m - 1] == rows[..m - 1];
    }
  }

  /** The first n objects lit by a light count one original ray per cell. */
  lemma {:induction false} LightObjectsOrigins(w: World, light: Light, grids: seq<seq<seq<Aim>>>, n: nat, pre: Tally)
    requires Ready(w) && n <= |w.objects| && n <= |grids|
    ensures LightObjects(w, light, grids, n, pre).tally.counts.originRays == pre.counts.originRays + GridsCells(grids[..n])
  {
    if n > 0 {
      var q := LightObjects(w, light, grids, n - 1, pre);
      LightObjectsOrigins(w, light, grids, n - 1, pre);
      LightRowsOrigins(w, light, w.objects[n - 1], grids[n - 1], |grids[n - 1]|, q.tally);
      assert grids[..n][..n - 1] == grids[..n - 1];
      assert grids[n - 1][..|grids[n - 1]|] == grids[n - 1];
    }
  }

  /** lightRender counts one original ray per (light, object, cell). */
  lemma {:induction false} LightPassOrigins(w: World, lights: seq<Light>, grids: seq<seq<seq<Aim>>>, n: nat, pre: Tally)
    requires Ready(w) && n <= |lights| && |grids| == |w.objects|
    ensures LightPass(w, lights, grids, n, pre).tally.counts.originRays == pre.counts.originRays + n * GridsCells(grids)
  {
    if n > 0 {
      var q := LightPass(w, lights, grids, n - 1, pre);
      LightPassOrigins(w, lights, grids, n - 1, pre);
      LightObjectsOrigins(w, lights[n - 1], grids, |w.objects|, q.tally);
      assert grids[..|w.objects|] == grids;
      RowStep(n, GridsCells(grids));
    }
  }

  /** m rows of k are m - 1 rows of k and one more row. */
  lemma RowStep(m: nat, k: nat)
    requires m > 0
    ensures (m - 1) * k + k == m * k
  {
  }

  /** The buckets of a cell: every (vAngle, hAngle), or none when the cell has no angle buffer. */
  function CellBuckets(a: Aim): nat {
    if a.surface.angles == null then 0 else a.surface.vAngleRes * a.surface.hAngleRes
  }

  /** The number of buckets in the cells of a row. */
  function RowBuckets(row: seq<Aim>): nat {
    if row == [] then 0 else RowBuckets(row[..|row| - 1]) + CellBuckets(row[|row| - 1])
  }

  /** The number of buckets in the rows. */
  function RowsBuckets(rows: seq<seq<Aim>>): nat {
    if rows == [] then 0 else RowsBuckets(rows[..|rows| - 1]) + RowBuckets(rows[|rows| - 1])
  }

  /** The number of buckets of the first n objects, counting only objects whose surfaceAngleRatio is above zero. */
  function PassBuckets(objects: seq<Object>, grids: seq<seq<seq<Aim>>>, n: nat): nat
    requires n <= |objects| && n <= |grids|
  {
    if n == 0 then 0
    else if objects[n - 1].surfaceAngleRatio <= 0.0 then PassBuckets(objects, grids, n - 1)
    else PassBuckets(objects, grids, n - 1) + RowsBuckets(grids[n - 1])
  }

  /** A bucket row counts one original ray per bucket, and none when the cell has no buffer. */
  lemma {:induction false} BucketRowOrigins(w: World, lights: seq<Light>, a: Aim, vAngle: nat, n: nat, pre: Tally)
    requires Ready(w) && vAngle < a.surface.vAngleRes && n <= a.surface.hAngleRes
    ensures BucketRow(w, lights, a, vAngle, n, pre).tally.counts.originRays ==
            pre.counts.originRays + (if a.surface.angles == null then 0 else n)
  {
    if n > 0 {
      BucketRowOrigins(w, lights, a, vAngle, n - 1, pre);
    }
  }

  /** The first m bucket rows of a cell count one original ray per bucket. */
  lemma {:induction false} BucketRowsOrigins(w: World, lights: seq<Light>, a: Aim, m: nat, pre: Tally)
    requires Ready(w) && m <= a.surface.vAngleRes
    ensures BucketRows(w, lights, a, m, pre).tally.counts.originRays ==
            pre.counts.originRays + (if a.surface.angles == null then 0 else m * a.surface.hAngleRes)
  {
    if m > 0 {
      var q := BucketRows(w, lights, a, m - 1, pre);
      var s := BucketRow(w, lights, a, m - 1, a.surface.hAngleRes, q.tally);
      assert BucketRows(w, lights, a, m, pre).tally == s.tally;
      BucketRowsOrigins(w, lights, a, m - 1, pre);
      BucketRowOrigins(w, lights, a, m - 1, a.surface.hAngleRes, q.tally);
      RowStep(m, a.surface.hAngleRes);
    }
  }

  /** The first n cells of a row count one original ray per bucket. */
  lemma {:induction false} ObjectCellsOrigins(w: World, lights: seq<Light>, row: seq<Aim>, n: nat, pre: Tally)
    requires Ready(w) && n <= |row|
    ensures ObjectCells(w, lights, row, n, pre).tally.counts.originRays == pre.counts.originRays + RowBuckets(row[..n])
  {
    if n > 0 {
      var q := ObjectCells(w, lights, row, n - 1, pre);
      ObjectCellsOrigins(w, lights, row, n - 1, pre);
      BucketRowsOrigins(w, lights, row[n - 1], row[n - 1].surface.vAngleRes, q.tally);
      assert row[..n][..n - 1] == row[..n - 1];
    }
  }

  /** The first m rows of an object count one original ray per bucket. */
  lemma {:induction false} ObjectRowsOrigins(w: World, lights: seq<Light>, rows: seq<seq<Aim>>, m: nat, pre: Tally)
    requires Ready(w) && m <= |rows|
    ensures ObjectRows(w, lights, rows, m, pre).tally.counts.originRays == pre.counts.originRays + RowsBuckets(rows[..m])
  {
    if m > 0 {
      var q := ObjectRows(w, lights, rows, m - 1, pre);
      ObjectRowsOrigins(w, lights, rows, m - 1, pre);
      ObjectCellsOrigins(w, lights, rows[m - 1], |rows[m - 1]|, q.tally);
      assert rows[..m][..m - 1] == rows[..m - 1];
      assert rows[m - 1][..|rows[m - 1]|] == rows[m - 1];
    }
  }

  /**
   * objectRender counts one original ray per bucket of every object whose
   * surfaceAngleRatio is above zero, and none for the others.
   */
  lemma {:induction false} ObjectPassOrigins(w: World, lights: seq<Light>, grids: seq<seq<seq<Aim>>>, n: nat,
                                             pre: Tally)
    requires Ready(w) && n <= |w.objects| && n <= |grids|
    ensures ObjectPass(w, lights, grids, n, pre).tally.counts.originRays ==
            pre.counts.originRays + PassBuckets(w.objects, grids, n)
  {
    if n > 0 {
      var q := ObjectPass(w, lights, grids, n - 1, pre);
      ObjectPassOrigins(w, lights, grids, n - 1, pre);
      if w.objects[n - 1].surfaceAngleRatio > 0.0 {
        ObjectRowsOrigins(w, lights, grids[n - 1], |grids[n - 1]|, q.tally);
        assert grids[n - 1][..|grids[n - 1]|] == grids[n - 1];
      }
    }
  }
}
