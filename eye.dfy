// eyeRender of cloudray.cpp: one backward ray per pixel from the viewpoint,
// row by row; the colours fill a new framebuffer in the same order.
//
// As for the other passes, the method is proved against a fold (EyeRows
// over EyePixels over EyeShot) that says what every primary ray does to the
// RayStore's counters and current pixel, and which colour it leaves.  The
// framebuffer is written through a moving pointer in the source; here the
// pointer is the index `pix` of the next pixel.  Saving the framebuffer as
// a PPM file is output and is not modelled.

module Eye {
  import opened Geometry
  import opened Utils
  import opened Values
  import opened Rays
  import opened Surfaces
  import opened Objects
  import opened Scene
  import opened Backward
  import opened Render

  // ---------------------------------------------------------------------
  // Primary rays
  // ---------------------------------------------------------------------

  /**
   * Where pixel k of n falls across the screen, from -1 (the left or top
   * edge) to 1: its centre, k + 0.5, scaled to [0, 2] and moved down by 1.
   */
  function ScreenCoord(k: nat, n: nat): real
    requires n > 0
  {
    2.0 * (k as real + 0.5) / n as real - 1.0
  }

  /** Every pixel's centre lies strictly inside the screen. */
  lemma ScreenCoordInside(k: nat, n: nat)
    requires k < n
    ensures -1.0 < ScreenCoord(k, n) < 1.0
  {
    QuotientBelow(2.0 * (k as real + 0.5), n as real);
  }

  /** A positive quotient a / m with a below 2m lies strictly between 0 and 2. */
  lemma QuotientBelow(a: real, m: real)
    requires m > 0.0 && 0.0 < a < 2.0 * m
    ensures 0.0 < a / m < 2.0
  {
    var q := a / m;
    assert q * m == a;
    var d := 2.0 - q;
    assert d * m == 2.0 * m - a;
    assert d * m > 0.0;
    assert q * m > 0.0;
  }

  /**
   * The point on the image plane z = -1 that the ray through pixel (column
   * i, row j) passes: the plane spans tan(fov / 2) above and below the axis,
   * and the aspect ratio times that left and right; rows go downwards.
   */
  function ImagePoint(num: Numerics, options: Options, j: nat, i: nat): Vec3
    requires options.width > 0 && options.height > 0
  {
    var scale := Tan(num, Deg2Rad(options.fov * 0.5));
    var imageAspectRatio := options.width as real / options.height as real;
    Vec3((2.0 * (i as real + 0.5) / options.width as real - 1.0) * imageAspectRatio * scale,
         (1.0 - 2.0 * (j as real + 0.5) / options.height as real) * scale,
         -1.0)
  }

  /** The direction of the primary ray through pixel (i, j): the image point, normalized. */
  function PrimaryDir(num: Numerics, options: Options, j: nat, i: nat): Vec3
    requires ValidNumerics(num) && options.width > 0 && options.height > 0
  {
    Normalize(num, ImagePoint(num, options, j, i))
  }

  /**
   * The image point of a pixel is its screen coordinates scaled by the
   * half-extent of the image plane; the vertical one is flipped, so row 0 is
   * the top.
   */
  lemma ImagePointOnScreen(num: Numerics, options: Options, j: nat, i: nat)
    requires options.width > 0 && options.height > 0
    ensures var scale := Tan(num, Deg2Rad(options.fov * 0.5));
      var p := ImagePoint(num, options, j, i);
      p.x == ScreenCoord(i, options.width) * (options.width as real / options.height as real) * scale &&
      p.y == -ScreenCoord(j, options.height) * scale && p.z == -1.0
  {
  }

  /** Mirrored pixels have mirrored screen coordinates: the image is centred on the axis. */
  lemma ScreenCoordMirror(k: nat, n: nat)
    requires k < n
    ensures ScreenCoord(n - 1 - k, n) == -ScreenCoord(k, n)
  {
    var m := n as real;
    var a := 2.0 * (k as real + 0.5) / m;
    var b := 2.0 * ((n - 1 - k) as real + 0.5) / m;
    assert a * m == 2.0 * (k as real + 0.5);
    assert b * m == 2.0 * ((n - 1 - k) as real + 0.5);
    assert (a + b - 2.0) * m == 0.0;
  }

  /**
   * The image is centred on the axis: mirroring a pixel left to right (top
   * to bottom) mirrors its image point's x (y).
   */
  lemma ImageSymmetric(num: Numerics, options: Options, j: nat, i: nat)
    requires j < options.height && i < options.width
    ensures ImagePoint(num, options, j, options.width - 1 - i).x == -ImagePoint(num, options, j, i).x
    ensures ImagePoint(num, options, options.height - 1 - j, i).y == -ImagePoint(num, options, j, i).y
  {
    var scale := Tan(num, Deg2Rad(options.fov * 0.5));
    var aspect := options.width as real / options.height as real;
    ImagePointOnScreen(num, options, j, i);
    ImagePointOnScreen(num, options, j, options.width - 1 - i);
    ImagePointOnScreen(num, options, options.height - 1 - j, i);
    ScreenCoordMirror(i, options.width);
    ScreenCoordMirror(j, options.height);
    assert -ScreenCoord(i, options.width) * aspect * scale == -(ScreenCoord(i, options.width) * aspect * scale);
  }

  /** Every primary ray looks down -z, into the scene in front of the viewpoint. */
  lemma PrimaryDirForward(num: Numerics, options: Options, j: nat, i: nat)
    requires ValidNumerics(num) && options.width > 0 && options.height > 0
    ensures PrimaryDir(num, options, j, i).z < 0.0
  {
    NormalizeIsPositiveMultiple(num, ImagePoint(num, options, j, i));
  }

  // ---------------------------------------------------------------------
  // The eye pass, as a fold
  // ---------------------------------------------------------------------

  /** What eyeRender is given besides the scene: where it looks from, the caches and the two switches. */
  datatype View = View(viewpoint: Vec3, caches: Caches, withLightRender: bool, withObjectRender: bool)

  /** What (part of) the eye pass does: the tally it leaves and the colours of its pixels in order. */
  datatype Picture = Picture(tally: Tally, colors: seq<Vec3>)

  /** The current pixel the eye pass sets for pixel (i, j): (j, i, -1). */
  function EyePixel(j: nat, i: nat): Vec3 {
    Vec3(j as real, i as real, -1.0)
  }

  /**
   * One pixel of the eye pass: the ray is counted (the eye's trace links are
   * never allocated, so nothing is recorded), the pixel becomes the current
   * pixel, and a backward cast from the viewpoint along the primary ray
   * gives its colour.
   */
  ghost function EyeShot(w: World, lights: seq<Light>, e: View, j: nat, i: nat, pre: Tally): (r: Picture)
    requires Ready(w) && w.options.width > 0 && w.options.height > 0
    ensures |r.colors| == 1 && r.tally.pixel == EyePixel(j, i)
  {
    var cast := Backward.Backward(w, lights, e.caches, 0, e.viewpoint, PrimaryDir(w.num, w.options, j, i),
                                  e.withLightRender, e.withObjectRender, Originated(pre.counts, false));
    Picture(Tally(cast.counts, EyePixel(j, i)), [cast.color])
  }

  /** The first n pixels of row j. */
  ghost function EyePixels(w: World, lights: seq<Light>, e: View, j: nat, n: nat, pre: Tally): (r: Picture)
    requires Ready(w) && n <= w.options.width && w.options.height > 0
    ensures |r.colors| == n
  {
    if n == 0 then Picture(pre, [])
    else
      var q := EyePixels(w, lights, e, j, n - 1, pre);
      var s := EyeShot(w, lights, e, j, n - 1, q.tally);
      Picture(s.tally, q.colors + s.colors)
  }

  /** The first m rows of the image. */
  ghost function EyeRows(w: World, lights: seq<Light>, e: View, m: nat, pre: Tally): (r: Picture)
    requires Ready(w) && m <= w.options.height
    ensures |r.colors| == m * w.options.width
  {
    if m == 0 then Picture(pre, [])
    else
      var q := EyeRows(w, lights, e, m - 1, pre);
      var s := EyePixels(w, lights, e, m - 1, w.options.width, q.tally);
      RowStep(m, w.options.width);
      Picture(s.tally, q.colors + s.colors)
  }

  /** Pixel i of row j is the colour of the cast through it, whatever came before. */
  lemma {:induction false} EyePixelsAt(w: World, lights: seq<Light>, e: View, j: nat, n: nat, i: nat, pre: Tally)
    requires Ready(w) && n <= w.options.width && w.options.height > 0 && i < n
    ensures EyePixels(w, lights, e, j, n, pre).colors[i] ==
            EyeShot(w, lights, e, j, i, EyePixels(w, lights, e, j, i, pre).tally).colors[0]
  {
    if i < n - 1 {
      EyePixelsAt(w, lights, e, j, n - 1, i, pre);
    }
  }

  /**
   * The framebuffer is row-major: the colour at index j * width + i is the
   * colour of the primary ray through column i of row j.
   */
  lemma {:induction false} EyeRowsAt(w: World, lights: seq<Light>, e: View, m: nat, j: nat, i: nat, pre: Tally)
    requires Ready(w) && m <= w.options.height && j < m && i < w.options.width
    ensures j * w.options.width + i < m * w.options.width
    ensures var before := EyeRows(w, lights, e, j, pre).tally;
      EyeRows(w, lights, e, m, pre).colors[j * w.options.width + i] ==
      EyeShot(w, lights, e, j, i, EyePixels(w, lights, e, j, i, before).tally).colors[0]
  {
    var W := w.options.width;
    RowMajorBound(j, i, m, W);
    var q := EyeRows(w, lights, e, m - 1, pre);
    var s := EyePixels(w, lights, e, m - 1, W, q.tally);
    if j < m - 1 {
      EyeRowsAt(w, lights, e, m - 1, j, i, pre);
      assert (q.colors + s.colors)[j * W + i] == q.colors[j * W + i];
    } else {
      EyePixelsAt(w, lights, e, j, W, i, q.tally);
      assert (q.colors + s.colors)[j * W + i] == s.colors[i];
    }
  }

  /** Every pixel of a row counts one original ray. */
  lemma {:induction false} EyePixelsOrigins(w: World, lights: seq<Light>, e: View, j: nat, n: nat, pre: Tally)
    requires Ready(w) && n <= w.options.width && w.options.height > 0
    ensures EyePixels(w, lights, e, j, n, pre).tally.counts.originRays == pre.counts.originRays + n
  {
    if n > 0 {
      EyePixelsOrigins(w, lights, e, j, n - 1, pre);
    }
  }

  /** eyeRender counts one original ray per pixel: width * height in all. */
  lemma {:induction false} EyeRowsOrigins(w: World, lights: seq<Light>, e: View, m: nat, pre: Tally)
    requires Ready(w) && m <= w.options.height
    ensures EyeRows(w, lights, e, m, pre).tally.counts.originRays == pre.counts.originRays + m * w.options.width
  {
    if m > 0 {
      var q := EyeRows(w, lights, e, m - 1, pre);
      EyeRowsOrigins(w, lights, e, m - 1, pre);
      EyePixelsOrigins(w, lights, e, m - 1, w.options.width, q.tally);
      RowStep(m, w.options.width);
    }
  }

  // ---------------------------------------------------------------------
  // eyeRender
  // ---------------------------------------------------------------------

  /** Row j of a width-W, height-H framebuffer fits in it. */
  lemma RowFits(j: nat, W: nat, H: nat)
    requires j < H
    ensures j * W + W <= W * H
  {
    assert j * W + W == (j + 1) * W;
    assert (j + 1) * W <= H * W;
  }

  /** What the eye pass is given and keeps: the scene and, when a cache is read, the caches. */
  ghost predicate EyeReady(num: Numerics, objects: seq<Object>, isect: Isect, normal: Normals, cells: set<Surface>,
                           e: View)
    reads objects, SceneSurfaces(objects)`world2Local, cells`N, cells`diffuseAmt, CellBuffers(cells)
  {
    SceneReady(num, objects, isect, normal, cells) &&
    (e.withLightRender || e.withObjectRender ==> CachesAgree(cells, e.caches))
  }

  /** `fb` starts with `colors`. */
  ghost predicate Stores(fb: array<Vec3>, colors: seq<Vec3>)
    reads fb
  {
    |colors| <= fb.Length && forall k :: 0 <= k < |colors| ==> fb[k] == colors[k]
  }

  /**
   * eyeRender: a new framebuffer of width * height pixels, filled row by row
   * with the colours of the primary rays; the counters and the current
   * pixel end up as the fold says.
   */
  method EyeRender(num: Numerics, rayStore: RayStore, options: Options, viewpoint: Vec3, objects: seq<Object>,
                   lights: seq<Light>, withLightRender: bool, withObjectRender: bool,
                   ghost isect: Isect, ghost normal: Normals, ghost caches: Caches, ghost cells: set<Surface>)
    returns (framebuffer: array<Vec3>)
    requires EyeReady(num, objects, isect, normal, cells, View(viewpoint, caches, withLightRender, withObjectRender))
    requires rayStore.currRay == null
    modifies rayStore
    ensures fresh(framebuffer) && framebuffer.Length == options.width * options.height
    ensures var r := EyeRows(World(num, objects, isect, normal, options), lights,
                             View(viewpoint, caches, withLightRender, withObjectRender), options.height,
                             Tally(old(rayStore.Counts()), old(rayStore.currPixel)));
      Tally(rayStore.Counts(), rayStore.currPixel) == r.tally && framebuffer[..] == r.colors
    ensures rayStore.currRay == null
  {
    ghost var w := World(num, objects, isect, normal, options);
    ghost var e := View(viewpoint, caches, withLightRender, withObjectRender);
    ghost var t0 := Tally(rayStore.Counts(), rayStore.currPixel);
    framebuffer := new Vec3[options.width * options.height](_ => Zero);
    assert framebuffer !in CellBuffers(cells);
    var pix := 0;
    var j := 0;
    while j < options.height
      invariant 0 <= j <= options.height && pix == |EyeRows(w, lights, e, j, t0).colors|
      invariant Tally(rayStore.Counts(), rayStore.currPixel) == EyeRows(w, lights, e, j, t0).tally
      invariant Stores(framebuffer, EyeRows(w, lights, e, j, t0).colors)
      invariant rayStore.currRay == null && EyeReady(num, objects, isect, normal, cells, e)
    {
      pix := EyeRenderStep(num, rayStore, options, viewpoint, objects, lights, withLightRender, withObjectRender,
                           j, pix, framebuffer, isect, normal, caches, cells, t0);
      j := j + 1;
    }
    assert t0 == Tally(old(rayStore.Counts()), old(rayStore.currPixel));
    assert framebuffer[..] == EyeRows(w, lights, e, options.height, t0).colors;
  }

  /** One step of eyeRender's loop over the rows: the fold over the first j rows becomes the fold over j + 1. */
  method EyeRenderStep(num: Numerics, rayStore: RayStore, options: Options, viewpoint: Vec3, objects: seq<Object>,
                       lights: seq<Light>, withLightRender: bool, withObjectRender: bool, j: nat, pix: nat,
                       framebuffer: array<Vec3>, ghost isect: Isect, ghost normal: Normals, ghost caches: Caches,
                       ghost cells: set<Surface>, ghost t0: Tally)
    returns (next: nat)
    requires EyeReady(num, objects, isect, normal, cells, View(viewpoint, caches, withLightRender, withObjectRender))
    requires rayStore.currRay == null && framebuffer !in CellBuffers(cells)
    requires j < options.height && framebuffer.Length == options.width * options.height
    requires var q := EyeRows(World(num, objects, isect, normal, options), lights,
                              View(viewpoint, caches, withLightRender, withObjectRender), j, t0);
      pix == |q.colors| && Tally(rayStore.Counts(), rayStore.currPixel) == q.tally && Stores(framebuffer, q.colors)
    modifies rayStore, framebuffer
    ensures var q := EyeRows(World(num, objects, isect, normal, options), lights,
                             View(viewpoint, caches, withLightRender, withObjectRender), j + 1, t0);
      next == |q.colors| && Tally(rayStore.Counts(), rayStore.currPixel) == q.tally && Stores(framebuffer, q.colors)
    ensures rayStore.currRay == null
    ensures EyeReady(num, objects, isect, normal, cells, View(viewpoint, caches, withLightRender, withObjectRender))
  {
    ghost var w := World(num, objects, isect, normal, options);
    ghost var e := View(viewpoint, caches, withLightRender, withObjectRender);
    ghost var q := EyeRows(w, lights, e, j, t0);
    RowFits(j, options.width, options.height);
    EyeRow(num, rayStore, options, viewpoint, objects, lights, withLightRender, withObjectRender, j, pix, framebuffer,
           isect, normal, caches, cells, q.colors);
    next := pix + options.width;
  }

  /** Row j of eyeRender: its pixels in turn, stored from index pix on. */
  method EyeRow(num: Numerics, rayStore: RayStore, options: Options, viewpoint: Vec3, objects: seq<Object>,
                lights: seq<Light>, withLightRender: bool, withObjectRender: bool, j: nat, pix: nat,
                framebuffer: array<Vec3>, ghost isect: Isect, ghost normal: Normals, ghost caches: Caches,
                ghost cells: set<Surface>, ghost before: seq<Vec3>)
    requires EyeReady(num, objects, isect, normal, cells, View(viewpoint, caches, withLightRender, withObjectRender))
    requires rayStore.currRay == null && framebuffer !in CellBuffers(cells)
    requires j < options.height && pix + options.width <= framebuffer.Length
    requires pix == |before| && Stores(framebuffer, before)
    modifies rayStore, framebuffer
    ensures var r := EyePixels(World(num, objects, isect, normal, options), lights,
                               View(viewpoint, caches, withLightRender, withObjectRender), j, options.width,
                               Tally(old(rayStore.Counts()), old(rayStore.currPixel)));
      Tally(rayStore.Counts(), rayStore.currPixel) == r.tally && Stores(framebuffer, before + r.colors)
    ensures rayStore.currRay == null
    ensures EyeReady(num, objects, isect, normal, cells, View(viewpoint, caches, withLightRender, withObjectRender))
  {
    ghost var w := World(num, objects, isect, normal, options);
    ghost var e := View(viewpoint, caches, withLightRender, withObjectRender);
    ghost var t0 := Tally(rayStore.Counts(), rayStore.currPixel);
    var i := 0;
    while i < options.width
      invariant 0 <= i <= options.width
      invariant Tally(rayStore.Counts(), rayStore.currPixel) == EyePixels(w, lights, e, j, i, t0).tally
      invariant Stores(framebuffer, before + EyePixels(w, lights, e, j, i, t0).colors)
      invariant rayStore.currRay == null && EyeReady(num, objects, isect, normal, cells, e)
    {
      EyeRowStep(num, rayStore, options, viewpoint, objects, lights, withLightRender, withObjectRender, j, i, pix,
                 framebuffer, isect, normal, caches, cells, before, t0);
      i := i + 1;
    }
    assert t0 == Tally(old(rayStore.Counts()), old(rayStore.currPixel));
  }

  /** One step of EyeRow's loop: pixel i is cast and stored at index pix + i. */
  method EyeRowStep(num: Numerics, rayStore: RayStore, options: Options, viewpoint: Vec3, objects: seq<Object>,
                    lights: seq<Light>, withLightRender: bool, withObjectRender: bool, j: nat, i: nat, pix: nat,
                    framebuffer: array<Vec3>, ghost isect: Isect, ghost normal: Normals, ghost caches: Caches,
                    ghost cells: set<Surface>, ghost before: seq<Vec3>, ghost t0: Tally)
    requires EyeReady(num, objects, isect, normal, cells, View(viewpoint, caches, withLightRender, withObjectRender))
    requires rayStore.currRay == null && framebuffer !in CellBuffers(cells)
    requires j < options.height && i < options.width && pix + options.width <= framebuffer.Length && pix == |before|
    requires var q := EyePixels(World(num, objects, isect, normal, options), lights,
                                View(viewpoint, caches, withLightRender, withObjectRender), j, i, t0);
      Tally(rayStore.Counts(), rayStore.currPixel) == q.tally && Stores(framebuffer, before + q.colors)
    modifies rayStore, framebuffer
    ensures var q := EyePixels(World(num, objects, isect, normal, options), lights,
                               View(viewpoint, caches, withLightRender, withObjectRender), j, i + 1, t0);
      Tally(rayStore.Counts(), rayStore.currPixel) == q.tally && Stores(framebuffer, before + q.colors)
    ensures rayStore.currRay == null
    ensures EyeReady(num, objects, isect, normal, cells, View(viewpoint, caches, withLightRender, withObjectRender))
  {
    ghost var w := World(num, objects, isect, normal, options);
    ghost var e := View(viewpoint, caches, withLightRender, withObjectRender);
    ghost var q := EyePixels(w, lights, e, j, i, t0);
    var color := EyeCast(num, rayStore, options, viewpoint, objects, lights, withLightRender, withObjectRender, j, i,
                         isect, normal, caches, cells);
    framebuffer[pix + i] := color;
    assert before + q.colors + [color] == before + EyePixels(w, lights, e, j, i + 1, t0).colors;
  }

  /** Pixel (i, j) of eyeRender: the primary ray is counted, then cast backward from the viewpoint. */
  method EyeCast(num: Numerics, rayStore: RayStore, options: Options, viewpoint: Vec3, objects: seq<Object>,
                 lights: seq<Light>, withLightRender: bool, withObjectRender: bool, j: nat, i: nat,
                 ghost isect: Isect, ghost normal: Normals, ghost caches: Caches, ghost cells: set<Surface>)
    returns (color: Vec3)
    requires EyeReady(num, objects, isect, normal, cells, View(viewpoint, caches, withLightRender, withObjectRender))
    requires rayStore.currRay == null && j < options.height && i < options.width
    modifies rayStore
    ensures var r := EyeShot(World(num, objects, isect, normal, options), lights,
                             View(viewpoint, caches, withLightRender, withObjectRender), j, i,
                             Tally(old(rayStore.Counts()), old(rayStore.currPixel)));
      Tally(rayStore.Counts(), rayStore.currPixel) == r.tally && [color] == r.colors
    ensures rayStore.currRay == null
    ensures EyeReady(num, objects, isect, normal, cells, View(viewpoint, caches, withLightRender, withObjectRender))
  {
    var dir := PrimaryDir(num, options, j, i);
    EyeOriginate(rayStore, j, i, viewpoint, dir);
    color := BackwardCastRay(num, rayStore, viewpoint, dir, objects, lights, options, 0, withLightRender,
                             withObjectRender, isect, normal, caches, cells);
  }

  /**
   * A primary ray is counted and pixel (i, j) becomes the current pixel;
   * the eye's trace links are never allocated, so recording it adds nothing.
   */
  method EyeOriginate(rayStore: RayStore, j: nat, i: nat, orig: Vec3, dir: Vec3)
    modifies rayStore`originRays, rayStore`totalMem, rayStore`currPixel
    ensures rayStore.Counts() == Originated(old(rayStore.Counts()), false)
    ensures rayStore.currPixel == EyePixel(j, i)
  {
    rayStore.CountOrigin();
    rayStore.SetPixel(EyePixel(j, i));
    var ray := rayStore.Record(RayTypeOrig, rayStore.eyeTraceLinks, j * VIEW_WIDTH + i, orig, dir, Splat(-1.0));
  }
}
