// Scene objects (Object.h) and their two kinds (Sphere.h, MeshTriangle.h).
//
// The source's abstract class Object with its subclasses becomes one class
// whose immutable geometry is a `Shape`: the shape-specific members dispatch
// on it.  Each object owns a grid of vRes * hRes surfaces (shade points),
// stored row-major; a ray hitting the object is mapped to one of them and to
// the angle bucket of that surface for the direction it came from.

module Objects {
  import opened Geometry
  import opened Maybe
  import opened Utils
  import opened Values
  import opened Rays
  import opened Surfaces
  import opened Nearest

  datatype Shape =
    | SphereShape(center: Vec3, radius: real, radius2: real)
    | MeshShape(vertices: seq<Vec3>, numTriangles: nat, vertexIndex: seq<nat>, stCoordinates: seq<Vec2>,
                mapRatio: nat)

  /** What `intersect` reports: distance, point, map coordinates, surface and angle bucket. */
  datatype PrimHit = PrimHit(tNear: real, point: Vec3, mapIdx: Vec2, surface: Surface, angle: Option<nat>)

  /** The two colours of the mesh checkerboard. */
  const CHECKER_DARK: Vec3 := Vec3(0.815, 0.235, 0.031)
  const CHECKER_LIGHT: Vec3 := Vec3(0.937, 0.937, 0.231)

  /** A resolution: `density` cells per unit of `extent`, stored in a uint32_t. */
  function GridSize(density: real, extent: real): (n: nat)
    ensures density * extent >= 0.0 ==> n as real <= density * extent < n as real + 1.0
    ensures density * extent < 1.0 ==> n == 0
  {
    ToUint(density * extent)
  }

  /** At least one triangle, three corners each, every corner index naming a vertex with texture coordinates. */
  predicate MeshWellFormed(vertices: seq<Vec3>, numTriangles: nat, vertexIndex: seq<nat>, stCoordinates: seq<Vec2>) {
    numTriangles >= 1 && |vertexIndex| == 3 * numTriangles &&
    |stCoordinates| == |vertices| &&
    forall i :: 0 <= i < |vertexIndex| ==> vertexIndex[i] < |vertices|
  }

  /** The copies the mesh constructor makes are well formed. */
  lemma MeshCopyWellFormed(verts: seq<Vec3>, vertsIndex: seq<nat>, numTris: nat, st: seq<Vec2>)
    requires numTris >= 1 && 3 * numTris <= |vertsIndex|
    requires MaxIndex(vertsIndex, 3 * numTris) <= |verts| && MaxIndex(vertsIndex, 3 * numTris) <= |st|
    ensures MeshWellFormed(verts[..MaxIndex(vertsIndex, 3 * numTris)], numTris, vertsIndex[..3 * numTris],
                           st[..MaxIndex(vertsIndex, 3 * numTris)])
  {
  }

  /** 1 + the largest of the first n vertex indices (1 when n = 0): how many vertices a mesh copies. */
  function MaxIndex(vertsIndex: seq<nat>, n: nat): (m: nat)
    requires n <= |vertsIndex|
    ensures forall i :: 0 <= i < n ==> vertsIndex[i] < m
    ensures m == 1 || exists i :: 0 <= i < n && m == vertsIndex[i] + 1
  {
    if n == 0 then 1
    else
      var m := MaxIndex(vertsIndex, n - 1);
      if vertsIndex[n - 1] + 1 > m then vertsIndex[n - 1] + 1 else m
  }

  /** The surface state a freshly constructed Surface has, with `len` angle buckets. */
  function NewSurfaceState(len: nat): SurfaceState {
    SurfaceState(Zero, Zero, Identity, Identity, 0, seq(len, _ => Zero))
  }

  /** fmodf(x, 1): the fractional part, with the sign of x. */
  function Fmod1(x: real): (r: real)
    ensures 0.0 <= x ==> 0.0 <= r < 1.0
    ensures x < 0.0 ==> -1.0 < r <= 0.0
  {
    if x >= 0.0 then x - x.Floor as real else x + (-x).Floor as real
  }

  /** Adding the modulus does not change the remainder. */
  lemma WrapShift(v: nat, n: nat)
    requires n > 0
    ensures (v + n) % n == v % n
  {
    var q, r := v / n, v % n;
    assert v == q * n + r;
    assert v + n == (q + 1) * n + r;
    RowMajorParts(q + 1, r, n);
    RowMajorParts(q, r, n);
  }

  /** A grid with a cell j has rows and columns. */
  lemma GridNonEmpty(j: nat, vRes: nat, hRes: nat)
    requires j < vRes * hRes
    ensures vRes > 0 && hRes > 0
  {
    if vRes == 0 || hRes == 0 {
      assert false;
    }
  }

  lemma RowsAtMost(a: nat, b: nat, n: nat)
    requires a <= b
    ensures a * n <= b * n
  {
    assert b * n == a * n + (b - a) * n;
  }

  class Object {
    var objType: ObjectType
    var name: string
    const materialType: MaterialType
    const ior: real
    const Kd: real
    const Ks: real
    const diffuseColor: Vec3
    const specularExponent: real
    var vRes: nat
    var hRes: nat
    const ratio: real := RAY_CAST_DENSITY
    var traceLinks: array?<seq<Ray>>
    var recorderEnabled: bool
    const ampRatio: real
    const surfaceAngleRatio: real
    var pSurfaces: seq<Surface>
    const localDiffuseColor: Vec3
    const shape: Shape
    /** The cell of each surface and of each bucket buffer: they tell that no two cells share either. */
    ghost var cellOf: map<Surface, nat>
    ghost var bufferOf: map<array<Vec3>, nat>

    /** The mesh's triangle list refers only to copied vertices. */
    predicate ShapeValid() {
      match shape
      case SphereShape(_, _, _) => true
      case MeshShape(vertices, numTriangles, vertexIndex, stCoordinates, _) =>
        MeshWellFormed(vertices, numTriangles, vertexIndex, stCoordinates)
    }

    /**
     * The grid invariant: vRes * hRes distinct surfaces with distinct
     * bucket buffers, and a trace-link vector per cell when recording.
     */
    ghost predicate Valid()
      reads this
    {
      |pSurfaces| == vRes * hRes &&
      (forall i :: 0 <= i < |pSurfaces| ==> pSurfaces[i] in cellOf && cellOf[pSurfaces[i]] == i) &&
      (forall i :: 0 <= i < |pSurfaces| && pSurfaces[i].angles != null ==>
         pSurfaces[i].angles in bufferOf && bufferOf[pSurfaces[i].angles] == i) &&
      (forall i :: 0 <= i < |pSurfaces| ==> pSurfaces[i].Valid()) &&
      ShapeValid()
    }

    /** The recorder buffer, once allocated, holds one ray vector per cell. */
    ghost predicate RecorderValid()
      reads this
    {
      traceLinks != null ==> traceLinks.Length == |pSurfaces|
    }

    /**
     * The grid the constructors leave: vRes * hRes valid surfaces with this
     * object's bucket density, cell j reset as cell j from a new surface.
     */
    ghost predicate FreshGrid(num: Numerics)
      requires ValidNumerics(num)
      reads this, pSurfaces, Buffers()
    {
      Valid() && |pSurfaces| == vRes * hRes &&
      forall j :: 0 <= j < |pSurfaces| ==>
        pSurfaces[j].angleRatio == surfaceAngleRatio &&
        pSurfaces[j].State() == pSurfaces[j].AfterReset(NewSurfaceState(BufferLength(pSurfaces[j])), j,
                                                        CellNormal(num, j), CellCenter(num, j))
    }

    /** A grid with at least one cell, so that the wrapped cell index is defined. */
    predicate HasCells()
      reads this
    {
      vRes > 0 && hRes > 0
    }

    ghost function Buffers(): set<array<Vec3>>
      reads this
    {
      set i | 0 <= i < |pSurfaces| && pSurfaces[i].angles != null :: pSurfaces[i].angles
    }

    /** The grid defaults of every object, then the sphere's own set-up and reset. */
    constructor Sphere(num: Numerics, name: string, mType: MaterialType, c: Vec3, r: real)
      requires ValidNumerics(num)
      ensures (objType, this.name, materialType, shape) == (ObjectTypeSphere, name, mType, SphereShape(c, r, r * r))
      ensures (ior, Kd, Ks, diffuseColor, specularExponent) == (1.3, 0.1, 0.2, Splat(0.2), 25.0)
      ensures (ratio, traceLinks, recorderEnabled, localDiffuseColor) == (RAY_CAST_DENSITY, null, false, Splat(-1.0))
      ensures (ampRatio, surfaceAngleRatio) == Densities(mType, 4.0, RAY_CAST_DENSITY)
      ensures vRes == GridSize(ampRatio, 181.0 * r) && hRes == GridSize(ampRatio, 360.0 * r)
      ensures FreshGrid(num) && forall j :: 0 <= j < |pSurfaces| ==> fresh(pSurfaces[j])
    {
      objType := ObjectTypeNone;
      this.name := "NO NAME";
      materialType := mType;
      ior, Kd, Ks, diffuseColor, specularExponent := 1.3, 0.1, 0.2, Splat(0.2), 25.0;
      vRes, hRes := 0, 0;
      traceLinks := null;
      recorderEnabled := false;
      var densities := Densities(mType, 4.0, RAY_CAST_DENSITY);
      ampRatio, surfaceAngleRatio := densities.0, densities.1;
      pSurfaces := [];
      localDiffuseColor := Splat(-1.0);
      cellOf, bufferOf := map[], map[];
      shape := SphereShape(c, r, r * r);
      new;
      SphereSetup(num, name);
    }

    /** The sphere constructor's body: densities, a grid sized from the radius, type and name, reset. */
    method SphereSetup(num: Numerics, objName: string)
      requires ValidNumerics(num) && shape.SphereShape? && pSurfaces == [] && traceLinks == null
      modifies this`vRes, this`hRes, this`pSurfaces, this`cellOf, this`bufferOf, this`objType, this`name
      ensures (objType, name) == (ObjectTypeSphere, objName)
      ensures vRes == GridSize(ampRatio, 181.0 * shape.radius) && hRes == GridSize(ampRatio, 360.0 * shape.radius)
      ensures FreshGrid(num) && forall j :: 0 <= j < |pSurfaces| ==> fresh(pSurfaces[j])
    {
      var v, h := GridSize(ampRatio, 181.0 * shape.radius), GridSize(ampRatio, 360.0 * shape.radius);
      SetType(ObjectTypeSphere);
      SetName(objName);
      BuildGrid(num, v, h);
    }

    /**
     * The mesh constructor: material-dependent densities, the index and
     * vertex copies, a grid sized from the first triangle's edges, then reset.
     * The caller's arrays must hold the entries the source copies.
     */
    constructor Mesh(num: Numerics, name: string, mType: MaterialType, verts: seq<Vec3>,
                     vertsIndex: seq<nat>, numTris: nat, st: seq<Vec2>)
      requires ValidNumerics(num)
      requires numTris >= 1 && 3 * numTris <= |vertsIndex|
      requires MaxIndex(vertsIndex, 3 * numTris) <= |verts| && MaxIndex(vertsIndex, 3 * numTris) <= |st|
      ensures (objType, this.name, materialType) == (ObjectTypeMesh, name, mType)
      ensures (ior, Kd, Ks, diffuseColor, specularExponent) == (1.3, 0.1, 0.2, Splat(0.2), 25.0)
      ensures (ratio, traceLinks, recorderEnabled, localDiffuseColor) == (RAY_CAST_DENSITY, null, false, Splat(-1.0))
      ensures shape == MeshShape(verts[..MaxIndex(vertsIndex, 3 * numTris)], numTris, vertsIndex[..3 * numTris],
                                 st[..MaxIndex(vertsIndex, 3 * numTris)], 5)
      ensures ShapeValid()
      ensures (ampRatio, surfaceAngleRatio) == Densities(mType, 2.0, RAY_CAST_DENSITY)
      ensures vRes == GridSize(ampRatio, Dot(Sub(Vertex(1), Vertex(0)), Sub(Vertex(1), Vertex(0))))
      ensures hRes == GridSize(ampRatio, Dot(Sub(Vertex(2), Vertex(0)), Sub(Vertex(2), Vertex(0))))
      ensures FreshGrid(num) && forall j :: 0 <= j < |pSurfaces| ==> fresh(pSurfaces[j])
    {
      objType := ObjectTypeNone;
      this.name := "NO NAME";
      materialType := mType;
      ior, Kd, Ks, diffuseColor, specularExponent := 1.3, 0.1, 0.2, Splat(0.2), 25.0;
      vRes, hRes := 0, 0;
      traceLinks := null;
      recorderEnabled := false;
      var densities := Densities(mType, 2.0, RAY_CAST_DENSITY);
      ampRatio, surfaceAngleRatio := densities.0, densities.1;
      pSurfaces := [];
      localDiffuseColor := Splat(-1.0);
      cellOf, bufferOf := map[], map[];
      var copied := CopyMesh(verts, vertsIndex, numTris, st);
      shape := copied;
      new;
      MeshSetup(num, name);
    }

    /**
     * The mesh constructor after the copies: densities, type and name, a
     * grid sized from the first triangle's edges, reset.
     */
    method MeshSetup(num: Numerics, objName: string)
      requires ValidNumerics(num) && ShapeValid() && shape.MeshShape? && pSurfaces == [] && traceLinks == null
      modifies this`vRes, this`hRes, this`pSurfaces, this`cellOf, this`bufferOf, this`objType, this`name
      ensures (objType, name) == (ObjectTypeMesh, objName)
      ensures vRes == GridSize(ampRatio, Dot(Sub(Vertex(1), Vertex(0)), Sub(Vertex(1), Vertex(0))))
      ensures hRes == GridSize(ampRatio, Dot(Sub(Vertex(2), Vertex(0)), Sub(Vertex(2), Vertex(0))))
      ensures FreshGrid(num) && forall j :: 0 <= j < |pSurfaces| ==> fresh(pSurfaces[j])
    {
      var e0 := Sub(Vertex(1), Vertex(0));
      var e1 := Sub(Vertex(2), Vertex(0));
      var v, h := GridSize(ampRatio, Dot(e0, e0)), GridSize(ampRatio, Dot(e1, e1));
      SetType(ObjectTypeMesh);
      SetName(objName);
      BuildGrid(num, v, h);
    }

    /**
     * The densities both constructors choose: a diffuse object gets
     * `ratio` cells per unit and no angle buckets; any other gets `factor`
     * times as many cells and `ratio` buckets per degree.
     */
    static function Densities(mType: MaterialType, factor: real, ratio: real): (d: (real, real))
      ensures mType == DiffuseAndGlossy ==> d == (ratio, 0.0)
      ensures mType != DiffuseAndGlossy ==> d == (factor * ratio, ratio)
    {
      match mType
      case DiffuseAndGlossy => (ratio, 0.0)
      case _ => (factor * ratio, 1.0 * ratio)
    }

    /** The mesh constructor's copies: as many vertices and st coordinates as the first numTris triangles use. */
    static method CopyMesh(verts: seq<Vec3>, vertsIndex: seq<nat>, numTris: nat, st: seq<Vec2>) returns (s: Shape)
      requires numTris >= 1 && 3 * numTris <= |vertsIndex|
      requires MaxIndex(vertsIndex, 3 * numTris) <= |verts| && MaxIndex(vertsIndex, 3 * numTris) <= |st|
      ensures s == MeshShape(verts[..MaxIndex(vertsIndex, 3 * numTris)], numTris, vertsIndex[..3 * numTris],
                             st[..MaxIndex(vertsIndex, 3 * numTris)], 5)
      ensures MeshWellFormed(s.vertices, s.numTriangles, s.vertexIndex, s.stCoordinates)
    {
      var maxIndex := VertexCount(vertsIndex, numTris * 3);
      MeshCopyWellFormed(verts, vertsIndex, numTris, st);
      s := MeshShape(verts[..maxIndex], numTris, vertsIndex[..numTris * 3], st[..maxIndex], 5);
    }

    /** The mesh constructor's loop: one more than the largest of the first n vertex indices. */
    static method VertexCount(vertsIndex: seq<nat>, n: nat) returns (count: nat)
      requires n <= |vertsIndex|
      ensures count == MaxIndex(vertsIndex, n)
    {
      var maxIndex := 0;
      var i := 0;
      while i < n
        invariant 0 <= i <= n
        invariant maxIndex + 1 == MaxIndex(vertsIndex, i)
      {
        if vertsIndex[i] > maxIndex {
          maxIndex := vertsIndex[i];
        }
        i := i + 1;
      }
      count := maxIndex + 1;
    }

    method SetType(t: ObjectType)
      modifies this`objType
      ensures objType == t
    {
      objType := t;
    }

    method SetName(objName: string)
      modifies this`name
      ensures name == objName
    {
      name := objName;
    }

    /** setResolution, the surfaces loop and reset, as both constructors run them. */
    method BuildGrid(num: Numerics, verticalRes: nat, horizonRes: nat)
      requires ValidNumerics(num) && pSurfaces == [] && traceLinks == null && ShapeValid()
      modifies this`vRes, this`hRes, this`pSurfaces, this`cellOf, this`bufferOf
      ensures vRes == verticalRes && hRes == horizonRes
      ensures FreshGrid(num) && forall j :: 0 <= j < |pSurfaces| ==> fresh(pSurfaces[j])
    {
      SetResolution(verticalRes, horizonRes);
      AddSurfaces();
      Reset(num);
    }

    /** The constructors' loop: vRes * hRes new surfaces with this object's bucket density. */
    method AddSurfaces()
      requires pSurfaces == [] && traceLinks == null && ShapeValid()
      modifies this`pSurfaces, this`cellOf, this`bufferOf
      ensures Valid() && |pSurfaces| == vRes * hRes
      ensures forall j :: 0 <= j < |pSurfaces| ==> fresh(pSurfaces[j]) && pSurfaces[j].angleRatio == surfaceAngleRatio
      ensures forall j :: 0 <= j < |pSurfaces| && pSurfaces[j].angles != null ==> fresh(pSurfaces[j].angles)
      ensures forall j :: 0 <= j < |pSurfaces| ==> pSurfaces[j].State() == NewSurfaceState(BufferLength(pSurfaces[j])).(idx := pSurfaces[j].idx)
    {
      var i := 0;
      while i < vRes * hRes
        invariant 0 <= i <= vRes * hRes && |pSurfaces| == i
        invariant forall j :: 0 <= j < i ==> fresh(pSurfaces[j]) && pSurfaces[j].Valid()
        invariant forall j :: 0 <= j < i ==> pSurfaces[j].angleRatio == surfaceAngleRatio
        invariant forall j :: 0 <= j < i && pSurfaces[j].angles != null ==> fresh(pSurfaces[j].angles)
        invariant forall j :: 0 <= j < i ==> pSurfaces[j].State() == NewSurfaceState(BufferLength(pSurfaces[j])).(idx := pSurfaces[j].idx)
        invariant forall j :: 0 <= j < i ==> pSurfaces[j] in cellOf && cellOf[pSurfaces[j]] == j
        invariant forall j :: 0 <= j < i && pSurfaces[j].angles != null ==>
          pSurfaces[j].angles in bufferOf && bufferOf[pSurfaces[j].angles] == j
      {
        var surface := AddSurface();
        i := i + 1;
      }
    }

    /** One step of the constructors' loop: a new surface appended as the next cell. */
    method AddSurface() returns (surface: Surface)
      modifies this`pSurfaces, this`cellOf, this`bufferOf
      ensures pSurfaces == old(pSurfaces) + [surface]
      ensures fresh(surface) && surface.Valid() && surface.angleRatio == surfaceAngleRatio
      ensures surface.angles != null ==> fresh(surface.angles)
      ensures surface.State() == NewSurfaceState(BufferLength(surface)).(idx := surface.idx)
      ensures cellOf == old(cellOf)[surface := |old(pSurfaces)|]
      ensures bufferOf == if surface.angles != null then old(bufferOf)[surface.angles := |old(pSurfaces)|] else old(bufferOf)
    {
      surface := new Surface(surfaceAngleRatio);
      cellOf := cellOf[surface := |pSurfaces|];
      if surface.angles != null {
        bufferOf := bufferOf[surface.angles := |pSurfaces|];
      }
      pSurfaces := pSurfaces + [surface];
    }

    /** How many angle buckets a surface has (0 without a buffer). */
    static function BufferLength(s: Surface): nat {
      if s.angles == null then 0 else s.angles.Length
    }

    /** vertices[vertexIndex[i]]: corner i of the mesh's triangle list. */
    function Vertex(i: nat): Vec3
      requires ShapeValid() && shape.MeshShape? && i < |shape.vertexIndex|
    {
      shape.vertices[shape.vertexIndex[i]]
    }

    /** getSurfaceByVH's index: the cell (v mod vRes, h mod hRes), row-major. */
    function CellIndex(v: nat, h: nat): (j: nat)
      requires HasCells()
      reads this
      ensures j < vRes * hRes
    {
      RowMajorBound(v % vRes, h % hRes, vRes, hRes);
      (v % vRes) * hRes + h % hRes
    }

    /** The cell index only depends on v mod vRes and h mod hRes, and is v*hRes + h inside the grid. */
    lemma CellIndexWraps(v: nat, h: nat)
      requires HasCells()
      ensures CellIndex(v + vRes, h) == CellIndex(v, h) && CellIndex(v, h + hRes) == CellIndex(v, h)
      ensures CellIndex(v, h) / hRes == v % vRes && CellIndex(v, h) % hRes == h % hRes
    {
      WrapShift(v, vRes);
      WrapShift(h, hRes);
      RowMajorParts(v % vRes, h % hRes, hRes);
    }

    lemma CellIndexInGrid(v: nat, h: nat)
      requires HasCells() && v < vRes && h < hRes
      ensures CellIndex(v, h) == v * hRes + h
    {
      RowMajorParts(0, v, vRes);
      RowMajorParts(0, h, hRes);
    }

    /** getSurfaceByVH: the surface of the wrapped cell. */
    function SurfaceByVH(v: nat, h: nat): (s: Surface)
      requires Valid() && HasCells()
      reads this
      ensures s in pSurfaces && s == pSurfaces[CellIndex(v, h)]
    {
      pSurfaces[CellIndex(v, h)]
    }

    /**
     * The point getSurfaceByVH stores through `worldPoint`: on a sphere the
     * point at the surface's normal, on a mesh the grid point of (v, h),
     * stepping along the first triangle's edges with the unwrapped v and h.
     */
    function CellPoint(v: nat, h: nat): Vec3
      requires Valid() && HasCells()
      reads this, (set s | s in pSurfaces)`N
    {
      match shape
      case SphereShape(center, radius, _) => Add(center, Scale(SurfaceByVH(v, h).N, radius))
      case MeshShape(_, _, _, _, _) => MeshGridPoint(v, h)
    }

    /** v0 + h*e0 + v*e1 with e0 = (v1-v0)/hRes and e1 = (v2-v0)/vRes. */
    function MeshGridPoint(v: nat, h: nat): Vec3
      requires ShapeValid() && shape.MeshShape? && HasCells()
      reads this
    {
      var e0 := Scale(Sub(Vertex(1), Vertex(0)), 1.0 / hRes as real);
      var e1 := Scale(Sub(Vertex(2), Vertex(0)), 1.0 / vRes as real);
      Add(Add(Vertex(0), Scale(e0, h as real)), Scale(e1, v as real))
    }

    /**
     * The normal reset gives cell j = v*hRes + h: on a sphere the unit
     * direction at polar angle 180*v/vRes and azimuth 360*h/hRes degrees, on
     * a mesh the normalized cross product of the first triangle's edges.
     */
    function CellNormal(num: Numerics, j: nat): Vec3
      requires ValidNumerics(num) && ShapeValid() && j < vRes * hRes
      reads this
    {
      GridNonEmpty(j, vRes, hRes);
      match shape
      case SphereShape(_, _, _) =>
        var v, h := j / hRes, j % hRes;
        var theta := Deg2Rad(180.0 * v as real / vRes as real);
        var phi := Deg2Rad(360.0 * h as real / hRes as real);
        Vec3(Cos(num, phi) * Sin(num, theta), Cos(num, theta), Sin(num, phi) * Sin(num, theta))
      case MeshShape(_, _, _, _, _) =>
        Normalize(num, Cross(Normalize(num, Sub(Vertex(1), Vertex(0))), Normalize(num, Sub(Vertex(2), Vertex(0)))))
    }

    /** The centre reset gives cell j: the sphere point along its normal, or the mesh grid point. */
    function CellCenter(num: Numerics, j: nat): Vec3
      requires ValidNumerics(num) && ShapeValid() && j < vRes * hRes
      reads this
    {
      GridNonEmpty(j, vRes, hRes);
      match shape
      case SphereShape(center, radius, _) => Add(center, Scale(CellNormal(num, j), radius))
      case MeshShape(_, _, _, _, _) => MeshGridPoint(j / hRes, j % hRes)
    }

    /** On a mesh, the point getSurfaceByVH reports for a cell is the centre reset gives it. */
    lemma MeshCellPointIsCenter(num: Numerics, v: nat, h: nat)
      requires ValidNumerics(num) && Valid() && shape.MeshShape? && v < vRes && h < hRes
      ensures v * hRes + h < vRes * hRes
      ensures CellPoint(v, h) == CellCenter(num, v * hRes + h)
    {
      RowMajorBound(v, h, vRes, hRes);
      RowMajorParts(v, h, hRes);
    }

    /** On a mesh every cell gets the same normal. */
    lemma MeshNormalShared(num: Numerics, j: nat, k: nat)
      requires ValidNumerics(num) && ShapeValid() && shape.MeshShape? && j < vRes * hRes && k < vRes * hRes
      ensures CellNormal(num, j) == CellNormal(num, k)
    {
    }

    /**
     * reset (both kinds): visit the cells row by row and reset cell
     * (v, h) with index v*hRes + h, its normal and its centre.
     */
    method Reset(num: Numerics)
      requires ValidNumerics(num) && Valid()
      modifies (set s | s in pSurfaces), Buffers()
      ensures forall j :: 0 <= j < |pSurfaces| ==>
        pSurfaces[j].State() == pSurfaces[j].AfterReset(old(pSurfaces[j].State()), j, CellNormal(num, j), CellCenter(num, j))
    {
      var idx := 0;
      var v := 0;
      while v < vRes
        invariant 0 <= v <= vRes && idx == v * hRes && idx <= |pSurfaces|
        invariant forall j :: 0 <= j < idx ==>
          pSurfaces[j].State() == pSurfaces[j].AfterReset(old(pSurfaces[j].State()), j, CellNormal(num, j), CellCenter(num, j))
        invariant forall j :: idx <= j < |pSurfaces| ==> pSurfaces[j].State() == old(pSurfaces[j].State())
      {
        RowsAtMost(v + 1, vRes, hRes);
        assert (v + 1) * hRes == idx + hRes;
        ResetRow(num, v, idx);
        idx := idx + hRes;
        v := v + 1;
      }
      assert idx == |pSurfaces|;
    }

    /** The inner loop of reset: row v, the cells lo = v*hRes up to lo + hRes. */
    method ResetRow(num: Numerics, v: nat, lo: nat)
      requires ValidNumerics(num) && Valid() && v < vRes && lo == v * hRes && lo + hRes <= |pSurfaces|
      modifies (set s | s in pSurfaces), Buffers()
      ensures forall j :: lo <= j < lo + hRes ==>
        pSurfaces[j].State() == pSurfaces[j].AfterReset(old(pSurfaces[j].State()), j, CellNormal(num, j), CellCenter(num, j))
      ensures forall j :: 0 <= j < |pSurfaces| && !(lo <= j < lo + hRes) ==>
        pSurfaces[j].State() == old(pSurfaces[j].State())
    {
      var idx := lo;
      var h := 0;
      while h < hRes
        invariant 0 <= h <= hRes && idx == lo + h
        invariant forall j :: lo <= j < idx ==>
          pSurfaces[j].State() == pSurfaces[j].AfterReset(old(pSurfaces[j].State()), j, CellNormal(num, j), CellCenter(num, j))
        invariant forall j :: 0 <= j < |pSurfaces| && !(lo <= j < idx) ==> pSurfaces[j].State() == old(pSurfaces[j].State())
      {
        ResetCell(num, v, h, idx);
        idx := idx + 1;
        h := h + 1;
      }
    }

    /** One step of reset: cell (v, h), which is surface number idx. */
    method ResetCell(num: Numerics, v: nat, h: nat, idx: nat)
      requires ValidNumerics(num) && Valid() && v < vRes && h < hRes && idx == v * hRes + h && idx < |pSurfaces|
      modifies pSurfaces[idx], pSurfaces[idx].angles
      ensures pSurfaces[idx].State()
           == pSurfaces[idx].AfterReset(old(pSurfaces[idx].State()), idx, CellNormal(num, idx), CellCenter(num, idx))
      ensures forall j :: 0 <= j < |pSurfaces| && j != idx ==> pSurfaces[j].State() == old(pSurfaces[j].State())
    {
      RowMajorBound(v, h, vRes, hRes);
      RowMajorParts(v, h, hRes);
      CellIndexInGrid(v, h);
      var curr := SurfaceByVH(v, h);
      SurfacesSeparate(idx);
      curr.Reset(idx, CellNormal(num, idx), CellCenter(num, idx));
    }

    /** Distinct cells have distinct surfaces with distinct buffers. */
    lemma SurfacesSeparate(idx: nat)
      requires Valid() && idx < |pSurfaces|
      ensures forall j :: 0 <= j < |pSurfaces| && j != idx ==>
        pSurfaces[j] != pSurfaces[idx] && (pSurfaces[j].angles == null || pSurfaces[j].angles != pSurfaces[idx].angles)
    {
    }

    /** pointRel2Abs: a point relative to the sphere's centre and radius, in world space (mesh: itself). */
    function PointRel2Abs(rel: Vec3): Vec3 {
      match shape
      case SphereShape(center, radius, _) => Add(center, Scale(rel, radius))
      case MeshShape(_, _, _, _, _) => rel
    }

    /** pointAbs2Rel: the inverse map (mesh: the identity). */
    function PointAbs2Rel(abs: Vec3): Vec3
      requires shape.SphereShape? ==> shape.radius != 0.0
    {
      match shape
      case SphereShape(center, radius, _) => Scale(Sub(abs, center), 1.0 / radius)
      case MeshShape(_, _, _, _, _) => abs
    }

    /** The two point maps are inverse to each other (for a sphere of non-zero radius). */
    lemma PointMapsRoundTrip(p: Vec3)
      requires shape.SphereShape? ==> shape.radius != 0.0
      ensures PointAbs2Rel(PointRel2Abs(p)) == p
      ensures shape.MeshShape? ==> PointRel2Abs(p) == p && PointAbs2Rel(p) == p
    {
      if shape.SphereShape? {
        var r := shape.radius;
        assert r * (1.0 / r) == 1.0;
        assert p.x * r * (1.0 / r) == p.x * (r * (1.0 / r));
        assert p.y * r * (1.0 / r) == p.y * (r * (1.0 / r));
        assert p.z * r * (1.0 / r) == p.z * (r * (1.0 / r));
      }
    }

    /**
     * evalDiffuseColor: an object's own diffuse colour; a mesh without a
     * colour of its own (localDiffuseColor == -1) shows a checkerboard.
     */
    function EvalDiffuseColor(mapIdx: Vec2): (c: Vec3)
      ensures shape.SphereShape? ==> c == diffuseColor
      ensures shape.MeshShape? && localDiffuseColor != Splat(-1.0) ==> c == localDiffuseColor
      ensures shape.MeshShape? && localDiffuseColor == Splat(-1.0) ==> c == CHECKER_DARK || c == CHECKER_LIGHT
    {
      match shape
      case SphereShape(_, _, _) => diffuseColor
      case MeshShape(_, _, _, _, mapRatio) =>
        if localDiffuseColor == Splat(-1.0) then
          var pattern := (Fmod1(mapIdx.x * mapRatio as real) > 0.5) != (Fmod1(mapIdx.y * mapRatio as real) > 0.5);
          Mix(CHECKER_DARK, CHECKER_LIGHT, if pattern then 1.0 else 0.0)
        else localDiffuseColor
    }

    /** The smallest non-negative of the two roots, as sphere intersect picks it. */
    static function NearRoot(roots: Roots): (t: Option<real>)
      requires roots.Roots? ==> roots.x0 <= roots.x1
      ensures t.None? <==> roots.NoRoots? || roots.x1 < 0.0
      ensures t.Some? ==> 0.0 <= t.value && (t.value == roots.x0 || t.value == roots.x1)
      ensures t.Some? ==> roots.Roots? && (0.0 <= roots.x0 ==> t.value <= roots.x0) && (0.0 <= roots.x1 ==> t.value <= roots.x1)
    {
      match roots
      case NoRoots => None
      case Roots(x0, x1) =>
        var t0 := if x0 < 0.0 then x1 else x0;
        if t0 < 0.0 then None else Some(t0)
    }

    /**
     * Sphere intersect: the nearest non-negative root of |orig + t dir - c|^2 = r^2,
     * mapped to the surface cell of its polar angles.  A zero direction makes
     * solveQuadratic divide by zero; its NaN roots never win trace's `<`, and
     * the model reports no hit.
     */
    function SphereIntersect(num: Numerics, orig: Vec3, dir: Vec3): (r: Option<PrimHit>)
      requires ValidNumerics(num) && Valid() && HasCells() && shape.SphereShape?
      reads this, (set s | s in pSurfaces)`world2Local
      ensures r.Some? ==> r.value.surface in pSurfaces && 0.0 <= r.value.tNear
      ensures Dot(dir, dir) == 0.0 ==> r.None?
      ensures Dot(dir, dir) != 0.0 ==>
        var t := NearRoot(SolveQuadratic(num, Dot(dir, dir), 2.0 * Dot(dir, Sub(orig, shape.center)),
                                         Dot(Sub(orig, shape.center), Sub(orig, shape.center)) - shape.radius2));
        (r.None? <==> t.None?) && (r.Some? ==> r.value.tNear == t.value && r.value.point == Add(orig, Scale(dir, t.value)))
    {
      var L := Sub(orig, shape.center);
      var a := Dot(dir, dir);
      var b := 2.0 * Dot(dir, L);
      var c := Dot(L, L) - shape.radius2;
      if a == 0.0 then None
      else
        match NearRoot(SolveQuadratic(num, a, b, c))
        case None => None
        case Some(tnear) =>
          var point := Add(orig, Scale(dir, tnear));
          var N := Normalize(num, Sub(point, shape.center));
          var theta := Rad2Deg(Acos(num, N.y));
          var phi := Rad2Deg(Atan2(num, N.z, N.x));
          var s := SurfaceByVH(Bucket(theta, 181.0, vRes), Bucket(phi, 360.0, hRes));
          Some(PrimHit(tnear, point, Vec2(theta, phi), s, s.AngleByDir(num, Neg(dir))))
    }

    /** rayTriangleIntersect for triangle k of the mesh. */
    function TriangleAt(orig: Vec3, dir: Vec3, k: nat): Option<TriangleHit>
      requires ShapeValid() && shape.MeshShape? && k < shape.numTriangles
    {
      RayTriangleIntersect(Vertex(3 * k), Vertex(3 * k + 1), Vertex(3 * k + 2), orig, dir)
    }

    /** The distance of each triangle hit, None for a miss. */
    function TriangleDistances(orig: Vec3, dir: Vec3): (ds: seq<Option<real>>)
      requires ShapeValid() && shape.MeshShape?
      ensures |ds| == shape.numTriangles
      ensures forall k {:trigger ds[k]} :: 0 <= k < |ds| ==> ds[k] == Distance(TriangleAt(orig, dir, k))
    {
      seq(shape.numTriangles, k requires 0 <= k < shape.numTriangles => Distance(TriangleAt(orig, dir, k)))
    }

    static function Distance(hit: Option<TriangleHit>): Option<real> {
      if hit.Some? then Some(hit.value.tNear) else None
    }

    /** The texture coordinates of barycentric (u, v) in triangle k. */
    function TriangleSt(k: nat, u: real, v: real): Vec2
      requires ShapeValid() && shape.MeshShape? && k < shape.numTriangles
    {
      var st0 := shape.stCoordinates[shape.vertexIndex[3 * k]];
      var st1 := shape.stCoordinates[shape.vertexIndex[3 * k + 1]];
      var st2 := shape.stCoordinates[shape.vertexIndex[3 * k + 2]];
      Vec2(st0.x * (1.0 - u - v) + st1.x * u + st2.x * v, st0.y * (1.0 - u - v) + st1.y * u + st2.y * v)
    }

    /**
     * Mesh intersect: the first triangle with the least distance below
     * `tnear`, mapped to the surface cell of its texture coordinates.
     */
    function MeshIntersect(num: Numerics, orig: Vec3, dir: Vec3, tnear: real): (r: Option<PrimHit>)
      requires ValidNumerics(num) && Valid() && HasCells() && shape.MeshShape?
      reads this, (set s | s in pSurfaces)`world2Local
      ensures r.None? <==> FirstMin(TriangleDistances(orig, dir), tnear).None?
      ensures r.Some? ==> r.value.surface in pSurfaces && r.value.tNear < tnear
      ensures r.Some? ==> r.value.tNear == TriangleDistances(orig, dir)[FirstMin(TriangleDistances(orig, dir), tnear).value].value
    {
      match FirstMin(TriangleDistances(orig, dir), tnear)
      case None => None
      case Some(k) => Some(MeshHit(num, orig, dir, k, TriangleAt(orig, dir, k).value))
    }

    /**
     * What intersect reports for a hit on triangle k: the point along the
     * ray and the surface cell of the interpolated texture coordinates.
     */
    function MeshHit(num: Numerics, orig: Vec3, dir: Vec3, k: nat, hit: TriangleHit): (r: PrimHit)
      requires ValidNumerics(num) && Valid() && HasCells() && shape.MeshShape? && k < shape.numTriangles
      reads this, (set s | s in pSurfaces)`world2Local
      ensures r.surface in pSurfaces && r.tNear == hit.tNear && r.point == Add(orig, Scale(dir, hit.tNear))
      ensures r.angle.Some? ==> r.surface.angles != null && r.angle.value < r.surface.angles.Length
    {
      var st := TriangleSt(k, hit.u, hit.v);
      var s := SurfaceByVH(ToUint(st.y * vRes as real), ToUint(st.x * hRes as real));
      PrimHit(hit.tNear, Add(orig, Scale(dir, hit.tNear)), st, s, s.AngleByDir(num, Neg(dir)))
    }

    /** intersect, dispatched on the kind of object. */
    function Intersect(num: Numerics, orig: Vec3, dir: Vec3, tnear: real): (r: Option<PrimHit>)
      requires ValidNumerics(num) && Valid() && HasCells()
      reads this, (set s | s in pSurfaces)`world2Local
      ensures r.Some? ==> r.value.surface in pSurfaces
      ensures r.Some? && r.value.angle.Some? ==>
        r.value.surface.angles != null && r.value.angle.value < r.value.surface.angles.Length
    {
      match shape
      case SphereShape(_, _, _) => SphereIntersect(num, orig, dir)
      case MeshShape(_, _, _, _, _) => MeshIntersect(num, orig, dir, tnear)
    }

    /**
     * The triangle a mesh intersect reports (see MeshIntersect): none when
     * no triangle is hit below tnear, otherwise the first whose distance is
     * least among all triangles hit.
     */
    lemma NearestTriangleIsFirstLeast(orig: Vec3, dir: Vec3, tnear: real)
      requires ShapeValid() && shape.MeshShape?
      ensures FirstMin(TriangleDistances(orig, dir), tnear).None? <==>
        forall k :: 0 <= k < shape.numTriangles && TriangleAt(orig, dir, k).Some? ==> TriangleAt(orig, dir, k).value.tNear >= tnear
      ensures FirstMin(TriangleDistances(orig, dir), tnear).Some? ==>
        var k := FirstMin(TriangleDistances(orig, dir), tnear).value;
        k < shape.numTriangles && TriangleAt(orig, dir, k).Some? && TriangleAt(orig, dir, k).value.tNear < tnear &&
        (forall j :: 0 <= j < shape.numTriangles && TriangleAt(orig, dir, j).Some? ==> TriangleAt(orig, dir, k).value.tNear <= TriangleAt(orig, dir, j).value.tNear) &&
        (forall j :: 0 <= j < k && TriangleAt(orig, dir, j).Some? ==> TriangleAt(orig, dir, k).value.tNear < TriangleAt(orig, dir, j).value.tNear)
    {
      var ds := TriangleDistances(orig, dir);
      FirstMinIsFirstLeast(ds, tnear);
      forall k | 0 <= k < shape.numTriangles
        ensures ds[k] == Distance(TriangleAt(orig, dir, k))
      {
      }
    }

    /** MeshTriangle::intersect: the loop finds the nearest triangle, then its hit is mapped to a cell. */
    method IntersectMesh(num: Numerics, orig: Vec3, dir: Vec3, tnear0: real) returns (r: Option<PrimHit>)
      requires ValidNumerics(num) && Valid() && HasCells() && shape.MeshShape?
      ensures r == MeshIntersect(num, orig, dir, tnear0)
    {
      var index, hit := NearestTriangle(orig, dir, tnear0);
      if index.Some? {
        r := Some(MeshHit(num, orig, dir, index.value, hit));
      } else {
        r := None;
      }
    }

    /** MeshTriangle::intersect's loop over the triangles, keeping the nearest so far. */
    method NearestTriangle(orig: Vec3, dir: Vec3, tnear0: real) returns (index: Option<nat>, hit: TriangleHit)
      requires ShapeValid() && shape.MeshShape?
      ensures index == FirstMin(TriangleDistances(orig, dir), tnear0)
      ensures index.Some? ==> TriangleAt(orig, dir, index.value) == Some(hit)
    {
      ghost var ds := TriangleDistances(orig, dir);
      var intersect := false;
      var found := 0;
      var u, v := 0.0, 0.0;
      var tnear := tnear0;
      var k := 0;
      while k < shape.numTriangles
        invariant 0 <= k <= shape.numTriangles
        invariant intersect <==> FirstMin(ds[..k], tnear0).Some?
        invariant intersect ==> found == FirstMin(ds[..k], tnear0).value && found < k
        invariant intersect ==> TriangleAt(orig, dir, found) == Some(TriangleHit(tnear, u, v))
        invariant tnear == Best(ds[..k], tnear0, FirstMin(ds[..k], tnear0))
      {
        var hitK := TriangleAt(orig, dir, k);
        FirstMinStep(ds[..k], tnear0, ds[k]);
        assert ds[..k + 1] == ds[..k] + [ds[k]];
        if hitK.Some? && hitK.value.tNear < tnear {
          tnear := hitK.value.tNear;
          found := k;
          u, v := hitK.value.u, hitK.value.v;
          intersect := true;
        }
        assert (if intersect then Some(found) else None) == FirstMin(ds[..k + 1], tnear0);
        k := k + 1;
      }
      assert ds[..k] == ds;
      index := if intersect then Some(found) else None;
      hit := TriangleHit(tnear, u, v);
    }

    /** intersect as the caller runs it: the mesh kind loops over its triangles. */
    method IntersectRay(num: Numerics, orig: Vec3, dir: Vec3, tnear: real) returns (r: Option<PrimHit>)
      requires ValidNumerics(num) && Valid() && HasCells()
      ensures r == Intersect(num, orig, dir, tnear)
    {
      if shape.SphereShape? {
        r := SphereIntersect(num, orig, dir);
      } else {
        r := IntersectMesh(num, orig, dir, tnear);
      }
    }

    /** enableRecorder: allocate one trace-link vector per cell unless already allocated. */
    method EnableRecorder()
      modifies this`traceLinks, this`recorderEnabled
      ensures old(traceLinks) != null ==> traceLinks == old(traceLinks)
      ensures old(traceLinks) == null ==> fresh(traceLinks) && forall k :: 0 <= k < traceLinks.Length ==> traceLinks[k] == []
      ensures recorderEnabled && traceLinks != null
      ensures old(traceLinks) == null ==> traceLinks.Length == vRes * hRes
      ensures old(traceLinks) == null && Valid() ==> RecorderValid()
    {
      if traceLinks == null {
        traceLinks := new seq<Ray>[vRes * hRes](_ => []);
      }
      recorderEnabled := true;
    }

    method DisableRecorder()
      modifies this`recorderEnabled
      ensures !recorderEnabled
    {
      recorderEnabled := false;
    }

    method SetResolution(verticalRes: nat, horizonRes: nat)
      modifies this`vRes, this`hRes
      ensures vRes == verticalRes && hRes == horizonRes
    {
      vRes := verticalRes;
      hRes := horizonRes;
    }
  }
}
