// Ray recording: the Ray node (Ray.h) and the RayStore of counters and
// trace links (RayStore.h).

module Rays {
  import opened Geometry
  import opened Values

  // A block of ray vectors (`std::vector<std::unique_ptr<Ray>> *`) is an
  // array<seq<Ray>>: an object's `traceLinks` holds one vector per surface
  // cell.  `record` appends to one of them.

  /** A recorded ray and what became of it. */
  class Ray {
    var orig: Vec3
    var dir: Vec3
    /** The object the ray hit (a `void *` in the source), or null. */
    var hitObject: object?
    var hitPoint: Vec3
    var inside: bool
    var intensity: Vec3
    /** The child rays, one vector per kind, held by the Ray itself. */
    var reflectionLink: seq<Ray>
    var refractionLink: seq<Ray>
    var diffuseLink: seq<Ray>
    var status: RayStatus
    var rayType: RayType
    var validCount: nat
    var nohitCount: nat
    var invisibleCount: nat
    var overflowCount: nat
    var weakCount: nat

    constructor (rayType: RayType, orig: Vec3, dir: Vec3, leftIntensity: Vec3)
      ensures this.rayType == rayType && this.orig == orig && this.dir == dir
      ensures intensity == leftIntensity
      ensures hitObject == null && status == NohitRay && !inside
      ensures validCount == 0 && nohitCount == 0 && invisibleCount == 0
      ensures overflowCount == 0 && weakCount == 0
      ensures reflectionLink == [] && refractionLink == [] && diffuseLink == []
    {
      this.orig := orig;
      this.dir := dir;
      hitObject := null;
      status := NohitRay;
      this.rayType := rayType;
      intensity := leftIntensity;
      inside := false;
      validCount, nohitCount, invisibleCount, overflowCount, weakCount := 0, 0, 0, 0, 0;
      reflectionLink, refractionLink, diffuseLink := [], [], [];
    }

    /** The child vector a child ray of the given type is recorded in. */
    function Children(rayType: RayType): seq<Ray>
      reads this
    {
      match rayType
      case RayTypeReflection => reflectionLink
      case RayTypeRefraction => refractionLink
      case RayTypeDiffuse => diffuseLink
      case RayTypeOrig => []
    }
  }

  /** Snapshot of the RayStore's statistics counters, `totalMem` included. */
  datatype Counters = Counters(
    totalMem: nat,
    totalRays: nat,
    originRays: nat,
    reflectionRays: nat,
    refractionRays: nat,
    diffuseRays: nat,
    invisibleRays: nat,
    weakRays: nat,
    overflowRays: nat,
    loopInternalRays: nat,
    validRays: nat,
    invalidRays: nat,
    nohitRays: nat)

  const NoCounts: Counters := Counters(0, 0, 0, 0, 0, 0, 0, 0, 0, 0, 0, 0, 0)

  /** The recorded Ray node a cast updates, if any. */
  function Node(r: Ray?): set<Ray> {
    if r == null then {} else {r}
  }

  /** The counters once one child ray of the given kind is set up: its kind's counter is one more. */
  function ChildCounted(c: Counters, rayType: RayType): Counters
    requires rayType != RayTypeOrig
  {
    match rayType
    case RayTypeReflection => c.(reflectionRays := c.reflectionRays + 1)
    case RayTypeRefraction => c.(refractionRays := c.refractionRays + 1)
    case RayTypeDiffuse => c.(diffuseRays := c.diffuseRays + 1)
  }

  /** A cast counts no original ray and records nothing: originRays and totalMem are as they were. */
  predicate SameOrigins(before: Counters, after: Counters) {
    after.originRays == before.originRays && after.totalMem == before.totalMem
  }

  /** Counts and records every ray cast during a render pass. */
  class RayStore {
    const option: Options
    /** Pixel (or cell) of the original ray being processed. */
    var currPixel: Vec3
    /** The recorded ray of the cast in progress, or null when nothing is recorded. */
    var currRay: Ray?
    /** Only allocated when RAY_TRACE_LINK_RECORDER is defined, which it is not. */
    const eyeTraceLinks: array?<seq<Ray>> := null
    var totalMem: nat
    var totalRays: nat
    var originRays: nat
    var reflectionRays: nat
    var refractionRays: nat
    var diffuseRays: nat
    var invisibleRays: nat
    var weakRays: nat
    var overflowRays: nat
    var loopInternalRays: nat
    var validRays: nat
    var invalidRays: nat
    var nohitRays: nat

    function Counts(): (c: Counters)
      reads this
      ensures c.overflowRays == overflowRays && c.totalRays == totalRays && c.nohitRays == nohitRays
      ensures c.originRays == originRays && c.totalMem == totalMem
    {
      Counters(totalMem, totalRays, originRays, reflectionRays, refractionRays, diffuseRays,
               invisibleRays, weakRays, overflowRays, loopInternalRays, validRays, invalidRays,
               nohitRays)
    }

    constructor (currOption: Options)
      ensures option == currOption
      ensures currPixel == Zero && currRay == null && eyeTraceLinks == null
      ensures Counts() == NoCounts
    {
      option := currOption;
      currPixel := Zero;
      currRay := null;
      totalMem := 0;
      totalRays, originRays, reflectionRays, refractionRays, diffuseRays := 0, 0, 0, 0, 0;
      invisibleRays, weakRays, overflowRays, loopInternalRays := 0, 0, 0, 0;
      validRays, invalidRays, nohitRays := 0, 0, 0;
    }

    /**
     * Records a ray of the given type in `links[index]`, one vector of a
     * block of them (an object's trace links, one per surface cell).  The
     * new Ray is built with the default intensity -1: the `intensity`
     * argument is not passed on.
     */
    method Record(rayType: RayType, links: array?<seq<Ray>>, index: nat, orig: Vec3, dir: Vec3, intensity: Vec3)
      returns (r: Ray?)
      requires links != null ==> index < links.Length
      modifies links, this`totalMem
      ensures links == null ==> r == null && totalMem == old(totalMem)
      ensures links != null ==> r != null && fresh(r)
      ensures links != null ==> r.rayType == rayType && r.orig == orig && r.dir == dir
      ensures links != null ==> r.intensity == Splat(-1.0) && r.status == NohitRay && r.hitObject == null
      ensures links != null ==> links[index] == old(links[index]) + [r]
      ensures links != null ==> forall k :: 0 <= k < links.Length && k != index ==> links[k] == old(links[k])
      ensures links != null ==> totalMem == old(totalMem) + RAY_SIZE
      ensures Counts() == old(Counts()).(totalMem := totalMem)
      ensures currRay == old(currRay) && currPixel == old(currPixel)
    {
      if links == null {
        return null;
      }
      r := new Ray(rayType, orig, dir, Splat(-1.0));
      totalMem := totalMem + RAY_SIZE;
      links[index] := links[index] + [r];
    }

    /**
     * `record` given one of a Ray's own child vectors (index 0): the one the
     * child's type names.  As above, the intensity is not passed on.
     */
    method RecordChild(rayType: RayType, parent: Ray, orig: Vec3, dir: Vec3, intensity: Vec3) returns (r: Ray)
      requires rayType != RayTypeOrig
      modifies parent`reflectionLink, parent`refractionLink, parent`diffuseLink, this`totalMem
      ensures fresh(r)
      ensures r.rayType == rayType && r.orig == orig && r.dir == dir
      ensures r.intensity == Splat(-1.0) && r.status == NohitRay && r.hitObject == null
      ensures parent.Children(rayType) == old(parent.Children(rayType)) + [r]
      ensures forall t :: t != rayType ==> parent.Children(t) == old(parent.Children(t))
      ensures totalMem == old(totalMem) + RAY_SIZE
      ensures Counts() == old(Counts()).(totalMem := totalMem)
      ensures currRay == old(currRay) && currPixel == old(currPixel)
    {
      r := new Ray(rayType, orig, dir, Splat(-1.0));
      totalMem := totalMem + RAY_SIZE;
      match rayType
      case RayTypeReflection => parent.reflectionLink := parent.reflectionLink + [r];
      case RayTypeRefraction => parent.refractionLink := parent.refractionLink + [r];
      case RayTypeDiffuse => parent.diffuseLink := parent.diffuseLink + [r];
    }

    /** An original ray (from a light, from a surface bucket or from the eye): counted. */
    method CountOrigin()
      modifies this`originRays
      ensures Counts() == old(Counts()).(originRays := old(originRays) + 1)
    {
      originRays := originRays + 1;
    }

    /** The pixel, or (v, h) cell, the next original ray is cast for. */
    method SetPixel(pixel: Vec3)
      modifies this`currPixel
      ensures currPixel == pixel
    {
      currPixel := pixel;
    }

    /** A child ray of the cast in progress, counted by its kind. */
    method CountChild(rayType: RayType)
      requires rayType != RayTypeOrig
      modifies this`reflectionRays, this`refractionRays, this`diffuseRays
      ensures Counts() == ChildCounted(old(Counts()), rayType)
    {
      match rayType {
        case RayTypeReflection => reflectionRays := reflectionRays + 1;
        case RayTypeRefraction => refractionRays := refractionRays + 1;
        case RayTypeDiffuse => diffuseRays := diffuseRays + 1;
      }
    }

    /** Makes `node` the current Ray node again, once a child's cast has returned. */
    method Restore(node: Ray?)
      modifies this`currRay
      ensures currRay == node
    {
      currRay := node;
    }

    /** A cast within the depth limit: counted before it is traced. */
    method CountTraced()
      modifies this`totalRays
      ensures Counts() == old(Counts()).(totalRays := old(totalRays) + 1)
    {
      totalRays := totalRays + 1;
    }

    /** A cast past the depth limit: counted, and the current node marked. */
    method CountOverflow()
      modifies this`overflowRays, Node(currRay)`status, Node(currRay)`overflowCount
      ensures Counts() == old(Counts()).(overflowRays := old(overflowRays) + 1)
      ensures currRay != null ==> currRay.status == OverflowRay && currRay.overflowCount == old(currRay.overflowCount) + 1
    {
      overflowRays := overflowRays + 1;
      if currRay != null {
        currRay.status := OverflowRay;
        currRay.overflowCount := currRay.overflowCount + 1;
      }
    }

    /** A cast that hits nothing: counted, and the current node marked. */
    method CountNohit()
      modifies this`nohitRays, Node(currRay)`status, Node(currRay)`nohitCount
      ensures Counts() == old(Counts()).(nohitRays := old(nohitRays) + 1)
      ensures currRay != null ==> currRay.status == NohitRay && currRay.nohitCount == old(currRay.nohitCount) + 1
    {
      nohitRays := nohitRays + 1;
      if currRay != null {
        currRay.status := NohitRay;
        currRay.nohitCount := currRay.nohitCount + 1;
      }
    }

    /** A child ray too weak to cast: counted on the store and the current node. */
    method CountWeak()
      modifies this`weakRays, Node(currRay)`weakCount
      ensures Counts() == old(Counts()).(weakRays := old(weakRays) + 1)
      ensures currRay != null ==> currRay.weakCount == old(currRay.weakCount) + 1
    {
      weakRays := weakRays + 1;
      if currRay != null {
        currRay.weakCount := currRay.weakCount + 1;
      }
    }

    /** A diffuse shade whose last light brought nothing (in shadow, or facing away). */
    method CountInvisible()
      modifies this`invisibleRays
      ensures Counts() == old(Counts()).(invisibleRays := old(invisibleRays) + 1)
    {
      invisibleRays := invisibleRays + 1;
    }

    /** A diffuse shade whose last light brought something. */
    method CountValid()
      modifies this`validRays
      ensures Counts() == old(Counts()).(validRays := old(validRays) + 1)
    {
      validRays := validRays + 1;
    }

    /** A hit: the current node, if any, is marked valid with the object and point hit. */
    method MarkValid(obj: object, point: Vec3)
      modifies Node(currRay)`status, Node(currRay)`validCount, Node(currRay)`hitObject, Node(currRay)`hitPoint
      ensures currRay != null ==> currRay.status == ValidRay && currRay.validCount == old(currRay.validCount) + 1
      ensures currRay != null ==> currRay.hitObject == obj && currRay.hitPoint == point
    {
      if currRay != null {
        currRay.status := ValidRay;
        currRay.validCount := currRay.validCount + 1;
        currRay.hitObject := obj;
        currRay.hitPoint := point;
      }
    }
  }
}
