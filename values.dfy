// Constants, enumerations and plain records shared by the ray tracer:
// Values.h, Option.h and Light.h.

module Values {
  import opened Geometry

  const VIEW_WIDTH: nat := 640
  const VIEW_HEIGHT: nat := 480

  /** Default object ratio (RAY_CAST_DESITY): cells and angle buckets per unit. */
  const RAY_CAST_DENSITY: real := 0.25

  /** Recursion cut-off of the forward (light to surface) cast. */
  const OVERSTACK_PROTECT_DEPTH: nat := 9

  /** A forward ray whose squared remaining intensity is below this is dropped. */
  const INTENSITY_TOO_WEAK: real := 0.001 * 0.001

  /** kInfinity, the largest finite float. */
  const INFINITY: real := 340282346638528859811704183484516925440.0

  /** sizeof(Ray) on the 64-bit targets the program is built for; only `totalMem` uses it. */
  const RAY_SIZE: nat := 168

  datatype ObjectType = ObjectTypeNone | ObjectTypeMesh | ObjectTypeSphere

  datatype MaterialType = DiffuseAndGlossy | ReflectionAndRefraction | Reflection

  datatype RayStatus = ValidRay | NohitRay | InvisibleRay | OverflowRay

  datatype RayType = RayTypeOrig | RayTypeReflection | RayTypeRefraction | RayTypeDiffuse

  /** The render options (struct Options). `maxDepth` is a uint8_t in the source. */
  datatype Options = Options(
    spp: nat,
    diffuseSpliter: nat,
    width: nat,
    height: nat,
    fov: real,
    imageAspectRatio: real,
    maxDepth: nat,
    backgroundColor: Vec3,
    bias: real,
    doTraditionalRender: bool,
    doRenderAfterDiffusePreprocess: bool,
    doRenderAfterDiffuseAndReflectPreprocess: bool,
    viewpoints: seq<Vec3>)

  /** A point light (class Light): where it is and what it emits. */
  datatype Light = Light(position: Vec3, intensity: Vec3)
}
