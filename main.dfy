/**
 * The shading recursion and the pixel arithmetic of src/main.rs. The world's `hit` over `[0.001, INFINITY)`, the
 * materials' `scatter` (with the random draws of each bounce) and `emitted` come in as functions.
 */
module Render {
  import opened Wrappers
  import opened Vectors
  import opened Rays
  import opened Weekend
  import opened Materials
  import opened HitRecords
  import opened Scattering

  /**
   * `ray_color(ray, background, world, depth)`: black once the depth is used up, the background on a miss, the
   * emitted light alone when the material does not scatter, and otherwise emitted light plus the attenuated colour
   * of the scattered ray one level deeper. `None` stands for the panic of `unwrap()` on a record without material.
   */
  function RayColor(ray: Ray, background: Color, world: Ray -> (bool, HitRecord),
                    emitted: (Material, real, real, Point3) -> Color,
                    scatter: (int, Material, Ray, HitRecord) -> Scatter, depth: int): (c: Option<Color>)
    ensures depth <= 0 ==> c == Some(Vec3(0.0, 0.0, 0.0))
    ensures depth > 0 && !world(ray).0 ==> c == Some(background)
    ensures depth > 0 && world(ray).0 && world(ray).1.material.None? ==> c.None?
    ensures depth > 0 && world(ray).0 && world(ray).1.material.Some? &&
            !scatter(depth, world(ray).1.material.value, ray, world(ray).1).scatters ==>
              c == Some(emitted(world(ray).1.material.value, world(ray).1.u, world(ray).1.v, world(ray).1.point))
    decreases depth
  {
    if depth <= 0 then Some(Vectors.New(None, None, None))
    else
      var (hit, rec) := world(ray);
      if !hit then Some(background)
      else
        match rec.material
        case None => None
        case Some(m) =>
          var emittedColor := emitted(m, rec.u, rec.v, rec.point);
          var s := scatter(depth, m, ray, rec);
          if !s.scatters then Some(emittedColor)
          else
            match RayColor(s.scattered, background, world, emitted, scatter, depth - 1)
            case None => None
            case Some(incoming) => Some(Add(emittedColor, Mul(s.attenuation, incoming)))
  }

  /** A scattering bounce adds the emitted light to the attenuated colour one level deeper. */
  lemma RayColorBounce(ray: Ray, background: Color, world: Ray -> (bool, HitRecord),
                       emitted: (Material, real, real, Point3) -> Color,
                       scatter: (int, Material, Ray, HitRecord) -> Scatter, depth: int)
    requires depth > 0 && world(ray).0 && world(ray).1.material.Some?
    requires scatter(depth, world(ray).1.material.value, ray, world(ray).1).scatters
    requires RayColor(scatter(depth, world(ray).1.material.value, ray, world(ray).1).scattered, background, world,
                      emitted, scatter, depth - 1).Some?
    ensures var rec := world(ray).1;
            var s := scatter(depth, rec.material.value, ray, rec);
            RayColor(ray, background, world, emitted, scatter, depth) ==
              Some(Add(emitted(rec.material.value, rec.u, rec.v, rec.point),
                       Mul(s.attenuation, RayColor(s.scattered, background, world, emitted, scatter, depth - 1).value)))
  {
  }

  /** A world that every ray misses shows the background at any positive depth. */
  lemma EmptyWorldShowsBackground(ray: Ray, background: Color, world: Ray -> (bool, HitRecord),
                                  emitted: (Material, real, real, Point3) -> Color,
                                  scatter: (int, Material, Ray, HitRecord) -> Scatter, depth: int)
    requires depth > 0 && forall r :: !world(r).0
    ensures RayColor(ray, background, world, emitted, scatter, depth) == Some(background)
  {
  }

  /** When every hit carries a material, `ray_color` never reaches the `unwrap()` panic. */
  lemma {:induction false} RayColorDefined(ray: Ray, background: Color, world: Ray -> (bool, HitRecord),
                                           emitted: (Material, real, real, Point3) -> Color,
                                           scatter: (int, Material, Ray, HitRecord) -> Scatter, depth: int)
    requires forall r :: world(r).0 ==> world(r).1.material.Some?
    ensures RayColor(ray, background, world, emitted, scatter, depth).Some?
    decreases depth
  {
    if depth > 0 && world(ray).0 {
      var rec := world(ray).1;
      var s := scatter(depth, rec.material.value, ray, rec);
      if s.scatters {
        RayColorDefined(s.scattered, background, world, emitted, scatter, depth - 1);
      }
    }
  }

  predicate InUnitCube(c: Color) {
    0.0 <= c.x <= 1.0 && 0.0 <= c.y <= 1.0 && 0.0 <= c.z <= 1.0
  }

  lemma UnitProductInCube(a: Color, b: Color)
    requires InUnitCube(a) && InUnitCube(b)
    ensures InUnitCube(Mul(a, b))
  {
    UnitProduct(a.x, b.x);
    UnitProduct(a.y, b.y);
    UnitProduct(a.z, b.z);
  }

  /**
   * Without emitters, with every attenuation and the background in the unit cube, the colour stays in the unit cube
   * at every depth: each bounce can only absorb light.
   */
  lemma {:induction false} RayColorBounded(ray: Ray, background: Color, world: Ray -> (bool, HitRecord),
                                           emitted: (Material, real, real, Point3) -> Color,
                                           scatter: (int, Material, Ray, HitRecord) -> Scatter, depth: int)
    requires InUnitCube(background)
    requires forall m, u, v, p :: emitted(m, u, v, p) == Vec3(0.0, 0.0, 0.0)
    requires forall d, m, r, rec :: InUnitCube(scatter(d, m, r, rec).attenuation)
    ensures var c := RayColor(ray, background, world, emitted, scatter, depth); c.Some? ==> InUnitCube(c.value)
    decreases depth
  {
    if depth > 0 && world(ray).0 && world(ray).1.material.Some? {
      var rec := world(ray).1;
      var s := scatter(depth, rec.material.value, ray, rec);
      if s.scatters {
        RayColorBounded(s.scattered, background, world, emitted, scatter, depth - 1);
        var inner := RayColor(s.scattered, background, world, emitted, scatter, depth - 1);
        if inner.Some? {
          UnitProductInCube(s.attenuation, inner.value);
        }
      }
    }
  }

  /** One printed channel: `(256.0 * clamp(x, 0.0, 0.999)) as i32`, always a byte. */
  function ChannelByte(x: real): (b: int)
    ensures 0 <= b <= 255
  {
    var scaled := 256.0 * Clamp(x, 0.0, 0.999);
    assert 0.0 <= scaled < 256.0;
    TruncI32(scaled)
  }

  /** The channel mapping is monotone, sends 0 (and below) to 0 and 1 (and above) to 255. */
  lemma ChannelByteMonotone(x: real, y: real)
    requires x <= y
    ensures ChannelByte(x) <= ChannelByte(y)
    ensures x <= 0.0 ==> ChannelByte(x) == 0
    ensures y >= 1.0 ==> ChannelByte(y) == 255
  {
    var sx, sy := 256.0 * Clamp(x, 0.0, 0.999), 256.0 * Clamp(y, 0.0, 0.999);
    assert sx <= sy;
  }

  /**
   * The arithmetic of `write_color(pixel_color, samples_per_pixel)`: each channel sum is divided by the sample count,
   * gamma-corrected by `sqrt`, and mapped to a byte.
   */
  function WriteColor(pixelColor: Color, samplesPerPixel: int, sqrt: real -> real): (rgb: (int, int, int))
    requires samplesPerPixel != 0
    ensures 0 <= rgb.0 <= 255 && 0 <= rgb.1 <= 255 && 0 <= rgb.2 <= 255
    ensures rgb.0 == ChannelByte(sqrt(pixelColor.x / samplesPerPixel as real))
    ensures rgb.1 == ChannelByte(sqrt(pixelColor.y / samplesPerPixel as real))
    ensures rgb.2 == ChannelByte(sqrt(pixelColor.z / samplesPerPixel as real))
  {
    var scale := 1.0 / samplesPerPixel as real;
    var r := sqrt(Scaled(scale, pixelColor.x, samplesPerPixel as real));
    var g := sqrt(Scaled(scale, pixelColor.y, samplesPerPixel as real));
    var b := sqrt(Scaled(scale, pixelColor.z, samplesPerPixel as real));
    (ChannelByte(r), ChannelByte(g), ChannelByte(b))
  }

  /** `scale * x` with `scale = 1 / n`: the channel sum divided by the sample count. */
  function Scaled(scale: real, x: real, n: real): (r: real)
    requires n != 0.0 && scale == 1.0 / n
    ensures r == x / n
  {
    scale * x
  }
}
