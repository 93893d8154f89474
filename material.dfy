/**
 * Materials (src/material.rs). Each `scatter` becomes a function returning whether the ray scatters, the attenuation
 * and the scattered ray. The random vectors and the uniform draw a call consumes are passed in as `Draws`.
 */
module Materials {
  import opened Vectors
  import opened Textures

  datatype Material =
    | Lambertian(albedo: Texture)
    | Metal(metalAlbedo: Color, fuzz: real)
    | Dielectric(refractionIndex: real)

  /** `Lambertian::from(&albedo)`: a solid-colour texture of that colour. */
  function LambertianFrom(albedo: Color): (m: Material)
    ensures m == Lambertian(SolidColor(albedo))
  {
    Lambertian(SolidColorNew(Wrappers.Some(albedo)))
  }

  /** `Lambertian::new(albedo)`. */
  function LambertianNew(albedo: Texture): (m: Material)
    ensures m.Lambertian? && m.albedo == albedo
  {
    Lambertian(albedo)
  }

  /** `Metal::new`: the fuzz is capped at 1.0 from above only. */
  function MetalNew(albedo: Color, fuzz: real): (m: Material)
    ensures m.Metal? && m.metalAlbedo == albedo
    ensures m.fuzz <= 1.0
    ensures fuzz < 1.0 ==> m.fuzz == fuzz
    ensures fuzz >= 1.0 ==> m.fuzz == 1.0
  {
    Metal(albedo, if fuzz < 1.0 then fuzz else 1.0)
  }

  /** `Dielectric::new(r_in)`. */
  function DielectricNew(rIn: real): (m: Material)
    ensures m.Dielectric? && m.refractionIndex == rIn
  {
    Dielectric(rIn)
  }

  /** `powi(x, n)`: `x` multiplied by itself `n` times. */
  function Powi(x: real, n: nat): real {
    if n == 0 then 1.0 else x * Powi(x, n - 1)
  }

  lemma {:induction false} PowiUnitInterval(x: real, n: nat)
    requires 0.0 <= x <= 1.0
    ensures 0.0 <= Powi(x, n) <= 1.0
  {
    if n > 0 {
      PowiUnitInterval(x, n - 1);
      var p := Powi(x, n - 1);
      UnitProduct(x, p);
    }
  }

  lemma UnitProduct(x: real, p: real)
    requires 0.0 <= x <= 1.0 && 0.0 <= p <= 1.0
    ensures 0.0 <= x * p <= p
  {
    assert p - x * p == (1.0 - x) * p;
  }

  /** Schlick's `r0`: the square of `(1 - ref_idx) / (1 + ref_idx)`. */
  function R0(refIdx: real): (r: real)
    requires 1.0 + refIdx != 0.0
    ensures r >= 0.0
  {
    var q := (1.0 - refIdx) / (1.0 + refIdx);
    q * q
  }

  /** `Dielectric::reflectance(cosine, ref_idx)`, Schlick's approximation. */
  function Reflectance(cosine: real, refIdx: real): real
    requires 1.0 + refIdx != 0.0
  {
    var r0 := R0(refIdx);
    r0 + (1.0 - r0) * Powi(1.0 - cosine, 5)
  }

  /** At normal incidence the reflectance is exactly `r0`. */
  lemma ReflectanceNormalIncidence(refIdx: real)
    requires 1.0 + refIdx != 0.0
    ensures Reflectance(1.0, refIdx) == R0(refIdx)
    ensures Reflectance(1.0, refIdx) == ((1.0 - refIdx) / (1.0 + refIdx)) * ((1.0 - refIdx) / (1.0 + refIdx))
  {
  }

  /** A positive index gives `r0` below 1. */
  lemma R0Below1(refIdx: real)
    requires refIdx > 0.0
    ensures 0.0 <= R0(refIdx) < 1.0
  {
    var q := (1.0 - refIdx) / (1.0 + refIdx);
    assert -1.0 < q < 1.0 by {
      assert q * (1.0 + refIdx) == 1.0 - refIdx;
    }
    if q >= 0.0 {
      assert q * q <= q * 1.0;
    } else {
      assert q * q <= (-q) * 1.0;
    }
  }

  /** For a cosine in [0, 1] and a positive index, the reflectance lies between `r0` and 1. */
  lemma ReflectanceBounds(cosine: real, refIdx: real)
    requires 0.0 <= cosine <= 1.0 && refIdx > 0.0
    ensures R0(refIdx) <= Reflectance(cosine, refIdx) <= 1.0
  {
    R0Below1(refIdx);
    PowiUnitInterval(1.0 - cosine, 5);
    var r0, p := R0(refIdx), Powi(1.0 - cosine, 5);
    UnitProduct(p, 1.0 - r0);
    assert (1.0 - r0) * p == p * (1.0 - r0);
    assert Reflectance(cosine, refIdx) == r0 + (1.0 - r0) * p;
  }
}

/** The scatter rules of the three materials, over a hit record and injected random draws. */
module Scattering {
  import opened Vectors
  import opened Rays
  import opened Weekend
  import opened Textures
  import opened Materials
  import opened HitRecords

  /**
   * The random values one `scatter` call may consume: `random_unit_vector()` (Lambertian), `random_in_unit_sphere()`
   * (Metal) and `random::<f32>(0.0, 1.0)` (Dielectric).
   */
  datatype Draws = Draws(unitVector: Vec3, inUnitSphere: Vec3, uniform: real)

  /** The range each draw is promised to lie in. */
  predicate DrawsInRange(d: Draws) {
    LenSquared(d.inUnitSphere) < 1.0 && RandomRange(d.uniform, 0.0, 1.0)
  }

  datatype Scatter = Scatter(scatters: bool, attenuation: Color, scattered: Ray)

  /** `Lambertian::scatter`: always scatters, off `normal + random_unit_vector()`, or off the normal if that is near zero. */
  function LambertianScatter(albedo: Texture, rayIn: Ray, rec: HitRecord, d: Draws, libm: Libm): (s: Scatter)
    ensures s.scatters
    ensures s.attenuation == Value(albedo, rec.u, rec.v, rec.point, libm.sin)
    ensures s.scattered.orig == rec.point && s.scattered.time == rayIn.Time()
    ensures NearZero(Add(rec.normal, d.unitVector)) ==> s.scattered.dir == rec.normal
    ensures !NearZero(Add(rec.normal, d.unitVector)) ==> s.scattered.dir == Add(rec.normal, d.unitVector)
  {
    var scatterDirection := Add(rec.normal, d.unitVector);
    var scatterDirection := if NearZero(scatterDirection) then rec.normal else scatterDirection;
    var scattered := Rays.New(Wrappers.Some(rec.point), Wrappers.Some(scatterDirection), Wrappers.Some(rayIn.Time()));
    Scatter(true, Value(albedo, rec.u, rec.v, rec.point, libm.sin), scattered)
  }

  /** `Metal::scatter`: reflect the unit incoming direction, perturb it by `fuzz`, keep it only if it leaves the surface. */
  function MetalScatter(albedo: Color, fuzz: real, rayIn: Ray, rec: HitRecord, d: Draws, libm: Libm): (s: Scatter)
    requires Len(rayIn.Direction(), libm.sqrt) != 0.0
    ensures s.attenuation == albedo
    ensures s.scatters <==> Dot(s.scattered.Direction(), rec.normal) > 0.0
    ensures s.scattered.orig == rec.point && s.scattered.time == rayIn.Time()
    ensures s.scattered.dir == Add(Reflect(UnitVector(rayIn.Direction(), libm.sqrt), rec.normal), Scale(d.inUnitSphere, fuzz))
  {
    var reflected := Reflect(UnitVector(rayIn.Direction(), libm.sqrt), rec.normal);
    var scattered := Rays.New(Wrappers.Some(rec.point), Wrappers.Some(Add(reflected, Scale(d.inUnitSphere, fuzz))),
                              Wrappers.Some(rayIn.Time()));
    Scatter(Dot(scattered.Direction(), rec.normal) > 0.0, albedo, scattered)
  }

  /** `refraction_ratio`: `1 / index` on the front face and `index` on the back face. */
  function RefractionRatio(refractionIndex: real, frontFace: bool): (r: real)
    requires refractionIndex != 0.0
    ensures frontFace ==> r * refractionIndex == 1.0
    ensures !frontFace ==> r == refractionIndex
  {
    if frontFace then 1.0 / refractionIndex else refractionIndex
  }

  /** The divisions `Dielectric::scatter` performs are defined. */
  predicate DielectricDefined(refractionIndex: real, rayIn: Ray, rec: HitRecord, libm: Libm) {
    refractionIndex != 0.0 && 1.0 + RefractionRatio(refractionIndex, rec.frontFace) != 0.0 &&
    Len(rayIn.Direction(), libm.sqrt) != 0.0
  }

  function CosTheta(rayIn: Ray, rec: HitRecord, libm: Libm): real
    requires Len(rayIn.Direction(), libm.sqrt) != 0.0
  {
    Min(Dot(Neg(UnitVector(rayIn.Direction(), libm.sqrt)), rec.normal), 1.0)
  }

  /** `cannot_refract`: `refraction_ratio * sin_theta > 1`. */
  predicate CannotRefract(refractionIndex: real, rayIn: Ray, rec: HitRecord, libm: Libm)
    requires refractionIndex != 0.0 && Len(rayIn.Direction(), libm.sqrt) != 0.0
  {
    var cosTheta := CosTheta(rayIn, rec, libm);
    RefractionRatio(refractionIndex, rec.frontFace) * libm.sqrt(1.0 - cosTheta * cosTheta) > 1.0
  }

  /**
   * `Dielectric::scatter`: always scatters with attenuation (1, 1, 1); reflects when refraction is impossible or
   * when Schlick's reflectance beats the uniform draw, and refracts otherwise.
   */
  function DielectricScatter(refractionIndex: real, rayIn: Ray, rec: HitRecord, d: Draws, libm: Libm): (s: Scatter)
    requires DielectricDefined(refractionIndex, rayIn, rec, libm)
    ensures s.scatters && s.attenuation == Vec3(1.0, 1.0, 1.0)
    ensures s.scattered.orig == rec.point && s.scattered.time == rayIn.Time()
    ensures var unitDirection := UnitVector(rayIn.Direction(), libm.sqrt);
            var ratio := RefractionRatio(refractionIndex, rec.frontFace);
            s.scattered.dir ==
              if CannotRefract(refractionIndex, rayIn, rec, libm) ||
                 Reflectance(CosTheta(rayIn, rec, libm), ratio) > d.uniform
              then Reflect(unitDirection, rec.normal)
              else Refract(unitDirection, rec.normal, ratio, libm.sqrt)
  {
    var attenuation := Vectors.New(Wrappers.Some(1.0), Wrappers.Some(1.0), Wrappers.Some(1.0));
    var refractionRatio := RefractionRatio(refractionIndex, rec.frontFace);
    var unitDirection := UnitVector(rayIn.Direction(), libm.sqrt);
    var cosTheta := CosTheta(rayIn, rec, libm);
    var cannotRefract := CannotRefract(refractionIndex, rayIn, rec, libm);
    var direction :=
      if cannotRefract || Reflectance(cosTheta, refractionRatio) > d.uniform
      then Reflect(unitDirection, rec.normal)
      else Refract(unitDirection, rec.normal, refractionRatio, libm.sqrt);
    Scatter(true, attenuation, Rays.New(Wrappers.Some(rec.point), Wrappers.Some(direction), Wrappers.Some(rayIn.Time())))
  }

  /** When refraction is impossible the reflected direction is chosen, whatever the uniform draw. */
  lemma TotalInternalReflection(refractionIndex: real, rayIn: Ray, rec: HitRecord, d: Draws, d': Draws, libm: Libm)
    requires DielectricDefined(refractionIndex, rayIn, rec, libm)
    requires CannotRefract(refractionIndex, rayIn, rec, libm)
    ensures DielectricScatter(refractionIndex, rayIn, rec, d, libm).scattered.dir ==
            Reflect(UnitVector(rayIn.Direction(), libm.sqrt), rec.normal)
    ensures DielectricScatter(refractionIndex, rayIn, rec, d, libm) ==
            DielectricScatter(refractionIndex, rayIn, rec, d', libm)
  {
  }

  /** The divisions `scatter` performs for this material are defined. */
  predicate ScatterDefined(m: Material, rayIn: Ray, rec: HitRecord, libm: Libm) {
    match m
    case Lambertian(_) => true
    case Metal(_, _) => Len(rayIn.Direction(), libm.sqrt) != 0.0
    case Dielectric(index) => DielectricDefined(index, rayIn, rec, libm)
  }

  /** `Material::scatter`, dispatched on the material. Every scattered ray starts at the hit point at the ray's time. */
  function ScatterOff(m: Material, rayIn: Ray, rec: HitRecord, d: Draws, libm: Libm): (s: Scatter)
    requires ScatterDefined(m, rayIn, rec, libm)
    ensures s.scattered.Origin() == rec.point && s.scattered.Time() == rayIn.Time()
    ensures !m.Metal? ==> s.scatters
  {
    match m
    case Lambertian(albedo) => LambertianScatter(albedo, rayIn, rec, d, libm)
    case Metal(albedo, fuzz) => MetalScatter(albedo, fuzz, rayIn, rec, d, libm)
    case Dielectric(index) => DielectricScatter(index, rayIn, rec, d, libm)
  }

  /** A Lambertian surface made from a colour attenuates by exactly that colour. */
  lemma LambertianFromAttenuation(albedo: Color, rayIn: Ray, rec: HitRecord, d: Draws, libm: Libm)
    ensures ScatterOff(LambertianFrom(albedo), rayIn, rec, d, libm).attenuation == albedo
  {
  }

  /** A metal with zero fuzz reflects mirror-like: the draw does not matter. */
  lemma MetalWithoutFuzzIgnoresDraw(albedo: Color, rayIn: Ray, rec: HitRecord, d: Draws, d': Draws, libm: Libm)
    requires Len(rayIn.Direction(), libm.sqrt) != 0.0
    ensures MetalScatter(albedo, 0.0, rayIn, rec, d, libm) == MetalScatter(albedo, 0.0, rayIn, rec, d', libm)
    ensures MetalScatter(albedo, 0.0, rayIn, rec, d, libm).scattered.dir ==
            Reflect(UnitVector(rayIn.Direction(), libm.sqrt), rec.normal)
  {
  }
}
