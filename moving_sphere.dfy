/** A sphere whose centre moves linearly between two times (src/moving_sphere.rs). */
module MovingSpheres {
  import opened Wrappers
  import opened Vectors
  import opened Rays
  import opened Weekend
  import opened Materials
  import opened HitRecords
  import opened Aabbs
  import opened Spheres

  datatype MovingSphere = MovingSphere(center0: Point3, center1: Point3, time0: real, time1: real, radius: real,
                                       material: Material)

  /** `MovingSphere::new`. */
  function New(center0: Point3, center1: Point3, time0: real, time1: real, radius: real, material: Material)
    : (m: MovingSphere)
    ensures m.center0 == center0 && m.center1 == center1 && m.time0 == time0 && m.time1 == time1
    ensures m.radius == radius && m.material == material
  {
    MovingSphere(center0, center1, time0, time1, radius, material)
  }

  /** `center(time)`: `center0 + (center1 - center0) * ((time - time0) / (time1 - time0))`. */
  function Center(m: MovingSphere, time: real): Point3
    requires m.time1 != m.time0
  {
    Add(m.center0, Scale(Sub(m.center1, m.center0), (time - m.time0) / (m.time1 - m.time0)))
  }

  /** The centre is `center0` at `time0` and `center1` at `time1`. */
  lemma CenterAtEndpoints(m: MovingSphere)
    requires m.time1 != m.time0
    ensures Center(m, m.time0) == m.center0
    ensures Center(m, m.time1) == m.center1
  {
    QuotientIs(m.time1 - m.time0, m.time1 - m.time0, 1.0);
  }

  /** The centre moves affinely: halfway in time it is halfway between the two centres. */
  lemma CenterAtMidpoint(m: MovingSphere)
    requires m.time1 != m.time0
    ensures Center(m, (m.time0 + m.time1) / 2.0) == Scale(Add(m.center0, m.center1), 0.5)
  {
    QuotientIs((m.time0 + m.time1) / 2.0 - m.time0, m.time1 - m.time0, 0.5);
  }

  lemma QuotientIs(a: real, d: real, k: real)
    requires d != 0.0 && a == k * d
    ensures a / d == k
  {
    var q := a / d;
    assert q * d == a;
    assert (q - k) * d == 0.0;
  }

  /** The divisions `hit` performs are defined. */
  predicate HitDefined(m: MovingSphere, ray: Ray) {
    m.time1 != m.time0 && LenSquared(ray.Direction()) != 0.0 && m.radius != 0.0
  }

  /**
   * `MovingSphere::hit`: the same root selection as `Sphere::hit`, against the centre at the ray's time. A failed
   * hit leaves the record as it was; a successful one writes `t`, `point`, the face normal and the material but not
   * `u` or `v`.
   */
  function Hit(m: MovingSphere, ray: Ray, tMin: real, tMax: real, rec: HitRecord, libm: Libm): (res: (bool, HitRecord))
    requires HitDefined(m, ray)
    ensures !res.0 ==> res.1 == rec
    ensures res.0 ==> tMin <= res.1.t <= tMax
    ensures var q := QuadraticFor(Center(m, ray.Time()), m.radius, ray);
            res.0 <==> q.discriminant >= 0.0 && SelectRoot(q.halfB, q.a, libm.sqrt(q.discriminant), tMin, tMax).Some?
    ensures var q := QuadraticFor(Center(m, ray.Time()), m.radius, ray);
            res.0 ==> res.1.t == SelectRoot(q.halfB, q.a, libm.sqrt(q.discriminant), tMin, tMax).value
    ensures res.0 ==> res.1.point == ray.At(res.1.t) && res.1.material == Some(m.material)
    ensures res.0 ==> res.1.u == rec.u && res.1.v == rec.v
    ensures res.0 ==> Dot(ray.Direction(), res.1.normal) <= 0.0
  {
    var q := QuadraticFor(Center(m, ray.Time()), m.radius, ray);
    if q.discriminant < 0.0 then (false, rec)
    else
      match SelectRoot(q.halfB, q.a, libm.sqrt(q.discriminant), tMin, tMax)
      case None => (false, rec)
      case Some(root) =>
        var r := rec.(t := root);
        var r := r.(point := ray.At(r.t));
        var outwardNormal := Div(Sub(r.point, Center(m, ray.Time())), m.radius);
        var r := SetFaceNormal(r, ray, outwardNormal);
        (true, r.(material := Some(m.material)))
  }

  /**
   * Apart from `u` and `v`, which it carries over, a successful hit is the hit of the still sphere at the ray's
   * time. Whether it succeeds, and at which `t`, does not depend on the record passed in.
   */
  lemma HitIsStillSphereHit(m: MovingSphere, ray: Ray, tMin: real, tMax: real, rec: HitRecord, rec': HitRecord,
                            libm: Libm)
    requires HitDefined(m, ray)
    ensures var still := Sphere(Center(m, ray.Time()), m.radius, m.material);
            var moving, fixed := Hit(m, ray, tMin, tMax, rec, libm), Spheres.Hit(still, ray, tMin, tMax, rec, libm);
            moving.0 == fixed.0 && (moving.0 ==> moving.1 == fixed.1.(u := rec.u, v := rec.v))
    ensures Hit(m, ray, tMin, tMax, rec, libm).0 == Hit(m, ray, tMin, tMax, rec', libm).0
    ensures Hit(m, ray, tMin, tMax, rec, libm).0 ==> Hit(m, ray, tMin, tMax, rec, libm).1.t == Hit(m, ray, tMin, tMax, rec', libm).1.t
  {
  }

  /** As for the still sphere, narrowing the window keeps the hit exactly when its `t` still fits. */
  lemma HitNarrowing(m: MovingSphere, ray: Ray, tMin: real, tMax: real, tMax': real, rec: HitRecord, libm: Libm)
    requires HitDefined(m, ray) && SqrtNonnegative(libm) && tMax' <= tMax
    ensures var wide, narrow := Hit(m, ray, tMin, tMax, rec, libm), Hit(m, ray, tMin, tMax', rec, libm);
            (narrow.0 <==> wide.0 && wide.1.t <= tMax') && (narrow.0 ==> narrow.1 == wide.1)
  {
    var still := Sphere(Center(m, ray.Time()), m.radius, m.material);
    HitIsStillSphereHit(m, ray, tMin, tMax, rec, rec, libm);
    HitIsStillSphereHit(m, ray, tMin, tMax', rec, rec, libm);
    Spheres.HitNarrowing(still, ray, tMin, tMax, tMax', rec, libm);
  }

  /** The box around the sphere at `time0`, as built by `AABB::new(center - r, center + r)`. */
  function BoxAt(m: MovingSphere, time: real): Aabb
    requires m.time1 != m.time0
  {
    var r := Vectors.New(Some(m.radius), Some(m.radius), Some(m.radius));
    Aabbs.New(Sub(Center(m, time), r), Add(Center(m, time), r))
  }

  /**
   * `bounding_box(time0, time1)`: always succeeds, with `surrounding_box(box0, box0)` for the box at `time0`; since
   * that call swaps the two fields, the `maximum` field ends up holding the high corner.
   */
  function BoundingBox(m: MovingSphere, time0: real, time1: real): (box: Aabb)
    requires m.time1 != m.time0
    ensures box == SurroundingBox(BoxAt(m, time0), BoxAt(m, time0))
    ensures box.maximum == Add(Center(m, time0), Vec3(m.radius, m.radius, m.radius))
    ensures box.minimum == Sub(Center(m, time0), Vec3(m.radius, m.radius, m.radius))
  {
    var box0 := BoxAt(m, time0);
    var box1 := box0;
    SurroundingBoxSelf(box0);
    SurroundingBox(box0, box1)
  }

  /** The box depends on `time0` only. */
  lemma BoundingBoxIgnoresTime1(m: MovingSphere, time0: real, time1: real, time1': real)
    requires m.time1 != m.time0
    ensures BoundingBox(m, time0, time1) == BoundingBox(m, time0, time1')
  {
  }
}
