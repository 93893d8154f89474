/**
 * Axis-aligned rectangles (src/aarect.rs). `XYRect` is given in full; `XZRect` and `YZRect`, which `Block::new` also
 * builds, are modelled by analogy through one rectangle type that names its plane: the first range runs along
 * `AAxis`, the second along `BAxis`, and the rectangle sits at `k` on `KAxis`.
 */
module Rects {
  import opened Wrappers
  import opened Vectors
  import opened Rays
  import opened Materials
  import opened HitRecords
  import opened Aabbs

  datatype Plane = XY | XZ | YZ

  function AAxis(plane: Plane): (i: int)
    ensures 0 <= i < 3
  {
    match plane
    case XY => 0
    case XZ => 0
    case YZ => 1
  }

  function BAxis(plane: Plane): (i: int)
    ensures 0 <= i < 3
  {
    match plane
    case XY => 1
    case XZ => 2
    case YZ => 2
  }

  function KAxis(plane: Plane): (i: int)
    ensures 0 <= i < 3
  {
    match plane
    case XY => 2
    case XZ => 1
    case YZ => 0
  }

  /** The three axes of a plane are distinct. */
  lemma AxesDistinct(plane: Plane)
    ensures AAxis(plane) != BAxis(plane) && AAxis(plane) != KAxis(plane) && BAxis(plane) != KAxis(plane)
    ensures {AAxis(plane), BAxis(plane), KAxis(plane)} == {0, 1, 2}
  {
  }

  /** The point with coordinate `a` on `AAxis`, `b` on `BAxis` and `k` on `KAxis`. */
  function Place(plane: Plane, a: real, b: real, k: real): (p: Point3)
    ensures E(p, AAxis(plane)) == a && E(p, BAxis(plane)) == b && E(p, KAxis(plane)) == k
  {
    match plane
    case XY => Vectors.New(Some(a), Some(b), Some(k))
    case XZ => Vectors.New(Some(a), Some(k), Some(b))
    case YZ => Vectors.New(Some(k), Some(a), Some(b))
  }

  datatype AaRect = AaRect(plane: Plane, a0: real, a1: real, b0: real, b1: real, k: real, material: Option<Material>)

  /** `XYRect::new(x0, x1, y0, y1, k, material_ptr)`. */
  function XYRectNew(x0: real, x1: real, y0: real, y1: real, k: real, material: Option<Material>): (r: AaRect)
    ensures r.plane == XY && r.material == material
    ensures r.a0 == x0 && r.a1 == x1 && r.b0 == y0 && r.b1 == y1 && r.k == k
  {
    AaRect(XY, x0, x1, y0, y1, k, material)
  }

  /** `XZRect::new(x0, x1, z0, z1, k, material_ptr)`, by analogy. */
  function XZRectNew(x0: real, x1: real, z0: real, z1: real, k: real, material: Option<Material>): (r: AaRect)
    ensures r.plane == XZ && r.material == material
    ensures r.a0 == x0 && r.a1 == x1 && r.b0 == z0 && r.b1 == z1 && r.k == k
  {
    AaRect(XZ, x0, x1, z0, z1, k, material)
  }

  /** `YZRect::new(y0, y1, z0, z1, k, material_ptr)`, by analogy. */
  function YZRectNew(y0: real, y1: real, z0: real, z1: real, k: real, material: Option<Material>): (r: AaRect)
    ensures r.plane == YZ && r.material == material
    ensures r.a0 == y0 && r.a1 == y1 && r.b0 == z0 && r.b1 == z1 && r.k == k
  {
    AaRect(YZ, y0, y1, z0, z1, k, material)
  }

  /** The divisions `hit` performs are defined: the ray is not parallel to the plane and both ranges are proper. */
  predicate HitDefined(rect: AaRect, ray: Ray) {
    E(ray.Direction(), KAxis(rect.plane)) != 0.0 && rect.a1 != rect.a0 && rect.b1 != rect.b0
  }

  /** The parameter at which the ray meets the rectangle's plane. */
  function PlaneT(rect: AaRect, ray: Ray): (t: real)
    requires E(ray.Direction(), KAxis(rect.plane)) != 0.0
    ensures t * E(ray.Direction(), KAxis(rect.plane)) == rect.k - E(ray.Origin(), KAxis(rect.plane))
  {
    (rect.k - E(ray.Origin(), KAxis(rect.plane))) / E(ray.Direction(), KAxis(rect.plane))
  }

  function Unit(plane: Plane): (n: Vec3)
    ensures E(n, KAxis(plane)) == 1.0 && E(n, AAxis(plane)) == 0.0 && E(n, BAxis(plane)) == 0.0
  {
    Place(plane, 0.0, 0.0, 1.0)
  }

  /** The rectangle's crossing test at parameter `t`: the ray meets the plane inside both ranges. */
  predicate InsideAt(rect: AaRect, ray: Ray, t: real) {
    rect.a0 <= Along(ray, t, AAxis(rect.plane)) <= rect.a1 && rect.b0 <= Along(ray, t, BAxis(rect.plane)) <= rect.b1
  }

  /** Coordinate `i` of the ray at parameter `t`, as `hit` computes it: `origin[i] + t * direction[i]`. */
  function Along(ray: Ray, t: real, i: int): (c: real)
    requires 0 <= i < 3
    ensures c == E(ray.At(t), i)
  {
    E(ray.Origin(), i) + t * E(ray.Direction(), i)
  }

  /** `hit`: reject a plane crossing outside `[t_min, t_max]`, then a crossing outside the rectangle, else record it. */
  function Hit(rect: AaRect, ray: Ray, tMin: real, tMax: real, rec: HitRecord): (res: (bool, HitRecord))
    requires HitDefined(rect, ray)
    ensures !res.0 ==> res.1 == rec
    ensures res.0 ==> tMin <= res.1.t <= tMax && res.1.t == PlaneT(rect, ray)
    ensures res.0 ==> res.1.material == rect.material && res.1.point == ray.At(res.1.t)
  {
    var t := PlaneT(rect, ray);
    if t < tMin || t > tMax then (false, rec)
    else
      var a := Along(ray, t, AAxis(rect.plane));
      var b := Along(ray, t, BAxis(rect.plane));
      if a < rect.a0 || a > rect.a1 || b < rect.b0 || b > rect.b1 then (false, rec)
      else
        var r := rec.(u := (a - rect.a0) / (rect.a1 - rect.a0), v := (b - rect.b0) / (rect.b1 - rect.b0), t := t);
        var r := SetFaceNormal(r, ray, Unit(rect.plane));
        var r := r.(material := rect.material);
        (true, r.(point := ray.At(t)))
  }

  /** `hit` succeeds exactly when the plane crossing lies in the window and inside the rectangle. */
  lemma HitIffInside(rect: AaRect, ray: Ray, tMin: real, tMax: real, rec: HitRecord)
    requires HitDefined(rect, ray)
    ensures Hit(rect, ray, tMin, tMax, rec).0 <==>
            tMin <= PlaneT(rect, ray) <= tMax && InsideAt(rect, ray, PlaneT(rect, ray))
  {
  }

  /**
   * What a successful `hit` records: the point lies on the plane inside both ranges, `u` and `v` lie in [0, 1] for
   * proper ranges, and the face is a front face exactly when the ray runs against the unit normal of the plane.
   */
  lemma HitRecordsCrossing(rect: AaRect, ray: Ray, tMin: real, tMax: real, rec: HitRecord)
    requires HitDefined(rect, ray)
    requires Hit(rect, ray, tMin, tMax, rec).0
    ensures var r := Hit(rect, ray, tMin, tMax, rec).1;
            E(r.point, KAxis(rect.plane)) == rect.k &&
            rect.a0 <= E(r.point, AAxis(rect.plane)) <= rect.a1 &&
            rect.b0 <= E(r.point, BAxis(rect.plane)) <= rect.b1 &&
            (rect.a0 < rect.a1 ==> 0.0 <= r.u <= 1.0) &&
            (rect.b0 < rect.b1 ==> 0.0 <= r.v <= 1.0) &&
            (r.frontFace <==> E(ray.Direction(), KAxis(rect.plane)) < 0.0) &&
            (r.normal == Unit(rect.plane) || r.normal == Neg(Unit(rect.plane)))
  {
    var t := PlaneT(rect, ray);
    var r := Hit(rect, ray, tMin, tMax, rec).1;
    PlaneCrossing(rect, ray);
    var a := Along(ray, t, AAxis(rect.plane));
    var b := Along(ray, t, BAxis(rect.plane));
    UnitFraction(a - rect.a0, rect.a1 - rect.a0);
    UnitFraction(b - rect.b0, rect.b1 - rect.b0);
    DotWithUnit(ray.Direction(), rect.plane);
  }

  lemma UnitFraction(num: real, den: real)
    requires den != 0.0
    ensures 0.0 < den && 0.0 <= num <= den ==> 0.0 <= num / den <= 1.0
  {
    if 0.0 < den && 0.0 <= num <= den {
      assert num / den * den == num;
    }
  }

  lemma DotWithUnit(d: Vec3, plane: Plane)
    ensures Dot(d, Unit(plane)) == E(d, KAxis(plane))
  {
  }

  /** The rectangle meets the ray's path at its own plane: the crossing point has `k` as its fixed coordinate. */
  lemma PlaneCrossing(rect: AaRect, ray: Ray)
    requires E(ray.Direction(), KAxis(rect.plane)) != 0.0
    ensures E(ray.At(PlaneT(rect, ray)), KAxis(rect.plane)) == rect.k
  {
    var c := Along(ray, PlaneT(rect, ray), KAxis(rect.plane));
  }

  /**
   * `bounding_box`: always succeeds; the first argument of `AABB::new`, hence the `maximum` field, holds the low
   * corner `(a0, b0, k - 0.0001)` and the `minimum` field holds the high corner `(a1, b1, k + 0.0001)`.
   */
  function BoundingBox(rect: AaRect, time0: real, time1: real): (box: Aabb)
    ensures box.maximum == Place(rect.plane, rect.a0, rect.b0, rect.k - 0.0001)
    ensures box.minimum == Place(rect.plane, rect.a1, rect.b1, rect.k + 0.0001)
    ensures E(box.Max(), KAxis(rect.plane)) < E(box.Min(), KAxis(rect.plane))
  {
    Aabbs.New(Place(rect.plane, rect.a0, rect.b0, rect.k - 0.0001), Place(rect.plane, rect.a1, rect.b1, rect.k + 0.0001))
  }

  /** As written, the box is inverted on the rectangle's own axis, so no ray is ever inside it. */
  lemma BoundingBoxNeverInside(rect: AaRect, time0: real, time1: real, ray: Ray, t: real)
    ensures !InsideBox(BoundingBox(rect, time0, time1), ray, t)
  {
    var box := BoundingBox(rect, time0, time1);
    assert !InsideAxisAt(box, ray, KAxis(rect.plane), t);
  }

  /** The box `XYRect::bounding_box` evidently means: the high corner `(a1, b1, k + 0.0001)` in the `maximum` field. */
  function OrientedBoundingBox(rect: AaRect): (box: Aabb)
    ensures box.maximum == Place(rect.plane, rect.a1, rect.b1, rect.k + 0.0001)
    ensures box.minimum == Place(rect.plane, rect.a0, rect.b0, rect.k - 0.0001)
  {
    Aabbs.New(Place(rect.plane, rect.a1, rect.b1, rect.k + 0.0001), Place(rect.plane, rect.a0, rect.b0, rect.k - 0.0001))
  }

  /**
   * A ray that meets the rectangle's plane strictly inside both ranges, inside the window, passes the three-axis test
   * of the oriented box.
   */
  lemma OrientedBoxHitThroughRect(rect: AaRect, ray: Ray, tMax: real, tMin: real, t: real)
    requires Oblique(ray) && tMin < t < tMax && E(ray.At(t), KAxis(rect.plane)) == rect.k
    requires rect.a0 < E(ray.At(t), AAxis(rect.plane)) < rect.a1 && rect.b0 < E(ray.At(t), BAxis(rect.plane)) < rect.b1
    ensures Slabs(OrientedBoundingBox(rect), ray, tMax, tMin)
  {
    var box := OrientedBoundingBox(rect);
    assert InsideAxisAt(box, ray, AAxis(rect.plane), t);
    assert InsideAxisAt(box, ray, BAxis(rect.plane), t);
    assert InsideAxisAt(box, ray, KAxis(rect.plane), t);
    AxesDistinct(rect.plane);
    assert InsideBox(box, ray, t);
    SlabsComplete(box, ray, tMax, tMin, t);
  }

  /** The box does not depend on the two times. */
  lemma BoundingBoxIgnoresTimes(rect: AaRect, time0: real, time1: real, time0': real, time1': real)
    ensures BoundingBox(rect, time0, time1) == BoundingBox(rect, time0', time1')
  {
  }
}
