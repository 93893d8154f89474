/** `HitRecord` (src/hittable.rs): what a successful `hit` writes. */
module HitRecords {
  import opened Wrappers
  import opened Vectors
  import opened Rays
  import opened Materials

  datatype HitRecord = HitRecord(point: Point3, normal: Vec3, t: real, u: real, v: real, frontFace: bool,
                                 material: Option<Material>)

  /** `HitRecord::empty()`. */
  function Empty(): (r: HitRecord)
    ensures r.point == Vec3(0.0, 0.0, 0.0) && r.normal == Vec3(0.0, 0.0, 0.0)
    ensures r.t == 0.0 && r.u == 0.0 && r.v == 0.0
    ensures !r.frontFace && r.material.None?
  {
    HitRecord(Vectors.New(None, None, None), Vectors.New(None, None, None), 0.0, 0.0, 0.0, false, None)
  }

  /**
   * `set_face_normal`: the face is a front face exactly when the ray runs against the outward normal, and the stored
   * normal then always points against the ray. No other field changes.
   */
  function SetFaceNormal(rec: HitRecord, ray: Ray, outwardNormal: Vec3): (r: HitRecord)
    ensures r.frontFace <==> Dot(ray.Direction(), outwardNormal) < 0.0
    ensures r.normal == outwardNormal || r.normal == Neg(outwardNormal)
    ensures r.frontFace ==> r.normal == outwardNormal
    ensures !r.frontFace ==> r.normal == Neg(outwardNormal)
    ensures Dot(ray.Direction(), r.normal) <= 0.0
    ensures r == rec.(frontFace := r.frontFace, normal := r.normal)
  {
    var frontFace := Dot(ray.Direction(), outwardNormal) < 0.0;
    rec.(frontFace := frontFace, normal := if frontFace then outwardNormal else Neg(outwardNormal))
  }
}

/** `Sphere` (src/hittable.rs): the quadratic root selection shared with the moving sphere, and the sphere itself. */
module Spheres {
  import opened Wrappers
  import opened Vectors
  import opened Rays
  import opened Weekend
  import opened Materials
  import opened HitRecords
  import opened Aabbs

  datatype Sphere = Sphere(center: Point3, radius: real, material: Material)

  /** `Sphere::new(center, radius, material_ptr)`. */
  function New(center: Point3, radius: real, material: Material): (s: Sphere)
    ensures s.center == center && s.radius == radius && s.material == material
  {
    Sphere(center, radius, material)
  }

  /** The coefficients `hit` computes for a sphere centred at `center`: `a`, `half_b`, `c` and the discriminant. */
  datatype Quadratic = Quadratic(a: real, halfB: real, c: real, discriminant: real)

  function QuadraticFor(center: Point3, radius: real, ray: Ray): (q: Quadratic)
    ensures q.a == LenSquared(ray.Direction())
    ensures q.discriminant == q.halfB * q.halfB - q.a * q.c
    ensures q.halfB == Dot(Sub(ray.Origin(), center), ray.Direction())
    ensures q.c == LenSquared(Sub(ray.Origin(), center)) - radius * radius
  {
    var oc := Sub(ray.Origin(), center);
    var a := LenSquared(ray.Direction());
    var halfB := Dot(oc, ray.Direction());
    var c := LenSquared(oc) - radius * radius;
    Quadratic(a, halfB, c, halfB * halfB - a * c)
  }

  function NearRoot(halfB: real, a: real, sqrtd: real): real
    requires a != 0.0
  {
    (-halfB - sqrtd) / a
  }

  function FarRoot(halfB: real, a: real, sqrtd: real): real
    requires a != 0.0
  {
    (-halfB + sqrtd) / a
  }

  predicate InWindow(root: real, tMin: real, tMax: real) {
    !(root < tMin || tMax < root)
  }

  /**
   * The root selection of `hit`: the root `(-half_b - sqrtd) / a` if it lies in `[t_min, t_max]`, else the root
   * `(-half_b + sqrtd) / a` if that one does, else none.
   */
  function SelectRoot(halfB: real, a: real, sqrtd: real, tMin: real, tMax: real): (r: Option<real>)
    requires a != 0.0
    ensures r.Some? ==> tMin <= r.value <= tMax
    ensures InWindow(NearRoot(halfB, a, sqrtd), tMin, tMax) ==> r == Some(NearRoot(halfB, a, sqrtd))
    ensures !InWindow(NearRoot(halfB, a, sqrtd), tMin, tMax) && InWindow(FarRoot(halfB, a, sqrtd), tMin, tMax) ==>
              r == Some(FarRoot(halfB, a, sqrtd))
    ensures r.None? <==> !InWindow(NearRoot(halfB, a, sqrtd), tMin, tMax) &&
                         !InWindow(FarRoot(halfB, a, sqrtd), tMin, tMax)
  {
    var root := NearRoot(halfB, a, sqrtd);
    if root < tMin || tMax < root then
      var root := FarRoot(halfB, a, sqrtd);
      if root < tMin || tMax < root then None else Some(root)
    else Some(root)
  }

  /** With `a > 0` and a nonnegative square root, the selected root is the nearest root in the window. */
  lemma SelectRootNearest(halfB: real, a: real, sqrtd: real, tMin: real, tMax: real)
    requires a > 0.0 && sqrtd >= 0.0
    ensures NearRoot(halfB, a, sqrtd) <= FarRoot(halfB, a, sqrtd)
    ensures var r := SelectRoot(halfB, a, sqrtd, tMin, tMax);
            r.Some? ==> forall root ::
                          (root in {NearRoot(halfB, a, sqrtd), FarRoot(halfB, a, sqrtd)} && InWindow(root, tMin, tMax))
                          ==> r.value <= root
  {
    var n, f := NearRoot(halfB, a, sqrtd), FarRoot(halfB, a, sqrtd);
    assert n * a == -halfB - sqrtd && f * a == -halfB + sqrtd;
    assert (f - n) * a == 2.0 * sqrtd;
  }

  /**
   * Narrowing the window to `[t_min, t_max']` keeps the selected root when it still fits and loses the hit
   * otherwise: the selection behaves as "the nearest root in the window".
   */
  lemma SelectRootNarrowing(halfB: real, a: real, sqrtd: real, tMin: real, tMax: real, tMax': real)
    requires a > 0.0 && sqrtd >= 0.0 && tMax' <= tMax
    ensures var wide, narrow := SelectRoot(halfB, a, sqrtd, tMin, tMax), SelectRoot(halfB, a, sqrtd, tMin, tMax');
            narrow.Some? <==> wide.Some? && wide.value <= tMax'
    ensures var wide, narrow := SelectRoot(halfB, a, sqrtd, tMin, tMax), SelectRoot(halfB, a, sqrtd, tMin, tMax');
            narrow.Some? ==> narrow == wide
  {
    SelectRootNearest(halfB, a, sqrtd, tMin, tMax);
  }

  /** `t` solves `a t^2 + 2 half_b t + c = 0`. */
  predicate Solves(q: Quadratic, t: real) {
    q.a * t * t + 2.0 * q.halfB * t + q.c == 0.0
  }

  /** Both candidate roots solve `a t^2 + 2 half_b t + c = 0` when `sqrtd` squares to the discriminant. */
  lemma RootSolvesQuadratic(q: Quadratic, sqrtd: real, root: real)
    requires q.a != 0.0 && q.discriminant == q.halfB * q.halfB - q.a * q.c && sqrtd * sqrtd == q.discriminant
    requires root == NearRoot(q.halfB, q.a, sqrtd) || root == FarRoot(q.halfB, q.a, sqrtd)
    ensures Solves(q, root)
  {
    var a, h, c, ar := q.a, q.halfB, q.c, q.a * root;
    assert ar == -h - sqrtd || ar == -h + sqrtd;
    assert ar * ar + 2.0 * h * ar + a * c == 0.0;
    assert a * (a * root * root + 2.0 * h * root + c) == ar * ar + 2.0 * h * ar + a * c;
  }

  /** `get_sphere_uv(p)`: `u` from the angle around the y axis, `v` from the angle down from the pole. */
  function SphereUv(p: Point3, libm: Libm): (uv: (real, real))
    ensures 0.0 <= libm.acos(-p.y) <= PI && -PI <= libm.atan2(-p.z, p.x) <= PI ==>
              0.0 <= uv.0 <= 1.0 && 0.0 <= uv.1 <= 1.0
  {
    var theta := libm.acos(-p.y);
    var phi := libm.atan2(-p.z, p.x) + PI;
    (phi / (2.0 * PI), theta / PI)
  }

  /** The documented sample point `<1 0 0>` maps to `<0.50 0.50>` given the standard `acos(0)` and `atan2(0, 1)`. */
  lemma SphereUvOnPositiveX(libm: Libm)
    requires libm.acos(0.0) == PI / 2.0 && libm.atan2(0.0, 1.0) == 0.0
    ensures SphereUv(Vec3(1.0, 0.0, 0.0), libm) == (0.5, 0.5)
  {
  }

  /** The divisions `hit` performs are defined: the direction is not zero and the radius is not zero. */
  predicate HitDefined(s: Sphere, ray: Ray) {
    LenSquared(ray.Direction()) != 0.0 && s.radius != 0.0
  }

  /**
   * `Sphere::hit`: no hit when the discriminant is negative or no root lies in `[t_min, t_max]`, and then the record
   * is left as it was; otherwise every field of the record is written.
   */
  function Hit(s: Sphere, ray: Ray, tMin: real, tMax: real, rec: HitRecord, libm: Libm): (res: (bool, HitRecord))
    requires HitDefined(s, ray)
    ensures !res.0 ==> res.1 == rec
    ensures res.0 ==> tMin <= res.1.t <= tMax
    ensures var q := QuadraticFor(s.center, s.radius, ray);
            res.0 <==> q.discriminant >= 0.0 && SelectRoot(q.halfB, q.a, libm.sqrt(q.discriminant), tMin, tMax).Some?
    ensures var q := QuadraticFor(s.center, s.radius, ray);
            res.0 ==> res.1.t == SelectRoot(q.halfB, q.a, libm.sqrt(q.discriminant), tMin, tMax).value
    ensures res.0 ==> res.1.point == ray.At(res.1.t) && res.1.material == Some(s.material)
    ensures res.0 ==> Dot(ray.Direction(), res.1.normal) <= 0.0
  {
    var q := QuadraticFor(s.center, s.radius, ray);
    if q.discriminant < 0.0 then (false, rec)
    else
      match SelectRoot(q.halfB, q.a, libm.sqrt(q.discriminant), tMin, tMax)
      case None => (false, rec)
      case Some(root) =>
        var r := rec.(t := root);
        var r := r.(point := ray.At(r.t));
        var outwardNormal := Div(Sub(r.point, s.center), s.radius);
        var r := SetFaceNormal(r, ray, outwardNormal);
        var uv := SphereUv(outwardNormal, libm);
        var r := r.(u := uv.0, v := uv.1);
        (true, r.(material := Some(s.material)))
  }

  /** A successful `hit` does not depend on what the record held before. */
  lemma HitOverwritesRecord(s: Sphere, ray: Ray, tMin: real, tMax: real, rec: HitRecord, rec': HitRecord, libm: Libm)
    requires HitDefined(s, ray)
    ensures Hit(s, ray, tMin, tMax, rec, libm).0 == Hit(s, ray, tMin, tMax, rec', libm).0
    ensures Hit(s, ray, tMin, tMax, rec, libm).0 ==> Hit(s, ray, tMin, tMax, rec, libm).1 == Hit(s, ray, tMin, tMax, rec', libm).1
  {
  }

  /** A sphere hit in a narrower window is the hit of the wider window, when that one still fits. */
  lemma HitNarrowing(s: Sphere, ray: Ray, tMin: real, tMax: real, tMax': real, rec: HitRecord, libm: Libm)
    requires HitDefined(s, ray) && SqrtNonnegative(libm) && tMax' <= tMax
    ensures var wide, narrow := Hit(s, ray, tMin, tMax, rec, libm), Hit(s, ray, tMin, tMax', rec, libm);
            (narrow.0 <==> wide.0 && wide.1.t <= tMax') && (narrow.0 ==> narrow.1 == wide.1)
  {
    var q := QuadraticFor(s.center, s.radius, ray);
    if q.discriminant >= 0.0 {
      SelectRootNarrowing(q.halfB, q.a, libm.sqrt(q.discriminant), tMin, tMax, tMax');
    }
  }

  /** `|oc + t d|^2 = |oc|^2 + 2 t (oc . d) + t^2 |d|^2`. */
  lemma LenSquaredAlong(oc: Vec3, d: Vec3, t: real)
    ensures LenSquared(Add(oc, Scale(d, t))) == LenSquared(oc) + 2.0 * t * Dot(oc, d) + t * t * LenSquared(d)
  {
    LenSquaredOfSum(oc, Scale(d, t));
    LenSquaredOfScale(d, t);
    DotScaleRight(oc, d, t);
  }

  /** A solution of the ray's quadratic is a parameter at which the ray is on the sphere. */
  lemma RootOnSurface(s: Sphere, ray: Ray, q: Quadratic, t: real)
    requires q == QuadraticFor(s.center, s.radius, ray)
    requires Solves(q, t)
    ensures LenSquared(Sub(ray.At(t), s.center)) == s.radius * s.radius
  {
    var oc, d := Sub(ray.Origin(), s.center), ray.Direction();
    SurfaceAlgebra(q, LenSquared(d), Dot(oc, d), LenSquared(oc), s.radius, t);
    PointAlong(ray, s.center, t);
    LenSquaredAlong(oc, d, t);
  }

  /** `sqrt(x)` squares back to `x`: exact for perfect squares, an idealisation of IEEE rounding otherwise. */
  predicate SqrtExactAt(libm: Libm, x: real) {
    libm.sqrt(x) * libm.sqrt(x) == x
  }

  /** When `sqrt` squares back to the discriminant, either candidate root puts the ray on the sphere. */
  lemma CandidateOnSurface(s: Sphere, ray: Ray, libm: Libm, t: real)
    requires HitDefined(s, ray) && SqrtExactAt(libm, QuadraticFor(s.center, s.radius, ray).discriminant)
    requires var q := QuadraticFor(s.center, s.radius, ray);
             t == NearRoot(q.halfB, q.a, libm.sqrt(q.discriminant)) || t == FarRoot(q.halfB, q.a, libm.sqrt(q.discriminant))
    ensures LenSquared(Sub(ray.At(t), s.center)) == s.radius * s.radius
  {
    var q := QuadraticFor(s.center, s.radius, ray);
    var sqrtd := libm.sqrt(q.discriminant);
    assert sqrtd * sqrtd == q.discriminant;
    RootSolvesQuadratic(q, sqrtd, t);
    RootOnSurface(s, ray, q, t);
  }

  /** When `sqrt` squares back to the discriminant, the recorded point lies on the sphere. */
  lemma HitOnSurface(s: Sphere, ray: Ray, tMin: real, tMax: real, rec: HitRecord, libm: Libm)
    requires HitDefined(s, ray) && Hit(s, ray, tMin, tMax, rec, libm).0
    requires SqrtExactAt(libm, QuadraticFor(s.center, s.radius, ray).discriminant)
    ensures LenSquared(Sub(Hit(s, ray, tMin, tMax, rec, libm).1.point, s.center)) == s.radius * s.radius
  {
    var res := Hit(s, ray, tMin, tMax, rec, libm);
    CandidateOnSurface(s, ray, libm, res.1.t);
  }

  /** The offset of `ray.at(t)` from a center is the origin's offset plus `t` times the direction. */
  lemma PointAlong(ray: Ray, center: Point3, t: real)
    ensures Sub(ray.At(t), center) == Add(Sub(ray.Origin(), center), Scale(ray.Direction(), t))
  {
  }

  /** At a root of `a t^2 + 2 h t + (l - r^2)`, the expansion `l + 2 t h + t^2 a` of `|oc + t d|^2` equals `r^2`. */
  lemma SurfaceAlgebra(q: Quadratic, a: real, h: real, l: real, r: real, t: real)
    requires Solves(q, t)
    requires q.a == a && q.halfB == h && q.c == l - r * r
    ensures l + 2.0 * t * h + t * t * a == r * r
  {
    assert q.a * t * t == t * t * a && 2.0 * q.halfB * t == 2.0 * t * h;
  }

  /**
   * `Sphere::bounding_box`: always succeeds; `AABB::new` receives `center - r` first, so the `maximum` field holds the
   * low corner and the `minimum` field the high corner.
   */
  function BoundingBox(s: Sphere, time0: real, time1: real): (box: Aabb)
    ensures box.maximum == Sub(s.center, Vec3(s.radius, s.radius, s.radius))
    ensures box.minimum == Add(s.center, Vec3(s.radius, s.radius, s.radius))
  {
    Aabbs.New(Sub(s.center, Vec3(s.radius, s.radius, s.radius)), Add(s.center, Vec3(s.radius, s.radius, s.radius)))
  }

  /** The box `Sphere::bounding_box` evidently means, with the high corner `center + r` in the `maximum` field. */
  function OrientedBoundingBox(s: Sphere): (box: Aabb)
    ensures s.radius > 0.0 ==> forall i :: 0 <= i < 3 ==> E(box.Min(), i) < E(s.center, i) < E(box.Max(), i)
  {
    Aabbs.New(Add(s.center, Vec3(s.radius, s.radius, s.radius)), Sub(s.center, Vec3(s.radius, s.radius, s.radius)))
  }

  /** A ray that passes through the centre inside the window passes the three-axis test of the oriented box. */
  lemma OrientedBoxHitThroughCentre(s: Sphere, ray: Ray, tMax: real, tMin: real, t: real)
    requires s.radius > 0.0 && Oblique(ray) && tMin < t < tMax && ray.At(t) == s.center
    ensures Slabs(OrientedBoundingBox(s), ray, tMax, tMin)
  {
    var box := OrientedBoundingBox(s);
    assert E(box.Min(), 0) < E(s.center, 0) < E(box.Max(), 0);
    assert E(box.Min(), 1) < E(s.center, 1) < E(box.Max(), 1);
    assert E(box.Min(), 2) < E(s.center, 2) < E(box.Max(), 2);
    assert InsideBox(box, ray, t);
    SlabsComplete(box, ray, tMax, tMin, t);
  }

  /** For a nonnegative radius the box's fields are inverted, so its x-slab test never succeeds. */
  lemma BoundingBoxNeverHit(s: Sphere, time0: real, time1: real, ray: Ray, tMax: real, tMin: real)
    requires s.radius >= 0.0 && ray.dir.x != 0.0
    ensures !SlabX(BoundingBox(s, time0, time1), ray, tMax, tMin)
  {
  }
}

/**
 * Every `Hittable` of the renderer as one datatype: the primitives, a `Block` (src/block.rs), a `HittableList` and a
 * `BvhNode` (src/bvh.rs). `hit` threads one record through the search; a `bounding_box` call writes one box.
 */
module Hittables {
  import opened Wrappers
  import opened Vectors
  import opened Rays
  import opened Weekend
  import opened HitRecords
  import opened Aabbs
  import opened Spheres
  import opened MovingSpheres
  import opened Rects

  datatype Hittable =
    | SphereObject(sphere: Sphere)
    | MovingSphereObject(movingSphere: MovingSphere)
    | RectObject(rect: AaRect)
    | Block(boxMin: Point3, boxMax: Point3, sides: seq<Hittable>)
    | List(objects: seq<Hittable>)
    | BvhNode(left: Hittable, right: Hittable, bbox: Aabb)

  /** Every division a `hit` on `h` may perform is defined for this ray. */
  predicate Defined(h: Hittable, ray: Ray) {
    match h
    case SphereObject(s) => Spheres.HitDefined(s, ray)
    case MovingSphereObject(m) => MovingSpheres.HitDefined(m, ray)
    case RectObject(r) => Rects.HitDefined(r, ray)
    case Block(_, _, sides) => forall i :: 0 <= i < |sides| ==> Defined(sides[i], ray)
    case List(objects) => forall i :: 0 <= i < |objects| ==> Defined(objects[i], ray)
    case BvhNode(left, right, _) => ray.dir.x != 0.0 && Defined(left, ray) && Defined(right, ray)
  }

  predicate AllDefined(objs: seq<Hittable>, ray: Ray) {
    forall i :: 0 <= i < |objs| ==> Defined(objs[i], ray)
  }

  /** The variables of `HittableList::hit`'s loop. */
  datatype ScanState = ScanState(hitAnything: bool, closest: real, temp: HitRecord, out: HitRecord)

  /** What the loop keeps true: after a success the output is the scratch record and the window ends at its `t`. */
  predicate ScanInvariant(st: ScanState, tMin: real) {
    st.hitAnything ==> st.out == st.temp && st.closest == st.temp.t && tMin <= st.closest
  }

  /**
   * `hit(ray, t_min, t_max, hit_record)`: on failure the record is left as it was, and on success the recorded
   * parameter lies in `[t_min, t_max]`.
   */
  function Hit(h: Hittable, ray: Ray, tMin: real, tMax: real, rec: HitRecord, libm: Libm): (res: (bool, HitRecord))
    requires Defined(h, ray)
    ensures !res.0 ==> res.1 == rec
    ensures res.0 ==> tMin <= res.1.t <= tMax
    decreases h, 1
  {
    match h
    case SphereObject(s) => Spheres.Hit(s, ray, tMin, tMax, rec, libm)
    case MovingSphereObject(m) => MovingSpheres.Hit(m, ray, tMin, tMax, rec, libm)
    case RectObject(r) => Rects.Hit(r, ray, tMin, tMax, rec)
    case Block(_, _, sides) => ListHit(sides, ray, tMin, tMax, rec, libm)
    case List(objects) => ListHit(objects, ray, tMin, tMax, rec, libm)
    case BvhNode(left, right, bbox) =>
      // `self.bbox.hit(ray, t_min, t_max)` binds `t_min` to the box test's `t_max` slot and `t_max` to `t_min`.
      if !SlabX(bbox, ray, tMin, tMax) then (false, rec)
      else
        var (hitLeft, afterLeft) := Hit(left, ray, tMin, tMax, rec, libm);
        var (hitRight, afterRight) := Hit(right, ray, tMin, if hitLeft then afterLeft.t else tMax, afterLeft, libm);
        (hitLeft || hitRight, afterRight)
  }

  /** `HittableList::hit`: scan every object with a window that closes to the nearest hit found so far. */
  function ListHit(objs: seq<Hittable>, ray: Ray, tMin: real, tMax: real, rec: HitRecord, libm: Libm)
    : (res: (bool, HitRecord))
    requires AllDefined(objs, ray)
    ensures !res.0 ==> res.1 == rec
    ensures res.0 ==> tMin <= res.1.t <= tMax
    decreases objs, 1
  {
    var st := Scan(objs, ray, tMin, ScanState(false, tMax, Empty(), rec), libm);
    (st.hitAnything, st.out)
  }

  /** One pass of the loop per object, front to back. */
  function Scan(objs: seq<Hittable>, ray: Ray, tMin: real, st: ScanState, libm: Libm): (r: ScanState)
    requires AllDefined(objs, ray)
    ensures r.closest <= st.closest
    ensures st.hitAnything ==> r.hitAnything
    ensures !r.hitAnything ==> r == st
    ensures ScanInvariant(st, tMin) ==> ScanInvariant(r, tMin)
    decreases objs, 0
  {
    if |objs| == 0 then st
    else
      var (ok, temp) := Hit(objs[0], ray, tMin, st.closest, st.temp, libm);
      var next := if ok then ScanState(true, temp.t, temp, temp) else st.(temp := temp);
      Scan(objs[1..], ray, tMin, next, libm)
  }

  /** Every box a `bounding_box` on `h` may compute is defined. */
  predicate BoxDefined(h: Hittable) {
    match h
    case MovingSphereObject(m) => m.time1 != m.time0
    case List(objects) => forall i :: 0 <= i < |objects| ==> BoxDefined(objects[i])
    case _ => true
  }

  predicate AllBoxDefined(objs: seq<Hittable>) {
    forall i :: 0 <= i < |objs| ==> BoxDefined(objs[i])
  }

  /**
   * `bounding_box(time0, time1, output_box)`: whether a box exists, and the output box afterwards. Only a list can
   * fail; an empty list fails without writing.
   */
  function BoundingBox(h: Hittable, time0: real, time1: real, out: Aabb): (res: (bool, Aabb))
    requires BoxDefined(h)
    ensures !h.List? ==> res.0
    ensures h.List? && |h.objects| == 0 ==> res == (false, out)
    decreases h, 1
  {
    match h
    case SphereObject(s) => (true, Spheres.BoundingBox(s, time0, time1))
    case MovingSphereObject(m) => (true, MovingSpheres.BoundingBox(m, time0, time1))
    case RectObject(r) => (true, Rects.BoundingBox(r, time0, time1))
    case Block(boxMin, boxMax, _) => (true, Aabbs.New(boxMax, boxMin))
    case List(objects) =>
      if |objects| == 0 then (false, out) else FoldBoxes(objects, time0, time1, ZeroBox(), true, out)
    case BvhNode(_, _, bbox) => (true, bbox)
  }

  /** The loop of `HittableList::bounding_box`: stop at the first child without a box, else widen the output. */
  function FoldBoxes(objs: seq<Hittable>, time0: real, time1: real, temp: Aabb, first: bool, out: Aabb)
    : (res: (bool, Aabb))
    requires AllBoxDefined(objs)
    decreases objs, 0
  {
    if |objs| == 0 then (true, out)
    else
      var (ok, tempBox) := BoundingBox(objs[0], time0, time1, temp);
      if !ok then (false, out)
      else FoldBoxes(objs[1..], time0, time1, tempBox, false, if first then tempBox else SurroundingBox(out, tempBox))
  }

  /** Whether a hit succeeds, and at which `t`, does not depend on the record passed in. */
  lemma {:induction false} HitIgnoresRecord(h: Hittable, ray: Ray, tMin: real, tMax: real, rec: HitRecord,
                                            rec': HitRecord, libm: Libm)
    requires Defined(h, ray)
    ensures Hit(h, ray, tMin, tMax, rec, libm).0 == Hit(h, ray, tMin, tMax, rec', libm).0
    ensures Hit(h, ray, tMin, tMax, rec, libm).0 ==>
              Hit(h, ray, tMin, tMax, rec, libm).1.t == Hit(h, ray, tMin, tMax, rec', libm).1.t
    decreases h
  {
    match h
    case SphereObject(s) => HitOverwritesRecord(s, ray, tMin, tMax, rec, rec', libm);
    case MovingSphereObject(m) => HitIsStillSphereHit(m, ray, tMin, tMax, rec, rec', libm);
    case RectObject(r) =>
    case Block(_, _, sides) => ScanIgnoresOut(sides, ray, tMin, ScanState(false, tMax, Empty(), rec), rec', libm);
    case List(objects) => ScanIgnoresOut(objects, ray, tMin, ScanState(false, tMax, Empty(), rec), rec', libm);
    case BvhNode(left, right, bbox) =>
      if SlabX(bbox, ray, tMin, tMax) {
        HitIgnoresRecord(left, ray, tMin, tMax, rec, rec', libm);
        var (hitLeft, afterLeft) := Hit(left, ray, tMin, tMax, rec, libm);
        var (_, afterLeft') := Hit(left, ray, tMin, tMax, rec', libm);
        HitIgnoresRecord(right, ray, tMin, if hitLeft then afterLeft.t else tMax, afterLeft, afterLeft', libm);
      }
  }

  /** The caller's record only matters to a list scan until its first success. */
  lemma {:induction false} ScanIgnoresOut(objs: seq<Hittable>, ray: Ray, tMin: real, st: ScanState, out': HitRecord,
                                          libm: Libm)
    requires AllDefined(objs, ray)
    ensures var r, r' := Scan(objs, ray, tMin, st, libm), Scan(objs, ray, tMin, st.(out := out'), libm);
            r.hitAnything == r'.hitAnything && r.closest == r'.closest && r.temp == r'.temp &&
            (r.hitAnything && !st.hitAnything ==> r.out == r'.out)
    decreases objs
  {
    if |objs| > 0 {
      var (ok, temp) := Hit(objs[0], ray, tMin, st.closest, st.temp, libm);
      if !ok {
        ScanIgnoresOut(objs[1..], ray, tMin, st.(temp := temp), out', libm);
        assert st.(temp := temp).(out := out') == st.(out := out').(temp := temp);
      }
    }
  }

  /** Scanning from the initial state finds a hit exactly when some object is hit in the full window. */
  lemma {:induction false} ScanFindsAnyHit(objs: seq<Hittable>, ray: Ray, tMin: real, tMax: real, out: HitRecord,
                                           libm: Libm)
    requires AllDefined(objs, ray)
    ensures Scan(objs, ray, tMin, ScanState(false, tMax, Empty(), out), libm).hitAnything <==>
            exists i :: 0 <= i < |objs| && Hit(objs[i], ray, tMin, tMax, Empty(), libm).0
    decreases objs
  {
    if |objs| > 0 {
      var (ok, temp) := Hit(objs[0], ray, tMin, tMax, Empty(), libm);
      if !ok {
        ScanFindsAnyHit(objs[1..], ray, tMin, tMax, out, libm);
        if exists i :: 0 <= i < |objs| && Hit(objs[i], ray, tMin, tMax, Empty(), libm).0 {
          var i :| 0 <= i < |objs| && Hit(objs[i], ray, tMin, tMax, Empty(), libm).0;
          assert objs[1..][i - 1] == objs[i];
        }
      }
    }
  }

  /** `HittableList::hit` returns true exactly when some object of the list is hit in `[t_min, t_max]`. */
  lemma ListHitIff(objs: seq<Hittable>, ray: Ray, tMin: real, tMax: real, rec: HitRecord, libm: Libm)
    requires AllDefined(objs, ray)
    ensures ListHit(objs, ray, tMin, tMax, rec, libm).0 <==>
            exists i :: 0 <= i < |objs| && Hit(objs[i], ray, tMin, tMax, rec, libm).0
  {
    ScanFindsAnyHit(objs, ray, tMin, tMax, rec, libm);
    forall i | 0 <= i < |objs|
      ensures Hit(objs[i], ray, tMin, tMax, rec, libm).0 == Hit(objs[i], ray, tMin, tMax, Empty(), libm).0
    {
      HitIgnoresRecord(objs[i], ray, tMin, tMax, rec, Empty(), libm);
    }
  }

  /**
   * A BVH node is never hit. With `t_min <= t_max` the swapped bounds make its box test fail; otherwise the window
   * is empty and neither child can be hit.
   */
  lemma BvhNodeNeverHits(left: Hittable, right: Hittable, bbox: Aabb, ray: Ray, tMin: real, tMax: real,
                         rec: HitRecord, libm: Libm)
    requires Defined(BvhNode(left, right, bbox), ray)
    ensures Hit(BvhNode(left, right, bbox), ray, tMin, tMax, rec, libm) == (false, rec)
  {
    if tMin <= tMax {
      SlabXEmptyWindow(bbox, ray, tMin, tMax);
    }
  }

  /**
   * The search below a node whose box test passed: the left child over the whole window, then the right child,
   * handed the record the left child left, up to the left hit's `t` if there was one.
   */
  function Descend(left: Hittable, right: Hittable, ray: Ray, tMin: real, tMax: real, rec: HitRecord, libm: Libm)
    : (res: (bool, HitRecord))
    requires Defined(left, ray) && Defined(right, ray)
    ensures !res.0 ==> res.1 == rec
    ensures res.0 ==> tMin <= res.1.t <= tMax
  {
    var (hitLeft, afterLeft) := Hit(left, ray, tMin, tMax, rec, libm);
    var (hitRight, afterRight) := Hit(right, ray, tMin, if hitLeft then afterLeft.t else tMax, afterLeft, libm);
    (hitLeft || hitRight, afterRight)
  }

  /**
   * `BvhNode::hit` as written: when the box test, called with `(t_min, t_max)` in its `(t_max, t_min)` slots, fails
   * the node fails without writing; otherwise the result is the left-then-right search below the node.
   */
  lemma NodeHitThreads(left: Hittable, right: Hittable, bbox: Aabb, ray: Ray, tMin: real, tMax: real, rec: HitRecord,
                       libm: Libm)
    requires Defined(BvhNode(left, right, bbox), ray)
    ensures !SlabX(bbox, ray, tMin, tMax) ==> Hit(BvhNode(left, right, bbox), ray, tMin, tMax, rec, libm) == (false, rec)
    ensures SlabX(bbox, ray, tMin, tMax) ==>
              Hit(BvhNode(left, right, bbox), ray, tMin, tMax, rec, libm) == Descend(left, right, ray, tMin, tMax, rec, libm)
  {
  }

  /**
   * `BvhNode::hit` as evidently intended: the box test receives `t_max` in its `t_max` slot and `t_min` in its
   * `t_min` slot, and tests the slab of each axis in turn.
   */
  function NodeHitOrdered(left: Hittable, right: Hittable, bbox: Aabb, ray: Ray, tMin: real, tMax: real,
                          rec: HitRecord, libm: Libm): (res: (bool, HitRecord))
    requires Oblique(ray) && Defined(left, ray) && Defined(right, ray)
    ensures !Slabs(bbox, ray, tMax, tMin) ==> res == (false, rec)
    ensures !res.0 ==> res.1 == rec
    ensures res.0 ==> tMin <= res.1.t <= tMax
  {
    if !Slabs(bbox, ray, tMax, tMin) then (false, rec) else Descend(left, right, ray, tMin, tMax, rec, libm)
  }

  /**
   * Once its box is hit, the intended node answers as a list of its two children would: hit exactly when a child
   * is hit in the window, and at the same `t` as the list.
   */
  lemma NodeHitOrderedIsListHit(left: Hittable, right: Hittable, bbox: Aabb, ray: Ray, tMin: real, tMax: real,
                                rec: HitRecord, libm: Libm)
    requires Oblique(ray) && Defined(left, ray) && Defined(right, ray) && Slabs(bbox, ray, tMax, tMin)
    ensures var node, list := NodeHitOrdered(left, right, bbox, ray, tMin, tMax, rec, libm),
                              ListHit([left, right], ray, tMin, tMax, rec, libm);
            node.0 == list.0 && (node.0 ==> node.1.t == list.1.t)
    ensures NodeHitOrdered(left, right, bbox, ray, tMin, tMax, rec, libm).0 <==>
            Hit(left, ray, tMin, tMax, rec, libm).0 || Hit(right, ray, tMin, tMax, rec, libm).0
  {
    var objs := [left, right];
    assert AllDefined(objs, ray);
    var (hitLeft, afterLeft) := Hit(left, ray, tMin, tMax, rec, libm);
    var (okL, tempL) := Hit(left, ray, tMin, tMax, Empty(), libm);
    HitIgnoresRecord(left, ray, tMin, tMax, rec, Empty(), libm);
    var st0 := ScanState(false, tMax, Empty(), rec);
    var st1 := if okL then ScanState(true, tempL.t, tempL, tempL) else st0.(temp := tempL);
    assert Scan(objs, ray, tMin, st0, libm) == Scan([right], ray, tMin, st1, libm) by {
      assert objs[1..] == [right];
    }
    var bound := if hitLeft then afterLeft.t else tMax;
    assert st1.closest == bound;
    var (okR, tempR) := Hit(right, ray, tMin, bound, st1.temp, libm);
    var st2 := if okR then ScanState(true, tempR.t, tempR, tempR) else st1.(temp := tempR);
    assert Scan([right], ray, tMin, st1, libm) == Scan([], ray, tMin, st2, libm) by {
      assert [right][1..] == [];
    }
    HitIgnoresRecord(right, ray, tMin, bound, afterLeft, st1.temp, libm);
    ListHitIff(objs, ray, tMin, tMax, rec, libm);
    if !hitLeft {
      assert bound == tMax;
    } else {
      assert Hit(right, ray, tMin, tMax, rec, libm).0 ==> hitLeft;
    }
  }

  /** The box each object reports when asked with the zero scratch box, as `box_compare` and the BVH ask. */
  function BoxOf(h: Hittable, time0: real, time1: real): (res: (bool, Aabb))
    requires BoxDefined(h)
  {
    BoundingBox(h, time0, time1, ZeroBox())
  }

  /** Whether a box exists, and which box it is when it does, does not depend on the box passed in. */
  lemma BoxIgnoresScratch(h: Hittable, time0: real, time1: real, out: Aabb, out': Aabb)
    requires BoxDefined(h)
    ensures BoundingBox(h, time0, time1, out).0 == BoundingBox(h, time0, time1, out').0
    ensures BoundingBox(h, time0, time1, out).0 ==> BoundingBox(h, time0, time1, out).1 == BoundingBox(h, time0, time1, out').1
  {
    if h.List? && |h.objects| > 0 {
      var (ok, first) := BoundingBox(h.objects[0], time0, time1, ZeroBox());
      if ok {
        assert FoldBoxes(h.objects, time0, time1, ZeroBox(), true, out) ==
               FoldBoxes(h.objects[1..], time0, time1, first, false, first);
      }
    }
  }

  function Boxes(objs: seq<Hittable>, time0: real, time1: real): (boxes: seq<Aabb>)
    requires AllBoxDefined(objs)
    ensures |boxes| == |objs|
    ensures forall i :: 0 <= i < |objs| ==> boxes[i] == BoxOf(objs[i], time0, time1).1
  {
    if |objs| == 0 then [] else [BoxOf(objs[0], time0, time1).1] + Boxes(objs[1..], time0, time1)
  }

  /** The left fold of `surrounding_box` over `boxes`, starting from `acc`. */
  function SurroundAll(acc: Aabb, boxes: seq<Aabb>): Aabb
    decreases |boxes|
  {
    if |boxes| == 0 then acc else SurroundAll(SurroundingBox(acc, boxes[0]), boxes[1..])
  }

  lemma {:induction false} FoldBoxesSpec(objs: seq<Hittable>, time0: real, time1: real, temp: Aabb, first: bool,
                                         out: Aabb)
    requires AllBoxDefined(objs)
    ensures FoldBoxes(objs, time0, time1, temp, first, out).0 <==>
            forall i :: 0 <= i < |objs| ==> BoxOf(objs[i], time0, time1).0
    ensures (forall i :: 0 <= i < |objs| ==> BoxOf(objs[i], time0, time1).0) ==>
            FoldBoxes(objs, time0, time1, temp, first, out).1 ==
              if |objs| == 0 then out
              else if first then SurroundAll(Boxes(objs, time0, time1)[0], Boxes(objs, time0, time1)[1..])
              else SurroundAll(out, Boxes(objs, time0, time1))
    decreases objs
  {
    if |objs| > 0 {
      BoxIgnoresScratch(objs[0], time0, time1, temp, ZeroBox());
      var (ok, tempBox) := BoundingBox(objs[0], time0, time1, temp);
      if ok {
        var next := if first then tempBox else SurroundingBox(out, tempBox);
        FoldBoxesSpec(objs[1..], time0, time1, tempBox, false, next);
        assert Boxes(objs[1..], time0, time1) == Boxes(objs, time0, time1)[1..];
        forall i | 0 <= i < |objs[1..]| ensures objs[1..][i] == objs[i + 1] {
        }
      }
    }
  }

  /**
   * `HittableList::bounding_box` fails for an empty list and whenever some object has no box. Otherwise it is the
   * left fold of `surrounding_box` over the objects' boxes, which for one object is that object's box.
   */
  lemma ListBoundingBox(objs: seq<Hittable>, time0: real, time1: real, out: Aabb)
    requires AllBoxDefined(objs)
    ensures |objs| == 0 ==> BoundingBox(List(objs), time0, time1, out) == (false, out)
    ensures |objs| > 0 ==> (BoundingBox(List(objs), time0, time1, out).0 <==>
                            forall i :: 0 <= i < |objs| ==> BoxOf(objs[i], time0, time1).0)
    ensures |objs| > 0 && (forall i :: 0 <= i < |objs| ==> BoxOf(objs[i], time0, time1).0) ==>
            BoundingBox(List(objs), time0, time1, out).1 ==
              SurroundAll(BoxOf(objs[0], time0, time1).1, Boxes(objs, time0, time1)[1..])
    ensures |objs| == 1 && BoxOf(objs[0], time0, time1).0 ==>
            BoundingBox(List(objs), time0, time1, out) == BoxOf(objs[0], time0, time1)
  {
    if |objs| > 0 {
      FoldBoxesSpec(objs, time0, time1, ZeroBox(), true, out);
      assert BoundingBox(List(objs), time0, time1, out) == FoldBoxes(objs, time0, time1, ZeroBox(), true, out);
      if |objs| == 1 {
        assert Boxes(objs, time0, time1)[1..] == [];
      }
    }
  }

  /**
   * Every hittable answers "the nearest hit in the window": a hit in `[t_min, t_max']` is the hit in the wider
   * `[t_min, t_max]` when its `t` is at most `t_max'`, and there is none otherwise.
   */
  lemma {:induction false} HitNarrowing(h: Hittable, ray: Ray, tMin: real, tMax: real, tMax': real, rec: HitRecord,
                                        libm: Libm)
    requires Defined(h, ray) && SqrtNonnegative(libm) && tMax' <= tMax
    ensures var wide, narrow := Hit(h, ray, tMin, tMax, rec, libm), Hit(h, ray, tMin, tMax', rec, libm);
            (narrow.0 <==> wide.0 && wide.1.t <= tMax') && (narrow.0 ==> narrow.1.t == wide.1.t)
    decreases h, 1
  {
    match h
    case SphereObject(s) => Spheres.HitNarrowing(s, ray, tMin, tMax, tMax', rec, libm);
    case MovingSphereObject(m) => MovingSpheres.HitNarrowing(m, ray, tMin, tMax, tMax', rec, libm);
    case RectObject(r) =>
    case Block(_, _, sides) => ListHitNarrowing(sides, ray, tMin, tMax, tMax', rec, libm);
    case List(objects) => ListHitNarrowing(objects, ray, tMin, tMax, tMax', rec, libm);
    case BvhNode(left, right, bbox) =>
      BvhNodeNeverHits(left, right, bbox, ray, tMin, tMax, rec, libm);
      BvhNodeNeverHits(left, right, bbox, ray, tMin, tMax', rec, libm);
  }

  lemma {:induction false} ListHitNarrowing(objs: seq<Hittable>, ray: Ray, tMin: real, tMax: real, tMax': real,
                                            rec: HitRecord, libm: Libm)
    requires AllDefined(objs, ray) && SqrtNonnegative(libm) && tMax' <= tMax
    ensures var wide, narrow := ListHit(objs, ray, tMin, tMax, rec, libm), ListHit(objs, ray, tMin, tMax', rec, libm);
            (narrow.0 <==> wide.0 && wide.1.t <= tMax') && (narrow.0 ==> narrow.1.t == wide.1.t)
    decreases objs, 1
  {
    ScanNarrowing(objs, ray, tMin, tMax', ScanState(false, tMax, Empty(), rec), ScanState(false, tMax', Empty(), rec), libm);
  }

  /** How a scan over the window ending at `tMax'` tracks one over a wider window. */
  predicate Tracks(st: ScanState, st': ScanState, tMax': real) {
    (st'.hitAnything <==> st.hitAnything && st.closest <= tMax') &&
    (st'.hitAnything ==> st'.closest == st.closest) &&
    (!st'.hitAnything ==> st'.closest == tMax' && tMax' <= st.closest)
  }

  lemma {:induction false} ScanNarrowing(objs: seq<Hittable>, ray: Ray, tMin: real, tMax': real, st: ScanState,
                                         st': ScanState, libm: Libm)
    requires AllDefined(objs, ray) && SqrtNonnegative(libm)
    requires Tracks(st, st', tMax')
    ensures Tracks(Scan(objs, ray, tMin, st, libm), Scan(objs, ray, tMin, st', libm), tMax')
    decreases objs, 0
  {
    if |objs| > 0 {
      var h := objs[0];
      HitIgnoresRecord(h, ray, tMin, st'.closest, st'.temp, st.temp, libm);
      HitNarrowing(h, ray, tMin, st.closest, st'.closest, st.temp, libm);
      var (ok, temp) := Hit(h, ray, tMin, st.closest, st.temp, libm);
      var (ok', temp') := Hit(h, ray, tMin, st'.closest, st'.temp, libm);
      var next := if ok then ScanState(true, temp.t, temp, temp) else st.(temp := temp);
      var next' := if ok' then ScanState(true, temp'.t, temp', temp') else st'.(temp := temp');
      assert Tracks(next, next', tMax');
      ScanNarrowing(objs[1..], ray, tMin, tMax', next, next', libm);
    }
  }

  /**
   * The closest-hit property of `HittableList::hit`: if some object is hit in `[t_min, t_max]`, the list is hit, at
   * a `t` no larger than that object's.
   */
  lemma ListHitNearest(objs: seq<Hittable>, ray: Ray, tMin: real, tMax: real, rec: HitRecord, j: int, libm: Libm)
    requires AllDefined(objs, ray) && SqrtNonnegative(libm)
    requires 0 <= j < |objs| && Hit(objs[j], ray, tMin, tMax, rec, libm).0
    ensures ListHit(objs, ray, tMin, tMax, rec, libm).0
    ensures ListHit(objs, ray, tMin, tMax, rec, libm).1.t <= Hit(objs[j], ray, tMin, tMax, rec, libm).1.t
  {
    HitIgnoresRecord(objs[j], ray, tMin, tMax, rec, Empty(), libm);
    ScanNearest(objs, ray, tMin, ScanState(false, tMax, Empty(), rec), j, libm);
  }

  lemma {:induction false} ScanNearest(objs: seq<Hittable>, ray: Ray, tMin: real, st: ScanState, j: int, libm: Libm)
    requires AllDefined(objs, ray) && SqrtNonnegative(libm) && ScanInvariant(st, tMin)
    requires 0 <= j < |objs| && Hit(objs[j], ray, tMin, st.closest, st.temp, libm).0
    ensures Scan(objs, ray, tMin, st, libm).hitAnything
    ensures Scan(objs, ray, tMin, st, libm).closest <= Hit(objs[j], ray, tMin, st.closest, st.temp, libm).1.t
    decreases objs
  {
    var (ok, temp) := Hit(objs[0], ray, tMin, st.closest, st.temp, libm);
    var next := if ok then ScanState(true, temp.t, temp, temp) else st.(temp := temp);
    assert Scan(objs, ray, tMin, st, libm) == Scan(objs[1..], ray, tMin, next, libm);
    if j > 0 {
      var tj := Hit(objs[j], ray, tMin, st.closest, st.temp, libm).1.t;
      HitIgnoresRecord(objs[j], ray, tMin, next.closest, next.temp, st.temp, libm);
      HitNarrowing(objs[j], ray, tMin, st.closest, next.closest, st.temp, libm);
      if tj <= next.closest {
        assert objs[1..][j - 1] == objs[j];
        ScanNearest(objs[1..], ray, tMin, next, j - 1, libm);
      }
    }
  }
}

/** `HittableList` as the mutable object scenes are built with: a vector of objects that `add` and `clear` change. */
module Lists {
  import opened Wrappers
  import opened Rays
  import opened Weekend
  import opened HitRecords
  import opened Aabbs
  import opened Hittables

  class HittableList {
    var objects: seq<Hittable>

    /** `HittableList::new(hittable)`: empty, then the given object added if there is one. */
    constructor (hittable: Option<Hittable>)
      ensures hittable.None? ==> objects == []
      ensures hittable.Some? ==> objects == [hittable.value]
    {
      objects := [];
      new;
      match hittable {
        case None =>
        case Some(h) => Add(h);
      }
    }

    /** `add`: push at the end. */
    method Add(hittable: Hittable)
      modifies this
      ensures objects == old(objects) + [hittable]
    {
      objects := objects + [hittable];
    }

    /** `clear`. */
    method Clear()
      modifies this
      ensures objects == []
    {
      objects := [];
    }

    /** The list as the value a scene holds. */
    function AsHittable(): (h: Hittable)
      reads this
      ensures h == List(objects)
    {
      List(objects)
    }

    /**
     * `HittableList::hit`: the loop over the objects with `temp`, `hit_anything` and `closest_so_far`; it computes
     * exactly the functional `hit` of the list.
     */
    method Hit(ray: Ray, tMin: real, tMax: real, rec: HitRecord, libm: Libm) returns (hitAnything: bool, out: HitRecord)
      requires AllDefined(objects, ray)
      ensures (hitAnything, out) == Hittables.Hit(List(objects), ray, tMin, tMax, rec, libm)
    {
      var temp := Empty();
      hitAnything := false;
      var closestSoFar := tMax;
      out := rec;
      for i := 0 to |objects|
        invariant Scan(objects[i..], ray, tMin, ScanState(hitAnything, closestSoFar, temp, out), libm) ==
                  Scan(objects, ray, tMin, ScanState(false, tMax, Empty(), rec), libm)
      {
        assert objects[i..][0] == objects[i] && objects[i..][1..] == objects[i + 1..];
        var (ok, newTemp) := Hittables.Hit(objects[i], ray, tMin, closestSoFar, temp, libm);
        temp := newTemp;
        if ok {
          hitAnything := true;
          closestSoFar := temp.t;
          out := temp;
        }
      }
    }

    /**
     * `HittableList::bounding_box`: false for an empty list; otherwise the loop that stops at the first object
     * without a box and widens the output box with `surrounding_box`. It computes the functional `bounding_box`.
     */
    method BoundingBox(time0: real, time1: real, outputBox: Aabb) returns (ok: bool, box: Aabb)
      requires AllBoxDefined(objects)
      ensures (ok, box) == Hittables.BoundingBox(List(objects), time0, time1, outputBox)
    {
      box := outputBox;
      if |objects| == 0 {
        return false, box;
      }
      var tempBox := ZeroBox();
      var firstBox := true;
      for i := 0 to |objects|
        invariant FoldBoxes(objects[i..], time0, time1, tempBox, firstBox, box) ==
                  FoldBoxes(objects, time0, time1, ZeroBox(), true, outputBox)
      {
        assert objects[i..][0] == objects[i] && objects[i..][1..] == objects[i + 1..];
        var (childOk, childBox) := Hittables.BoundingBox(objects[i], time0, time1, tempBox);
        if !childOk {
          return false, box;
        }
        tempBox := childBox;
        box := if firstBox then tempBox else SurroundingBox(box, tempBox);
        firstBox := false;
      }
      return true, box;
    }
  }
}
