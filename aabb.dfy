/**
 * Axis-aligned bounding boxes (src/aabb.rs), reproduced as written: `AABB::new` takes the maximum corner first,
 * `surrounding_box` passes its componentwise minimum as that first argument, and `hit` declares its bounds as
 * `(t_max, t_min)` and tests the x slab on each of its three iterations.
 */
module Aabbs {
  import opened Wrappers
  import opened Vectors
  import opened Rays

  datatype Aabb = Aabb(maximum: Point3, minimum: Point3) {

    function Max(): Point3 {
      maximum
    }

    function Min(): Point3 {
      minimum
    }
  }

  /** `AABB::new(maximum, minimum)`: the first argument becomes the `maximum` field. */
  function New(maximum: Point3, minimum: Point3): (b: Aabb)
    ensures b.Max() == maximum && b.Min() == minimum
  {
    Aabb(maximum, minimum)
  }

  /** The scratch box callers start from: `AABB::new(Vec3::new(None, None, None), Vec3::new(None, None, None))`. */
  function ZeroBox(): Aabb {
    New(Zero(), Zero())
  }

  /** `t0` and `t1` of a pass after the swap for a negative `inv_d`: where the ray enters and leaves the x-slab. */
  function SlabEntry(box: Aabb, ray: Ray): real
    requires ray.dir.x != 0.0
  {
    var invD := 1.0 / ray.dir.x;
    if invD < 0.0 then (box.Max().x - ray.orig.x) * invD else (box.Min().x - ray.orig.x) * invD
  }

  function SlabExit(box: Aabb, ray: Ray): real
    requires ray.dir.x != 0.0
  {
    var invD := 1.0 / ray.dir.x;
    if invD < 0.0 then (box.Min().x - ray.orig.x) * invD else (box.Max().x - ray.orig.x) * invD
  }

  /** The bounds one pass of `hit`'s loop leaves in `(t_min, t_max)`, always computed from the x components. */
  function SlabBounds(box: Aabb, ray: Ray, tMax: real, tMin: real): (bounds: (real, real))
    requires ray.dir.x != 0.0
  {
    var near, far := SlabEntry(box, ray), SlabExit(box, ray);
    (if near > tMin then near else tMin, if far < tMax then far else tMax)
  }

  /** A second pass over bounds a first pass produced changes nothing. */
  lemma SlabBoundsRepeat(box: Aabb, ray: Ray, tMax: real, tMin: real)
    requires ray.dir.x != 0.0
    ensures var (lo, hi) := SlabBounds(box, ray, tMax, tMin); SlabBounds(box, ray, hi, lo) == (lo, hi)
  {
  }

  /** A single x-slab test: the tightened interval is not empty. */
  predicate SlabX(box: Aabb, ray: Ray, tMax: real, tMin: real)
    requires ray.dir.x != 0.0
  {
    var (lo, hi) := SlabBounds(box, ray, tMax, tMin);
    !(hi <= lo)
  }

  /** One pass of `hit`'s loop body (with `a` playing no part): tighten `(t_min, t_max)` by the x-slab. */
  method Pass(box: Aabb, ray: Ray, hi: real, lo: real) returns (hi': real, lo': real)
    requires ray.dir.x != 0.0
    ensures (lo', hi') == SlabBounds(box, ray, hi, lo)
  {
    var invD := 1.0 / ray.dir.x;
    var t0 := (box.Min().x - ray.orig.x) * invD;
    var t1 := (box.Max().x - ray.orig.x) * invD;
    if invD < 0.0 {
      t0, t1 := t1, t0;
    }
    assert t0 == SlabEntry(box, ray) && t1 == SlabExit(box, ray);
    lo' := if t0 > lo then t0 else lo;
    hi' := if t1 < hi then t1 else hi;
  }

  /**
   * `AABB::hit(ray, t_max, t_min)`: three passes of the slab loop, each reading the x components only. The second and
   * third passes cannot move the bounds the first one set, so the loop is exactly one x-slab test.
   */
  method Hit(box: Aabb, ray: Ray, tMax: real, tMin: real) returns (hit: bool)
    requires ray.dir.x != 0.0
    ensures hit == SlabX(box, ray, tMax, tMin)
  {
    var hi, lo := tMax, tMin;
    for a := 0 to 3
      invariant a == 0 ==> lo == tMin && hi == tMax
      invariant a > 0 ==> (lo, hi) == SlabBounds(box, ray, tMax, tMin) && lo < hi
    {
      if a > 0 {
        SlabBoundsRepeat(box, ray, tMax, tMin);
      }
      hi, lo := Pass(box, ray, hi, lo);
      if hi <= lo {
        return false;
      }
    }
    return true;
  }

  predicate InsideXAt(box: Aabb, ray: Ray, t: real) {
    box.Min().x < ray.At(t).x < box.Max().x
  }

  /** With a positive slope, `o + t * d` lies strictly between `lo` and `hi` exactly when `t` lies between the crossings. */
  lemma CrossingsPositive(lo: real, hi: real, o: real, d: real, t: real)
    requires d > 0.0
    ensures (lo < o + t * d < hi) <==> ((lo - o) * (1.0 / d) < t < (hi - o) * (1.0 / d))
  {
    var inv := 1.0 / d;
    assert inv * d == 1.0;
    assert inv > 0.0;
    var t0, t1 := (lo - o) * inv, (hi - o) * inv;
    assert t0 * d == lo - o;
    assert t1 * d == hi - o;
    if lo < o + t * d < hi {
      ScaleStrictInverse(t0, t, d);
      ScaleStrictInverse(t, t1, d);
    }
    if t0 < t < t1 {
      ScaleStrict(t0, t, d);
      ScaleStrict(t, t1, d);
    }
  }

  /** With a negative slope the crossings swap places. */
  lemma CrossingsNegative(lo: real, hi: real, o: real, d: real, t: real)
    requires d < 0.0
    ensures (lo < o + t * d < hi) <==> ((hi - o) * (1.0 / d) < t < (lo - o) * (1.0 / d))
  {
    var inv := 1.0 / d;
    assert inv * d == 1.0;
    assert inv < 0.0;
    var t0, t1 := (lo - o) * inv, (hi - o) * inv;
    assert t0 * d == lo - o;
    assert t1 * d == hi - o;
    if lo < o + t * d < hi {
      ScaleStrictInverseNeg(t, t0, d);
      ScaleStrictInverseNeg(t1, t, d);
    }
    if t1 < t < t0 {
      ScaleStrictNeg(t1, t, d);
      ScaleStrictNeg(t, t0, d);
    }
  }

  /** `inv_d` has the sign of the direction's x component. */
  lemma InverseSign(d: real)
    requires d != 0.0
    ensures (1.0 / d < 0.0) == (d < 0.0)
  {
    assert (1.0 / d) * d == 1.0;
  }

  /** A parameter lies strictly inside the x-slab exactly when it lies strictly between entry and exit. */
  lemma InsideXIff(box: Aabb, ray: Ray, t: real)
    requires ray.dir.x != 0.0
    ensures InsideXAt(box, ray, t) <==> SlabEntry(box, ray) < t < SlabExit(box, ray)
  {
    var d, o := ray.dir.x, ray.orig.x;
    assert ray.At(t).x == o + t * d;
    InverseSign(d);
    if d > 0.0 {
      CrossingsPositive(box.Min().x, box.Max().x, o, d, t);
    } else {
      CrossingsNegative(box.Min().x, box.Max().x, o, d, t);
    }
  }

  /**
   * What the x-slab test decides: some parameter strictly between `t_min` and `t_max` puts the ray strictly
   * between the `minimum` and `maximum` x coordinates (as ordered by the fields, not by the corners' values).
   */
  lemma SlabXSound(box: Aabb, ray: Ray, tMax: real, tMin: real)
    requires ray.dir.x != 0.0
    requires SlabX(box, ray, tMax, tMin)
    ensures exists t :: tMin < t < tMax && InsideXAt(box, ray, t)
  {
    var (lo, hi) := SlabBounds(box, ray, tMax, tMin);
    var t := (lo + hi) / 2.0;
    InsideXIff(box, ray, t);
    assert tMin < t < tMax && InsideXAt(box, ray, t);
  }

  /** Conversely, a parameter strictly inside both intervals makes the x-slab test succeed. */
  lemma SlabXComplete(box: Aabb, ray: Ray, tMax: real, tMin: real, t: real)
    requires ray.dir.x != 0.0
    requires tMin < t < tMax && InsideXAt(box, ray, t)
    ensures SlabX(box, ray, tMax, tMin)
  {
    InsideXIff(box, ray, t);
  }

  lemma ScaleStrict(a: real, b: real, d: real)
    requires a < b && d > 0.0
    ensures a * d < b * d
  {
    assert b * d - a * d == (b - a) * d;
  }

  lemma ScaleStrictNeg(a: real, b: real, d: real)
    requires a < b && d < 0.0
    ensures a * d > b * d
  {
    assert a * d - b * d == (b - a) * (-d);
  }

  lemma ScaleStrictInverse(a: real, b: real, d: real)
    requires a * d < b * d && d > 0.0
    ensures a < b
  {
    assert (b - a) * d == b * d - a * d;
  }

  lemma ScaleStrictInverseNeg(a: real, b: real, d: real)
    requires a * d > b * d && d < 0.0
    ensures a < b
  {
    assert (b - a) * (-d) == a * d - b * d;
  }

  /** When the bound in the `t_max` slot does not exceed the one in the `t_min` slot, no box is ever hit. */
  lemma SlabXEmptyWindow(box: Aabb, ray: Ray, tMax: real, tMin: real)
    requires ray.dir.x != 0.0
    requires tMax <= tMin
    ensures !SlabX(box, ray, tMax, tMin)
  {
  }

  /** `hit` reads only the x components of the box and the ray. */
  lemma SlabXReadsOnlyX(box: Aabb, other: Aabb, ray: Ray, otherRay: Ray, tMax: real, tMin: real)
    requires ray.dir.x != 0.0
    requires box.minimum.x == other.minimum.x && box.maximum.x == other.maximum.x
    requires ray.orig.x == otherRay.orig.x && ray.dir.x == otherRay.dir.x
    ensures SlabX(box, ray, tMax, tMin) == SlabX(other, otherRay, tMax, tMin)
  {
    assert box.Min().x == other.Min().x && box.Max().x == other.Max().x;
    assert SlabEntry(box, ray) == SlabEntry(other, otherRay);
    assert SlabExit(box, ray) == SlabExit(other, otherRay);
  }

  /**
   * The x-only test accepts a ray that misses the unit box: it crosses the x slab for `t` in `(1, 2)` but is then
   * far above the box in y, so the three-axis test rejects it and no parameter puts it inside the box.
   */
  lemma SlabXMissesOffAxis()
    ensures var box := Aabb(Vec3(1.0, 1.0, 1.0), Vec3(0.0, 0.0, 0.0));
            var ray := Ray(Vec3(-1.0, 5.0, 0.5), Vec3(1.0, 1.0, 1.0), 0.0);
            SlabX(box, ray, 10.0, 0.0) && !Slabs(box, ray, 10.0, 0.0) &&
            forall t :: 0.0 < t < 10.0 ==> !InsideBox(box, ray, t)
  {
    var box := Aabb(Vec3(1.0, 1.0, 1.0), Vec3(0.0, 0.0, 0.0));
    var ray := Ray(Vec3(-1.0, 5.0, 0.5), Vec3(1.0, 1.0, 1.0), 0.0);
    assert AxisEntry(box, ray, 0) == 1.0 && AxisExit(box, ray, 0) == 2.0;
    assert AxisBounds(box, ray, 0, 10.0, 0.0) == (1.0, 2.0);
    assert AxisExit(box, ray, 1) == -4.0;
    forall t | 0.0 < t < 10.0 ensures !InsideBox(box, ray, t) {
      if InsideBox(box, ray, t) {
        SlabsComplete(box, ray, 10.0, 0.0, t);
      }
    }
  }

  /** Every component of the direction is nonzero, so each pass of the three-axis test divides by a nonzero value. */
  predicate Oblique(ray: Ray) {
    ray.dir.x != 0.0 && ray.dir.y != 0.0 && ray.dir.z != 0.0
  }

  /** Where a line `o + t * d` crosses into the slab `(lo, hi)`, after the swap for a negative `inv_d`. */
  function Entry(lo: real, hi: real, o: real, d: real): real
    requires d != 0.0
  {
    var invD := 1.0 / d;
    if invD < 0.0 then (hi - o) * invD else (lo - o) * invD
  }

  /** Where the same line crosses out of the slab. */
  function Exit(lo: real, hi: real, o: real, d: real): real
    requires d != 0.0
  {
    var invD := 1.0 / d;
    if invD < 0.0 then (lo - o) * invD else (hi - o) * invD
  }

  /** Where the ray enters and leaves the slab of axis `a`. */
  function AxisEntry(box: Aabb, ray: Ray, a: int): real
    requires 0 <= a < 3 && Oblique(ray)
  {
    Entry(E(box.Min(), a), E(box.Max(), a), E(ray.orig, a), E(ray.dir, a))
  }

  function AxisExit(box: Aabb, ray: Ray, a: int): real
    requires 0 <= a < 3 && Oblique(ray)
  {
    Exit(E(box.Min(), a), E(box.Max(), a), E(ray.orig, a), E(ray.dir, a))
  }

  /** The bounds pass `a` of the intended loop leaves in `(t_min, t_max)`. */
  function AxisBounds(box: Aabb, ray: Ray, a: int, tMax: real, tMin: real): (bounds: (real, real))
    requires 0 <= a < 3 && Oblique(ray)
  {
    var near, far := AxisEntry(box, ray, a), AxisExit(box, ray, a);
    (if near > tMin then near else tMin, if far < tMax then far else tMax)
  }

  /** Passes `a` to 2 of the intended loop all leave a non-empty interval. */
  predicate SlabsFrom(box: Aabb, ray: Ray, a: int, tMax: real, tMin: real)
    requires 0 <= a <= 3 && Oblique(ray)
    decreases 3 - a
  {
    a == 3 || var (lo, hi) := AxisBounds(box, ray, a, tMax, tMin); !(hi <= lo) && SlabsFrom(box, ray, a + 1, hi, lo)
  }

  /** The slab test `AABB::hit` evidently means: pass `a` of its loop tightens the bounds by the slab of axis `a`. */
  predicate Slabs(box: Aabb, ray: Ray, tMax: real, tMin: real)
    requires Oblique(ray)
  {
    SlabsFrom(box, ray, 0, tMax, tMin)
  }

  /** One pass of the intended loop body: tighten `(t_min, t_max)` by the slab of axis `a`. */
  method AxisPass(box: Aabb, ray: Ray, a: int, hi: real, lo: real) returns (hi': real, lo': real)
    requires 0 <= a < 3 && Oblique(ray)
    ensures (lo', hi') == AxisBounds(box, ray, a, hi, lo)
  {
    var invD := 1.0 / E(ray.dir, a);
    var t0 := (E(box.Min(), a) - E(ray.orig, a)) * invD;
    var t1 := (E(box.Max(), a) - E(ray.orig, a)) * invD;
    if invD < 0.0 {
      t0, t1 := t1, t0;
    }
    assert t0 == AxisEntry(box, ray, a) && t1 == AxisExit(box, ray, a);
    lo' := if t0 > lo then t0 else lo;
    hi' := if t1 < hi then t1 else hi;
  }

  /** The loop of `AABB::hit` with `a` selecting the component on each pass; it computes `Slabs`. */
  method HitAxes(box: Aabb, ray: Ray, tMax: real, tMin: real) returns (hit: bool)
    requires Oblique(ray)
    ensures hit == Slabs(box, ray, tMax, tMin)
  {
    var hi, lo := tMax, tMin;
    for a := 0 to 3
      invariant SlabsFrom(box, ray, a, hi, lo) == Slabs(box, ray, tMax, tMin)
    {
      ghost var hi0, lo0 := hi, lo;
      hi, lo := AxisPass(box, ray, a, hi, lo);
      assert SlabsFrom(box, ray, a, hi0, lo0) == (!(hi <= lo) && SlabsFrom(box, ray, a + 1, hi, lo));
      if hi <= lo {
        return false;
      }
    }
    return true;
  }

  predicate InsideAxisAt(box: Aabb, ray: Ray, a: int, t: real)
    requires 0 <= a < 3
  {
    E(box.Min(), a) < E(ray.At(t), a) < E(box.Max(), a)
  }

  /** The ray is strictly inside the slabs of axes `a` to 2 at `t`. */
  predicate InsideFrom(box: Aabb, ray: Ray, a: int, t: real)
    requires 0 <= a <= 3
    decreases 3 - a
  {
    a == 3 || (InsideAxisAt(box, ray, a, t) && InsideFrom(box, ray, a + 1, t))
  }

  /** The ray is strictly inside the box at `t`, between the `minimum` and `maximum` fields on every axis. */
  predicate InsideBox(box: Aabb, ray: Ray, t: real) {
    InsideAxisAt(box, ray, 0, t) && InsideAxisAt(box, ray, 1, t) && InsideAxisAt(box, ray, 2, t)
  }

  /** On axis `a`, the ray is strictly inside the slab exactly when `t` lies strictly between entry and exit. */
  lemma InsideAxisIff(box: Aabb, ray: Ray, a: int, t: real)
    requires 0 <= a < 3 && Oblique(ray)
    ensures InsideAxisAt(box, ray, a, t) <==> AxisEntry(box, ray, a) < t < AxisExit(box, ray, a)
  {
    AtAxis(ray, a, t);
    AxisCrossings(E(box.Min(), a), E(box.Max(), a), E(ray.orig, a), E(ray.dir, a), t);
  }

  /** Component `a` of the point at `t` moves with component `a` of the direction. */
  lemma AtAxis(ray: Ray, a: int, t: real)
    requires 0 <= a < 3
    ensures E(ray.At(t), a) == E(ray.orig, a) + t * E(ray.dir, a)
  { }

  /** Either sign of slope: strictly between the slab planes exactly when strictly between the ordered crossings. */
  lemma AxisCrossings(lo: real, hi: real, o: real, d: real, t: real)
    requires d != 0.0
    ensures (lo < o + t * d < hi) <==> Entry(lo, hi, o, d) < t < Exit(lo, hi, o, d)
  {
    InverseSign(d);
    if d > 0.0 {
      CrossingsPositive(lo, hi, o, d, t);
    } else {
      CrossingsNegative(lo, hi, o, d, t);
    }
  }

  lemma {:induction false} SlabsFromSound(box: Aabb, ray: Ray, a: int, tMax: real, tMin: real)
    requires 0 <= a < 3 && Oblique(ray) && SlabsFrom(box, ray, a, tMax, tMin)
    ensures exists t :: tMin < t < tMax && InsideFrom(box, ray, a, t)
    decreases 3 - a
  {
    var (lo, hi) := AxisBounds(box, ray, a, tMax, tMin);
    if a == 2 {
      var t := (lo + hi) / 2.0;
      InsideAxisIff(box, ray, a, t);
      assert InsideFrom(box, ray, a + 1, t);
      assert tMin < t < tMax && InsideFrom(box, ray, a, t);
    } else {
      SlabsFromSound(box, ray, a + 1, hi, lo);
      var t :| lo < t < hi && InsideFrom(box, ray, a + 1, t);
      InsideAxisIff(box, ray, a, t);
      assert tMin < t < tMax && InsideFrom(box, ray, a, t);
    }
  }

  lemma {:induction false} SlabsFromComplete(box: Aabb, ray: Ray, a: int, tMax: real, tMin: real, t: real)
    requires 0 <= a <= 3 && Oblique(ray) && tMin < t < tMax && InsideFrom(box, ray, a, t)
    ensures SlabsFrom(box, ray, a, tMax, tMin)
    decreases 3 - a
  {
    if a < 3 {
      InsideAxisIff(box, ray, a, t);
      var (lo, hi) := AxisBounds(box, ray, a, tMax, tMin);
      assert lo < t < hi;
      SlabsFromComplete(box, ray, a + 1, hi, lo, t);
    }
  }

  /** What the three-axis test decides: a success implies a parameter in the window puts the ray inside the box. */
  lemma SlabsSound(box: Aabb, ray: Ray, tMax: real, tMin: real)
    requires Oblique(ray) && Slabs(box, ray, tMax, tMin)
    ensures exists t :: tMin < t < tMax && InsideBox(box, ray, t)
  {
    SlabsFromSound(box, ray, 0, tMax, tMin);
    var t :| tMin < t < tMax && InsideFrom(box, ray, 0, t);
    assert InsideBox(box, ray, t);
  }

  /** Conversely, a parameter in the window with the ray inside the box makes the three-axis test succeed. */
  lemma SlabsComplete(box: Aabb, ray: Ray, tMax: real, tMin: real, t: real)
    requires Oblique(ray) && tMin < t < tMax && InsideBox(box, ray, t)
    ensures Slabs(box, ray, tMax, tMin)
  {
    assert InsideFrom(box, ray, 0, t);
    SlabsFromComplete(box, ray, 0, tMax, tMin, t);
  }

  function MinV(a: Vec3, b: Vec3): Vec3 {
    Vectors.New(Some(Min(a.x, b.x)), Some(Min(a.y, b.y)), Some(Min(a.z, b.z)))
  }

  function Max(a: real, b: real): real {
    if a < b then b else a
  }

  function MaxV(a: Vec3, b: Vec3): Vec3 {
    Vectors.New(Some(Max(a.x, b.x)), Some(Max(a.y, b.y)), Some(Max(a.z, b.z)))
  }

  /**
   * `surrounding_box(box0, box1)`: `small` (the componentwise min of the `min()` corners) is passed first, so it lands
   * in the `maximum` field, and `big` (the componentwise max of the `max()` corners) in the `minimum` field.
   */
  function SurroundingBox(box0: Aabb, box1: Aabb): (r: Aabb)
    ensures r.maximum == MinV(box0.Min(), box1.Min())
    ensures r.minimum == MaxV(box0.Max(), box1.Max())
  {
    var small := MinV(box0.Min(), box1.Min());
    var big := MaxV(box0.Max(), box1.Max());
    New(small, big)
  }

  lemma SurroundingBoxCommutes(a: Aabb, b: Aabb)
    ensures SurroundingBox(a, b) == SurroundingBox(b, a)
  {
  }

  /** Surrounding a box with itself swaps its two fields; doing it twice gives the box back. */
  lemma SurroundingBoxSelf(a: Aabb)
    ensures SurroundingBox(a, a) == Aabb(a.minimum, a.maximum)
    ensures SurroundingBox(SurroundingBox(a, a), SurroundingBox(a, a)) == a
  {
  }

  /** As written, surrounding a box with itself inverts it: no ray inside the box is inside the result. */
  lemma SurroundingBoxSelfNeverInside(a: Aabb, ray: Ray, t: real)
    requires InsideBox(a, ray, t)
    ensures !InsideBox(SurroundingBox(a, a), ray, t)
  {
    SurroundingBoxSelf(a);
  }

  /**
   * `surrounding_box` as evidently intended: `big` goes into the `maximum` field and `small` into `minimum`, so the
   * result's `maximum` is the componentwise max of the two high corners.
   */
  function SurroundingBoxOriented(box0: Aabb, box1: Aabb): (r: Aabb)
    ensures forall i :: 0 <= i < 3 ==> E(r.Max(), i) >= E(box0.Max(), i) && E(r.Max(), i) >= E(box1.Max(), i)
    ensures forall i :: 0 <= i < 3 ==> E(r.Min(), i) <= E(box0.Min(), i) && E(r.Min(), i) <= E(box1.Min(), i)
  {
    New(MaxV(box0.Max(), box1.Max()), MinV(box0.Min(), box1.Min()))
  }

  /** The oriented surrounding box contains both boxes: a ray inside either one is inside the result. */
  lemma SurroundingBoxOrientedContains(box0: Aabb, box1: Aabb, ray: Ray, t: real)
    requires InsideBox(box0, ray, t) || InsideBox(box1, ray, t)
    ensures InsideBox(SurroundingBoxOriented(box0, box1), ray, t)
  {
    var r := SurroundingBoxOriented(box0, box1);
    assert E(r.Max(), 0) >= E(box0.Max(), 0) && E(r.Max(), 1) >= E(box0.Max(), 1) && E(r.Max(), 2) >= E(box0.Max(), 2);
    assert E(r.Max(), 0) >= E(box1.Max(), 0) && E(r.Max(), 1) >= E(box1.Max(), 1) && E(r.Max(), 2) >= E(box1.Max(), 2);
    assert E(r.Min(), 0) <= E(box0.Min(), 0) && E(r.Min(), 1) <= E(box0.Min(), 1) && E(r.Min(), 2) <= E(box0.Min(), 2);
    assert E(r.Min(), 0) <= E(box1.Min(), 0) && E(r.Min(), 1) <= E(box1.Min(), 1) && E(r.Min(), 2) <= E(box1.Min(), 2);
  }

  /** The order `box_compare` imposes: `partial_cmp` on the `minimum` fields at the given axis. */
  function CompareMinimum(boxA: Aabb, boxB: Aabb, axis: int): (o: Ordering)
    requires 0 <= axis < 3
    ensures o == Less <==> E(boxA.Min(), axis) < E(boxB.Min(), axis)
    ensures o == Greater <==> E(boxA.Min(), axis) > E(boxB.Min(), axis)
  {
    CompareReals(E(boxA.Min(), axis), E(boxB.Min(), axis))
  }
}
