/** An axis-aligned box made of six rectangles (src/block.rs). */
module Blocks {
  import opened Wrappers
  import opened Vectors
  import opened Rays
  import opened Weekend
  import opened Materials
  import opened HitRecords
  import opened Aabbs
  import opened Rects
  import opened Hittables
  import opened Lists

  /** The six sides exactly as `Block::new` adds them, the fourth one an `XYRect` over the x and z ranges. */
  function Sides(p0: Point3, p1: Point3, material: Material): (sides: seq<Hittable>)
    ensures |sides| == 6
  {
    [ RectObject(XYRectNew(p0.x, p1.x, p0.y, p1.y, p1.z, Some(material))),
      RectObject(XYRectNew(p0.x, p1.x, p0.y, p1.y, p0.z, Some(material))),
      RectObject(XZRectNew(p0.x, p1.x, p0.z, p1.z, p1.y, Some(material))),
      RectObject(XYRectNew(p0.x, p1.x, p0.z, p1.z, p0.y, Some(material))),
      RectObject(YZRectNew(p0.y, p1.y, p0.z, p1.z, p1.x, Some(material))),
      RectObject(YZRectNew(p0.y, p1.y, p0.z, p1.z, p0.x, Some(material))) ]
  }

  /** `Block::new(point0, point1, material_ptr)`: a fresh list filled by six successive `add` calls. */
  method New(point0: Point3, point1: Point3, material: Material) returns (b: Hittable)
    ensures b == Block(point0, point1, Sides(point0, point1, material))
  {
    var boxMin := point0;
    var boxMax := point1;
    var sides := new HittableList(None);
    sides.Add(RectObject(XYRectNew(point0.x, point1.x, point0.y, point1.y, point1.z, Some(material))));
    sides.Add(RectObject(XYRectNew(point0.x, point1.x, point0.y, point1.y, point0.z, Some(material))));
    sides.Add(RectObject(XZRectNew(point0.x, point1.x, point0.z, point1.z, point1.y, Some(material))));
    sides.Add(RectObject(XYRectNew(point0.x, point1.x, point0.z, point1.z, point0.y, Some(material))));
    sides.Add(RectObject(YZRectNew(point0.y, point1.y, point0.z, point1.z, point1.x, Some(material))));
    sides.Add(RectObject(YZRectNew(point0.y, point1.y, point0.z, point1.z, point0.x, Some(material))));
    b := Block(boxMin, boxMax, sides.objects);
  }

  /** Every side is a rectangle carrying the block's material. */
  lemma SidesShareMaterial(p0: Point3, p1: Point3, material: Material)
    ensures forall i :: 0 <= i < 6 ==>
              Sides(p0, p1, material)[i].RectObject? && Sides(p0, p1, material)[i].rect.material == Some(material)
  {
  }

  /** The fourth side lies in an x-y plane at `point0.y`, spanning the x range and, as its y range, the z range. */
  lemma FourthSide(p0: Point3, p1: Point3, material: Material)
    ensures Sides(p0, p1, material)[3] == RectObject(AaRect(XY, p0.x, p1.x, p0.z, p1.z, p0.y, Some(material)))
  {
  }

  /** Two sides sit in each plane; the x-z plane gets only the side at `point1.y`. */
  lemma SidesPerPlane(p0: Point3, p1: Point3, material: Material)
    ensures var s := Sides(p0, p1, material);
            |set i | 0 <= i < 6 && s[i].rect.plane == XY| == 3 &&
            |set i | 0 <= i < 6 && s[i].rect.plane == XZ| == 1 &&
            |set i | 0 <= i < 6 && s[i].rect.plane == YZ| == 2
  {
    var s := Sides(p0, p1, material);
    assert (set i | 0 <= i < 6 && s[i].rect.plane == XY) == {0, 1, 3};
    assert (set i | 0 <= i < 6 && s[i].rect.plane == XZ) == {2};
    assert (set i | 0 <= i < 6 && s[i].rect.plane == YZ) == {4, 5};
  }

  /** The six sides `Block::new` evidently means: the fourth one an `XZRect` over the x and z ranges at `point0.y`. */
  function SidesIntended(p0: Point3, p1: Point3, material: Material): (sides: seq<Hittable>)
    ensures |sides| == 6
  {
    Sides(p0, p1, material)[3 := RectObject(XZRectNew(p0.x, p1.x, p0.z, p1.z, p0.y, Some(material)))]
  }

  /** The intended sides differ from the written ones in the fourth side alone, which closes the box at `point0.y`. */
  lemma SidesIntendedFourth(p0: Point3, p1: Point3, material: Material)
    ensures SidesIntended(p0, p1, material)[3] == RectObject(AaRect(XZ, p0.x, p1.x, p0.z, p1.z, p0.y, Some(material)))
    ensures forall i :: 0 <= i < 6 && i != 3 ==> SidesIntended(p0, p1, material)[i] == Sides(p0, p1, material)[i]
  {
  }

  /** The intended block has a face on each side of each axis: two sides per plane, at the two corners' offsets. */
  lemma SidesIntendedPerPlane(p0: Point3, p1: Point3, material: Material)
    ensures var s := SidesIntended(p0, p1, material);
            |set i | 0 <= i < 6 && s[i].rect.plane == XY| == 2 &&
            |set i | 0 <= i < 6 && s[i].rect.plane == XZ| == 2 &&
            |set i | 0 <= i < 6 && s[i].rect.plane == YZ| == 2
    ensures var s := SidesIntended(p0, p1, material);
            (set i | 0 <= i < 6 && s[i].rect.plane == XY :: s[i].rect.k) == {p0.z, p1.z} &&
            (set i | 0 <= i < 6 && s[i].rect.plane == XZ :: s[i].rect.k) == {p0.y, p1.y} &&
            (set i | 0 <= i < 6 && s[i].rect.plane == YZ :: s[i].rect.k) == {p0.x, p1.x}
  {
    var s := SidesIntended(p0, p1, material);
    assert (set i | 0 <= i < 6 && s[i].rect.plane == XY) == {0, 1};
    assert (set i | 0 <= i < 6 && s[i].rect.plane == XZ) == {2, 3};
    assert (set i | 0 <= i < 6 && s[i].rect.plane == YZ) == {4, 5};
  }

  /** `hit` is the list hit over the six sides. */
  lemma HitIsSidesHit(p0: Point3, p1: Point3, sides: seq<Hittable>, ray: Ray, tMin: real, tMax: real, rec: HitRecord,
                      libm: Libm)
    requires Defined(Block(p0, p1, sides), ray)
    ensures Hittables.Hit(Block(p0, p1, sides), ray, tMin, tMax, rec, libm) ==
            Hittables.Hit(List(sides), ray, tMin, tMax, rec, libm)
    ensures Hittables.Hit(Block(p0, p1, sides), ray, tMin, tMax, rec, libm).0 <==>
            exists i :: 0 <= i < |sides| && Hittables.Hit(sides[i], ray, tMin, tMax, rec, libm).0
  {
    ListHitIff(sides, ray, tMin, tMax, rec, libm);
  }

  /**
   * `bounding_box`: always succeeds, ignores both times, and passes `box_max` first to `AABB::new`, so the box's
   * `maximum` field is `point1` and its `minimum` field `point0`.
   */
  lemma BlockBoundingBox(p0: Point3, p1: Point3, material: Material, time0: real, time1: real, out: Aabb)
    ensures var b := Block(p0, p1, Sides(p0, p1, material));
            Hittables.BoundingBox(b, time0, time1, out) == (true, Aabb(p1, p0))
  {
  }
}
