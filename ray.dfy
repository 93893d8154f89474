/** Rays with a time stamp (src/ray.rs). */
module Rays {
  import opened Wrappers
  import opened Vectors

  datatype Ray = Ray(orig: Point3, dir: Vec3, time: real) {

    function Origin(): Point3 {
      orig
    }

    function Direction(): Vec3 {
      dir
    }

    function Time(): real {
      time
    }

    /** `at(t)`: the point `origin + direction * t`. */
    function At(t: real): (p: Point3)
      ensures Sub(p, orig) == Scale(dir, t)
    {
      Add(orig, Scale(dir, t))
    }
  }

  /** `Ray::new`: a missing origin or direction defaults to the zero vector, a missing time to 0. */
  function New(origin: Option<Point3>, direction: Option<Vec3>, tm: Option<real>): (r: Ray)
    ensures r.Origin() == origin.UnwrapOr(Zero())
    ensures r.Direction() == direction.UnwrapOr(Zero())
    ensures r.Time() == tm.UnwrapOr(0.0)
  {
    Ray(origin.UnwrapOr(Zero()), direction.UnwrapOr(Zero()), tm.UnwrapOr(0.0))
  }

  /** The getters give back exactly what was passed to `new`. */
  lemma NewGetters(o: Point3, d: Vec3, t: real)
    ensures New(Some(o), Some(d), Some(t)).Origin() == o
    ensures New(Some(o), Some(d), Some(t)).Direction() == d
    ensures New(Some(o), Some(d), Some(t)).Time() == t
  {
  }

  /** `Ray::new(None, None, None)` starts at the origin, has zero direction and time 0. */
  lemma NewDefaults()
    ensures New(None, None, None) == Ray(Vec3(0.0, 0.0, 0.0), Vec3(0.0, 0.0, 0.0), 0.0)
  {
  }

  /** The ray starts at its origin. */
  lemma AtZero(r: Ray)
    ensures r.At(0.0) == r.orig
  {
  }
}
