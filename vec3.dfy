/**
 * Three-component vectors (src/vec3.rs). The source's `f32` components are modelled as reals; `sqrt`, which
 * `len`, `unit_vector` and `refract` need, is passed in as an uninterpreted function.
 */
module Vectors {
  import opened Wrappers

  /** `Vec3 { e: [f32; 3] }`, also used as `Point3` and `Color`. */
  datatype Vec3 = Vec3(x: real, y: real, z: real)

  type Point3 = Vec3
  type Color = Vec3

  /** `Vec3::new`: every component left as `None` defaults to zero. */
  function New(x: Option<real>, y: Option<real>, z: Option<real>): (v: Vec3)
    ensures x.None? ==> v.x == 0.0
    ensures y.None? ==> v.y == 0.0
    ensures z.None? ==> v.z == 0.0
    ensures x.Some? ==> v.x == x.value
    ensures y.Some? ==> v.y == y.value
    ensures z.Some? ==> v.z == z.value
  {
    Vec3(x.UnwrapOr(0.0), y.UnwrapOr(0.0), z.UnwrapOr(0.0))
  }

  /** The zero vector, `Vec3::new(None, None, None)`. */
  function Zero(): Vec3 {
    New(None, None, None)
  }

  /** `e[i]`, the component at index `i`. */
  function E(v: Vec3, i: int): real
    requires 0 <= i < 3
  {
    if i == 0 then v.x else if i == 1 then v.y else v.z
  }

  function Add(a: Vec3, b: Vec3): Vec3 {
    Vec3(a.x + b.x, a.y + b.y, a.z + b.z)
  }

  function Sub(a: Vec3, b: Vec3): Vec3 {
    Vec3(a.x - b.x, a.y - b.y, a.z - b.z)
  }

  /** `Mul for Vec3`: the componentwise product (used for colour attenuation). */
  function Mul(a: Vec3, b: Vec3): Vec3 {
    Vec3(a.x * b.x, a.y * b.y, a.z * b.z)
  }

  /** `Mul<f32> for Vec3`. */
  function Scale(a: Vec3, s: real): Vec3 {
    Vec3(a.x * s, a.y * s, a.z * s)
  }

  /** `Div<f32> for Vec3` is `self * (1.0 / rhs)`; the model requires a nonzero divisor. */
  function Div(a: Vec3, d: real): Vec3
    requires d != 0.0
  {
    Scale(a, 1.0 / d)
  }

  function Neg(a: Vec3): Vec3 {
    Vec3(-a.x, -a.y, -a.z)
  }

  function Dot(a: Vec3, b: Vec3): real {
    a.x * b.x + a.y * b.y + a.z * b.z
  }

  function Cross(a: Vec3, b: Vec3): Vec3 {
    New(Some(a.y * b.z - a.z * b.y), Some(a.z * b.x - a.x * b.z), Some(a.x * b.y - a.y * b.x))
  }

  function LenSquared(a: Vec3): (r: real)
    ensures r >= 0.0
  {
    a.x * a.x + a.y * a.y + a.z * a.z
  }

  function Len(a: Vec3, sqrt: real -> real): real {
    sqrt(LenSquared(a))
  }

  /** `unit_vector`: `v / v.len()`, defined when the length is nonzero. */
  function UnitVector(v: Vec3, sqrt: real -> real): Vec3
    requires Len(v, sqrt) != 0.0
  {
    Div(v, Len(v, sqrt))
  }

  function Abs(r: real): real {
    if r < 0.0 then -r else r
  }

  /** The threshold `near_zero` compares every component's magnitude against. */
  const NearZeroBound: real := 0.00000001

  predicate NearZero(v: Vec3) {
    Abs(v.x) < NearZeroBound && Abs(v.y) < NearZeroBound && Abs(v.z) < NearZeroBound
  }

  /** `reflect(v, n)`: `v - n * v.dot(n) * 2.0`. */
  function Reflect(v: Vec3, n: Vec3): Vec3 {
    Sub(v, Scale(Scale(n, Dot(v, n)), 2.0))
  }

  function Min(a: real, b: real): real {
    if a < b then a else b
  }

  /** `refract(uv, n, etai_over_etat)`, with `sqrt` uninterpreted. */
  function Refract(uv: Vec3, n: Vec3, etaiOverEtat: real, sqrt: real -> real): Vec3 {
    var cosTheta := Min(Dot(Neg(uv), n), 1.0);
    var rOutPerp := Scale(Add(uv, Scale(n, cosTheta)), etaiOverEtat);
    var rOutParallel := Scale(n, -sqrt(Abs(1.0 - LenSquared(rOutPerp))));
    Add(rOutPerp, rOutParallel)
  }

  /** `Neg for Vec3` is an involution. */
  lemma NegInvolutive(v: Vec3)
    ensures Neg(Neg(v)) == v
  {
  }

  /** `dot` does not depend on the order of its operands. */
  lemma DotSymmetric(a: Vec3, b: Vec3)
    ensures Dot(a, b) == Dot(b, a)
  {
  }

  /** `|a + b|^2 = |a|^2 + 2 (a . b) + |b|^2`. */
  lemma LenSquaredOfSum(a: Vec3, b: Vec3)
    ensures LenSquared(Add(a, b)) == LenSquared(a) + 2.0 * Dot(a, b) + LenSquared(b)
  {
    SquareOfSum(a.x, b.x);
    SquareOfSum(a.y, b.y);
    SquareOfSum(a.z, b.z);
  }

  lemma SquareOfSum(p: real, q: real)
    ensures (p + q) * (p + q) == p * p + 2.0 * (p * q) + q * q
  {
  }

  /** `|t d|^2 = t^2 |d|^2`. */
  lemma LenSquaredOfScale(d: Vec3, t: real)
    ensures LenSquared(Scale(d, t)) == t * t * LenSquared(d)
  {
    assert d.x * t * (d.x * t) + d.y * t * (d.y * t) + d.z * t * (d.z * t)
        == t * t * (d.x * d.x + d.y * d.y + d.z * d.z);
  }

  /** `a . (t d) = t (a . d)`. */
  lemma DotScaleRight(a: Vec3, d: Vec3, t: real)
    ensures Dot(a, Scale(d, t)) == t * Dot(a, d)
  {
    assert a.x * (d.x * t) + a.y * (d.y * t) + a.z * (d.z * t) == t * (a.x * d.x + a.y * d.y + a.z * d.z);
  }

  /** `cross(a, b)` is orthogonal to both of its operands. */
  lemma CrossOrthogonal(a: Vec3, b: Vec3)
    ensures Dot(Cross(a, b), a) == 0.0
    ensures Dot(Cross(a, b), b) == 0.0
  {
  }

  /** Reflecting about a unit normal flips the component along the normal. */
  lemma ReflectFlipsNormalComponent(v: Vec3, n: Vec3)
    requires Dot(n, n) == 1.0
    ensures Dot(Reflect(v, n), n) == -Dot(v, n)
  {
    var k := Dot(v, n);
    var s := Scale(Scale(n, k), 2.0);
    calc {
      Dot(Reflect(v, n), n);
      Dot(v, n) - Dot(s, n);
      { assert Dot(s, n) == 2.0 * k * Dot(n, n); }
      k - 2.0 * k * 1.0;
    }
  }

  /** A near-zero vector has squared length below three times the squared threshold. */
  lemma {:induction false} NearZeroIsShort(v: Vec3)
    requires NearZero(v)
    ensures LenSquared(v) < 3.0 * NearZeroBound * NearZeroBound
  {
    SquareBelow(v.x, NearZeroBound);
    SquareBelow(v.y, NearZeroBound);
    SquareBelow(v.z, NearZeroBound);
  }

  lemma SquareBelow(r: real, s: real)
    requires Abs(r) < s
    ensures r * r < s * s
  {
    var a := Abs(r);
    var aa, as', ss := a * a, a * s, s * s;
    assert aa <= as' by { assert as' - aa == a * (s - a); }
    assert as' < ss by { assert ss - as' == s * (s - a); }
    assert r * r == aa;
  }

  /** `AddAssign`: adds `rhs` into `v` one component at a time; the result is `v + rhs`. */
  method AddAssign(v: Vec3, rhs: Vec3) returns (r: Vec3)
    ensures r == Add(v, rhs)
  {
    r := v;
    r := r.(x := r.x + rhs.x);
    r := r.(y := r.y + rhs.y);
    r := r.(z := r.z + rhs.z);
  }

  /** `MulAssign<f32>`: multiplies `v` by `rhs` in place; the result is `v * rhs`. */
  method MulAssign(v: Vec3, rhs: real) returns (r: Vec3)
    ensures r == Scale(v, rhs)
  {
    r := v;
    r := r.(x := r.x * rhs);
    r := r.(y := r.y * rhs);
    r := r.(z := r.z * rhs);
  }

  /** `DivAssign<f32>`: multiplies every component by `1.0 / rhs`; the result is `v / rhs`. */
  method DivAssign(v: Vec3, rhs: real) returns (r: Vec3)
    requires rhs != 0.0
    ensures r == Div(v, rhs)
  {
    r := v;
    r := r.(x := r.x * (1.0 / rhs));
    r := r.(y := r.y * (1.0 / rhs));
    r := r.(z := r.z * (1.0 / rhs));
  }

  /** A draw of `Vec3::random(Some(-1.0), Some(1.0))`: every component in `[-1, 1)`. */
  predicate InCube(p: Vec3) {
    -1.0 <= p.x < 1.0 && -1.0 <= p.y < 1.0 && -1.0 <= p.z < 1.0
  }

  /**
   * `random_in_unit_sphere`: the rejection loop over a stream of cube draws. It returns the first draw whose squared
   * length is below one, and `None` if the finite stream holds no such draw (the source would keep drawing).
   */
  method RandomInUnitSphere(draws: seq<Vec3>) returns (p: Option<Vec3>)
    requires forall i :: 0 <= i < |draws| ==> InCube(draws[i])
    ensures p.Some? ==> LenSquared(p.value) < 1.0 && InCube(p.value)
    ensures p.Some? ==> exists k :: 0 <= k < |draws| && draws[k] == p.value &&
                                   forall j :: 0 <= j < k ==> LenSquared(draws[j]) >= 1.0
    ensures p.None? <==> forall j :: 0 <= j < |draws| ==> LenSquared(draws[j]) >= 1.0
  {
    var i := 0;
    while i < |draws|
      invariant 0 <= i <= |draws|
      invariant forall j :: 0 <= j < i ==> LenSquared(draws[j]) >= 1.0
    {
      var candidate := draws[i];
      if LenSquared(candidate) >= 1.0 {
        i := i + 1;
        continue;
      }
      return Some(candidate);
    }
    return None;
  }

  /**
   * `random_in_unit_disk`: the rejection loop over a stream of pairs drawn from `[-1, 1)`; the accepted point has
   * `z == 0` and squared length below one.
   */
  method RandomInUnitDisk(draws: seq<(real, real)>) returns (p: Option<Vec3>)
    requires forall i :: 0 <= i < |draws| ==> -1.0 <= draws[i].0 < 1.0 && -1.0 <= draws[i].1 < 1.0
    ensures p.Some? ==> LenSquared(p.value) < 1.0 && p.value.z == 0.0
    ensures p.Some? ==> exists k :: 0 <= k < |draws| && p.value == Vec3(draws[k].0, draws[k].1, 0.0) &&
                                   forall j :: 0 <= j < k ==> LenSquared(Vec3(draws[j].0, draws[j].1, 0.0)) >= 1.0
    ensures p.None? <==> forall j :: 0 <= j < |draws| ==> LenSquared(Vec3(draws[j].0, draws[j].1, 0.0)) >= 1.0
  {
    var i := 0;
    while i < |draws|
      invariant 0 <= i <= |draws|
      invariant forall j :: 0 <= j < i ==> LenSquared(Vec3(draws[j].0, draws[j].1, 0.0)) >= 1.0
    {
      var candidate := New(Some(draws[i].0), Some(draws[i].1), None);
      if LenSquared(candidate) >= 1.0 {
        i := i + 1;
        continue;
      }
      return Some(candidate);
    }
    return None;
  }

  /**
   * `random_in_hemisphere(normal)`, given the draw of `random_in_unit_sphere`: the draw or its negation, whichever
   * lies on the normal's side.
   */
  function RandomInHemisphere(normal: Vec3, inUnitSphere: Vec3): (p: Vec3)
    ensures Dot(p, normal) >= 0.0
    ensures p == inUnitSphere || p == Neg(inUnitSphere)
    ensures LenSquared(p) == LenSquared(inUnitSphere)
  {
    if Dot(inUnitSphere, normal) > 0.0 then inUnitSphere else Neg(inUnitSphere)
  }
}
