/**
 * Shared helpers (src/rtweekend.rs): constants, `clamp`, `degrees_to_radians`, the range contract of `random`, the
 * saturating `as i32` cast, and the floating-point library functions the renderer calls, left uninterpreted.
 */
module Weekend {

  /** `std::f32::consts::PI`, written with the digits of pi rather than the rounded `f32` value. */
  const PI: real := 3.14159265358979323846

  /** The `f32` library functions the renderer calls; the model treats each as an arbitrary function. */
  datatype Libm = Libm(sqrt: real -> real, sin: real -> real, acos: real -> real, atan2: (real, real) -> real)

  /** The one property of `sqrt` the closest-hit results rely on: it is never negative on a nonnegative argument. */
  ghost predicate SqrtNonnegative(libm: Libm) {
    forall x :: 0.0 <= x ==> 0.0 <= libm.sqrt(x)
  }

  /** `degrees_to_radians`: `degrees * PI / 180.0`. */
  function DegreesToRadians(degrees: real): (r: real)
    ensures r * 180.0 == degrees * PI
  {
    degrees * PI / 180.0
  }

  /** Half a turn is pi radians, and the map is linear. */
  lemma DegreesToRadiansLinear(a: real, b: real, k: real)
    ensures DegreesToRadians(180.0) == PI
    ensures DegreesToRadians(a + b) == DegreesToRadians(a) + DegreesToRadians(b)
    ensures DegreesToRadians(k * a) == k * DegreesToRadians(a)
  {
  }

  /** What `random(start, end)` promises of the value it draws: it lies in the half-open range `[start, end)`. */
  predicate RandomRange(x: real, start: real, end: real) {
    start <= x < end
  }

  /** `clamp(x, min, max)`, the source's three-way branch. */
  function Clamp(x: real, min: real, max: real): (r: real)
    ensures x < min ==> r == min
    ensures min <= x && x > max ==> r == max
    ensures min <= x <= max ==> r == x
    ensures min <= max ==> min <= r <= max
  {
    if x < min then min else if x > max then max else x
  }

  /** Clamping twice to an ordered range changes nothing more than clamping once. */
  lemma ClampIdempotent(x: real, a: real, b: real)
    requires a <= b
    ensures Clamp(Clamp(x, a, b), a, b) == Clamp(x, a, b)
  {
  }

  /** Clamping to an inverted range is not idempotent: a value below `a` goes to `a`, and `a` itself then to `b`. */
  lemma ClampInvertedRange(x: real, a: real, b: real)
    requires b < a && x < a
    ensures Clamp(x, a, b) == a
    ensures Clamp(Clamp(x, a, b), a, b) == b
  {
  }

  const I32Min: int := -0x8000_0000
  const I32Max: int := 0x7FFF_FFFF

  /** Rust's `as i32` on a float: rounds toward zero and saturates at the bounds of `i32` (NaN does not arise over reals). */
  function TruncI32(x: real): (i: int)
    ensures I32Min <= i <= I32Max
    ensures 0.0 <= x < I32Max as real ==> i == x.Floor
    ensures I32Min as real < x <= 0.0 ==> i == -((-x).Floor)
    ensures x >= I32Max as real ==> i == I32Max
    ensures x <= I32Min as real ==> i == I32Min
  {
    if x >= I32Max as real then I32Max
    else if x <= I32Min as real then I32Min
    else if x >= 0.0 then x.Floor
    else -((-x).Floor)
  }

  /** `as i32` rounds toward zero: the result never lies farther from zero than its input. */
  lemma TruncTowardZero(x: real)
    ensures x >= 0.0 ==> 0 <= TruncI32(x) && TruncI32(x) as real <= x
    ensures x <= 0.0 ==> TruncI32(x) <= 0 && x <= TruncI32(x) as real
  {
  }
}
