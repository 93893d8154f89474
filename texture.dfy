/**
 * Textures (src/texture.rs): a solid colour, and a checker that picks one of two textures by the sign of a product
 * of sines. `sin` is passed in and left uninterpreted.
 */
module Textures {
  import opened Wrappers
  import opened Vectors

  datatype Texture =
    | SolidColor(colorValue: Color)
    | Checker(odd: Texture, even: Texture)

  /** `SolidColor::new`: a missing colour defaults to black. */
  function SolidColorNew(colorValue: Option<Color>): (t: Texture)
    ensures t.SolidColor?
    ensures colorValue.None? ==> t.colorValue == Vec3(0.0, 0.0, 0.0)
    ensures colorValue.Some? ==> t.colorValue == colorValue.value
  {
    SolidColor(colorValue.UnwrapOr(Vectors.New(None, None, None)))
  }

  /** `SolidColor::from(r, g, b)`. */
  function SolidColorFrom(r: real, g: real, b: real): (t: Texture)
    ensures t == SolidColor(Vec3(r, g, b))
  {
    SolidColorNew(Some(Vectors.New(Some(r), Some(g), Some(b))))
  }

  /** `CheckerTexture::new(even, odd)`: the even texture is the first argument. */
  function CheckerNew(even: Texture, odd: Texture): (t: Texture)
    ensures t.Checker? && t.even == even && t.odd == odd
  {
    Checker(odd, even)
  }

  /** `CheckerTexture::from(color1, color2)`: `color1` goes to the even slot and `color2` to the odd slot. */
  function CheckerFrom(color1: Color, color2: Color): (t: Texture)
    ensures t == Checker(SolidColor(color2), SolidColor(color1))
  {
    Checker(SolidColorNew(Some(color2)), SolidColorNew(Some(color1)))
  }

  /** The colours a texture can ever produce: the solid colours at its leaves. */
  function Palette(t: Texture): set<Color> {
    match t
    case SolidColor(c) => {c}
    case Checker(odd, even) => Palette(odd) + Palette(even)
  }

  /** The product of sines the checker tests. */
  function Sines(p: Point3, sin: real -> real): real {
    sin(10.0 * p.x) * sin(10.0 * p.y) * sin(10.0 * p.z)
  }

  /**
   * `value(u, v, p)`: a solid colour returns its colour; a checker defers to `odd` when the sine product is negative
   * and to `even` otherwise. Whatever the point, the colour is one of the texture's solid colours.
   */
  function Value(t: Texture, u: real, v: real, p: Point3, sin: real -> real): (c: Color)
    ensures c in Palette(t)
  {
    match t
    case SolidColor(colorValue) => colorValue
    case Checker(odd, even) =>
      if Sines(p, sin) < 0.0 then Value(odd, u, v, p, sin) else Value(even, u, v, p, sin)
  }

  /** A solid colour ignores `u`, `v` and `p`. */
  lemma SolidValueIgnoresCoordinates(c: Color, u: real, v: real, p: Point3, u': real, v': real, p': Point3,
                                     sin: real -> real)
    ensures Value(SolidColor(c), u, v, p, sin) == c
    ensures Value(SolidColor(c), u, v, p, sin) == Value(SolidColor(c), u', v', p', sin)
  {
  }

  /**
   * A checker made by `from(color1, color2)` shows `color2` exactly where the sine product is negative and `color1`
   * everywhere else, including where the product is zero.
   */
  lemma CheckerFromColors(color1: Color, color2: Color, u: real, v: real, p: Point3, sin: real -> real)
    ensures Sines(p, sin) < 0.0 ==> Value(CheckerFrom(color1, color2), u, v, p, sin) == color2
    ensures Sines(p, sin) >= 0.0 ==> Value(CheckerFrom(color1, color2), u, v, p, sin) == color1
    ensures Sines(p, sin) == 0.0 ==> Value(CheckerFrom(color1, color2), u, v, p, sin) == color1
  {
  }

  /** A checker whose two slots hold the same texture is that texture. */
  lemma CheckerOfSame(t: Texture, u: real, v: real, p: Point3, sin: real -> real)
    ensures Value(CheckerNew(t, t), u, v, p, sin) == Value(t, u, v, p, sin)
  {
  }

  /** The colour depends on `p` only through the sign test at each checker. */
  lemma {:induction false} ValueDependsOnlyOnSign(t: Texture, u: real, v: real, p: Point3, q: Point3,
                                                  sin: real -> real)
    requires (Sines(p, sin) < 0.0) == (Sines(q, sin) < 0.0)
    ensures Value(t, u, v, p, sin) == Value(t, u, v, q, sin)
  {
    match t
    case SolidColor(c) =>
    case Checker(odd, even) =>
      ValueDependsOnlyOnSign(odd, u, v, p, q, sin);
      ValueDependsOnlyOnSign(even, u, v, p, q, sin);
  }
}
