/**
 * The colour classification the interpreter relies on (`is_white`,
 * `is_black`, `hue_light_diff`). The colour module itself is not part of this
 * model: a colour is one of the 18 Piet colours, given by its place on the
 * hue cycle and on the lightness cycle, or white, or black.
 */
module Colors {

  /** Position on the hue cycle red, yellow, green, cyan, blue, magenta. */
  type Hue = h: int | 0 <= h < 6

  /** Position on the lightness cycle light, normal, dark. */
  type Lightness = l: int | 0 <= l < 3

  datatype Color = White | Black | Hued(hue: Hue, light: Lightness)

  predicate IsWhite(c: Color) { c.White? }

  predicate IsBlack(c: Color) { c.Black? }

  /**
   * The instruction key of a crossing from colour `a` into colour `b`: how
   * many steps along the hue cycle and along the lightness cycle lead from
   * `a` to `b`. The key is (0, 0) exactly when the two colours are equal.
   */
  function HueLightDiff(a: Color, b: Color): (d: (int, int))
    requires a.Hued? && b.Hued?
    ensures 0 <= d.0 < 6 && 0 <= d.1 < 3
    ensures d == (0, 0) <==> a == b
  {
    ((b.hue - a.hue) % 6, (b.light - a.light) % 3)
  }

  /** The key and the colour it starts from determine the colour it leads to. */
  lemma HueLightDiffDeterminesTarget(a: Color, b: Color)
    requires a.Hued? && b.Hued?
    ensures b == Hued((a.hue + HueLightDiff(a, b).0) % 6, (a.light + HueLightDiff(a, b).1) % 3)
  {
  }
}
