/**
 * The colour-channel order of the icon path: `rgb_order` and the three-argument
 * `colorize`, which routes the red, green and blue inputs to the output
 * channels according to the current order.
 */
module ColorOrder {
  import opened CArith
  import opened Leds

  /** The six `EOrder` values the firmware uses. */
  datatype EOrder = RGB | RBG | BGR | BRG | GBR | GRB

  /** `colorize(r, g, b)` under `order`. */
  function Colorize(order: EOrder, c: Rgb): (out: Rgb)
    ensures multiset{out.r, out.g, out.b} == multiset{c.r, c.g, c.b}
    ensures order == RGB ==> out == c
  {
    match order
    case RGB => Rgb(c.r, c.g, c.b)
    case RBG => Rgb(c.r, c.b, c.g)
    case BGR => Rgb(c.b, c.g, c.r)
    case BRG => Rgb(c.b, c.r, c.g)
    case GBR => Rgb(c.g, c.b, c.r)
    case GRB => Rgb(c.g, c.r, c.b)
  }

  /** The order that undoes `order`. */
  function Inverse(order: EOrder): EOrder
  {
    match order
    case BRG => GBR
    case GBR => BRG
    case _ => order
  }

  /** Re-ordering with the inverse order restores the original colour. */
  lemma ColorizeInverse(order: EOrder, c: Rgb)
    ensures Inverse(Inverse(order)) == order
    ensures Colorize(Inverse(order), Colorize(order, c)) == c
    ensures Colorize(order, Colorize(Inverse(order), c)) == c
  {
  }

  /** Each order routes the channels differently: the six are six distinct permutations. */
  lemma ColorizeOrdersDistinct(o1: EOrder, o2: EOrder)
    requires o1 != o2
    ensures Colorize(o1, Rgb(0, 1, 2)) != Colorize(o2, Rgb(0, 1, 2))
  {
  }
}
