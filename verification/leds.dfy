/**
 * The 8x8 LED matrix: what a pixel can hold, and `getLedIndex`, the row-major
 * address of column `x` in row `y`.
 */
module Leds {
  import opened CArith

  const Width := 8
  const NumLeds := 64

  /** A `CRGB` value. */
  datatype Rgb = Rgb(r: Byte, g: Byte, b: Byte)

  /**
   * What a render writes to one LED: black (`CHSV(0, 0, 0)`), a fully
   * saturated, full-value hue (`CHSV(h, 255, 255)`), or an explicit colour.
   * Equality of pixels is finer than equality of the `CRGB` values shown:
   * `Off` and `Color(Rgb(0, 0, 0))` are different pixels but the same black.
   */
  datatype Pixel = Off | Hue(h: Byte) | Color(rgb: Rgb)

  /** A full matrix. */
  type Matrix = m: seq<Pixel> | |m| == NumLeds witness seq(NumLeds, _ => Off)

  /** Every LED black, as `FastLED.clear()` leaves the buffer. */
  function Dark(): (m: Matrix)
    ensures forall k :: 0 <= k < NumLeds ==> m[k].Off?
  {
    seq(NumLeds, _ => Off)
  }

  /**
   * `getLedIndex(x, y)`: `y * 8 + x`, returned as `uint8_t`. On the 8x8 grid
   * the index stays inside the matrix and gives back its column and row.
   */
  function LedIndex(x: Byte, y: Byte): (k: Byte)
    ensures x < Width && y < Width ==> k < NumLeds && k % Width == x && k / Width == y
  {
    ToByte(y * Width + x)
  }

  /** Column and row of LED `k`: the inverse of `LedIndex` on the matrix. */
  function Coords(k: int): (xy: (Byte, Byte))
    requires 0 <= k < NumLeds
    ensures xy.0 < Width && xy.1 < Width
    ensures LedIndex(xy.0, xy.1) == k
  {
    (k % Width, k / Width)
  }

  /** Distinct grid cells get distinct LEDs. */
  lemma LedIndexInjective(x: Byte, y: Byte, x': Byte, y': Byte)
    requires x < Width && y < Width && x' < Width && y' < Width
    requires LedIndex(x, y) == LedIndex(x', y')
    ensures x == x' && y == y'
  {
  }

  /** Every LED is the image of exactly the cell `Coords` names. */
  lemma LedIndexBijective(k: int)
    requires 0 <= k < NumLeds
    ensures forall x: Byte, y: Byte :: x < Width && y < Width ==>
              (LedIndex(x, y) == k <==> (x, y) == Coords(k))
  {
  }
}
