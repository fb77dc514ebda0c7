/**
 * The bar-graph renderer of `renderFFT`: band `b` is drawn in matrix row
 * `7 - b`, its bar rising from column 7 toward column 0, as tall as Arduino's
 * `map` of the band peak from [1, 200] onto [0, 8]; lit cells take the hue of
 * the one-argument `colorize`, the rest are black. Level `i` of a bar (the
 * loop variable `i`, 0 at the bar's foot) is the cell in matrix column `7 - i`.
 */
module Bars {
  import opened CArith
  import opened Leds
  import Bands

  /** `intensity = map(peak, 1, amplitude, 0, 8)`, stored in a `uint8_t`. */
  function Height(peak: int): (h: Byte)
    ensures 0 <= peak <= Bands.Amplitude ==> h <= Width
  {
    ToByte(ArduinoMap(peak, 1, Bands.Amplitude, 0, Width))
  }

  /**
   * `colorize(i)`: the hue `(128 + i * 16) % 256`. C's remainder and the
   * conversion to the `uint8_t` hue together agree with Dafny's `%`.
   */
  function LevelHue(level: int): (h: Byte)
    ensures 0 <= level < Width ==> h == 128 + 16 * level
  {
    (128 + level * 16) % 0x100
  }

  /** What the cell for level `level` of band `band` shows. */
  function BarPixel(peaks: seq<int>, band: int, level: int): Pixel
    requires |peaks| == Bands.NumBands
    requires 0 <= band < Bands.NumBands
  {
    if level >= Height(peaks[band]) then Off else Hue(LevelHue(level))
  }

  /** The picture, LED by LED: LED `k` shows level `7 - k % 8` of band `7 - k / 8`. */
  function Picture(peaks: seq<int>): Matrix
    requires |peaks| == Bands.NumBands
  {
    seq(NumLeds, k requires 0 <= k < NumLeds => BarPixel(peaks, 7 - k / Width, 7 - k % Width))
  }

  /**
   * The render loop: clear the matrix, then for each band and each level write
   * `leds[getLedIndex(7 - i, 7 - band)]`.
   */
  method RenderBars(peaks: seq<int>) returns (leds: Matrix)
    requires |peaks| == Bands.NumBands
    ensures leds == Picture(peaks)
    ensures forall band, level :: 0 <= band < Bands.NumBands && 0 <= level < Width ==>
              leds[LedIndex(7 - level, 7 - band)] == BarPixel(peaks, band, level)
  {
    leds := Dark();
    var band := 0;
    while band < Bands.NumBands
      invariant 0 <= band <= Bands.NumBands
      invariant forall b, r :: 0 <= b < band && 0 <= r < Width ==>
                  leds[(7 - b) * Width + (7 - r)] == BarPixel(peaks, b, r)
    {
      var intensity := Height(peaks[band]);
      var i := 0;
      while i < Width
        invariant 0 <= i <= Width
        invariant forall b, r :: 0 <= r < Width && (0 <= b < band || (b == band && r < i)) ==>
                    leds[(7 - b) * Width + (7 - r)] == BarPixel(peaks, b, r)
      {
        leds := leds[LedIndex(7 - i, 7 - band) := if i >= intensity then Off else Hue(LevelHue(i))];
        i := i + 1;
      }
      band := band + 1;
    }
    forall k | 0 <= k < NumLeds
      ensures leds[k] == Picture(peaks)[k]
    {
      var b, r := 7 - k / Width, 7 - k % Width;
      assert k == (7 - b) * Width + (7 - r);
    }
  }

  /** Level `level` of a bar is lit exactly when the peak covers `(level + 1) / 8` of the range [1, 200]. */
  lemma HeightCoversLevel(peak: int, level: int)
    requires 0 <= peak <= Bands.Amplitude
    requires 0 <= level < Width
    ensures Height(peak) > level <==> Width * (peak - 1) >= (Bands.Amplitude - 1) * (level + 1)
  {
  }

  /** Taller peaks never give shorter bars. */
  lemma HeightMonotone(p: int, q: int)
    requires 0 <= p <= q <= Bands.Amplitude
    ensures Height(p) <= Height(q)
  {
  }

  /** A bar is visible only once the peak reaches 26; a full-scale peak fills all eight levels. */
  lemma HeightVisibility(peak: int)
    requires 0 <= peak <= Bands.Amplitude
    ensures Height(peak) > 0 <==> peak >= 26
    ensures Height(peak) == Width <==> peak == Bands.Amplitude
  {
    HeightCoversLevel(peak, 0);
    HeightCoversLevel(peak, Width - 1);
  }

  /** LED `k` is lit exactly when its level is below the height of its band's bar. */
  lemma BarsLit(peaks: seq<int>, k: int)
    requires |peaks| == Bands.NumBands
    requires 0 <= k < NumLeds
    ensures Picture(peaks)[k] != Off <==> 7 - k % Width < Height(peaks[7 - k / Width])
    ensures Picture(peaks)[k] != Off ==> Picture(peaks)[k] == Hue(128 + 16 * (7 - k % Width))
  {
  }

  /** Peaks too small to light a level, all-zero ones among them, give a dark matrix. */
  lemma SilentBars(peaks: seq<int>)
    requires |peaks| == Bands.NumBands
    requires forall b :: 0 <= b < Bands.NumBands ==> 0 <= peaks[b] < 26
    ensures Picture(peaks) == Dark()
  {
    forall k | 0 <= k < NumLeds
      ensures Picture(peaks)[k] == Dark()[k]
    {
      SilentLed(peaks, k);
    }
  }

  /** LED `k` of the picture is off when its band's peak is below 26. */
  lemma SilentLed(peaks: seq<int>, k: int)
    requires |peaks| == Bands.NumBands
    requires 0 <= k < NumLeds
    requires 0 <= peaks[7 - k / Width] < 26
    ensures Picture(peaks)[k] == Off
  {
    DarkCell(peaks, 7 - k / Width, 7 - k % Width);
  }

  /** A cell of a band whose peak is below 26 is off. */
  lemma DarkCell(peaks: seq<int>, band: int, level: int)
    requires |peaks| == Bands.NumBands
    requires 0 <= band < Bands.NumBands && 0 <= level
    requires 0 <= peaks[band] < 26
    ensures BarPixel(peaks, band, level) == Off
  {
    HeightVisibility(peaks[band]);
  }
}
