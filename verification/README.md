# Bluetooth music visualizer: verified model of the firmware core

This project models the integer and permutation logic of the visualizer in
`src/main.cpp`. The firmware receives stereo PCM over Bluetooth A2DP and shows
an 8-band spectrum on an 8x8 LED matrix. It also has a decorative icon mode
that cycles the colour-channel order. The model has eight modules:

- `CArith` (`carith.dfy`): C integer conventions. It covers `uint8_t`/`uint32_t`
  ranges, conversion to `uint8_t`, C's truncating `/`, and Arduino's `map`.
- `Leds` (`leds.dfy`): the pixel datatype (`Off | Hue(h) | Color(rgb)`), the
  64-LED matrix, and `getLedIndex` with its inverse.
- `ColorOrder` (`color_order.dfy`): `EOrder` and the three-argument `colorize`.
- `Handoff` (`handoff.dfy`): `audio_data_callback`. It decodes little-endian
  int16 and averages the channels into the 512-sample frame. It also holds the
  single-slot state (`Produce`, `Consume`) and the log of blocks forwarded to
  the audio sink.
- `Bands` (`bands.dfy`): `createBands` and the band pass of `renderFFT`
  (reset, noise floor, scaling, clamp, peak-hold by maximum).
- `Bars` (`bars.dfy`): the bar-graph render loop, bar height by `map`, and the
  level hue of the one-argument `colorize`.
- `Icon` (`icon.dfy`): `drawIcon`. It covers the 32-bit animation counter, the
  colour-order switch, 24-bit unpacking, and placement of the 64 icon pixels.
- `Worker` (`worker.dfy`): one turn of the `renderFFT` loop, and an event
  machine. In the event machine, `Audio` is one callback and `Poll` is one
  worker turn. Its main theorem relates the machine to a description of the
  event trace that does not mention the state.

The two threads are modelled as a sequence of atomic events. A worker turn
that finds the slot occupied does four things in one step: it transforms the
frame, runs the band pass, releases the slot, and renders. The source releases
the slot before rendering, but rendering reads only the peak table, so the
order does not change the result. The FFT is a parameter `fft` of type
`(Buffer, Buffer) -> (Buffer, Buffer)`. It returns the frame buffers after
windowing, transform and complex-to-magnitude. Its first component is the
magnitude vector.

Notes on behaviour of the code that may be surprising (the model follows
the code):

- The colour order applies only to the icon path (`src/main.cpp:211`). The
  spectrum path writes `CHSV` hues directly and is not re-ordered.
- From counter 0 and RGB, the order after 6000 calls is GBR, not RGB. RGB
  returns at 7000 (`Icon.GbrBeforeRgbReturns`). Case 7000 sets RGB again, and
  the counter values 8000 to 9999 and 0 to 999 (mod 10000) leave the order unchanged.
- A lone loud bin does not always light its bar. A magnitude just above 2000
  scales to a peak of 10, and `map(10, 1, 200, 0, 8)` is 0. A bar appears
  only from a magnitude of 5200 (peak 26) upward (`Worker.SingleLoudBinBar`).

## Model

| member | source | states |
|---|---|---|
| CArith.CDiv | src/main.cpp:169 | The quotient is truncated toward zero: the remainder lies in [0, b) for a non-negative dividend and in (-b, 0] for a negative one. |
| CArith.ToByte | src/main.cpp:164-169 | Storing into `uint8_t` keeps values in [0, 256) unchanged. Any other value is reduced modulo 256. |
| Leds.LedIndex | src/main.cpp:87-94 | On the 8x8 grid, `getLedIndex(x, y)` is below 64. Its index gives back column x as `k % 8` and row y as `k / 8`. |
| Leds.Coords | src/main.cpp:87-94 | Every LED 0..63 is `getLedIndex` of some cell of the grid. |
| Leds.LedIndexInjective | src/main.cpp:87-94 | Distinct grid cells map to distinct LEDs. |
| Leds.LedIndexBijective | src/main.cpp:87-94 | For every LED k, the cell `Coords(k)` is the only cell mapped to k. |
| Leds.Dark | src/main.cpp:166 | The cleared matrix has every LED off. |
| ColorOrder.Colorize | src/main.cpp:102-112 | For every order, the output channels are a permutation of (r, g, b). The RGB order is the identity. |
| ColorOrder.ColorizeInverse | src/main.cpp:102-112 | Every order has an inverse order that restores the input colour, and the inverse of the inverse is the order itself. |
| ColorOrder.ColorizeOrdersDistinct | src/main.cpp:102-112 | The six orders are six different channel permutations. |
| Handoff.Zeros | src/main.cpp:227 | The zeroed imaginary buffer holds 0 in all 512 entries. |
| Handoff.Le16 | src/main.cpp:224-225 | The decoded sample is in [-32768, 32767] and is congruent to `lo + 256*hi` modulo 65536. It is negative exactly when the high byte has its top bit set. |
| Handoff.Le16RoundTrip | src/main.cpp:224-225 | Decoding the two little-endian bytes of an int16 value gives the value back. |
| Handoff.Le16BytesRoundTrip | src/main.cpp:224-225 | Encoding a decoded byte pair gives the same two bytes. |
| Handoff.MonoFrame | src/main.cpp:222-229 | Every frame sample is an average of two int16 values, so it lies in [-32768, 32767]. |
| Handoff.DecodeFrame | src/main.cpp:222-229 | The loop with its running byte offset fills the real buffer with the mono frame of the block and zeroes the imaginary buffer, whatever they held before. |
| Handoff.MonoFrameOfInterleave | src/main.cpp:222-229 | For interleaved little-endian left/right channels, frame sample i is `(left[i] + right[i]) / 2`. |
| Handoff.MonoFrameReadsPrefix | src/main.cpp:222-229 | Only the first 2048 bytes of a block affect the frame. |
| Handoff.InitSlot | src/main.cpp:60-62 | At start-up both frame buffers are the zero-initialised globals `vReal`/`vImag`, the slot (the one-item queue created at `src/main.cpp:262`) is empty, and nothing has been forwarded. |
| Handoff.Produce | src/main.cpp:217-236 | The slot ends occupied and the block is appended unchanged to the forward log. An empty slot receives the decoded frame with a zero imaginary part, which needs a block of at least 2048 bytes. An occupied slot keeps its frame and accepts a block of any length. |
| Handoff.Consume | src/main.cpp:162 | The slot ends empty and the frame and log are unchanged. On an already empty slot it is a no-op. |
| Handoff.SecondProduceDropped | src/main.cpp:219-233 | Of two blocks with no consume between them, the frame is the first block's decode, and both blocks are forwarded in order. |
| Handoff.ProduceAfterConsume | src/main.cpp:220-229 | After a consume, the next block's decode replaces whatever the frame buffers held. |
| Bands.BandOf | src/main.cpp:115-132 | Every bin index maps to a band in 0..7. |
| Bands.BandOfCountsBoundaries | src/main.cpp:116-132 | The band of bin i equals the number of boundaries 2, 5, 7, 15, 30, 53, 106 that lie strictly below i. |
| Bands.BandOfInterval | src/main.cpp:116-132 | Bin i is in band b if and only if it lies above boundary b-1 and at or below boundary b. |
| Bands.BandOfMonotone | src/main.cpp:116-132 | The band is non-decreasing in the bin index. |
| Bands.BandBoundaries | src/main.cpp:116-132 | Each boundary bin is in the lower band, and the bin after it is in the next band. |
| Bands.CreateBands | src/main.cpp:133-139 | Only the peak of bin i's band changes. Its new value is the maximum of the old peak and `min(dsize, 200)`. |
| Bands.CreateBandsBounds | src/main.cpp:133-139 | One `createBands` call never lowers a peak, and never raises it above 200 unless it was already higher. |
| Bands.Scaled | src/main.cpp:156-157 | A bin above the noise floor contributes a clamped value between 10 and 200. |
| Bands.PeakUpTo | src/main.cpp:155-159 | During the pass, a band peak is either 0 or in [10, 200]. |
| Bands.PeakUpToIsMax | src/main.cpp:151-159 | The band peak is at least the scaled value of every contributing bin (usable range, above the floor, in the band). It equals one of those values, or 0 exactly when no bin contributes. |
| Bands.BandPeaks | src/main.cpp:151-159 | After a pass, every one of the eight peaks is 0 or in [10, 200]. |
| Bands.BandPass | src/main.cpp:151-159 | The reset loop and the bin loop produce exactly the peak table given by `BandPeaks`, whatever the previous peaks were. Every peak is in [0, 200]. |
| Bands.PeakUpToUsableOnly | src/main.cpp:155 | Bins 0, 1 and 256 and above never affect a band peak. |
| Bands.BandPeaksUsableOnly | src/main.cpp:155 | Two spectra that agree on bins 2..255 give the same peak table. |
| Bands.QuietBandPeaks | src/main.cpp:151-159 | A spectrum with no usable bin above 2000 gives all-zero peaks. |
| Bands.SingleLoudBin | src/main.cpp:151-159 | If only bin j is loud, its band's peak is j's scaled magnitude and the other seven peaks are 0. |
| CArith.ArduinoMapRange | src/main.cpp:169 | Arduino's `map` sends the low end of the input range to the low end of the output range and the high end to the high end. An input inside the range lands inside the (non-decreasing) output range. |
| CArith.MapScale | src/main.cpp:169 | The truncated offset `d * rise / run` of `map` is 0 at `d = 0`, equals `rise` at `d = run`, and lies in [0, rise] between them. |
| CArith.ExactQuotient | src/main.cpp:169 | C's truncating division by b undoes a multiplication by b, for either sign. |
| Bars.Height | src/main.cpp:169 | For a peak in [0, 200], the bar height is at most 8. |
| Bars.LevelHue | src/main.cpp:96-98 | Level i of a bar, for i in 0..7, has hue 128 + 16i. |
| Bars.RenderBars | src/main.cpp:164-174 | The render loop leaves LED `getLedIndex(7-i, 7-band)` showing `Hue(128+16*i)` if level i < height and off otherwise. The result is the picture `Picture(peaks)`, so every one of the 64 LEDs is written. |
| Bars.HeightCoversLevel | src/main.cpp:169 | Level i is lit if and only if `8*(peak-1) >= 199*(i+1)`, that is, when the peak covers (i+1)/8 of the range [1, 200]. |
| Bars.HeightMonotone | src/main.cpp:169 | The bar height is monotone in the peak on [0, 200]. |
| Bars.HeightVisibility | src/main.cpp:169 | A bar is visible if and only if the peak is at least 26. It is full if and only if the peak is 200. |
| Bars.BarsLit | src/main.cpp:168-174 | LED k is lit if and only if its level is below its band's height, and a lit LED has that level's hue. |
| Bars.SilentBars | src/main.cpp:166-174 | Peaks below 26 (all-zero peaks included) give an all-off matrix. |
| Icon.Unpack | src/main.cpp:204-207 | The three extracted bytes recombine as `r*65536 + g*256 + b`, which equals the word modulo 2^24. |
| Icon.Pack | src/main.cpp:204-207 | A packed colour fits in 24 bits. |
| Icon.ByteDecomposition | src/main.cpp:204-207 | A 32-bit word is its top byte followed by the red, green and blue bytes. |
| Icon.UnpackPack | src/main.cpp:204-207 | Unpacking a packed colour returns that colour. |
| Icon.PackUnpack | src/main.cpp:204-207 | Packing an unpacked word returns its low 24 bits. |
| Icon.Advance | src/main.cpp:190-200 | The 32-bit counter goes up by one and wraps from 2^32-1 to 0. The order changes only at the seven case labels of `counter % 10000`, where it takes the table value. |
| Icon.PhaseStep | src/main.cpp:190-192 | Each increment moves `counter % 10000` to the next value, 9999 wraps to 0, and 2^32-1 is 7295 modulo 10000. |
| Icon.TableStep | src/main.cpp:192-200 | Moving to the next counter value without hitting a case label keeps the table value. |
| Icon.AdvanceConsistent | src/main.cpp:190-200 | If the order equals the table value for the counter, this still holds after a call, including across the 32-bit wrap. |
| Icon.IterateConsistent | src/main.cpp:190-200 | The order/table agreement holds after any number of calls. |
| Icon.CounterAfter | src/main.cpp:190 | Before wrapping, the counter equals the number of `drawIcon` calls. |
| Icon.OrderAfter | src/main.cpp:190-200 | After n calls from (0, RGB), the order is the table value of `(n % 10000) / 1000`: RGB for 0, 1, 7, 8, 9; RBG for 2; BGR for 3; BRG for 4; GRB for 5; GBR for 6. |
| Icon.OrderPeriodic | src/main.cpp:192-200 | Before the counter wraps, the order repeats every 10000 calls. |
| Icon.GbrBeforeRgbReturns | src/main.cpp:193-199 | 6000 calls into a cycle the order is GBR, and 1000 calls later it is RGB. |
| Icon.DrawIcon | src/main.cpp:189-212 | The state advances once. LED i then shows icon word i, unpacked and re-ordered by the new order, so every LED is overwritten. |
| Icon.IconPixelRecoversWord | src/main.cpp:204-211 | Re-ordering a drawn LED by the inverse order and packing it gives the icon word's low 24 bits. |
| Worker.Analyse | src/main.cpp:147-174 | The peaks of a pass are in [0, 200], and the picture is the bar graph of those peaks. |
| Worker.Pass | src/main.cpp:145-176 | A turn on an empty slot changes nothing. A turn on an occupied slot shows the analysis of the frame, empties the slot, and leaves the forward log alone. |
| Worker.InitWorld | src/main.cpp:253-282 | When the audio callback is registered, the slot is empty, nothing has been forwarded, every peak is 0, and the matrix is whatever `setup()` left on it. |
| Worker.OccupiedIffPending | src/main.cpp:220-232 | After any such event sequence (blocks arriving on an empty slot have at least 2048 bytes), the slot is occupied exactly when a block arrived since the last poll. |
| Worker.RunMatchesTrace | src/main.cpp:145-162 | After any event sequence in which every block arriving on an empty slot has at least 2048 bytes, four things hold. The sink has received every block in order. The slot is occupied exactly when a block arrived since the last poll, and it then holds the first such block's frame. The peaks and LEDs are the analysis of the last analysed block. Before the first analysis the peaks are 0 and the matrix is still the one `setup()` left, the last boot-icon frame. |
| Worker.SecondBlockNotAnalysed | src/main.cpp:220-233 | After two blocks and one poll, the picture is the analysis of the first block, and both blocks reach the sink. The second block may have any length. |
| Worker.QuietPassDark | src/main.cpp:151-174 | A pass whose spectrum has no loud usable bin zeroes all peaks and darkens the matrix, whatever the previous peaks were. |
| Worker.SingleLoudBinBar | src/main.cpp:155-172 | With a single loud bin j, only band `BandOf(j)` can show a bar, and it does if and only if the magnitude is at least 5200. |

## Left out

- The Hamming window, FFT and complex-to-magnitude (`src/main.cpp:147-149`) are floating-point code in the arduinoFFT library. The model takes them as the parameter `fft`.
- The icon brightness `30 + 30*sin(counter/100)` and `FastLED.setBrightness` (`src/main.cpp:167, 209-210`) are floating point and display settings with no effect on pixel contents.
- FPS logging with `millis()`, the unused `hueOffset`, and `log_v`/`log_e` (`src/main.cpp:178-184, 208`) are timing and diagnostics only.
- FreeRTOS queue creation, the `queue == NULL` error path, task pinning and the busy-poll loop (`src/main.cpp:143-145, 262-277`) are left out. The concurrency becomes a sequence of atomic `Audio`/`Poll` events, and the model assumes the queue was created.
- `FastLED.show()`, `delay(1)`, and the conversion of `CHSV` to RGB are left out: they are hardware and library I/O. A lit bar LED keeps its hue (`Pixel.Hue`).
- The A2DP sink call (`src/main.cpp:235`) becomes the forward log. The AAC decoder, pin set-up and the A2DP state query (`src/main.cpp:238-305`) are hardware and library I/O. What `setup()` leaves on the matrix (the boot icon drawn at `src/main.cpp:247`) is the parameter `leds0` of the event machine.
- Worker.RunMatchesTrace: the `drawIcon` calls of `loop()` (`src/main.cpp:290-298`, while the A2DP stream is suspended or stopped) write the same LED buffer and advance the same animation counter, but they are not events of the machine. The LED claim therefore describes the buffer as the worker and start-up leave it; an icon drawn by `loop()` after the last analysis would replace that picture until the next analysing pass. `Icon.DrawIcon` states what such a call writes.
- The icon tables of `icons.h` and the sounds of `sounds.h` are not part of this model. An icon is any sequence of 64 32-bit words.
- Bands.Scaled: the model divides exactly and takes the floor. It does not model the float rounding of `(int)vReal[i] / amplitude`. That rounding cannot cross an integer below the 200 clamp. It also does not model the undefined conversion of magnitudes above `INT_MAX` to `int`.
- Bars.Height: the model does not include 32-bit `long` overflow of `(peak - 1) * 8` inside `map`. Overflow needs peaks near 2^28, and the band pass only produces peaks up to 200.
- Handoff.Produce: `len` is ignored, as in the source. On an empty slot the code reads 2048 bytes without checking `len`, so the model requires a block of at least 2048 bytes there; a shorter one would be an out-of-bounds read. On an occupied slot any length is accepted. In the event machine, `Worker.WellFormed` places the same demand only on blocks that arrive while no block is pending.
