/**
 * The analysis worker of `renderFFT` and its interplay with the audio
 * callback, as a sequential event machine: an `Audio` event is one call of
 * `audio_data_callback`, a `Poll` event is one turn of the worker's loop.
 * A turn that finds the slot occupied transforms the frame, runs the band
 * pass, releases the slot and renders the bars; one that finds it empty does
 * nothing.
 */
module Worker {
  import opened CArith
  import opened Leds
  import opened Handoff
  import Bands
  import Bars

  /**
   * Hamming window, forward FFT and complex-to-magnitude of the frame
   * buffers, applied in place; afterwards the real buffer holds the
   * magnitude of every bin. The transform belongs to a floating-point
   * library, so the model takes it as a parameter.
   */
  type Fft = (Buffer, Buffer) -> (Buffer, Buffer)

  /** The global `peak` table. */
  type PeakTable = p: seq<int> | |p| == Bands.NumBands witness seq(Bands.NumBands, _ => 0)

  datatype Option<T> = None | Some(value: T)

  /** Everything the two sides share or own: the slot with its frame, the peak table, the LED buffer. */
  datatype World = World(slot: Slot, peaks: PeakTable, leds: Matrix)

  /**
   * The state when `audio_data_callback` is registered: an empty slot, zero
   * peaks, and the matrix `leds0` that `setup()` left behind (the last frame
   * of the boot icon drawn while the boot sound plays).
   */
  function InitWorld(leds0: Matrix): (w: World)
    ensures !w.slot.occupied && w.slot.forwarded == []
    ensures forall b :: 0 <= b < Bands.NumBands ==> w.peaks[b] == 0
    ensures w.leds == leds0
  {
    World(InitSlot(), seq(Bands.NumBands, _ => 0), leds0)
  }

  /** The peaks and picture a pass produces from the frame (`re`, `im`). */
  function Analyse(fft: Fft, re: Buffer, im: Buffer): (r: (PeakTable, Matrix))
    ensures r.1 == Bars.Picture(r.0)
    ensures forall b :: 0 <= b < Bands.NumBands ==> 0 <= r.0[b] <= Bands.Amplitude
  {
    var peaks := Bands.BandPeaks(fft(re, im).0);
    (peaks, Bars.Picture(peaks))
  }

  /**
   * One turn of the worker loop: when the slot is occupied, transform the
   * frame in place, recompute the peaks, release the slot and render.
   */
  function Pass(w: World, fft: Fft): (r: World)
    ensures !w.slot.occupied ==> r == w
    ensures !r.slot.occupied
    ensures r.slot.forwarded == w.slot.forwarded
    ensures w.slot.occupied ==> (r.peaks, r.leds) == Analyse(fft, w.slot.re, w.slot.im)
  {
    if !w.slot.occupied then w
    else
      var out := fft(w.slot.re, w.slot.im);
      var shown := Analyse(fft, w.slot.re, w.slot.im);
      World(Consume(w.slot.(re := out.0, im := out.1)), shown.0, shown.1)
  }

  datatype Event = Audio(data: seq<Byte>) | Poll

  /**
   * Every audio block that arrives while no block is pending (so the slot is
   * empty and the callback decodes it) is long enough for the decode loop;
   * a block that arrives on an occupied slot may have any length.
   */
  predicate WellFormed(evs: seq<Event>)
    decreases |evs|
  {
    |evs| == 0 ||
    (WellFormed(evs[..|evs| - 1])
     && (evs[|evs| - 1].Audio? && Pending(evs[..|evs| - 1]).None? ==> |evs[|evs| - 1].data| >= FrameBytes))
  }

  function Step(w: World, e: Event, fft: Fft): World
    requires e.Audio? && !w.slot.occupied ==> |e.data| >= FrameBytes
  {
    match e
    case Audio(data) => w.(slot := Produce(w.slot, data))
    case Poll => Pass(w, fft)
  }

  /** The world after the events `evs`, from the state `setup()` leaves with matrix `leds0`. */
  function Run(fft: Fft, leds0: Matrix, evs: seq<Event>): World
    requires WellFormed(evs)
    decreases |evs|, 0
  {
    if |evs| == 0 then InitWorld(leds0)
    else
      var prefix := evs[..|evs| - 1];
      OccupiedIffPending(fft, leds0, prefix);
      Step(Run(fft, leds0, prefix), evs[|evs| - 1], fft)
  }

  /** The slot is occupied exactly when a block arrived since the last poll. */
  lemma {:induction false} OccupiedIffPending(fft: Fft, leds0: Matrix, evs: seq<Event>)
    requires WellFormed(evs)
    ensures Run(fft, leds0, evs).slot.occupied <==> Pending(evs).Some?
    decreases |evs|, 1
  {
    if |evs| > 0 {
      OccupiedIffPending(fft, leds0, evs[..|evs| - 1]);
    }
  }

  // ---------------------------------------------------------------- trace reference

  /** Every block delivered, in order. */
  function Delivered(evs: seq<Event>): seq<seq<Byte>>
    decreases |evs|
  {
    if |evs| == 0 then []
    else
      var rest := Delivered(evs[..|evs| - 1]);
      match evs[|evs| - 1]
      case Audio(data) => rest + [data]
      case Poll => rest
  }

  /** The first block delivered since the last poll, if any. */
  function Pending(evs: seq<Event>): Option<seq<Byte>>
    decreases |evs|
  {
    if |evs| == 0 then None
    else
      var before := Pending(evs[..|evs| - 1]);
      match evs[|evs| - 1]
      case Audio(data) => if before.None? then Some(data) else before
      case Poll => None
  }

  /** The block the most recent analysing poll took its frame from, if any. */
  function LastAnalysed(evs: seq<Event>): Option<seq<Byte>>
    decreases |evs|
  {
    if |evs| == 0 then None
    else
      var prefix := evs[..|evs| - 1];
      match evs[|evs| - 1]
      case Audio(_) => LastAnalysed(prefix)
      case Poll => if Pending(prefix).Some? then Pending(prefix) else LastAnalysed(prefix)
  }

  /**
   * The event machine against the trace: the sink receives every block
   * unchanged and in order; the slot is occupied exactly when a block arrived
   * since the last poll, and then holds the frame of the FIRST such block;
   * the peaks and LEDs are those of the last analysed block; before the first
   * analysis the peaks are zero and the matrix is still `leds0`.
   */
  lemma {:induction false} RunMatchesTrace(fft: Fft, leds0: Matrix, evs: seq<Event>)
    requires WellFormed(evs)
    ensures Run(fft, leds0, evs).slot.forwarded == Delivered(evs)
    ensures Run(fft, leds0, evs).slot.occupied <==> Pending(evs).Some?
    ensures Pending(evs).Some? ==>
              |Pending(evs).value| >= FrameBytes
              && Run(fft, leds0, evs).slot.re == MonoFrame(Pending(evs).value)
              && Run(fft, leds0, evs).slot.im == Zeros()
    ensures LastAnalysed(evs).Some? ==>
              |LastAnalysed(evs).value| >= FrameBytes
              && (Run(fft, leds0, evs).peaks, Run(fft, leds0, evs).leds) == Analyse(fft, MonoFrame(LastAnalysed(evs).value), Zeros())
    ensures LastAnalysed(evs).None? ==>
              Run(fft, leds0, evs).peaks == seq(Bands.NumBands, _ => 0) && Run(fft, leds0, evs).leds == leds0
    decreases |evs|
  {
    if |evs| > 0 {
      var prefix := evs[..|evs| - 1];
      RunMatchesTrace(fft, leds0, prefix);
    }
  }

  /**
   * Two blocks with no poll between them: the poll that follows analyses the
   * first block, and both reach the sink.
   */
  lemma SecondBlockNotAnalysed(fft: Fft, leds0: Matrix, evs: seq<Event>, d1: seq<Byte>, d2: seq<Byte>)
    requires WellFormed(evs)
    requires Pending(evs).None?
    requires |d1| >= FrameBytes
    ensures WellFormed(evs + [Audio(d1), Audio(d2), Poll])
    ensures (Run(fft, leds0, evs + [Audio(d1), Audio(d2), Poll]).peaks, Run(fft, leds0, evs + [Audio(d1), Audio(d2), Poll]).leds)
         == Analyse(fft, MonoFrame(d1), Zeros())
    ensures Run(fft, leds0, evs + [Audio(d1), Audio(d2), Poll]).slot.forwarded == Run(fft, leds0, evs).slot.forwarded + [d1, d2]
  {
    var e1 := evs + [Audio(d1)];
    var e2 := e1 + [Audio(d2)];
    var e3 := e2 + [Poll];
    assert e3 == evs + [Audio(d1), Audio(d2), Poll];
    assert e3[..|e3| - 1] == e2;
    assert e2[..|e2| - 1] == e1;
    assert e1[..|e1| - 1] == evs;
    assert Pending(e1) == Some(d1);
    assert WellFormed(e1);
    assert WellFormed(e2);
    assert WellFormed(e3);
    RunMatchesTrace(fft, leds0, e3);
    RunMatchesTrace(fft, leds0, evs);
    assert Pending(e2) == Some(d1);
    assert LastAnalysed(e3) == Some(d1);
    assert Delivered(e1) == Delivered(evs) + [d1];
    assert Delivered(e2) == Delivered(evs) + [d1] + [d2];
    assert Delivered(e3) == Delivered(evs) + [d1, d2];
  }

  /** A pass over a spectrum with no loud usable bin clears every peak and darkens the matrix, whatever came before. */
  lemma QuietPassDark(w: World, fft: Fft)
    requires w.slot.occupied
    requires forall i :: Bands.FirstBin <= i < Bands.LastBin ==> fft(w.slot.re, w.slot.im).0[i] <= Bands.NoiseFloor
    ensures Pass(w, fft).peaks == seq(Bands.NumBands, _ => 0)
    ensures Pass(w, fft).leds == Dark()
  {
    Bands.QuietBandPeaks(fft(w.slot.re, w.slot.im).0);
    Bars.SilentBars(Pass(w, fft).peaks);
  }

  /**
   * A spectrum whose only loud usable bin is `j`: every other band shows no
   * bar, and band `BandOf(j)` shows one exactly when the magnitude reaches
   * 5200, since smaller loud bins scale to peaks of 10..25, which `map`
   * sends to height 0.
   */
  lemma SingleLoudBinBar(mag: seq<real>, j: int)
    requires |mag| >= Bands.LastBin
    requires Bands.FirstBin <= j < Bands.LastBin && mag[j] > Bands.NoiseFloor
    requires forall i :: Bands.FirstBin <= i < Bands.LastBin && i != j ==> mag[i] <= Bands.NoiseFloor
    ensures Bars.Height(Bands.BandPeaks(mag)[Bands.BandOf(j)]) > 0 <==> mag[j] >= 5200.0
    ensures forall b :: 0 <= b < Bands.NumBands && b != Bands.BandOf(j) ==> Bars.Height(Bands.BandPeaks(mag)[b]) == 0
  {
    Bands.SingleLoudBin(mag, j);
    Bars.HeightVisibility(Bands.BandPeaks(mag)[Bands.BandOf(j)]);
  }
}
