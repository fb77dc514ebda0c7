/**
 * Band mapping with peak-hold (`createBands` and the band pass of
 * `renderFFT`): every usable FFT bin whose magnitude exceeds the noise floor
 * is scaled, clamped, and folded by maximum into the peak of one of eight
 * octave-spaced bands; the peaks are reset to zero before every pass.
 */
module Bands {
  import opened CArith

  const NumBands := 8

  /** `amplitude`: the scale divisor and the clamp ceiling of a band peak. */
  const Amplitude := 200

  /** Bins whose magnitude is not above this are ignored. */
  const NoiseFloor := 2000.0

  /** Bins `FirstBin <= i < LastBin` are examined (`SAMPLES / 2` is 256). */
  const FirstBin := 2
  const LastBin := 256

  /** Upper bin index of bands 0..6; band 7 takes every bin above 106. */
  const Boundaries: seq<int> := [2, 5, 7, 15, 30, 53, 106]

  /** The band a bin index falls in (the `if` chain of `createBands`). */
  function BandOf(i: int): (b: int)
    ensures 0 <= b < NumBands
  {
    if i <= 2 then 0
    else if i <= 5 then 1
    else if i <= 7 then 2
    else if i <= 15 then 3
    else if i <= 30 then 4
    else if i <= 53 then 5
    else if i <= 106 then 6
    else 7
  }

  /** Reference: the number of band boundaries strictly below `i`. */
  function CountBelow(bounds: seq<int>, i: int): (n: nat)
    ensures n <= |bounds|
  {
    if |bounds| == 0 then 0
    else (if bounds[0] < i then 1 else 0) + CountBelow(bounds[1..], i)
  }

  lemma CountBelowCons(x: int, rest: seq<int>, i: int)
    ensures CountBelow([x] + rest, i) == (if x < i then 1 else 0) + CountBelow(rest, i)
  {
    assert ([x] + rest)[1..] == rest;
  }

  /** The band of `i` is the number of boundaries `i` lies above. */
  lemma BandOfCountsBoundaries(i: int)
    ensures BandOf(i) == CountBelow(Boundaries, i)
  {
    CountBelowCons(106, [], i);
    CountBelowCons(53, [106], i);
    CountBelowCons(30, [53, 106], i);
    CountBelowCons(15, [30, 53, 106], i);
    CountBelowCons(7, [15, 30, 53, 106], i);
    CountBelowCons(5, [7, 15, 30, 53, 106], i);
    CountBelowCons(2, [5, 7, 15, 30, 53, 106], i);
  }

  /** Band `b` holds exactly the bins above boundary `b - 1` and up to boundary `b`. */
  lemma BandOfInterval(i: int, b: int)
    requires 0 <= b < NumBands
    ensures BandOf(i) == b <==>
              (b == 0 || Boundaries[b - 1] < i) && (b == NumBands - 1 || i <= Boundaries[b])
  {
  }

  /** Higher bins never fall in lower bands. */
  lemma BandOfMonotone(i: int, j: int)
    requires i <= j
    ensures BandOf(i) <= BandOf(j)
  {
  }

  /** Each boundary is the last bin of its band; the bin after it opens the next. */
  lemma BandBoundaries(k: int)
    requires 0 <= k < |Boundaries|
    ensures BandOf(Boundaries[k]) == k
    ensures BandOf(Boundaries[k] + 1) == k + 1
  {
  }

  // ---------------------------------------------------------------- createBands

  /**
   * `createBands(i, dsize)` on the peak table: clamp `dsize` to the amplitude
   * and raise the peak of bin `i`'s band to it if it is larger.
   */
  function CreateBands(peaks: seq<int>, i: int, dsize: int): (r: seq<int>)
    requires |peaks| == NumBands
    ensures |r| == NumBands
    ensures r[BandOf(i)] == Max(peaks[BandOf(i)], Min(dsize, Amplitude))
    ensures forall b :: 0 <= b < NumBands && b != BandOf(i) ==> r[b] == peaks[b]
  {
    var band := BandOf(i);
    var dmax := Amplitude;
    var d := if dsize > dmax then dmax else dsize;
    if d > peaks[band] then peaks[band := d] else peaks
  }

  /** A peak never decreases within a pass, and never rises past the amplitude unless it already was. */
  lemma CreateBandsBounds(peaks: seq<int>, i: int, dsize: int)
    requires |peaks| == NumBands
    ensures peaks[BandOf(i)] <= CreateBands(peaks, i, dsize)[BandOf(i)] <= Max(peaks[BandOf(i)], Amplitude)
  {
  }

  // ---------------------------------------------------------------- band pass

  /** Whether bin `i` passes the noise filter. */
  predicate Loud(mag: seq<real>, i: int)
    requires 0 <= i < |mag|
  {
    mag[i] > NoiseFloor
  }

  /**
   * `(int)vReal[i] / amplitude` for a loud bin, after the parameter
   * conversion to `int` and the clamp inside `createBands`.
   */
  function Scaled(m: real): (d: int)
    requires m > NoiseFloor
    ensures 10 <= d <= Amplitude
  {
    Min(m.Floor / Amplitude, Amplitude)
  }

  /**
   * The peak of band `b` after the bins `FirstBin <= i < n` have been
   * folded in, starting from the reset value 0.
   */
  function PeakUpTo(mag: seq<real>, b: int, n: int): (p: int)
    requires FirstBin <= n <= |mag|
    ensures p == 0 || 10 <= p <= Amplitude
    decreases n
  {
    if n == FirstBin then 0
    else
      var p := PeakUpTo(mag, b, n - 1);
      if Loud(mag, n - 1) && BandOf(n - 1) == b then Max(p, Scaled(mag[n - 1])) else p
  }

  /** Bin `i` contributes to band `b`. */
  predicate Contributes(mag: seq<real>, b: int, i: int)
    requires 0 <= i < |mag|
  {
    FirstBin <= i < LastBin && Loud(mag, i) && BandOf(i) == b
  }

  /**
   * `PeakUpTo` is the maximum of the scaled magnitudes of the contributing
   * bins below `n`, or 0 when there are none.
   */
  lemma {:induction false} PeakUpToIsMax(mag: seq<real>, b: int, n: int)
    requires FirstBin <= n <= LastBin <= |mag|
    ensures forall i :: FirstBin <= i < n && Contributes(mag, b, i) ==> Scaled(mag[i]) <= PeakUpTo(mag, b, n)
    ensures PeakUpTo(mag, b, n) == 0 <==> forall i :: FirstBin <= i < n ==> !Contributes(mag, b, i)
    ensures PeakUpTo(mag, b, n) != 0 ==>
              exists i :: FirstBin <= i < n && Contributes(mag, b, i) && PeakUpTo(mag, b, n) == Scaled(mag[i])
    decreases n
  {
    if n > FirstBin {
      PeakUpToIsMax(mag, b, n - 1);
      var p := PeakUpTo(mag, b, n - 1);
      if Contributes(mag, b, n - 1) {
        assert PeakUpTo(mag, b, n) == Max(p, Scaled(mag[n - 1])) != 0;
        if PeakUpTo(mag, b, n) != p {
          assert Contributes(mag, b, n - 1) && PeakUpTo(mag, b, n) == Scaled(mag[n - 1]);
        }
      } else {
        assert PeakUpTo(mag, b, n) == p;
      }
    }
  }

  /** The eight band peaks a pass leaves behind. */
  function BandPeaks(mag: seq<real>): (peaks: seq<int>)
    requires |mag| >= LastBin
    ensures |peaks| == NumBands
    ensures forall b :: 0 <= b < NumBands ==> peaks[b] == 0 || 10 <= peaks[b] <= Amplitude
  {
    seq(NumBands, b => PeakUpTo(mag, b, LastBin))
  }

  /**
   * The band pass of `renderFFT`: reset all eight peaks, then feed every loud
   * bin of the usable range to `createBands`.
   */
  method BandPass(prev: seq<int>, mag: seq<real>) returns (peaks: seq<int>)
    requires |prev| == NumBands
    requires |mag| == 512
    ensures peaks == BandPeaks(mag)
    ensures forall b :: 0 <= b < NumBands ==> 0 <= peaks[b] <= Amplitude
  {
    peaks := prev;
    var band := 0;
    while band < NumBands
      invariant 0 <= band <= NumBands
      invariant |peaks| == NumBands
      invariant forall b :: 0 <= b < band ==> peaks[b] == 0
    {
      peaks := peaks[band := 0];
      band := band + 1;
    }
    var i := FirstBin;
    while i < LastBin
      invariant FirstBin <= i <= LastBin
      invariant |peaks| == NumBands
      invariant forall b :: 0 <= b < NumBands ==> peaks[b] == PeakUpTo(mag, b, i)
    {
      if mag[i] > NoiseFloor {
        peaks := CreateBands(peaks, i, mag[i].Floor / Amplitude);
      }
      i := i + 1;
    }
  }

  /** Bins outside the usable range never affect the peaks. */
  lemma {:induction false} PeakUpToUsableOnly(mag: seq<real>, mag': seq<real>, b: int, n: int)
    requires FirstBin <= n <= LastBin <= |mag| && LastBin <= |mag'|
    requires forall i :: FirstBin <= i < LastBin ==> mag[i] == mag'[i]
    ensures PeakUpTo(mag, b, n) == PeakUpTo(mag', b, n)
    decreases n
  {
    if n > FirstBin {
      PeakUpToUsableOnly(mag, mag', b, n - 1);
    }
  }

  lemma BandPeaksUsableOnly(mag: seq<real>, mag': seq<real>)
    requires |mag| >= LastBin && |mag'| >= LastBin
    requires forall i :: FirstBin <= i < LastBin ==> mag[i] == mag'[i]
    ensures BandPeaks(mag) == BandPeaks(mag')
  {
    forall b | 0 <= b < NumBands
      ensures BandPeaks(mag)[b] == BandPeaks(mag')[b]
    {
      PeakUpToUsableOnly(mag, mag', b, LastBin);
    }
  }

  /** A frame with no loud usable bin leaves every peak at zero. */
  lemma QuietBandPeaks(mag: seq<real>)
    requires |mag| >= LastBin
    requires forall i :: FirstBin <= i < LastBin ==> mag[i] <= NoiseFloor
    ensures BandPeaks(mag) == seq(NumBands, _ => 0)
  {
    forall b | 0 <= b < NumBands
      ensures BandPeaks(mag)[b] == 0
    {
      PeakUpToIsMax(mag, b, LastBin);
    }
  }

  /**
   * Peak-hold isolation: when bin `j` is the only loud usable bin, its band
   * shows its scaled magnitude and every other band is zero.
   */
  lemma SingleLoudBin(mag: seq<real>, j: int)
    requires |mag| >= LastBin
    requires FirstBin <= j < LastBin && mag[j] > NoiseFloor
    requires forall i :: FirstBin <= i < LastBin && i != j ==> mag[i] <= NoiseFloor
    ensures BandPeaks(mag)[BandOf(j)] == Scaled(mag[j])
    ensures forall b :: 0 <= b < NumBands && b != BandOf(j) ==> BandPeaks(mag)[b] == 0
  {
    forall b | 0 <= b < NumBands
      ensures BandPeaks(mag)[b] == if b == BandOf(j) then Scaled(mag[j]) else 0
    {
      PeakUpToIsMax(mag, b, LastBin);
      assert Contributes(mag, BandOf(j), j);
    }
  }
}
