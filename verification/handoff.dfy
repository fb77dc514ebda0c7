/**
 * PCM ingestion and the single-slot handoff (`audio_data_callback` and the
 * capacity-1 queue): the audio callback decodes a block of interleaved
 * little-endian stereo int16 samples into the mono analysis frame when the
 * slot is empty, drops the analysis otherwise, and always forwards the block
 * to the audio sink; the analysis worker empties the slot.
 */
module Handoff {
  import opened CArith

  /** `SAMPLES`: length of the analysis frame. */
  const Samples := 512

  /** Bytes the callback reads: four per stereo pair. */
  const FrameBytes := 4 * Samples

  /** One analysis buffer (`vReal` or `vImag`). */
  type Buffer = s: seq<real> | |s| == Samples witness seq(Samples, _ => 0.0)

  function Zeros(): (z: Buffer)
    ensures forall i :: 0 <= i < Samples ==> z[i] == 0.0
  {
    seq(Samples, _ => 0.0)
  }

  // ---------------------------------------------------------------- int16

  /** `(int16_t)((hi << 8) | lo)` on a two's-complement target. */
  function Le16(lo: Byte, hi: Byte): (v: int)
    ensures -0x8000 <= v < 0x8000
    ensures (lo + 0x100 * hi - v) % 0x1_0000 == 0
    ensures v < 0 <==> hi >= 0x80
  {
    var u := lo + 0x100 * hi;
    if u >= 0x8000 then u - 0x1_0000 else u
  }

  /** The two little-endian bytes of an int16 value. */
  function Le16Bytes(v: int): (lohi: (Byte, Byte))
    requires -0x8000 <= v < 0x8000
  {
    var u := if v < 0 then v + 0x1_0000 else v;
    (u % 0x100, u / 0x100)
  }

  lemma Le16RoundTrip(v: int)
    requires -0x8000 <= v < 0x8000
    ensures Le16(Le16Bytes(v).0, Le16Bytes(v).1) == v
  {
  }

  lemma Le16BytesRoundTrip(lo: Byte, hi: Byte)
    ensures Le16Bytes(Le16(lo, hi)) == (lo, hi)
  {
  }

  // ---------------------------------------------------------------- frames

  /** Analysis sample `i`: the average of the left and right int16 of stereo pair `i`. */
  function MonoSample(data: seq<Byte>, i: int): real
    requires |data| >= FrameBytes
    requires 0 <= i < Samples
  {
    (Le16(data[4 * i], data[4 * i + 1]) + Le16(data[4 * i + 2], data[4 * i + 3])) as real / 2.0
  }

  /** The analysis frame the callback builds from `data`. */
  function MonoFrame(data: seq<Byte>): (re: Buffer)
    requires |data| >= FrameBytes
    ensures forall i :: 0 <= i < Samples ==> -32768.0 <= re[i] <= 32767.0
  {
    seq(Samples, i requires 0 <= i < Samples => MonoSample(data, i))
  }

  /**
   * The decode loop of the callback, in the source's order (a running byte
   * offset, one stereo pair per iteration, writing the frame buffers in place).
   */
  method DecodeFrame(data: seq<Byte>, re0: Buffer, im0: Buffer) returns (re: Buffer, im: Buffer)
    requires |data| >= FrameBytes
    ensures re == MonoFrame(data)
    ensures im == Zeros()
  {
    re, im := re0, im0;
    var byteOffset := 0;
    var i := 0;
    while i < Samples
      invariant 0 <= i <= Samples
      invariant byteOffset == 4 * i
      invariant forall j :: 0 <= j < i ==> re[j] == MonoSample(data, j) && im[j] == 0.0
    {
      var left := Le16(data[byteOffset], data[byteOffset + 1]);
      var right := Le16(data[byteOffset + 2], data[byteOffset + 3]);
      re := re[i := (left + right) as real / 2.0];
      im := im[i := 0.0];
      byteOffset := byteOffset + 4;
      i := i + 1;
    }
  }

  /** Little-endian bytes of left/right channel sequences, interleaved pair by pair. */
  function Interleave(left: seq<int>, right: seq<int>): (data: seq<Byte>)
    requires |left| == |right|
    requires forall i :: 0 <= i < |left| ==> -0x8000 <= left[i] < 0x8000 && -0x8000 <= right[i] < 0x8000
    ensures |data| == 4 * |left|
    decreases |left|
  {
    if |left| == 0 then []
    else
      var l := Le16Bytes(left[0]);
      var r := Le16Bytes(right[0]);
      [l.0, l.1, r.0, r.1] + Interleave(left[1..], right[1..])
  }

  lemma {:induction false} InterleaveAt(left: seq<int>, right: seq<int>, i: int)
    requires |left| == |right|
    requires forall j :: 0 <= j < |left| ==> -0x8000 <= left[j] < 0x8000 && -0x8000 <= right[j] < 0x8000
    requires 0 <= i < |left|
    ensures Interleave(left, right)[4 * i .. 4 * i + 4]
         == [Le16Bytes(left[i]).0, Le16Bytes(left[i]).1, Le16Bytes(right[i]).0, Le16Bytes(right[i]).1]
    decreases i
  {
    if i > 0 {
      InterleaveAt(left[1..], right[1..], i - 1);
      var rest := Interleave(left[1..], right[1..]);
      assert Interleave(left, right)[4 * i .. 4 * i + 4] == rest[4 * (i - 1) .. 4 * (i - 1) + 4];
    }
  }

  /** Decoding interleaved stereo recovers the average of the two channels, sample by sample. */
  lemma MonoFrameOfInterleave(left: seq<int>, right: seq<int>)
    requires |left| == |right| == Samples
    requires forall j :: 0 <= j < Samples ==> -0x8000 <= left[j] < 0x8000 && -0x8000 <= right[j] < 0x8000
    ensures forall i :: 0 <= i < Samples ==>
              MonoFrame(Interleave(left, right))[i] == (left[i] + right[i]) as real / 2.0
  {
    var data := Interleave(left, right);
    forall i | 0 <= i < Samples
      ensures MonoFrame(data)[i] == (left[i] + right[i]) as real / 2.0
    {
      InterleaveAt(left, right, i);
      assert data[4 * i] == data[4 * i .. 4 * i + 4][0];
      assert data[4 * i + 1] == data[4 * i .. 4 * i + 4][1];
      assert data[4 * i + 2] == data[4 * i .. 4 * i + 4][2];
      assert data[4 * i + 3] == data[4 * i .. 4 * i + 4][3];
      Le16RoundTrip(left[i]);
      Le16RoundTrip(right[i]);
    }
  }

  /** Only the first `FrameBytes` bytes of a block reach the analysis frame. */
  lemma MonoFrameReadsPrefix(data: seq<Byte>, data': seq<Byte>)
    requires |data| >= FrameBytes && |data'| >= FrameBytes
    requires data[..FrameBytes] == data'[..FrameBytes]
    ensures MonoFrame(data) == MonoFrame(data')
  {
    forall i | 0 <= i < Samples
      ensures MonoSample(data, i) == MonoSample(data', i)
    {
      assert data[4 * i] == data[..FrameBytes][4 * i] == data'[4 * i];
      assert data[4 * i + 1] == data[..FrameBytes][4 * i + 1] == data'[4 * i + 1];
      assert data[4 * i + 2] == data[..FrameBytes][4 * i + 2] == data'[4 * i + 2];
      assert data[4 * i + 3] == data[..FrameBytes][4 * i + 3] == data'[4 * i + 3];
    }
  }

  // ---------------------------------------------------------------- slot

  /**
   * Ingestion-side state: whether the slot holds a pending frame, the frame
   * buffers, and every block forwarded to the audio sink so far.
   */
  datatype Slot = Slot(occupied: bool, re: Buffer, im: Buffer, forwarded: seq<seq<Byte>>)

  /** Start-up: empty slot, zero-initialised global buffers, nothing forwarded. */
  function InitSlot(): (s: Slot)
    ensures !s.occupied && s.forwarded == []
    ensures s.re == Zeros() && s.im == Zeros()
  {
    Slot(false, Zeros(), Zeros(), [])
  }

  /**
   * `audio_data_callback(data, len)`. On an empty slot the code reads 2048
   * bytes without checking `len`, so there the block must be at least that
   * long; on an occupied slot a block of any length is only forwarded.
   */
  function Produce(s: Slot, data: seq<Byte>): (r: Slot)
    requires !s.occupied ==> |data| >= FrameBytes
    ensures r.occupied
    ensures r.forwarded == s.forwarded + [data]
    ensures s.occupied ==> r.re == s.re && r.im == s.im
    ensures !s.occupied ==> forall i :: 0 <= i < Samples ==>
              && r.re[i] == (Le16(data[4 * i], data[4 * i + 1]) + Le16(data[4 * i + 2], data[4 * i + 3])) as real / 2.0
              && r.im[i] == 0.0
  {
    if s.occupied then s.(forwarded := s.forwarded + [data])
    else Slot(true, MonoFrame(data), Zeros(), s.forwarded + [data])
  }

  /** `xQueueReceive(queue, &item, 0)`: empties the slot; a no-op when it is already empty. */
  function Consume(s: Slot): (r: Slot)
    ensures !r.occupied
    ensures r.re == s.re && r.im == s.im && r.forwarded == s.forwarded
    ensures !s.occupied ==> r == s
  {
    s.(occupied := false)
  }

  /** Of two blocks with no consume in between, only the first is analysed. */
  lemma SecondProduceDropped(s: Slot, d1: seq<Byte>, d2: seq<Byte>)
    requires !s.occupied
    requires |d1| >= FrameBytes
    ensures Produce(Produce(s, d1), d2).re == MonoFrame(d1)
    ensures Produce(Produce(s, d1), d2).im == Zeros()
    ensures Produce(Produce(s, d1), d2).forwarded == s.forwarded + [d1, d2]
  {
  }

  /** After a consume, the next block replaces whatever the frame held. */
  lemma ProduceAfterConsume(s: Slot, d: seq<Byte>)
    requires |d| >= FrameBytes
    ensures Produce(Consume(s), d).re == MonoFrame(d)
    ensures Produce(Consume(s), d).im == Zeros()
  {
  }
}
