/**
 * The decorative icon mode (`drawIcon`): every call advances the 32-bit
 * animation counter, re-selects the colour order at fixed counter values, and
 * draws the 64 packed 24-bit icon colours, channel-permuted by the current
 * order, at their row-major LEDs.
 */
module Icon {
  import opened CArith
  import opened Leds
  import opened ColorOrder

  // ---------------------------------------------------------------- pixel words

  /** `red = (pixel >> 16) & 0xFF`, `green = (pixel >> 8) & 0xFF`, `blue = pixel & 0xFF`. */
  function Unpack(pixel: U32): (c: Rgb)
    ensures c.r * 0x1_0000 + c.g * 0x100 + c.b == pixel % 0x100_0000
  {
    ByteDecomposition(pixel);
    Rgb((pixel / 0x1_0000) % 0x100, (pixel / 0x100) % 0x100, pixel % 0x100)
  }

  /** A word is its top byte followed by the three bytes `drawIcon` extracts. */
  lemma ByteDecomposition(p: U32)
    ensures p == (p / 0x100_0000) * 0x100_0000
               + ((p / 0x1_0000) % 0x100) * 0x1_0000 + ((p / 0x100) % 0x100) * 0x100 + p % 0x100
    ensures p % 0x100_0000 == ((p / 0x1_0000) % 0x100) * 0x1_0000 + ((p / 0x100) % 0x100) * 0x100 + p % 0x100
  {
    var q1 := p / 0x100;
    var q2 := p / 0x1_0000;
    var q3 := p / 0x100_0000;
    assert q1 / 0x100 == q2;
    assert q2 / 0x100 == q3;
    assert p == q1 * 0x100 + p % 0x100;
    assert q1 == q2 * 0x100 + q1 % 0x100;
    assert q2 == q3 * 0x100 + q2 % 0x100;
    assert p == q3 * 0x100_0000 + (q2 % 0x100) * 0x1_0000 + (q1 % 0x100) * 0x100 + p % 0x100;
  }

  /** The 24-bit word `0xRRGGBB` an icon table stores for a colour. */
  function Pack(c: Rgb): (w: U32)
    ensures w < 0x100_0000
  {
    c.r * 0x1_0000 + c.g * 0x100 + c.b
  }

  lemma UnpackPack(c: Rgb)
    ensures Unpack(Pack(c)) == c
  {
    var w := Pack(c);
    assert w == (c.r * 0x100 + c.g) * 0x100 + c.b;
    assert w % 0x100 == c.b && w / 0x100 == c.r * 0x100 + c.g;
    assert w / 0x1_0000 == (w / 0x100) / 0x100 == c.r;
  }

  /** Unpacking keeps exactly the low 24 bits of a word. */
  lemma PackUnpack(w: U32)
    ensures Pack(Unpack(w)) == w % 0x100_0000
  {
  }

  // ---------------------------------------------------------------- colour-order state machine

  /** `animationCounter` (a `uint32_t`) and `rgb_order`. */
  datatype IconState = IconState(counter: U32, order: EOrder)

  /** Start-up values of the two globals. */
  const Init := IconState(0, RGB)

  /** `animationCounter % 10000` is one of the seven `case` labels of the switch. */
  predicate SwitchPoint(counter: int) {
    counter % 10000 in {1000, 2000, 3000, 4000, 5000, 6000, 7000}
  }

  /**
   * The order in force while `counter % 10000` lies in thousand `t`, for a run
   * that starts at counter 0 with RGB: thousands 0, 1, 7, 8 and 9 are RGB.
   */
  function OrderTable(t: int): EOrder {
    if t == 2 then RBG
    else if t == 3 then BGR
    else if t == 4 then BRG
    else if t == 5 then GRB
    else if t == 6 then GBR
    else RGB
  }

  /** The counter increment and the `switch` at the head of `drawIcon`. */
  function Advance(s: IconState): (t: IconState)
    ensures s.counter < 0xFFFF_FFFF ==> t.counter == s.counter + 1
    ensures s.counter == 0xFFFF_FFFF ==> t.counter == 0
    ensures SwitchPoint(t.counter) ==> t.order == OrderTable(t.counter % 10000 / 1000)
    ensures !SwitchPoint(t.counter) ==> t.order == s.order
  {
    var counter := (s.counter + 1) % 0x1_0000_0000;
    var order :=
      match counter % 10000
      case 1000 => RGB
      case 2000 => RBG
      case 3000 => BGR
      case 4000 => BRG
      case 5000 => GRB
      case 6000 => GBR
      case 7000 => RGB
      case _ => s.order;
    IconState(counter, order)
  }

  /** The order agrees with the table for the current counter. */
  predicate Consistent(s: IconState) {
    s.order == OrderTable(s.counter % 10000 / 1000)
  }

  /** How `counter % 10000` moves on one increment of a 32-bit counter. */
  lemma PhaseStep(c: U32)
    ensures c < 0xFFFF_FFFF && c % 10000 < 9999 ==> (c + 1) % 10000 == c % 10000 + 1
    ensures c < 0xFFFF_FFFF && c % 10000 == 9999 ==> (c + 1) % 10000 == 0
    ensures c == 0xFFFF_FFFF ==> c % 10000 == 7295
  {
  }

  /** Leaving a thousand without hitting a `case` label never changes the table entry. */
  lemma TableStep(m: int)
    requires 0 <= m < 9999
    requires m + 1 !in {1000, 2000, 3000, 4000, 5000, 6000, 7000}
    ensures OrderTable((m + 1) / 1000) == OrderTable(m / 1000)
  {
  }

  /**
   * `Advance` keeps the order in step with the table, also across the
   * 32-bit wrap (2^32 - 1 is 7295 modulo 10000, in an RGB thousand, like 0).
   */
  lemma AdvanceConsistent(s: IconState)
    requires Consistent(s)
    ensures Consistent(Advance(s))
  {
    var t := Advance(s);
    PhaseStep(s.counter);
    if !SwitchPoint(t.counter) {
      assert t.order == s.order;
      if s.counter < 0xFFFF_FFFF && s.counter % 10000 < 9999 {
        TableStep(s.counter % 10000);
      }
    }
  }

  /** `n` successive `drawIcon` calls. */
  function Iterate(s: IconState, n: nat): IconState
    decreases n
  {
    if n == 0 then s else Advance(Iterate(s, n - 1))
  }

  lemma {:induction false} IterateConsistent(s: IconState, n: nat)
    requires Consistent(s)
    ensures Consistent(Iterate(s, n))
    decreases n
  {
    if n > 0 {
      IterateConsistent(s, n - 1);
      AdvanceConsistent(Iterate(s, n - 1));
    }
  }

  /** Before the counter wraps, it counts the calls. */
  lemma {:induction false} CounterAfter(n: nat)
    requires n < 0x1_0000_0000
    ensures Iterate(Init, n).counter == n
    decreases n
  {
    if n > 0 {
      CounterAfter(n - 1);
      var s := Iterate(Init, n - 1);
      assert Iterate(Init, n) == Advance(s);
      assert s.counter + 1 == n < 0x1_0000_0000;
      assert Advance(s).counter == n;
    } else {
      assert Iterate(Init, n) == Init;
    }
  }

  /** Before the counter wraps, the order is the table entry of the number of calls. */
  lemma OrderAfter(n: nat)
    requires n < 0x1_0000_0000
    ensures Iterate(Init, n).order == OrderTable(n % 10000 / 1000)
  {
    CounterAfter(n);
    IterateConsistent(Init, n);
  }

  /** The order repeats every 10000 calls while the counter does not wrap. */
  lemma OrderPeriodic(n: nat)
    requires n + 10000 < 0x1_0000_0000
    ensures Iterate(Init, n + 10000).order == Iterate(Init, n).order
  {
    var m := n + 10000;
    assert m % 10000 == n % 10000;
    OrderAfter(n);
    OrderAfter(m);
  }

  /**
   * 6000 calls after a cycle start leave GBR in force, not RGB; RGB comes
   * back 1000 calls later.
   */
  lemma GbrBeforeRgbReturns(n: nat)
    requires n + 1000 < 0x1_0000_0000
    requires n % 10000 == 6000
    ensures Iterate(Init, n).order == GBR
    ensures Iterate(Init, n + 1000).order == RGB
  {
    var m := n + 1000;
    assert m % 10000 / 1000 == 7;
    assert n % 10000 / 1000 == 6;
    OrderAfter(n);
    OrderAfter(m);
  }

  // ---------------------------------------------------------------- drawing

  /** What LED `i` shows for icon word `word` under `order`. */
  function IconPixel(order: EOrder, word: U32): Pixel {
    Color(Colorize(order, Unpack(word)))
  }

  /**
   * `drawIcon(icon)`: advance the state, then write every icon pixel,
   * unpacked and re-ordered, to `leds[getLedIndex(i % 8, i / 8)]`. Every LED
   * is overwritten, so the previous matrix `before` leaves no trace.
   */
  method DrawIcon(s: IconState, icon: seq<U32>, before: Matrix) returns (t: IconState, leds: Matrix)
    requires |icon| == NumLeds
    ensures t == Advance(s)
    ensures forall i :: 0 <= i < NumLeds ==> leds[i] == IconPixel(t.order, icon[i])
  {
    t := Advance(s);
    leds := before;
    var i := 0;
    while i < NumLeds
      invariant 0 <= i <= NumLeds
      invariant forall j :: 0 <= j < i ==> leds[j] == IconPixel(t.order, icon[j])
    {
      var pixel := icon[i];
      var red := (pixel / 0x1_0000) % 0x100;
      var green := (pixel / 0x100) % 0x100;
      var blue := pixel % 0x100;
      var k := LedIndex(i % Width, i / Width);
      assert k == i;
      assert Rgb(red, green, blue) == Unpack(pixel);
      leds := leds[k := Color(Colorize(t.order, Rgb(red, green, blue)))];
      i := i + 1;
    }
  }

  /** Undoing the order on a drawn LED and re-packing it gives back the icon's 24-bit colour. */
  lemma IconPixelRecoversWord(order: EOrder, word: U32)
    ensures Pack(Colorize(Inverse(order), IconPixel(order, word).rgb)) == word % 0x100_0000
  {
    ColorizeInverse(order, Unpack(word));
    PackUnpack(word);
  }
}
