/**
 * The fixed-width integer conventions of the firmware's C++ code, written out
 * over Dafny's unbounded integers: unsigned widths as subset types, conversion
 * to `uint8_t` as reduction modulo 2^8, and C's truncating division.
 */
module CArith {

  /** `uint8_t` */
  type Byte = x: int | 0 <= x < 0x100

  /** `uint32_t` */
  type U32 = x: int | 0 <= x < 0x1_0000_0000

  function Min(a: int, b: int): int { if a <= b then a else b }

  function Max(a: int, b: int): int { if a >= b then a else b }

  /** Conversion of an `int` to `uint8_t`: the value modulo 2^8. */
  function ToByte(x: int): (r: Byte)
    ensures 0 <= x < 0x100 ==> r == x
    ensures (x - r) % 0x100 == 0
  {
    x % 0x100
  }

  /**
   * C's `/` on signed operands: the quotient is truncated toward zero, so the
   * remainder takes the sign of the dividend (Dafny's `/` floors instead).
   */
  function CDiv(a: int, b: int): (q: int)
    requires b > 0
    ensures a >= 0 ==> 0 <= a - q * b < b
    ensures a < 0 ==> -b < a - q * b <= 0
  {
    if a >= 0 then a / b else -((-a) / b)
  }

  /**
   * Arduino's `map`: rescales `x` linearly from [inMin, inMax] to
   * [outMin, outMax] in `long` arithmetic, with C's truncating division.
   */
  function ArduinoMap(x: int, inMin: int, inMax: int, outMin: int, outMax: int): int
    requires inMin < inMax
  {
    CDiv((x - inMin) * (outMax - outMin), inMax - inMin) + outMin
  }

  /**
   * `map` sends the ends of the input range to the ends of the output range,
   * and an input inside the range into the output range.
   */
  lemma ArduinoMapRange(x: int, inMin: int, inMax: int, outMin: int, outMax: int)
    requires inMin < inMax
    ensures x == inMin ==> ArduinoMap(x, inMin, inMax, outMin, outMax) == outMin
    ensures x == inMax ==> ArduinoMap(x, inMin, inMax, outMin, outMax) == outMax
    ensures inMin <= x <= inMax && outMin <= outMax ==>
              outMin <= ArduinoMap(x, inMin, inMax, outMin, outMax) <= outMax
  {
    MapScale(x - inMin, outMax - outMin, inMax - inMin);
  }

  /** The scaled offset `d * rise / run` of `map` at both ends of the input range and between them. */
  lemma MapScale(d: int, rise: int, run: int)
    requires run > 0
    ensures d == 0 ==> CDiv(d * rise, run) == 0
    ensures d == run ==> CDiv(d * rise, run) == rise
    ensures 0 <= d <= run && rise >= 0 ==> 0 <= CDiv(d * rise, run) <= rise
  {
    if d == run {
      ExactQuotient(rise, run);
    }
    if 0 <= d <= run && rise >= 0 {
      QuotientBound(d, rise, run);
    }
  }

  /** C's division undoes a multiplication by the divisor, whatever the sign. */
  lemma ExactQuotient(a: int, b: int)
    requires b > 0
    ensures CDiv(b * a, b) == a
  {
    if a >= 0 {
      FloorQuotient(a, b);
    } else {
      assert -(b * a) == b * (-a);
      FloorQuotient(-a, b);
    }
  }

  lemma FloorQuotient(a: int, b: int)
    requires a >= 0 && b > 0
    ensures (b * a) / b == a
  {
    var q, r := (b * a) / b, (b * a) % b;
    assert b * (a - q) == r;
    if a - q >= 1 {
      assert false;
    } else if a - q <= -1 {
      assert false;
    }
  }

  lemma QuotientBound(d: int, rise: int, run: int)
    requires run > 0 && 0 <= d <= run && rise >= 0
    ensures 0 <= CDiv(d * rise, run) <= rise
  {
    var p := d * rise;
    assert 0 <= p;
    assert p <= run * rise by {
      assert run * rise - p == (run - d) * rise;
    }
    var q := p / run;
    assert q * run <= p;
  }
}
