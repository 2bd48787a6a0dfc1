/** Temperature compensation of domo/user/bme280.c: 32-bit integers against the double version, read over the reals. */
module Bme280 {

  /** dig_T1 is unsigned, dig_T2 and dig_T3 are signed 16-bit numbers; a reading has 20 bits. */
  predicate Calibration(t1: int, t2: int, t3: int) {
    0 <= t1 < 0x1_0000 && -0x8000 <= t2 < 0x8000 && -0x8000 <= t3 < 0x8000
  }

  predicate Reading(adc: int) { 0 <= adc < 0x10_0000 }

  predicate S32(x: int) { -0x8000_0000 <= x < 0x8000_0000 }

  // `>>` rounds down, also for negative numbers, as Dafny's `/` by a positive number does.

  function X1(adc: int, t1: int, t2: int): int { (adc / 8 - t1 * 2) * t2 / 2048 }

  function X2(adc: int, t1: int, t3: int): int {
    var d := adc / 16 - t1;
    d * d / 4096 * t3 / 16384
  }

  function TFine(adc: int, t1: int, t2: int, t3: int): int { X1(adc, t1, t2) + X2(adc, t1, t3) }

  /** In hundredths of a degree. */
  function Temperature(adc: int, t1: int, t2: int, t3: int): int { (TFine(adc, t1, t2, t3) * 5 + 128) / 256 }

  /** No 32-bit intermediate overflows. */
  predicate Fits(adc: int, t1: int, t2: int, t3: int) {
    var d := adc / 16 - t1;
    && S32((adc / 8 - t1 * 2) * t2) && S32(d * d) && S32(d * d / 4096 * t3)
    && S32(TFine(adc, t1, t2, t3)) && S32(TFine(adc, t1, t2, t3) * 5 + 128)
  }

  /** The double version, in degrees. */
  function Exact(adc: int, t1: int, t2: int, t3: int): real {
    var a, r1, r2, r3 := adc as real, t1 as real, t2 as real, t3 as real;
    var v1 := (a / 16384.0 - r1 / 1024.0) * r2;
    var v2 := (a / 131072.0 - r1 / 8192.0) * (a / 131072.0 - r1 / 8192.0) * r3;
    (v1 + v2) / 5120.0
  }

  class Sensor {
    const digT1: int
    const digT2: int
    const digT3: int
    var tFine: int

    constructor (t1: int, t2: int, t3: int)
      requires Calibration(t1, t2, t3)
      ensures digT1 == t1 && digT2 == t2 && digT3 == t3
    {
      digT1, digT2, digT3, tFine := t1, t2, t3, 0;
    }

    /** bme280_compensate_temperature_int32. */
    method CompensateTemperatureInt32(uncomp: int) returns (temperature: int)
      requires Reading(uncomp) && Fits(uncomp, digT1, digT2, digT3)
      modifies this
      ensures tFine == TFine(uncomp, digT1, digT2, digT3)
      ensures temperature == Temperature(uncomp, digT1, digT2, digT3)
      ensures Calibration(digT1, digT2, digT3) ==>
                -0.012 <= temperature as real / 100.0 - Exact(uncomp, digT1, digT2, digT3) <= 0.012
    {
      var x1 := (uncomp / 8 - digT1 * 2) * digT2 / 2048;
      var d := uncomp / 16 - digT1;
      var x2 := d * d / 4096 * digT3 / 16384;
      tFine := x1 + x2;
      temperature := (tFine * 5 + 128) / 256;
      if Calibration(digT1, digT2, digT3) { ErrorBound(uncomp, digT1, digT2, digT3); }
    }
  }

  // ---------------------------------------------------------------- the two terms, in integers

  lemma Scale(x: int, lo: int, hi: int, k: int)
    requires lo <= x <= hi && k >= 0
    ensures k * lo <= k * x <= k * hi
  {}

  /** First term: the exact one is N * t2 / 2^14 with N = adc - 16 * t1. */
  lemma FirstTerm(adc: int, t1: int, t2: int, t3: int)
    requires Reading(adc) && Calibration(t1, t2, t3)
    ensures var e := (adc - 16 * t1) * t2 - 16384 * X1(adc, t1, t2); -229376 <= e <= 245760
  {
    var q, r := adc / 8, adc % 8;
    var p := (q - 2 * t1) * t2;
    var x, s := p / 2048, p % 2048;
    assert adc - 16 * t1 == 8 * (q - 2 * t1) + r;
    assert (adc - 16 * t1) * t2 == 8 * p + r * t2;
    Scale(t2, -0x8000, 0x7FFF, r);
  }

  /** A bound on |d| * |t3| from the fact that d * d / 4096 * t3 has 32 bits. */
  lemma ProductBound(u: nat, v: nat, q: nat)
    requires v <= 0x8000 && u * u <= 4096 * q + 4095 && q * v <= 0x8000_0000
    ensures u * v < 540_000_000
  {
    var k := 4096 * 0x8000_0000 + 4095 * 0x8000;
    assert u * u * v <= k by {
      Scale(u * u, 0, 4096 * q + 4095, v);
      assert v * (4096 * q + 4095) == 4096 * (q * v) + 4095 * v;
      assert v * (u * u) == u * u * v;
    }
    if u * v >= 540_000_000 {
      var w := u * v;
      assert w * w == (u * u * v) * v;
      Scale(u * u * v, 0, k, v);
      Scale(v, 0, 0x8000, k);
      assert v * (u * u * v) == w * w;
      assert v * k == k * v;
      Scale(w, 540_000_000, w, 540_000_000);
      Scale(w, 540_000_000, w, w);
      assert false;
    }
  }

  lemma SignedProduct(d: int, t3: int, b: int)
    requires var u, v := if d < 0 then -d else d, if t3 < 0 then -t3 else t3; u * v < b
    ensures -b < d * t3 < b
  {}

  /** Second term: the exact one is N * N * t3 / 2^34. */
  lemma SecondTerm(adc: int, t1: int, t2: int, t3: int)
    requires Reading(adc) && Calibration(t1, t2, t3) && Fits(adc, t1, t2, t3)
    ensures var n := adc - 16 * t1;
            var e := n * n * t3 - 0x4_0000_0000 * X2(adc, t1, t3);
            -294_000_000_000 <= e <= 311_000_000_000
  {
    var b, r := adc / 16, adc % 16;
    var d := b - t1;
    var q, s := d * d / 4096, d * d % 4096;
    var x, r2 := q * t3 / 16384, q * t3 % 16384;
    BoundFromFits(d, t3, q);
    Expand(d, r, t3, q, s, x, r2);
    Product(r, 15, d * t3, 540_000_000);
    Product(s, 4095, t3, 0x8000);
    Product(r, 15, r * t3, 15 * 0x8000) by { Product(r, 15, t3, 0x8000); }
    assert adc - 16 * t1 == 16 * d + r;
    var n := 16 * d + r;
    SumOfParts(n * n * t3 - 0x4_0000_0000 * x, r2, s * t3, r * (d * t3), r * (r * t3));
  }

  lemma BoundFromFits(d: int, t3: int, q: int)
    requires q == d * d / 4096 && S32(d * d) && S32(q * t3) && -0x8000 <= t3 < 0x8000
    ensures -540_000_000 < d * t3 < 540_000_000
  {
    var u: nat, v: nat := if d < 0 then -d else d, if t3 < 0 then -t3 else t3;
    assert u * u == d * d;
    assert q * v <= 0x8000_0000;
    ProductBound(u, v, q);
    SignedProduct(d, t3, 540_000_000);
  }

  lemma Product(k: int, most: int, x: int, b: int)
    requires 0 <= k <= most && -b <= x <= b
    ensures -(most * b) <= k * x <= most * b
  {
    Scale(x, -b, b, k);
    Scale(k, 0, most, b);
  }

  lemma SumOfParts(e: int, r2: int, st: int, rdt: int, rrt: int)
    requires e == 0x10_0000 * r2 + 256 * st + 32 * rdt + rrt && 0 <= r2 < 16384
    requires -4095 * 0x8000 <= st <= 4095 * 0x8000 && -15 * 540_000_000 <= rdt <= 15 * 540_000_000
    requires -225 * 0x8000 <= rrt <= 225 * 0x8000
    ensures -294_000_000_000 <= e <= 311_000_000_000
  {}

  lemma Expand(d: int, r: int, t3: int, q: int, s: int, x: int, r2: int)
    requires d * d == 4096 * q + s && q * t3 == 16384 * x + r2
    ensures var n := 16 * d + r;
            n * n * t3 == 0x4_0000_0000 * x + 0x10_0000 * r2 + 256 * (s * t3) + 32 * (r * (d * t3)) + r * (r * t3)
  {
    var n := 16 * d + r;
    assert n * n == 256 * (d * d) + 32 * r * d + r * r;
    assert n * n * t3 == 256 * (d * d) * t3 + 32 * r * d * t3 + r * r * t3;
    assert 256 * (d * d) * t3 == 256 * (4096 * q + s) * t3 == 0x10_0000 * (q * t3) + 256 * s * t3;
    assert 32 * r * d * t3 == 32 * r * (d * t3);
  }

  // ---------------------------------------------------------------- the bound

  lemma ExactIsRational(adc: int, t1: int, t2: int, t3: int)
    ensures var n := adc - 16 * t1;
            Exact(adc, t1, t2, t3) == ((n * t2) as real / 16384.0 + (n * n * t3) as real / 17179869184.0) / 5120.0
  {
    var a, r1, r2, r3, n := adc as real, t1 as real, t2 as real, t3 as real, adc - 16 * t1;
    var m := n as real;
    assert a / 16384.0 - r1 / 1024.0 == m / 16384.0;
    assert a / 131072.0 - r1 / 8192.0 == m / 131072.0;
    assert (m / 16384.0) * r2 == (m * r2) / 16384.0;
    assert m * r2 == (n * t2) as real;
    assert (m / 131072.0) * (m / 131072.0) == (m * m) / 17179869184.0;
    assert (m * m) / 17179869184.0 * r3 == (m * m * r3) / 17179869184.0;
    assert m * m == (n * n) as real && m * m * r3 == (n * n * t3) as real;
  }

  /**
   * For every 20-bit reading and every calibration for which no 32-bit intermediate overflows, the integer
   * temperature is within 0.012 degrees of the double version read over the reals.
   */
  lemma ErrorBound(adc: int, t1: int, t2: int, t3: int)
    requires Reading(adc) && Calibration(t1, t2, t3) && Fits(adc, t1, t2, t3)
    ensures -0.012 <= Temperature(adc, t1, t2, t3) as real / 100.0 - Exact(adc, t1, t2, t3) <= 0.012
  {
    var n := adc - 16 * t1;
    var a1, a2 := n * t2, n * n * t3;
    var x1, x2 := X1(adc, t1, t2), X2(adc, t1, t3);
    FirstTerm(adc, t1, t2, t3);
    SecondTerm(adc, t1, t2, t3);
    ExactIsRational(adc, t1, t2, t3);
    Combine(a1, a2, x1, x2);
  }

  lemma Combine(a1: int, a2: int, x1: int, x2: int)
    requires -229376 <= a1 - 16384 * x1 <= 245760
    requires -294_000_000_000 <= a2 - 0x4_0000_0000 * x2 <= 311_000_000_000
    ensures var t := ((x1 + x2) * 5 + 128) / 256;
            -0.012 <= t as real / 100.0 - (a1 as real / 16384.0 + a2 as real / 17179869184.0) / 5120.0 <= 0.012
  {
    var t := ((x1 + x2) * 5 + 128) / 256;
    assert 256 * t <= (x1 + x2) * 5 + 128 < 256 * t + 256;
    var e1, e2 := a1 - 16384 * x1, a2 - 0x4_0000_0000 * x2;
    assert a1 as real / 16384.0 == x1 as real + e1 as real / 16384.0;
    assert a2 as real / 17179869184.0 == x2 as real + e2 as real / 17179869184.0;
  }

  /** Calibration values as in the sensor's documentation never overflow, whatever the reading. */
  lemma SampleCalibrationFits(adc: int)
    requires Reading(adc)
    ensures Fits(adc, 27504, 26435, -1000)
  {
    var d := adc / 16 - 27504;
    assert -27504 <= d <= 38031;
    if d >= 0 {
      Scale(d, 0, 38031, d);
      Scale(d, 0, 38031, 38031);
    } else {
      Scale(-d, 0, 27504, -d);
      Scale(-d, 0, 27504, 27504);
      assert (-d) * (-d) == d * d;
    }
  }
}
