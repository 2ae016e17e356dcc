/** Scale laws of the gain decoder (internal/gain): what doubling an energy, a predicted gain or a correction
    does, on both sides of one, and what an erasure leaves in the memory. */
module GainLaws {
  import opened Fixed
  import G = Gain

  // ---------- the exponential ----------

  lemma TableRises(i: nat)
    requires i < 32
    ensures |G.POW2_TABLE| == 33
    ensures 16384 <= G.POW2_TABLE[i] <= G.POW2_TABLE[i + 1] <= 32767
  {
  }

  // Between two table entries, and the first of them at its own place.
  lemma Pow2FracBetween(frac: int)
    requires 0 <= frac < 0x8000
    ensures G.POW2_TABLE[frac / 0x400] <= G.Pow2FracQ14FromQ15(frac) <= G.POW2_TABLE[frac / 0x400 + 1]
    ensures frac % 0x400 == 0 ==> G.Pow2FracQ14FromQ15(frac) as int == G.POW2_TABLE[frac / 0x400]
  {
    hide G.POW2_TABLE, Int16;
    TableRises(frac / 0x400);
    var a, t0, t1 := frac % 0x400, G.POW2_TABLE[frac / 0x400], G.POW2_TABLE[frac / 0x400 + 1];
    assert G.Pow2FracQ14FromQ15(frac) == Int16(t0 + ((t1 - t0) * a + 512) / 1024);
    hide G.Pow2FracQ14FromQ15;
    ShareBetween(t1 - t0, a);
    SmallWord(t0 + ((t1 - t0) * a + 512) / 1024);
  }

  lemma SmallWord(x: int)
    requires 0 <= x <= 32767
    ensures Int16(x) == x
  {
  }

  lemma ShareBetween(d: nat, a: nat)
    requires a < 0x400
    ensures 0 <= (d * a + 512) / 1024 <= d
    ensures a == 0 ==> (d * a + 512) / 1024 == 0
  {
    MulMono(0, a, d);
    if d > 0 {
      assert d * a <= d * 0x3FF;
    }
  }

  // ---------- the fixed gain ----------

  // Half the product of the correction factor and the fractional power, in Q14.
  function Base(frac: int, gamma: nat): (b: nat)
    requires 0 <= frac < 0x8000 && gamma <= 41438
    ensures b < 0x4_0000
  {
    Pow2FracBetween(frac);
    TableRises(frac / 0x400);
    BaseBound(gamma / 2, G.Pow2FracQ14FromQ15(frac));
    ((gamma / 2) * G.Pow2FracQ14FromQ15(frac)) / 0x1000
  }

  lemma BaseBound(h: nat, p: nat)
    requires h <= 20719 && p <= 32767
    ensures 0 <= (h * p) / 0x1000 < 0x4_0000
  {
    MulAbsLe(h, p, 20719, 32767);
    MulMono(0, p, h);
  }

  // In the octave at one the gain is the correction factor times 1 to 2.
  lemma GainAtOne(log2: Word32, gamma: nat)
    requires 0 <= log2 < 0x8000 && gamma <= 41438
    ensures 4 * (gamma / 2) <= G.FixedGainQ14FromLog2Gamma(log2, gamma) <= 8 * (gamma / 2)
  {
    hide G.FixedGainQ14FromLog2Gamma, Base;
    GainIs(log2, gamma);
    BaseBetween(log2, gamma);
    assert Pow2(0) == 1;
  }

  lemma BaseBetween(frac: int, gamma: nat)
    requires 0 <= frac < 0x8000 && gamma <= 41438
    ensures 4 * (gamma / 2) <= Base(frac, gamma) <= 8 * (gamma / 2)
  {
    Pow2FracBetween(frac);
    TableRises(frac / 0x400);
    hide G.Pow2FracQ14FromQ15, G.POW2_TABLE;
    OneToTwo(gamma / 2, G.Pow2FracQ14FromQ15(frac));
  }

  lemma OneToTwo(h: nat, p: nat)
    requires 16384 <= p <= 32767
    ensures 4 * h <= (h * p) / 0x1000 <= 8 * h
  {
    MulMono(16384, p, h);
    MulMono(p, 32768, h);
  }

  // One more in the logarithm doubles the gain: exactly from one upwards, up to the bit shifted out below.
  lemma OctaveDoubles(log2: Word32, gamma: nat)
    requires gamma <= 41438 && -62 * 0x8000 <= log2 < 43 * 0x8000
    ensures var f, f' := G.FixedGainQ14FromLog2Gamma(log2, gamma), G.FixedGainQ14FromLog2Gamma(log2 + 0x8000, gamma);
            if log2 >= 0 then f' == 2 * f else f == f' / 2
  {
    hide G.FixedGainQ14FromLog2Gamma, Base, ScaledBy;
    GainIs(log2, gamma);
    GainIs(log2 + 0x8000, gamma);
    NextOctave(log2);
    ScaleDoubles(Base(log2 % 0x8000, gamma), log2 / 0x8000);
  }

  lemma NextOctave(x: int)
    ensures (x + 0x8000) / 0x8000 == x / 0x8000 + 1 && (x + 0x8000) % 0x8000 == x % 0x8000
    ensures x >= 0 <==> x / 0x8000 >= 0
  {
  }

  // b times 2^n, rounded down.
  function ScaledBy(b: nat, n: int): int {
    if n >= 0 then b * Pow2(n) else Shr(b, -n)
  }

  lemma ScaleDoubles(b: nat, n: int)
    ensures if n >= 0 then ScaledBy(b, n + 1) == 2 * ScaledBy(b, n) else ScaledBy(b, n) == ScaledBy(b, n + 1) / 2
  {
    hide Pow2, Shr;
    if n >= 0 {
      Doubled(b, n);
    } else {
      Halved(b, -n);
    }
  }

  lemma GainIs(log2: Word32, gamma: nat)
    requires gamma <= 41438 && -62 * 0x8000 <= log2 < 44 * 0x8000
    ensures G.FixedGainQ14FromLog2Gamma(log2, gamma) == ScaledBy(Base(log2 % 0x8000, gamma), log2 / 0x8000)
  {
    var n, frac := log2 / 0x8000, log2 % 0x8000;
    assert log2 - n * 0x8000 == frac;
    if n >= 0 {
      InReach(Base(frac, gamma), n);
    }
    hide G.Pow2FracQ14FromQ15, Pow2;
  }

  lemma InReach(b: nat, n: nat)
    requires b < 0x4_0000 && n <= 43
    ensures Int64(b * Pow2(n)) == b * Pow2(n)
  {
    Pow2Mono(n, 43);
    Pow2Values();
    Pow2Add(16, 16);
    Pow2Add(32, 11);
    hide Pow2;
    MulAbsLe(b, Pow2(n), 0x4_0000, Pow2(43));
    MulMono(0, Pow2(n), b);
  }

  lemma Doubled(b: nat, n: nat)
    ensures b * Pow2(n + 1) == 2 * (b * Pow2(n))
  {
  }

  lemma Halved(b: nat, m: nat)
    requires m >= 1
    ensures Shr(b, m) == (if m == 1 then b * Pow2(0) else Shr(b, m - 1)) / 2
  {
    assert Pow2(0) == 1;
    var p := Pow2(m - 1);
    assert Pow2(m) == 2 * p;
    hide Pow2;
    HalfThen(b, p);
    if m == 1 {
      assert b / (2 * p) == b / 2;
    }
  }

  lemma HalfThen(b: nat, p: nat)
    requires p >= 1
    ensures b / (2 * p) == (b / p) / 2
  {
    var q, r := b / p, b % p;
    assert b == q * p + r;
    assert q == 2 * (q / 2) + q % 2;
    var s := q % 2 * p + r;
    assert (q % 2) * p <= p;
    assert q * p == (q / 2) * (2 * p) + (q % 2) * p;
    ModUnique(b, 2 * p, q / 2, s);
  }

  // ---------- the logarithm ----------

  // The logarithm of a mantissa in [1, 2), Q30.
  function Mantissa(m: int): int
    requires 0x4000_0000 <= m < 0x8000_0000
  {
    var idx := (m - 0x4000_0000) / 0x200_0000;
    G.LOG2_TABLE[idx]
      + ((G.LOG2_TABLE[idx + 1] - G.LOG2_TABLE[idx]) * (((m - 0x4000_0000) / 0x400) % 0x8000)) / 0x8000
  }

  lemma LogTableRises(i: nat)
    requires i < 32
    ensures |G.LOG2_TABLE| == 33
    ensures 0 <= G.LOG2_TABLE[i] <= G.LOG2_TABLE[i + 1] <= 0x7FFF
  {
  }

  lemma MantissaRange(m: int)
    requires 0x4000_0000 <= m < 0x8000_0000
    ensures 0 <= Mantissa(m) < 0x8000
  {
    var idx, a := (m - 0x4000_0000) / 0x200_0000, ((m - 0x4000_0000) / 0x400) % 0x8000;
    LogTableRises(idx);
    hide G.LOG2_TABLE;
    var d := G.LOG2_TABLE[idx + 1] - G.LOG2_TABLE[idx];
    MulAbsLe(d, a, d, 0x8000);
    MulMono(0, a, d);
  }

  lemma Log2Is(x: Word32)
    requires x > 0
    ensures G.NormL(x) <= 30 && 0x4000_0000 <= LShl(x, G.NormL(x)) < 0x8000_0000
    ensures G.Log2FixedQ15(x) == (30 - G.NormL(x)) * 0x8000 + Mantissa(LShl(x, G.NormL(x)))
  {
    G.NormalisedRange(x);
    hide LShl, G.NormL;
    LogTableRises((LShl(x, G.NormL(x)) - 0x4000_0000) / 0x200_0000);
    hide G.LOG2_TABLE;
  }

  // Doubling an argument adds one.
  lemma Log2Doubles(x: Word32)
    requires 0 < x <= 0x3FFF_FFFF
    ensures G.Log2FixedQ15(2 * x) == G.Log2FixedQ15(x) + 0x8000
  {
    hide LShl, G.NormL, G.Log2FixedQ15, Mantissa;
    Log2Is(x);
    Log2Is(2 * x);
    SameMantissa(x);
  }

  lemma SameMantissa(x: Word32)
    requires 0 < x <= 0x3FFF_FFFF
    ensures G.NormL(x) == G.NormL(2 * x) + 1 && LShl(2 * x, G.NormL(2 * x)) == LShl(x, G.NormL(x))
  {
    hide LShl, Pow2, G.NormL, Sat32;
    OneFewerDoubling(x);
    G.NormalisedRange(2 * x);
    var n := G.NormL(2 * x);
    ShiftIs(2 * x, n);
    ShiftIs(x, n + 1);
    PowerSplit(x, n);
  }

  lemma PowerSplit(x: int, n: nat)
    ensures x * Pow2(n + 1) == (2 * x) * Pow2(n)
  {
    assert Pow2(n + 1) == 2 * Pow2(n);
  }

  lemma OneFewerDoubling(x: Word32)
    requires 0 < x <= 0x3FFF_FFFF
    ensures G.NormL(x) == G.NormL(2 * x) + 1
  {
    assert G.Doublings(x) == 1 + G.Doublings(2 * x);
  }

  lemma ShiftIs(x: Word32, n: nat)
    requires n < 32
    ensures LShl(x, n) == Sat32(x * Pow2(n))
  {
    if n == 0 {
      assert Pow2(0) == 1;
    }
    hide Pow2;
  }

  // Twice the correction factor is 6.02 dB more in the error memory, to the unit.
  lemma CorrectionDoubles(gamma: Word32)
    requires 512 <= gamma <= 41438
    ensures G.QuantizedPredictionErrorQ10(2 * gamma) as int == G.QuantizedPredictionErrorQ10(gamma) as int + 6165
  {
    hide G.Log2FixedQ15, LShl, G.NormL, Mantissa, G.QuantizedPredictionErrorQ10;
    Log2Doubles(gamma);
    CorrectionWidth(gamma);
    CorrectionIs(gamma);
    CorrectionIs(2 * gamma);
    StepOfDb(G.Log2FixedQ15(gamma) - 13 * 0x8000);
  }

  lemma CorrectionWidth(gamma: Word32)
    requires 512 <= gamma <= 41438
    ensures 9 * 0x8000 <= G.Log2FixedQ15(gamma) < 16 * 0x8000
  {
    assert G.NormL(gamma) == G.Doublings(gamma);
    hide G.Log2FixedQ15, Mantissa, LShl, Pow2, G.Doublings, G.NormL;
    Log2Is(gamma);
    MantissaRange(LShl(gamma, G.NormL(gamma)));
    ShiftBetween(gamma, G.NormL(gamma));
  }

  lemma ShiftBetween(x: Word32, n: nat)
    requires 512 <= x <= 41438 && 0x4000_0000 <= x * Pow2(n) < 0x8000_0000
    ensures 15 <= n <= 21
  {
    hide Pow2;
    Pow2Values();
    Pow2Add(16, 6);
    if n <= 14 {
      Pow2Mono(n, 14);
      MulAbsLe(x, Pow2(n), 41438, 0x4000);
    } else if n >= 22 {
      Pow2Mono(22, n);
      MulMono(512, x, Pow2(n));
    }
  }

  lemma CorrectionIs(gamma: Word32)
    requires gamma > 0 && 9 * 0x8000 <= G.Log2FixedQ15(gamma) < 17 * 0x8000
    ensures G.QuantizedPredictionErrorQ10(gamma) as int
            == (((G.Log2FixedQ15(gamma) - 13 * 0x8000) / 4) * 24660) / 0x8000
  {
    hide G.Log2FixedQ15;
    var x := (((G.Log2FixedQ15(gamma) - 13 * 0x8000) / 4) * 24660) / 0x8000;
    assert Abs(x) <= 0x7FFF;
    Within(x);
    hide Int32;
  }

  lemma StepOfDb(x: int)
    ensures (((x + 0x8000) / 4) * 24660) / 0x8000 == ((x / 4) * 24660) / 0x8000 + 6165
  {
    assert (x + 0x8000) / 4 == x / 4 + 8192;
  }

  // ---------- the prediction ----------

  // A code vector of twice the energy is predicted a gain 3.01 dB lower, whatever the memory.
  lemma LouderVectorLowerGain(past: G.Errors, energy: Word32)
    requires 0 < energy <= 0x1FFF_FFFF
    ensures 3082 <= (G.LogGainDbQ10FromEnergyQ24(past, energy) as int)
                    - G.LogGainDbQ10FromEnergyQ24(past, 2 * energy) <= 3083
  {
    hide G.PredictedEnergyQ24, CodeLevel, G.LogGainDbQ10FromEnergyQ24;
    LevelIs(past, energy);
    LevelIs(past, 2 * energy);
    LevelFalls(energy);
    PredictionRange(past);
    Fall(CodeLevel(energy), G.PredictedEnergyQ24(past));
  }

  // The part of the prediction that depends on the vector, in Q14.
  function CodeLevel(energy: Word32): int
    requires energy > 0
  {
    var raw := G.Log2FixedQ15(LShl(energy, 1));
    2085632 + G.Log2DbProductQ14(raw / 0x8000, raw % 0x8000, -24660)
  }

  lemma LevelIs(past: G.Errors, energy: Word32)
    requires energy > 0
    ensures G.LogGainDbQ10FromEnergyQ24(past, energy)
            == Int32((CodeLevel(energy) * 0x400 + G.PredictedEnergyQ24(past)) / 0x4000)
  {
    hide G.PredictedEnergyQ24, G.Log2FixedQ15, G.Log2DbProductQ14, LShl;
  }

  lemma LevelFalls(energy: Word32)
    requires 0 < energy <= 0x1FFF_FFFF
    ensures CodeLevel(2 * energy) == CodeLevel(energy) - 49320
    ensures 500000 <= CodeLevel(energy) <= 2100000
  {
    hide LShl, G.NormL, G.Log2FixedQ15, Mantissa, Mult, G.Log2DbProductQ14;
    OneShift(energy);
    OneShift(2 * energy);
    Log2Doubles(2 * energy);
    Log2Is(2 * energy);
    MantissaRange(LShl(2 * energy, G.NormL(2 * energy)));
    ProductFalls(G.Log2FixedQ15(2 * energy));
  }

  lemma OneShift(x: Word32)
    requires 0 < x <= 0x3FFF_FFFF
    ensures LShl(x, 1) == 2 * x
  {
    assert Pow2(1) == 2;
  }

  lemma ProductFalls(raw: int)
    requires 0 <= raw < 31 * 0x8000
    ensures var p := G.Log2DbProductQ14(raw / 0x8000, raw % 0x8000, -24660);
            && (raw + 0x8000) % 0x8000 == raw % 0x8000
            && G.Log2DbProductQ14((raw + 0x8000) / 0x8000, raw % 0x8000, -24660) == p - 49320
            && -1528920 <= p <= 0
  {
    hide Mult;
    assert (raw + 0x8000) / 0x8000 == raw / 0x8000 + 1 && (raw + 0x8000) % 0x8000 == raw % 0x8000;
    Share(raw % 0x8000);
  }

  lemma Share(frac: Word16)
    requires 0 <= frac
    ensures -24660 <= Mult(frac, -24660) <= 0
  {
    MulMono(0, frac, 24660);
  }

  lemma PredictionRange(past: G.Errors)
    ensures Abs(G.PredictedEnergyQ24(past)) <= 0x4000_0000
  {
  }

  lemma Fall(level: int, p: int)
    requires 500000 <= level <= 2100000 && Abs(p) <= 0x4000_0000
    ensures 3082 <= Int32((level * 0x400 + p) / 0x4000) as int - Int32(((level - 49320) * 0x400 + p) / 0x4000) <= 3083
  {
    var x := level * 0x400 + p;
    assert (level - 49320) * 0x400 + p == x - 49320 * 0x400;
    Within(x / 0x4000);
    Within((x - 49320 * 0x400) / 0x4000);
    hide Int32;
  }

  lemma Within(x: int)
    requires Abs(x) <= 0x4000_0000
    ensures Int32(x) == x
  {
  }

  // ---------- the memory after an erasure ----------

  // The new entry is the floor of the mean less 4 dB, but no less than the default of -14 dB; the older ones
  // move down. So no erasure raises the memory, and one takes its newest entry 4 dB below the largest.
  lemma ErasureLowers(past: G.Errors, m: int)
    requires forall i | 0 <= i < 4 :: past[i] <= m
    ensures var e := G.ErasedErrors(past);
            && e[1..] == past[..3]
            && e[0] >= -14336 && e[0] <= Max(m - 4096, -14336)
            && (e[0] > -14336 ==> 0 <= past[0] as int + past[1] + past[2] + past[3] - 4 * (e[0] as int + 4096) < 4)
  {
  }
}
