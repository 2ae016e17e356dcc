/** Gain quantisation of section 3.9 of ITU-T G.729: the log-domain predictor, the conjugate
    codebooks, and the two sides that rebuild the fixed-codebook gain and its error memory
    (internal/gain, internal/gainquant/predictor.go). */
module Gain {
  import opened Fixed

  const PAST_ERRORS_DEFAULT: Word16 := -14336
  const DB_PER_LOG2_Q13: Word16 := 24660
  const INV_DB_SCALE_Q15: int := 5439
  const LOG_EC_BAR_BIAS_Q14: int := 2085632

  type Errors = e: seq<Word16> | |e| == 4 witness [0, 0, 0, 0]

  // ---------- codebooks ----------

  function Gbk1(i: nat): (e: (int, int))
    requires i < 8
    ensures 0 <= e.0 <= 3242 && 1516 <= e.1 <= 27162
  {
    if i == 0 then (1, 1516)
    else if i == 1 then (1551, 2425)
    else if i == 2 then (1831, 5022)
    else if i == 3 then (57, 5404)
    else if i == 4 then (1921, 9291)
    else if i == 5 then (3242, 9949)
    else if i == 6 then (356, 14756)
    else (2678, 27162)
  }

  function Gbk2(i: nat): (e: (int, int))
    requires i < 16
    ensures 0 <= e.0 <= 18973 && 0 <= e.1 <= 14276
  {
    if i == 0 then (826, 2005)
    else if i == 1 then (1994, 0)
    else if i == 2 then (5142, 592)
    else if i == 3 then (6160, 2395)
    else if i == 4 then (8091, 4861)
    else if i == 5 then (9120, 525)
    else if i == 6 then (10573, 2966)
    else if i == 7 then (11569, 1196)
    else if i == 8 then (13260, 3256)
    else if i == 9 then (14194, 1630)
    else if i == 10 then (15132, 4914)
    else if i == 11 then (15161, 14276)
    else if i == 12 then (15434, 237)
    else if i == 13 then (16112, 3392)
    else if i == 14 then (17299, 1861)
    else (18973, 5935)
  }

  const GAIN_MAP1: seq<nat> := [5, 1, 4, 7, 3, 0, 6, 2]
  const GAIN_IMAP1: seq<nat> := [5, 1, 7, 4, 2, 0, 6, 3]
  const GAIN_MAP2: seq<nat> := [4, 6, 0, 2, 12, 14, 8, 10, 15, 11, 9, 13, 7, 3, 1, 5]
  const GAIN_IMAP2: seq<nat> := [2, 14, 3, 13, 0, 15, 1, 12, 6, 10, 7, 9, 4, 11, 5, 8]

  // The transmitted code words of a pair of codebook entries, and back.
  function PackGains(ga: nat, gb: nat): (bits: (nat, nat))
    requires ga < 8 && gb < 16
    ensures bits.0 < 8 && bits.1 < 16
  {
    GainMap1Inverse(ga);
    GainMap2Inverse(gb);
    (GAIN_MAP1[ga], GAIN_MAP2[gb])
  }

  function UnpackGains(gaBits: nat, gbBits: nat): (e: (nat, nat))
    requires gaBits < 8 && gbBits < 16
    ensures e.0 < 8 && e.1 < 16
  {
    GainMap1Inverse(gaBits);
    GainMap2Inverse(gbBits);
    (GAIN_IMAP1[gaBits], GAIN_IMAP2[gbBits])
  }

  lemma GainMap1Inverse(ga: nat)
    requires ga < 8
    ensures GAIN_MAP1[ga] < 8 && GAIN_IMAP1[GAIN_MAP1[ga]] == ga
    ensures GAIN_IMAP1[ga] < 8 && GAIN_MAP1[GAIN_IMAP1[ga]] == ga
  {
  }

  lemma GainMap2Inverse(gb: nat)
    requires gb < 16
    ensures GAIN_MAP2[gb] < 16 && GAIN_IMAP2[GAIN_MAP2[gb]] == gb
    ensures GAIN_IMAP2[gb] < 16 && GAIN_MAP2[GAIN_IMAP2[gb]] == gb
  {
  }

  // The permutations of section 3.9.3 undo each other, both ways round.
  lemma GainMapsInverse(ga: nat, gb: nat)
    requires ga < 8 && gb < 16
    ensures UnpackGains(PackGains(ga, gb).0, PackGains(ga, gb).1) == (ga, gb)
    ensures PackGains(UnpackGains(ga, gb).0, UnpackGains(ga, gb).1) == (ga, gb)
  {
    GainMap1Inverse(ga);
    GainMap2Inverse(gb);
  }

  // Equations (73) and (74).
  function PitchGainQ14(ga: nat, gb: nat): (gp: Word16)
    requires ga < 8 && gb < 16
    ensures 0 <= gp <= 22215
  {
    Sat16(Gbk1(ga).0 + Gbk2(gb).0)
  }

  function GammaQ13(ga: nat, gb: nat): (gamma: int)
    requires ga < 8 && gb < 16
    ensures 0 < gamma <= 41438
  {
    Gbk1(ga).1 + Gbk2(gb).1
  }

  // ---------- logarithm and exponential ----------

  const POW2_TABLE: seq<int> := [
    16384, 16743, 17109, 17484, 17867, 18258, 18658, 19066, 19484, 19911,
    20347, 20792, 21247, 21713, 22188, 22674, 23170, 23678, 24196, 24726,
    25268, 25821, 26386, 26964, 27554, 28158, 28774, 29405, 30048, 30706,
    31379, 32066, 32767]

  const LOG2_TABLE: seq<int> := [
    0, 1455, 2866, 4236, 5568, 6863, 8124, 9352, 10549, 11716,
    12855, 13967, 15054, 16117, 17156, 18172, 19167, 20142, 21097, 22033,
    22951, 23852, 24735, 25603, 26455, 27291, 28113, 28922, 29716, 30497,
    31266, 32023, 32767]

  // How often x >= 1 can be doubled below 2^30.
  function Doublings(x: int): (n: nat)
    requires x >= 1
    ensures x < 0x8000_0000 ==> 0x4000_0000 <= x * Pow2(n) < 0x8000_0000
    decreases 0x4000_0000 - x
  {
    if x >= 0x4000_0000 then 0
    else
      assert forall n: nat :: x * Pow2(n + 1) == 2 * x * Pow2(n);
      1 + Doublings(2 * x)
  }

  function NormL(x: Word32): nat {
    if x == 0 then 0
    else if x == -1 then 31
    else Doublings(if x < 0 then -(x as int) - 1 else x)
  }

  method NormLLoop(x: Word32) returns (n: nat)
    ensures n == NormL(x)
  {
    if x == 0 {
      return 0;
    }
    if x == -1 {
      return 31;
    }
    var y: int := if x < 0 then -(x as int) - 1 else x;
    n := 0;
    while y < 0x4000_0000
      invariant 1 <= y && n + Doublings(y) == NormL(x)
      decreases 0x4000_0000 - y
    {
      y := 2 * y;
      n := n + 1;
    }
  }

  function Log2FixedQ15(x: Word32): int {
    if x <= 0 then 0
    else
      var s := NormL(x);
      NormalisedRange(x);
      var normX := LShl(x, s);
      var frac30 := normX - 0x4000_0000;
      var idx := frac30 / 0x200_0000;
      var a := (frac30 / 0x400) % 0x8000;
      var t0, t1 := LOG2_TABLE[idx], LOG2_TABLE[idx + 1];
      (30 - s) * 0x8000 + (t0 + ((t1 - t0) * a) / 0x8000)
  }

  // The argument of the table lookup lies in [1, 2) in Q30.
  lemma NormalisedRange(x: Word32)
    requires x > 0
    ensures NormL(x) <= 30
    ensures 0x4000_0000 <= LShl(x, NormL(x)) < 0x8000_0000
  {
    var n := NormL(x);
    assert Doublings(x) == n;
    if n > 30 {
      Pow2Mono(31, n);
      Pow2Values();
      Pow2Add(16, 15);
      MulMono(1, x, Pow2(n));
    }
    if n == 0 {
      assert Pow2(0) == 1;
      assert LShl(x, 0) == LShr(x, 0) == Shr(x, 0) == x;
    }
  }

  function Pow2FracQ14FromQ15(frac: int): Word16
    requires 0 <= frac < 0x8000
  {
    var idx, a := frac / 0x400, frac % 0x400;
    var t0, t1 := POW2_TABLE[idx], POW2_TABLE[idx + 1];
    Int16(t0 + ((t1 - t0) * a + 512) / 1024)
  }

  // ---------- energy and prediction ----------

  function EnergyTo(c: Subframe, n: nat): Word32
    requires n <= 40
  {
    if n == 0 then 0 else LAdd(EnergyTo(c, n - 1), LShr(LMult(c[n - 1], c[n - 1]), 1))
  }

  function FixedCodebookEnergy(c: Subframe): Word32 {
    EnergyTo(c, 40)
  }

  method FixedCodebookEnergyLoop(c: Subframe) returns (acc: Word32)
    ensures acc == FixedCodebookEnergy(c)
  {
    acc := 0;
    for n := 0 to 40
      invariant acc == EnergyTo(c, n)
    {
      acc := LAdd(acc, LShr(LMult(c[n], c[n]), 1));
    }
  }

  const GAIN_MA_PREDICTOR: seq<int> := [5571, 4751, 2785, 1556]

  function PredictedEnergyQ24(past: Errors): int {
    2 * 5571 * (past[0] as int) + 2 * 4751 * (past[1] as int) + 2 * 2785 * (past[2] as int)
      + 2 * 1556 * (past[3] as int)
  }

  method PredictedEnergyLoop(past: Errors) returns (acc: int)
    ensures acc == PredictedEnergyQ24(past)
  {
    acc := 0;
    for i := 0 to 4
      invariant acc == (if i > 0 then 2 * 5571 * (past[0] as int) else 0)
                       + (if i > 1 then 2 * 4751 * (past[1] as int) else 0)
                       + (if i > 2 then 2 * 2785 * (past[2] as int) else 0)
                       + (if i > 3 then 2 * 1556 * (past[3] as int) else 0)
    {
      acc := acc + 2 * GAIN_MA_PREDICTOR[i] * (past[i] as int);
    }
  }

  function Log2DbProductQ14(intPart: int, fracQ15: int, multiplierQ13: Word16): int
    requires 0 <= fracQ15 < 0x8000
  {
    intPart * multiplierQ13 * 2 + Mult(fracQ15, multiplierQ13) * 2
  }

  function LogGainDbQ10FromEnergyQ24(past: Errors, ecEnergy: Word32): Word32 {
    var raw := Log2FixedQ15(LShl(ecEnergy, 1));
    var intPart := raw / 0x8000;
    var fracQ15 := raw - intPart * 0x8000;
    var ecBarQ14 := LOG_EC_BAR_BIAS_Q14 + Log2DbProductQ14(intPart, fracQ15, -DB_PER_LOG2_Q13);
    Int32((ecBarQ14 * 0x400 + PredictedEnergyQ24(past)) / 0x4000)
  }

  function LogGainToLog2Q15(logGainDbQ10: Word32): Word32 {
    Int32((LShr(logGainDbQ10, 2) * INV_DB_SCALE_Q15) / 256)
  }

  // ---------- the fixed-codebook gain ----------

  function FixedGainQ14FromLog2Gamma(log2GcQ15: Word32, gammaCQ13: int): int {
    var intPart := log2GcQ15 / 0x8000;
    var gc0Q14 := Pow2FracQ14FromQ15(log2GcQ15 - intPart * 0x8000);
    var baseQ14 := ((gammaCQ13 / 2) * gc0Q14) / 0x1000;
    if intPart >= 0 then
      if intPart >= 62 then 0x7FFF_FFFF_FFFF_FFFF else Int64(baseQ14 * Pow2(intPart))
    else if -intPart >= 63 then 0
    else Shr(baseQ14, -intPart)
  }

  function QuantizeFixedGainQ1(gainQ14: int): (g: nat)
    ensures g % 8192 == 0 && g <= 32767 * 8192
    ensures gainQ14 > 0 ==> g <= gainQ14
  {
    if gainQ14 <= 0 then 0
    else
      var gainQ1 := gainQ14 / 8192;
      (if gainQ1 > 32767 then 32767 else gainQ1) * 8192
  }

  // Mantissa and exponent: halve down to 15 bits, then double up to 2^14.
  function SplitDown(g: nat, e: int): (nat, int)
    decreases g
  {
    if g > 32767 && e < 127 then SplitDown(g / 2, e + 1) else (g, e)
  }

  function SplitUp(g: nat, e: int): (nat, int)
    decreases e + 128
  {
    if g < 16384 && e > -128 then SplitUp(2 * g, e - 1) else (g, e)
  }

  function SplitGainQ14(gainQ14: int): (Word16, int) {
    if gainQ14 <= 0 then (0, 0)
    else
      var (g, e) := SplitDown(gainQ14, 0);
      var (g, e) := SplitUp(g, e);
      (Int16(g), e)
  }

  method SplitGainQ14Loop(gainQ14: int) returns (mant: Word16, exp: int)
    ensures (mant, exp) == SplitGainQ14(gainQ14)
  {
    if gainQ14 <= 0 {
      return 0, 0;
    }
    var g, e := gainQ14, 0;
    while g > 32767 && e < 127
      invariant g >= 0 && SplitDown(g, e) == SplitDown(gainQ14, 0)
      decreases g
    {
      g := g / 2;
      e := e + 1;
    }
    ghost var g0, e0 := g, e;
    while g < 16384 && e > -128
      invariant g >= 0 && SplitUp(g, e) == SplitUp(g0, e0)
      decreases e + 128
    {
      g := 2 * g;
      e := e - 1;
    }
    return Int16(g), e;
  }

  function DecoderGainQ14FromMantExp(mant: Word16, exp: int): int {
    if mant == 0 then 0
    else if exp >= 0 then
      if exp >= 62 then 0x7FFF_FFFF_FFFF_FFFF else Int64(mant * Pow2(exp))
    else if -exp >= 63 then 0
    else Shr(mant, -exp)
  }

  // Halving a multiple of 2^k keeps every bit of the factor.
  lemma {:induction false} SplitDownAt(q: nat, k: nat) returns (j: nat)
    requires 0 < q < 0x8000 && k <= 13
    ensures j <= k && q * Pow2(j) <= 32767
    ensures SplitDown(q * Pow2(k), 13 - k) == (q * Pow2(j), 13 - j)
    decreases k
  {
    j := k;
    if q * Pow2(k) > 32767 {
      assert Pow2(0) == 1;
      HalfOfDouble(q, k);
      j := SplitDownAt(q, k - 1);
    }
  }

  lemma HalfOfDouble(q: nat, k: nat)
    requires k > 0
    ensures q * Pow2(k) == 2 * (q * Pow2(k - 1)) && (q * Pow2(k)) / 2 == q * Pow2(k - 1)
  {
    assert q * Pow2(k) == 2 * (q * Pow2(k - 1));
  }

  lemma {:induction false} SplitUpAt(q: nat, j: nat) returns (j': nat)
    requires 0 < q && j <= 14 && q * Pow2(j) <= 32767
    ensures j <= j' <= 14 && 16384 <= q * Pow2(j') <= 32767
    ensures SplitUp(q * Pow2(j), 13 - j) == (q * Pow2(j'), 13 - j')
    decreases 14 - j
  {
    hide Pow2;
    j' := j;
    if q * Pow2(j) < 16384 {
      RoomToDouble(q, j);
      HalfOfDouble(q, j + 1);
      j' := SplitUpAt(q, j + 1);
    }
  }

  lemma RoomToDouble(q: nat, j: nat)
    requires 0 < q && j <= 14 && q * Pow2(j) < 16384
    ensures j < 14
  {
    Pow2Values();
    hide Pow2;
    MulPos(q, Pow2(j));
  }

  lemma MantExpBack(q: nat, j: nat)
    requires 0 < q <= 32767 && j <= 14 && 16384 <= q * Pow2(j) <= 32767
    ensures DecoderGainQ14FromMantExp(q * Pow2(j), 13 - (j as int)) == q * 8192
  {
    hide Pow2;
    Pow2Values();
    var m := q * Pow2(j);
    if j <= 13 {
      Pow2Add(j, 13 - j);
      Regroup(q, Pow2(j), Pow2(13 - j));
      assert m * Pow2(13 - j) == q * 8192;
    } else {
      assert m == 2 * (q * 8192);
    }
  }

  lemma Regroup(x: int, y: int, z: int)
    ensures (x * y) * z == x * (y * z)
  {
  }

  // A gain quantised by QuantizeFixedGainQ1 survives the split into mantissa and exponent exactly.
  lemma SplitRoundTrip(gainQ14: int)
    ensures var g := QuantizeFixedGainQ1(gainQ14);
            var (mant, exp) := SplitGainQ14(g);
            && DecoderGainQ14FromMantExp(mant, exp) == g
            && (g > 0 ==> 16384 <= mant <= 32767 && -1 <= exp <= 13)
            && (g == 0 ==> mant == 0)
  {
    hide SplitDown, SplitUp, DecoderGainQ14FromMantExp, Pow2;
    var g := QuantizeFixedGainQ1(gainQ14);
    if g > 0 {
      var q := g / 8192;
      Pow2Values();
      assert q * Pow2(13) == g;
      var j := SplitDownAt(q, 13);
      var k := SplitUpAt(q, j);
      MantExpBack(q, k);
    } else {
      NoGain();
    }
  }

  lemma NoGain()
    ensures DecoderGainQ14FromMantExp(0, 0) == 0
  {
  }

  // ---------- the two reconstructions ----------

  datatype GainTriple = GainTriple(gpQ14: Word16, gcMantQ14: Word16, gcExp: int)

  // gain.LogGainDbQ10FromCodebook followed by LogGainToLog2Q15, and DequantGc.
  function DequantGc(log2GcPredQ15: Word32, ok: bool, gammaCQ13: int): (Word16, int) {
    if !ok || gammaCQ13 <= 0 then (0, 0)
    else SplitGainQ14(QuantizeFixedGainQ1(FixedGainQ14FromLog2Gamma(log2GcPredQ15, gammaCQ13)))
  }

  // The encoder's local reconstruction from the physical codebook entries.
  function ReconstructWide(pastQuaEn: Errors, c: Subframe, ga: nat, gb: nat): GainTriple
    requires ga < 8 && gb < 16
  {
    var ec := FixedCodebookEnergy(c);
    var (mant, exp) :=
      if ec <= 0 then DequantGc(0, false, GammaQ13(ga, gb))
      else DequantGc(LogGainToLog2Q15(LogGainDbQ10FromEnergyQ24(pastQuaEn, ec)), true, GammaQ13(ga, gb));
    GainTriple(PitchGainQ14(ga, gb), mant, exp)
  }

  function QuantizedPredictionErrorQ10(gammaCQ13: Word32): Word16 {
    var gammaLog2Q15 := Log2FixedQ15(gammaCQ13) - 13 * 0x8000;
    if gammaLog2Q15 == 0 then 0
    else Sat16(Int32(((gammaLog2Q15 / 4) * DB_PER_LOG2_Q13) / 0x8000))
  }

  function Shifted(e: Errors, u: Word16): Errors {
    [u, e[0], e[1], e[2]]
  }

  // gainquant.UpdatePastQuaEn
  function UpdatedPastQuaEn(pastQuaEn: Errors, gammaCQ13: Word32): Errors {
    Shifted(pastQuaEn, if gammaCQ13 > 0 then QuantizedPredictionErrorQ10(gammaCQ13) else PAST_ERRORS_DEFAULT)
  }

  // The receiver's side of one subframe, from the transmitted code words.
  function DecodedGains(past: Errors, gaBits: nat, gbBits: nat, c: Subframe): GainTriple
    requires gaBits < 8 && gbBits < 16
  {
    var (ga, gb) := UnpackGains(gaBits, gbBits);
    var ec := FixedCodebookEnergy(c);
    if ec <= 0 then GainTriple(PitchGainQ14(ga, gb), 0, 0)
    else
      var log2GcQ15 := LogGainToLog2Q15(LogGainDbQ10FromEnergyQ24(past, ec));
      var gainQ14 := QuantizeFixedGainQ1(FixedGainQ14FromLog2Gamma(log2GcQ15, GammaQ13(ga, gb)));
      var (mant, exp) := SplitGainQ14(gainQ14);
      GainTriple(PitchGainQ14(ga, gb), mant, exp)
  }

  function DecodedErrors(past: Errors, gaBits: nat, gbBits: nat, c: Subframe): Errors
    requires gaBits < 8 && gbBits < 16
  {
    var (ga, gb) := UnpackGains(gaBits, gbBits);
    Shifted(past,
            if FixedCodebookEnergy(c) <= 0 then PAST_ERRORS_DEFAULT
            else QuantizedPredictionErrorQ10(GammaQ13(ga, gb)))
  }

  function ErasedErrors(past: Errors): Errors {
    var avg := ((past[0] as int) + past[1] + past[2] + past[3]) / 4;
    var u := avg - 4096;
    Shifted(past, if u < PAST_ERRORS_DEFAULT then PAST_ERRORS_DEFAULT else Int16(u))
  }

  // The receiver rebuilds the gains the encoder committed, whatever the prediction memory.
  lemma GainsAgree(past: Errors, c: Subframe, ga: nat, gb: nat)
    requires ga < 8 && gb < 16
    ensures var (gaBits, gbBits) := PackGains(ga, gb);
            DecodedGains(past, gaBits, gbBits, c) == ReconstructWide(past, c, ga, gb)
  {
    GainMapsInverse(ga, gb);
  }

  // The two error memories move alike for any codebook vector with energy, even if the two sides
  // hold different vectors.
  lemma ErrorsAgree(past: Errors, c: Subframe, ga: nat, gb: nat)
    requires ga < 8 && gb < 16 && FixedCodebookEnergy(c) > 0
    ensures var (gaBits, gbBits) := PackGains(ga, gb);
            DecodedErrors(past, gaBits, gbBits, c) == UpdatedPastQuaEn(past, GammaQ13(ga, gb))
  {
    GainMapsInverse(ga, gb);
  }

  lemma {:induction false} EnergyGrows(c: Subframe, n: nat, p: nat)
    requires p < n <= 40
    ensures EnergyTo(c, n) >= 0
    ensures c[p] != 0 ==> EnergyTo(c, n) > 0
    decreases n
  {
    SquareTerm(c[n - 1]);
    if n - 1 > p {
      EnergyGrows(c, n - 1, p);
    } else {
      EnergyNonNegative(c, n - 1);
    }
  }

  lemma {:induction false} EnergyNonNegative(c: Subframe, n: nat)
    requires n <= 40
    ensures EnergyTo(c, n) >= 0
  {
    if n > 0 {
      SquareTerm(c[n - 1]);
      EnergyNonNegative(c, n - 1);
    }
  }

  lemma SquareTerm(x: Word16)
    ensures LShr(LMult(x, x), 1) >= 0
    ensures x != 0 ==> LShr(LMult(x, x), 1) > 0
  {
    var s := (x as int) * x;
    assert x != 0 ==> s >= 1 by {
      if x > 0 { MulPos(x, x); } else if x < 0 { MulPos(x, -(x as int)); }
    }
    assert LMult(x, x) == Sat32(2 * s);
    assert Pow2(1) == 2;
  }

  // One non-zero sample is enough for a positive energy.
  lemma EnergyPositive(c: Subframe, p: nat)
    requires p < 40 && c[p] != 0
    ensures FixedCodebookEnergy(c) > 0
  {
    EnergyGrows(c, 40, p);
  }

  // ---------- the receiver's gain decoder ----------

  class Decoder {
    const pastErrors: array<Word16>
    var initialized: bool

    ghost predicate Valid()
      reads this
    {
      pastErrors.Length == 4
    }

    // The error memory as the next subframe sees it.
    ghost function View(): Errors
      requires Valid()
      reads this, pastErrors
    {
      if initialized then pastErrors[..]
      else [PAST_ERRORS_DEFAULT, PAST_ERRORS_DEFAULT, PAST_ERRORS_DEFAULT, PAST_ERRORS_DEFAULT]
    }

    constructor ()
      ensures Valid() && fresh(pastErrors) && !initialized
    {
      pastErrors := new Word16[4](_ => 0);
      initialized := false;
    }

    method Initialize()
      requires Valid()
      modifies this, pastErrors
      ensures Valid() && initialized && View() == old(View())
    {
      if !initialized {
        for i := 0 to 4
          invariant forall j | 0 <= j < i :: pastErrors[j] == PAST_ERRORS_DEFAULT
        {
          pastErrors[i] := PAST_ERRORS_DEFAULT;
        }
        initialized := true;
      }
    }

    method Push(u: Word16)
      requires Valid() && initialized
      modifies pastErrors
      ensures View() == Shifted(old(View()), u)
    {
      pastErrors[3] := pastErrors[2];
      pastErrors[2] := pastErrors[1];
      pastErrors[1] := pastErrors[0];
      pastErrors[0] := u;
    }

    method Decode(gaBits: nat, gbBits: nat, c: Subframe) returns (g: GainTriple)
      requires Valid() && gaBits < 8 && gbBits < 16
      modifies this, pastErrors
      ensures Valid() && initialized
      ensures g == DecodedGains(old(View()), gaBits, gbBits, c)
      ensures View() == DecodedErrors(old(View()), gaBits, gbBits, c)
    {
      Initialize();
      var ecEnergy := FixedCodebookEnergyLoop(c);
      var (ga, gb) := UnpackGains(gaBits, gbBits);
      if ecEnergy <= 0 {
        g := GainTriple(PitchGainQ14(ga, gb), 0, 0);
        Push(PAST_ERRORS_DEFAULT);
        return;
      }
      var logGainDbQ10 := LogGainDbQ10FromEnergyQ24(pastErrors[..], ecEnergy);
      var log2GcQ15 := LogGainToLog2Q15(logGainDbQ10);
      var gammaC := GammaQ13(ga, gb);
      var gainQ14 := QuantizeFixedGainQ1(FixedGainQ14FromLog2Gamma(log2GcQ15, gammaC));
      var mant, exp := SplitGainQ14Loop(gainQ14);
      g := GainTriple(PitchGainQ14(ga, gb), mant, exp);
      Push(QuantizedPredictionErrorQ10(gammaC));
    }

    method MarkErasure()
      requires Valid()
      modifies this, pastErrors
      ensures Valid() && initialized && View() == ErasedErrors(old(View()))
    {
      Initialize();
      var avg := ((pastErrors[0] as int) + pastErrors[1] + pastErrors[2] + pastErrors[3]) / 4;
      var u := avg - 4096;
      Push(if u < PAST_ERRORS_DEFAULT then PAST_ERRORS_DEFAULT else Int16(u));
    }
  }

  // The encoder's error memory.
  method UpdatePastQuaEn(pastQuaEn: array<Word16>, gammaCQ13: Word32)
    requires pastQuaEn.Length == 4
    modifies pastQuaEn
    ensures pastQuaEn[..] == UpdatedPastQuaEn(old(pastQuaEn[..]), gammaCQ13)
  {
    var u := if gammaCQ13 > 0 then QuantizedPredictionErrorQ10(gammaCQ13) else PAST_ERRORS_DEFAULT;
    pastQuaEn[3] := pastQuaEn[2];
    pastQuaEn[2] := pastQuaEn[1];
    pastQuaEn[1] := pastQuaEn[0];
    pastQuaEn[0] := u;
  }
}
