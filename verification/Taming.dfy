/** A run of legal choices that makes the encoder tame its pitch gain (internal/gainquant/tame.go), which the
    bit stream does not say: ten equal subframes of four positive pulses at the largest correction factor,
    each fed back by the adaptive codebook two subframes later, make the past excitation loud enough whatever
    the spectra are. */
module Taming {
  import opened AdaptiveBands
  import opened Fixed
  import opened Codec
  import opened LockStep
  import A = AdaptiveCodebook
  import F = FixedCodebook
  import G = Gain
  import L = LspQuantizer
  import P = PitchCodes
  import S = Synthesis

  const GAMMA: int := 41438
  const ERROR: Word16 := 14416

  // The choice every subframe of the run makes: pulses at 10, 17, 24 and 31, gain pair (7, 11).
  function LoudChoice(): (ch: Choice)
    ensures LegalChoice(ch)
  {
    Choice(LAG, 0, [10, 31, 17, 24], seq(40, _ => 1), 7, 11)
  }

  // ---------- the code vector and its gain ----------

  function LoudCode(): Subframe {
    seq(40, n => if Pulse(n) then 8191 else 0)
  }

  lemma CodeIs(prevGpQ14: Word16)
    ensures F.BuildCodeVector(LoudChoice().positions, LoudChoice().signs, LAG, prevGpQ14) == LoudCode()
  {
    var p, plus := LoudChoice().positions, F.SignsAt(LoudChoice().positions, LoudChoice().signs);
    assert plus == [true, true, true, true];
    var c1, c2, c3, c4 := F.Placed(p, plus, 1), F.Placed(p, plus, 2), F.Placed(p, plus, 3), F.Placed(p, plus, 4);
    assert c1 == ZeroSubframe()[10 := 8191] && c2 == c1[31 := 8191] && c3 == c2[17 := 8191] && c4 == c3[24 := 8191];
    assert c4 == LoudCode();
  }

  lemma {:induction false} QuietStretch(c: Subframe, m: nat, n: nat)
    requires m <= n <= 40 && forall i | m <= i < n :: c[i] == 0
    ensures G.EnergyTo(c, n) == G.EnergyTo(c, m)
  {
    hide LShr, LMult;
    if m < n {
      QuietStretch(c, m, n - 1);
      NoTerm();
    }
  }

  lemma NoTerm()
    ensures LShr(LMult(0, 0), 1) == 0
  {
    assert Pow2(1) == 2;
  }

  lemma OnePulse(c: Subframe, n: nat)
    requires n < 40 && c[n] == 8191 && 0 <= G.EnergyTo(c, n) <= 3 * 67092481
    ensures G.EnergyTo(c, n + 1) as int == G.EnergyTo(c, n) as int + 67092481
  {
    assert Pow2(1) == 2;
    assert LMult(8191, 8191) == 134184962;
    assert LShr(134184962, 1) == 67092481;
  }

  lemma FourPulses(c: Subframe)
    requires forall n | 0 <= n < 40 :: c[n] == if Pulse(n) then 8191 else 0
    ensures G.FixedCodebookEnergy(c) == 268369924
  {
    TwoPulses(c);
    hide G.EnergyTo;
    QuietStretch(c, 18, 24);
    OnePulse(c, 24);
    QuietStretch(c, 25, 31);
    OnePulse(c, 31);
    QuietStretch(c, 32, 40);
  }

  lemma TwoPulses(c: Subframe)
    requires forall n | 0 <= n < 40 :: c[n] == if Pulse(n) then 8191 else 0
    ensures G.EnergyTo(c, 18) == 134184962
  {
    assert G.EnergyTo(c, 0) == 0;
    hide G.EnergyTo;
    QuietStretch(c, 0, 10);
    OnePulse(c, 10);
    QuietStretch(c, 11, 17);
    OnePulse(c, 17);
  }

  lemma LoudEnergy()
    ensures G.FixedCodebookEnergy(LoudCode()) == 268369924
  {
    hide G.FixedCodebookEnergy;
    FourPulses(LoudCode());
  }

  // The error memory after k subframes from the cold start.
  function ErrorsAfter(k: nat): G.Errors {
    var cold := G.PAST_ERRORS_DEFAULT;
    if k == 0 then [cold, cold, cold, cold]
    else if k == 1 then [ERROR, cold, cold, cold]
    else if k == 2 then [ERROR, ERROR, cold, cold]
    else if k == 3 then [ERROR, ERROR, ERROR, cold]
    else [ERROR, ERROR, ERROR, ERROR]
  }

  // Mantissa and exponent of the fixed gain of subframe k.
  function GainAfter(k: nat): (Word16, int) {
    if k == 0 then (28672, 4)
    else if k == 1 then (32448, 7)
    else if k == 2 then (26448, 10)
    else if k == 3 then (19824, 12)
    else (18315, 13)
  }

  // Predicted gain before the correction factor, in log2 (Q15).
  function PredictedLog2(k: nat): Word32 {
    if k == 0 then 81266 else if k == 1 then 185117 else if k == 2 then 273692 else if k == 3 then 325596 else 354618
  }

  // The part of the prediction that depends on the code vector alone.
  lemma CodeLevel()
    ensures LShl(268369924, 1) == 536739848 && G.Log2FixedQ15(536739848) == 950259
    ensures G.LOG_EC_BAR_BIAS_Q14 + G.Log2DbProductQ14(28, 32755, -G.DB_PER_LOG2_Q13) == 655370
  {
    assert Pow2(1) == 2 && Pow2(2) == 4;
    assert G.Doublings(2146959392) == 0 && G.Doublings(1073479696) == 1 && G.Doublings(536739848) == 2;
    assert G.NormL(536739848) == 2;
    assert LShl(536739848, 2) == 2146959392;
  }

  lemma PredictedEnergy(k: nat)
    ensures G.PredictedEnergyQ24(ErrorsAfter(k))
            == if k == 0 then -420417536 else if k == 1 then -100062752 else if k == 2 then 173138752
               else if k == 3 then 333287392 else 422763616
  {
  }

  // The two divisions from predicted energy to predicted gain.
  lemma LevelOf(e: G.Errors, energy: int, level: Word32, log2: Word32)
    requires G.PredictedEnergyQ24(e) == energy
    requires 0x4000 * (level as int) <= 655370 * 0x400 + energy < 0x4000 * (level as int + 1)
    requires 256 * (log2 as int) <= (level as int) / 4 * 5439 < 256 * (log2 as int + 1)
    ensures G.LogGainToLog2Q15(G.LogGainDbQ10FromEnergyQ24(e, 268369924)) == log2
  {
    CodeLevel();
    Log2Of(level, log2);
    hide G.Log2FixedQ15, G.Log2DbProductQ14, LShl, G.PredictedEnergyQ24, G.LogGainToLog2Q15;
    assert G.LogGainDbQ10FromEnergyQ24(e, 268369924) == level;
  }

  lemma Log2Of(level: Word32, log2: Word32)
    requires 256 * (log2 as int) <= (level as int) / 4 * 5439 < 256 * (log2 as int + 1)
    ensures G.LogGainToLog2Q15(level) == log2
  {
    assert Pow2(2) == 4;
    hide Pow2;
    assert LShr(level, 2) as int == (level as int) / 4;
    hide LShr;
  }

  lemma PredictedAt(k: nat)
    ensures G.LogGainToLog2Q15(G.LogGainDbQ10FromEnergyQ24(ErrorsAfter(k), 268369924)) == PredictedLog2(k)
  {
    PredictedEnergy(k);
    hide ErrorsAfter, G.LogGainToLog2Q15, G.LogGainDbQ10FromEnergyQ24, G.PredictedEnergyQ24;
    if k == 0 {
      LevelOf(ErrorsAfter(k), -420417536, 15300, 81266);
    } else if k == 1 {
      LevelOf(ErrorsAfter(k), -100062752, 34853, 185117);
    } else if k == 2 {
      LevelOf(ErrorsAfter(k), 173138752, 51528, 273692);
    } else if k == 3 {
      LevelOf(ErrorsAfter(k), 333287392, 61302, 325596);
    } else {
      LevelOf(ErrorsAfter(k), 422763616, 66764, 354618);
    }
  }

  lemma GainAt(k: nat)
    ensures G.DequantGc(PredictedLog2(k), true, GAMMA) == GainAfter(k)
  {
    var q: nat := if k == 0 then 56 else if k == 1 then 507 else if k == 2 then 3306 else if k == 3 then 9912
                  else 18315;
    UnquantisedGain(k, q);
    SplitAt(k, q);
    hide G.FixedGainQ14FromLog2Gamma, G.SplitGainQ14;
  }

  lemma Fractions()
    ensures G.Pow2FracQ14FromQ15(15730) == 22853 && G.Pow2FracQ14FromQ15(21277) == 25698
    ensures G.Pow2FracQ14FromQ15(11548) == 20918 && G.Pow2FracQ14FromQ15(30684) == 31355
    ensures G.Pow2FracQ14FromQ15(26938) == 28967
  {
    Pow2Entries();
    hide G.POW2_TABLE;
  }

  lemma Pow2Entries()
    ensures G.POW2_TABLE[11] == 20792 && G.POW2_TABLE[12] == 21247
    ensures G.POW2_TABLE[15] == 22674 && G.POW2_TABLE[16] == 23170
    ensures G.POW2_TABLE[20] == 25268 && G.POW2_TABLE[21] == 25821
    ensures G.POW2_TABLE[26] == 28774 && G.POW2_TABLE[27] == 29405
    ensures G.POW2_TABLE[29] == 30706 && G.POW2_TABLE[30] == 31379
  {
  }

  lemma UnquantisedOf(log2: Word32, n: nat, frac: nat, gc0: Word16, pow: nat)
    requires log2 as int == n * 0x8000 + frac && frac < 0x8000 && n < 62
    requires G.Pow2FracQ14FromQ15(frac) == gc0 && pow == Pow2(n)
    ensures G.FixedGainQ14FromLog2Gamma(log2, GAMMA) == Int64(((20719 * gc0) / 0x1000) * pow)
  {
    hide Pow2, G.Pow2FracQ14FromQ15;
  }

  lemma UnquantisedGain(k: nat, q: nat)
    requires q == if k == 0 then 56 else if k == 1 then 507 else if k == 2 then 3306 else if k == 3 then 9912 else 18315
    ensures G.FixedGainQ14FromLog2Gamma(PredictedLog2(k), GAMMA) / 8192 == q
  {
    Pow2Values();
    Fractions();
    hide Pow2, G.Pow2FracQ14FromQ15, G.FixedGainQ14FromLog2Gamma;
    if k == 0 {
      UnquantisedOf(81266, 2, 15730, 22853, 4);
    } else if k == 1 {
      UnquantisedOf(185117, 5, 21277, 25698, 32);
    } else if k == 2 {
      UnquantisedOf(273692, 8, 11548, 20918, 256);
    } else if k == 3 {
      UnquantisedOf(325596, 9, 30684, 31355, 512);
    } else {
      UnquantisedOf(354618, 10, 26938, 28967, 1024);
    }
  }

  lemma SplitAt(k: nat, q: nat)
    requires q == if k == 0 then 56 else if k == 1 then 507 else if k == 2 then 3306 else if k == 3 then 9912 else 18315
    ensures G.SplitGainQ14(q * 8192) == GainAfter(k)
  {
    Splits();
    hide G.SplitGainQ14;
  }

  lemma Splits()
    ensures G.SplitGainQ14(458752) == (28672, 4) && G.SplitGainQ14(4153344) == (32448, 7)
    ensures G.SplitGainQ14(27082752) == (26448, 10) && G.SplitGainQ14(81199104) == (19824, 12)
    ensures G.SplitGainQ14(150036480) == (18315, 13)
  {
    assert G.SplitDown(458752, 0) == (28672, 4);
    assert G.SplitDown(4153344, 0) == (32448, 7);
    assert G.SplitDown(846336, 5) == (26448, 10);
    assert G.SplitDown(27082752, 0) == (26448, 10);
    assert G.SplitDown(1268736, 6) == (19824, 12);
    assert G.SplitDown(81199104, 0) == (19824, 12);
    assert G.SplitDown(586080, 8) == (18315, 13);
    assert G.SplitDown(150036480, 0) == (18315, 13);
    hide G.SplitDown;
  }

  lemma CorrectionNorm()
    ensures G.NormL(41438) == 15 && LShl(41438, 15) == 1357840384
  {
    assert G.Doublings(42432512) == 5;
    assert G.Doublings(1326016) == 10;
    assert G.Doublings(41438) == 15;
    Pow2Values();
    hide Pow2;
  }

  lemma CorrectionEntries()
    ensures G.LOG2_TABLE[8] == 10549 && G.LOG2_TABLE[9] == 11716
  {
  }

  // The correction factor of the run, 14416 / 1024 dB.
  lemma CorrectionLevel()
    ensures G.QuantizedPredictionErrorQ10(GAMMA) == ERROR
  {
    CorrectionNorm();
    CorrectionEntries();
    hide LShl, G.NormL, G.LOG2_TABLE;
    assert G.Log2FixedQ15(41438) == 502613;
    hide G.Log2FixedQ15;
  }

  lemma ErrorStep(k: nat)
    ensures G.UpdatedPastQuaEn(ErrorsAfter(k), GAMMA) == ErrorsAfter(k + 1)
  {
    CorrectionLevel();
    hide G.QuantizedPredictionErrorQ10;
  }

  lemma GainsOf(k: nat, c: Subframe)
    requires G.FixedCodebookEnergy(c) == 268369924
    ensures G.ReconstructWide(ErrorsAfter(k), c, 7, 11) == G.GainTriple(GP, GainAfter(k).0, GainAfter(k).1)
  {
    hide G.FixedCodebookEnergy, G.LogGainToLog2Q15, G.LogGainDbQ10FromEnergyQ24, G.DequantGc, ErrorsAfter,
      PredictedLog2, GainAfter;
    PredictedAt(k);
    GainAt(k);
    assert G.GammaQ13(7, 11) == GAMMA && G.PitchGainQ14(7, 11) == GP;
  }

  // ---------- one subframe ----------

  // Contribution of a pulse of the code vector of subframe k.
  function CodeTerm(k: nat): Word32 {
    if k == 0 then 917392 else if k == 1 then 8305674 else if k == 2 then 54158892 else if k == 3 then 162378384
    else 300036330
  }

  lemma SampleIs(k: nat, v: Word16, c: Word16)
    requires c == 8191 || c == 0
    ensures S.ExcitationSample(GP, GainAfter(k).0, GainAfter(k).1, v, c) as int
            == Sat16(Rounded(71356 * v + 2 * if c == 0 then 0 else CodeTerm(k)))
  {
    Terms(k);
    MixIs(v, if c == 0 then 0 else CodeTerm(k));
    hide LShl, LShr, LMult, LAdd, Round, Rounded;
  }

  lemma Terms(k: nat)
    ensures GainAfter(k).0 > 0 && 13 - GainAfter(k).1 >= 0
    ensures LShr(LMult(GainAfter(k).0, 8191), 13 - GainAfter(k).1) == CodeTerm(k)
    ensures LShr(LMult(GainAfter(k).0, 0), 13 - GainAfter(k).1) == 0
  {
    Pow2Values();
    hide Pow2;
    ProductBound(GainAfter(k).0, 8191);
  }

  // The excitation of subframe k from a history in its bands lies in the next band.
  lemma NextInBand(x: OldExc, b4: Band, b3: Band, b2: Band, b1: Band, k: nat)
    requires Holds(x, b4, b3, b2, b1) && Proper(b2) && Proper(b3)
    requires NextBand(b3, b2, b1, CodeTerm(k)).lo >= 0
    ensures InBand(S.Excitation(GP, GainAfter(k).0, GainAfter(k).1, A.Codebook(LAG, 0, x), LoudCode()),
                   NextBand(b3, b2, b1, CodeTerm(k)))
  {
    hide Holds, A.Codebook, NextBand, Rounded, S.ExcitationSample, CodeTerm, GainAfter, AccumulateAt, Round;
    var v := A.Codebook(LAG, 0, x);
    var u := S.Excitation(GP, GainAfter(k).0, GainAfter(k).1, v, LoudCode());
    forall n | 0 <= n < 40
      ensures var b := NextBand(b3, b2, b1, CodeTerm(k));
              if Pulse(n) then b.lo <= u[n] <= b.hi else -(b.rest as int) <= u[n] <= b.rest
    {
      SampleIs(k, v[n], LoudCode()[n]);
      TermPositive(k);
      VectorAt(x, n);
      if Pulse(n) {
        PulseSample(x, b4, b3, b2, b1, n, v[n], CodeTerm(k));
      } else {
        RestSample(x, b4, b3, b2, b1, n, v[n], CodeTerm(k));
      }
    }
  }

  lemma TermPositive(k: nat)
    ensures CodeTerm(k) >= 0
  {
  }

  // ---------- ten subframes ----------

  // The band of subframe k of the run; silence before it.
  function BandOf(k: int): Band {
    if k < 0 then Band(0, 0, 0)
    else if k == 0 then Band(28, 28, 0)
    else if k == 1 then Band(253, 253, 0)
    else if k == 2 then Band(1680, 1681, 3)
    else if k == 3 then Band(5203, 5208, 34)
    else if k == 4 then Band(10797, 10837, 237)
    else if k == 5 then Band(14219, 14386, 821)
    else if k == 6 then Band(19528, 20172, 2069)
    else if k == 7 then Band(22407, 24185, 3836)
    else if k == 8 then Band(26601, 30964, 7018)
    else Band(27999, 32767, 11252)
  }

  // One step of the bands, from the four roundings it makes.
  lemma BandIs(b3: Band, b2: Band, b1: Band, code: int, vLo: int, vHi: int, vRest: int, hi: int)
    requires var r, o, p := b2.rest, Outer(b3, b2, b1), Max(b2.hi, b3.hi);
             && RoundsTo(2 * (29443 * b2.lo - (24024 * r + 68 * o)), vLo)
             && RoundsTo(2 * (30059 * b2.hi + 24024 * r + 68 * o), vHi)
             && RoundsTo(2 * (3925 * p + 41489 * r + 12046 * o), vRest)
    requires RoundsTo(71356 * Min(MAX16, vHi) + 2 * code, hi)
    ensures NextBand(b3, b2, b1, code)
            == Band(Min(MAX16, Rounded(71356 * vLo + 2 * code)), Min(MAX16, hi), Abs(Rounded(71356 * vRest)))
  {
    var r, o, p := b2.rest, Outer(b3, b2, b1), Max(b2.hi, b3.hi);
    RoundsIs(2 * (29443 * b2.lo - (24024 * r + 68 * o)), vLo);
    RoundsIs(2 * (30059 * b2.hi + 24024 * r + 68 * o), vHi);
    RoundsIs(2 * (3925 * p + 41489 * r + 12046 * o), vRest);
    RoundsIs(71356 * Min(MAX16, vHi) + 2 * code, hi);
    hide Rounded, RoundsTo, Outer;
  }

  lemma BandChain(k: nat)
    requires k < 10
    ensures NextBand(BandOf(k - 3), BandOf(k - 2), BandOf(k - 1), CodeTerm(k)) == BandOf(k)
    ensures Proper(BandOf(k)) && Proper(BandOf(k - 2)) && Proper(BandOf(k - 3))
  {
    ProperBand(k);
    ProperBand(k - 2);
    ProperBand(k - 3);
    hide NextBand, Proper;
    if k == 0 {
      BandIs(Band(0, 0, 0), Band(0, 0, 0), Band(0, 0, 0), 917392, 0, 0, 0, 28);
    } else if k == 1 {
      BandIs(Band(0, 0, 0), Band(0, 0, 0), Band(28, 28, 0), 8305674, 0, 0, 0, 253);
    } else if k == 2 {
      BandIs(Band(0, 0, 0), Band(28, 28, 0), Band(253, 253, 0), 54158892, 25, 26, 3, 1681);
    } else if k == 3 {
      BandIs(Band(28, 28, 0), Band(253, 253, 0), Band(1680, 1681, 3), 162378384, 227, 232, 31, 5208);
    } else if k == 4 {
      BandIs(Band(253, 253, 0), Band(1680, 1681, 3), Band(5203, 5208, 34), 300036330, 1507, 1544, 218, 10837);
    } else if k == 5 {
      BandIs(Band(1680, 1681, 3), Band(5203, 5208, 34), Band(10797, 10837, 237), 300036330, 4650, 4803, 754, 14386);
    } else if k == 6 {
      BandIs(Band(5203, 5208, 34), Band(10797, 10837, 237), Band(14219, 14386, 821),
             300036330, 9526, 10117, 1900, 20172);
    } else if k == 7 {
      BandIs(Band(10797, 10837, 237), Band(14219, 14386, 821), Band(19528, 20172, 2069),
             300036330, 12170, 13803, 3523, 24185);
    } else if k == 8 {
      BandIs(Band(14219, 14386, 821), Band(19528, 20172, 2069), Band(22407, 24185, 3836),
             300036330, 16022, 20029, 6446, 30964);
    } else {
      BandIs(Band(19528, 20172, 2069), Band(22407, 24185, 3836), Band(26601, 30964, 7018),
             300036330, 17306, 25013, 10334, 36391);
    }
  }

  lemma ProperBand(k: int)
    ensures Proper(BandOf(k))
  {
  }

  // Where the encoder is before subframe k, whatever its spectra and its last pitch gain are.
  predicate Underway(e: EncoderState, k: nat) {
    e.pastQuaEn == ErrorsAfter(k) && Holds(e.oldExc, BandOf(k - 4), BandOf(k - 3), BandOf(k - 2), BandOf(k - 1))
  }

  lemma ColdUnderway()
    ensures Underway(ColdEncoder(), 0)
  {
  }

  lemma TraceInBand(e: EncoderState, k: nat)
    requires Underway(e, k) && k < 10 && !Tamed(GP, e.oldExc)
    ensures InBand(CommitTrace(e, LoudChoice()).u, BandOf(k))
  {
    hide Holds, BandOf, ErrorsAfter, GainAfter, LoudChoice, LoudCode, Tamed, A.Codebook, F.BuildCodeVector,
      G.ReconstructWide, S.Excitation, NextBand, CodeTerm, InBand;
    ChoiceIs();
    BandChain(k);
    CodeIs(e.prevGpQ14);
    LoudEnergy();
    GainsOf(k, LoudCode());
    var u := S.Excitation(GP, GainAfter(k).0, GainAfter(k).1, A.Codebook(LAG, 0, e.oldExc), LoudCode());
    assert CommitTrace(e, LoudChoice()).u == u;
    NextInBand(e.oldExc, BandOf(k - 4), BandOf(k - 3), BandOf(k - 2), BandOf(k - 1), k);
  }

  lemma NextUnderway(e: EncoderState, k: nat)
    requires Underway(e, k) && k < 10 && !Tamed(GP, e.oldExc)
    ensures Underway(Commit(e, LoudChoice()), k + 1)
  {
    hide Holds, BandOf, ErrorsAfter, LoudChoice, Tamed, CommitTrace, G.UpdatedPastQuaEn, InBand;
    ChoiceIs();
    ErrorStep(k);
    TraceInBand(e, k);
    Shifted(e.oldExc, CommitTrace(e, LoudChoice()).u,
            BandOf(k - 4), BandOf(k - 3), BandOf(k - 2), BandOf(k - 1), BandOf(k));
  }

  lemma ChoiceIs()
    ensures var ch := LoudChoice(); ch.lag == LAG && ch.frac == 0 && ch.ga == 7 && ch.gb == 11
    ensures G.GammaQ13(7, 11) == GAMMA && G.PitchGainQ14(7, 11) == GP
  {
  }

  // ---------- loud enough ----------

  lemma {:induction false} PrefixGrows(x: seq<Word16>, i: nat, j: nat)
    requires i <= j <= |x|
    ensures Energy(x[..i]) <= Energy(x[..j])
  {
    if i < j {
      PrefixGrows(x, i, j - 1);
      assert x[..j][..j - 1] == x[..j - 1];
      SquareNonNegative(x[j - 1]);
    }
  }

  lemma Pick(x: seq<Word16>, i: nat, lo: nat)
    requires i < |x| && lo <= x[i]
    ensures Energy(x[..i + 1]) >= Energy(x[..i]) + lo * lo
  {
    assert x[..i + 1][..i] == x[..i];
    MulMono(lo, x[i], lo);
    MulMono(lo, x[i], x[i]);
  }

  // The four pulses of a subframe.
  lemma FourPicks(x: seq<Word16>, s: nat, lo: nat)
    requires s + 22 <= |x| && lo <= x[s] && lo <= x[s + 7] && lo <= x[s + 14] && lo <= x[s + 21]
    ensures Energy(x[..s + 22]) >= Energy(x[..s]) + 4 * (lo * lo)
  {
    hide Energy;
    Pick(x, s, lo);
    PrefixGrows(x, s + 1, s + 7);
    Pick(x, s + 7, lo);
    PrefixGrows(x, s + 8, s + 14);
    Pick(x, s + 14, lo);
    PrefixGrows(x, s + 15, s + 21);
    Pick(x, s + 21, lo);
  }

  lemma LoudHistory(x: OldExc)
    requires Holds(x, BandOf(6), BandOf(7), BandOf(8), BandOf(9))
    ensures Energy(x) > TAME_ENERGY
  {
    var b6, b7, b8, b9 := BandOf(6).lo, BandOf(7).lo, BandOf(8).lo, BandOf(9).lo;
    assert 4 * (b6 * b6) + 4 * (b7 * b7) + 4 * (b8 * b8) + 4 * (b9 * b9) > TAME_ENERGY;
    LastPulses(x, BandOf(6), BandOf(7), BandOf(8), BandOf(9));
    hide Energy, Holds, BandOf;
    FourPicks(x, 4, b6);
    PrefixGrows(x, 26, 44);
    FourPicks(x, 44, b7);
    PrefixGrows(x, 66, 84);
    FourPicks(x, 84, b8);
    PrefixGrows(x, 106, 124);
    FourPicks(x, 124, b9);
    PrefixGrows(x, 146, 154);
    assert x[..154] == x;
  }

  lemma LastPulses(x: OldExc, b4: Band, b3: Band, b2: Band, b1: Band)
    requires Holds(x, b4, b3, b2, b1)
    ensures b4.lo <= x[4] && b4.lo <= x[11] && b4.lo <= x[18] && b4.lo <= x[25]
    ensures b3.lo <= x[44] && b3.lo <= x[51] && b3.lo <= x[58] && b3.lo <= x[65]
    ensures b2.lo <= x[84] && b2.lo <= x[91] && b2.lo <= x[98] && b2.lo <= x[105]
    ensures b1.lo <= x[124] && b1.lo <= x[131] && b1.lo <= x[138] && b1.lo <= x[145]
  {
    assert x[44] == x[34..74][10] && x[51] == x[34..74][17] && x[58] == x[34..74][24] && x[65] == x[34..74][31];
    assert x[84] == x[74..114][10] && x[91] == x[74..114][17] && x[98] == x[74..114][24] && x[105] == x[74..114][31];
    assert x[124] == x[114..154][10] && x[131] == x[114..154][17];
    assert x[138] == x[114..154][24] && x[145] == x[114..154][31];
  }

  // ---------- the run ----------

  // Six frames of the choice, with any spectra.
  predicate LoudRun(fcs: seq<FrameChoice>) {
    |fcs| == 6 && forall i | 0 <= i < 6 ::
      L.LegalIndices(fcs[i].lsp) && fcs[i].first == LoudChoice() && fcs[i].second == LoudChoice()
  }

  lemma LoudIsLegal(fcs: seq<FrameChoice>)
    requires LoudRun(fcs)
    ensures LegalRun(fcs)
  {
    EncodableChoice();
    hide LoudChoice;
  }

  lemma EncodableChoice()
    ensures P.EncodableP1(LoudChoice().lag, LoudChoice().frac)
    ensures P.EncodableP2(LoudChoice().lag, LoudChoice().frac, LoudChoice().lag)
  {
  }

  // One of the two subframes of the frame is tamed.
  predicate TamesIn(b: L.Codebooks, e: EncoderState, fc: FrameChoice)
    requires L.Shaped(b) && LegalFrame(fc)
  {
    var e1 := CommitLsp(b, e, fc.lsp);
    || Tamed(G.PitchGainQ14(fc.first.ga, fc.first.gb), e1.oldExc)
    || Tamed(G.PitchGainQ14(fc.second.ga, fc.second.gb), Commit(e1, fc.first).oldExc)
  }

  // What the receiver decodes as the pitch gain is the pair's, whatever its state is; what the encoder
  // commits is below it when it tames. So a tamed frame leaves different traces.
  lemma TamingShows(b: L.Codebooks, e: EncoderState, d: DecoderState, fc: FrameChoice)
    requires L.Shaped(b) && LegalFrame(fc) && TamesIn(b, e, fc)
    ensures !SameTraces(b, e, d, fc)
  {
    hide Commit, Receive, CommitLsp, ReceiveLsp, Delivered, LegalFrame, InWidth, FirstDelay, SecondDelay, FrameCode,
      CodeOf, Tamed, CommitTrace, ReceiveTrace, LegalChoice, LegalCode;
    FrameParts(fc);
    FrameCrossesWire(fc, d);
    var f := Delivered(fc);
    var e1 := CommitLsp(b, e, fc.lsp);
    GainCommitted(e1, fc.first);
    GainCommitted(Commit(e1, fc.first), fc.second);
    GainDecoded(ReceiveLsp(b, d, f), fc.first);
    GainDecoded(ReceiveFirst(b, d, f), fc.second);
  }

  lemma GainCommitted(e: EncoderState, ch: Choice)
    requires LegalChoice(ch)
    ensures CommitTrace(e, ch).gpQ14 == Tame(G.PitchGainQ14(ch.ga, ch.gb), e.oldExc)
    ensures Tamed(G.PitchGainQ14(ch.ga, ch.gb), e.oldExc) ==> CommitTrace(e, ch).gpQ14 < G.PitchGainQ14(ch.ga, ch.gb)
  {
    hide A.Codebook, S.Excitation, F.BuildCodeVector, G.ReconstructWide, Energy, G.PitchGainQ14;
    WideGain(e.pastQuaEn, F.BuildCodeVector(ch.positions, ch.signs, ch.lag, e.prevGpQ14), ch.ga, ch.gb);
  }

  lemma GainDecoded(d: DecoderState, ch: Choice)
    requires LegalChoice(ch)
    ensures ReceiveTrace(d, ch.lag, ch.frac, CodeOf(ch)).gpQ14 == G.PitchGainQ14(ch.ga, ch.gb)
  {
    hide A.Codebook, S.Excitation, F.DecodeVector, G.DecodedGains, F.PackC, F.PackedSigns, F.SignsAt, BetaQ14;
    var c := F.DecodeVector(CodeOf(ch).c, CodeOf(ch).s, ch.lag, BetaQ14(d));
    G.GainsAgree(d.errors, c, ch.ga, ch.gb);
    WideGain(d.errors, c, ch.ga, ch.gb);
    hide G.ReconstructWide, G.PackGains;
  }

  lemma FrameUnderway(b: L.Codebooks, e: EncoderState, fc: FrameChoice, k: nat)
    requires L.Shaped(b) && LegalFrame(fc) && fc.first == LoudChoice() && fc.second == LoudChoice()
    requires Underway(e, k) && k < 9 && !TamesIn(b, e, fc)
    ensures Underway(CommitFrame(b, e, fc), k + 2)
  {
    hide Commit, LoudChoice, Holds, Tamed, L.Residual, L.DecodeState, LegalFrame;
    FrameParts(fc);
    ChoiceIs();
    NextUnderway(CommitLsp(b, e, fc.lsp), k);
    NextUnderway(Commit(CommitLsp(b, e, fc.lsp), fc.first), k + 1);
  }

  // Frame i of a run from the cold start is tamed.
  predicate TamedAt(b: L.Codebooks, fcs: seq<FrameChoice>, i: nat)
    requires L.Shaped(b) && LegalRun(fcs) && i < |fcs|
  {
    TamesIn(b, RunEncoder(b, ColdEncoder(), fcs[..i]), fcs[i])
  }

  // As long as no frame is tamed the run stays in its bands.
  lemma {:induction false} RunUnderway(b: L.Codebooks, fcs: seq<FrameChoice>, n: nat)
    requires L.Shaped(b) && LoudRun(fcs) && LegalRun(fcs) && n <= 5 && forall i | 0 <= i < n :: !TamedAt(b, fcs, i)
    ensures Underway(RunEncoder(b, ColdEncoder(), fcs[..n]), 2 * n)
  {
    hide Underway, TamesIn, CommitFrame, LegalFrame, LoudChoice;
    if n == 0 {
      ColdUnderway();
    } else {
      RunUnderway(b, fcs, n - 1);
      assert fcs[..n][..n - 1] == fcs[..n - 1];
      assert !TamedAt(b, fcs, n - 1);
      FrameUnderway(b, RunEncoder(b, ColdEncoder(), fcs[..n - 1]), fcs[n - 1], 2 * (n - 1));
    }
  }

  lemma SixthTames(b: L.Codebooks, e: EncoderState, fc: FrameChoice)
    requires L.Shaped(b) && LegalFrame(fc) && fc.first == LoudChoice() && fc.second == LoudChoice() && Underway(e, 10)
    ensures TamesIn(b, e, fc)
  {
    hide Commit, LoudChoice, Holds, Energy, L.Residual, L.DecodeState, LegalFrame, BandOf;
    ChoiceIs();
    LoudHistory(e.oldExc);
  }

  lemma {:induction false} SameRunAt(b: L.Codebooks, e: EncoderState, d: DecoderState, fcs: seq<FrameChoice>, i: nat)
    requires L.Shaped(b) && LegalRun(fcs) && SameRun(b, e, d, fcs) && i < |fcs|
    ensures SameTraces(b, RunEncoder(b, e, fcs[..i]), RunReceiver(b, d, fcs[..i]), fcs[i])
    decreases |fcs|
  {
    hide SameTraces, RunEncoder, RunReceiver, LegalFrame;
    if i < |fcs| - 1 {
      var init := fcs[..|fcs| - 1];
      assert init[..i] == fcs[..i];
      SameRunAt(b, e, d, init, i);
    }
  }

  lemma SomeFrameTames(b: L.Codebooks, fcs: seq<FrameChoice>)
    requires L.Shaped(b) && LoudRun(fcs) && LegalRun(fcs)
    ensures exists i: nat :: i < 6 && TamedAt(b, fcs, i)
  {
    hide Underway, TamesIn, LegalFrame, LoudChoice, RunEncoder;
    if forall i | 0 <= i < 5 :: !TamedAt(b, fcs, i) {
      RunUnderway(b, fcs, 5);
      SixthTames(b, RunEncoder(b, ColdEncoder(), fcs[..5]), fcs[5]);
      assert TamedAt(b, fcs, 5);
    }
  }

  lemma TamedDiffers(b: L.Codebooks, d: DecoderState, fcs: seq<FrameChoice>, i: nat)
    requires L.Shaped(b) && LegalRun(fcs) && i < |fcs| && TamedAt(b, fcs, i)
    ensures !SameRun(b, ColdEncoder(), d, fcs)
  {
    hide TamesIn, LegalFrame, SameRun, SameTraces, RunEncoder, RunReceiver;
    TamingShows(b, RunEncoder(b, ColdEncoder(), fcs[..i]), RunReceiver(b, d, fcs[..i]), fcs[i]);
    if SameRun(b, ColdEncoder(), d, fcs) {
      SameRunAt(b, ColdEncoder(), d, fcs, i);
    }
  }

  // From the cold start, whatever the spectra are and whoever receives the frames, six such frames cannot be
  // played without one in which the encoder tames; there it commits a pitch gain of 15565 where the receiver
  // decodes 17839, and the traces of the run differ.
  lemma TamingDiverges(b: L.Codebooks, d: DecoderState, fcs: seq<FrameChoice>)
    requires L.Shaped(b) && LoudRun(fcs)
    ensures LegalRun(fcs)
    ensures exists i: nat :: i < 6 && TamedAt(b, fcs, i)
    ensures !SameRun(b, ColdEncoder(), d, fcs)
  {
    hide TamedAt, SameRun, LegalFrame;
    LoudIsLegal(fcs);
    SomeFrameTames(b, fcs);
    var i: nat :| i < 6 && TamedAt(b, fcs, i);
    TamedDiffers(b, d, fcs, i);
  }
}
