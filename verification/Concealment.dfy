/** Frame erasure concealment: the receiver's bad-frame path (internal/decoder/subframe.go:65-238,
    decode.go:50-58) and how a run of bad frames fades out. */
module Concealment {
  import opened Fixed
  import opened Bits
  import opened Codec
  import A = AdaptiveCodebook
  import F = FixedCodebook
  import G = Gain
  import L = LspQuantizer
  import P = PitchCodes
  import S = Synthesis

  const PITCH_ATTENUATION_Q15: int := 29491
  const FIXED_ATTENUATION_Q15: int := 32112
  const GAIN_STEP: int := 8192
  const GAIN_LIMIT: int := 32767 * 8192

  // ---------- one concealed subframe ----------

  function NextDelay(t: int): int {
    if t < 143 then t + 1 else 143
  }

  // The linear congruential generator behind the replacement pulses.
  function NextSeed(seed: U16): U16 {
    (seed * 31821 + 13849) % 0x1_0000
  }

  function ErasurePositions(seed: U16): nat {
    NextSeed(seed) % 0x2000
  }

  function ErasureSigns(seed: U16): nat {
    NextSeed(NextSeed(seed)) % 16
  }

  function ConcealedPitchGain(d: DecoderState): (gp: Word16)
    ensures gp >= 0
  {
    var prev := if d.havePrevGp then d.prevGpQ14 as int else 0;
    var g := (prev * PITCH_ATTENUATION_Q15) / 0x8000;
    if g < 0 then 0 else Sat16(g)
  }

  function ConcealedFixedGain(d: DecoderState): nat {
    G.QuantizeFixedGainQ1((d.prevFixedGainQ14 * FIXED_ATTENUATION_Q15) / 0x8000)
  }

  function EraseTrace(d: DecoderState, t: int): Trace {
    var v := A.Codebook(t, 0, d.pastExc);
    var c := F.DecodeVector(ErasurePositions(d.seed), ErasureSigns(d.seed), t, BetaQ14(d));
    var gp := ConcealedPitchGain(d);
    var (mant, exp) := G.SplitGainQ14(ConcealedFixedGain(d));
    Trace(t, 0, c, gp, mant, exp, S.Excitation(gp, mant, exp, v, c))
  }

  function Erase(d: DecoderState, a: S.LpcQ12, t: int): DecoderState {
    Advance(d.(errors := G.ErasedErrors(d.errors), prevFixedGainQ14 := ConcealedFixedGain(d),
               seed := NextSeed(NextSeed(d.seed))), a, EraseTrace(d, t))
  }

  // ---------- one bad frame ----------

  function EraseLsp(d: DecoderState): DecoderState
    requires L.LegalState(d.lsp)
  {
    d.(lsp := L.ErasureState(d.lsp))
  }

  function ErasureLpc(d: DecoderState, sub: nat): S.LpcQ12 {
    if sub == 0 then L.ErasureFilters(d.lsp).0 else L.ErasureFilters(d.lsp).1
  }

  function EraseFirst(d: DecoderState): DecoderState
    requires L.LegalState(d.lsp)
  {
    Erase(EraseLsp(d), ErasureLpc(d, 0), ConcealedDelay(d))
  }

  function EraseSecond(d: DecoderState): DecoderState
    requires L.LegalState(d.lsp)
  {
    Erase(EraseFirst(d), ErasureLpc(d, 1), NextDelay(ConcealedDelay(d)))
  }

  function EraseFrame(d: DecoderState): DecoderState
    requires L.LegalState(d.lsp)
  {
    EraseSecond(d).(prevDelay := NextDelay(NextDelay(ConcealedDelay(d))), haveDelay := true)
  }

  // ---------- what every reachable receiver satisfies ----------

  predicate Quantised(gainQ14: int) {
    0 <= gainQ14 <= GAIN_LIMIT && gainQ14 % GAIN_STEP == 0
  }

  predicate Sound(d: DecoderState) {
    LegalReceiver(d) && d.prevGpQ14 >= 0 && Quantised(d.prevFixedGainQ14)
  }

  lemma ColdSound()
    ensures Sound(ColdDecoder())
  {
    assert ColdDecoder().prevFixedGainQ14 == 0;
  }

  lemma AdvanceFields(d: DecoderState, a: S.LpcQ12, t: Trace)
    ensures var d' := Advance(d, a, t);
            && d'.prevGpQ14 == t.gpQ14 && d'.havePrevGp && d'.prevDelay == t.lag && d'.haveDelay
            && d'.prevFixedGainQ14 == d.prevFixedGainQ14 && d'.lsp == d.lsp && d'.seed == d.seed
              && d'.errors == d.errors
  {
    hide Synthesised, NextHistory;
  }

  // The fixed gain the receiver remembers is exactly the quantised one it used, in good subframes
  // and concealed ones: nothing is lost in the mantissa and exponent.
  lemma RememberedExactly(d: DecoderState, lag: int, frac: int, k: Code, a: S.LpcQ12)
    requires LegalCode(k)
    ensures var d' := Receive(d, a, lag, frac, k);
            var t := ReceiveTrace(d, lag, frac, k);
            && d'.prevFixedGainQ14 == G.DecoderGainQ14FromMantExp(t.gcMantQ14, t.gcExp)
            && Quantised(d'.prevFixedGainQ14) && 0 <= d'.prevGpQ14 <= 22215
            && d'.prevGpQ14 == t.gpQ14 && d'.havePrevGp && d'.lsp == d.lsp
  {
    hide Advance, S.Excitation, A.Codebook, F.DecodeVector, G.FixedCodebookEnergy, G.LogGainToLog2Q15,
      G.LogGainDbQ10FromEnergyQ24,
      G.FixedGainQ14FromLog2Gamma, G.QuantizedPredictionErrorQ10, G.SplitGainQ14, G.QuantizeFixedGainQ1,
      G.DecoderGainQ14FromMantExp, G.GammaQ13, BetaQ14;
    var t := ReceiveTrace(d, lag, frac, k);
    var (ga, gb) := G.UnpackGains(k.ga, k.gb);
    G.NoGain();
    var ec := G.FixedCodebookEnergy(t.c);
    if ec > 0 {
      G.SplitRoundTrip(G.FixedGainQ14FromLog2Gamma(G.LogGainToLog2Q15(G.LogGainDbQ10FromEnergyQ24(d.errors, ec)),
        G.GammaQ13(ga, gb)));
    }
    AdvanceFields(d.(errors := G.DecodedErrors(d.errors, k.ga, k.gb, t.c),
                     prevFixedGainQ14 := G.DecoderGainQ14FromMantExp(t.gcMantQ14, t.gcExp)), a, t);
  }

  lemma ConcealedExactly(d: DecoderState, t: int, a: S.LpcQ12)
    ensures var d' := Erase(d, a, t);
            var tr := EraseTrace(d, t);
            && d'.prevFixedGainQ14 == ConcealedFixedGain(d) == G.DecoderGainQ14FromMantExp(tr.gcMantQ14, tr.gcExp)
            && Quantised(d'.prevFixedGainQ14)
            && d'.prevGpQ14 == tr.gpQ14 == ConcealedPitchGain(d) && d'.havePrevGp
            && d'.lsp == d.lsp && d'.prevDelay == t && d'.haveDelay
  {
    hide Advance, S.Excitation, A.Codebook, F.DecodeVector, G.SplitGainQ14, G.QuantizeFixedGainQ1,
      G.DecoderGainQ14FromMantExp, BetaQ14;
    G.SplitRoundTrip((d.prevFixedGainQ14 * FIXED_ATTENUATION_Q15) / 0x8000);
    AdvanceFields(d.(errors := G.ErasedErrors(d.errors), prevFixedGainQ14 := ConcealedFixedGain(d),
                     seed := NextSeed(NextSeed(d.seed))), a, EraseTrace(d, t));
  }

  // Every delay the receiver hands to the adaptive codebook, parity errors and erasures included, is
  // one its 153 samples of history cover.
  lemma DelaysDecodable(d: DecoderState, f: Frame)
    requires LegalReceiver(d) && InWidth(f)
    ensures A.Decodable(FirstDelay(d, f).0, FirstDelay(d, f).1)
    ensures A.Decodable(SecondDelay(d, f).0, SecondDelay(d, f).1)
    ensures A.Decodable(ConcealedDelay(d), 0) && A.Decodable(NextDelay(ConcealedDelay(d)), 0)
  {
    hide P.Parity;
  }

  lemma ReceiveSound(b: L.Codebooks, d: DecoderState, f: Frame)
    requires L.Shaped(b) && Sound(d) && InWidth(f)
    ensures Sound(ReceiveFrame(b, d, f))
  {
    hide Receive, L.QuantisedLsf, L.Residual, Lpc, FirstDelay, SecondDelay, FrameCode;
    var (lag1, frac1) := FirstDelay(d, f);
    var (lag2, frac2) := SecondDelay(d, f);
    DelaysDecodable(d, f);
    RememberedExactly(ReceiveLsp(b, d, f), lag1, frac1, FrameCode(f, 0), Lpc(b, d, f, 0));
    var d1 := ReceiveFirst(b, d, f);
    RememberedExactly(d1, lag2, frac2, FrameCode(f, 1), Lpc(b, d, f, 1));
    ReceiveDelay(d1, lag2, frac2, FrameCode(f, 1), Lpc(b, d, f, 1));
  }

  lemma ReceiveDelay(d: DecoderState, lag: int, frac: int, k: Code, a: S.LpcQ12)
    requires LegalCode(k)
    ensures Receive(d, a, lag, frac, k).prevDelay == lag
  {
    hide ReceiveTrace, Advance, G.DecodedErrors, G.DecoderGainQ14FromMantExp;
    var t := ReceiveTrace(d, lag, frac, k);
    assert t.lag == lag by { TraceLag(d, lag, frac, k); }
    AdvanceFields(d.(errors := G.DecodedErrors(d.errors, k.ga, k.gb, t.c),
                     prevFixedGainQ14 := G.DecoderGainQ14FromMantExp(t.gcMantQ14, t.gcExp)), a, t);
  }

  lemma TraceLag(d: DecoderState, lag: int, frac: int, k: Code)
    requires LegalCode(k)
    ensures ReceiveTrace(d, lag, frac, k).lag == lag
  {
    hide A.Codebook, F.DecodeVector, G.DecodedGains, S.Excitation;
  }

  lemma EraseSound(d: DecoderState)
    requires Sound(d)
    ensures Sound(EraseFrame(d)) && EraseFrame(d).haveDelay && EraseFrame(d).havePrevGp
    ensures EraseFrame(d).prevDelay <= 143
  {
    hide Erase, L.InverseResidual, ErasureLpc, ConcealedFixedGain, ConcealedPitchGain;
    var t := ConcealedDelay(d);
    ConcealedExactly(EraseLsp(d), t, ErasureLpc(d, 0));
    ConcealedExactly(EraseFirst(d), NextDelay(t), ErasureLpc(d, 1));
  }

  // ---------- runs ----------

  type Packet = p: seq<Byte> | |p| == FRAME_BYTES witness [0, 0, 0, 0, 0, 0, 0, 0, 0, 0]

  // What the receiver is called with: ten bytes, or the mark of a frame that was lost.
  datatype Arrival = Good(packet: Packet) | Bad

  // The receiver after any sequence of calls.
  function Reached(b: L.Codebooks, xs: seq<Arrival>): (d: DecoderState)
    requires L.Shaped(b)
    ensures Sound(d)
    decreases |xs|
  {
    if |xs| == 0 then
      ColdSound();
      ColdDecoder()
    else
      var d := Reached(b, xs[..|xs| - 1]);
      match xs[|xs| - 1]
      case Good(packet) =>
        ReceiveSound(b, d, ReceivedFrame(packet));
        ReceiveFrame(b, d, ReceivedFrame(packet))
      case Bad =>
        EraseSound(d);
        EraseFrame(d)
  }

  function EraseRun(d: DecoderState, n: nat): (r: DecoderState)
    requires Sound(d)
    ensures Sound(r)
    decreases n
  {
    if n == 0 then d
    else
      EraseSound(EraseRun(d, n - 1));
      EraseFrame(EraseRun(d, n - 1))
  }

  function Losses(n: nat): seq<Arrival> {
    seq(n, _ => Bad)
  }

  lemma {:induction false} LossesErase(b: L.Codebooks, xs: seq<Arrival>, n: nat)
    requires L.Shaped(b)
    ensures Reached(b, xs + Losses(n)) == EraseRun(Reached(b, xs), n)
  {
    hide EraseFrame, ReceiveFrame, Sound;
    if n == 0 {
      assert xs + Losses(0) == xs;
    } else {
      var ys := xs + Losses(n);
      assert ys[..|ys| - 1] == xs + Losses(n - 1) && ys[|ys| - 1] == Bad;
      LossesErase(b, xs, n - 1);
    }
  }

  lemma {:induction false} RunOn(d: DecoderState, m: nat, n: nat)
    requires Sound(d)
    ensures EraseRun(d, m + n) == EraseRun(EraseRun(d, m), n)
  {
    hide EraseFrame, Sound;
    if n > 0 {
      RunOn(d, m, n - 1);
    }
  }

  // The fixed gain counted in its quantisation steps.
  function Steps(d: DecoderState): int {
    d.prevFixedGainQ14 / GAIN_STEP
  }

  function Level(d: DecoderState): int {
    if d.havePrevGp then d.prevGpQ14 else 0
  }

  lemma PitchGainFalls(d: DecoderState)
    requires Sound(d)
    ensures ConcealedPitchGain(d) as int == (Level(d) * PITCH_ATTENUATION_Q15) / 0x8000
    ensures Level(d) > 0 ==> 0 <= ConcealedPitchGain(d) < Level(d)
    ensures Level(d) == 0 ==> ConcealedPitchGain(d) == 0
  {
  }

  // The gain before quantisation, in whole steps.
  lemma FixedGainFalls(d: DecoderState)
    requires Sound(d)
    ensures ConcealedFixedGain(d) / GAIN_STEP == (Steps(d) * FIXED_ATTENUATION_Q15) / 0x8000
    ensures Steps(d) > 0 ==> ConcealedFixedGain(d) < d.prevFixedGainQ14
    ensures Steps(d) == 0 ==> ConcealedFixedGain(d) == 0
  {
    var q := Steps(d);
    assert d.prevFixedGainQ14 == 8192 * q;
    var v := (d.prevFixedGainQ14 * FIXED_ATTENUATION_Q15) / 0x8000;
    assert v == (q * 32112) / 4;
    assert v / 8192 == (q * 32112) / 0x8000;
  }

  // In every concealed subframe each gain is multiplied by its factor and rounded down, so it falls
  // strictly until it is zero.
  lemma EraseFades(d: DecoderState, a: S.LpcQ12, t: int)
    requires Sound(d)
    ensures var d' := Erase(d, a, t);
            && Level(d') == (Level(d) * PITCH_ATTENUATION_Q15) / 0x8000
            && Steps(d') == (Steps(d) * FIXED_ATTENUATION_Q15) / 0x8000
            && (Level(d) > 0 ==> Level(d') < Level(d)) && (Steps(d) > 0 ==> Steps(d') < Steps(d))
            && 0 <= Level(d') <= Level(d) && 0 <= Steps(d') <= Steps(d)
  {
    hide Erase, ConcealedFixedGain, ConcealedPitchGain;
    ConcealedExactly(d, t, a);
    PitchGainFalls(d);
    FixedGainFalls(d);
  }

  // What a bad frame does to a gain: it stays within 0.82 (the pitch gain) and 0.961 (the fixed gain).
  lemma FrameFades(d: DecoderState)
    requires Sound(d)
    ensures var d' := EraseFrame(d);
            && 0 <= 100 * Level(d') <= 82 * Level(d)
            && 0 <= 1000 * Steps(d') <= 961 * Steps(d)
  {
    hide Erase, L.InverseResidual, ErasureLpc, ConcealedDelay, ConcealedFixedGain, ConcealedPitchGain;
    var t := ConcealedDelay(d);
    FirstSound(d);
    EraseFades(EraseLsp(d), ErasureLpc(d, 0), t);
    EraseFades(EraseFirst(d), ErasureLpc(d, 1), NextDelay(t));
    StartLevels(d);
  }

  lemma FirstSound(d: DecoderState)
    requires Sound(d)
    ensures Sound(EraseLsp(d)) && Sound(EraseFirst(d)) && Sound(EraseSecond(d))
  {
    hide Erase, L.InverseResidual, ErasureLpc, ConcealedFixedGain, ConcealedPitchGain;
    var t := ConcealedDelay(d);
    ConcealedExactly(EraseLsp(d), t, ErasureLpc(d, 0));
    ConcealedExactly(EraseFirst(d), NextDelay(t), ErasureLpc(d, 1));
  }

  // While a gain is above half of where it started, every bad frame takes at least a twelfth (a 52nd) of
  // that start away.
  lemma {:induction false} RunFades(d: DecoderState, n: nat)
    requires Sound(d)
    ensures var r := EraseRun(d, n);
            && 0 <= 12 * Level(r) <= Max(6, 12 - n) * Level(d)
            && 0 <= 52 * Steps(r) <= Max(26, 52 - n) * Steps(d)
  {
    hide EraseFrame, Sound;
    StartLevels(d);
    if n > 0 {
      RunFades(d, n - 1);
      FrameFades(EraseRun(d, n - 1));
      LevelFaded(n, Level(d), Level(EraseRun(d, n - 1)), Level(EraseRun(d, n)));
      StepsFaded(n, Steps(d), Steps(EraseRun(d, n - 1)), Steps(EraseRun(d, n)));
    }
  }

  lemma LevelFaded(n: nat, start: nat, was: int, now: int)
    requires n > 0 && 12 * was <= Max(6, 13 - n) * start && 0 <= 100 * now <= 82 * was
    ensures 12 * now <= Max(6, 12 - n) * start
  {
    if n <= 6 {
      MulMono(7, 13 - n, start);
      assert (13 - n) * start == (12 - n) * start + start;
    }
  }

  lemma StepsFaded(n: nat, start: nat, was: int, now: int)
    requires n > 0 && 52 * was <= Max(26, 53 - n) * start && 0 <= 1000 * now <= 961 * was
    ensures 52 * now <= Max(26, 52 - n) * start
  {
    if n <= 26 {
      MulMono(27, 53 - n, start);
      assert (53 - n) * start == (52 - n) * start + start;
    }
  }

  // So the pitch gain halves every six bad frames, the fixed gain every 26.
  lemma {:induction false} RunHalves(d: DecoderState, k: nat)
    requires Sound(d)
    ensures Level(EraseRun(d, 6 * k)) * Pow2(k) <= Level(d)
    ensures Steps(EraseRun(d, 26 * k)) * Pow2(k) <= Steps(d)
  {
    hide EraseRun, Sound, Level, Steps;
    if k == 0 {
      RunNone(d);
    } else {
      var p := Pow2(k - 1);
      RunHalves(d, k - 1);
      var l, s := EraseRun(d, 6 * (k - 1)), EraseRun(d, 26 * (k - 1));
      RunOn(d, 6 * (k - 1), 6);
      RunOn(d, 26 * (k - 1), 26);
      RunFades(l, 6);
      RunFades(s, 26);
      Pow2Step(k - 1);
      hide Pow2;
      TwiceBelow(Level(EraseRun(d, 6 * k)), Level(l), p);
      TwiceBelow(Steps(EraseRun(d, 26 * k)), Steps(s), p);
    }
  }

  lemma RunNone(d: DecoderState)
    requires Sound(d)
    ensures EraseRun(d, 0) == d && Pow2(0) == 1
  {
  }

  lemma TwiceBelow(x: int, y: int, p: nat)
    requires 2 * x <= y
    ensures x * (2 * p) <= y * p
  {
    MulMono(2 * x, y, p);
    assert x * (2 * p) == (2 * x) * p;
  }

  // Once zero, always zero.
  lemma StaysZero(d: DecoderState, m: nat, n: nat)
    requires Sound(d) && m <= n
    ensures Level(EraseRun(d, m)) == 0 ==> Level(EraseRun(d, n)) == 0
    ensures Steps(EraseRun(d, m)) == 0 ==> Steps(EraseRun(d, n)) == 0
  {
    hide EraseRun, Sound;
    RunOn(d, m, n - m);
    RunFades(EraseRun(d, m), n - m);
  }

  lemma StartLevels(d: DecoderState)
    requires Sound(d)
    ensures 0 <= Level(d) <= 0x7FFF && 0 <= Steps(d) <= 0x7FFF
  {
  }

  // ---------- silence ----------

  // The last n samples of the history are zero.
  predicate Silent(past: PastExc, n: nat) {
    forall i | 0 <= i < 153 && 153 - n <= i :: past[i] == 0
  }

  lemma ScaledZero(x: Word16, shift: nat)
    requires x == 0
    ensures ScaledSample(x, shift) == 0
  {
    ShrBound(x, shift);
  }

  lemma HistoryFills(past: PastExc, u: Subframe, shift: nat, n: nat)
    requires Silent(past, n) && forall i | 0 <= i < 40 :: u[i] == 0
    ensures Silent(NextHistory(past, u, shift), n + 40)
  {
    hide ScaledSample;
    ScaledZero(0, shift);
    var next := NextHistory(past, u, shift);
    forall i | 0 <= i < 153 && 153 - (n + 40) <= i
      ensures next[i] == 0
    {
      if i < 113 {
        assert past[40..][i] == past[i + 40];
      }
    }
  }

  // A concealed subframe with no gain left: silence, and 40 more zero samples of history.
  lemma EraseSilent(d: DecoderState, a: S.LpcQ12, t: int, n: nat)
    requires Sound(d) && Level(d) == 0 && Steps(d) == 0 && Silent(d.pastExc, n)
    ensures forall i | 0 <= i < 40 :: EraseTrace(d, t).u[i] == 0
    ensures Silent(Erase(d, a, t).pastExc, n + 40)
  {
    hide A.Codebook, F.DecodeVector, S.Filter, S.Excitation, NextHistory, Silent;
    PitchGainFalls(d);
    FixedGainFalls(d);
    hide ConcealedPitchGain, ConcealedFixedGain;
    var tr := EraseTrace(d, t);
    S.ZeroGainSilence(A.Codebook(t, 0, d.pastExc),
                      F.DecodeVector(ErasurePositions(d.seed), ErasureSigns(d.seed), t, BetaQ14(d)), 0);
    assert tr.u == S.Excitation(0, 0, 0, A.Codebook(t, 0, d.pastExc),
                                F.DecodeVector(ErasurePositions(d.seed), ErasureSigns(d.seed), t, BetaQ14(d)));
    HistoryFills(d.pastExc, tr.u, S.Filter(a, tr.u, d.pastSynth).shift, n);
  }

  lemma FrameSilent(d: DecoderState, n: nat)
    requires Sound(d) && Level(d) == 0 && Steps(d) == 0 && Silent(d.pastExc, n)
    ensures Silent(EraseFrame(d).pastExc, n + 80)
    ensures forall i | 0 <= i < 40 :: EraseTrace(EraseLsp(d), ConcealedDelay(d)).u[i] == 0
    ensures forall i | 0 <= i < 40 :: EraseTrace(EraseFirst(d), NextDelay(ConcealedDelay(d))).u[i] == 0
  {
    hide Erase, EraseTrace, L.InverseResidual, ErasureLpc, ConcealedDelay, Silent;
    FirstSound(d);
    var t := ConcealedDelay(d);
    EraseSilent(EraseLsp(d), ErasureLpc(d, 0), t, n);
    EraseFades(EraseLsp(d), ErasureLpc(d, 0), t);
    EraseSilent(EraseFirst(d), ErasureLpc(d, 1), NextDelay(t), n + 40);
  }

  // Two frames after the gains have reached zero the whole excitation history is zero.
  lemma SilenceFollows(d: DecoderState, n: nat)
    requires Sound(d) && n >= 2 && Level(EraseRun(d, n - 2)) == 0 && Steps(EraseRun(d, n - 2)) == 0
    ensures Silent(EraseRun(d, n).pastExc, 153)
  {
    hide EraseFrame;
    var d0 := EraseRun(d, n - 2);
    var d1 := EraseFrame(d0);
    assert EraseRun(d, n - 1) == d1 && EraseRun(d, n) == EraseFrame(d1);
    FrameSilent(d0, 0);
    FrameFades(d0);
    FrameSilent(d1, 80);
  }

  // Whatever was received and lost before, 390 bad frames in a row are enough for both gains, and two more
  // for the history.
  lemma ConcealmentFadesOut(b: L.Codebooks, before: seq<Arrival>, n: nat)
    requires L.Shaped(b) && n >= 390
    ensures var r := Reached(b, before + Losses(n));
            && Level(r) == 0 && Steps(r) == 0
            && (n >= 392 ==> Silent(r.pastExc, 153))
  {
    hide EraseRun, Reached, Losses, Level, Steps, Silent, Sound;
    var d := Reached(b, before);
    LossesErase(b, before, n);
    GoneAfter(d, n);
    if n >= 392 {
      GoneAfter(d, n - 2);
      SilenceFollows(d, n);
    }
  }

  lemma GoneAfter(d: DecoderState, n: nat)
    requires Sound(d) && n >= 390
    ensures Level(EraseRun(d, n)) == 0 && Steps(EraseRun(d, n)) == 0
  {
    hide EraseRun, Sound;
    Pow2Values();
    hide Pow2;
    StartLevels(d);
    RunHalves(d, 15);
    StartLevels(EraseRun(d, 90));
    StartLevels(EraseRun(d, 390));
    StaysZero(d, 90, n);
    StaysZero(d, 390, n);
  }
}
