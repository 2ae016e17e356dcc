/** The receiver, fed the packed frames, stays in step with the encoder that committed them. */
module LockStep {
  import opened Fixed
  import opened Bits
  import opened Codec
  import A = AdaptiveCodebook
  import F = FixedCodebook
  import G = Gain
  import L = LspQuantizer
  import P = PitchCodes
  import S = Synthesis

  // ---------- the two relations ----------

  // Both predictor memories agree.
  predicate Linked(e: EncoderState, d: DecoderState) {
    e.freqPrev == d.lsp.past && e.lspDec == d.lsp && e.pastQuaEn == d.errors
  }

  // So does everything the next excitation depends on.
  predicate InStep(e: EncoderState, d: DecoderState) {
    && Linked(e, d)
    && e.oldExc[1..] == d.pastExc
    && F.ClampPitchGainForEnhancement(e.prevGpQ14) == BetaQ14(d)
  }

  lemma ColdStart()
    ensures InStep(ColdEncoder(), ColdDecoder()) && LegalReceiver(ColdDecoder())
  {
    assert ColdEncoder().oldExc[1..] == ColdDecoder().pastExc;
  }

  // ---------- the wire ----------

  // The receiver reads back the indices, both delays and both code words, whatever its state.
  lemma FrameCrossesWire(fc: FrameChoice, d: DecoderState)
    requires LegalFrame(fc)
    ensures var f := Delivered(fc);
            && f == FrameOf(fc)
            && FrameIndices(f) == fc.lsp
            && FirstDelay(d, f) == (fc.first.lag, fc.first.frac)
            && SecondDelay(d, f) == (fc.second.lag, fc.second.frac)
            && FrameCode(f, 0) == CodeOf(fc.first) && FrameCode(f, 1) == CodeOf(fc.second)
  {
    hide PackBytes, UnpackBytes, P.Parity, P.HighOnes, P.EncodeP1, P.DecodeDelaySubframe1, P.DecodeDelaySubframe2,
      P.EncodeP2, CodeOf,
      F.OnTracks, A.Decodable, P.Subframe2Window;
    FrameWidths(fc);
    UnpackPack(FrameOf(fc));
    P.ParityIsOdd(P.EncodeP1(fc.first.lag, fc.first.frac));
    P.P1RoundTrip(fc.first.lag, fc.first.frac);
    P.P2RoundTrip(fc.second.lag, fc.second.frac, fc.first.lag);
  }

  lemma FrameWidths(fc: FrameChoice)
    requires LegalFrame(fc)
    ensures InWidth(FrameOf(fc))
  {
    hide P.Parity, P.EncodeP1, P.EncodeP2, CodeOf, F.OnTracks, A.Decodable, P.Subframe2Window;
    P.P2RoundTrip(fc.second.lag, fc.second.frac, fc.first.lag);
  }

  // ---------- one subframe ----------

  // Whatever the enhancement gain on either side, a legal pulse set has energy.
  lemma CodeHasEnergy(ch: Choice, beta: Word16)
    requires LegalChoice(ch)
    ensures G.FixedCodebookEnergy(F.DecodeVector(CodeOf(ch).c, CodeOf(ch).s, ch.lag, beta)) > 0
  {
    hide F.Enhanced, F.Placed, G.FixedCodebookEnergy, F.OnTracks;
    F.PositionsRoundTrip(ch.positions);
    var plus := F.SignsAt(ch.positions, ch.signs);
    F.SignsRoundTrip(plus);
    F.LowestPulseSurvives(ch.positions, plus, ch.lag, beta);
    G.EnergyPositive(F.DecodeVector(CodeOf(ch).c, CodeOf(ch).s, ch.lag, beta), F.LowestPulse(ch.positions));
  }

  // The receiver's branch for a codebook vector without energy is never taken, and the gain error
  // memories move alike even where the two sides hold different excitations.
  lemma ErrorsFollow(e: EncoderState, d: DecoderState, ch: Choice, a: S.LpcQ12)
    requires LegalChoice(ch)
    ensures var d' := Receive(d, a, ch.lag, ch.frac, CodeOf(ch));
            && d'.errors[0] == Commit(e, ch).pastQuaEn[0]
            && (forall i | 1 <= i < 4 ::
                  d'.errors[i] == d.errors[i - 1] && Commit(e, ch).pastQuaEn[i] == e.pastQuaEn[i - 1])
            && d'.lsp == d.lsp && Commit(e, ch).freqPrev == e.freqPrev && Commit(e, ch).lspDec == e.lspDec
  {
    hide CommitTrace, Advance, S.Excitation, A.Codebook, G.QuantizedPredictionErrorQ10, G.GammaQ13, F.DecodeVector,
      G.FixedCodebookEnergy, F.OnTracks;
    CodeHasEnergy(ch, BetaQ14(d));
    var c := F.DecodeVector(CodeOf(ch).c, CodeOf(ch).s, ch.lag, BetaQ14(d));
    G.ErrorsAgree(d.errors, c, ch.ga, ch.gb);
    AdvanceKeeps(d, a, ch, c);
  }

  lemma AdvanceKeeps(d: DecoderState, a: S.LpcQ12, ch: Choice, c: Subframe)
    requires LegalChoice(ch) && c == F.DecodeVector(CodeOf(ch).c, CodeOf(ch).s, ch.lag, BetaQ14(d))
    ensures var k := CodeOf(ch);
            var d' := Receive(d, a, ch.lag, ch.frac, k);
            d'.errors == G.DecodedErrors(d.errors, k.ga, k.gb, c) && d'.lsp == d.lsp
  {
    hide S.Excitation, A.Codebook, G.QuantizedPredictionErrorQ10, F.DecodeVector, G.DecodedErrors, G.DecodedGains,
      G.FixedCodebookEnergy, F.OnTracks, CodeOf, A.Decodable, Synthesised, NextHistory, G.DecoderGainQ14FromMantExp;
  }

  // The two traces of a subframe that starts in step: everything agrees except that taming lowers
  // the encoder's pitch gain, which the frame does not say.
  lemma TracesAgree(e: EncoderState, d: DecoderState, ch: Choice)
    requires InStep(e, d) && LegalChoice(ch)
    ensures var te, td := CommitTrace(e, ch), ReceiveTrace(d, ch.lag, ch.frac, CodeOf(ch));
            && te.c == td.c && te.lag == td.lag && te.frac == td.frac
            && te.gcMantQ14 == td.gcMantQ14 && te.gcExp == td.gcExp
            && td.gpQ14 == G.PitchGainQ14(ch.ga, ch.gb)
            && (te.gpQ14 == td.gpQ14 <==> !Tamed(td.gpQ14, e.oldExc))
            && (te.gpQ14 == td.gpQ14 ==> te == td)
  {
    hide S.Excitation, A.Codebook, F.BuildCodeVector, F.DecodeVector, G.ReconstructWide, G.DecodedGains, Energy,
      F.ClampPitchGainForEnhancement, F.OnTracks, A.Decodable;
    A.CodebookIgnoresOldHistory(ch.lag, ch.frac, e.oldExc, d.pastExc) by {
      assert e.oldExc[1..] == d.pastExc && d.pastExc[0..] == d.pastExc;
    }
    F.SameVector(ch.positions, ch.signs, ch.lag, e.prevGpQ14);
    var c := F.BuildCodeVector(ch.positions, ch.signs, ch.lag, e.prevGpQ14);
    G.GainsAgree(e.pastQuaEn, c, ch.ga, ch.gb);
    WideGain(e.pastQuaEn, c, ch.ga, ch.gb);
  }

  lemma WideGain(past: G.Errors, c: Subframe, ga: nat, gb: nat)
    requires ga < 8 && gb < 16
    ensures G.ReconstructWide(past, c, ga, gb).gpQ14 == G.PitchGainQ14(ga, gb)
  {
    hide G.FixedCodebookEnergy, G.DequantGc, G.LogGainToLog2Q15, G.LogGainDbQ10FromEnergyQ24, G.PitchGainQ14,
      G.GammaQ13;
  }

  // The samples a right shift leaves alone.
  predicate ShiftProof(x: seq<Word16>) {
    forall i | 0 <= i < |x| :: x[i] == 0 || x[i] == -1
  }

  lemma ScaledSame(x: seq<Word16>)
    ensures Scaled(x, 2) == x <==> ShiftProof(x)
  {
    assert Pow2(2) == 4;
    forall i | 0 <= i < |x|
      ensures Scaled(x, 2)[i] == x[i] <==> x[i] == 0 || x[i] == -1
    {
      assert Scaled(x, 2)[i] == x[i] / 4;
    }
    if ShiftProof(x) {
      assert Scaled(x, 2) == x;
    }
  }

  // When the two histories agree after a subframe, whatever each side put in it.
  lemma HistoriesAgree(oldExc: OldExc, past: PastExc, ue: Subframe, ud: Subframe, shift: nat)
    requires oldExc[1..] == past && (shift == 0 || shift == 2)
    ensures (oldExc[40..] + ue)[1..] == NextHistory(past, ud, shift)
            <==> if shift == 0 then ue == ud else ShiftProof(past[40..]) && ue == Scaled(ud, 2)
  {
    assert (oldExc[40..] + ue)[1..] == past[40..] + ue;
    ScaledSame(past[40..]);
    assert Scaled(past, 2)[40..] == Scaled(past[40..], 2);
    hide ShiftProof;
    if shift == 0 {
      HalvesAgree(past[40..], ue, past[40..], ud);
    } else {
      HalvesAgree(past[40..], ue, Scaled(past, 2)[40..], Scaled(ud, 2));
    }
  }

  lemma HalvesAgree(x: seq<Word16>, y: seq<Word16>, x': seq<Word16>, y': seq<Word16>)
    requires |x| == |x'|
    ensures x + y == x' + y' <==> x == x' && y == y'
  {
    assert (x + y)[..|x|] == x && (x + y)[|x|..] == y;
    assert (x' + y')[..|x|] == x' && (x' + y')[|x|..] == y';
  }

  // Recovery leaves in the history exactly the excitation its second pass filtered.
  lemma RecoveryKeepsFiltered(past: PastExc, u: Subframe)
    ensures NextHistory(past, u, 2)[113..] == S.Quartered(u)
  {
    assert Pow2(2) == 4;
    assert Scaled(u, 2) == S.Quartered(u);
  }

  lemma HistoryAgrees(oldExc: OldExc, past: PastExc, u: Subframe, shift: nat)
    requires oldExc[1..] == past && (shift == 0 || shift == 2)
    ensures var next: OldExc := oldExc[40..] + u;
            next[1..] == NextHistory(past, u, shift) <==> shift == 0 || ShiftProof(next[1..])
  {
    HistoriesAgree(oldExc, past, u, u, shift);
    ScaledSame(u);
    assert (oldExc[40..] + u)[1..] == past[40..] + u;
    ShiftProofParts(past[40..], u);
  }

  lemma ShiftProofParts(x: seq<Word16>, y: seq<Word16>)
    ensures ShiftProof(x + y) <==> ShiftProof(x) && ShiftProof(y)
  {
    if ShiftProof(x + y) {
      forall i | 0 <= i < |y|
        ensures y[i] == 0 || y[i] == -1
      {
        assert y[i] == (x + y)[|x| + i];
      }
      forall i | 0 <= i < |x|
        ensures x[i] == 0 || x[i] == -1
      {
        assert x[i] == (x + y)[i];
      }
    }
  }

  // Both sides agree on the subframe's trace, and are in step after it.
  ghost predicate Follows(e: EncoderState, d: DecoderState, ch: Choice, a: S.LpcQ12)
    requires LegalChoice(ch)
  {
    && CommitTrace(e, ch) == ReceiveTrace(d, ch.lag, ch.frac, CodeOf(ch))
    && InStep(Commit(e, ch), Receive(d, a, ch.lag, ch.frac, CodeOf(ch)))
  }

  // No taming, and overflow recovery in the receiver's synthesis filter either does not fire or has
  // nothing to change.
  predicate Undisturbed(e: EncoderState, d: DecoderState, ch: Choice, a: S.LpcQ12)
    requires LegalChoice(ch)
  {
    && !Tamed(G.PitchGainQ14(ch.ga, ch.gb), e.oldExc)
    && (Synthesised(d, a, ReceiveTrace(d, ch.lag, ch.frac, CodeOf(ch)).u).shift == 0
        || ShiftProof(Commit(e, ch).oldExc[1..]))
  }

  // After any subframe, tamed or not, both sides are in step exactly when they put the same samples at
  // the end of their histories and recovery leaves the rest alone.
  lemma SubframeInStep(e: EncoderState, d: DecoderState, ch: Choice, a: S.LpcQ12)
    requires InStep(e, d) && LegalChoice(ch)
    ensures var te, td := CommitTrace(e, ch), ReceiveTrace(d, ch.lag, ch.frac, CodeOf(ch));
            InStep(Commit(e, ch), Receive(d, a, ch.lag, ch.frac, CodeOf(ch)))
            <==> if Synthesised(d, a, td.u).shift == 0 then te.u == td.u
                 else ShiftProof(d.pastExc[40..]) && te.u == Scaled(td.u, 2)
  {
    hide CommitTrace, ReceiveTrace, S.Filter, NextHistory, ShiftProof, F.ClampPitchGainForEnhancement, G.DecodedErrors,
      F.OnTracks, A.Decodable, CodeOf, G.UpdatedPastQuaEn, G.DecoderGainQ14FromMantExp, Energy, G.PitchGainQ14,
      G.GammaQ13;
    SameEnhancement(e, d, ch);
    ErrorsFollow(e, d, ch, a);
    var te, td := CommitTrace(e, ch), ReceiveTrace(d, ch.lag, ch.frac, CodeOf(ch));
    S.FilterMeaning(a, td.u, d.pastSynth);
    HistoriesAgree(e.oldExc, d.pastExc, te.u, td.u, Synthesised(d, a, td.u).shift);
  }

  // Taming never shows in the enhancement gain: both gains are beyond its clamp.
  lemma SameEnhancement(e: EncoderState, d: DecoderState, ch: Choice)
    requires InStep(e, d) && LegalChoice(ch)
    ensures F.ClampPitchGainForEnhancement(CommitTrace(e, ch).gpQ14)
            == F.ClampPitchGainForEnhancement(ReceiveTrace(d, ch.lag, ch.frac, CodeOf(ch)).gpQ14)
  {
    hide S.Excitation, A.Codebook, F.BuildCodeVector, G.ReconstructWide, ReceiveTrace, Energy, InStep,
      G.PitchGainQ14, CodeOf;
    TracesAgree(e, d, ch);
    WideGain(e.pastQuaEn, F.BuildCodeVector(ch.positions, ch.signs, ch.lag, e.prevGpQ14), ch.ga, ch.gb);
  }

  lemma SubframeLockStep(e: EncoderState, d: DecoderState, ch: Choice, a: S.LpcQ12)
    requires InStep(e, d) && LegalChoice(ch)
    ensures Follows(e, d, ch, a) <==> Undisturbed(e, d, ch, a)
  {
    hide CommitTrace, ReceiveTrace, S.Filter, NextHistory, ShiftProof, InStep, Receive,
      F.OnTracks, A.Decodable, CodeOf, G.UpdatedPastQuaEn, Energy, G.PitchGainQ14, G.GammaQ13, Tamed;
    TracesAgree(e, d, ch);
    SubframeInStep(e, d, ch, a);
    var td := ReceiveTrace(d, ch.lag, ch.frac, CodeOf(ch));
    S.FilterMeaning(a, td.u, d.pastSynth);
    assert e.oldExc[1..] == d.pastExc by { PastsAgree(e, d); }
    HistoriesAgree(e.oldExc, d.pastExc, td.u, td.u, Synthesised(d, a, td.u).shift);
    HistoryAgrees(e.oldExc, d.pastExc, td.u, Synthesised(d, a, td.u).shift);
  }

  lemma PastsAgree(e: EncoderState, d: DecoderState)
    requires InStep(e, d)
    ensures e.oldExc[1..] == d.pastExc
  {
  }

  // ---------- one frame ----------

  predicate UndisturbedFrame(b: L.Codebooks, e: EncoderState, d: DecoderState, fc: FrameChoice)
    requires L.Shaped(b) && LegalFrame(fc)
  {
    var f := Delivered(fc);
    var e1 := CommitLsp(b, e, fc.lsp);
    && Undisturbed(e1, ReceiveLsp(b, d, f), fc.first, Lpc(b, d, f, 0))
    && Undisturbed(Commit(e1, fc.first), ReceiveFirst(b, d, f), fc.second, Lpc(b, d, f, 1))
  }

  // The traces of the two subframes on either side of one packed frame.
  ghost predicate SameTraces(b: L.Codebooks, e: EncoderState, d: DecoderState, fc: FrameChoice)
    requires L.Shaped(b) && LegalFrame(fc)
  {
    var f := Delivered(fc);
    var e1 := CommitLsp(b, e, fc.lsp);
    var (lag1, frac1) := FirstDelay(d, f);
    var (lag2, frac2) := SecondDelay(d, f);
    && CommitTrace(e1, fc.first) == ReceiveTrace(ReceiveLsp(b, d, f), lag1, frac1, FrameCode(f, 0))
    && CommitTrace(Commit(e1, fc.first), fc.second) == ReceiveTrace(ReceiveFirst(b, d, f), lag2, frac2, FrameCode(f, 1))
  }

  // The same traces in both subframes, in step after each.
  ghost predicate FollowsFrame(b: L.Codebooks, e: EncoderState, d: DecoderState, fc: FrameChoice)
    requires L.Shaped(b) && LegalFrame(fc)
  {
    var f := Delivered(fc);
    && SameTraces(b, e, d, fc)
    && InStep(Commit(CommitLsp(b, e, fc.lsp), fc.first), ReceiveFirst(b, d, f))
    && InStep(CommitFrame(b, e, fc), ReceiveFrame(b, d, f))
  }

  lemma LspFollows(b: L.Codebooks, e: EncoderState, d: DecoderState, fc: FrameChoice)
    requires L.Shaped(b) && LegalFrame(fc) && InStep(e, d)
    ensures InStep(CommitLsp(b, e, fc.lsp), ReceiveLsp(b, d, Delivered(fc)))
  {
    hide L.QuantisedLsf, L.Residual, F.OnTracks, A.Decodable, CodeOf, LegalFrame, Delivered,
      F.ClampPitchGainForEnhancement;
    FrameCrossesWire(fc, d);
  }

  // A receiver in step follows the frame exactly when nothing disturbs it.
  lemma FrameLockStep(b: L.Codebooks, e: EncoderState, d: DecoderState, fc: FrameChoice)
    requires L.Shaped(b) && LegalFrame(fc) && InStep(e, d)
    ensures FollowsFrame(b, e, d, fc) <==> UndisturbedFrame(b, e, d, fc)
  {
    hide Commit, Receive, CommitLsp, ReceiveLsp, CommitTrace, ReceiveTrace, Delivered, LegalFrame, Lpc, InStep,
      Undisturbed, CodeOf, FirstDelay, SecondDelay, FrameCode, LegalChoice, InWidth;
    FrameParts(fc);
    FrameCrossesWire(fc, d);
    LspFollows(b, e, d, fc);
    var f := Delivered(fc);
    var e1, d1 := CommitLsp(b, e, fc.lsp), ReceiveLsp(b, d, f);
    SubframeLockStep(e1, d1, fc.first, Lpc(b, d, f, 0));
    var e2, d2 := Commit(e1, fc.first), ReceiveFirst(b, d, f);
    if InStep(e2, d2) {
      SubframeLockStep(e2, d2, fc.second, Lpc(b, d, f, 1));
    }
  }

  lemma FrameParts(fc: FrameChoice)
    requires LegalFrame(fc)
    ensures L.LegalIndices(fc.lsp) && LegalChoice(fc.first) && LegalChoice(fc.second)
  {
  }

  // ---------- whole runs ----------

  predicate LegalRun(fcs: seq<FrameChoice>) {
    forall i | 0 <= i < |fcs| :: LegalFrame(fcs[i])
  }

  function RunEncoder(b: L.Codebooks, e: EncoderState, fcs: seq<FrameChoice>): EncoderState
    requires L.Shaped(b) && LegalRun(fcs)
  {
    if |fcs| == 0 then e else CommitFrame(b, RunEncoder(b, e, fcs[..|fcs| - 1]), fcs[|fcs| - 1])
  }

  function RunReceiver(b: L.Codebooks, d: DecoderState, fcs: seq<FrameChoice>): DecoderState
    requires L.Shaped(b) && LegalRun(fcs)
  {
    if |fcs| == 0 then d else ReceiveFrame(b, RunReceiver(b, d, fcs[..|fcs| - 1]), Delivered(fcs[|fcs| - 1]))
  }

  predicate UndisturbedRun(b: L.Codebooks, e: EncoderState, d: DecoderState, fcs: seq<FrameChoice>)
    requires L.Shaped(b) && LegalRun(fcs)
  {
    if |fcs| == 0 then true
    else
      var init := fcs[..|fcs| - 1];
      && UndisturbedRun(b, e, d, init)
      && UndisturbedFrame(b, RunEncoder(b, e, init), RunReceiver(b, d, init), fcs[|fcs| - 1])
  }

  // The receiver follows every frame of the run.
  ghost predicate FollowsRun(b: L.Codebooks, e: EncoderState, d: DecoderState, fcs: seq<FrameChoice>)
    requires L.Shaped(b) && LegalRun(fcs)
  {
    if |fcs| == 0 then true
    else
      var init := fcs[..|fcs| - 1];
      && FollowsRun(b, e, d, init)
      && FollowsFrame(b, RunEncoder(b, e, init), RunReceiver(b, d, init), fcs[|fcs| - 1])
  }

  // Every subframe of the run left the same trace on both sides.
  ghost predicate SameRun(b: L.Codebooks, e: EncoderState, d: DecoderState, fcs: seq<FrameChoice>)
    requires L.Shaped(b) && LegalRun(fcs)
  {
    if |fcs| == 0 then true
    else
      var init := fcs[..|fcs| - 1];
      SameRun(b, e, d, init) && SameTraces(b, RunEncoder(b, e, init), RunReceiver(b, d, init), fcs[|fcs| - 1])
  }

  // For every sequence of legal choices, the receiver of the packed frames has the encoder's delay, code
  // vector, gains, excitation and history in every subframe exactly when nothing disturbs one.
  lemma {:induction false} RunLockStep(b: L.Codebooks, e: EncoderState, d: DecoderState, fcs: seq<FrameChoice>)
    requires L.Shaped(b) && LegalRun(fcs) && InStep(e, d)
    ensures FollowsRun(b, e, d, fcs) <==> UndisturbedRun(b, e, d, fcs)
    ensures FollowsRun(b, e, d, fcs) ==> SameRun(b, e, d, fcs) && InStep(RunEncoder(b, e, fcs), RunReceiver(b, d, fcs))
    decreases |fcs|
  {
    hide InStep, UndisturbedFrame, SameTraces, LegalFrame, CommitFrame, ReceiveFrame, Delivered, Commit, CommitLsp,
      ReceiveFirst;
    if |fcs| > 0 {
      var init := fcs[..|fcs| - 1];
      RunLockStep(b, e, d, init);
      if FollowsRun(b, e, d, init) {
        FrameLockStep(b, RunEncoder(b, e, init), RunReceiver(b, d, init), fcs[|fcs| - 1]);
      }
    }
  }

  // ---------- the predictors, unconditionally ----------

  // How much of the two gain error memories agrees, most recent first.
  predicate ErrorsFrom(e: EncoderState, d: DecoderState, n: nat) {
    forall i | 0 <= i < 4 && i < n :: d.errors[i] == e.pastQuaEn[i]
  }

  // How many of the most recent LSP residuals agree on both sides and in the encoder's own decoder.
  predicate ResidualsFrom(e: EncoderState, d: DecoderState, n: nat) {
    forall i | 0 <= i < 4 && i < n :: d.lsp.past[i] == e.freqPrev[i] && e.lspDec.past[i] == e.freqPrev[i]
  }

  lemma SubframeErrors(e: EncoderState, d: DecoderState, ch: Choice, a: S.LpcQ12, n: nat)
    requires LegalChoice(ch) && ErrorsFrom(e, d, n)
    ensures ErrorsFrom(Commit(e, ch), Receive(d, a, ch.lag, ch.frac, CodeOf(ch)), n + 1)
  {
    hide Commit, Receive, LegalChoice, CodeOf;
    ErrorsFollow(e, d, ch, a);
  }

  lemma SubframeKeepsLsp(e: EncoderState, d: DecoderState, ch: Choice, a: S.LpcQ12)
    requires LegalChoice(ch)
    ensures Receive(d, a, ch.lag, ch.frac, CodeOf(ch)).lsp == d.lsp
    ensures Commit(e, ch).freqPrev == e.freqPrev && Commit(e, ch).lspDec == e.lspDec
  {
    hide Commit, Receive, LegalChoice, CodeOf;
    ErrorsFollow(e, d, ch, a);
  }

  // The predictor memories after one frame, from any two states, even out of step.
  lemma FrameErrors(b: L.Codebooks, e: EncoderState, d: DecoderState, fc: FrameChoice, n: nat)
    requires L.Shaped(b) && LegalFrame(fc) && ErrorsFrom(e, d, n)
    ensures ErrorsFrom(CommitFrame(b, e, fc), ReceiveFrame(b, d, Delivered(fc)), n + 2)
  {
    hide Commit, Receive, LegalFrame, Delivered, FirstDelay, SecondDelay, FrameCode, Lpc, LegalChoice, ErrorsFrom,
      CodeOf,
      L.DecodeState, L.Residual, FrameIndices;
    FrameParts(fc);
    FrameCrossesWire(fc, d);
    var f := Delivered(fc);
    var e1, d1 := CommitLsp(b, e, fc.lsp), ReceiveLsp(b, d, f);
    assert ErrorsFrom(e1, d1, n) by { ErrorsSame(e, d, e1, d1, n); }
    SubframeErrors(e1, d1, fc.first, Lpc(b, d, f, 0), n);
    SubframeErrors(Commit(e1, fc.first), ReceiveFirst(b, d, f), fc.second, Lpc(b, d, f, 1), n + 1);
  }

  lemma ErrorsSame(e: EncoderState, d: DecoderState, e1: EncoderState, d1: DecoderState, n: nat)
    requires ErrorsFrom(e, d, n) && e1.pastQuaEn == e.pastQuaEn && d1.errors == d.errors
    ensures ErrorsFrom(e1, d1, n)
  {
  }

  lemma FrameLsp(b: L.Codebooks, e: EncoderState, d: DecoderState, fc: FrameChoice)
    requires L.Shaped(b) && LegalFrame(fc)
    ensures ReceiveFrame(b, d, Delivered(fc)).lsp == L.DecodeState(b, d.lsp, fc.lsp)
    ensures CommitFrame(b, e, fc).lspDec == L.DecodeState(b, e.lspDec, fc.lsp)
    ensures CommitFrame(b, e, fc).freqPrev == L.Advanced(e.freqPrev, L.Residual(b, fc.lsp))
  {
    hide Commit, Receive, LegalFrame, Delivered, FirstDelay, SecondDelay, FrameCode, Lpc, LegalChoice, CodeOf,
      L.DecodeState, L.Residual, FrameIndices;
    FrameParts(fc);
    FrameCrossesWire(fc, d);
    var f := Delivered(fc);
    var e1, d1 := CommitLsp(b, e, fc.lsp), ReceiveLsp(b, d, f);
    SubframeKeepsLsp(e1, d1, fc.first, Lpc(b, d, f, 0));
    SubframeKeepsLsp(Commit(e1, fc.first), ReceiveFirst(b, d, f), fc.second, Lpc(b, d, f, 1));
  }

  // From linked states, whatever taming, overflow recovery and the excitations do.
  lemma FrameLinked(b: L.Codebooks, e: EncoderState, d: DecoderState, fc: FrameChoice)
    requires L.Shaped(b) && LegalFrame(fc) && Linked(e, d)
    ensures Linked(CommitFrame(b, e, fc), ReceiveFrame(b, d, Delivered(fc)))
  {
    hide CommitFrame, ReceiveFrame, LegalFrame, Delivered, L.Residual, L.QuantisedLsf;
    FrameErrors(b, e, d, fc, 4);
    FrameLsp(b, e, d, fc);
  }

  lemma {:induction false} RunLinked(b: L.Codebooks, e: EncoderState, d: DecoderState, fcs: seq<FrameChoice>)
    requires L.Shaped(b) && LegalRun(fcs) && Linked(e, d)
    ensures Linked(RunEncoder(b, e, fcs), RunReceiver(b, d, fcs))
    decreases |fcs|
  {
    hide Linked, LegalFrame, CommitFrame, ReceiveFrame, Delivered;
    if |fcs| > 0 {
      var init := fcs[..|fcs| - 1];
      RunLinked(b, e, d, init);
      FrameLinked(b, RunEncoder(b, e, init), RunReceiver(b, d, init), fcs[|fcs| - 1]);
    }
  }

  lemma {:induction false} RunErrors(b: L.Codebooks, e: EncoderState, d: DecoderState, fcs: seq<FrameChoice>)
    requires L.Shaped(b) && LegalRun(fcs)
    ensures ErrorsFrom(RunEncoder(b, e, fcs), RunReceiver(b, d, fcs), 2 * |fcs|)
    decreases |fcs|
  {
    hide LegalFrame, CommitFrame, ReceiveFrame, Delivered;
    if |fcs| > 0 {
      var init := fcs[..|fcs| - 1];
      RunErrors(b, e, d, init);
      FrameErrors(b, RunEncoder(b, e, init), RunReceiver(b, d, init), fcs[|fcs| - 1], 2 * |init|);
    }
  }

  lemma {:induction false} RunResiduals(b: L.Codebooks, e: EncoderState, d: DecoderState, fcs: seq<FrameChoice>)
    requires L.Shaped(b) && LegalRun(fcs)
    ensures ResidualsFrom(RunEncoder(b, e, fcs), RunReceiver(b, d, fcs), |fcs|)
    decreases |fcs|
  {
    hide LegalFrame, CommitFrame, ReceiveFrame, Delivered, L.Residual, L.QuantisedLsf;
    if |fcs| > 0 {
      var init := fcs[..|fcs| - 1];
      RunResiduals(b, e, d, init);
      FrameLsp(b, RunEncoder(b, e, init), RunReceiver(b, d, init), fcs[|fcs| - 1]);
    }
  }

  // After any loss the predictors come back by themselves: two good frames restore the gain errors,
  // four the LSP residuals, and five everything the next frame's spectrum depends on. The states the
  // run starts from need have nothing in common.
  lemma Resynchronise(b: L.Codebooks, e: EncoderState, d: DecoderState, fcs: seq<FrameChoice>)
    requires L.Shaped(b) && LegalRun(fcs)
    ensures |fcs| >= 2 ==> RunReceiver(b, d, fcs).errors == RunEncoder(b, e, fcs).pastQuaEn
    ensures |fcs| >= 4 ==> RunReceiver(b, d, fcs).lsp.past == RunEncoder(b, e, fcs).freqPrev
    ensures |fcs| >= 5 ==> Linked(RunEncoder(b, e, fcs), RunReceiver(b, d, fcs))
  {
    hide LegalFrame, CommitFrame, ReceiveFrame, Delivered, L.Residual, L.QuantisedLsf;
    RunErrors(b, e, d, fcs);
    RunResiduals(b, e, d, fcs);
    if |fcs| >= 5 {
      var init := fcs[..|fcs| - 1];
      RunResiduals(b, e, d, init);
      var e4, d4 := RunEncoder(b, e, init), RunReceiver(b, d, init);
      FrameLsp(b, e4, d4, fcs[|fcs| - 1]);
      assert e4.lspDec.past == e4.freqPrev && d4.lsp.past == e4.freqPrev;
    }
  }
}
