/** The receiver as it runs in place (internal/decoder/subframe.go, decode.go), up to the synthesised
    speech: the postfilter and the output filter read it and feed nothing back. */
module Receiver {
  import opened Fixed
  import opened Bits
  import opened Codec
  import opened Concealment
  import A = AdaptiveCodebook
  import F = FixedCodebook
  import G = Gain
  import L = LspQuantizer
  import P = PitchCodes
  import S = Synthesis

  const FRAME_SAMPLES: nat := 80

  datatype DecodeError = NoError | ShortInput | ShortOutput

  // What one call does to the state, and the speech it writes.
  function DecodedState(b: L.Codebooks, d: DecoderState, bytes: seq<Byte>, bad: bool): DecoderState
    requires L.Shaped(b) && LegalReceiver(d) && |bytes| == FRAME_BYTES
  {
    if bad then EraseFrame(d) else ReceiveFrame(b, d, ReceivedFrame(bytes))
  }

  function GoodSpeech(b: L.Codebooks, d: DecoderState, f: Frame): (s: seq<Word16>)
    requires L.Shaped(b) && InWidth(f)
    ensures |s| == FRAME_SAMPLES
  {
    var (lag1, frac1) := FirstDelay(d, f);
    var (lag2, frac2) := SecondDelay(d, f);
    var d1, d2 := ReceiveLsp(b, d, f), ReceiveFirst(b, d, f);
    Speech(d1, Lpc(b, d, f, 0), ReceiveTrace(d1, lag1, frac1, FrameCode(f, 0)))
    + Speech(d2, Lpc(b, d, f, 1), ReceiveTrace(d2, lag2, frac2, FrameCode(f, 1)))
  }

  function BadSpeech(d: DecoderState): (s: seq<Word16>)
    requires LegalReceiver(d)
    ensures |s| == FRAME_SAMPLES
  {
    var t := ConcealedDelay(d);
    var d1, d2 := EraseLsp(d), EraseFirst(d);
    Speech(d1, ErasureLpc(d, 0), EraseTrace(d1, t)) + Speech(d2, ErasureLpc(d, 1), EraseTrace(d2, NextDelay(t)))
  }

  function Speech(d: DecoderState, a: S.LpcQ12, t: Trace): (s: seq<Word16>)
    ensures |s| == 40
  {
    S.FilterMeaning(a, t.u, d.pastSynth);
    Synthesised(d, a, t.u).s
  }

  class Decoder {
    const lsp: L.Decoder
    const gn: G.Decoder
    const syn: S.Synthesizer
    const pastExc: array<Word16>
    var prevGpQ14: Word16
    var havePrevGp: bool
    var prevFixedGainQ14: int
    var prevPitchDelay: int
    var havePrevPitchDelay: bool
    var randomSeed: U16
    var randomSeedInitialized: bool

    ghost predicate Valid()
      reads this, lsp, gn, syn
    {
      && lsp.Valid() && gn.Valid() && syn.Valid() && pastExc.Length == 153
      && pastExc != gn.pastErrors && pastExc != syn.pastSynth && gn.pastErrors != syn.pastSynth
    }

    ghost function View(): DecoderState
      requires Valid()
      reads this, lsp, lsp.pastResiduals, gn, gn.pastErrors, syn, syn.pastSynth, pastExc
    {
      DecoderState(lsp.View(), gn.View(), syn.pastSynth[..], pastExc[..], prevGpQ14, havePrevGp, prevFixedGainQ14,
                   prevPitchDelay, havePrevPitchDelay, if randomSeedInitialized then randomSeed else 21845)
    }

    constructor ()
      ensures Valid() && View() == ColdDecoder()
      ensures fresh(lsp) && fresh(lsp.pastResiduals) && fresh(gn) && fresh(gn.pastErrors)
      ensures fresh(syn) && fresh(syn.pastSynth) && fresh(syn.flag) && fresh(pastExc)
    {
      lsp := new L.Decoder();
      gn := new G.Decoder();
      syn := new S.Synthesizer();
      pastExc := new Word16[153](_ => 0);
      prevGpQ14, havePrevGp, prevFixedGainQ14 := 0, false, 0;
      prevPitchDelay, havePrevPitchDelay := 0, false;
      randomSeed, randomSeedInitialized := 0, false;
      new;
      assert syn.pastSynth[..] == [0, 0, 0, 0, 0, 0, 0, 0, 0, 0] && pastExc[..] == seq(153, _ => 0);
    }

    method PitchEnhancementBetaQ14() returns (beta: Word16)
      requires Valid()
      ensures beta == BetaQ14(View())
    {
      if !havePrevGp {
        return INITIAL_BETA_Q14;
      }
      return F.ClampPitchGainForEnhancement(prevGpQ14);
    }

    // Both codebook vectors of a subframe.
    method BuildVectors(lag: int, frac: int, positions: nat, signs: nat, v: array<Word16>, c: array<Word16>)
      requires Valid() && A.Decodable(lag, frac)
      requires v.Length == c.Length == 40 && v != c && v != pastExc && c != pastExc
      requires v != gn.pastErrors && c != gn.pastErrors && v != syn.pastSynth && c != syn.pastSynth
      modifies v, c
      ensures v[..] == A.Codebook(lag, frac, old(pastExc[..]))
      ensures c[..] == F.DecodeVector(positions, signs, lag, BetaQ14(old(View())))
      ensures View() == old(View())
    {
      hide A.Vector, A.Codebook, F.DecodeVector;
      var beta := PitchEnhancementBetaQ14();
      A.CodebookIgnoresContents(lag, frac, pastExc[..], v[..]);
      A.AdaptiveCodebook(lag, frac, pastExc, v);
      F.Decode(positions, signs, lag, beta, c);
    }

    // Synthesis, overflow recovery on the excitation history, and the remembered pitch state.
    method Synthesise(a: S.LpcQ12, ghost t: Trace, gpQ14: Word16, lag: int, u: Subframe) returns (s: Subframe)
      requires Valid() && t.gpQ14 == gpQ14 && t.lag == lag && t.u == u
      modifies `prevGpQ14, `havePrevGp, `prevPitchDelay, `havePrevPitchDelay, pastExc
      modifies syn`lastExcitationScaleShift, syn.pastSynth, syn.flag
      ensures Valid() && View() == Advance(old(View()), a, t)
      ensures s == Speech(old(View()), a, t)
    {
      hide S.Filter, NextHistory;
      ghost var d := View();
      s := syn.FilterSubframe(a, u);
      CommitHistory(u, syn.lastExcitationScaleShift);
      prevGpQ14, havePrevGp := gpQ14, true;
      prevPitchDelay, havePrevPitchDelay := lag, true;
    }

    method CommitHistory(u: Subframe, shift: nat)
      requires Valid()
      modifies pastExc
      ensures pastExc[..] == NextHistory(old(pastExc[..]), u, shift)
    {
      hide ScaledSample;
      ghost var past := pastExc[..];
      var commitU: seq<Word16> := u;
      if shift > 0 {
        for i := 0 to 153
          invariant forall j | 0 <= j < i :: pastExc[j] == ScaledSample(past[j], shift)
          invariant forall j | i <= j < 153 :: pastExc[j] == past[j]
        {
          pastExc[i] := ScaledSample(pastExc[i], shift);
        }
        commitU := Scaled(u, shift);
      }
      ghost var scaled: seq<Word16> := pastExc[..];
      assert scaled == if shift > 0 then Scaled(past, shift) else past;
      for i := 0 to 113
        invariant forall j | 0 <= j < i :: pastExc[j] == scaled[j + 40]
        invariant forall j | i <= j < 153 :: pastExc[j] == scaled[j]
      {
        pastExc[i] := pastExc[i + 40];
      }
      for i := 0 to 40
        invariant forall j | 0 <= j < 113 :: pastExc[j] == scaled[j + 40]
        invariant forall j | 0 <= j < i :: pastExc[113 + j] == commitU[j]
      {
        pastExc[113 + i] := commitU[i];
      }
      assert pastExc[..] == scaled[40..] + commitU;
    }

    method DecodeSubframe(a: S.LpcQ12, lag: int, frac: int, k: Code) returns (s: Subframe)
      requires Valid() && LegalCode(k) && A.Decodable(lag, frac)
      modifies `prevGpQ14, `havePrevGp, `prevPitchDelay, `havePrevPitchDelay, `prevFixedGainQ14, pastExc, gn,
        gn.pastErrors
      modifies syn`lastExcitationScaleShift, syn.pastSynth, syn.flag
      ensures Valid() && View() == Receive(old(View()), a, lag, frac, k)
      ensures s == Speech(old(View()), a, ReceiveTrace(old(View()), lag, frac, k))
    {
      hide A.Codebook, F.DecodeVector, G.DecodedGains, G.DecodedErrors, S.Excitation, Advance, BetaQ14, A.Decodable,
        G.DecoderGainQ14FromMantExp, S.Filter;
      ghost var d := View();
      var v, c, u := new Word16[40](_ => 0), new Word16[40](_ => 0), new Word16[40](_ => 0);
      BuildVectors(lag, frac, k.c, k.s, v, c);
      var g := gn.Decode(k.ga, k.gb, c[..]);
      prevFixedGainQ14 := G.DecoderGainQ14FromMantExp(g.gcMantQ14, g.gcExp);
      S.BuildExcitation(g.gpQ14, g.gcMantQ14, g.gcExp, v, c, u);
      ghost var t := ReceiveTrace(d, lag, frac, k);
      s := Synthesise(a, t, g.gpQ14, lag, u[..]);
    }

    method ErasureRandom() returns (r: U16)
      requires Valid()
      modifies `randomSeed, `randomSeedInitialized
      ensures Valid() && r == NextSeed(old(View()).seed) && View() == old(View()).(seed := r)
    {
      if !randomSeedInitialized {
        randomSeed := 21845;
        randomSeedInitialized := true;
      }
      randomSeed := NextSeed(randomSeed);
      return randomSeed;
    }

    method ConcealErasureGains() returns (gp: Word16, mant: Word16, exp: int)
      requires Valid()
      modifies `prevFixedGainQ14, `prevGpQ14, `havePrevGp, gn, gn.pastErrors
      ensures Valid() && gp == ConcealedPitchGain(old(View()))
      ensures (mant, exp) == G.SplitGainQ14(ConcealedFixedGain(old(View())))
      ensures View() == old(View()).(prevGpQ14 := gp, havePrevGp := true,
                                     prevFixedGainQ14 := ConcealedFixedGain(old(View())),
                                     errors := G.ErasedErrors(old(View()).errors))
    {
      hide G.SplitGainQ14, G.ErasedErrors, G.QuantizeFixedGainQ1;
      var prev := if havePrevGp then prevGpQ14 as int else 0;
      var g := (prev * PITCH_ATTENUATION_Q15) / 0x8000;
      gp := if g < 0 then 0 else Sat16(g);
      var fixedGainQ14 := G.QuantizeFixedGainQ1((prevFixedGainQ14 * FIXED_ATTENUATION_Q15) / 0x8000);
      mant, exp := G.SplitGainQ14Loop(fixedGainQ14);
      gn.MarkErasure();
      prevGpQ14, havePrevGp, prevFixedGainQ14 := gp, true, fixedGainQ14;
    }

    method DecodeErasureSubframe(a: S.LpcQ12, lag: int) returns (s: Subframe)
      requires Valid() && A.Decodable(lag, 0)
      modifies this, pastExc, gn, gn.pastErrors
      modifies syn`lastExcitationScaleShift, syn.pastSynth, syn.flag
      ensures Valid() && View() == Erase(old(View()), a, lag)
      ensures s == Speech(old(View()), a, EraseTrace(old(View()), lag))
    {
      hide A.Codebook, F.DecodeVector, ConcealedPitchGain, ConcealedFixedGain, G.ErasedErrors, S.Excitation, Advance,
        BetaQ14, A.Decodable, G.SplitGainQ14, NextSeed, S.Filter;
      ghost var d := View();
      var v, c, u := new Word16[40](_ => 0), new Word16[40](_ => 0), new Word16[40](_ => 0);
      BuildErasureVectors(lag, v, c);
      SameConcealment(d, View());
      var gp, mant, exp := ConcealErasureGains();
      S.BuildExcitation(gp, mant, exp, v, c, u);
      ghost var t, d3 := EraseTrace(d, lag), View();
      s := Synthesise(a, t, gp, lag, u[..]);
      AdvanceForgets(d3, d, a, t);
    }

    method BuildErasureVectors(lag: int, v: array<Word16>, c: array<Word16>)
      requires Valid() && A.Decodable(lag, 0)
      requires v.Length == c.Length == 40 && v != c && v != pastExc && c != pastExc
      requires v != gn.pastErrors && c != gn.pastErrors && v != syn.pastSynth && c != syn.pastSynth
      modifies `randomSeed, `randomSeedInitialized, v, c
      ensures Valid() && View() == old(View()).(seed := NextSeed(NextSeed(old(View()).seed)))
      ensures v[..] == A.Codebook(lag, 0, old(pastExc[..]))
      ensures c[..] == F.DecodeVector(ErasurePositions(old(View()).seed), ErasureSigns(old(View()).seed), lag,
              BetaQ14(old(View())))
    {
      hide A.Codebook, F.DecodeVector, BetaQ14, A.Decodable, NextSeed;
      ghost var d := View();
      var positions := ErasureRandom();
      var signs := ErasureRandom();
      SameBeta(d, View());
      BuildVectors(lag, 0, positions % 0x2000, signs % 16, v, c);
    }

    method RememberPitchDelay(t: int)
      requires Valid()
      modifies `prevPitchDelay, `havePrevPitchDelay
      ensures Valid() && View() == old(View()).(prevDelay := t, haveDelay := true)
    {
      prevPitchDelay, havePrevPitchDelay := t, true;
    }

    method DecodeBad() returns (s: seq<Word16>)
      requires Valid() && LegalReceiver(View())
      modifies this, pastExc, lsp, lsp.pastResiduals, gn, gn.pastErrors
      modifies syn`lastExcitationScaleShift, syn.pastSynth, syn.flag
      ensures Valid() && View() == EraseFrame(old(View())) && s == BadSpeech(old(View()))
    {
      hide Erase, EraseTrace, Speech, L.ErasureState, L.ErasureFilters;
      ghost var d := View();
      var sf1A, sf2A := lsp.DecodeErasure();
      var tInt1 := if havePrevPitchDelay then prevPitchDelay else INITIAL_ERASURE_DELAY;
      var tInt2 := NextDelay(tInt1);
      var s1: seq<Word16> := DecodeErasureSubframe(sf1A, tInt1);
      var s2: seq<Word16> := DecodeErasureSubframe(sf2A, tInt2);
      RememberPitchDelay(NextDelay(tInt2));
      s := s1 + s2;
    }

    method DecodeGood(b: L.Codebooks, f: Frame) returns (s: seq<Word16>)
      requires Valid() && L.Shaped(b) && LegalReceiver(View()) && InWidth(f)
      modifies this, pastExc, lsp, lsp.pastResiduals, gn, gn.pastErrors
      modifies syn`lastExcitationScaleShift, syn.pastSynth, syn.flag
      ensures Valid() && View() == ReceiveFrame(b, old(View()), f) && s == GoodSpeech(b, old(View()), f)
    {
      hide Receive, ReceiveTrace, Speech, L.DecodeState, L.DecodeFilters, P.DecodeDelaySubframe1,
        P.DecodeDelaySubframe2, P.CheckParity;
      ghost var d := View();
      DelaysDecodable(d, f);
      var sf1A, sf2A := lsp.Decode(b, FrameIndices(f));
      var (tInt1, tFrac1) := P.DecodeDelaySubframe1(f.P1);
      if !P.CheckParity(f.P1, f.P0) {
        tInt1 := if havePrevPitchDelay then prevPitchDelay else INITIAL_ERASURE_DELAY;
        tFrac1 := 0;
      }
      var (tInt2, tFrac2) := P.DecodeDelaySubframe2(f.P2, tInt1);
      var s1: seq<Word16> := DecodeSubframe(sf1A, tInt1, tFrac1, FrameCode(f, 0));
      var s2: seq<Word16> := DecodeSubframe(sf2A, tInt2, tFrac2, FrameCode(f, 1));
      s := s1 + s2;
    }

    // One call: short buffers are refused with nothing changed; otherwise the state and the first 80
    // samples are those of the frame.
    method Decode(b: L.Codebooks, packed: array<Byte>, bad: bool, out: array<Word16>) returns (err: DecodeError)
      requires Valid() && L.Shaped(b) && LegalReceiver(View())
      requires out != pastExc && out != gn.pastErrors && out != syn.pastSynth
      modifies this, pastExc, lsp, lsp.pastResiduals, gn, gn.pastErrors
      modifies syn`lastExcitationScaleShift, syn.pastSynth, syn.flag, out
      ensures Valid()
      ensures err == if packed.Length < FRAME_BYTES then ShortInput
                     else if out.Length < FRAME_SAMPLES then ShortOutput else NoError
      ensures err != NoError ==> View() == old(View()) && out[..] == old(out[..])
      ensures err == NoError ==>
        && View() == DecodedState(b, old(View()), old(packed[..FRAME_BYTES]), bad)
        && out[..FRAME_SAMPLES] == (if bad then BadSpeech(old(View()))
                                    else GoodSpeech(b, old(View()), ReceivedFrame(old(packed[..FRAME_BYTES]))))
    {
      hide ReceiveFrame, EraseFrame, GoodSpeech, BadSpeech, UnpackBytes, InWidth;
      if packed.Length < FRAME_BYTES {
        return ShortInput;
      }
      if out.Length < FRAME_SAMPLES {
        return ShortOutput;
      }
      var f := Unpack(packed);
      UnpackedInWidth(packed[..FRAME_BYTES]);
      var s;
      if bad {
        s := DecodeBad();
      } else {
        s := DecodeGood(b, f.frame);
      }
      forall i | 0 <= i < FRAME_SAMPLES { out[i] := s[i]; }
      assert out[..FRAME_SAMPLES] == s;
      err := NoError;
    }
  }

  lemma SameBeta(d: DecoderState, d2: DecoderState)
    requires d2 == d.(seed := d2.seed)
    ensures BetaQ14(d2) == BetaQ14(d)
  {
  }

  lemma SameConcealment(d: DecoderState, d2: DecoderState)
    requires d2 == d.(seed := d2.seed)
    ensures ConcealedPitchGain(d2) == ConcealedPitchGain(d) && ConcealedFixedGain(d2) == ConcealedFixedGain(d)
  {
  }

  // The subframe's own pitch gain overwrites what was remembered before it.
  lemma AdvanceForgets(d3: DecoderState, d: DecoderState, a: S.LpcQ12, t: Trace)
    requires d3 == d.(prevGpQ14 := d3.prevGpQ14, havePrevGp := d3.havePrevGp, prevFixedGainQ14 := d3.prevFixedGainQ14,
                      errors := d3.errors, seed := d3.seed)
    ensures Advance(d3, a, t)
            == Advance(d.(errors := d3.errors, prevFixedGainQ14 := d3.prevFixedGainQ14, seed := d3.seed), a, t)
  {
    hide NextHistory, S.Filter;
  }
}
