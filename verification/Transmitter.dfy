/** The encoder's commit path as it runs in place (encoder.go:789-957, 1126-1166, 1656-1791, pack.go). What
    the searches choose is an input; every memory the receiver has to rebuild is a field. */
module Transmitter {
  import opened Fixed
  import opened Bits
  import opened Codec
  import A = AdaptiveCodebook
  import F = FixedCodebook
  import G = Gain
  import L = LspQuantizer
  import opened LsfStability
  import P = PitchCodes
  import S = Synthesis

  lemma {:induction false} EnergyStep(x: seq<Word16>, i: nat)
    requires i < |x|
    ensures Energy(x[..i + 1]) == Energy(x[..i]) + (x[i] as int) * x[i]
  {
    assert x[..i + 1][..i] == x[..i];
  }

  method TameGain(gpQ14: Word16, oldExc: array<Word16>) returns (gp: Word16)
    requires oldExc.Length == 154
    ensures gp == Tame(gpQ14, oldExc[..])
  {
    hide Energy;
    EnergyEmpty();
    var energy := 0;
    assert oldExc[..0] == [];
    for i := 0 to 154
      invariant energy == Energy(oldExc[..i])
    {
      var s := oldExc[i] as int;
      EnergyStep(oldExc[..], i);
      assert oldExc[..][..i + 1] == oldExc[..i + 1] && oldExc[..][..i] == oldExc[..i];
      energy := energy + s * s;
    }
    assert oldExc[..154] == oldExc[..];
    if energy > TAME_ENERGY && gpQ14 > GP_CLIP_Q14 {
      return GP_CLIP_Q14;
    }
    return gpQ14;
  }

  lemma EnergyEmpty()
    ensures Energy([]) == 0
  {
  }

  class Encoder {
    const freqPrev: array<Lsf>
    const lspDec: L.Decoder
    const oldExc: array<Word16>
    const pastQuaEn: array<Word16>
    var prevGpQ14: Word16
    var prevTaming: bool

    // Indices of the frame being encoded.
    var lsp: L.Indices
    var intT1: Word16
    var p1: Byte
    var p0: nat
    var p2: Byte
    var code1: Code
    var code2: Code

    ghost predicate Valid()
      reads this, lspDec
    {
      && freqPrev.Length == 4 && oldExc.Length == 154 && pastQuaEn.Length == 4
      && oldExc != pastQuaEn && freqPrev != lspDec.pastResiduals
      && lspDec.Valid()
    }

    ghost function View(): EncoderState
      requires Valid()
      reads this, freqPrev, lspDec, lspDec.pastResiduals, oldExc, pastQuaEn
    {
      EncoderState(freqPrev[..], lspDec.View(), oldExc[..], pastQuaEn[..], prevGpQ14)
    }

    constructor ()
      ensures Valid() && View() == ColdEncoder()
      ensures fresh(freqPrev) && fresh(lspDec) && fresh(lspDec.pastResiduals) && fresh(oldExc) && fresh(pastQuaEn)
    {
      freqPrev := new Lsf[4](_ => L.INITIAL_PAST_RESIDUAL);
      lspDec := new L.Decoder();
      oldExc := new Word16[154](_ => 0);
      pastQuaEn := new Word16[4](_ => G.PAST_ERRORS_DEFAULT);
      prevGpQ14, prevTaming := 0, false;
      lsp := L.Indices(0, 0, 0, 0);
      intT1, p1, p0, p2 := 0, 0, 0, 0;
      code1, code2 := Code(0, 0, 0, 0), Code(0, 0, 0, 0);
      new;
      assert freqPrev[..] == L.Cold().past && oldExc[..] == seq(154, _ => 0) && pastQuaEn[..] == ColdErrors();
    }

    // The end of lpcStep: choose the indices, keep them, run the local decoder on them.
    method LpcStep(b: L.Codebooks, proposals: seq<L.Indices>, weights: seq<nat>, omega: Lsf)
      requires Valid() && L.Shaped(b) && |weights| == 10 && |proposals| == 2
      requires forall s | 0 <= s < 2 :: L.LegalIndices(proposals[s]) && proposals[s].sel == s
      modifies `lsp, freqPrev, lspDec, lspDec.pastResiduals
      ensures Valid() && lsp in proposals && L.LegalIndices(lsp)
      ensures View() == CommitLsp(b, old(View()), lsp)
    {
      hide L.QuantisedLsf, L.Residual, L.DecodeFilters;
      lsp := L.Quantize(b, proposals, weights, omega, freqPrev);
      var sf1, sf2 := lspDec.Decode(b, lsp);
    }

    // commitClosedLoopPitch and the commit half of fcbStep.
    method CommitSubframe(sub: nat, ch: Choice)
      requires Valid() && LegalChoice(ch) && sub < 2
      requires sub == 0 ==> P.EncodableP1(ch.lag, ch.frac)
      modifies `intT1, `p1, `p0, `p2, `code1, `code2, `prevGpQ14, `prevTaming, oldExc, pastQuaEn
      ensures Valid() && View() == Commit(old(View()), ch)
      ensures sub == 0 ==>
        intT1 == ch.lag && p1 == P.EncodeP1(ch.lag, ch.frac) && p0 == P.Parity(p1) && code1 == CodeOf(ch)
      ensures sub == 1 ==>
        p2 == P.EncodeP2(ch.lag, ch.frac, P.Subframe2Window(old(intT1)).0) && code2 == CodeOf(ch)
        && intT1 == old(intT1) && p1 == old(p1) && p0 == old(p0) && code1 == old(code1)
    {
      hide P.EncodeP1, P.Parity, P.EncodeP2, CommitTrace, G.UpdatedPastQuaEn;
      ghost var e := View();
      if sub == 0 {
        intT1 := ch.lag;
        p1 := P.EncodeP1(ch.lag, ch.frac);
        p0 := P.Parity(p1);
      } else {
        var (tmin, _) := P.Subframe2Window(intT1);
        p2 := P.EncodeP2(ch.lag, ch.frac, tmin);
      }
      var k := PackCode(ch);
      if sub == 0 {
        code1 := k;
      } else {
        code2 := k;
      }
      var uHat, gp := BuildSubframe(ch);
      prevTaming := gp != G.PitchGainQ14(ch.ga, ch.gb);
      ShiftOldExc(uHat);
      G.UpdatePastQuaEn(pastQuaEn, G.GammaQ13(ch.ga, ch.gb));
      prevGpQ14 := gp;
    }

    // Both excitation contributions and the gains; nothing of the state moves.
    method BuildSubframe(ch: Choice) returns (uHat: Subframe, gp: Word16)
      requires Valid() && LegalChoice(ch)
      ensures uHat == CommitTrace(View(), ch).u && gp == CommitTrace(View(), ch).gpQ14
    {
      hide A.Vector, A.Codebook, F.BuildCodeVector, F.Enhanced, G.ReconstructWide, S.ExcitationSample, Energy,
        F.Placed, Tame;
      var v, c, u := new Word16[40](_ => 0), new Word16[40](_ => 0), new Word16[40](_ => 0);
      A.CodebookIgnoresContents(ch.lag, ch.frac, oldExc[..], v[..]);
      A.AdaptiveCodebook(ch.lag, ch.frac, oldExc, v);
      var signs := new Word16[40](i requires 0 <= i < 40 => ch.signs[i]);
      assert signs[..] == ch.signs;
      F.BuildCode(ch.positions, signs, ch.lag, prevGpQ14, c);
      var g := G.ReconstructWide(pastQuaEn[..], c[..], ch.ga, ch.gb);
      gp := TameGain(g.gpQ14, oldExc);
      S.BuildExcitation(gp, g.gcMantQ14, g.gcExp, v, c, u);
      uHat := u[..];
    }

    method ShiftOldExc(uHat: Subframe)
      requires Valid()
      modifies oldExc
      ensures oldExc[..] == old(oldExc[..])[40..] + uHat
    {
      for i := 0 to 114
        invariant forall j | 0 <= j < i :: oldExc[j] == old(oldExc[..])[j + 40]
        invariant forall j | i <= j < 154 :: oldExc[j] == old(oldExc[..])[j]
      {
        oldExc[i] := oldExc[i + 40];
      }
      for i := 0 to 40
        invariant forall j | 0 <= j < 114 :: oldExc[j] == old(oldExc[..])[j + 40]
        invariant forall j | 0 <= j < i :: oldExc[114 + j] == uHat[j]
      {
        oldExc[114 + i] := uHat[i];
      }
    }

    // The fifteen fields of one frame's packed bytes, from the kept indices alone (buildBitstreamFrame).
    method BuildBitstreamFrame(ghost fc: FrameChoice) returns (f: Frame)
      requires LegalFrame(fc) && lsp == fc.lsp
      requires p1 == P.EncodeP1(fc.first.lag, fc.first.frac) && p0 == P.Parity(p1) && code1 == CodeOf(fc.first)
      requires p2 == P.EncodeP2(fc.second.lag, fc.second.frac, P.Subframe2Window(fc.first.lag).0)
      requires code2 == CodeOf(fc.second)
      ensures f == FrameOf(fc)
    {
      hide P.EncodeP1, P.Parity, P.EncodeP2, P.HighOnes, F.OnTracks, A.Decodable;
      P.ParityIsOdd(p1);
      f := Frame(lsp.sel, lsp.l1, lsp.l2, lsp.l3, p1, p0, code1.c, code1.s, code1.ga, code1.gb,
                 p2, code2.c, code2.s, code2.ga, code2.gb);
    }

    // One frame: the state moves as the specification says, and the ten bytes are its packed indices.
    // A short output buffer is refused before anything moves.
    method EncodeFrame(b: L.Codebooks, proposals: seq<L.Indices>, weights: seq<nat>, omega: Lsf,
                       first: Choice, second: Choice, out: array<Byte>)
      returns (err: PackError)
      requires Valid() && L.Shaped(b) && |weights| == 10 && |proposals| == 2
      requires forall s | 0 <= s < 2 :: L.LegalIndices(proposals[s]) && proposals[s].sel == s
      requires forall s | 0 <= s < 2 :: LegalFrame(FrameChoice(proposals[s], first, second))
      modifies this, freqPrev, lspDec, lspDec.pastResiduals, oldExc, pastQuaEn, out
      ensures Valid() && err == if out.Length < FRAME_BYTES then ErrShortOutput else ErrNone
      ensures err != ErrNone ==> View() == old(View()) && out[..] == old(out[..])
      ensures err == ErrNone ==>
        && lsp in proposals && LegalFrame(FrameChoice(lsp, first, second))
        && View() == CommitFrame(b, old(View()), FrameChoice(lsp, first, second))
        && out[..FRAME_BYTES] == PackBytes(FrameOf(FrameChoice(lsp, first, second)))
    {
      hide Commit, CommitLsp, FrameOf, PackBytes, CodeOf, P.EncodeP1, P.EncodeP2, P.Parity, P.EncodableP1,
        P.EncodableP2,
        F.OnTracks, A.Decodable, P.Subframe2Window;
      if out.Length < FRAME_BYTES {
        return ErrShortOutput;
      }
      LpcStep(b, proposals, weights, omega);
      CommitSubframe(0, first);
      CommitSubframe(1, second);
      var f := BuildBitstreamFrame(FrameChoice(lsp, first, second));
      err := Pack(f, out);
    }
  }

  method PackCode(ch: Choice) returns (k: Code)
    requires LegalChoice(ch)
    ensures k == CodeOf(ch)
  {
    var signs := new Word16[40](i requires 0 <= i < 40 => ch.signs[i]);
    assert signs[..] == ch.signs;
    var s := F.PackS(ch.positions, signs);
    var (ga, gb) := G.PackGains(ch.ga, ch.gb);
    k := Code(F.PackC(ch.positions), s, ga, gb);
  }
}
