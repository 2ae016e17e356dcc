/** The two state machines that share 80 bits per frame: what the encoder commits for a legal choice of
    indices (encoder.go, pack.go) and what the receiver rebuilds from the frame
    (internal/decoder/subframe.go, decode.go). */
module Codec {
  import opened Fixed
  import opened Bits
  import A = AdaptiveCodebook
  import F = FixedCodebook
  import G = Gain
  import L = LspQuantizer
  import P = PitchCodes
  import S = Synthesis

  const INITIAL_BETA_Q14: Word16 := 3277
  const INITIAL_ERASURE_DELAY: int := 60
  const TAME_ENERGY: int := 0x2_0000_0000
  const GP_CLIP_Q14: Word16 := 15565

  // ---------- choices and codes ----------

  // What the searches settle on for one subframe. `signs` is the sign of every position, of which
  // the four pulse positions are used.
  datatype Choice = Choice(lag: int, frac: int, positions: F.Positions, signs: seq<Word16>, ga: nat, gb: nat)

  predicate LegalChoice(c: Choice) {
    F.OnTracks(c.positions) && |c.signs| == 40 && c.ga < 8 && c.gb < 16 && A.Decodable(c.lag, c.frac)
  }

  datatype FrameChoice = FrameChoice(lsp: L.Indices, first: Choice, second: Choice)

  // Any index choice the bit stream can carry.
  predicate LegalFrame(fc: FrameChoice) {
    && L.LegalIndices(fc.lsp) && LegalChoice(fc.first) && LegalChoice(fc.second)
    && P.EncodableP1(fc.first.lag, fc.first.frac)
    && P.EncodableP2(fc.second.lag, fc.second.frac, fc.first.lag)
  }

  // What the code words can carry, the adaptive codebook can serve.
  lemma EncodableIsDecodable(lag: int, frac: int, intT1: Word16)
    requires P.Window2Sound(intT1)
    ensures P.EncodableP1(lag, frac) || P.EncodableP2(lag, frac, intT1) ==> A.Decodable(lag, frac)
  {
  }

  // Codebook and gain code words of one subframe.
  datatype Code = Code(c: nat, s: nat, ga: nat, gb: nat)

  predicate LegalCode(k: Code) {
    k.ga < 8 && k.gb < 16
  }

  function CodeOf(ch: Choice): (k: Code)
    requires LegalChoice(ch)
    ensures LegalCode(k) && k.c < 0x2000 && k.s < 16
  {
    var (ga, gb) := G.PackGains(ch.ga, ch.gb);
    Code(F.PackC(ch.positions), F.PackedSigns(F.SignsAt(ch.positions, ch.signs)), ga, gb)
  }

  // What a subframe leaves for comparison.
  datatype Trace = Trace(lag: int, frac: int, c: Subframe, gpQ14: Word16, gcMantQ14: Word16, gcExp: int, u: Subframe)

  // ---------- the encoder's commit ----------

  type OldExc = x: seq<Word16> | |x| == 154 witness seq(154, _ => 0)
  type PastExc = x: seq<Word16> | |x| == 153 witness seq(153, _ => 0)

  datatype EncoderState = EncoderState(
    freqPrev: L.History, lspDec: L.LspState, oldExc: OldExc, pastQuaEn: G.Errors, prevGpQ14: Word16)

  function ColdErrors(): G.Errors {
    [G.PAST_ERRORS_DEFAULT, G.PAST_ERRORS_DEFAULT, G.PAST_ERRORS_DEFAULT, G.PAST_ERRORS_DEFAULT]
  }

  function ColdEncoder(): EncoderState {
    EncoderState(L.Cold().past, L.Cold(), seq(154, _ => 0), ColdErrors(), 0)
  }

  function Energy(x: seq<Word16>): nat {
    if |x| == 0 then 0
    else
      var s := x[|x| - 1] as int;
      SquareNonNegative(s);
      Energy(x[..|x| - 1]) + s * s
  }

  lemma SquareNonNegative(s: int)
    ensures s * s >= 0
  {
  }

  // gainquant.Tame lowers the gain when the past excitation is loud.
  predicate Tamed(gpQ14: Word16, oldExc: OldExc) {
    Energy(oldExc) > TAME_ENERGY && gpQ14 > GP_CLIP_Q14
  }

  function Tame(gpQ14: Word16, oldExc: OldExc): Word16 {
    if Tamed(gpQ14, oldExc) then GP_CLIP_Q14 else gpQ14
  }

  function CommitTrace(e: EncoderState, ch: Choice): Trace
    requires LegalChoice(ch)
  {
    var v := A.Codebook(ch.lag, ch.frac, e.oldExc);
    var c := F.BuildCodeVector(ch.positions, ch.signs, ch.lag, e.prevGpQ14);
    var g := G.ReconstructWide(e.pastQuaEn, c, ch.ga, ch.gb);
    var gp := Tame(g.gpQ14, e.oldExc);
    Trace(ch.lag, ch.frac, c, gp, g.gcMantQ14, g.gcExp, S.Excitation(gp, g.gcMantQ14, g.gcExp, v, c))
  }

  function Commit(e: EncoderState, ch: Choice): EncoderState
    requires LegalChoice(ch)
  {
    var t := CommitTrace(e, ch);
    e.(oldExc := e.oldExc[40..] + t.u,
       pastQuaEn := G.UpdatedPastQuaEn(e.pastQuaEn, G.GammaQ13(ch.ga, ch.gb)),
       prevGpQ14 := t.gpQ14)
  }

  // lpcStep: both LSP memories move once per frame, before the subframes.
  function CommitLsp(b: L.Codebooks, e: EncoderState, i: L.Indices): EncoderState
    requires L.Shaped(b) && L.LegalIndices(i)
  {
    e.(freqPrev := L.Advanced(e.freqPrev, L.Residual(b, i)), lspDec := L.DecodeState(b, e.lspDec, i))
  }

  function CommitFrame(b: L.Codebooks, e: EncoderState, fc: FrameChoice): EncoderState
    requires L.Shaped(b) && LegalFrame(fc)
  {
    Commit(Commit(CommitLsp(b, e, fc.lsp), fc.first), fc.second)
  }

  // buildBitstreamFrame
  function FrameOf(fc: FrameChoice): Frame
    requires LegalFrame(fc)
  {
    var k1, k2 := CodeOf(fc.first), CodeOf(fc.second);
    var p1 := P.EncodeP1(fc.first.lag, fc.first.frac);
    var p2 := P.EncodeP2(fc.second.lag, fc.second.frac, P.Subframe2Window(fc.first.lag).0);
    Frame(fc.lsp.sel, fc.lsp.l1, fc.lsp.l2, fc.lsp.l3,
          p1, P.Parity(p1) % 2, k1.c, k1.s, k1.ga, k1.gb,
          p2, k2.c, k2.s, k2.ga, k2.gb)
  }

  // ---------- the receiver ----------

  datatype DecoderState = DecoderState(
    lsp: L.LspState, errors: G.Errors, pastSynth: S.Memory, pastExc: PastExc,
    prevGpQ14: Word16, havePrevGp: bool, prevFixedGainQ14: int,
    prevDelay: int, haveDelay: bool, seed: U16)

  predicate LegalReceiver(d: DecoderState) {
    L.LegalState(d.lsp) && (d.haveDelay ==> 19 <= d.prevDelay <= 144)
  }

  function ColdDecoder(): DecoderState {
    DecoderState(L.Cold(), ColdErrors(), [0, 0, 0, 0, 0, 0, 0, 0, 0, 0], seq(153, _ => 0), 0, false, 0, 0, false, 21845)
  }

  function BetaQ14(d: DecoderState): Word16 {
    if d.havePrevGp then F.ClampPitchGainForEnhancement(d.prevGpQ14) else INITIAL_BETA_Q14
  }

  function ConcealedDelay(d: DecoderState): int {
    if d.haveDelay then d.prevDelay else INITIAL_ERASURE_DELAY
  }

  // The receiver's vectors and gains of one subframe, before synthesis.
  function ReceiveTrace(d: DecoderState, lag: int, frac: int, k: Code): Trace
    requires LegalCode(k)
  {
    var v := A.Codebook(lag, frac, d.pastExc);
    var c := F.DecodeVector(k.c, k.s, lag, BetaQ14(d));
    var g := G.DecodedGains(d.errors, k.ga, k.gb, c);
    Trace(lag, frac, c, g.gpQ14, g.gcMantQ14, g.gcExp, S.Excitation(g.gpQ14, g.gcMantQ14, g.gcExp, v, c))
  }

  function ScaledSample(x: Word16, shift: nat): Word16 {
    ShrBound(x, shift);
    Shr(x, shift)
  }

  function Scaled(x: seq<Word16>, shift: nat): (y: seq<Word16>)
    ensures |y| == |x|
  {
    seq(|x|, i requires 0 <= i < |x| => ScaledSample(x[i], shift))
  }

  // The excitation history after a subframe; overflow recovery in the synthesis filter scales it.
  function NextHistory(past: PastExc, u: Subframe, shift: nat): PastExc {
    if shift > 0 then Scaled(past, shift)[40..] + Scaled(u, shift) else past[40..] + u
  }

  function Synthesised(d: DecoderState, a: S.LpcQ12, u: Subframe): S.Filtered {
    S.Filter(a, u, d.pastSynth)
  }

  // The state after a subframe with excitation t.u.
  function Advance(d: DecoderState, a: S.LpcQ12, t: Trace): DecoderState {
    var f := Synthesised(d, a, t.u);
    S.FilterMeaning(a, t.u, d.pastSynth);
    d.(pastSynth := f.pastSynth, pastExc := NextHistory(d.pastExc, t.u, f.shift),
       prevGpQ14 := t.gpQ14, havePrevGp := true, prevDelay := t.lag, haveDelay := true)
  }

  function Receive(d: DecoderState, a: S.LpcQ12, lag: int, frac: int, k: Code): DecoderState
    requires LegalCode(k)
  {
    var t := ReceiveTrace(d, lag, frac, k);
    Advance(d.(errors := G.DecodedErrors(d.errors, k.ga, k.gb, t.c),
               prevFixedGainQ14 := G.DecoderGainQ14FromMantExp(t.gcMantQ14, t.gcExp)), a, t)
  }

  predicate InWidth(f: Frame) {
    f == Masked(f)
  }

  lemma UnpackedInWidth(bytes: seq<Byte>)
    requires |bytes| == FRAME_BYTES
    ensures InWidth(UnpackBytes(bytes))
  {
    PackUnpack(bytes);
    UnpackPack(UnpackBytes(bytes));
  }

  function ReceivedFrame(bytes: seq<Byte>): (f: Frame)
    requires |bytes| == FRAME_BYTES
    ensures InWidth(f)
  {
    UnpackedInWidth(bytes);
    UnpackBytes(bytes)
  }

  // The frame the receiver unpacks from the ten bytes of an encoded one.
  function Delivered(fc: FrameChoice): (f: Frame)
    requires LegalFrame(fc)
    ensures InWidth(f)
  {
    ReceivedFrame(PackBytes(FrameOf(fc)))
  }

  function FrameIndices(f: Frame): (i: L.Indices)
    requires InWidth(f)
    ensures L.LegalIndices(i)
  {
    L.Indices(f.L0, f.L1, f.L2, f.L3)
  }

  function FrameCode(f: Frame, sub: nat): (k: Code)
    requires InWidth(f)
    ensures LegalCode(k)
  {
    if sub == 0 then Code(f.C1, f.S1, f.GA1, f.GB1) else Code(f.C2, f.S2, f.GA2, f.GB2)
  }

  // Delay of the first subframe; a parity error falls back on the remembered one.
  function FirstDelay(d: DecoderState, f: Frame): (int, int)
    requires InWidth(f)
  {
    if P.CheckParity(f.P1, f.P0) then P.DecodeDelaySubframe1(f.P1) else (ConcealedDelay(d), 0)
  }

  function SecondDelay(d: DecoderState, f: Frame): (int, int)
    requires InWidth(f)
  {
    P.DecodeDelaySubframe2(f.P2, FirstDelay(d, f).0)
  }

  function ReceiveLsp(b: L.Codebooks, d: DecoderState, f: Frame): DecoderState
    requires L.Shaped(b) && InWidth(f)
  {
    d.(lsp := L.DecodeState(b, d.lsp, FrameIndices(f)))
  }

  // LP filter of each subframe.
  function Lpc(b: L.Codebooks, d: DecoderState, f: Frame, sub: nat): S.LpcQ12
    requires L.Shaped(b) && InWidth(f)
  {
    var (sf1, sf2) := L.DecodeFilters(b, d.lsp, FrameIndices(f));
    if sub == 0 then sf1 else sf2
  }

  function ReceiveFirst(b: L.Codebooks, d: DecoderState, f: Frame): DecoderState
    requires L.Shaped(b) && InWidth(f)
  {
    var (lag, frac) := FirstDelay(d, f);
    Receive(ReceiveLsp(b, d, f), Lpc(b, d, f, 0), lag, frac, FrameCode(f, 0))
  }

  function ReceiveFrame(b: L.Codebooks, d: DecoderState, f: Frame): DecoderState
    requires L.Shaped(b) && InWidth(f)
  {
    var (lag, frac) := SecondDelay(d, f);
    Receive(ReceiveFirst(b, d, f), Lpc(b, d, f, 1), lag, frac, FrameCode(f, 1))
  }
}
