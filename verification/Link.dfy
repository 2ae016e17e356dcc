/** One frame from a running encoder to a running receiver over ten bytes. */
module Link {
  import opened Fixed
  import opened Bits
  import opened Codec
  import opened LockStep
  import L = LspQuantizer
  import opened LsfStability
  import T = Transmitter
  import R = Receiver

  // Everything the two objects own, none of it shared.
  ghost predicate Separate(enc: T.Encoder, dec: R.Decoder, out: array<Word16>)
    reads enc, dec
  {
    && enc.lspDec != dec.lsp && enc.lspDec.pastResiduals != dec.lsp.pastResiduals
    && enc.freqPrev != dec.lsp.pastResiduals
    && {enc.oldExc, enc.pastQuaEn} !! {dec.pastExc, dec.gn.pastErrors, dec.syn.pastSynth}
    && out !in {enc.oldExc, enc.pastQuaEn, dec.pastExc, dec.gn.pastErrors, dec.syn.pastSynth}
  }

  // The predictor memories agree after the frame whatever happens in it; if both sides were in step
  // and nothing disturbs the frame, they are in step after it.
  method RelayFrame(b: L.Codebooks, enc: T.Encoder, dec: R.Decoder, proposals: seq<L.Indices>, weights: seq<nat>,
                    omega: Lsf, first: Choice, second: Choice, packet: array<Byte>, out: array<Word16>)
    requires enc.Valid() && dec.Valid() && L.Shaped(b) && Separate(enc, dec, out)
    requires |weights| == 10 && |proposals| == 2 && packet.Length == FRAME_BYTES && out.Length >= R.FRAME_SAMPLES
    requires forall s | 0 <= s < 2 :: L.LegalIndices(proposals[s]) && proposals[s].sel == s
    requires forall s | 0 <= s < 2 :: LegalFrame(FrameChoice(proposals[s], first, second))
    requires LegalReceiver(dec.View()) && Linked(enc.View(), dec.View())
    modifies enc, enc.freqPrev, enc.lspDec, enc.lspDec.pastResiduals, enc.oldExc, enc.pastQuaEn, packet, out
    modifies dec, dec.pastExc, dec.lsp, dec.lsp.pastResiduals, dec.gn, dec.gn.pastErrors
    modifies dec.syn, dec.syn.pastSynth, dec.syn.flag
    ensures enc.Valid() && dec.Valid() && Linked(enc.View(), dec.View())
    ensures LegalFrame(FrameChoice(enc.lsp, first, second))
    ensures InStep(old(enc.View()), old(dec.View()))
            && UndisturbedFrame(b, old(enc.View()), old(dec.View()), FrameChoice(enc.lsp, first, second))
            ==> InStep(enc.View(), dec.View())
  {
    hide CommitFrame, ReceiveFrame, PackBytes, UnpackBytes, FrameOf, LegalFrame, UndisturbedFrame, InStep, Linked,
      L.Shaped, L.LegalIndices, LegalReceiver, ReceivedFrame, R.GoodSpeech;
    ghost var e, d := enc.View(), dec.View();
    var err := enc.EncodeFrame(b, proposals, weights, omega, first, second, packet);
    ghost var fc := FrameChoice(enc.lsp, first, second);
    assert packet[..] == packet[..FRAME_BYTES];
    assert dec.View() == d;
    var derr := dec.Decode(b, packet, false, out);
    assert enc.View() == CommitFrame(b, e, fc) && dec.View() == ReceiveFrame(b, d, Delivered(fc));
    FrameLinked(b, e, d, fc);
    if InStep(e, d) && UndisturbedFrame(b, e, d, fc) {
      FrameLockStep(b, e, d, fc);
    }
  }
}
