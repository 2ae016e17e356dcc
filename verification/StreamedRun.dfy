/** The streaming wrapper around the encoder of the two machines: what a receiver has decoded from the bytes of a
    stream, however it was written, flushed and reset. */
module StreamedRun {
  import opened Fixed
  import opened Bits
  import opened Codec
  import opened LockStep
  import ST = Streaming
  import L = LspQuantizer

  // A frame of choices the bit stream can carry.
  type Carried = fc: FrameChoice | LegalFrame(fc) witness FrameChoice(L.Indices(0, 0, 0, 0), FILLER, FILLER)

  const FILLER: Choice := Choice(60, 0, [0, 1, 2, 3], seq(40, _ => 1), 0, 0)

  // The analysis and the searches: from their own memory, the memories shared with the receiver and 80
  // samples, any legal choice.
  type Analysis<!X> = (X, EncoderState, ST.Samples) -> (X, Carried)

  // EncodeFrame with those searches, as the wrapper calls it.
  function FrameStep<X>(b: L.Codebooks, pick: Analysis<X>): ST.Step<(X, EncoderState)>
    requires L.Shaped(b)
  {
    (s: (X, EncoderState), frame: ST.Samples) =>
      var (x, fc) := pick(s.0, s.1, frame);
      ((x, CommitFrame(b, s.1, fc)), PackBytes(FrameOf(fc)))
  }

  // The choices made over a stream of whole frames.
  function Choices<X>(b: L.Codebooks, pick: Analysis<X>, s: (X, EncoderState), pcm: ST.Samples): (fcs: seq<FrameChoice>)
    requires L.Shaped(b) && |pcm| % ST.FRAME == 0
    ensures LegalRun(fcs) && |fcs| == |pcm| / ST.FRAME
    decreases |pcm|
  {
    if |pcm| == 0 then []
    else
      var cut := |pcm| - ST.FRAME;
      var before := ST.EncodeAll(FrameStep(b, pick), s, pcm[..cut]).0;
      Choices(b, pick, s, pcm[..cut]) + [pick(before.0, before.1, pcm[cut..]).1]
  }

  function Packets(fcs: seq<FrameChoice>): (bytes: seq<Byte>)
    requires LegalRun(fcs)
    ensures |bytes| == FRAME_BYTES * |fcs| && |bytes| % FRAME_BYTES == 0
  {
    WholeFrames(|fcs|);
    if |fcs| == 0 then [] else Packets(fcs[..|fcs| - 1]) + PackBytes(FrameOf(fcs[|fcs| - 1]))
  }

  lemma WholeFrames(n: nat)
    ensures FRAME_BYTES * n % FRAME_BYTES == 0
  {
  }

  // A receiver taking ten bytes at a time.
  function DecodeAll(b: L.Codebooks, d: DecoderState, bytes: seq<Byte>): DecoderState
    requires L.Shaped(b) && |bytes| % FRAME_BYTES == 0
    decreases |bytes|
  {
    if |bytes| == 0 then d
    else
      var cut := |bytes| - FRAME_BYTES;
      ReceiveFrame(b, DecodeAll(b, d, bytes[..cut]), ReceivedFrame(bytes[cut..]))
  }

  // The stream is the run of its choices.
  lemma {:induction false} StreamIsRun<X>(b: L.Codebooks, pick: Analysis<X>, s: (X, EncoderState), pcm: ST.Samples)
    requires L.Shaped(b) && |pcm| % ST.FRAME == 0
    ensures var fcs, (s', bytes) := Choices(b, pick, s, pcm), ST.EncodeAll(FrameStep(b, pick), s, pcm);
            s'.1 == RunEncoder(b, s.1, fcs) && bytes == Packets(fcs)
    decreases |pcm|
  {
    hide CommitFrame, LegalFrame, FrameOf, PackBytes;
    if |pcm| > 0 {
      var cut := |pcm| - ST.FRAME;
      StreamIsRun(b, pick, s, pcm[..cut]);
      var fcs := Choices(b, pick, s, pcm);
      assert fcs[..|fcs| - 1] == Choices(b, pick, s, pcm[..cut]);
    }
  }

  lemma {:induction false} PacketsDecode(b: L.Codebooks, d: DecoderState, fcs: seq<FrameChoice>)
    requires L.Shaped(b) && LegalRun(fcs)
    ensures DecodeAll(b, d, Packets(fcs)) == RunReceiver(b, d, fcs)
    decreases |fcs|
  {
    hide ReceiveFrame, LegalFrame, FrameOf, PackBytes, ReceivedFrame;
    if |fcs| > 0 {
      var init := fcs[..|fcs| - 1];
      PacketsDecode(b, d, init);
      var bytes := Packets(fcs);
      var cut := |bytes| - FRAME_BYTES;
      assert bytes[..cut] == Packets(init) && bytes[cut..] == PackBytes(FrameOf(fcs[|fcs| - 1]));
    }
  }

  // Whatever the recording, its pieces and the searches: a receiver of the bytes has the encoder's predictor
  // memories, and it has followed every frame exactly when nothing disturbed one.
  lemma StreamFollowed<X>(b: L.Codebooks, pick: Analysis<X>, x: X, pcm: ST.Samples)
    requires L.Shaped(b)
    ensures var all := ST.Padded(pcm);
            var fcs := Choices(b, pick, (x, ColdEncoder()), all);
            var (s, bytes) := ST.EncodeAll(FrameStep(b, pick), (x, ColdEncoder()), all);
            && |bytes| == FRAME_BYTES * (|all| / ST.FRAME) && |bytes| % FRAME_BYTES == 0
            && Linked(s.1, DecodeAll(b, ColdDecoder(), bytes))
            && (FollowsRun(b, ColdEncoder(), ColdDecoder(), fcs)
               <==> UndisturbedRun(b, ColdEncoder(), ColdDecoder(), fcs))
            && (UndisturbedRun(b, ColdEncoder(), ColdDecoder(), fcs)
               ==> InStep(s.1, DecodeAll(b, ColdDecoder(), bytes)))
  {
    hide RunEncoder, RunReceiver, DecodeAll, ST.EncodeAll, Packets, FollowsRun, UndisturbedRun, Linked, LegalFrame,
      FrameStep, SameRun;
    ColdStart();
    var all, fcs := ST.Padded(pcm), Choices(b, pick, (x, ColdEncoder()), ST.Padded(pcm));
    StreamIsRun(b, pick, (x, ColdEncoder()), all);
    PacketsDecode(b, ColdDecoder(), fcs);
    RunLinked(b, ColdEncoder(), ColdDecoder(), fcs);
    RunLockStep(b, ColdEncoder(), ColdDecoder(), fcs);
  }
}
