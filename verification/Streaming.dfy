/** The streaming wrapper (encoder_streaming.go, encoder.go:749-759) over any frame encoder: samples come in
    pieces of any size, whole frames go out. */
module Streaming {
  import opened Fixed

  const FRAME: nat := 80

  type Samples = seq<Word16>
  type Bytes = seq<Byte>

  // A frame encoder: a state and 80 samples to a state and the packed bytes.
  type Step<!S> = (S, Samples) -> (S, Bytes)

  // Frame by frame over a stream of whole frames.
  function EncodeAll<S>(step: Step<S>, init: S, pcm: Samples): (r: (S, Bytes))
    requires |pcm| % FRAME == 0
    decreases |pcm|
  {
    if |pcm| == 0 then (init, [])
    else
      var cut := |pcm| - FRAME;
      var (s, out) := EncodeAll(step, init, pcm[..cut]);
      var (s', bytes) := step(s, pcm[cut..]);
      (s', out + bytes)
  }

  function Aligned(n: nat): (a: nat)
    ensures a <= n && a % FRAME == 0 && n - a < FRAME
  {
    n - n % FRAME
  }

  function Silence(n: nat): Samples {
    seq(n, _ => 0)
  }

  // ---------- what the three operations mean ----------

  // Bytes emitted before the last reset, and the samples fed (and padded) since.
  datatype Stream = Stream(base: Bytes, pcm: Samples)

  datatype Operation = Write(samples: Samples) | Flush | Reset

  function Emitted<S>(step: Step<S>, init: S, v: Stream): Bytes {
    v.base + EncodeAll(step, init, v.pcm[..Aligned(|v.pcm|)]).1
  }

  function Codec<S>(step: Step<S>, init: S, v: Stream): S {
    EncodeAll(step, init, v.pcm[..Aligned(|v.pcm|)]).0
  }

  function Padded(pcm: Samples): (all: Samples)
    ensures |all| % FRAME == 0 && |pcm| <= |all| < |pcm| + FRAME
  {
    if |pcm| % FRAME == 0 then pcm else pcm + Silence(FRAME - |pcm| % FRAME)
  }

  function Do<S>(step: Step<S>, init: S, v: Stream, op: Operation): Stream {
    match op
    case Write(samples) => Stream(v.base, v.pcm + samples)
    case Flush => Stream(v.base, Padded(v.pcm))
    case Reset => Stream(Emitted(step, init, v), [])
  }

  function DoAll<S>(step: Step<S>, init: S, v: Stream, ops: seq<Operation>): Stream {
    if |ops| == 0 then v else Do(step, init, DoAll(step, init, v, ops[..|ops| - 1]), ops[|ops| - 1])
  }

  function Concat(parts: seq<Samples>): Samples {
    if |parts| == 0 then [] else Concat(parts[..|parts| - 1]) + parts[|parts| - 1]
  }

  function Writes(parts: seq<Samples>): seq<Operation> {
    seq(|parts|, i requires 0 <= i < |parts| => Write(parts[i]))
  }

  // ---------- the wrapper ----------

  datatype StreamError = NoError | ErrNoStreamSink

  class Encoder<!S> {
    const step: Step<S>
    const init: S
    const hasSink: bool
    const streamBuf: array<Word16>
    var streamBufLen: nat
    var codec: S
    var sink: Bytes
    ghost var view: Stream

    // Everything emitted and the codec state are those of the whole frames so far; the buffer holds the
    // incomplete frame, always fewer than 80 samples.
    ghost predicate Valid()
      reads this, streamBuf
    {
      && streamBuf.Length == FRAME && streamBufLen == |view.pcm| % FRAME
      && streamBuf[..streamBufLen] == view.pcm[Aligned(|view.pcm|)..]
      && sink == Emitted(step, init, view) && codec == Codec(step, init, view)
    }

    constructor (step: Step<S>, init: S, hasSink: bool)
      ensures Valid() && fresh(streamBuf) && view == Stream([], []) && sink == []
      ensures this.step == step && this.init == init && this.hasSink == hasSink
    {
      this.step, this.init, this.hasSink := step, init, hasSink;
      streamBuf := new Word16[FRAME](_ => 0);
      streamBufLen, codec, sink, view := 0, init, [], Stream([], []);
      new;
      assert view.pcm[..Aligned(0)] == [];
    }

    // EncodeFrame on one frame, and the bytes to the sink.
    method EmitFrame(frame: Samples)
      requires |frame| == FRAME
      modifies `codec, `sink
      ensures (codec, sink) == (step(old(codec), frame).0, old(sink) + step(old(codec), frame).1)
    {
      var (s, bytes) := step(codec, frame);
      codec := s;
      sink := sink + bytes;
    }

    // Copies `samples` behind the buffered ones.
    method Append(samples: Samples)
      requires streamBuf.Length == FRAME && streamBufLen + |samples| <= FRAME
      modifies streamBuf
      ensures streamBuf[..streamBufLen + |samples|] == old(streamBuf[..streamBufLen]) + samples
    {
      for i := 0 to |samples|
        invariant streamBuf[..streamBufLen] == old(streamBuf[..streamBufLen])
        invariant forall j | 0 <= j < i :: streamBuf[streamBufLen + j] == samples[j]
      {
        streamBuf[streamBufLen + i] := samples[i];
      }
    }

    // Samples that do not complete a frame.
    method Keep(samples: Samples)
      requires Valid() && streamBufLen + |samples| < FRAME
      modifies this, streamBuf
      ensures Valid() && view == Stream(old(view).base, old(view).pcm + samples)
      ensures streamBufLen == old(streamBufLen) + |samples|
    {
      hide Emitted, Codec;
      Append(samples);
      BufferMore(view.pcm, samples);
      KeepSame(step, init, view, samples);
      streamBufLen := streamBufLen + |samples|;
      view := Stream(view.base, view.pcm + samples);
    }

    // Samples that complete the buffered frame.
    method Complete(samples: Samples)
      requires Valid() && streamBufLen > 0 && streamBufLen + |samples| == FRAME
      modifies this, streamBuf
      ensures Valid() && streamBufLen == 0 && view == Stream(old(view).base, old(view).pcm + samples)
    {
      Append(samples);
      FrameComplete(step, init, view.pcm, samples);
      assert streamBuf[..] == streamBuf[..FRAME];
      EmitFrame(streamBuf[..]);
      streamBufLen := 0;
      view := Stream(view.base, view.pcm + samples);
      AlignedWhole(view.pcm);
    }

    // A whole frame straight from the input.
    method Direct(frame: Samples)
      requires Valid() && streamBufLen == 0 && |frame| == FRAME
      modifies this
      ensures Valid() && streamBufLen == 0 && view == Stream(old(view).base, old(view).pcm + frame)
    {
      AlignedWhole(view.pcm);
      FrameComplete(step, init, view.pcm, frame);
      EmitFrame(frame);
      view := Stream(view.base, view.pcm + frame);
      AlignedWhole(view.pcm);
    }

    method Write(samples: Samples) returns (consumed: nat, err: StreamError)
      requires Valid()
      modifies this, streamBuf
      ensures Valid() && streamBufLen < FRAME
      ensures !hasSink ==> err == ErrNoStreamSink && consumed == 0 && view == old(view) && sink == old(sink)
      ensures hasSink ==> err == NoError && consumed == |samples|
      ensures hasSink ==> view == Do(step, init, old(view), Operation.Write(samples))
    {
      hide Emitted, Codec, Aligned;
      if !hasSink {
        return 0, ErrNoStreamSink;
      }
      err := NoError;
      consumed := 0;
      var rest := samples;
      if streamBufLen > 0 {
        var need := FRAME - streamBufLen;
        if |rest| < need {
          Keep(rest);
          return |rest|, NoError;
        }
        Complete(rest[..need]);
        rest := rest[need..];
        consumed := need;
      }
      while |rest| >= FRAME
        invariant Valid() && streamBufLen == 0 && view.base == old(view).base
        invariant view.pcm + rest == old(view).pcm + samples
        invariant consumed + |rest| == |samples|
        decreases |rest|
      {
        Direct(rest[..FRAME]);
        rest := rest[FRAME..];
        consumed := consumed + FRAME;
      }
      if |rest| > 0 {
        Keep(rest);
        consumed := consumed + |rest|;
      }
    }

    method Flush() returns (err: StreamError)
      requires Valid()
      modifies this, streamBuf
      ensures Valid()
      ensures !hasSink ==> err == ErrNoStreamSink && view == old(view) && sink == old(sink)
      ensures hasSink ==> err == NoError && streamBufLen == 0 && view == Do(step, init, old(view), Operation.Flush)
    {
      if !hasSink {
        return ErrNoStreamSink;
      }
      if streamBufLen == 0 {
        return NoError;
      }
      Complete(Silence(FRAME - streamBufLen));
      err := NoError;
    }

    method Reset()
      requires Valid()
      modifies this
      ensures Valid() && sink == old(sink) && codec == init && streamBufLen == 0
      ensures view == Do(step, init, old(view), Operation.Reset)
    {
      codec := init;
      streamBufLen := 0;
      view := Stream(sink, []);
      assert view.pcm[..Aligned(0)] == [];
    }
  }

  lemma AlignedWhole(pcm: Samples)
    requires |pcm| % FRAME == 0
    ensures Aligned(|pcm|) == |pcm| && pcm[..Aligned(|pcm|)] == pcm && pcm[Aligned(|pcm|)..] == []
  {
  }

  // Too few samples for a frame: nothing is encoded, and they join the incomplete one.
  lemma BufferMore(pcm: Samples, more: Samples)
    requires |pcm| % FRAME + |more| < FRAME
    ensures var all := pcm + more;
            && |all| % FRAME == |pcm| % FRAME + |more|
            && all[..Aligned(|all|)] == pcm[..Aligned(|pcm|)]
            && all[Aligned(|all|)..] == pcm[Aligned(|pcm|)..] + more
  {
    assert |pcm + more| / FRAME == |pcm| / FRAME;
  }

  lemma KeepSame<S>(step: Step<S>, init: S, v: Stream, more: Samples)
    requires |v.pcm| % FRAME + |more| < FRAME
    ensures Emitted(step, init, Stream(v.base, v.pcm + more)) == Emitted(step, init, v)
    ensures Codec(step, init, Stream(v.base, v.pcm + more)) == Codec(step, init, v)
  {
    BufferMore(v.pcm, more);
  }

  // Exactly the missing samples: one more frame is encoded.
  lemma FrameComplete<S>(step: Step<S>, init: S, pcm: Samples, more: Samples)
    requires |pcm| % FRAME + |more| == FRAME
    ensures var all := pcm + more;
            var frame := pcm[Aligned(|pcm|)..] + more;
            var (s, out) := EncodeAll(step, init, pcm[..Aligned(|pcm|)]);
            && |frame| == FRAME && |all| % FRAME == 0
            && EncodeAll(step, init, all) == (step(s, frame).0, out + step(s, frame).1)
  {
    var all := pcm + more;
    assert |all| == Aligned(|pcm|) + FRAME;
    assert all[..|all| - FRAME] == pcm[..Aligned(|pcm|)];
    assert all[|all| - FRAME..] == pcm[Aligned(|pcm|)..] + more;
  }

  // ---------- any splitting ----------

  // However the samples are cut into Write calls, the stream is that of one Write of all of them.
  lemma {:induction false} SplitIndependent<S>(step: Step<S>, init: S, v: Stream, parts: seq<Samples>)
    ensures DoAll(step, init, v, Writes(parts)) == Stream(v.base, v.pcm + Concat(parts))
    decreases |parts|
  {
    if |parts| == 0 {
      assert v.pcm + [] == v.pcm;
    } else {
      var init', last := parts[..|parts| - 1], parts[|parts| - 1];
      SplitIndependent(step, init, v, init');
      assert Writes(parts)[..|parts| - 1] == Writes(init');
      assert v.pcm + Concat(init') + last == v.pcm + (Concat(init') + last);
    }
  }

  // Two splittings of the same samples leave the same bytes and the same codec state.
  lemma SameStream<S>(step: Step<S>, init: S, v: Stream, parts: seq<Samples>, parts': seq<Samples>)
    requires Concat(parts) == Concat(parts')
    ensures DoAll(step, init, v, Writes(parts)) == DoAll(step, init, v, Writes(parts'))
  {
    SplitIndependent(step, init, v, parts);
    SplitIndependent(step, init, v, parts');
  }

  // Any sequence of operations on one object leaves the bytes and the codec state of the stream they describe.
  method Play<S>(enc: Encoder<S>, ops: seq<Operation>)
    requires enc.Valid() && enc.hasSink
    modifies enc, enc.streamBuf
    ensures enc.Valid() && enc.view == DoAll(enc.step, enc.init, old(enc.view), ops)
    ensures enc.sink == Emitted(enc.step, enc.init, enc.view) && enc.codec == Codec(enc.step, enc.init, enc.view)
  {
    hide Emitted, Codec, Do;
    for i := 0 to |ops|
      invariant enc.Valid() && enc.view == DoAll(enc.step, enc.init, old(enc.view), ops[..i])
    {
      assert ops[..i + 1][..i] == ops[..i];
      match ops[i]
      case Write(samples) =>
        var consumed, err := enc.Write(samples);
      case Flush =>
        var err := enc.Flush();
      case Reset =>
        enc.Reset();
    }
    assert ops[..|ops|] == ops;
  }

  // A whole recording in pieces of any size, and a flush: the bytes are those of the padded recording.
  method EncodeStream<S>(step: Step<S>, init: S, parts: seq<Samples>) returns (codec: S, bytes: Bytes)
    ensures (codec, bytes) == EncodeAll(step, init, Padded(Concat(parts)))
  {
    hide EncodeAll;
    var enc := new Encoder(step, init, true);
    Play(enc, Writes(parts) + [Flush]);
    SplitIndependent(step, init, Stream([], []), parts);
    assert (Writes(parts) + [Flush])[..|parts|] == Writes(parts);
    assert [] + Concat(parts) == Concat(parts);
    var all := Padded(Concat(parts));
    assert enc.view == Stream([], all);
    AlignedWhole(all);
    codec, bytes := enc.codec, enc.sink;
    assert codec == EncodeAll(step, init, all).0;
    assert bytes == EncodeAll(step, init, all).1;
  }

  // No operation takes back a byte.
  lemma EmittedGrows<S>(step: Step<S>, init: S, v: Stream, op: Operation)
    ensures Emitted(step, init, v) <= Emitted(step, init, Do(step, init, v, op))
  {
    var v' := Do(step, init, v, op);
    if !op.Reset? {
      var whole := v'.pcm[..Aligned(|v'.pcm|)];
      var before := v.pcm[..Aligned(|v.pcm|)];
      AlignedMono(|v.pcm|, |v'.pcm|);
      assert v.pcm <= v'.pcm;
      assert before == whole[..|before|];
      PrefixEncoded(step, init, whole, |before|);
    }
  }

  lemma AlignedMono(m: nat, n: nat)
    requires m <= n
    ensures Aligned(m) <= Aligned(n)
  {
  }

  lemma MultiplesApart(m: nat, n: nat)
    requires m % FRAME == 0 && n % FRAME == 0 && m < n
    ensures m <= n - FRAME && (n - FRAME) % FRAME == 0
  {
  }

  lemma {:induction false} PrefixEncoded<S>(step: Step<S>, init: S, pcm: Samples, n: nat)
    requires |pcm| % FRAME == 0 && n % FRAME == 0 && n <= |pcm|
    ensures EncodeAll(step, init, pcm[..n]).1 <= EncodeAll(step, init, pcm).1
    decreases |pcm|
  {
    if n < |pcm| {
      var cut := |pcm| - FRAME;
      MultiplesApart(n, |pcm|);
      PrefixEncoded(step, init, pcm[..cut], n);
      assert pcm[..cut][..n] == pcm[..n];
    } else {
      assert pcm[..n] == pcm;
    }
  }
}
