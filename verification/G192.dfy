/** The ITU-T G.192 serial format (internal/bitstream/g192.go): one 16-bit little-endian word per bit behind
    a sync word and a length word. Files are byte strings. */
module G192 {
  import opened Fixed
  import opened Bits

  const SYNC_GOOD: U16 := 0x6B21
  const SYNC_BAD: U16 := 0x6B20
  const BIT1: U16 := 0x0081
  const BIT0: U16 := 0x007F
  const FRAME_BITS: nat := 80
  const G192_BYTES: nat := 164

  type Packed = f: seq<Byte> | |f| == 10 witness [0, 0, 0, 0, 0, 0, 0, 0, 0, 0]

  // ---------- writing ----------

  function WordBytes(w: U16): (b: seq<Byte>)
    ensures |b| == 2
  {
    [w % 256, w / 256]
  }

  function Word(buf: seq<Byte>, off: nat): U16
    requires off + 1 < |buf|
  {
    (buf[off] as int) + 256 * (buf[off + 1] as int)
  }

  function SoftBit(bit: bool): U16 {
    if bit then BIT1 else BIT0
  }

  function SoftBits(bits: seq<bool>): (b: seq<Byte>)
    ensures |b| == 2 * |bits|
  {
    if |bits| == 0 then [] else SoftBits(bits[..|bits| - 1]) + WordBytes(SoftBit(bits[|bits| - 1]))
  }

  function Header(bad: bool): (b: seq<Byte>)
    ensures |b| == 4
  {
    WordBytes(if bad then SYNC_BAD else SYNC_GOOD) + WordBytes(80)
  }

  function Written(frame: Packed, bad: bool): (b: seq<Byte>)
    ensures |b| == G192_BYTES
  {
    Header(bad) + SoftBits(BufferBits(frame))
  }

  datatype Serial = Serial(bytes: seq<Byte>) | TooShort

  method SoftBitOf(frame: Packed, i: nat) returns (word: U16)
    requires i < 80
    ensures word == SoftBit(BufferBits(frame)[i])
  {
    hide BufferBits, FieldBits;
    var byteIdx, bitIdx := i / 8, 7 - i % 8;
    word := BIT0;
    BufferBitAt(frame, i);
    if Shr(frame[byteIdx], bitIdx) % 2 == 1 {
      word := BIT1;
    }
  }

  lemma SoftStep(bits: seq<bool>, i: nat)
    requires i < |bits|
    ensures SoftBits(bits[..i + 1]) == SoftBits(bits[..i]) + WordBytes(SoftBit(bits[i]))
  {
    assert bits[..i + 1][..i] == bits[..i];
  }

  method WriteG192Frame(frame: seq<Byte>, bad: bool) returns (r: Serial)
    ensures r == if |frame| < 10 then TooShort else Serial(Written(frame[..10], bad))
  {
    if |frame| < 10 {
      return TooShort;
    }
    hide FieldBits;
    ghost var bits := BufferBits(frame[..10]);
    var out := Header(bad);
    assert bits[..0] == [];
    hide BufferBits, Header, WordBytes;
    for i := 0 to FRAME_BITS
      invariant out == Header(bad) + SoftBits(bits[..i])
    {
      var word := SoftBitOf(frame[..10], i);
      SoftStep(bits, i);
      out := out + WordBytes(word);
    }
    assert bits[..80] == bits;
    r := Serial(out);
  }

  // ---------- reading ----------

  datatype Read = Got(frame: Packed, bad: bool) | ShortOutput | EndOfFile | UnexpectedEof | BadSync | BadLength | BadBit

  predicate SoftValue(w: U16, lenient: bool) {
    w == BIT1 || w == BIT0 || (lenient && w == 0)
  }

  // All of the first n data words are softbits the policy accepts.
  predicate Accepted(buf: seq<Byte>, lenient: bool, n: nat)
    requires |buf| == G192_BYTES && n <= 80
  {
    forall i | 0 <= i < n :: SoftValue(Word(buf, 4 + 2 * i), lenient)
  }

  function HardBits(buf: seq<Byte>): (bits: seq<bool>)
    requires |buf| == G192_BYTES
    ensures |bits| == 80
  {
    seq(80, i requires 0 <= i < 80 => Word(buf, 4 + 2 * i) == BIT1)
  }

  predicate Blank(buf: seq<Byte>)
    requires |buf| == G192_BYTES
  {
    forall i | 0 <= i < 80 :: Word(buf, 4 + 2 * i) == 0
  }

  // One frame from its 164 bytes.
  function Parsed(buf: seq<Byte>, lenient: bool): Read
    requires |buf| == G192_BYTES
  {
    var sync := Word(buf, 0);
    if sync != SYNC_GOOD && sync != SYNC_BAD then BadSync
    else if Word(buf, 2) != 80 then BadLength
    else if !Accepted(buf, lenient, 80) then BadBit
    else Got(BytesOfBits(HardBits(buf)), sync == SYNC_BAD || (lenient && Blank(buf)))
  }

  // One frame from the front of what is left of the input.
  function ReadFrame(input: seq<Byte>, lenient: bool): Read {
    if |input| == 0 then EndOfFile
    else if |input| < G192_BYTES then UnexpectedEof
    else Parsed(input[..G192_BYTES], lenient)
  }

  // What has been set after n data words.
  predicate Collected(out: seq<Byte>, buf: seq<Byte>, n: nat)
    requires |buf| == G192_BYTES && n <= 80
  {
    |out| == 10 && forall i | 0 <= i < 80 :: BufferBits(out)[i] == (i < n && HardBits(buf)[i])
  }

  // The bits before the first word that is no softbit.
  ghost predicate Interrupted(out: seq<Byte>, buf: seq<Byte>, lenient: bool)
    requires |buf| == G192_BYTES
  {
    exists i: nat | i < 80 ::
      Accepted(buf, lenient, i) && !SoftValue(Word(buf, 4 + 2 * i), lenient) && Collected(out, buf, i)
  }

  // A destination that is too short is refused before anything is read. Of a longer one only the first ten
  // bytes are written: the frame, or what preceded a bad softbit; any other error leaves them alone.
  method ReadG192Frame(input: seq<Byte>, lenient: bool, frame: array<Byte>) returns (r: Read)
    modifies frame
    ensures r == if frame.Length < FRAME_BYTES then ShortOutput else ReadFrame(input, lenient)
    ensures r.Got? ==> frame[..FRAME_BYTES] == r.frame
    ensures r.BadBit? ==> Interrupted(frame[..FRAME_BYTES], input[..G192_BYTES], lenient)
    ensures if r.Got? || r.BadBit? then frame[FRAME_BYTES..] == old(frame[FRAME_BYTES..])
            else frame[..] == old(frame[..])
  {
    hide Accepted, HardBits, Blank, Collected, Word, Interrupted;
    if frame.Length < FRAME_BYTES {
      return ShortOutput;
    }
    if |input| == 0 {
      return EndOfFile;
    }
    if |input| < G192_BYTES {
      return UnexpectedEof;
    }
    var buf := input[..G192_BYTES];
    var sync := Word(buf, 0);
    var bad;
    if sync == SYNC_GOOD {
      bad := false;
    } else if sync == SYNC_BAD {
      bad := true;
    } else {
      return BadSync;
    }
    if Word(buf, 2) != 80 {
      return BadLength;
    }
    var ok, zeroSoftbits := CollectBits(buf, lenient, frame);
    if !ok {
      return BadBit;
    }
    CollectedAll(frame[..FRAME_BYTES], buf);
    if lenient && zeroSoftbits == FRAME_BITS {
      bad := true;
    }
    r := Got(frame[..FRAME_BYTES], bad);
  }

  lemma CollectedAll(out: seq<Byte>, buf: seq<Byte>)
    requires |buf| == G192_BYTES && Collected(out, buf, 80)
    ensures out == BytesOfBits(HardBits(buf))
  {
    BytesOfBuffer(out);
    assert BufferBits(out) == HardBits(buf);
  }

  method CollectBits(buf: seq<Byte>, lenient: bool, frame: array<Byte>) returns (ok: bool, zeroSoftbits: nat)
    requires |buf| == G192_BYTES && frame.Length >= FRAME_BYTES
    modifies frame
    ensures ok == Accepted(buf, lenient, 80)
    ensures ok ==> Collected(frame[..FRAME_BYTES], buf, 80) && (lenient ==> (zeroSoftbits == 80 <==> Blank(buf)))
    ensures !ok ==> Interrupted(frame[..FRAME_BYTES], buf, lenient)
    ensures frame[FRAME_BYTES..] == old(frame[FRAME_BYTES..])
  {
    hide Collected, Word;
    for i := 0 to FRAME_BYTES
      invariant forall j | 0 <= j < i :: frame[j] == 0
      invariant frame[FRAME_BYTES..] == old(frame[FRAME_BYTES..])
    {
      frame[i] := 0;
    }
    ClearCollected(frame[..FRAME_BYTES], buf);
    zeroSoftbits := 0;
    ok := true;
    for i := 0 to FRAME_BITS
      invariant Accepted(buf, lenient, i) && Collected(frame[..FRAME_BYTES], buf, i)
      invariant zeroSoftbits <= i && (zeroSoftbits == i <==> forall j | 0 <= j < i :: Word(buf, 4 + 2 * j) == 0)
      invariant frame[FRAME_BYTES..] == old(frame[FRAME_BYTES..])
    {
      var valid := CollectBit(buf, lenient, i, frame);
      if !valid {
        return false, 0;
      }
      if Word(buf, 4 + 2 * i) == 0 {
        zeroSoftbits := zeroSoftbits + 1;
      }
    }
  }

  // One data word.
  method CollectBit(buf: seq<Byte>, lenient: bool, i: nat, frame: array<Byte>) returns (valid: bool)
    requires |buf| == G192_BYTES && i < 80 && frame.Length >= FRAME_BYTES && Collected(frame[..FRAME_BYTES], buf, i)
    modifies frame
    ensures valid == SoftValue(Word(buf, 4 + 2 * i), lenient)
    ensures if valid then Collected(frame[..FRAME_BYTES], buf, i + 1) else frame[..] == old(frame[..])
    ensures frame[FRAME_BYTES..] == old(frame[FRAME_BYTES..])
  {
    hide Collected, Word;
    var word := Word(buf, 4 + 2 * i);
    if word == BIT1 {
      ghost var was := frame[..FRAME_BYTES];
      SetCollected(was, buf, i);
      frame[i / 8] := SetBit(frame[i / 8], 7 - i % 8);
      assert frame[..FRAME_BYTES] == was[i / 8 := SetBit(was[i / 8], 7 - i % 8)];
    } else if word == BIT0 {
      SkipCollected(frame[..FRAME_BYTES], buf, i);
    } else if word == 0 {
      if !lenient {
        return false;
      }
      SkipCollected(frame[..FRAME_BYTES], buf, i);
    } else {
      return false;
    }
    return true;
  }

  lemma ClearCollected(frame: seq<Byte>, buf: seq<Byte>)
    requires |buf| == G192_BYTES && |frame| == 10 && forall i | 0 <= i < 10 :: frame[i] == 0
    ensures Collected(frame, buf, 0)
  {
    AllZero(frame);
  }

  lemma SetCollected(out: seq<Byte>, buf: seq<Byte>, i: nat)
    requires |buf| == G192_BYTES && i < 80 && Collected(out, buf, i) && Word(buf, 4 + 2 * i) == BIT1
    ensures Collected(out[i / 8 := SetBit(out[i / 8], 7 - i % 8)], buf, i + 1)
  {
    SetBufferBit(out, i, SetBit(out[i / 8], 7 - i % 8));
  }

  lemma SkipCollected(out: seq<Byte>, buf: seq<Byte>, i: nat)
    requires |buf| == G192_BYTES && i < 80 && Collected(out, buf, i) && Word(buf, 4 + 2 * i) != BIT1
    ensures Collected(out, buf, i + 1)
  {
  }

  // ---------- files ----------

  datatype FileError = Complete | Truncated | BadFrame(reason: Read)
  datatype File = File(frames: seq<Packed>, bads: seq<bool>, end: FileError)

  function ReadFrom(data: seq<Byte>, frames: seq<Packed>, bads: seq<bool>): File
    decreases |data|
  {
    match ReadFrame(data, true)
    case EndOfFile => File(frames, bads, Complete)
    case UnexpectedEof => File(frames, bads, Truncated)
    case Got(frame, bad) => ReadFrom(data[G192_BYTES..], frames + [frame], bads + [bad])
    case other => File(frames, bads, BadFrame(other))
  }

  method ReadG192File(data: seq<Byte>) returns (f: File)
    ensures f == ReadFrom(data, [], [])
  {
    hide Parsed;
    var rest := data;
    var frames: seq<Packed>, bads := [], [];
    while true
      invariant ReadFrom(data, [], []) == ReadFrom(rest, frames, bads)
      decreases |rest|
    {
      var buffer := new Byte[FRAME_BYTES](_ => 0);
      var r := ReadG192Frame(rest, true, buffer);
      match r {
        case EndOfFile =>
          return File(frames, bads, Complete);
        case UnexpectedEof =>
          return File(frames, bads, Truncated);
        case Got(frame, bad) =>
          frames, bads := frames + [frame], bads + [bad];
          rest := rest[G192_BYTES..];
        case other =>
          return File(frames, bads, BadFrame(other));
      }
    }
  }

  function WriteAll(frames: seq<Packed>, bads: seq<bool>): seq<Byte>
    requires |frames| == |bads|
  {
    if |frames| == 0 then [] else Written(frames[0], bads[0]) + WriteAll(frames[1..], bads[1..])
  }

  // ---------- round trips ----------

  lemma {:induction false} SoftBitAt(bits: seq<bool>, i: nat)
    requires i < |bits|
    ensures SoftBits(bits)[2 * i] == SoftBit(bits[i]) % 256 && SoftBits(bits)[2 * i + 1] == SoftBit(bits[i]) / 256
    decreases |bits|
  {
    if i < |bits| - 1 {
      SoftBitAt(bits[..|bits| - 1], i);
    }
  }

  lemma WrittenWord(frame: Packed, bad: bool, i: nat)
    requires i < 80
    ensures Word(Written(frame, bad), 4 + 2 * i) == SoftBit(BufferBits(frame)[i])
  {
    hide BufferBits, SoftBits, Header;
    SoftBitAt(BufferBits(frame), i);
    var b, h := SoftBits(BufferBits(frame)), Header(bad);
    assert (h + b)[4 + 2 * i] == b[2 * i] && (h + b)[5 + 2 * i] == b[2 * i + 1];
  }

  lemma WrittenHeader(frame: Packed, bad: bool)
    ensures Word(Written(frame, bad), 0) == (if bad then SYNC_BAD else SYNC_GOOD)
    ensures Word(Written(frame, bad), 2) == 80
  {
    hide BufferBits, SoftBits;
  }

  // Either reader gets back exactly what was written.
  lemma FrameRoundTrip(frame: Packed, bad: bool, lenient: bool)
    ensures Parsed(Written(frame, bad), lenient) == Got(frame, bad)
  {
    hide BufferBits, Written, Word, BytesOfBits, HardBits;
    var buf := Written(frame, bad);
    WrittenHeader(frame, bad);
    WrittenBits(frame, bad, lenient);
    BytesOfBuffer(frame);
    WrittenWord(frame, bad, 0);
    NotBlank(buf, 0);
    assert Parsed(buf, lenient).Got?;
    assert Parsed(buf, lenient).frame == frame;
    assert Parsed(buf, lenient).bad == bad;
  }

  lemma WrittenBits(frame: Packed, bad: bool, lenient: bool)
    ensures Accepted(Written(frame, bad), lenient, 80)
    ensures HardBits(Written(frame, bad)) == BufferBits(frame)
  {
    hide BufferBits, Written, Word;
    var buf := Written(frame, bad);
    forall i | 0 <= i < 80
      ensures SoftValue(Word(buf, 4 + 2 * i), lenient) && HardBits(buf)[i] == BufferBits(frame)[i]
    {
      WrittenWord(frame, bad, i);
    }
    assert HardBits(buf) == BufferBits(frame);
  }

  lemma NotBlank(buf: seq<Byte>, i: nat)
    requires |buf| == G192_BYTES && i < 80 && Word(buf, 4 + 2 * i) != 0
    ensures !Blank(buf)
  {
  }

  // The strict reader accepts nothing but written frames.
  lemma StrictIsWritten(buf: seq<Byte>)
    requires |buf| == G192_BYTES
    ensures var r := Parsed(buf, false);
            r.Got? ==> buf == Written(r.frame, r.bad)
  {
    hide BufferBits, Written, BytesOfBits;
    var r := Parsed(buf, false);
    if r.Got? {
      BufferOfBytes(HardBits(buf));
      WrittenHeader(r.frame, r.bad);
      forall k | 0 <= k < G192_BYTES
        ensures buf[k] == Written(r.frame, r.bad)[k]
      {
        if k >= 4 {
          var i := (k - 4) / 2;
          WrittenWord(r.frame, r.bad, i);
          assert SoftValue(Word(buf, 4 + 2 * i), false);
          SameWord(buf, Written(r.frame, r.bad), 4 + 2 * i);
        } else {
          SameWord(buf, Written(r.frame, r.bad), k / 2 * 2);
        }
      }
    }
  }

  lemma SameWord(x: seq<Byte>, y: seq<Byte>, off: nat)
    requires |x| == |y| && off + 1 < |x| && Word(x, off) == Word(y, off)
    ensures x[off] == y[off] && x[off + 1] == y[off + 1]
  {
  }

  lemma {:induction false} FileRoundTripFrom(frames: seq<Packed>, bads: seq<bool>, tail: seq<Byte>,
                                             done: seq<Packed>, flags: seq<bool>)
    requires |frames| == |bads| && |tail| < G192_BYTES
    ensures ReadFrom(WriteAll(frames, bads) + tail, done, flags)
            == File(done + frames, flags + bads, if |tail| == 0 then Complete else Truncated)
    decreases |frames|
  {
    hide Parsed, Written;
    if |frames| == 0 {
      assert WriteAll(frames, bads) + tail == tail && done + frames == done && flags + bads == flags;
    } else {
      var first, rest := Written(frames[0], bads[0]), WriteAll(frames[1..], bads[1..]);
      var data := first + rest + tail;
      assert WriteAll(frames, bads) + tail == data;
      assert data[..G192_BYTES] == first && data[G192_BYTES..] == rest + tail;
      FrameRoundTrip(frames[0], bads[0], true);
      FileRoundTripFrom(frames[1..], bads[1..], tail, done + [frames[0]], flags + [bads[0]]);
      assert done + [frames[0]] + frames[1..] == done + frames;
      assert flags + [bads[0]] + bads[1..] == flags + bads;
    }
  }

  // A file of written frames reads back as those frames and flags; a cut-off last frame is reported
  // after everything before it has been returned.
  lemma FileRoundTrip(frames: seq<Packed>, bads: seq<bool>, tail: seq<Byte>)
    requires |frames| == |bads| && |tail| < G192_BYTES
    ensures ReadFrom(WriteAll(frames, bads) + tail, [], [])
            == File(frames, bads, if |tail| == 0 then Complete else Truncated)
  {
    FileRoundTripFrom(frames, bads, tail, [], []);
    assert [] + frames == frames && [] + bads == bads;
  }
}
