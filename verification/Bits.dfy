/** The 80-bit frame: MSB-first bit writer and reader (internal/bitstream/bitio.go) and the
    fifteen-field layout of Table 8 (internal/bitstream/pack.go). */
module Bits {
  import opened Fixed

  type U16 = x: int | 0 <= x < 0x1_0000

  const FRAME_BYTES: nat := 10

  // ---------- bit strings and numbers ----------

  // The low `n` bits of `v`, most significant first.
  function FieldBits(v: nat, n: nat): (bits: seq<bool>)
    ensures |bits| == n
  {
    if n == 0 then [] else FieldBits(v / 2, n - 1) + [v % 2 == 1]
  }

  function FromBits(bits: seq<bool>): nat {
    if |bits| == 0 then 0
    else 2 * FromBits(bits[..|bits| - 1]) + (if bits[|bits| - 1] then 1 else 0)
  }

  lemma {:induction false} FromFieldBits(v: nat, n: nat)
    ensures FromBits(FieldBits(v, n)) == v % Pow2(n)
  {
    if n > 0 {
      FromFieldBits(v / 2, n - 1);
      var bits := FieldBits(v, n);
      assert bits[..n - 1] == FieldBits(v / 2, n - 1);
      DivHalf(v, Pow2(n - 1));
    }
  }

  lemma {:induction false} FieldFromBits(bits: seq<bool>)
    ensures FromBits(bits) < Pow2(|bits|)
    ensures FieldBits(FromBits(bits), |bits|) == bits
  {
    if |bits| > 0 {
      var init := bits[..|bits| - 1];
      FieldFromBits(init);
      assert bits == init + [bits[|bits| - 1]];
    }
  }

  lemma {:induction false} FieldBitAt(v: nat, n: nat, j: nat)
    requires j < n
    ensures FieldBits(v, n)[j] == (Shr(v, n - 1 - j) % 2 == 1)
  {
    if j < n - 1 {
      FieldBitAt(v / 2, n - 1, j);
      DivHalf(v, Pow2(n - 2 - j));
    }
  }

  // ---------- the buffer as a bit string ----------

  function BitsOfBytes(buf: seq<Byte>): (bits: seq<bool>)
    ensures |bits| == 8 * |buf|
  {
    if |buf| == 0 then [] else FieldBits(buf[0], 8) + BitsOfBytes(buf[1..])
  }

  function BufferBits(buf: seq<Byte>): (bits: seq<bool>)
    ensures |bits| == 8 * |buf|
  {
    BitsOfBytes(buf)
  }

  function BytesOfBits(bits: seq<bool>): (buf: seq<Byte>)
    requires |bits| % 8 == 0
    ensures 8 * |buf| == |bits|
  {
    if |bits| == 0 then []
    else
      EightBits(bits[..8]);
      [FromBits(bits[..8])] + BytesOfBits(bits[8..])
  }

  lemma EightBits(bits: seq<bool>)
    requires |bits| == 8
    ensures FromBits(bits) < 256
  {
    hide FromBits;
    FieldFromBits(bits);
    assert Pow2(8) == 256 by { Pow2Values(); }
  }

  lemma {:induction false} BufferOfBytes(bits: seq<bool>)
    requires |bits| % 8 == 0
    ensures BufferBits(BytesOfBits(bits)) == bits
  {
    hide FieldBits, FromBits;
    if |bits| > 0 {
      FieldFromBits(bits[..8]);
      BufferOfBytes(bits[8..]);
      assert BytesOfBits(bits)[1..] == BytesOfBits(bits[8..]);
      assert bits == bits[..8] + bits[8..];
    }
  }

  lemma BytesCons(byte: seq<bool>, rest: seq<bool>)
    requires |byte| == 8 && |rest| % 8 == 0
    ensures BytesOfBits(byte + rest) == [FromBits(byte)] + BytesOfBits(rest)
  {
    SplitAppend(byte, rest);
  }

  lemma OneByte(b: Byte)
    ensures FromBits(FieldBits(b, 8)) == b
  {
    hide FieldBits, FromBits;
    FromFieldBits(b, 8);
    assert Pow2(8) == 256 by { Pow2Values(); }
  }

  lemma NoBytes()
    ensures BytesOfBits([]) == []
  {
  }

  lemma {:induction false} BytesOfBuffer(buf: seq<Byte>)
    ensures BytesOfBits(BufferBits(buf)) == buf
  {
    hide FieldBits, FromBits, BytesOfBits;
    if |buf| == 0 {
      NoBytes();
    } else {
      OneByte(buf[0]);
      BytesOfBuffer(buf[1..]);
      BytesCons(FieldBits(buf[0], 8), BufferBits(buf[1..]));
      assert BufferBits(buf) == FieldBits(buf[0], 8) + BufferBits(buf[1..]);
    }
  }

  lemma {:induction false} BufferBitAt(buf: seq<Byte>, pos: nat)
    requires pos < 8 * |buf|
    ensures BufferBits(buf)[pos] == FieldBits(buf[pos / 8], 8)[pos % 8]
    ensures BufferBits(buf)[pos] == (Shr(buf[pos / 8], 7 - pos % 8) % 2 == 1)
  {
    hide FieldBits, Shr;
    FieldBitAt(buf[pos / 8], 8, pos % 8);
    if pos >= 8 {
      BufferBitAt(buf[1..], pos - 8);
      assert buf[1..][(pos - 8) / 8] == buf[pos / 8];
    }
  }

  lemma SplitAppend(a: seq<bool>, b: seq<bool>)
    ensures (a + b)[..|a|] == a && (a + b)[|a|..] == b
  {
  }

  // Setting one bit with `|=` : the bit is added only if it is not there yet.
  function OrBit(b: nat, k: nat): nat {
    if Shr(b, k) % 2 == 1 then b else b + Pow2(k)
  }

  function SetBit(b: Byte, k: nat): (r: Byte)
    requires k < 8
    ensures FieldBits(r, 8) == FieldBits(b, 8)[7 - k := true]
  {
    Pow2Values();
    OrBitBits(b, 8, k);
    OrBit(b, k)
  }

  lemma OrBitHalf(b: nat, k: nat)
    requires k > 0
    ensures OrBit(b, k) / 2 == OrBit(b / 2, k - 1) && OrBit(b, k) % 2 == b % 2
  {
    DivHalf(b, Pow2(k - 1));
    assert Shr(b, k) == Shr(b / 2, k - 1);
  }

  lemma {:induction false} OrBitBits(b: nat, n: nat, k: nat)
    requires k < n && b < Pow2(n)
    ensures OrBit(b, k) < Pow2(n)
    ensures FieldBits(OrBit(b, k), n) == FieldBits(b, n)[n - 1 - k := true]
  {
    var r := OrBit(b, k);
    if k == 0 {
      assert Pow2(0) == 1 && Shr(b, 0) == b;
      assert r / 2 == b / 2 && r % 2 == 1;
    } else {
      Pow2Step(n - 1);
      OrBitBits(b / 2, n - 1, k - 1);
      OrBitHalf(b, k);
      LowBitApart(r, n);
      LowBitApart(b, n);
      hide OrBit, Shr, Pow2, FieldBits;
      SetInFront(FieldBits(b / 2, n - 1), b % 2 == 1, n - 1 - k);
    }
  }

  lemma LowBitApart(v: nat, n: nat)
    requires n > 0
    ensures FieldBits(v, n) == FieldBits(v / 2, n - 1) + [v % 2 == 1]
  {
  }

  lemma SetInFront(s: seq<bool>, last: bool, i: nat)
    requires i < |s|
    ensures (s + [last])[i := true] == s[i := true] + [last]
  {
  }

  lemma SetBufferBit(buf: seq<Byte>, pos: nat, b: Byte)
    requires pos < 8 * |buf|
    requires FieldBits(b, 8) == FieldBits(buf[pos / 8], 8)[pos % 8 := true]
    ensures BufferBits(buf[pos / 8 := b]) == BufferBits(buf)[pos := true]
  {
    var buf' := buf[pos / 8 := b];
    forall i | 0 <= i < 8 * |buf|
      ensures BufferBits(buf')[i] == BufferBits(buf)[pos := true][i]
    {
      BufferBitAt(buf', i);
      BufferBitAt(buf, i);
    }
  }

  // ---------- writer ----------

  // `bits` with the set bits of `field` added from `pos` on; nothing is cleared, and what would
  // land past the end is dropped.
  function Overlay(bits: seq<bool>, pos: nat, field: seq<bool>): (r: seq<bool>)
    ensures |r| == |bits|
  {
    seq(|bits|, i requires 0 <= i < |bits| => bits[i] || (pos <= i < pos + |field| && field[i - pos]))
  }

  lemma OverlayStep(bits: seq<bool>, pos: nat, field: seq<bool>, b: bool)
    ensures var r := Overlay(bits, pos, field);
            Overlay(bits, pos, field + [b])
            == if b && pos + |field| < |bits| then r[pos + |field| := true] else r
  {
  }

  lemma OverlayNothing(bits: seq<bool>, pos: nat, field: seq<bool>)
    ensures Overlay(bits, pos, field[..0]) == bits
  {
  }

  lemma WriteStep(bits: seq<bool>, pos: nat, value: nat, n: nat, k: nat)
    requires k < n
    ensures var field, r := FieldBits(value, n), Overlay(bits, pos, FieldBits(value, n)[..k]);
            Overlay(bits, pos, field[..k + 1])
            == if Shr(value, n - 1 - k) % 2 == 1 && pos + k < |bits| then r[pos + k := true] else r
  {
    hide Overlay, FieldBits;
    var field := FieldBits(value, n);
    FieldBitAt(value, n, k);
    OverlayStep(bits, pos, field[..k], field[k]);
    assert field[..k + 1] == field[..k] + [field[k]];
  }

  function Zeros(n: nat): (bits: seq<bool>)
    ensures |bits| == n
  {
    seq(n, _ => false)
  }

  lemma OverlayZeros(done: seq<bool>, field: seq<bool>, m: nat)
    requires |field| <= m
    ensures Overlay(done + Zeros(m), |done|, field) == (done + field) + Zeros(m - |field|)
  {
  }

  class BitWriter {
    const buf: array<Byte>
    const len: nat
    var bitPos: nat
    ghost var bits: seq<bool>

    ghost predicate Valid()
      reads this, buf
    {
      len <= buf.Length && bits == BufferBits(buf[..len])
    }

    constructor (out: array<Byte>, n: nat)
      requires n <= out.Length
      ensures Valid() && buf == out && len == n && bitPos == 0
      ensures bits == BufferBits(out[..n])
    {
      buf, len, bitPos := out, n, 0;
      bits := BufferBits(out[..n]);
    }

    // One turn of the loop in Write.
    method PutBit(bit: bool)
      requires Valid()
      modifies this`bitPos, this`bits, buf
      ensures Valid() && bitPos == old(bitPos) + 1
      ensures buf[len..] == old(buf[len..])
      ensures bits == if bit && old(bitPos) < 8 * len then old(bits)[old(bitPos) := true] else old(bits)
    {
      if bit {
        var byteIdx := bitPos / 8;
        var bitIdx := 7 - bitPos % 8;
        if byteIdx < len {
          ghost var was := buf[..len];
          SetBufferBit(was, bitPos, SetBit(was[byteIdx], bitIdx));
          buf[byteIdx] := SetBit(buf[byteIdx], bitIdx);
          assert buf[..len] == was[byteIdx := buf[byteIdx]];
          bits := bits[bitPos := true];
        }
      }
      bitPos := bitPos + 1;
    }

    method Write(value: U16, n: nat)
      requires Valid()
      modifies this`bitPos, this`bits, buf
      ensures Valid() && bitPos == old(bitPos) + n
      ensures buf[len..] == old(buf[len..])
      ensures bits == Overlay(old(bits), old(bitPos), FieldBits(value, n))
    {
      hide Overlay, FieldBits, Shr, SetBit;
      ghost var field, start := FieldBits(value, n), bitPos;
      OverlayNothing(bits, start, field);
      var i := n;
      while i > 0
        invariant 0 <= i <= n && Valid()
        invariant bitPos == start + (n - i)
        invariant buf[len..] == old(buf[len..])
        invariant bits == Overlay(old(bits), start, field[..n - i])
      {
        WriteStep(old(bits), start, value, n, n - i);
        PutBit(Shr(value, i - 1) % 2 == 1);
        i := i - 1;
      }
      assert field[..n] == field;
    }
  }

  // ---------- reader ----------

  // Bits [pos, pos + n) of the string, with zeros past its end.
  function Window(bits: seq<bool>, pos: nat, n: nat): (w: seq<bool>)
    ensures |w| == n
  {
    seq(n, i requires 0 <= i < n => if pos + i < |bits| then bits[pos + i] else false)
  }

  function ReadField(bits: seq<bool>, pos: nat, n: nat): U16 {
    FromBits(Window(bits, pos, n)) % 0x1_0000
  }

  lemma ReadFieldInside(bits: seq<bool>, pos: nat, n: nat)
    requires pos + n <= |bits| && n <= 16
    ensures ReadField(bits, pos, n) == FromBits(bits[pos..pos + n]) < Pow2(n)
    ensures FieldBits(ReadField(bits, pos, n), n) == bits[pos..pos + n]
  {
    var w := bits[pos..pos + n];
    assert Window(bits, pos, n) == w;
    assert FromBits(w) < Pow2(n) <= 0x1_0000 && FieldBits(FromBits(w), n) == w by {
      FieldFromBits(w);
      Pow2Mono(n, 16);
      Pow2Values();
    }
    ModUnique(FromBits(w), 0x1_0000, 0, FromBits(w));
  }

  class BitReader {
    const buf: array<Byte>
    const len: nat
    var bitPos: nat
    ghost const bits: seq<bool>

    ghost predicate Valid()
      reads this, buf
    {
      len <= buf.Length && bits == BufferBits(buf[..len])
    }

    constructor (source: array<Byte>, n: nat)
      requires n <= source.Length
      ensures Valid() && buf == source && len == n && bitPos == 0
      ensures bits == BufferBits(source[..n])
    {
      buf, len, bitPos := source, n, 0;
      bits := BufferBits(source[..n]);
    }

    // One turn of the loop in Read.
    method NextBit() returns (bit: nat)
      requires Valid()
      modifies this`bitPos
      ensures bitPos == old(bitPos) + 1
      ensures bit == if old(bitPos) < 8 * len && bits[old(bitPos)] then 1 else 0
    {
      var byteIdx := bitPos / 8;
      var bitIdx := 7 - bitPos % 8;
      bit := 0;
      if byteIdx < len {
        BufferBitAt(buf[..len], bitPos);
        bit := Shr(buf[byteIdx], bitIdx) % 2;
      }
      bitPos := bitPos + 1;
    }

    method Read(n: nat) returns (out: U16)
      requires Valid()
      modifies this`bitPos
      ensures bitPos == old(bitPos) + n
      ensures out == ReadField(bits, old(bitPos), n)
    {
      ghost var start := bitPos;
      ghost var window := Window(bits, start, n);
      out := 0;
      var i := 0;
      while i < n
        invariant 0 <= i <= n
        invariant bitPos == start + i
        invariant out == FromBits(window[..i]) % 0x1_0000
      {
        var bit := NextBit();
        AppendBit(window, i);
        DoubleMod(FromBits(window[..i]), bit, 0x1_0000);
        out := (2 * out + bit) % 0x1_0000;
        i := i + 1;
      }
      assert window[..n] == window;
    }
  }

  lemma DoubleMod(x: nat, bit: nat, m: nat)
    requires m >= 1
    ensures (2 * (x % m) + bit) % m == (2 * x + bit) % m
  {
    var a := 2 * (x % m) + bit;
    assert 2 * x + bit == (a / m + 2 * (x / m)) * m + a % m;
    ModUnique(2 * x + bit, m, a / m + 2 * (x / m), a % m);
  }

  lemma AppendBit(bits: seq<bool>, i: nat)
    requires i < |bits|
    ensures FromBits(bits[..i + 1]) == 2 * FromBits(bits[..i]) + (if bits[i] then 1 else 0)
  {
    assert bits[..i + 1][..i] == bits[..i];
  }

  // ---------- the frame ----------

  datatype Frame = Frame(
    L0: U16, L1: U16, L2: U16, L3: U16,
    P1: U16, P0: U16, C1: U16, S1: U16, GA1: U16, GB1: U16,
    P2: U16, C2: U16, S2: U16, GA2: U16, GB2: U16)

  const FIELDS: nat := 15

  // Field k in transmission order.
  function Value(f: Frame, k: nat): U16 {
    if k == 0 then f.L0
    else if k == 1 then f.L1
    else if k == 2 then f.L2
    else if k == 3 then f.L3
    else if k == 4 then f.P1
    else if k == 5 then f.P0
    else if k == 6 then f.C1
    else if k == 7 then f.S1
    else if k == 8 then f.GA1
    else if k == 9 then f.GB1
    else if k == 10 then f.P2
    else if k == 11 then f.C2
    else if k == 12 then f.S2
    else if k == 13 then f.GA2
    else f.GB2
  }

  function Width(k: nat): (w: nat)
    ensures w <= 13
  {
    if k == 0 || k == 5 then 1
    else if k == 1 then 7
    else if k == 2 || k == 3 || k == 10 then 5
    else if k == 4 then 8
    else if k == 6 || k == 11 then 13
    else if k == 8 || k == 13 then 3
    else 4
  }

  // Where field k starts; 80 past the last one.
  function Offset(k: nat): (o: nat)
    ensures o <= 80
  {
    if k == 0 then 0
    else if k == 1 then 1
    else if k == 2 then 8
    else if k == 3 then 13
    else if k == 4 then 18
    else if k == 5 then 26
    else if k == 6 then 27
    else if k == 7 then 40
    else if k == 8 then 44
    else if k == 9 then 47
    else if k == 10 then 51
    else if k == 11 then 56
    else if k == 12 then 69
    else if k == 13 then 73
    else if k == 14 then 76
    else 80
  }

  lemma OffsetStep(k: nat)
    requires k < FIELDS
    ensures Offset(k + 1) == Offset(k) + Width(k)
  {
  }

  // The first k fields on the wire.
  function FieldString(f: Frame, k: nat): (bits: seq<bool>)
    requires k <= FIELDS
    decreases k
    ensures |bits| == Offset(k)
  {
    if k == 0 then []
    else
      OffsetStep(k - 1);
      FieldString(f, k - 1) + FieldBits(Value(f, k - 1), Width(k - 1))
  }

  function FrameBits(f: Frame): (bits: seq<bool>)
    ensures |bits| == 80
  {
    FieldString(f, FIELDS)
  }

  // Field k of the wire layout.
  function WireField(bits: seq<bool>, k: nat): U16 {
    ReadField(bits, Offset(k), Width(k))
  }

  function ParseFrame(bits: seq<bool>): Frame
    requires |bits| == 80
  {
    Frame(WireField(bits, 0), WireField(bits, 1), WireField(bits, 2), WireField(bits, 3),
          WireField(bits, 4), WireField(bits, 5), WireField(bits, 6), WireField(bits, 7),
          WireField(bits, 8), WireField(bits, 9),
          WireField(bits, 10), WireField(bits, 11), WireField(bits, 12),
          WireField(bits, 13), WireField(bits, 14))
  }

  // The frame with every field cut to its width on the wire.
  function Masked(f: Frame): Frame {
    Frame(f.L0 % 2, f.L1 % 128, f.L2 % 32, f.L3 % 32,
          f.P1 % 256, f.P0 % 2, f.C1 % 8192, f.S1 % 16, f.GA1 % 8, f.GB1 % 16,
          f.P2 % 32, f.C2 % 8192, f.S2 % 16, f.GA2 % 8, f.GB2 % 16)
  }

  function PackBytes(f: Frame): (out: seq<Byte>)
    ensures |out| == FRAME_BYTES
  {
    BytesOfBits(FrameBits(f))
  }

  function UnpackBytes(bytes: seq<Byte>): Frame
    requires |bytes| == FRAME_BYTES
  {
    ParseFrame(BufferBits(bytes))
  }

  lemma {:induction false} FieldStringAt(f: Frame, n: nat, k: nat, j: nat)
    requires k < n <= FIELDS && j < Width(k)
    ensures Offset(k) + j < Offset(n)
    ensures FieldString(f, n)[Offset(k) + j] == FieldBits(Value(f, k), Width(k))[j]
  {
    hide Offset, Width, Value, FieldBits;
    OffsetStep(n - 1);
    var head, field := FieldString(f, n - 1), FieldBits(Value(f, n - 1), Width(n - 1));
    assert FieldString(f, n) == head + field;
    if k < n - 1 {
      FieldStringAt(f, n - 1, k, j);
      AppendAt(head, field, Offset(k) + j);
    } else {
      AppendAt(head, field, Offset(k) + j);
    }
  }

  lemma AppendAt(a: seq<bool>, b: seq<bool>, i: nat)
    requires i < |a| + |b|
    ensures (a + b)[i] == if i < |a| then a[i] else b[i - |a|]
  {
  }

  lemma ParseField(f: Frame, k: nat, m: nat)
    requires k < FIELDS && m == Pow2(Width(k))
    ensures WireField(FrameBits(f), k) == Value(f, k) % m
  {
    hide Offset, Width, Value, FieldBits, FieldString, FromBits, ReadField;
    var bits, field := FrameBits(f), FieldBits(Value(f, k), Width(k));
    OffsetStep(k);
    forall j | 0 <= j < Width(k)
      ensures bits[Offset(k) + j] == field[j]
    {
      FieldStringAt(f, FIELDS, k, j);
    }
    assert bits[Offset(k)..Offset(k) + Width(k)] == field;
    ReadFieldInside(bits, Offset(k), Width(k));
    FromFieldBits(Value(f, k), Width(k));
  }

  lemma ParseFrameBits(f: Frame)
    ensures ParseFrame(FrameBits(f)) == Masked(f)
  {
    hide WireField, FrameBits, Pow2;
    Pow2Values();
    ParseField(f, 0, 2);
    ParseField(f, 1, 128);
    ParseField(f, 2, 32);
    ParseField(f, 3, 32);
    ParseField(f, 4, 256);
    ParseField(f, 5, 2);
    ParseField(f, 6, 8192);
    ParseField(f, 7, 16);
    ParseField(f, 8, 8);
    ParseField(f, 9, 16);
    ParseField(f, 10, 32);
    ParseField(f, 11, 8192);
    ParseField(f, 12, 16);
    ParseField(f, 13, 8);
    ParseField(f, 14, 16);
  }

  lemma ParseFieldBits(bits: seq<bool>, k: nat)
    requires |bits| == 80 && k < FIELDS
    ensures Offset(k) + Width(k) == Offset(k + 1)
    ensures FieldBits(Value(ParseFrame(bits), k), Width(k)) == bits[Offset(k)..Offset(k + 1)]
  {
    OffsetStep(k);
    assert Value(ParseFrame(bits), k) == WireField(bits, k);
    ReadFieldInside(bits, Offset(k), Width(k));
  }

  lemma {:induction false} FieldStringOfParse(bits: seq<bool>, k: nat)
    requires |bits| == 80 && k <= FIELDS
    ensures FieldString(ParseFrame(bits), k) == bits[..Offset(k)]
  {
    if k > 0 {
      FieldStringOfParse(bits, k - 1);
      ParseFieldBits(bits, k - 1);
      SliceJoin(bits, Offset(k - 1), Offset(k));
    }
  }

  lemma SliceJoin(bits: seq<bool>, a: nat, b: nat)
    requires a <= b <= |bits|
    ensures bits[..a] + bits[a..b] == bits[..b]
  {
  }

  // Reading back a packed frame gives each field cut to its width.
  lemma UnpackPack(f: Frame)
    ensures UnpackBytes(PackBytes(f)) == Masked(f)
  {
    BufferOfBytes(FrameBits(f));
    ParseFrameBits(f);
  }

  // Every ten bytes are the image of the frame they unpack to.
  lemma PackUnpack(bytes: seq<Byte>)
    requires |bytes| == FRAME_BYTES
    ensures PackBytes(UnpackBytes(bytes)) == bytes
  {
    var bits := BufferBits(bytes);
    FieldStringOfParse(bits, FIELDS);
    assert bits[..80] == bits;
    BytesOfBuffer(bytes);
  }

  datatype PackError = ErrNone | ErrShortOutput
  datatype Unpacked = Unpacked(frame: Frame) | ErrShortInput

  // The buffer after k fields: those fields, then zeros.
  function Wire(f: Frame, k: nat): (bits: seq<bool>)
    requires k <= FIELDS
    ensures |bits| == 80
  {
    FieldString(f, k) + Zeros(80 - Offset(k))
  }

  lemma WriteField(f: Frame, k: nat)
    requires k < FIELDS
    ensures Overlay(Wire(f, k), Offset(k), FieldBits(Value(f, k), Width(k))) == Wire(f, k + 1)
  {
    OffsetStep(k);
    OverlayZeros(FieldString(f, k), FieldBits(Value(f, k), Width(k)), 80 - Offset(k));
  }

  lemma BytesFromBits(buf: seq<Byte>, f: Frame)
    requires BufferBits(buf) == FrameBits(f)
    ensures buf == PackBytes(f)
  {
    BytesOfBuffer(buf);
  }

  // One w.Write of Pack.
  method PackField(w: BitWriter, ghost f: Frame, ghost k: nat, value: U16, n: nat)
    requires w.Valid() && k < FIELDS && value == Value(f, k) && n == Width(k)
    requires w.bits == Wire(f, k) && w.bitPos == Offset(k)
    modifies w`bitPos, w`bits, w.buf
    ensures w.Valid() && w.bits == Wire(f, k + 1) && w.bitPos == Offset(k + 1)
    ensures w.buf[w.len..] == old(w.buf[w.len..])
  {
    w.Write(value, n);
    WriteField(f, k);
  }

  method PackLsp(w: BitWriter, f: Frame)
    requires w.Valid() && w.bits == Wire(f, 0) && w.bitPos == Offset(0)
    modifies w`bitPos, w`bits, w.buf
    ensures w.Valid() && w.bits == Wire(f, 4) && w.bitPos == Offset(4)
    ensures w.buf[w.len..] == old(w.buf[w.len..])
  {
    PackField(w, f, 0, f.L0, 1);
    PackField(w, f, 1, f.L1, 7);
    PackField(w, f, 2, f.L2, 5);
    PackField(w, f, 3, f.L3, 5);
  }

  method PackSubframe1(w: BitWriter, f: Frame)
    requires w.Valid() && w.bits == Wire(f, 4) && w.bitPos == Offset(4)
    modifies w`bitPos, w`bits, w.buf
    ensures w.Valid() && w.bits == Wire(f, 10) && w.bitPos == Offset(10)
    ensures w.buf[w.len..] == old(w.buf[w.len..])
  {
    PackField(w, f, 4, f.P1, 8);
    PackField(w, f, 5, f.P0, 1);
    PackField(w, f, 6, f.C1, 13);
    PackField(w, f, 7, f.S1, 4);
    PackField(w, f, 8, f.GA1, 3);
    PackField(w, f, 9, f.GB1, 4);
  }

  method PackSubframe2(w: BitWriter, f: Frame)
    requires w.Valid() && w.bits == Wire(f, 10) && w.bitPos == Offset(10)
    modifies w`bitPos, w`bits, w.buf
    ensures w.Valid() && w.bits == Wire(f, 15) && w.bitPos == Offset(15)
    ensures w.buf[w.len..] == old(w.buf[w.len..])
  {
    PackField(w, f, 10, f.P2, 5);
    PackField(w, f, 11, f.C2, 13);
    PackField(w, f, 12, f.S2, 4);
    PackField(w, f, 13, f.GA2, 3);
    PackField(w, f, 14, f.GB2, 4);
  }

  method Pack(f: Frame, out: array<Byte>) returns (err: PackError)
    modifies out
    ensures err == if out.Length < FRAME_BYTES then ErrShortOutput else ErrNone
    ensures err == ErrShortOutput ==> out[..] == old(out[..])
    ensures err == ErrNone ==>
      out[..FRAME_BYTES] == PackBytes(f) && out[FRAME_BYTES..] == old(out[FRAME_BYTES..])
  {
    if out.Length < FRAME_BYTES {
      return ErrShortOutput;
    }
    for i := 0 to FRAME_BYTES
      invariant forall j | 0 <= j < i :: out[j] == 0
      invariant out[FRAME_BYTES..] == old(out[FRAME_BYTES..])
    {
      out[i] := 0;
    }
    var w := new BitWriter(out, FRAME_BYTES);
    AllZero(out[..FRAME_BYTES]);
    assert w.bits == Wire(f, 0);
    PackLsp(w, f);
    PackSubframe1(w, f);
    PackSubframe2(w, f);
    BytesFromBits(out[..FRAME_BYTES], f);
    err := ErrNone;
  }

  lemma AllZero(buf: seq<Byte>)
    requires forall i | 0 <= i < |buf| :: buf[i] == 0
    ensures BufferBits(buf) == Zeros(8 * |buf|)
  {
    forall i | 0 <= i < 8 * |buf|
      ensures !BufferBits(buf)[i]
    {
      BufferBitAt(buf, i);
    }
  }

  // One r.Read of Unpack.
  method UnpackField(r: BitReader, ghost k: nat, n: nat) returns (v: U16)
    requires r.Valid() && k < FIELDS && r.bitPos == Offset(k) && n == Width(k)
    modifies r`bitPos
    ensures r.bitPos == Offset(k + 1)
    ensures v == WireField(r.bits, k)
  {
    OffsetStep(k);
    v := r.Read(n);
  }

  method UnpackLsp(r: BitReader) returns (l0: U16, l1: U16, l2: U16, l3: U16)
    requires r.Valid() && r.bitPos == Offset(0)
    modifies r`bitPos
    ensures r.bitPos == Offset(4)
    ensures l0 == WireField(r.bits, 0)
    ensures l1 == WireField(r.bits, 1)
    ensures l2 == WireField(r.bits, 2)
    ensures l3 == WireField(r.bits, 3)
  {
    l0 := UnpackField(r, 0, 1);
    l1 := UnpackField(r, 1, 7);
    l2 := UnpackField(r, 2, 5);
    l3 := UnpackField(r, 3, 5);
  }

  method UnpackSubframe1(r: BitReader) returns (p1: U16, p0: U16, c1: U16, s1: U16, ga1: U16, gb1: U16)
    requires r.Valid() && r.bitPos == Offset(4)
    modifies r`bitPos
    ensures r.bitPos == Offset(10)
    ensures p1 == WireField(r.bits, 4)
    ensures p0 == WireField(r.bits, 5)
    ensures c1 == WireField(r.bits, 6)
    ensures s1 == WireField(r.bits, 7)
    ensures ga1 == WireField(r.bits, 8)
    ensures gb1 == WireField(r.bits, 9)
  {
    p1 := UnpackField(r, 4, 8);
    p0 := UnpackField(r, 5, 1);
    c1 := UnpackField(r, 6, 13);
    s1 := UnpackField(r, 7, 4);
    ga1 := UnpackField(r, 8, 3);
    gb1 := UnpackField(r, 9, 4);
  }

  method UnpackSubframe2(r: BitReader) returns (p2: U16, c2: U16, s2: U16, ga2: U16, gb2: U16)
    requires r.Valid() && r.bitPos == Offset(10)
    modifies r`bitPos
    ensures r.bitPos == Offset(15)
    ensures p2 == WireField(r.bits, 10)
    ensures c2 == WireField(r.bits, 11)
    ensures s2 == WireField(r.bits, 12)
    ensures ga2 == WireField(r.bits, 13)
    ensures gb2 == WireField(r.bits, 14)
  {
    p2 := UnpackField(r, 10, 5);
    c2 := UnpackField(r, 11, 13);
    s2 := UnpackField(r, 12, 4);
    ga2 := UnpackField(r, 13, 3);
    gb2 := UnpackField(r, 14, 4);
  }

  method Unpack(bits: array<Byte>) returns (r: Unpacked)
    ensures r == if bits.Length < FRAME_BYTES then ErrShortInput
                 else Unpacked(UnpackBytes(bits[..FRAME_BYTES]))
  {
    if bits.Length < FRAME_BYTES {
      return ErrShortInput;
    }
    var reader := new BitReader(bits, FRAME_BYTES);
    var l0, l1, l2, l3 := UnpackLsp(reader);
    var p1, p0, c1, s1, ga1, gb1 := UnpackSubframe1(reader);
    var p2, c2, s2, ga2, gb2 := UnpackSubframe2(reader);
    r := Unpacked(Frame(l0, l1, l2, l3, p1, p0, c1, s1, ga1, gb1, p2, c2, s2, ga2, gb2));
  }
}
