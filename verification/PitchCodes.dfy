/** Pitch delay codes of sections 3.7.2 and 4.1.3 of ITU-T G.729: the search windows, the P1 and P2
    code words, their decoders and the parity bit (internal/pitch, internal/pitch/closedloop). */
module PitchCodes {
  import opened Fixed

  const PITCH_MIN: int := 20
  const PITCH_MAX: int := 143

  // ---------- windows ----------

  // The arithmetic is that of 16-bit words, so at both ends of their range the window wraps. Everywhere
  // else it is seven delays wide and inside the range.
  function Subframe1Window(top: Word16): (w: (Word16, Word16))
    ensures PITCH_MIN <= w.0 && w.1 <= PITCH_MAX
    ensures if Window1Sound(top) then w.1 as int == w.0 as int + 6 else w.1 < w.0
    ensures PITCH_MIN <= top <= PITCH_MAX ==> w.0 <= top <= w.1
  {
    var t := Int16(top as int - 3);
    var tmin := if t < PITCH_MIN then PITCH_MIN else t;
    var tmax := Int16(tmin as int + 6);
    if tmax > PITCH_MAX then (PITCH_MAX - 6, PITCH_MAX) else (tmin, tmax)
  }

  function Subframe2Window(intT1: Word16): (w: (Word16, Word16))
    ensures PITCH_MIN <= w.0 && w.1 <= PITCH_MAX
    ensures if Window2Sound(intT1) then w.1 as int == w.0 as int + 9 else w.1 < w.0
  {
    var t := Int16(intT1 as int - 5);
    var tmin := if t < PITCH_MIN then PITCH_MIN else t;
    var tmax := Int16(tmin as int + 9);
    if tmax > PITCH_MAX then (PITCH_MAX - 9, PITCH_MAX) else (tmin, tmax)
  }

  // Where the windows do not wrap.
  predicate Window1Sound(top: Word16) {
    -32765 <= top <= 32764
  }

  predicate Window2Sound(intT1: Word16) {
    -32763 <= intT1 <= 32763
  }

  // ---------- code words ----------

  // uint8(x)
  function Uint8(x: int): Byte {
    x % 256
  }

  function EncodeP1(intLag: int, frac: int): Byte {
    if intLag < 85 || (intLag == 85 && frac <= 0) then Uint8(3 * (intLag - 19) + frac - 1)
    else Uint8(intLag + 112)
  }

  function EncodeP2(intT2: int, frac: int, tmin: int): Byte {
    Uint8(3 * (intT2 - tmin) + frac + 2)
  }

  function DecodeDelaySubframe1(p1: Byte): (int, int) {
    if p1 < 197 then
      var x := p1 + 2;
      (19 + x / 3, x % 3 - 1)
    else
      (p1 - 112, 0)
  }

  function DecodeDelaySubframe2(p2: Byte, t1Int: int): (int, int) {
    var tMin := if t1Int - 5 < 20 then 20 else if t1Int - 5 > 134 then 134 else t1Int - 5;
    var y := p2 + 2;
    (tMin + y / 3 - 1, y % 3 - 1)
  }

  // The delays P1 can carry: thirds from 19 1/3 to 84 2/3 and 85, integers up to 143.
  predicate EncodableP1(lag: int, frac: int) {
    || (lag == 19 && frac == 1)
    || (20 <= lag <= 84 && -1 <= frac <= 1)
    || (lag == 85 && -1 <= frac <= 0)
    || (86 <= lag <= PITCH_MAX && frac == 0)
  }

  // The delays P2 can carry: thirds from tmin - 2/3 to tmax + 2/3.
  predicate EncodableP2(lag: int, frac: int, intT1: Word16) {
    var (tmin, tmax) := Subframe2Window(intT1);
    || (lag == tmin as int - 1 && frac == 1)
    || (tmin <= lag <= tmax && -1 <= frac <= 1)
    || (lag == tmax as int + 1 && frac == -1)
  }

  // Over the whole lag range the receiver gets the pair back exactly when P1 can carry it.
  lemma P1RoundTrip(lag: int, frac: int)
    requires 19 <= lag <= PITCH_MAX && -1 <= frac <= 1
    ensures DecodeDelaySubframe1(EncodeP1(lag, frac)) == (lag, frac) <==> EncodableP1(lag, frac)
  {
    var v := 3 * (lag - 19) + frac - 1;
    if lag < 85 || (lag == 85 && frac <= 0) {
      assert Uint8(v) == if v < 0 then v + 256 else v;
      if 0 <= v < 197 {
        ThirdsBack(lag - 19, frac);
      }
    } else {
      assert Uint8(lag + 112) == lag + 112;
    }
  }

  lemma ThirdsBack(lag: int, frac: int)
    requires -1 <= frac <= 1
    ensures (3 * lag + frac + 1) / 3 == lag && (3 * lag + frac + 1) % 3 == frac + 1
  {
  }

  // And every one of the 256 code words is used once.
  lemma P1Bijection(p1: Byte)
    ensures var (lag, frac) := DecodeDelaySubframe1(p1);
            EncodableP1(lag, frac) && EncodeP1(lag, frac) == p1
  {
  }

  // Encoder and receiver clamp the lowest candidate alike.
  lemma LowestCandidate(intT1: Word16)
    requires Window2Sound(intT1)
    ensures Subframe2Window(intT1).0 as int == Max(20, Min(134, intT1 as int - 5))
  {
  }

  // The 32 candidates of subframe 2 are exactly the ones with a 5-bit code word, and each comes back.
  lemma P2RoundTrip(lag: int, frac: int, intT1: Word16)
    requires -1 <= frac <= 1 && Window2Sound(intT1)
    ensures var (tmin, tmax) := Subframe2Window(intT1);
            EncodableP2(lag, frac, intT1) <==> 0 <= 3 * (lag - tmin) + frac + 2 < 32
    ensures EncodableP2(lag, frac, intT1) ==>
              var p2 := EncodeP2(lag, frac, Subframe2Window(intT1).0);
              p2 < 32 && DecodeDelaySubframe2(p2, intT1) == (lag, frac)
  {
    P2Range(lag, frac, intT1);
    if EncodableP2(lag, frac, intT1) {
      P2Back(lag, frac, intT1);
    }
    hide EncodableP2, EncodeP2, DecodeDelaySubframe2, Subframe2Window;
  }

  lemma P2Range(lag: int, frac: int, intT1: Word16)
    requires -1 <= frac <= 1 && Window2Sound(intT1)
    ensures EncodableP2(lag, frac, intT1) <==> 0 <= 3 * (lag - Subframe2Window(intT1).0) + frac + 2 < 32
  {
    hide Subframe2Window;
  }

  lemma P2Back(lag: int, frac: int, intT1: Word16)
    requires -1 <= frac <= 1 && Window2Sound(intT1) && 0 <= 3 * (lag - Subframe2Window(intT1).0) + frac + 2 < 32
    ensures var p2 := EncodeP2(lag, frac, Subframe2Window(intT1).0);
            p2 < 32 && DecodeDelaySubframe2(p2, intT1) == (lag, frac)
  {
    ByteKept(3 * (lag - Subframe2Window(intT1).0) + frac + 2);
    hide Subframe2Window, DecodeDelaySubframe2, Uint8, Window2Sound;
    LowestCandidate(intT1);
    P2Decoded(3 * (lag - Subframe2Window(intT1).0) + frac + 2, intT1, lag - Subframe2Window(intT1).0 + 1, frac);
  }

  lemma ByteKept(x: int)
    requires 0 <= x < 256
    ensures Uint8(x) == x
  {
  }

  lemma P2Decoded(p2: Byte, intT1: int, n: int, frac: int)
    requires -1 <= frac <= 1 && p2 + 2 == 3 * n + frac + 1
    ensures DecodeDelaySubframe2(p2, intT1) == (Max(20, Min(134, intT1 - 5)) + n - 1, frac)
  {
    ThirdsBack(n, frac);
  }

  lemma P2Bijection(p2: Byte, intT1: Word16)
    requires p2 < 32 && Window2Sound(intT1)
    ensures var (lag, frac) := DecodeDelaySubframe2(p2, intT1);
            EncodableP2(lag, frac, intT1) && EncodeP2(lag, frac, Subframe2Window(intT1).0) == p2
  {
    hide EncodableP2, Subframe2Window;
    LowestCandidate(intT1);
    var (lag, frac) := DecodeDelaySubframe2(p2, intT1);
    P2Range(lag, frac, intT1);
  }

  // ---------- parity ----------

  // Bit i of x.
  predicate Bit(x: nat, i: nat)
    decreases i
  {
    if i == 0 then x % 2 == 1 else Bit(x / 2, i - 1)
  }

  // Bitwise exclusive or.
  function Xor(a: nat, b: nat): nat
    decreases a + b
  {
    if a == 0 && b == 0 then 0
    else 2 * Xor(a / 2, b / 2) + (if a % 2 != b % 2 then 1 else 0)
  }

  function Parity(p1: Byte): nat {
    var bits := Shr(p1, 2) % 64;
    var x := Xor(bits, Shr(bits, 4));
    var x := Xor(x, Shr(x, 2));
    var x := Xor(x, Shr(x, 1));
    Xor(x % 2, 1)
  }

  predicate CheckParity(p1: Byte, p0: nat) {
    p0 % 2 == Parity(p1)
  }

  lemma {:induction false} XorBit(a: nat, b: nat, i: nat)
    ensures Bit(Xor(a, b), i) == (Bit(a, i) != Bit(b, i))
    decreases i
  {
    if i == 0 {
      assert a == 0 && b == 0 ==> Xor(a, b) % 2 == 0;
    } else {
      assert Xor(0, 0) == 0;
      assert Xor(a, b) / 2 == Xor(a / 2, b / 2);
      XorBit(a / 2, b / 2, i - 1);
    }
  }

  lemma {:induction false} ShrBit(x: nat, j: nat, i: nat)
    ensures Shr(x, j) >= 0 && Bit(Shr(x, j), i) == Bit(x, i + j)
    decreases j
  {
    ShrBound(x, j);
    if j > 0 {
      ShrBit(x / 2, j - 1, i);
      DivHalf(x, Pow2(j - 1));
    }
  }

  lemma {:induction false} ModBit(x: nat, n: nat, i: nat)
    ensures Bit(x % Pow2(n), i) == (i < n && Bit(x, i))
    decreases i
  {
    if n == 0 {
      ZeroBit(i);
    } else {
      DivHalf(x, Pow2(n - 1));
      var low := x % Pow2(n);
      assert low / 2 == (x / 2) % Pow2(n - 1) && low % 2 == x % 2;
      if i > 0 {
        ModBit(x / 2, n - 1, i - 1);
      }
    }
  }

  lemma {:induction false} ZeroBit(i: nat)
    ensures !Bit(0, i)
  {
    if i > 0 {
      ZeroBit(i - 1);
    }
  }

  function One(b: bool): nat {
    if b then 1 else 0
  }

  // How many of the six high bits of P1 are set.
  function HighOnes(p1: Byte): nat {
    One(Bit(p1, 2)) + One(Bit(p1, 3)) + One(Bit(p1, 4))
    + One(Bit(p1, 5)) + One(Bit(p1, 6)) + One(Bit(p1, 7))
  }

  lemma HighBit(p1: Byte, i: nat)
    ensures Bit(Shr(p1, 2) % 64, i) == (i < 6 && Bit(p1, i + 2))
  {
    Pow2Values();
    ShrBit(p1, 2, i);
    ModBit(Shr(p1, 2), 6, i);
  }

  // Bit i of one folding step x ^ (x >> j).
  lemma FoldBit(x: nat, j: nat, i: nat)
    ensures Shr(x, j) >= 0
    ensures Bit(Xor(x, Shr(x, j)), i) == (Bit(x, i) != Bit(x, i + j))
  {
    ShrBit(x, j, i);
    XorBit(x, Shr(x, j), i);
  }

  // The three folds leave the sum of the six bits in bit 0.
  lemma FoldSix(b: nat)
    ensures Shr(b, 4) >= 0
    ensures var x := Xor(b, Shr(b, 4));
            Shr(x, 2) >= 0 &&
            var y := Xor(x, Shr(x, 2));
            Shr(y, 1) >= 0 &&
            Bit(Xor(y, Shr(y, 1)), 0) ==
              (((Bit(b, 0) != Bit(b, 4)) != (Bit(b, 2) != Bit(b, 6)))
               != ((Bit(b, 1) != Bit(b, 5)) != (Bit(b, 3) != Bit(b, 7))))
  {
    hide Bit, Xor, Shr;
    FoldBit(b, 4, 0);
    FoldBit(b, 4, 1);
    FoldBit(b, 4, 2);
    FoldBit(b, 4, 3);
    var x := Xor(b, Shr(b, 4));
    FoldBit(x, 2, 0);
    FoldBit(x, 2, 1);
    FoldBit(Xor(x, Shr(x, 2)), 1, 0);
  }

  // The parity bit is the complement of the sum of the six high bits of P1.
  lemma ParityIsOdd(p1: Byte)
    ensures Parity(p1) == 1 - HighOnes(p1) % 2
  {
    hide Bit, Xor, Shr;
    ShrBound(p1, 2);
    var b := Shr(p1, 2) % 64;
    FoldSix(b);
    var x := Xor(b, Shr(b, 4));
    var y := Xor(x, Shr(x, 2));
    var z := Xor(y, Shr(y, 1));
    HighBit(p1, 0);
    HighBit(p1, 1);
    HighBit(p1, 2);
    HighBit(p1, 3);
    HighBit(p1, 4);
    HighBit(p1, 5);
    HighBit(p1, 6);
    HighBit(p1, 7);
    assert Parity(p1) == 1 - One(Bit(z, 0)) by {
      XorOne(z);
    }
    assert HighOnes(p1) % 2 == One(Bit(z, 0));
  }

  lemma XorOne(z: nat)
    ensures Xor(z % 2, 1) == 1 - One(Bit(z, 0))
  {
    assert Xor(0, 0) == 0;
    assert (z % 2) / 2 == 0;
  }

  // P1 with bit k inverted.
  function FlipBit(p1: nat, k: nat): int {
    if Bit(p1, k) then p1 - Pow2(k) else p1 + Pow2(k)
  }

  lemma {:induction false} FlippedBits(p1: nat, n: nat, k: nat, i: nat)
    requires k < n && p1 < Pow2(n)
    ensures 0 <= FlipBit(p1, k) < Pow2(n)
    ensures Bit(FlipBit(p1, k), i) == (Bit(p1, i) != (i == k))
    decreases k
  {
    if k == 0 {
      assert FlipBit(p1, 0) == if p1 % 2 == 1 then p1 - 1 else p1 + 1;
      assert FlipBit(p1, 0) / 2 == p1 / 2;
    } else {
      Pow2Step(n - 1);
      FlippedBits(p1 / 2, n - 1, k - 1, if i > 0 then i - 1 else 0);
      FlipHalf(p1, k);
      hide FlipBit, Pow2;
    }
  }

  lemma FlipHalf(p1: nat, k: nat)
    requires k > 0
    ensures FlipBit(p1, k) == 2 * FlipBit(p1 / 2, k - 1) + p1 % 2
    ensures FlipBit(p1, k) / 2 == FlipBit(p1 / 2, k - 1) && FlipBit(p1, k) % 2 == p1 % 2
  {
    Pow2Step(k - 1);
    assert Bit(p1, k) == Bit(p1 / 2, k - 1);
    hide Pow2, Bit;
  }

  // A single inverted bit of P1 is noticed exactly when it is one of the six protected ones.
  lemma ParityDetects(p1: Byte, k: nat)
    requires k < 8
    ensures 0 <= FlipBit(p1, k) < 256
    ensures CheckParity(p1, Parity(p1))
    ensures CheckParity(FlipBit(p1, k), Parity(p1)) <==> k < 2
  {
    hide Bit, Parity, FlipBit, HighOnes;
    Pow2Values();
    hide Pow2;
    ParityIsOdd(p1);
    FlippedBits(p1, 8, k, 2);
    FlippedBits(p1, 8, k, 3);
    FlippedBits(p1, 8, k, 4);
    FlippedBits(p1, 8, k, 5);
    FlippedBits(p1, 8, k, 6);
    FlippedBits(p1, 8, k, 7);
    OnesFlip(p1, FlipBit(p1, k), k);
    ParityIsOdd(FlipBit(p1, k));
  }

  lemma OnesFlip(p: Byte, q: Byte, k: nat)
    requires k < 8
    requires forall i | 2 <= i < 8 :: Bit(q, i) == (Bit(p, i) != (i == k))
    ensures HighOnes(q) == HighOnes(p) + if k < 2 then 0 else if Bit(p, k) then -1 else 1
  {
    hide Bit;
  }
}
