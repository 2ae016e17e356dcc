/** Saturating 16/32-bit arithmetic of the ITU-T G.191 basic operators, as internal/fixed writes it.
    Every value is a mathematical integer; the ranges are subset types, and `x >> n` is the
    floor division of `x` by a power of two. */
module Fixed {
  const MAX16: int := 0x7FFF
  const MIN16: int := -0x8000
  const MAX32: int := 0x7FFF_FFFF
  const MIN32: int := -0x8000_0000

  type Word16 = x: int | -0x8000 <= x <= 0x7FFF
  type Word32 = x: int | -0x8000_0000 <= x <= 0x7FFF_FFFF
  type Byte = x: int | 0 <= x < 256

  // The 40 samples of a subframe.
  type Subframe = v: seq<Word16> | |v| == 40 witness seq(40, _ => 0)

  function ZeroSubframe(): Subframe {
    seq(40, _ => 0)
  }

  function Max(x: int, y: int): int {
    if y > x then y else x
  }

  function Min(x: int, y: int): int {
    if y < x then y else x
  }

  function Pow2(n: nat): (p: nat)
    ensures p >= 1
  {
    if n == 0 then 1 else 2 * Pow2(n - 1)
  }

  // Go's conversions keep the low bits.
  function Int32(x: int): Word32 {
    (x + 0x8000_0000) % 0x1_0000_0000 - 0x8000_0000
  }

  function Int16(x: int): Word16 {
    (x + 0x8000) % 0x1_0000 - 0x8000
  }

  function Int64(x: int): int {
    (x + 0x8000_0000_0000_0000) % 0x1_0000_0000_0000_0000 - 0x8000_0000_0000_0000
  }

  function Shr(x: int, n: nat): int {
    x / Pow2(n)
  }

  // Go's division rounds toward zero.
  function Quotient(a: int, b: nat): int
    requires b > 0
  {
    if a >= 0 then a / b else -(-a / b)
  }

  function Abs(x: int): nat {
    if x < 0 then -x else x
  }

  function Sat16(x: int): Word16 {
    if x > MAX16 then MAX16 else if x < MIN16 then MIN16 else x
  }

  function Sat32(x: int): Word32 {
    if x > MAX32 then MAX32 else if x < MIN32 then MIN32 else x
  }

  function Add(a: Word16, b: Word16): Word16 {
    Sat16(a + b)
  }

  function Sub(a: Word16, b: Word16): Word16 {
    Sat16(a - b)
  }

  function LAdd(a: Word32, b: Word32): Word32 {
    Sat32(a + b)
  }

  function LSub(a: Word32, b: Word32): Word32 {
    Sat32(a - b)
  }

  // The one product that does not fit is MIN16 * MIN16.
  function LMult(a: Word16, b: Word16): (p: Word32)
    ensures p == Sat32(2 * (a * b))
  {
    if a == MIN16 && b == MIN16 then
      MAX32
    else
      ProductBound(a, b);
      2 * (a * b)
  }

  function LMac(acc: Word32, a: Word16, b: Word16): Word32 {
    LAdd(acc, LMult(a, b))
  }

  function LMsu(acc: Word32, a: Word16, b: Word16): Word32 {
    LSub(acc, LMult(a, b))
  }

  function Mult(a: Word16, b: Word16): Word16 {
    if a == MIN16 && b == MIN16 then
      MAX16
    else
      ProductBound(a, b);
      (a * b) / 0x8000
  }

  function LShl(a: Word32, n: int): Word32
    decreases if n <= 0 then 1 else 0
  {
    if n <= 0 then
      LShr(a, if n < -32 then 32 else -n)
    else if n >= 32 then
      if a > 0 then MAX32 else if a < 0 then MIN32 else 0
    else
      Sat32(a * Pow2(n))
  }

  function LShr(a: Word32, n: int): Word32
    decreases if n < 0 then 1 else 0
  {
    if n < 0 then
      LShl(a, if n < -32 then 32 else -n)
    else if n >= 31 then
      if a < 0 then -1 else 0
    else
      ShrBound(a, n);
      Shr(a, n)
  }

  function ExtractH(x: Word32): Word16 {
    x / 0x1_0000
  }

  function LDepositH(x: Word16): Word32 {
    x * 0x1_0000
  }

  function Round(x: Word32): Word16 {
    ExtractH(LAdd(x, 0x8000))
  }

  // ---------- facts about powers of two and products ----------

  lemma ProductBound(a: Word16, b: Word16)
    ensures Abs(a * b) <= 0x4000_0000
    ensures !(a == MIN16 && b == MIN16) ==> Abs(a * b) <= 0x3FFF_8000
  {
    if a == MIN16 && b == MIN16 {
    } else if a != MIN16 {
      MulAbsLe(a, b, 0x7FFF, 0x8000);
    } else {
      MulAbsLe(a, b, 0x8000, 0x7FFF);
    }
  }

  lemma MulMono(x: int, y: int, k: int)
    requires x <= y && k >= 0
    ensures x * k <= y * k
  {
  }

  lemma MulAbsLe(a: int, b: int, ma: nat, mb: nat)
    requires Abs(a) <= ma && Abs(b) <= mb
    ensures Abs(a * b) <= ma * mb
  {
    assert Abs(a * b) == Abs(a) * Abs(b);
    MulMono(Abs(a), ma, Abs(b));
    MulMono(Abs(b), mb, ma);
  }

  lemma {:induction false} Pow2Add(a: nat, b: nat)
    ensures Pow2(a + b) == Pow2(a) * Pow2(b)
  {
    if b > 0 {
      Pow2Add(a, b - 1);
    }
  }

  lemma {:induction false} Pow2Mono(a: nat, b: nat)
    requires a <= b
    ensures Pow2(a) <= Pow2(b)
  {
    if a < b {
      Pow2Mono(a, b - 1);
    }
  }

  // The sign and size of a product with a positive factor.
  lemma MulPos(q: int, d: int)
    requires d >= 1
    ensures q >= 1 ==> q * d >= d && q * d >= q
    ensures q <= -1 ==> q * d <= -d && q * d <= q
  {
    if q >= 1 {
      MulMono(1, q, d);
      MulMono(1, d, q);
    } else if q <= -1 {
      MulMono(q, -1, d);
      MulMono(1, d, -q);
    }
  }

  lemma ModUnique(v: int, d: int, q: int, r: int)
    requires 0 <= r < d && v == q * d + r
    ensures v % d == r && v / d == q
  {
    var q', r' := v / d, v % d;
    assert v == q' * d + r';
    assert (q - q') * d == q * d - q' * d;
    MulPos(q - q', d);
  }

  lemma ShrBound(x: int, n: nat)
    ensures 0 <= x ==> 0 <= Shr(x, n) <= x
    ensures x < 0 ==> x <= Shr(x, n) <= -1
  {
    DivBound(x, Pow2(n));
  }

  lemma DivBound(x: int, d: int)
    requires d >= 1
    ensures 0 <= x ==> 0 <= x / d <= x
    ensures x < 0 ==> x <= x / d <= -1
  {
    var q, r := x / d, x % d;
    assert x == q * d + r;
    MulPos(q, d);
    if x < 0 && d > 1 {
      MulPos(-q, d - 1);
      assert -q * (d - 1) == -(q * d) + q;
    }
  }

  lemma DivHalf(v: int, b: int)
    requires b >= 1
    ensures (v / 2) / b == v / (2 * b)
    ensures v % (2 * b) == 2 * ((v / 2) % b) + v % 2
  {
    var x := v / 2;
    assert x == (x / b) * b + x % b;
    assert (x / b) * (2 * b) == 2 * ((x / b) * b);
    ModUnique(v, 2 * b, x / b, 2 * (x % b) + v % 2);
  }

  // Powers of two up to 2^32, one doubling at a time.
  lemma Pow2Values()
    ensures Pow2(0) == 1 && Pow2(1) == 2 && Pow2(2) == 4 && Pow2(3) == 8 && Pow2(4) == 16
    ensures Pow2(5) == 32 && Pow2(6) == 64 && Pow2(7) == 128 && Pow2(8) == 256 && Pow2(9) == 512
    ensures Pow2(10) == 1024 && Pow2(11) == 2048 && Pow2(12) == 4096 && Pow2(13) == 8192
    ensures Pow2(14) == 0x4000 && Pow2(15) == 0x8000 && Pow2(16) == 0x1_0000
  {
    assert Pow2(0) == 1;
    Pow2Step(0); Pow2Step(1); Pow2Step(2); Pow2Step(3); Pow2Step(4); Pow2Step(5); Pow2Step(6); Pow2Step(7);
    Pow2Step(8); Pow2Step(9); Pow2Step(10); Pow2Step(11); Pow2Step(12); Pow2Step(13); Pow2Step(14); Pow2Step(15);
  }

  lemma Pow2Step(n: nat)
    ensures Pow2(n + 1) == 2 * Pow2(n)
  {
  }
}
