/** Excitation building and the 1/A(z) synthesis filter with its sticky overflow flag
    (internal/synth, and the flag of internal/fixed/overflow.go). */
module Synthesis {
  import opened Fixed

  type LpcQ12 = a: seq<Word16> | |a| == 11 witness [0, 0, 0, 0, 0, 0, 0, 0, 0, 0, 0]
  type Memory = m: seq<Word16> | |m| == 10 witness [0, 0, 0, 0, 0, 0, 0, 0, 0, 0]

  // ---------- excitation ----------

  function ExcitationSample(gpQ14: Word16, gcMantQ14: Word16, gcExp: int, v: Word16, c: Word16): Word16 {
    var lPitch := LMult(gpQ14, v);
    var shiftR := 13 - gcExp;
    var lCode: Word32 :=
      if gcMantQ14 == 0 then 0
      else if shiftR >= 0 then LShr(LMult(gcMantQ14, c), shiftR)
      else LShl(LMult(gcMantQ14, c), -shiftR);
    Round(LShl(LAdd(lPitch, lCode), 1))
  }

  function Excitation(gpQ14: Word16, gcMantQ14: Word16, gcExp: int, v: Subframe, c: Subframe): (u: Subframe) {
    seq(40, n requires 0 <= n < 40 => ExcitationSample(gpQ14, gcMantQ14, gcExp, v[n], c[n]))
  }

  method BuildExcitation(gpQ14: Word16, gcMantQ14: Word16, gcExp: int, v: array<Word16>, c: array<Word16>,
                         u: array<Word16>)
    requires v.Length == c.Length == u.Length == 40 && u != v && u != c
    modifies u
    ensures u[..] == Excitation(gpQ14, gcMantQ14, gcExp, v[..], c[..])
  {
    hide LMult, LShr, LShl, LAdd, Round;
    var shiftR := 13 - gcExp;
    for n := 0 to 40
      invariant forall m | 0 <= m < n :: u[m] == ExcitationSample(gpQ14, gcMantQ14, gcExp, v[m], c[m])
    {
      var lPitch := LMult(gpQ14, v[n]);
      var lCode: Word32 := 0;
      if gcMantQ14 != 0 {
        var prod32 := LMult(gcMantQ14, c[n]);
        if shiftR >= 0 {
          lCode := LShr(prod32, shiftR);
        } else {
          lCode := LShl(prod32, -shiftR);
        }
      }
      var lSum := LAdd(lPitch, lCode);
      u[n] := Round(LShl(lSum, 1));
    }
  }

  // No gain on either side gives silence.
  lemma ZeroGainSilence(v: Subframe, c: Subframe, gcExp: int)
    ensures forall n | 0 <= n < 40 :: Excitation(0, 0, gcExp, v, c)[n] == 0
  {
    assert Pow2(1) == 2;
  }

  // ---------- operations that raise the flag ----------

  predicate Fits32(x: int) {
    MIN32 <= x <= MAX32
  }

  class OverflowFlag {
    var overflow: bool

    constructor ()
      ensures !overflow
    {
      overflow := false;
    }

    method ClearOverflow()
      modifies this
      ensures !overflow
    {
      overflow := false;
    }

    method Saturate64(x: int) returns (r: Word32)
      modifies this
      ensures r == Sat32(x) && overflow == (old(overflow) || !Fits32(x))
    {
      if x > MAX32 {
        overflow := true;
        return MAX32;
      }
      if x < MIN32 {
        overflow := true;
        return MIN32;
      }
      return x;
    }

    method Multiply(a: Word16, b: Word16) returns (r: Word32)
      modifies this
      ensures r == LMult(a, b) && overflow == (old(overflow) || !Fits32(2 * (a as int * b)))
    {
      ProductBound(a, b);
      if a == MIN16 && b == MIN16 {
        overflow := true;
        return MAX32;
      }
      return LMult(a, b);
    }

    method MultiplySubtract(acc: Word32, a: Word16, b: Word16) returns (r: Word32)
      modifies this
      ensures r == LMsu(acc, a, b)
      ensures overflow == (old(overflow) || !Fits32(2 * (a as int * b)) || !Fits32((acc as int) - LMult(a, b)))
    {
      var p := Multiply(a, b);
      r := Saturate64((acc as int) - p);
    }

    method ShiftLeft3(a: Word32) returns (r: Word32)
      modifies this
      ensures r == LShl(a, 3) && overflow == (old(overflow) || !Fits32(8 * (a as int)))
    {
      assert Pow2(3) == 8;
      r := Saturate64(8 * (a as int));
    }

    method RoundHigh(x: Word32) returns (r: Word16)
      modifies this
      ensures r == Round(x) && overflow == (old(overflow) || !Fits32((x as int) + 0x8000))
    {
      var s := Saturate64((x as int) + 0x8000);
      r := ExtractH(s);
    }
  }

  // ---------- one pass of the filter ----------

  // The accumulator of one output after i feedback taps, and whether anything saturated.
  // `work` holds the ten memory samples followed by the outputs so far.
  function Feedback(a: LpcQ12, work: seq<Word16>, un: Word16, i: nat): (r: (Word32, bool))
    requires i <= 10 <= |work|
  {
    if i == 0 then (LMult(un, a[0]), !Fits32(2 * (un as int * a[0])))
    else
      var (acc, sat) := Feedback(a, work, un, i - 1);
      var w := work[|work| - i];
      (LMsu(acc, a[i], w), sat || !Fits32(2 * (a[i] as int * w)) || !Fits32((acc as int) - LMult(a[i], w)))
  }

  function Output(a: LpcQ12, work: seq<Word16>, un: Word16): (Word16, bool)
    requires 10 <= |work|
  {
    var (acc, sat) := Feedback(a, work, un, 10);
    var shifted := LShl(acc, 3);
    (Round(shifted), sat || !Fits32(8 * (acc as int)) || !Fits32((shifted as int) + 0x8000))
  }

  function Pass(a: LpcQ12, u: Subframe, past: Memory, n: nat): (r: (seq<Word16>, bool))
    requires n <= 40
    ensures |r.0| == 10 + n
  {
    if n == 0 then (past, false)
    else
      var (work, sat) := Pass(a, u, past, n - 1);
      var (s, sat') := Output(a, work, u[n - 1]);
      (work + [s], sat || sat')
  }

  function Quartered(u: Subframe): Subframe {
    seq(40, n requires 0 <= n < 40 => u[n] / 4)
  }

  datatype Filtered = Filtered(s: seq<Word16>, pastSynth: seq<Word16>, shift: nat)

  // The two-pass filter: the second pass reruns a quarter of the excitation from the same memory.
  function Filter(a: LpcQ12, u: Subframe, past: Memory): Filtered {
    var (work, sat) := Pass(a, u, past, 40);
    if !sat then Filtered(work[10..], work[40..], 0)
    else
      var (work2, _) := Pass(a, Quartered(u), past, 40);
      Filtered(work2[10..], work2[40..], 2)
  }

  class Synthesizer {
    const pastSynth: array<Word16>
    const flag: OverflowFlag
    var lastExcitationScaleShift: nat

    ghost predicate Valid()
      reads this
    {
      pastSynth.Length == 10
    }

    constructor ()
      ensures Valid() && fresh(pastSynth) && fresh(flag)
      ensures lastExcitationScaleShift == 0
      ensures forall i | 0 <= i < 10 :: pastSynth[i] == 0
    {
      pastSynth := new Word16[10](_ => 0);
      flag := new OverflowFlag();
      lastExcitationScaleShift := 0;
    }

    method OnePass(a: LpcQ12, u: Subframe, work: array<Word16>)
      requires Valid() && work.Length == 50 && !flag.overflow
      modifies flag, work
      ensures work[..10] == old(work[..10])
      ensures (work[..], flag.overflow) == Pass(a, u, old(work[..10]), 40)
    {
      hide LMult, LMsu, LShl, Round, Output, Fits32;
      ghost var past: Memory := work[..10];
      for n := 0 to 40
        invariant (work[..10 + n], flag.overflow) == Pass(a, u, past, n)
        invariant work[..10] == past
      {
        var lTemp := OneOutput(a, u[n], work, n);
        assert work[..10 + n + 1] == work[..10 + n] + [work[10 + n]];
      }
      assert work[..] == work[..50];
    }

    method OneOutput(a: LpcQ12, un: Word16, work: array<Word16>, n: nat) returns (lTemp: Word32)
      requires work.Length == 50 && n < 40
      modifies flag, work
      ensures work[..10 + n] == old(work[..10 + n])
      ensures var (s, sat) := Output(a, old(work[..10 + n]), un);
              work[10 + n] == s && flag.overflow == (old(flag.overflow) || sat)
    {
      hide LMult, LMsu, LShl, Round, Fits32;
      ghost var before: seq<Word16>, f0 := work[..10 + n], flag.overflow;
      lTemp := flag.Multiply(un, a[0]);
      for i := 1 to 11
        invariant work[..10 + n] == before
        invariant lTemp == Feedback(a, before, un, i - 1).0
        invariant flag.overflow == (f0 || Feedback(a, before, un, i - 1).1)
      {
        assert work[10 + n - i] == before[|before| - i];
        lTemp := flag.MultiplySubtract(lTemp, a[i], work[10 + n - i]);
      }
      lTemp := flag.ShiftLeft3(lTemp);
      var s := flag.RoundHigh(lTemp);
      work[10 + n] := s;
    }

    method FilterSubframe(a: LpcQ12, u: Subframe) returns (s: Subframe)
      requires Valid()
      modifies this`lastExcitationScaleShift, pastSynth, flag
      ensures var f := Filter(a, u, old(pastSynth[..]));
              s == f.s && pastSynth[..] == f.pastSynth && lastExcitationScaleShift == f.shift
    {
      lastExcitationScaleShift := 0;
      var work := new Word16[50](_ => 0);
      CopyMemory(work);
      flag.ClearOverflow();
      OnePass(a, u, work);
      if !flag.overflow {
        s := work[10..];
        forall i | 0 <= i < 10 { pastSynth[i] := work[40 + i]; }
        assert pastSynth[..] == work[40..];
        return;
      }
      lastExcitationScaleShift := 2;
      var work2 := new Word16[50](_ => 0);
      CopyMemory(work2);
      var uScaled := seq(40, n requires 0 <= n < 40 => u[n] / 4);
      flag.ClearOverflow();
      OnePass(a, uScaled, work2);
      s := work2[10..];
      forall i | 0 <= i < 10 { pastSynth[i] := work2[40 + i]; }
      assert pastSynth[..] == work2[40..];
    }

    method CopyMemory(work: array<Word16>)
      requires Valid() && work.Length == 50 && work != pastSynth
      modifies work
      ensures work[..10] == pastSynth[..]
    {
      forall i | 0 <= i < 10 { work[i] := pastSynth[i]; }
    }
  }

  // ---------- what the flag means ----------

  // The recurrence over unbounded integers, rounding only at the output.
  function ExactFeedback(a: LpcQ12, work: seq<int>, un: int, i: nat): int
    requires i <= 10 <= |work|
  {
    if i == 0 then 2 * (un * a[0]) else ExactFeedback(a, work, un, i - 1) - 2 * (a[i] * work[|work| - i])
  }

  function ExactOutput(a: LpcQ12, work: seq<int>, un: int): int
    requires 10 <= |work|
  {
    (8 * ExactFeedback(a, work, un, 10) + 0x8000) / 0x1_0000
  }

  function ExactPass(a: LpcQ12, u: Subframe, past: Memory, n: nat): (work: seq<int>)
    requires n <= 40
    ensures |work| == 10 + n
  {
    if n == 0 then past
    else
      var work := ExactPass(a, u, past, n - 1);
      work + [ExactOutput(a, work, u[n - 1])]
  }

  // Every intermediate value of the unbounded recurrence fits in 32 bits.
  predicate FeedbackFits(a: LpcQ12, work: seq<int>, un: int, i: nat)
    requires i <= 10 <= |work|
  {
    if i == 0 then Fits32(2 * (un * a[0]))
    else
      && FeedbackFits(a, work, un, i - 1)
      && Fits32(2 * (a[i] * work[|work| - i]))
      && Fits32(ExactFeedback(a, work, un, i))
  }

  predicate OutputFits(a: LpcQ12, work: seq<int>, un: int)
    requires 10 <= |work|
  {
    && FeedbackFits(a, work, un, 10)
    && Fits32(8 * ExactFeedback(a, work, un, 10))
    && Fits32(8 * ExactFeedback(a, work, un, 10) + 0x8000)
  }

  predicate PassFits(a: LpcQ12, u: Subframe, past: Memory, n: nat)
    requires n <= 40
  {
    n == 0 || (PassFits(a, u, past, n - 1) && OutputFits(a, ExactPass(a, u, past, n - 1), u[n - 1]))
  }

  lemma {:induction false} FeedbackExact(a: LpcQ12, work: seq<Word16>, un: Word16, i: nat)
    requires i <= 10 <= |work|
    ensures !Feedback(a, work, un, i).1 <==> FeedbackFits(a, work, un, i)
    ensures FeedbackFits(a, work, un, i) ==> Feedback(a, work, un, i).0 == ExactFeedback(a, work, un, i)
  {
    if i > 0 {
      FeedbackExact(a, work, un, i - 1);
    }
  }

  lemma OutputExact(a: LpcQ12, work: seq<Word16>, un: Word16)
    requires 10 <= |work|
    ensures !Output(a, work, un).1 <==> OutputFits(a, work, un)
    ensures OutputFits(a, work, un) ==> Output(a, work, un).0 == ExactOutput(a, work, un)
  {
    hide Feedback, FeedbackFits, ExactFeedback;
    FeedbackExact(a, work, un, 10);
    assert Pow2(3) == 8;
  }

  // Pass 1 ends with the flag clear exactly when no intermediate value of the unbounded recurrence
  // leaves the 32-bit range, and then the outputs are that recurrence's.
  lemma {:induction false} PassExact(a: LpcQ12, u: Subframe, past: Memory, n: nat)
    requires n <= 40
    ensures !Pass(a, u, past, n).1 <==> PassFits(a, u, past, n)
    ensures PassFits(a, u, past, n) ==> Pass(a, u, past, n).0 == ExactPass(a, u, past, n)
  {
    hide Output, OutputFits, ExactOutput;
    if n > 0 {
      PassExact(a, u, past, n - 1);
      if PassFits(a, u, past, n - 1) {
        OutputExact(a, Pass(a, u, past, n - 1).0, u[n - 1]);
      }
    }
  }

  // The filter as its caller sees it: without saturation the exact recurrence and no rescaling,
  // otherwise the quartered excitation and a shift of 2; the memory is always the last ten outputs.
  lemma FilterMeaning(a: LpcQ12, u: Subframe, past: Memory)
    ensures var f := Filter(a, u, past);
            && |f.s| == 40 && f.pastSynth == f.s[30..]
            && (f.shift == 0 <==> PassFits(a, u, past, 40))
            && (f.shift == 0 ==> past + f.s == ExactPass(a, u, past, 40))
            && (f.shift != 0 ==> f.shift == 2 && past + f.s == Pass(a, Quartered(u), past, 40).0)
  {
    PassExact(a, u, past, 40);
    MemoryKept(a, u, past, 40);
    MemoryKept(a, Quartered(u), past, 40);
    hide Pass, ExactPass, PassFits, Quartered;
    var work, work2 := Pass(a, u, past, 40).0, Pass(a, Quartered(u), past, 40).0;
    assert work == work[..10] + work[10..] && work[10..][30..] == work[40..];
    assert work2 == work2[..10] + work2[10..] && work2[10..][30..] == work2[40..];
  }

  lemma {:induction false} MemoryKept(a: LpcQ12, u: Subframe, past: Memory, n: nat)
    requires n <= 40
    ensures Pass(a, u, past, n).0[..10] == past
  {
    if n > 0 {
      MemoryKept(a, u, past, n - 1);
    }
  }

  // ---------- what the filter does ----------

  // The part of A(z) that acts on the outputs before the newest.
  function Predicted(a: LpcQ12, work: seq<int>, i: nat): int
    requires i <= 10 <= |work|
  {
    if i == 0 then 0 else Predicted(a, work, i - 1) + a[i] * work[|work| - i]
  }

  lemma {:induction false} FeedbackIs(a: LpcQ12, work: seq<int>, un: int, i: nat)
    requires i <= 10 <= |work|
    ensures ExactFeedback(a, work, un, i) == 2 * (un * a[0]) - 2 * Predicted(a, work, i)
  {
    if i > 0 {
      FeedbackIs(a, work, un, i - 1);
    }
  }

  lemma {:induction false} PassPrefix(a: LpcQ12, u: Subframe, past: Memory, m: nat, n: nat)
    requires m <= n <= 40
    ensures ExactPass(a, u, past, n)[..10 + m] == ExactPass(a, u, past, m)
  {
    hide ExactOutput;
    if m < n {
      PassPrefix(a, u, past, m, n - 1);
    }
  }

  lemma OutputNear(a: LpcQ12, work: seq<int>, un: int)
    requires 10 <= |work|
    ensures Abs(4096 * ExactOutput(a, work, un) + Predicted(a, work, 10) - un * a[0]) <= 2048
  {
    hide ExactFeedback, Predicted;
    FeedbackIs(a, work, un, 10);
  }

  // A(z) on the output of the recurrence gives the excitation back, to half a unit of the output: the filter
  // is 1/A(z).
  lemma SynthesisInverts(a: LpcQ12, u: Subframe, past: Memory, n: nat)
    requires n < 40
    ensures var work := ExactPass(a, u, past, 40);
            Abs(4096 * work[10 + n] + Predicted(a, work[..10 + n], 10) - (u[n] as int) * a[0]) <= 2048
  {
    hide Predicted, ExactOutput;
    PassPrefix(a, u, past, n, 40);
    PassPrefix(a, u, past, n + 1, 40);
    var work := ExactPass(a, u, past, 40);
    assert work[..10 + n + 1][10 + n] == work[10 + n];
    OutputNear(a, work[..10 + n], u[n]);
  }

  // With recovery it is the excitation rounded down to quarters that goes through the filter.
  lemma QuarterMeans(u: Subframe, n: nat)
    requires n < 40
    ensures 4 * (Quartered(u)[n] as int) <= u[n] < 4 * (Quartered(u)[n] as int) + 4
  {
  }

  // ---------- what the excitation is ----------

  // No step of the sample leaves 32 bits: `code` is the code contribution after its shift.
  predicate SampleFits(gpQ14: Word16, v: Word16, code: int) {
    var p := gpQ14 as int * v;
    Fits32(2 * p) && Fits32(2 * p + code) && Fits32(4 * p + 2 * code) && Fits32(4 * p + 2 * code + 0x8000)
  }

  // Equation (75): gp v + gc c, with gp in Q14 and gc = mant 2^exp in Q14 on c in Q13, to the nearest whole
  // number up to the bits the exponent shifts out.
  lemma ExcitationNear(gpQ14: Word16, mant: Word16, gcExp: int, v: Word16, c: Word16)
    requires gcExp <= 13 && 13 - gcExp < 31 && mant >= 0
    requires SampleFits(gpQ14, v, Shr(2 * (mant as int * c), 13 - gcExp))
    ensures var p := Pow2(13 - gcExp);
            var u := ExcitationSample(gpQ14, mant, gcExp, v, c) as int;
            -0x8000 * p <= (4 * (gpQ14 as int * v) - 0x1_0000 * u) * p + 4 * (mant as int * c) < 0x8002 * p
  {
    hide Pow2, Shr, ExcitationSample, SampleFits, LMult, LShr;
    var s, x, y := 13 - gcExp, 2 * (mant as int * c), 4 * (gpQ14 as int * v);
    var code := Shr(x, s);
    CodeTermIs(mant, c, s);
    SampleIs(gpQ14, mant, gcExp, v, c, code);
    var rest := ShiftRest(x, s);
    Weighted(y - 0x1_0000 * ((y + 2 * code + 0x8000) / 0x1_0000), code, rest, Pow2(s));
  }

  lemma ShiftRest(x: int, s: nat) returns (rest: nat)
    ensures rest < Pow2(s) && x == Shr(x, s) * Pow2(s) + rest
  {
    rest := x % Pow2(s);
  }

  lemma CodeTermIs(mant: Word16, c: Word16, s: nat)
    requires s < 31 && mant >= 0
    ensures LShr(LMult(mant, c), s) as int == Shr(2 * (mant as int * c), s)
    ensures mant == 0 ==> Shr(2 * (mant as int * c), s) == 0
  {
    ProductBound(mant, c);
    hide Pow2;
    DivBound(0, Pow2(s));
  }

  lemma SampleIs(gpQ14: Word16, mant: Word16, gcExp: int, v: Word16, c: Word16, code: int)
    requires gcExp <= 13 && 13 - gcExp < 31 && mant >= 0 && SampleFits(gpQ14, v, code)
    requires LShr(LMult(mant, c), 13 - gcExp) as int == code && (mant == 0 ==> code == 0)
    ensures ExcitationSample(gpQ14, mant, gcExp, v, c) as int
            == (4 * (gpQ14 as int * v) + 2 * code + 0x8000) / 0x1_0000
  {
    assert Pow2(1) == 2;
    hide LShr, Pow2;
    assert LMult(gpQ14, v) as int == 2 * (gpQ14 as int * v);
    hide LMult;
  }

  lemma Weighted(d: int, code: int, rest: nat, p: nat)
    requires -0x8000 <= d + 2 * code < 0x8000 && rest < p
    ensures -0x8000 * p <= d * p + 2 * (code * p + rest) < 0x8002 * p
  {
    MulMono(-0x8000, d + 2 * code, p);
    MulMono(d + 2 * code, 0x7FFF, p);
    assert (d + 2 * code) * p == d * p + 2 * (code * p);
  }
}
