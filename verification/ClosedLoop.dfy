/** Closed-loop pitch search of section A.3.7 of ITU-T G.729 (internal/pitch/closedloop): the integer
    search, the fractional refinement, and the code words that carry the result. */
module ClosedLoop {
  import opened Fixed
  import opened PitchCodes
  import A = AdaptiveCodebook

  // 153 samples of past excitation, then the 40 of the residual.
  type Excitation = e: seq<Word16> | |e| == 193 witness seq(193, _ => 0)

  const ANCHOR: int := 153

  // ---------- the criterion ----------

  function IntegerTo(xb: Subframe, exc: Excitation, k: nat, n: nat): int
    requires k <= 153 && n <= 40
  {
    if n == 0 then 0 else IntegerTo(xb, exc, k, n - 1) + 2 * (xb[n - 1] as int) * exc[ANCHOR - k + n - 1]
  }

  // R_N at an integer delay.
  function RN(xb: Subframe, exc: Excitation, k: nat): int
    requires k <= 153
  {
    IntegerTo(xb, exc, k, 40)
  }

  // u(n), zero outside the buffer.
  function At(exc: Excitation, index: int): Word16 {
    if 0 <= index < 193 then exc[index] else 0
  }

  function FirTo(exc: Excitation, base: int, pos: nat, neg: nat, taps: nat): Word32
    requires pos <= 2 && neg <= 2 && taps <= 10
  {
    if taps == 0 then 0
    else
      var i := taps - 1;
      var acc := FirTo(exc, base, pos, neg, i);
      LMac(LMac(acc, A.PITCH_INTERP_FIR[pos + 3 * i], At(exc, base - i)), A.PITCH_INTERP_FIR[neg + 3 * i],
        At(exc, base + 1 + i))
  }

  // The past excitation at delay lag + frac / 3; whole delays are copied.
  function Interpolate3(exc: Excitation, lag: int, frac: int): Word16
    requires -39 <= lag <= 153
  {
    if frac == 0 then At(exc, ANCHOR - lag)
    else if frac < 0 then Round(FirTo(exc, ANCHOR - lag, 1, 2, 10))
    else Round(FirTo(exc, ANCHOR - lag - 1, 2, 1, 10))
  }

  function FractionTo(xb: Subframe, exc: Excitation, lag: int, frac: int, n: nat): int
    requires 0 <= lag <= 153 && n <= 40
  {
    if n == 0 then 0
    else FractionTo(xb, exc, lag, frac, n - 1) + 2 * (xb[n - 1] as int) * Interpolate3(exc, lag - (n - 1), frac)
  }

  // R_N at a fractional delay.
  function RNT(xb: Subframe, exc: Excitation, d: Delay): int
    requires 0 <= d.lag <= 153
  {
    FractionTo(xb, exc, d.lag, d.frac, 40)
  }

  datatype Delay = Delay(lag: int, frac: int)

  // At whole delays the two criteria agree.
  lemma {:induction false} WholeDelays(xb: Subframe, exc: Excitation, k: nat, n: nat)
    requires k <= 153 && n <= 40
    ensures FractionTo(xb, exc, k, 0, n) == IntegerTo(xb, exc, k, n)
  {
    if n > 0 {
      WholeDelays(xb, exc, k, n - 1);
    }
  }

  // At fractions it is the adaptive codebook's own interpolation: the buffer read as the past and the vector.
  lemma AtIsSource(exc: Excitation, relative: int)
    ensures At(exc, ANCHOR + relative) == A.Source(relative, exc[..ANCHOR], exc[ANCHOR..])
  {
  }

  lemma {:induction false} FirIsAccumulate(exc: Excitation, p: A.FirPhase, taps: nat)
    requires p.pos <= 2 && p.neg <= 2 && taps <= 10
    ensures FirTo(exc, ANCHOR - p.k, p.pos, p.neg, taps)
            == A.Accumulate(A.PITCH_INTERP_FIR, p, 0, exc[..ANCHOR], exc[ANCHOR..], taps)
  {
    hide At, A.Source, LMac, A.PITCH_INTERP_FIR;
    if taps > 0 {
      FirIsAccumulate(exc, p, taps - 1);
      AtIsSource(exc, -p.k - (taps - 1));
      AtIsSource(exc, -p.k + taps);
    }
  }

  lemma FractionsInterpolate(exc: Excitation, lag: int, frac: int)
    requires -39 <= lag <= 153 && (frac == -1 || frac == 1)
    ensures Interpolate3(exc, lag, frac)
            == Round(A.ByDistance(3 * lag + frac, 0, exc[..ANCHOR], exc[ANCHOR..], A.LINTER))
  {
    hide A.ByDistance, A.Accumulate, FirTo, Round;
    var p := A.PhaseOf(lag, frac);
    FirIsAccumulate(exc, p, 10);
    A.AccumulateByDistance(lag, frac, 0, exc[..ANCHOR], exc[ANCHOR..], 10);
  }

  // ---------- integer search ----------

  predicate FirstMaximum(xb: Subframe, exc: Excitation, lo: nat, hi: nat, k: nat)
    requires lo <= hi <= 153
  {
    && lo <= k <= hi
    && (forall j | lo <= j <= hi :: RN(xb, exc, j) <= RN(xb, exc, k))
    && (forall j | lo <= j < k :: RN(xb, exc, j) < RN(xb, exc, k))
  }

  lemma {:induction false} IntegerBound(xb: Subframe, exc: Excitation, k: nat, n: nat)
    requires k <= 153 && n <= 40
    ensures Abs(IntegerTo(xb, exc, k, n)) <= n * 0x8000_0000
  {
    if n > 0 {
      IntegerBound(xb, exc, k, n - 1);
      TwiceProduct(xb[n - 1], exc[ANCHOR - k + n - 1]);
    }
  }

  lemma TwiceProduct(x: Word16, y: Word16)
    ensures Abs(2 * (x as int) * y) <= 0x8000_0000
  {
    MulAbsLe(x, y, 0x8000, 0x8000);
    assert 2 * (x as int) * y == 2 * ((x as int) * y);
  }

  method Correlate(xb: Subframe, exc: Excitation, k: nat) returns (acc: int)
    requires k <= 153
    ensures acc == RN(xb, exc, k)
  {
    acc := 0;
    for n := 0 to 40
      invariant acc == IntegerTo(xb, exc, k, n)
    {
      acc := acc + 2 * (xb[n] as int) * exc[ANCHOR - k + n];
    }
  }

  // The lowest delay of the window with the largest criterion. A window that wraps holds no delay; its
  // lower end comes back with the least score.
  method SearchInteger(xb: Subframe, exc: Excitation, centre: Word16, sub: nat) returns (lag: nat, rn: Word32)
    ensures var (lo, hi) := if sub == 0 then Subframe1Window(centre) else Subframe2Window(centre);
            if lo <= hi then FirstMaximum(xb, exc, lo, hi, lag) && rn == Sat32(RN(xb, exc, lag))
            else lag == lo && rn == MIN32
  {
    hide RN;
    var (kMin, kMax) := if sub == 0 then Subframe1Window(centre) else Subframe2Window(centre);
    lag := kMin;
    var best: int := -0x8000_0000_0000_0000;
    var k: int := kMin;
    while k <= kMax
      invariant kMin <= kMax ==> kMin <= k <= kMax as int + 1 && kMin <= lag <= kMax
      invariant k == kMin ==> best == -0x8000_0000_0000_0000 && lag == kMin
      invariant kMin > kMax ==> k == kMin
      invariant k > kMin ==> lag < k && best == RN(xb, exc, lag)
      invariant forall j | kMin <= j < k :: RN(xb, exc, j) <= best && (j < lag ==> RN(xb, exc, j) < best)
    {
      var acc := Correlate(xb, exc, k);
      RNBound(xb, exc, k);
      if acc > best {
        best, lag := acc, k;
      }
      k := k + 1;
    }
    rn := Sat32(best);
  }

  lemma RNBound(xb: Subframe, exc: Excitation, k: nat)
    requires k <= 153
    ensures Abs(RN(xb, exc, k)) <= 40 * 0x8000_0000
  {
    IntegerBound(xb, exc, k, 40);
  }

  // ---------- refinement ----------

  // The candidates around an integer winner, lowest delay first.
  function Candidates(lag: int, first: int, last: int): (l: seq<Delay>)
    ensures |l| >= 3
  {
    (if lag == first then [Delay(lag - 1, 1)] else [])
    + [Delay(lag, -1), Delay(lag, 0), Delay(lag, 1)]
    + (if lag == last then [Delay(lag + 1, -1)] else [])
  }

  predicate InBuffer(l: seq<Delay>) {
    forall i | 0 <= i < |l| :: 0 <= l[i].lag <= 153
  }

  // Candidate i is the first of the first n with the largest criterion.
  predicate BestDelay(xb: Subframe, exc: Excitation, l: seq<Delay>, n: nat, i: nat)
    requires InBuffer(l) && n <= |l|
  {
    && i < n
    && (forall j | 0 <= j < n :: RNT(xb, exc, l[j]) <= RNT(xb, exc, l[i]))
    && (forall j | 0 <= j < i :: RNT(xb, exc, l[j]) < RNT(xb, exc, l[i]))
  }

  method CorrelateAtFrac(xb: Subframe, exc: Excitation, d: Delay) returns (acc: int)
    requires 0 <= d.lag <= 153
    ensures acc == RNT(xb, exc, d)
  {
    hide Interpolate3;
    acc := 0;
    for n := 0 to 40
      invariant acc == FractionTo(xb, exc, d.lag, d.frac, n)
    {
      acc := acc + 2 * (xb[n] as int) * Interpolate3(exc, d.lag - n, d.frac);
    }
  }

  // d is the first candidate with the largest criterion, so the lowest such delay.
  ghost predicate Selected(xb: Subframe, exc: Excitation, l: seq<Delay>, d: Delay) {
    InBuffer(l) && exists i: nat | i < |l| :: d == l[i] && BestDelay(xb, exc, l, |l|, i)
  }

  // The `consider` calls, in the order of the list.
  method Refine(xb: Subframe, exc: Excitation, l: seq<Delay>) returns (d: Delay)
    requires |l| >= 1 && InBuffer(l)
    ensures Selected(xb, exc, l, d)
  {
    hide RNT;
    d := l[0];
    ghost var i := 0;
    var bestRN := CorrelateAtFrac(xb, exc, l[0]);
    for j := 1 to |l|
      invariant i < j && d == l[i] && bestRN == RNT(xb, exc, l[i]) && BestDelay(xb, exc, l, j, i)
    {
      var rn := CorrelateAtFrac(xb, exc, l[j]);
      if rn > bestRN {
        d, i, bestRN := l[j], j, rn;
      }
    }
  }

  // The candidates stand in order of delay, so a tie goes to the shortest.
  lemma CandidatesAscend(lag: int, first: int, last: int, i: nat, j: nat)
    requires i < j < |Candidates(lag, first, last)|
    ensures var l := Candidates(lag, first, last);
            3 * l[i].lag + l[i].frac < 3 * l[j].lag + l[j].frac
  {
  }

  method RefineFractionSubframe1(xb: Subframe, exc: Excitation, lag: nat) returns (d: Delay)
    requires PITCH_MIN <= lag <= PITCH_MAX
    ensures lag >= 85 ==> d == Delay(lag, 0)
    ensures lag < 85 ==> Selected(xb, exc, Candidates(lag, PITCH_MIN, 84), d)
    ensures EncodableP1(d.lag, d.frac)
  {
    hide RNT;
    if lag >= 85 {
      return Delay(lag, 0);
    }
    d := Refine(xb, exc, Candidates(lag, PITCH_MIN, 84));
  }

  method RefineFractionSubframe2(xb: Subframe, exc: Excitation, lag: nat, intT1: Word16) returns (d: Delay)
    requires var (tmin, tmax) := Subframe2Window(intT1); tmin <= lag <= tmax
    ensures var (tmin, tmax) := Subframe2Window(intT1);
            Selected(xb, exc, Candidates(lag, tmin, tmax), d)
    ensures EncodableP2(d.lag, d.frac, intT1)
  {
    hide RNT;
    var (tmin, tmax) := Subframe2Window(intT1);
    d := Refine(xb, exc, Candidates(lag, tmin, tmax));
  }

  // ---------- the chain ----------

  // Whatever the signals and the centre (every open-loop pitch is one), as long as the first window does
  // not wrap: both search results fit their code words without truncation, the receiver decodes the very
  // same delays, and the parity bit checks.
  method SearchFrame(xb1: Subframe, exc1: Excitation, xb2: Subframe, exc2: Excitation, centre: Word16)
    returns (d1: Delay, d2: Delay, p1: Byte, p0: nat, p2: Byte)
    requires Window1Sound(centre)
    ensures DecodeDelaySubframe1(p1) == (d1.lag, d1.frac)
    ensures p2 < 32 && DecodeDelaySubframe2(p2, d1.lag) == (d2.lag, d2.frac)
    ensures CheckParity(p1, p0)
    ensures EncodableP1(d1.lag, d1.frac) && EncodableP2(d2.lag, d2.frac, d1.lag)
  {
    hide RN, RNT, FirstMaximum, Parity, DecodeDelaySubframe1, DecodeDelaySubframe2, EncodeP1, EncodeP2;
    var lag1, rn1 := SearchInteger(xb1, exc1, centre, 0);
    InsideWindow(xb1, exc1, centre, 0, lag1);
    d1 := RefineFractionSubframe1(xb1, exc1, lag1);
    p1 := EncodeP1(d1.lag, d1.frac);
    p0 := Parity(p1);
    P1RoundTrip(d1.lag, d1.frac);
    ParityChecks(p1);
    var lag2, rn2 := SearchInteger(xb2, exc2, d1.lag, 1);
    InsideWindow(xb2, exc2, d1.lag, 1, lag2);
    d2 := RefineFractionSubframe2(xb2, exc2, lag2, d1.lag);
    p2 := EncodeP2(d2.lag, d2.frac, Subframe2Window(d1.lag).0);
    P2RoundTrip(d2.lag, d2.frac, d1.lag);
  }

  lemma InsideWindow(xb: Subframe, exc: Excitation, centre: Word16, sub: nat, lag: nat)
    requires var (lo, hi) := if sub == 0 then Subframe1Window(centre) else Subframe2Window(centre);
             lo <= hi && FirstMaximum(xb, exc, lo, hi, lag)
    ensures sub == 0 ==> Subframe1Window(centre).0 <= lag <= Subframe1Window(centre).1
    ensures sub != 0 ==> Subframe2Window(centre).0 <= lag <= Subframe2Window(centre).1
    ensures PITCH_MIN <= lag <= PITCH_MAX
  {
  }

  lemma ParityChecks(p1: Byte)
    ensures CheckParity(p1, Parity(p1))
  {
    hide Parity, Bit;
    ParityIsOdd(p1);
  }
}
