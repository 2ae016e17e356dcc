/** The adaptive codebook of section 3.7.1 of ITU-T G.729: a 1/3-sample interpolation of the past
    excitation that may read samples of the subframe being built (internal/pitch/adaptive.go). */
module AdaptiveCodebook {
  import opened Fixed

  const LINTER: nat := 10
  const SUBFRAME: nat := 40

  // The furthest sample any decodable delay reads.
  const HISTORY: nat := 153

  // One half of the symmetric interpolation filter b30, Q15 (internal/tables/pitch_interp.go).
  const PITCH_INTERP_FIR: seq<Word16> := [
    29443,
    25207, 14701, 3143,
    -4402, -5850, -2783,
    1211, 3130, 2259,
    0, -1652, -1666,
    -464, 756, 1099,
    550, -245, -634,
    -451, 0, 308,
    296, 78, -120,
    -165, -79, 34,
    91, 70, 0]

  // Delay tInt + tFrac / 3 as a start sample k and the two filter phases.
  datatype Phase = Phase(k: int, pos: nat, neg: nat)

  type FirPhase = p: Phase | p.pos <= 3 && p.neg <= 3 witness Phase(0, 0, 3)

  function PhaseOf(tInt: int, tFrac: int): FirPhase {
    if tFrac == 0 then Phase(tInt, 0, 3)
    else if tFrac < 0 then Phase(tInt, 1, 2)
    else Phase(tInt + 1, 2, 1)
  }

  // Sample `relative` of the excitation: past for negative indices, the vector being built for the
  // others, zero outside both.
  function Source(relative: int, past: seq<Word16>, v: seq<Word16>): Word16 {
    if relative < 0 then
      var idx := |past| + relative;
      if 0 <= idx < |past| then past[idx] else 0
    else if relative < |v| then v[relative]
    else 0
  }

  // The first `taps` tap pairs of equation (40) for sample n, accumulated with saturation.
  function Accumulate(fir: seq<Word16>, p: FirPhase, n: int, past: seq<Word16>, v: seq<Word16>, taps: nat): Word32
    requires |fir| == 31 && taps <= LINTER
  {
    if taps == 0 then 0
    else
      var i := taps - 1;
      var acc := Accumulate(fir, p, n, past, v, i);
      var acc := LMac(acc, fir[p.pos + 3 * i], Source(n - p.k - i, past, v));
      LMac(acc, fir[p.neg + 3 * i], Source(n - p.k + 1 + i, past, v))
  }

  function Sample(fir: seq<Word16>, p: FirPhase, n: int, past: seq<Word16>, v: seq<Word16>): Word16
    requires |fir| == 31
  {
    Round(Accumulate(fir, p, n, past, v, LINTER))
  }

  // The contents of v once samples 0..n-1 have been written over v0.
  function Vector(fir: seq<Word16>, p: FirPhase, past: seq<Word16>, v0: seq<Word16>, n: nat): (v: seq<Word16>)
    requires |fir| == 31 && n <= |v0|
    ensures |v| == |v0|
  {
    if n == 0 then v0
    else
      var v := Vector(fir, p, past, v0, n - 1);
      v[n - 1 := Sample(fir, p, n - 1, past, v)]
  }

  // The adaptive codebook vector of a delay.
  function Codebook(tInt: int, tFrac: int, past: seq<Word16>): (v: seq<Word16>)
    ensures |v| == SUBFRAME
  {
    Vector(PITCH_INTERP_FIR, PhaseOf(tInt, tFrac), past, ZeroSubframe(), SUBFRAME)
  }

  // ---------- the three loops ----------

  method FirInterpolateRecursiveCurrent(
    fir: seq<Word16>, tInt: int, tFrac: int, pastExc: array<Word16>, v: array<Word16>)
    requires |fir| == 31 && v.Length == SUBFRAME && v != pastExc
    modifies v
    ensures v[..] == Vector(fir, PhaseOf(tInt, tFrac), pastExc[..], old(v[..]), SUBFRAME)
  {
    hide LMac, Round;
    ghost var past, v0, p := pastExc[..], v[..], PhaseOf(tInt, tFrac);
    var k, posPhase, negPhase;
    if tFrac == 0 {
      k, posPhase, negPhase := tInt, 0, 3;
    } else if tFrac < 0 {
      k, posPhase, negPhase := tInt, 1, 2;
    } else {
      k, posPhase, negPhase := tInt + 1, 2, 1;
    }
    for n := 0 to SUBFRAME
      invariant pastExc[..] == past
      invariant v[..] == Vector(fir, p, past, v0, n)
    {
      ghost var w := v[..];
      var acc: Word32 := 0;
      for i := 0 to LINTER
        invariant v[..] == w && pastExc[..] == past
        invariant acc == Accumulate(fir, p, n, past, w, i)
      {
        var back := AdaptiveSource(n - k - i, pastExc, v);
        var fwd := AdaptiveSource(n - k + 1 + i, pastExc, v);
        acc := LMac(acc, fir[posPhase + 3 * i], back);
        acc := LMac(acc, fir[negPhase + 3 * i], fwd);
      }
      v[n] := Round(acc);
      assert v[..] == w[n := Sample(fir, p, n, past, w)];
    }
  }

  method AdaptiveSource(relative: int, pastExc: array<Word16>, v: array<Word16>) returns (s: Word16)
    requires v.Length == SUBFRAME
    ensures s == Source(relative, pastExc[..], v[..])
  {
    if relative < 0 {
      var idx := pastExc.Length + relative;
      if idx >= 0 && idx < pastExc.Length {
        return pastExc[idx];
      }
      return 0;
    }
    if relative < 40 {
      return v[relative];
    }
    return 0;
  }

  // The fast loop never looks at v, so it computes the recursive definition only where no tap
  // reaches the current subframe.
  method FirInterpolate(
    fir: seq<Word16>, tInt: int, tFrac: int, pastExc: array<Word16>, v: array<Word16>, start: nat, end: nat)
    requires |fir| == 31 && v.Length == SUBFRAME && v != pastExc && start <= end <= SUBFRAME
    modifies v
    ensures v[..start] == old(v[..start]) && v[end..] == old(v[end..])
    ensures forall n | start <= n < end :: v[n] == Sample(fir, PhaseOf(tInt, tFrac), n, pastExc[..], [])
  {
    hide LMac, Round;
    ghost var past, p := pastExc[..], PhaseOf(tInt, tFrac);
    var k, posPhase, negPhase;
    if tFrac == 0 {
      k, posPhase, negPhase := tInt, 0, 3;
    } else if tFrac < 0 {
      k, posPhase, negPhase := tInt, 1, 2;
    } else {
      k, posPhase, negPhase := tInt + 1, 2, 1;
    }
    var base := pastExc.Length - k;
    var N := pastExc.Length;
    for n := start to end
      invariant pastExc[..] == past
      invariant v[..start] == old(v[..start]) && v[end..] == old(v[end..])
      invariant forall m | start <= m < n :: v[m] == Sample(fir, p, m, past, [])
    {
      var acc: Word32 := 0;
      for i := 0 to LINTER
        invariant acc == Accumulate(fir, p, n, past, [], i)
      {
        var backIdx := base + n - i;
        var fwdIdx := base + n + 1 + i;
        var back: Word16, fwd: Word16 := 0, 0;
        if backIdx >= 0 && backIdx < N {
          back := pastExc[backIdx];
        }
        if fwdIdx >= 0 && fwdIdx < N {
          fwd := pastExc[fwdIdx];
        }
        acc := LMac(acc, fir[posPhase + 3 * i], back);
        acc := LMac(acc, fir[negPhase + 3 * i], fwd);
      }
      v[n] := Round(acc);
    }
  }

  // For every delay the result is the recursive definition, sample for sample.
  method AdaptiveCodebook(tInt: int, tFrac: int, pastExc: array<Word16>, v: array<Word16>)
    requires v.Length == SUBFRAME && v != pastExc
    modifies v
    ensures v[..] == Vector(PITCH_INTERP_FIR, PhaseOf(tInt, tFrac), pastExc[..], old(v[..]), SUBFRAME)
  {
    if tInt <= 40 + LINTER - 1 {
      FirInterpolateRecursiveCurrent(PITCH_INTERP_FIR, tInt, tFrac, pastExc, v);
      return;
    }
    ghost var past, v0, p := pastExc[..], v[..], PhaseOf(tInt, tFrac);
    FirInterpolate(PITCH_INTERP_FIR, tInt, tFrac, pastExc, v, 0, 40);
    FastIsRecursive(PITCH_INTERP_FIR, p, past, v0, v[..]);
  }

  // ---------- what the definition depends on ----------

  lemma {:induction false} AccumulateAgrees(
    fir: seq<Word16>, p: FirPhase, n: int, past: seq<Word16>, v: seq<Word16>, past': seq<Word16>, v': seq<Word16>,
      taps: nat)
    requires |fir| == 31 && taps <= LINTER
    requires forall r | n - p.k - taps < r <= n - p.k + taps :: Source(r, past, v) == Source(r, past', v')
    ensures Accumulate(fir, p, n, past, v, taps) == Accumulate(fir, p, n, past', v', taps)
  {
    hide LMac, Source;
    if taps > 0 {
      AccumulateAgrees(fir, p, n, past, v, past', v', taps - 1);
    }
  }

  lemma {:induction false} VectorUnwritten(fir: seq<Word16>, p: FirPhase, past: seq<Word16>, v0: seq<Word16>, n: nat,
                                           j: nat)
    requires |fir| == 31 && n <= j < |v0|
    ensures Vector(fir, p, past, v0, n)[j] == v0[j]
  {
    if n > 0 {
      VectorUnwritten(fir, p, past, v0, n - 1, j);
    }
  }

  // From lag 11 on no tap meets a sample that is not written yet, and the last 153 samples of the
  // history are all that lags up to 144 can see: neither the initial contents of v nor older
  // history matters.
  lemma {:induction false} VectorAgrees(
    fir: seq<Word16>, p: FirPhase, past: seq<Word16>, v0: seq<Word16>, past': seq<Word16>, v0': seq<Word16>, n: nat)
    requires |fir| == 31 && 11 <= p.k <= 144
    requires |past| >= HISTORY && |past'| >= HISTORY
    requires past[|past| - HISTORY..] == past'[|past'| - HISTORY..]
    requires |v0| == |v0'| && n <= |v0|
    ensures Vector(fir, p, past, v0, n)[..n] == Vector(fir, p, past', v0', n)[..n]
  {
    hide Accumulate;
    if n > 0 {
      VectorAgrees(fir, p, past, v0, past', v0', n - 1);
      var v, v' := Vector(fir, p, past, v0, n - 1), Vector(fir, p, past', v0', n - 1);
      forall r | n - 1 - p.k - LINTER < r <= n - 1 - p.k + LINTER
        ensures Source(r, past, v) == Source(r, past', v')
      {
        if r >= 0 {
          assert r < n - 1;
          assert v[..n - 1][r] == v'[..n - 1][r];
        } else if HISTORY + r >= 0 {
          assert past[|past| - HISTORY..][HISTORY + r] == past'[|past'| - HISTORY..][HISTORY + r];
        }
      }
      AccumulateAgrees(fir, p, n - 1, past, v, past', v', LINTER);
    }
  }

  // Every delay either decoder formula or concealment can produce is in this set.
  predicate Decodable(tInt: int, tFrac: int) {
    19 <= tInt <= 144 && -1 <= tFrac <= 1 && (tInt == 144 ==> tFrac <= 0)
  }

  // The vector of a decodable delay does not depend on what v held before.
  lemma CodebookIgnoresContents(tInt: int, tFrac: int, past: seq<Word16>, v0: seq<Word16>)
    requires Decodable(tInt, tFrac) && |past| >= HISTORY && |v0| == SUBFRAME
    ensures Vector(PITCH_INTERP_FIR, PhaseOf(tInt, tFrac), past, v0, SUBFRAME) == Codebook(tInt, tFrac, past)
  {
    var p := PhaseOf(tInt, tFrac);
    VectorAgrees(PITCH_INTERP_FIR, p, past, v0, past, ZeroSubframe(), SUBFRAME);
    var v, w := Vector(PITCH_INTERP_FIR, p, past, v0, SUBFRAME), Codebook(tInt, tFrac, past);
    assert v == v[..SUBFRAME] && w == w[..SUBFRAME];
  }

  // Nor on history older than 153 samples.
  lemma CodebookIgnoresOldHistory(tInt: int, tFrac: int, past: seq<Word16>, past': seq<Word16>)
    requires Decodable(tInt, tFrac)
    requires |past| >= HISTORY && |past'| >= HISTORY
    requires past[|past| - HISTORY..] == past'[|past'| - HISTORY..]
    ensures Codebook(tInt, tFrac, past) == Codebook(tInt, tFrac, past')
  {
    var p := PhaseOf(tInt, tFrac);
    VectorAgrees(PITCH_INTERP_FIR, p, past, ZeroSubframe(), past', ZeroSubframe(), SUBFRAME);
    var v, w := Codebook(tInt, tFrac, past), Codebook(tInt, tFrac, past');
    assert v == v[..SUBFRAME] && w == w[..SUBFRAME];
  }

  // From lag 50 on every tap reads the past, so the fast loop is the recursive definition.
  lemma FastIsRecursive(fir: seq<Word16>, p: FirPhase, past: seq<Word16>, v0: seq<Word16>, v: seq<Word16>)
    requires |fir| == 31 && p.k >= 50 && |v0| == |v| == SUBFRAME
    requires forall n | 0 <= n < SUBFRAME :: v[n] == Sample(fir, p, n, past, [])
    ensures v == Vector(fir, p, past, v0, SUBFRAME)
  {
    FastPrefix(fir, p, past, v0, v, SUBFRAME);
    var w := Vector(fir, p, past, v0, SUBFRAME);
    assert v == v[..SUBFRAME] && w == w[..SUBFRAME];
  }

  lemma {:induction false} FastPrefix(fir: seq<Word16>, p: FirPhase, past: seq<Word16>, v0: seq<Word16>,
                                      v: seq<Word16>, n: nat)
    requires |fir| == 31 && p.k >= 50 && |v0| == |v| == SUBFRAME && n <= SUBFRAME
    requires forall m | 0 <= m < SUBFRAME :: v[m] == Sample(fir, p, m, past, [])
    ensures Vector(fir, p, past, v0, n)[..n] == v[..n]
  {
    hide Accumulate;
    if n > 0 {
      FastPrefix(fir, p, past, v0, v, n - 1);
      AccumulateAgrees(fir, p, n - 1, past, Vector(fir, p, past, v0, n - 1), past, [], LINTER);
    }
  }

  // ---------- equation (40) ----------

  // The start sample and the phases of a delay of 3 tInt + tFrac thirds of a sample: the two phases split
  // one sample, and the first is how far the delay stays behind sample k.
  lemma PhaseMeans(tInt: int, tFrac: int)
    requires -1 <= tFrac <= 1
    ensures var p := PhaseOf(tInt, tFrac);
            3 * p.k - p.pos == 3 * tInt + tFrac && p.pos + p.neg == 3 && p.pos < 3
  {
  }

  // The symmetric filter b30 at a distance in thirds of a sample; it reaches ten samples.
  function B30(d: int): Word16 {
    if Abs(d) <= 30 then PITCH_INTERP_FIR[Abs(d)] else 0
  }

  // The last whole sample at or before a delay in thirds.
  function Whole(thirds: int): int {
    (thirds + 2) / 3
  }

  // The accumulator after the sample at distance d from n has been added, weighted by how far it is from the
  // point `thirds` before n.
  function Weighed(thirds: int, n: int, past: seq<Word16>, v: seq<Word16>, acc: Word32, d: int): Word32 {
    LMac(acc, B30(3 * d + thirds), Source(n + d, past, v))
  }

  // Equation (40) without phases: the samples on both sides of that point, nearest first, saturating on the way.
  function ByDistance(thirds: int, n: int, past: seq<Word16>, v: seq<Word16>, taps: nat): Word32
    requires taps <= LINTER
  {
    if taps == 0 then 0
    else
      var acc := Weighed(thirds, n, past, v, ByDistance(thirds, n, past, v, taps - 1), -Whole(thirds) - (taps - 1));
      Weighed(thirds, n, past, v, acc, -Whole(thirds) + taps)
  }

  lemma {:induction false} AccumulateByDistance(
    tInt: int, tFrac: int, n: int, past: seq<Word16>, v: seq<Word16>, taps: nat)
    requires -1 <= tFrac <= 1 && taps <= LINTER
    ensures Accumulate(PITCH_INTERP_FIR, PhaseOf(tInt, tFrac), n, past, v, taps)
            == ByDistance(3 * tInt + tFrac, n, past, v, taps)
  {
    hide LMac, Source, PhaseOf, PITCH_INTERP_FIR, B30, Whole;
    if taps > 0 {
      AccumulateByDistance(tInt, tFrac, n, past, v, taps - 1);
      TapDistance(tInt, tFrac, taps - 1);
    }
  }

  lemma TapDistance(tInt: int, tFrac: int, i: nat)
    requires -1 <= tFrac <= 1 && i < LINTER
    ensures var p, thirds := PhaseOf(tInt, tFrac), 3 * tInt + tFrac;
            && p.k == Whole(thirds)
            && PITCH_INTERP_FIR[p.pos + 3 * i] == B30(3 * (-p.k - i) + thirds)
            && PITCH_INTERP_FIR[p.neg + 3 * i] == B30(3 * (-p.k + 1 + i) + thirds)
  {
    hide PITCH_INTERP_FIR;
    PhaseMeans(tInt, tFrac);
    hide PhaseOf;
    var p, thirds := PhaseOf(tInt, tFrac), 3 * tInt + tFrac;
    assert 3 * (-p.k - i) + thirds == -(p.pos + 3 * i) && 3 * (-p.k + 1 + i) + thirds == p.neg + 3 * i;
    hide Whole;
  }

  // What sample m contributes to sample n, doubled as LMac doubles it.
  function Term(thirds: int, n: int, past: seq<Word16>, v: seq<Word16>, m: int): int {
    2 * (B30(3 * (m - n) + thirds) * Source(m, past, v))
  }

  // The exact sum over the samples from lo up to but not including hi.
  function Sum(thirds: int, n: int, past: seq<Word16>, v: seq<Word16>, lo: int, hi: int): int
    decreases hi - lo
  {
    if hi <= lo then 0 else Sum(thirds, n, past, v, lo, hi - 1) + Term(thirds, n, past, v, hi - 1)
  }

  lemma {:induction false} SumFromBelow(thirds: int, n: int, past: seq<Word16>, v: seq<Word16>, lo: int, hi: int)
    requires lo < hi
    ensures Sum(thirds, n, past, v, lo, hi) == Term(thirds, n, past, v, lo) + Sum(thirds, n, past, v, lo + 1, hi)
    decreases hi - lo
  {
    hide Term;
    if lo + 1 < hi {
      SumFromBelow(thirds, n, past, v, lo, hi - 1);
    } else {
      assert Sum(thirds, n, past, v, lo, lo) == 0;
    }
  }

  predicate Fits32(x: int) {
    MIN32 <= x <= MAX32
  }

  // No partial sum on the way out from the delay leaves 32 bits.
  predicate Unclipped(thirds: int, n: int, past: seq<Word16>, v: seq<Word16>) {
    forall i | 0 <= i < LINTER :: PairUnclipped(thirds, n, past, v, i)
  }

  predicate PairUnclipped(thirds: int, n: int, past: seq<Word16>, v: seq<Word16>, i: nat) {
    var m := n - Whole(thirds);
    Fits32(Sum(thirds, n, past, v, m - i, m + i + 1)) && Fits32(Sum(thirds, n, past, v, m - i, m + i + 2))
  }

  lemma {:induction false} ByDistanceIsSum(thirds: int, n: int, past: seq<Word16>, v: seq<Word16>, taps: nat)
    requires taps <= LINTER && Unclipped(thirds, n, past, v)
    ensures var k := Whole(thirds);
            ByDistance(thirds, n, past, v, taps) as int == Sum(thirds, n, past, v, n - k - taps + 1, n - k + taps + 1)
  {
    hide B30, Source, Term, ByDistance;
    var k := Whole(thirds);
    if taps == 0 {
      assert ByDistance(thirds, n, past, v, 0) == 0 by {
        NoTaps(thirds, n, past, v);
      }
    } else {
      var i := taps - 1;
      assert PairUnclipped(thirds, n, past, v, i);
      ByDistanceIsSum(thirds, n, past, v, i);
      SumFromBelow(thirds, n, past, v, n - k - i, n - k + i + 1);
      ByDistanceStep(thirds, n, past, v, i);
    }
  }

  lemma {:induction false} ByDistanceStep(thirds: int, n: int, past: seq<Word16>, v: seq<Word16>, i: nat)
    requires i < LINTER
    ensures var d, d' := -Whole(thirds) - i, -Whole(thirds) + i + 1;
            var b := Sat32(ByDistance(thirds, n, past, v, i) + Term(thirds, n, past, v, n + d));
            ByDistance(thirds, n, past, v, i + 1) == Sat32(b + Term(thirds, n, past, v, n + d'))
  {
    hide ByDistance, Weighed, Term, Whole, Sat32;
    var d, d', a := -Whole(thirds) - i, -Whole(thirds) + i + 1, ByDistance(thirds, n, past, v, i);
    TapTerm(thirds, n, past, v, d, a);
    TapTerm(thirds, n, past, v, d', Weighed(thirds, n, past, v, a, d));
    Unfolded(thirds, n, past, v, i);
  }

  lemma Unfolded(thirds: int, n: int, past: seq<Word16>, v: seq<Word16>, i: nat)
    requires i < LINTER
    ensures var acc := Weighed(thirds, n, past, v, ByDistance(thirds, n, past, v, i), -Whole(thirds) - i);
            ByDistance(thirds, n, past, v, i + 1) == Weighed(thirds, n, past, v, acc, -Whole(thirds) + i + 1)
  {
    hide Weighed, Whole;
  }

  lemma NoTaps(thirds: int, n: int, past: seq<Word16>, v: seq<Word16>)
    ensures ByDistance(thirds, n, past, v, 0) == 0
  {
  }

  lemma TapTerm(thirds: int, n: int, past: seq<Word16>, v: seq<Word16>, d: int, acc: Word32)
    ensures Weighed(thirds, n, past, v, acc, d) == Sat32(acc + Term(thirds, n, past, v, n + d))
  {
    B30Small(3 * d + thirds);
    hide B30, Source;
  }

  lemma B30Small(d: int)
    ensures B30(d) != MIN16
  {
  }

  // Sample n of the vector of a decodable delay: the interpolation of the excitation around 3 tInt + tFrac
  // thirds before n, its own samples included, in the order of the loops; and, as long as no partial sum
  // leaves 32 bits, the rounded sum of all 20 samples in reach.
  lemma InterpolationLaw(tInt: int, tFrac: int, past: seq<Word16>, n: nat)
    requires Decodable(tInt, tFrac) && n < SUBFRAME
    ensures var v, thirds := Codebook(tInt, tFrac, past), 3 * tInt + tFrac;
            var k := Whole(thirds);
            && v[n] == Round(ByDistance(thirds, n, past, v, LINTER))
            && (Unclipped(thirds, n, past, v) ==>
                  v[n] as int == Sat32(Sum(thirds, n, past, v, n - k - 9, n - k + 11) + 0x8000) / 0x1_0000)
  {
    hide Source, ByDistance, Accumulate, Sum, Unclipped;
    var v, thirds := Codebook(tInt, tFrac, past), 3 * tInt + tFrac;
    SampleFixed(PhaseOf(tInt, tFrac), past, n);
    AccumulateByDistance(tInt, tFrac, n, past, v, LINTER);
    if Unclipped(thirds, n, past, v) {
      ByDistanceIsSum(thirds, n, past, v, LINTER);
    }
  }

  // From lag 11 on the finished vector satisfies its own recursion.
  lemma SampleFixed(p: FirPhase, past: seq<Word16>, n: nat)
    requires p.k >= 11 && n < SUBFRAME
    ensures var v := Vector(PITCH_INTERP_FIR, p, past, ZeroSubframe(), SUBFRAME);
            v[n] == Sample(PITCH_INTERP_FIR, p, n, past, v)
  {
    hide Accumulate;
    var fir, v0 := PITCH_INTERP_FIR, ZeroSubframe();
    var w, v := Vector(fir, p, past, v0, n), Vector(fir, p, past, v0, SUBFRAME);
    Written(fir, p, past, v0, n + 1, SUBFRAME);
    forall r | n - p.k - LINTER < r <= n - p.k + LINTER
      ensures Source(r, past, w) == Source(r, past, v)
    {
      if r >= 0 {
        assert v[..n + 1][r] == Vector(fir, p, past, v0, n + 1)[..n + 1][r];
      }
    }
    AccumulateAgrees(fir, p, n, past, w, past, v, LINTER);
    assert v[..n + 1][n] == Vector(fir, p, past, v0, n + 1)[..n + 1][n];
  }

  lemma {:induction false} Written(fir: seq<Word16>, p: FirPhase, past: seq<Word16>, v0: seq<Word16>, m: nat, n: nat)
    requires |fir| == 31 && m <= n <= |v0|
    ensures Vector(fir, p, past, v0, n)[..m] == Vector(fir, p, past, v0, m)[..m]
  {
    hide Accumulate;
    if m < n {
      Written(fir, p, past, v0, m, n - 1);
    }
  }
}
