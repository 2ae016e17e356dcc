/** Interval arithmetic for an excitation fed back two subframes later through the adaptive codebook
    (internal/pitch/adaptive.go) with a pitch gain above one: if a subframe holds four positive pulses and little
    else, in known bands, so does the next one, and its bands follow from those of the three before it. */
module AdaptiveBands {
  import opened Fixed
  import opened Codec
  import A = AdaptiveCodebook

  const LAG: nat := 80
  const GP: Word16 := 17839

  predicate Pulse(n: int) {
    n == 10 || n == 17 || n == 24 || n == 31
  }

  // ---------- one tap of the adaptive codebook ----------

  // Magnitude of the interpolation filter at whole-sample distance d.
  function Tap(d: nat): nat {
    if d == 0 then 29443 else if d == 1 then 3143 else if d == 2 then 2783 else if d == 3 then 2259
    else if d == 4 then 1666 else if d == 5 then 1099 else if d == 6 then 634 else if d == 7 then 308
    else if d == 8 then 120 else if d == 9 then 34 else 0
  }

  function Fir(d: nat): Word16
    requires d <= 10
  {
    A.PITCH_INTERP_FIR[3 * d]
  }

  lemma TapIs(d: nat)
    requires d <= 10
    ensures Abs(Fir(d)) == Tap(d) && Fir(d) > MIN16
    ensures d == 0 || d == 7 ==> Fir(d) as int == Tap(d)
  {
    if d == 0 {
    } else if d == 1 {
    } else if d == 2 {
    } else if d == 3 {
    } else if d == 4 {
    } else if d == 5 {
    } else if d == 6 {
    } else if d == 7 {
    } else if d == 8 {
    } else if d == 9 {
    } else {
    }
  }

  // The excitation two subframes back, and the samples on either side of it.
  function At(past: OldExc, m: int): Word16
    requires -10 <= m < 50
  {
    past[74 + m]
  }

  const PHASE: A.FirPhase := A.Phase(80, 0, 3)

  function AccumulateAt(past: OldExc, n: nat, taps: nat): Word32
    requires taps <= 10
  {
    A.Accumulate(A.PITCH_INTERP_FIR, PHASE, n, past, [], taps)
  }

  lemma AccumulateStep(past: OldExc, n: nat, i: nat)
    requires i < 10 && n < 40
    ensures AccumulateAt(past, n, i + 1)
            == LMac(LMac(AccumulateAt(past, n, i), Fir(i), At(past, n - i)),
                    Fir(i + 1), At(past, n + 1 + i))
  {
    hide LMac;
    assert A.Source(n - 80 - i, past, []) == At(past, n - i);
    assert A.Source(n - 80 + 1 + i, past, []) == At(past, n + 1 + i);
  }

  // One product added with saturation: bounds that already allow for the sum carry over.
  lemma MacBetween(acc: Word32, t: Word16, x: Word16, lo: int, hi: int, l: int, h: int)
    requires lo <= acc <= hi && l <= (t as int) * x <= h && t > MIN16
    requires lo + 2 * l <= MAX32 && hi + 2 * h >= MIN32
    ensures lo + 2 * l <= LMac(acc, t, x) <= hi + 2 * h
  {
    var p := (t as int) * x;
    assert LMult(t, x) as int == 2 * p by { ProductBound(t, x); }
  }

  // ---------- samples between the pulses ----------

  // Every sample within reach is a pulse of size at most p on top of a floor: r in the subframe itself,
  // o outside it.
  predicate Sized(past: OldExc, p: nat, r: nat, o: nat) {
    forall m | -10 <= m < 50 ::
      Abs(At(past, m)) <= (if 0 <= m < 40 then r else o) + (if m == -9 || Pulse(m) then p else 0)
  }

  function RestTo(n: nat, r: nat, o: nat, taps: nat): nat {
    if taps == 0 then 0
    else RestTo(n, r, o, taps - 1) + Tap(taps - 1) * (if n - (taps - 1) >= 0 then r else o)
         + Tap(taps) * (if n + taps < 40 then r else o)
  }

  // Weight of sample q among the first taps.
  function Single(n: nat, q: int, taps: nat): nat {
    if taps == 0 then 0
    else
      Single(n, q, taps - 1) + (if n - (taps - 1) == q then Tap(taps - 1) else 0)
      + (if n + taps == q then Tap(taps) else 0)
  }

  function PulsesTo(n: nat, taps: nat): nat {
    Single(n, -9, taps) + Single(n, 10, taps) + Single(n, 17, taps) + Single(n, 24, taps) + Single(n, 31, taps)
  }

  lemma TapTimes(d: nat, x: Word16, f: nat, p: nat)
    requires d <= 10 && Abs(x) <= f + p
    ensures Abs((Fir(d) as int) * x) <= Tap(d) * f + p * Tap(d)
  {
    TapIs(d);
    hide Tap, Fir;
    MulAbsLe(Fir(d), x, Tap(d), f + p);
    OverSum(Tap(d), f, p);
  }

  lemma OverSum(t: int, f: int, p: int)
    ensures t * (f + p) == t * f + p * t
  {
  }

  // Weight of the pulses at distance m of the sample, if there is one.
  function PulseAt(m: int, weight: nat): nat {
    if m == -9 || Pulse(m) then weight else 0
  }

  lemma PulsesStep(n: nat, taps: nat)
    requires n < 40 && 0 < taps <= 10
    ensures PulsesTo(n, taps)
            == PulsesTo(n, taps - 1) + PulseAt(n - (taps - 1), Tap(taps - 1)) + PulseAt(n + taps, Tap(taps))
  {
    hide Tap;
    var i := taps - 1;
    SingleStep(n, -9, taps);
    SingleStep(n, 10, taps);
    SingleStep(n, 17, taps);
    SingleStep(n, 24, taps);
    SingleStep(n, 31, taps);
    hide Single;
  }

  lemma SingleStep(n: nat, q: int, taps: nat)
    requires taps > 0
    ensures Single(n, q, taps) == Single(n, q, taps - 1) + (if n - (taps - 1) == q then Tap(taps - 1) else 0)
                                  + (if n + taps == q then Tap(taps) else 0)
  {
    hide Tap;
  }

  // What tap pair i adds at most to half the accumulator.
  function Pair(n: nat, p: nat, r: nat, o: nat, i: nat): nat {
    Tap(i) * (if n - i >= 0 then r else o) + p * PulseAt(n - i, Tap(i))
    + (Tap(i + 1) * (if n + i + 1 < 40 then r else o) + p * PulseAt(n + i + 1, Tap(i + 1)))
  }

  lemma RestStep(past: OldExc, n: nat, p: nat, r: nat, o: nat, i: nat, b: int)
    requires n < 40 && i < 10 && Sized(past, p, r, o) && -2 * b <= AccumulateAt(past, n, i) <= 2 * b
    ensures var c := b + Pair(n, p, r, o, i);
            -2 * c <= AccumulateAt(past, n, i + 1) <= 2 * c
  {
    hide AccumulateAt, At, Sized, PulseAt, Pulse, Tap, LMac, Fir;
    AccumulateStep(past, n, i);
    TapIs(i);
    TapIs(i + 1);
    SizedTap(past, p, r, o, i, n - i);
    SizedTap(past, p, r, o, i + 1, n + 1 + i);
    var h := Tap(i) * (if n - i >= 0 then r else o) + p * PulseAt(n - i, Tap(i));
    var h' := Tap(i + 1) * (if n + i + 1 < 40 then r else o) + p * PulseAt(n + i + 1, Tap(i + 1));
    MacTwice(AccumulateAt(past, n, i), Fir(i), At(past, n - i), Fir(i + 1), At(past, n + 1 + i), 2 * b, h, h');
  }

  lemma {:induction false} RestBetween(past: OldExc, n: nat, p: nat, r: nat, o: nat, taps: nat)
    requires n < 40 && taps <= 10 && Sized(past, p, r, o)
    ensures var b := RestTo(n, r, o, taps) + p * PulsesTo(n, taps);
            -2 * b <= AccumulateAt(past, n, taps) <= 2 * b
  {
    hide PulsesTo, Tap, Sized;
    if taps == 0 {
      assert AccumulateAt(past, n, 0) == 0;
    } else {
      hide AccumulateAt, RestTo, PulseAt, Pair;
      RestBetween(past, n, p, r, o, taps - 1);
      RestStep(past, n, p, r, o, taps - 1, RestTo(n, r, o, taps - 1) + p * PulsesTo(n, taps - 1));
      PairAdds(n, p, r, o, taps);
    }
  }

  lemma PairAdds(n: nat, p: nat, r: nat, o: nat, taps: nat)
    requires n < 40 && 0 < taps <= 10
    ensures RestTo(n, r, o, taps) + p * PulsesTo(n, taps)
            == RestTo(n, r, o, taps - 1) + p * PulsesTo(n, taps - 1) + Pair(n, p, r, o, taps - 1)
  {
    PulsesStep(n, taps);
    hide PulsesTo, PulseAt, Tap;
    Collect(p, PulsesTo(n, taps - 1), PulseAt(n - (taps - 1), Tap(taps - 1)), PulseAt(n + taps, Tap(taps)));
  }

  lemma Collect(p: int, s: int, a: int, b: int)
    ensures p * (s + a + b) == p * s + p * a + p * b
  {
  }

  lemma SizedTap(past: OldExc, p: nat, r: nat, o: nat, d: nat, m: int)
    requires Sized(past, p, r, o) && d <= 10 && -10 <= m < 50
    ensures Abs((Fir(d) as int) * At(past, m)) <= Tap(d) * (if 0 <= m < 40 then r else o) + p * PulseAt(m, Tap(d))
  {
    hide Tap, Fir;
    TapTimes(d, At(past, m), if 0 <= m < 40 then r else o, if m == -9 || Pulse(m) then p else 0);
  }

  lemma MacTwice(acc: Word32, t: Word16, x: Word16, t': Word16, x': Word16, b: int, h: int, h': int)
    requires -b <= acc <= b && Abs((t as int) * x) <= h && Abs((t' as int) * x') <= h' && t > MIN16 && t' > MIN16
    ensures -b - 2 * h - 2 * h' <= LMac(LMac(acc, t, x), t', x') <= b + 2 * h + 2 * h'
  {
    hide LMac;
    MacBetween(acc, t, x, -b, b, -h, h);
    MacBetween(LMac(acc, t, x), t', x', -b - 2 * h, b + 2 * h, -h', h');
  }

  // Weight of sample q in the whole filter.
  function Weight(n: int, q: int): nat {
    Tap(Abs(n - q))
  }

  lemma {:induction false} SingleBelow(n: nat, q: int, taps: nat)
    requires taps <= 10
    ensures Single(n, q, taps) == if n - taps < q <= n + taps then Weight(n, q) else 0
  {
    hide Tap;
    if taps > 0 {
      SingleBelow(n, q, taps - 1);
    }
  }

  lemma PulseWeights(n: nat)
    requires n < 40 && !Pulse(n)
    ensures PulsesTo(n, 10) <= 3925
  {
    SingleBelow(n, -9, 10);
    SingleBelow(n, 10, 10);
    SingleBelow(n, 17, 10);
    SingleBelow(n, 24, 10);
    SingleBelow(n, 31, 10);
    hide Single;
    TwoNearest(n);
    hide Weight, Pulse;
  }

  lemma TwoNearest(n: nat)
    requires n < 40 && !Pulse(n)
    ensures Weight(n, -9) + Weight(n, 10) + Weight(n, 17) + Weight(n, 24) + Weight(n, 31) <= 3925
  {
    if n < 10 {
    } else if n < 17 {
    } else if n < 24 {
    } else if n < 31 {
    } else {
    }
  }

  // The taps 1..t-1 of one side.
  function Side(t: nat): nat {
    if t <= 1 then 0 else Side(t - 1) + Tap(t - 1)
  }

  lemma Sides()
    ensures Side(10) == Side(11) == 12046
  {
    assert Side(5) == 9851;
    assert Side(10) == 12046;
  }

  lemma SideStep(t: nat, x: nat)
    requires t >= 1
    ensures t > 1 ==> Side(t) * x == Side(t - 1) * x + Tap(t - 1) * x
    ensures t == 1 ==> Side(t) * x == 0
  {
    hide Tap;
    if t > 1 {
      OverSum(x, Side(t - 1), Tap(t - 1));
    }
  }

  // At most one side reaches out of the subframe.
  lemma {:induction false} RestSides(n: nat, r: nat, o: nat, taps: nat)
    requires n < 40 && 1 <= taps <= 10 && r <= o
    ensures RestTo(n, r, o, taps) <= Tap(0) * r + if n < 20 then Side(taps) * o + Side(taps + 1) * r
                                                  else Side(taps) * r + Side(taps + 1) * o
    decreases taps
  {
    hide Tap, Side;
    SideStep(taps, r);
    SideStep(taps, o);
    SideStep(taps + 1, r);
    SideStep(taps + 1, o);
    FloorAt(n, r, o, taps);
    if taps == 1 {
      assert RestTo(n, r, o, 0) == 0;
    } else {
      RestSides(n, r, o, taps - 1);
    }
  }

  lemma FloorAt(n: nat, r: nat, o: nat, taps: nat)
    requires n < 40 && 1 <= taps <= 10 && r <= o
    ensures var i := taps - 1;
            Tap(i) * (if n - i >= 0 then r else o) <= Tap(i) * (if n < 20 then o else r)
    ensures Tap(taps) * (if n + taps < 40 then r else o) <= Tap(taps) * (if n < 20 then r else o)
  {
    hide Tap;
    MulMono(r, o, Tap(taps - 1));
    MulMono(r, o, Tap(taps));
  }

  lemma RestBound(past: OldExc, n: nat, p: nat, r: nat, o: nat)
    requires n < 40 && !Pulse(n) && Sized(past, p, r, o) && r <= o
    ensures Abs(AccumulateAt(past, n, 10)) <= 2 * (3925 * p + 41489 * r + 12046 * o)
  {
    hide Sized, AccumulateAt, RestTo, PulsesTo, Pulse;
    RestBetween(past, n, p, r, o, 10);
    RestSides(n, r, o, 10);
    Sides();
    PulseWeights(n);
    MulMono(PulsesTo(n, 10), 3925, p);
  }

  // ---------- samples at the pulses ----------

  // The bounds of one subframe: its pulses between lo and hi, the rest of magnitude at most `rest`.
  datatype Band = Band(lo: int, hi: int, rest: nat)

  predicate Proper(b: Band) {
    0 <= b.lo <= b.hi <= 0x7FFF
  }

  // What the filter sees around a pulse: other pulses seven samples away, the subframe's floor r within
  // eight samples, o further out.
  predicate AroundPulse(past: OldExc, n: nat, b: Band, o: nat)
    requires Pulse(n)
  {
    && b.lo <= At(past, n) <= b.hi
    && (forall m | n - 10 <= m < n + 11 && m != n ::
          (Abs(m - n) == 7 && 0 <= At(past, m) <= b.hi) || Abs(At(past, m)) <= Floor(b.rest, o, Abs(m - n)))
  }

  function Floor(r: nat, o: nat, d: nat): nat {
    if d < 9 then r else o
  }

  function SideTo(r: nat, o: nat, t: nat): nat {
    if t <= 1 then 0 else SideTo(r, o, t - 1) + Tap(t - 1) * Floor(r, o, t - 1)
  }

  function Bonus(hi: int, t: nat): int {
    if t > 7 then 308 * hi else 0
  }

  lemma AroundTap(past: OldExc, n: nat, b: Band, o: nat, d: nat, m: int)
    requires Pulse(n) && AroundPulse(past, n, b, o) && Proper(b) && 1 <= d <= 10 && (m == n - d || m == n + d)
    ensures -(Tap(d) * Floor(b.rest, o, d)) <= (Fir(d) as int) * At(past, m)
            <= Tap(d) * Floor(b.rest, o, d) + (if d == 7 then 308 * b.hi else 0)
  {
    TapIs(d);
    hide Fir;
    var f := Floor(b.rest, o, d);
    if d == 7 && 0 <= At(past, m) <= b.hi {
      MulMono(0, At(past, m), 308);
      MulMono(At(past, m), b.hi, 308);
      assert Tap(7) * f >= 0;
    } else {
      hide Tap;
      MulAbsLe(Fir(d), At(past, m), Tap(d), f);
    }
  }

  lemma {:induction false} PulseBetween(past: OldExc, n: nat, b: Band, o: nat, taps: nat)
    requires Pulse(n) && AroundPulse(past, n, b, o) && Proper(b) && 1 <= taps <= 10
    ensures var s := SideTo(b.rest, o, taps) + SideTo(b.rest, o, taps + 1);
            && 2 * (29443 * b.lo - s) <= AccumulateAt(past, n, taps)
            && AccumulateAt(past, n, taps) <= 2 * (29443 * b.hi + s + Bonus(b.hi, taps) + Bonus(b.hi, taps + 1))
    decreases taps
  {
    hide AroundPulse, Tap, Fir, LMac, At;
    if taps == 1 {
      assert AccumulateAt(past, n, 0) == 0;
      hide AccumulateAt;
      AccumulateStep(past, n, 0);
      CentreTap(past, n, b, o);
      AroundTap(past, n, b, o, 1, n + 1);
      TapIs(0);
      TapIs(1);
      MacBetween(0, Fir(0), At(past, n), 0, 0, 29443 * b.lo, 29443 * b.hi);
      MacBetween(LMac(0, Fir(0), At(past, n)), Fir(1), At(past, n + 1), 2 * (29443 * b.lo), 2 * (29443 * b.hi),
                 -(Tap(1) * Floor(b.rest, o, 1)), Tap(1) * Floor(b.rest, o, 1));
      assert SideTo(b.rest, o, 1) == 0;
    } else {
      hide AccumulateAt;
      PulseBetween(past, n, b, o, taps - 1);
      PulseStep(past, n, b, o, taps - 1, SideTo(b.rest, o, taps - 1) + SideTo(b.rest, o, taps),
                Bonus(b.hi, taps - 1) + Bonus(b.hi, taps));
    }
  }

  lemma CentreTap(past: OldExc, n: nat, b: Band, o: nat)
    requires Pulse(n) && AroundPulse(past, n, b, o)
    ensures 29443 * b.lo <= (Fir(0) as int) * At(past, n) <= 29443 * b.hi
  {
    TapIs(0);
    hide Fir;
  }

  lemma PulseStep(past: OldExc, n: nat, b: Band, o: nat, i: nat, s: nat, e: int)
    requires Pulse(n) && AroundPulse(past, n, b, o) && Proper(b) && 1 <= i < 10 && e >= 0
    requires 2 * (29443 * b.lo - s) <= AccumulateAt(past, n, i) <= 2 * (29443 * b.hi + s + e)
    ensures var s' := s + Tap(i) * Floor(b.rest, o, i) + Tap(i + 1) * Floor(b.rest, o, i + 1);
            var e' := e + (if i == 7 then 308 * b.hi else 0) + (if i + 1 == 7 then 308 * b.hi else 0);
            2 * (29443 * b.lo - s') <= AccumulateAt(past, n, i + 1) <= 2 * (29443 * b.hi + s' + e')
  {
    hide AccumulateAt, AroundPulse, Tap, Fir, LMac, At, Floor;
    AccumulateStep(past, n, i);
    TapIs(i);
    TapIs(i + 1);
    AroundTap(past, n, b, o, i, n - i);
    AroundTap(past, n, b, o, i + 1, n + 1 + i);
    var f, f' := Tap(i) * Floor(b.rest, o, i), Tap(i + 1) * Floor(b.rest, o, i + 1);
    var g, g' := (if i == 7 then 308 * b.hi else 0), (if i + 1 == 7 then 308 * b.hi else 0);
    MacBetween(AccumulateAt(past, n, i), Fir(i), At(past, n - i), 2 * (29443 * b.lo - s), 2 * (29443 * b.hi + s + e),
               -f, f + g);
    MacBetween(LMac(AccumulateAt(past, n, i), Fir(i), At(past, n - i)), Fir(i + 1), At(past, n + 1 + i),
               2 * (29443 * b.lo - s - f), 2 * (29443 * b.hi + s + e + f + g), -f', f' + g');
  }

  lemma SideSums(r: nat, o: nat)
    ensures SideTo(r, o, 10) == SideTo(r, o, 11) == 12012 * r + 34 * o
  {
    SideSum(r, o, 9);
    assert SideTo(r, o, 10) == SideTo(r, o, 9) + 34 * o;
    assert SideTo(r, o, 11) == SideTo(r, o, 10) + 0 * o;
    Sides();
    assert Side(9) == 12012;
  }

  lemma {:induction false} SideSum(r: nat, o: nat, t: nat)
    requires t <= 9
    ensures SideTo(r, o, t) == Side(t) * r
  {
    hide Tap;
    if t <= 1 {
      assert Side(t) == 0;
    } else {
      hide Side;
      SideSum(r, o, t - 1);
      SideStep(t, r);
    }
  }

  lemma PulseBound(past: OldExc, n: nat, b: Band, o: nat)
    requires Pulse(n) && AroundPulse(past, n, b, o) && Proper(b)
    ensures var s := 24024 * b.rest + 68 * o;
            2 * (29443 * b.lo - s) <= AccumulateAt(past, n, 10) <= 2 * (30059 * b.hi + s)
  {
    hide AroundPulse, AccumulateAt, SideTo;
    PulseBetween(past, n, b, o, 10);
    SideSums(b.rest, o);
  }

  // ---------- one subframe ----------

  function Rounded(x: int): int {
    (x + 0x8000) / 0x1_0000
  }

  predicate RoundsTo(x: int, q: int) {
    0x1_0000 * q <= x + 0x8000 < 0x1_0000 * (q + 1)
  }

  lemma RoundsIs(x: int, q: int)
    requires RoundsTo(x, q)
    ensures Rounded(x) == q
  {
  }

  // The band of the next subframe from those of the three before it and the code contribution.
  function NextBand(b3: Band, b2: Band, b1: Band, code: int): Band {
    var r, o, p := b2.rest, Outer(b3, b2, b1), Max(b2.hi, b3.hi);
    var vLo := Rounded(2 * (29443 * b2.lo - (24024 * r + 68 * o)));
    var vHi := Min(MAX16, Rounded(2 * (30059 * b2.hi + 24024 * r + 68 * o)));
    var vRest := Rounded(2 * (3925 * p + 41489 * r + 12046 * o));
    Band(Min(MAX16, Rounded(71356 * vLo + 2 * code)), Min(MAX16, Rounded(71356 * vHi + 2 * code)),
         Abs(Rounded(71356 * vRest)))
  }

  function Outer(b3: Band, b2: Band, b1: Band): nat {
    Max(b2.rest, Max(b1.rest, b3.rest))
  }

  predicate InBand(x: Subframe, b: Band) {
    forall n | 0 <= n < 40 :: if Pulse(n) then b.lo <= x[n] <= b.hi else -(b.rest as int) <= x[n] <= b.rest
  }

  // The last three subframes lie in their bands; of the one before, 34 samples are left.
  predicate Holds(x: OldExc, b4: Band, b3: Band, b2: Band, b1: Band) {
    && InBand(x[114..154], b1) && InBand(x[74..114], b2) && InBand(x[34..74], b3)
    && b4.lo <= x[4] && b4.lo <= x[11] && b4.lo <= x[18] && b4.lo <= x[25]
  }

  lemma AtSlices(x: OldExc, m: int)
    requires -10 <= m < 50
    ensures 0 <= m < 40 ==> At(x, m) == x[74..114][m]
    ensures m < 0 ==> At(x, m) == x[34..74][40 + m]
    ensures m >= 40 ==> At(x, m) == x[114..154][m - 40]
  {
  }

  lemma SizedByBands(x: OldExc, b4: Band, b3: Band, b2: Band, b1: Band)
    requires Holds(x, b4, b3, b2, b1) && Proper(b2) && Proper(b3)
    ensures Sized(x, Max(b2.hi, b3.hi), b2.rest, Outer(b3, b2, b1))
  {
    forall m | -10 <= m < 50
      ensures Abs(At(x, m)) <= (if 0 <= m < 40 then b2.rest else Outer(b3, b2, b1))
                               + (if m == -9 || Pulse(m) then Max(b2.hi, b3.hi) else 0)
    {
      AtSlices(x, m);
      hide At;
    }
  }

  lemma AroundByBands(x: OldExc, b4: Band, b3: Band, b2: Band, b1: Band, n: nat)
    requires Holds(x, b4, b3, b2, b1) && Proper(b2) && Pulse(n)
    ensures AroundPulse(x, n, b2, Outer(b3, b2, b1))
  {
    AtSlices(x, n);
    forall m | n - 10 <= m < n + 11 && m != n
      ensures (Abs(m - n) == 7 && 0 <= At(x, m) <= b2.hi)
              || Abs(At(x, m)) <= Floor(b2.rest, Outer(b3, b2, b1), Abs(m - n))
    {
      AtSlices(x, m);
      hide At;
    }
  }

  // The adaptive codebook vector, sample by sample.
  lemma VectorAt(x: OldExc, n: nat)
    requires n < 40
    ensures A.Codebook(LAG, 0, x)[n] == Round(AccumulateAt(x, n, 10))
  {
    hide A.Accumulate, Round;
    var v := seq(40, i requires 0 <= i < 40 => A.Sample(A.PITCH_INTERP_FIR, PHASE, i, x, []));
    A.FastIsRecursive(A.PITCH_INTERP_FIR, PHASE, x, ZeroSubframe(), v);
  }

  lemma RoundIs(acc: Word32)
    ensures Round(acc) == Sat16(Rounded(acc))
  {
  }

  lemma MixIs(v: Word16, code: Word32)
    ensures Round(LShl(LAdd(LMult(GP, v), code), 1)) == Sat16(Rounded(71356 * v + 2 * code))
  {
    assert Pow2(1) == 2;
    hide Pow2;
  }

  lemma RoundedGrows(x: int, y: int)
    requires x <= y
    ensures Rounded(x) <= Rounded(y) && Rounded(-y) <= Rounded(-x)
    ensures y >= 0 ==> 0 <= Rounded(y) && -Rounded(y) <= Rounded(-y)
  {
  }

  lemma PulseSample(x: OldExc, b4: Band, b3: Band, b2: Band, b1: Band, n: nat, v: Word16, code: Word32)
    requires Holds(x, b4, b3, b2, b1) && Proper(b2) && Pulse(n) && code >= 0 && v == Round(AccumulateAt(x, n, 10))
    ensures var b, u := NextBand(b3, b2, b1, code), Sat16(Rounded(71356 * v + 2 * code));
            b.lo >= 0 ==> b.lo <= u <= b.hi
  {
    hide Holds, AroundPulse, AccumulateAt, Round, Rounded, Outer;
    var o := Outer(b3, b2, b1);
    AroundByBands(x, b4, b3, b2, b1, n);
    PulseBound(x, n, b2, o);
    var acc := AccumulateAt(x, n, 10);
    RoundIs(acc);
    var lo, hi := 2 * (29443 * b2.lo - (24024 * b2.rest + 68 * o)), 2 * (30059 * b2.hi + 24024 * b2.rest + 68 * o);
    RoundedGrows(lo, acc);
    RoundedGrows(acc, hi);
    RoundedGrows(0, hi);
    MixMono(Rounded(lo), v, Min(MAX16, Rounded(hi)), code);
  }

  // A vector sample between two bounds gives an excitation sample between theirs.
  lemma MixMono(vLo: int, v: Word16, vHi: int, code: Word32)
    requires vHi >= 0 && code >= 0 && v <= vHi && Min(vLo, MAX16) <= v
    ensures var lo, hi := Min(MAX16, Rounded(71356 * vLo + 2 * code)), Min(MAX16, Rounded(71356 * vHi + 2 * code));
            var u := Sat16(Rounded(71356 * v + 2 * code));
            u <= hi && (lo >= 0 ==> lo <= u)
  {
    RoundedGrows(71356 * v + 2 * code, 71356 * vHi + 2 * code);
    RoundedGrows(0, 71356 * vHi + 2 * code);
    if vLo <= v {
      RoundedGrows(71356 * vLo + 2 * code, 71356 * v + 2 * code);
    } else {
      assert v == MAX16;
    }
  }

  lemma RestSample(x: OldExc, b4: Band, b3: Band, b2: Band, b1: Band, n: nat, v: Word16, code: Word32)
    requires Holds(x, b4, b3, b2, b1) && Proper(b2) && Proper(b3) && n < 40 && !Pulse(n)
    requires v == Round(AccumulateAt(x, n, 10))
    ensures var b, u := NextBand(b3, b2, b1, code), Sat16(Rounded(71356 * v));
            -(b.rest as int) <= u <= b.rest
  {
    hide Holds, Sized, AccumulateAt, Round, Rounded, Outer, Pulse;
    var p, r, o := Max(b2.hi, b3.hi), b2.rest, Outer(b3, b2, b1);
    OuterCovers(b3, b2, b1);
    SizedByBands(x, b4, b3, b2, b1);
    RestBound(x, n, p, r, o);
    var acc := AccumulateAt(x, n, 10);
    RoundIs(acc);
    var m := 2 * (3925 * p + 41489 * r + 12046 * o);
    RoundedGrows(acc, m);
    RoundedGrows(-m, acc);
    RoundedGrows(0, m);
    MixRest(v, Rounded(m));
  }

  lemma OuterCovers(b3: Band, b2: Band, b1: Band)
    ensures b2.rest <= Outer(b3, b2, b1)
  {
  }

  lemma MixRest(v: Word16, vRest: int)
    requires -vRest <= v <= vRest
    ensures -(Abs(Rounded(71356 * vRest)) as int) <= Sat16(Rounded(71356 * v)) <= Abs(Rounded(71356 * vRest))
  {
    RoundedGrows(71356 * v, 71356 * vRest);
    RoundedGrows(-71356 * vRest, 71356 * v);
    RoundedGrows(0, 71356 * vRest);
    hide Rounded;
  }

  lemma Shifted(x: OldExc, u: Subframe, b4: Band, b3: Band, b2: Band, b1: Band, b: Band)
    requires Holds(x, b4, b3, b2, b1) && InBand(u, b)
    ensures Holds(x[40..] + u, b3, b2, b1, b)
  {
    var y: OldExc := x[40..] + u;
    assert y[114..154] == u && y[74..114] == x[114..154] && y[34..74] == x[74..114];
    assert y[4] == x[34..74][10] && y[11] == x[34..74][17] && y[18] == x[34..74][24] && y[25] == x[34..74][31];
  }
}
