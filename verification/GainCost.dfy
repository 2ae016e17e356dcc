/** The final stage of the gain search (internal/gainquant/conjugate.go:200-270, 325-380): the shift that
    keeps the cost inside 64 bits and the first minimiser over the preselected pairs. */
module GainCost {
  import opened Fixed
  import opened GainSearch
  import G = Gain

  type Four = l: seq<nat> | |l| == 4 && forall i | 0 <= i < 4 :: l[i] < 8 witness [0, 1, 2, 3]
  type Eight = l: seq<nat> | |l| == 8 && forall i | 0 <= i < 8 :: l[i] < 16 witness [0, 1, 2, 3, 4, 5, 6, 7]

  // ---------- the candidates ----------

  // Quantised pitch gain (Q14), correction factor (Q13) and fixed gain (Q12) of a pair.
  function Gp(ga: nat, gb: nat): (g: nat)
    requires ga < 8 && gb < 16
    ensures g <= 22215
  {
    G.Gbk1(ga).0 + G.Gbk2(gb).0
  }

  function Gamma(ga: nat, gb: nat): (g: nat)
    requires ga < 8 && gb < 16
    ensures 0 < g <= 41438
  {
    G.Gbk1(ga).1 + G.Gbk2(gb).1
  }

  function Gc(ga: nat, gb: nat, gpc: Word32): int
    requires ga < 8 && gb < 16
  {
    (Gamma(ga, gb) * gpc) / 0x2000
  }

  lemma GcBound(ga: nat, gb: nat, gpc: Word32)
    requires ga < 8 && gb < 16
    ensures Abs(Gc(ga, gb, gpc)) < 0x4_0000_0000
  {
    MulAbsLe(Gamma(ga, gb), gpc, 41438, 0x8000_0000);
  }

  // Pair k of the 4 x 8 loop.
  function First(ga: Four, k: nat): (i: nat)
    requires k < 32
    ensures i < 8
  {
    ga[k / 8]
  }

  function Second(gb: Eight, k: nat): (j: nat)
    requires k < 32
    ensures j < 16
  {
    gb[k % 8]
  }

  function MaxGpTo(ga: Four, gb: Eight, n: nat): (m: nat)
    requires n <= 32
    ensures m <= 22215
    ensures forall k | 0 <= k < n :: Gp(First(ga, k), Second(gb, k)) <= m
  {
    if n == 0 then 0
    else
      var m := MaxGpTo(ga, gb, n - 1);
      var g := Gp(First(ga, n - 1), Second(gb, n - 1));
      if g > m then g else m
  }

  function MaxGcTo(ga: Four, gb: Eight, gpc: Word32, n: nat): (m: nat)
    requires n <= 32
    ensures m < 0x4_0000_0000
    ensures forall k | 0 <= k < n :: Abs(Gc(First(ga, k), Second(gb, k), gpc)) <= m
  {
    if n == 0 then 0
    else
      var m := MaxGcTo(ga, gb, gpc, n - 1);
      GcBound(First(ga, n - 1), Second(gb, n - 1), gpc);
      var g := Abs(Gc(First(ga, n - 1), Second(gb, n - 1), gpc));
      if g > m then g else m
  }

  // ---------- the shift ----------

  const TARGET_BITS: nat := 58

  function TermShift(corr: int, factorBits: nat, extraShift: nat): nat {
    var corrBits := BitLen(Abs(corr));
    if corrBits == 0 then 0
    else
      var total := corrBits + factorBits + extraShift;
      if total <= TARGET_BITS then 0 else total - TARGET_BITS
  }

  function AtLeastOne(m: nat): nat {
    if m == 0 then 1 else m
  }

  function GpBits(ga: Four, gb: Eight): nat {
    BitLen(AtLeastOne(MaxGpTo(ga, gb, 32)))
  }

  function GcBits(ga: Four, gb: Eight, gpc: Word32): nat {
    BitLen(AtLeastOne(MaxGcTo(ga, gb, gpc, 32)))
  }

  function ShiftOf(r: Correlations, p: nat, c: nat): nat {
    Max(Max(Max(Max(TermShift(r.a, p + p, 0), TermShift(r.b, c + c, 4)), TermShift(r.c, p + c, 3)),
                  TermShift(r.d, p, 15)), TermShift(r.f, c, 17))
  }

  function CostShift(r: Correlations, ga: Four, gb: Eight, gpc: Word32): nat {
    ShiftOf(r, GpBits(ga, gb), GcBits(ga, gb, gpc))
  }

  // A term of a correlation below 2^b, a factor below 2^f and a scale of 2^extra, after the shift.
  predicate Covered(corr: int, f: nat, extra: nat, s: nat) {
    corr == 0 || BitLen(Abs(corr)) + f + extra <= s + TARGET_BITS
  }

  // The shift is the least that covers all five terms: nothing more is taken off the correlations.
  lemma ShiftLeast(r: Correlations, p: nat, c: nat, s: nat)
    ensures ShiftOf(r, p, c) <= s <==>
            && Covered(r.a, p + p, 0, s) && Covered(r.b, c + c, 4, s) && Covered(r.c, p + c, 3, s)
            && Covered(r.d, p, 15, s) && Covered(r.f, c, 17, s)
  {
    TermLeast(r.a, p + p, 0, s);
    TermLeast(r.b, c + c, 4, s);
    TermLeast(r.c, p + c, 3, s);
    TermLeast(r.d, p, 15, s);
    TermLeast(r.f, c, 17, s);
    hide TermShift, Covered;
  }

  lemma TermLeast(corr: int, f: nat, extra: nat, s: nat)
    ensures TermShift(corr, f, extra) <= s <==> Covered(corr, f, extra, s)
  {
  }

  lemma BitCounts(ga: Four, gb: Eight, gpc: Word32)
    ensures GpBits(ga, gb) <= 15 && GcBits(ga, gb, gpc) <= 34
    ensures forall k | 0 <= k < 32 :: Gp(First(ga, k), Second(gb, k)) < Pow2(GpBits(ga, gb))
    ensures forall k | 0 <= k < 32 :: Abs(Gc(First(ga, k), Second(gb, k), gpc)) < Pow2(GcBits(ga, gb, gpc))
  {
    hide MaxGpTo, MaxGcTo, Gp, Gc, BitLen, First, Second;
    Pow2Values();
    assert 0x4_0000_0000 == Pow2(34) by { Pow2Add(16, 16); Pow2Add(32, 2); }
    hide Pow2;
    BitLenBelow(AtLeastOne(MaxGpTo(ga, gb, 32)), 15);
    BitLenBelow(AtLeastOne(MaxGcTo(ga, gb, gpc, 32)), 34);
  }

  // ---------- one term ----------

  // A term of the cost: factor times shifted correlation times a power of two. If the shift covers the
  // term it stays within 2^58, even where the shift empties a negative correlation to -1.
  lemma TermBound(corr: int, factor: int, f: nat, extra: nat, s: nat)
    requires Abs(factor) <= Pow2(f) && s >= TermShift(corr, f, extra)
    requires corr >= 0 || f + extra <= TARGET_BITS
    ensures Abs(factor * Shr(corr, s)) * Pow2(extra) <= Pow2(TARGET_BITS)
  {
    hide Pow2, TermShift, BitLen, Shr;
    var b := BitLen(Abs(corr));
    var q := Shr(corr, s);
    ShiftBound(corr, b, s);
    ShiftCovers(corr, f, extra, s);
    if q == 0 {
      ZeroTerm(factor, Pow2(extra));
      Pow2Positive(TARGET_BITS);
    } else {
      UnitPower();
      CorrectedTerm(factor, q, f, if b >= s then b - s else 0, extra);
    }
  }

  lemma ShiftCovers(corr: int, f: nat, extra: nat, s: nat)
    requires s >= TermShift(corr, f, extra)
    ensures var b := BitLen(Abs(corr));
            b == 0 || b + f + extra <= s + TARGET_BITS
    ensures BitLen(Abs(corr)) == 0 ==> Shr(corr, s) == 0
  {
    if corr == 0 {
      DivBound(0, Pow2(s));
    }
  }

  lemma ZeroTerm(factor: int, p: nat)
    ensures Abs(factor * 0) * p == 0
  {
  }

  lemma Pow2Positive(n: nat)
    ensures Pow2(n) >= 1
  {
  }

  lemma UnitPower()
    ensures Pow2(0) == 1
  {
  }

  lemma CorrectedTerm(factor: int, q: int, f: nat, n: nat, extra: nat)
    requires Abs(factor) <= Pow2(f) && Abs(q) <= Pow2(n) && f + n + extra <= TARGET_BITS
    ensures Abs(factor * q) * Pow2(extra) <= Pow2(TARGET_BITS)
  {
    hide Pow2;
    MulAbsLe(factor, q, Pow2(f), Pow2(n));
    Pow2Add(f, n);
    MulMono(Abs(factor * q), Pow2(f + n), Pow2(extra));
    Pow2Add(f + n, extra);
    Pow2Mono(f + n + extra, TARGET_BITS);
  }

  // ---------- the cost ----------

  // Equation (63) on the shifted correlations, in Q28.
  function Cost(s: Correlations, gp: int, gc: int): int {
    gp * gp * s.a + gc * gc * s.b * 16 + gp * gc * s.c * 8 - gp * s.d * 0x8000 - gc * s.f * 0x2_0000
  }

  // The same as the source evaluates it, wrapping at every operation.
  function WrappedCost(s: Correlations, gp: int, gc: int): int {
    var cost := Int64(Int64(gp * gp) * s.a);
    var cost := Int64(cost + Int64(Int64(Int64(gc * gc) * s.b) * 16));
    var cost := Int64(cost + Int64(Int64(Int64(Int64(2 * gp) * gc) * s.c) * 4));
    var cost := Int64(cost - Int64(Int64(Int64(2 * gp) * s.d) * 0x4000));
    Int64(cost - Int64(Int64(Int64(2 * gc) * s.f) * 0x1_0000))
  }

  lemma Int64Period(x: int, k: int)
    ensures Int64(x + k * 0x1_0000_0000_0000_0000) == Int64(x)
  {
    var m := 0x1_0000_0000_0000_0000;
    var v := x + 0x8000_0000_0000_0000;
    ModUnique(v + k * m, m, v / m + k, v % m);
  }

  // Wrapping an operand does not change a wrapped product or sum.
  lemma WrapProduct(x: int, y: int)
    ensures Int64(Int64(x) * y) == Int64(x * y)
  {
    var k := Wraps(x);
    assert Int64(x) * y == x * y + (k * y) * 0x1_0000_0000_0000_0000;
    Int64Period(x * y, k * y);
  }

  lemma WrapSum(x: int, y: int)
    ensures Int64(Int64(x) + Int64(y)) == Int64(x + y)
    ensures Int64(Int64(x) - Int64(y)) == Int64(x - y)
  {
    hide Int64;
    var k := Wraps(x);
    var l := Wraps(y);
    Int64Period(x + y, k + l);
    Int64Period(x - y, k - l);
  }

  lemma Wraps(x: int) returns (k: int)
    ensures Int64(x) == x + k * 0x1_0000_0000_0000_0000
  {
    var m := 0x1_0000_0000_0000_0000;
    var v := x + 0x8000_0000_0000_0000;
    assert v == (v / m) * m + v % m;
    k := -(v / m);
  }

  // However far the intermediate squares wrap, the result is the wrapped exact cost.
  lemma WrappedIsCost(s: Correlations, gp: int, gc: int)
    ensures WrappedCost(s, gp, gc) == Int64(Cost(s, gp, gc))
  {
    hide Int64;
    WrapProduct(gp * gp, s.a);
    WrapSquareTerm(gc, s.b);
    WrapCrossTerm(gp, gc, s.c);
    WrapLinearTerm(gp, s.d, 0x4000);
    WrapLinearTerm(gc, s.f, 0x1_0000);
    WrapChain(gp * gp * s.a, gc * gc * s.b * 16, gp * gc * s.c * 8, gp * s.d * 0x8000, gc * s.f * 0x2_0000);
  }

  lemma WrapSquareTerm(gc: int, b: int)
    ensures Int64(Int64(Int64(gc * gc) * b) * 16) == Int64(gc * gc * b * 16)
  {
    hide Int64;
    WrapProduct(gc * gc, b);
    WrapProduct(gc * gc * b, 16);
  }

  lemma WrapCrossTerm(gp: int, gc: int, c: int)
    ensures Int64(Int64(Int64(Int64(2 * gp) * gc) * c) * 4) == Int64(gp * gc * c * 8)
  {
    hide Int64;
    WrapProduct(2 * gp, gc);
    WrapProduct(2 * gp * gc, c);
    WrapProduct(2 * gp * gc * c, 4);
    Eighth(gp, gc, c);
  }

  lemma WrapLinearTerm(g: int, d: int, m: int)
    ensures Int64(Int64(Int64(2 * g) * d) * m) == Int64(g * d * (2 * m))
  {
    hide Int64;
    WrapProduct(2 * g, d);
    WrapProduct(2 * g * d, m);
    assert 2 * g * d * m == g * d * (2 * m) by {
      var x := g * d;
      assert 2 * g * d == 2 * x;
    }
  }

  lemma WrapChain(a: int, b: int, c: int, d: int, f: int)
    ensures Int64(Int64(Int64(Int64(Int64(a) + Int64(b)) + Int64(c)) - Int64(d)) - Int64(f)) == Int64(a + b + c - d - f)
  {
    hide Int64;
    WrapSum(a, b);
    WrapSum(a + b, c);
    WrapSum(a + b + c, d);
    WrapSum(a + b + c - d, f);
  }

  lemma Eighth(p: int, q: int, r: int)
    ensures 2 * p * q * r * 4 == p * q * r * 8
  {
  }

  // Every term of the cost stays within 2^58 and the whole cost strictly within 5 * 2^58, so nothing is
  // lost to 64 bits and the first candidate always improves on the initial 2^62.
  lemma CostFits(r: Correlations, ga: Four, gb: Eight, gpc: Word32, k: nat)
    requires r.a >= 0 && r.b >= 0 && k < 32
    ensures var s := GainSearch.Shifted(r, CostShift(r, ga, gb, gpc));
            var gp, gc := Gp(First(ga, k), Second(gb, k)), Gc(First(ga, k), Second(gb, k), gpc);
            && Abs(gp * gp * s.a) <= 0x400_0000_0000_0000 && Abs(gc * gc * s.b * 16) <= 0x400_0000_0000_0000
            && Abs(gp * gc * s.c * 8) <= 0x400_0000_0000_0000 && Abs(gp * s.d * 0x8000) <= 0x400_0000_0000_0000
            && Abs(gc * s.f * 0x2_0000) <= 0x400_0000_0000_0000
            && Abs(Cost(s, gp, gc)) < 0x4000_0000_0000_0000
            && WrappedCost(s, gp, gc) == Cost(s, gp, gc)
  {
    hide Gp, Gc, First, Second, GpBits, GcBits, TermShift, WrappedCost, Pow2, Shr;
    BitCounts(ga, gb, gpc);
    var p, c := GpBits(ga, gb), GcBits(ga, gb, gpc);
    var shift := CostShift(r, ga, gb, gpc);
    var gp, gc := Gp(First(ga, k), Second(gb, k)), Gc(First(ga, k), Second(gb, k), gpc);
    Terms(r, gp, gc, p, c, shift);
    var s := GainSearch.Shifted(r, shift);
    WrappedIsCost(s, gp, gc);
    InRange(Cost(s, gp, gc));
  }

  lemma InRange(x: int)
    requires Abs(x) < 0x4000_0000_0000_0000
    ensures Int64(x) == x
  {
  }

  lemma Powers()
    ensures Pow2(0) == 1 && Pow2(3) == 8 && Pow2(4) == 16 && Pow2(15) == 0x8000 && Pow2(17) == 0x2_0000
    ensures Pow2(TARGET_BITS) == 0x400_0000_0000_0000
  {
    Pow2Values();
    Pow2Add(16, 1);
    Pow2Add(16, 16);
    Pow2Add(32, 16);
    Pow2Add(48, 10);
  }

  lemma Terms(r: Correlations, gp: nat, gc: int, p: nat, c: nat, shift: nat)
    requires r.a >= 0 && r.b >= 0 && p <= 15 && c <= 34 && gp < Pow2(p) && Abs(gc) < Pow2(c)
    requires shift >= ShiftOf(r, p, c)
    ensures var s := GainSearch.Shifted(r, shift);
            && Abs(gp * gp * s.a) <= 0x400_0000_0000_0000 && Abs(gc * gc * s.b * 16) <= 0x400_0000_0000_0000
            && Abs(gp * gc * s.c * 8) <= 0x400_0000_0000_0000 && Abs(gp * s.d * 0x8000) <= 0x400_0000_0000_0000
            && Abs(gc * s.f * 0x2_0000) <= 0x400_0000_0000_0000
  {
    Powers();
    LargestShift(r, p, c);
    hide Pow2, TermShift, Shr, ShiftOf;
    FactorBound(gp, gp, p, p);
    FactorBound(gc, gc, c, c);
    FactorBound(gp, gc, p, c);
    TermFits(r.a, gp * gp, p + p, 0, shift, 1);
    TermFits(r.b, gc * gc, c + c, 4, shift, 16);
    TermFits(r.c, gp * gc, p + c, 3, shift, 8);
    TermFits(r.d, gp, p, 15, shift, 0x8000);
    TermFits(r.f, gc, c, 17, shift, 0x2_0000);
  }

  lemma LargestShift(r: Correlations, p: nat, c: nat)
    ensures var s := ShiftOf(r, p, c);
            && s >= TermShift(r.a, p + p, 0) && s >= TermShift(r.b, c + c, 4) && s >= TermShift(r.c, p + c, 3)
            && s >= TermShift(r.d, p, 15) && s >= TermShift(r.f, c, 17)
  {
    hide TermShift;
  }

  lemma TermFits(corr: int, factor: int, f: nat, extra: nat, s: nat, m: nat)
    requires Abs(factor) <= Pow2(f) && s >= TermShift(corr, f, extra) && m == Pow2(extra)
    requires corr >= 0 || f + extra <= TARGET_BITS
    ensures Abs(factor * Shr(corr, s) * m) <= 0x400_0000_0000_0000
  {
    Powers();
    hide Pow2, TermShift, Shr;
    TermBound(corr, factor, f, extra, s);
    AbsScaled(factor * Shr(corr, s), m);
  }

  lemma AbsScaled(x: int, m: nat)
    ensures Abs(x * m) == Abs(x) * m
  {
  }

  lemma FactorBound(x: int, y: int, m: nat, n: nat)
    requires Abs(x) < Pow2(m) && Abs(y) < Pow2(n)
    ensures Abs(x * y) <= Pow2(m + n)
  {
    hide Pow2;
    MulAbsLe(x, y, Pow2(m), Pow2(n));
    Pow2Add(m, n);
  }

  // ---------- the 4 x 8 search ----------

  function PairCost(s: Correlations, ga: Four, gb: Eight, gpc: Word32, k: nat): int
    requires k < 32
  {
    Cost(s, Gp(First(ga, k), Second(gb, k)), Gc(First(ga, k), Second(gb, k), gpc))
  }

  // k is the first minimiser among the first n pairs.
  predicate FirstMinimum(s: Correlations, ga: Four, gb: Eight, gpc: Word32, n: nat, k: nat)
    requires n <= 32
  {
    && k < n
    && (forall j | 0 <= j < n :: PairCost(s, ga, gb, gpc, k) <= PairCost(s, ga, gb, gpc, j))
    && (forall j | 0 <= j < k :: PairCost(s, ga, gb, gpc, k) < PairCost(s, ga, gb, gpc, j))
  }

  method MaxGains(ga: Four, gb: Eight, gpc: Word32) returns (maxGp: nat, maxGc: nat)
    ensures maxGp == MaxGpTo(ga, gb, 32) && maxGc == MaxGcTo(ga, gb, gpc, 32)
  {
    assert MaxGpTo(ga, gb, 0) == 0 && MaxGcTo(ga, gb, gpc, 0) == 0;
    hide MaxGpTo, MaxGcTo;
    maxGp, maxGc := 0, 0;
    for i := 0 to 4
      invariant maxGp == MaxGpTo(ga, gb, 8 * i) && maxGc == MaxGcTo(ga, gb, gpc, 8 * i)
    {
      maxGp, maxGc := MaxInRow(ga, gb, gpc, i, maxGp, maxGc);
    }
  }

  // The inner loop: one GA candidate with every GB candidate.
  method MaxInRow(ga: Four, gb: Eight, gpc: Word32, i: nat, gp: nat, gc: nat) returns (maxGp: nat, maxGc: nat)
    requires i < 4 && gp == MaxGpTo(ga, gb, 8 * i) && gc == MaxGcTo(ga, gb, gpc, 8 * i)
    ensures maxGp == MaxGpTo(ga, gb, 8 * i + 8) && maxGc == MaxGcTo(ga, gb, gpc, 8 * i + 8)
  {
    hide Gp, Gc, MaxGpTo, MaxGcTo, Larger, Abs;
    maxGp, maxGc := gp, gc;
    for j := 0 to 8
      invariant maxGp == MaxGpTo(ga, gb, 8 * i + j) && maxGc == MaxGcTo(ga, gb, gpc, 8 * i + j)
    {
      MaxStep(ga, gb, gpc, i, j);
      maxGp, maxGc := Larger(maxGp, Gp(ga[i], gb[j])), Larger(maxGc, Abs(Gc(ga[i], gb[j], gpc)));
    }
  }

  function Larger(x: nat, y: nat): nat {
    if y > x then y else x
  }

  lemma MaxStep(ga: Four, gb: Eight, gpc: Word32, i: nat, j: nat)
    requires i < 4 && j < 8
    ensures MaxGpTo(ga, gb, 8 * i + j + 1) == Larger(MaxGpTo(ga, gb, 8 * i + j), Gp(ga[i], gb[j]))
    ensures MaxGcTo(ga, gb, gpc, 8 * i + j + 1) == Larger(MaxGcTo(ga, gb, gpc, 8 * i + j), Abs(Gc(ga[i], gb[j], gpc)))
  {
    hide Gp, Gc, First, Second;
    PairIndex(ga, gb, i, j);
  }

  lemma PairIndex(ga: Four, gb: Eight, i: nat, j: nat)
    requires i < 4 && j < 8
    ensures 8 * i + j < 32 && First(ga, 8 * i + j) == ga[i] && Second(gb, 8 * i + j) == gb[j]
  {
    assert (8 * i + j) / 8 == i && (8 * i + j) % 8 == j;
  }

  method GainSearchCostShift(r: Correlations, ga: Four, gb: Eight, gpc: Word32) returns (shift: nat)
    ensures shift == CostShift(r, ga, gb, gpc)
  {
    hide BitLen, TermShift;
    var maxGp, maxGc := MaxGains(ga, gb, gpc);
    var gpBits, gcBits := BitLen(AtLeastOne(maxGp)), BitLen(AtLeastOne(maxGc));
    shift := ShiftOf(r, gpBits, gcBits);
  }

  // The pair at the first minimum of the 32 costs.
  ghost predicate Chosen(s: Correlations, ga: Four, gb: Eight, gpc: Word32, bestGa: nat, bestGb: nat) {
    exists k | 0 <= k < 32 :: FirstMinimum(s, ga, gb, gpc, 32, k) && bestGa == First(ga, k) && bestGb == Second(gb, k)
  }

  // Cost of one pair as it is evaluated in 64 bits, and the comparison with the best so far.
  method MinimiseCost(r: Correlations, ga: Four, gb: Eight, gpc: Word32) returns (bestGa: nat, bestGb: nat)
    requires r.a >= 0 && r.b >= 0
    ensures Chosen(GainSearch.Shifted(r, CostShift(r, ga, gb, gpc)), ga, gb, gpc, bestGa, bestGb)
  {
    hide Gp, Gc, WrappedCost, Cost, CostShift, GainSearch.Shifted;
    var shift := GainSearchCostShift(r, ga, gb, gpc);
    var s := GainSearch.Shifted(r, shift);
    var bestCost: int := 0x4000_0000_0000_0000;
    bestGa, bestGb := 0, 0;
    ghost var k: nat := 0;
    for i := 0 to 4
      invariant i == 0 ==> bestCost == 0x4000_0000_0000_0000
      invariant i > 0 ==> Best(s, ga, gb, gpc, 8 * i, k, bestCost, bestGa, bestGb)
    {
      for j := 0 to 8
        invariant i == 0 && j == 0 ==> bestCost == 0x4000_0000_0000_0000
        invariant i > 0 || j > 0 ==> Best(s, ga, gb, gpc, 8 * i + j, k, bestCost, bestGa, bestGb)
      {
        PairIndex(ga, gb, i, j);
        CostFits(r, ga, gb, gpc, 8 * i + j);
        var gp, gc := Gp(ga[i], gb[j]), Gc(ga[i], gb[j], gpc);
        var cost := WrappedCost(s, gp, gc);
        if cost < bestCost {
          bestCost, bestGa, bestGb, k := cost, ga[i], gb[j], 8 * i + j;
        }
      }
    }
    ChosenFrom(s, ga, gb, gpc, k, bestCost, bestGa, bestGb);
  }

  lemma ChosenFrom(s: Correlations, ga: Four, gb: Eight, gpc: Word32, k: nat, cost: int, bestGa: nat, bestGb: nat)
    requires Best(s, ga, gb, gpc, 32, k, cost, bestGa, bestGb)
    ensures Chosen(s, ga, gb, gpc, bestGa, bestGb)
  {
    hide FirstMinimum, First, Second;
    InFirst(s, ga, gb, gpc, k);
  }

  lemma InFirst(s: Correlations, ga: Four, gb: Eight, gpc: Word32, k: nat)
    requires FirstMinimum(s, ga, gb, gpc, 32, k)
    ensures k < 32
  {
  }

  predicate Best(s: Correlations, ga: Four, gb: Eight, gpc: Word32, n: nat, k: nat, cost: int, bestGa: nat, bestGb: nat)
    requires n <= 32
  {
    FirstMinimum(s, ga, gb, gpc, n, k) && cost == PairCost(s, ga, gb, gpc, k) && bestGa == First(ga, k)
      && bestGb == Second(gb, k)
  }

  // ---------- the whole selection ----------

  function GaDistances(gpc: Word32, gcOpt: int): (d: seq<int>)
    ensures |d| == 8
  {
    seq(8, i requires 0 <= i < 8 => Abs((G.Gbk1(i).1 * gpc) / 0x2000 - gcOpt))
  }

  function GbDistances(gpOpt: int): (d: seq<int>)
    ensures |d| == 16
  {
    seq(16, j requires 0 <= j < 16 => Abs(G.Gbk2(j).0 - gpOpt))
  }

  function GaCandidates(gpc: Word32, gcOpt: int): Four {
    ByDistance(GaDistances(gpc, gcOpt), 8)[..4]
  }

  function GbCandidates(gpOpt: int): Eight {
    ByDistance(GbDistances(gpOpt), 16)[..8]
  }

  method Nearest(d: seq<int>) returns (l: seq<nat>)
    requires |d| >= 1
    ensures l == ByDistance(d, |d|)
  {
    var idx := new nat[|d|](i => i);
    var dist := new int[|d|](i requires 0 <= i < |d| => d[i]);
    SortByDist(idx, dist, d);
    l := idx[..];
  }

  // Centres whose distances to the entries are 64-bit numbers.
  predicate InReach(gpOpt: nat, gcOpt: nat) {
    gpOpt < LIMIT63 && gcOpt < LIMIT63 - 0x2_0000_0000
  }

  lemma DistancesFit(gpc: Word32, gpOpt: nat, gcOpt: nat)
    requires InReach(gpOpt, gcOpt)
    ensures forall i | 0 <= i < 8 :: 0 <= GaDistances(gpc, gcOpt)[i] < LIMIT63
    ensures forall j | 0 <= j < 16 :: 0 <= GbDistances(gpOpt)[j] < LIMIT63
  {
    forall i: nat | i < 8
      ensures 0 <= GaDistances(gpc, gcOpt)[i] < LIMIT63
    {
      MulAbsLe(G.Gbk1(i).1, gpc, 27162, 0x8000_0000);
    }
    hide G.Gbk1, G.Gbk2;
  }

  // From any centre in reach: the four GA entries and eight GB entries nearest to it, and the first
  // minimiser of the scaled cost over their 32 pairs.
  method SelectFromCentre(r: Correlations, gpc: Word32, gpOpt: nat, gcOpt: nat)
    returns (ga: nat, gb: nat, gpQ14: Word16, gammaCQ13: int)
    requires r.a >= 0 && r.b >= 0 && InReach(gpOpt, gcOpt)
    ensures ga < 8 && gb < 16
    ensures gpQ14 == G.PitchGainQ14(ga, gb) && gammaCQ13 == G.GammaQ13(ga, gb)
    ensures var gaCands, gbCands := GaCandidates(gpc, gcOpt), GbCandidates(gpOpt);
            Chosen(GainSearch.Shifted(r, CostShift(r, gaCands, gbCands, gpc)), gaCands, gbCands, gpc, ga, gb)
  {
    hide CostShift, GainSearch.Shifted, FirstMinimum, First, Second, ByDistance, G.Gbk1, G.Gbk2;
    var gaList := Nearest(GaDistances(gpc, gcOpt));
    var gbList := Nearest(GbDistances(gpOpt));
    ga, gb := MinimiseCost(r, gaList[..4], gbList[..8], gpc);
    gpQ14, gammaCQ13 := G.PitchGainQ14(ga, gb), G.GammaQ13(ga, gb);
  }

  function NormalisedCentre(r: Correlations, targetBits: nat): (nat, nat)
    requires r.a >= 0 && r.b >= 0
  {
    NormalisedSmall(r, targetBits);
    Centre(GainSearch.Shifted(r, NormShift(r, targetBits)))
  }

  function ClampTarget(targetBits: nat): (b: nat)
    ensures 1 <= b <= 24 && (1 <= targetBits <= 24 ==> b == targetBits)
  {
    if targetBits == 0 then 1 else if targetBits > 24 then 24 else targetBits
  }

  // The search from fixed-point correlations normalised to `targetBits` bits, clamped to 1..24.
  method SearchConjugate(x: Subframe, y: Subframe, z: Subframe, gpc: Word32, targetBits: nat)
    returns (ga: nat, gb: nat, gpQ14: Word16, gammaCQ13: int)
    ensures ga < 8 && gb < 16
    ensures gpQ14 == G.PitchGainQ14(ga, gb) && gammaCQ13 == G.GammaQ13(ga, gb)
    ensures var r := CorrelationsTo(x, y, z, 40);
            r.a >= 0 && r.b >= 0
    ensures var r := CorrelationsTo(x, y, z, 40);
            var (gpOpt, gcOpt) := NormalisedCentre(r, ClampTarget(targetBits));
            var gaCands, gbCands := GaCandidates(gpc, gcOpt), GbCandidates(gpOpt);
            Chosen(GainSearch.Shifted(r, CostShift(r, gaCands, gbCands, gpc)), gaCands, gbCands, gpc, ga, gb)
  {
    hide CostShift, GainSearch.Shifted, Chosen, GaCandidates, GbCandidates, CorrelationsTo, NormalisedCentre;
    var width := ClampTarget(targetBits);
    var r := GainSearchCorrelations(x, y, z);
    CorrelationsBounded(x, y, z, 40);
    var (gpOpt, gcOpt) := NormalisedCentre(r, width);
    CentreFits(x, y, z, width);
    ga, gb, gpQ14, gammaCQ13 := SelectFromCentre(r, gpc, gpOpt, gcOpt);
  }

  // For every subframe and every target width up to 24 bits the centre is in reach.
  lemma CentreFits(x: Subframe, y: Subframe, z: Subframe, targetBits: nat)
    requires targetBits <= 24
    ensures var r := CorrelationsTo(x, y, z, 40);
            && Bounded(r, 40) && InReach(NormalisedCentre(r, targetBits).0, NormalisedCentre(r, targetBits).1)
  {
    hide CorrelationsTo, GainSearch.Shifted, NormShift, Centre;
    CorrelationsBounded(x, y, z, 40);
    SolveFits(x, y, z, targetBits);
  }
}
