/** Open-loop pitch analysis of section A.3.4 of ITU-T G.729 (internal/pitch/openloop): three ranges, each
    with its own scan, merged with a preference for the lower ones. */
module OpenLoop {
  import opened Fixed
  import GS = GainSearch

  // 143 past samples of the weighted speech and the 80 of the frame.
  type Weighted = w: seq<Word16> | |w| == 223 witness seq(223, _ => 0)

  datatype Score = Score(lag: int, r: Word32, e: Word32)

  // ---------- correlation and energy ----------

  function CorrelateTo(w: Weighted, k: nat, n: nat): Word32
    requires 20 <= k <= 143 && n <= 40
  {
    if n == 0 then 0 else LMac(CorrelateTo(w, k, n - 1), w[141 + 2 * n], w[141 + 2 * n - k])
  }

  function R(w: Weighted, k: nat): Word32
    requires 20 <= k <= 143
  {
    CorrelateTo(w, k, 40)
  }

  function SquareWord(s: Word16): Word32 {
    MulAbsLe(s, s, 0x8000, 0x8000);
    s * s
  }

  function EnergyTo(w: Weighted, k: nat, n: nat): Word32
    requires 20 <= k <= 143 && n <= 40
  {
    if n == 0 then 0 else LAdd(EnergyTo(w, k, n - 1), SquareWord(w[141 + 2 * n - k]))
  }

  function E(w: Weighted, k: nat): Word32
    requires 20 <= k <= 143
  {
    EnergyTo(w, k, 40)
  }

  method CorrelateAt(w: Weighted, k: nat) returns (acc: Word32)
    requires 20 <= k <= 143
    ensures acc == R(w, k)
  {
    hide LMac;
    acc := 0;
    for n := 0 to 40
      invariant acc == CorrelateTo(w, k, n)
    {
      acc := LMac(acc, w[143 + 2 * n], w[143 + 2 * n - k]);
    }
  }

  method Energy(w: Weighted, k: nat) returns (acc: Word32)
    requires 20 <= k <= 143
    ensures acc == E(w, k)
  {
    hide LAdd, SquareWord;
    acc := 0;
    for n := 0 to 40
      invariant acc == EnergyTo(w, k, n)
    {
      acc := LAdd(acc, SquareWord(w[143 + 2 * n - k]));
    }
  }

  // ---------- what the two sums measure ----------

  function Square(s: int): nat {
    SquareSign(s);
    s * s
  }

  function SquaresTo(w: Weighted, k: nat, n: nat): nat
    requires 20 <= k <= 143 && n <= 40
  {
    if n == 0 then 0 else SquaresTo(w, k, n - 1) + Square(w[141 + 2 * n - k])
  }

  lemma SquareSign(s: int)
    ensures s * s >= 0
    ensures s * s == 0 ==> s == 0
  {
    MulPos(s, Max(s, 1));
    MulPos(-s, Max(-s, 1));
  }

  // The energy clips at most once, at the end of the scale.
  lemma {:induction false} EnergyExact(w: Weighted, k: nat, n: nat)
    requires 20 <= k <= 143 && n <= 40
    ensures EnergyTo(w, k, n) as int == Min(SquaresTo(w, k, n), MAX32)
  {
    if n > 0 {
      EnergyExact(w, k, n - 1);
      SquareSign(w[141 + 2 * n - k]);
    }
  }

  // It is the energy of the very samples the correlation multiplies with: where it is zero, so is the
  // correlation.
  lemma {:induction false} SilenceScoresZero(w: Weighted, k: nat, n: nat)
    requires 20 <= k <= 143 && n <= 40 && EnergyTo(w, k, n) == 0
    ensures CorrelateTo(w, k, n) == 0
  {
    if n > 0 {
      EnergyExact(w, k, n);
      EnergyExact(w, k, n - 1);
      SquareSign(w[141 + 2 * n - k]);
      SilenceScoresZero(w, k, n - 1);
      hide EnergyTo, SquaresTo;
    }
  }

  predicate Repeats(w: Weighted, k: nat, i: nat)
    requires 20 <= k <= 143 && i < 40
  {
    w[143 + 2 * i] == w[143 + 2 * i - k]
  }

  // Where the frame repeats after k samples the correlation is twice the energy.
  lemma {:induction false} RepetitionScoresFull(w: Weighted, k: nat, n: nat)
    requires 20 <= k <= 143 && n <= 40
    requires forall i | 0 <= i < n :: Repeats(w, k, i)
    ensures CorrelateTo(w, k, n) as int == Min(2 * SquaresTo(w, k, n), MAX32)
  {
    SumsStart(w, k);
    hide Repeats, LMac, CorrelateTo, SquaresTo, Square;
    if n > 0 {
      assert Repeats(w, k, n - 1);
      RepeatsAt(w, k, n - 1);
      SumsStep(w, k, n);
      RepetitionScoresFull(w, k, n - 1);
      DoubledSquare(CorrelateTo(w, k, n - 1), w[141 + 2 * n], SquaresTo(w, k, n - 1));
    }
  }

  lemma SumsStart(w: Weighted, k: nat)
    requires 20 <= k <= 143
    ensures CorrelateTo(w, k, 0) == SquaresTo(w, k, 0) == 0
  {
  }

  lemma {:induction false} SumsStep(w: Weighted, k: nat, n: nat)
    requires 20 <= k <= 143 && 1 <= n <= 40
    ensures CorrelateTo(w, k, n) == LMac(CorrelateTo(w, k, n - 1), w[141 + 2 * n], w[141 + 2 * n - k])
    ensures SquaresTo(w, k, n) == SquaresTo(w, k, n - 1) + Square(w[141 + 2 * n - k])
  {
    hide LMac, Square;
  }

  lemma RepeatsAt(w: Weighted, k: nat, i: nat)
    requires 20 <= k <= 143 && i < 40 && Repeats(w, k, i)
    ensures w[141 + 2 * (i + 1)] == w[141 + 2 * (i + 1) - k]
  {
  }

  lemma DoubledSquare(acc: Word32, s: Word16, q: nat)
    requires acc as int == Min(2 * q, MAX32)
    ensures LMac(acc, s, s) as int == Min(2 * (q + Square(s)), MAX32)
  {
    SquareSign(s);
  }

  // ---------- one range ----------

  // lag is the lowest of the allowed delays with the largest correlation.
  predicate LowestMaximum(w: Weighted, lo: nat, hi: nat, step: nat, lag: nat)
    requires 20 <= lo <= hi <= 143 && step >= 1
  {
    && lo <= lag <= hi && (lag - lo) % step == 0
    && (forall k | lo <= k <= hi && (k - lo) % step == 0 :: R(w, k) <= R(w, lag))
    && (forall k | lo <= k < lag && (k - lo) % step == 0 :: R(w, k) < R(w, lag))
  }

  method PickBestFullScan(w: Weighted, kMin: nat, kMax: nat) returns (s: Score)
    requires 20 <= kMin <= kMax <= 143
    ensures s.lag >= 0 && LowestMaximum(w, kMin, kMax, 1, s.lag) && s.r == R(w, s.lag) && s.e == E(w, s.lag)
  {
    hide R, E;
    var lag: nat, rsq: Word32 := kMin, MIN32;
    var k := kMin;
    while k <= kMax
      invariant kMin <= k <= kMax + 1 && kMin <= lag <= kMax && (lag < k || lag == kMin)
      invariant rsq == MIN32 || (lag < k && rsq == R(w, lag))
      invariant rsq == MIN32 ==> lag == kMin
      invariant forall j | kMin <= j < k :: R(w, j) <= rsq && (j < lag ==> R(w, j) < rsq)
    {
      var acc := CorrelateAt(w, k);
      if acc > rsq {
        rsq := acc;
        lag := k;
      }
      k := k + 1;
    }
    var en := Energy(w, lag);
    assert R(w, lag) <= rsq;
    s := Score(lag, rsq, en);
  }

  // The even delays of [80, 143].
  method PickBestEven(w: Weighted) returns (lag: nat, rsq: Word32)
    ensures LowestMaximum(w, 80, 142, 2, lag) && rsq == R(w, lag)
  {
    hide R;
    lag := 80;
    rsq := CorrelateAt(w, 80);
    var k := 82;
    while k <= 142
      invariant 82 <= k <= 144 && k % 2 == 0 && 80 <= lag < k && lag % 2 == 0 && rsq == R(w, lag)
      invariant forall j | 80 <= j < k && j % 2 == 0 :: R(w, j) <= rsq && (j < lag ==> R(w, j) < rsq)
      decreases 144 - k
    {
      var rk := CorrelateAt(w, k);
      if rk > rsq {
        lag, rsq := k, rk;
      }
      k := k + 2;
    }
  }

  // Even delays first, then the neighbours of the even winner.
  method PickBestEvenWithRefinement(w: Weighted) returns (s: Score, ghost even: nat)
    ensures LowestMaximum(w, 80, 142, 2, even)
    ensures 80 <= s.lag <= 143 && even - 1 <= s.lag <= even + 1
    ensures LowestMaximum(w, if even == 80 then 80 else even - 1, even + 1, 1, s.lag)
    ensures s.r == R(w, s.lag) && s.e == E(w, s.lag)
    ensures forall k | 80 <= k <= 142 && k % 2 == 0 :: R(w, k) <= s.r
  {
    hide R, E;
    var bestEven, rEven := PickBestEven(w);
    even := bestEven;
    var hi := if bestEven + 1 > 143 then 143 else bestEven + 1;
    var lo := if bestEven - 1 < 80 then 80 else bestEven - 1;
    var lag: nat := lo;
    var rsq := CorrelateAt(w, lo);
    var k := lo + 1;
    while k <= hi
      invariant lo < k <= hi + 1 && lo <= lag < k && rsq == R(w, lag)
      invariant forall j | lo <= j < k :: R(w, j) <= rsq && (j < lag ==> R(w, j) < rsq)
    {
      var rk := CorrelateAt(w, k);
      if rk > rsq {
        lag, rsq := k, rk;
      }
      k := k + 1;
    }
    var en := Energy(w, lag);
    s := Score(lag, rsq, en);
    assert R(w, even) <= rsq;
  }

  // ---------- comparing scores ----------

  // The common shift that brings the larger correlation down to `bits` bits.
  function CommonShift(r1: int, r2: int, bits: nat): nat
    requires r1 > 0 && r2 > 0
  {
    var l := GS.BitLen(if r2 > r1 then r2 else r1);
    if l > bits then l - bits else 0
  }

  // No larger than it has to be.
  lemma CommonShiftLeast(r1: int, r2: int, bits: nat, s: nat)
    requires r1 > 0 && r2 > 0
    ensures CommonShift(r1, r2, bits) <= s <==> Max(r1, r2) < Pow2(bits + s)
  {
    GS.BitLenLeast(Max(r1, r2), bits + s);
    hide GS.BitLen, Pow2;
  }

  predicate NoScore(s: Score) {
    s.e <= 0 || s.r <= 0
  }

  predicate CompareNormalized(a: Score, b: Score) {
    if NoScore(a) && NoScore(b) then true
    else if NoScore(a) then false
    else if NoScore(b) then true
    else
      var s := CommonShift(a.r, b.r, 15);
      var r1, r2 := Shr(a.r, s), Shr(b.r, s);
      r1 * r1 * b.e >= r2 * r2 * a.e
  }

  predicate StrictGreater(h: Score, op: Score) {
    !CompareNormalized(op, h)
  }

  predicate LiftedStrictGreater(h: Score, op: Score, num: int, den: int) {
    if NoScore(h) then false
    else if NoScore(op) then true
    else
      var s := CommonShift(h.r, op.r, 13);
      var rh, ro := Shr(h.r, s), Shr(op.r, s);
      rh * rh * op.e * den > ro * ro * h.e * num
  }

  lemma ShiftedSmall(r: int, m: int, bits: nat)
    requires 0 < r <= m <= MAX32
    ensures var l := GS.BitLen(m);
            var s := if l > bits then l - bits else 0;
            0 <= Shr(r, s) < Pow2(bits)
  {
    hide GS.BitLen, Pow2;
    var l := GS.BitLen(m);
    var b := if l > bits then l else bits;
    Pow2Mono(l, b);
    GS.ShiftBound(r, b, if l > bits then l - bits else 0);
    hide Shr;
  }

  // One side of a comparison.
  function CrossProduct(a: Score, b: Score, bits: nat): int
    requires !NoScore(a) && !NoScore(b)
  {
    var r := Shr(a.r, CommonShift(a.r, b.r, bits));
    r * r * b.e
  }

  // Every product of both comparisons, the lifts included, stays far inside 64 bits.
  lemma ComparisonsFit(a: Score, b: Score)
    requires !NoScore(a) && !NoScore(b)
    ensures Abs(CrossProduct(a, b, 15)) <= 0x2000_0000_0000_0000
    ensures Abs(CrossProduct(a, b, 13) * 11) < 0x2000_0000_0000_0000
  {
    hide CrossProduct;
    Pow2Values();
    ProductFits(a, b, 15);
    ProductFits(a, b, 13);
  }

  lemma ProductFits(a: Score, b: Score, bits: nat)
    requires !NoScore(a) && !NoScore(b)
    ensures Abs(CrossProduct(a, b, bits)) <= Pow2(bits) * Pow2(bits) * 0x8000_0000
  {
    hide GS.BitLen, Pow2, Shr;
    ShiftedSmall(a.r, if b.r > a.r then b.r else a.r, bits);
    SquareTimes(Shr(a.r, CommonShift(a.r, b.r, bits)), Pow2(bits), b.e);
  }

  lemma SquareTimes(x: int, m: nat, e: Word32)
    requires 0 <= x < m && e > 0
    ensures Abs(x * x * e) <= m * m * 0x8000_0000
  {
    MulAbsLe(x, x, m, m);
    MulAbsLe(x * x, e, m * m, 0x8000_0000);
  }

  // ---------- sub-multiples ----------

  // higher is within two samples of some multiple 2..7 of lower.
  predicate NearSubmultiple(higher: int, lower: int) {
    lower > 0 && exists k | 2 <= k <= 7 :: Abs(higher - k * lower) <= 2
  }

  method IsNearSubmultiple(higher: int, lower: int) returns (near: bool)
    ensures near == NearSubmultiple(higher, lower)
  {
    if lower <= 0 {
      return false;
    }
    for k := 2 to 8
      invariant forall j | 2 <= j < k :: Abs(higher - j * lower) > 2
    {
      var d := higher - k * lower;
      if d < 0 {
        d := -d;
      }
      if d <= 2 {
        assert Abs(higher - k * lower) <= 2;
        return true;
      }
      if k * lower > higher + 2 {
        forall j | k <= j <= 7
          ensures Abs(higher - j * lower) > 2
        {
          MulMono(k, j, lower);
        }
        return false;
      }
    }
    return false;
  }

  // ---------- the merge ----------

  predicate Overrides(h: Score, op: Score) {
    if NearSubmultiple(h.lag, op.lag) then LiftedStrictGreater(h, op, 11, 10) else StrictGreater(h, op)
  }

  // A near sub-multiple keeps the higher delay out unless that one wins by the lift.
  predicate HeldBack(h: Score, low: Score) {
    NearSubmultiple(h.lag, low.lag) && !LiftedStrictGreater(h, low, 11, 10)
  }

  function Merge(s1: Score, s2: Score, s3: Score): Score {
    var best := if Overrides(s2, s1) then s2 else s1;
    if !HeldBack(s3, s1) && !HeldBack(s3, s2) && Overrides(s3, best) then s3 else best
  }

  method ShouldOverride(h: Score, op: Score) returns (r: bool)
    ensures r == Overrides(h, op)
  {
    var near := IsNearSubmultiple(h.lag, op.lag);
    if near {
      return LiftedStrictGreater(h, op, 11, 10);
    }
    return StrictGreater(h, op);
  }

  method MergeThreeRanges(s1: Score, s2: Score, s3: Score) returns (top: int)
    ensures top == Merge(s1, s2, s3).lag
  {
    hide LiftedStrictGreater, StrictGreater, NearSubmultiple;
    var best := s1;
    var over := ShouldOverride(s2, s1);
    if over {
      best := s2;
    }
    var near1 := IsNearSubmultiple(s3.lag, s1.lag);
    var near2 := IsNearSubmultiple(s3.lag, s2.lag);
    if near1 && !LiftedStrictGreater(s3, s1, 11, 10) {
      return best.lag;
    }
    if near2 && !LiftedStrictGreater(s3, s2, 11, 10) {
      return best.lag;
    }
    over := ShouldOverride(s3, best);
    if over {
      return s3.lag;
    }
    return best.lag;
  }

  // A pitch multiple is never taken for the pitch: whichever range wins, its delay beats every lower range
  // winner it is a near multiple of by the lift, even one that lost to a third range.
  lemma MultiplesRejected(s1: Score, s2: Score, s3: Score, low: Score)
    requires s1.lag < s2.lag < s3.lag && low in [s1, s2]
    ensures var top := Merge(s1, s2, s3);
            low.lag < top.lag && NearSubmultiple(top.lag, low.lag) ==> LiftedStrictGreater(top, low, 11, 10)
  {
    hide LiftedStrictGreater, StrictGreater, NearSubmultiple;
  }

  // A usable score is never lost: the winner has one exactly when some range has, and without any the
  // lowest range wins.
  lemma UsableScoreWins(s1: Score, s2: Score, s3: Score)
    ensures NoScore(Merge(s1, s2, s3)) <==> NoScore(s1) && NoScore(s2) && NoScore(s3)
    ensures NoScore(s2) && NoScore(s3) ==> Merge(s1, s2, s3) == s1
  {
    hide CommonShift, NearSubmultiple, Shr;
  }

  // A range without a score never displaces a lower one.
  lemma NoScoreNeverWins(s1: Score, s2: Score, s3: Score)
    requires NoScore(s3) && s1.lag < s3.lag && s2.lag < s3.lag
    ensures Merge(s1, s2, s3).lag != s3.lag
  {
    hide CommonShift, NearSubmultiple;
  }

  // The truncation both comparisons share: r keeps all but less than 2^s of the correlation.
  lemma TruncationLoss(r: int, s: nat)
    requires r > 0
    ensures 0 <= Shr(r, s) * Pow2(s) <= r < Shr(r, s) * Pow2(s) + Pow2(s)
  {
    hide Pow2;
    var p := Pow2(s);
    assert r == (r / p) * p + r % p;
    DivBound(r, p);
  }

  // What winning by the lift says about the true scores R^2/E: after giving the loser the benefit of the
  // truncation it is at least 11/10 of it. Not winning says the same with the sides exchanged.
  lemma LiftMeans(h: Score, op: Score)
    requires !NoScore(h) && !NoScore(op)
    ensures var loss := Pow2(CommonShift(h.r, op.r, 13)) - 1;
            var h', op' := Max(h.r - loss, 0), Max(op.r - loss, 0);
            && (LiftedStrictGreater(h, op, 11, 10) ==> h.r * h.r * op.e * 10 > op' * op' * h.e * 11)
            && (!LiftedStrictGreater(h, op, 11, 10) ==> h' * h' * op.e * 10 <= op.r * op.r * h.e * 11)
  {
    hide CommonShift, Pow2, Shr;
    var s := CommonShift(h.r, op.r, 13);
    var rh, ro, p := Shr(h.r, s), Shr(op.r, s), Pow2(s);
    TruncationLoss(h.r, s);
    TruncationLoss(op.r, s);
    var h', op' := Max(h.r - (p - 1), 0), Max(op.r - (p - 1), 0);
    if LiftedStrictGreater(h, op, 11, 10) {
      ScaledCompare(ro, rh, h.e * 11, op.e * 10, p);
      SquaresBetween(op', ro * p, h.e * 11);
      SquaresBetween(rh * p, h.r, op.e * 10);
      SideBySide(h, op, rh, ro, op');
    } else {
      ScaledCompare(rh, ro, op.e * 10, h.e * 11, p);
      SquaresBetween(h', rh * p, op.e * 10);
      SquaresBetween(ro * p, op.r, h.e * 11);
      SideBySide(h, op, rh, ro, op');
      SideBySide(h, op, h', ro, op');
    }
  }

  // What an ordinary comparison of two usable scores says about R^2/E, in the two ways it can go: `loss` is
  // what the common shift to 15 bits takes off a correlation.
  function Loss(h: Score, op: Score): nat
    requires !NoScore(h) && !NoScore(op)
  {
    Pow2(CommonShift(h.r, op.r, 15)) - 1
  }

  predicate Ahead(h: Score, op: Score)
    requires !NoScore(h) && !NoScore(op)
  {
    var op' := Max(op.r - Loss(h, op), 0);
    h.r * h.r * op.e > op' * op' * h.e
  }

  predicate NotBehind(op: Score, h: Score)
    requires !NoScore(h) && !NoScore(op)
  {
    var h' := Max(h.r - Loss(h, op), 0);
    h' * h' * op.e <= op.r * op.r * h.e
  }

  lemma ComparisonMeans(h: Score, op: Score)
    requires !NoScore(h) && !NoScore(op)
    ensures if StrictGreater(h, op) then Ahead(h, op) else NotBehind(op, h)
    ensures h.r < 0x8000 && op.r < 0x8000 ==> (StrictGreater(h, op) <==> h.r * h.r * op.e > op.r * op.r * h.e)
  {
    NothingLost(h, op);
    hide CommonShift, Pow2, Shr;
    var s := CommonShift(h.r, op.r, 15);
    SameShift(h, op);
    var rh, ro, p := Shr(h.r, s), Shr(op.r, s), Pow2(s);
    TruncationLoss(h.r, s);
    TruncationLoss(op.r, s);
    var h', op' := Max(h.r - (p - 1), 0), Max(op.r - (p - 1), 0);
    if StrictGreater(h, op) {
      ScaledCompare(ro, rh, h.e, op.e, p);
      SquaresBetween(op', ro * p, h.e);
      SquaresBetween(rh * p, h.r, op.e);
    } else {
      ScaledCompare(rh, ro, op.e, h.e, p);
      SquaresBetween(h', rh * p, op.e);
      SquaresBetween(ro * p, op.r, h.e);
    }
  }

  lemma SameShift(h: Score, op: Score)
    requires !NoScore(h) && !NoScore(op)
    ensures CommonShift(h.r, op.r, 15) == CommonShift(op.r, h.r, 15)
  {
    hide GS.BitLen;
  }

  // Correlations below 2^15 are compared as they are.
  lemma NothingLost(h: Score, op: Score)
    requires !NoScore(h) && !NoScore(op)
    ensures h.r < 0x8000 && op.r < 0x8000 ==> Loss(h, op) == 0
  {
    if h.r < 0x8000 && op.r < 0x8000 {
      Pow2Values();
      GS.BitLenBelow(Max(h.r, op.r), 15);
      hide GS.BitLen;
    }
  }

  // Away from near multiples the merge is decided by R^2/E alone: a higher range displaces the best of the
  // lower ones exactly when its score is ahead, as far as the truncation tells.
  lemma MergeByScore(s1: Score, s2: Score, s3: Score)
    requires s1.lag < s2.lag < s3.lag && !NoScore(s1) && !NoScore(s2) && !NoScore(s3)
    requires !NearSubmultiple(s2.lag, s1.lag) && !NearSubmultiple(s3.lag, s1.lag) && !NearSubmultiple(s3.lag, s2.lag)
    ensures var top := Merge(s1, s2, s3);
            && (top == s1 ==> NotBehind(s1, s2) && NotBehind(s1, s3))
            && (top == s2 ==> Ahead(s2, s1) && NotBehind(s2, s3))
            && (top == s3 ==> (Ahead(s2, s1) && Ahead(s3, s2)) || (NotBehind(s1, s2) && Ahead(s3, s1)))
            && top in [s1, s2, s3]
  {
    ComparisonMeans(s2, s1);
    ComparisonMeans(s3, s1);
    ComparisonMeans(s3, s2);
    hide Ahead, NotBehind, StrictGreater, NearSubmultiple, LiftedStrictGreater, NoScore;
  }

  lemma SideBySide(h: Score, op: Score, a: int, b: int, c: int)
    ensures a * a * op.e * 10 == a * a * (op.e * 10) && h.r * h.r * op.e * 10 == h.r * h.r * (op.e * 10)
    ensures b * b * h.e * 11 == b * b * (h.e * 11) && op.r * op.r * h.e * 11 == op.r * op.r * (h.e * 11)
    ensures c * c * h.e * 11 == c * c * (h.e * 11)
  {
  }

  lemma SquaresBetween(x: int, y: int, e: int)
    requires 0 <= x <= y && e >= 0
    ensures x * x * e <= y * y * e
  {
    MulMono(x, y, x);
    MulMono(x, y, y);
    MulMono(x * x, y * y, e);
  }

  lemma ScaledCompare(x: int, y: int, e: int, f: int, p: nat)
    requires p >= 1
    ensures x * x * e < y * y * f ==> (x * p) * (x * p) * e < (y * p) * (y * p) * f
    ensures x * x * e <= y * y * f ==> (x * p) * (x * p) * e <= (y * p) * (y * p) * f
  {
    ScaledSquare(x, e, p);
    ScaledSquare(y, f, p);
    MulPos(p, p);
    var d := y * y * f - x * x * e;
    assert d * (p * p) == (y * y * f) * (p * p) - (x * x * e) * (p * p);
    MulPos(d, p * p);
  }

  lemma ScaledSquare(x: int, e: int, p: int)
    ensures (x * p) * (x * p) * e == (x * x * e) * (p * p)
  {
    assert (x * p) * (x * p) == (x * x) * (p * p);
    assert (x * x) * (p * p) * e == (x * x * e) * (p * p);
  }

  // ---------- the search ----------

  predicate RangeWinner(w: Weighted, lo: nat, hi: nat, s: Score)
    requires 20 <= lo <= hi <= 143
  {
    s.lag >= 0 && LowestMaximum(w, lo, hi, 1, s.lag) && s == Score(s.lag, R(w, s.lag), E(w, s.lag))
  }

  // The best of the neighbours of the best even delay.
  ghost predicate HighWinner(w: Weighted, s: Score) {
    exists even: nat | LowestMaximum(w, 80, 142, 2, even) ::
      RangeWinner(w, if even == 80 then 80 else even - 1, even + 1, s)
  }

  // top is the merge of the three range winners.
  ghost predicate OpenLoopPitch(w: Weighted, top: int) {
    exists s1, s2, s3 | RangeWinner(w, 20, 39, s1) && RangeWinner(w, 40, 79, s2) && HighWinner(w, s3) ::
      top == Merge(s1, s2, s3).lag
  }

  // Any buffer gives the merge of its three range winners, a pitch inside the delay range.
  method Search(w: Weighted) returns (top: int)
    ensures OpenLoopPitch(w, top)
    ensures 20 <= top <= 143
  {
    hide R, E, Merge;
    var s3, even := PickBestEvenWithRefinement(w);
    var s2 := PickBestFullScan(w, 40, 79);
    var s1 := PickBestFullScan(w, 20, 39);
    top := MergeThreeRanges(s1, s2, s3);
    MergeIsOne(s1, s2, s3);
    assert RangeWinner(w, if even == 80 then 80 else even - 1, even + 1, s3);
    assert RangeWinner(w, 20, 39, s1) && RangeWinner(w, 40, 79, s2) && HighWinner(w, s3);
  }

  lemma MergeIsOne(s1: Score, s2: Score, s3: Score)
    ensures Merge(s1, s2, s3) in [s1, s2, s3]
  {
    hide Overrides, HeldBack;
  }

  lemma WinnerUnique(w: Weighted, lo: nat, hi: nat, s: Score, t: Score)
    requires 20 <= lo <= hi <= 143 && RangeWinner(w, lo, hi, s) && RangeWinner(w, lo, hi, t)
    ensures s == t
  {
    hide R, E;
    LowestUnique(w, lo, hi, 1, s.lag, t.lag);
  }

  lemma LowestUnique(w: Weighted, lo: nat, hi: nat, step: nat, i: nat, j: nat)
    requires 20 <= lo <= hi <= 143 && step >= 1
    requires LowestMaximum(w, lo, hi, step, i) && LowestMaximum(w, lo, hi, step, j)
    ensures i == j
  {
    hide R;
    assert R(w, i) <= R(w, j) && R(w, j) <= R(w, i);
  }

  // The conditions on the answer leave exactly one pitch for every buffer.
  lemma PitchUnique(w: Weighted, top: int, other: int)
    requires OpenLoopPitch(w, top) && OpenLoopPitch(w, other)
    ensures top == other
  {
    hide R, E, Merge, LowestMaximum, RangeWinner;
    var s1, s2, s3 :| RangeWinner(w, 20, 39, s1) && RangeWinner(w, 40, 79, s2) && HighWinner(w, s3)
                      && top == Merge(s1, s2, s3).lag;
    var t1, t2, t3 :| RangeWinner(w, 20, 39, t1) && RangeWinner(w, 40, 79, t2) && HighWinner(w, t3)
                      && other == Merge(t1, t2, t3).lag;
    WinnerUnique(w, 20, 39, s1, t1);
    WinnerUnique(w, 40, 79, s2, t2);
    HighUnique(w, s3, t3);
  }

  lemma HighUnique(w: Weighted, s: Score, t: Score)
    requires HighWinner(w, s) && HighWinner(w, t)
    ensures s == t
  {
    hide R, E, RangeWinner;
    var i: nat :| LowestMaximum(w, 80, 142, 2, i) && RangeWinner(w, if i == 80 then 80 else i - 1, i + 1, s);
    var j: nat :| LowestMaximum(w, 80, 142, 2, j) && RangeWinner(w, if j == 80 then 80 else j - 1, j + 1, t);
    LowestUnique(w, 80, 142, 2, i, j);
    WinnerUnique(w, if i == 80 then 80 else i - 1, i + 1, s, t);
  }
}
