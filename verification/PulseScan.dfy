/** The loops of the pulse search: exhaustive, and the threshold scan with its budget
    (internal/fcbsearch/search.go:80-239, encoder.go:422-457, 1626-1639). */
module PulseScan {
  import opened Fixed
  import opened PulseSearch

  // Best candidate so far.
  datatype Best = Best(found: bool, pos: Positions, c: int, e: int)

  const NOTHING: Best := Best(false, [0, 1, 2, 3], 0, 0)

  // b describes candidate k, the first maximiser below n.
  predicate Describes(s: Surface, limit: int, n: nat, b: Best, k: nat)
    requires Shaped(s) && n <= 8192
  {
    FirstBest(s, limit, n, k) && b.pos == PositionsOf(k) && b.c == C(s, k) && b.e == E(s, k)
  }

  // b describes the first maximiser below n, or is the default if there is none.
  ghost predicate Tracks(s: Surface, limit: int, n: nat, b: Best)
    requires Shaped(s) && n <= 8192
  {
    if b.found then exists k: nat :: Describes(s, limit, n, b, k)
    else NoneEligible(s, limit, n) && b == NOTHING
  }

  // The result of a search over all 8192 candidates.
  ghost predicate Answer(s: Surface, limit: int, b: Best)
    requires Shaped(s)
  {
    Tracks(s, limit, 8192, b)
  }

  lemma TrackSkip(s: Surface, limit: int, n: nat, b: Best)
    requires Shaped(s) && n < 8192 && Tracks(s, limit, n, b) && !Eligible(s, limit, n)
    ensures Tracks(s, limit, n + 1, b)
  {
    hide Eligible, C, E, FirstBest, PositionsOf;
    if b.found {
      var k: nat :| Describes(s, limit, n, b, k);
      FirstBestStep(s, limit, n, k);
      assert Describes(s, limit, n + 1, b, k);
    } else {
      NoneStep(s, limit, n);
    }
  }

  lemma NoneStep(s: Surface, limit: int, n: nat)
    requires Shaped(s) && n < 8192 && NoneEligible(s, limit, n) && !Eligible(s, limit, n)
    ensures NoneEligible(s, limit, n + 1)
  {
    hide Eligible;
  }

  lemma TrackStart(s: Surface, limit: int, n: nat, b: Best)
    requires Shaped(s) && n < 8192 && NoneEligible(s, limit, n) && Eligible(s, limit, n)
    requires b == Best(true, PositionsOf(n), C(s, n), E(s, n))
    ensures Tracks(s, limit, n + 1, b)
  {
    hide C, E, Eligible, PositionsOf;
    assert Describes(s, limit, n + 1, b, n);
  }

  // What one comparison with the best so far decides.
  lemma TrackCompare(s: Surface, limit: int, n: nat, b: Best)
    requires Shaped(s) && n < 8192 && b.found && Tracks(s, limit, n, b) && Eligible(s, limit, n)
    ensures InDomain(C(s, n), E(s, n)) && InDomain(b.c, b.e)
    ensures var next := Best(true, PositionsOf(n), C(s, n), E(s, n));
            if RatioGreater(C(s, n), E(s, n), b.c, b.e)
            then Tracks(s, limit, n + 1, next)
            else Tracks(s, limit, n + 1, b)
  {
    hide C, E, PositionsOf, RatioGreater, Beats, Entered;
    var k: nat :| Describes(s, limit, n, b, k);
    InSearchDomain(s, n);
    InSearchDomain(s, k);
    RatioExact(C(s, n), E(s, n), b.c, b.e);
    FirstBestStep(s, limit, n, k);
    if RatioGreater(C(s, n), E(s, n), b.c, b.e) {
      assert Describes(s, limit, n + 1, Best(true, PositionsOf(n), C(s, n), E(s, n)), n);
    } else {
      assert Describes(s, limit, n + 1, b, k);
    }
  }

  // One turn of the innermost loop.
  method Consider(s: Surface, limit: int, ghost n: nat, c: int, e: int, pos: Positions, b: Best) returns (b': Best)
    requires Shaped(s) && n < 8192 && Entered(s, limit, n / 16) && Tracks(s, limit, n, b)
    requires c == C(s, n) && e == E(s, n) && pos == PositionsOf(n)
    ensures Tracks(s, limit, n + 1, b')
  {
    hide C, E, PositionsOf, Entered, RatioGreater, NoneEligible;
    if e <= 0 {
      TrackSkip(s, limit, n, b);
      return b;
    }
    if !b.found {
      b' := Best(true, pos, c, e);
      TrackStart(s, limit, n, b');
      return;
    }
    TrackCompare(s, limit, n, b);
    if RatioGreater(c, e, b.c, b.e) {
      return Best(true, pos, c, e);
    }
    return b;
  }

  // The fourth loop of one prefix.
  method FourthLoop(s: Surface, limit: int, i0: nat, i1: nat, i2: nat, c3: int, e3: int, b: Best) returns (b': Best)
    requires Shaped(s) && i0 < 8 && i1 < 8 && i2 < 8 && Entered(s, limit, 64 * i0 + 8 * i1 + i2)
    requires var p := At(i0, i1, i2, 0); c3 == PrefixC(s, p) && e3 == PrefixE(s, p)
    requires Tracks(s, limit, Index(i0, i1, i2, 0), b)
    ensures Index(i0, i1, i2, 16) <= 8192 && Tracks(s, limit, Index(i0, i1, i2, 16), b')
  {
    hide Entered, Tracks, C, E, PrefixC, PrefixE, PositionsOf, At;
    b' := b;
    for i3 := 0 to 16
      invariant Tracks(s, limit, Index(i0, i1, i2, i3), b')
    {
      var m0, m1, m2, m3 := 5 * i0, 5 * i1 + 1, 5 * i2 + 2, Track3(i3);
      var c := c3 + s.dAbs[m3];
      var e := e3 + s.phi[m3][m3] + s.phi[m0][m3] + s.phi[m1][m3] + s.phi[m2][m3];
      Innermost(s, i0, i1, i2, i3);
      b' := Consider(s, limit, Index(i0, i1, i2, i3), c, e, [m0, m1, m2, m3], b');
    }
  }

  // The innermost candidate in terms of the loop variables.
  lemma Innermost(s: Surface, i0: nat, i1: nat, i2: nat, i3: nat)
    requires Shaped(s) && i0 < 8 && i1 < 8 && i2 < 8 && i3 < 16
    ensures var n, m0, m1, m2, m3 := Index(i0, i1, i2, i3), 5 * i0, 5 * i1 + 1, 5 * i2 + 2, Track3(i3);
            && n < 8192 && n / 16 == 64 * i0 + 8 * i1 + i2 && m3 < 40
            && PositionsOf(n) == [m0, m1, m2, m3]
            && C(s, n) == PrefixC(s, At(i0, i1, i2, 0)) + s.dAbs[m3]
            && E(s, n) == PrefixE(s, At(i0, i1, i2, 0)) + s.phi[m3][m3] + s.phi[m0][m3] + s.phi[m1][m3] + s.phi[m2][m3]
  {
    IndexBack(i0, i1, i2, i3);
    ScoreAt(s, i0, i1, i2, i3);
    hide C, E, PrefixC, PrefixE;
  }

  function PrefixE(s: Surface, p: Positions): int
    requires Shaped(s)
  {
    (s.phi[p[0]][p[0]] as int)
    + s.phi[p[1]][p[1]] + s.phi[p[0]][p[1]]
    + s.phi[p[2]][p[2]] + s.phi[p[0]][p[2]] + s.phi[p[1]][p[2]]
  }

  lemma ScoreAt(s: Surface, i0: nat, i1: nat, i2: nat, i3: nat)
    requires Shaped(s) && i0 < 8 && i1 < 8 && i2 < 8 && i3 < 16
    ensures var p, q, k := At(i0, i1, i2, 0), At(i0, i1, i2, i3), Index(i0, i1, i2, i3);
            && k < 8192
            && C(s, k) == PrefixC(s, p) + s.dAbs[q[3]]
            && E(s, k) == PrefixE(s, p) + s.phi[q[3]][q[3]] + s.phi[q[0]][q[3]] + s.phi[q[1]][q[3]] + s.phi[q[2]][q[3]]
  {
    IndexBack(i0, i1, i2, i3);
  }

  // Every candidate, in order.
  method SearchDepthFirst(s: Surface) returns (b: Best, sumC: nat)
    requires Shaped(s)
    ensures Answer(s, 0, b) && sumC == SquareSaturating(b.c)
  {
    hide Tracks;
    b := NOTHING;
    StartTracking(s, 0);
    for i0 := 0 to 8
      invariant Tracks(s, 0, 1024 * i0, b)
    {
      for i1 := 0 to 8
        invariant Tracks(s, 0, 1024 * i0 + 128 * i1, b)
      {
        for i2 := 0 to 8
          invariant Tracks(s, 0, 1024 * i0 + 128 * i1 + 16 * i2, b)
        {
          var p := At(i0, i1, i2, 0);
          b := FourthLoop(s, 0, i0, i1, i2, PrefixC(s, p), PrefixE(s, p), b);
        }
      }
    }
    sumC := SquareSaturating(b.c);
  }

  lemma StartTracking(s: Surface, limit: int)
    requires Shaped(s)
    ensures Tracks(s, limit, 0, NOTHING)
  {
  }

  // ---------- threshold scan ----------

  method ScanThreshold(s: Surface) returns (threshold: int)
    requires Shaped(s)
    ensures threshold == Threshold(s)
  {
    hide Prefix, Quotient, PrefixC;
    var sumC, maxC := 0, 0;
    for i0 := 0 to 8
      invariant sumC == PrefixSum(s, 64 * i0) && maxC == PrefixMax(s, 64 * i0)
    {
      for i1 := 0 to 8
        invariant sumC == PrefixSum(s, 64 * i0 + 8 * i1) && maxC == PrefixMax(s, 64 * i0 + 8 * i1)
      {
        for i2 := 0 to 8
          invariant sumC == PrefixSum(s, 64 * i0 + 8 * i1 + i2) && maxC == PrefixMax(s, 64 * i0 + 8 * i1 + i2)
        {
          PrefixAt(s, i0, i1, i2);
          var c := PrefixC(s, At(i0, i1, i2, 0));
          sumC := sumC + c;
          if c > maxC {
            maxC := c;
          }
        }
      }
    }
    var avgC := Quotient(sumC, 512);
    threshold := avgC + Quotient(4 * (maxC - avgC), 10);
  }

  lemma PrefixAt(s: Surface, i0: nat, i1: nat, i2: nat)
    requires Shaped(s) && i0 < 8 && i1 < 8 && i2 < 8
    ensures 64 * i0 + 8 * i1 + i2 < 512
    ensures Prefix(s, 64 * i0 + 8 * i1 + i2) == PrefixC(s, At(i0, i1, i2, 0))
  {
    IndexBack(i0, i1, i2, 0);
  }

  // A prefix that is not entered contributes nothing.
  lemma {:induction false} SkipPrefix(s: Surface, limit: int, q: nat, n: nat, b: Best)
    requires Shaped(s) && q < 512 && !Entered(s, limit, q) && n <= 16 && Tracks(s, limit, 16 * q, b)
    ensures Tracks(s, limit, 16 * q + n, b)
  {
    hide Entered, C, E, PositionsOf, Tracks;
    if n > 0 {
      SkipPrefix(s, limit, q, n - 1, b);
      assert (16 * q + n - 1) / 16 == q;
      TrackSkip(s, limit, 16 * q + n - 1, b);
    }
  }

  lemma {:induction false} SkipRest(s: Surface, limit: int, q: nat, b: Best)
    requires Shaped(s) && q <= 512 && 0 < limit <= Rank(s, q) && Tracks(s, limit, 16 * q, b)
    ensures Tracks(s, limit, 8192, b) && Rank(s, 512) >= limit
    decreases 512 - q
  {
    hide Tracks, Qualifies;
    if q < 512 {
      SkipPrefix(s, limit, q, 16, b);
      SkipRest(s, limit, q + 1, b);
    }
  }

  // The scan itself. It stops before the prefix that would exceed the budget.
  method Scan(s: Surface, limit: int) returns (b: Best, entered: nat)
    requires Shaped(s) && limit > 0
    ensures Answer(s, limit, b) && entered == Min(limit, Rank(s, 512))
  {
    hide Tracks, Threshold, Prefix, PrefixC, PrefixE;
    var threshold := ScanThreshold(s);
    b, entered := NOTHING, 0;
    StartTracking(s, limit);
    for i0 := 0 to 8
      invariant Tracks(s, limit, 1024 * i0, b) && entered == Rank(s, 64 * i0) <= limit
    {
      for i1 := 0 to 8
        invariant Tracks(s, limit, 1024 * i0 + 128 * i1, b) && entered == Rank(s, 64 * i0 + 8 * i1) <= limit
      {
        for i2 := 0 to 8
          invariant Tracks(s, limit, 1024 * i0 + 128 * i1 + 16 * i2, b)
          invariant entered == Rank(s, 64 * i0 + 8 * i1 + i2) <= limit
        {
          ghost var q := 64 * i0 + 8 * i1 + i2;
          PrefixAt(s, i0, i1, i2);
          var c3 := PrefixC(s, At(i0, i1, i2, 0));
          if c3 <= threshold {
            SkipPrefix(s, limit, q, 16, b);
          } else if entered >= limit {
            SkipRest(s, limit, q, b);
            return;
          } else {
            entered := entered + 1;
            b := FourthLoop(s, limit, i0, i1, i2, c3, PrefixE(s, At(i0, i1, i2, 0)), b);
          }
        }
      }
    }
  }

  // The focused search falls back on the exhaustive one when its budget is not positive or when
  // nothing it entered had positive energy.
  method SearchDepthFirstThresholdScanEntered(s: Surface, limit: int) returns (b: Best, sumC: nat, entered: nat)
    requires Shaped(s)
    ensures entered == if limit <= 0 then 0 else Min(limit, Rank(s, 512))
    ensures limit <= 0 || NoneEligible(s, limit, 8192) ==> Answer(s, 0, b)
    ensures limit > 0 && !NoneEligible(s, limit, 8192) ==> b.found && Answer(s, limit, b)
    ensures sumC == SquareSaturating(b.c)
  {
    hide C, E, Rank, Entered, FirstBest;
    if limit <= 0 {
      b, sumC := SearchDepthFirst(s);
      return b, sumC, 0;
    }
    b, entered := Scan(s, limit);
    if !b.found {
      b, sumC := SearchDepthFirst(s);
      return;
    }
    FoundEligible(s, limit, b);
    sumC := SquareSaturating(b.c);
  }

  lemma FoundEligible(s: Surface, limit: int, b: Best)
    requires Shaped(s) && b.found && Answer(s, limit, b)
    ensures !NoneEligible(s, limit, 8192)
  {
    hide C, E, Entered;
  }

  // The answer is unique: there is only one first maximiser.
  lemma AnswerUnique(s: Surface, limit: int, b: Best, b': Best)
    requires Shaped(s) && Answer(s, limit, b) && Answer(s, limit, b')
    ensures b == b'
  {
    hide C, E, Entered, PositionsOf, Above;
    if b.found && b'.found {
      var k: nat :| Describes(s, limit, 8192, b, k);
      var k': nat :| Describes(s, limit, 8192, b', k');
      assert k == k';
    }
  }

  // ---------- something qualifies ----------

  predicate NonNegative(s: Surface)
    requires Shaped(s)
  {
    forall i | 0 <= i < 40 :: s.dAbs[i] >= 0
  }

  predicate Level(s: Surface)
    requires Shaped(s)
  {
    forall q | 0 <= q < 512 :: Prefix(s, q) == Prefix(s, 0)
  }

  // The maximum, which starts from 0, bounds every sum and is one of them unless it is 0.
  lemma {:induction false} MaxBounds(s: Surface, n: nat)
    requires Shaped(s) && n <= 512
    ensures PrefixMax(s, n) >= 0
    ensures forall q | 0 <= q < n :: Prefix(s, q) <= PrefixMax(s, n)
    ensures PrefixMax(s, n) == 0 || exists q | 0 <= q < n :: Prefix(s, q) == PrefixMax(s, n)
  {
    hide Prefix;
    if n > 0 {
      MaxBounds(s, n - 1);
      assert Prefix(s, n - 1) <= PrefixMax(s, n);
    }
  }

  lemma {:induction false} SumBelow(s: Surface, n: nat, m: int)
    requires Shaped(s) && n <= 512 && forall q | 0 <= q < n :: Prefix(s, q) <= m
    ensures PrefixSum(s, n) <= n * m
    ensures PrefixSum(s, n) == n * m ==> forall q | 0 <= q < n :: Prefix(s, q) == m
  {
    hide Prefix;
    if n > 0 {
      SumBelow(s, n - 1, m);
      assert n * m == (n - 1) * m + m;
    }
  }

  lemma {:induction false} SumNonNegative(s: Surface, n: nat)
    requires Shaped(s) && NonNegative(s) && n <= 512
    ensures PrefixSum(s, n) >= 0
  {
    hide Prefix;
    if n > 0 {
      SumNonNegative(s, n - 1);
      PrefixNonNegative(s, n - 1);
    }
  }

  lemma PrefixNonNegative(s: Surface, q: nat)
    requires Shaped(s) && NonNegative(s) && q < 512
    ensures Prefix(s, q) >= 0
  {
    hide PositionsOf;
  }

  // At least one prefix qualifies unless all 512 sums are equal, and then none does.
  lemma SomethingQualifies(s: Surface)
    requires Shaped(s) && NonNegative(s)
    ensures (exists q: nat | q < 512 :: Qualifies(s, q)) <==> !Level(s)
  {
    hide Prefix, PrefixSum, PrefixMax;
    var m := PrefixMax(s, 512);
    MaxBounds(s, 512);
    SumNonNegative(s, 512);
    if Level(s) {
      LevelSum(s, 512);
      assert forall q | 0 <= q < 512 :: !Qualifies(s, q);
    } else {
      UnevenSum(s);
      assert Threshold(s) < m;
      var q: nat :| q < 512 && Prefix(s, q) == m;
      assert Qualifies(s, q);
    }
  }

  // The threshold lies four tenths of the way from the mean of the sums to the largest, less than two below.
  lemma ThresholdMeans(s: Surface)
    requires Shaped(s) && NonNegative(s)
    ensures 0 <= 6 * PrefixSum(s, 512) + 2048 * PrefixMax(s, 512) - 5120 * Threshold(s) < 8192
  {
    SumNonNegative(s, 512);
    MaxBounds(s, 512);
    SumBelow(s, 512, PrefixMax(s, 512));
    hide PrefixSum, PrefixMax, Prefix;
  }

  lemma UnevenSum(s: Surface)
    requires Shaped(s) && NonNegative(s) && !Level(s)
    ensures PrefixSum(s, 512) < 512 * PrefixMax(s, 512)
  {
    hide Prefix, PrefixSum, PrefixMax;
    MaxBounds(s, 512);
    SumBelow(s, 512, PrefixMax(s, 512));
  }

  lemma {:induction false} LevelSum(s: Surface, n: nat)
    requires Shaped(s) && NonNegative(s) && Level(s) && n <= 512
    ensures PrefixSum(s, n) == n * Prefix(s, 0)
    ensures n > 0 ==> PrefixMax(s, n) == Prefix(s, 0)
  {
    hide PrefixC, PositionsOf;
    PrefixNonNegative(s, 0);
    if n > 0 {
      LevelSum(s, n - 1);
      assert Prefix(s, n - 1) == Prefix(s, 0);
    }
  }

  // ---------- the frame budget ----------

  class Budget {
    const frameLimit: nat
    const firstLimit: nat
    var remaining: nat

    // Core: 180 and 90. CoreFast: 60 and 30.
    predicate Configured() {
      (firstLimit == 90 || firstLimit == 30) && frameLimit == 2 * firstLimit
    }

    constructor (fast: bool)
      ensures Configured()
      ensures frameLimit == if fast then 60 else 180
      ensures firstLimit == if fast then 30 else 90
    {
      frameLimit, firstLimit := if fast then 60 else 180, if fast then 30 else 90;
      remaining := 0;
    }

    method Limit(sub: nat) returns (limit: nat)
      ensures limit == if sub == 0 && remaining > firstLimit then firstLimit else remaining
    {
      limit := remaining;
      if sub == 0 && limit > firstLimit {
        return firstLimit;
      }
    }

    method Record(entered: nat)
      modifies this
      ensures remaining == if entered <= old(remaining) then old(remaining) - entered else 0
    {
      var left: int := remaining - entered;
      if left < 0 {
        left := 0;
      }
      remaining := left;
    }

    // Both subframes of a frame: the first enters at most half of the budget, the two together never
    // more than all of it, and the second always has some of it left.
    method SearchFrame(s1: Surface, s2: Surface) returns (b1: Best, b2: Best, entered1: nat, entered2: nat)
      requires Shaped(s1) && Shaped(s2) && Configured()
      modifies this
      ensures entered1 == Min(firstLimit, Rank(s1, 512))
      ensures entered2 == Min(frameLimit - entered1, Rank(s2, 512))
      ensures 2 * entered1 <= frameLimit && entered1 + entered2 <= frameLimit
      ensures frameLimit - entered1 >= firstLimit > 0
    {
      remaining := frameLimit;
      var limit := Limit(0);
      var sum;
      b1, sum, entered1 := SearchDepthFirstThresholdScanEntered(s1, limit);
      Record(entered1);
      limit := Limit(1);
      b2, sum, entered2 := SearchDepthFirstThresholdScanEntered(s2, limit);
      Record(entered2);
    }
  }
}
