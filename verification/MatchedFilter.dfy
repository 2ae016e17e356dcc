/** The search surface of the algebraic codebook, equations (50)-(59) of section 3.8.1 of ITU-T G.729
    (internal/fcbsearch/correlation.go, signs.go, phi.go), and what its sums mean. */
module MatchedFilter {
  import opened Fixed
  import PS = PulseSearch

  // ---------- sums over the subframe ----------

  // h(n - m), zero before the pulse.
  function Tap(h: Subframe, n: nat, m: nat): int
    requires n < 40
  {
    if n >= m then h[n - m] else 0
  }

  // Sum of x(i) h(i - m) over i < n.
  function CorrTo(x: Subframe, h: Subframe, m: nat, n: nat): int
    requires n <= 40
  {
    if n == 0 then 0 else CorrTo(x, h, m, n - 1) + (x[n - 1] as int) * Tap(h, n - 1, m)
  }

  // Sum of h(k - i) h(k - j) over k < n.
  function PhiTo(h: Subframe, i: nat, j: nat, n: nat): int
    requires n <= 40
  {
    if n == 0 then 0 else PhiTo(h, i, j, n - 1) + Tap(h, n - 1, i) * Tap(h, n - 1, j)
  }

  function D(x: Subframe, h: Subframe, m: nat): Word32 {
    Sat32(CorrTo(x, h, m, 40))
  }

  function SignOf(d: Word32): (s: Word16)
    ensures s == 1 || s == -1
  {
    if d >= 0 then 1 else -1
  }

  // Negating the least 32-bit value gives it back.
  function AbsOf(d: Word32): Word32 {
    if d >= 0 then d else Int32(-(d as int))
  }

  function PhiEntry(h: Subframe, signs: Subframe, i: nat, j: nat): Word32
    requires i < 40 && j < 40
  {
    if i == j then Sat32(PhiTo(h, i, i, 40) / 2)
    else Sat32(PhiTo(h, i, j, 40) * ((signs[i] as int) * signs[j]))
  }

  // ---------- the loops ----------

  function RoundShift14(v: int): int {
    if v >= 0 then (v + 8192) / 16384 else -((-v + 8192) / 16384)
  }

  function AdjustedSample(x: Word16, y: Word16, gp: Word16): Word16 {
    Sat16((x as int) - RoundShift14((gp as int) * y))
  }

  method AdjustedTarget(x: Subframe, y: Subframe, gp: Word16, xPrime: array<Word16>)
    requires xPrime.Length == 40
    modifies xPrime
    ensures forall n | 0 <= n < 40 :: xPrime[n] == AdjustedSample(x[n], y[n], gp)
  {
    hide RoundShift14;
    for n := 0 to 40
      invariant forall m | 0 <= m < n :: xPrime[m] == AdjustedSample(x[m], y[m], gp)
    {
      var prod := (gp as int) * y[n];
      xPrime[n] := Sat16((x[n] as int) - RoundShift14(prod));
    }
  }

  // The target is within half a unit of x - gp y wherever it is not clipped.
  lemma AdjustedNear(x: Word16, y: Word16, gp: Word16)
    ensures var exact := 16384 * (x as int) - (gp as int) * y;
            var r := (x as int) - RoundShift14((gp as int) * y);
            Abs(16384 * r - exact) <= 8192 && AdjustedSample(x, y, gp) == Sat16(r)
  {
  }

  lemma {:induction false} CorrBelow(x: Subframe, h: Subframe, m: nat, n: nat)
    requires n <= m <= 40
    ensures CorrTo(x, h, m, n) == 0
  {
    if n > 0 {
      CorrBelow(x, h, m, n - 1);
    }
  }

  lemma {:induction false} PhiBelow(h: Subframe, i: nat, j: nat, n: nat)
    requires i <= j && n <= j <= 40
    ensures PhiTo(h, i, j, n) == 0
  {
    if n > 0 {
      PhiBelow(h, i, j, n - 1);
    }
  }

  lemma {:induction false} PhiSymmetric(h: Subframe, i: nat, j: nat, n: nat)
    requires n <= 40
    ensures PhiTo(h, i, j, n) == PhiTo(h, j, i, n)
  {
    if n > 0 {
      PhiSymmetric(h, i, j, n - 1);
    }
  }

  method CorrelationD(xPrime: Subframe, h: Subframe, d: array<Word32>)
    requires d.Length == 40
    modifies d
    ensures forall m | 0 <= m < 40 :: d[m] == D(xPrime, h, m)
  {
    for n := 0 to 40
      invariant forall m | 0 <= m < n :: d[m] == D(xPrime, h, m)
    {
      var acc := Correlate(xPrime, h, n);
      d[n] := Sat32(acc);
    }
  }

  method Correlate(x: Subframe, h: Subframe, n: nat) returns (acc: int)
    requires n < 40
    ensures acc == CorrTo(x, h, n, 40)
  {
    acc := 0;
    CorrBelow(x, h, n, n);
    for i := n to 40
      invariant acc == CorrTo(x, h, n, i)
    {
      acc := acc + (x[i] as int) * h[i - n];
    }
  }

  method SignsFromD(d: array<Word32>, signs: array<Word16>, dAbs: array<Word32>)
    requires d.Length == signs.Length == dAbs.Length == 40 && d != dAbs
    modifies signs, dAbs
    ensures forall n | 0 <= n < 40 :: signs[n] == SignOf(d[n]) && dAbs[n] == AbsOf(d[n])
  {
    for n := 0 to 40
      invariant forall m | 0 <= m < n :: signs[m] == SignOf(d[m]) && dAbs[m] == AbsOf(d[m])
    {
      var v := d[n];
      if v >= 0 {
        signs[n] := 1;
        dAbs[n] := v;
      } else {
        signs[n] := -1;
        dAbs[n] := Int32(-(v as int));
      }
    }
  }

  // The magnitude is right, and so non-negative, exactly when d is not the least 32-bit value.
  lemma MagnitudeExact(d: Word32)
    ensures AbsOf(d) == Abs(d) <==> d != MIN32
    ensures AbsOf(d) >= 0 <==> d != MIN32
  {
  }

  method PhiPrime(h: Subframe, signs: Subframe, phi: array2<Word32>)
    requires phi.Length0 == phi.Length1 == 40
    modifies phi
    ensures forall i, j | 0 <= i < 40 && 0 <= j < 40 :: phi[i, j] == PhiEntry(h, signs, i, j)
  {
    hide PhiEntry;
    for i := 0 to 40
      invariant forall a, b | 0 <= a < 40 && 0 <= b < 40 && (a < i || b < i) :: phi[a, b] == PhiEntry(h, signs, a, b)
    {
      PhiRow(h, signs, phi, i);
    }
  }

  // Row and column i from the diagonal on; what is left and above stays.
  method PhiRow(h: Subframe, signs: Subframe, phi: array2<Word32>, i: nat)
    requires phi.Length0 == phi.Length1 == 40 && i < 40
    modifies phi
    ensures forall b | i <= b < 40 :: phi[i, b] == PhiEntry(h, signs, i, b) && phi[b, i] == PhiEntry(h, signs, b, i)
    ensures forall a, b | 0 <= a < 40 && 0 <= b < 40 && (a < i || b < i) :: phi[a, b] == old(phi[a, b])
  {
    hide PhiTo, Sat32;
    var diag := Diagonal(h, i);
    phi[i, i] := Sat32(diag / 2);
    for j := i + 1 to 40
      invariant forall a, b | 0 <= a < 40 && 0 <= b < 40 && (a < i || b < i) :: phi[a, b] == old(phi[a, b])
      invariant forall b | i <= b < j :: phi[i, b] == PhiEntry(h, signs, i, b) && phi[b, i] == PhiEntry(h, signs, b, i)
    {
      var sum := OffDiagonal(h, i, j);
      PhiSymmetric(h, i, j, 40);
      var v := sum * ((signs[i] as int) * signs[j]);
      phi[i, j] := Sat32(v);
      phi[j, i] := Sat32(v);
    }
  }

  method Diagonal(h: Subframe, i: nat) returns (diag: int)
    requires i < 40
    ensures diag == PhiTo(h, i, i, 40)
  {
    diag := 0;
    PhiBelow(h, i, i, i);
    for n := i to 40
      invariant diag == PhiTo(h, i, i, n)
    {
      var t := h[n - i] as int;
      diag := diag + t * t;
    }
  }

  method OffDiagonal(h: Subframe, i: nat, j: nat) returns (sum: int)
    requires i <= j < 40
    ensures sum == PhiTo(h, i, j, 40)
  {
    sum := 0;
    PhiBelow(h, i, j, j);
    for n := j to 40
      invariant sum == PhiTo(h, i, j, n)
    {
      sum := sum + (h[n - i] as int) * h[n - j];
    }
  }

  // ---------- the surface ----------

  function Signs(x: Subframe, h: Subframe): Subframe {
    seq(40, m requires 0 <= m < 40 => SignOf(D(x, h, m)))
  }

  function SurfaceOf(x: Subframe, h: Subframe): (s: PS.Surface)
    ensures PS.Shaped(s)
  {
    PS.Surface(seq(40, m requires 0 <= m < 40 => AbsOf(D(x, h, m))),
               seq(40, i requires 0 <= i < 40 => seq(40, j requires 0 <= j < 40 => PhiEntry(h, Signs(x, h), i, j))))
  }

  // Sample n of the signed pulses p filtered through h.
  function Filtered(h: Subframe, signs: Subframe, p: PS.Positions, n: nat): int
    requires n < 40
  {
    (signs[p[0]] as int) * Tap(h, n, p[0]) + (signs[p[1]] as int) * Tap(h, n, p[1])
    + (signs[p[2]] as int) * Tap(h, n, p[2]) + (signs[p[3]] as int) * Tap(h, n, p[3])
  }

  function InnerTo(x: Subframe, h: Subframe, signs: Subframe, p: PS.Positions, n: nat): int
    requires n <= 40
  {
    if n == 0 then 0 else InnerTo(x, h, signs, p, n - 1) + (x[n - 1] as int) * Filtered(h, signs, p, n - 1)
  }

  function NormTo(h: Subframe, signs: Subframe, p: PS.Positions, n: nat): int
    requires n <= 40
  {
    if n == 0 then 0 else NormTo(h, signs, p, n - 1) + Filtered(h, signs, p, n - 1) * Filtered(h, signs, p, n - 1)
  }

  lemma {:induction false} InnerSplits(x: Subframe, h: Subframe, signs: Subframe, p: PS.Positions, n: nat)
    requires n <= 40
    ensures InnerTo(x, h, signs, p, n)
            == (signs[p[0]] as int) * CorrTo(x, h, p[0], n) + (signs[p[1]] as int) * CorrTo(x, h, p[1], n)
               + (signs[p[2]] as int) * CorrTo(x, h, p[2], n) + (signs[p[3]] as int) * CorrTo(x, h, p[3], n)
  {
    hide Tap;
    if n == 0 {
      assert CorrTo(x, h, p[0], 0) == CorrTo(x, h, p[1], 0) == CorrTo(x, h, p[2], 0) == CorrTo(x, h, p[3], 0) == 0;
    } else {
      hide CorrTo, Filtered;
      InnerSplits(x, h, signs, p, n - 1);
      CorrStep(x, h, p[0], n - 1, signs[p[0]]);
      CorrStep(x, h, p[1], n - 1, signs[p[1]]);
      CorrStep(x, h, p[2], n - 1, signs[p[2]]);
      CorrStep(x, h, p[3], n - 1, signs[p[3]]);
      FilteredTimes(x[n - 1], h, signs, p, n - 1);
    }
  }

  lemma CorrStep(x: Subframe, h: Subframe, m: nat, n: nat, s: int)
    requires n < 40
    ensures s * CorrTo(x, h, m, n + 1) == s * CorrTo(x, h, m, n) + (x[n] as int) * (s * Tap(h, n, m))
  {
    hide Tap;
    Distribute(x[n], s, Tap(h, n, m), CorrTo(x, h, m, n));
  }

  lemma FilteredTimes(x: int, h: Subframe, signs: Subframe, p: PS.Positions, n: nat)
    requires n < 40
    ensures x * Filtered(h, signs, p, n)
            == x * ((signs[p[0]] as int) * Tap(h, n, p[0])) + x * ((signs[p[1]] as int) * Tap(h, n, p[1]))
               + x * ((signs[p[2]] as int) * Tap(h, n, p[2])) + x * ((signs[p[3]] as int) * Tap(h, n, p[3]))
  {
    hide Tap;
    OverFour(x, (signs[p[0]] as int) * Tap(h, n, p[0]), (signs[p[1]] as int) * Tap(h, n, p[1]),
             (signs[p[2]] as int) * Tap(h, n, p[2]), (signs[p[3]] as int) * Tap(h, n, p[3]));
  }

  lemma OverFour(x: int, a: int, b: int, c: int, d: int)
    ensures x * (a + b + c + d) == x * a + x * b + x * c + x * d
  {
  }

  lemma Distribute(x: int, s: int, t: int, c: int)
    ensures s * (c + x * t) == s * c + x * (s * t)
  {
  }

  // The four correlations behind C are neither clipped nor the one value whose magnitude wraps.
  predicate CorrUnclipped(x: Subframe, h: Subframe, p: PS.Positions) {
    forall i | 0 <= i < 4 :: MIN32 < CorrTo(x, h, p[i], 40) <= MAX32
  }

  lemma SignedMagnitude(x: Subframe, h: Subframe, m: nat)
    requires m < 40 && MIN32 < CorrTo(x, h, m, 40) <= MAX32
    ensures AbsOf(D(x, h, m)) as int == (SignOf(D(x, h, m)) as int) * CorrTo(x, h, m, 40)
  {
    hide CorrTo;
  }

  // C of a candidate is the inner product of the target with its filtered code vector.
  lemma CorrelationIsInnerProduct(x: Subframe, h: Subframe, p: PS.Positions)
    requires CorrUnclipped(x, h, p)
    ensures PS.CorrelationOf(SurfaceOf(x, h), p) == InnerTo(x, h, Signs(x, h), p, 40)
  {
    hide CorrTo, D, SignOf, AbsOf, PhiEntry;
    InnerSplits(x, h, Signs(x, h), p, 40);
    forall i | 0 <= i < 4
      ensures AbsOf(D(x, h, p[i])) as int == (Signs(x, h)[p[i]] as int) * CorrTo(x, h, p[i], 40)
    {
      SignedMagnitude(x, h, p[i]);
    }
  }

  // Twice the exact energy, as the diagonal sums and the six cross sums.
  function FullEnergy(h: Subframe, s: Subframe, p: PS.Positions, n: nat): int
    requires n <= 40
  {
    PhiTo(h, p[0], p[0], n) + PhiTo(h, p[1], p[1], n) + PhiTo(h, p[2], p[2], n) + PhiTo(h, p[3], p[3], n)
    + 2 * (Cross(h, s, p[0], p[1], n) + Cross(h, s, p[0], p[2], n) + Cross(h, s, p[1], p[2], n)
           + Cross(h, s, p[0], p[3], n) + Cross(h, s, p[1], p[3], n) + Cross(h, s, p[2], p[3], n))
  }

  function Cross(h: Subframe, s: Subframe, i: nat, j: nat, n: nat): int
    requires n <= 40 && i < 40 && j < 40
  {
    PhiTo(h, i, j, n) * ((s[i] as int) * s[j])
  }

  predicate UnitSigns(s: Subframe) {
    forall m | 0 <= m < 40 :: s[m] == 1 || s[m] == -1
  }

  lemma {:induction false} NormSplits(h: Subframe, s: Subframe, p: PS.Positions, n: nat)
    requires n <= 40 && UnitSigns(s)
    ensures NormTo(h, s, p, n) == FullEnergy(h, s, p, n)
  {
    hide Tap, Filtered;
    if n > 0 {
      NormSplits(h, s, p, n - 1);
      CrossStep(h, s, p[0], p[1], n - 1);
      CrossStep(h, s, p[0], p[2], n - 1);
      CrossStep(h, s, p[1], p[2], n - 1);
      CrossStep(h, s, p[0], p[3], n - 1);
      CrossStep(h, s, p[1], p[3], n - 1);
      CrossStep(h, s, p[2], p[3], n - 1);
      FilteredSquare(h, s, p, n - 1);
    }
  }

  lemma CrossStep(h: Subframe, s: Subframe, i: nat, j: nat, n: nat)
    requires n < 40 && i < 40 && j < 40
    ensures Cross(h, s, i, j, n + 1)
            == Cross(h, s, i, j, n) + Tap(h, n, i) * Tap(h, n, j) * ((s[i] as int) * s[j])
  {
    hide Tap;
  }

  lemma FilteredSquare(h: Subframe, s: Subframe, p: PS.Positions, n: nat)
    requires n < 40 && UnitSigns(s)
    ensures var t0, t1, t2, t3 := Tap(h, n, p[0]), Tap(h, n, p[1]), Tap(h, n, p[2]), Tap(h, n, p[3]);
            var s0, s1, s2, s3 := s[p[0]] as int, s[p[1]] as int, s[p[2]] as int, s[p[3]] as int;
            Filtered(h, s, p, n) * Filtered(h, s, p, n)
            == t0 * t0 + t1 * t1 + t2 * t2 + t3 * t3
               + 2 * (t0 * t1 * (s0 * s1) + t0 * t2 * (s0 * s2) + t1 * t2 * (s1 * s2)
                      + t0 * t3 * (s0 * s3) + t1 * t3 * (s1 * s3) + t2 * t3 * (s2 * s3))
  {
    hide Tap;
    var t0, t1, t2, t3 := Tap(h, n, p[0]), Tap(h, n, p[1]), Tap(h, n, p[2]), Tap(h, n, p[3]);
    var s0, s1, s2, s3 := s[p[0]] as int, s[p[1]] as int, s[p[2]] as int, s[p[3]] as int;
    SquareOfSum(s0 * t0, s1 * t1, s2 * t2, s3 * t3);
    UnitSquare(s0, t0);
    UnitSquare(s1, t1);
    UnitSquare(s2, t2);
    UnitSquare(s3, t3);
    Regroup(s0, t0, s1, t1);
    Regroup(s0, t0, s2, t2);
    Regroup(s1, t1, s2, t2);
    Regroup(s0, t0, s3, t3);
    Regroup(s1, t1, s3, t3);
    Regroup(s2, t2, s3, t3);
  }

  lemma UnitSquare(s: int, t: int)
    requires s == 1 || s == -1
    ensures (s * t) * (s * t) == t * t
  {
  }

  lemma Regroup(s: int, t: int, s': int, t': int)
    ensures (s * t) * (s' * t') == t * t' * (s * s')
  {
  }

  lemma SquareOfSum(a: int, b: int, c: int, d: int)
    ensures (a + b + c + d) * (a + b + c + d)
            == a * a + b * b + c * c + d * d + 2 * (a * b + a * c + b * c + a * d + b * d + c * d)
  {
  }

  lemma {:induction false} PhiNonNegative(h: Subframe, i: nat, n: nat)
    requires n <= 40
    ensures PhiTo(h, i, i, n) >= 0
  {
    hide Tap;
    if n > 0 {
      PhiNonNegative(h, i, n - 1);
      var t := Tap(h, n - 1, i);
      assert t * t >= 0;
    }
  }

  lemma DiagonalValue(x: Subframe, h: Subframe, m: nat)
    requires m < 40 && PhiTo(h, m, m, 40) / 2 <= MAX32
    ensures SurfaceOf(x, h).phi[m][m] as int == PhiTo(h, m, m, 40) / 2
  {
    hide PhiTo, D;
    PhiNonNegative(h, m, 40);
  }

  lemma CrossValue(x: Subframe, h: Subframe, i: nat, j: nat)
    requires i < 40 && j < 40 && i != j && MIN32 <= Cross(h, Signs(x, h), i, j, 40) <= MAX32
    ensures SurfaceOf(x, h).phi[i][j] as int == Cross(h, Signs(x, h), i, j, 40)
  {
    hide PhiTo, D;
  }

  // The four halved diagonals and the six signed sums behind E are not clipped.
  predicate PhiUnclipped(x: Subframe, h: Subframe, p: PS.Positions) {
    && (forall i | 0 <= i < 4 :: PhiTo(h, p[i], p[i], 40) / 2 <= MAX32)
    && (forall i, j | 0 <= i < j < 4 :: MIN32 <= Cross(h, Signs(x, h), p[i], p[j], 40) <= MAX32)
  }

  predicate Distinct(p: PS.Positions) {
    p[0] != p[1] && p[0] != p[2] && p[0] != p[3] && p[1] != p[2] && p[1] != p[3] && p[2] != p[3]
  }

  // Halving each of the four diagonal sums loses at most one unit of their double, so the search's E
  // is half the energy of the filtered vector up to 4 units of the double.
  lemma EnergyIsNorm(x: Subframe, h: Subframe, p: PS.Positions)
    requires PhiUnclipped(x, h, p) && Distinct(p)
    ensures var e := 2 * PS.EnergyOf(SurfaceOf(x, h), p);
            NormTo(h, Signs(x, h), p, 40) - 4 <= e <= NormTo(h, Signs(x, h), p, 40)
  {
    hide PhiTo, D, SurfaceOf, Signs, Cross;
    UnitSignsHold(x, h);
    NormSplits(h, Signs(x, h), p, 40);
    DiagonalValue(x, h, p[0]);
    DiagonalValue(x, h, p[1]);
    DiagonalValue(x, h, p[2]);
    DiagonalValue(x, h, p[3]);
    CrossValue(x, h, p[0], p[1]);
    CrossValue(x, h, p[0], p[2]);
    CrossValue(x, h, p[1], p[2]);
    CrossValue(x, h, p[0], p[3]);
    CrossValue(x, h, p[1], p[3]);
    CrossValue(x, h, p[2], p[3]);
  }

  lemma UnitSignsHold(x: Subframe, h: Subframe)
    ensures UnitSigns(Signs(x, h))
  {
    hide D;
  }
}
