/** The conjugate-structure gain search of section 3.9.2 of ITU-T G.729
    (internal/gainquant/conjugate.go): correlations, the normalised 2x2 solve, the preselection and the
    scaled cost over the 32 surviving pairs. */
module GainSearch {
  import opened Fixed
  import G = Gain

  const LIMIT63: int := 0x8000_0000_0000_0000

  predicate Fits64(x: int) {
    -LIMIT63 <= x < LIMIT63
  }

  // ---------- correlations ----------

  datatype Correlations = Correlations(a: int, b: int, c: int, d: int, f: int)

  function CorrelationsTo(x: Subframe, y: Subframe, z: Subframe, n: nat): Correlations
    requires n <= 40
  {
    if n == 0 then Correlations(0, 0, 0, 0, 0)
    else
      var r := CorrelationsTo(x, y, z, n - 1);
      var xi, yi, zi := x[n - 1] as int, y[n - 1] as int, z[n - 1] as int;
      Correlations(r.a + (yi * yi) * 0x100_0000, r.b + zi * zi, r.c + (yi * zi) * 0x1000,
                   r.d + (xi * yi) * 0x100_0000, r.f + (xi * zi) * 0x1000)
  }

  method GainSearchCorrelations(x: Subframe, y: Subframe, z: Subframe) returns (r: Correlations)
    ensures r == CorrelationsTo(x, y, z, 40)
  {
    r := Correlations(0, 0, 0, 0, 0);
    for i := 0 to 40
      invariant r == CorrelationsTo(x, y, z, i)
    {
      var xi, yi, zi := x[i] as int, y[i] as int, z[i] as int;
      r := Correlations(r.a + (yi * yi) * 0x100_0000, r.b + zi * zi, r.c + (yi * zi) * 0x1000,
                        r.d + (xi * yi) * 0x100_0000, r.f + (xi * zi) * 0x1000);
    }
  }

  // Largest magnitude a correlation of 40 products can have, per scale.
  predicate Bounded(r: Correlations, n: nat) {
    && 0 <= r.a <= n * 0x40_0000_0000_0000 && 0 <= r.b <= n * 0x4000_0000
    && Abs(r.c) <= n * 0x400_0000_0000 && Abs(r.d) <= n * 0x40_0000_0000_0000 && Abs(r.f) <= n * 0x400_0000_0000
  }

  lemma {:induction false} CorrelationsBounded(x: Subframe, y: Subframe, z: Subframe, n: nat)
    requires n <= 40
    ensures Bounded(CorrelationsTo(x, y, z, n), n)
  {
    if n > 0 {
      CorrelationsBounded(x, y, z, n - 1);
      ProductBound(y[n - 1], y[n - 1]);
      ProductBound(z[n - 1], z[n - 1]);
      ProductBound(y[n - 1], z[n - 1]);
      ProductBound(x[n - 1], y[n - 1]);
      ProductBound(x[n - 1], z[n - 1]);
      SquareSign(y[n - 1]);
      SquareSign(z[n - 1]);
    }
  }

  lemma SquareSign(v: int)
    ensures v * v >= 0
  {
  }

  // ---------- the inequality between them ----------

  // Energy of the combination s y + t z, y on the scale of the first correlation.
  function Form(r: Correlations, s: int, t: int): int {
    s * (s * r.a) + 2 * (s * (t * r.c)) + t * (t * r.b)
  }

  lemma {:induction false} FormNonNegative(x: Subframe, y: Subframe, z: Subframe, n: nat, s: int, t: int)
    requires n <= 40
    ensures Form(CorrelationsTo(x, y, z, n), s, t) >= 0
  {
    if n > 0 {
      FormNonNegative(x, y, z, n - 1, s, t);
      FormStep(CorrelationsTo(x, y, z, n - 1), CorrelationsTo(x, y, z, n), y[n - 1], z[n - 1], s, t);
    }
  }

  lemma FormStep(r: Correlations, r': Correlations, y: int, z: int, s: int, t: int)
    requires r'.a == r.a + (y * y) * 0x100_0000 && r'.b == r.b + z * z && r'.c == r.c + (y * z) * 0x1000
    ensures Form(r', s, t) >= Form(r, s, t)
  {
    var u := 0x1000 * y;
    assert r'.a == r.a + u * u && r'.c == r.c + u * z;
    Spread(s, s, r.a, u * u);
    Spread(s, t, r.c, u * z);
    Spread(t, t, r.b, z * z);
    SquareSign(s * u + t * z);
    Combination(s, u, t, z);
  }

  lemma Combination(s: int, u: int, t: int, z: int)
    ensures (s * u + t * z) * (s * u + t * z) == s * (s * (u * u)) + 2 * (s * (t * (u * z))) + t * (t * (z * z))
  {
    var p, q := s * u, t * z;
    assert (p + q) * (p + q) == p * p + 2 * (p * q) + q * q;
    FourFactors(s, u, s, u);
    FourFactors(s, u, t, z);
    FourFactors(t, z, t, z);
  }

  lemma FourFactors(a: int, b: int, c: int, d: int)
    ensures (a * b) * (c * d) == a * (c * (b * d))
  {
    assert (a * b) * (c * d) == a * (b * (c * d));
    assert b * (c * d) == c * (b * d);
  }

  lemma Spread(s: int, t: int, p: int, q: int)
    ensures s * (t * (p + q)) == s * (t * p) + s * (t * q)
  {
    assert t * (p + q) == t * p + t * q;
  }

  // Cauchy-Schwarz: before any shift the determinant of the solve is not negative.
  lemma CauchySchwarz(x: Subframe, y: Subframe, z: Subframe)
    ensures var r := CorrelationsTo(x, y, z, 40);
            r.c * r.c <= r.a * r.b
  {
    hide CorrelationsTo;
    var r := CorrelationsTo(x, y, z, 40);
    CorrelationsBounded(x, y, z, 40);
    FormNonNegative(x, y, z, 40, r.b, -r.c);
    FormNonNegative(x, y, z, 40, -r.c, r.a);
    FormNonNegative(x, y, z, 40, 1, -r.c);
    FormAt(r);
    var det := r.a * r.b - r.c * r.c;
    if det < 0 {
      if r.b > 0 {
        MulPos(det, r.b);
      } else if r.a > 0 {
        MulPos(det, r.a);
      } else {
        SquareSign(r.c);
      }
    }
  }

  // The three combinations the inequality is read off.
  lemma FormAt(r: Correlations)
    ensures Form(r, r.b, -r.c) == (r.a * r.b - r.c * r.c) * r.b
    ensures Form(r, -r.c, r.a) == (r.a * r.b - r.c * r.c) * r.a
    ensures Form(r, 1, -r.c) == r.a - 2 * (r.c * r.c) + r.c * (r.c * r.b)
  {
    var a, b, c := r.a, r.b, r.c;
    var det := a * b - c * c;
    assert det * b == b * (b * a) - b * (c * c) && det * a == a * (a * b) - a * (c * c);
    assert b * (-c * c) == -(b * (c * c)) && c * (c * b) == b * (c * c) && -c * (-c * b) == c * (c * b);
    assert -c * (-c * a) == a * (c * c) && -c * (a * c) == -(a * (c * c));
    assert -c * c == -(c * c);
  }

  // ---------- bit lengths ----------

  // bits.Len64
  function BitLen(v: nat): (n: nat)
    ensures v < Pow2(n)
    ensures v > 0 ==> n > 0 && Pow2(n - 1) <= v
  {
    if v == 0 then 0 else 1 + BitLen(v / 2)
  }

  lemma {:induction false} BitLenBelow(v: nat, n: nat)
    requires v < Pow2(n)
    ensures BitLen(v) <= n
  {
    if v > 0 {
      assert n > 0;
      BitLenBelow(v / 2, n - 1);
    }
  }

  // The bit length is the least width a value is below.
  lemma BitLenLeast(v: nat, n: nat)
    ensures BitLen(v) <= n <==> v < Pow2(n)
  {
    if BitLen(v) <= n {
      Pow2Mono(BitLen(v), n);
    }
    if v < Pow2(n) {
      BitLenBelow(v, n);
    }
    hide BitLen, Pow2;
  }

  // An arithmetic right shift of a value of b bits leaves a magnitude of at most 2^(b - s), or at
  // most 1 where every bit is shifted out of a negative value.
  lemma ShiftBound(v: int, b: nat, s: nat)
    requires Abs(v) < Pow2(b)
    ensures b >= s ==> -(Pow2(b - s) as int) <= Shr(v, s) < Pow2(b - s)
    ensures b < s ==> -1 <= Shr(v, s) <= 0
    ensures v >= 0 ==> Shr(v, s) >= 0
  {
    hide Pow2;
    var p := Pow2(s);
    if b >= s {
      Pow2Add(b - s, s);
      DivideBound(v, p, Pow2(b - s));
    } else {
      Pow2Mono(b, s);
      DivideBound(v, p, 1);
    }
    DivBound(v, p);
  }

  lemma DivideBound(v: int, p: int, m: int)
    requires p >= 1 && m >= 1 && -(m * p) <= v < m * p
    ensures -m <= v / p < m
  {
    var q, r := v / p, v % p;
    assert v == q * p + r;
    ProductLess(q, m, p);
    ProductLess(-m, q + 1, p);
    assert (q + 1) * p == q * p + p && -m * p == -(m * p);
  }

  lemma ProductLess(a: int, b: int, p: int)
    requires p >= 1 && a * p < b * p
    ensures a < b
  {
    if a >= b {
      MulMono(b, a, p);
    }
  }

  // ---------- the centre of the preselection ----------

  function MaxAbs(r: Correlations): nat {
    Max(Max(Max(Max(Abs(r.a), Abs(r.b)), Abs(r.c)), Abs(r.d)), Abs(r.f))
  }

  function NormShift(r: Correlations, targetBits: nat): nat {
    var blen := BitLen(MaxAbs(r));
    if blen > targetBits then blen - targetBits else 0
  }

  // It is the least shift that brings the largest correlation below the target width.
  lemma NormShiftLeast(r: Correlations, targetBits: nat, s: nat)
    ensures NormShift(r, targetBits) <= s <==> MaxAbs(r) < Pow2(targetBits + s)
  {
    BitLenLeast(MaxAbs(r), targetBits + s);
    hide BitLen, Pow2, MaxAbs;
  }

  function Shifted(r: Correlations, s: nat): Correlations {
    Correlations(Shr(r.a, s), Shr(r.b, s), Shr(r.c, s), Shr(r.d, s), Shr(r.f, s))
  }

  function NonNegative(v: int): nat {
    if v < 0 then 0 else v
  }

  // Unquantised optimum (gp in Q14, gc in Q12) of the normalised system.
  function Centre(n: Correlations): (nat, nat)
    requires n.a >= 0 && n.b >= 0
  {
    var det := n.a * n.b - n.c * n.c;
    if det > 0 then
      (NonNegative(Quotient((n.d * n.b - n.f * n.c) * 0x4000, det)),
       NonNegative(Quotient((n.f * n.a - n.d * n.c) * 0x1000, det)))
    else if n.a > 0 then (NonNegative(Quotient(n.d * 0x4000, n.a)), 0)
    else if n.b > 0 then (0, NonNegative(Quotient(n.f * 0x1000, n.b)))
    else (0, 0)
  }

  // Every operand of the normalised system.
  predicate Small(n: Correlations, m: int) {
    && 0 <= n.a < m && 0 <= n.b < m
    && -m <= n.c < m && -m <= n.d < m && -m <= n.f < m
  }

  lemma MaxAbsCovers(r: Correlations)
    ensures var m := MaxAbs(r);
            Abs(r.a) <= m && Abs(r.b) <= m && Abs(r.c) <= m && Abs(r.d) <= m && Abs(r.f) <= m
  {
  }

  lemma NormalisedSmall(r: Correlations, targetBits: nat)
    requires r.a >= 0 && r.b >= 0
    ensures Small(Shifted(r, NormShift(r, targetBits)), Pow2(targetBits))
  {
    var s, blen := NormShift(r, targetBits), BitLen(MaxAbs(r));
    var b := if blen > targetBits then blen else targetBits;
    Pow2Mono(blen, b);
    assert b - s == targetBits;
    MaxAbsCovers(r);
    hide Pow2, BitLen, Shr, NormShift, MaxAbs;
    ShiftBound(r.a, b, s);
    ShiftBound(r.b, b, s);
    ShiftBound(r.c, b, s);
    ShiftBound(r.d, b, s);
    ShiftBound(r.f, b, s);
  }

  // The cross correlation of the two codebook vectors is a multiple of 2^12.
  lemma {:induction false} CrossMultiple(x: Subframe, y: Subframe, z: Subframe, n: nat)
    requires n <= 40
    ensures CorrelationsTo(x, y, z, n).c % 0x1000 == 0
  {
    if n > 0 {
      CrossMultiple(x, y, z, n - 1);
      SumOfMultiples(CorrelationsTo(x, y, z, n - 1).c, (y[n - 1] as int) * z[n - 1]);
    }
  }

  lemma SumOfMultiples(c: int, k: int)
    requires c % 0x1000 == 0
    ensures (c + k * 0x1000) % 0x1000 == 0
  {
  }

  // A shift of a multiple of 2^12 by at most 12 places is exact.
  lemma ExactShift(c: int, s: nat)
    requires c % 0x1000 == 0 && s <= 12
    ensures c == Shr(c, s) * Pow2(s)
  {
    var q, p, k := c / 0x1000, Pow2(s), Pow2(12 - s);
    assert k * p == 0x1000 by {
      Pow2Values();
      Pow2Add(12 - s, s);
    }
    hide Pow2;
    Regroup(k, p, q);
    ModUnique(c, p, k * q, 0);
  }

  lemma Regroup(k: int, p: int, q: int)
    ensures (k * p) * q == (k * q) * p
  {
  }

  // A cross correlation shifted to -2^24 by more than 12 places needs energies no vector has.
  lemma NoSuchEnergies(r: Correlations, s: nat)
    requires s >= 13 && 0 <= r.a < 0x100_0000 * Pow2(s) && 0 <= r.b <= 40 * 0x4000_0000
    requires r.c < -0x100_0000 * Pow2(s) + Pow2(s)
    ensures r.c * r.c > r.a * r.b
  {
    hide Pow2;
    Pow2Mono(13, s);
    Pow2Values();
    var p := Pow2(s) as int;
    var t := 0xFF_FFFF * p;
    SquareLess(t, -r.c);
    assert r.c * r.c == -r.c * -r.c;
    MulAbsLe(r.a, r.b, 0x100_0000 * p, 40 * 0x4000_0000);
    MulMono(0x2000, p, p);
    assert t * t == (0xFF_FFFF * 0xFF_FFFF) * (p * p);
  }

  lemma SquareLess(x: int, y: int)
    requires 0 <= x < y
    ensures x * x < y * y
  {
    assert y * y - x * x == (y - x) * (y + x);
    MulPos(y - x, y + x);
  }

  // So the normalised cross correlation never reaches the lower end of the target width.
  lemma CrossStrict(x: Subframe, y: Subframe, z: Subframe, targetBits: nat)
    requires targetBits <= 24
    ensures var r := CorrelationsTo(x, y, z, 40);
            Shifted(r, NormShift(r, targetBits)).c > -0x100_0000
  {
    hide CorrelationsTo, NormShift, BitLen, Form, Shr, Pow2;
    var r := CorrelationsTo(x, y, z, 40);
    var s := NormShift(r, targetBits);
    CorrelationsBounded(x, y, z, 40);
    WidthBelow(r, targetBits);
    ShiftRange(r.c, s);
    if Shr(r.c, s) <= -0x100_0000 {
      if s <= 12 {
        CrossMultiple(x, y, z, 40);
        AtBottom(r.c, s);
        ExactShift(r.c, s);
      } else {
        CauchySchwarz(x, y, z);
        AtBottom(r.c, s);
        NoSuchEnergies(r, s);
      }
    }
  }

  lemma WidthBelow(r: Correlations, targetBits: nat)
    requires targetBits <= 24
    ensures Abs(r.a) < 0x100_0000 * Pow2(NormShift(r, targetBits))
    ensures Abs(r.c) < 0x100_0000 * Pow2(NormShift(r, targetBits))
  {
    var s, blen := NormShift(r, targetBits), BitLen(MaxAbs(r));
    Pow2Mono(blen, 24 + s);
    Pow2Add(24, s);
    Pow2Add(16, 8);
    Pow2Values();
    MaxAbsCovers(r);
    hide Pow2, BitLen, MaxAbs;
  }

  lemma ShiftRange(v: int, s: nat)
    ensures Shr(v, s) * Pow2(s) <= v < Shr(v, s) * Pow2(s) + Pow2(s)
  {
  }

  // A value above -2^(24 + s) that the shift takes to -2^24 or below is taken to -2^24.
  lemma AtBottom(c: int, s: nat)
    requires Abs(c) < 0x100_0000 * Pow2(s) && Shr(c, s) <= -0x100_0000
    ensures Shr(c, s) == -0x100_0000 && c < -0x100_0000 * Pow2(s) + Pow2(s) && c != -0x100_0000 * Pow2(s)
  {
    hide Shr, Pow2;
    ShiftRange(c, s);
    var p, v := Pow2(s), Shr(c, s);
    if v < -0x100_0000 {
      MulMono(v, -0x100_0001, p);
    }
  }

  // For every subframe and every width up to 24 bits no step of the solve overflows: each product stays
  // below 2^48, each numerator below 2^49 and its scaled value within 64 bits.
  lemma SolveFits(x: Subframe, y: Subframe, z: Subframe, targetBits: nat)
    requires targetBits <= 24
    ensures var r := CorrelationsTo(x, y, z, 40);
            var n := Shifted(r, NormShift(r, targetBits));
            && Small(n, 0x100_0000) && ProductsBelow(n, 0x1_0000_0000_0000)
            && Abs(n.d * n.b - n.f * n.c) < 0x2_0000_0000_0000 && Abs(n.f * n.a - n.d * n.c) < 0x2_0000_0000_0000
            && Fits64((n.d * n.b - n.f * n.c) * 0x4000) && Fits64((n.f * n.a - n.d * n.c) * 0x1000)
            && Centre(n).0 < LIMIT63 && Centre(n).1 < LIMIT63 / 4
  {
    hide CorrelationsTo, NormShift, Shifted, Quotient, Pow2;
    CorrelationsBounded(x, y, z, 40);
    var r := CorrelationsTo(x, y, z, 40);
    NormalisedSmall(r, targetBits);
    Pow2Mono(targetBits, 24);
    Pow2Values();
    Pow2Add(16, 8);
    CrossStrict(x, y, z, targetBits);
    SmallSolveFits(Shifted(r, NormShift(r, targetBits)));
  }

  predicate ProductsBelow(n: Correlations, m: nat) {
    && Abs(n.a * n.b) < m && Abs(n.c * n.c) < m && Abs(n.d * n.b) < m
    && Abs(n.f * n.c) < m && Abs(n.f * n.a) < m && Abs(n.d * n.c) < m
  }

  lemma SmallSolveFits(n: Correlations)
    requires Small(n, 0x100_0000) && n.c > -0x100_0000
    ensures ProductsBelow(n, 0x1_0000_0000_0000)
    ensures Abs(n.d * n.b - n.f * n.c) < 0x2_0000_0000_0000 && Abs(n.f * n.a - n.d * n.c) < 0x2_0000_0000_0000
    ensures Fits64((n.d * n.b - n.f * n.c) * 0x4000) && Fits64((n.f * n.a - n.d * n.c) * 0x1000)
    ensures Centre(n).0 < LIMIT63 && Centre(n).1 < LIMIT63 / 4
  {
    hide Quotient;
    var m := 0x100_0000;
    MulAbsLe(n.a, n.b, m - 1, m - 1);
    MulAbsLe(n.c, n.c, m - 1, m - 1);
    MulAbsLe(n.d, n.b, m, m - 1);
    MulAbsLe(n.f, n.c, m, m - 1);
    MulAbsLe(n.f, n.a, m, m - 1);
    MulAbsLe(n.d, n.c, m, m - 1);
    var det := n.a * n.b - n.c * n.c;
    if det > 0 {
      QuotientBelow((n.d * n.b - n.f * n.c) * 0x4000, det);
      QuotientBelow((n.f * n.a - n.d * n.c) * 0x1000, det);
    } else if n.a > 0 {
      QuotientBelow(n.d * 0x4000, n.a);
    } else if n.b > 0 {
      QuotientBelow(n.f * 0x1000, n.b);
    }
  }

  lemma QuotientBelow(a: int, b: nat)
    requires b > 0
    ensures Abs(Quotient(a, b)) <= Abs(a)
  {
    DivBound(Abs(a), b);
  }

  // ---------- stable ordering by distance ----------

  // k goes behind everything that is not farther.
  function InsertByDistance(d: seq<int>, l: seq<nat>, k: nat): (r: seq<nat>)
    requires k < |d| && Inside(l, |d|)
    ensures |r| == |l| + 1 && Inside(r, |d|)
  {
    if |l| == 0 || d[l[|l| - 1]] <= d[k] then l + [k]
    else InsertByDistance(d, l[..|l| - 1], k) + [l[|l| - 1]]
  }

  predicate Inside(l: seq<nat>, n: nat) {
    forall i | 0 <= i < |l| :: l[i] < n
  }

  // The first n indices by distance, ties in index order.
  function ByDistance(d: seq<int>, n: nat): (l: seq<nat>)
    requires n <= |d|
    ensures |l| == n && Inside(l, |d|)
  {
    if n == 0 then [] else InsertByDistance(d, ByDistance(d, n - 1), n - 1)
  }

  predicate Nearer(d: seq<int>, i: nat, j: nat)
    requires i < |d| && j < |d|
  {
    d[i] < d[j] || (d[i] == d[j] && i < j)
  }

  predicate Ordered(d: seq<int>, l: seq<nat>)
    requires Inside(l, |d|)
  {
    forall i, j | 0 <= i < j < |l| :: Nearer(d, l[i], l[j])
  }

  lemma {:induction false} InsertOrdered(d: seq<int>, l: seq<nat>, k: nat)
    requires k < |d| && Inside(l, |d|) && Ordered(d, l) && forall i | 0 <= i < |l| :: l[i] < k
    ensures Ordered(d, InsertByDistance(d, l, k))
    ensures forall x :: x in InsertByDistance(d, l, k) <==> x in l || x == k
    decreases |l|
  {
    if |l| > 0 {
      var init, last := l[..|l| - 1], l[|l| - 1];
      assert l == init + [last];
      if d[last] > d[k] {
        InsertOrdered(d, init, k);
        var r := InsertByDistance(d, init, k);
        forall i | 0 <= i < |r|
          ensures Nearer(d, r[i], last)
        {
          assert r[i] in r;
        }
      }
    }
  }

  // The order is by distance with stable ties, and holds every index below n once.
  lemma {:induction false} ByDistanceOrdered(d: seq<int>, n: nat)
    requires n <= |d|
    ensures Ordered(d, ByDistance(d, n))
    ensures forall x: nat :: x in ByDistance(d, n) <==> x < n
  {
    if n > 0 {
      ByDistanceOrdered(d, n - 1);
      var l := ByDistance(d, n - 1);
      forall i | 0 <= i < |l|
        ensures l[i] < n - 1
      {
        assert l[i] in l;
      }
      InsertOrdered(d, l, n - 1);
      assert ByDistance(d, n) == InsertByDistance(d, l, n - 1);
    }
    hide Ordered, InsertByDistance;
  }

  // The first m are nearer than every index left out.
  lemma PreselectionNearest(d: seq<int>, n: nat, m: nat, i: nat, x: nat)
    requires n <= |d| && m <= n && i < m && x < n && x !in ByDistance(d, n)[..m]
    ensures Nearer(d, ByDistance(d, n)[i], x)
  {
    ByDistanceOrdered(d, n);
    var l := ByDistance(d, n);
    assert x in l;
    var j :| 0 <= j < |l| && l[j] == x;
    InPrefix(l, m, j);
    assert l[..m][i] == l[i];
  }

  lemma InPrefix(l: seq<nat>, m: nat, j: nat)
    requires m <= |l| && j < |l|
    ensures j < m ==> l[j] in l[..m]
  {
    if j < m {
      assert l[..m][j] == l[j];
    }
  }

  // ---------- the in-place sort ----------

  // The first i entries are sorted, the rest untouched.
  predicate SortedTo(d: seq<int>, idx: seq<nat>, dist: seq<int>, i: nat) {
    && |idx| == |dist| == |d| && i <= |d|
    && idx[..i] == ByDistance(d, i)
    && (forall k | 0 <= k < |d| :: idx[k] < |d| && dist[k] == d[idx[k]])
    && (forall k | i <= k < |d| :: idx[k] == k)
  }

  method SortByDist(idx: array<nat>, dist: array<int>, ghost d: seq<int>)
    requires idx.Length == dist.Length == |d| && |d| >= 1
    requires forall k | 0 <= k < |d| :: idx[k] == k && dist[k] == d[k]
    modifies idx, dist
    ensures idx[..] == ByDistance(d, |d|)
  {
    hide InsertByDistance;
    FirstSorted(d);
    assert idx[..1] == [0];
    for i := 1 to idx.Length
      invariant SortedTo(d, idx[..], dist[..], i)
    {
      SlideDown(idx, dist, i, d);
    }
    assert idx[..] == idx[..][..|d|];
  }

  lemma FirstSorted(d: seq<int>)
    requires |d| >= 1
    ensures ByDistance(d, 1) == [0]
  {
    assert ByDistance(d, 0) == [];
  }

  lemma InsertStep(d: seq<int>, l: seq<nat>, k: nat, j: nat)
    requires k < |d| && Inside(l, |d|) && j < |l| && d[l[j]] > d[k]
    ensures InsertByDistance(d, l[..j + 1], k) + l[j + 1..] == InsertByDistance(d, l[..j], k) + l[j..]
  {
    assert l[..j + 1][..j] == l[..j];
    assert l[j..] == [l[j]] + l[j + 1..];
  }

  lemma StartInsert(d: seq<int>, l: seq<nat>, k: nat)
    requires k < |d| && Inside(l, |d|)
    ensures InsertByDistance(d, l, k) == InsertByDistance(d, l[..|l|], k) + l[|l|..]
  {
    assert l[..|l|] == l;
  }

  lemma InsertHere(d: seq<int>, l: seq<nat>, k: nat)
    requires k < |d| && Inside(l, |d|) && (|l| > 0 ==> d[l[|l| - 1]] <= d[k])
    ensures InsertByDistance(d, l, k) == l + [k]
  {
  }

  // The arrays of the inner loop: the sorted prefix l with a free slot at j + 1, the rest untouched.
  predicate OpenSlot(d: seq<int>, idx: seq<nat>, l: seq<nat>, j: int) {
    && |idx| == |d| && -1 <= j < |l| < |d|
    && (forall k | 0 <= k <= j :: idx[k] == l[k])
    && (forall k | j + 1 < k <= |l| :: idx[k] == l[k - 1])
    && (forall k | |l| < k < |d| :: idx[k] == k)
  }

  // Outside the free slot the distances follow the indices.
  predicate Follows(d: seq<int>, idx: seq<nat>, dist: seq<int>, j: int) {
    |idx| == |dist| == |d| && forall k | 0 <= k < |d| && k != j + 1 :: idx[k] < |d| && dist[k] == d[idx[k]]
  }

  lemma OpenAtEnd(d: seq<int>, idx: seq<nat>, dist: seq<int>, i: nat)
    requires 1 <= i < |d| && SortedTo(d, idx, dist, i)
    ensures OpenSlot(d, idx, idx[..i], i - 1) && Follows(d, idx, dist, i - 1)
  {
  }

  lemma MoveSlot(d: seq<int>, idx: seq<nat>, dist: seq<int>, l: seq<nat>, j: int)
    requires OpenSlot(d, idx, l, j) && j >= 0 && Follows(d, idx, dist, j) && Inside(l, |d|)
    ensures |idx| == |dist| == |d| > |l| > j && dist[j] == d[l[j]]
    ensures OpenSlot(d, idx[j + 1 := idx[j]], l, j - 1)
    ensures Follows(d, idx[j + 1 := idx[j]], dist[j + 1 := dist[j]], j - 1)
  {
  }

  // Filling the free slot gives the prefix with k between its two halves.
  lemma FillSlot(d: seq<int>, idx: seq<nat>, l: seq<nat>, k: nat, j: int)
    requires OpenSlot(d, idx, l, j)
    ensures idx[j + 1 := k][..|l| + 1] == l[..j + 1] + [k] + l[j + 1..]
  {
    var r, s := idx[j + 1 := k], l[..j + 1] + [k] + l[j + 1..];
    forall m | 0 <= m < |l| + 1
      ensures r[m] == s[m]
    {
      if m > j + 1 {
        assert s[m] == l[j + 1..][m - (j + 2)] == l[m - 1];
      }
    }
  }

  lemma CloseIndices(d: seq<int>, idx: seq<nat>, l: seq<nat>, k: nat, j: int)
    requires OpenSlot(d, idx, l, j) && k == |l| && Inside(l, |d|) && (j >= 0 ==> d[l[j]] <= d[k])
    requires InsertByDistance(d, l, k) == InsertByDistance(d, l[..j + 1], k) + l[j + 1..]
    ensures var r := idx[j + 1 := k];
            r[..k + 1] == InsertByDistance(d, l, k) && forall m | k < m < |d| :: r[m] == m
  {
    FillSlot(d, idx, l, k, j);
    InsertHere(d, l[..j + 1], k);
    hide InsertByDistance;
  }

  lemma CloseDistances(d: seq<int>, idx: seq<nat>, dist: seq<int>, k: nat, j: int)
    requires Follows(d, idx, dist, j) && -1 <= j && j + 1 < |d| && k < |d|
    ensures Follows(d, idx[j + 1 := k], dist[j + 1 := d[k]], |d|)
  {
  }

  lemma Closed(d: seq<int>, idx: seq<nat>, dist: seq<int>, i: nat, l: seq<nat>)
    requires i < |d| && Follows(d, idx, dist, |d|) && l == ByDistance(d, i)
    requires idx[..i + 1] == InsertByDistance(d, l, i) && forall m | i < m < |d| :: idx[m] == m
    ensures SortedTo(d, idx, dist, i + 1)
  {
    hide InsertByDistance;
  }

  method SlideDown(idx: array<nat>, dist: array<int>, i: nat, ghost d: seq<int>)
    requires idx.Length == dist.Length == |d| && 1 <= i < |d| && SortedTo(d, idx[..], dist[..], i)
    modifies idx, dist
    ensures SortedTo(d, idx[..], dist[..], i + 1)
  {
    hide InsertByDistance, OpenSlot, Follows;
    ghost var l: seq<nat> := idx[..i];
    var di, ii := dist[i], idx[i];
    var j := i - 1;
    SortedAt(d, idx[..], dist[..], i);
    StartInsert(d, l, i);
    OpenAtEnd(d, idx[..], dist[..], i);
    hide SortedTo;
    while j >= 0 && dist[j] > di
      invariant -1 <= j < i
      invariant OpenSlot(d, idx[..], l, j) && Follows(d, idx[..], dist[..], j)
      invariant InsertByDistance(d, l, i) == InsertByDistance(d, l[..j + 1], i) + l[j + 1..]
    {
      ghost var s: seq<nat>, t: seq<int> := idx[..], dist[..];
      MoveSlot(d, s, t, l, j);
      InsertStep(d, l, i, j);
      dist[j + 1] := dist[j];
      idx[j + 1] := idx[j];
      assert idx[..] == s[j + 1 := s[j]] && dist[..] == t[j + 1 := t[j]];
      j := j - 1;
    }
    ghost var s: seq<nat>, t: seq<int> := idx[..], dist[..];
    if j >= 0 {
      MoveSlot(d, s, t, l, j);
    }
    CloseIndices(d, s, l, i, j);
    CloseDistances(d, s, t, i, j);
    dist[j + 1] := di;
    idx[j + 1] := ii;
    assert idx[..] == s[j + 1 := i] && dist[..] == t[j + 1 := d[i]];
    Closed(d, idx[..], dist[..], i, l);
  }

  lemma SortedAt(d: seq<int>, idx: seq<nat>, dist: seq<int>, i: nat)
    requires 1 <= i < |d| && SortedTo(d, idx, dist, i)
    ensures idx[i] == i && dist[i] == d[i] && Inside(idx[..i], |d|)
    ensures idx[..i] == ByDistance(d, i) && ByDistance(d, i + 1) == InsertByDistance(d, idx[..i], i)
    ensures forall k | 0 <= k < i :: dist[..i][k] == d[idx[..i][k]]
  {
    hide InsertByDistance;
  }
}
