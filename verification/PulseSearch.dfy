/** The algebraic codebook searches of sections 3.8.1 and A.3.8.1 of ITU-T G.729: the exact 128-bit ratio
    comparison, the exhaustive search, the budgeted threshold scan and the ranked list
    (internal/fcbsearch/search.go). */
module PulseSearch {
  import opened Fixed
  import F = FixedCodebook

  // ---------- 128-bit comparison ----------

  const B64: int := 0x1_0000_0000_0000_0000
  const MAX64: int := 0x7FFF_FFFF_FFFF_FFFF

  type U64 = x: int | 0 <= x < 0x1_0000_0000_0000_0000

  datatype U128 = U128(hi: U64, lo: U64)

  function Value(x: U128): nat {
    x.hi * B64 + x.lo
  }

  function Saturated(v: nat): nat {
    if v >= B64 * B64 then B64 * B64 - 1 else v
  }

  lemma WideProduct(a: U64, b: U64)
    ensures 0 <= a * b && (a * b) / B64 < B64
  {
    MulMono(a, B64 - 1, b);
    MulMono(b, B64 - 1, B64 - 1);
    assert 0 <= a * b by { MulMono(0, a, b); }
  }

  // bits.Mul64
  function Mul64(a: U64, b: U64): (r: U128)
    ensures Value(r) == a * b
  {
    WideProduct(a, b);
    U128((a * b) / B64, (a * b) % B64)
  }

  // The limb product is the exact one, or all ones where that does not fit.
  function Mul128By64Saturating(x: U128, y: U64): (r: U128)
    ensures Value(r) == Saturated(Value(x) * y)
  {
    var low, high := Mul64(x.lo, y), Mul64(x.hi, y);
    assert Value(x) * y == (x.hi * y) * B64 + x.lo * y;
    if high.hi != 0 then U128(B64 - 1, B64 - 1)
    else
      var sum := low.hi + high.lo;
      if sum >= B64 then U128(B64 - 1, B64 - 1) else U128(sum, low.lo)
  }

  function Cmp128(a: U128, b: U128): (r: int)
    ensures r > 0 <==> Value(a) > Value(b)
    ensures r < 0 <==> Value(a) < Value(b)
  {
    if a.hi > b.hi then 1 else if a.hi < b.hi then -1
    else if a.lo > b.lo then 1 else if a.lo < b.lo then -1
    else 0
  }

  function Square(c: int): nat {
    Abs(c) * Abs(c)
  }

  // c1^2 / e1 > c2^2 / e2
  predicate RatioGreater(c1: int, e1: int, c2: int, e2: int)
    requires Abs(c1) <= MAX64 && Abs(c2) <= MAX64 && 0 < e1 <= MAX64 && 0 < e2 <= MAX64
  {
    var left := Mul128By64Saturating(Mul64(Abs(c1), Abs(c1)), e2);
    var right := Mul128By64Saturating(Mul64(Abs(c2), Abs(c2)), e1);
    Cmp128(left, right) > 0
  }

  // The fourth-power size of anything the searches compare.
  predicate InDomain(c: int, e: int) {
    Abs(c) <= 0x2_0000_0000 && 0 < e <= 0x8_0000_0000
  }

  lemma CrossFits(c: int, e: int, e': int)
    requires InDomain(c, e) && 0 < e' <= 0x8_0000_0000
    ensures Square(c) * e' < B64 * B64
  {
    MulAbsLe(c, c, 0x2_0000_0000, 0x2_0000_0000);
    MulMono(Abs(c), 0x2_0000_0000, Abs(c));
    MulMono(Abs(c), 0x2_0000_0000, 0x2_0000_0000);
    MulMono(Square(c), 0x4_0000_0000 * 0x1_0000_0000, e');
  }

  predicate Beats(c1: int, e1: int, c2: int, e2: int) {
    Square(c1) * e2 > Square(c2) * e1
  }

  // On every pair the searches can form, the saturating limb arithmetic decides the exact inequality.
  lemma RatioExact(c1: int, e1: int, c2: int, e2: int)
    requires InDomain(c1, e1) && InDomain(c2, e2)
    ensures RatioGreater(c1, e1, c2, e2) <==> Beats(c1, e1, c2, e2)
  {
    CrossFits(c1, e1, e2);
    CrossFits(c2, e2, e1);
  }

  // Squares over positive energies are totally preordered by the cross products.
  lemma BeatsTransitive(c1: int, e1: int, c2: int, e2: int, c3: int, e3: int)
    requires e1 > 0 && e2 > 0 && e3 > 0
    requires !Beats(c1, e1, c2, e2) && !Beats(c2, e2, c3, e3)
    ensures !Beats(c1, e1, c3, e3)
    ensures Beats(c3, e3, c2, e2) || Beats(c2, e2, c1, e1) ==> Beats(c3, e3, c1, e1)
  {
    CrossTransitive(Square(c1), e1, Square(c2), e2, Square(c3), e3);
  }

  lemma Exchange(x: int, y: int, z: int)
    ensures (x * y) * z == (x * z) * y
  {
  }

  lemma MulMonoStrict(x: int, y: int, k: int)
    requires x < y && k > 0
    ensures x * k < y * k
  {
    MulMono(x + 1, y, k);
    assert (x + 1) * k == x * k + k;
  }

  lemma CrossTransitive(s1: int, e1: int, s2: int, e2: int, s3: int, e3: int)
    requires e1 > 0 && e2 > 0 && e3 > 0
    requires s1 * e2 <= s2 * e1 && s2 * e3 <= s3 * e2
    ensures s1 * e3 <= s3 * e1
    ensures s1 * e2 < s2 * e1 || s2 * e3 < s3 * e2 ==> s1 * e3 < s3 * e1
  {
    var p, q, r := s1 * e2, s2 * e1, s2 * e3;
    var t := s3 * e2;
    MulMono(p, q, e3);
    MulMono(r, t, e1);
    Exchange(s1, e2, e3);
    Exchange(s3, e2, e1);
    Exchange(s2, e1, e3);
    if p < q {
      MulMonoStrict(p, q, e3);
    }
    if r < t {
      MulMonoStrict(r, t, e1);
    }
    Cancel(s1 * e3, s3 * e1, e2);
  }

  lemma Cancel(a: int, b: int, k: int)
    requires k > 0
    ensures a * k <= b * k ==> a <= b
    ensures a * k < b * k ==> a < b
  {
    MulPos(a - b, k);
    assert (a - b) * k == a * k - b * k;
  }

  function SquareSaturating(c: int): nat {
    if Abs(c) > 3037000499 then MAX64 else Abs(c) * Abs(c)
  }

  // ---------- candidates ----------

  // The search surface: |d| and the signed correlation matrix.
  datatype Surface = Surface(dAbs: seq<Word32>, phi: seq<seq<Word32>>)

  predicate Shaped(s: Surface) {
    |s.dAbs| == 40 && |s.phi| == 40 && forall i | 0 <= i < 40 :: |s.phi[i]| == 40
  }

  function Track3(i: nat): nat
    requires i < 16
  {
    if i % 2 == 0 then 5 * (i / 2) + 3 else 5 * (i / 2) + 4
  }

  // The four positions of candidate k, counted in the order of the nested loops.
  type Positions = p: F.Positions | forall i | 0 <= i < 4 :: p[i] < 40 witness [0, 1, 2, 3]

  function At(i0: nat, i1: nat, i2: nat, i3: nat): (p: Positions)
    requires i0 < 8 && i1 < 8 && i2 < 8 && i3 < 16
  {
    [5 * i0, 5 * i1 + 1, 5 * i2 + 2, Track3(i3)]
  }

  function PositionsOf(k: nat): (p: Positions)
    requires k < 8192
  {
    At(k / 1024, (k / 128) % 8, (k / 16) % 8, k % 16)
  }

  function Index(i0: nat, i1: nat, i2: nat, i3: nat): nat {
    1024 * i0 + 128 * i1 + 16 * i2 + i3
  }

  lemma IndexBack(i0: nat, i1: nat, i2: nat, i3: nat)
    requires i0 < 8 && i1 < 8 && i2 < 8 && i3 < 16
    ensures Index(i0, i1, i2, i3) < 8192
    ensures PositionsOf(Index(i0, i1, i2, i3)) == At(i0, i1, i2, i3)
    ensures Index(i0, i1, i2, i3) / 16 == 64 * i0 + 8 * i1 + i2
  {
    var k := Index(i0, i1, i2, i3);
    assert k / 16 == 64 * i0 + 8 * i1 + i2 && k % 16 == i3;
    assert k / 128 == 8 * i0 + i1 && k / 1024 == i0;
    assert (k / 16) % 8 == i2 && (k / 128) % 8 == i1;
  }

  // The candidates are exactly the pulse sets the code word C can carry.
  lemma CandidatesAreLegal(k: nat)
    requires k < 8192
    ensures F.OnTracks(PositionsOf(k))
  {
    hide F.OnTracks;
    TracksAt(k / 1024, (k / 128) % 8, (k / 16) % 8, k % 16);
  }

  lemma TracksAt(i0: nat, i1: nat, i2: nat, i3: nat)
    requires i0 < 8 && i1 < 8 && i2 < 8 && i3 < 16
    ensures F.OnTracks(At(i0, i1, i2, i3))
  {
  }

  lemma LegalIsCandidate(p: Positions) returns (k: nat)
    requires F.OnTracks(p)
    ensures k < 8192 && PositionsOf(k) == p
  {
    var i3 := 2 * (p[3] / 5) + (if p[3] % 5 == 4 then 1 else 0);
    OnTracksAt(p, i3);
    hide F.OnTracks, PositionsOf, Index;
    k := Index(p[0] / 5, p[1] / 5, p[2] / 5, i3);
    IndexBack(p[0] / 5, p[1] / 5, p[2] / 5, i3);
  }

  lemma OnTracksAt(p: Positions, i3: nat)
    requires F.OnTracks(p) && i3 == 2 * (p[3] / 5) + (if p[3] % 5 == 4 then 1 else 0)
    ensures p[0] / 5 < 8 && p[1] / 5 < 8 && p[2] / 5 < 8 && i3 < 16
    ensures At(p[0] / 5, p[1] / 5, p[2] / 5, i3) == p
  {
    assert Track3(i3) == p[3];
  }

  // Correlation and energy of a set of positions, as the loops accumulate them.
  function PrefixC(s: Surface, p: Positions): int
    requires Shaped(s)
  {
    (s.dAbs[p[0]] as int) + s.dAbs[p[1]] + s.dAbs[p[2]]
  }

  function CorrelationOf(s: Surface, p: Positions): int
    requires Shaped(s)
  {
    PrefixC(s, p) + s.dAbs[p[3]]
  }

  function EnergyOf(s: Surface, p: Positions): int
    requires Shaped(s)
  {
    (s.phi[p[0]][p[0]] as int)
    + s.phi[p[1]][p[1]] + s.phi[p[0]][p[1]]
    + s.phi[p[2]][p[2]] + s.phi[p[0]][p[2]] + s.phi[p[1]][p[2]]
    + s.phi[p[3]][p[3]] + s.phi[p[0]][p[3]] + s.phi[p[1]][p[3]] + s.phi[p[2]][p[3]]
  }

  function C(s: Surface, k: nat): int
    requires Shaped(s) && k < 8192
  {
    CorrelationOf(s, PositionsOf(k))
  }

  function E(s: Surface, k: nat): int
    requires Shaped(s) && k < 8192
  {
    EnergyOf(s, PositionsOf(k))
  }

  lemma InSearchDomain(s: Surface, k: nat)
    requires Shaped(s) && k < 8192
    ensures E(s, k) > 0 ==> InDomain(C(s, k), E(s, k))
  {
    hide PositionsOf;
  }

  // Candidate i ranks strictly above candidate j.
  predicate Above(s: Surface, i: nat, j: nat)
    requires Shaped(s) && i < 8192 && j < 8192
  {
    Beats(C(s, i), E(s, i), C(s, j), E(s, j))
  }

  // ---------- which candidates a search looks at ----------

  // Correlation sum of the first three pulses of prefix q, and the threshold over all 512.
  function Prefix(s: Surface, q: nat): int
    requires Shaped(s) && q < 512
  {
    PrefixC(s, PositionsOf(16 * q))
  }

  function PrefixSum(s: Surface, n: nat): int
    requires Shaped(s) && n <= 512
  {
    if n == 0 then 0 else PrefixSum(s, n - 1) + Prefix(s, n - 1)
  }

  function PrefixMax(s: Surface, n: nat): int
    requires Shaped(s) && n <= 512
  {
    if n == 0 then 0
    else
      var m := PrefixMax(s, n - 1);
      if Prefix(s, n - 1) > m then Prefix(s, n - 1) else m
  }

  function Threshold(s: Surface): int
    requires Shaped(s)
  {
    var avg := Quotient(PrefixSum(s, 512), 512);
    avg + Quotient(4 * (PrefixMax(s, 512) - avg), 10)
  }

  predicate Qualifies(s: Surface, q: nat)
    requires Shaped(s) && q < 512
  {
    Prefix(s, q) > Threshold(s)
  }

  // How many of the first q prefixes qualify.
  function Rank(s: Surface, q: nat): (r: nat)
    requires Shaped(s) && q <= 512
    ensures r <= q
  {
    if q == 0 then 0 else Rank(s, q - 1) + (if Qualifies(s, q - 1) then 1 else 0)
  }

  // With a positive limit only the first `limit` qualifying prefixes are entered.
  predicate Entered(s: Surface, limit: int, q: nat)
    requires Shaped(s) && q < 512
  {
    limit <= 0 || (Qualifies(s, q) && Rank(s, q) < limit)
  }

  // Candidate k is looked at and has positive energy.
  predicate Eligible(s: Surface, limit: int, k: nat)
    requires Shaped(s) && k < 8192
  {
    Entered(s, limit, k / 16) && E(s, k) > 0
  }

  // k is the first maximiser among the eligible candidates below n.
  predicate FirstBest(s: Surface, limit: int, n: nat, k: nat)
    requires Shaped(s) && n <= 8192
  {
    && k < n && Eligible(s, limit, k)
    && forall j | 0 <= j < n && Eligible(s, limit, j) :: !Above(s, j, k) && (j < k ==> Above(s, k, j))
  }

  predicate NoneEligible(s: Surface, limit: int, n: nat)
    requires Shaped(s) && n <= 8192
  {
    forall j | 0 <= j < n :: !Eligible(s, limit, j)
  }

  lemma AboveTransitive(s: Surface, i: nat, j: nat, k: nat)
    requires Shaped(s) && i < 8192 && j < 8192 && k < 8192
    requires E(s, i) > 0 && E(s, j) > 0 && E(s, k) > 0
    ensures Above(s, i, k) && !Above(s, j, k) ==> Above(s, i, j)
    ensures !Above(s, i, j) && !Above(s, j, k) ==> !Above(s, i, k)
    ensures Above(s, i, j) && Above(s, j, k) ==> Above(s, i, k)
    ensures Above(s, i, j) ==> !Above(s, j, i)
  {
    hide C, E, Beats;
    Preorder(C(s, i), E(s, i), C(s, j), E(s, j), C(s, k), E(s, k));
  }

  lemma Preorder(c1: int, e1: int, c2: int, e2: int, c3: int, e3: int)
    requires e1 > 0 && e2 > 0 && e3 > 0
    ensures Beats(c1, e1, c3, e3) && !Beats(c2, e2, c3, e3) ==> Beats(c1, e1, c2, e2)
    ensures !Beats(c1, e1, c2, e2) && !Beats(c2, e2, c3, e3) ==> !Beats(c1, e1, c3, e3)
    ensures Beats(c1, e1, c2, e2) && Beats(c2, e2, c3, e3) ==> Beats(c1, e1, c3, e3)
    ensures Beats(c1, e1, c2, e2) ==> !Beats(c2, e2, c1, e1)
  {
    hide Square;
    if !Beats(c1, e1, c2, e2) && !Beats(c2, e2, c3, e3) {
      BeatsTransitive(c1, e1, c2, e2, c3, e3);
    }
    if Beats(c1, e1, c2, e2) && Beats(c2, e2, c3, e3) {
      BeatsTransitive(c3, e3, c2, e2, c1, e1);
    }
  }

  // One more candidate: it takes over exactly when it ranks above the best so far.
  lemma FirstBestStep(s: Surface, limit: int, n: nat, k: nat)
    requires Shaped(s) && n < 8192 && FirstBest(s, limit, n, k)
    ensures !Eligible(s, limit, n) || !Above(s, n, k) ==> FirstBest(s, limit, n + 1, k)
    ensures Eligible(s, limit, n) && Above(s, n, k) ==> FirstBest(s, limit, n + 1, n)
  {
    hide C, E, Beats, Entered;
    if Eligible(s, limit, n) && Above(s, n, k) {
      forall j | 0 <= j < n + 1 && Eligible(s, limit, j)
        ensures !Above(s, j, n) && (j < n ==> Above(s, n, j))
      {
        AboveTransitive(s, n, k, j);
        AboveTransitive(s, n, j, k);
        AboveTransitive(s, j, n, n);
      }
    }
  }
}
