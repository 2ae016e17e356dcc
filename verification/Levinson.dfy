/** The Levinson recursion of section 3.2.2 of ITU-T G.729 with its Q24 predictor and Q15 reflection
    coefficients (internal/lpc/levinson.go). */
module Levinson {
  import opened Fixed

  const ONE_Q24: int := 0x100_0000
  const ONE_Q30: int := 0x4000_0000

  type Row = a: seq<int> | |a| == 11 witness [0, 0, 0, 0, 0, 0, 0, 0, 0, 0, 0]
  type Autocorrelations = r: seq<Word32> | |r| == 11 witness [0, 0, 0, 0, 0, 0, 0, 0, 0, 0, 0]

  // Half away from zero.
  function Q24ToQ12Round(v: int): int {
    if v >= 0 then (v + 2048) / 4096 else -((-v + 2048) / 4096)
  }

  // ---------- one stage ----------

  // Sum over j < n of a(j) r(i - j), the predictor rounded to Q12.
  function SumTo(a: Row, r: Autocorrelations, i: nat, n: nat): int
    requires n <= i <= 10
  {
    if n == 0 then 0 else SumTo(a, r, i, n - 1) + Q24ToQ12Round(a[n - 1]) * r[i - (n - 1)]
  }

  // Reflection coefficient in Q15; no stage runs on a non-positive error.
  function Reflection(sum: int, e: int): (k: Word16) {
    if e > 0 then Sat16(Quotient(-(sum * 8), e)) else 0
  }

  function StepCoefficient(a: Row, k: Word16, i: nat, j: nat): int
    requires 1 <= i <= 10 && j <= 10
  {
    if j == i then (k as int) * 512
    else if 1 <= j < i then a[j] + (k * a[i - j]) / 0x8000
    else a[j]
  }

  function StepUp(a: Row, k: Word16, i: nat): Row
    requires 1 <= i <= 10
  {
    seq(11, j requires 0 <= j < 11 => StepCoefficient(a, k, i, j))
  }

  function NextError(e: int, k: Word16): int {
    var kSq := (k as int) * k;
    (e * (ONE_Q30 - (if kSq > ONE_Q30 then ONE_Q30 else kSq))) / ONE_Q30
  }

  datatype Stage = Stage(a: Row, e: int)

  function Start(r: Autocorrelations): Stage {
    Stage([ONE_Q24, 0, 0, 0, 0, 0, 0, 0, 0, 0, 0], r[0])
  }

  function Next(s: Stage, r: Autocorrelations, i: nat): Stage
    requires 1 <= i <= 10
  {
    var k := Reflection(SumTo(s.a, r, i, i), s.e);
    Stage(StepUp(s.a, k, i), NextError(s.e, k))
  }

  // After n stages.
  function After(r: Autocorrelations, n: nat): Stage
    requires n <= 10
  {
    if n == 0 then Start(r) else Next(After(r, n - 1), r, n)
  }

  function Predictor(r: Autocorrelations): (a: seq<Word16>)
    ensures |a| == 11
  {
    seq(11, j requires 0 <= j < 11 => if j == 0 then 4096 else Sat16(Q24ToQ12Round(After(r, 10).a[j])))
  }

  // ---------- the loops ----------

  method LevinsonDurbin(r: Autocorrelations, a: array<Word16>)
    requires a.Length == 11
    modifies a
    ensures a[..] == Predictor(r)
  {
    hide Reflection, NextError, StepUp, SumTo, Q24ToQ12Round;
    var aWork := new int[11](_ => 0);
    aWork[0] := ONE_Q24;
    var e: int := r[0];
    assert aWork[..] == Start(r).a;
    for i := 1 to 11
      invariant aWork[..] == After(r, i - 1).a && e == After(r, i - 1).e
    {
      var sum := Numerator(aWork, r, i);
      var k := Reflection(sum, e);
      StepUpInPlace(aWork, k, i);
      e := NextError(e, k);
    }
    a[0] := 4096;
    for j := 1 to 11
      invariant aWork[..] == After(r, 10).a && a[0] == 4096
      invariant forall m | 1 <= m < j :: a[m] == Sat16(Q24ToQ12Round(aWork[m]))
    {
      a[j] := Sat16(Q24ToQ12Round(aWork[j]));
    }
  }

  method Numerator(aWork: array<int>, r: Autocorrelations, i: nat) returns (sum: int)
    requires aWork.Length == 11 && 1 <= i <= 10
    ensures sum == SumTo(aWork[..], r, i, i)
  {
    hide Q24ToQ12Round;
    sum := Q24ToQ12Round(aWork[0]) * r[i];
    assert SumTo(aWork[..], r, i, 0) == 0;
    for j := 1 to i
      invariant sum == SumTo(aWork[..], r, i, j)
    {
      sum := sum + Q24ToQ12Round(aWork[j]) * r[i - j];
    }
  }

  method StepUpInPlace(aWork: array<int>, k: Word16, i: nat)
    requires aWork.Length == 11 && 1 <= i <= 10
    modifies aWork
    ensures aWork[..] == StepUp(old(aWork[..]), k, i)
  {
    ghost var was: Row := aWork[..];
    var aPrev := aWork[..];
    for j := 1 to i
      invariant forall m | 0 <= m < j :: aWork[m] == StepCoefficient(was, k, i, m)
      invariant forall m | j <= m < 11 :: aWork[m] == was[m]
    {
      aWork[j] := aPrev[j] + (k * aPrev[i - j]) / 0x8000;
    }
    aWork[i] := (k as int) * 512;
  }

  // ---------- bounds ----------

  // Magnitude of the Q24 predictor after n stages: it at most doubles per stage.
  function Limit(n: nat): nat {
    ONE_Q24 * Pow2(n)
  }

  predicate Within(a: Row, m: nat) {
    forall j | 0 <= j < 11 :: Abs(a[j]) <= m
  }

  lemma ScaledDown(k: Word16, x: int, m: nat)
    requires Abs(x) <= m
    ensures Abs((k * x) / 0x8000) <= m && Abs(k * x) <= 0x8000 * m
  {
    MulAbsLe(k, x, 0x8000, m);
    var p := k * x;
    assert -0x8000 * m <= p <= 0x8000 * m;
  }

  lemma StepWithin(a: Row, k: Word16, i: nat, m: nat)
    requires 1 <= i <= 10 && Within(a, m) && m >= ONE_Q24
    ensures Within(StepUp(a, k, i), 2 * m)
  {
    forall j | 0 <= j < 11
      ensures Abs(StepUp(a, k, i)[j]) <= 2 * m
    {
      if 1 <= j < i {
        ScaledDown(k, a[i - j], m);
      }
    }
  }

  lemma {:induction false} AfterWithin(r: Autocorrelations, n: nat)
    requires n <= 10
    ensures Within(After(r, n).a, Limit(n)) && Limit(n) >= ONE_Q24
  {
    hide Reflection, NextError, StepUp, SumTo;
    if n == 0 {
      assert Pow2(0) == 1;
    } else {
      AfterWithin(r, n - 1);
      var s := After(r, n - 1);
      StepWithin(s.a, Reflection(SumTo(s.a, r, n, n), s.e), n, Limit(n - 1));
    }
  }

  lemma RoundedBound(v: int, m: nat)
    requires Abs(v) <= m
    ensures Abs(Q24ToQ12Round(v)) <= m / 4096 + 1
  {
  }

  lemma {:induction false} SumBound(a: Row, r: Autocorrelations, i: nat, n: nat, m: nat, t: nat)
    requires n <= i <= 10 && Within(a, m) && t == (m / 4096 + 1) * 0x8000_0000
    ensures Abs(SumTo(a, r, i, n)) <= n * t
  {
    hide Q24ToQ12Round;
    if n > 0 {
      SumBound(a, r, i, n - 1, m, t);
      TermBound(a[n - 1], r[i - (n - 1)], m, t);
      assert n * t == (n - 1) * t + t;
    }
  }

  lemma TermBound(v: int, x: Word32, m: nat, t: nat)
    requires Abs(v) <= m && t == (m / 4096 + 1) * 0x8000_0000
    ensures Abs(Q24ToQ12Round(v) * x) <= t
  {
    hide Q24ToQ12Round;
    RoundedBound(v, m);
    MulAbsLe(Q24ToQ12Round(v), x, m / 4096 + 1, 0x8000_0000);
  }

  // Predictor limit through the last stage, 2^34.
  lemma LimitAtTen(n: nat)
    requires n <= 10
    ensures Limit(n) <= 0x4_0000_0000
  {
    Pow2Values();
    Pow2Mono(n, 10);
  }

  lemma SquareLimit(k: Word16)
    ensures 0 <= (k as int) * k <= ONE_Q30
  {
    MulAbsLe(k, k, 0x8000, 0x8000);
    if k < 0 {
      MulMono(k, 0, -(k as int));
    } else {
      MulMono(0, k, k);
    }
  }

  lemma ErrorFalls(e: int, k: Word16)
    ensures e >= 0 ==> 0 <= NextError(e, k) <= e
    ensures k == 0 ==> NextError(e, k) == e
    ensures NextError(e, k) == (e * (ONE_Q30 - (k as int) * k)) / ONE_Q30
    ensures e >= 0 ==> 0 <= e * (ONE_Q30 - (k as int) * k) <= e * ONE_Q30
  {
    SquareLimit(k);
    var f := ONE_Q30 - (k as int) * k;
    if e >= 0 {
      MulMono(0, f, e);
      MulMono(f, ONE_Q30, e);
    }
  }

  lemma {:induction false} ErrorRange(r: Autocorrelations, n: nat)
    requires n <= 10 && r[0] >= 0
    ensures 0 <= After(r, n).e <= r[0]
    ensures n > 0 ==> After(r, n).e <= After(r, n - 1).e
  {
    hide Reflection, NextError, StepUp, SumTo;
    if n > 0 {
      ErrorRange(r, n - 1);
      var s := After(r, n - 1);
      ErrorFalls(s.e, Reflection(SumTo(s.a, r, n, n), s.e));
    }
  }

  // Stage i of the recursion on any autocorrelations with r(0) >= 0: every partial sum of the numerator,
  // every product of the update and the error product stay inside 64 bits, the reflection coefficient
  // inside Q15, and the prediction error is non-negative and never grows.
  lemma StageFits(r: Autocorrelations, i: nat)
    requires 1 <= i <= 10 && r[0] >= 0
    ensures var s := After(r, i - 1);
            var k := Reflection(SumTo(s.a, r, i, i), s.e);
            && (forall n | 0 <= n <= i :: Abs(SumTo(s.a, r, i, n) * 8) < 0x4000_0000_0000_0000)
            && (forall j | 0 <= j < 11 :: Abs(s.a[j]) <= 0x4_0000_0000 && Abs(k * s.a[j]) <= 0x2_0000_0000_0000)
            && Abs(k) <= 0x8000
            && 0 <= s.e * ONE_Q30 < 0x4000_0000_0000_0000
            && 0 <= NextError(s.e, k) <= s.e <= r[0]
  {
    hide Reflection, NextError, StepUp, SumTo, After;
    var s := After(r, i - 1);
    AfterWithin(r, i - 1);
    LimitAtTen(i - 1);
    var m := Limit(i - 1);
    forall n | 0 <= n <= i
      ensures Abs(SumTo(s.a, r, i, n) * 8) < 0x4000_0000_0000_0000
    {
      SumBound(s.a, r, i, n, m, (m / 4096 + 1) * 0x8000_0000);
      SumSmall(n, m);
    }
    var k := Reflection(SumTo(s.a, r, i, i), s.e);
    forall j | 0 <= j < 11
      ensures Abs(s.a[j]) <= 0x4_0000_0000 && Abs(k * s.a[j]) <= 0x2_0000_0000_0000
    {
      MulAbsLe(k, s.a[j], 0x8000, 0x4_0000_0000);
    }
    ErrorRange(r, i - 1);
    ErrorFalls(s.e, k);
  }

  lemma SumSmall(n: nat, m: nat)
    requires n <= 10 && m <= 0x4_0000_0000
    ensures n * ((m / 4096 + 1) * 0x8000_0000) < 0x800_0000_0000_0000
  {
    var t := (m / 4096 + 1) * 0x8000_0000;
    assert t <= 0x40_0001 * 0x8000_0000;
    MulMono(n, 10, t);
  }

  // A stage with no error left changes nothing.
  lemma IdleStage(s: Stage, r: Autocorrelations, i: nat)
    requires 1 <= i <= 10 && s.e <= 0 && s.a[i] == 0
    ensures Next(s, r, i) == s
  {
    hide SumTo;
    ErrorFalls(s.e, 0);
    assert StepUp(s.a, 0, i) == s.a;
  }

  // ---------- the normal equations ----------

  // The division is neither skipped nor clipped.
  predicate Unforced(sum: int, e: int) {
    e > 0 && MIN16 <= Quotient(-(sum * 8), e) <= MAX16
  }

  predicate Regular(s: Stage, r: Autocorrelations, i: nat)
    requires 1 <= i <= 10
  {
    Unforced(SumTo(s.a, r, i, i), s.e)
  }

  predicate RegularTo(r: Autocorrelations, n: nat)
    requires n <= 10
  {
    forall i | 1 <= i <= n :: RegularAt(r, i)
  }

  predicate RegularAt(r: Autocorrelations, i: nat)
    requires 1 <= i <= 10
  {
    Regular(After(r, i - 1), r, i)
  }

  lemma QuotientNear(x: int, e: nat)
    requires e > 0
    ensures Abs(x - Quotient(x, e) * e) < e && Abs(Quotient(x, e)) * e <= Abs(x)
  {
    var q := Abs(x) / e;
    assert Abs(x) == q * e + Abs(x) % e;
    assert -q * e == -(q * e);
    DivBound(Abs(x), e);
  }

  // A numerator below the error is enough.
  lemma UnforcedBelow(sum: int, e: nat)
    requires e > 0 && 8 * Abs(sum) <= 0x7FFF * e
    ensures Unforced(sum, e)
  {
    var q := Quotient(-(sum * 8), e);
    QuotientNear(-(sum * 8), e);
    hide Quotient;
    if Abs(q) > 0x7FFF {
      MulMono(0x8000, Abs(q), e);
    }
  }

  // The reflection coefficient then cancels the numerator to less than one unit of the error.
  lemma ReflectionCancels(sum: int, e: nat)
    requires Unforced(sum, e)
    ensures Abs(8 * sum + Reflection(sum, e) * e) < e
  {
    QuotientNear(-(sum * 8), e);
    hide Quotient;
  }

  // So does the new coefficient, in Q24.
  lemma CoefficientCancels(r: Autocorrelations, i: nat)
    requires 1 <= i <= 10 && Regular(After(r, i - 1), r, i)
    ensures var s := After(r, i - 1);
            Abs(512 * (8 * SumTo(s.a, r, i, i)) + After(r, i).a[i] * s.e) < 512 * s.e
  {
    hide SumTo, Reflection, NextError;
    var s := After(r, i - 1);
    var sum := SumTo(s.a, r, i, i);
    ReflectionCancels(sum, s.e);
    var k := Reflection(sum, s.e);
    assert After(r, i).a[i] == (k as int) * 512;
    Scale512(k, s.e, sum);
  }

  lemma Scale512(k: int, e: int, sum: int)
    ensures 512 * (8 * sum) + (k * 512) * e == 512 * (8 * sum + k * e)
  {
    assert (k * 512) * e == 512 * (k * e);
  }

  // Sum over lo <= j < hi of a(j) r(|m - j|): the left side of equation m.
  function Side(a: Row, r: Autocorrelations, m: nat, lo: nat, hi: nat): int
    requires m <= 10 && hi <= 11
    decreases hi - lo
  {
    if hi <= lo then 0 else Side(a, r, m, lo, hi - 1) + a[hi - 1] * r[Abs(m - (hi - 1))]
  }

  lemma {:induction false} SideFromBelow(a: Row, r: Autocorrelations, m: nat, lo: nat, hi: nat)
    requires m <= 10 && lo < hi <= 11
    ensures Side(a, r, m, lo, hi) == a[lo] * r[Abs(m - lo)] + Side(a, r, m, lo + 1, hi)
    decreases hi - lo
  {
    if lo + 1 < hi {
      SideFromBelow(a, r, m, lo, hi - 1);
    } else {
      assert Side(a, r, m, lo, lo) == 0 && Side(a, r, m, lo + 1, hi) == 0;
    }
  }

  // The same with the row reversed over 0..i.
  function Mirrored(a: Row, r: Autocorrelations, i: nat, m: nat, n: nat): int
    requires m <= i <= 10 && n <= i + 1
  {
    if n == 0 then 0 else Mirrored(a, r, i, m, n - 1) + a[i - (n - 1)] * r[Abs(m - (n - 1))]
  }

  // The autocorrelations are symmetric: reversing the row turns equation m into equation i - m.
  lemma {:induction false} MirroredIsSide(a: Row, r: Autocorrelations, i: nat, m: nat, n: nat)
    requires m <= i <= 10 && n <= i + 1
    ensures Mirrored(a, r, i, m, n) == Side(a, r, i - m, i + 1 - n, i + 1)
  {
    if n > 0 {
      MirroredIsSide(a, r, i, m, n - 1);
      SideFromBelow(a, r, i - m, i + 1 - n, i + 1);
      assert Abs(i - m - (i + 1 - n)) == Abs(m - (n - 1));
    } else {
      assert Side(a, r, i - m, i + 1, i + 1) == 0;
    }
  }

  // Row of stage i: monic, nothing beyond i.
  predicate Monic(a: Row, i: nat) {
    a[0] == ONE_Q24 && forall j | i < j < 11 :: a[j] == 0
  }

  predicate Bounded(r: Autocorrelations, m: nat) {
    forall j | 0 <= j < 11 :: Abs(r[j]) <= m
  }

  // Coefficients below n that the step rounds.
  function Rounded(i: nat, n: nat): nat
    requires i >= 1
  {
    if n == 0 then 0 else if n <= i then n - 1 else i - 1
  }

  lemma StepRounds(a: Row, k: Word16, i: nat, j: nat)
    requires 1 <= i <= 10 && j <= i && Monic(a, i - 1)
    ensures var d := 0x8000 * StepCoefficient(a, k, i, j) - 0x8000 * a[j] - k * a[i - j];
            -0x8000 < d <= 0 && (j == 0 || j == i ==> d == 0)
  {
    if 1 <= j < i {
      var x := k * a[i - j];
      assert x == (x / 0x8000) * 0x8000 + x % 0x8000;
    } else if j == i {
      assert a[j] == 0 && k * a[0] == (k as int) * 0x100_0000;
    } else {
      assert k * a[i] == 0;
    }
  }

  // One step of the row is one step of every equation, up to the roundings.
  lemma {:induction false} StepEquation(a: Row, r: Autocorrelations, k: Word16, i: nat, m: nat, n: nat, max: nat)
    requires m <= i && 1 <= i <= 10 && n <= i + 1 && Monic(a, i - 1) && Bounded(r, max)
    ensures Abs(0x8000 * Side(StepUp(a, k, i), r, m, 0, n) - 0x8000 * Side(a, r, m, 0, n) - k * Mirrored(a, r, i, m, n))
            <= Rounded(i, n) * (0x8000 * max)
  {
    if n > 0 {
      StepEquation(a, r, k, i, m, n - 1, max);
      var j, c := n - 1, r[Abs(m - (n - 1))];
      StepTerm(a, k, i, j, c, max);
      hide StepUp, Monic, Bounded, Rounded;
      RoundedStep(i, j, max);
      Adds(k, Mirrored(a, r, i, m, j), a[i - j] * c);
    }
  }

  lemma Adds(k: int, x: int, y: int)
    ensures k * (x + y) == k * x + k * y
  {
  }

  lemma StepTerm(a: Row, k: Word16, i: nat, j: nat, c: Word32, max: nat)
    requires 1 <= i <= 10 && j <= i && Monic(a, i - 1) && Abs(c) <= max
    ensures Abs(0x8000 * (StepUp(a, k, i)[j] * c) - 0x8000 * (a[j] * c) - k * (a[i - j] * c))
            <= (if j == 0 || j == i then 0 else 0x8000) * max
  {
    var b := StepUp(a, k, i)[j];
    StepRounds(a, k, i, j);
    hide StepUp, StepCoefficient, Monic;
    MulAbsLe(0x8000 * b - 0x8000 * a[j] - k * a[i - j], c, if j == 0 || j == i then 0 else 0x8000, max);
    OneTerm(b, a[j], k, a[i - j], c);
  }

  lemma RoundedStep(i: nat, j: nat, max: nat)
    requires 1 <= i && j <= i
    ensures Rounded(i, j + 1) * (0x8000 * max)
            == Rounded(i, j) * (0x8000 * max) + (if j == 0 || j == i then 0 else 0x8000) * max
  {
    if 0 < j < i {
      assert j * (0x8000 * max) == (j - 1) * (0x8000 * max) + 0x8000 * max;
    }
  }

  lemma OneTerm(b: int, a: int, k: int, a': int, c: int)
    ensures (0x8000 * b - 0x8000 * a - k * a') * c == 0x8000 * (b * c) - 0x8000 * (a * c) - k * (a' * c)
  {
    assert (k * a') * c == k * (a' * c);
  }

  // The numerator as the recursion computes it, against the exact one.
  lemma {:induction false} NumeratorNear(a: Row, r: Autocorrelations, i: nat, n: nat, max: nat)
    requires n <= i && 1 <= i <= 10 && a[0] == ONE_Q24 && Bounded(r, max)
    ensures Abs(Side(a, r, i, 0, n) - 4096 * SumTo(a, r, i, n)) <= (if n == 0 then 0 else n - 1) * (2048 * max)
  {
    hide Q24ToQ12Round;
    if n > 0 {
      var j := n - 1;
      NumeratorNear(a, r, i, j, max);
      assert Abs(i - j) == i - j;
      RoundingLoss(a[j], r[i - j], max);
      hide Bounded, Side, SumTo;
      if j > 0 {
        SharesAdd(j, 2048 * max);
      } else {
        ExactOne(r[i]);
      }
    }
  }

  lemma ExactOne(c: int)
    ensures ONE_Q24 * c == 4096 * (Q24ToQ12Round(ONE_Q24) * c)
  {
  }

  lemma SharesAdd(j: nat, x: int)
    requires j >= 1
    ensures j * x == (j - 1) * x + x
  {
  }

  lemma RoundingLoss(v: int, c: Word32, max: nat)
    requires Abs(c) <= max
    ensures Abs(v * c - 4096 * (Q24ToQ12Round(v) * c)) <= 2048 * max
  {
    var d := v - 4096 * Q24ToQ12Round(v);
    assert Abs(d) <= 2048;
    hide Q24ToQ12Round;
    MulAbsLe(d, c, 2048, max);
    Distribute(v, Q24ToQ12Round(v), c);
  }

  lemma Distribute(v: int, q: int, c: int)
    ensures (v - 4096 * q) * c == v * c - 4096 * (q * c)
  {
    assert (4096 * q) * c == 4096 * (q * c);
  }

  // How far the stored error can be from the exact one, and equation m from zero, after n regular stages.
  function Drift(n: nat, max: nat): nat {
    if n == 0 then 0 else Drift(n - 1, max) + 512 * max + (n - 1) * (2049 * max) + ONE_Q24
  }

  function Residue(n: nat, max: nat): nat {
    if n == 0 then 0
    else
      MulMono(0, max, n - 1);
      Max(2 * Residue(n - 1, max) + (n - 1) * max, Drift(n - 1, max) + 512 * max + (n - 1) * (2049 * max))
  }

  // Equation m over the row of stage n, up to a bound.
  predicate Holds(a: Row, r: Autocorrelations, m: nat, n: nat, bound: nat)
    requires m <= n <= 10
  {
    Abs(Side(a, r, m, 0, n + 1)) <= bound
  }

  predicate Solved(a: Row, e: int, r: Autocorrelations, n: nat, max: nat)
    requires n <= 10
  {
    && Monic(a, n)
    && (forall m | 1 <= m <= n :: Holds(a, r, m, n, Residue(n, max)))
    && Abs(Side(a, r, 0, 0, n + 1) - ONE_Q24 * e) <= Drift(n, max)
  }

  // The last equation of a stage: x the exact numerator, x0 the exact error.
  lemma LastEquation(x: int, x0: int, y: int, sum: int, e: nat, k: Word16, h: nat, d: nat, g: nat)
    requires Abs(8 * sum + k * e) < e && Abs(x - 4096 * sum) <= h && Abs(x0 - ONE_Q24 * e) <= d
    requires Abs(0x8000 * y - 0x8000 * x - k * x0) <= 0x8000 * g
    ensures Abs(y) <= h + d + 512 * e + g
  {
    MulAbsLe(k, x0 - ONE_Q24 * e, 0x8000, d);
    ScaledOff(k, x0, ONE_Q24, e);
    LastLinear(x, y, sum, e, k * e, k * x0, h, d, g);
  }

  lemma ScaledOff(k: int, x: int, c: int, y: int)
    ensures k * (x - c * y) == k * x - c * (k * y)
  {
    assert k * (c * y) == c * (k * y);
  }

  lemma LastLinear(x: int, y: int, sum: int, e: nat, ke: int, kx0: int, h: nat, d: nat, g: nat)
    requires Abs(8 * sum + ke) < e && Abs(x - 4096 * sum) <= h && Abs(kx0 - ONE_Q24 * ke) <= 0x8000 * d
    requires Abs(0x8000 * y - 0x8000 * x - kx0) <= 0x8000 * g
    ensures Abs(y) <= h + d + 512 * e + g
  {
  }

  // The error of a stage, exact and stored.
  lemma ErrorEquation(x: int, x0: int, y0: int, sum: int, e: nat, k: Word16, h: nat, d: nat, g: nat)
    requires Abs(8 * sum + k * e) < e && Abs(x - 4096 * sum) <= h && Abs(x0 - ONE_Q24 * e) <= d
    requires Abs(0x8000 * y0 - 0x8000 * x0 - k * x) <= 0x8000 * g
    ensures Abs(y0 - ONE_Q24 * NextError(e, k)) <= d + h + 512 * e + g + ONE_Q24
  {
    hide NextError;
    ErrorNear(e, k);
    MulAbsLe(k, x - 4096 * sum, 0x8000, h);
    MulAbsLe(k, 8 * sum + k * e, 0x8000, e);
    ErrorTerms(x, sum, e, k);
    ErrorLinear(x0, y0, NextError(e, k), e, k * x, k * sum, e * ((k as int) * k), h, d, g);
  }

  lemma ErrorLinear(x0: int, y0: int, e': int, e: nat, kx: int, ksum: int, ek2: int, h: nat, d: nat, g: nat)
    requires Abs(kx - 4096 * ksum) <= 0x8000 * h && Abs(8 * ksum + ek2) <= 0x8000 * e
    requires Abs(x0 - ONE_Q24 * e) <= d && 0 <= ONE_Q30 * e - ek2 - ONE_Q30 * e' < ONE_Q30
    requires Abs(0x8000 * y0 - 0x8000 * x0 - kx) <= 0x8000 * g
    ensures Abs(y0 - ONE_Q24 * e') <= d + h + 512 * e + g + ONE_Q24
  {
  }

  // The stored error falls by its share k^2, rounded down.
  lemma ErrorNear(e: nat, k: Word16)
    ensures 0 <= ONE_Q30 * e - e * ((k as int) * k) - ONE_Q30 * NextError(e, k) < ONE_Q30
  {
    ErrorFalls(e, k);
    hide NextError;
    var k2 := (k as int) * k;
    Complement(e, k2);
    var p := e * (ONE_Q30 - k2);
    assert p == (p / ONE_Q30) * ONE_Q30 + p % ONE_Q30;
  }

  lemma Complement(e: int, k2: int)
    ensures e * (ONE_Q30 - k2) == ONE_Q30 * e - e * k2
  {
  }

  lemma ErrorTerms(x: int, sum: int, e: int, k: int)
    ensures k * (8 * sum + k * e) == 8 * (k * sum) + e * (k * k)
    ensures k * (x - 4096 * sum) == k * x - 4096 * (k * sum)
  {
    assert k * (k * e) == e * (k * k);
  }

  lemma InnerEquation(x: int, x': int, y: int, k: Word16, b: nat, g: nat)
    requires Abs(x) <= b && Abs(x') <= b && Abs(0x8000 * y - 0x8000 * x - k * x') <= 0x8000 * g
    ensures Abs(y) <= 2 * b + g
  {
    MulAbsLe(k, x', 0x8000, b);
  }

  lemma SolvedStart(r: Autocorrelations, max: nat)
    ensures Solved(Start(r).a, r[0], r, 0, max)
  {
    assert Side(Start(r).a, r, 0, 0, 0) == 0;
  }

  // Equation m of stage i in terms of equations m and i - m of the stage before.
  lemma EquationStep(a: Row, r: Autocorrelations, k: Word16, i: nat, m: nat, max: nat)
    requires m <= i && 1 <= i <= 10 && Monic(a, i - 1) && Bounded(r, max)
    ensures var y := Side(StepUp(a, k, i), r, m, 0, i + 1);
            Abs(0x8000 * y - 0x8000 * Side(a, r, m, 0, i) - k * Side(a, r, i - m, 0, i)) <= 0x8000 * ((i - 1) * max)
  {
    hide StepUp, Bounded, Side, Mirrored, Monic;
    StepEquation(a, r, k, i, m, i + 1, max);
    MirroredIsSide(a, r, i, m, i + 1);
    LastIsZero(a, r, i, m);
    LastIsZero(a, r, i, i - m);
    SharesOut(i - 1, max);
  }

  lemma SharesOut(n: nat, max: nat)
    ensures n * (0x8000 * max) == 0x8000 * (n * max)
  {
  }

  lemma LastIsZero(a: Row, r: Autocorrelations, i: nat, m: nat)
    requires m <= i && 1 <= i <= 10 && Monic(a, i - 1)
    ensures Side(a, r, m, 0, i + 1) == Side(a, r, m, 0, i)
  {
  }

  lemma SolvedStep(s: Stage, r: Autocorrelations, i: nat, max: nat)
    requires 1 <= i <= 10 && Regular(s, r, i) && Bounded(r, max) && s.e <= max && Solved(s.a, s.e, r, i - 1, max)
    ensures Solved(Next(s, r, i).a, Next(s, r, i).e, r, i, max)
  {
    hide SumTo, Reflection, NextError, StepUp, Side, Bounded, Residue, Drift;
    var k := Reflection(SumTo(s.a, r, i, i), s.e);
    OuterEquations(s, r, i, max);
    StepMonic(s.a, k, i);
    forall m | 1 <= m <= i
      ensures Holds(StepUp(s.a, k, i), r, m, i, Residue(i, max))
    {
      if m < i {
        assert Holds(s.a, r, m, i - 1, Residue(i - 1, max)) && Holds(s.a, r, i - m, i - 1, Residue(i - 1, max));
        InnerHolds(s.a, r, k, i, m, max);
      }
    }
  }

  lemma InnerHolds(a: Row, r: Autocorrelations, k: Word16, i: nat, m: nat, max: nat)
    requires 1 <= m < i <= 10 && Monic(a, i - 1) && Bounded(r, max)
    requires Holds(a, r, m, i - 1, Residue(i - 1, max)) && Holds(a, r, i - m, i - 1, Residue(i - 1, max))
    ensures Holds(StepUp(a, k, i), r, m, i, Residue(i, max))
  {
    hide StepUp, Side, Bounded, Residue, Monic;
    EquationStep(a, r, k, i, m, max);
    InnerEquation(Side(a, r, m, 0, i), Side(a, r, i - m, 0, i), Side(StepUp(a, k, i), r, m, 0, i + 1), k,
                  Residue(i - 1, max), (i - 1) * max);
    BoundsStep(i, max, 0);
  }

  // Equation i and the prediction error.
  lemma OuterEquations(s: Stage, r: Autocorrelations, i: nat, max: nat)
    requires 1 <= i <= 10 && Regular(s, r, i) && Bounded(r, max) && s.e <= max && Monic(s.a, i - 1)
    requires Abs(Side(s.a, r, 0, 0, i) - ONE_Q24 * s.e) <= Drift(i - 1, max)
    ensures var b := Next(s, r, i);
            && Holds(b.a, r, i, i, Residue(i, max))
            && Abs(Side(b.a, r, 0, 0, i + 1) - ONE_Q24 * b.e) <= Drift(i, max)
  {
    hide SumTo, Reflection, NextError, StepUp, Side, Bounded, Residue, Drift;
    var sum := SumTo(s.a, r, i, i);
    var k := Reflection(sum, s.e);
    ReflectionCancels(sum, s.e);
    NumeratorNear(s.a, r, i, i, max);
    var x, x0 := Side(s.a, r, i, 0, i), Side(s.a, r, 0, 0, i);
    var h, d, g := (i - 1) * (2048 * max), Drift(i - 1, max), (i - 1) * max;
    var b := StepUp(s.a, k, i);
    EquationStep(s.a, r, k, i, i, max);
    EquationStep(s.a, r, k, i, 0, max);
    hide Monic;
    LastEquation(x, x0, Side(b, r, i, 0, i + 1), sum, s.e, k, h, d, g);
    ErrorEquation(x, x0, Side(b, r, 0, 0, i + 1), sum, s.e, k, h, d, g);
    BoundsStep(i, max, s.e);
  }

  lemma StepMonic(a: Row, k: Word16, i: nat)
    requires 1 <= i <= 10 && Monic(a, i - 1)
    ensures Monic(StepUp(a, k, i), i)
  {
  }

  lemma BoundsStep(i: nat, max: nat, e: nat)
    requires i >= 1 && e <= max
    ensures var h, d, g := (i - 1) * (2048 * max), Drift(i - 1, max), (i - 1) * max;
            && h + d + 512 * e + g <= Residue(i, max) && d + h + 512 * e + g + ONE_Q24 <= Drift(i, max)
            && 2 * Residue(i - 1, max) + g <= Residue(i, max)
  {
    hide Residue, Drift;
    Share2049(i - 1, max);
    BoundsAre(i, max);
  }

  lemma Share2049(n: nat, max: nat)
    ensures n * (2049 * max) == n * (2048 * max) + n * max
  {
  }

  // One step of both bounds.
  lemma BoundsAre(i: nat, max: nat)
    requires i >= 1
    ensures Drift(i, max) == Drift(i - 1, max) + 512 * max + (i - 1) * (2049 * max) + ONE_Q24
    ensures Residue(i, max) >= 2 * Residue(i - 1, max) + (i - 1) * max
    ensures Residue(i, max) >= Drift(i - 1, max) + 512 * max + (i - 1) * (2049 * max)
  {
  }

  // As long as no stage is stopped or clipped, every normal equation up to the stage's order holds up to the
  // roundings, and the stored error is the prediction error.
  lemma {:induction false} NormalEquations(r: Autocorrelations, n: nat, max: nat)
    requires n <= 10 && RegularTo(r, n) && Bounded(r, max) && r[0] >= 0
    ensures Solved(After(r, n).a, After(r, n).e, r, n, max)
  {
    hide Regular, Bounded, Solved, StepUp, SumTo, Reflection, NextError, Residue, Drift;
    SolvedStart(r, max);
    if n > 0 {
      NormalEquations(r, n - 1, max);
      ErrorRange(r, n - 1);
      assert RegularAt(r, n);
      assert r[0] <= max by {
        FirstBounded(r, max);
      }
      SolvedStep(After(r, n - 1), r, n, max);
    }
  }

  lemma FirstBounded(r: Autocorrelations, max: nat)
    requires Bounded(r, max)
    ensures r[0] <= max
  {
  }

  // The Q12 predictor written out: no coefficient clipped.
  predicate Unclipped(r: Autocorrelations) {
    forall j | 1 <= j < 11 :: MIN16 <= Q24ToQ12Round(After(r, 10).a[j]) <= MAX16
  }

  function Equation(a: seq<Word16>, r: Autocorrelations, m: nat, n: nat): int
    requires |a| == 11 && m <= 10 && n <= 11
  {
    if n == 0 then 0 else Equation(a, r, m, n - 1) + (a[n - 1] as int) * r[Abs(m - (n - 1))]
  }

  lemma {:induction false} WrittenNear(r: Autocorrelations, m: nat, n: nat, max: nat)
    requires m <= 10 && n <= 11 && Unclipped(r) && Bounded(r, max) && After(r, 10).a[0] == ONE_Q24
    ensures Abs(4096 * Equation(Predictor(r), r, m, n) - Side(After(r, 10).a, r, m, 0, n)) <= n * (2048 * max)
  {
    hide After, Predictor;
    if n > 0 {
      var j := n - 1;
      WrittenNear(r, m, j, max);
      WrittenIs(r, j);
      RoundingLoss(After(r, 10).a[j], r[Abs(m - j)], max);
      hide Unclipped, Bounded, Q24ToQ12Round, Side, Equation;
      SharesAdd(n, 2048 * max);
    }
  }

  lemma WrittenIs(r: Autocorrelations, j: nat)
    requires j <= 10 && Unclipped(r) && After(r, 10).a[0] == ONE_Q24
    ensures Predictor(r)[j] as int == Q24ToQ12Round(After(r, 10).a[j])
  {
    hide After;
  }

  // The ten equations the predictor is for, in Q12: whatever autocorrelations the recursion runs through
  // without being stopped or clipped, each holds to about 6 % of the largest of them.
  lemma PredictorSolves(r: Autocorrelations, m: nat, max: nat)
    requires 1 <= m <= 10 && RegularTo(r, 10) && Unclipped(r) && Bounded(r, max) && r[0] >= 0
    ensures 4096 * Abs(Equation(Predictor(r), r, m, 11)) <= 1006453 * max + 0x1_0000_0000
  {
    hide After, Residue, Predictor, Equation, Side, Solved, RegularTo, Unclipped, Bounded;
    NormalEquations(r, 10, max);
    SolvedAt(After(r, 10).a, After(r, 10).e, r, m, max);
    WrittenNear(r, m, 11, max);
    ResidueAtTen(max);
  }

  lemma SolvedAt(a: Row, e: int, r: Autocorrelations, m: nat, max: nat)
    requires Solved(a, e, r, 10, max) && 1 <= m <= 10
    ensures a[0] == ONE_Q24 && Abs(Side(a, r, m, 0, 11)) <= Residue(10, max)
  {
    hide Side, Residue, Drift;
    assert Holds(a, r, m, 10, Residue(10, max));
  }

  lemma Drifts(max: nat)
    ensures Drift(5, max) <= 23050 * max + 5 * ONE_Q24
    ensures Drift(6, max) <= 33807 * max + 6 * ONE_Q24
    ensures Drift(7, max) <= 46613 * max + 7 * ONE_Q24
    ensures Drift(8, max) <= 61468 * max + 8 * ONE_Q24
    ensures Drift(9, max) <= 78372 * max + 9 * ONE_Q24
  {
    assert Drift(1, max) <= 512 * max + 1 * ONE_Q24;
    assert Drift(2, max) <= 3073 * max + 2 * ONE_Q24;
    assert Drift(3, max) <= 7683 * max + 3 * ONE_Q24;
    assert Drift(4, max) <= 14342 * max + 4 * ONE_Q24;
    assert Drift(5, max) <= 23050 * max + 5 * ONE_Q24;
  }

  lemma ResidueAtTen(max: nat)
    ensures Residue(10, max) <= 983925 * max + 0x1_0000_0000
  {
    ResidueAtFive(max);
    Drifts(max);
    hide Drift;
    assert Residue(6, max) <= 61489 * max + 16 * ONE_Q24;
    assert Residue(7, max) <= 122984 * max + 32 * ONE_Q24;
    assert Residue(8, max) <= 245975 * max + 64 * ONE_Q24;
    assert Residue(9, max) <= 491958 * max + 128 * ONE_Q24;
    assert Residue(10, max) <= 983925 * max + 256 * ONE_Q24;
  }

  lemma ResidueAtFive(max: nat)
    ensures Residue(5, max) <= 30742 * max + 8 * ONE_Q24
  {
    assert Drift(1, max) <= 512 * max + 1 * ONE_Q24;
    assert Drift(2, max) <= 3073 * max + 2 * ONE_Q24;
    assert Drift(3, max) <= 7683 * max + 3 * ONE_Q24;
    assert Drift(4, max) <= 14342 * max + 4 * ONE_Q24;
    assert Residue(1, max) <= 512 * max + 0 * ONE_Q24;
    assert Residue(2, max) <= 3073 * max + 1 * ONE_Q24;
    assert Residue(3, max) <= 7683 * max + 2 * ONE_Q24;
    assert Residue(4, max) <= 15369 * max + 4 * ONE_Q24;
  }
}
