/** LSP to LP conversion of section 3.2.6 of ITU-T G.729 (internal/lsp/lsp_lp.go), against the exact
    polynomial product over the reals. */
module LspToLp {
  import opened Fixed

  type Lsp = l: seq<Word16> | |l| == 10 witness [0, 0, 0, 0, 0, 0, 0, 0, 0, 0]
  type Half = f: seq<int> | |f| == 6 witness [0, 0, 0, 0, 0, 0]

  const ONE_Q24: int := 0x100_0000

  // ---------- the fixed-point recurrence ----------

  // 2 q coeff in Q24, with the floor the source takes before the last two bits.
  function LspPolyProductQ24(q: Word16, coeff: int): int {
    ((q * coeff) / 0x1_0000) * 4
  }

  // Multiplication of the half-stored palindromic polynomial of `step` factors by one more.
  function NextCoefficient(f: Half, q: Word16, step: nat, k: nat): int
    requires 1 <= step <= 4 && k <= 5
  {
    if k == 0 then f[0]
    else if k == 1 then f[1] - LspPolyProductQ24(q, f[0])
    else if k <= step + 1 then
      f[k] - LspPolyProductQ24(q, f[k - 1]) + (if k - 1 == step then 2 * f[k - 2] else f[k - 2])
    else 0
  }

  function Next(f: Half, q: Word16, step: nat): Half
    requires 1 <= step <= 4
  {
    [NextCoefficient(f, q, step, 0), NextCoefficient(f, q, step, 1), NextCoefficient(f, q, step, 2),
     NextCoefficient(f, q, step, 3), NextCoefficient(f, q, step, 4), NextCoefficient(f, q, step, 5)]
  }

  function Poly(qs: seq<Word16>): Half
    requires 1 <= |qs| <= 5
  {
    if |qs| == 1 then [ONE_Q24, -LspPolyProductQ24(qs[0], ONE_Q24), 0, 0, 0, 0]
    else Next(Poly(qs[..|qs| - 1]), qs[|qs| - 1], |qs| - 1)
  }

  // The even- and odd-numbered LSPs.
  function Alternate(lsp: Lsp, offset: nat): (qs: seq<Word16>)
    requires offset <= 1
    ensures |qs| == 5
  {
    [lsp[offset], lsp[2 + offset], lsp[4 + offset], lsp[6 + offset], lsp[8 + offset]]
  }

  // Twice coefficient k of A(z) in Q24, from the two half-stored polynomials.
  function PostTransform(f1: Half, f2: Half, k: nat): int
    requires k < 11
  {
    if k == 0 then 2 * ONE_Q24
    else if k <= 5 then (f1[k] + f1[k - 1]) + (f2[k] - f2[k - 1])
    else (f1[11 - k] + f1[10 - k]) - (f2[11 - k] - f2[10 - k])
  }

  function RoundQ28(sumQ28: int): int {
    (sumQ28 + 0x8000) / 0x1_0000
  }

  // Coefficient k before the clamp to 16 bits.
  function Unclamped(lsp: Lsp, k: nat): int
    requires k < 11
  {
    RoundQ28(PostTransform(Poly(Alternate(lsp, 0)), Poly(Alternate(lsp, 1)), k) * 8)
  }

  // The LP polynomial, a[0] first.
  function LspToLp(lsp: Lsp): (a: seq<Word16>)
    ensures |a| == 11
  {
    seq(11, k requires 0 <= k < 11 => Sat16(Unclamped(lsp, k)))
  }

  method BuildLspPolyQ24(lsp: Lsp, offset: nat, f: array<int>)
    requires offset <= 1 && f.Length == 6
    modifies f
    ensures f[..] == Poly(Alternate(lsp, offset))
  {
    hide LspPolyProductQ24;
    ghost var qs := Alternate(lsp, offset);
    f[0], f[1], f[2], f[3], f[4], f[5] := ONE_Q24, 0, 0, 0, 0, 0;
    f[1] := -LspPolyProductQ24(lsp[offset], f[0]);
    assert qs[..1] == [lsp[offset]];
    for step := 1 to 5
      invariant f[..] == Poly(qs[..step])
    {
      var q := lsp[2 * step + offset];
      assert q == qs[step] && qs[..step + 1][..step] == qs[..step];
      NextInPlace(f, q, step);
    }
    assert qs[..5] == qs;
  }

  // One factor: the old coefficients are copied and the new ones filled from the top down.
  method NextInPlace(f: array<int>, q: Word16, step: nat)
    requires f.Length == 6 && 1 <= step <= 4
    modifies f
    ensures f[..] == Next(old(f[..]), q, step)
  {
    hide LspPolyProductQ24, NextCoefficient;
    var prior: Half := f[..];
    var next := new int[6](_ => 0);
    LowCoefficients(prior, q, step);
    next[0] := prior[0];
    next[1] := prior[1] - LspPolyProductQ24(q, prior[0]);
    var j := step;
    while j >= 1
      invariant 0 <= j <= step
      invariant next[0] == NextCoefficient(prior, q, step, 0) && next[1] == NextCoefficient(prior, q, step, 1)
      invariant forall k | j + 2 <= k <= 5 :: next[k] == NextCoefficient(prior, q, step, k)
    {
      var add := prior[j - 1];
      if j == step {
        add := 2 * add;
      }
      MiddleCoefficient(prior, q, step, j);
      next[j + 1] := prior[j + 1] - LspPolyProductQ24(q, prior[j]) + add;
      j := j - 1;
    }
    assert forall k | 0 <= k < 6 :: next[k] == NextCoefficient(prior, q, step, k);
    for i := 0 to 6
      invariant forall k | 0 <= k < i :: f[k] == NextCoefficient(prior, q, step, k)
      invariant forall k | 0 <= k < 6 :: next[k] == NextCoefficient(prior, q, step, k)
    {
      f[i] := next[i];
    }
    NextAt(prior, q, step);
  }

  lemma NextAt(f: Half, q: Word16, step: nat)
    requires 1 <= step <= 4
    ensures forall k | 0 <= k < 6 :: Next(f, q, step)[k] == NextCoefficient(f, q, step, k)
  {
    hide NextCoefficient;
  }

  lemma LowCoefficients(f: Half, q: Word16, step: nat)
    requires 1 <= step <= 4
    ensures NextCoefficient(f, q, step, 0) == f[0]
    ensures NextCoefficient(f, q, step, 1) == f[1] - LspPolyProductQ24(q, f[0])
    ensures forall k | step + 2 <= k <= 5 :: NextCoefficient(f, q, step, k) == 0
  {
  }

  lemma MiddleCoefficient(f: Half, q: Word16, step: nat, j: nat)
    requires 1 <= j <= step <= 4
    ensures NextCoefficient(f, q, step, j + 1)
            == f[j + 1] - LspPolyProductQ24(q, f[j]) + (if j == step then 2 * f[j - 1] else f[j - 1])
  {
  }

  method LspToLpInPlace(lsp: Lsp, a: array<Word16>)
    requires a.Length == 11
    modifies a
    ensures a[..] == LspToLp(lsp)
  {
    hide Poly, PostTransform, SetA, Sums, Differences;
    var f1, f2 := new int[6], new int[6];
    BuildLspPolyQ24(lsp, 0, f1);
    BuildLspPolyQ24(lsp, 1, f2);
    ghost var g1: Half, g2: Half := f1[..], f2[..];
    PostTransformInPlace(f1, f2);
    a[0] := SetA(0x1000_0000);
    FirstSum(g1, g2);
    CoefficientAt(lsp, 0);
    hide LspToLp;
    for i := 1 to 6
      invariant f1[..] == Sums(g1) && f2[..] == Differences(g2)
      invariant forall k | 0 <= k < i || 11 - i < k < 11 :: a[k] == LspToLp(lsp)[k]
    {
      SumsAt(g1, g2, i);
      CoefficientAt(lsp, i);
      CoefficientAt(lsp, 11 - i);
      a[i] := SetA((f1[i] + f2[i]) * 8);
      a[11 - i] := SetA((f1[i] - f2[i]) * 8);
    }
    assert |LspToLp(lsp)| == 11;
  }

  lemma FirstSum(g1: Half, g2: Half)
    ensures PostTransform(g1, g2, 0) == 2 * ONE_Q24
  {
  }

  lemma SumsAt(g1: Half, g2: Half, i: nat)
    requires 1 <= i <= 5
    ensures Sums(g1)[i] + Differences(g2)[i] == PostTransform(g1, g2, i)
    ensures Sums(g1)[i] - Differences(g2)[i] == PostTransform(g1, g2, 11 - i)
  {
  }

  function SetA(sumQ28: int): Word16 {
    Sat16(RoundQ28(sumQ28))
  }

  lemma CoefficientAt(lsp: Lsp, k: nat)
    requires k < 11
    ensures LspToLp(lsp)[k] == SetA(PostTransform(Poly(Alternate(lsp, 0)), Poly(Alternate(lsp, 1)), k) * 8)
  {
    hide Poly, PostTransform, RoundQ28, Alternate;
  }

  function Sums(f: Half): Half {
    [f[0], f[1] + f[0], f[2] + f[1], f[3] + f[2], f[4] + f[3], f[5] + f[4]]
  }

  function Differences(f: Half): Half {
    [f[0], f[1] - f[0], f[2] - f[1], f[3] - f[2], f[4] - f[3], f[5] - f[4]]
  }

  method PostTransformInPlace(f1: array<int>, f2: array<int>)
    requires f1.Length == f2.Length == 6 && f1 != f2
    modifies f1, f2
    ensures f1[..] == Sums(old(f1[..])) && f2[..] == Differences(old(f2[..]))
  {
    ghost var g1: Half, g2: Half := f1[..], f2[..];
    var i := 5;
    while i >= 1
      invariant 0 <= i <= 5
      invariant forall k | 0 <= k <= i :: f1[k] == g1[k] && f2[k] == g2[k]
      invariant forall k | i < k <= 5 :: f1[k] == Sums(g1)[k] && f2[k] == Differences(g2)[k]
    {
      f1[i] := f1[i] + f1[i - 1];
      f2[i] := f2[i] - f2[i - 1];
      i := i - 1;
    }
  }

  // ---------- the exact product ----------

  // q x for q in Q14: twice the Q15 value.
  function Twice(q: Word16, x: real): real {
    (q as real / 16384.0) * x
  }

  // Coefficient j of the product of the factors 1 - 2 q z^-1 + z^-2, with q in Q15.
  function Exact(qs: seq<Word16>, j: int): real {
    if |qs| == 0 then (if j == 0 then 1.0 else 0.0)
    else
      var init := qs[..|qs| - 1];
      Exact(init, j) - Twice(qs[|qs| - 1], Exact(init, j - 1)) + Exact(init, j - 2)
  }

  // Coefficient k of A(z) = ((1 + z^-1) F1(z) + (1 - z^-1) F2(z)) / 2.
  function ExactLp(lsp: Lsp, k: int): real {
    var p, q := Alternate(lsp, 0), Alternate(lsp, 1);
    (Exact(p, k) + Exact(p, k - 1) + Exact(q, k) - Exact(q, k - 1)) / 2.0
  }

  lemma {:induction false} Palindrome(qs: seq<Word16>, j: int)
    ensures Exact(qs, j) == Exact(qs, 2 * |qs| - j)
    ensures j < 0 ==> Exact(qs, j) == 0.0
    decreases |qs|
  {
    if |qs| > 0 {
      var init := qs[..|qs| - 1];
      Palindrome(init, j);
      Palindrome(init, j - 1);
      Palindrome(init, j - 2);
      Palindrome(init, 2 * |init| - j);
      Palindrome(init, 2 * |init| - j + 1);
      Palindrome(init, 2 * |init| - j + 2);
    }
  }

  // ---------- the error of the fixed-point recurrence ----------

  const SCALE: real := 16777216.0

  function AbsReal(x: real): real {
    if x < 0.0 then -x else x
  }

  // Bound on the error of coefficient k after n factors, in Q24 units.
  function Error(n: nat, k: nat): nat
    requires k <= n <= 5
  {
    if k <= 1 then 0
    else if n == 2 then 4
    else if n == 3 then (if k == 2 then 8 else 12)
    else if n == 4 then (if k == 2 then 12 else if k == 3 then 32 else 44)
    else if k == 2 then 16 else if k == 3 then 60 else if k == 4 then 124 else 156
  }

  predicate Near(c: int, x: real, e: nat) {
    AbsReal(c as real - SCALE * x) <= e as real
  }

  lemma ScaleBy(q: Word16, d: real, e: real)
    requires AbsReal(d) <= e
    ensures AbsReal(Twice(q, d)) <= 2.0 * e
  {
    var t := q as real / 16384.0;
    var m := AbsReal(d);
    RealProduct(2.0 - t, m);
    RealProduct(2.0 + t, m);
    assert Twice(q, d) == if d < 0.0 then -(t * m) else t * m;
  }

  lemma RealProduct(a: real, b: real)
    requires a >= 0.0 && b >= 0.0
    ensures a * b >= 0.0
  {
  }

  lemma ProductValue(q: Word16, c: int)
    ensures Twice(q, c as real) - 4.0 < LspPolyProductQ24(q, c) as real <= Twice(q, c as real)
  {
    var p: int := q * c;
    assert p as real == q as real * c as real;
    assert Twice(q, c as real) == p as real / 16384.0;
    assert 0x1_0000 * (p / 0x1_0000) <= p < 0x1_0000 * (p / 0x1_0000) + 0x1_0000;
  }

  // The floor costs less than 4 units; the error of the operand at most doubles.
  lemma ProductNear(q: Word16, c: int, x: real, e: nat)
    requires Near(c, x, e)
    ensures Near(LspPolyProductQ24(q, c), Twice(q, x), 2 * e + 4)
  {
    hide LspPolyProductQ24, Twice;
    ProductValue(q, c);
    ScaleBy(q, c as real - SCALE * x, e as real);
    TwiceLinear(q, c as real, x);
  }

  lemma TwiceLinear(q: Word16, c: real, x: real)
    ensures Twice(q, c - SCALE * x) == Twice(q, c) - SCALE * Twice(q, x)
  {
  }

  // The product with the leading coefficient is exact.
  lemma LeadingProduct(q: Word16)
    ensures LspPolyProductQ24(q, ONE_Q24) == 1024 * (q as int)
    ensures SCALE * Twice(q, 1.0) == (1024 * (q as int)) as real
  {
    assert (q * ONE_Q24) / 0x1_0000 == 256 * (q as int);
  }

  lemma {:induction false} ExactLeading(qs: seq<Word16>)
    ensures Exact(qs, 0) == 1.0 && Exact(qs, -1) == 0.0 && Exact(qs, -2) == 0.0
  {
    Palindrome(qs, -1);
    Palindrome(qs, -2);
    if |qs| > 0 {
      ExactLeading(qs[..|qs| - 1]);
    }
  }

  // The recurrence is the half-stored product of the factors: coefficients past the middle are not
  // kept, and coefficient k of n factors is off by at most Error(n, k).
  lemma {:induction false} PolyNear(qs: seq<Word16>)
    requires 1 <= |qs| <= 5
    ensures Poly(qs)[0] == ONE_Q24
    ensures forall k | 0 <= k <= |qs| :: Near(Poly(qs)[k], Exact(qs, k), Error(|qs|, k))
    ensures forall k | |qs| < k <= 5 :: Poly(qs)[k] == 0
    decreases |qs|
  {
    hide LspPolyProductQ24;
    var n, init, q := |qs| - 1, qs[..|qs| - 1], qs[|qs| - 1];
    LeadingProduct(q);
    ExactLeading(init);
    ExactLeading(qs);
    if n == 0 {
      assert Exact(init, 1) == 0.0;
      assert Exact(qs, 1) == -Twice(q, 1.0);
    } else {
      PolyNear(init);
      forall k | 2 <= k <= n + 1
        ensures Near(Poly(qs)[k], Exact(qs, k), Error(n + 1, k))
      {
        StepNear(qs, k);
      }
      SecondNear(qs);
    }
  }

  lemma SecondNear(qs: seq<Word16>)
    requires 2 <= |qs| <= 5
    requires var init := qs[..|qs| - 1];
             && Poly(init)[0] == ONE_Q24
             && Near(Poly(init)[1], Exact(init, 1), 0)
    ensures Near(Poly(qs)[1], Exact(qs, 1), 0)
  {
    hide LspPolyProductQ24;
    var init, q := qs[..|qs| - 1], qs[|qs| - 1];
    LeadingProduct(q);
    ExactLeading(init);
    assert Poly(qs)[1] == Poly(init)[1] - LspPolyProductQ24(q, Poly(init)[0]);
  }

  lemma StepNear(qs: seq<Word16>, k: nat)
    requires 2 <= k <= |qs| && 2 <= |qs| <= 5
    requires var init := qs[..|qs| - 1];
             && (forall j | 0 <= j < |qs| :: Near(Poly(init)[j], Exact(init, j), Error(|qs| - 1, j)))
             && (forall j | |qs| <= j <= 5 :: Poly(init)[j] == 0)
    ensures Near(Poly(qs)[k], Exact(qs, k), Error(|qs|, k))
  {
    hide LspPolyProductQ24, Poly, Exact, Near, Error, Twice;
    var n, init, q := |qs| - 1, qs[..|qs| - 1], qs[|qs| - 1];
    var f, twice := Poly(init), Twice(q, Exact(init, k - 1));
    ProductNear(q, f[k - 1], Exact(init, k - 1), Error(n, k - 1));
    PolyStep(qs, k);
    ExactStep(qs, k);
    ErrorStep(n, k);
    var product := LspPolyProductQ24(q, f[k - 1]);
    assert Near(f[k - 2], Exact(init, k - 2), Error(n, k - 2));
    assert Near(product, twice, 2 * Error(n, k - 1) + 4);
    if k == n + 1 {
      Palindrome(init, k);
      assert Exact(init, k) == Exact(init, k - 2) by { assert 2 * n - k == k - 2; }
      Combine(f[k - 2], Exact(init, k), Error(n, k - 2), product, twice, 2 * Error(n, k - 1) + 4,
              f[k - 2], Exact(init, k - 2), Error(n, k - 2));
    } else {
      assert Near(f[k], Exact(init, k), Error(n, k));
      Combine(f[k], Exact(init, k), Error(n, k), product, twice, 2 * Error(n, k - 1) + 4,
              f[k - 2], Exact(init, k - 2), Error(n, k - 2));
    }
  }

  lemma Combine(a: int, x: real, ea: nat, b: int, y: real, eb: nat, c: int, z: real, ec: nat)
    requires Near(a, x, ea) && Near(b, y, eb) && Near(c, z, ec)
    ensures Near(a - b + c, x - y + z, ea + eb + ec)
  {
  }

  lemma ErrorStep(n: nat, k: nat)
    requires 2 <= k <= n + 1 && 1 <= n <= 4
    ensures Error(n + 1, k)
            == (if k == n + 1 then Error(n, k - 2) else Error(n, k)) + 2 * Error(n, k - 1) + 4 + Error(n, k - 2)
  {
  }

  lemma PolyStep(qs: seq<Word16>, k: nat)
    requires 2 <= k <= |qs| && 2 <= |qs| <= 5
    ensures var f := Poly(qs[..|qs| - 1]);
            Poly(qs)[k] == f[k] - LspPolyProductQ24(qs[|qs| - 1], f[k - 1])
              + (if k == |qs| then 2 * f[k - 2] else f[k - 2])
  {
    hide LspPolyProductQ24, NextCoefficient, Next;
    var f, q, n := Poly(qs[..|qs| - 1]), qs[|qs| - 1], |qs| - 1;
    assert Poly(qs) == Next(f, q, n);
    hide Poly;
    NextAt(f, q, n);
    MiddleCoefficient(f, q, n, k - 1);
  }

  lemma ExactStep(qs: seq<Word16>, k: int)
    requires |qs| > 0
    ensures var init := qs[..|qs| - 1];
            Exact(qs, k)
            == Exact(init, k) - Twice(qs[|qs| - 1], Exact(init, k - 1)) + Exact(init, k - 2)
  {
  }

  // Every LP coefficient is the clamp of an integer within one Q12 unit of the exact coefficient.
  lemma LspToLpNear(lsp: Lsp, k: nat)
    requires k < 11
    ensures LspToLp(lsp)[k] == Sat16(Unclamped(lsp, k))
    ensures AbsReal(Unclamped(lsp, k) as real - 4096.0 * ExactLp(lsp, k)) < 1.0
  {
    hide Poly, Exact, Alternate, RoundQ28, PostTransform;
    SumNear(Alternate(lsp, 0), Alternate(lsp, 1), k);
    RoundNear(PostTransform(Poly(Alternate(lsp, 0)), Poly(Alternate(lsp, 1)), k), ExactLp(lsp, k));
  }

  lemma CoefficientNear(qs: seq<Word16>, k: nat)
    requires |qs| == 5 && k < 11
    ensures Near(if k <= 5 then Poly(qs)[k] else Poly(qs)[10 - k], Exact(qs, k), Error(5, if k <= 5 then k else 10 - k))
  {
    hide Poly, Exact, Error, Near;
    PolyNear(qs);
    Palindrome(qs, k);
  }

  lemma SumNear(p: seq<Word16>, q: seq<Word16>, k: nat)
    requires |p| == |q| == 5 && k < 11
    ensures Near(PostTransform(Poly(p), Poly(q), k),
                 Exact(p, k) + Exact(p, k - 1) + Exact(q, k) - Exact(q, k - 1), 560)
  {
    hide Poly, Exact;
    if k == 0 {
      ExactLeading(p);
      ExactLeading(q);
    } else {
      CoefficientNear(p, k);
      CoefficientNear(p, k - 1);
      CoefficientNear(q, k);
      CoefficientNear(q, k - 1);
    }
  }

  lemma RoundNear(s: int, x: real)
    requires Near(s, 2.0 * x, 560)
    ensures AbsReal(RoundQ28(s * 8) as real - 4096.0 * x) < 1.0
  {
    var v := s * 8 + 0x8000;
    assert 0x1_0000 * (v / 0x1_0000) <= v < 0x1_0000 * (v / 0x1_0000) + 0x1_0000;
  }

  // ---------- the 64-bit accumulators suffice ----------

  function Magnitude(n: nat): nat {
    if n == 0 then ONE_Q24 else 6 * Magnitude(n - 1)
  }

  lemma ProductMagnitude(q: Word16, c: int, m: nat)
    requires Abs(c) <= m
    ensures Abs(q * c) <= 0x8000 * m && Abs(LspPolyProductQ24(q, c)) <= 2 * m + 4
  {
    MulAbsLe(q, c, 0x8000, m);
  }

  lemma {:induction false} PolyMagnitude(qs: seq<Word16>, k: nat)
    requires 1 <= |qs| <= 5 && k <= 5
    ensures Abs(Poly(qs)[k]) <= Magnitude(|qs|) && Magnitude(|qs|) >= ONE_Q24
    decreases |qs|
  {
    hide LspPolyProductQ24, Poly, Abs;
    assert Magnitude(0) == ONE_Q24;
    if |qs| == 1 {
      FirstPoly(qs);
    } else {
      var init, q := qs[..|qs| - 1], qs[|qs| - 1];
      PolyMagnitude(init, k);
      PolyNext(qs);
      if k > 0 {
        PolyMagnitude(init, k - 1);
        ProductMagnitude(q, Poly(init)[k - 1], Magnitude(|init|));
        if k > 1 {
          PolyMagnitude(init, k - 2);
        }
      }
      NextMagnitude(Poly(init), q, |init|, k, Magnitude(|init|));
    }
  }

  lemma FirstPoly(qs: seq<Word16>)
    requires |qs| == 1
    ensures forall k | 0 <= k <= 5 :: Abs(Poly(qs)[k]) <= 2 * ONE_Q24
  {
    LeadingProduct(qs[0]);
  }

  lemma PolyNext(qs: seq<Word16>)
    requires 2 <= |qs| <= 5
    ensures Poly(qs) == Next(Poly(qs[..|qs| - 1]), qs[|qs| - 1], |qs| - 1)
  {
    hide NextCoefficient;
  }

  lemma NextMagnitude(f: Half, q: Word16, step: nat, k: nat, m: nat)
    requires 1 <= step <= 4 && k <= 5 && m >= 4
    requires Abs(f[k]) <= m
    requires k > 0 ==> Abs(LspPolyProductQ24(q, f[k - 1])) <= 2 * m + 4
    requires k > 1 ==> Abs(f[k - 2]) <= m
    ensures Abs(Next(f, q, step)[k]) <= 6 * m
  {
    hide LspPolyProductQ24;
    assert Next(f, q, step)[k] == NextCoefficient(f, q, step, k);
  }

  // No product of the recurrence comes near the 64-bit limit.
  lemma ProductsFit(qs: seq<Word16>, q: Word16, k: nat)
    requires 1 <= |qs| <= 4 && k <= 5
    ensures Abs(q * Poly(qs)[k]) < 0x20_0000_0000_0000
  {
    PolyMagnitude(qs, k);
    assert Magnitude(0) == ONE_Q24 && Magnitude(1) == 6 * ONE_Q24 && Magnitude(2) == 36 * ONE_Q24;
    assert Magnitude(3) == 216 * ONE_Q24 && Magnitude(4) == 1296 * ONE_Q24;
    ProductMagnitude(q, Poly(qs)[k], 1296 * ONE_Q24);
  }
}
