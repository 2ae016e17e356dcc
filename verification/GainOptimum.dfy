/** What the gain search minimises (internal/gainquant/conjugate.go): its cost is the energy of the error of the
    quantised excitation, and the centre of its preselection is the unquantised minimum of that cost. */
module GainOptimum {
  import opened Fixed
  import opened GainSearch
  import opened GainCost
  import G = Gain

  // ---------- what the cost measures ----------

  // Energy of the error of the quantised excitation, x against gp y + gc z, in units of 2^-52: x is scaled
  // by 2^26, and gp in Q14 and gc in Q12 on z in Q12 make up the difference.
  function ErrorTo(x: Subframe, y: Subframe, z: Subframe, gp: int, gc: int, n: nat): int
    requires n <= 40
  {
    if n == 0 then 0
    else
      var d := 0x400_0000 * (x[n - 1] as int) - 0x1000 * (gp * y[n - 1]) - 4 * (gc * z[n - 1]);
      ErrorTo(x, y, z, gp, gc, n - 1) + d * d
  }

  function TargetEnergyTo(x: Subframe, n: nat): int
    requires n <= 40
  {
    if n == 0 then 0 else TargetEnergyTo(x, n - 1) + (x[n - 1] as int) * x[n - 1]
  }

  lemma SquaredDifference(x: int, y: int, z: int, gp: int, gc: int)
    ensures var d := 0x400_0000 * x - 0x1000 * (gp * y) - 4 * (gc * z);
            d * d == 0x10_0000_0000_0000 * (x * x) + gp * gp * ((y * y) * 0x100_0000) + gc * gc * (z * z) * 16
                     + gp * gc * ((y * z) * 0x1000) * 8 - gp * ((x * y) * 0x100_0000) * 0x8000
                     - gc * ((x * z) * 0x1000) * 0x2_0000
  {
    var p, q := gp * y, gc * z;
    assert p * p == gp * gp * (y * y) && q * q == gc * gc * (z * z) && p * q == gp * gc * (y * z) by {
      Pairs(gp, y, gp, y);
      Pairs(gc, z, gc, z);
      Pairs(gp, y, gc, z);
    }
    assert x * p == gp * (x * y) && x * q == gc * (x * z);
    Trinomial(0x400_0000 * x, 0x1000 * p, 4 * q);
    ScaledTerms(x, p, q);
    ScaledOut(gp * gp, y * y, 0x100_0000);
    ScaledOut(gp * gc, y * z, 0x1000);
    ScaledOut(gp, x * y, 0x100_0000);
    ScaledOut(gc, x * z, 0x1000);
  }

  lemma Pairs(a: int, b: int, c: int, d: int)
    ensures (a * b) * (c * d) == a * c * (b * d)
  {
    assert (a * b) * (c * d) == a * (b * (c * d));
    assert b * (c * d) == c * (b * d);
    assert a * (c * (b * d)) == a * c * (b * d);
  }

  lemma Trinomial(a: int, b: int, c: int)
    ensures (a - b - c) * (a - b - c) == a * a + b * b + c * c + 2 * (b * c) - 2 * (a * b) - 2 * (a * c)
  {
    var s := b + c;
    assert (a - s) * (a - s) == a * a - 2 * (a * s) + s * s;
    assert a * s == a * b + a * c && s * s == b * b + 2 * (b * c) + c * c;
  }

  lemma ScaledTerms(x: int, p: int, q: int)
    ensures (0x400_0000 * x) * (0x400_0000 * x) == 0x10_0000_0000_0000 * (x * x)
    ensures (0x1000 * p) * (0x1000 * p) == 0x100_0000 * (p * p) && (4 * q) * (4 * q) == 16 * (q * q)
    ensures (0x1000 * p) * (4 * q) == 0x4000 * (p * q)
    ensures (0x400_0000 * x) * (0x1000 * p) == 0x40_0000_0000 * (x * p)
    ensures (0x400_0000 * x) * (4 * q) == 0x1000_0000 * (x * q)
  {
  }

  lemma ScaledOut(g: int, v: int, m: int)
    ensures g * (v * m) == (g * v) * m
  {
  }

  // The five correlations make the cost the error energy less a constant.
  lemma {:induction false} CostIsError(x: Subframe, y: Subframe, z: Subframe, gp: int, gc: int, n: nat)
    requires n <= 40
    ensures Cost(CorrelationsTo(x, y, z, n), gp, gc) + 0x10_0000_0000_0000 * TargetEnergyTo(x, n)
            == ErrorTo(x, y, z, gp, gc, n)
  {
    if n > 0 {
      CostIsError(x, y, z, gp, gc, n - 1);
      SquaredDifference(x[n - 1], y[n - 1], z[n - 1], gp, gc);
      CorrelationStep(x, y, z, gp, gc, n);
    }
  }

  lemma CorrelationStep(x: Subframe, y: Subframe, z: Subframe, gp: int, gc: int, n: nat)
    requires 1 <= n <= 40
    ensures var xi, yi, zi := x[n - 1] as int, y[n - 1] as int, z[n - 1] as int;
            Cost(CorrelationsTo(x, y, z, n), gp, gc) == Cost(CorrelationsTo(x, y, z, n - 1), gp, gc)
              + gp * gp * ((yi * yi) * 0x100_0000) + gc * gc * (zi * zi) * 16
              + gp * gc * ((yi * zi) * 0x1000) * 8 - gp * ((xi * yi) * 0x100_0000) * 0x8000
              - gc * ((xi * zi) * 0x1000) * 0x2_0000
  {
    var xi, yi, zi := x[n - 1] as int, y[n - 1] as int, z[n - 1] as int;
    var r := CorrelationsTo(x, y, z, n - 1);
    var u, v, w := (yi * yi) * 0x100_0000, zi * zi, (yi * zi) * 0x1000;
    var s, t := (xi * yi) * 0x100_0000, (xi * zi) * 0x1000;
    assert CorrelationsTo(x, y, z, n) == Correlations(r.a + u, r.b + v, r.c + w, r.d + s, r.f + t);
    hide CorrelationsTo;
    CostAdds(r, Correlations(u, v, w, s, t), gp, gc);
  }

  lemma CostAdds(r: Correlations, q: Correlations, gp: int, gc: int)
    ensures Cost(Correlations(r.a + q.a, r.b + q.b, r.c + q.c, r.d + q.d, r.f + q.f), gp, gc)
            == Cost(r, gp, gc) + Cost(q, gp, gc)
  {
    Add2(gp * gp, r.a, q.a);
    Add2(gc * gc, r.b, q.b);
    Add2(gp * gc, r.c, q.c);
    Add2(gp, r.d, q.d);
    Add2(gc, r.f, q.f);
  }

  lemma Add2(g: int, p: int, q: int)
    ensures g * (p + q) == g * p + g * q
  {
  }

  // ---------- the shifted cost ----------

  // Weight of one unit of every correlation in the cost.
  function Weight(gp: int, gc: int): nat {
    Abs(gp * gp) + 16 * Abs(gc * gc) + 8 * Abs(gp * gc) + 0x8000 * Abs(gp) + 0x2_0000 * Abs(gc)
  }

  // The common shift takes less than one unit off each correlation, so the cost the candidates are compared
  // by is the exact one up to their weight.
  lemma ShiftedCostNear(r: Correlations, s: nat, gp: int, gc: int)
    ensures Abs(Pow2(s) * Cost(GainSearch.Shifted(r, s), gp, gc) - Cost(r, gp, gc)) <= Pow2(s) * Weight(gp, gc)
  {
    hide Pow2, Shr, Abs;
    var q, p := GainSearch.Shifted(r, s), Pow2(s);
    TermNear(gp * gp, r.a, s);
    TermNear(gc * gc, r.b, s);
    TermNear(gp * gc, r.c, s);
    TermNear(gp, r.d, s);
    TermNear(gc, r.f, s);
    Spread5(p, gp * gp * q.a, gc * gc * q.b, gp * gc * q.c, gp * q.d, gc * q.f);
    Spread5(p, Abs(gp * gp), Abs(gc * gc), Abs(gp * gc), -(Abs(gp) as int), -(Abs(gc) as int));
    Negated(p, Abs(gp), Abs(gc));
    FiveNear(p * (gp * gp * q.a), gp * gp * r.a, p * Abs(gp * gp), p * (gc * gc * q.b), gc * gc * r.b, p * Abs(gc * gc),
             p * (gp * gc * q.c), gp * gc * r.c, p * Abs(gp * gc), p * (gp * q.d), gp * r.d, p * Abs(gp),
             p * (gc * q.f), gc * r.f, p * Abs(gc));
  }

  lemma Negated(p: int, x: int, y: int)
    ensures p * (-x) == -(p * x) && p * (-y) == -(p * y)
  {
  }

  lemma FiveNear(a: int, a': int, ka: int, b: int, b': int, kb: int, c: int, c': int, kc: int,
                 d: int, d': int, kd: int, f: int, f': int, kf: int)
    requires Abs(a - a') <= ka && Abs(b - b') <= kb && Abs(c - c') <= kc && Abs(d - d') <= kd && Abs(f - f') <= kf
    ensures Abs(a + 16 * b + 8 * c - 0x8000 * d - 0x2_0000 * f
                - (a' + b' * 16 + c' * 8 - d' * 0x8000 - f' * 0x2_0000))
            <= ka + 16 * kb + 8 * kc + 0x8000 * kd + 0x2_0000 * kf
  {
  }

  lemma TermNear(g: int, v: int, s: nat)
    ensures Abs(Pow2(s) * (g * Shr(v, s)) - g * v) <= Pow2(s) * Abs(g)
  {
    hide Pow2, Shr;
    ShiftRange(v, s);
    ProductNear(g, Shr(v, s), v, Pow2(s));
  }

  lemma ProductNear(g: int, q: int, v: int, p: nat)
    requires q * p <= v < q * p + p
    ensures Abs(p * (g * q) - g * v) <= p * Abs(g)
  {
    MulAbsLe(g, v - q * p, Abs(g), p);
    assert g * (v - q * p) == g * v - p * (g * q) by {
      assert g * (q * p) == p * (g * q);
    }
  }

  lemma Spread5(p: int, a: int, b: int, c: int, d: int, f: int)
    ensures p * (a + b * 16 + c * 8 - d * 0x8000 - f * 0x2_0000)
            == p * a + 16 * (p * b) + 8 * (p * c) - 0x8000 * (p * d) - 0x2_0000 * (p * f)
  {
    Add2(p, a, b * 16);
    Add2(p, a + b * 16, c * 8);
    Add2(p, a + b * 16 + c * 8, -(d * 0x8000));
    Add2(p, a + b * 16 + c * 8 - d * 0x8000, -(f * 0x2_0000));
    assert p * (b * 16) == 16 * (p * b) && p * (c * 8) == 8 * (p * c);
    assert p * -(d * 0x8000) == -0x8000 * (p * d) && p * -(f * 0x2_0000) == -0x2_0000 * (p * f);
  }

  // No other preselected pair has an error energy below that of the chosen one, up to what the shift takes
  // off the two costs.
  lemma ChosenIsNearest(x: Subframe, y: Subframe, z: Subframe, ga: Four, gb: Eight, gpc: Word32, k: nat, j: nat)
    requires k < 32 && j < 32
    requires var r := CorrelationsTo(x, y, z, 40);
             FirstMinimum(GainSearch.Shifted(r, CostShift(r, ga, gb, gpc)), ga, gb, gpc, 32, k)
    ensures var gp, gc := Gp(First(ga, k), Second(gb, k)), Gc(First(ga, k), Second(gb, k), gpc);
            var gp', gc' := Gp(First(ga, j), Second(gb, j)), Gc(First(ga, j), Second(gb, j), gpc);
            var s := CostShift(CorrelationsTo(x, y, z, 40), ga, gb, gpc);
            ErrorTo(x, y, z, gp, gc, 40)
            <= ErrorTo(x, y, z, gp', gc', 40) + Pow2(s) * Weight(gp, gc) + Pow2(s) * Weight(gp', gc')
  {
    hide CorrelationsTo, CostShift, GainSearch.Shifted, Cost, Gp, Gc, First, Second, Pow2, Weight, ErrorTo,
      TargetEnergyTo;
    var gp, gc := Gp(First(ga, k), Second(gb, k)), Gc(First(ga, k), Second(gb, k), gpc);
    var gp', gc' := Gp(First(ga, j), Second(gb, j)), Gc(First(ga, j), Second(gb, j), gpc);
    var r := CorrelationsTo(x, y, z, 40);
    var s := CostShift(r, ga, gb, gpc);
    ShiftedCostNear(r, s, gp, gc);
    ShiftedCostNear(r, s, gp', gc');
    CostIsError(x, y, z, gp, gc, 40);
    CostIsError(x, y, z, gp', gc', 40);
    var q := GainSearch.Shifted(r, s);
    assert PairCost(q, ga, gb, gpc, k) <= PairCost(q, ga, gb, gpc, j);
    MulMono(Cost(q, gp, gc), Cost(q, gp', gc'), Pow2(s));
  }

  // ---------- the centre ----------

  // The cost over real gains.
  function RealCost(n: Correlations, gp: real, gc: real): real {
    n.a as real * (gp * gp) + 16.0 * (n.b as real * (gc * gc)) + 8.0 * (n.c as real * (gp * gc))
      - 32768.0 * (n.d as real * gp) - 131072.0 * (n.f as real * gc)
  }

  lemma RealCostIsCost(n: Correlations, gp: int, gc: int)
    ensures RealCost(n, gp as real, gc as real) == Cost(n, gp, gc) as real
  {
    AsReal(n.a, gp, gp);
    AsReal(n.b, gc, gc);
    AsReal(n.c, gp, gc);
    Ordered(n, gp, gc);
  }

  lemma Ordered(n: Correlations, gp: int, gc: int)
    ensures gp * gp * n.a == n.a * (gp * gp) && gc * gc * n.b == n.b * (gc * gc) && gp * gc * n.c == n.c * (gp * gc)
  {
  }

  lemma AsReal(v: int, x: int, y: int)
    ensures v as real * (x as real * y as real) == (v * (x * y)) as real
  {
    assert x as real * y as real == (x * y) as real;
  }

  function Det(n: Correlations): int {
    n.a * n.b - n.c * n.c
  }

  // The whole part of a gain, none for a negative one.
  predicate Floored(g: nat, v: real) {
    g as real <= (if v < 0.0 then 0.0 else v) < g as real + 1.0
  }

  // The unquantised minimum of the cost over all real pairs of gains, and over one gain alone.
  ghost predicate Minimum(n: Correlations, gp: real, gc: real) {
    forall p: real, q: real :: (p, q) != (gp, gc) ==> RealCost(n, gp, gc) < RealCost(n, p, q)
  }

  ghost predicate PitchMinimum(n: Correlations, gp: real) {
    forall p: real :: p != gp ==> RealCost(n, gp, 0.0) < RealCost(n, p, 0.0)
  }

  ghost predicate CodeMinimum(n: Correlations, gc: real) {
    forall q: real :: q != gc ==> RealCost(n, 0.0, gc) < RealCost(n, 0.0, q)
  }

  // ---------- the minimum of a quadratic ----------

  function Form(a: real, b: real, c: real, h: real, k: real): real {
    a * (h * h) + 2.0 * (c * (h * k)) + b * (k * k)
  }

  // Products the solver is to see only the signs of.
  function Prod(x: real, y: real): (r: real)
    ensures x > 0.0 ==> (r > 0.0 <==> y > 0.0)
    ensures x < 0.0 ==> (r > 0.0 <==> y < 0.0)
    ensures x == 0.0 ==> r == 0.0
  {
    x * y
  }

  function Sq(x: real): (r: real)
    ensures r >= 0.0 && (x != 0.0 ==> r > 0.0)
  {
    Prod(x, x)
  }

  // With a positive leading coefficient and determinant it is positive away from zero.
  lemma PositiveForm(a: real, b: real, c: real, h: real, k: real)
    requires a > 0.0 && a * b - c * c > 0.0 && (h != 0.0 || k != 0.0)
    ensures Form(a, b, c, h, k) > 0.0
  {
    CompletedSquare(a, b, c, h, k);
    AlongFirst(a, b, c, h);
    hide Form, Sq, Prod;
  }

  lemma CompletedSquare(a: real, b: real, c: real, h: real, k: real)
    ensures Prod(a, Form(a, b, c, h, k)) == Sq(a * h + c * k) + Prod(a * b - c * c, Sq(k))
  {
    var p, q := a * h, c * k;
    assert (p + q) * (p + q) == p * p + 2.0 * (p * q) + q * q;
    assert p * p == a * (a * (h * h)) && q * q == c * c * (k * k) && p * q == a * (c * (h * k));
    assert a * (b * (k * k)) == a * b * (k * k);
  }

  lemma AlongFirst(a: real, b: real, c: real, h: real)
    ensures Form(a, b, c, h, 0.0) == Prod(a, Sq(h))
  {
  }

  // The form about a point, with the linear part that vanishes there.
  lemma Shifts(a: real, b: real, c: real, u: real, v: real, h: real, k: real)
    ensures Form(a, b, c, u + h, v + k)
            == Form(a, b, c, u, v) + Form(a, b, c, h, k) + 2.0 * ((a * u + c * v) * h) + 2.0 * ((c * u + b * v) * k)
  {
    assert (u + h) * (u + h) == u * u + 2.0 * (u * h) + h * h;
    assert (v + k) * (v + k) == v * v + 2.0 * (v * k) + k * k;
    assert (u + h) * (v + k) == u * v + u * k + h * v + h * k;
    Thrice(a, u * u, u * h, h * h);
    Thrice(b, v * v, v * k, k * k);
    assert c * (u * v + u * k + h * v + h * k) == c * (u * v) + c * (u * k) + c * (h * v) + c * (h * k);
    assert (a * u + c * v) * h == a * (u * h) + c * (h * v);
    assert (c * u + b * v) * k == c * (u * k) + b * (v * k);
  }

  lemma Thrice(a: real, x: real, y: real, z: real)
    ensures a * (x + 2.0 * y + z) == a * x + 2.0 * (a * y) + a * z
  {
  }

  // A quadratic with a positive form is least where both derivatives vanish, and only there.
  lemma LeastThere(a: real, b: real, c: real, d: real, f: real, u: real, v: real, p: real, q: real)
    requires a > 0.0 && a * b - c * c > 0.0 && a * u + c * v == d && c * u + b * v == f && (p != u || q != v)
    ensures Form(a, b, c, u, v) - 2.0 * (d * u) - 2.0 * (f * v) < Form(a, b, c, p, q) - 2.0 * (d * p) - 2.0 * (f * q)
  {
    var h, k := p - u, q - v;
    Shifts(a, b, c, u, v, h, k);
    PositiveForm(a, b, c, h, k);
    hide Form;
    assert d * p == d * u + d * h && f * q == f * v + f * k;
  }

  // ---------- the centre ----------

  // The exact solution of the normalised system, as gains.
  function ExactCentre(n: Correlations): (real, real)
    requires Det(n) > 0
  {
    ((n.d * n.b - n.f * n.c) as real / Det(n) as real * 16384.0,
     (n.f * n.a - n.d * n.c) as real / Det(n) as real * 4096.0)
  }

  lemma CostAsForm(n: Correlations, gp: real, gc: real)
    ensures RealCost(n, gp, gc)
            == Form(n.a as real, n.b as real, n.c as real, gp, 4.0 * gc) - 2.0 * (16384.0 * n.d as real * gp)
               - 2.0 * (16384.0 * n.f as real * (4.0 * gc))
  {
    assert (4.0 * gc) * (4.0 * gc) == 16.0 * (gc * gc) && gp * (4.0 * gc) == 4.0 * (gp * gc);
    Quadruple(n.b as real, gc * gc, 16.0);
    Quadruple(n.c as real, gp * gc, 4.0);
  }

  lemma Quadruple(b: real, x: real, m: real)
    ensures b * (m * x) == m * (b * x)
  {
  }

  // Cramer's rule.
  lemma SolvesSystem(a: int, b: int, c: int, d: int, f: int)
    ensures a * (d * b - f * c) + c * (f * a - d * c) == d * (a * b - c * c)
    ensures c * (d * b - f * c) + b * (f * a - d * c) == f * (a * b - c * c)
  {
  }

  lemma RealProducts(a: int, p: int, c: int, q: int, d: int, det: int)
    requires det > 0 && a * p + c * q == d * det
    ensures a as real * (p as real / det as real) + c as real * (q as real / det as real) == d as real
  {
    var m := det as real;
    assert a as real * p as real == (a * p) as real && c as real * q as real == (c * q) as real;
    assert d as real * m == (d * det) as real;
    OverCommon(a as real * p as real, c as real * q as real, m);
    Into(a as real, p as real, m);
    Into(c as real, q as real, m);
    assert (d as real * m) / m == d as real;
  }

  lemma OverCommon(x: real, y: real, m: real)
    requires m != 0.0
    ensures (x + y) / m == x / m + y / m
  {
  }

  lemma Into(a: real, p: real, m: real)
    requires m != 0.0
    ensures (a * p) / m == a * (p / m)
  {
  }

  lemma PositiveEnergies(n: Correlations)
    requires n.a >= 0 && n.b >= 0
    ensures Det(n) > 0 ==> n.a > 0
  {
    GainSearch.SquareSign(n.c);
  }

  // The exact centre is the minimum of the cost, and the only one.
  lemma ExactIsMinimum(n: Correlations)
    requires n.a >= 0 && n.b >= 0 && Det(n) > 0
    ensures Minimum(n, ExactCentre(n).0, ExactCentre(n).1)
  {
    PositiveEnergies(n);
    var p, q, m := n.d * n.b - n.f * n.c, n.f * n.a - n.d * n.c, Det(n);
    SolvesSystem(n.a, n.b, n.c, n.d, n.f);
    RealProducts(n.a, p, n.c, q, n.d, m);
    RealProducts(n.c, p, n.b, q, n.f, m);
    var gp, gc := ExactCentre(n).0, ExactCentre(n).1;
    Derivatives(n, p as real / m as real, q as real / m as real);
    forall x: real, y: real | (x, y) != (gp, gc)
      ensures RealCost(n, gp, gc) < RealCost(n, x, y)
    {
      CostlierElsewhere(n, gp, gc, x, y);
    }
  }

  lemma CostlierElsewhere(n: Correlations, gp: real, gc: real, x: real, y: real)
    requires n.a > 0 && Det(n) > 0 && (x, y) != (gp, gc)
    requires n.a as real * gp + n.c as real * (4.0 * gc) == 16384.0 * n.d as real
    requires n.c as real * gp + n.b as real * (4.0 * gc) == 16384.0 * n.f as real
    ensures RealCost(n, gp, gc) < RealCost(n, x, y)
  {
    hide RealCost, Form;
    CostAsForm(n, gp, gc);
    CostAsForm(n, x, y);
    DetAsReal(n);
    LeastThere(n.a as real, n.b as real, n.c as real, 16384.0 * n.d as real, 16384.0 * n.f as real,
               gp, 4.0 * gc, x, 4.0 * y);
  }

  lemma Derivatives(n: Correlations, u: real, v: real)
    requires n.a as real * u + n.c as real * v == n.d as real && n.c as real * u + n.b as real * v == n.f as real
    ensures n.a as real * (u * 16384.0) + n.c as real * (4.0 * (v * 4096.0)) == 16384.0 * n.d as real
    ensures n.c as real * (u * 16384.0) + n.b as real * (4.0 * (v * 4096.0)) == 16384.0 * n.f as real
  {
  }

  lemma DetAsReal(n: Correlations)
    ensures n.a as real * n.b as real - n.c as real * n.c as real == Det(n) as real
  {
  }

  // Truncation toward zero and the clamp leave the whole part.
  lemma QuotientFloored(x: int, m: int, det: int)
    requires det > 0 && m > 0
    ensures Floored(NonNegative(Quotient(x * m, det)), x as real / det as real * m as real)
  {
    var v, g := x as real / det as real * m as real, NonNegative(Quotient(x * m, det));
    assert v == (x * m) as real / det as real;
    if x >= 0 {
      MulMono(0, x, m);
      WholePart(x * m, det);
    } else {
      MulMono(x, 0, m);
      Below(x * m, det);
    }
  }

  lemma WholePart(y: nat, det: int)
    requires det > 0
    ensures Floored(y / det, y as real / det as real)
  {
    var q, r, m := y / det, (y % det) as real, det as real;
    assert y == q * det + y % det;
    assert y as real == q as real * m + r;
    OverCommon(q as real * m, r, m);
    assert (q as real * m) / m == q as real;
    Fraction(r, m);
    DivBound(y, det);
  }

  lemma Fraction(r: real, m: real)
    requires 0.0 <= r < m
    ensures 0.0 <= r / m < 1.0
  {
  }

  lemma NotPositive(x: real, m: real)
    requires x <= 0.0 && m > 0.0
    ensures x / m <= 0.0
  {
  }

  lemma Below(y: int, det: int)
    requires det > 0 && y <= 0
    ensures NonNegative(Quotient(y, det)) == 0 && y as real / det as real <= 0.0
  {
    DivBound(-y, det);
    DivBound(y, det);
    NotPositive(y as real, det as real);
  }

  // One gain alone.
  lemma LeastAlone(a: real, d: real, u: real, p: real)
    requires a > 0.0 && a * u == d && p != u
    ensures a * (u * u) - 2.0 * (d * u) < a * (p * p) - 2.0 * (d * p)
  {
    hide Sq, Prod;
    AloneShifts(a, d, u, p - u);
    assert u + (p - u) == p;
  }

  lemma AloneShifts(a: real, d: real, u: real, h: real)
    requires a * u == d
    ensures a * ((u + h) * (u + h)) - 2.0 * (d * (u + h)) == a * (u * u) - 2.0 * (d * u) + Prod(a, Sq(h))
  {
    assert (u + h) * (u + h) == u * u + 2.0 * (u * h) + h * h;
    Thrice(a, u * u, u * h, h * h);
    assert a * (u * h) == d * h;
    assert d * (u + h) == d * u + d * h;
  }

  lemma PitchAlone(n: Correlations)
    requires n.a > 0
    ensures PitchMinimum(n, n.d as real / n.a as real * 16384.0)
  {
    var gp := n.d as real / n.a as real * 16384.0;
    assert n.a as real * gp == 16384.0 * n.d as real;
    forall p: real | p != gp
      ensures RealCost(n, gp, 0.0) < RealCost(n, p, 0.0)
    {
      LeastAlone(n.a as real, 16384.0 * n.d as real, gp, p);
    }
  }

  lemma CodeAlone(n: Correlations)
    requires n.b > 0
    ensures CodeMinimum(n, n.f as real / n.b as real * 4096.0)
  {
    var gc := n.f as real / n.b as real * 4096.0;
    assert n.b as real * gc == 4096.0 * n.f as real;
    forall q: real | q != gc
      ensures RealCost(n, 0.0, gc) < RealCost(n, 0.0, q)
    {
      LeastAlone(n.b as real, 4096.0 * n.f as real, gc, q);
    }
  }

  // The centre of the preselection: the whole part of the one pair of gains with the least cost; where the two
  // vectors cannot be told apart, of the best pitch gain alone; without a pitch vector, of the best fixed gain.
  lemma CentreIsBest(n: Correlations)
    requires n.a >= 0 && n.b >= 0
    ensures Det(n) > 0 ==> exists gp: real, gc: real ::
              Minimum(n, gp, gc) && Floored(Centre(n).0, gp) && Floored(Centre(n).1, gc)
    ensures Det(n) <= 0 && n.a > 0 ==>
              Centre(n).1 == 0 && exists gp: real :: PitchMinimum(n, gp) && Floored(Centre(n).0, gp)
    ensures Det(n) <= 0 && n.a == 0 && n.b > 0 ==>
              Centre(n).0 == 0 && exists gc: real :: CodeMinimum(n, gc) && Floored(Centre(n).1, gc)
    ensures n.a == 0 && n.b == 0 ==> Centre(n) == (0, 0)
  {
    hide Minimum, PitchMinimum, CodeMinimum, Floored, Quotient, NonNegative;
    if Det(n) > 0 {
      ExactIsMinimum(n);
      QuotientFloored(n.d * n.b - n.f * n.c, 0x4000, Det(n));
      QuotientFloored(n.f * n.a - n.d * n.c, 0x1000, Det(n));
    } else if n.a > 0 {
      PitchAlone(n);
      QuotientFloored(n.d, 0x4000, n.a);
    } else if n.b > 0 {
      CodeAlone(n);
      QuotientFloored(n.f, 0x1000, n.b);
    }
    if n.a == 0 && n.b == 0 {
      GainSearch.SquareSign(n.c);
    }
  }

  // ---------- the preselection ----------

  // What a first-codebook entry would contribute to the fixed gain, and how far that is from the centre.
  function FixedGainDistance(i: nat, gpc: Word32, gcOpt: int): nat
    requires i < 8
  {
    Abs((G.Gbk1(i).1 * gpc) / 0x2000 - gcOpt)
  }

  // The four kept entries of the first codebook are nearest in fixed gain, the eight of the second in pitch
  // gain; earlier entries win ties.
  lemma KeptNearest(gpc: Word32, gpOpt: int, gcOpt: int, i: nat, j: nat, x: nat, y: nat)
    requires i < 4 && x < 8 && x !in GaCandidates(gpc, gcOpt)
    requires j < 8 && y < 16 && y !in GbCandidates(gpOpt)
    ensures var a, b := GaCandidates(gpc, gcOpt)[i], GbCandidates(gpOpt)[j];
            && FixedGainDistance(a, gpc, gcOpt) <= FixedGainDistance(x, gpc, gcOpt)
            && (FixedGainDistance(a, gpc, gcOpt) == FixedGainDistance(x, gpc, gcOpt) ==> a < x)
            && Abs(G.Gbk2(b).0 - gpOpt) <= Abs(G.Gbk2(y).0 - gpOpt)
            && (Abs(G.Gbk2(b).0 - gpOpt) == Abs(G.Gbk2(y).0 - gpOpt) ==> b < y)
  {
    hide ByDistance, G.Gbk1, G.Gbk2;
    PreselectionNearest(GaDistances(gpc, gcOpt), 8, 4, i, x);
    PreselectionNearest(GbDistances(gpOpt), 16, 8, j, y);
  }
}
