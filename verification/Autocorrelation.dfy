/** Autocorrelation of the windowed, pre-processed speech, section 3.2.1 of ITU-T G.729 (internal/lpc/autocorr.go),
    with the 32-bit accumulators of the source. */
module Autocorrelation {
  import opened Fixed

  type Windowed = w: seq<int> | |w| == 240 witness seq(240, _ => 0)

  type Speech = s: seq<Word16> | |s| == 240 witness seq(240, _ => 0)

  // ---------- the analysis window ----------

  // The Q15 window, sixteen entries a row.
  function WindowRow(i: nat): (r: seq<Word16>)
    requires i < 15
    ensures |r| == 16
  {
    if i == 0 then
      [2621, 2623, 2629, 2638, 2651, 2668, 2689, 2713,
       2741, 2773, 2808, 2847, 2890, 2936, 2986, 3040]
    else if i == 1 then
      [3097, 3158, 3223, 3291, 3363, 3438, 3517, 3599,
       3685, 3775, 3867, 3963, 4063, 4166, 4272, 4382]
    else if i == 2 then
      [4495, 4611, 4731, 4854, 4979, 5108, 5241, 5376,
       5514, 5655, 5800, 5947, 6097, 6250, 6406, 6565]
    else if i == 3 then
      [6726, 6890, 7057, 7227, 7399, 7573, 7751, 7930,
       8112, 8297, 8483, 8672, 8864, 9057, 9253, 9450]
    else if i == 4 then
      [9650, 9852, 10056, 10261, 10468, 10678, 10889, 11101,
       11316, 11531, 11749, 11968, 12188, 12409, 12632, 12857]
    else if i == 5 then
      [13082, 13309, 13536, 13765, 13994, 14225, 14456, 14689,
       14922, 15155, 15390, 15624, 15860, 16096, 16332, 16568]
    else if i == 6 then
      [16805, 17042, 17279, 17517, 17754, 17991, 18229, 18466,
       18703, 18939, 19176, 19412, 19647, 19883, 20117, 20351]
    else if i == 7 then
      [20584, 20817, 21049, 21280, 21510, 21739, 21967, 22194,
       22420, 22645, 22869, 23091, 23312, 23531, 23750, 23966]
    else if i == 8 then
      [24181, 24395, 24606, 24817, 25025, 25231, 25436, 25639,
       25839, 26038, 26235, 26429, 26622, 26812, 27000, 27185]
    else if i == 9 then
      [27368, 27549, 27728, 27904, 28077, 28248, 28416, 28581,
       28744, 28904, 29062, 29216, 29368, 29516, 29662, 29805]
    else if i == 10 then
      [29945, 30082, 30215, 30346, 30473, 30598, 30719, 30837,
       30951, 31063, 31171, 31275, 31377, 31474, 31569, 31660]
    else if i == 11 then
      [31748, 31832, 31912, 31989, 32063, 32133, 32199, 32262,
       32321, 32377, 32429, 32477, 32522, 32562, 32600, 32633]
    else if i == 12 then
      [32663, 32689, 32712, 32730, 32745, 32756, 32764, 32767,
       32767, 32742, 32666, 32538, 32359, 32130, 31851, 31522]
    else if i == 13 then
      [31144, 30717, 30243, 29721, 29152, 28538, 27880, 27178,
       26434, 25648, 24822, 23958, 23056, 22118, 21145, 20140]
    else
      [19103, 18036, 16941, 15820, 14674, 13505, 12315, 11106,
       9879, 8637, 7382, 6115, 4838, 3554, 2264, 971]
  }

  function WindowAt(n: nat): Word16
    requires n < 240
  {
    WindowRow(n / 16)[n % 16]
  }

  function WindowSpeech(s: Speech): Windowed {
    seq(240, n requires 0 <= n < 240 => Mult(s[n], WindowAt(n)))
  }

  method ApplyWindow(speech: array<Word16>, windowed: array<Word16>)
    requires speech.Length == windowed.Length == 240 && speech != windowed
    modifies windowed
    ensures windowed[..] == WindowSpeech(speech[..])
  {
    hide Mult, WindowAt;
    for n := 0 to 240
      invariant forall m | 0 <= m < n :: windowed[m] == Mult(speech[m], WindowAt(m))
    {
      windowed[n] := Mult(speech[n], WindowAt(n));
    }
  }

  // ---------- the sums ----------

  function Squares(w: Windowed, n: nat): (s: nat)
    requires n <= 240
  {
    if n == 0 then 0
    else
      SquareSign(w[n - 1]);
      Squares(w, n - 1) + w[n - 1] * w[n - 1]
  }

  lemma SquareSign(x: int)
    ensures x * x >= 0
  {
  }

  // Sum of w(m) w(m - k) over k <= m < n.
  function Lagged(w: Windowed, k: nat, n: nat): int
    requires k <= n <= 240
    decreases n
  {
    if n == k then 0 else Lagged(w, k, n - 1) + w[n - 1] * w[n - 1 - k]
  }

  // The same with a 32-bit accumulator.
  function Lagged32(w: Windowed, k: nat, n: nat): Word32
    requires k <= n <= 240
    decreases n
  {
    if n == k then 0 else Int32(Lagged32(w, k, n - 1) + w[n - 1] * w[n - 1 - k])
  }

  // How often the energy is quartered before it fits.
  function Scale(energy: nat): (s: nat)
    ensures s == 0 <==> energy <= MAX32
  {
    if energy <= MAX32 then 0 else 1 + Scale(energy / 4)
  }

  // It is the least number of quarterings that does.
  lemma {:induction false} ScaleLeast(energy: nat, s: nat)
    ensures Scale(energy) <= s <==> energy < 0x8000_0000 * (Pow2(s) * Pow2(s))
    decreases s
  {
    if s == 0 {
      assert Pow2(0) == 1;
    } else {
      ScaleLeast(energy / 4, s - 1);
      var p := Pow2(s - 1);
      assert Pow2(s) == 2 * p;
      QuarterBelow(energy, p);
      if energy <= MAX32 {
        MulMono(1, p, 1);
        MulMono(1, p, p);
      }
    }
  }

  lemma QuarterBelow(energy: nat, p: nat)
    ensures energy / 4 < 0x8000_0000 * (p * p) <==> energy < 0x8000_0000 * ((2 * p) * (2 * p))
  {
    assert (2 * p) * (2 * p) == 4 * (p * p);
  }

  function ShiftedWindow(w: Windowed, s: nat): Windowed {
    seq(240, n requires 0 <= n < 240 => Shr(w[n], s))
  }

  // The samples the accumulators run over.
  function Operands(w: Windowed): Windowed {
    var s := Scale(Squares(w, 240));
    if s == 0 then w else ShiftedWindow(w, s)
  }

  method Autocorrelate(windowed: array<Word16>, r: array<Word32>) returns (scale: nat)
    requires windowed.Length == 240 && r.Length == 11
    modifies r
    ensures windowed[..] == old(windowed[..])
    ensures scale == Scale(Squares(windowed[..], 240))
    ensures forall k | 0 <= k <= 10 :: r[k] == Lagged32(Operands(windowed[..]), k, 240)
  {
    hide Lagged32;
    ghost var w: Windowed := windowed[..];
    var sumSq := Energy(windowed);
    scale := 0;
    while sumSq > MAX32
      invariant sumSq >= 0 && scale + Scale(sumSq) == Scale(Squares(w, 240))
      decreases sumSq
    {
      sumSq := sumSq / 4;
      scale := scale + 1;
    }
    var s: Windowed := windowed[..];
    if scale != 0 {
      s := ShiftedWindow(s, scale);
    }
    for k := 0 to 11
      invariant windowed[..] == w
      invariant forall j | 0 <= j < k :: r[j] == Lagged32(s, j, 240)
    {
      r[k] := Accumulate(s, k);
    }
  }

  method Energy(windowed: array<Word16>) returns (sumSq: int)
    requires windowed.Length == 240
    ensures sumSq == Squares(windowed[..], 240)
  {
    sumSq := 0;
    for n := 0 to 240
      invariant sumSq == Squares(windowed[..], n)
    {
      var v := windowed[n] as int;
      sumSq := sumSq + v * v;
    }
  }

  method Accumulate(s: Windowed, k: nat) returns (acc: Word32)
    requires k <= 10
    ensures acc == Lagged32(s, k, 240)
  {
    acc := 0;
    for n := k to 240
      invariant acc == Lagged32(s, k, n)
    {
      acc := Int32((acc as int) + s[n] * s[n - k]);
    }
  }

  // ---------- the unshifted path ----------

  lemma {:induction false} SquaresGrow(w: Windowed, m: nat, n: nat)
    requires m <= n <= 240
    ensures Squares(w, m) <= Squares(w, n)
  {
    if m < n {
      SquaresGrow(w, m, n - 1);
      SquareSign(w[n - 1]);
    }
  }

  lemma TwoProducts(a: int, b: int)
    ensures -(a * a + b * b) <= 2 * (a * b) <= a * a + b * b
  {
    assert (a - b) * (a - b) == a * a - 2 * (a * b) + b * b;
    assert (a + b) * (a + b) == a * a + 2 * (a * b) + b * b;
    SquareSign(a - b);
    SquareSign(a + b);
  }

  // Every partial sum is bounded by the energies it draws on.
  lemma {:induction false} LaggedBound(w: Windowed, k: nat, n: nat)
    requires k <= n <= 240
    ensures 2 * Abs(Lagged(w, k, n)) <= Squares(w, n) + Squares(w, n - k)
  {
    if n > k {
      LaggedBound(w, k, n - 1);
      TwoProducts(w[n - 1], w[n - 1 - k]);
    }
  }

  lemma {:induction false} LaggedFits(w: Windowed, k: nat, n: nat)
    requires k <= n <= 240 && Squares(w, 240) <= MAX32
    ensures Lagged32(w, k, n) as int == Lagged(w, k, n)
    ensures Abs(Lagged(w, k, n)) <= Squares(w, 240)
    decreases n
  {
    LaggedBound(w, k, n);
    SquaresGrow(w, n, 240);
    SquaresGrow(w, n - k, 240);
    hide Squares;
    if n > k {
      LaggedFits(w, k, n - 1);
      InWidth(Lagged(w, k, n));
    }
  }

  lemma InWidth(x: int)
    requires MIN32 <= x <= MAX32
    ensures Int32(x) as int == x
  {
  }

  // Without a shift no partial sum of any lag leaves 32 bits, and no lag exceeds r(0).
  lemma UnshiftedExact(w: Windowed, k: nat)
    requires Squares(w, 240) <= MAX32 && k <= 10
    ensures Operands(w) == w
    ensures Lagged32(Operands(w), k, 240) as int == Lagged(w, k, 240)
    ensures Abs(Lagged(w, k, 240)) <= Lagged(w, 0, 240) == Squares(w, 240)
  {
    LaggedFits(w, k, 240);
    EnergyIsLagZero(w, 240);
  }

  lemma {:induction false} EnergyIsLagZero(w: Windowed, n: nat)
    requires n <= 240
    ensures Lagged(w, 0, n) == Squares(w, n)
  {
    if n > 0 {
      EnergyIsLagZero(w, n - 1);
    }
  }

  // ---------- the shifted path ----------

  // No partial sum of any lag wraps.
  ghost predicate Exact(v: Windowed) {
    forall k, n | 0 <= k <= 10 && k <= n <= 240 :: Lagged32(v, k, n) as int == Lagged(v, k, n)
  }

  // On either path the 32-bit sums are exact, partial sums included, exactly when the energy of the samples
  // they run over fits 32 bits.
  lemma ShiftedExact(w: Windowed)
    ensures Exact(Operands(w)) <==> Squares(Operands(w), 240) <= MAX32
  {
    hide Squares, Lagged32, Lagged, Operands;
    var v := Operands(w);
    EnergyIsLagZero(v, 240);
    if Squares(v, 240) <= MAX32 {
      forall k, n | 0 <= k <= 10 && k <= n <= 240
        ensures Lagged32(v, k, n) as int == Lagged(v, k, n)
      {
        LaggedFits(v, k, n);
      }
    } else {
      assert Lagged32(v, 0, 240) as int != Lagged(v, 0, 240);
    }
  }

  // Rounding down enlarges negative samples, so after the shift the energy need not fit. Nine samples of
  // -30918 of pre-processed speech in silence, where the window is near one, need a shift of one and leave it
  // beyond 32 bits. (What PCM makes the pre-processor deliver them is not stated.)
  function Burst(): Speech {
    seq(240, n => if 193 <= n < 202 then -30918 else 0)
  }

  lemma ShiftedPathWraps()
    ensures var w := WindowSpeech(Burst());
            && Scale(Squares(w, 240)) == 1
            && Squares(Operands(w), 240) > MAX32
            && Lagged32(Operands(w), 0, 240) < 0
  {
    hide Lagged32, Squares, NineSamples, WindowSpeech;
    var w := WindowSpeech(Burst());
    BurstSamples();
    NineSquares(w, WINDOWED);
    assert Scale(2147427787) == 0;
    assert Scale(8589711148) == 1;
    ShiftedSamples(w);
    var v := ShiftedWindow(w, 1);
    NineSquares(v, HALVED);
    WrappedEnergy(v, 240);
  }

  // What the window leaves of the nine samples, and what the shift leaves of them.
  const WINDOWED: seq<int> := [-30844, -30866, -30883, -30897, -30907, -30915, -30918, -30918, -30894]
  const HALVED: seq<int> := [-15422, -15433, -15442, -15449, -15454, -15458, -15459, -15459, -15447]

  ghost predicate NineSamples(w: Windowed, v: seq<int>) {
    && |v| == 9
    && (forall n | 0 <= n < 193 || 202 <= n < 240 :: w[n] == 0)
    && (forall n | 193 <= n < 202 :: w[n] == v[n - 193])
  }

  lemma WindowTop()
    ensures WindowAt(193) == 32689 && WindowAt(194) == 32712 && WindowAt(195) == 32730 && WindowAt(196) == 32745
    ensures WindowAt(197) == 32756 && WindowAt(198) == 32764 && WindowAt(199) == 32767 && WindowAt(200) == 32767
    ensures WindowAt(201) == 32742
  {
  }

  lemma BurstSamples()
    ensures NineSamples(WindowSpeech(Burst()), WINDOWED)
  {
    hide WindowAt;
    WindowTop();
  }

  lemma ShiftedSamples(w: Windowed)
    requires NineSamples(w, WINDOWED)
    ensures NineSamples(ShiftedWindow(w, 1), HALVED)
  {
    assert Pow2(1) == 2;
    hide Pow2;
  }

  lemma NineSquares(w: Windowed, v: seq<int>)
    requires NineSamples(w, v)
    ensures |v| == 9
    ensures Squares(w, 240) == v[0] * v[0] + v[1] * v[1] + v[2] * v[2] + v[3] * v[3] + v[4] * v[4] + v[5] * v[5]
                               + v[6] * v[6] + v[7] * v[7] + v[8] * v[8]
  {
    ZeroRun(w, 0, 193);
    SquaresStep(w, 193);
    SquaresStep(w, 194);
    SquaresStep(w, 195);
    SquaresStep(w, 196);
    SquaresStep(w, 197);
    SquaresStep(w, 198);
    SquaresStep(w, 199);
    SquaresStep(w, 200);
    SquaresStep(w, 201);
    ZeroRun(w, 202, 240);
    assert Squares(w, 0) == 0;
    hide Squares;
  }

  lemma SquaresStep(w: Windowed, n: nat)
    requires n < 240
    ensures Squares(w, n + 1) == Squares(w, n) + w[n] * w[n]
  {
  }

  lemma {:induction false} ZeroRun(w: Windowed, m: nat, n: nat)
    requires m <= n <= 240 && forall i | m <= i < n :: w[i] == 0
    ensures Squares(w, n) == Squares(w, m)
  {
    if m < n {
      ZeroRun(w, m, n - 1);
    }
  }

  // The 32-bit r(0) is the energy wrapped to 32 bits.
  lemma {:induction false} WrappedEnergy(w: Windowed, n: nat)
    requires n <= 240
    ensures Lagged32(w, 0, n) == Int32(Squares(w, n))
  {
    if n > 0 {
      WrappedEnergy(w, n - 1);
      WrapSum(Squares(w, n - 1), w[n - 1] * w[n - 1]);
    }
  }

  lemma WrapSum(x: int, y: int)
    ensures Int32(Int32(x) as int + y) == Int32(x + y)
  {
    var m := 0x1_0000_0000;
    var v := x + 0x8000_0000;
    var u := v + y;
    assert v == (v / m) * m + v % m && u == (u / m) * m + u % m;
    ModUnique(v % m + y, m, u / m - v / m, u % m);
  }
}
