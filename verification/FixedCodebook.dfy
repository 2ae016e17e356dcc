/** The algebraic codebook of sections 3.8 and 4.1.5 of ITU-T G.729: four signed pulses, their 13-bit
    and 4-bit code words, and the pitch enhancement (internal/fcb, internal/fcbsearch/code.go, pack.go). */
module FixedCodebook {
  import opened Fixed

  const N: nat := 40
  const PULSE_AMPLITUDE: Word16 := 8191
  const NEGATIVE_PULSE_AMPLITUDE: Word16 := -8192
  const BETA_LOWER_Q14: Word16 := 3277
  const BETA_UPPER_Q14: Word16 := 13017

  type Positions = p: seq<nat> | |p| == 4 witness [0, 1, 2, 3]
  type Signs = s: seq<bool> | |s| == 4 witness [true, true, true, true]

  // Four pulses on the four tracks of Table 7.
  predicate OnTracks(p: Positions) {
    && p[0] < N && p[0] % 5 == 0
    && p[1] < N && p[1] % 5 == 1
    && p[2] < N && p[2] % 5 == 2
    && p[3] < N && (p[3] % 5 == 3 || p[3] % 5 == 4)
  }

  // ---------- code words ----------

  // The fields i0, i1, i2, jx and i3 occupy disjoint bits, so the `|` of the source is a sum.
  function PackC(p: Positions): (c: nat)
    requires OnTracks(p)
    ensures c < 0x2000
  {
    var jx := if p[3] % 5 == 4 then 1 else 0;
    p[0] / 5 + 8 * ((p[1] - 1) / 5) + 64 * ((p[2] - 2) / 5) + 512 * jx + 1024 * ((p[3] - 3 - jx) / 5)
  }

  // Table 7: the position each field value stands for.
  function Grid(i0: nat, i1: nat, i2: nat, jx: nat, i3: nat): (p: Positions)
    requires i0 < 8 && i1 < 8 && i2 < 8 && jx < 2 && i3 < 8
    ensures OnTracks(p)
  {
    [5 * i0, 5 * i1 + 1, 5 * i2 + 2, 5 * i3 + 3 + jx]
  }

  function DecodePositions(code: nat): (p: Positions)
    ensures OnTracks(p)
  {
    Grid(code % 8, (code / 8) % 8, (code / 64) % 8, (code / 512) % 2, (code / 1024) % 8)
  }

  // Bit i of S is the sign of pulse i.
  function PackedSigns(plus: Signs): (s: nat)
    ensures s < 16
  {
    (if plus[0] then 1 else 0) + (if plus[1] then 2 else 0) + (if plus[2] then 4 else 0) + (if plus[3] then 8 else 0)
  }

  function DecodedSigns(s: nat): Signs {
    [s % 2 == 1, (s / 2) % 2 == 1, (s / 4) % 2 == 1, (s / 8) % 2 == 1]
  }

  lemma OnGrid(p: Positions) returns (i0: nat, i1: nat, i2: nat, jx: nat, i3: nat)
    requires OnTracks(p)
    ensures i0 < 8 && i1 < 8 && i2 < 8 && jx < 2 && i3 < 8
    ensures p == Grid(i0, i1, i2, jx, i3)
  {
    i0, i1, i2, i3 := p[0] / 5, p[1] / 5, p[2] / 5, p[3] / 5;
    jx := p[3] % 5 - 3;
  }

  lemma PackGrid(i0: nat, i1: nat, i2: nat, jx: nat, i3: nat)
    requires i0 < 8 && i1 < 8 && i2 < 8 && jx < 2 && i3 < 8
    ensures PackC(Grid(i0, i1, i2, jx, i3)) == i0 + 8 * i1 + 64 * i2 + 512 * jx + 1024 * i3
  {
    FifthOf(i0, 0);
    FifthOf(i1, 1);
    FifthOf(i2, 2);
    FifthOf(i3, 3 + jx);
  }

  lemma FifthOf(i: nat, r: nat)
    requires r < 5
    ensures (5 * i + r) / 5 == i && (5 * i + r) % 5 == r
  {
  }

  lemma Fields(i0: nat, i1: nat, i2: nat, jx: nat, i3: nat)
    requires i0 < 8 && i1 < 8 && i2 < 8 && jx < 2 && i3 < 8
    ensures var c := i0 + 8 * i1 + 64 * i2 + 512 * jx + 1024 * i3;
            c % 8 == i0 && (c / 8) % 8 == i1 && (c / 64) % 8 == i2 && (c / 512) % 2 == jx && (c / 1024) % 8 == i3
  {
    var c := i0 + 8 * i1 + 64 * i2 + 512 * jx + 1024 * i3;
    assert c / 8 == i1 + 8 * i2 + 64 * jx + 128 * i3;
    assert c / 64 == i2 + 8 * jx + 16 * i3;
    assert c / 512 == jx + 2 * i3;
    assert c / 1024 == i3;
  }

  // The 13-bit code and the 8 * 8 * 8 * 16 legal pulse positions are in one-to-one correspondence.
  lemma PositionsRoundTrip(p: Positions)
    requires OnTracks(p)
    ensures DecodePositions(PackC(p)) == p
  {
    hide PackC, Grid, OnTracks;
    var i0, i1, i2, jx, i3 := OnGrid(p);
    PackGrid(i0, i1, i2, jx, i3);
    Fields(i0, i1, i2, jx, i3);
  }

  lemma CodesRoundTrip(code: nat)
    requires code < 0x2000
    ensures PackC(DecodePositions(code)) == code
  {
    hide PackC, Grid, OnTracks;
    PackGrid(code % 8, (code / 8) % 8, (code / 64) % 8, (code / 512) % 2, (code / 1024) % 8);
    assert code / 64 == (code / 8) / 8 && code / 512 == (code / 64) / 8 && code / 1024 == (code / 512) / 2;
  }

  lemma SignsRoundTrip(plus: Signs)
    ensures DecodedSigns(PackedSigns(plus)) == plus
  {
  }

  // ---------- pulses ----------

  function Amplitude(plus: bool): Word16 {
    if plus then PULSE_AMPLITUDE else NEGATIVE_PULSE_AMPLITUDE
  }

  // The vector after the first i pulses are written.
  function Placed(p: Positions, plus: Signs, i: nat): (c: Subframe)
    requires i <= 4 && OnTracks(p)
  {
    if i == 0 then ZeroSubframe() else Placed(p, plus, i - 1)[p[i - 1] := Amplitude(plus[i - 1])]
  }

  function SignsAt(p: Positions, signs: seq<Word16>): Signs
    requires OnTracks(p) && |signs| == N
  {
    [signs[p[0]] > 0, signs[p[1]] > 0, signs[p[2]] > 0, signs[p[3]] > 0]
  }

  // ---------- pitch enhancement ----------

  function ClampPitchGainForEnhancement(gpPrevQ14: Word16): (beta: Word16)
    ensures BETA_LOWER_Q14 <= beta <= BETA_UPPER_Q14
  {
    if gpPrevQ14 < BETA_LOWER_Q14 then BETA_LOWER_Q14
    else if gpPrevQ14 > BETA_UPPER_Q14 then BETA_UPPER_Q14
    else gpPrevQ14
  }

  function Delta(betaQ14: Word16, x: Word16): Word16 {
    ExtractH(LShl(LMult(betaQ14, x), 1))
  }

  // The vector after the recursion has run over samples t..n-1.
  function EnhancedTo(c: Subframe, t: int, betaQ14: Word16, n: nat): (r: Subframe)
    requires 1 <= t <= n <= N
    decreases n
  {
    if n == t then c
    else
      var r := EnhancedTo(c, t, betaQ14, n - 1);
      r[n - 1 := Add(r[n - 1], Delta(betaQ14, r[n - 1 - t]))]
  }

  function Enhanced(c: Subframe, t: int, betaQ14: Word16): (r: Subframe) {
    if t < 1 || t >= N || betaQ14 == 0 then c else EnhancedTo(c, t, betaQ14, N)
  }

  // ---------- encoder and decoder vectors ----------

  function BuildCodeVector(p: Positions, signs: seq<Word16>, intLag: int, prevGpQ14: Word16): Subframe
    requires OnTracks(p) && |signs| == N
  {
    Enhanced(Placed(p, SignsAt(p, signs), 4), intLag, ClampPitchGainForEnhancement(prevGpQ14))
  }

  function DecodeVector(positions: nat, signs: nat, t: int, betaQ14: Word16): Subframe {
    Enhanced(Placed(DecodePositions(positions), DecodedSigns(signs), 4), t, betaQ14)
  }

  // What the receiver rebuilds from the two code words is the vector the encoder built.
  lemma SameVector(p: Positions, signs: seq<Word16>, intLag: int, prevGpQ14: Word16)
    requires OnTracks(p) && |signs| == N
    ensures DecodeVector(PackC(p), PackedSigns(SignsAt(p, signs)), intLag, ClampPitchGainForEnhancement(prevGpQ14))
            == BuildCodeVector(p, signs, intLag, prevGpQ14)
  {
    PositionsRoundTrip(p);
    SignsRoundTrip(SignsAt(p, signs));
  }

  // ---------- the loops ----------

  method PackS(p: Positions, signs: array<Word16>) returns (s: nat)
    requires OnTracks(p) && signs.Length == N
    ensures s == PackedSigns(SignsAt(p, signs[..]))
  {
    s := 0;
    ghost var plus := SignsAt(p, signs[..]);
    for i := 0 to 4
      invariant s == (if i > 0 && plus[0] then 1 else 0) + (if i > 1 && plus[1] then 2 else 0)
                     + (if i > 2 && plus[2] then 4 else 0) + (if i > 3 && plus[3] then 8 else 0)
    {
      if signs[p[i]] > 0 {
        s := s + (if i == 0 then 1 else if i == 1 then 2 else if i == 2 then 4 else 8);
      }
    }
  }

  method ClearVector(c: array<Word16>)
    requires c.Length == N
    modifies c
    ensures c[..] == ZeroSubframe()
  {
    for i := 0 to N
      invariant forall j | 0 <= j < i :: c[j] == 0
    {
      c[i] := 0;
    }
  }

  method PlacePulses(p: Positions, signs: nat, c: array<Word16>)
    requires OnTracks(p) && c.Length == N
    modifies c
    ensures c[..] == Placed(p, DecodedSigns(signs), 4)
  {
    ClearVector(c);
    ghost var plus := DecodedSigns(signs);
    for i := 0 to 4
      invariant c[..] == Placed(p, plus, i)
    {
      ghost var was := c[..];
      var bit := if i == 0 then signs % 2 else if i == 1 then (signs / 2) % 2
                 else if i == 2 then (signs / 4) % 2 else (signs / 8) % 2;
      if bit == 1 {
        c[p[i]] := PULSE_AMPLITUDE;
      } else {
        c[p[i]] := NEGATIVE_PULSE_AMPLITUDE;
      }
      assert c[..] == was[p[i] := Amplitude(plus[i])];
    }
  }

  method BuildSparseCode(p: Positions, signs: array<Word16>, c: array<Word16>)
    requires OnTracks(p) && signs.Length == N && c.Length == N && c != signs
    modifies c
    ensures c[..] == Placed(p, SignsAt(p, signs[..]), 4)
  {
    ClearVector(c);
    ghost var plus := SignsAt(p, signs[..]);
    for i := 0 to 4
      invariant signs[..] == old(signs[..])
      invariant c[..] == Placed(p, plus, i)
    {
      ghost var was := c[..];
      if signs[p[i]] > 0 {
        c[p[i]] := PULSE_AMPLITUDE;
      } else {
        c[p[i]] := NEGATIVE_PULSE_AMPLITUDE;
      }
      assert c[..] == was[p[i] := Amplitude(plus[i])];
    }
  }

  method ApplyPitchEnhancement(c: array<Word16>, t: int, betaQ14: Word16)
    requires c.Length == N
    modifies c
    ensures c[..] == Enhanced(old(c[..]), t, betaQ14)
  {
    hide LMult, LShl, ExtractH, Add;
    if t < 1 || t >= 40 {
      return;
    }
    if betaQ14 == 0 {
      return;
    }
    for n := t to N
      invariant c[..] == EnhancedTo(old(c[..]), t, betaQ14, n)
    {
      ghost var was := c[..];
      var prod := LMult(betaQ14, c[n - t]);
      prod := LShl(prod, 1);
      var delta := ExtractH(prod);
      assert delta == Delta(betaQ14, c[n - t]);
      c[n] := Add(c[n], delta);
      assert c[..] == was[n := c[n]];
    }
  }

  method BuildCode(p: Positions, signs: array<Word16>, intLag: int, prevGpQ14: Word16, c: array<Word16>)
    requires OnTracks(p) && signs.Length == N && c.Length == N && c != signs
    modifies c
    ensures c[..] == BuildCodeVector(p, signs[..], intLag, prevGpQ14)
  {
    BuildSparseCode(p, signs, c);
    var betaQ14 := ClampPitchGainForEnhancement(prevGpQ14);
    ApplyPitchEnhancement(c, intLag, betaQ14);
  }

  method Decode(positions: nat, signs: nat, t: int, betaQ14: Word16, c: array<Word16>)
    requires c.Length == N
    modifies c
    ensures c[..] == DecodeVector(positions, signs, t, betaQ14)
  {
    var p := DecodePositions(positions);
    PlacePulses(p, signs, c);
    ApplyPitchEnhancement(c, t, betaQ14);
  }

  // ---------- equation (46) ----------

  // The gain times the sample, rounded down; no gain below one loses a bit on the way.
  lemma DeltaIs(betaQ14: Word16, x: Word16)
    requires Abs(betaQ14) < 0x4000
    ensures Delta(betaQ14, x) as int == ((betaQ14 as int) * x) / 0x4000
  {
    assert Pow2(1) == 2;
    MulAbsLe(betaQ14, x, 0x3FFF, 0x8000);
    var p := (betaQ14 as int) * x;
    assert LMult(betaQ14, x) as int == 2 * p;
    assert LShl(2 * p, 1) as int == 4 * p;
  }

  // One sample of c'(n) = c(n) + beta c'(n - t), with the saturation of the sum.
  predicate Sharpened(c: Subframe, r: Subframe, t: nat, betaQ14: Word16, n: nat)
    requires 1 <= t && n < N
  {
    r[n] as int == if n < t then c[n] else Sat16(c[n] + ((betaQ14 as int) * r[n - t]) / 0x4000)
  }

  // r solves equation (46) up to sample n.
  predicate Solves(c: Subframe, r: Subframe, t: nat, betaQ14: Word16, n: nat)
    requires 1 <= t && n <= N
  {
    forall m | 0 <= m < n :: Sharpened(c, r, t, betaQ14, m)
  }

  lemma {:induction false} EnhancedPrefix(c: Subframe, t: nat, betaQ14: Word16, n: nat)
    requires 1 <= t <= n <= N && Abs(betaQ14) < 0x4000
    ensures Solves(c, EnhancedTo(c, t, betaQ14, n), t, betaQ14, n)
    ensures forall m | n <= m < N :: EnhancedTo(c, t, betaQ14, n)[m] == c[m]
    decreases n
  {
    hide Delta;
    if n > t {
      EnhancedPrefix(c, t, betaQ14, n - 1);
      var was, r := EnhancedTo(c, t, betaQ14, n - 1), EnhancedTo(c, t, betaQ14, n);
      DeltaIs(betaQ14, was[n - 1 - t]);
      forall m | 0 <= m < n
        ensures Sharpened(c, r, t, betaQ14, m)
      {
        if m < n - 1 {
          assert Sharpened(c, was, t, betaQ14, m);
        }
      }
    }
  }

  // The enhanced vector is the solution of equation (46) for every delay inside the subframe, and the
  // vector itself for any other.
  lemma EnhancementLaw(c: Subframe, t: int, betaQ14: Word16)
    requires Abs(betaQ14) < 0x4000
    ensures !(1 <= t < N) ==> Enhanced(c, t, betaQ14) == c
    ensures 1 <= t < N ==> Solves(c, Enhanced(c, t, betaQ14), t, betaQ14, N)
  {
    hide EnhancedTo, Solves;
    if 1 <= t < N && betaQ14 != 0 {
      EnhancedPrefix(c, t, betaQ14, N);
    } else if 1 <= t < N {
      NoGain(c, t);
    }
  }

  lemma NoGain(c: Subframe, t: nat)
    requires 1 <= t < N
    ensures Solves(c, c, t, 0, N)
  {
  }

  // No other vector solves it.
  lemma {:induction false} EnhancementUnique(c: Subframe, r: Subframe, s: Subframe, t: nat, betaQ14: Word16, n: nat)
    requires 1 <= t < N && n <= N && Solves(c, r, t, betaQ14, n) && Solves(c, s, t, betaQ14, n)
    ensures r[..n] == s[..n]
  {
    if n > 0 {
      EnhancementUnique(c, r, s, t, betaQ14, n - 1);
      assert Sharpened(c, r, t, betaQ14, n - 1) && Sharpened(c, s, t, betaQ14, n - 1);
      if n - 1 >= t {
        assert r[..n - 1][n - 1 - t] == s[..n - 1][n - 1 - t];
      }
    }
  }

  // The vector both machines build: the four signed pulses, sharpened with the clamped gain.
  lemma CodeVectorLaw(p: Positions, signs: seq<Word16>, intLag: int, prevGpQ14: Word16)
    requires OnTracks(p) && |signs| == N
    ensures var pulses := Placed(p, SignsAt(p, signs), 4);
            var r := BuildCodeVector(p, signs, intLag, prevGpQ14);
            && (forall i | 0 <= i < 4 :: pulses[p[i]] == if signs[p[i]] > 0 then 8191 else -8192)
            && (forall n | 0 <= n < N && n !in p :: pulses[n] == 0)
            && (!(1 <= intLag < N) ==> r == pulses)
            && (1 <= intLag < N ==> Solves(pulses, r, intLag, Max(3277, Min(prevGpQ14, 13017)), N))
  {
    hide Placed, Enhanced, Solves, OnTracks;
    PulsesAt(p, SignsAt(p, signs));
    EnhancementLaw(Placed(p, SignsAt(p, signs), 4), intLag, ClampPitchGainForEnhancement(prevGpQ14));
  }

  // ---------- the lowest pulse survives ----------

  // The first non-zero sample of a vector, at p, is where it was after enhancement.
  predicate FirstNonZero(c: Subframe, p: nat) {
    p < N && c[p] != 0 && forall m | 0 <= m < p :: c[m] == 0
  }

  lemma DeltaZero(betaQ14: Word16)
    ensures Delta(betaQ14, 0) == 0
  {
    assert Pow2(1) == 2;
  }

  lemma {:induction false} EnhancementKeepsFirst(c: Subframe, t: int, betaQ14: Word16, n: nat, p: nat)
    requires 1 <= t <= n <= N && FirstNonZero(c, p)
    ensures EnhancedTo(c, t, betaQ14, n)[p] == c[p]
    ensures forall m | 0 <= m < p :: EnhancedTo(c, t, betaQ14, n)[m] == 0
    decreases n
  {
    hide Delta;
    if n > t {
      EnhancementKeepsFirst(c, t, betaQ14, n - 1, p);
      DeltaZero(betaQ14);
    }
  }

  lemma PulsesAt(p: Positions, plus: Signs)
    requires OnTracks(p)
    ensures var c := Placed(p, plus, 4);
            && (forall i | 0 <= i < 4 :: c[p[i]] == if plus[i] then PULSE_AMPLITUDE else NEGATIVE_PULSE_AMPLITUDE)
            && forall m | 0 <= m < N && m !in p :: c[m] == 0
  {
    var c1, c2, c3 := Placed(p, plus, 1), Placed(p, plus, 2), Placed(p, plus, 3);
    assert Placed(p, plus, 0) == ZeroSubframe();
    assert c1 == ZeroSubframe()[p[0] := Amplitude(plus[0])];
    assert c2 == c1[p[1] := Amplitude(plus[1])];
    assert c3 == c2[p[2] := Amplitude(plus[2])];
    assert Placed(p, plus, 4) == c3[p[3] := Amplitude(plus[3])];
  }

  function LowestPulse(p: Positions): nat {
    Min(Min(p[0], p[1]), Min(p[2], p[3]))
  }

  // Whatever the lag and the gain, the lowest pulse is in the enhanced vector with its full amplitude
  // and its own sign.
  lemma LowestPulseSurvives(p: Positions, plus: Signs, t: int, betaQ14: Word16)
    requires OnTracks(p)
    ensures var c := Enhanced(Placed(p, plus, 4), t, betaQ14);
            LowestPulse(p) < N
            && c[LowestPulse(p)] in [PULSE_AMPLITUDE, NEGATIVE_PULSE_AMPLITUDE]
            && forall i | 0 <= i < 4 && p[i] == LowestPulse(p) :: c[p[i]] > 0 <==> plus[i]
  {
    var c, low := Placed(p, plus, 4), LowestPulse(p);
    PulsesAt(p, plus);
    assert FirstNonZero(c, low);
    if 1 <= t < N && betaQ14 != 0 {
      EnhancementKeepsFirst(c, t, betaQ14, N, low);
    }
    AmplitudeAt(p, plus, 4, low);
  }

  lemma {:induction false} AmplitudeAt(p: Positions, plus: Signs, i: nat, m: nat)
    requires OnTracks(p) && i <= 4 && m < N
    ensures var a := Placed(p, plus, i)[m]; a == 0 || a == PULSE_AMPLITUDE || a == NEGATIVE_PULSE_AMPLITUDE
  {
    if i > 0 {
      AmplitudeAt(p, plus, i - 1, m);
    }
  }
}
