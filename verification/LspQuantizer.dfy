/** Reconstruction of the quantised line spectrum, sections 3.2.4 and 4.1.1 of ITU-T G.729: the
    receiver's MA predictor memory (internal/lsp/decoder.go, predictor.go, codebook.go, interpolate.go)
    and the encoder's own copy of it (internal/lsp/encoder_predictor.go, encoder_vq.go). */
module LspQuantizer {
  import opened Fixed
  import opened LsfStability
  import opened LsfLsp
  import opened LspToLp

  // Indices of one frame, as the 18 bits of L0..L3 carry them.
  datatype Indices = Indices(sel: nat, l1: nat, l2: nat, l3: nat)

  predicate LegalIndices(i: Indices) {
    i.sel < 2 && i.l1 < 128 && i.l2 < 32 && i.l3 < 32
  }

  // The three codebooks; nothing below depends on their contents.
  datatype Codebooks = Codebooks(first: seq<Lsf>, low: seq<seq<Word16>>, high: seq<seq<Word16>>)

  predicate Shaped(b: Codebooks) {
    && |b.first| == 128 && |b.low| == |b.high| == 32
    && forall j | 0 <= j < 32 :: |b.low[j]| == 5 && |b.high[j]| == 5
  }

  const ZERO: Lsf := [0, 0, 0, 0, 0, 0, 0, 0, 0, 0]

  type History = h: seq<Lsf> | |h| == 4 witness [ZERO, ZERO, ZERO, ZERO]

  // ---------- tables ----------

  // MA predictor coefficients of one tap (internal/tables/lsp_ma.go), Q15.
  function Predictor(sel: nat, tap: nat): Lsf
    requires sel < 2 && tap < 4
  {
    if sel == 0 then
      if tap == 0 then [8421, 9109, 9175, 8965, 9034, 9057, 8765, 8775, 9106, 8673]
      else if tap == 1 then [7018, 7189, 7638, 7307, 7444, 7379, 7038, 6956, 6930, 6868]
      else if tap == 2 then [5472, 4990, 5134, 5177, 5246, 5141, 5206, 5095, 4830, 5147]
      else [4056, 3031, 2614, 3024, 2916, 2713, 3309, 3237, 2857, 3473]
    else
      if tap == 0 then [7733, 7880, 8188, 8175, 8247, 8490, 8637, 8601, 8359, 7569]
      else if tap == 1 then [4210, 3031, 2552, 3473, 3876, 3853, 4184, 4154, 3909, 3968]
      else if tap == 2 then [3214, 1930, 1313, 2143, 2493, 2385, 2755, 2706, 2542, 2919]
      else [3024, 1592, 940, 1631, 1723, 1579, 2034, 2084, 1913, 2601]
  }

  // Complement of the predictor sums, Q15.
  function InvSum(sel: nat): Lsf
    requires sel < 2
  {
    if sel == 0 then [7798, 8447, 8205, 8293, 8126, 8477, 8447, 8703, 9043, 8604]
    else [14585, 18333, 19772, 17344, 16426, 16459, 15155, 15220, 16043, 15708]
  }

  // Its reciprocal, Q12.
  function InvSumReciprocal(sel: nat): Lsf
    requires sel < 2
  {
    if sel == 0 then [17210, 15888, 16357, 16183, 16516, 15833, 15888, 15421, 14840, 15597]
    else [9202, 7320, 6788, 7738, 8170, 8154, 8856, 8818, 8366, 8544]
  }

  const INITIAL_PREV_LSP: Lsp := [30000, 26000, 21000, 15000, 8000, 0, -8000, -15000, -21000, -26000]
  const INITIAL_PAST_RESIDUAL: Lsf := [2339, 4679, 7018, 9358, 11698, 14037, 16377, 18717, 21056, 23396]

  // ---------- one frame ----------

  function CombineResidual(b: Codebooks, l1: nat, l2: nat, l3: nat): Lsf
    requires Shaped(b) && l1 < 128 && l2 < 32 && l3 < 32
  {
    seq(10, i requires 0 <= i < 10 =>
      if i < 5 then Add(b.first[l1][i], b.low[l2][i]) else Add(b.first[l1][i], b.high[l3][i - 5]))
  }

  // What both sides install in their predictor memory.
  function Residual(b: Codebooks, i: Indices): Lsf
    requires Shaped(b) && LegalIndices(i)
  {
    RearrangeTwice(CombineResidual(b, i.l1, i.l2, i.l3))
  }

  function PredictedCoordinate(sel: nat, i: nat, residual: Word16, past: History): Word16
    requires sel < 2 && i < 10
  {
    var acc := LMac(0, InvSum(sel)[i], residual);
    var acc := LMac(acc, Predictor(sel, 0)[i], past[0][i]);
    var acc := LMac(acc, Predictor(sel, 1)[i], past[1][i]);
    var acc := LMac(acc, Predictor(sel, 2)[i], past[2][i]);
    ExtractH(LMac(acc, Predictor(sel, 3)[i], past[3][i]))
  }

  function Predicted(sel: nat, residual: Lsf, past: History): Lsf
    requires sel < 2
  {
    seq(10, i requires 0 <= i < 10 => PredictedCoordinate(sel, i, residual[i], past))
  }

  function Advanced(past: History, residual: Lsf): History {
    [residual, past[0], past[1], past[2]]
  }

  // The quantised LSF vector a set of indices stands for, given the memory.
  function QuantisedLsf(b: Codebooks, i: Indices, past: History): Lsf
    requires Shaped(b) && LegalIndices(i)
  {
    EnforceLsfStability(Predicted(i.sel, Residual(b, i), past))
  }

  function LspsOf(lsf: Lsf): Lsp {
    seq(10, i requires 0 <= i < 10 => LsfToLsp(lsf[i]))
  }

  function HalfSum(x: Word16, y: Word16): Word16 {
    (x as int) / 2 + (y as int) / 2
  }

  function Interpolated(prev: Lsp, curr: Lsp): Lsp {
    seq(10, i requires 0 <= i < 10 => HalfSum(prev[i], curr[i]))
  }

  // The receiver's state; a cold decoder is in the state Cold().
  datatype LspState = LspState(past: History, prevLsp: Lsp, prevLsf: Lsf, selector: nat)

  predicate LegalState(s: LspState) {
    s.selector < 2
  }

  function Cold(): LspState {
    LspState([INITIAL_PAST_RESIDUAL, INITIAL_PAST_RESIDUAL, INITIAL_PAST_RESIDUAL, INITIAL_PAST_RESIDUAL],
             INITIAL_PREV_LSP, INITIAL_PAST_RESIDUAL, 0)
  }

  function DecodeState(b: Codebooks, s: LspState, i: Indices): LspState
    requires Shaped(b) && LegalIndices(i)
  {
    var lsf := QuantisedLsf(b, i, s.past);
    LspState(Advanced(s.past, Residual(b, i)), LspsOf(lsf), lsf, i.sel)
  }

  // LP filters of the two subframes.
  function DecodeFilters(b: Codebooks, s: LspState, i: Indices): (r: (seq<Word16>, seq<Word16>))
    requires Shaped(b) && LegalIndices(i)
    ensures |r.0| == |r.1| == 11
  {
    var lsp := LspsOf(QuantisedLsf(b, i, s.past));
    (LspToLp.LspToLp(Interpolated(s.prevLsp, lsp)), LspToLp.LspToLp(lsp))
  }

  // The residual that would have produced the target, by reciprocal multiplication.
  function InverseCoordinate(sel: nat, i: nat, target: Word16, past: History): Word16
    requires sel < 2 && i < 10
  {
    var acc := LMsu(LDepositH(target), Predictor(sel, 0)[i], past[0][i]);
    var acc := LMsu(acc, Predictor(sel, 1)[i], past[1][i]);
    var acc := LMsu(acc, Predictor(sel, 2)[i], past[2][i]);
    var acc := LMsu(acc, Predictor(sel, 3)[i], past[3][i]);
    Sat16(((ExtractH(acc) as int) * InvSumReciprocal(sel)[i]) / 0x1000)
  }

  function InverseResidual(sel: nat, target: Lsf, past: History): Lsf
    requires sel < 2
  {
    seq(10, i requires 0 <= i < 10 => InverseCoordinate(sel, i, target[i], past))
  }

  function ErasureState(s: LspState): LspState
    requires LegalState(s)
  {
    s.(past := Advanced(s.past, InverseResidual(s.selector, s.prevLsf, s.past)))
  }

  function ErasureFilters(s: LspState): (r: (seq<Word16>, seq<Word16>))
    ensures |r.0| == |r.1| == 11
  {
    (LspToLp.LspToLp(Interpolated(s.prevLsp, s.prevLsp)), LspToLp.LspToLp(s.prevLsp))
  }

  // ---------- the receiver ----------

  class Decoder {
    const pastResiduals: array<Lsf>
    var prevLSP: Lsp
    var prevLSF: Lsf
    var lastSelector: nat
    var initialized: bool

    ghost predicate Valid()
      reads this
    {
      pastResiduals.Length == 4 && lastSelector < 2 && (initialized || lastSelector == 0)
    }

    ghost function View(): (s: LspState)
      requires Valid()
      reads this, pastResiduals
      ensures LegalState(s)
    {
      if initialized then LspState(pastResiduals[..], prevLSP, prevLSF, lastSelector) else Cold()
    }

    constructor ()
      ensures Valid() && fresh(pastResiduals) && View() == Cold()
    {
      pastResiduals := new Lsf[4](_ => ZERO);
      prevLSP, prevLSF := ZERO, ZERO;
      lastSelector := 0;
      initialized := false;
    }

    method Initialise()
      requires Valid()
      modifies this, pastResiduals
      ensures Valid() && initialized && View() == old(View())
    {
      if !initialized {
        for k := 0 to 4
          invariant pastResiduals.Length == 4
          invariant forall j | 0 <= j < k :: pastResiduals[j] == INITIAL_PAST_RESIDUAL
          invariant this.lastSelector == old(this.lastSelector) && !initialized
        {
          pastResiduals[k] := INITIAL_PAST_RESIDUAL;
        }
        prevLSP, prevLSF := INITIAL_PREV_LSP, INITIAL_PAST_RESIDUAL;
        initialized := true;
      }
    }

    method Push(residual: Lsf)
      requires Valid() && initialized
      modifies pastResiduals
      ensures pastResiduals[..] == Advanced(old(pastResiduals[..]), residual)
    {
      pastResiduals[3] := pastResiduals[2];
      pastResiduals[2] := pastResiduals[1];
      pastResiduals[1] := pastResiduals[0];
      pastResiduals[0] := residual;
    }

    method ApplyPredictor(selector: nat, residual: Lsf) returns (lsf: array<Word16>)
      requires Valid() && initialized && selector < 2
      modifies pastResiduals
      ensures fresh(lsf) && lsf.Length == 10
      ensures lsf[..] == Predicted(selector, residual, old(pastResiduals[..]))
      ensures pastResiduals[..] == Advanced(old(pastResiduals[..]), residual)
    {
      hide PredictedCoordinate;
      lsf := new Word16[10](_ => 0);
      for i := 0 to 10
        invariant pastResiduals[..] == old(pastResiduals[..])
        invariant forall j | 0 <= j < i :: lsf[j] == PredictedCoordinate(selector, j, residual[j], pastResiduals[..])
      {
        lsf[i] := PredictedCoordinate(selector, i, residual[i], pastResiduals[..]);
      }
      Push(residual);
    }

    method Decode(b: Codebooks, idx: Indices) returns (sf1: seq<Word16>, sf2: seq<Word16>)
      requires Valid() && Shaped(b) && LegalIndices(idx)
      modifies this, pastResiduals
      ensures Valid() && initialized
      ensures View() == DecodeState(b, old(View()), idx)
      ensures (sf1, sf2) == DecodeFilters(b, old(View()), idx)
    {
      hide CombineResidual, RearrangeTwice, Predicted, EnforceLsfStability, LspToLp.LspToLp, Interpolated, LsfToLsp;
      Initialise();
      var residual := new Word16[10](i => 0);
      ReadResidual(b, idx, residual);
      var lsf := ApplyPredictor(idx.sel, residual[..]);
      EnforceLsfStabilityInPlace(lsf);
      var lsp := LspsOf(lsf[..]);
      sf1, sf2 := LspToLp.LspToLp(Interpolated(prevLSP, lsp)), LspToLp.LspToLp(lsp);
      prevLSP, prevLSF, lastSelector := lsp, lsf[..], idx.sel;
    }

    method DecodeErasure() returns (sf1: seq<Word16>, sf2: seq<Word16>)
      requires Valid()
      modifies this, pastResiduals
      ensures Valid() && initialized
      ensures View() == ErasureState(old(View()))
      ensures (sf1, sf2) == ErasureFilters(old(View()))
    {
      hide InverseResidual, LspToLp.LspToLp, Interpolated;
      Initialise();
      Push(InverseResidual(lastSelector, prevLSF, pastResiduals[..]));
      sf1, sf2 := LspToLp.LspToLp(Interpolated(prevLSP, prevLSP)), LspToLp.LspToLp(prevLSP);
    }
  }

  // Codebook sums, rearranged twice in place.
  method ReadResidual(b: Codebooks, idx: Indices, residual: array<Word16>)
    requires Shaped(b) && LegalIndices(idx) && residual.Length == 10
    modifies residual
    ensures residual[..] == Residual(b, idx)
  {
    hide Add, RearrangeTo;
    for i := 0 to 5
      invariant forall j | 0 <= j < i :: residual[j] == CombineResidual(b, idx.l1, idx.l2, idx.l3)[j]
    {
      residual[i] := Add(b.first[idx.l1][i], b.low[idx.l2][i]);
    }
    for i := 5 to 10
      invariant forall j | 0 <= j < i :: residual[j] == CombineResidual(b, idx.l1, idx.l2, idx.l3)[j]
    {
      residual[i] := Add(b.first[idx.l1][i], b.high[idx.l3][i - 5]);
    }
    assert residual[..] == CombineResidual(b, idx.l1, idx.l2, idx.l3);
    RearrangeAdjacent(residual, LSF_REARR_J1);
    RearrangeAdjacent(residual, LSF_REARR_J2);
  }

  // ---------- the encoder's copy ----------

  function WeightedCost(weights: seq<nat>, omega: Lsf, lsf: Lsf, n: nat): nat
    requires |weights| == 10 && n <= 10
  {
    if n == 0 then 0
    else
      var d := (omega[n - 1] as int) - lsf[n - 1];
      WeightedCost(weights, omega, lsf, n - 1) + weights[n - 1] * (d * d)
  }

  // The outer loop of Quantize. What the three codebook searches propose for each predictor is an
  // input; the loop measures both proposals, keeps the better one and commits its residual.
  method Quantize(b: Codebooks, proposals: seq<Indices>, weights: seq<nat>, omega: Lsf, freqPrev: array<Lsf>)
    returns (best: Indices)
    requires Shaped(b) && |weights| == 10 && freqPrev.Length == 4 && |proposals| == 2
    requires forall s | 0 <= s < 2 :: LegalIndices(proposals[s]) && proposals[s].sel == s
    modifies freqPrev
    ensures best in proposals && LegalIndices(best)
    ensures freqPrev[..] == Advanced(old(freqPrev[..]), Residual(b, best))
    ensures forall s | 0 <= s < 2 ::
      Better(WeightedCost(weights, omega, QuantisedLsf(b, best, old(freqPrev[..])), 10), best.sel,
             WeightedCost(weights, omega, QuantisedLsf(b, proposals[s], old(freqPrev[..])), 10), s)
  {
    hide PredictedCoordinate, RearrangeTwice, EnforceLsfStability, CombineResidual;
    ghost var past: History := freqPrev[..];
    best := proposals[0];
    var bestCost: int := -1;
    var bestResidual: Lsf := ZERO;
    for sel := 0 to 2
      invariant freqPrev[..] == past
      invariant sel == 0 ==> bestCost == -1
      invariant sel > 0 ==> best in proposals[..sel] && best.sel < sel && bestResidual == Residual(b, best)
      invariant sel > 0 ==> bestCost == WeightedCost(weights, omega, QuantisedLsf(b, best, past), 10)
      invariant forall s | 0 <= s < sel ::
        Better(bestCost, best.sel, WeightedCost(weights, omega, QuantisedLsf(b, proposals[s], past), 10), s)
    {
      var residual := new Word16[10](i => 0);
      var cost := MeasureProposal(b, proposals[sel], weights, omega, freqPrev, residual);
      if bestCost < 0 || cost < bestCost {
        bestCost := cost;
        best := proposals[sel];
        bestResidual := residual[..];
      }
    }
    CommitPredictorMemory(freqPrev, bestResidual);
  }

  // a at position i is chosen over b at position j: smaller, or equal and not later.
  predicate Better(a: int, i: nat, b: int, j: nat) {
    a < b || (a == b && i <= j)
  }

  method MeasureProposal(b: Codebooks, p: Indices, weights: seq<nat>, omega: Lsf, mem: array<Lsf>,
                         residual: array<Word16>)
    returns (cost: nat)
    requires Shaped(b) && LegalIndices(p) && |weights| == 10 && mem.Length == 4 && residual.Length == 10
    modifies residual
    ensures residual[..] == Residual(b, p)
    ensures cost == WeightedCost(weights, omega, QuantisedLsf(b, p, mem[..]), 10)
  {
    hide PredictedCoordinate, RearrangeTwice, EnforceLsfStability, CombineResidual;
    ReadResidual(b, p, residual);
    var omegaHat := ApplyPredictorWithMemory(p.sel, mem, residual[..]);
    EnforceLsfStabilityInPlace(omegaHat);
    cost := 0;
    for i := 0 to 10
      invariant omegaHat[..] == QuantisedLsf(b, p, mem[..]) && residual[..] == Residual(b, p)
      invariant cost == WeightedCost(weights, omega, QuantisedLsf(b, p, mem[..]), i)
    {
      var d := (omega[i] as int) - omegaHat[i];
      cost := cost + weights[i] * (d * d);
    }
  }

  method ApplyPredictorWithMemory(selector: nat, mem: array<Lsf>, residual: Lsf) returns (out: array<Word16>)
    requires selector < 2 && mem.Length == 4
    ensures fresh(out) && out.Length == 10
    ensures out[..] == Predicted(selector, residual, mem[..])
  {
    hide PredictedCoordinate;
    out := new Word16[10](_ => 0);
    for i := 0 to 10
      invariant forall j | 0 <= j < i :: out[j] == PredictedCoordinate(selector, j, residual[j], mem[..])
    {
      out[i] := PredictedCoordinate(selector, i, residual[i], mem[..]);
    }
  }

  method CommitPredictorMemory(mem: array<Lsf>, residual: Lsf)
    requires mem.Length == 4
    modifies mem
    ensures mem[..] == Advanced(old(mem[..]), residual)
  {
    mem[3] := mem[2];
    mem[2] := mem[1];
    mem[1] := mem[0];
    mem[0] := residual;
  }

  // ---------- properties ----------

  // The weights of one coordinate never add up past one, so no accumulation of the predictor
  // saturates and the result is the floor of the exact Q28 sum.
  lemma PredictorExact(sel: nat, i: nat, residual: Word16, past: History)
    requires sel < 2 && i < 10
    ensures PredictedCoordinate(sel, i, residual, past) as int
            == (InvSum(sel)[i] as int * residual
                + Predictor(sel, 0)[i] as int * past[0][i] + Predictor(sel, 1)[i] as int * past[1][i]
                + Predictor(sel, 2)[i] as int * past[2][i] + Predictor(sel, 3)[i] as int * past[3][i]) / 0x8000
  {
    CoefficientSum(sel, i);
    ChainExact(InvSum(sel)[i], Predictor(sel, 0)[i], Predictor(sel, 1)[i], Predictor(sel, 2)[i], Predictor(sel, 3)[i],
               residual, past[0][i], past[1][i], past[2][i], past[3][i]);
  }

  lemma CoefficientSum(sel: nat, i: nat)
    requires sel < 2 && i < 10
    ensures InvSum(sel)[i] >= 0
    ensures forall tap | 0 <= tap < 4 :: Predictor(sel, tap)[i] >= 0
    ensures (InvSum(sel)[i] as int) + Predictor(sel, 0)[i] + Predictor(sel, 1)[i] + Predictor(sel, 2)[i]
            + Predictor(sel, 3)[i]
            <= 32767
  {
  }

  lemma ChainExact(c: Word16, p0: Word16, p1: Word16, p2: Word16, p3: Word16,
                   r: Word16, x0: Word16, x1: Word16, x2: Word16, x3: Word16)
    requires c >= 0 && p0 >= 0 && p1 >= 0 && p2 >= 0 && p3 >= 0
    requires (c as int) + p0 + p1 + p2 + p3 <= 32767
    ensures ExtractH(LMac(LMac(LMac(LMac(LMac(0, c, r), p0, x0), p1, x1), p2, x2), p3, x3)) as int
            == (c as int * r + p0 as int * x0 + p1 as int * x1 + p2 as int * x2 + p3 as int * x3) / 0x8000
  {
    MacExact(0, c, r, 0);
    MacExact(2 * (c as int * r), p0, x0, c);
    MacExact(2 * (c as int * r + p0 as int * x0), p1, x1, (c as int) + p0);
    MacExact(2 * (c as int * r + p0 as int * x0 + p1 as int * x1), p2, x2, (c as int) + p0 + p1);
    MacExact(2 * (c as int * r + p0 as int * x0 + p1 as int * x1 + p2 as int * x2), p3, x3, (c as int) + p0 + p1 + p2);
    hide LMac;
  }

  lemma MacExact(acc: int, p: Word16, x: Word16, used: int)
    requires p >= 0 && used >= 0 && used + p <= 32767 && Abs(acc) <= used * 0x1_0000
    ensures Abs(acc + 2 * (p as int * x)) <= (used + p) * 0x1_0000
    ensures LMac(acc, p, x) as int == acc + 2 * (p as int * x)
  {
    MulAbsLe(x, p, 0x8000, p);
  }

  // Stable angles give strictly falling line spectral pairs.
  lemma StableFalls(lsf: Lsf, i: nat)
    requires Stable(lsf) && i < 9
    ensures LspsOf(lsf)[i + 1] < LspsOf(lsf)[i]
  {
    hide LsfToLsp;
    StableOrdered(lsf, 0, i);
    StableOrdered(lsf, i + 1, 9);
    assert Spaced(lsf[i], lsf[i + 1]);
    AngleFalls(lsf[i], lsf[i + 1]);
  }

  // Whatever the indices and the memory, the receiver's new line spectrum is stable and ordered.
  lemma DecodedSpectrumOrdered(b: Codebooks, s: LspState, i: Indices, k: nat)
    requires Shaped(b) && LegalIndices(i) && k < 9
    ensures Stable(DecodeState(b, s, i).prevLsf)
    ensures DecodeState(b, s, i).prevLsp[k + 1] < DecodeState(b, s, i).prevLsp[k]
  {
    hide EnforceLsfStability, Predicted, Residual;
    EnforceStable(Predicted(i.sel, Residual(b, i), s.past));
    StableFalls(QuantisedLsf(b, i, s.past), k);
  }

  // ---------- the inverse predictor ----------

  // The target less the contributions of the first taps of the memory, in Q16.
  function RemainderTo(sel: nat, i: nat, target: Word16, past: History, taps: nat): int
    requires sel < 2 && i < 10 && taps <= 4
  {
    if taps == 0 then 0x1_0000 * (target as int)
    else
      RemainderTo(sel, i, target, past, taps - 1)
      - 2 * ((Predictor(sel, taps - 1)[i] as int) * past[taps - 1][i])
  }

  predicate RemaindersFit(sel: nat, i: nat, target: Word16, past: History)
    requires sel < 2 && i < 10
  {
    forall taps | 0 <= taps <= 4 :: MIN32 <= RemainderTo(sel, i, target, past, taps) <= MAX32
  }

  lemma ReciprocalNear(sel: nat, i: nat)
    requires sel < 2 && i < 10
    ensures Abs(InvSum(sel)[i] as int * InvSumReciprocal(sel)[i] - 0x800_0000) <= 21140
    ensures 0 < InvSum(sel)[i] <= 19772
  {
  }

  // The inverse without its saturations.
  function ExactInverse(sel: nat, i: nat, target: Word16, past: History): int
    requires sel < 2 && i < 10
  {
    (RemainderTo(sel, i, target, past, 4) / 0x1_0000 * InvSumReciprocal(sel)[i]) / 0x1000
  }

  lemma SubtractTap(acc: int, p: Word16, x: Word16)
    requires p >= 0 && MIN32 <= acc <= MAX32 && MIN32 <= acc - 2 * (p as int * x) <= MAX32
    ensures LMsu(acc, p, x) as int == acc - 2 * (p as int * x)
  {
    MulAbsLe(p, x, 0x7FFF, 0x8000);
  }

  lemma RemainderStep(sel: nat, i: nat, target: Word16, past: History, taps: nat)
    requires sel < 2 && i < 10 && taps < 4
    ensures RemainderTo(sel, i, target, past, taps + 1)
            == RemainderTo(sel, i, target, past, taps) - 2 * ((Predictor(sel, taps)[i] as int) * past[taps][i])
  {
    hide Predictor;
  }

  lemma Subtracted(sel: nat, i: nat, target: Word16, past: History, taps: nat)
    requires sel < 2 && i < 10 && taps < 4 && RemaindersFit(sel, i, target, past)
    ensures MIN32 <= RemainderTo(sel, i, target, past, taps) <= MAX32
    ensures LMsu(RemainderTo(sel, i, target, past, taps), Predictor(sel, taps)[i], past[taps][i]) as int
            == RemainderTo(sel, i, target, past, taps + 1)
  {
    CoefficientSum(sel, i);
    RemainderStep(sel, i, target, past, taps);
    hide Predictor, LMsu, RemainderTo;
    assert MIN32 <= RemainderTo(sel, i, target, past, taps + 1) <= MAX32;
    SubtractTap(RemainderTo(sel, i, target, past, taps), Predictor(sel, taps)[i], past[taps][i]);
  }

  lemma InverseExact(sel: nat, i: nat, target: Word16, past: History)
    requires sel < 2 && i < 10 && RemaindersFit(sel, i, target, past)
    ensures InverseCoordinate(sel, i, target, past) == Sat16(ExactInverse(sel, i, target, past))
  {
    assert RemainderTo(sel, i, target, past, 0) == 0x1_0000 * (target as int);
    hide Predictor, LMsu, InvSumReciprocal, RemainderTo, RemaindersFit;
    Subtracted(sel, i, target, past, 0);
    Subtracted(sel, i, target, past, 1);
    Subtracted(sel, i, target, past, 2);
    Subtracted(sel, i, target, past, 3);
  }

  // Predicting from the inverse residual gives the target back to a few units of the reciprocal's rounding,
  // wherever neither the subtractions nor the residual saturate.
  lemma InverseNear(sel: nat, i: nat, target: Word16, past: History)
    requires sel < 2 && i < 10 && RemaindersFit(sel, i, target, past)
    requires MIN16 <= ExactInverse(sel, i, target, past) <= MAX16
    ensures -7 <= (PredictedCoordinate(sel, i, InverseCoordinate(sel, i, target, past), past) as int) - target <= 5
  {
    InverseExact(sel, i, target, past);
    var r := ExactInverse(sel, i, target, past);
    PredictorExact(sel, i, r, past);
    ReciprocalNear(sel, i);
    var rest := RemainderTo(sel, i, target, past, 4);
    var s := MemoryShare(sel, i, target, past);
    hide Predictor, InvSum, InvSumReciprocal, RemainderTo, RemaindersFit, PredictedCoordinate, InverseCoordinate;
    NearTarget(InvSum(sel)[i], InvSumReciprocal(sel)[i], rest, r, target, s);
  }

  lemma MemoryShare(sel: nat, i: nat, target: Word16, past: History) returns (s: int)
    requires sel < 2 && i < 10
    ensures s == Predictor(sel, 0)[i] as int * past[0][i] + Predictor(sel, 1)[i] as int * past[1][i]
                 + Predictor(sel, 2)[i] as int * past[2][i] + Predictor(sel, 3)[i] as int * past[3][i]
    ensures RemainderTo(sel, i, target, past, 4) == 0x1_0000 * (target as int) - 2 * s
  {
    hide Predictor;
    s := Predictor(sel, 0)[i] as int * past[0][i] + Predictor(sel, 1)[i] as int * past[1][i]
         + Predictor(sel, 2)[i] as int * past[2][i] + Predictor(sel, 3)[i] as int * past[3][i];
    assert RemainderTo(sel, i, target, past, 0) == 0x1_0000 * (target as int);
    hide RemainderTo;
    RemainderStep(sel, i, target, past, 0);
    RemainderStep(sel, i, target, past, 1);
    RemainderStep(sel, i, target, past, 2);
    RemainderStep(sel, i, target, past, 3);
  }

  lemma NearTarget(inv: int, rec: int, rest: int, r: int, t: int, s: int)
    requires 0 < inv <= 19772 && Abs(inv * rec - 0x800_0000) <= 21140
    requires MIN32 <= rest <= MAX32 && rest == 0x1_0000 * t - 2 * s && r == (rest / 0x1_0000 * rec) / 0x1000
    ensures -7 <= (inv * r + s) / 0x8000 - t <= 5
  {
    var q, rho := rest / 0x1_0000, rest % 0x1_0000;
    var sigma := q * rec - 0x1000 * r;
    MulAbsLe(q, inv * rec - 0x800_0000, 0x8000, 21140);
    MulMono(0, sigma, inv);
    MulMono(sigma, 0x1000, inv);
    Regrouped(inv, rec, q, r);
    NearLinear(inv * r, q * (inv * rec - 0x800_0000), inv * sigma, q, rho, t, s);
  }

  lemma Regrouped(inv: int, rec: int, q: int, r: int)
    ensures 0x1000 * (inv * r) == 0x800_0000 * q + q * (inv * rec - 0x800_0000) - inv * (q * rec - 0x1000 * r)
  {
    assert inv * (q * rec) == q * (inv * rec);
    assert inv * (q * rec - 0x1000 * r) == inv * (q * rec) - 0x1000 * (inv * r);
  }

  lemma NearLinear(x: int, e: int, w: int, q: int, rho: int, t: int, s: int)
    requires 0x1000 * x == 0x800_0000 * q + e - w && Abs(e) <= 0x8000 * 21140 && 0 <= w <= 0x1000 * 19772
    requires 0 <= rho < 0x1_0000 && 0x1_0000 * q + rho == 0x1_0000 * t - 2 * s
    ensures -7 <= (x + s) / 0x8000 - t <= 5
  {
  }
}
