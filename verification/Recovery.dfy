/** The other way out of step: overflow recovery in the receiver's synthesis filter (internal/decoder/subframe.go,
    internal/synth/filter.go) rescales a history the encoder keeps. A run of two frames from the cold start, with
    rows of the standard's codebooks (internal/tables/lsp_l1.go, lsp_l2.go, lsp_l3.go), in which nothing is tamed,
    three subframes stay in step and the fourth does not. */
module Recovery {
  import opened AdaptiveBands
  import opened Fixed
  import opened Codec
  import opened LockStep
  import opened LsfStability
  import opened LsfLsp
  import A = AdaptiveCodebook
  import F = FixedCodebook
  import G = Gain
  import L = LspQuantizer
  import LP = LspToLp
  import P = PitchCodes
  import S = Synthesis
  import T = Taming

  // ---------- the run ----------

  // Pulses at 0 to 3, the longest whole delay, the gain pair of the loudest correction factor.
  function Burst(): (ch: Choice)
    ensures LegalChoice(ch)
  {
    Choice(143, 0, [0, 1, 2, 3], seq(40, _ => 1), 7, 11)
  }

  const FIRST: L.Indices := L.Indices(0, 121, 28, 24)
  const SECOND: L.Indices := L.Indices(1, 35, 18, 2)

  function FirstFrame(): FrameChoice {
    FrameChoice(FIRST, Burst(), Burst())
  }

  function SecondFrame(): FrameChoice {
    FrameChoice(SECOND, Burst(), Burst())
  }

  // The six codebook rows the two frames use.
  predicate StandardRows(b: L.Codebooks)
    requires L.Shaped(b)
  {
    && b.first[121] == [1187, 2227, 4737, 7214, 9622, 12633, 15404, 17968, 20262, 23533]
    && b.low[28] == [334, 1475, 632, -80, 48] && b.high[24] == [-267, -525, 140, 882, -139]
    && b.first[35] == [1438, 2102, 2663, 3462, 8328, 10362, 13763, 17248, 19732, 22344]
    && b.low[18] == [-15, 66, 468, 1019, -748] && b.high[2] == [-163, -526, -754, -1633, 267]
  }

  lemma FramesAreLegal()
    ensures LegalFrame(FirstFrame()) && LegalFrame(SecondFrame())
  {
  }

  // ---------- the two spectra ----------

  const RESIDUAL1: Lsf := [1521, 3702, 5369, 7134, 9670, 12366, 14879, 18108, 21144, 23394]
  const RESIDUAL2: Lsf := [1423, 2168, 3131, 4481, 7580, 10199, 13237, 16494, 18099, 22611]
  const LSF1: Lsf := [2144, 4426, 6604, 8794, 11194, 13604, 15989, 18554, 21079, 23393]
  const LSF2: Lsf := [1738, 3038, 4259, 6221, 9122, 11675, 14528, 17522, 19629, 23017]
  const LSP1: LP.Lsp := [31645, 28102, 22678, 15632, 6650, -2937, -12183, -20955, -27606, -31431]
  const LSP2: LP.Lsp := [32025, 30531, 28431, 23759, 14464, 4758, -6590, -17621, -24072, -30974]

  lemma PairKept(s: Lsf, J: Word16, i: nat)
    requires 1 <= i < 10 && J <= s[i] as int - s[i - 1] <= MAX16
    ensures RearrangePair(s, J, i) == s
  {
  }

  lemma {:induction false} SpacedUnchanged(s: Lsf, J: Word16, n: nat)
    requires 1 <= n <= 10 && forall i | 1 <= i < 10 :: J <= s[i] as int - s[i - 1] <= MAX16
    ensures RearrangeTo(s, J, n) == s
  {
    hide RearrangePair;
    if n > 1 {
      SpacedUnchanged(s, J, n - 1);
      PairKept(s, J, n - 1);
    }
  }

  // Already as far apart as both rearrangements want.
  predicate Apart(r: Lsf) {
    forall k | 1 <= k < 10 :: LSF_REARR_J1 <= r[k] as int - r[k - 1] <= MAX16
  }

  lemma BothApart()
    ensures Apart(RESIDUAL1) && Apart(RESIDUAL2)
  {
    FirstApart();
    SecondApart();
    hide Apart;
  }

  lemma FirstApart()
    ensures Apart(RESIDUAL1)
  {
  }

  lemma SecondApart()
    ensures Apart(RESIDUAL2)
  {
  }

  lemma ResidualIs(b: L.Codebooks, i: L.Indices, r: Lsf)
    requires L.Shaped(b) && L.LegalIndices(i) && L.CombineResidual(b, i.l1, i.l2, i.l3) == r
    requires Apart(r)
    ensures L.Residual(b, i) == r
  {
    SpacedUnchanged(r, LSF_REARR_J1, 10);
    SpacedUnchanged(r, LSF_REARR_J2, 10);
  }

  lemma Residuals(b: L.Codebooks)
    requires L.Shaped(b) && StandardRows(b)
    ensures L.Residual(b, FIRST) == RESIDUAL1 && L.Residual(b, SECOND) == RESIDUAL2
  {
    hide L.CombineResidual, StandardRows, L.Residual, Apart, RESIDUAL1, RESIDUAL2;
    CombinedFirst(b);
    CombinedSecond(b);
    BothApart();
    ResidualIs(b, FIRST, RESIDUAL1);
    ResidualIs(b, SECOND, RESIDUAL2);
  }

  lemma CombinedFirst(b: L.Codebooks)
    requires L.Shaped(b) && StandardRows(b)
    ensures L.CombineResidual(b, FIRST.l1, FIRST.l2, FIRST.l3) == RESIDUAL1
  {
  }

  lemma CombinedSecond(b: L.Codebooks)
    requires L.Shaped(b) && StandardRows(b)
    ensures L.CombineResidual(b, SECOND.l1, SECOND.l2, SECOND.l3) == RESIDUAL2
  {
  }

  lemma FirstAngle(i: nat)
    requires i < 10
    ensures L.PredictedCoordinate(0, i, RESIDUAL1[i], L.Cold().past) == LSF1[i]
  {
    hide L.PredictedCoordinate;
    L.PredictorExact(0, i, RESIDUAL1[i], L.Cold().past);
    if i < 3 {
    } else if i < 6 {
    } else {
    }
  }

  lemma SecondAngle(i: nat)
    requires i < 10
    ensures L.PredictedCoordinate(1, i, RESIDUAL2[i], L.Advanced(L.Cold().past, RESIDUAL1)) == LSF2[i]
  {
    hide L.PredictedCoordinate;
    L.PredictorExact(1, i, RESIDUAL2[i], L.Advanced(L.Cold().past, RESIDUAL1));
    if i < 3 {
    } else if i < 6 {
    } else {
    }
  }

  lemma Spectra(b: L.Codebooks)
    requires L.Shaped(b) && StandardRows(b)
    ensures L.QuantisedLsf(b, FIRST, L.Cold().past) == LSF1
    ensures L.QuantisedLsf(b, SECOND, L.Advanced(L.Cold().past, RESIDUAL1)) == LSF2
  {
    hide StandardRows, L.PredictedCoordinate, L.Residual, L.Cold, L.Advanced, EnforceLsfStability;
    Residuals(b);
    assert L.Predicted(0, RESIDUAL1, L.Cold().past) == LSF1 by {
      forall i | 0 <= i < 10
        ensures L.PredictedCoordinate(0, i, RESIDUAL1[i], L.Cold().past) == LSF1[i]
      {
        FirstAngle(i);
      }
    }
    assert L.Predicted(1, RESIDUAL2, L.Advanced(L.Cold().past, RESIDUAL1)) == LSF2 by {
      forall i | 0 <= i < 10
        ensures L.PredictedCoordinate(1, i, RESIDUAL2[i], L.Advanced(L.Cold().past, RESIDUAL1)) == LSF2[i]
      {
        SecondAngle(i);
      }
    }
    EnforceFixpoint(LSF1);
    EnforceFixpoint(LSF2);
  }

  lemma LspAt(omega: nat, q: nat, base: int, slope: int)
    requires q < 16384 && q * 0x8000 <= omega * LSF_TO_COS_SCALE_Q15 < (q + 1) * 0x8000
    requires CosLsp(q / 256) == base && CosLspSlope(q / 256) == slope
    ensures LsfToLsp(omega) == Sat16(base + (slope * (q % 256)) / 4096)
  {
    hide CosLsp, CosLspSlope;
    assert Coordinate(omega) == q;
    hide Coordinate;
  }

  lemma FirstLowCells()
    ensures CosLsp(5) == 31786 && CosLspSlope(5) == -6863
    ensures CosLsp(11) == 28106 && CosLspSlope(11) == -13767
    ensures CosLsp(16) == 23170 && CosLspSlope(16) == -18637
    ensures CosLsp(21) == 16846 && CosLspSlope(21) == -22390
    ensures CosLsp(27) == 7962 && CosLspSlope(27) == -25108
  {
  }

  lemma FirstLow()
    ensures LsfToLsp(2144) == 31645
    ensures LsfToLsp(4426) == 28102
    ensures LsfToLsp(6604) == 22678
    ensures LsfToLsp(8794) == 15632
    ensures LsfToLsp(11194) == 6650
  {
    FirstLowCells();
    hide LsfToLsp, CosLsp, CosLspSlope;
    LspAt(2144, 1364, 31786, -6863);
    LspAt(4426, 2817, 28106, -13767);
    LspAt(6604, 4204, 23170, -18637);
    LspAt(8794, 5598, 16846, -22390);
    LspAt(11194, 7126, 7962, -25108);
  }

  lemma FirstHighCells()
    ensures CosLsp(33) == -1608 && CosLspSlope(33) == -25664
    ensures CosLsp(39) == -11039 && CosLspSlope(39) == -24009
    ensures CosLsp(46) == -20788 && CosLspSlope(46) == -19486
    ensures CosLsp(52) == -27246 && CosLspSlope(52) == -13767
    ensures CosLsp(58) == -31357 && CosLspSlope(58) == -6863
  {
  }

  lemma FirstHigh()
    ensures LsfToLsp(13604) == -2937
    ensures LsfToLsp(15989) == -12183
    ensures LsfToLsp(18554) == -20955
    ensures LsfToLsp(21079) == -27606
    ensures LsfToLsp(23393) == -31431
  {
    FirstHighCells();
    hide LsfToLsp, CosLsp, CosLspSlope;
    LspAt(13604, 8660, -1608, -25664);
    LspAt(15989, 10179, -11039, -24009);
    LspAt(18554, 11811, -20788, -19486);
    LspAt(21079, 13419, -27246, -13767);
    LspAt(23393, 14892, -31357, -6863);
  }

  lemma FirstLsps()
    ensures L.LspsOf(LSF1) == LSP1
  {
    hide LsfToLsp;
    FirstLow();
    FirstHigh();
    assert L.LspsOf(LSF1) == LSP1;
  }

  lemma SecondLowCells()
    ensures CosLsp(4) == 32138 && CosLspSlope(4) == -5638
    ensures CosLsp(7) == 30853 && CosLspSlope(7) == -9261
    ensures CosLsp(10) == 28899 && CosLspSlope(10) == -12684
    ensures CosLsp(15) == 24279 && CosLspSlope(15) == -17744
    ensures CosLsp(22) == 15447 && CosLspSlope(22) == -22986
  {
  }

  lemma SecondLow()
    ensures LsfToLsp(1738) == 32025
    ensures LsfToLsp(3038) == 30531
    ensures LsfToLsp(4259) == 28431
    ensures LsfToLsp(6221) == 23759
    ensures LsfToLsp(9122) == 14464
  {
    SecondLowCells();
    hide LsfToLsp, CosLsp, CosLspSlope;
    LspAt(1738, 1106, 32138, -5638);
    LspAt(3038, 1934, 30853, -9261);
    LspAt(4259, 2711, 28899, -12684);
    LspAt(6221, 3960, 24279, -17744);
    LspAt(9122, 5807, 15447, -22986);
  }

  lemma SecondHighCells()
    ensures CosLsp(29) == 4808 && CosLspSlope(29) == -25540
    ensures CosLsp(36) == -6393 && CosLspSlope(36) == -25108
    ensures CosLsp(43) == -16846 && CosLspSlope(43) == -21741
    ensures CosLsp(48) == -23170 && CosLspSlope(48) == -17744
    ensures CosLsp(57) == -30853 && CosLspSlope(57) == -8072
  {
  }

  lemma SecondHigh()
    ensures LsfToLsp(11675) == 4758
    ensures LsfToLsp(14528) == -6590
    ensures LsfToLsp(17522) == -17621
    ensures LsfToLsp(19629) == -24072
    ensures LsfToLsp(23017) == -30974
  {
    SecondHighCells();
    hide LsfToLsp, CosLsp, CosLspSlope;
    LspAt(11675, 7432, 4808, -25540);
    LspAt(14528, 9248, -6393, -25108);
    LspAt(17522, 11154, -16846, -21741);
    LspAt(19629, 12496, -23170, -17744);
    LspAt(23017, 14653, -30853, -8072);
  }

  lemma SecondLsps()
    ensures L.LspsOf(LSF2) == LSP2
  {
    hide LsfToLsp;
    SecondLow();
    SecondHigh();
    assert L.LspsOf(LSF2) == LSP2;
  }

  // ---------- the four filters ----------

  const BETWEEN1: LP.Lsp := [30822, 27051, 21839, 15316, 7325, -1469, -10092, -17978, -24303, -28716]
  const BETWEEN2: LP.Lsp := [31834, 29316, 25554, 19695, 10557, 910, -9387, -19289, -25839, -31203]

  const FILTER1: S.LpcQ12 := [4096, -2474, 2820, -1825, 2298, -1513, 1513, -930, 755, -321, 173]
  const FILTER2: S.LpcQ12 := [4096, -1199, -238, 289, -86, 39, 10, -141, 20, -3, -1]
  const FILTER3: S.LpcQ12 := [4096, -4018, 844, 235, 183, -43, 17, 160, -419, 294, -65]
  const FILTER4: S.LpcQ12 := [4096, -6839, 3333, -366, 531, -343, -103, 762, -1170, 686, -130]

  // f is the polynomial of the factors qs, one factor at a time.
  predicate Grows(qs: seq<Word16>, f1: LP.Half, f2: LP.Half, f3: LP.Half, f4: LP.Half, f5: LP.Half) {
    && |qs| == 5 && f1 == [LP.ONE_Q24, -LP.LspPolyProductQ24(qs[0], LP.ONE_Q24), 0, 0, 0, 0]
    && f2 == LP.Next(f1, qs[1], 1) && f3 == LP.Next(f2, qs[2], 2)
    && f4 == LP.Next(f3, qs[3], 3) && f5 == LP.Next(f4, qs[4], 4)
  }

  lemma PolyOf(qs: seq<Word16>, f1: LP.Half, f2: LP.Half, f3: LP.Half, f4: LP.Half, f5: LP.Half)
    requires Grows(qs, f1, f2, f3, f4, f5)
    ensures LP.Poly(qs) == f5
  {
    hide LP.Next, LP.LspPolyProductQ24, LP.Poly;
    PolyBase(qs);
    PolyUp(qs, 1);
    PolyUp(qs, 2);
    PolyUp(qs, 3);
    PolyUp(qs, 4);
    assert qs[..5] == qs;
  }

  lemma PolyBase(qs: seq<Word16>)
    requires |qs| == 5
    ensures LP.Poly(qs[..1]) == [LP.ONE_Q24, -LP.LspPolyProductQ24(qs[0], LP.ONE_Q24), 0, 0, 0, 0]
  {
    hide LP.LspPolyProductQ24;
  }

  lemma PolyUp(qs: seq<Word16>, k: nat)
    requires 1 <= k < 5 == |qs|
    ensures LP.Poly(qs[..k + 1]) == LP.Next(LP.Poly(qs[..k]), qs[k], k)
  {
    hide LP.Next;
    assert qs[..k + 1][..k] == qs[..k];
  }

  lemma Alternates(q0: Word16, q1: Word16, q2: Word16, q3: Word16, q4: Word16,
                   q5: Word16, q6: Word16, q7: Word16, q8: Word16, q9: Word16)
    ensures LP.Alternate([q0, q1, q2, q3, q4, q5, q6, q7, q8, q9], 0) == [q0, q2, q4, q6, q8]
    ensures LP.Alternate([q0, q1, q2, q3, q4, q5, q6, q7, q8, q9], 1) == [q1, q3, q5, q7, q9]
  {
  }

  lemma Even1()
    ensures LP.Poly(LP.Alternate(BETWEEN1, 0)) == [16777216, -26205184, 36443020, -40823548, 46424400, -46422092]
  {
    Alternates(30822, 27051, 21839, 15316, 7325, -1469, -10092, -17978, -24303, -28716);
    hide LP.Alternate, LP.Poly;
    PolyOf([30822, 21839, 7325, -10092, -24303],
           [16777216, -31561728, 0, 0, 0, 0],
           [16777216, -53924864, 75624536, 0, 0, 0],
           [16777216, -61425664, 116510620, -141660136, 0, 0],
           [16777216, -51091456, 95451668, -131319124, 145763300, 0],
           [16777216, -26205184, 36443020, -40823548, 46424400, -46422092]);
  }

  lemma Odd1()
    ensures LP.Poly(LP.Alternate(BETWEEN1, 1)) == [16777216, 5935104, 18801152, 8232220, 21453872, 9059380]
  {
    Alternates(30822, 27051, 21839, 15316, 7325, -1469, -10092, -17978, -24303, -28716);
    hide LP.Alternate, LP.Poly;
    PolyOf([27051, 15316, -1469, -17978, -28716],
           [16777216, -27700224, 0, 0, 0, 0],
           [16777216, -43383808, 59449004, 0, 0, 0],
           [16777216, -41879552, 72336400, -81437376, 0, 0],
           [16777216, -23470080, 43159604, -43942916, 55312380, 0],
           [16777216, 5935104, 18801152, 8232220, 21453872, 9059380]);
  }

  lemma Filter1()
    ensures LP.LspToLp(BETWEEN1) == FILTER1
  {
    Even1();
    Odd1();
    hide LP.Poly;
    var a := LP.LspToLp(BETWEEN1);
    assert a == FILTER1;
  }

  lemma Even2()
    ensures LP.Poly(LP.Alternate(LSP1, 0)) == [16777216, -21692416, 20708740, -19443808, 18513076, -18311944]
  {
    Alternates(31645, 28102, 22678, 15632, 6650, -2937, -12183, -20955, -27606, -31431);
    hide LP.Alternate, LP.Poly;
    PolyOf([31645, 22678, 6650, -12183, -27606],
           [16777216, -32404480, 0, 0, 0, 0],
           [16777216, -55626752, 78407264, 0, 0, 0],
           [16777216, -62436352, 117762480, -143077740, 0, 0],
           [16777216, -49960960, 88112568, -117946932, 129133600, 0],
           [16777216, -21692416, 20708740, -19443808, 18513076, -18311944]);
  }

  lemma Odd2()
    ensures LP.Poly(LP.Alternate(LSP1, 1)) == [16777216, 11867136, 10904128, 12005832, 12231056, 12353352]
  {
    Alternates(31645, 28102, 22678, 15632, 6650, -2937, -12183, -20955, -27606, -31431);
    hide LP.Alternate, LP.Poly;
    PolyOf([28102, 15632, -2937, -20955, -31431],
           [16777216, -28776448, 0, 0, 0, 0],
           [16777216, -44783616, 61010088, 0, 0, 0],
           [16777216, -41776128, 69759384, -78630548, 0, 0],
           [16777216, -20318208, 33105280, -31185000, 38950952, 0],
           [16777216, 11867136, 10904128, 12005832, 12231056, 12353352]);
  }

  lemma Filter2()
    ensures LP.LspToLp(LSP1) == FILTER2
  {
    Even2();
    Odd2();
    hide LP.Poly;
    var a := LP.LspToLp(LSP1);
    assert a == FILTER2;
  }

  lemma Even3()
    ensures LP.Poly(LP.Alternate(BETWEEN2, 0)) == [16777216, -33504256, 38164292, -38919352, 40325112, -40431672]
  {
    Alternates(31834, 29316, 25554, 19695, 10557, 910, -9387, -19289, -25839, -31203);
    hide LP.Alternate, LP.Poly;
    PolyOf([31834, 25554, 10557, -9387, -25839],
           [16777216, -32598016, 0, 0, 0, 0],
           [16777216, -58765312, 84397312, 0, 0, 0],
           [16777216, -69575680, 139039848, -171911872, 0, 0],
           [16777216, -59963392, 115954584, -161826476, 179585024, 0],
           [16777216, -33504256, 38164292, -38919352, 40325112, -40431672]);
  }

  lemma Odd3()
    ensures LP.Poly(LP.Alternate(BETWEEN2, 1)) == [16777216, 584704, 2838724, 5517796, 5614172, 5372232]
  {
    Alternates(31834, 29316, 25554, 19695, 10557, 910, -9387, -19289, -25839, -31203);
    hide LP.Alternate, LP.Poly;
    PolyOf([29316, 19695, 910, -19289, -31203],
           [16777216, -30019584, 0, 0, 0, 0],
           [16777216, -50187264, 69640596, 0, 0, 0],
           [16777216, -51119104, 89205316, -104242504, 0, 0],
           [16777216, -31367168, 45799648, -50339552, 55685192, 0],
           [16777216, 584704, 2838724, 5517796, 5614172, 5372232]);
  }

  lemma Filter3()
    ensures LP.LspToLp(BETWEEN2) == FILTER3
  {
    Even3();
    Odd3();
    hide LP.Poly;
    var a := LP.LspToLp(BETWEEN2);
    assert a == FILTER3;
  }

  lemma Even4()
    ensures LP.Poly(LP.Alternate(LSP2, 0)) == [16777216, -45320192, 61784572, -68078196, 73376432, -75204460]
  {
    Alternates(32025, 30531, 28431, 23759, 14464, 4758, -6590, -17621, -24072, -30974);
    hide LP.Alternate, LP.Poly;
    PolyOf([32025, 28431, 14464, -6590, -24072],
           [16777216, -32793600, 0, 0, 0, 0],
           [16777216, -61906944, 90460856, 0, 0, 0],
           [16777216, -76718080, 161890296, -203673860, 0, 0],
           [16777216, -69969920, 147809840, -215276152, 241858552, 0],
           [16777216, -45320192, 61784572, -68078196, 73376432, -75204460]);
  }

  lemma Odd4()
    ensures LP.Poly(LP.Alternate(LSP2, 1)) == [16777216, -10703872, 139408, 3431764, 2487448, 1501692]
  {
    Alternates(32025, 30531, 28431, 23759, 14464, 4758, -6590, -17621, -24072, -30974);
    hide LP.Alternate, LP.Poly;
    PolyOf([30531, 23759, 4758, -17621, -30974],
           [16777216, -31263744, 0, 0, 0, 0],
           [16777216, -55592960, 78891060, 0, 0, 0],
           [16777216, -60465152, 111812768, -134096296, 0, 0],
           [16777216, -42421248, 63559684, -74306760, 79404908, 0],
           [16777216, -10703872, 139408, 3431764, 2487448, 1501692]);
  }

  lemma Filter4()
    ensures LP.LspToLp(LSP2) == FILTER4
  {
    Even4();
    Odd4();
    hide LP.Poly;
    var a := LP.LspToLp(LSP2);
    assert a == FILTER4;
  }

  lemma FirstFilters(b: L.Codebooks)
    requires L.Shaped(b) && StandardRows(b)
    ensures L.DecodeFilters(b, L.Cold(), FIRST) == (FILTER1, FILTER2)
  {
    hide L.QuantisedLsf, L.LspsOf, LP.LspToLp, StandardRows;
    Spectra(b);
    FirstLsps();
    assert L.Interpolated(L.Cold().prevLsp, LSP1) == BETWEEN1;
    Filter1();
    Filter2();
  }

  lemma SecondFilters(b: L.Codebooks)
    requires L.Shaped(b) && StandardRows(b)
    ensures L.DecodeFilters(b, L.DecodeState(b, L.Cold(), FIRST), SECOND) == (FILTER3, FILTER4)
  {
    hide L.QuantisedLsf, L.LspsOf, LP.LspToLp, StandardRows, L.Residual;
    Spectra(b);
    Residuals(b);
    FirstLsps();
    SecondLsps();
    assert L.Interpolated(LSP1, LSP2) == BETWEEN2;
    Filter3();
    Filter4();
  }

  // ---------- playing the filter ----------

  const SILENT: S.Memory := [0, 0, 0, 0, 0, 0, 0, 0, 0, 0]

  // The ten newest filter outputs, newest first.
  predicate Newest(work: seq<int>, x: seq<int>) {
    |work| >= 10 && |x| == 10 && forall j | |work| - 10 <= j < |work| :: work[j] == x[|work| - 1 - j]
  }

  function Taps(a: S.LpcQ12, un: int, x: seq<int>, i: nat): int
    requires |x| == 10 && i <= 10
  {
    if i == 0 then 2 * (un * a[0]) else Taps(a, un, x, i - 1) - 2 * (a[i] * x[i - 1])
  }

  // The accumulator of one output.
  function Acc(a: S.LpcQ12, un: int, x: seq<int>): int
    requires |x| == 10
  {
    2 * (un * a[0] - a[1] * x[0] - a[2] * x[1] - a[3] * x[2] - a[4] * x[3] - a[5] * x[4]
         - a[6] * x[5] - a[7] * x[6] - a[8] * x[7] - a[9] * x[8] - a[10] * x[9])
  }

  lemma AccIs(a: S.LpcQ12, un: int, x: seq<int>)
    requires |x| == 10
    ensures Taps(a, un, x, 10) == Acc(a, un, x)
  {
    TapsStep(a, un, x, 1);
    TapsStep(a, un, x, 2);
    TapsStep(a, un, x, 3);
    TapsStep(a, un, x, 4);
    TapsStep(a, un, x, 5);
    TapsStep(a, un, x, 6);
    TapsStep(a, un, x, 7);
    TapsStep(a, un, x, 8);
    TapsStep(a, un, x, 9);
    TapsStep(a, un, x, 10);
    assert Taps(a, un, x, 0) == 2 * (un * a[0]);
    hide Taps;
  }

  lemma TapsStep(a: S.LpcQ12, un: int, x: seq<int>, i: nat)
    requires |x| == 10 && 1 <= i <= 10
    ensures Taps(a, un, x, i) == Taps(a, un, x, i - 1) - 2 * (a[i] * x[i - 1])
  {
  }

  function Size(x: seq<int>, i: nat): nat
    requires |x| == 10 && i <= 10
  {
    if i == 0 then 0 else Size(x, i - 1) + Abs(x[i - 1])
  }

  // Outputs this small keep every intermediate of the next one inside 32 bits.
  lemma {:induction false} SmallFits(a: S.LpcQ12, work: seq<int>, un: int, x: seq<int>, i: nat)
    requires Newest(work, x) && i <= 10 && Abs(un) + Size(x, i) <= 0x7FFF
    ensures S.FeedbackFits(a, work, un, i) && S.ExactFeedback(a, work, un, i) == Taps(a, un, x, i)
    ensures Abs(Taps(a, un, x, i)) <= 0x1_0000 * (Abs(un) + Size(x, i))
  {
    if i == 0 {
      MulAbsLe(un, a[0], Abs(un), 0x8000);
    } else {
      SmallFits(a, work, un, x, i - 1);
      assert work[|work| - i] == x[i - 1];
      MulAbsLe(a[i], x[i - 1], 0x8000, Abs(x[i - 1]));
    }
  }

  lemma Appended(work: seq<int>, x: seq<int>, s: int)
    requires Newest(work, x)
    ensures Newest(work + [s], [s] + x[..9])
  {
  }

  // The state of a pass: n outputs have been computed exactly, and x are the newest.
  predicate Playing(a: S.LpcQ12, u: Subframe, n: nat, x: seq<int>) {
    n <= 40 && S.PassFits(a, u, SILENT, n) && Newest(S.ExactPass(a, u, SILENT, n), x)
  }

  function Sum(x: seq<int>): nat
    requires |x| == 10
  {
    Abs(x[0]) + Abs(x[1]) + Abs(x[2]) + Abs(x[3]) + Abs(x[4]) + Abs(x[5]) + Abs(x[6]) + Abs(x[7]) + Abs(x[8])
      + Abs(x[9])
  }

  lemma SizeIs(x: seq<int>)
    requires |x| == 10
    ensures Size(x, 10) == Sum(x)
  {
    SizeStep(x, 1);
    SizeStep(x, 2);
    SizeStep(x, 3);
    SizeStep(x, 4);
    SizeStep(x, 5);
    SizeStep(x, 6);
    SizeStep(x, 7);
    SizeStep(x, 8);
    SizeStep(x, 9);
    SizeStep(x, 10);
    assert Size(x, 0) == 0;
    hide Size;
  }

  lemma SizeStep(x: seq<int>, i: nat)
    requires |x| == 10 && 1 <= i <= 10
    ensures Size(x, i) == Size(x, i - 1) + Abs(x[i - 1])
  {
  }

  lemma Play(a: S.LpcQ12, u: Subframe, n: nat, x: seq<int>, s: Word16)
    requires Playing(a, u, n, x) && n < 40 && |x| == 10 && Abs(u[n]) + Sum(x) <= 0x7FFF
    requires RoundsTo(8 * Acc(a, u[n], x), s) && s > MIN16
    ensures Playing(a, u, n + 1, [s] + x[..9])
  {
    hide S.FeedbackFits, S.ExactFeedback, Newest, Acc, Sum;
    SizeIs(x);
    AccIs(a, u[n], x);
    SmallFits(a, S.ExactPass(a, u, SILENT, n), u[n], x, 10);
    Appended(S.ExactPass(a, u, SILENT, n), x, s);
    RoundsIs(8 * Acc(a, u[n], x), s);
  }

  // The same with the window spelt out.
  lemma Next(a: S.LpcQ12, u: Subframe, n: nat, s: int, x0: int, x1: int, x2: int, x3: int, x4: int,
             x5: int, x6: int, x7: int, x8: int, x9: int)
    requires Playing(a, u, n, [x0, x1, x2, x3, x4, x5, x6, x7, x8, x9]) && n < 40 && MIN16 < s <= MAX16
    requires Abs(u[n]) + Abs(x0) + Abs(x1) + Abs(x2) + Abs(x3) + Abs(x4)
             + Abs(x5) + Abs(x6) + Abs(x7) + Abs(x8) + Abs(x9) <= 0x7FFF
    requires RoundsTo(16 * (u[n] * a[0] - a[1] * x0 - a[2] * x1 - a[3] * x2 - a[4] * x3 - a[5] * x4
                            - a[6] * x5 - a[7] * x6 - a[8] * x7 - a[9] * x8 - a[10] * x9), s)
    ensures Playing(a, u, n + 1, [s, x0, x1, x2, x3, x4, x5, x6, x7, x8])
  {
    var x := [x0, x1, x2, x3, x4, x5, x6, x7, x8, x9];
    assert Sum(x) == Abs(x0) + Abs(x1) + Abs(x2) + Abs(x3) + Abs(x4) + Abs(x5) + Abs(x6) + Abs(x7) + Abs(x8) + Abs(x9);
    assert 8 * Acc(a, u[n], x)
           == 16 * (u[n] * a[0] - a[1] * x0 - a[2] * x1 - a[3] * x2 - a[4] * x3 - a[5] * x4
                    - a[6] * x5 - a[7] * x6 - a[8] * x7 - a[9] * x8 - a[10] * x9);
    hide Playing, Acc, Sum, Abs;
    Play(a, u, n, x, s);
    assert [s] + x[..9] == [s, x0, x1, x2, x3, x4, x5, x6, x7, x8];
  }

  // Four pulses at the start, as far as sample m.
  predicate Pulses(u: Subframe, g: int, m: nat) {
    forall n | 0 <= n < m && n < 40 :: u[n] == if n < 4 then g else 0
  }

  lemma PlayingStarts(a: S.LpcQ12, u: Subframe)
    ensures Playing(a, u, 0, SILENT)
  {
  }

  // Once silent, silent to the end.
  lemma {:induction false} StaysSilent(a: S.LpcQ12, u: Subframe, g: int, m: nat, n: nat)
    requires 4 <= m <= n <= 40 && Pulses(u, g, 40) && Playing(a, u, m, SILENT)
    ensures Playing(a, u, n, SILENT)
  {
    hide Playing;
    if m < n {
      StaysSilent(a, u, g, m, n - 1);
      assert u[n - 1] == 0;
      Next(a, u, n - 1, 0, 0, 0, 0, 0, 0, 0, 0, 0, 0, 0);
    }
  }

  lemma Pass1A(u: Subframe)
    requires Pulses(u, 28, 40) && Playing(FILTER1, u, 0, [0, 0, 0, 0, 0, 0, 0, 0, 0, 0])
    ensures Playing(FILTER1, u, 13, [0, 1, 0, 0, -2, -7, -11, -21, -2, 31])
  {
    hide Playing;
    Next(FILTER1, u, 0, 28, 0, 0, 0, 0, 0, 0, 0, 0, 0, 0);
    Next(FILTER1, u, 1, 45, 28, 0, 0, 0, 0, 0, 0, 0, 0, 0);
    Next(FILTER1, u, 2, 36, 45, 28, 0, 0, 0, 0, 0, 0, 0, 0);
    Next(FILTER1, u, 3, 31, 36, 45, 28, 0, 0, 0, 0, 0, 0, 0);
    Next(FILTER1, u, 4, -2, 31, 36, 45, 28, 0, 0, 0, 0, 0, 0);
    Next(FILTER1, u, 5, -21, -2, 31, 36, 45, 28, 0, 0, 0, 0, 0);
    Next(FILTER1, u, 6, -11, -21, -2, 31, 36, 45, 28, 0, 0, 0, 0);
    Next(FILTER1, u, 7, -7, -11, -21, -2, 31, 36, 45, 28, 0, 0, 0);
    Next(FILTER1, u, 8, -2, -7, -11, -21, -2, 31, 36, 45, 28, 0, 0);
    Next(FILTER1, u, 9, 0, -2, -7, -11, -21, -2, 31, 36, 45, 28, 0);
    Next(FILTER1, u, 10, 0, 0, -2, -7, -11, -21, -2, 31, 36, 45, 28);
    Next(FILTER1, u, 11, 1, 0, 0, -2, -7, -11, -21, -2, 31, 36, 45);
    Next(FILTER1, u, 12, 0, 1, 0, 0, -2, -7, -11, -21, -2, 31, 36);
  }

  lemma Pass1B(u: Subframe)
    requires Pulses(u, 28, 40) && Playing(FILTER1, u, 13, [0, 1, 0, 0, -2, -7, -11, -21, -2, 31])
    ensures Playing(FILTER1, u, 25, [0, 0, 0, 0, 0, 0, 0, 0, 0, 0])
  {
    hide Playing;
    Next(FILTER1, u, 13, 1, 0, 1, 0, 0, -2, -7, -11, -21, -2, 31);
    Next(FILTER1, u, 14, 1, 1, 0, 1, 0, 0, -2, -7, -11, -21, -2);
    Next(FILTER1, u, 15, 0, 1, 1, 0, 1, 0, 0, -2, -7, -11, -21);
    Next(FILTER1, u, 16, 0, 0, 1, 1, 0, 1, 0, 0, -2, -7, -11);
    Next(FILTER1, u, 17, 0, 0, 0, 1, 1, 0, 1, 0, 0, -2, -7);
    Next(FILTER1, u, 18, 0, 0, 0, 0, 1, 1, 0, 1, 0, 0, -2);
    Next(FILTER1, u, 19, 0, 0, 0, 0, 0, 1, 1, 0, 1, 0, 0);
    Next(FILTER1, u, 20, 0, 0, 0, 0, 0, 0, 1, 1, 0, 1, 0);
    Next(FILTER1, u, 21, 0, 0, 0, 0, 0, 0, 0, 1, 1, 0, 1);
    Next(FILTER1, u, 22, 0, 0, 0, 0, 0, 0, 0, 0, 1, 1, 0);
    Next(FILTER1, u, 23, 0, 0, 0, 0, 0, 0, 0, 0, 0, 1, 1);
    Next(FILTER1, u, 24, 0, 0, 0, 0, 0, 0, 0, 0, 0, 0, 1);
  }

  lemma Pass1(u: Subframe)
    requires Pulses(u, 28, 40)
    ensures Playing(FILTER1, u, 40, SILENT)
  {
    hide Playing;
    PlayingStarts(FILTER1, u);
    Pass1A(u);
    Pass1B(u);
    StaysSilent(FILTER1, u, 28, 25, 40);
  }

  lemma Pass2A(u: Subframe)
    requires Pulses(u, 253, 40) && Playing(FILTER2, u, 0, [0, 0, 0, 0, 0, 0, 0, 0, 0, 0])
    ensures Playing(FILTER2, u, 13, [3, 7, 14, 13, 7, 4, -6, 32, 109, 360])
  {
    hide Playing;
    Next(FILTER2, u, 0, 253, 0, 0, 0, 0, 0, 0, 0, 0, 0, 0);
    Next(FILTER2, u, 1, 327, 253, 0, 0, 0, 0, 0, 0, 0, 0, 0);
    Next(FILTER2, u, 2, 363, 327, 253, 0, 0, 0, 0, 0, 0, 0, 0);
    Next(FILTER2, u, 3, 360, 363, 327, 253, 0, 0, 0, 0, 0, 0, 0);
    Next(FILTER2, u, 4, 109, 360, 363, 327, 253, 0, 0, 0, 0, 0, 0);
    Next(FILTER2, u, 5, 32, 109, 360, 363, 327, 253, 0, 0, 0, 0, 0);
    Next(FILTER2, u, 6, -6, 32, 109, 360, 363, 327, 253, 0, 0, 0, 0);
    Next(FILTER2, u, 7, 4, -6, 32, 109, 360, 363, 327, 253, 0, 0, 0);
    Next(FILTER2, u, 8, 7, 4, -6, 32, 109, 360, 363, 327, 253, 0, 0);
    Next(FILTER2, u, 9, 13, 7, 4, -6, 32, 109, 360, 363, 327, 253, 0);
    Next(FILTER2, u, 10, 14, 13, 7, 4, -6, 32, 109, 360, 363, 327, 253);
    Next(FILTER2, u, 11, 7, 14, 13, 7, 4, -6, 32, 109, 360, 363, 327);
    Next(FILTER2, u, 12, 3, 7, 14, 13, 7, 4, -6, 32, 109, 360, 363);
  }

  lemma Pass2B(u: Subframe)
    requires Pulses(u, 253, 40) && Playing(FILTER2, u, 13, [3, 7, 14, 13, 7, 4, -6, 32, 109, 360])
    ensures Playing(FILTER2, u, 23, [0, 0, 0, 0, 0, 0, 0, 0, 0, 0])
  {
    hide Playing;
    Next(FILTER2, u, 13, 0, 3, 7, 14, 13, 7, 4, -6, 32, 109, 360);
    Next(FILTER2, u, 14, 0, 0, 3, 7, 14, 13, 7, 4, -6, 32, 109);
    Next(FILTER2, u, 15, 0, 0, 0, 3, 7, 14, 13, 7, 4, -6, 32);
    Next(FILTER2, u, 16, 0, 0, 0, 0, 3, 7, 14, 13, 7, 4, -6);
    Next(FILTER2, u, 17, 0, 0, 0, 0, 0, 3, 7, 14, 13, 7, 4);
    Next(FILTER2, u, 18, 0, 0, 0, 0, 0, 0, 3, 7, 14, 13, 7);
    Next(FILTER2, u, 19, 0, 0, 0, 0, 0, 0, 0, 3, 7, 14, 13);
    Next(FILTER2, u, 20, 0, 0, 0, 0, 0, 0, 0, 0, 3, 7, 14);
    Next(FILTER2, u, 21, 0, 0, 0, 0, 0, 0, 0, 0, 0, 3, 7);
    Next(FILTER2, u, 22, 0, 0, 0, 0, 0, 0, 0, 0, 0, 0, 3);
  }

  lemma Pass2(u: Subframe)
    requires Pulses(u, 253, 40)
    ensures Playing(FILTER2, u, 40, SILENT)
  {
    hide Playing;
    PlayingStarts(FILTER2, u);
    Pass2A(u);
    Pass2B(u);
    StaysSilent(FILTER2, u, 253, 23, 40);
  }

  lemma Pass3A(u: Subframe)
    requires Pulses(u, 1653, 40) && Playing(FILTER3, u, 0, [0, 0, 0, 0, 0, 0, 0, 0, 0, 0])
    ensures Playing(FILTER3, u, 13, [-35, -175, -424, -516, -393, 80, 1108, 2465, 4027, 5322])
  {
    hide Playing;
    Next(FILTER3, u, 0, 1653, 0, 0, 0, 0, 0, 0, 0, 0, 0, 0);
    Next(FILTER3, u, 1, 3275, 1653, 0, 0, 0, 0, 0, 0, 0, 0, 0);
    Next(FILTER3, u, 2, 4525, 3275, 1653, 0, 0, 0, 0, 0, 0, 0, 0);
    Next(FILTER3, u, 3, 5322, 4525, 3275, 1653, 0, 0, 0, 0, 0, 0, 0);
    Next(FILTER3, u, 4, 4027, 5322, 4525, 3275, 1653, 0, 0, 0, 0, 0, 0);
    Next(FILTER3, u, 5, 2465, 4027, 5322, 4525, 3275, 1653, 0, 0, 0, 0, 0);
    Next(FILTER3, u, 6, 1108, 2465, 4027, 5322, 4525, 3275, 1653, 0, 0, 0, 0);
    Next(FILTER3, u, 7, 80, 1108, 2465, 4027, 5322, 4525, 3275, 1653, 0, 0, 0);
    Next(FILTER3, u, 8, -393, 80, 1108, 2465, 4027, 5322, 4525, 3275, 1653, 0, 0);
    Next(FILTER3, u, 9, -516, -393, 80, 1108, 2465, 4027, 5322, 4525, 3275, 1653, 0);
    Next(FILTER3, u, 10, -424, -516, -393, 80, 1108, 2465, 4027, 5322, 4525, 3275, 1653);
    Next(FILTER3, u, 11, -175, -424, -516, -393, 80, 1108, 2465, 4027, 5322, 4525, 3275);
    Next(FILTER3, u, 12, -35, -175, -424, -516, -393, 80, 1108, 2465, 4027, 5322, 4525);
  }

  lemma Pass3B(u: Subframe)
    requires Pulses(u, 1653, 40) && Playing(FILTER3, u, 13, [-35, -175, -424, -516, -393, 80, 1108, 2465, 4027, 5322])
    ensures Playing(FILTER3, u, 26, [2, 3, 2, 0, -5, -10, -12, -13, 5, 30])
  {
    hide Playing;
    Next(FILTER3, u, 13, 49, -35, -175, -424, -516, -393, 80, 1108, 2465, 4027, 5322);
    Next(FILTER3, u, 14, 78, 49, -35, -175, -424, -516, -393, 80, 1108, 2465, 4027);
    Next(FILTER3, u, 15, 57, 78, 49, -35, -175, -424, -516, -393, 80, 1108, 2465);
    Next(FILTER3, u, 16, 30, 57, 78, 49, -35, -175, -424, -516, -393, 80, 1108);
    Next(FILTER3, u, 17, 5, 30, 57, 78, 49, -35, -175, -424, -516, -393, 80);
    Next(FILTER3, u, 18, -13, 5, 30, 57, 78, 49, -35, -175, -424, -516, -393);
    Next(FILTER3, u, 19, -12, -13, 5, 30, 57, 78, 49, -35, -175, -424, -516);
    Next(FILTER3, u, 20, -10, -12, -13, 5, 30, 57, 78, 49, -35, -175, -424);
    Next(FILTER3, u, 21, -5, -10, -12, -13, 5, 30, 57, 78, 49, -35, -175);
    Next(FILTER3, u, 22, 0, -5, -10, -12, -13, 5, 30, 57, 78, 49, -35);
    Next(FILTER3, u, 23, 2, 0, -5, -10, -12, -13, 5, 30, 57, 78, 49);
    Next(FILTER3, u, 24, 3, 2, 0, -5, -10, -12, -13, 5, 30, 57, 78);
    Next(FILTER3, u, 25, 2, 3, 2, 0, -5, -10, -12, -13, 5, 30, 57);
  }

  lemma Pass3C(u: Subframe)
    requires Pulses(u, 1653, 40) && Playing(FILTER3, u, 26, [2, 3, 2, 0, -5, -10, -12, -13, 5, 30])
    ensures Playing(FILTER3, u, 36, [0, 0, 0, 0, 0, 0, 0, 0, 0, 0])
  {
    hide Playing;
    Next(FILTER3, u, 26, 0, 2, 3, 2, 0, -5, -10, -12, -13, 5, 30);
    Next(FILTER3, u, 27, 0, 0, 2, 3, 2, 0, -5, -10, -12, -13, 5);
    Next(FILTER3, u, 28, 0, 0, 0, 2, 3, 2, 0, -5, -10, -12, -13);
    Next(FILTER3, u, 29, 0, 0, 0, 0, 2, 3, 2, 0, -5, -10, -12);
    Next(FILTER3, u, 30, 0, 0, 0, 0, 0, 2, 3, 2, 0, -5, -10);
    Next(FILTER3, u, 31, 0, 0, 0, 0, 0, 0, 2, 3, 2, 0, -5);
    Next(FILTER3, u, 32, 0, 0, 0, 0, 0, 0, 0, 2, 3, 2, 0);
    Next(FILTER3, u, 33, 0, 0, 0, 0, 0, 0, 0, 0, 2, 3, 2);
    Next(FILTER3, u, 34, 0, 0, 0, 0, 0, 0, 0, 0, 0, 2, 3);
    Next(FILTER3, u, 35, 0, 0, 0, 0, 0, 0, 0, 0, 0, 0, 2);
  }

  lemma Pass3(u: Subframe)
    requires Pulses(u, 1653, 40)
    ensures Playing(FILTER3, u, 40, SILENT)
  {
    hide Playing;
    PlayingStarts(FILTER3, u);
    Pass3A(u);
    Pass3B(u);
    Pass3C(u);
    StaysSilent(FILTER3, u, 1653, 36, 40);
  }

  // The fourth pass leaves 32 bits at its fourth sample.
  lemma Overflows(u: Subframe)
    requires Pulses(u, 4955, 4)
    ensures !S.PassFits(FILTER4, u, SILENT, 40)
  {
    hide Playing;
    PlayingStarts(FILTER4, u);
    Next(FILTER4, u, 0, 4955, 0, 0, 0, 0, 0, 0, 0, 0, 0, 0);
    Next(FILTER4, u, 1, 13228, 4955, 0, 0, 0, 0, 0, 0, 0, 0, 0);
    Next(FILTER4, u, 2, 23010, 13228, 4955, 0, 0, 0, 0, 0, 0, 0, 0);
    TooLoud(u, [23010, 13228, 4955, 0, 0, 0, 0, 0, 0, 0]);
    if S.PassFits(FILTER4, u, SILENT, 40) {
      FitsBefore(FILTER4, u, 4, 40);
      assert false;
    }
  }

  lemma TooLoud(u: Subframe, x: seq<int>)
    requires Playing(FILTER4, u, 3, x) && |x| == 10 && !S.Fits32(8 * Acc(FILTER4, u[3], x))
    ensures !S.PassFits(FILTER4, u, SILENT, 4)
  {
    hide Acc, S.FeedbackFits;
    var work := S.ExactPass(FILTER4, u, SILENT, 3);
    AccIs(FILTER4, u[3], x);
    TapsFeed(FILTER4, work, u[3], x, 10);
    hide S.ExactFeedback, Newest;
  }

  lemma {:induction false} TapsFeed(a: S.LpcQ12, work: seq<int>, un: int, x: seq<int>, i: nat)
    requires Newest(work, x) && i <= 10
    ensures S.ExactFeedback(a, work, un, i) == Taps(a, un, x, i)
  {
    if i > 0 {
      TapsFeed(a, work, un, x, i - 1);
      assert work[|work| - i] == x[i - 1];
    }
  }

  lemma {:induction false} FitsBefore(a: S.LpcQ12, u: Subframe, m: nat, n: nat)
    requires m <= n <= 40 && S.PassFits(a, u, SILENT, n)
    ensures S.PassFits(a, u, SILENT, m)
  {
    hide S.OutputFits, S.ExactPass;
    if m < n {
      FitsBefore(a, u, m, n - 1);
    }
  }

  // What a silent end of a pass means for the filter.
  lemma QuietFilter(a: S.LpcQ12, u: Subframe)
    requires Playing(a, u, 40, SILENT)
    ensures S.Filter(a, u, SILENT).shift == 0 && S.Filter(a, u, SILENT).pastSynth == SILENT
  {
    hide S.Filter, S.PassFits;
    S.FilterMeaning(a, u, SILENT);
    var f, work := S.Filter(a, u, SILENT), S.ExactPass(a, u, SILENT, 40);
    hide S.ExactPass;
    assert SILENT + f.s == work;
    assert f.s[30..] == work[40..];
    assert work[40..] == SILENT;
  }
  // ---------- the excitation ----------

  function BurstCode(): Subframe {
    seq(40, n => if n < 4 then 8191 else 0)
  }

  lemma BurstCodeIs(prevGpQ14: Word16)
    ensures F.BuildCodeVector(Burst().positions, Burst().signs, 143, prevGpQ14) == BurstCode()
  {
    var p, plus := Burst().positions, F.SignsAt(Burst().positions, Burst().signs);
    assert plus == [true, true, true, true];
    var c1, c2, c3, c4 := F.Placed(p, plus, 1), F.Placed(p, plus, 2), F.Placed(p, plus, 3), F.Placed(p, plus, 4);
    assert c1 == ZeroSubframe()[0 := 8191] && c2 == c1[1 := 8191] && c3 == c2[2 := 8191] && c4 == c3[3 := 8191];
    assert c4 == BurstCode();
  }

  lemma BurstEnergy()
    ensures G.FixedCodebookEnergy(BurstCode()) == 268369924
  {
    hide G.FixedCodebookEnergy;
    FourFirst(BurstCode());
  }

  lemma FourFirst(c: Subframe)
    requires forall n | 0 <= n < 40 :: c[n] == if n < 4 then 8191 else 0
    ensures G.FixedCodebookEnergy(c) == 268369924
  {
    TwoFirst(c);
    hide G.EnergyTo;
    T.OnePulse(c, 2);
    T.OnePulse(c, 3);
    T.QuietStretch(c, 4, 40);
  }

  lemma TwoFirst(c: Subframe)
    requires forall n | 0 <= n < 40 :: c[n] == if n < 4 then 8191 else 0
    ensures G.EnergyTo(c, 2) == 134184962
  {
    assert G.EnergyTo(c, 0) == 0;
    hide G.EnergyTo;
    T.OnePulse(c, 0);
    T.OnePulse(c, 1);
  }

  // The pulses of subframe k.
  function Height(k: nat): int {
    if k == 0 then 28 else if k == 1 then 253 else if k == 2 then 1653 else 4955
  }

  // A history silent but for its last samples gives a silent vector, as far as the longest delay sees.
  lemma {:induction false} SilentTaps(x: OldExc, m: nat, n: nat, taps: nat)
    requires m <= 154 && n < 40 && n + 21 < m && taps <= 10 && forall i | 0 <= i < m :: x[i] == 0
    ensures A.Accumulate(A.PITCH_INTERP_FIR, A.Phase(143, 0, 3), n, x, [], taps) == 0
  {
    hide A.Source, LMac;
    if taps > 0 {
      SilentTaps(x, m, n, taps - 1);
      SilentSource(x, m, n - 143 - (taps - 1));
      SilentSource(x, m, n - 143 + taps);
      NoProduct(A.PITCH_INTERP_FIR[3 * (taps - 1)]);
      NoProduct(A.PITCH_INTERP_FIR[3 + 3 * (taps - 1)]);
    }
  }

  lemma SilentSource(x: OldExc, m: nat, r: int)
    requires m <= 154 && r < 0 && 154 + r < m && forall i | 0 <= i < m :: x[i] == 0
    ensures A.Source(r, x, []) == 0
  {
  }

  lemma NoProduct(t: Word16)
    ensures LMac(0, t, 0) == 0
  {
  }

  lemma SilentVector(x: OldExc, m: nat, n: nat)
    requires m <= 154 && n < 40 && n + 21 < m && forall i | 0 <= i < m :: x[i] == 0
    ensures A.Codebook(143, 0, x)[n] == 0
  {
    hide A.Accumulate;
    var ph := A.Phase(143, 0, 3);
    var v := seq(40, i requires 0 <= i < 40 => A.Sample(A.PITCH_INTERP_FIR, ph, i, x, []));
    A.FastIsRecursive(A.PITCH_INTERP_FIR, ph, x, ZeroSubframe(), v);
    SilentTaps(x, m, n, 10);
  }

  // Where both machines are before subframe k, as long as nothing has happened.
  predicate Ready(e: EncoderState, d: DecoderState, k: nat) {
    && k <= 3 && InStep(e, d) && e.pastQuaEn == T.ErrorsAfter(k) && d.pastSynth == SILENT
    && (forall i | 0 <= i < 154 - 40 * k :: e.oldExc[i] == 0)
    && (forall i | 0 <= i < 154 :: Abs(e.oldExc[i]) <= 1653)
  }

  lemma {:induction false} EnergyBelow(x: seq<Word16>, m: nat)
    requires forall i | 0 <= i < |x| :: Abs(x[i]) <= m
    ensures Energy(x) <= |x| * (m * m)
  {
    if |x| > 0 {
      EnergyBelow(x[..|x| - 1], m);
      MulAbsLe(x[|x| - 1], x[|x| - 1], m, m);
      assert |x| * (m * m) == (|x| - 1) * (m * m) + m * m;
    }
  }

  lemma NotTamed(e: EncoderState, d: DecoderState, k: nat)
    requires Ready(e, d, k)
    ensures !Tamed(GP, e.oldExc)
  {
    hide Energy, InStep, T.ErrorsAfter;
    EnergyBelow(e.oldExc, 1653);
  }

  // The excitation of subframe k, as far as the adaptive codebook is silent.
  lemma BurstExcitation(e: EncoderState, d: DecoderState, k: nat)
    requires Ready(e, d, k)
    ensures Pulses(CommitTrace(e, Burst()).u, Height(k), if k < 3 then 40 else 4)
  {
    NotTamed(e, d, k);
    hide InStep, Tamed, T.ErrorsAfter, F.BuildCodeVector, G.ReconstructWide, A.Codebook, S.ExcitationSample, BurstCode,
      T.GainAfter, Burst;
    ChoiceIs();
    BurstCodeIs(e.prevGpQ14);
    BurstEnergy();
    T.GainsOf(k, BurstCode());
    var v, t := A.Codebook(143, 0, e.oldExc), CommitTrace(e, Burst());
    assert t.u == S.Excitation(GP, T.GainAfter(k).0, T.GainAfter(k).1, v, BurstCode());
    hide CommitTrace;
    forall n | 0 <= n < (if k < 3 then 40 else 4)
      ensures t.u[n] == if n < 4 then Height(k) else 0
    {
      SilentVector(e.oldExc, 154 - 40 * k, n);
      BurstSample(k, n);
    }
  }

  lemma BurstSample(k: nat, n: nat)
    requires k <= 3 && n < 40
    ensures S.ExcitationSample(GP, T.GainAfter(k).0, T.GainAfter(k).1, 0, BurstCode()[n]) as int
            == if n < 4 then Height(k) else 0
  {
    SampleOf(k, if n < 4 then 8191 else 0);
    hide S.ExcitationSample, T.GainAfter;
  }

  lemma SampleOf(k: nat, c: Word16)
    requires k <= 3 && (c == 8191 || c == 0)
    ensures S.ExcitationSample(GP, T.GainAfter(k).0, T.GainAfter(k).1, 0, c) as int == if c == 0 then 0 else Height(k)
  {
    hide S.ExcitationSample, T.GainAfter;
    T.SampleIs(k, 0, c);
  }

  lemma ChoiceIs()
    ensures var ch := Burst(); ch.lag == 143 && ch.frac == 0 && ch.ga == 7 && ch.gb == 11
    ensures G.GammaQ13(7, 11) == T.GAMMA && G.PitchGainQ14(7, 11) == GP
  {
  }

  // ---------- one subframe ----------

  lemma SameTrace(e: EncoderState, d: DecoderState, k: nat)
    requires Ready(e, d, k)
    ensures ReceiveTrace(d, Burst().lag, Burst().frac, CodeOf(Burst())) == CommitTrace(e, Burst())
  {
    NotTamed(e, d, k);
    hide CommitTrace, ReceiveTrace, Tamed, InStep, Burst, CodeOf, T.ErrorsAfter;
    ChoiceIs();
    TracesAgree(e, d, Burst());
  }

  lemma QuietSubframe(e: EncoderState, d: DecoderState, k: nat, a: S.LpcQ12)
    requires Ready(e, d, k) && k < 3
    requires forall u: Subframe :: Pulses(u, Height(k), 40) ==> Playing(a, u, 40, SILENT)
    ensures Ready(Commit(e, Burst()), Receive(d, a, Burst().lag, Burst().frac, CodeOf(Burst())), k + 1)
    ensures Follows(e, d, Burst(), a)
  {
    NotTamed(e, d, k);
    BurstExcitation(e, d, k);
    SameTrace(e, d, k);
    hide Commit, Receive, CommitTrace, ReceiveTrace, Tamed, InStep, Playing, Burst, CodeOf, T.ErrorsAfter;
    var u := CommitTrace(e, Burst()).u;
    QuietFilter(a, u);
    StillReady(e, d, k, a, u);
  }

  lemma StillReady(e: EncoderState, d: DecoderState, k: nat, a: S.LpcQ12, u: Subframe)
    requires Ready(e, d, k) && k < 3 && !Tamed(GP, e.oldExc) && u == CommitTrace(e, Burst()).u
    requires ReceiveTrace(d, Burst().lag, Burst().frac, CodeOf(Burst())).u == u && Pulses(u, Height(k), 40)
    requires S.Filter(a, u, SILENT).shift == 0 && S.Filter(a, u, SILENT).pastSynth == SILENT
    ensures Ready(Commit(e, Burst()), Receive(d, a, Burst().lag, Burst().frac, CodeOf(Burst())), k + 1)
  {
    hide CommitTrace, ReceiveTrace, Tamed, InStep, Burst, CodeOf, S.Filter, G.UpdatedPastQuaEn, T.ErrorsAfter,
      NextHistory;
    ChoiceIs();
    T.ErrorStep(k);
    SubframeInStep(e, d, Burst(), a);
    var x: OldExc := e.oldExc[40..] + u;
    assert Commit(e, Burst()).oldExc == x;
    forall i | 0 <= i < 154 - 40 * (k + 1)
      ensures x[i] == 0
    {
      assert x[i] == e.oldExc[i + 40];
    }
    forall i | 0 <= i < 154
      ensures Abs(x[i]) <= 1653
    {
      if i < 114 {
        assert x[i] == e.oldExc[i + 40];
      } else {
        assert x[i] == u[i - 114];
      }
    }
  }

  lemma LoudSubframe(e: EncoderState, d: DecoderState)
    requires Ready(e, d, 3)
    ensures !InStep(Commit(e, Burst()), Receive(d, FILTER4, Burst().lag, Burst().frac, CodeOf(Burst())))
  {
    NotTamed(e, d, 3);
    BurstExcitation(e, d, 3);
    SameTrace(e, d, 3);
    hide CommitTrace, ReceiveTrace, Tamed, InStep, Burst, CodeOf, T.ErrorsAfter, ShiftProof, S.Filter, Pulses, Commit,
      Receive;
    var u := CommitTrace(e, Burst()).u;
    Rescued(u);
    SubframeInStep(e, d, Burst(), FILTER4);
    ShiftedDiffers(u);
  }

  // Recovery fires, so the filter reports a shift.
  lemma Rescued(u: Subframe)
    requires Pulses(u, 4955, 4)
    ensures S.Filter(FILTER4, u, SILENT).shift != 0
  {
    Overflows(u);
    hide S.PassFits, S.Filter;
    S.FilterMeaning(FILTER4, u, SILENT);
  }

  // And the shift has something to change.
  lemma ShiftedDiffers(u: Subframe)
    requires Pulses(u, 4955, 4)
    ensures Scaled(u, 2) != u
  {
    ScaledSame(u);
    assert !(u[0] == 0 || u[0] == -1);
  }

  // ---------- the run ----------

  lemma ColdReady()
    ensures Ready(ColdEncoder(), ColdDecoder(), 0)
  {
    ColdStart();
    hide InStep;
  }

  lemma LspReady(b: L.Codebooks, e: EncoderState, d: DecoderState, fc: FrameChoice, k: nat)
    requires L.Shaped(b) && LegalFrame(fc) && Ready(e, d, k)
    ensures Ready(CommitLsp(b, e, fc.lsp), ReceiveLsp(b, d, Delivered(fc)), k)
  {
    hide InStep, LegalFrame, Delivered, L.Residual, L.DecodeState, T.ErrorsAfter;
    LspFollows(b, e, d, fc);
  }

  lemma Passes()
    ensures forall u: Subframe :: Pulses(u, 28, 40) ==> Playing(FILTER1, u, 40, SILENT)
    ensures forall u: Subframe :: Pulses(u, 253, 40) ==> Playing(FILTER2, u, 40, SILENT)
    ensures forall u: Subframe :: Pulses(u, 1653, 40) ==> Playing(FILTER3, u, 40, SILENT)
  {
    hide Playing, Pulses;
    forall u: Subframe | Pulses(u, 28, 40) ensures Playing(FILTER1, u, 40, SILENT) {
      Pass1(u);
    }
    forall u: Subframe | Pulses(u, 253, 40) ensures Playing(FILTER2, u, 40, SILENT) {
      Pass2(u);
    }
    forall u: Subframe | Pulses(u, 1653, 40) ensures Playing(FILTER3, u, 40, SILENT) {
      Pass3(u);
    }
  }

  // What the receiver plays a frame of bursts with.
  lemma BurstsCross(b: L.Codebooks, d: DecoderState, fc: FrameChoice)
    requires L.Shaped(b) && fc == FrameChoice(fc.lsp, Burst(), Burst()) && LegalFrame(fc)
    ensures var f := Delivered(fc);
            && FirstDelay(d, f) == SecondDelay(d, f) == (Burst().lag, Burst().frac)
            && FrameCode(f, 0) == FrameCode(f, 1) == CodeOf(Burst())
            && Lpc(b, d, f, 0) == L.DecodeFilters(b, d.lsp, fc.lsp).0
            && Lpc(b, d, f, 1) == L.DecodeFilters(b, d.lsp, fc.lsp).1
  {
    hide LegalFrame, Delivered, FirstDelay, SecondDelay, FrameCode, L.DecodeFilters, Burst, CodeOf;
    FrameCrossesWire(fc, d);
  }

  // The first frame passes in step, and the receiver's filter stays silent.
  lemma FirstFrameReady(b: L.Codebooks)
    requires L.Shaped(b) && StandardRows(b) && LegalFrame(FirstFrame())
    ensures var e, d := ColdEncoder(), ColdDecoder();
            && Ready(CommitFrame(b, e, FirstFrame()), ReceiveFrame(b, d, Delivered(FirstFrame())), 2)
            && FollowsFrame(b, e, d, FirstFrame())
  {
    hide Ready, LegalFrame, Delivered, FirstDelay, SecondDelay, FrameCode, L.DecodeFilters, Burst, CodeOf, StandardRows,
      Commit, Receive, Lpc, Pulses, Playing, ReceiveLsp, CommitLsp, InStep, CommitTrace, ReceiveTrace;
    var e, d, fc := ColdEncoder(), ColdDecoder(), FirstFrame();
    var f := Delivered(fc);
    ColdReady();
    LspReady(b, e, d, fc, 0);
    BurstsCross(b, d, fc);
    FirstFilters(b);
    Passes();
    var e1, d1 := CommitLsp(b, e, fc.lsp), ReceiveLsp(b, d, f);
    QuietSubframe(e1, d1, 0, FILTER1);
    QuietSubframe(Commit(e1, Burst()), ReceiveFirst(b, d, f), 1, FILTER2);
  }

  // The receiver follows the first subframe of the frame and leaves step in the second, where nothing is tamed.
  ghost predicate LeavesAtSecond(b: L.Codebooks, e: EncoderState, d: DecoderState, fc: FrameChoice)
    requires L.Shaped(b) && LegalFrame(fc)
  {
    var f, e1 := Delivered(fc), CommitLsp(b, e, fc.lsp);
    && Follows(e1, ReceiveLsp(b, d, f), fc.first, Lpc(b, d, f, 0))
    && !Tamed(G.PitchGainQ14(fc.second.ga, fc.second.gb), Commit(e1, fc.first).oldExc)
    && !InStep(CommitFrame(b, e, fc), ReceiveFrame(b, d, f))
  }

  lemma SecondFrameLeaves(b: L.Codebooks, e: EncoderState, d: DecoderState)
    requires L.Shaped(b) && StandardRows(b) && LegalFrame(SecondFrame())
    requires Ready(e, d, 2) && d.lsp == L.DecodeState(b, L.Cold(), FIRST)
    ensures LeavesAtSecond(b, e, d, SecondFrame())
  {
    hide Ready, LegalFrame, Delivered, FirstDelay, SecondDelay, FrameCode, L.DecodeFilters, Burst, CodeOf, StandardRows,
      Commit, Receive, Lpc, Pulses, Playing, ReceiveLsp, CommitLsp, L.DecodeState, InStep, Follows, Tamed;
    var fc := SecondFrame();
    var f := Delivered(fc);
    LspReady(b, e, d, fc, 2);
    BurstsCross(b, d, fc);
    SecondFilters(b);
    Passes();
    ChoiceIs();
    var e1, d1 := CommitLsp(b, e, fc.lsp), ReceiveLsp(b, d, f);
    QuietSubframe(e1, d1, 2, FILTER3);
    var e2, d2 := Commit(e1, Burst()), ReceiveFirst(b, d, f);
    NotTamed(e2, d2, 3);
    LoudSubframe(e2, d2);
  }

  // Two legal frames from the cold start: the receiver follows the first three subframes, nothing is tamed
  // in the fourth either, and overflow recovery takes the two sides out of step there.
  lemma RecoveryDiverges(b: L.Codebooks)
    requires L.Shaped(b) && StandardRows(b)
    ensures LegalFrame(FirstFrame()) && FollowsFrame(b, ColdEncoder(), ColdDecoder(), FirstFrame())
    ensures var e := CommitFrame(b, ColdEncoder(), FirstFrame());
            var d := ReceiveFrame(b, ColdDecoder(), Delivered(FirstFrame()));
            LegalFrame(SecondFrame()) && LeavesAtSecond(b, e, d, SecondFrame())
  {
    hide Ready, LegalFrame, Delivered, L.DecodeFilters, StandardRows, L.DecodeState, FollowsFrame, LeavesAtSecond,
      FirstFrame, SecondFrame, CommitFrame, ReceiveFrame;
    FramesAreLegal();
    FirstFrameReady(b);
    FrameLsp(b, ColdEncoder(), ColdDecoder(), FirstFrame());
    FirstIndices();
    SecondFrameLeaves(b, CommitFrame(b, ColdEncoder(), FirstFrame()),
      ReceiveFrame(b, ColdDecoder(), Delivered(FirstFrame())));
  }

  lemma FirstIndices()
    ensures FirstFrame().lsp == FIRST && ColdDecoder().lsp == L.Cold()
  {
  }
}
