/** LSF to LSP conversion and its inverse, section 3.2.5 of ITU-T G.729
    (internal/lsp/lsf_lsp.go, internal/lsp/lsp_lsf.go). */
module LsfLsp {
  import opened Fixed

  const LSP_PI_Q13: int := 25736
  const LSF_TO_COS_SCALE_Q15: int := 20861

  // Cosine at the cell boundaries, Q15 (internal/tables/lsp_cos.go).
  function CosLsp(i: nat): int
    requires i < 65
  {
    if i == 0 then 32767 else if i == 1 then 32729 else if i == 2 then 32610 else if i == 3 then 32413
    else if i == 4 then 32138 else if i == 5 then 31786 else if i == 6 then 31357 else if i == 7 then 30853
    else if i == 8 then 30274 else if i == 9 then 29622 else if i == 10 then 28899 else if i == 11 then 28106
    else if i == 12 then 27246 else if i == 13 then 26320 else if i == 14 then 25330 else if i == 15 then 24279
    else if i == 16 then 23170 else if i == 17 then 22006 else if i == 18 then 20788 else if i == 19 then 19520
    else if i == 20 then 18205 else if i == 21 then 16846 else if i == 22 then 15447 else if i == 23 then 14010
    else if i == 24 then 12540 else if i == 25 then 11039 else if i == 26 then 9512 else if i == 27 then 7962
    else if i == 28 then 6393 else if i == 29 then 4808 else if i == 30 then 3212 else if i == 31 then 1608
    else if i == 32 then 0 else if i == 33 then -1608 else if i == 34 then -3212 else if i == 35 then -4808
    else if i == 36 then -6393 else if i == 37 then -7962 else if i == 38 then -9512 else if i == 39 then -11039
    else if i == 40 then -12540 else if i == 41 then -14010 else if i == 42 then -15447 else if i == 43 then -16846
    else if i == 44 then -18205 else if i == 45 then -19520 else if i == 46 then -20788 else if i == 47 then -22006
    else if i == 48 then -23170 else if i == 49 then -24279 else if i == 50 then -25330 else if i == 51 then -26320
    else if i == 52 then -27246 else if i == 53 then -28106 else if i == 54 then -28899 else if i == 55 then -29622
    else if i == 56 then -30274 else if i == 57 then -30853 else if i == 58 then -31357 else if i == 59 then -31786
    else if i == 60 then -32138 else if i == 61 then -32413 else if i == 62 then -32610 else if i == 63 then -32729
    else -32768
  }

  // Interpolation slope of each cell.
  function CosLspSlope(i: nat): int
    requires i < 64
  {
    if i == 0 then -631 else if i == 1 then -1893 else if i == 2 then -3150 else if i == 3 then -4399
    else if i == 4 then -5638 else if i == 5 then -6863 else if i == 6 then -8072 else if i == 7 then -9261
    else if i == 8 then -10428 else if i == 9 then -11570 else if i == 10 then -12684 else if i == 11 then -13767
    else if i == 12 then -14817 else if i == 13 then -15832 else if i == 14 then -16808 else if i == 15 then -17744
    else if i == 16 then -18637 else if i == 17 then -19486 else if i == 18 then -20287 else if i == 19 then -21039
    else if i == 20 then -21741 else if i == 21 then -22390 else if i == 22 then -22986 else if i == 23 then -23526
    else if i == 24 then -24009 else if i == 25 then -24435 else if i == 26 then -24801 else if i == 27 then -25108
    else if i == 28 then -25354 else if i == 29 then -25540 else if i == 30 then -25664 else if i == 31 then -25726
    else if i == 32 then -25726 else if i == 33 then -25664 else if i == 34 then -25540 else if i == 35 then -25354
    else if i == 36 then -25108 else if i == 37 then -24801 else if i == 38 then -24435 else if i == 39 then -24009
    else if i == 40 then -23526 else if i == 41 then -22986 else if i == 42 then -22390 else if i == 43 then -21741
    else if i == 44 then -21039 else if i == 45 then -20287 else if i == 46 then -19486 else if i == 47 then -18637
    else if i == 48 then -17744 else if i == 49 then -16808 else if i == 50 then -15832 else if i == 51 then -14817
    else if i == 52 then -13767 else if i == 53 then -12684 else if i == 54 then -11570 else if i == 55 then -10428
    else if i == 56 then -9261 else if i == 57 then -8072 else if i == 58 then -6863 else if i == 59 then -5638
    else if i == 60 then -4399 else if i == 61 then -3150 else if i == 62 then -1893
    else -631
  }

  // ---------- forward conversion ----------

  // The table coordinate of an angle: six bits of cell, eight bits of fraction.
  function Coordinate(omega: int): (q: nat)
    ensures q < 16384
  {
    var w := if omega < 0 then 0 else omega;
    var q := (w * LSF_TO_COS_SCALE_Q15) / 0x8000;
    if q > 16383 then 16383 else q
  }

  // The interpolated value of cell i at fraction f, before clamping.
  function CellValue(i: nat, f: nat): int
    requires i < 64
  {
    CosLsp(i) + (CosLspSlope(i) * f) / 4096
  }

  function ValueAt(q: nat): Word16
    requires q < 16384
  {
    Sat16(CellValue(q / 256, q % 256))
  }

  function LsfToLsp(omega: int): Word16 {
    ValueAt(Coordinate(omega))
  }

  // ---------- the shape of the table ----------

  // Cells fall steeply, and no cell starts more than 2 above where the one before it ends.
  predicate CellOk(i: nat)
    requires i < 64
  {
    && CosLspSlope(i) <= -631
    && (i == 63 ==> CosLsp(i) == -32729 && CosLspSlope(i) == -631)
    && (i < 63 ==>
          -32610 <= CosLsp(i) <= 32767 && CosLsp(i + 1) + 3 <= CosLsp(i) && CosLsp(i + 1) <= CellValue(i, 255) + 2)
  }

  lemma SlopeRange(i: nat)
    requires i < 64
    ensures CosLspSlope(i) <= -631
  {
  }

  lemma BoundaryRange(i: nat)
    requires i < 63
    ensures -32610 <= CosLsp(i) <= 32767 && CosLsp(i + 1) + 3 <= CosLsp(i)
  {
  }

  lemma CellEnd(i: nat)
    requires i < 63
    ensures CosLsp(i + 1) <= CellValue(i, 255) + 2
  {
    if i < 16 {
    } else if i < 32 {
    } else if i < 48 {
    } else {
    }
  }

  lemma Cell(i: nat)
    requires i < 64
    ensures CellOk(i)
  {
    LastCell();
    hide CosLsp, CosLspSlope, CellValue;
    SlopeRange(i);
    if i < 63 {
      BoundaryRange(i);
      CellEnd(i);
    }
  }

  lemma LastCell()
    ensures CosLsp(63) == -32729 && CosLspSlope(63) == -631
  {
  }

  lemma CellFalls(i: nat, f1: nat, f2: nat)
    requires i < 64 && f1 <= f2
    ensures CellValue(i, f2) <= CellValue(i, f1)
    ensures f2 - f1 >= 39 ==> CellValue(i, f2) <= CellValue(i, f1) - 3
  {
    hide CosLsp, CosLspSlope;
    Cell(i);
    var m, d := CosLspSlope(i), f2 - f1;
    MulMono(m, -631, d);
    assert m * f2 == m * f1 + m * d;
  }

  lemma {:induction false} BoundariesFall(i: nat, j: nat)
    requires i < j < 64
    ensures CosLsp(j) + 3 * (j - i) <= CosLsp(i)
    decreases j - i
  {
    hide CosLsp, CosLspSlope;
    Cell(j - 1);
    if i < j - 1 {
      BoundariesFall(i, j - 1);
    }
  }

  lemma CellRange(i: nat, f: nat)
    requires i < 64 && f < 256
    ensures CellValue(i, f) <= 32767
    ensures i < 63 || f <= 200 ==> CellValue(i, f) > -32768
  {
    hide CosLsp, CosLspSlope;
    Cell(i);
    CellFalls(i, 0, f);
    CellFalls(i, f, 255);
    if i < 63 {
      Cell(i + 1);
      assert CellValue(i, 0) == CosLsp(i);
    } else {
      assert CellValue(i, f) == -32729 + (-631 * (f as int)) / 4096;
    }
  }

  // Across 80 table steps the value strictly falls, whichever cells they lie in.
  lemma ValueFalls(q1: nat, q2: nat)
    requires q1 + 80 <= q2 < 16384
    ensures ValueAt(q2) < ValueAt(q1)
  {
    hide CosLsp, CosLspSlope, CellValue;
    var i, f1, j, f2 := q1 / 256, q1 % 256, q2 / 256, q2 % 256;
    CellRange(i, f1);
    CellRange(j, f2);
    if i == j {
      CellFalls(i, f1, f2);
    } else {
      Cell(i);
      CellFalls(i, f1, 255);
      CellFalls(j, 0, f2);
      BoundaryValue(j);
      if j > i + 1 {
        BoundariesFall(i + 1, j);
      }
    }
  }

  lemma BoundaryValue(i: nat)
    requires i < 64
    ensures CellValue(i, 0) == CosLsp(i)
  {
  }

  lemma CoordinateSteps(w1: int, w2: int)
    requires 0 <= w1 && w1 + 128 <= w2 <= LSP_PI_Q13
    ensures Coordinate(w1) + 80 <= Coordinate(w2)
  {
  }

  // The conversion strictly falls across any 128 angle units.
  lemma AngleFalls(w1: int, w2: int)
    requires 0 <= w1 && w1 + 128 <= w2 <= LSP_PI_Q13
    ensures LsfToLsp(w2) < LsfToLsp(w1)
  {
    hide Coordinate, ValueAt;
    CoordinateSteps(w1, w2);
    ValueFalls(Coordinate(w1), Coordinate(w2));
  }

  // ---------- where it rises ----------

  // Every cell but the first ends no lower than the next one starts.
  lemma CellMeets(i: nat)
    requires 1 <= i < 63
    ensures CosLsp(i + 1) <= CellValue(i, 255)
  {
    if i < 16 {
    } else if i < 32 {
    } else if i < 48 {
    } else {
    }
  }

  // From the second cell on the value never rises.
  lemma NeverRisesAfter(q1: nat, q2: nat)
    requires 256 <= q1 < q2 < 16384
    ensures CellValue(q2 / 256, q2 % 256) <= CellValue(q1 / 256, q1 % 256)
  {
    hide CosLsp, CosLspSlope, CellValue;
    var i, f1, j, f2 := q1 / 256, q1 % 256, q2 / 256, q2 % 256;
    if i == j {
      CellFalls(i, f1, f2);
    } else {
      CellMeets(i);
      CellFalls(i, f1, 255);
      CellFalls(j, 0, f2);
      BoundaryValue(j);
      if j > i + 1 {
        BoundariesFall(i + 1, j);
      }
    }
  }

  // The first cell ends two below the start of the second.
  lemma FirstCells()
    ensures CellValue(0, 246) == 32729 && CellValue(0, 247) == CellValue(0, 253) == 32728
    ensures CellValue(0, 254) == CellValue(0, 255) == 32727
    ensures CellValue(1, 0) == 32729 && CellValue(1, 1) == CellValue(1, 2) == 32728 && CellValue(1, 3) == 32727
  {
  }

  lemma FirstCell(q: nat)
    requires q < 256
    ensures q <= 246 ==> CellValue(0, q) >= 32729
    ensures 247 <= q <= 253 ==> CellValue(0, q) == 32728
    ensures 254 <= q ==> CellValue(0, q) == 32727
  {
    FirstCells();
    hide CosLsp, CosLspSlope, CellValue;
    if q <= 246 {
      CellFalls(0, q, 246);
    } else if q <= 253 {
      CellFalls(0, 247, q);
      CellFalls(0, q, 253);
    } else {
      CellFalls(0, 254, q);
      CellFalls(0, q, 255);
    }
  }

  lemma AfterFirst(q: nat)
    requires 256 <= q < 16384
    ensures var v := CellValue(q / 256, q % 256);
            && (q == 256 ==> v == 32729) && (257 <= q <= 258 ==> v == 32728) && (259 <= q ==> v <= 32727)
  {
    FirstCells();
    hide CosLsp, CosLspSlope, CellValue;
    if q > 259 {
      NeverRisesAfter(259, q);
    }
  }

  lemma RisingCoordinates(q1: nat, q2: nat)
    requires q1 < q2 < 16384
    ensures ValueAt(q1) < ValueAt(q2) <==>
            (247 <= q1 <= 255 && q2 == 256) || (254 <= q1 <= 255 && 257 <= q2 <= 258)
  {
    hide CosLsp, CosLspSlope, CellValue;
    if q1 >= 256 {
      NeverRisesAfter(q1, q2);
    } else {
      FirstCell(q1);
      CellRange(0, q1);
      if q2 < 256 {
        CellFalls(0, q1, q2);
      } else {
        AfterFirst(q2);
      }
    }
  }

  lemma CoordinateSplits(w: int)
    ensures Coordinate(w) >= 247 <==> w >= 388
    ensures Coordinate(w) >= 254 <==> w >= 399
    ensures Coordinate(w) >= 256 <==> w >= 403
    ensures Coordinate(w) >= 257 <==> w >= 404
    ensures Coordinate(w) >= 259 <==> w >= 407
  {
  }

  lemma CoordinateGrows(w1: int, w2: int)
    requires w1 <= w2
    ensures Coordinate(w1) <= Coordinate(w2)
  {
  }

  // A larger angle has a larger cosine exactly for these pairs, whatever the two angles are; so the
  // conversion falls everywhere except across the end of the first cell.
  lemma RisesExactly(w1: int, w2: int)
    requires w1 < w2
    ensures LsfToLsp(w1) < LsfToLsp(w2) <==>
            (388 <= w1 <= 402 && w2 == 403) || (399 <= w1 <= 402 && 404 <= w2 <= 406)
  {
    hide Coordinate, ValueAt;
    CoordinateGrows(w1, w2);
    CoordinateSplits(w1);
    CoordinateSplits(w2);
    if Coordinate(w1) < Coordinate(w2) {
      RisingCoordinates(Coordinate(w1), Coordinate(w2));
    }
  }

  // ---------- inverse conversion ----------

  function Distance(q: Word16, omega: int): nat {
    Abs((q as int) - LsfToLsp(omega))
  }

  // omega is no nearer to q than best, and on a tie does not come first in the preferred direction.
  predicate NoBetter(q: Word16, best: int, omega: int) {
    || Distance(q, best) < Distance(q, omega)
    || (Distance(q, best) == Distance(q, omega) && if q >= 0 then omega <= best else best <= omega)
  }

  lemma NoBetterTrans(q: Word16, a: int, b: int, c: int)
    requires NoBetter(q, a, b) && NoBetter(q, b, c)
    ensures NoBetter(q, a, c)
  {
  }

  lemma EndPoints()
    ensures LsfToLsp(0) == 32767 && LsfToLsp(LSP_PI_Q13) == -32768
  {
    assert Coordinate(0) == 0 && Coordinate(LSP_PI_Q13) == 16383;
    assert CellValue(0, 0) == 32767 && CellValue(63, 255) == -32769;
  }

  // Bisection, then a scan of 128 angles either side of where it lands.
  method LspToLsf(q: Word16) returns (omega: int)
    ensures 0 <= omega <= LSP_PI_Q13
    ensures -32768 < q < 32767 ==> forall w | 0 <= w <= LSP_PI_Q13 :: NoBetter(q, omega, w)
    ensures q == 32767 ==> omega == 0
    ensures q == -32768 ==> omega == LSP_PI_Q13
  {
    hide LsfToLsp;
    EndPoints();
    if q >= 32767 {
      return 0;
    }
    if q <= -32768 {
      return LSP_PI_Q13;
    }
    var lo, hi := 0, LSP_PI_Q13;
    while hi - lo > 1
      invariant 0 <= lo < hi <= LSP_PI_Q13
      invariant LsfToLsp(hi) <= q < LsfToLsp(lo)
      decreases hi - lo
    {
      var mid := (lo + hi) / 2;
      if LsfToLsp(mid) > q {
        lo := mid;
      } else {
        hi := mid;
      }
    }
    var bestDiff := Distance(q, lo);
    omega := lo;
    var start := if lo - 128 < 0 then 0 else lo - 128;
    var end := if hi + 128 > LSP_PI_Q13 then LSP_PI_Q13 else hi + 128;
    var w := start;
    while w <= end
      invariant start <= w <= end + 1 && 0 <= omega <= LSP_PI_Q13
      invariant bestDiff == Distance(q, omega)
      invariant NoBetter(q, omega, lo)
      invariant forall v | start <= v < w :: NoBetter(q, omega, v)
      decreases end - w
    {
      var diff := Distance(q, w);
      var tieBreak := (q >= 0 && w > omega) || (q < 0 && w < omega);
      if diff < bestDiff || (diff == bestDiff && tieBreak) {
        forall v | start <= v < w
          ensures NoBetter(q, w, v)
        {
          NoBetterTrans(q, w, omega, v);
        }
        bestDiff := diff;
        omega := w;
      }
      w := w + 1;
    }
    forall v | 0 <= v <= LSP_PI_Q13
      ensures NoBetter(q, omega, v)
    {
      if v < start {
        AngleFalls(v, lo);
        NoBetterTrans(q, omega, lo, v);
      } else if v > end {
        AngleFalls(hi, v);
        NoBetterTrans(q, omega, hi, v);
      }
    }
  }
}
