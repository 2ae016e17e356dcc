/** The LSF ordering and spacing rules of section 3.2.4 of ITU-T G.729 (internal/lsp/stability.go). */
module LsfStability {
  import opened Fixed

  const LSF_MIN_EDGE: Word16 := 41
  const LSF_MIN_GAP: Word16 := 321
  const LSF_MAX_EDGE: Word16 := 25682
  const LSF_REARR_J1: Word16 := 10
  const LSF_REARR_J2: Word16 := 5

  type Lsf = l: seq<Word16> | |l| == 10 witness [0, 0, 0, 0, 0, 0, 0, 0, 0, 0]

  // ---------- insertion sort ----------

  // v placed behind the last element that does not exceed it.
  function Insert(t: seq<Word16>, v: Word16): (r: seq<Word16>)
    ensures |r| == |t| + 1
  {
    if |t| == 0 || t[|t| - 1] <= v then t + [v]
    else Insert(t[..|t| - 1], v) + [t[|t| - 1]]
  }

  function InsertionSort(s: seq<Word16>): (r: seq<Word16>)
    ensures |r| == |s|
  {
    if |s| == 0 then [] else Insert(InsertionSort(s[..|s| - 1]), s[|s| - 1])
  }

  predicate Ordered(s: seq<Word16>) {
    forall i, j | 0 <= i < j < |s| :: s[i] <= s[j]
  }

  lemma {:induction false} InsertKeeps(t: seq<Word16>, v: Word16)
    ensures multiset(Insert(t, v)) == multiset(t) + multiset{v}
  {
    if |t| == 0 || t[|t| - 1] <= v {
    } else {
      var init := t[..|t| - 1];
      assert t == init + [t[|t| - 1]];
      InsertKeeps(init, v);
    }
  }

  lemma OrderedAppend(t: seq<Word16>, x: Word16)
    requires Ordered(t) && forall i | 0 <= i < |t| :: t[i] <= x
    ensures Ordered(t + [x])
  {
  }

  lemma {:induction false} InsertOrdered(t: seq<Word16>, v: Word16, top: Word16)
    requires Ordered(t) && v <= top && forall i | 0 <= i < |t| :: t[i] <= top
    ensures Ordered(Insert(t, v)) && forall i | 0 <= i <= |t| :: Insert(t, v)[i] <= top
  {
    if |t| == 0 || t[|t| - 1] <= v {
    } else {
      var init, last := t[..|t| - 1], t[|t| - 1];
      InsertOrdered(init, v, last);
      OrderedAppend(Insert(init, v), last);
    }
  }

  lemma {:induction false} InsertionSortOrders(s: seq<Word16>)
    ensures Ordered(InsertionSort(s)) && multiset(InsertionSort(s)) == multiset(s)
  {
    if |s| > 0 {
      var init := s[..|s| - 1];
      assert s == init + [s[|s| - 1]];
      InsertionSortOrders(init);
      InsertOrdered(InsertionSort(init), s[|s| - 1], MAX16);
      InsertKeeps(InsertionSort(init), s[|s| - 1]);
    }
  }

  lemma {:induction false} OrderedUnchanged(s: seq<Word16>)
    requires Ordered(s)
    ensures InsertionSort(s) == s
  {
    if |s| > 0 {
      OrderedUnchanged(s[..|s| - 1]);
    }
  }

  lemma InsertStep(t: seq<Word16>, v: Word16, j: nat)
    requires j < |t| && t[j] > v
    ensures Insert(t[..j + 1], v) + t[j + 1..] == Insert(t[..j], v) + t[j..]
  {
    assert t[..j + 1][..j] == t[..j];
    assert t[j..] == [t[j]] + t[j + 1..];
  }

  // The inner loop's array: the ordered prefix t of the original s0 with a free slot at j + 1.
  predicate OpenSlot(s: Lsf, s0: Lsf, t: seq<Word16>, j: int) {
    && -1 <= j < |t| < 10
    && (forall k | 0 <= k <= j :: s[k] == t[k])
    && (forall k | j < k < |t| :: s[k + 1] == t[k])
    && (forall k | |t| < k < 10 :: s[k] == s0[k])
  }

  lemma MoveSlot(s: Lsf, s0: Lsf, t: seq<Word16>, j: int)
    requires OpenSlot(s, s0, t, j) && j >= 0
    ensures s[j] == t[j] && OpenSlot(s[j + 1 := s[j]], s0, t, j - 1)
  {
  }

  lemma CloseSlot(s: Lsf, s0: Lsf, t: seq<Word16>, v: Word16, j: int)
    requires OpenSlot(s, s0, t, j) && (j >= 0 ==> s[j] <= v)
    requires Insert(t, v) == Insert(t[..j + 1], v) + t[j + 1..]
    ensures s[j + 1 := v][..|t| + 1] == Insert(t, v)
    ensures forall k | |t| < k < 10 :: s[j + 1 := v][k] == s0[k]
  {
    assert Insert(t[..j + 1], v) == t[..j + 1] + [v];
  }

  // The inner loop: a[i] slides down into the ordered prefix.
  method SlideDown(a: array<Word16>, i: nat)
    requires a.Length == 10 && 1 <= i < 10
    modifies a
    ensures a[..i + 1] == Insert(old(a[..i]), old(a[i]))
    ensures forall k | i < k < 10 :: a[k] == old(a[k])
  {
    hide Insert;
    ghost var s0: Lsf, t := a[..], a[..i];
    var v := a[i];
    var j := i - 1;
    assert t[..j + 1] == t && t[j + 1..] == [];
    assert OpenSlot(a[..], s0, t, j);
    hide OpenSlot;
    while j >= 0 && a[j] > v
      invariant -1 <= j < i
      invariant OpenSlot(a[..], s0, t, j)
      invariant Insert(t, v) == Insert(t[..j + 1], v) + t[j + 1..]
    {
      ghost var s: Lsf := a[..];
      MoveSlot(s, s0, t, j);
      InsertStep(t, v, j);
      a[j + 1] := a[j];
      assert a[..] == s[j + 1 := s[j]];
      j := j - 1;
    }
    ghost var s: Lsf := a[..];
    CloseSlot(s, s0, t, v, j);
    a[j + 1] := v;
    assert a[..] == s[j + 1 := v];
    assert a[..i + 1] == a[..][..i + 1];
  }

  method InsertionSort10(a: array<Word16>)
    requires a.Length == 10
    modifies a
    ensures a[..] == InsertionSort(old(a[..]))
  {
    ghost var s := a[..];
    assert InsertionSort(s[..1]) == s[..1];
    for i := 1 to 10
      invariant a[..i] == InsertionSort(s[..i])
      invariant forall k | i <= k < 10 :: a[k] == s[k]
    {
      assert s[..i + 1][..i] == s[..i];
      SlideDown(a, i);
    }
    assert a[..] == a[..10] && s[..10] == s;
  }

  // ---------- spacing ----------

  // The forward pass over indices 1..n-1.
  function Forward(s: Lsf, n: nat): (r: Lsf)
    requires 1 <= n <= 10
    ensures r[n..] == s[n..]
  {
    if n == 1 then s
    else
      var r := Forward(s, n - 1);
      r[n - 1 := Max(r[n - 1], Add(r[n - 2], LSF_MIN_GAP))]
  }

  // The backward pass over indices 8 down to n.
  function Backward(s: Lsf, n: nat): (r: Lsf)
    requires n <= 9
    ensures r[..n] == s[..n]
    decreases 9 - n
  {
    if n == 9 then s
    else
      var r := Backward(s, n + 1);
      r[n := Min(r[n], Sub(r[n + 1], LSF_MIN_GAP))]
  }

  function Spread(s: Lsf): Lsf {
    Forward(s[0 := Max(s[0], LSF_MIN_EDGE)], 10)
  }

  function EnforceLsfStability(s: Lsf): Lsf {
    var f := Spread(InsertionSort(s));
    if f[9] > LSF_MAX_EDGE then Backward(f[9 := LSF_MAX_EDGE], 0) else f
  }

  method ForwardPass(lsf: array<Word16>)
    requires lsf.Length == 10
    modifies lsf
    ensures lsf[..] == Forward(old(lsf[..]), 10)
  {
    hide Add;
    for i := 1 to 10
      invariant lsf[..] == Forward(old(lsf[..]), i)
    {
      ghost var r: Lsf := lsf[..];
      var minNext := Add(lsf[i - 1], LSF_MIN_GAP);
      RaiseTo(lsf, i, minNext);
      assert lsf[..] == r[i := Max(r[i], Add(r[i - 1], LSF_MIN_GAP))];
    }
  }

  method BackwardPass(lsf: array<Word16>)
    requires lsf.Length == 10
    modifies lsf
    ensures lsf[..] == Backward(old(lsf[..]), 0)
  {
    hide Sub;
    var i := 9;
    while i > 0
      invariant 0 <= i <= 9
      invariant lsf[..] == Backward(old(lsf[..]), i)
    {
      ghost var r: Lsf := lsf[..];
      var maxPrev := Sub(lsf[i], LSF_MIN_GAP);
      LowerTo(lsf, i - 1, maxPrev);
      assert lsf[..] == r[i - 1 := Min(r[i - 1], Sub(r[i], LSF_MIN_GAP))];
      i := i - 1;
    }
  }

  method RaiseTo(lsf: array<Word16>, i: nat, floor: Word16)
    requires lsf.Length == 10 && i < 10
    modifies lsf
    ensures var m: Word16 := Max(old(lsf[i]), floor);
            lsf[..] == old(lsf[..])[i := m]
  {
    if lsf[i] < floor {
      lsf[i] := floor;
    }
  }

  method LowerTo(lsf: array<Word16>, i: nat, ceiling: Word16)
    requires lsf.Length == 10 && i < 10
    modifies lsf
    ensures var m: Word16 := Min(old(lsf[i]), ceiling);
            lsf[..] == old(lsf[..])[i := m]
  {
    if lsf[i] > ceiling {
      lsf[i] := ceiling;
    }
  }

  method EnforceLsfStabilityInPlace(lsf: array<Word16>)
    requires lsf.Length == 10
    modifies lsf
    ensures lsf[..] == EnforceLsfStability(old(lsf[..]))
  {
    hide InsertionSort, Forward, Backward;
    InsertionSort10(lsf);
    ghost var sorted: Lsf := lsf[..];
    RaiseTo(lsf, 0, LSF_MIN_EDGE);
    assert lsf[..] == sorted[0 := Max(sorted[0], LSF_MIN_EDGE)];
    ForwardPass(lsf);
    if lsf[9] > LSF_MAX_EDGE {
      ghost var f: Lsf := lsf[..];
      lsf[9] := LSF_MAX_EDGE;
      assert lsf[..] == f[9 := LSF_MAX_EDGE];
      BackwardPass(lsf);
    }
  }

  // ---------- what the result satisfies ----------

  predicate Spaced(x: int, y: int) {
    y >= x + 321
  }

  predicate Stable(s: Lsf) {
    && LSF_MIN_EDGE <= s[0]
    && s[9] <= LSF_MAX_EDGE
    && forall i | 0 <= i < 9 :: Spaced(s[i], s[i + 1])
  }

  // The forward pass leaves every gap, except where it ran into the 16-bit limit, and keeps each
  // angle above its floor.
  lemma {:induction false} ForwardSpaces(s: Lsf, n: nat)
    requires 1 <= n <= 10 && s[0] >= LSF_MIN_EDGE
    ensures forall i | 1 <= i < n :: SpacedOrFull(Forward(s, n), i)
    ensures forall i | 0 <= i < n :: Forward(s, n)[i] >= 41 + 321 * i
  {
    if n > 1 {
      ForwardSpaces(s, n - 1);
      var p, r := Forward(s, n - 1), Forward(s, n);
      assert r == p[n - 1 := Max(p[n - 1], Add(p[n - 2], LSF_MIN_GAP))];
      forall i | 1 <= i < n
        ensures SpacedOrFull(r, i)
      {
        if i < n - 1 {
          assert SpacedOrFull(p, i);
        }
      }
    }
  }

  predicate SpacedOrFull(r: Lsf, i: nat)
    requires 1 <= i < 10
  {
    Spaced(r[i - 1], r[i]) || r[i] == MAX16
  }

  lemma {:induction false} BackwardSpaces(s: Lsf, n: nat)
    requires n <= 9 && s[9] == LSF_MAX_EDGE
    requires forall i | 0 <= i < 9 :: s[i] >= 41 + 321 * i
    ensures var r := Backward(s, n);
            && r[9] == LSF_MAX_EDGE
            && (forall i | n <= i < 10 :: 41 + 321 * i <= r[i] <= LSF_MAX_EDGE)
            && (forall i | n <= i < 9 :: Spaced(r[i], r[i + 1]))
    decreases 9 - n
  {
    if n < 9 {
      BackwardSpaces(s, n + 1);
    }
  }

  // Whatever the ten 16-bit values, the result is stable.
  lemma EnforceStable(s: Lsf)
    ensures Stable(EnforceLsfStability(s))
  {
    var t: Lsf := InsertionSort(s);
    var u: Lsf := t[0 := Max(t[0], LSF_MIN_EDGE)];
    var f := Forward(u, 10);
    ForwardSpaces(u, 10);
    if f[9] > LSF_MAX_EDGE {
      BackwardSpaces(f[9 := LSF_MAX_EDGE], 0);
    } else {
      forall i | 0 <= i < 9
        ensures Spaced(f[i], f[i + 1])
      {
        StepsUp(f, i + 1, 9);
        assert SpacedOrFull(f, i + 1);
      }
    }
  }

  lemma {:induction false} StepsUp(f: Lsf, i: nat, j: nat)
    requires i <= j < 10
    requires forall k | 1 <= k < 10 :: SpacedOrFull(f, k)
    ensures f[i] <= f[j]
    decreases j - i
  {
    if i < j {
      StepsUp(f, i, j - 1);
      assert SpacedOrFull(f, j);
    }
  }

  lemma {:induction false} ForwardUnchanged(s: Lsf, n: nat)
    requires 1 <= n <= 10 && Stable(s)
    ensures Forward(s, n) == s
  {
    if n > 1 {
      ForwardUnchanged(s, n - 1);
      StableOrdered(s, n - 2, 9);
    }
  }

  lemma {:induction false} StableOrdered(s: Lsf, i: nat, j: nat)
    requires i <= j < 10 && Stable(s)
    ensures s[i] + 321 * (j - i) <= s[j]
    decreases j - i
  {
    if i < j {
      StableOrdered(s, i, j - 1);
    }
  }

  // The vectors left alone are exactly the stable ones; in particular the routine is idempotent.
  lemma EnforceFixpoint(s: Lsf)
    ensures EnforceLsfStability(s) == s <==> Stable(s)
    ensures EnforceLsfStability(EnforceLsfStability(s)) == EnforceLsfStability(s)
  {
    EnforceStable(s);
    StableUnchanged(EnforceLsfStability(s));
    if Stable(s) {
      StableUnchanged(s);
    }
  }

  lemma StableUnchanged(s: Lsf)
    requires Stable(s)
    ensures EnforceLsfStability(s) == s
  {
    forall i, j | 0 <= i < j < 10
      ensures s[i] <= s[j]
    {
      StableOrdered(s, i, j);
    }
    OrderedUnchanged(s);
    assert s[0 := Max(s[0], LSF_MIN_EDGE)] == s;
    ForwardUnchanged(s, 10);
  }

  // ---------- pre-predictor rearrangement ----------

  // The gap and the correction are int16 expressions.
  function RearrangePair(s: Lsf, J: Word16, i: nat): Lsf
    requires 1 <= i < 10
  {
    var gap := Int16(s[i] as int - s[i - 1]);
    if gap < J then
      var correction := Int16(Int16(J as int - gap) as int / 2);
      s[i - 1 := Sub(s[i - 1], correction)][i := Add(s[i], correction)]
    else s
  }

  // A pair too close is moved apart about its own mean, to the wanted gap or one less; nothing else moves.
  lemma PairSpread(s: Lsf, J: Word16, i: nat)
    requires 1 <= i < 10 && 0 <= J <= 1000 && 0 <= s[i - 1] <= 26000 && 0 <= s[i] <= 26000
    ensures var r := RearrangePair(s, J, i);
            && (s[i] as int - s[i - 1] >= J ==> r == s)
            && (s[i] as int - s[i - 1] < J ==> J - 1 <= r[i] as int - r[i - 1] <= J)
            && r[i] as int + r[i - 1] == s[i] as int + s[i - 1]
            && forall j | 0 <= j < 10 && j != i && j != i - 1 :: r[j] == s[j]
  {
  }

  function RearrangeTo(s: Lsf, J: Word16, n: nat): Lsf
    requires 1 <= n <= 10
  {
    if n == 1 then s else RearrangePair(RearrangeTo(s, J, n - 1), J, n - 1)
  }

  function RearrangeTwice(s: Lsf): Lsf {
    RearrangeTo(RearrangeTo(s, LSF_REARR_J1, 10), LSF_REARR_J2, 10)
  }

  method RearrangeAdjacent(lsf: array<Word16>, J: Word16)
    requires lsf.Length == 10
    modifies lsf
    ensures lsf[..] == RearrangeTo(old(lsf[..]), J, 10)
  {
    for i := 1 to 10
      invariant lsf[..] == RearrangeTo(old(lsf[..]), J, i)
    {
      ghost var s: Lsf := lsf[..];
      var gap := Int16(lsf[i] as int - lsf[i - 1]);
      if gap < J {
        var correction := Int16(Int16(J as int - gap) as int / 2);
        lsf[i - 1] := Sub(lsf[i - 1], correction);
        lsf[i] := Add(lsf[i], correction);
      }
      assert lsf[..] == RearrangePair(s, J, i);
    }
  }
}
