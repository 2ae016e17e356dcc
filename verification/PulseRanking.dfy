/** The ranked list of pulse candidates (SearchTopK of internal/fcbsearch/search.go): the first entries of
    the stable sort of all candidates with positive energy. */
module PulseRanking {
  import opened Fixed
  import opened PulseSearch

  const TOP_K_MAX: nat := 32

  // ---------- the sorted list ----------

  // k goes behind everything it does not rank above.
  function InsertRanked(s: Surface, l: seq<nat>, k: nat): (r: seq<nat>)
    requires Shaped(s) && InRange(l) && k < 8192
    ensures |r| == |l| + 1 && InRange(r)
  {
    if |l| == 0 || !Above(s, k, l[|l| - 1]) then l + [k]
    else InsertRanked(s, l[..|l| - 1], k) + [l[|l| - 1]]
  }

  predicate InRange(l: seq<nat>) {
    forall i | 0 <= i < |l| :: l[i] < 8192
  }

  // All candidates below n with positive energy, ranked.
  function Sorted(s: Surface, n: nat): (l: seq<nat>)
    requires Shaped(s) && n <= 8192
    ensures InRange(l) && |l| <= n
  {
    if n == 0 then []
    else
      var l := Sorted(s, n - 1);
      if E(s, n - 1) > 0 then InsertRanked(s, l, n - 1) else l
  }

  function Take(l: seq<nat>, limit: nat): seq<nat> {
    if |l| <= limit then l else l[..limit]
  }

  // i comes before j: strictly better, or level and earlier.
  predicate Precedes(s: Surface, i: nat, j: nat)
    requires Shaped(s) && i < 8192 && j < 8192
  {
    Above(s, i, j) || (!Above(s, j, i) && i < j)
  }

  // A ranked list of candidates below n.
  predicate Ranked(s: Surface, l: seq<nat>, n: nat)
    requires Shaped(s) && InRange(l)
  {
    && (forall i | 0 <= i < |l| :: l[i] < n && E(s, l[i]) > 0)
    && (forall i, j | 0 <= i < j < |l| :: Precedes(s, l[i], l[j]))
  }

  // Where InsertRanked puts k.
  predicate Slot(s: Surface, l: seq<nat>, k: nat, p: nat)
    requires Shaped(s) && InRange(l) && k < 8192
  {
    && p <= |l| && (p > 0 ==> !Above(s, k, l[p - 1]))
    && forall j | p <= j < |l| :: Above(s, k, l[j])
  }

  lemma {:induction false} InsertAtSlot(s: Surface, l: seq<nat>, k: nat, p: nat)
    requires Shaped(s) && InRange(l) && k < 8192 && Slot(s, l, k, p)
    ensures InsertRanked(s, l, k) == l[..p] + [k] + l[p..]
    decreases |l|
  {
    hide Above;
    if p < |l| {
      var init := l[..|l| - 1];
      assert Above(s, k, l[|l| - 1]);
      InsertAtSlot(s, init, k, p);
      assert l[p..] == init[p..] + [l[|l| - 1]] && init[..p] == l[..p];
    }
  }

  lemma {:induction false} SlotExists(s: Surface, l: seq<nat>, k: nat) returns (p: nat)
    requires Shaped(s) && InRange(l) && k < 8192
    ensures Slot(s, l, k, p)
    decreases |l|
  {
    hide Above;
    if |l| == 0 || !Above(s, k, l[|l| - 1]) {
      return |l|;
    }
    p := SlotExists(s, l[..|l| - 1], k);
  }

  // Members before the slot precede k, members after it follow.
  lemma SlotSeparates(s: Surface, l: seq<nat>, k: nat, p: nat, i: nat)
    requires Shaped(s) && InRange(l) && k < 8192 && E(s, k) > 0 && Ranked(s, l, k) && Slot(s, l, k, p) && i < |l|
    ensures i < p ==> !Above(s, k, l[i]) && Precedes(s, l[i], k)
    ensures p <= i ==> Above(s, k, l[i]) && Precedes(s, k, l[i])
  {
    hide Above, E;
    if i < p - 1 {
      assert Precedes(s, l[i], l[p - 1]);
      AboveTransitive(s, k, l[i], l[p - 1]);
      AboveTransitive(s, k, l[p - 1], l[i]);
      AboveTransitive(s, l[i], l[p - 1], l[i]);
    }
  }

  lemma InsertKeepsRanked(s: Surface, l: seq<nat>, k: nat)
    requires Shaped(s) && InRange(l) && k < 8192 && E(s, k) > 0 && Ranked(s, l, k)
    ensures Ranked(s, InsertRanked(s, l, k), k + 1)
    ensures forall x :: x in InsertRanked(s, l, k) <==> x in l || x == k
  {
    hide Above, E, Precedes, Slot;
    var p := SlotExists(s, l, k);
    SlotBound(s, l, k, p);
    InsertAtSlot(s, l, k, p);
    var r := l[..p] + [k] + l[p..];
    forall i, j | 0 <= i < j < |r|
      ensures Precedes(s, r[i], r[j])
    {
      if i < p {
        SlotSeparates(s, l, k, p, i);
      }
      if j > p {
        SlotSeparates(s, l, k, p, j - 1);
      }
    }
  }

  lemma SlotBound(s: Surface, l: seq<nat>, k: nat, p: nat)
    requires Shaped(s) && InRange(l) && k < 8192 && Slot(s, l, k, p)
    ensures p <= |l|
  {
  }

  // The list is a stable sort: in order, and exactly the candidates with positive energy.
  lemma {:induction false} SortedRanked(s: Surface, n: nat)
    requires Shaped(s) && n <= 8192
    ensures Ranked(s, Sorted(s, n), n)
    ensures forall k: nat | k < n :: k in Sorted(s, n) <==> E(s, k) > 0
  {
    hide E, Precedes, InsertRanked;
    if n > 0 {
      SortedRanked(s, n - 1);
      if E(s, n - 1) > 0 {
        InsertKeepsRanked(s, Sorted(s, n - 1), n - 1);
      }
    }
  }

  // Its head is the exhaustive search's answer.
  lemma HeadIsFirstBest(s: Surface)
    requires Shaped(s)
    ensures Sorted(s, 8192) == [] <==> NoneEligible(s, 0, 8192)
    ensures Sorted(s, 8192) != [] ==> FirstBest(s, 0, 8192, Sorted(s, 8192)[0])
  {
    hide E, Above, Sorted;
    SortedRanked(s, 8192);
    var l := Sorted(s, 8192);
    if l != [] {
      assert l[0] in l && Eligible(s, 0, l[0]);
      forall j: nat | j < 8192 && Eligible(s, 0, j)
        ensures !Above(s, j, l[0]) && (j < l[0] ==> Above(s, l[0], j))
      {
        var i :| 0 <= i < |l| && l[i] == j;
        AboveTransitive(s, l[0], j, j);
        AboveTransitive(s, j, j, j);
        if i > 0 {
          assert Precedes(s, l[0], l[i]);
        }
      }
    } else {
      assert forall j: nat | j < 8192 :: j !in l;
    }
  }

  // ---------- keeping only the first entries ----------

  // The bounded list develops like the unbounded one.
  lemma TakeInsert(s: Surface, l: seq<nat>, k: nat, limit: nat)
    requires Shaped(s) && InRange(l) && k < 8192 && E(s, k) > 0 && Ranked(s, l, k) && limit >= 1
    ensures var t := Take(l, limit);
            Take(InsertRanked(s, l, k), limit)
            == if |t| == limit && !Above(s, k, t[limit - 1]) then t else Take(InsertRanked(s, t, k), limit)
  {
    hide Above, E, Precedes, Ranked, Slot;
    var t := Take(l, limit);
    var p := SlotExists(s, l, k);
    SlotBound(s, l, k, p);
    InsertAtSlot(s, l, k, p);
    if |t| == limit {
      SlotSeparates(s, l, k, p, limit - 1);
      TakeSlot(l, k, p, limit);
      if p < limit {
        SlotPrefix(s, l, k, p, limit);
        InsertAtSlot(s, t, k, p);
      }
    }
  }

  lemma TakeSlot(l: seq<nat>, k: nat, p: nat, limit: nat)
    requires p <= |l| && limit <= |l|
    ensures p >= limit ==> Take(l[..p] + [k] + l[p..], limit) == l[..limit]
    ensures p < limit ==> Take(l[..p] + [k] + l[p..], limit) == Take(l[..limit][..p] + [k] + l[..limit][p..], limit)
  {
    var r := l[..p] + [k] + l[p..];
    if p >= limit {
      assert r[..limit] == l[..limit];
    } else {
      assert r[..limit] == (l[..limit][..p] + [k] + l[..limit][p..])[..limit];
    }
  }

  lemma SlotPrefix(s: Surface, l: seq<nat>, k: nat, p: nat, limit: nat)
    requires Shaped(s) && InRange(l) && k < 8192 && Slot(s, l, k, p) && p < limit <= |l|
    ensures Slot(s, l[..limit], k, p)
  {
    hide Above;
  }

  // ---------- the loops ----------

  datatype Entry = Entry(pos: Positions, c: int, e: int)

  function EntryOf(s: Surface, k: nat): Entry
    requires Shaped(s) && k < 8192
  {
    Entry(PositionsOf(k), C(s, k), E(s, k))
  }

  // The first |l| slots of the table hold the candidates of l.
  predicate Holds(s: Surface, table: seq<Entry>, l: seq<nat>)
    requires Shaped(s) && InRange(l)
  {
    |l| <= |table| && forall i | 0 <= i < |l| :: table[i] == EntryOf(s, l[i])
  }

  // Insertion of one candidate into the table of at most `limit` entries.
  method InsertCandidate(s: Surface, k: nat, c: int, e: int, pos: Positions, table: array<Entry>, count: nat,
                         limit: nat, ghost l: seq<nat>)
    returns (count': nat)
    requires Shaped(s) && k < 8192 && c == C(s, k) && e == E(s, k) && pos == PositionsOf(k)
    requires table.Length == TOP_K_MAX && 1 <= limit <= TOP_K_MAX
    requires InRange(l) && Ranked(s, l, k)
    requires count == |Take(l, limit)| && Holds(s, table[..], Take(l, limit))
    modifies table
    ensures var l' := if E(s, k) > 0 then InsertRanked(s, l, k) else l;
            count' == |Take(l', limit)| && Holds(s, table[..], Take(l', limit))
  {
    hide C, E, PositionsOf, RatioGreater, Above, Precedes, InsertRanked;
    ghost var t := Take(l, limit);
    count' := count;
    if e <= 0 {
      return;
    }
    TakeInsert(s, l, k, limit);
    if count == limit {
      Compare(s, k, t[count - 1]);
      if !RatioGreater(c, e, table[count - 1].c, table[count - 1].e) {
        return;
      }
    }
    var p := FindSlot(s, k, c, e, table, count, t);
    InsertAtSlot(s, t, k, p);
    if count < limit {
      count' := count + 1;
    }
    ghost var r := t[..p] + [k] + t[p..];
    ShiftUp(s, table, p, count', Entry(pos, c, e), t, k);
    assert Take(r, limit) == r[..count'];
  }

  lemma Compare(s: Surface, i: nat, j: nat)
    requires Shaped(s) && i < 8192 && j < 8192 && E(s, i) > 0 && E(s, j) > 0
    ensures InDomain(C(s, i), E(s, i)) && InDomain(C(s, j), E(s, j))
    ensures RatioGreater(C(s, i), E(s, i), C(s, j), E(s, j)) <==> Above(s, i, j)
  {
    hide C, E, RatioGreater, Beats;
    InSearchDomain(s, i);
    InSearchDomain(s, j);
    RatioExact(C(s, i), E(s, i), C(s, j), E(s, j));
  }

  method FindSlot(s: Surface, k: nat, c: int, e: int, table: array<Entry>, count: nat, ghost t: seq<nat>)
    returns (p: nat)
    requires Shaped(s) && k < 8192 && c == C(s, k) && e == E(s, k) && e > 0
    requires InRange(t) && count == |t| && Holds(s, table[..], t) && forall i | 0 <= i < |t| :: E(s, t[i]) > 0
    ensures Slot(s, t, k, p)
  {
    hide C, E, PositionsOf, RatioGreater, Above;
    p := count;
    while p > 0
      invariant p <= count && forall j | p <= j < |t| :: Above(s, k, t[j])
    {
      Compare(s, k, t[p - 1]);
      if !RatioGreater(c, e, table[p - 1].c, table[p - 1].e) {
        return;
      }
      p := p - 1;
    }
  }

  // Entries p.. move up by one, the last one falling off a full table, and the new entry fills slot p.
  method MoveUp(table: array<Entry>, p: nat, count: nat)
    requires p < count <= table.Length
    modifies table
    ensures forall j | 0 <= j <= p :: table[j] == old(table[..])[j]
    ensures forall j | p < j < count :: table[j] == old(table[..])[j - 1]
  {
    ghost var was := table[..];
    var i := count - 1;
    while i > p
      invariant p <= i <= count - 1
      invariant forall j | 0 <= j <= i :: table[j] == was[j]
      invariant forall j | i < j < count :: table[j] == was[j - 1]
    {
      table[i] := table[i - 1];
      i := i - 1;
    }
  }

  method ShiftUp(s: Surface, table: array<Entry>, p: nat, count: nat, entry: Entry, ghost t: seq<nat>, ghost k: nat)
    requires Shaped(s) && k < 8192 && entry == EntryOf(s, k)
    requires InRange(t) && p < count <= |t| + 1 && count <= table.Length && |t| <= count && Holds(s, table[..], t)
    modifies table
    ensures var r := t[..p] + [k] + t[p..];
            InRange(r[..count]) && Holds(s, table[..], r[..count])
  {
    ghost var was := table[..];
    MoveUp(table, p, count);
    table[p] := entry;
    ShiftHolds(s, table[..], was, p, count, t, k);
  }

  lemma ShiftHolds(s: Surface, table: seq<Entry>, was: seq<Entry>, p: nat, count: nat, t: seq<nat>, k: nat)
    requires Shaped(s) && k < 8192 && InRange(t) && p < count <= |t| + 1 && count <= |table| == |was| && |t| <= count
    requires Holds(s, was, t) && table[p] == EntryOf(s, k)
    requires forall j | 0 <= j < p :: table[j] == was[j]
    requires forall j | p < j < count :: table[j] == was[j - 1]
    ensures var r := t[..p] + [k] + t[p..];
            InRange(r[..count]) && Holds(s, table, r[..count])
  {
    hide EntryOf;
  }

  // limit is first forced into 1..32.
  method SearchTopK(s: Surface, limit: int) returns (positions: seq<Positions>)
    requires Shaped(s)
    ensures var n := if limit < 1 then 1 else if limit > TOP_K_MAX then TOP_K_MAX else limit;
            var l := Take(Sorted(s, 8192), n);
            if l == [] then positions == [[0, 1, 2, 3]]
            else |positions| == |l| && forall i | 0 <= i < |l| :: positions[i] == PositionsOf(l[i])
  {
    hide C, E, Sorted, Above, PositionsOf;
    var n := if limit < 1 then 1 else if limit > TOP_K_MAX then TOP_K_MAX else limit;
    var table := new Entry[TOP_K_MAX](_ => Entry([0, 1, 2, 3], 0, 0));
    var count: nat := 0;
    NothingSorted(s);
    for i0 := 0 to 8
      invariant Table(s, table[..], count, 1024 * i0, n)
    {
      for i1 := 0 to 8
        invariant Table(s, table[..], count, 1024 * i0 + 128 * i1, n)
      {
        count := InnerLoops(s, i0, i1, table, count, n);
      }
    }
    if count == 0 {
      return [[0, 1, 2, 3]];
    }
    var t := table[..];
    positions := seq(count, i requires 0 <= i < count <= |t| => t[i].pos);
  }

  // The third and fourth tracks for one pair of leading pulses.
  method InnerLoops(s: Surface, i0: nat, i1: nat, table: array<Entry>, count: nat, limit: nat) returns (count': nat)
    requires Shaped(s) && i0 < 8 && i1 < 8 && 1 <= limit <= TOP_K_MAX
    requires Table(s, table[..], count, 1024 * i0 + 128 * i1, limit)
    modifies table
    ensures Table(s, table[..], count', 1024 * i0 + 128 * i1 + 128, limit)
  {
    hide C, E, Sorted, Above, PositionsOf, Table;
    count' := count;
    for i2 := 0 to 8
      invariant Table(s, table[..], count', 1024 * i0 + 128 * i1 + 16 * i2, limit)
    {
      for i3 := 0 to 16
        invariant Table(s, table[..], count', 1024 * i0 + 128 * i1 + 16 * i2 + i3, limit)
      {
        IndexBack(i0, i1, i2, i3);
        var p := At(i0, i1, i2, i3);
        ScoreOf(s, i0, i1, i2, i3);
        count' := OneCandidate(s, Index(i0, i1, i2, i3), CorrelationOf(s, p), EnergyOf(s, p), p, table, count', limit);
      }
    }
  }

  predicate Table(s: Surface, table: seq<Entry>, count: nat, k: nat, limit: nat)
    requires Shaped(s) && k <= 8192
  {
    |table| == TOP_K_MAX && count == |Take(Sorted(s, k), limit)| && Holds(s, table, Take(Sorted(s, k), limit))
  }

  lemma NothingSorted(s: Surface)
    requires Shaped(s)
    ensures Sorted(s, 0) == []
  {
  }

  lemma ScoreOf(s: Surface, i0: nat, i1: nat, i2: nat, i3: nat)
    requires Shaped(s) && i0 < 8 && i1 < 8 && i2 < 8 && i3 < 16
    ensures Index(i0, i1, i2, i3) < 8192
    ensures C(s, Index(i0, i1, i2, i3)) == CorrelationOf(s, At(i0, i1, i2, i3))
    ensures E(s, Index(i0, i1, i2, i3)) == EnergyOf(s, At(i0, i1, i2, i3))
  {
    IndexBack(i0, i1, i2, i3);
  }

  method OneCandidate(s: Surface, k: nat, c: int, e: int, pos: Positions, table: array<Entry>, count: nat, limit: nat)
    returns (count': nat)
    requires Shaped(s) && k < 8192 && c == C(s, k) && e == E(s, k) && pos == PositionsOf(k)
    requires 1 <= limit <= TOP_K_MAX && Table(s, table[..], count, k, limit)
    modifies table
    ensures Table(s, table[..], count', k + 1, limit)
  {
    hide C, E, PositionsOf, Above, Precedes, InsertRanked;
    SortedRanked(s, k);
    count' := InsertCandidate(s, k, c, e, pos, table, count, limit, Sorted(s, k));
  }
}
