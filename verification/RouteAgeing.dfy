/** What the ageing pass and the eviction scan of the routing table achieve, on any table. */
module RouteAgeing {
  import opened Common
  import opened RouteTable

  // ---- The swap-with-tail pass ----------------------------------------------

  predicate Survives(e: RouteEntry) {
    e.Pinned() || e.Counter() < RT_MAX_AGE
  }

  /** A surviving entry one cycle later: a pinned one is left alone. */
  function AfterCycle(e: RouteEntry): RouteEntry
    requires Survives(e)
  {
    if e.Pinned() then e else e.Older()
  }

  /** The plain meaning of ageing: each entry once, in order, without moving anything. */
  function Survivors(s: seq<RouteEntry>): seq<RouteEntry> {
    if s == [] then []
    else if Survives(s[0]) then [AfterCycle(s[0])] + Survivors(s[1..])
    else Survivors(s[1..])
  }

  lemma SurvivorsFirst(e: RouteEntry, s: seq<RouteEntry>)
    ensures Survivors([e] + s) == (if Survives(e) then [AfterCycle(e)] else []) + Survivors(s)
  {
    assert ([e] + s)[1..] == s;
  }

  lemma Regroup(a: seq<RouteEntry>, b: seq<RouteEntry>, c: seq<RouteEntry>)
    ensures (a + b) + c == a + (b + c)
  {
  }

  lemma {:induction false} SurvivorsConcat(a: seq<RouteEntry>, b: seq<RouteEntry>)
    ensures Survivors(a + b) == Survivors(a) + Survivors(b)
  {
    if a == [] {
      assert a + b == b;
    } else {
      var rest, first := a[1..], if Survives(a[0]) then [AfterCycle(a[0])] else [];
      assert a == [a[0]] + rest && a + b == [a[0]] + (rest + b);
      SurvivorsFirst(a[0], rest);
      SurvivorsFirst(a[0], rest + b);
      SurvivorsConcat(rest, b);
      Regroup(first, Survivors(rest), Survivors(b));
    }
  }

  lemma SameMembers(a: seq<RouteEntry>, b: seq<RouteEntry>)
    ensures multiset(a + b) == multiset(b + a)
  {
  }

  lemma SurvivorsSwap(e: RouteEntry, mid: seq<RouteEntry>)
    ensures multiset(Survivors([e] + mid)) == multiset(Survivors(mid + [e]))
  {
    SurvivorsConcat([e], mid);
    SurvivorsConcat(mid, [e]);
    SameMembers(Survivors([e]), Survivors(mid));
  }

  /** Dropping a stale entry and moving the tail into its slot loses and repeats nothing. */
  lemma SwapStep(s: seq<RouteEntry>, i: nat)
    requires i < |s| && !Survives(s[i])
    ensures var s' := SwapOut(s, i);
            i <= |s'| && s'[..i] == s[..i] && multiset(Survivors(s'[i..])) == multiset(Survivors(s[i..]))
  {
    var n := |s| - 1;
    var s' := s[i := s[n]][..n];
    assert s[i..][1..] == s[i + 1..];
    if i < n {
      var mid := s[i + 1..n];
      assert s'[i..] == [s[n]] + mid && s[i + 1..] == mid + [s[n]];
      SurvivorsSwap(s[n], mid);
    } else {
      assert s'[i..] == [] && s[i + 1..] == [];
    }
  }

  lemma KeepStep(s: seq<RouteEntry>, i: nat)
    requires i < |s| && Survives(s[i])
    ensures var s' := s[i := AfterCycle(s[i])];
            multiset(s'[..i + 1]) + multiset(Survivors(s'[i + 1..])) ==
            multiset(s[..i]) + multiset(Survivors(s[i..]))
  {
    var e := AfterCycle(s[i]);
    var s' := s[i := e];
    assert s'[i + 1..] == s[i..][1..] == s[i + 1..];
    assert s'[..i + 1] == s[..i] + [e];
    assert Survivors(s[i..]) == [e] + Survivors(s[i + 1..]);
  }

  /** One turn of the pass, and that what is done plus what is to do stays the same. */
  lemma AgeStep(s: seq<RouteEntry>, i: nat) returns (s': seq<RouteEntry>, i': nat)
    requires i < |s|
    ensures i' <= |s'| && |s'| - i' < |s| - i
    ensures AgeFrom(s, i) == AgeFrom(s', i')
    ensures multiset(s'[..i']) + multiset(Survivors(s'[i'..])) == multiset(s[..i]) + multiset(Survivors(s[i..]))
  {
    if Survives(s[i]) {
      KeepStep(s, i);
      s', i' := s[i := AfterCycle(s[i])], i + 1;
      assert s[i].Pinned() ==> s' == s;
    } else {
      SwapStep(s, i);
      s', i' := SwapOut(s, i), i;
    }
  }

  /** The pass ages every entry exactly once, whatever order it leaves them in. */
  lemma {:induction false} AgeFromMultiset(s: seq<RouteEntry>, i: nat)
    requires i <= |s|
    ensures multiset(AgeFrom(s, i)) == multiset(s[..i]) + multiset(Survivors(s[i..]))
    decreases |s| - i
  {
    if i == |s| {
      assert s[..i] == s;
    } else {
      var s', i' := AgeStep(s, i);
      AgeFromMultiset(s', i');
    }
  }

  /** The ageing pass on the whole table, as a multiset of entries. */
  lemma AgeingVisitsEachOnce(s: seq<RouteEntry>)
    ensures multiset(AgeFrom(s, 0)) == multiset(Survivors(s))
  {
    AgeFromMultiset(s, 0);
    assert s[0..] == s;
  }

  lemma {:induction false} SurvivorsMembers(s: seq<RouteEntry>, e: RouteEntry)
    ensures e in Survivors(s) <==> exists o :: o in s && Survives(o) && AfterCycle(o) == e
  {
    if s != [] {
      SurvivorsMembers(s[1..], e);
      if e in Survivors(s) && e !in Survivors(s[1..]) {
        assert s[0] in s;
      }
      if o :| o in s && Survives(o) && AfterCycle(o) == e && o != s[0] {
        assert o in s[1..];
      }
    }
  }

  /** Entry by entry: what is in the aged table comes from exactly the entries that survive. */
  lemma AgeingMembers(s: seq<RouteEntry>, e: RouteEntry)
    ensures e in AgeFrom(s, 0) <==> exists o :: o in s && Survives(o) && AfterCycle(o) == e
  {
    AgeingVisitsEachOnce(s);
    SurvivorsMembers(s, e);
    assert e in AgeFrom(s, 0) <==> e in multiset(AgeFrom(s, 0));
    assert e in Survivors(s) <==> e in multiset(Survivors(s));
  }

  /** Destinations that were pairwise distinct stay so. */
  lemma {:induction false} AgeingKeepsDistinct(s: seq<RouteEntry>, i: nat)
    requires i <= |s| && Distinct(s)
    ensures Distinct(AgeFrom(s, i)) && |AgeFrom(s, i)| <= |s|
    decreases |s| - i
  {
    if i < |s| {
      if s[i].Pinned() {
        AgeingKeepsDistinct(s, i + 1);
      } else if s[i].Counter() + 1 > RT_MAX_AGE {
        AgeingKeepsDistinct(SwapOut(s, i), i);
      } else {
        AgeingKeepsDistinct(s[i := s[i].Older()], i + 1);
      }
    }
  }

  // ---- The eviction scan ----------------------------------------------------

  predicate HasUseless(s: seq<RouteEntry>) {
    exists j :: 0 <= j < |s| && !s[j].Pinned() && s[j].Useless()
  }

  predicate HasUnused(s: seq<RouteEntry>) {
    exists j :: 0 <= j < |s| && !s[j].Pinned() && s[j].useCount == 0
  }

  ghost predicate FirstUnpinned(s: seq<RouteEntry>, f: nat) {
    f < |s| && !s[f].Pinned() && forall j :: 0 <= j < f ==> s[j].Pinned()
  }

  /** The entries the victim is taken from: metric-only ones if there are any, else unused
    * ones if there are any, else those used as often as the first entry that is not pinned.
    */
  ghost predicate Evictable(s: seq<RouteEntry>, j: nat) {
    j < |s| && !s[j].Pinned() &&
    if HasUseless(s) then s[j].Useless()
    else if HasUnused(s) then s[j].useCount == 0
    else forall f: nat :: FirstUnpinned(s, f) ==> s[j].useCount == s[f].useCount
  }

  /** Among those, the stalest; of equally stale ones, the first in the table. */
  ghost predicate StalestEvictable(s: seq<RouteEntry>, w: nat) {
    Evictable(s, w) &&
    forall j: nat :: Evictable(s, j) ==>
      s[j].Counter() < s[w].Counter() || (s[j].Counter() == s[w].Counter() && w <= j)
  }

  lemma EvictableInPrefix(s: seq<RouteEntry>, i: nat)
    requires i + 1 == |s|
    ensures HasUseless(s) <==> HasUseless(s[..i]) || (!s[i].Pinned() && s[i].Useless())
    ensures HasUnused(s) <==> HasUnused(s[..i]) || (!s[i].Pinned() && s[i].useCount == 0)
    ensures forall f: nat :: FirstUnpinned(s, f) && f < i ==> FirstUnpinned(s[..i], f)
    ensures forall f: nat :: FirstUnpinned(s[..i], f) ==> FirstUnpinned(s, f)
  {
    var p := s[..i];
    forall j | 0 <= j < |p|
      ensures s[j] == p[j]
    {
    }
  }

  lemma SomeFirstUnpinned(s: seq<RouteEntry>, j: nat) returns (f: nat)
    requires j < |s| && !s[j].Pinned()
    ensures FirstUnpinned(s, f) && f <= j
  {
    f := 0;
    while s[f].Pinned()
      invariant f <= j && forall k :: 0 <= k < f ==> s[k].Pinned()
      decreases j - f
    {
      f := f + 1;
    }
  }

  /** One comparison of the scan keeps the rule's entry of a longer prefix. */
  lemma VictimStep(s: seq<RouteEntry>, w: nat, f: nat)
    requires s != [] && !s[|s| - 1].Pinned()
    requires StalestEvictable(s[..|s| - 1], w) && FirstUnpinned(s[..|s| - 1], f)
    ensures StalestEvictable(s, Worse(s, w, |s| - 1))
  {
    var i := |s| - 1;
    var p := s[..i];
    EvictableInPrefix(s, i);
    assert FirstUnpinned(s, f);
    assert forall g: nat :: FirstUnpinned(s, g) ==> g == f;
    assert forall g: nat :: FirstUnpinned(p, g) ==> g == f;
    if HasUseless(s) == HasUseless(p) && HasUnused(s) == HasUnused(p) {
      assert forall j: nat :: j < i ==> (Evictable(s, j) <==> Evictable(p, j));
    } else if HasUseless(s) != HasUseless(p) {
      assert forall j: nat :: Evictable(s, j) ==> j == i;
    } else if HasUseless(s) {
      assert forall j: nat :: j < i ==> (Evictable(s, j) <==> Evictable(p, j));
    } else {
      assert forall j: nat :: Evictable(s, j) ==> j == i;
    }
  }

  /** A pinned entry at the end changes nothing. */
  lemma PinnedStep(s: seq<RouteEntry>, w: nat)
    requires s != [] && s[|s| - 1].Pinned() && StalestEvictable(s[..|s| - 1], w)
    ensures StalestEvictable(s, w)
  {
    var p := s[..|s| - 1];
    EvictableInPrefix(s, |s| - 1);
    var f := SomeFirstUnpinned(p, w);
    assert FirstUnpinned(s, f);
    assert forall g: nat :: FirstUnpinned(s, g) ==> g == f;
    assert forall g: nat :: FirstUnpinned(p, g) ==> g == f;
    assert forall j: nat :: Evictable(s, j) <==> Evictable(p, j);
  }

  lemma OnlyCandidate(s: seq<RouteEntry>)
    requires s != [] && !s[|s| - 1].Pinned() && forall j :: 0 <= j < |s| - 1 ==> s[j].Pinned()
    ensures StalestEvictable(s, |s| - 1)
  {
    assert forall j: nat :: Evictable(s, j) ==> j == |s| - 1;
    assert FirstUnpinned(s, |s| - 1);
  }

  /** The scan finds the entry the eviction rule names, and finds none only if all are pinned. */
  lemma {:induction false} VictimIsStalest(s: seq<RouteEntry>)
    ensures Victim(s) == None <==> forall j :: 0 <= j < |s| ==> s[j].Pinned()
    ensures Victim(s).Some? ==> StalestEvictable(s, Victim(s).value)
  {
    if s != [] {
      var i := |s| - 1;
      var p := s[..i];
      VictimIsStalest(p);
      if s[i].Pinned() {
        if Victim(p).Some? {
          PinnedStep(s, Victim(p).value);
        }
      } else if Victim(p) == None {
        assert forall j :: 0 <= j < i ==> s[j] == p[j];
        OnlyCandidate(s);
      } else {
        var w := Victim(p).value;
        var f := SomeFirstUnpinned(p, w);
        VictimStep(s, w, f);
      }
    }
  }

  /** On a full table a new destination either changes nothing or takes exactly one slot:
    * that of the stalest evictable entry.  A metric-only route never takes one.
    */
  lemma FullTableUpsert(t: Table, dest: Prefix, rev: seq<Byte>, hashSz: Byte, metric: Byte)
    requires t.Valid() && |t.live| == RT_MAX_ROUTES && FindIndex(t.live, dest) == |t.live|
    ensures var t' := Upserted(t, dest, rev, hashSz, metric);
            if t.admits == RT_ADMIT_PER_CYCLE || rev == [] || (forall e :: e in t.live ==> e.Pinned())
            then t' == t
            else exists w: nat :: StalestEvictable(t.live, w) && !t.live[w].Pinned() &&
                                  t' == Table(t.live[w := NewEntry(dest, rev, hashSz, metric)],
                                              t.advertSeen, t.admits + 1)
  {
    VictimIsStalest(t.live);
    if Victim(t.live) == None {
      forall e | e in t.live
        ensures e.Pinned()
      {
        var j :| 0 <= j < |t.live| && t.live[j] == e;
      }
    } else {
      assert t.live[Victim(t.live).value] in t.live;
    }
  }

  ghost predicate HasPinned(s: seq<RouteEntry>, dest: Prefix) {
    exists j :: 0 <= j < |s| && s[j].Pinned() && s[j].dest == dest
  }

  /** No insertion ever costs a pinned destination its slot or its pin, and the table stays valid. */
  lemma UpsertKeepsPins(t: Table, dest: Prefix, rev: seq<Byte>, hashSz: Byte, metric: Byte, d: Prefix)
    requires t.Valid()
    ensures Upserted(t, dest, rev, hashSz, metric).Valid()
    ensures HasPinned(t.live, d) ==> HasPinned(Upserted(t, dest, rev, hashSz, metric).live, d)
  {
    var t' := Upserted(t, dest, rev, hashSz, metric);
    var i := FindIndex(t.live, dest);
    if HasPinned(t.live, d) {
      var j :| 0 <= j < |t.live| && t.live[j].Pinned() && t.live[j].dest == d;
      assert t'.live[j].Pinned() && t'.live[j].dest == d;
    }
    if i == |t.live| {
      assert forall j :: 0 <= j < |t.live| ==> t.live[j].dest != dest;
    }
  }

  /** Nor does a whole advert, ageing included. */
  lemma AdvertKeepsPins(t: Table, dest: Prefix, p: AdvertPacket, d: Prefix)
    requires t.Valid()
    ensures AdvertStep(t, dest, p).Valid()
    ensures HasPinned(t.live, d) ==> HasPinned(AdvertStep(t, dest, p).live, d)
  {
    var t1 := AgeCycle(t);
    AgeingKeepsDistinct(t.live, 0);
    if HasPinned(t.live, d) {
      var j :| 0 <= j < |t.live| && t.live[j].Pinned() && t.live[j].dest == d;
      assert AfterCycle(t.live[j]) == t.live[j] && t.live[j] in t.live;
      AgeingMembers(t.live, t.live[j]);
      assert t.live[j] in t1.live;
    }
    UpsertKeepsPins(t1, dest, StoredPath(p), p.hashSz, Metric(p), d);
  }

  /** No entry that may be evicted is staler than entry `w`. */
  ghost predicate Stalest(s: seq<RouteEntry>, w: nat) {
    w < |s| && !s[w].Pinned() &&
    forall j :: 0 <= j < |s| && !s[j].Pinned() ==> s[j].Counter() <= s[w].Counter()
  }

  function BusyEntry(i: Byte): RouteEntry {
    RouteEntry([3, i, 0, 0], [9], 1, 2, 0, 2)
  }

  /** Used routes throughout: the first was used once, the second is the only stale one. */
  function CrowdedTable(): (s: seq<RouteEntry>)
    ensures |s| == RT_MAX_ROUTES
    ensures s[0] == RouteEntry([1, 0, 0, 0], [9], 1, 2, 0, 1) && s[1] == RouteEntry([2, 0, 0, 0], [9], 1, 2, 3, 2)
    ensures forall i :: 2 <= i < |s| ==> s[i] == BusyEntry(i)
  {
    seq(RT_MAX_ROUTES, i requires 0 <= i < RT_MAX_ROUTES =>
      if i == 0 then RouteEntry([1, 0, 0, 0], [9], 1, 2, 0, 1)
      else if i == 1 then RouteEntry([2, 0, 0, 0], [9], 1, 2, 3, 2)
      else BusyEntry(i))
  }

  lemma CrowdedTableEntry(i: nat)
    requires i < RT_MAX_ROUTES
    ensures var e := CrowdedTable()[i];
            !e.Pinned() && !e.Useless() && e.useCount == (if i == 0 then 1 else 2) &&
            e.Counter() == if i == 1 then 3 else 0
  {
  }

  lemma CrowdedTableIsDistinct()
    ensures Distinct(CrowdedTable())
  {
    var s := CrowdedTable();
    forall i, j | 0 <= i < j < |s|
      ensures s[i].dest != s[j].dest
    {
      assert i >= 2 ==> s[i].dest[1] == i && s[j].dest[1] == j;
      assert s[0].dest[0] == 1 && s[1].dest[0] == 2;
      assert j >= 2 ==> s[j].dest[0] == 3;
    }
  }

  lemma CrowdedTableVictim()
    ensures var s := CrowdedTable();
            !HasUseless(s) && !HasUnused(s) && Victim(s) == Some(0) && Stalest(s, 1) && !Stalest(s, 0)
    ensures forall e :: e in CrowdedTable() ==> !e.Pinned() && e.useCount > 0
  {
    var s := CrowdedTable();
    forall i: nat | i < |s|
      ensures !s[i].Pinned() && !s[i].Useless() && s[i].useCount == (if i == 0 then 1 else 2)
      ensures s[i].Counter() == if i == 1 then 3 else 0
    {
      CrowdedTableEntry(i);
    }
    assert FirstUnpinned(s, 0);
    assert forall j: nat :: Evictable(s, j) ==> j == 0;
    VictimIsStalest(s);
  }

  /** The documented rule "among used entries evict the stalest" is not what the scan does: from
    * this full table, all of it used and none of it pinned, a new route evicts an entry of age 0 and
    * keeps the one of age 3.
    */
  lemma StalestUsedMayStay() returns (t: Table)
    ensures t.Valid() && |t.live| == RT_MAX_ROUTES && !HasUseless(t.live)
    ensures forall e :: e in t.live ==> !e.Pinned() && e.useCount > 0
    ensures Stalest(t.live, 1) && !Stalest(t.live, 0)
    ensures var dest: Prefix := [4, 0, 0, 0];
            Upserted(t, dest, [7], 1, 2) == t.(live := t.live[0 := NewEntry(dest, [7], 1, 2)], admits := 1)
  {
    t := Table(CrowdedTable(), 0, 0);
    CrowdedTableIsDistinct();
    CrowdedTableVictim();
    CrowdedTableReplaces(t);
  }

  lemma CrowdedTableReplaces(t: Table)
    requires t == Table(CrowdedTable(), 0, 0)
    ensures var dest: Prefix := [4, 0, 0, 0];
            Upserted(t, dest, [7], 1, 2) == t.(live := t.live[0 := NewEntry(dest, [7], 1, 2)], admits := 1)
  {
    var dest: Prefix := [4, 0, 0, 0];
    CrowdedTableVictim();
    CrowdedTableLacks(dest);
    VictimIsReplaced(t, dest, [7], 1, 2, 0);
  }

  lemma VictimIsReplaced(t: Table, dest: Prefix, rev: seq<Byte>, hashSz: Byte, metric: Byte, w: nat)
    requires |t.live| == RT_MAX_ROUTES && FindIndex(t.live, dest) == |t.live| && t.admits < RT_ADMIT_PER_CYCLE
    requires Victim(t.live) == Some(w) && rev != []
    ensures Upserted(t, dest, rev, hashSz, metric) ==
            t.(live := t.live[w := NewEntry(dest, rev, hashSz, metric)], admits := t.admits + 1)
  {
  }

  lemma CrowdedTableLacks(dest: Prefix)
    requires dest[0] == 4
    ensures FindIndex(CrowdedTable(), dest) == RT_MAX_ROUTES
  {
    var s := CrowdedTable();
    forall i | 0 <= i < |s|
      ensures s[i].dest != dest
    {
      assert s[i].dest[0] < 4;
    }
  }

  /** When every candidate is in use, the documented rule is met exactly if one of the stalest
    * entries has been used as often as the first entry that is not pinned.
    */
  lemma StalestUsedRule(s: seq<RouteEntry>, f: nat)
    requires FirstUnpinned(s, f) && !HasUseless(s) && !HasUnused(s)
    ensures Victim(s).Some?
    ensures Stalest(s, Victim(s).value) <==> exists j: nat :: Stalest(s, j) && s[j].useCount == s[f].useCount
  {
    VictimIsStalest(s);
    var w := Victim(s).value;
    assert forall g: nat :: FirstUnpinned(s, g) ==> g == f;
    assert Evictable(s, f);
    if j: nat :| Stalest(s, j) && s[j].useCount == s[f].useCount {
      assert Evictable(s, j);
    }
  }

  // ---- Insertion in numbers ---------------------------------------------------

  /** The upper bit of an age is the pin, the rest counts cycles. */
  lemma AgeBits(e: RouteEntry)
    ensures e.Pinned() <==> e.age >= 128
    ensures e.age == (if e.Pinned() then 128 else 0) + e.Counter() && 0 <= e.Counter() < 128
    ensures e.Useless() <==> |e.path| == 0
  {
  }

  /** A route to a destination in the table is replaced if it is no longer, whatever it was: age zero,
    * pin and uses kept.
    */
  lemma RefreshLaw(t: Table, dest: Prefix, rev: seq<Byte>, hashSz: Byte, metric: Byte, i: nat)
    requires i < |t.live| && t.live[i].dest == dest && forall j :: 0 <= j < i ==> t.live[j].dest != dest
    requires |rev| <= 64
    ensures var e := t.live[i];
            Upserted(t, dest, rev, hashSz, metric) ==
            if metric <= e.metric
            then t.(live := t.live[i := RouteEntry(dest, rev, hashSz, metric, if e.age >= 128 then 128 else 0,
                                                   e.useCount)])
            else t
  {
    FindIndexIs(t.live, dest, i);
  }

  /** A new destination is refused after sixteen in a cycle, and otherwise appended while there are
    * fewer than 128; on a full table a path of no bytes changes nothing.
    */
  lemma InsertLaw(t: Table, dest: Prefix, rev: seq<Byte>, hashSz: Byte, metric: Byte)
    requires (forall e :: e in t.live ==> e.dest != dest) && |rev| <= 64
    ensures t.admits >= 16 ==> Upserted(t, dest, rev, hashSz, metric) == t
    ensures t.admits < 16 && |t.live| < 128 ==>
              Upserted(t, dest, rev, hashSz, metric) ==
              t.(live := t.live + [RouteEntry(dest, rev, hashSz, metric, 0, 0)], admits := t.admits + 1)
    ensures t.admits < 16 && |t.live| >= 128 && rev == [] ==> Upserted(t, dest, rev, hashSz, metric) == t
  {
    FindIndexIs(t.live, dest, |t.live|);
  }
}
