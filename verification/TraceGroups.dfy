/** How the trace viewer groups a trace: hops by transmission, records by edge. */
module TraceGroups {
  import opened Common
  import opened OrderedDict
  import opened StableSort
  import opened Tracer
  import opened TraceLoader

  // ---- Broadcast steps ------------------------------------------------------

  /** What hops are grouped by: the tx_id, or the hop object itself where there is none. */
  datatype StepKey = TxKey(id: int) | OwnKey(position: nat)

  function KeyOf(h: HopRecord, position: nat): StepKey {
    if h.txId.Some? then TxKey(h.txId.value) else OwnKey(position)
  }

  function Grouped(d: Dict<StepKey, seq<HopRecord>>, h: HopRecord, position: nat): Dict<StepKey, seq<HopRecord>> {
    Put(d, KeyOf(h, position), GetOr(d, KeyOf(h, position), []) + [h])
  }

  /** The dictionary after all hops. */
  function StepDict(hops: seq<HopRecord>): Dict<StepKey, seq<HopRecord>> {
    if hops == [] then [] else Grouped(StepDict(hops[..|hops| - 1]), hops[|hops| - 1], |hops| - 1)
  }

  function Values<K, V>(d: Dict<K, V>): seq<V> {
    seq(|d|, i requires 0 <= i < |d| => d[i].1)
  }

  /** `broadcast_steps` */
  method BroadcastSteps(hops: seq<HopRecord>) returns (steps: seq<seq<HopRecord>>)
    ensures steps == Values(StepDict(hops))
  {
    var seen: Dict<StepKey, seq<HopRecord>> := [];
    for i := 0 to |hops|
      invariant seen == StepDict(hops[..i])
    {
      var key := KeyOf(hops[i], i);
      var group := if Has(seen, key) then GetOr(seen, key, []) else [];
      seen := Put(seen, key, group + [hops[i]]);
      assert hops[..i + 1][..i] == hops[..i];
    }
    assert hops[..|hops|] == hops;
    steps := Values(seen);
  }

  /** The hops with a key, in order. */
  function Select(hops: seq<HopRecord>, k: StepKey): seq<HopRecord> {
    if hops == [] then []
    else
      var front, n := hops[..|hops| - 1], |hops| - 1;
      if KeyOf(hops[n], n) == k then Select(front, k) + [hops[n]] else Select(front, k)
  }

  ghost predicate IsGrouping(d: Dict<StepKey, seq<HopRecord>>, hops: seq<HopRecord>) {
    DistinctKeys(d) && forall k :: GetOr(d, k, []) == Select(hops, k) && (Has(d, k) <==> Select(hops, k) != [])
  }

  lemma GroupingNext(d: Dict<StepKey, seq<HopRecord>>, hops: seq<HopRecord>, h: HopRecord)
    requires IsGrouping(d, hops)
    ensures IsGrouping(Grouped(d, h, |hops|), hops + [h])
  {
    var key := KeyOf(h, |hops|);
    var group := GetOr(d, key, []) + [h];
    assert (hops + [h])[..|hops|] == hops;
    PutKeepsDistinct(d, key, group);
    forall k
      ensures GetOr(Put(d, key, group), k, []) == Select(hops + [h], k)
      ensures Has(Put(d, key, group), k) <==> Select(hops + [h], k) != []
    {
      GetAfterPut(d, key, group, k, []);
    }
  }

  lemma {:induction false} StepDictGroups(hops: seq<HopRecord>)
    ensures IsGrouping(StepDict(hops), hops)
  {
    if hops != [] {
      StepDictGroups(hops[..|hops| - 1]);
      GroupingNext(StepDict(hops[..|hops| - 1]), hops[..|hops| - 1], hops[|hops| - 1]);
      assert hops == hops[..|hops| - 1] + [hops[|hops| - 1]];
    }
  }

  function HasTxId(id: int): HopRecord -> bool {
    (h: HopRecord) => h.txId == Some(id)
  }

  lemma {:induction false} SelectByTx(hops: seq<HopRecord>, id: int)
    ensures Select(hops, TxKey(id)) == Filter(HasTxId(id), hops)
  {
    if hops != [] {
      SelectByTx(hops[..|hops| - 1], id);
    }
  }

  lemma {:induction false} SelectOwn(hops: seq<HopRecord>, i: nat)
    ensures Select(hops, OwnKey(i)) == if i < |hops| && hops[i].txId == None then [hops[i]] else []
  {
    if hops != [] {
      SelectOwn(hops[..|hops| - 1], i);
    }
  }

  /** All hops of one tx_id, in order, or one hop without a tx_id. */
  ghost predicate IsStep(hops: seq<HopRecord>, key: StepKey, step: seq<HopRecord>) {
    step != [] &&
    match key
    case TxKey(id) => step == Filter(HasTxId(id), hops)
    case OwnKey(i) => i < |hops| && hops[i].txId == None && step == [hops[i]]
  }

  lemma SelectedIsStep(hops: seq<HopRecord>, key: StepKey)
    requires Select(hops, key) != []
    ensures IsStep(hops, key, Select(hops, key))
  {
    match key
    case TxKey(id) => SelectByTx(hops, id);
    case OwnKey(i) => SelectOwn(hops, i);
  }

  function TotalLength(groups: seq<seq<HopRecord>>): nat {
    if groups == [] then 0 else TotalLength(groups[..|groups| - 1]) + |groups[|groups| - 1]|
  }

  lemma {:induction false} LengthOfUpdate(groups: seq<seq<HopRecord>>, i: nat, g: seq<HopRecord>)
    requires i < |groups|
    ensures TotalLength(groups[i := g]) == TotalLength(groups) - |groups[i]| + |g|
  {
    var n := |groups| - 1;
    if i == n {
      assert groups[i := g][..n] == groups[..n];
    } else {
      LengthOfUpdate(groups[..n], i, g);
      assert groups[i := g][..n] == groups[..n][i := g];
    }
  }

  lemma LengthNext(groups: seq<seq<HopRecord>>, g: seq<HopRecord>)
    ensures TotalLength(groups + [g]) == TotalLength(groups) + |g|
  {
    assert (groups + [g])[..|groups|] == groups;
  }

  lemma LengthOfGrouped(d: Dict<StepKey, seq<HopRecord>>, h: HopRecord, position: nat)
    ensures TotalLength(Values(Grouped(d, h, position))) == TotalLength(Values(d)) + 1
  {
    var k := KeyOf(h, position);
    var g := GetOr(d, k, []) + [h];
    if Has(d, k) {
      LengthOfUpdate(Values(d), Find(d, k), g);
      assert Values(Put(d, k, g)) == Values(d)[Find(d, k) := g];
    } else {
      LengthNext(Values(d), g);
      assert Values(Put(d, k, g)) == Values(d) + [g];
    }
  }

  lemma {:induction false} StepLengths(hops: seq<HopRecord>)
    ensures TotalLength(Values(StepDict(hops))) == |hops|
  {
    if hops != [] {
      StepLengths(hops[..|hops| - 1]);
      LengthOfGrouped(StepDict(hops[..|hops| - 1]), hops[|hops| - 1], |hops| - 1);
    }
  }

  /** The steps partition the hops: a step is all hops of one tx_id, in order, or a single hop
    * without one; no two steps share a key, every hop's key has a step, and the lengths add up.
    */
  lemma StepsPartitionHops(hops: seq<HopRecord>)
    ensures var d := StepDict(hops);
            && DistinctKeys(d)
            && (forall s :: 0 <= s < |d| ==> IsStep(hops, d[s].0, d[s].1))
            && (forall i :: 0 <= i < |hops| ==> Has(d, KeyOf(hops[i], i)))
            && TotalLength(Values(d)) == |hops|
  {
    var d := StepDict(hops);
    StepDictGroups(hops);
    StepLengths(hops);
    forall s | 0 <= s < |d|
      ensures IsStep(hops, d[s].0, d[s].1)
    {
      FindIs(d, s);
      assert Has(d, d[s].0);
      SelectedIsStep(hops, d[s].0);
    }
    forall i | 0 <= i < |hops|
      ensures Has(d, KeyOf(hops[i], i))
    {
      HopIsSelected(hops, i);
    }
  }

  lemma {:induction false} HopIsSelected(hops: seq<HopRecord>, i: nat)
    requires i < |hops|
    ensures Select(hops, KeyOf(hops[i], i)) != []
  {
    if i < |hops| - 1 {
      HopIsSelected(hops[..|hops| - 1], i);
    }
  }

  // ---- Order of the steps ---------------------------------------------------

  ghost predicate InTxOrder(d: Dict<StepKey, seq<HopRecord>>) {
    forall a, b :: 0 <= a < b < |d| && d[a].0.TxKey? && d[b].0.TxKey? ==> d[a].0.id < d[b].0.id
  }

  /** Every tx_id is, where it first occurs, larger than all before it. */
  ghost predicate NewIdsAscend(hops: seq<HopRecord>) {
    forall i, j :: 0 <= i < j < |hops| && hops[i].txId.Some? && hops[j].txId.Some? && IsNew(hops, j) ==>
      hops[i].txId.value < hops[j].txId.value
  }

  ghost predicate IsNew(hops: seq<HopRecord>, j: nat)
    requires j < |hops|
  {
    forall i :: 0 <= i < j ==> hops[i].txId != hops[j].txId
  }

  lemma KeysAreIds(hops: seq<HopRecord>, id: int)
    ensures Has(StepDict(hops), TxKey(id)) <==> exists i :: 0 <= i < |hops| && hops[i].txId == Some(id)
  {
    StepDictGroups(hops);
    SelectByTx(hops, id);
    if Has(StepDict(hops), TxKey(id)) {
      var h := Filter(HasTxId(id), hops)[0];
      assert h in Filter(HasTxId(id), hops);
    }
    if i :| 0 <= i < |hops| && hops[i].txId == Some(id) {
      assert hops[i] in hops && HasTxId(id)(hops[i]);
      assert hops[i] in Filter(HasTxId(id), hops);
    }
  }

  lemma AscendNext(hops: seq<HopRecord>, h: HopRecord)
    ensures NewIdsAscend(hops + [h]) <==>
            NewIdsAscend(hops) &&
            (h.txId.Some? && (forall i :: 0 <= i < |hops| ==> hops[i].txId != h.txId) ==>
               forall i :: 0 <= i < |hops| && hops[i].txId.Some? ==> hops[i].txId.value < h.txId.value)
  {
    var all := hops + [h];
    assert forall j :: 0 <= j < |hops| ==> all[j] == hops[j] && (IsNew(all, j) <==> IsNew(hops, j));
    assert IsNew(all, |hops|) <==> forall i :: 0 <= i < |hops| ==> hops[i].txId != h.txId;
    if NewIdsAscend(all) {
      forall i, j | 0 <= i < j < |hops| && hops[i].txId.Some? && hops[j].txId.Some? && IsNew(hops, j)
        ensures hops[i].txId.value < hops[j].txId.value
      {
        assert all[i] == hops[i] && all[j] == hops[j] && IsNew(all, j);
      }
      forall i | 0 <= i < |hops| && hops[i].txId.Some? && h.txId.Some? && IsNew(all, |hops|)
        ensures hops[i].txId.value < h.txId.value
      {
        assert all[i] == hops[i] && all[|hops|] == h;
      }
    }
  }

  lemma OrderNext(d: Dict<StepKey, seq<HopRecord>>, k: StepKey, g: seq<HopRecord>)
    requires DistinctKeys(d)
    ensures InTxOrder(Put(d, k, g)) <==>
            InTxOrder(d) &&
            (k.TxKey? && !Has(d, k) ==> forall a :: 0 <= a < |d| && d[a].0.TxKey? ==> d[a].0.id < k.id)
  {
    var d' := Put(d, k, g);
    assert forall a :: 0 <= a < |d| ==> d'[a].0 == d[a].0;
    if InTxOrder(d') {
      forall a, b | 0 <= a < b < |d| && d[a].0.TxKey? && d[b].0.TxKey?
        ensures d[a].0.id < d[b].0.id
      {
        assert d'[a].0 == d[a].0 && d'[b].0 == d[b].0;
      }
      if !Has(d, k) {
        assert d'[|d|].0 == k;
      }
    }
  }

  lemma KeysBelow(hops: seq<HopRecord>, id: int)
    ensures var d := StepDict(hops);
            (forall a :: 0 <= a < |d| && d[a].0.TxKey? ==> d[a].0.id < id) <==>
            (forall i :: 0 <= i < |hops| && hops[i].txId.Some? ==> hops[i].txId.value < id)
  {
    var d := StepDict(hops);
    StepDictGroups(hops);
    forall a | 0 <= a < |d| && d[a].0.TxKey?
      ensures exists i :: 0 <= i < |hops| && hops[i].txId == Some(d[a].0.id)
    {
      FindIs(d, a);
      KeysAreIds(hops, d[a].0.id);
    }
    forall i | 0 <= i < |hops| && hops[i].txId.Some?
      ensures exists a :: 0 <= a < |d| && d[a].0 == TxKey(hops[i].txId.value)
    {
      KeysAreIds(hops, hops[i].txId.value);
      var a := Find(d, TxKey(hops[i].txId.value));
      assert d[a].0 == TxKey(hops[i].txId.value);
    }
  }

  /** The steps come in the order of their tx_ids exactly if every new tx_id among the hops is
    * larger than those before it: they are ordered by the first recorded hop.
    */
  lemma {:induction false} TxOrderExactlyWhen(hops: seq<HopRecord>)
    ensures InTxOrder(StepDict(hops)) <==> NewIdsAscend(hops)
  {
    if hops != [] {
      var front, n := hops[..|hops| - 1], |hops| - 1;
      var d, k := StepDict(front), KeyOf(hops[n], n);
      assert hops == front + [hops[n]];
      TxOrderExactlyWhen(front);
      StepDictGroups(front);
      AscendNext(front, hops[n]);
      OrderNext(d, k, GetOr(d, k, []) + [hops[n]]);
      if k.TxKey? {
        KeysAreIds(front, k.id);
        KeysBelow(front, k.id);
      }
    }
  }

  /** Two broadcasts of one packet on the air together, the first over a slower link. */
  lemma StepsOutOfTxOrder()
    ensures var slow := HopRecord(2.0, "a", "b", 1, 0, Some(1), 0.0, 20);
            var fast := HopRecord(1.5, "c", "d", 1, 0, Some(2), 0.0, 20);
            !InTxOrder(StepDict([fast, slow]))
  {
    var slow := HopRecord(2.0, "a", "b", 1, 0, Some(1), 0.0, 20);
    var fast := HopRecord(1.5, "c", "d", 1, 0, Some(2), 0.0, 20);
    var hops := [fast, slow];
    TxOrderExactlyWhen(hops);
    assert IsNew(hops, 1) && hops[0].txId == Some(2) && hops[1].txId == Some(1);
  }

  // ---- Edge statistics ------------------------------------------------------

  type EdgeKey = (string, string)

  datatype EdgeStats = EdgeStats(hopCount: nat, collisionCount: nat, halfduplexCount: nat, packets: seq<nat>)

  const NO_STATS := EdgeStats(0, 0, 0, [])

  /** `a <= b` for strings. */
  predicate LexLe(a: string, b: string) {
    if a == "" then true
    else if b == "" then false
    else a[0] < b[0] || (a[0] == b[0] && LexLe(a[1..], b[1..]))
  }

  function KeyFor(a: string, b: string): EdgeKey {
    if LexLe(a, b) then (a, b) else (b, a)
  }

  lemma {:induction false} LexTotal(a: string, b: string)
    ensures LexLe(a, b) || LexLe(b, a)
    ensures LexLe(a, b) && LexLe(b, a) ==> a == b
  {
    if a != "" && b != "" {
      LexTotal(a[1..], b[1..]);
      assert a == [a[0]] + a[1..] && b == [b[0]] + b[1..];
    }
  }

  /** Both directions of a link count as one edge. */
  lemma EdgeKeyIgnoresDirection(a: string, b: string)
    ensures KeyFor(a, b) == KeyFor(b, a)
  {
    LexTotal(a, b);
  }

  /** The order of strings: at the first difference the smaller character, or the shorter string. */
  lemma {:induction false} LexLaw(a: string, b: string)
    ensures LexLe(a, b) <==> exists i: nat :: IsFirstDifference(a, b, i)
  {
    if a == "" {
      assert IsFirstDifference(a, b, 0);
    } else if b != "" {
      DifferenceInRest(a, b);
      assert a[0] < b[0] ==> IsFirstDifference(a, b, 0);
      if a[0] == b[0] {
        LexLaw(a[1..], b[1..]);
        if i: nat :| IsFirstDifference(a[1..], b[1..], i) {
          assert IsFirstDifference(a, b, i + 1);
        }
      }
    }
  }

  lemma DifferenceInRest(a: string, b: string)
    requires a != "" && b != ""
    ensures forall i: nat :: IsFirstDifference(a, b, i) ==>
              a[0] < b[0] || (a[0] == b[0] && i > 0 && IsFirstDifference(a[1..], b[1..], i - 1))
    ensures a[0] == b[0] ==> forall i: nat :: IsFirstDifference(a[1..], b[1..], i) ==> IsFirstDifference(a, b, i + 1)
  {
    forall i: nat | IsFirstDifference(a, b, i) && i > 0
      ensures a[0] == b[0] && IsFirstDifference(a[1..], b[1..], i - 1)
    {
      assert a[..i][0] == b[..i][0];
      assert a[1..][..i - 1] == a[..i][1..] && b[1..][..i - 1] == b[..i][1..];
    }
    forall i: nat | a[0] == b[0] && IsFirstDifference(a[1..], b[1..], i)
      ensures IsFirstDifference(a, b, i + 1)
    {
      assert a[..i + 1] == [a[0]] + a[1..][..i] && b[..i + 1] == [b[0]] + b[1..][..i];
    }
  }

  ghost predicate IsFirstDifference(a: string, b: string, i: nat) {
    i <= |a| && i <= |b| && a[..i] == b[..i] && (i == |a| || (i < |b| && a[i] < b[i]))
  }

  /** The key of an edge is its two ends, the smaller first. */
  lemma KeyLaw(a: string, b: string)
    ensures KeyFor(a, b) == (a, b) || KeyFor(a, b) == (b, a)
    ensures LexLe(KeyFor(a, b).0, KeyFor(a, b).1)
    ensures forall c, d :: KeyFor(c, d) == KeyFor(a, b) <==> (c == a && d == b) || (c == b && d == a)
  {
    LexTotal(a, b);
    forall c: string, d: string
      ensures KeyFor(c, d) == KeyFor(a, b) <==> (c == a && d == b) || (c == b && d == a)
    {
      LexTotal(c, d);
    }
  }

  function KeyOfEvent(e: Event): EdgeKey {
    KeyFor(e.sender, e.receiver)
  }

  function WithPacket(packets: seq<nat>, i: nat): seq<nat> {
    if i in packets then packets else packets + [i]
  }

  /** The entry of an edge after one more record. */
  function Counted(s: EdgeStats, e: Event): EdgeStats {
    match e
    case HopEvent(_, i, _, _, _, _) => s.(hopCount := s.hopCount + 1, packets := WithPacket(s.packets, i))
    case CollisionEvent(_, _, _, _, _, _, _, _) => s.(collisionCount := s.collisionCount + 1)
    case HalfduplexEvent(_, _, _, _, _, _) => s.(halfduplexCount := s.halfduplexCount + 1)
  }

  function Tally(d: Dict<EdgeKey, EdgeStats>, e: Event): Dict<EdgeKey, EdgeStats> {
    Put(d, KeyOfEvent(e), Counted(GetOr(d, KeyOfEvent(e), NO_STATS), e))
  }

  function EdgeBook(es: seq<Event>): Dict<EdgeKey, EdgeStats> {
    if es == [] then [] else Tally(EdgeBook(es[..|es| - 1]), es[|es| - 1])
  }

  lemma EdgeBookNext(es: seq<Event>, e: Event)
    ensures EdgeBook(es + [e]) == Tally(EdgeBook(es), e)
  {
    assert (es + [e])[..|es|] == es;
  }

  /** One of the three loops of `compute_edge_trace_stats` over the records of a packet. */
  method TallyAll(stats: Dict<EdgeKey, EdgeStats>, ghost es: seq<Event>, records: seq<Event>)
    returns (stats': Dict<EdgeKey, EdgeStats>)
    requires stats == EdgeBook(es)
    ensures stats' == EdgeBook(es + records)
  {
    stats' := stats;
    assert es + records[..0] == es;
    for k := 0 to |records|
      invariant stats' == EdgeBook(es + records[..k])
    {
      var e := records[k];
      var key := KeyOfEvent(e);
      var entry := if Has(stats', key) then GetOr(stats', key, NO_STATS) else NO_STATS;
      stats' := Put(stats', key, Counted(entry, e));
      EdgeBookNext(es + records[..k], e);
      assert es + records[..k + 1] == es + records[..k] + [e];
    }
    assert records[..|records|] == records;
  }

  /** `compute_edge_trace_stats` */
  method ComputeEdgeTraceStats(packets: seq<PacketTrace>) returns (stats: Dict<EdgeKey, EdgeStats>)
    ensures stats == EdgeBook(Flat(packets))
  {
    stats := [];
    for i := 0 to |packets|
      invariant stats == EdgeBook(Flat(packets[..i]))
    {
      var pkt := packets[i];
      ghost var before := Flat(packets[..i]);
      stats := TallyAll(stats, before, RecordsIn(Hop, i, pkt));
      stats := TallyAll(stats, before + RecordsIn(Hop, i, pkt), RecordsIn(Coll, i, pkt));
      stats := TallyAll(stats, before + RecordsIn(Hop, i, pkt) + RecordsIn(Coll, i, pkt), RecordsIn(Half, i, pkt));
      FlatNext(packets, i);
    }
    assert packets[..|packets|] == packets;
  }

  lemma FlatNext(ps: seq<PacketTrace>, i: nat)
    requires i < |ps|
    ensures Flat(ps[..i + 1]) ==
            Flat(ps[..i]) + RecordsIn(Hop, i, ps[i]) + RecordsIn(Coll, i, ps[i]) + RecordsIn(Half, i, ps[i])
  {
    assert ps[..i + 1][..i] == ps[..i];
  }

  predicate IsKind(kind: Kind, e: Event) {
    match kind case Hop => e.HopEvent? case Coll => e.CollisionEvent? case Half => e.HalfduplexEvent?
  }

  /** Selects the records of one kind on one edge. */
  function On(kind: Kind, k: EdgeKey): Event -> bool {
    (e: Event) => IsKind(kind, e) && KeyOfEvent(e) == k
  }

  function PacketsOn(es: seq<Event>, k: EdgeKey): seq<nat> {
    if es == [] then []
    else
      var front, e := PacketsOn(es[..|es| - 1], k), es[|es| - 1];
      if On(Hop, k)(e) then WithPacket(front, e.pktIdx) else front
  }

  function StatsOn(es: seq<Event>, k: EdgeKey): EdgeStats {
    EdgeStats(|Filter(On(Hop, k), es)|, |Filter(On(Coll, k), es)|, |Filter(On(Half, k), es)|, PacketsOn(es, k))
  }

  lemma StatsNext(es: seq<Event>, e: Event, k: EdgeKey)
    ensures StatsOn(es + [e], k) == if KeyOfEvent(e) == k then Counted(StatsOn(es, k), e) else StatsOn(es, k)
  {
    assert (es + [e])[..|es|] == es;
    FilterNext(On(Hop, k), es, e);
    FilterNext(On(Coll, k), es, e);
    FilterNext(On(Half, k), es, e);
  }

  /** The entry of every edge holds the true counts of its records. */
  lemma {:induction false} EdgeCountsAreTrue(es: seq<Event>, k: EdgeKey)
    ensures DistinctKeys(EdgeBook(es)) && GetOr(EdgeBook(es), k, NO_STATS) == StatsOn(es, k)
    ensures Has(EdgeBook(es), k) <==> exists e :: e in es && KeyOfEvent(e) == k
  {
    if es != [] {
      var front, e := es[..|es| - 1], es[|es| - 1];
      assert es == front + [e];
      EdgeCountsAreTrue(front, k);
      StatsNext(front, e, k);
      var d := EdgeBook(front);
      GetAfterPut(d, KeyOfEvent(e), Counted(GetOr(d, KeyOfEvent(e), NO_STATS), e), k, NO_STATS);
      PutKeepsDistinct(d, KeyOfEvent(e), Counted(GetOr(d, KeyOfEvent(e), NO_STATS), e));
    }
  }

  // ---- Sums over edges ------------------------------------------------------

  function CountIn(kind: Kind, s: EdgeStats): nat {
    match kind case Hop => s.hopCount case Coll => s.collisionCount case Half => s.halfduplexCount
  }

  function SumOver(kind: Kind, stats: seq<EdgeStats>): nat {
    if stats == [] then 0 else SumOver(kind, stats[..|stats| - 1]) + CountIn(kind, stats[|stats| - 1])
  }

  lemma {:induction false} SumOfUpdate(kind: Kind, stats: seq<EdgeStats>, i: nat, s: EdgeStats)
    requires i < |stats|
    ensures SumOver(kind, stats[i := s]) == SumOver(kind, stats) - CountIn(kind, stats[i]) + CountIn(kind, s)
  {
    var n := |stats| - 1;
    if i == n {
      assert stats[i := s][..n] == stats[..n];
    } else {
      SumOfUpdate(kind, stats[..n], i, s);
      assert stats[i := s][..n] == stats[..n][i := s];
    }
  }

  lemma SumOfTally(kind: Kind, d: Dict<EdgeKey, EdgeStats>, e: Event)
    ensures SumOver(kind, Values(Tally(d, e))) == SumOver(kind, Values(d)) + if IsKind(kind, e) then 1 else 0
  {
    var k := KeyOfEvent(e);
    var s := Counted(GetOr(d, k, NO_STATS), e);
    if Has(d, k) {
      SumOfUpdate(kind, Values(d), Find(d, k), s);
      assert Values(Put(d, k, s)) == Values(d)[Find(d, k) := s];
    } else {
      assert Values(Put(d, k, s)) == Values(d) + [s];
      assert (Values(d) + [s])[..|d|] == Values(d);
    }
  }

  function KindCount(kind: Kind, es: seq<Event>): nat {
    if es == [] then 0 else KindCount(kind, es[..|es| - 1]) + if IsKind(kind, es[|es| - 1]) then 1 else 0
  }

  lemma {:induction false} SumOfBook(kind: Kind, es: seq<Event>)
    ensures SumOver(kind, Values(EdgeBook(es))) == KindCount(kind, es)
  {
    if es != [] {
      SumOfBook(kind, es[..|es| - 1]);
      SumOfTally(kind, EdgeBook(es[..|es| - 1]), es[|es| - 1]);
    }
  }

  lemma {:induction false} KindCountConcat(kind: Kind, es: seq<Event>, fs: seq<Event>)
    ensures KindCount(kind, es + fs) == KindCount(kind, es) + KindCount(kind, fs)
  {
    if fs == [] {
      assert es + fs == es;
    } else {
      assert (es + fs)[..|es + fs| - 1] == es + fs[..|fs| - 1];
      KindCountConcat(kind, es, fs[..|fs| - 1]);
    }
  }

  lemma {:induction false} KindCountUniform(kind: Kind, k: Kind, es: seq<Event>)
    requires forall i :: 0 <= i < |es| ==> IsKind(k, es[i])
    ensures KindCount(kind, es) == if kind == k then |es| else 0
  {
    if es != [] {
      KindCountUniform(kind, k, es[..|es| - 1]);
    }
  }

  lemma KindCountOfPacket(kind: Kind, i: nat, p: PacketTrace)
    ensures KindCount(kind, EventsOf(i, p)) == |RecordsIn(kind, i, p)|
  {
    KindCountConcat(kind, RecordsIn(Hop, i, p) + RecordsIn(Coll, i, p), RecordsIn(Half, i, p));
    KindCountConcat(kind, RecordsIn(Hop, i, p), RecordsIn(Coll, i, p));
    KindCountUniform(kind, Hop, RecordsIn(Hop, i, p));
    KindCountUniform(kind, Coll, RecordsIn(Coll, i, p));
    KindCountUniform(kind, Half, RecordsIn(Half, i, p));
  }

  function TotalRecords(kind: Kind, ps: seq<PacketTrace>): nat {
    if ps == [] then 0
    else TotalRecords(kind, ps[..|ps| - 1]) + |RecordsIn(kind, |ps| - 1, ps[|ps| - 1])|
  }

  /** Summed over the edges, hop counts give the hops of all packets; likewise for the other kinds. */
  lemma {:induction false} EdgeCountsSumUp(kind: Kind, ps: seq<PacketTrace>)
    ensures SumOver(kind, Values(EdgeBook(Flat(ps)))) == TotalRecords(kind, ps)
  {
    SumOfBook(kind, Flat(ps));
    FlatKinds(kind, ps);
  }

  lemma {:induction false} FlatKinds(kind: Kind, ps: seq<PacketTrace>)
    ensures KindCount(kind, Flat(ps)) == TotalRecords(kind, ps)
  {
    if ps != [] {
      var n := |ps| - 1;
      FlatKinds(kind, ps[..n]);
      KindCountConcat(kind, Flat(ps[..n]), EventsOf(n, ps[n]));
      KindCountOfPacket(kind, n, ps[n]);
    }
  }

  lemma {:induction false} RecordsAreSizes(kind: Kind, ps: seq<PacketTrace>)
    ensures TotalRecords(kind, ps) == TotalSize(kind, ps)
  {
    if ps != [] {
      RecordsAreSizes(kind, ps[..|ps| - 1]);
    }
  }

  /** From the tracer's calls to the statistics: the counts of all edges together are the decodable
    * calls of the kind.
    */
  lemma EdgeCountsAreCalls(kind: Kind, cs: seq<Call>)
    ensures SumOver(kind, Values(EdgeBook(Flat(Export(cs))))) == RecordCount(kind, cs)
  {
    EdgeCountsSumUp(kind, Export(cs));
    RecordsAreSizes(kind, Export(cs));
    ExportSize(kind, cs);
  }

  // ---- The packets of an edge -----------------------------------------------

  ghost predicate StrictlyAscending(s: seq<nat>) {
    forall i, j :: 0 <= i < j < |s| ==> s[i] < s[j]
  }

  ghost predicate IndicesAscend(es: seq<Event>) {
    forall i, j :: 0 <= i < j < |es| ==> es[i].pktIdx <= es[j].pktIdx
  }

  lemma {:induction false} PacketsOnMean(es: seq<Event>, k: EdgeKey)
    requires IndicesAscend(es)
    ensures StrictlyAscending(PacketsOn(es, k))
    ensures forall i :: i in PacketsOn(es, k) <==> exists j :: 0 <= j < |es| && On(Hop, k)(es[j]) && es[j].pktIdx == i
  {
    if es != [] {
      var n := |es| - 1;
      var front := es[..n];
      PacketsOnMean(front, k);
      assert forall j :: 0 <= j < n ==> front[j] == es[j];
      forall a | 0 <= a < |PacketsOn(front, k)|
        ensures PacketsOn(front, k)[a] <= es[n].pktIdx
      {
        assert PacketsOn(front, k)[a] in PacketsOn(front, k);
      }
    }
  }

  lemma {:induction false} FlatIndicesAscend(ps: seq<PacketTrace>)
    ensures IndicesAscend(Flat(ps)) && forall i :: 0 <= i < |Flat(ps)| ==> Flat(ps)[i].pktIdx < |ps|
  {
    if ps != [] {
      var n := |ps| - 1;
      FlatIndicesAscend(ps[..n]);
      assert forall i :: 0 <= i < |EventsOf(n, ps[n])| ==> EventsOf(n, ps[n])[i].pktIdx == n;
    }
  }

  /** The packets listed for an edge are, ascending and each once, those with a hop on it. */
  lemma EdgeListsItsPackets(ps: seq<PacketTrace>, k: EdgeKey)
    ensures var listed := GetOr(EdgeBook(Flat(ps)), k, NO_STATS).packets;
            && StrictlyAscending(listed)
            && forall i: nat :: i in listed <==>
                 i < |ps| && exists h :: h in ps[i].hops && KeyFor(h.sender, h.receiver) == k
  {
    var es := Flat(ps);
    EdgeCountsAreTrue(es, k);
    FlatIndicesAscend(ps);
    PacketsOnMean(es, k);
    forall i: nat
      ensures i in PacketsOn(es, k) <==> i < |ps| && exists h :: h in ps[i].hops && KeyFor(h.sender, h.receiver) == k
    {
      HopsOnEdge(ps, k, i);
    }
  }

  lemma HopsOnEdge(ps: seq<PacketTrace>, k: EdgeKey, i: nat)
    ensures (exists j :: 0 <= j < |Flat(ps)| && On(Hop, k)(Flat(ps)[j]) && Flat(ps)[j].pktIdx == i) <==>
            (i < |ps| && exists h :: h in ps[i].hops && KeyFor(h.sender, h.receiver) == k)
  {
    var es := Flat(ps);
    RecordsOfFlat(Hop, i, ps);
    var hops := Filter(Of(Hop, i), es);
    if j :| 0 <= j < |es| && On(Hop, k)(es[j]) && es[j].pktIdx == i {
      assert es[j] in hops;
      var n :| 0 <= n < |hops| && hops[n] == es[j];
      assert ps[i].hops[n] in ps[i].hops;
    }
    if i < |ps| {
      if h :| h in ps[i].hops && KeyFor(h.sender, h.receiver) == k {
        var n :| 0 <= n < |ps[i].hops| && ps[i].hops[n] == h;
        assert hops[n] == HopToEvent(i, h);
        assert hops[n] in es;
        var j :| 0 <= j < |es| && es[j] == hops[n];
        assert On(Hop, k)(es[j]);
      }
    }
  }

  // ---- Counts from the records ------------------------------------------------

  predicate Between(sender: string, receiver: string, a: string, b: string) {
    (sender == a && receiver == b) || (sender == b && receiver == a)
  }

  /** The hops, collisions and half-duplex drops of a packet between two nodes, either way. */
  function RecordsBetween(kind: Kind, p: PacketTrace, a: string, b: string): nat {
    match kind
    case Hop => |Filter((h: HopRecord) => Between(h.sender, h.receiver, a, b), p.hops)|
    case Coll => |Filter((c: CollisionRecord) => Between(c.sender, c.receiver, a, b), p.collisions)|
    case Half => |Filter((h: HalfduplexRecord) => Between(h.sender, h.receiver, a, b), p.halfduplex)|
  }

  function TotalBetween(kind: Kind, ps: seq<PacketTrace>, a: string, b: string): nat {
    if ps == [] then 0
    else TotalBetween(kind, ps[..|ps| - 1], a, b) + RecordsBetween(kind, ps[|ps| - 1], a, b)
  }

  /** A selection by a property that each record shares with its event. */
  lemma {:induction false} SameSelection<R(!new)>(rs: seq<R>, es: seq<Event>, p: R -> bool, q: Event -> bool)
    requires |rs| == |es| && forall i :: 0 <= i < |rs| ==> (p(rs[i]) <==> q(es[i]))
    ensures |Filter(p, rs)| == |Filter(q, es)|
  {
    if rs != [] {
      var n := |rs| - 1;
      SameSelection(rs[..n], es[..n], p, q);
      FilterNext(p, rs[..n], rs[n]);
      FilterNext(q, es[..n], es[n]);
      assert rs == rs[..n] + [rs[n]] && es == es[..n] + [es[n]];
    }
  }

  lemma BetweenIsKey(a: string, b: string)
    ensures forall s, r :: KeyFor(s, r) == KeyFor(a, b) <==> Between(s, r, a, b)
  {
    KeyLaw(a, b);
  }

  lemma OwnKindBetween(kind: Kind, i: nat, p: PacketTrace, a: string, b: string)
    ensures |Filter(On(kind, KeyFor(a, b)), RecordsIn(kind, i, p))| == RecordsBetween(kind, p, a, b)
  {
    BetweenIsKey(a, b);
    var on := On(kind, KeyFor(a, b));
    match kind
    case Hop =>
      SameSelection(p.hops, HopEvents(i, p.hops), (h: HopRecord) => Between(h.sender, h.receiver, a, b), on);
    case Coll =>
      SameSelection(p.collisions, CollisionEvents(i, p.collisions),
                    (c: CollisionRecord) => Between(c.sender, c.receiver, a, b), on);
    case Half =>
      SameSelection(p.halfduplex, HalfduplexEvents(i, p.halfduplex),
                    (h: HalfduplexRecord) => Between(h.sender, h.receiver, a, b), on);
  }

  lemma OtherKindsBetween(kind: Kind, k: Kind, i: nat, p: PacketTrace, key: EdgeKey)
    requires k != kind
    ensures Filter(On(kind, key), RecordsIn(k, i, p)) == []
  {
    FilterNone(On(kind, key), RecordsIn(k, i, p));
  }

  lemma PacketBetween(kind: Kind, i: nat, p: PacketTrace, a: string, b: string)
    ensures |Filter(On(kind, KeyFor(a, b)), EventsOf(i, p))| == RecordsBetween(kind, p, a, b)
  {
    var on := On(kind, KeyFor(a, b));
    FilterThree(on, RecordsIn(Hop, i, p), RecordsIn(Coll, i, p), RecordsIn(Half, i, p));
    OwnKindBetween(kind, i, p, a, b);
    if kind != Hop {
      OtherKindsBetween(kind, Hop, i, p, KeyFor(a, b));
    }
    if kind != Coll {
      OtherKindsBetween(kind, Coll, i, p, KeyFor(a, b));
    }
    if kind != Half {
      OtherKindsBetween(kind, Half, i, p, KeyFor(a, b));
    }
  }

  lemma {:induction false} FlatBetween(kind: Kind, ps: seq<PacketTrace>, a: string, b: string)
    ensures |Filter(On(kind, KeyFor(a, b)), Flat(ps))| == TotalBetween(kind, ps, a, b)
  {
    if ps != [] {
      var n := |ps| - 1;
      FlatBetween(kind, ps[..n], a, b);
      PacketBetween(kind, n, ps[n], a, b);
      FilterConcat(On(kind, KeyFor(a, b)), Flat(ps[..n]), EventsOf(n, ps[n]));
    }
  }

  /** The entry of an edge counts the records of all packets between its two ends, either way. */
  lemma EdgeEntryLaw(ps: seq<PacketTrace>, a: string, b: string)
    ensures var entry := GetOr(EdgeBook(Flat(ps)), KeyFor(a, b), NO_STATS);
            && entry.hopCount == TotalBetween(Hop, ps, a, b)
            && entry.collisionCount == TotalBetween(Coll, ps, a, b)
            && entry.halfduplexCount == TotalBetween(Half, ps, a, b)
  {
    EdgeCountsAreTrue(Flat(ps), KeyFor(a, b));
    FlatBetween(Hop, ps, a, b);
    FlatBetween(Coll, ps, a, b);
    FlatBetween(Half, ps, a, b);
  }
}
