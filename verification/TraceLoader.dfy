/** A finished trace: the tracer's export, and what the trace viewer makes of it. */
module TraceLoader {
  import opened Common
  import opened OrderedDict
  import opened StableSort
  import opened Tracer

  // ---- Export ---------------------------------------------------------------

  function FirstSeen(p: PacketTrace): real {
    p.firstSeenAt
  }

  function TracesIn(book: Dict<string, PacketTrace>): seq<PacketTrace> {
    seq(|book|, i requires 0 <= i < |book| => book[i].1)
  }

  /** The packets of the exported file, chronological. */
  function Export(cs: seq<Call>): seq<PacketTrace> {
    Sort(FirstSeen, TracesIn(Book(cs)))
  }

  // ---- Flattening -----------------------------------------------------------

  datatype Event =
    | HopEvent(t: real, pktIdx: nat, sender: string, receiver: string, txId: Option<int>, airtimeMs: real)
    | CollisionEvent(t: real, pktIdx: nat, sender: string, receiver: string, txId: Option<int>,
                     interferer: Option<string>, interfererTxId: Option<int>, overlap: real)
    | HalfduplexEvent(t: real, pktIdx: nat, sender: string, receiver: string, txId: Option<int>,
                      blockerTxId: Option<int>)

  function Time(e: Event): real {
    e.t
  }

  function HopToEvent(i: nat, h: HopRecord): Event {
    HopEvent(h.t, i, h.sender, h.receiver, h.txId, h.airtimeMs)
  }

  function CollisionToEvent(i: nat, c: CollisionRecord): Event {
    CollisionEvent(c.t, i, c.sender, c.receiver, c.txId, c.interferer, c.interfererTxId, c.overlap)
  }

  function HalfduplexToEvent(i: nat, h: HalfduplexRecord): Event {
    HalfduplexEvent(h.t, i, h.sender, h.receiver, h.txId, h.blockerTxId)
  }

  function HopEvents(i: nat, hs: seq<HopRecord>): seq<Event> {
    seq(|hs|, k requires 0 <= k < |hs| => HopToEvent(i, hs[k]))
  }

  function CollisionEvents(i: nat, cs: seq<CollisionRecord>): seq<Event> {
    seq(|cs|, k requires 0 <= k < |cs| => CollisionToEvent(i, cs[k]))
  }

  function HalfduplexEvents(i: nat, hs: seq<HalfduplexRecord>): seq<Event> {
    seq(|hs|, k requires 0 <= k < |hs| => HalfduplexToEvent(i, hs[k]))
  }

  datatype Kind = Hop | Coll | Half

  function RecordsIn(kind: Kind, i: nat, p: PacketTrace): seq<Event> {
    match kind
    case Hop => HopEvents(i, p.hops)
    case Coll => CollisionEvents(i, p.collisions)
    case Half => HalfduplexEvents(i, p.halfduplex)
  }

  function EventsOf(i: nat, p: PacketTrace): seq<Event> {
    RecordsIn(Hop, i, p) + RecordsIn(Coll, i, p) + RecordsIn(Half, i, p)
  }

  /** The events packet by packet, before they are sorted. */
  function Flat(ps: seq<PacketTrace>): seq<Event> {
    if ps == [] then [] else Flat(ps[..|ps| - 1]) + EventsOf(|ps| - 1, ps[|ps| - 1])
  }

  /** `flatten_events` */
  method FlattenEvents(packets: seq<PacketTrace>) returns (events: seq<Event>)
    ensures events == Sort(Time, Flat(packets))
  {
    events := [];
    for i := 0 to |packets|
      invariant events == Flat(packets[..i])
    {
      var pkt := packets[i];
      ghost var before := events;
      for k := 0 to |pkt.hops|
        invariant events == before + HopEvents(i, pkt.hops)[..k]
      {
        events := events + [HopToEvent(i, pkt.hops[k])];
      }
      for k := 0 to |pkt.collisions|
        invariant events == before + HopEvents(i, pkt.hops) + CollisionEvents(i, pkt.collisions)[..k]
      {
        events := events + [CollisionToEvent(i, pkt.collisions[k])];
      }
      for k := 0 to |pkt.halfduplex|
        invariant events == before + HopEvents(i, pkt.hops) + CollisionEvents(i, pkt.collisions)
                            + HalfduplexEvents(i, pkt.halfduplex)[..k]
      {
        events := events + [HalfduplexToEvent(i, pkt.halfduplex[k])];
      }
      assert packets[..i + 1][..i] == packets[..i];
      assert events == before + EventsOf(i, pkt);
    }
    assert packets[..|packets|] == packets;
    events := Sort(Time, events);
  }

  // ---- Every record once ----------------------------------------------------

  predicate IsRecord(kind: Kind, i: nat, e: Event) {
    e.pktIdx == i && match kind case Hop => e.HopEvent? case Coll => e.CollisionEvent? case Half => e.HalfduplexEvent?
  }

  /** Selects the records of one kind of one packet. */
  function Of(kind: Kind, i: nat): Event -> bool {
    e => IsRecord(kind, i, e)
  }

  lemma {:induction false} FilterAll<T(!new)>(p: T -> bool, s: seq<T>)
    requires forall x :: x in s ==> p(x)
    ensures Filter(p, s) == s
  {
    if s != [] {
      assert s == s[..|s| - 1] + [s[|s| - 1]];
      FilterAll(p, s[..|s| - 1]);
    }
  }

  lemma {:induction false} FilterNone<T(!new)>(p: T -> bool, s: seq<T>)
    requires forall x :: x in s ==> !p(x)
    ensures Filter(p, s) == []
  {
    if s != [] {
      assert s == s[..|s| - 1] + [s[|s| - 1]];
      FilterNone(p, s[..|s| - 1]);
    }
  }

  lemma FilterThree<T(!new)>(p: T -> bool, a: seq<T>, b: seq<T>, c: seq<T>)
    ensures Filter(p, a + b + c) == Filter(p, a) + Filter(p, b) + Filter(p, c)
  {
    FilterConcat(p, a + b, c);
    FilterConcat(p, a, b);
  }

  lemma RecordsOfPacket(kind: Kind, i: nat, j: nat, p: PacketTrace)
    ensures Filter(Of(kind, i), EventsOf(j, p)) == if i == j then RecordsIn(kind, i, p) else []
  {
    var f, hops, colls, halves := Of(kind, i), RecordsIn(Hop, j, p), RecordsIn(Coll, j, p), RecordsIn(Half, j, p);
    FilterThree(f, hops, colls, halves);
    RecordsOfKind(kind, Hop, i, j, p);
    RecordsOfKind(kind, Coll, i, j, p);
    RecordsOfKind(kind, Half, i, j, p);
    WithEmpty(Filter(f, hops), Filter(f, colls), Filter(f, halves));
  }

  lemma WithEmpty<T>(a: seq<T>, b: seq<T>, c: seq<T>)
    ensures a == [] && b == [] ==> a + b + c == c
    ensures a == [] && c == [] ==> a + b + c == b
    ensures b == [] && c == [] ==> a + b + c == a
  {
  }

  lemma RecordsOfKind(kind: Kind, k: Kind, i: nat, j: nat, p: PacketTrace)
    ensures Filter(Of(kind, i), RecordsIn(k, j, p)) == if i == j && kind == k then RecordsIn(k, j, p) else []
  {
    assert forall e :: e in RecordsIn(k, j, p) ==> IsRecord(k, j, e);
    if i == j && kind == k {
      FilterAll(Of(kind, i), RecordsIn(k, j, p));
    } else {
      FilterNone(Of(kind, i), RecordsIn(k, j, p));
    }
  }

  lemma {:induction false} RecordsOfFlat(kind: Kind, i: nat, ps: seq<PacketTrace>)
    ensures Filter(Of(kind, i), Flat(ps)) == if i < |ps| then RecordsIn(kind, i, ps[i]) else []
  {
    if ps != [] {
      var n := |ps| - 1;
      RecordsOfFlat(kind, i, ps[..n]);
      RecordsOfPacket(kind, i, n, ps[n]);
      FilterConcat(Of(kind, i), Flat(ps[..n]), EventsOf(n, ps[n]));
    }
  }

  // ---- The exported packets -------------------------------------------------

  function WithPrint(fp: string): PacketTrace -> bool {
    (p: PacketTrace) => p.fingerprint == fp
  }

  lemma {:induction false} FilterUnique<T(!new)>(p: T -> bool, s: seq<T>, i: nat)
    requires i < |s| && forall j :: 0 <= j < |s| ==> (p(s[j]) <==> j == i)
    ensures Filter(p, s) == [s[i]]
  {
    if i == |s| - 1 {
      FilterNone(p, s[..i]);
    } else {
      FilterUnique(p, s[..|s| - 1], i);
    }
  }

  lemma {:induction false} UniqueInFilter<T(!new)>(p: T -> bool, s: seq<T>) returns (i: nat)
    requires |Filter(p, s)| == 1
    ensures i < |s| && s[i] == Filter(p, s)[0]
    ensures forall j :: 0 <= j < |s| ==> (p(s[j]) <==> j == i)
  {
    var n := |s| - 1;
    assert s == s[..n] + [s[n]];
    if p(s[n]) {
      i := n;
      assert Filter(p, s[..n]) == [];
      assert forall j :: 0 <= j < n ==> s[..n][j] in s[..n];
    } else {
      i := UniqueInFilter(p, s[..n]);
    }
  }

  /** The book has one trace with the fingerprint: that of the first call about it. */
  lemma TraceInBook(cs: seq<Call>, fp: string) returns (k: nat)
    requires Seen(cs, fp)
    ensures k < |Firsts(cs)| && FingerprintOf(Firsts(cs)[k]) == fp
    ensures Filter(WithPrint(fp), TracesIn(Book(cs))) == [TraceOf(cs, Firsts(cs)[k])]
  {
    var traces, fs := TracesIn(Book(cs)), Firsts(cs);
    FirstsSeeAll(cs, fp);
    BookIsDistinct(cs);
    assert forall j :: 0 <= j < |fs| ==> traces[j] == TraceOf(cs, fs[j]) && Book(cs)[j].0 == FingerprintOf(fs[j]);
    k :| 0 <= k < |fs| && IsAbout(fs[k], fp);
    FilterUnique(WithPrint(fp), traces, k);
  }

  /** The one packet with a fingerprint is the record of all calls about it. */
  lemma ExportHasPacket(cs: seq<Call>, fp: string) returns (i: nat)
    requires Seen(cs, fp)
    ensures i < |Export(cs)| && forall j :: 0 <= j < |Export(cs)| ==> (Export(cs)[j].fingerprint == fp <==> j == i)
    ensures exists k :: 0 <= k < |Firsts(cs)| && Export(cs)[i] == TraceOf(cs, Firsts(cs)[k])
    ensures Export(cs)[i].hops == Hops(cs, fp) && Export(cs)[i].collisions == Collisions(cs, fp)
    ensures Export(cs)[i].halfduplex == Halfduplexes(cs, fp)
  {
    var k := TraceInBook(cs, fp);
    var trace := TraceOf(cs, Firsts(cs)[k]);
    FilterOfSort(FirstSeen, WithPrint(fp), TracesIn(Book(cs)));
    SortOfSorted(FirstSeen, [trace]);
    i := UniqueInFilter(WithPrint(fp), Export(cs));
    assert Export(cs)[i] == trace;
  }

  /** The exported packets are the packets of the history, in the order they were first seen. */
  lemma ExportIsChronological(cs: seq<Call>)
    ensures Sorted(FirstSeen, Export(cs)) && |Export(cs)| == |Firsts(cs)|
    ensures forall p :: p in Export(cs) ==> Seen(cs, p.fingerprint)
  {
    var traces, fs := TracesIn(Book(cs)), Firsts(cs);
    SortSorts(FirstSeen, traces);
    forall p | p in traces
      ensures Seen(cs, p.fingerprint)
    {
      var i :| 0 <= i < |traces| && traces[i] == p;
      assert Book(cs)[i].0 == FingerprintOf(fs[i]) && IsAbout(fs[i], p.fingerprint);
      FirstsSeeAll(cs, p.fingerprint);
    }
  }

  function Recorded(cs: seq<Call>, fp: string, kind: Kind, i: nat): seq<Event> {
    match kind
    case Hop => HopEvents(i, Hops(cs, fp))
    case Coll => CollisionEvents(i, Collisions(cs, fp))
    case Half => HalfduplexEvents(i, Halfduplexes(cs, fp))
  }

  /** In the time-sorted list the events of one kind that point at the packet with a fingerprint
    * are the records of all calls about it, each once, sorted by time.
    */
  lemma EveryRecordOnce(cs: seq<Call>, fp: string, kind: Kind) returns (i: nat)
    requires Seen(cs, fp)
    ensures i < |Export(cs)| && forall j :: 0 <= j < |Export(cs)| ==> (Export(cs)[j].fingerprint == fp <==> j == i)
    ensures Filter(Of(kind, i), Sort(Time, Flat(Export(cs)))) == Sort(Time, Recorded(cs, fp, kind, i))
  {
    i := ExportHasPacket(cs, fp);
    RecordsOfFlat(kind, i, Export(cs));
    FilterOfSort(Time, Of(kind, i), Flat(Export(cs)));
  }

  ghost predicate TimesAscend(cs: seq<Call>) {
    forall i, j :: 0 <= i < j < |cs| ==> cs[i].t <= cs[j].t
  }

  lemma {:induction false} RecordsAreEarlier(cs: seq<Call>, fp: string, kind: Kind, i: nat, t: real)
    requires forall k :: 0 <= k < |cs| ==> cs[k].t <= t
    ensures forall e :: e in Recorded(cs, fp, kind, i) ==> e.t <= t
  {
    if cs != [] {
      RecordsAreEarlier(cs[..|cs| - 1], fp, kind, i, t);
      RecordedNext(cs, fp, kind, i);
    }
  }

  lemma RecordedNext(cs: seq<Call>, fp: string, kind: Kind, i: nat)
    requires cs != []
    ensures var front := Recorded(cs[..|cs| - 1], fp, kind, i);
            || Recorded(cs, fp, kind, i) == front
            || (|Recorded(cs, fp, kind, i)| == |front| + 1 &&
                Recorded(cs, fp, kind, i) == front + [Recorded(cs, fp, kind, i)[|front|]] &&
                Recorded(cs, fp, kind, i)[|front|].t == cs[|cs| - 1].t)
  {
  }

  lemma {:induction false} RecordsAscend(cs: seq<Call>, fp: string, kind: Kind, i: nat)
    requires TimesAscend(cs)
    ensures Sorted(Time, Recorded(cs, fp, kind, i))
  {
    if cs != [] {
      var front := cs[..|cs| - 1];
      RecordsAscend(front, fp, kind, i);
      RecordsAreEarlier(front, fp, kind, i, cs[|cs| - 1].t);
      RecordedNext(cs, fp, kind, i);
      if Recorded(cs, fp, kind, i) != Recorded(front, fp, kind, i) {
        SortedNext(Time, Recorded(front, fp, kind, i), Recorded(cs, fp, kind, i)[|Recorded(front, fp, kind, i)|]);
      }
    }
  }

  /** When the clock never runs backwards, they also come in the order of the calls. */
  lemma RecordsKeepCallOrder(cs: seq<Call>, fp: string, kind: Kind) returns (i: nat)
    requires Seen(cs, fp) && TimesAscend(cs)
    ensures i < |Export(cs)| && Export(cs)[i].fingerprint == fp
    ensures Filter(Of(kind, i), Sort(Time, Flat(Export(cs)))) == Recorded(cs, fp, kind, i)
  {
    i := EveryRecordOnce(cs, fp, kind);
    RecordsAscend(cs, fp, kind, i);
    SortOfSorted(Time, Recorded(cs, fp, kind, i));
  }

  // ---- Conservation ---------------------------------------------------------

  /** How many records of a kind a trace holds. */
  function Size(kind: Kind, p: PacketTrace): nat {
    match kind case Hop => |p.hops| case Coll => |p.collisions| case Half => |p.halfduplex|
  }

  function TotalSize(kind: Kind, ps: seq<PacketTrace>): nat {
    if ps == [] then 0 else TotalSize(kind, ps[..|ps| - 1]) + Size(kind, ps[|ps| - 1])
  }

  /** The call leaves a record of the kind. */
  predicate Yields(kind: Kind, c: Call) {
    Decodes(c) && match kind case Hop => c.Rx? case Coll => c.Collision? case Half => c.Halfduplex?
  }

  function RecordCount(kind: Kind, cs: seq<Call>): nat {
    if cs == [] then 0 else RecordCount(kind, cs[..|cs| - 1]) + if Yields(kind, cs[|cs| - 1]) then 1 else 0
  }

  lemma {:induction false} FlatSize(ps: seq<PacketTrace>)
    ensures |Flat(ps)| == TotalSize(Hop, ps) + TotalSize(Coll, ps) + TotalSize(Half, ps)
  {
    if ps != [] {
      FlatSize(ps[..|ps| - 1]);
    }
  }

  lemma TotalSizeNext(kind: Kind, ps: seq<PacketTrace>, p: PacketTrace)
    ensures TotalSize(kind, ps + [p]) == TotalSize(kind, ps) + Size(kind, p)
  {
    assert (ps + [p])[..|ps|] == ps;
  }

  lemma {:induction false} TotalSizeOfInsert(kind: Kind, p: PacketTrace, ps: seq<PacketTrace>)
    ensures TotalSize(kind, Insert(FirstSeen, p, ps)) == TotalSize(kind, ps) + Size(kind, p)
  {
    TotalSizeNext(kind, ps, p);
    if ps != [] {
      TotalSizeOfInsert(kind, p, ps[..|ps| - 1]);
      TotalSizeNext(kind, Insert(FirstSeen, p, ps[..|ps| - 1]), ps[|ps| - 1]);
    }
  }

  lemma {:induction false} TotalSizeOfSort(kind: Kind, ps: seq<PacketTrace>)
    ensures TotalSize(kind, Sort(FirstSeen, ps)) == TotalSize(kind, ps)
  {
    if ps != [] {
      TotalSizeOfSort(kind, ps[..|ps| - 1]);
      TotalSizeOfInsert(kind, ps[|ps| - 1], Sort(FirstSeen, ps[..|ps| - 1]));
    }
  }

  lemma {:induction false} TotalSizeOfUpdate(kind: Kind, ps: seq<PacketTrace>, i: nat, p: PacketTrace)
    requires i < |ps|
    ensures TotalSize(kind, ps[i := p]) == TotalSize(kind, ps) - Size(kind, ps[i]) + Size(kind, p)
  {
    var n := |ps| - 1;
    if i == n {
      assert ps[i := p][..n] == ps[..n];
    } else {
      TotalSizeOfUpdate(kind, ps[..n], i, p);
      assert ps[i := p][..n] == ps[..n][i := p];
    }
  }

  lemma TotalSizeOfPut(kind: Kind, d: Dict<string, PacketTrace>, k: string, p: PacketTrace, default: PacketTrace)
    requires Size(kind, default) == 0
    ensures TotalSize(kind, TracesIn(Put(d, k, p))) ==
            TotalSize(kind, TracesIn(d)) - Size(kind, GetOr(d, k, default)) + Size(kind, p)
  {
    if Has(d, k) {
      TotalSizeOfUpdate(kind, TracesIn(d), Find(d, k), p);
      assert TracesIn(Put(d, k, p)) == TracesIn(d)[Find(d, k) := p];
    } else {
      TotalSizeNext(kind, TracesIn(d), p);
      assert TracesIn(Put(d, k, p)) == TracesIn(d) + [p];
    }
  }

  lemma NotedSize(kind: Kind, cs: seq<Call>, trace: PacketTrace, c: Call)
    requires Decodes(c)
    ensures Size(kind, Noted(cs, trace, c)) == Size(kind, trace) + if Yields(kind, c) then 1 else 0
  {
  }

  lemma {:induction false} BookSize(kind: Kind, cs: seq<Call>)
    ensures TotalSize(kind, TracesIn(Book(cs))) == RecordCount(kind, cs)
  {
    if cs != [] {
      var front, c := cs[..|cs| - 1], cs[|cs| - 1];
      assert cs == front + [c];
      BookSize(kind, front);
      BookNext(front, c);
      if Decodes(c) {
        var trace := GetOr(Book(front), FingerprintOf(c), NewTrace(c));
        NotedSize(kind, front, trace, c);
        TotalSizeOfPut(kind, Book(front), FingerprintOf(c), Noted(front, trace, c), NewTrace(c));
      }
    }
  }

  /** The exported packets hold as many records of a kind as there were decodable calls of it. */
  lemma ExportSize(kind: Kind, cs: seq<Call>)
    ensures TotalSize(kind, Export(cs)) == RecordCount(kind, cs)
  {
    TotalSizeOfSort(kind, TracesIn(Book(cs)));
    BookSize(kind, cs);
  }

  /** As many events are replayed as decodable receptions, collisions and drops were recorded. */
  lemma NoRecordIsLost(cs: seq<Call>)
    ensures |Sort(Time, Flat(Export(cs)))| == RecordCount(Hop, cs) + RecordCount(Coll, cs) + RecordCount(Half, cs)
  {
    SortSorts(Time, Flat(Export(cs)));
    FlatSize(Export(cs));
    ExportSize(Hop, cs);
    ExportSize(Coll, cs);
    ExportSize(Half, cs);
  }
}
