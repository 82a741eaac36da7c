/** What the events of a finished trace say, field by field, of the calls they were made from. */
module TraceLaws {
  import opened StableSort
  import opened Tracer
  import opened TraceLoader

  /** The airtime of the transmission that call `n` names, if it came before. */
  function AirtimeBefore(cs: seq<Call>, n: nat): real
    requires n < |cs| && cs[n].Rx?
  {
    var txs, id := Transmissions(cs[..n]), cs[n].txId;
    if id.Some? && 1 <= id.value <= |txs| then txs[id.value - 1].airtimeMs else 0.0
  }

  /** The event tells of call `n`: when, who, to whom, in which transmission, and why it failed. */
  ghost predicate TellsOf(e: Event, cs: seq<Call>, n: nat) {
    n < |cs| && e.t == cs[n].t && e.sender == cs[n].sender &&
    match cs[n]
    case Tx(_, _, _, _, _) => false
    case Rx(_, _, _, receiver, txId) =>
      e.HopEvent? && e.receiver == receiver && e.txId == txId && e.airtimeMs == AirtimeBefore(cs, n)
    case Collision(_, _, _, receiver, txId, interferer, interfererTxId, overlap) =>
      e.CollisionEvent? && e.receiver == receiver && e.txId == txId && e.interferer == interferer &&
      e.interfererTxId == interfererTxId && e.overlap == overlap
    case Halfduplex(_, _, _, receiver, txId, blockerTxId) =>
      e.HalfduplexEvent? && e.receiver == receiver && e.txId == txId && e.blockerTxId == blockerTxId
  }

  /** The hop record of call `n`: what was decoded, and how long the packet was. */
  ghost predicate HopTellsOf(h: HopRecord, cs: seq<Call>, n: nat) {
    && n < |cs| && cs[n].Rx? && Decodes(cs[n])
    && h.t == cs[n].t && h.sender == cs[n].sender && h.receiver == cs[n].receiver && h.txId == cs[n].txId
    && h.routeType == InfoOf(cs[n]).routeType && h.pathCount == InfoOf(cs[n]).pathCount
    && h.sizeBytes == |cs[n].hex| / 2 && h.airtimeMs == AirtimeBefore(cs, n)
  }

  /** The calls of a kind about a packet, in order. */
  function CallsOf(kind: Kind, cs: seq<Call>, fp: string): seq<nat> {
    if cs == [] then []
    else
      var n := |cs| - 1;
      CallsOf(kind, cs[..n], fp) + if Yields(kind, cs[n]) && IsAbout(cs[n], fp) then [n] else []
  }

  lemma {:induction false} CallsOfHas(kind: Kind, cs: seq<Call>, fp: string, n: nat)
    ensures n in CallsOf(kind, cs, fp) <==> n < |cs| && Yields(kind, cs[n]) && IsAbout(cs[n], fp)
  {
    if cs != [] {
      var m := |cs| - 1;
      var front, last := CallsOf(kind, cs[..m], fp), Yields(kind, cs[m]) && IsAbout(cs[m], fp);
      CallsOfHas(kind, cs[..m], fp, n);
      assert CallsOf(kind, cs, fp) == if last then front + [m] else front;
      assert n < m ==> cs[..m][n] == cs[n];
    }
  }

  lemma {:induction false} CallsOfAscend(kind: Kind, cs: seq<Call>, fp: string)
    ensures forall j, k :: 0 <= j < k < |CallsOf(kind, cs, fp)| ==> CallsOf(kind, cs, fp)[j] < CallsOf(kind, cs, fp)[k]
  {
    if cs != [] {
      var front := CallsOf(kind, cs[..|cs| - 1], fp);
      CallsOfAscend(kind, cs[..|cs| - 1], fp);
      forall j | 0 <= j < |front|
        ensures front[j] < |cs| - 1
      {
        CallsOfHas(kind, cs[..|cs| - 1], fp, front[j]);
        assert front[j] in front;
      }
    }
  }

  lemma StillTellsOf(e: Event, cs: seq<Call>, c: Call, n: nat)
    requires TellsOf(e, cs, n)
    ensures TellsOf(e, cs + [c], n)
  {
    assert (cs + [c])[..n] == cs[..n];
  }

  lemma NextTellsOf(cs: seq<Call>, c: Call, fp: string, kind: Kind, i: nat)
    requires Yields(kind, c) && IsAbout(c, fp)
    ensures var before, after := Recorded(cs, fp, kind, i), Recorded(cs + [c], fp, kind, i);
            |after| == |before| + 1 && after[..|before|] == before && TellsOf(after[|before|], cs + [c], |cs|)
  {
    assert (cs + [c])[..|cs|] == cs;
  }

  lemma OtherCallsLeave(cs: seq<Call>, c: Call, fp: string, kind: Kind, i: nat)
    requires !(Yields(kind, c) && IsAbout(c, fp))
    ensures Recorded(cs + [c], fp, kind, i) == Recorded(cs, fp, kind, i)
  {
    assert (cs + [c])[..|cs|] == cs;
  }

  /** The records of a kind about a packet tell of exactly those calls, in order. */
  lemma {:induction false} RecordedTellOf(cs: seq<Call>, fp: string, kind: Kind, i: nat)
    ensures |Recorded(cs, fp, kind, i)| == |CallsOf(kind, cs, fp)|
    ensures forall k :: 0 <= k < |CallsOf(kind, cs, fp)| ==>
              CallsOf(kind, cs, fp)[k] >= 0 && TellsOf(Recorded(cs, fp, kind, i)[k], cs, CallsOf(kind, cs, fp)[k])
  {
    if cs != [] {
      var front, c := cs[..|cs| - 1], cs[|cs| - 1];
      assert cs == front + [c];
      RecordedTellOf(front, fp, kind, i);
      var before := Recorded(front, fp, kind, i);
      forall k | 0 <= k < |before|
        ensures TellsOf(before[k], cs, CallsOf(kind, front, fp)[k])
      {
        StillTellsOf(before[k], front, c, CallsOf(kind, front, fp)[k]);
      }
      if Yields(kind, c) && IsAbout(c, fp) {
        NextTellsOf(front, c, fp, kind, i);
      } else {
        OtherCallsLeave(front, c, fp, kind, i);
      }
    }
  }

  lemma StillHopTellsOf(h: HopRecord, cs: seq<Call>, c: Call, n: nat)
    requires HopTellsOf(h, cs, n)
    ensures HopTellsOf(h, cs + [c], n)
  {
    assert (cs + [c])[..n] == cs[..n];
  }

  lemma NextHopTellsOf(cs: seq<Call>, c: Call, fp: string)
    requires c.Rx? && IsAbout(c, fp)
    ensures var before, after := Hops(cs, fp), Hops(cs + [c], fp);
            |after| == |before| + 1 && after[..|before|] == before && HopTellsOf(after[|before|], cs + [c], |cs|)
  {
    assert (cs + [c])[..|cs|] == cs;
  }

  /** Likewise the hop records, with what the packet was decoded to. */
  lemma {:induction false} HopsTellOf(cs: seq<Call>, fp: string)
    ensures |Hops(cs, fp)| == |CallsOf(Hop, cs, fp)|
    ensures forall k :: 0 <= k < |CallsOf(Hop, cs, fp)| ==>
              CallsOf(Hop, cs, fp)[k] >= 0 && HopTellsOf(Hops(cs, fp)[k], cs, CallsOf(Hop, cs, fp)[k])
  {
    if cs != [] {
      var front, c := cs[..|cs| - 1], cs[|cs| - 1];
      assert cs == front + [c];
      HopsTellOf(front, fp);
      var before := Hops(front, fp);
      forall k | 0 <= k < |before|
        ensures HopTellsOf(before[k], cs, CallsOf(Hop, front, fp)[k])
      {
        StillHopTellsOf(before[k], front, c, CallsOf(Hop, front, fp)[k]);
      }
      if c.Rx? && IsAbout(c, fp) {
        NextHopTellsOf(front, c, fp);
      }
    }
  }

  /** Call `n` is the first one about the packet. */
  ghost predicate IsFirst(cs: seq<Call>, fp: string, n: nat) {
    n < |cs| && IsAbout(cs[n], fp) && forall k :: 0 <= k < n ==> !IsAbout(cs[k], fp)
  }

  lemma {:induction false} FirstsAreFirst(cs: seq<Call>, i: nat) returns (n: nat)
    requires i < |Firsts(cs)|
    ensures IsFirst(cs, FingerprintOf(Firsts(cs)[i]), n) && cs[n] == Firsts(cs)[i]
  {
    var front, c := cs[..|cs| - 1], cs[|cs| - 1];
    assert cs == front + [c];
    FirstsNext(front, c);
    if i < |Firsts(front)| {
      n := FirstsAreFirst(front, i);
    } else {
      n := |front|;
      NotSeen(front, FingerprintOf(c));
    }
  }

  lemma NotSeen(cs: seq<Call>, fp: string)
    requires !Seen(cs, fp)
    ensures forall k :: 0 <= k < |cs| ==> !IsAbout(cs[k], fp)
  {
  }

  /** An exported packet says when, by whom and with what type it was first seen. */
  lemma FirstSeenLaw(cs: seq<Call>, i: nat) returns (n: nat)
    requires i < |Export(cs)|
    ensures var p := Export(cs)[i];
            IsFirst(cs, p.fingerprint, n) && p.firstSeenAt == cs[n].t && p.firstSender == cs[n].sender &&
            p.payloadType == InfoOf(cs[n]).payloadType
  {
    var traces := TracesIn(Book(cs));
    SortSorts(FirstSeen, traces);
    assert Export(cs)[i] in traces;
    var k :| 0 <= k < |traces| && traces[k] == Export(cs)[i];
    n := FirstsAreFirst(cs, k);
  }

  /** Packets are exported in the order they were first seen, events replayed in the order of time. */
  lemma OrderLaw(cs: seq<Call>)
    ensures forall i, j :: 0 <= i < j < |Export(cs)| ==> Export(cs)[i].firstSeenAt <= Export(cs)[j].firstSeenAt
    ensures forall i, j :: 0 <= i < j < |Replayed(cs)| ==> Replayed(cs)[i].t <= Replayed(cs)[j].t
  {
    SortSorts(FirstSeen, TracesIn(Book(cs)));
    SortSorts(Time, Flat(Export(cs)));
  }

  function KindOfCall(c: Call): Kind
    requires !c.Tx?
  {
    if c.Rx? then Hop else if c.Collision? then Coll else Half
  }

  /** The time-sorted events of everything traced. */
  function Replayed(cs: seq<Call>): seq<Event> {
    Sort(Time, Flat(Export(cs)))
  }

  /** Every decodable call but a transmission has an event that tells of it, at the packet it is about. */
  lemma EventOfCall(cs: seq<Call>, n: nat) returns (e: Event)
    requires n < |cs| && Decodes(cs[n]) && !cs[n].Tx?
    ensures e in Replayed(cs) && TellsOf(e, cs, n)
    ensures e.pktIdx < |Export(cs)| && Export(cs)[e.pktIdx].fingerprint == FingerprintOf(cs[n])
  {
    var fp, kind := FingerprintOf(cs[n]), KindOfCall(cs[n]);
    assert IsAbout(cs[n], fp);
    var i := EveryRecordOnce(cs, fp, kind);
    CallsOfHas(kind, cs, fp, n);
    var k :| 0 <= k < |CallsOf(kind, cs, fp)| && CallsOf(kind, cs, fp)[k] == n;
    RecordedTellOf(cs, fp, kind, i);
    e := Recorded(cs, fp, kind, i)[k];
    SortSorts(Time, Recorded(cs, fp, kind, i));
    assert e in Filter(Of(kind, i), Replayed(cs));
  }

  function KindOfEvent(e: Event): Kind {
    if e.HopEvent? then Hop else if e.CollisionEvent? then Coll else Half
  }

  /** An event is a record of the packet it points at. */
  lemma EventIsRecorded(cs: seq<Call>, e: Event) returns (fp: string)
    requires e in Replayed(cs)
    ensures e.pktIdx < |Export(cs)| && Export(cs)[e.pktIdx].fingerprint == fp
    ensures e in Recorded(cs, fp, KindOfEvent(e), e.pktIdx)
  {
    var ps, kind, i := Export(cs), KindOfEvent(e), e.pktIdx;
    SortSorts(Time, Flat(ps));
    RecordsOfFlat(kind, i, ps);
    assert e in Filter(Of(kind, i), Flat(ps));
    fp := ps[i].fingerprint;
    ExportIsChronological(cs);
    var j := ExportHasPacket(cs, fp);
    assert RecordsIn(kind, i, ps[i]) == Recorded(cs, fp, kind, i);
  }

  /** And every event tells of such a call. */
  lemma CallOfEvent(cs: seq<Call>, e: Event) returns (n: nat)
    requires e in Replayed(cs)
    ensures TellsOf(e, cs, n) && Decodes(cs[n])
    ensures e.pktIdx < |Export(cs)| && Export(cs)[e.pktIdx].fingerprint == FingerprintOf(cs[n])
  {
    var fp := EventIsRecorded(cs, e);
    var kind, i := KindOfEvent(e), e.pktIdx;
    RecordedTellOf(cs, fp, kind, i);
    var k :| 0 <= k < |Recorded(cs, fp, kind, i)| && Recorded(cs, fp, kind, i)[k] == e;
    n := CallsOf(kind, cs, fp)[k];
    CallsOfHas(kind, cs, fp, n);
    assert n in CallsOf(kind, cs, fp);
  }

  lemma HopCall(cs: seq<Call>, e: Event) returns (n: nat)
    requires e in Replayed(cs) && e.HopEvent?
    ensures n < |cs| && cs[n].Rx? && e.txId == cs[n].txId && e.airtimeMs == AirtimeBefore(cs, n)
  {
    n := CallOfEvent(cs, e);
  }
}
