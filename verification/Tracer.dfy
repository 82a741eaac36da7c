/** The packet tracer: every transmission, reception, collision and half-duplex drop, grouped by
  * the fingerprint of the packet.
  */
module Tracer {
  import opened Common
  import opened OrderedDict
  import Packet

  datatype HopRecord = HopRecord(
    t: real, sender: string, receiver: string, routeType: int, pathCount: int,
    txId: Option<int>, airtimeMs: real, sizeBytes: nat)

  datatype CollisionRecord = CollisionRecord(
    t: real, sender: string, receiver: string, txId: Option<int>,
    interferer: Option<string>, interfererTxId: Option<int>, overlap: real)

  datatype HalfduplexRecord = HalfduplexRecord(
    t: real, sender: string, receiver: string, txId: Option<int>, blockerTxId: Option<int>)

  datatype PacketTrace = PacketTrace(
    fingerprint: string, payloadType: int, firstSeenAt: real, firstSender: string,
    hops: seq<HopRecord>, collisions: seq<CollisionRecord>, halfduplex: seq<HalfduplexRecord>)

  datatype TxEvent = TxEvent(sender: string, t: real, txEnd: Option<real>)

  /** One call of the tracer. */
  datatype Call =
    | Tx(sender: string, hex: string, t: real, airtimeMs: real, txEnd: Option<real>)
    | Rx(sender: string, hex: string, t: real, receiver: string, txId: Option<int>)
    | Collision(sender: string, hex: string, t: real, receiver: string, txId: Option<int>,
                interferer: Option<string>, interfererTxId: Option<int>, overlap: real)
    | Halfduplex(sender: string, hex: string, t: real, receiver: string, txId: Option<int>,
                 blockerTxId: Option<int>)

  // ---- What a history of calls says -----------------------------------------

  predicate Decodes(c: Call) {
    Packet.Decode(c.hex).Some?
  }

  function InfoOf(c: Call): Packet.PacketInfo
    requires Decodes(c)
  {
    Packet.Decode(c.hex).value
  }

  /** Whether the call is about the packet with this fingerprint. */
  predicate IsAbout(c: Call, fp: string) {
    Decodes(c) && Packet.Fingerprint(InfoOf(c)) == fp
  }

  /** The transmissions that got a tx_id; the n-th of them got n. */
  function Transmissions(cs: seq<Call>): (r: seq<Call>)
    ensures forall i :: 0 <= i < |r| ==> r[i].Tx?
  {
    if cs == [] then []
    else
      var front := Transmissions(cs[..|cs| - 1]);
      if cs[|cs| - 1].Tx? && Decodes(cs[|cs| - 1]) then front + [cs[|cs| - 1]] else front
  }

  function AirtimeFor(txs: seq<Call>, txId: Option<int>): real
    requires forall i :: 0 <= i < |txs| ==> txs[i].Tx?
  {
    if txId.Some? && 1 <= txId.value <= |txs| then txs[txId.value - 1].airtimeMs else 0.0
  }

  /** Receptions of one packet, in the order of the calls. */
  function Hops(cs: seq<Call>, fp: string): seq<HopRecord> {
    if cs == [] then []
    else
      var front, c := cs[..|cs| - 1], cs[|cs| - 1];
      if c.Rx? && IsAbout(c, fp) then
        Hops(front, fp) + [HopRecord(c.t, c.sender, c.receiver, InfoOf(c).routeType, InfoOf(c).pathCount, c.txId,
                                     AirtimeFor(Transmissions(front), c.txId), |c.hex| / 2)]
      else Hops(front, fp)
  }

  function Collisions(cs: seq<Call>, fp: string): seq<CollisionRecord> {
    if cs == [] then []
    else
      var front, c := cs[..|cs| - 1], cs[|cs| - 1];
      if c.Collision? && IsAbout(c, fp) then
        Collisions(front, fp) +
        [CollisionRecord(c.t, c.sender, c.receiver, c.txId, c.interferer, c.interfererTxId, c.overlap)]
      else Collisions(front, fp)
  }

  function Halfduplexes(cs: seq<Call>, fp: string): seq<HalfduplexRecord> {
    if cs == [] then []
    else
      var front, c := cs[..|cs| - 1], cs[|cs| - 1];
      if c.Halfduplex? && IsAbout(c, fp) then
        Halfduplexes(front, fp) + [HalfduplexRecord(c.t, c.sender, c.receiver, c.txId, c.blockerTxId)]
      else Halfduplexes(front, fp)
  }

  predicate Seen(cs: seq<Call>, fp: string) {
    exists i :: 0 <= i < |cs| && IsAbout(cs[i], fp)
  }

  /** The first call about each packet, in order. */
  function Firsts(cs: seq<Call>): (r: seq<Call>)
    ensures forall i :: 0 <= i < |r| ==> Decodes(r[i])
  {
    if cs == [] then []
    else
      var front, c := cs[..|cs| - 1], cs[|cs| - 1];
      if Decodes(c) && !Seen(front, Packet.Fingerprint(InfoOf(c))) then Firsts(front) + [c] else Firsts(front)
  }

  function FingerprintOf(c: Call): string
    requires Decodes(c)
  {
    Packet.Fingerprint(InfoOf(c))
  }

  /** All there is to know about the packet that `first` was the first call about. */
  function TraceOf(cs: seq<Call>, first: Call): PacketTrace
    requires Decodes(first)
  {
    var fp := FingerprintOf(first);
    PacketTrace(fp, InfoOf(first).payloadType, first.t, first.sender,
                Hops(cs, fp), Collisions(cs, fp), Halfduplexes(cs, fp))
  }

  function Book(cs: seq<Call>): Dict<string, PacketTrace> {
    var firsts := Firsts(cs);
    seq(|firsts|, i requires 0 <= i < |firsts| => (FingerprintOf(firsts[i]), TraceOf(cs, firsts[i])))
  }

  // ---- One more call --------------------------------------------------------

  lemma SeenNext(cs: seq<Call>, c: Call, fp: string)
    ensures Seen(cs + [c], fp) <==> Seen(cs, fp) || IsAbout(c, fp)
  {
    if Seen(cs, fp) {
      var i :| 0 <= i < |cs| && IsAbout(cs[i], fp);
      assert (cs + [c])[i] == cs[i];
    }
    if IsAbout(c, fp) {
      assert (cs + [c])[|cs|] == c;
    }
  }

  lemma FirstsNext(cs: seq<Call>, c: Call)
    ensures Firsts(cs + [c]) == if Decodes(c) && !Seen(cs, FingerprintOf(c)) then Firsts(cs) + [c] else Firsts(cs)
    ensures Transmissions(cs + [c]) == if c.Tx? && Decodes(c) then Transmissions(cs) + [c] else Transmissions(cs)
  {
    assert (cs + [c])[..|cs|] == cs;
  }

  lemma {:induction false} FirstsSeeAll(cs: seq<Call>, fp: string)
    ensures Seen(cs, fp) <==> Seen(Firsts(cs), fp)
  {
    if cs != [] {
      var front, c := cs[..|cs| - 1], cs[|cs| - 1];
      assert cs == front + [c];
      FirstsSeeAll(front, fp);
      SeenNext(front, c, fp);
      SeenNext(Firsts(front), c, fp);
    }
  }

  lemma {:induction false} BookIsDistinct(cs: seq<Call>)
    ensures DistinctKeys(Book(cs))
  {
    if cs != [] {
      var front, c := cs[..|cs| - 1], cs[|cs| - 1];
      assert cs == front + [c];
      BookIsDistinct(front);
      FirstsNext(front, c);
      var fs := Firsts(front);
      assert forall i :: 0 <= i < |fs| ==> Book(front)[i].0 == FingerprintOf(fs[i]);
      if Firsts(cs) == fs + [c] {
        FirstsSeeAll(front, FingerprintOf(c));
        assert forall i :: 0 <= i < |fs| ==> !IsAbout(fs[i], FingerprintOf(c));
      }
    }
  }

  function NewTrace(c: Call): PacketTrace
    requires Decodes(c)
  {
    PacketTrace(FingerprintOf(c), InfoOf(c).payloadType, c.t, c.sender, [], [], [])
  }

  /** The trace with the record of the call appended. */
  function Noted(cs: seq<Call>, trace: PacketTrace, c: Call): PacketTrace
    requires Decodes(c)
  {
    match c
    case Tx(_, _, _, _, _) => trace
    case Rx(sender, hex, t, receiver, txId) =>
      trace.(hops := trace.hops +
        [HopRecord(t, sender, receiver, InfoOf(c).routeType, InfoOf(c).pathCount, txId,
                   AirtimeFor(Transmissions(cs), txId), |hex| / 2)])
    case Collision(sender, _, t, receiver, txId, interferer, interfererTxId, overlap) =>
      trace.(collisions := trace.collisions +
        [CollisionRecord(t, sender, receiver, txId, interferer, interfererTxId, overlap)])
    case Halfduplex(sender, _, t, receiver, txId, blockerTxId) =>
      trace.(halfduplex := trace.halfduplex + [HalfduplexRecord(t, sender, receiver, txId, blockerTxId)])
  }

  lemma TraceNext(cs: seq<Call>, c: Call, first: Call)
    requires Decodes(first)
    ensures TraceOf(cs + [c], first) ==
            if IsAbout(c, FingerprintOf(first)) then Noted(cs, TraceOf(cs, first), c) else TraceOf(cs, first)
  {
    assert (cs + [c])[..|cs|] == cs;
  }

  lemma {:induction false} UnseenHasNothing(cs: seq<Call>, fp: string)
    requires !Seen(cs, fp)
    ensures Hops(cs, fp) == [] && Collisions(cs, fp) == [] && Halfduplexes(cs, fp) == []
  {
    if cs != [] {
      var front, c := cs[..|cs| - 1], cs[|cs| - 1];
      assert cs == front + [c];
      SeenNext(front, c, fp);
      UnseenHasNothing(front, fp);
    }
  }

  lemma BookIgnores(cs: seq<Call>, c: Call)
    requires !Decodes(c)
    ensures Book(cs + [c]) == Book(cs)
  {
    FirstsNext(cs, c);
    forall i | 0 <= i < |Firsts(cs)|
      ensures Book(cs + [c])[i] == Book(cs)[i]
    {
      TraceNext(cs, c, Firsts(cs)[i]);
    }
  }

  lemma BookOpens(cs: seq<Call>, c: Call)
    requires Decodes(c) && !Has(Book(cs), FingerprintOf(c))
    ensures Book(cs + [c]) == Book(cs) + [(FingerprintOf(c), Noted(cs, NewTrace(c), c))]
  {
    HasIsSeen(cs, FingerprintOf(c));
    FirstsNext(cs, c);
    UnseenHasNothing(cs, FingerprintOf(c));
    TraceNext(cs, c, c);
    forall i | 0 <= i < |Firsts(cs)|
      ensures Book(cs + [c])[i] == Book(cs)[i]
    {
      TraceNext(cs, c, Firsts(cs)[i]);
      assert Book(cs)[i].0 == FingerprintOf(Firsts(cs)[i]);
    }
  }

  lemma BookExtends(cs: seq<Call>, c: Call)
    requires Decodes(c) && Has(Book(cs), FingerprintOf(c))
    ensures var i := Find(Book(cs), FingerprintOf(c));
            Book(cs + [c]) == Book(cs)[i := (FingerprintOf(c), Noted(cs, Book(cs)[i].1, c))]
  {
    HasIsSeen(cs, FingerprintOf(c));
    FirstsNext(cs, c);
    BookIsDistinct(cs);
    forall i | 0 <= i < |Firsts(cs)|
      ensures Book(cs + [c])[i] ==
              if i == Find(Book(cs), FingerprintOf(c))
              then (FingerprintOf(c), Noted(cs, Book(cs)[i].1, c))
              else Book(cs)[i]
    {
      TraceNext(cs, c, Firsts(cs)[i]);
      FindIs(Book(cs), i);
    }
  }

  lemma HasIsSeen(cs: seq<Call>, fp: string)
    ensures Has(Book(cs), fp) <==> Seen(cs, fp)
  {
    FirstsSeeAll(cs, fp);
    assert forall i :: 0 <= i < |Firsts(cs)| ==> Book(cs)[i].0 == FingerprintOf(Firsts(cs)[i]);
    if Seen(Firsts(cs), fp) {
      var i :| 0 <= i < |Firsts(cs)| && IsAbout(Firsts(cs)[i], fp);
      assert Book(cs)[i].0 == fp;
    }
  }

  /** A call changes the book by one entry: it opens a trace or adds its record to one. */
  lemma BookNext(cs: seq<Call>, c: Call)
    ensures Book(cs + [c]) ==
            if !Decodes(c) then Book(cs)
            else Put(Book(cs), FingerprintOf(c), Noted(cs, GetOr(Book(cs), FingerprintOf(c), NewTrace(c)), c))
  {
    if !Decodes(c) {
      BookIgnores(cs, c);
    } else if Has(Book(cs), FingerprintOf(c)) {
      BookExtends(cs, c);
    } else {
      BookOpens(cs, c);
    }
  }

  // ---- The tracer -----------------------------------------------------------

  /** The tables by tx_id hold exactly the given transmissions, numbered from one. */
  ghost predicate TablesHold(txs: seq<Call>, airtime: map<int, real>, events: map<int, TxEvent>)
    requires forall i :: 0 <= i < |txs| ==> txs[i].Tx?
  {
    && (forall id :: id in airtime <==> 1 <= id <= |txs|)
    && (forall id :: id in events <==> 1 <= id <= |txs|)
    && (forall id :: 1 <= id <= |txs| ==> airtime[id] == txs[id - 1].airtimeMs)
    && (forall id :: 1 <= id <= |txs| ==>
          events[id] == TxEvent(txs[id - 1].sender, txs[id - 1].t, txs[id - 1].txEnd))
  }

  lemma TablesNext(txs: seq<Call>, airtime: map<int, real>, events: map<int, TxEvent>, c: Call)
    requires (forall i :: 0 <= i < |txs| ==> txs[i].Tx?) && c.Tx? && TablesHold(txs, airtime, events)
    ensures TablesHold(txs + [c], airtime[|txs| + 1 := c.airtimeMs],
                       events[|txs| + 1 := TxEvent(c.sender, c.t, c.txEnd)])
  {
  }

  lemma AirtimeLookup(txs: seq<Call>, airtime: map<int, real>, events: map<int, TxEvent>, txId: Option<int>)
    requires (forall i :: 0 <= i < |txs| ==> txs[i].Tx?) && TablesHold(txs, airtime, events)
    ensures AirtimeFor(txs, txId) == if txId.Some? && txId.value in airtime then airtime[txId.value] else 0.0
  {
  }

  lemma PutSame<K, V>(d: Dict<K, V>, k: K, default: V)
    requires Has(d, k)
    ensures Put(d, k, GetOr(d, k, default)) == d
  {
  }

  /** A transmission opens the trace of a new packet and leaves that of a known one as it is. */
  lemma BookAfterTx(cs: seq<Call>, c: Call)
    requires c.Tx? && Decodes(c)
    ensures Book(cs + [c]) == if Has(Book(cs), FingerprintOf(c)) then Book(cs)
                              else Put(Book(cs), FingerprintOf(c), NewTrace(c))
  {
    BookNext(cs, c);
    if Has(Book(cs), FingerprintOf(c)) {
      PutSame(Book(cs), FingerprintOf(c), NewTrace(c));
    }
  }

  class PacketTracer {
    var traces: Dict<string, PacketTrace>
    var txCounter: nat
    var txAirtime: map<int, real>
    var txEvents: map<int, TxEvent>

    /** Every call so far; no method reads it. */
    ghost var calls: seq<Call>

    /** The fields hold what the history of calls says. */
    ghost predicate Valid()
      reads this
    {
      traces == Book(calls) && txCounter == |Transmissions(calls)| &&
      TablesHold(Transmissions(calls), txAirtime, txEvents)
    }

    constructor ()
      ensures Valid() && calls == []
    {
      traces, txCounter, txAirtime, txEvents := [], 0, map[], map[];
      calls := [];
    }

    /** The next number, and the tables under it. */
    method Number(sender: string, t: real, airtimeMs: real, txEnd: Option<real>, ghost txs: seq<Call>, ghost c: Call)
      returns (txId: nat)
      requires (forall i :: 0 <= i < |txs| ==> txs[i].Tx?) && txCounter == |txs| && TablesHold(txs, txAirtime, txEvents)
      requires c.Tx? && c.sender == sender && c.t == t && c.airtimeMs == airtimeMs && c.txEnd == txEnd
      modifies this`txCounter, this`txAirtime, this`txEvents
      ensures txId == txCounter == |txs| + 1 && TablesHold(txs + [c], txAirtime, txEvents)
    {
      TablesNext(txs, txAirtime, txEvents, c);
      txCounter := txCounter + 1;
      txAirtime := txAirtime[txCounter := airtimeMs];
      txEvents := txEvents[txCounter := TxEvent(sender, t, txEnd)];
      return txCounter;
    }

    /** The trace of a packet not seen before. */
    method Open(fp: string, payloadType: int, t: real, sender: string)
      modifies this`traces
      ensures traces == if Has(old(traces), fp) then old(traces)
                        else Put(old(traces), fp, PacketTrace(fp, payloadType, t, sender, [], [], []))
    {
      if !Has(traces, fp) {
        traces := Put(traces, fp, PacketTrace(fp, payloadType, t, sender, [], [], []));
      }
    }

    /** What `record_tx` does with a packet that decodes. */
    method Admit(info: Packet.PacketInfo, sender: string, t: real, airtimeMs: real, txEnd: Option<real>, ghost c: Call)
      returns (txId: nat)
      requires Valid() && c.Tx? && Decodes(c) && InfoOf(c) == info
      requires c.sender == sender && c.t == t && c.airtimeMs == airtimeMs && c.txEnd == txEnd
      modifies this
      ensures Valid() && calls == old(calls) + [c]
      ensures txId == txCounter == old(txCounter) + 1
    {
      ghost var txs := Transmissions(calls);
      FirstsNext(calls, c);
      BookAfterTx(calls, c);
      calls := calls + [c];
      assert Packet.Fingerprint(info) == FingerprintOf(c);
      Open(Packet.Fingerprint(info), info.payloadType, t, sender);
      assert traces == Book(calls);
      txId := Number(sender, t, airtimeMs, txEnd, txs, c);
    }

    /** `record_tx`: the first call about a packet opens its trace; the result is a fresh number. */
    method RecordTx(sender: string, hex: string, t: real, airtimeMs: real, txEnd: Option<real>)
      returns (txId: Option<nat>)
      requires Valid()
      modifies this
      ensures Valid() && calls == old(calls) + [Tx(sender, hex, t, airtimeMs, txEnd)]
      ensures txId == if Packet.Decode(hex) == None then None else Some(|Transmissions(old(calls))| + 1)
      ensures txCounter == old(txCounter) + if txId == None then 0 else 1
      ensures txId.Some? ==> txId.value == txCounter
    {
      ghost var c := Tx(sender, hex, t, airtimeMs, txEnd);
      FirstsNext(calls, c);
      var info := Packet.Decode(hex);
      if info == None {
        BookIgnores(calls, c);
        calls := calls + [c];
        return None;
      }
      var id := Admit(info.value, sender, t, airtimeMs, txEnd, c);
      return Some(id);
    }

    /** `record_collision` */
    method RecordCollision(sender: string, receiver: string, hex: string, t: real, txId: Option<int>,
                           interferer: Option<string>, interfererTxId: Option<int>, overlap: real)
      requires Valid()
      modifies this
      ensures Valid() && txCounter == old(txCounter)
      ensures calls == old(calls) + [Collision(sender, hex, t, receiver, txId, interferer, interfererTxId, overlap)]
    {
      ghost var c := Collision(sender, hex, t, receiver, txId, interferer, interfererTxId, overlap);
      BookNext(calls, c);
      FirstsNext(calls, c);
      calls := calls + [c];
      var info := Packet.Decode(hex);
      if info == None {
        return;
      }
      var fp := Packet.Fingerprint(info.value);
      var trace := GetOr(traces, fp, PacketTrace(fp, info.value.payloadType, t, sender, [], [], []));
      trace := trace.(collisions := trace.collisions +
        [CollisionRecord(t, sender, receiver, txId, interferer, interfererTxId, overlap)]);
      traces := Put(traces, fp, trace);
    }

    /** `record_halfduplex` */
    method RecordHalfduplex(sender: string, receiver: string, hex: string, t: real, txId: Option<int>,
                            blockerTxId: Option<int>)
      requires Valid()
      modifies this
      ensures Valid() && txCounter == old(txCounter)
      ensures calls == old(calls) + [Halfduplex(sender, hex, t, receiver, txId, blockerTxId)]
    {
      ghost var c := Halfduplex(sender, hex, t, receiver, txId, blockerTxId);
      BookNext(calls, c);
      FirstsNext(calls, c);
      calls := calls + [c];
      var info := Packet.Decode(hex);
      if info == None {
        return;
      }
      var fp := Packet.Fingerprint(info.value);
      var trace := GetOr(traces, fp, PacketTrace(fp, info.value.payloadType, t, sender, [], [], []));
      trace := trace.(halfduplex := trace.halfduplex + [HalfduplexRecord(t, sender, receiver, txId, blockerTxId)]);
      traces := Put(traces, fp, trace);
    }

    /** The airtime recorded for a transmission, zero if there is none. */
    method AirtimeOf(txId: Option<int>) returns (airtimeMs: real)
      requires Valid()
      ensures airtimeMs == AirtimeFor(Transmissions(calls), txId)
    {
      AirtimeLookup(Transmissions(calls), txAirtime, txEvents, txId);
      airtimeMs := if txId.Some? && txId.value in txAirtime then txAirtime[txId.value] else 0.0;
    }

    /** `record_rx` */
    method RecordRx(sender: string, receiver: string, hex: string, t: real, txId: Option<int>)
      requires Valid()
      modifies this
      ensures Valid() && txCounter == old(txCounter)
      ensures calls == old(calls) + [Rx(sender, hex, t, receiver, txId)]
    {
      ghost var c := Rx(sender, hex, t, receiver, txId);
      BookNext(calls, c);
      FirstsNext(calls, c);
      var airtimeMs := AirtimeOf(txId);
      calls := calls + [c];
      var info := Packet.Decode(hex);
      if info == None {
        return;
      }
      var fp := Packet.Fingerprint(info.value);
      var trace := GetOr(traces, fp, PacketTrace(fp, info.value.payloadType, t, sender, [], [], []));
      trace := trace.(hops := trace.hops +
        [HopRecord(t, sender, receiver, info.value.routeType, info.value.pathCount, txId, airtimeMs, |hex| / 2)]);
      assert fp == FingerprintOf(c);
      traces := Put(traces, fp, trace);
    }
  }
}
