/** From the router to the viewer: which event tells of which delivery. */
module RouterTrace {
  import opened Common
  import opened Channel
  import opened RouterModel
  import opened RouterJournal
  import opened RouterOrigins
  import Packet
  import Tracer
  import TraceLoader
  import TraceLaws

  // ---- Transmissions --------------------------------------------------------

  /** How long each packet is on air, in milliseconds. */
  function Airtimes(s: Setup, packets: seq<Bytes>): (r: seq<real>)
    ensures |r| == |packets|
  {
    if packets == [] then [] else Airtimes(s, packets[..|packets| - 1]) + [AirMillis(s, packets[|packets| - 1])]
  }

  lemma {:induction false} AirtimeAt(s: Setup, packets: seq<Bytes>, i: nat)
    requires i < |packets|
    ensures Airtimes(s, packets)[i] == AirMillis(s, packets[i])
  {
    if i < |packets| - 1 {
      AirtimeAt(s, packets[..|packets| - 1], i);
    }
  }

  /** The tracer's n-th transmission is the n-th one sent, with the airtime of its packet. */
  ghost predicate IsTraced(call: Tracer.Call, q: Tx, packet: Bytes, airMs: real) {
    call == Tracer.Tx(q.sender, Packet.Hex(packet), q.start, airMs, Some(q.end))
  }

  ghost predicate TracedAt(calls: seq<Tracer.Call>, sent: seq<Tx>, packets: seq<Bytes>, airs: seq<real>, i: nat) {
    i < |calls| && i < |sent| && i < |packets| && i < |airs| && IsTraced(calls[i], sent[i], packets[i], airs[i])
  }

  ghost predicate AllTraced(calls: seq<Tracer.Call>, sent: seq<Tx>, packets: seq<Bytes>, airs: seq<real>) {
    |calls| == |sent| == |packets| == |airs| &&
    forall i: nat :: i < |sent| ==> TracedAt(calls, sent, packets, airs, i)
  }

  lemma TransmissionsWith(cs: seq<Tracer.Call>, c: Tracer.Call, numbered: bool)
    requires numbered == (c.Tx? && Tracer.Decodes(c))
    ensures Tracer.Transmissions(cs + [c]) == Tracer.Transmissions(cs) + if numbered then [c] else []
  {
    Tracer.FirstsNext(cs, c);
  }

  lemma TransmitDecodes(s: Setup, w: World, sender: string, packet: Bytes)
    ensures Tracer.Decodes(TransmitCall(s, w, sender, packet)) == Packet.DecodeRaw(packet).Some?
  {
    HexDecodes(packet);
  }

  lemma CallsTransmit(s: Setup, w: World, a: Step, cs: seq<Tracer.Call>, cs': seq<Tracer.Call>)
    requires Enabled(w, a) && cs' == cs + Calls(s, w, a)
    ensures Tracer.Transmissions(cs') ==
            Tracer.Transmissions(cs) + if IsSent(a) then [TransmitCall(s, w, a.sender, a.packet)] else []
  {
    match a
    case DoTransmit(sender, packet) =>
      TransmitDecodes(s, w, sender, packet);
      TransmissionsWith(cs, TransmitCall(s, w, sender, packet), IsSent(a));
    case DoFinish(_) => TransmissionsWith(cs, Calls(s, w, a)[0], false);
    case _ => assert cs + [] == cs;
  }

  lemma TracedOneMore(calls: seq<Tracer.Call>, sent: seq<Tx>, packets: seq<Bytes>, airs: seq<real>,
                      c: Tracer.Call, q: Tx, packet: Bytes, airMs: real)
    requires AllTraced(calls, sent, packets, airs) && IsTraced(c, q, packet, airMs)
    ensures AllTraced(calls + [c], sent + [q], packets + [packet], airs + [airMs])
  {
    forall i: nat | i < |sent + [q]|
      ensures TracedAt(calls + [c], sent + [q], packets + [packet], airs + [airMs], i)
    {
      assert i < |sent| ==> TracedAt(calls, sent, packets, airs, i);
    }
  }

  lemma SentClock(s: Setup, start: real, steps: seq<Step>)
    requires Reach(s, start, steps).Some?
    ensures Reach(s, start, steps).value.now == Clock(start, steps)
    ensures Reach(s, start, steps).value.txCounter == |Sent(s, start, steps)|
  {
    HistoryIsSent(s, start, steps);
  }

  lemma JournalNext(s: Setup, start: real, steps: seq<Step>) returns (w: World)
    requires steps != [] && Reach(s, start, steps).Some?
    ensures Reach(s, start, steps[..|steps| - 1]) == Some(w) && Enabled(w, steps[|steps| - 1])
    ensures Journal(s, start, steps) == Journal(s, start, steps[..|steps| - 1]) + Calls(s, w, steps[|steps| - 1])
  {
    w := Reach(s, start, steps[..|steps| - 1]).value;
  }

  lemma LastTransmitted(s: Setup, start: real, steps: seq<Step>) returns (w: World)
    requires steps != [] && Reach(s, start, steps).Some?
    ensures w.now == Clock(start, steps[..|steps| - 1])
    ensures var a := steps[|steps| - 1];
            Tracer.Transmissions(Journal(s, start, steps)) ==
            Tracer.Transmissions(Journal(s, start, steps[..|steps| - 1])) +
            if IsSent(a) then [TransmitCall(s, w, a.sender, a.packet)] else []
  {
    var front := steps[..|steps| - 1];
    SentClock(s, start, front);
    w := JournalNext(s, start, steps);
    CallsTransmit(s, w, steps[|steps| - 1], Journal(s, start, front), Journal(s, start, steps));
  }

  lemma CallIsTraced(s: Setup, w: World, sender: string, packet: Bytes, q: Tx)
    requires q == OnAir(s, q.id, sender, packet, w.now)
    ensures IsTraced(TransmitCall(s, w, sender, packet), q, packet, AirMillis(s, packet))
  {
  }

  lemma AirtimesNext(s: Setup, packets: seq<Bytes>, packet: Bytes)
    ensures Airtimes(s, packets + [packet]) == Airtimes(s, packets) + [AirMillis(s, packet)]
  {
    assert (packets + [packet])[..|packets|] == packets;
  }

  lemma AllTracedNext(s: Setup, w: World, sender: string, packet: Bytes, calls: seq<Tracer.Call>, sent: seq<Tx>,
                      packets: seq<Bytes>, q: Tx)
    requires AllTraced(calls, sent, packets, Airtimes(s, packets))
    requires q == OnAir(s, q.id, sender, packet, w.now)
    ensures AllTraced(calls + [TransmitCall(s, w, sender, packet)], sent + [q], packets + [packet],
                      Airtimes(s, packets + [packet]))
  {
    var c, air := TransmitCall(s, w, sender, packet), AirMillis(s, packet);
    CallIsTraced(s, w, sender, packet, q);
    AirtimesNext(s, packets, packet);
    TracedOneMore(calls, sent, packets, Airtimes(s, packets), c, q, packet, air);
  }

  /** All at once: the run that is one step longer. */
  lemma StepTraced(s: Setup, w: World, a: Step, calls: seq<Tracer.Call>, calls': seq<Tracer.Call>,
                   sent: seq<Tx>, sent': seq<Tx>, packets: seq<Bytes>, packets': seq<Bytes>)
    requires AllTraced(calls, sent, packets, Airtimes(s, packets))
    requires calls' == calls + if IsSent(a) then [TransmitCall(s, w, a.sender, a.packet)] else []
    requires sent' == sent +
               if IsSent(a) then [OnAir(s, |sent| + 1, a.sender, a.packet, w.now)] else []
    requires packets' == packets + if IsSent(a) then [a.packet] else []
    ensures AllTraced(calls', sent', packets', Airtimes(s, packets'))
  {
    if IsSent(a) {
      AllTracedNext(s, w, a.sender, a.packet, calls, sent, packets, sent'[|sent|]);
      assert sent' == sent + [sent'[|sent|]];
    } else {
      assert calls' == calls && sent' == sent && packets' == packets;
    }
  }

  ghost predicate RunIsTraced(s: Setup, start: real, steps: seq<Step>)
    requires Reach(s, start, steps).Some?
  {
    AllTraced(Tracer.Transmissions(Journal(s, start, steps)), Sent(s, start, steps), SentPackets(steps),
              Airtimes(s, SentPackets(steps)))
  }

  lemma LongerRunIsTraced(s: Setup, start: real, steps: seq<Step>, w: World,
                          calls: seq<Tracer.Call>, calls': seq<Tracer.Call>)
    requires steps != [] && w.now == Clock(start, steps[..|steps| - 1])
    requires var front := steps[..|steps| - 1];
             AllTraced(calls, Sent(s, start, front), SentPackets(front), Airtimes(s, SentPackets(front)))
    requires var a := steps[|steps| - 1];
             calls' == calls + if IsSent(a) then [TransmitCall(s, w, a.sender, a.packet)] else []
    ensures AllTraced(calls', Sent(s, start, steps), SentPackets(steps), Airtimes(s, SentPackets(steps)))
  {
    var front := steps[..|steps| - 1];
    SentNext(s, start, steps, w.now);
    StepTraced(s, w, steps[|steps| - 1], calls, calls', Sent(s, start, front), Sent(s, start, steps),
               SentPackets(front), SentPackets(steps));
  }

  lemma NextRunIsTraced(s: Setup, start: real, steps: seq<Step>)
    requires steps != [] && Reach(s, start, steps).Some? && RunIsTraced(s, start, steps[..|steps| - 1])
    ensures RunIsTraced(s, start, steps)
  {
    var w := LastTransmitted(s, start, steps);
    LongerRunIsTraced(s, start, steps, w, Tracer.Transmissions(Journal(s, start, steps[..|steps| - 1])),
                      Tracer.Transmissions(Journal(s, start, steps)));
  }

  /** On every run the tracer numbers exactly what was sent, and knows how long it took. */
  lemma {:induction false} TransmissionsAreTraced(s: Setup, start: real, steps: seq<Step>)
    requires Reach(s, start, steps).Some?
    ensures RunIsTraced(s, start, steps)
  {
    if steps != [] {
      TransmissionsAreTraced(s, start, steps[..|steps| - 1]);
      NextRunIsTraced(s, start, steps);
    }
  }

  // ---- Verdicts -------------------------------------------------------------

  /** The event tells what became of a delivery: when, from whom, to whom, in which transmission, and
    * for what reason.
    */
  ghost predicate TellsOfVerdict(e: TraceLoader.Event, d: Decision) {
    e.t == d.at && e.sender == d.task.sender && e.receiver == d.task.link.other && e.txId == d.task.txId &&
    match d.outcome
    case Received(_) => e.HopEvent?
    case NoAgent => e.HopEvent?
    case Collided(loss) =>
      e.CollisionEvent? && e.interferer == Some(loss.interferer) && e.interfererTxId == Some(loss.interfererId) &&
      e.overlap == loss.overlap
    case HalfDuplex(blocker) => e.HalfduplexEvent? && e.blockerTxId == Some(blocker)
    case _ => false
  }

  ghost predicate IsCallOf(c: Tracer.Call, d: Decision) {
    IsVerdict(d.outcome) && c == VerdictCall(d.task, d.at, d.outcome)
  }

  ghost predicate InJournal(cs: seq<Tracer.Call>, d: Decision) {
    exists n: nat :: n < |cs| && IsCallOf(cs[n], d)
  }

  ghost predicate AllInJournal(w: World, cs: seq<Tracer.Call>) {
    forall id :: id in w.decisions && IsVerdict(w.decisions[id].outcome) ==> InJournal(cs, w.decisions[id])
  }

  lemma StillInJournal(cs: seq<Tracer.Call>, more: seq<Tracer.Call>, d: Decision)
    requires InJournal(cs, d)
    ensures InJournal(cs + more, d)
  {
    var n: nat :| n < |cs| && IsCallOf(cs[n], d);
    assert (cs + more)[n] == cs[n];
  }

  lemma SameVerdicts(w: World, w': World, cs: seq<Tracer.Call>, more: seq<Tracer.Call>)
    requires AllInJournal(w, cs)
    requires forall id :: id in w'.decisions && IsVerdict(w'.decisions[id].outcome) ==>
               id in w.decisions && w.decisions[id] == w'.decisions[id]
    ensures AllInJournal(w', cs + more)
  {
    forall id | id in w'.decisions && IsVerdict(w'.decisions[id].outcome)
      ensures InJournal(cs + more, w'.decisions[id])
    {
      StillInJournal(cs, more, w.decisions[id]);
    }
  }

  lemma FinishInJournal(w: World, id: nat, o: Outcome, cs: seq<Tracer.Call>)
    requires AllInJournal(w, cs) && id in w.tasks && IsVerdict(o)
    ensures AllInJournal(Decide(w, id, o), cs + [VerdictCall(w.tasks[id], w.now, o)])
  {
    var c, w' := VerdictCall(w.tasks[id], w.now, o), Decide(w, id, o);
    assert (cs + [c])[|cs|] == c;
    assert IsCallOf(c, w'.decisions[id]);
    forall x | x in w'.decisions && IsVerdict(w'.decisions[x].outcome) && x != id
      ensures InJournal(cs + [c], w'.decisions[x])
    {
      StillInJournal(cs, [c], w.decisions[x]);
    }
  }

  lemma BeginVerdicts(s: Setup, w: World, id: nat, lossDraw: real, advDraw: real, corrupted: Bytes)
    requires id in w.tasks && |w.buffers| == |s.adversaries|
    ensures var ds := Begin(s, w, id, lossDraw, advDraw, corrupted).decisions;
            forall x :: x in ds && IsVerdict(ds[x].outcome) ==> x in w.decisions && w.decisions[x] == ds[x]
  {
  }

  lemma StepInJournal(s: Setup, w: World, a: Step, cs: seq<Tracer.Call>)
    requires AllInJournal(w, cs) && Enabled(w, a) && |w.buffers| == |s.adversaries|
    ensures AllInJournal(Apply(s, w, a), cs + Calls(s, w, a))
  {
    match a
    case DoFinish(id) => FinishInJournal(w, id, Verdict(s, w.active, w.tasks[id]), cs);
    case DoSpawn(i) =>
      var b := w.broadcasts[i];
      AddTasksKeeps(w.(broadcasts := w.broadcasts[..i] + w.broadcasts[i + 1..]),
                    b.sender, Neighbours(s, b.sender), b.packet, b.txId, Some((b.start, b.end)));
      SameVerdicts(w, Apply(s, w, a), cs, []);
    case DoDrain =>
      DrainKeeps(s, w, |s.adversaries|);
      SameVerdicts(w, Apply(s, w, a), cs, []);
    case DoBegin(id, lossDraw, advDraw, corrupted) =>
      BeginVerdicts(s, w, id, lossDraw, advDraw, corrupted);
      SameVerdicts(w, Apply(s, w, a), cs, []);
    case Tick(_) => SameVerdicts(w, Apply(s, w, a), cs, []);
    case DoTransmit(sender, packet) =>
      SameVerdicts(w, Apply(s, w, a), cs, [TransmitCall(s, w, sender, packet)]);
  }

  lemma {:induction false} VerdictsInJournal(s: Setup, start: real, steps: seq<Step>)
    requires Reach(s, start, steps).Some?
    ensures AllInJournal(Reach(s, start, steps).value, Journal(s, start, steps))
  {
    if steps != [] {
      var front := steps[..|steps| - 1];
      VerdictsInJournal(s, start, front);
      StepInJournal(s, Reach(s, start, front).value, steps[|steps| - 1], Journal(s, start, front));
    }
  }

  /** On every run: each delivery that was judged and whose packet decodes has an event in the viewer
    * that tells of it, under the packet it carried.
    */
  lemma VerdictHasEvent(s: Setup, start: real, steps: seq<Step>, id: nat) returns (e: TraceLoader.Event)
    requires Reach(s, start, steps).Some? && id in Reach(s, start, steps).value.decisions
    requires var d := Reach(s, start, steps).value.decisions[id];
             IsVerdict(d.outcome) && Packet.DecodeRaw(d.task.packet).Some?
    ensures var cs, d := Journal(s, start, steps), Reach(s, start, steps).value.decisions[id];
            && e in TraceLaws.Replayed(cs) && TellsOfVerdict(e, d)
            && e.pktIdx < |TraceLoader.Export(cs)|
            && TraceLoader.Export(cs)[e.pktIdx].fingerprint ==
               Packet.Fingerprint(Packet.DecodeRaw(d.task.packet).value)
  {
    var cs, d := Journal(s, start, steps), Reach(s, start, steps).value.decisions[id];
    VerdictsInJournal(s, start, steps);
    var n: nat :| n < |cs| && IsCallOf(cs[n], d);
    HexDecodes(d.task.packet);
    e := TraceLaws.EventOfCall(cs, n);
  }

  // ---- Airtimes -------------------------------------------------------------

  /** If call `n` is a reception, it comes after the transmission it names. */
  ghost predicate OrderedAt(cs: seq<Tracer.Call>, n: nat) {
    n < |cs| && cs[n].Rx? && cs[n].txId.Some? ==>
      1 <= cs[n].txId.value <= |Tracer.Transmissions(cs[..n])|
  }

  ghost predicate Ordered(cs: seq<Tracer.Call>) {
    forall n: nat :: OrderedAt(cs, n)
  }

  lemma OrderedNext(cs: seq<Tracer.Call>, c: Tracer.Call)
    requires Ordered(cs) && (c.Rx? && c.txId.Some? ==> 1 <= c.txId.value <= |Tracer.Transmissions(cs)|)
    ensures Ordered(cs + [c])
  {
    forall n: nat
      ensures OrderedAt(cs + [c], n)
    {
      assert OrderedAt(cs, n);
      assert n <= |cs| ==> (cs + [c])[..n] == cs[..n];
      assert cs[..|cs|] == cs;
    }
  }

  lemma StepOrdered(s: Setup, w: World, a: Step, cs: seq<Tracer.Call>, h: seq<Tx>)
    requires Ordered(cs) && Enabled(w, a) && |Tracer.Transmissions(cs)| == |h|
    requires forall id :: id in w.tasks ==> IsOf(h, w.tasks[id].sender, w.tasks[id].txId, w.tasks[id].window)
    ensures Ordered(cs + Calls(s, w, a))
  {
    match a
    case DoTransmit(sender, packet) => OrderedNext(cs, TransmitCall(s, w, sender, packet));
    case DoFinish(id) => OrderedNext(cs, Calls(s, w, a)[0]);
    case _ => assert cs + [] == cs;
  }

  lemma TasksAreOf(s: Setup, start: real, steps: seq<Step>)
    requires Reach(s, start, steps).Some?
    ensures forall id :: id in Reach(s, start, steps).value.tasks ==>
              var t := Reach(s, start, steps).value.tasks[id];
              IsOf(Sent(s, start, steps), t.sender, t.txId, t.window)
    ensures |Tracer.Transmissions(Journal(s, start, steps))| == |Sent(s, start, steps)|
  {
    DeliveriesAreOfTransmissions(s, start, steps);
    TransmissionsAreTraced(s, start, steps);
  }

  lemma {:induction false} JournalIsOrdered(s: Setup, start: real, steps: seq<Step>)
    requires Reach(s, start, steps).Some?
    ensures Ordered(Journal(s, start, steps))
  {
    if steps != [] {
      var front := steps[..|steps| - 1];
      JournalIsOrdered(s, start, front);
      TasksAreOf(s, start, front);
      StepOrdered(s, Reach(s, start, front).value, steps[|steps| - 1], Journal(s, start, front),
                  Sent(s, start, front));
    }
  }

  lemma {:induction false} TransmissionsGrow(cs: seq<Tracer.Call>, n: nat)
    requires n <= |cs|
    ensures Tracer.Transmissions(cs[..n]) <= Tracer.Transmissions(cs)
  {
    if n < |cs| {
      TransmissionsGrow(cs[..|cs| - 1], n);
      assert cs[..|cs| - 1][..n] == cs[..n];
    } else {
      assert cs[..n] == cs;
    }
  }

  /** The airtime of the transmission with a tx_id, none without one. */
  ghost predicate IsAirtimeOf(txId: Option<int>, airs: seq<real>, airMs: real) {
    if txId.Some? then 1 <= txId.value <= |airs| && airMs == airs[txId.value - 1] else airMs == 0.0
  }

  ghost predicate CallShows(cs: seq<Tracer.Call>, n: nat, airs: seq<real>) {
    n < |cs| && cs[n].Rx? && IsAirtimeOf(cs[n].txId, airs, TraceLaws.AirtimeBefore(cs, n))
  }

  lemma AirtimeOfCall(cs: seq<Tracer.Call>, n: nat, sent: seq<Tx>, packets: seq<Bytes>, airs: seq<real>)
    requires n < |cs| && cs[n].Rx? && OrderedAt(cs, n) && AllTraced(Tracer.Transmissions(cs), sent, packets, airs)
    ensures CallShows(cs, n, airs)
  {
    TransmissionsGrow(cs, n);
    if cs[n].txId.Some? {
      var i := cs[n].txId.value - 1;
      assert TracedAt(Tracer.Transmissions(cs), sent, packets, airs, i);
    }
  }

  lemma JournalIsOrderedAt(s: Setup, start: real, steps: seq<Step>, n: nat)
    requires Reach(s, start, steps).Some?
    ensures OrderedAt(Journal(s, start, steps), n)
  {
    JournalIsOrdered(s, start, steps);
  }

  lemma CallShowsAirtime(s: Setup, start: real, steps: seq<Step>, n: nat)
    requires Reach(s, start, steps).Some?
    requires n < |Journal(s, start, steps)| && Journal(s, start, steps)[n].Rx?
    ensures CallShows(Journal(s, start, steps), n, Airtimes(s, SentPackets(steps)))
  {
    JournalIsOrderedAt(s, start, steps, n);
    TransmissionsAreTraced(s, start, steps);
    AirtimeOfCall(Journal(s, start, steps), n, Sent(s, start, steps), SentPackets(steps),
                  Airtimes(s, SentPackets(steps)));
  }

  lemma EventShows(cs: seq<Tracer.Call>, n: nat, airs: seq<real>, e: TraceLoader.Event)
    requires CallShows(cs, n, airs) && e.HopEvent? && e.txId == cs[n].txId
    requires e.airtimeMs == TraceLaws.AirtimeBefore(cs, n)
    ensures IsAirtimeOf(e.txId, airs, e.airtimeMs)
  {
  }

  /** A hop of a numbered transmission shows the airtime of the packet that was sent under that number,
    * whatever became of the packet on the way; a replayed one shows none.
    */
  lemma HopShowsAirtime(s: Setup, start: real, steps: seq<Step>, e: TraceLoader.Event)
    requires Reach(s, start, steps).Some? && e in TraceLaws.Replayed(Journal(s, start, steps)) && e.HopEvent?
    ensures IsAirtimeOf(e.txId, Airtimes(s, SentPackets(steps)), e.airtimeMs)
  {
    var n := TraceLaws.HopCall(Journal(s, start, steps), e);
    CallShowsAirtime(s, start, steps, n);
    EventShows(Journal(s, start, steps), n, Airtimes(s, SentPackets(steps)), e);
  }
}
