/** What the router tells the tracer, and that the finished trace holds it all. */
module RouterJournal {
  import opened Common
  import opened RouterModel
  import opened RouterLedger
  import Packet
  import StableSort
  import Tracer
  import TraceLoader
  import TraceGroups

  // ---- The calls of a step --------------------------------------------------

  /** The call at the end of a delivery that was judged; a packet that got past the air is traced also
    * if no agent is there to receive it.
    */
  function VerdictCall(t: Task, at: real, o: Outcome): Tracer.Call
    requires IsVerdict(o)
  {
    var hex, receiver := Packet.Hex(t.packet), t.link.other;
    match o
    case HalfDuplex(blocker) => Tracer.Halfduplex(t.sender, hex, at, receiver, t.txId, Some(blocker))
    case Collided(loss) =>
      Tracer.Collision(t.sender, hex, at, receiver, t.txId,
                       Some(loss.interferer), Some(loss.interfererId), loss.overlap)
    case Received(_) => Tracer.Rx(t.sender, hex, at, receiver, t.txId)
    case NoAgent => Tracer.Rx(t.sender, hex, at, receiver, t.txId)
  }

  function TransmitCall(s: Setup, w: World, sender: string, packet: Bytes): Tracer.Call {
    Tracer.Tx(sender, Packet.Hex(packet), w.now, AirMillis(s, packet), Some(w.now + AirSeconds(s, packet)))
  }

  function Calls(s: Setup, w: World, a: Step): seq<Tracer.Call>
    requires Enabled(w, a)
  {
    match a
    case DoTransmit(sender, packet) => [TransmitCall(s, w, sender, packet)]
    case DoFinish(id) => [VerdictCall(w.tasks[id], w.now, Verdict(s, w.active, w.tasks[id]))]
    case _ => []
  }

  /** All calls of a run. */
  function Journal(s: Setup, start: real, steps: seq<Step>): seq<Tracer.Call>
    requires Reach(s, start, steps).Some?
  {
    if steps == [] then []
    else
      var n := |steps| - 1;
      Journal(s, start, steps[..n]) + Calls(s, Reach(s, start, steps[..n]).value, steps[n])
  }

  // ---- The clock ------------------------------------------------------------

  lemma {:induction false} JournalAscends(s: Setup, start: real, steps: seq<Step>)
    requires Reach(s, start, steps).Some?
    ensures TraceLoader.TimesAscend(Journal(s, start, steps))
    ensures forall i :: 0 <= i < |Journal(s, start, steps)| ==>
              Journal(s, start, steps)[i].t <= Reach(s, start, steps).value.now
  {
    if steps != [] {
      var n := |steps| - 1;
      JournalAscends(s, start, steps[..n]);
      var w := Reach(s, start, steps[..n]).value;
      ClockAdvances(s, w, steps[n]);
      CallsAreNow(s, w, steps[n]);
      AscendNext(Journal(s, start, steps[..n]), Calls(s, w, steps[n]), w.now);
    }
  }

  lemma CallsAreNow(s: Setup, w: World, a: Step)
    requires Enabled(w, a)
    ensures |Calls(s, w, a)| <= 1 && forall c :: c in Calls(s, w, a) ==> c.t == w.now
  {
  }

  lemma ClockAdvances(s: Setup, w: World, a: Step)
    requires Enabled(w, a) && |w.buffers| == |s.adversaries|
    ensures Apply(s, w, a).now >= w.now
  {
    if a.DoSpawn? {
      var b := w.broadcasts[a.i];
      AddTasksKeeps(w.(broadcasts := w.broadcasts[..a.i] + w.broadcasts[a.i + 1..]),
                    b.sender, Neighbours(s, b.sender), b.packet, b.txId, Some((b.start, b.end)));
    }
  }

  lemma AscendNext(cs: seq<Tracer.Call>, more: seq<Tracer.Call>, t: real)
    requires TraceLoader.TimesAscend(cs) && forall i :: 0 <= i < |cs| ==> cs[i].t <= t
    requires |more| <= 1 && forall c :: c in more ==> c.t == t
    ensures TraceLoader.TimesAscend(cs + more) && forall i :: 0 <= i < |cs + more| ==> (cs + more)[i].t <= t
  {
  }

  // ---- Transmission numbers -------------------------------------------------

  lemma HexDecodes(packet: Bytes)
    ensures Packet.Decode(Packet.Hex(packet)) == Packet.DecodeRaw(packet)
  {
    Packet.HexRoundTrip(packet);
  }

  lemma TransmissionsNext(cs: seq<Tracer.Call>, c: Tracer.Call)
    ensures |Tracer.Transmissions(cs + [c])| ==
            |Tracer.Transmissions(cs)| + if c.Tx? && Tracer.Decodes(c) then 1 else 0
  {
    Tracer.FirstsNext(cs, c);
  }

  /** The machine's counter is the number of transmissions the tracer has numbered. */
  lemma {:induction false} CounterIsTracers(s: Setup, start: real, steps: seq<Step>)
    requires Reach(s, start, steps).Some?
    ensures |Tracer.Transmissions(Journal(s, start, steps))| == Reach(s, start, steps).value.txCounter
  {
    if steps != [] {
      var n := |steps| - 1;
      CounterIsTracers(s, start, steps[..n]);
      var w := Reach(s, start, steps[..n]).value;
      CounterNext(s, w, steps[n], Journal(s, start, steps[..n]));
    }
  }

  lemma CounterNext(s: Setup, w: World, a: Step, cs: seq<Tracer.Call>)
    requires Enabled(w, a) && |w.buffers| == |s.adversaries| && |Tracer.Transmissions(cs)| == w.txCounter
    ensures |Tracer.Transmissions(cs + Calls(s, w, a))| == Apply(s, w, a).txCounter
  {
    match a
    case DoTransmit(sender, packet) =>
      HexDecodes(packet);
      TransmissionsNext(cs, TransmitCall(s, w, sender, packet));
    case DoFinish(id) => TransmissionsNext(cs, Calls(s, w, a)[0]);
    case DoSpawn(i) =>
      var b := w.broadcasts[i];
      AddTasksKeeps(w.(broadcasts := w.broadcasts[..i] + w.broadcasts[i + 1..]),
                    b.sender, Neighbours(s, b.sender), b.packet, b.txId, Some((b.start, b.end)));
      assert cs + [] == cs;
    case DoDrain =>
      DrainKeeps(s, w, |s.adversaries|);
      assert cs + [] == cs;
    case _ => assert cs + [] == cs;
  }

  lemma {:induction false} EmitKeeps(s: Setup, w: World, name: string, due: seq<Replayed>)
    ensures var w' := Emit(s, w, name, due); w'.txCounter == w.txCounter && w'.decisions == w.decisions
  {
    if due != [] {
      EmitKeeps(s, w, name, due[..|due| - 1]);
      var w1, r := Emit(s, w, name, due[..|due| - 1]), due[|due| - 1];
      AddTasksKeeps(w1.(drained := w1.drained[r.source := w1.now]), name, Neighbours(s, name), r.packet, None, None);
    }
  }

  lemma {:induction false} DrainKeeps(s: Setup, w: World, k: nat)
    requires k <= |s.adversaries| && |w.buffers| == |s.adversaries|
    ensures var w' := DrainUpTo(s, w, k); w'.txCounter == w.txCounter && w'.decisions == w.decisions
  {
    if k > 0 {
      DrainKeeps(s, w, k - 1);
      var w1 := DrainUpTo(s, w, k - 1);
      EmitKeeps(s, w1.(buffers := w1.buffers[k - 1 := NotDue(w1.buffers[k - 1], w1.now)]),
                s.adversaries[k - 1].0, Due(w1.buffers[k - 1], w1.now));
    }
  }

  // ---- Conservation ---------------------------------------------------------

  /** What a verdict leaves in the trace. */
  predicate LeavesRecord(kind: TraceLoader.Kind, d: Decision) {
    Packet.DecodeRaw(d.task.packet).Some? &&
    match kind
    case Hop => d.outcome.Received? || d.outcome.NoAgent?
    case Coll => d.outcome.Collided?
    case Half => d.outcome.HalfDuplex?
  }

  /** The deliveries the trace must tell of: judged that way, and with a packet that decodes. */
  ghost function Traced(kind: TraceLoader.Kind, ds: map<nat, Decision>): set<nat> {
    set id | id in ds && LeavesRecord(kind, ds[id])
  }

  lemma TracedNext(kind: TraceLoader.Kind, ds: map<nat, Decision>, id: nat, d: Decision)
    requires id !in ds
    ensures |Traced(kind, ds[id := d])| == |Traced(kind, ds)| + if LeavesRecord(kind, d) then 1 else 0
  {
    if LeavesRecord(kind, d) {
      assert Traced(kind, ds[id := d]) == Traced(kind, ds) + {id};
    } else {
      assert Traced(kind, ds[id := d]) == Traced(kind, ds);
    }
  }

  lemma RecordsNext(kind: TraceLoader.Kind, cs: seq<Tracer.Call>, c: Tracer.Call)
    ensures TraceLoader.RecordCount(kind, cs + [c]) ==
            TraceLoader.RecordCount(kind, cs) + if TraceLoader.Yields(kind, c) then 1 else 0
  {
    assert (cs + [c])[..|cs|] == cs;
  }

  lemma FilteredTraces(kind: TraceLoader.Kind, s: Setup, w: World, id: nat, k: nat, corrupted: Bytes)
    requires Tracked(w) && id in w.tasks && k < |s.adversaries| && |w.buffers| == |s.adversaries|
    ensures |Traced(kind, Filtered(s, w, id, k, corrupted).decisions)| == |Traced(kind, w.decisions)|
  {
    TracedNext(kind, w.decisions, id, Decision(w.tasks[id], w.now, AdvDropped));
    TracedNext(kind, w.decisions, id, Decision(w.tasks[id], w.now, AdvCaptured));
  }

  lemma BeginTraces(kind: TraceLoader.Kind, s: Setup, w: World, id: nat, lossDraw: real, advDraw: real,
                    corrupted: Bytes)
    requires Tracked(w) && id in w.tasks && |w.buffers| == |s.adversaries|
    ensures |Traced(kind, Begin(s, w, id, lossDraw, advDraw, corrupted).decisions)| == |Traced(kind, w.decisions)|
  {
    TracedNext(kind, w.decisions, id, Decision(w.tasks[id], w.now, SnrDropped));
    TracedNext(kind, w.decisions, id, Decision(w.tasks[id], w.now, LinkLost));
    if FilterIndex(s, w.tasks[id].link.other).Some? {
      FilteredTraces(kind, s, w, id, FilterIndex(s, w.tasks[id].link.other).value, corrupted);
    }
  }

  lemma FinishTraces(kind: TraceLoader.Kind, w: World, id: nat, o: Outcome, cs: seq<Tracer.Call>)
    requires Tracked(w) && id in w.tasks && IsVerdict(o)
    requires TraceLoader.RecordCount(kind, cs) == |Traced(kind, w.decisions)|
    ensures TraceLoader.RecordCount(kind, cs + [VerdictCall(w.tasks[id], w.now, o)]) ==
            |Traced(kind, Decide(w, id, o).decisions)|
  {
    HexDecodes(w.tasks[id].packet);
    RecordsNext(kind, cs, VerdictCall(w.tasks[id], w.now, o));
    TracedNext(kind, w.decisions, id, Decision(w.tasks[id], w.now, o));
  }

  lemma CountNext(kind: TraceLoader.Kind, s: Setup, w: World, a: Step, cs: seq<Tracer.Call>)
    requires Tracked(w) && Enabled(w, a) && |w.buffers| == |s.adversaries|
    requires TraceLoader.RecordCount(kind, cs) == |Traced(kind, w.decisions)|
    ensures TraceLoader.RecordCount(kind, cs + Calls(s, w, a)) == |Traced(kind, Apply(s, w, a).decisions)|
  {
    match a
    case DoTransmit(sender, packet) => RecordsNext(kind, cs, TransmitCall(s, w, sender, packet));
    case DoFinish(id) => FinishTraces(kind, w, id, Verdict(s, w.active, w.tasks[id]), cs);
    case DoBegin(id, lossDraw, advDraw, corrupted) =>
      BeginTraces(kind, s, w, id, lossDraw, advDraw, corrupted);
      assert cs + [] == cs;
    case DoSpawn(i) =>
      var b := w.broadcasts[i];
      AddTasksKeeps(w.(broadcasts := w.broadcasts[..i] + w.broadcasts[i + 1..]),
                    b.sender, Neighbours(s, b.sender), b.packet, b.txId, Some((b.start, b.end)));
      assert cs + [] == cs;
    case DoDrain =>
      DrainKeeps(s, w, |s.adversaries|);
      assert cs + [] == cs;
    case Tick(_) => assert cs + [] == cs;
  }

  lemma {:induction false} RecordsAreVerdicts(kind: TraceLoader.Kind, s: Setup, start: real, steps: seq<Step>)
    requires Reach(s, start, steps).Some?
    ensures TraceLoader.RecordCount(kind, Journal(s, start, steps)) ==
            |Traced(kind, Reach(s, start, steps).value.decisions)|
  {
    if steps == [] {
      assert Traced(kind, map[]) == {};
    } else {
      var n := |steps| - 1;
      RecordsAreVerdicts(kind, s, start, steps[..n]);
      ReachAccounts(s, start, steps[..n]);
      CountNext(kind, s, Reach(s, start, steps[..n]).value, steps[n], Journal(s, start, steps[..n]));
    }
  }

  ghost function TracedInAll(ds: map<nat, Decision>): set<nat> {
    set id | id in ds && IsVerdict(ds[id].outcome) && Packet.DecodeRaw(ds[id].task.packet).Some?
  }

  lemma TracedKinds(ds: map<nat, Decision>)
    ensures |TracedInAll(ds)| == |Traced(TraceLoader.Hop, ds)| + |Traced(TraceLoader.Coll, ds)|
                               + |Traced(TraceLoader.Half, ds)|
  {
    var hops, losses, drops :=
      Traced(TraceLoader.Hop, ds), Traced(TraceLoader.Coll, ds), Traced(TraceLoader.Half, ds);
    assert TracedInAll(ds) == hops + losses + drops;
    Joined(hops, losses);
    Joined(hops + losses, drops);
  }

  /** From the router to the viewer: whenever a run is stopped, the time-sorted events of its trace
    * are as many as the deliveries judged so far whose packet decodes.
    */
  lemma EveryVerdictIsReplayed(s: Setup, start: real, steps: seq<Step>)
    requires Reach(s, start, steps).Some?
    ensures var exported := TraceLoader.Export(Journal(s, start, steps));
            var events := StableSort.Sort(TraceLoader.Time, TraceLoader.Flat(exported));
            |events| == |TracedInAll(Reach(s, start, steps).value.decisions)|
  {
    RecordsAreVerdicts(TraceLoader.Hop, s, start, steps);
    RecordsAreVerdicts(TraceLoader.Coll, s, start, steps);
    RecordsAreVerdicts(TraceLoader.Half, s, start, steps);
    TraceLoader.NoRecordIsLost(Journal(s, start, steps));
    TracedKinds(Reach(s, start, steps).value.decisions);
  }

  /** And from the router to the statistics per edge: whenever a run is stopped, the hops counted on
    * all edges together are the deliveries received, collisions those collided, half-duplex drops
    * those blocked, of packets that decode.
    */
  lemma EdgeCountsAreVerdicts(kind: TraceLoader.Kind, s: Setup, start: real, steps: seq<Step>)
    requires Reach(s, start, steps).Some?
    ensures var edges := TraceGroups.EdgeBook(TraceLoader.Flat(TraceLoader.Export(Journal(s, start, steps))));
            TraceGroups.SumOver(kind, TraceGroups.Values(edges)) ==
            |Traced(kind, Reach(s, start, steps).value.decisions)|
  {
    RecordsAreVerdicts(kind, s, start, steps);
    TraceGroups.EdgeCountsAreCalls(kind, Journal(s, start, steps));
  }

  /** And packet by packet they come in the order in which the router judged. */
  lemma ReplayKeepsRouterOrder(s: Setup, start: real, steps: seq<Step>, fp: string, kind: TraceLoader.Kind)
    returns (i: nat)
    requires Reach(s, start, steps).Some? && Tracer.Seen(Journal(s, start, steps), fp)
    ensures var cs := Journal(s, start, steps);
            && i < |TraceLoader.Export(cs)| && TraceLoader.Export(cs)[i].fingerprint == fp
            && StableSort.Filter(TraceLoader.Of(kind, i),
                                 StableSort.Sort(TraceLoader.Time, TraceLoader.Flat(TraceLoader.Export(cs))))
               == TraceLoader.Recorded(cs, fp, kind, i)
  {
    JournalAscends(s, start, steps);
    i := TraceLoader.RecordsKeepCallOrder(Journal(s, start, steps), fp, kind);
  }
}
