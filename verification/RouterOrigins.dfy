/** Where the transmissions and deliveries of a run come from, told from its steps alone. */
module RouterOrigins {
  import opened Common
  import opened Channel
  import opened Topology
  import opened RouterModel
  import opened RouterReplays
  import opened RouterVerdicts
  import Packet

  // ---- The transmissions of a run ---------------------------------------------

  /** The clock after some steps. */
  function Clock(start: real, steps: seq<Step>): real {
    if steps == [] then start
    else
      var a := steps[|steps| - 1];
      Clock(start, steps[..|steps| - 1]) + if a.Tick? then a.dt else 0.0
  }

  predicate IsSent(a: Step) {
    a.DoTransmit? && Packet.DecodeRaw(a.packet).Some?
  }

  /** Transmission number `n`: on air from `now` for as long as the packet takes. */
  function OnAir(s: Setup, n: nat, sender: string, packet: Bytes, now: real): Tx {
    Tx(n, sender, now, now + AirSeconds(s, packet))
  }

  /** The packets that decode, numbered from one in the order they were sent, on air from then on for
    * as long as they take.
    */
  function Sent(s: Setup, start: real, steps: seq<Step>): seq<Tx> {
    if steps == [] then []
    else
      var front, a := steps[..|steps| - 1], steps[|steps| - 1];
      var before, now := Sent(s, start, front), Clock(start, front);
      before + if IsSent(a) then [OnAir(s, |before| + 1, a.sender, a.packet, now)] else []
  }

  function SentPackets(steps: seq<Step>): seq<Bytes> {
    if steps == [] then []
    else
      var a := steps[|steps| - 1];
      SentPackets(steps[..|steps| - 1]) + if IsSent(a) then [a.packet] else []
  }

  lemma SentNext(s: Setup, start: real, steps: seq<Step>, now: real)
    requires steps != [] && now == Clock(start, steps[..|steps| - 1])
    ensures var front, a := steps[..|steps| - 1], steps[|steps| - 1];
            var before := Sent(s, start, front);
            && Sent(s, start, steps) ==
               before + (if IsSent(a) then [OnAir(s, |before| + 1, a.sender, a.packet, now)] else [])
            && SentPackets(steps) == SentPackets(front) + if IsSent(a) then [a.packet] else []
  {
  }

  /** What a step adds to the clock, the history and the counter. */
  ghost predicate Sends(s: Setup, w: World, w': World, a: Step) {
    && w'.now == w.now + (if a.Tick? then a.dt else 0.0)
    && w'.txCounter == w.txCounter + (if IsSent(a) then 1 else 0)
    && w'.history == w.history + if IsSent(a)
         then [OnAir(s, w.txCounter + 1, a.sender, a.packet, w.now)] else []
  }

  lemma BeginSends(s: Setup, w: World, id: nat, lossDraw: real, advDraw: real, corrupted: Bytes)
    requires id in w.tasks && |w.buffers| == |s.adversaries|
    ensures SameChannel(w, Begin(s, w, id, lossDraw, advDraw, corrupted))
  {
  }

  lemma TransmitSends(s: Setup, w: World, sender: string, packet: Bytes)
    ensures Sends(s, w, Transmit(s, w, sender, packet), DoTransmit(sender, packet))
  {
  }

  lemma StepSends(s: Setup, w: World, a: Step)
    requires Enabled(w, a) && |w.buffers| == |s.adversaries|
    ensures Sends(s, w, Apply(s, w, a), a)
  {
    match a
    case Tick(_) =>
    case DoTransmit(sender, packet) => TransmitSends(s, w, sender, packet);
    case DoSpawn(i) =>
      var b := w.broadcasts[i];
      AddTasksKeeps(w.(broadcasts := w.broadcasts[..i] + w.broadcasts[i + 1..]),
                    b.sender, Neighbours(s, b.sender), b.packet, b.txId, Some((b.start, b.end)));
    case DoBegin(id, lossDraw, advDraw, corrupted) => BeginSends(s, w, id, lossDraw, advDraw, corrupted);
    case DoFinish(_) =>
    case DoDrain => DrainHistory(s, w, |s.adversaries|);
  }

  lemma LastSends(s: Setup, start: real, steps: seq<Step>) returns (w: World, w': World)
    requires steps != [] && Reach(s, start, steps).Some?
    ensures Reach(s, start, steps[..|steps| - 1]) == Some(w) && Reach(s, start, steps) == Some(w')
    ensures Sends(s, w, w', steps[|steps| - 1])
  {
    w := Reach(s, start, steps[..|steps| - 1]).value;
    w' := Apply(s, w, steps[|steps| - 1]);
    StepSends(s, w, steps[|steps| - 1]);
  }

  ghost predicate HasSent(w: World, s: Setup, start: real, steps: seq<Step>) {
    w.now == Clock(start, steps) && w.history == Sent(s, start, steps) &&
    w.txCounter == |Sent(s, start, steps)| == |SentPackets(steps)|
  }

  lemma HasSentNext(w: World, w': World, s: Setup, start: real, steps: seq<Step>)
    requires steps != [] && HasSent(w, s, start, steps[..|steps| - 1]) && Sends(s, w, w', steps[|steps| - 1])
    ensures HasSent(w', s, start, steps)
  {
  }

  /** On every run the clock is the start plus all ticks, and the history holds exactly what was sent. */
  lemma {:induction false} HistoryIsSent(s: Setup, start: real, steps: seq<Step>)
    requires Reach(s, start, steps).Some?
    ensures HasSent(Reach(s, start, steps).value, s, start, steps)
  {
    if steps != [] {
      var w, w' := LastSends(s, start, steps);
      HistoryIsSent(s, start, steps[..|steps| - 1]);
      HasSentNext(w, w', s, start, steps);
    }
  }

  lemma StoreIsKept(s: Setup, start: real, steps: seq<Step>)
    requires Reach(s, start, steps).Some?
    ensures Reach(s, start, steps).value.active ==
            Kept(Reach(s, start, steps).value.history, Horizon(Reach(s, start, steps).value))
  {
    ReachSound(s, start, steps);
  }

  /** And the channel remembers, in order, those that ended no more than five seconds before the last
    * one began.
    */
  lemma StoreIsRecent(s: Setup, start: real, steps: seq<Step>)
    requires Reach(s, start, steps).Some? && Sent(s, start, steps) != []
    ensures var sent := Sent(s, start, steps);
            IsSelection(Reach(s, start, steps).value.active, sent, EndsFrom(sent[|sent| - 1].start - 5.0))
  {
    HistoryIsSent(s, start, steps);
    StoreIsKept(s, start, steps);
    var sent, w := Sent(s, start, steps), Reach(s, start, steps).value;
    assert Horizon(w) == sent[|sent| - 1].start - 5.0;
    KeptSelects(sent, sent[|sent| - 1].start - 5.0);
  }

  // ---- Deliveries of transmissions ----------------------------------------------

  /** A delivery with a tx_id is of that transmission: same sender, same time on air. */
  ghost predicate IsOf(h: seq<Tx>, sender: string, txId: Option<nat>, window: Option<(real, real)>) {
    txId.Some? ==>
      window.Some? && 1 <= txId.value <= |h| &&
      h[txId.value - 1] == Tx(txId.value, sender, window.value.0, window.value.1)
  }

  /** And before it begins it carries that packet. */
  ghost predicate Carries(ps: seq<Bytes>, packet: Bytes, txId: Option<nat>) {
    txId.Some? ==> 1 <= txId.value <= |ps| && packet == ps[txId.value - 1]
  }

  ghost predicate TasksOf(w: World, h: seq<Tx>, ps: seq<Bytes>) {
    forall id :: id in w.tasks ==>
      var t := w.tasks[id];
      IsOf(h, t.sender, t.txId, t.window) && (t.stage.Created? ==> Carries(ps, t.packet, t.txId))
  }

  ghost predicate DecisionsOf(w: World, h: seq<Tx>) {
    forall id :: id in w.decisions ==>
      IsOf(h, w.decisions[id].task.sender, w.decisions[id].task.txId, w.decisions[id].task.window)
  }

  ghost predicate BroadcastsOf(w: World, h: seq<Tx>, ps: seq<Bytes>) {
    forall b :: b in w.broadcasts ==> IsOf(h, b.sender, b.txId, Some((b.start, b.end))) && Carries(ps, b.packet, b.txId)
  }

  ghost predicate AllOf(w: World, h: seq<Tx>, ps: seq<Bytes>) {
    TasksOf(w, h, ps) && DecisionsOf(w, h) && BroadcastsOf(w, h, ps)
  }

  lemma LaterStill(w: World, h: seq<Tx>, ps: seq<Bytes>, more: seq<Tx>, packets: seq<Bytes>)
    requires AllOf(w, h, ps)
    ensures AllOf(w, h + more, ps + packets)
  {
  }

  lemma {:induction false} AddTasksOf(w: World, sender: string, links: seq<EdgeLink>, packet: Bytes, txId: Option<nat>,
                                      window: Option<(real, real)>, h: seq<Tx>, ps: seq<Bytes>)
    requires AllOf(w, h, ps) && IsOf(h, sender, txId, window) && Carries(ps, packet, txId)
    ensures AllOf(AddTasks(w, sender, links, packet, txId, window), h, ps)
  {
    AddTasksKeeps(w, sender, links, packet, txId, window);
    if links != [] {
      AddTasksOf(w, sender, links[..|links| - 1], packet, txId, window, h, ps);
      AddTasksKeeps(w, sender, links[..|links| - 1], packet, txId, window);
    }
  }

  lemma {:induction false} EmitOf(s: Setup, w: World, name: string, due: seq<Replayed>, h: seq<Tx>, ps: seq<Bytes>)
    requires AllOf(w, h, ps)
    ensures AllOf(Emit(s, w, name, due), h, ps)
  {
    if due != [] {
      EmitOf(s, w, name, due[..|due| - 1], h, ps);
      var w1, r := Emit(s, w, name, due[..|due| - 1]), due[|due| - 1];
      AddTasksOf(w1.(drained := w1.drained[r.source := w1.now]),
                 name, Neighbours(s, name), r.packet, None, None, h, ps);
    }
  }

  lemma {:induction false} DrainOf(s: Setup, w: World, k: nat, h: seq<Tx>, ps: seq<Bytes>)
    requires AllOf(w, h, ps) && k <= |s.adversaries| && |w.buffers| == |s.adversaries|
    ensures AllOf(DrainUpTo(s, w, k), h, ps)
  {
    if k > 0 {
      DrainOf(s, w, k - 1, h, ps);
      var w1 := DrainUpTo(s, w, k - 1);
      EmitOf(s, w1.(buffers := w1.buffers[k - 1 := NotDue(w1.buffers[k - 1], w1.now)]),
             s.adversaries[k - 1].0, Due(w1.buffers[k - 1], w1.now), h, ps);
    }
  }

  lemma DecideOf(w: World, id: nat, o: Outcome, h: seq<Tx>, ps: seq<Bytes>)
    requires AllOf(w, h, ps) && id in w.tasks
    ensures AllOf(Decide(w, id, o), h, ps)
  {
  }

  lemma SleepOf(w: World, id: nat, packet: Bytes, h: seq<Tx>, ps: seq<Bytes>)
    requires AllOf(w, h, ps) && id in w.tasks
    ensures AllOf(Sleep(w, id, packet), h, ps)
  {
  }

  lemma FilteredOf(s: Setup, w: World, id: nat, k: nat, corrupted: Bytes, h: seq<Tx>, ps: seq<Bytes>)
    requires AllOf(w, h, ps) && id in w.tasks && k < |s.adversaries| && |w.buffers| == |s.adversaries|
    ensures AllOf(Filtered(s, w, id, k, corrupted), h, ps)
  {
    var t, cfg := w.tasks[id], s.adversaries[k].1;
    var r := Replayed(w.now + cfg.replayDelayMs / 1000.0, t.packet, id);
    DecideOf(w, id, AdvDropped, h, ps);
    DecideOf(w.(buffers := w.buffers[k := w.buffers[k] + [r]]), id, AdvCaptured, h, ps);
    SleepOf(w.(ledger := w.ledger.(advCorrupt := w.ledger.advCorrupt + 1)), id,
            if cfg.mode == "corrupt" then corrupted else t.packet, h, ps);
  }

  lemma BeginOf(s: Setup, w: World, id: nat, lossDraw: real, advDraw: real, corrupted: Bytes,
                h: seq<Tx>, ps: seq<Bytes>)
    requires AllOf(w, h, ps) && id in w.tasks && |w.buffers| == |s.adversaries|
    ensures AllOf(Begin(s, w, id, lossDraw, advDraw, corrupted), h, ps)
  {
    DecideOf(w, id, SnrDropped, h, ps);
    DecideOf(w, id, LinkLost, h, ps);
    SleepOf(w, id, w.tasks[id].packet, h, ps);
    if FilterIndex(s, w.tasks[id].link.other).Some? {
      FilteredOf(s, w, id, FilterIndex(s, w.tasks[id].link.other).value, corrupted, h, ps);
    }
  }

  /** A new transmission, with all that was there before. */
  lemma TransmitOf(w: World, w': World, sender: string, packet: Bytes, end: real, decodes: bool,
                   h: seq<Tx>, ps: seq<Bytes>)
    requires AllOf(w, h, ps) && w.txCounter == |h| == |ps| && w' == TransmitUntil(w, sender, packet, end, decodes)
    ensures var q := Tx(|h| + 1, sender, w.now, end);
            AllOf(w', if decodes then h + [q] else h, if decodes then ps + [packet] else ps)
  {
    LaterStill(w, h, ps, [Tx(|h| + 1, sender, w.now, end)], [packet]);
  }

  lemma SpawnOf(s: Setup, w: World, i: nat, h: seq<Tx>, ps: seq<Bytes>)
    requires AllOf(w, h, ps) && i < |w.broadcasts|
    ensures AllOf(Spawn(s, w, i), h, ps)
  {
    var b := w.broadcasts[i];
    assert b in w.broadcasts;
    AddTasksOf(w.(broadcasts := w.broadcasts[..i] + w.broadcasts[i + 1..]),
               b.sender, Neighbours(s, b.sender), b.packet, b.txId, Some((b.start, b.end)), h, ps);
  }

  lemma StepOf(s: Setup, w: World, a: Step, h: seq<Tx>, ps: seq<Bytes>)
    requires AllOf(w, h, ps) && Enabled(w, a) && |w.buffers| == |s.adversaries| && !a.DoTransmit?
    ensures AllOf(Apply(s, w, a), h, ps)
  {
    match a
    case Tick(_) =>
    case DoSpawn(i) => SpawnOf(s, w, i, h, ps);
    case DoBegin(id, lossDraw, advDraw, corrupted) => BeginOf(s, w, id, lossDraw, advDraw, corrupted, h, ps);
    case DoFinish(id) => DecideOf(w, id, Verdict(s, w.active, w.tasks[id]), h, ps);
    case DoDrain => DrainOf(s, w, |s.adversaries|, h, ps);
  }

  /** On every run: a delivery with a tx_id, waiting, asleep or over, is of the transmission of that
    * number, with its sender and its time on air, and until it begins it carries its packet.
    */
  lemma {:induction false} DeliveriesAreOfTransmissions(s: Setup, start: real, steps: seq<Step>)
    requires Reach(s, start, steps).Some?
    ensures AllOf(Reach(s, start, steps).value, Sent(s, start, steps), SentPackets(steps))
  {
    if steps != [] {
      var front, a := steps[..|steps| - 1], steps[|steps| - 1];
      var w := Reach(s, start, front).value;
      DeliveriesAreOfTransmissions(s, start, front);
      HistoryIsSent(s, start, front);
      NextOf(s, w, a, Sent(s, start, front), SentPackets(front));
    }
  }

  lemma NextOf(s: Setup, w: World, a: Step, h: seq<Tx>, ps: seq<Bytes>)
    requires AllOf(w, h, ps) && Enabled(w, a) && |w.buffers| == |s.adversaries| && w.txCounter == |h| == |ps|
    ensures IsSent(a) ==>
              var q := OnAir(s, |h| + 1, a.sender, a.packet, w.now);
              AllOf(Apply(s, w, a), h + [q], ps + [a.packet])
    ensures !IsSent(a) ==> AllOf(Apply(s, w, a), h + [], ps + [])
  {
    assert h + [] == h && ps + [] == ps;
    if a.DoTransmit? {
      TransmitOf(w, Apply(s, w, a), a.sender, a.packet, w.now + AirSeconds(s, a.packet), IsSent(a), h, ps);
    } else {
      StepOf(s, w, a, h, ps);
    }
  }

  /** The second part of a transmission: one delivery for each link in the sender's list, in order, with
    * its packet, tx_id and time on air; the transmission is done with, and all else stays.
    */
  lemma SpawnLaw(s: Setup, w: World, i: nat)
    requires i < |w.broadcasts|
    ensures var w', b := Spawn(s, w, i), w.broadcasts[i];
            var links := if b.sender in s.links then s.links[b.sender] else [];
            && w' == w.(broadcasts := w.broadcasts[..i] + w.broadcasts[i + 1..],
                        tasks := w'.tasks, nextTask := w.nextTask + |links|)
            && (forall j :: 0 <= j < |links| ==>
                  w.nextTask + j in w'.tasks &&
                  w'.tasks[w.nextTask + j] ==
                    Task(b.sender, links[j], b.packet, b.txId, Some((b.start, b.end)), Created))
            && (forall id :: id in w.tasks && id < w.nextTask ==> id in w'.tasks && w'.tasks[id] == w.tasks[id])
  {
    var b := w.broadcasts[i];
    var w1 := w.(broadcasts := w.broadcasts[..i] + w.broadcasts[i + 1..]);
    AddTasksKeeps(w1, b.sender, Neighbours(s, b.sender), b.packet, b.txId, Some((b.start, b.end)));
    OneTaskPerNeighbour(w1, b.sender, Neighbours(s, b.sender), b.packet, b.txId, Some((b.start, b.end)));
  }

  // ---- Deliveries of replays --------------------------------------------------

  lemma {:induction false} EmitKeepsTasks(s: Setup, w: World, name: string, due: seq<Replayed>)
    ensures var w' := Emit(s, w, name, due);
            w'.nextTask >= w.nextTask && forall id :: id in w.tasks && id < w.nextTask ==>
              id in w'.tasks && w'.tasks[id] == w.tasks[id]
  {
    if due != [] {
      EmitKeepsTasks(s, w, name, due[..|due| - 1]);
      var w1, r := Emit(s, w, name, due[..|due| - 1]), due[|due| - 1];
      OneTaskPerNeighbour(w1.(drained := w1.drained[r.source := w1.now]),
                          name, Neighbours(s, name), r.packet, None, None);
    }
  }

  /** The deliveries created by the drains of the first `k` filters: one per due packet and link. */
  function DrainCount(s: Setup, w: World, k: nat): nat
    requires k <= |s.adversaries| && |w.buffers| == |s.adversaries|
  {
    if k == 0 then 0
    else
      DrainCount(s, w, k - 1) + |Due(w.buffers[k - 1], w.now)| * |Neighbours(s, s.adversaries[k - 1].0)|
  }

  lemma {:induction false} DrainCounts(s: Setup, w: World, k: nat)
    requires k <= |s.adversaries| && |w.buffers| == |s.adversaries|
    ensures DrainUpTo(s, w, k).nextTask == w.nextTask + DrainCount(s, w, k)
    ensures forall j :: k <= j < |w.buffers| ==> DrainUpTo(s, w, k).buffers[j] == w.buffers[j]
  {
    if k > 0 {
      DrainCounts(s, w, k - 1);
      var w1 := DrainUpTo(s, w, k - 1);
      EmitsToEveryNeighbour(s, w1.(buffers := w1.buffers[k - 1 := NotDue(w1.buffers[k - 1], w1.now)]),
                            s.adversaries[k - 1].0, Due(w1.buffers[k - 1], w1.now));
    }
  }

  /** Packet `i` of those due at filter `f` goes from its node over link `j`. */
  ghost predicate IsReplay(s: Setup, w: World, w': World, f: nat, i: nat, j: nat)
    requires f < |s.adversaries| && |w.buffers| == |s.adversaries|
  {
    var name := s.adversaries[f].0;
    var links, due := Neighbours(s, name), Due(w.buffers[f], w.now);
    var id := w.nextTask + DrainCount(s, w, f) + i * |links| + j;
    i < |due| && j < |links| ==>
      id in w'.tasks && id < w'.nextTask && w'.tasks[id] == Task(name, links[j], due[i].packet, None, None, Created)
  }

  lemma OneDrainReplays(s: Setup, w: World, k: nat, i: nat, j: nat)
    requires k < |s.adversaries| && |w.buffers| == |s.adversaries|
    ensures IsReplay(s, w, DrainUpTo(s, w, k + 1), k, i, j)
  {
    DrainCounts(s, w, k);
    var w1, name := DrainUpTo(s, w, k), s.adversaries[k].0;
    var w2, due := w1.(buffers := w1.buffers[k := NotDue(w1.buffers[k], w1.now)]), Due(w1.buffers[k], w1.now);
    assert DrainUpTo(s, w, k + 1) == Emit(s, w2, name, due);
    EmitReplays(s, w2, name, due, i, j);
  }

  lemma EmitReplays(s: Setup, w: World, name: string, due: seq<Replayed>, i: nat, j: nat)
    ensures i < |due| && j < |Neighbours(s, name)| ==>
              Emitted(w, Emit(s, w, name, due), name, Neighbours(s, name), due, i, j)
  {
    EmitsToEveryNeighbour(s, w, name, due);
  }

  lemma MoreDrains(s: Setup, w: World, k: nat, f: nat, i: nat, j: nat)
    requires f < k < |s.adversaries| && |w.buffers| == |s.adversaries|
    requires IsReplay(s, w, DrainUpTo(s, w, k), f, i, j)
    ensures IsReplay(s, w, DrainUpTo(s, w, k + 1), f, i, j)
  {
    var w1 := DrainUpTo(s, w, k);
    EmitKeepsTasks(s, w1.(buffers := w1.buffers[k := NotDue(w1.buffers[k], w1.now)]),
                   s.adversaries[k].0, Due(w1.buffers[k], w1.now));
  }

  /** A pass of the drainer sends every packet that is due, filter by filter and in order, from the
    * filter's node to each of its neighbours, without tx_id and window, and creates nothing else.
    */
  lemma {:induction false} DrainReplaysAll(s: Setup, w: World, k: nat, f: nat, i: nat, j: nat)
    requires f < k <= |s.adversaries| && |w.buffers| == |s.adversaries|
    ensures IsReplay(s, w, DrainUpTo(s, w, k), f, i, j)
    ensures DrainUpTo(s, w, k).nextTask == w.nextTask + DrainCount(s, w, k)
  {
    DrainCounts(s, w, k);
    if f == k - 1 {
      OneDrainReplays(s, w, f, i, j);
    } else {
      DrainReplaysAll(s, w, k - 1, f, i, j);
      MoreDrains(s, w, k - 1, f, i, j);
    }
  }
}
