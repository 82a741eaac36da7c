/** Captured packets: each is buffered until drained, drained once, and not before its time. */
module RouterReplays {
  import opened Common
  import opened Topology
  import opened RouterModel
  import Packet
  import opened RouterLedger

  // ---- Counting sources -----------------------------------------------------

  /** How often a buffer holds a packet captured from delivery `id`. */
  ghost function Count(b: seq<Replayed>, id: nat): nat {
    if b == [] then 0 else (if b[0].source == id then 1 else 0) + Count(b[1..], id)
  }

  /** The same over all adversaries. */
  ghost function Pending(bs: seq<seq<Replayed>>, id: nat): nat {
    if bs == [] then 0 else Count(bs[0], id) + Pending(bs[1..], id)
  }

  ghost function TotalLength(bs: seq<seq<Replayed>>): nat {
    if bs == [] then 0 else |bs[0]| + TotalLength(bs[1..])
  }

  lemma {:induction false} CountConcat(a: seq<Replayed>, b: seq<Replayed>, id: nat)
    ensures Count(a + b, id) == Count(a, id) + Count(b, id)
  {
    if a == [] {
      assert a + b == b;
    } else {
      CountConcat(a[1..], b, id);
      assert (a + b)[1..] == a[1..] + b;
    }
  }

  lemma CountOne(r: Replayed, id: nat)
    ensures Count([r], id) == if r.source == id then 1 else 0
  {
    assert [r][1..] == [];
  }

  lemma {:induction false} CountedIsMember(b: seq<Replayed>, id: nat)
    ensures Count(b, id) > 0 <==> exists r :: r in b && r.source == id
  {
    if b != [] {
      CountedIsMember(b[1..], id);
      if r :| r in b && r.source == id && r != b[0] {
        assert r in b[1..];
      }
    }
  }

  lemma {:induction false} SplitByDue(b: seq<Replayed>, now: real, id: nat)
    ensures Count(Due(b, now), id) + Count(NotDue(b, now), id) == Count(b, id)
    ensures |Due(b, now)| + |NotDue(b, now)| == |b|
  {
    if b != [] {
      SplitByDue(b[1..], now, id);
      CountConcat(if now >= b[0].emitAt then [b[0]] else [], Due(b[1..], now), id);
      CountConcat(if now < b[0].emitAt then [b[0]] else [], NotDue(b[1..], now), id);
      CountOne(b[0], id);
    }
  }

  lemma {:induction false} PendingUpdate(bs: seq<seq<Replayed>>, k: nat, b: seq<Replayed>, id: nat)
    requires k < |bs|
    ensures Pending(bs[k := b], id) + Count(bs[k], id) == Pending(bs, id) + Count(b, id)
    ensures TotalLength(bs[k := b]) + |bs[k]| == TotalLength(bs) + |b|
  {
    if k == 0 {
      assert bs[0 := b][1..] == bs[1..];
    } else {
      PendingUpdate(bs[1..], k - 1, b, id);
      assert bs[k := b][1..] == bs[1..][k - 1 := b];
    }
  }

  ghost function Captured(w: World): set<nat> {
    Ended(w.decisions, CaptureKind)
  }

  /** Every capture is buffered or drained, and only once. */
  ghost predicate OnceEach(w: World) {
    (forall id: nat ::
       Pending(w.buffers, id) + (if id in w.drained then 1 else 0) == if id in Captured(w) then 1 else 0) &&
    TotalLength(w.buffers) + |w.drained| == |Captured(w)|
  }

  // ---- Timing ---------------------------------------------------------------

  /** When the packet captured by decision `d` is due. */
  function Deadline(s: Setup, d: Decision): real {
    match FilterIndex(s, d.task.link.other)
    case None => d.at
    case Some(k) => d.at + s.adversaries[k].1.replayDelayMs / 1000.0
  }

  /** A buffered packet is the one its source delivered, at the source's own adversary. */
  ghost predicate Buffered(s: Setup, w: World, k: nat, r: Replayed) {
    r.source in w.decisions && w.decisions[r.source].outcome == AdvCaptured &&
    FilterIndex(s, w.decisions[r.source].task.link.other) == Some(k) &&
    r.packet == w.decisions[r.source].task.packet &&
    r.emitAt == Deadline(s, w.decisions[r.source])
  }

  ghost predicate BuffersOk(s: Setup, w: World) {
    |w.buffers| == |s.adversaries| &&
    forall k, r :: 0 <= k < |w.buffers| && r in w.buffers[k] ==> Buffered(s, w, k, r)
  }

  ghost predicate DrainsOk(s: Setup, w: World) {
    forall id :: id in w.drained ==>
      id in w.decisions && w.decisions[id].outcome == AdvCaptured &&
      Deadline(s, w.decisions[id]) <= w.drained[id] <= w.now
  }

  ghost predicate Replaying(s: Setup, w: World) {
    Accounted(w) && OnceEach(w) && BuffersOk(s, w) && DrainsOk(s, w)
  }

  // ---- Steps ----------------------------------------------------------------

  lemma {:induction false} DueMembers(b: seq<Replayed>, now: real)
    ensures forall r :: r in Due(b, now) <==> r in b && now >= r.emitAt
    ensures forall r :: r in NotDue(b, now) <==> r in b && now < r.emitAt
  {
    if b != [] {
      DueMembers(b[1..], now);
    }
  }

  lemma CountLast(due: seq<Replayed>, id: nat)
    requires due != []
    ensures Count(due, id) == Count(due[..|due| - 1], id) + if due[|due| - 1].source == id then 1 else 0
  {
    var n := |due| - 1;
    CountConcat(due[..n], [due[n]], id);
    CountOne(due[n], id);
    assert due[..n] + [due[n]] == due;
  }

  /** `drained` is `was` plus exactly the sources of `due`, all at time `now`. */
  ghost predicate DrainedWith(drained: map<nat, real>, was: map<nat, real>, due: seq<Replayed>, now: real) {
    (forall id: nat :: id in drained <==> id in was || Count(due, id) > 0) &&
    (forall id :: id in was ==> id in drained && drained[id] == was[id]) &&
    (forall id :: id in drained && id !in was ==> drained[id] == now) &&
    |drained| == |was| + |due|
  }

  lemma CountNext(due: seq<Replayed>, r: Replayed, id: nat)
    ensures Count(due + [r], id) == Count(due, id) + if r.source == id then 1 else 0
  {
    CountConcat(due, [r], id);
    CountOne(r, id);
  }

  lemma DrainedWithOneMore(drained: map<nat, real>, was: map<nat, real>, due: seq<Replayed>, r: Replayed, now: real)
    requires DrainedWith(drained, was, due, now)
    requires Count(due, r.source) == 0 && r.source !in was
    ensures DrainedWith(drained[r.source := now], was, due + [r], now)
  {
    var drained' := drained[r.source := now];
    forall id: nat
      ensures id in drained' <==> id in was || Count(due + [r], id) > 0
    {
      CountNext(due, r, id);
    }
    assert drained'.Keys == drained.Keys + {r.source};
  }

  /** Emitting records each due source and otherwise only creates deliveries. */
  lemma {:induction false} EmitRecords(s: Setup, w: World, name: string, due: seq<Replayed>)
    requires forall id: nat :: Count(due, id) <= 1 && (Count(due, id) == 1 ==> id !in w.drained)
    ensures var w' := Emit(s, w, name, due);
            w' == w.(tasks := w'.tasks, nextTask := w'.nextTask, drained := w'.drained) &&
            DrainedWith(w'.drained, w.drained, due, w.now)
  {
    if due != [] {
      var n := |due| - 1;
      forall id: nat
        ensures Count(due, id) == Count(due[..n], id) + if due[n].source == id then 1 else 0
      {
        CountLast(due, id);
      }
      EmitRecords(s, w, name, due[..n]);
      var w1, r := Emit(s, w, name, due[..n]), due[n];
      DrainedWithOneMore(w1.drained, w.drained, due[..n], r, w.now);
      assert due[..n] + [r] == due;
      AddTasksKeeps(w1.(drained := w1.drained[r.source := w1.now]), name, Neighbours(s, name), r.packet, None, None);
    }
  }

  lemma DrainOneReplaying(s: Setup, w: World, k: nat)
    requires Replaying(s, w) && k < |s.adversaries|
    ensures Replaying(s, DrainOne(s, w, k))
  {
    var b, due, keep := w.buffers[k], Due(w.buffers[k], w.now), NotDue(w.buffers[k], w.now);
    var w1 := w.(buffers := w.buffers[k := keep]);
    forall id: nat
      ensures Pending(w1.buffers, id) + Count(due, id) == Pending(w.buffers, id)
    {
      SplitByDue(b, w.now, id);
      PendingUpdate(w.buffers, k, keep, id);
    }
    SplitByDue(b, w.now, 0);
    PendingUpdate(w.buffers, k, keep, 0);
    EmitRecords(s, w1, s.adversaries[k].0, due);
    EmitAccounts(s, w1, s.adversaries[k].0, due);
    DrainTimes(s, w, DrainOne(s, w, k), k);
    DrainOnce(w, DrainOne(s, w, k), due);
  }

  lemma DrainOnce(w: World, w': World, due: seq<Replayed>)
    requires OnceEach(w) && w'.decisions == w.decisions && DrainedWith(w'.drained, w.drained, due, w.now)
    requires forall id: nat :: Pending(w'.buffers, id) + Count(due, id) == Pending(w.buffers, id)
    requires TotalLength(w'.buffers) + |due| == TotalLength(w.buffers)
    ensures OnceEach(w')
  {
    assert Captured(w') == Captured(w);
    forall id: nat
      ensures Pending(w'.buffers, id) + (if id in w'.drained then 1 else 0) == if id in Captured(w') then 1 else 0
    {
      assert Pending(w.buffers, id) + (if id in w.drained then 1 else 0) == if id in Captured(w) then 1 else 0;
    }
  }

  lemma DrainTimes(s: Setup, w: World, w': World, k: nat)
    requires BuffersOk(s, w) && DrainsOk(s, w) && k < |w.buffers|
    requires w'.decisions == w.decisions && w'.now == w.now
    requires w'.buffers == w.buffers[k := NotDue(w.buffers[k], w.now)]
    requires DrainedWith(w'.drained, w.drained, Due(w.buffers[k], w.now), w.now)
    ensures BuffersOk(s, w') && DrainsOk(s, w')
  {
    DueMembers(w.buffers[k], w.now);
    forall j, r | 0 <= j < |w'.buffers| && r in w'.buffers[j]
      ensures Buffered(s, w', j, r)
    {
      assert r in w.buffers[j];
      assert Buffered(s, w, j, r);
    }
    forall id | id in w'.drained
      ensures id in w.decisions && w.decisions[id].outcome == AdvCaptured &&
              Deadline(s, w.decisions[id]) <= w'.drained[id] <= w.now
    {
      if id !in w.drained {
        CountedIsMember(Due(w.buffers[k], w.now), id);
        var r :| r in Due(w.buffers[k], w.now) && r.source == id;
        assert Buffered(s, w, k, r);
      }
    }
  }

  lemma {:induction false} DrainReplaying(s: Setup, w: World, k: nat)
    requires Replaying(s, w) && k <= |s.adversaries|
    ensures Replaying(s, DrainUpTo(s, w, k))
  {
    if k > 0 {
      DrainReplaying(s, w, k - 1);
      DrainOneReplaying(s, DrainUpTo(s, w, k - 1), k - 1);
    }
  }

  /** Steps that end deliveries otherwise, or none, leave captures as they are. */
  ghost predicate SameCaptures(w: World, w': World) {
    w'.buffers == w.buffers && w'.drained == w.drained && w'.now >= w.now &&
    Captured(w') == Captured(w) &&
    forall id :: id in w.decisions ==> id in w'.decisions && w'.decisions[id] == w.decisions[id]
  }

  lemma SameCapturesReplaying(s: Setup, w: World, w': World)
    requires Replaying(s, w) && SameCaptures(w, w') && Accounted(w')
    ensures Replaying(s, w')
  {
    forall k, r | 0 <= k < |w'.buffers| && r in w'.buffers[k]
      ensures Buffered(s, w', k, r)
    {
      assert Buffered(s, w, k, r);
    }
  }

  lemma DecideSameCaptures(w: World, id: nat, o: Outcome)
    requires Tracked(w) && id in w.tasks && o != AdvCaptured
    ensures SameCaptures(w, Decide(w, id, o))
  {
    var d := Decision(w.tasks[id], w.now, o);
    assert KindOf(o) != CaptureKind;
    assert id !in w.decisions;
    assert Captured(Decide(w, id, o)) == Captured(w);
  }

  /** The delivery ends in the buffer of adversary `k`. */
  function Capture(s: Setup, w: World, id: nat, k: nat): World
    requires id in w.tasks && k < |s.adversaries| && |w.buffers| == |s.adversaries|
  {
    var r := Replayed(w.now + s.adversaries[k].1.replayDelayMs / 1000.0, w.tasks[id].packet, id);
    Decide(w.(buffers := w.buffers[k := w.buffers[k] + [r]]), id, AdvCaptured)
  }

  lemma CaptureAccounts(s: Setup, w: World, id: nat, k: nat)
    requires Accounted(w) && id in w.tasks && k < |s.adversaries| && |w.buffers| == |s.adversaries|
    ensures Accounted(Capture(s, w, id, k))
  {
    var r := Replayed(w.now + s.adversaries[k].1.replayDelayMs / 1000.0, w.tasks[id].packet, id);
    DecideAccounts(w.(buffers := w.buffers[k := w.buffers[k] + [r]]), id, AdvCaptured);
  }

  lemma CaptureReplaying(s: Setup, w: World, id: nat, k: nat)
    requires Replaying(s, w) && id in w.tasks && k < |s.adversaries|
    requires FilterIndex(s, w.tasks[id].link.other) == Some(k)
    ensures Replaying(s, Capture(s, w, id, k))
  {
    var r := Replayed(w.now + s.adversaries[k].1.replayDelayMs / 1000.0, w.tasks[id].packet, id);
    var w' := Capture(s, w, id, k);
    assert id !in w.decisions;
    CaptureAccounts(s, w, id, k);
    CaptureOnce(w, w', id, k, r);
    CaptureTimes(s, w, w', id, k, r);
  }

  lemma CaptureTimes(s: Setup, w: World, w': World, id: nat, k: nat, r: Replayed)
    requires BuffersOk(s, w) && DrainsOk(s, w) && id !in w.decisions && k < |w.buffers|
    requires w'.buffers == w.buffers[k := w.buffers[k] + [r]] && w'.drained == w.drained && w'.now == w.now
    requires id in w'.decisions && w'.decisions == w.decisions[id := w'.decisions[id]]
    requires r.source == id && Buffered(s, w', k, r)
    ensures BuffersOk(s, w') && DrainsOk(s, w')
  {
    forall j, x | 0 <= j < |w'.buffers| && x in w'.buffers[j]
      ensures Buffered(s, w', j, x)
    {
      if x in w.buffers[j] {
        assert Buffered(s, w, j, x);
      }
    }
  }

  lemma PendingAfterCapture(buffers: seq<seq<Replayed>>, k: nat, r: Replayed, x: nat)
    requires k < |buffers|
    ensures Pending(buffers[k := buffers[k] + [r]], x) == Pending(buffers, x) + if x == r.source then 1 else 0
    ensures TotalLength(buffers[k := buffers[k] + [r]]) == TotalLength(buffers) + 1
  {
    PendingUpdate(buffers, k, buffers[k] + [r], x);
    CountConcat(buffers[k], [r], x);
    CountOne(r, x);
  }

  lemma CapturedNext(w: World, w': World, id: nat)
    requires id !in w.decisions && id in w'.decisions && w'.decisions == w.decisions[id := w'.decisions[id]]
    requires w'.decisions[id].outcome == AdvCaptured
    ensures Captured(w') == Captured(w) + {id} && id !in Captured(w)
  {
  }

  lemma CaptureOnce(w: World, w': World, id: nat, k: nat, r: Replayed)
    requires OnceEach(w) && id !in w.decisions && k < |w.buffers| && r.source == id
    requires w'.buffers == w.buffers[k := w.buffers[k] + [r]] && w'.drained == w.drained
    requires id in w'.decisions && w'.decisions == w.decisions[id := w'.decisions[id]]
    requires w'.decisions[id].outcome == AdvCaptured
    ensures OnceEach(w')
  {
    CapturedNext(w, w', id);
    forall x: nat
      ensures Pending(w'.buffers, x) == Pending(w.buffers, x) + if x == id then 1 else 0
    {
      PendingAfterCapture(w.buffers, k, r, x);
    }
    PendingAfterCapture(w.buffers, k, r, id);
  }

  /** The filter captures this delivery. */
  predicate CapturesIt(s: Setup, t: Task, lossDraw: real, advDraw: real) {
    var k := FilterIndex(s, t.link.other);
    t.link.snr >= SnrThreshold(s.radio.sf) && !(t.link.loss > 0.0 && lossDraw < t.link.loss) && k.Some? &&
    advDraw < s.adversaries[k.value].1.probability && s.adversaries[k.value].1.mode == "replay"
  }

  lemma CaptureStep(s: Setup, w: World, id: nat, lossDraw: real, advDraw: real, corrupted: Bytes)
    requires id in w.tasks && |w.buffers| == |s.adversaries| && CapturesIt(s, w.tasks[id], lossDraw, advDraw)
    ensures Begin(s, w, id, lossDraw, advDraw, corrupted) ==
            Capture(s, w, id, FilterIndex(s, w.tasks[id].link.other).value)
  {
  }

  lemma BeginReplaying(s: Setup, w: World, id: nat, lossDraw: real, advDraw: real, corrupted: Bytes)
    requires Replaying(s, w) && id in w.tasks
    ensures Replaying(s, Begin(s, w, id, lossDraw, advDraw, corrupted))
  {
    if CapturesIt(s, w.tasks[id], lossDraw, advDraw) {
      CaptureStep(s, w, id, lossDraw, advDraw, corrupted);
      CaptureReplaying(s, w, id, FilterIndex(s, w.tasks[id].link.other).value);
    } else {
      NoCaptureReplaying(s, w, id, lossDraw, advDraw, corrupted);
    }
  }

  lemma NoCaptureReplaying(s: Setup, w: World, id: nat, lossDraw: real, advDraw: real, corrupted: Bytes)
    requires Replaying(s, w) && id in w.tasks && !CapturesIt(s, w.tasks[id], lossDraw, advDraw)
    ensures Replaying(s, Begin(s, w, id, lossDraw, advDraw, corrupted))
  {
    var w' := Begin(s, w, id, lossDraw, advDraw, corrupted);
    BeginAccounts(s, w, id, lossDraw, advDraw, corrupted);
    BeginSameCaptures(s, w, id, lossDraw, advDraw, corrupted);
    SameCapturesReplaying(s, w, w');
  }

  lemma FilteredSameCaptures(s: Setup, w: World, id: nat, k: nat, corrupted: Bytes)
    requires Tracked(w) && id in w.tasks && k < |s.adversaries| && |w.buffers| == |s.adversaries|
    requires s.adversaries[k].1.mode != "replay"
    ensures SameCaptures(w, Filtered(s, w, id, k, corrupted))
  {
    DecideSameCaptures(w, id, AdvDropped);
    var w' := Filtered(s, w, id, k, corrupted);
    if w'.decisions == w.decisions {
      assert Captured(w') == Captured(w);
    }
  }

  lemma BeginSameCaptures(s: Setup, w: World, id: nat, lossDraw: real, advDraw: real, corrupted: Bytes)
    requires Tracked(w) && id in w.tasks && |w.buffers| == |s.adversaries|
    requires !CapturesIt(s, w.tasks[id], lossDraw, advDraw)
    ensures SameCaptures(w, Begin(s, w, id, lossDraw, advDraw, corrupted))
  {
    DecideSameCaptures(w, id, SnrDropped);
    DecideSameCaptures(w, id, LinkLost);
    var k := FilterIndex(s, w.tasks[id].link.other);
    if k.Some? && s.adversaries[k.value].1.mode != "replay" {
      FilteredSameCaptures(s, w, id, k.value, corrupted);
    }
    assert Captured(Sleep(w, id, w.tasks[id].packet)) == Captured(w);
  }

  lemma QuietReplaying(s: Setup, w: World, w': World)
    requires Replaying(s, w) && Accounted(w') && w'.buffers == w.buffers && w'.drained == w.drained
    requires w'.decisions == w.decisions && w'.now >= w.now
    ensures Replaying(s, w')
  {
    assert Captured(w') == Captured(w);
    SameCapturesReplaying(s, w, w');
  }

  lemma TransmitUntilReplaying(s: Setup, w: World, w': World, sender: string, packet: Bytes, end: real, decodes: bool)
    requires Replaying(s, w) && w' == TransmitUntil(w, sender, packet, end, decodes)
    ensures Replaying(s, w')
  {
    TransmitAccounts(w, sender, packet, end, decodes);
    QuietReplaying(s, w, w');
  }

  lemma TransmitReplaying(s: Setup, w: World, sender: string, packet: Bytes)
    requires Replaying(s, w)
    ensures Replaying(s, Transmit(s, w, sender, packet))
  {
    TransmitUntilReplaying(s, w, Transmit(s, w, sender, packet),
                           sender, packet, w.now + AirSeconds(s, packet), Packet.DecodeRaw(packet).Some?);
  }

  lemma SpawnReplaying(s: Setup, w: World, i: nat)
    requires Replaying(s, w) && i < |w.broadcasts|
    ensures Replaying(s, Spawn(s, w, i))
  {
    var b := w.broadcasts[i];
    SpawnAccounts(s, w, i);
    AddTasksKeeps(w.(broadcasts := w.broadcasts[..i] + w.broadcasts[i + 1..]),
                  b.sender, Neighbours(s, b.sender), b.packet, b.txId, Some((b.start, b.end)));
    QuietReplaying(s, w, Spawn(s, w, i));
  }

  lemma FinishReplaying(s: Setup, w: World, id: nat)
    requires Replaying(s, w) && id in w.tasks
    ensures Replaying(s, Finish(s, w, id))
  {
    var o := Verdict(s, w.active, w.tasks[id]);
    DecideAccounts(w, id, o);
    DecideSameCaptures(w, id, o);
    SameCapturesReplaying(s, w, Finish(s, w, id));
  }

  lemma ApplyReplaying(s: Setup, w: World, a: Step)
    requires Replaying(s, w) && Enabled(w, a)
    ensures Replaying(s, Apply(s, w, a))
  {
    match a
    case Tick(dt) => QuietReplaying(s, w, w.(now := w.now + dt));
    case DoTransmit(sender, packet) => TransmitReplaying(s, w, sender, packet);
    case DoSpawn(i) => SpawnReplaying(s, w, i);
    case DoBegin(id, lossDraw, advDraw, corrupted) => BeginReplaying(s, w, id, lossDraw, advDraw, corrupted);
    case DoFinish(id) => FinishReplaying(s, w, id);
    case DoDrain => DrainReplaying(s, w, |s.adversaries|);
  }

  lemma {:induction false} NothingPending(bs: seq<seq<Replayed>>)
    requires forall i :: 0 <= i < |bs| ==> bs[i] == []
    ensures TotalLength(bs) == 0 && forall id: nat :: Pending(bs, id) == 0
  {
    if bs != [] {
      NothingPending(bs[1..]);
    }
  }

  lemma {:induction false} ReachReplaying(s: Setup, start: real, steps: seq<Step>)
    requires Reach(s, start, steps).Some?
    ensures Replaying(s, Reach(s, start, steps).value)
  {
    if steps == [] {
      ReachAccounts(s, start, steps);
      NothingPending(Initial(s, start).buffers);
      assert Captured(Initial(s, start)) == {};
    } else {
      ReachReplaying(s, start, steps[..|steps| - 1]);
      ApplyReplaying(s, Reach(s, start, steps[..|steps| - 1]).value, steps[|steps| - 1]);
    }
  }

  // ---- Main results ---------------------------------------------------------

  /** In every reachable state each captured packet is either waiting, exactly once, or was
    * drained, and then not before its deadline; nothing else is waiting or was drained.
    */
  lemma CapturesAreDrainedOnce(s: Setup, start: real, steps: seq<Step>, id: nat)
    requires Reach(s, start, steps).Some?
    ensures var w := Reach(s, start, steps).value;
            Pending(w.buffers, id) + (if id in w.drained then 1 else 0) == (if id in Captured(w) then 1 else 0) &&
            (id in w.drained ==> Deadline(s, w.decisions[id]) <= w.drained[id] <= w.now) &&
            w.ledger.advReplay == TotalLength(w.buffers) + |w.drained|
  {
    ReachReplaying(s, start, steps);
  }

  /** And what waits is what its delivery carried, at the adversary that captured it. */
  lemma BufferedPacketsAreCaptures(s: Setup, start: real, steps: seq<Step>, k: nat, r: Replayed)
    requires Reach(s, start, steps).Some? && k < |Reach(s, start, steps).value.buffers|
    requires r in Reach(s, start, steps).value.buffers[k]
    ensures Buffered(s, Reach(s, start, steps).value, k, r)
  {
    ReachReplaying(s, start, steps);
  }

  /** The deliveries of one packet: one per neighbour, in order, nothing else touched. */
  lemma {:induction false} OneTaskPerNeighbour(w: World, sender: string, links: seq<EdgeLink>, packet: Bytes,
                                               txId: Option<nat>, window: Option<(real, real)>)
    ensures var w' := AddTasks(w, sender, links, packet, txId, window);
            w'.nextTask == w.nextTask + |links| &&
            (forall id :: w.nextTask <= id < w.nextTask + |links| ==>
               id in w'.tasks && w'.tasks[id] == Task(sender, links[id - w.nextTask], packet, txId, window, Created)) &&
            (forall id :: id in w.tasks && id < w.nextTask ==> id in w'.tasks && w'.tasks[id] == w.tasks[id])
  {
    if links != [] {
      OneTaskPerNeighbour(w, sender, links[..|links| - 1], packet, txId, window);
    }
  }

  /** Delivery number `i * |links| + j` of a drain takes the i-th due packet to the j-th neighbour. */
  ghost predicate Emitted(w: World, w': World, name: string, links: seq<EdgeLink>, due: seq<Replayed>, i: nat, j: nat)
    requires i < |due| && j < |links|
  {
    var id := w.nextTask + i * |links| + j;
    id in w'.tasks && id < w'.nextTask && w'.tasks[id] == Task(name, links[j], due[i].packet, None, None, Created)
  }

  /** A drain sends every due packet of an adversary to every neighbour, and creates nothing else. */
  lemma {:induction false} EmitsToEveryNeighbour(s: Setup, w: World, name: string, due: seq<Replayed>)
    ensures Emit(s, w, name, due).nextTask == w.nextTask + |due| * |Neighbours(s, name)|
    ensures forall i: nat, j: nat :: i < |due| && j < |Neighbours(s, name)| ==>
              Emitted(w, Emit(s, w, name, due), name, Neighbours(s, name), due, i, j)
  {
    if due != [] {
      var n, links := |due| - 1, Neighbours(s, name);
      EmitsToEveryNeighbour(s, w, name, due[..n]);
      var w1, r := Emit(s, w, name, due[..n]), due[n];
      var w' := Emit(s, w, name, due);
      OneTaskPerNeighbour(w1.(drained := w1.drained[r.source := w1.now]), name, links, r.packet, None, None);
      assert |due| * |links| == n * |links| + |links|;
      forall i: nat, j: nat | i < |due| && j < |links|
        ensures Emitted(w, w', name, links, due, i, j)
      {
        if i < n {
          assert Emitted(w, w1, name, links, due[..n], i, j);
        } else {
          assert w.nextTask + i * |links| + j == w1.nextTask + j;
        }
      }
    }
  }

  lemma DrainUpToBuffers(s: Setup, w: World, k: nat)
    requires 0 < k <= |s.adversaries| && |w.buffers| == |s.adversaries|
    ensures var before := DrainUpTo(s, w, k - 1);
            DrainUpTo(s, w, k).buffers == before.buffers[k - 1 := NotDue(before.buffers[k - 1], w.now)]
  {
  }

  /** After the drainer has passed, nothing that was due is left. */
  lemma {:induction false} DrainLeavesNothingDue(s: Setup, w: World, k: nat)
    requires k <= |s.adversaries| && |w.buffers| == |s.adversaries|
    ensures forall j :: 0 <= j < |w.buffers| ==>
              DrainUpTo(s, w, k).buffers[j] == if j < k then NotDue(w.buffers[j], w.now) else w.buffers[j]
    ensures forall j, r :: 0 <= j < k && r in DrainUpTo(s, w, k).buffers[j] ==> w.now < r.emitAt
  {
    if k > 0 {
      DrainLeavesNothingDue(s, w, k - 1);
      DueMembers(w.buffers[k - 1], w.now);
      DrainUpToBuffers(s, w, k);
    }
  }
}
