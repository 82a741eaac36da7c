/** The router as the objects it is made of: metrics, filters, channel and the router itself.
  * Each routine is proved to take the step of the machine in RouterModel that it stands for.
  */
module Router {
  import opened Common
  import opened Channel
  import opened TopologyConfig
  import opened Topology
  import opened RouterModel
  import opened RouterJournal
  import opened Corruption
  import Packet
  import Tracer

  class MetricsCollector {
    var tx: map<string, nat>
    var rx: map<string, nat>
    var linkLossCount: nat
    var advDropCount: nat
    var advCorruptCount: nat
    var advReplayCount: nat
    var collisionCount: nat
    var halfDuplexDropCount: nat
    var snrDropCount: nat

    ghost function View(): Ledger
      reads this
    {
      Ledger(tx, rx, linkLossCount, advDropCount, advCorruptCount, advReplayCount,
             collisionCount, halfDuplexDropCount, snrDropCount)
    }

    constructor ()
      ensures View() == Ledger(map[], map[], 0, 0, 0, 0, 0, 0, 0)
    {
      tx, rx := map[], map[];
      linkLossCount, advDropCount, advCorruptCount, advReplayCount := 0, 0, 0, 0;
      collisionCount, halfDuplexDropCount, snrDropCount := 0, 0, 0;
    }

    method RecordTx(node: string)
      modifies this
      ensures View() == old(View()).(tx := Bump(old(tx), node))
    {
      tx := Bump(tx, node);
    }

    method RecordRx(receiver: string)
      modifies this
      ensures View() == Record(old(View()), Received(receiver))
    {
      rx := Bump(rx, receiver);
    }

    method RecordLinkLoss()
      modifies this
      ensures View() == Record(old(View()), LinkLost)
    {
      linkLossCount := linkLossCount + 1;
    }

    method RecordAdversarialDrop()
      modifies this
      ensures View() == Record(old(View()), AdvDropped)
    {
      advDropCount := advDropCount + 1;
    }

    method RecordAdversarialCorrupt()
      modifies this
      ensures View() == old(View()).(advCorrupt := old(advCorruptCount) + 1)
    {
      advCorruptCount := advCorruptCount + 1;
    }

    method RecordAdversarialReplay()
      modifies this
      ensures View() == Record(old(View()), AdvCaptured)
    {
      advReplayCount := advReplayCount + 1;
    }

    method RecordCollision(loss: Loss)
      modifies this
      ensures View() == Record(old(View()), Collided(loss))
    {
      collisionCount := collisionCount + 1;
    }

    method RecordHalfDuplexDrop(blocker: nat)
      modifies this
      ensures View() == Record(old(View()), HalfDuplex(blocker))
    {
      halfDuplexDropCount := halfDuplexDropCount + 1;
    }

    method RecordSnrDrop()
      modifies this
      ensures View() == Record(old(View()), SnrDropped)
    {
      snrDropCount := snrDropCount + 1;
    }
  }

  class AdversarialFilter {
    const config: AdversarialConfig
    var replayBuffer: seq<Replayed>

    constructor (config: AdversarialConfig)
      ensures this.config == config && replayBuffer == []
    {
      this.config := config;
      replayBuffer := [];
    }

    /** `filter_packet`; nothing means: do not deliver. */
    method FilterPacket(packet: Bytes, now: real, source: nat, draws: Draws) returns (result: Option<Bytes>)
      modifies this
      ensures replayBuffer == if config.mode == "replay"
                              then old(replayBuffer) + [Replayed(now + config.replayDelayMs / 1000.0, packet, source)]
                              else old(replayBuffer)
      ensures result == if config.mode == "drop" || config.mode == "replay" then None
                        else if config.mode == "corrupt" then Some(Corrupted(packet, config.corruptByteCount, draws))
                        else Some(packet)
    {
      if config.mode == "drop" {
        return None;
      } else if config.mode == "corrupt" {
        var corrupted := Corrupt(packet, config.corruptByteCount, draws);
        return Some(corrupted);
      } else if config.mode == "replay" {
        var emitAt := now + config.replayDelayMs / 1000.0;
        replayBuffer := replayBuffer + [Replayed(emitAt, packet, source)];
        return None;
      }
      return Some(packet);
    }

    /** `drain_replays`: exactly what is due leaves, exactly the rest stays, both in order. */
    method DrainReplays(now: real) returns (ready: seq<Replayed>)
      modifies this
      ensures ready == Due(old(replayBuffer), now)
      ensures replayBuffer == NotDue(old(replayBuffer), now)
      ensures IsSelection(ready, old(replayBuffer), DueAt(now))
      ensures IsSelection(replayBuffer, old(replayBuffer), WaitingAt(now))
    {
      DueSelects(replayBuffer, now);
      NotDueSelects(replayBuffer, now);
      ready := Due(replayBuffer, now);
      replayBuffer := NotDue(replayBuffer, now);
    }
  }

  ghost function Buffers(filters: seq<AdversarialFilter>): (bs: seq<seq<Replayed>>)
    reads filters
    ensures |bs| == |filters| && forall i :: 0 <= i < |filters| ==> bs[i] == filters[i].replayBuffer
  {
    if filters == [] then [] else Buffers(filters[..|filters| - 1]) + [filters[|filters| - 1].replayBuffer]
  }

  /** A new filter for each adversary, in order. */
  ghost predicate FiltersFor(advs: seq<(string, AdversarialConfig)>, filters: seq<AdversarialFilter>)
    reads filters
  {
    |filters| == |advs| &&
    (forall i :: 0 <= i < |advs| ==> filters[i].config == advs[i].1 && filters[i].replayBuffer == []) &&
    forall i, j :: 0 <= i < j < |filters| ==> filters[i] != filters[j]
  }

  method MakeFilters(advs: seq<(string, AdversarialConfig)>) returns (filters: seq<AdversarialFilter>)
    ensures FiltersFor(advs, filters) && forall f :: f in filters ==> fresh(f)
  {
    filters := [];
    for i := 0 to |advs|
      invariant FiltersFor(advs[..i], filters) && forall f :: f in filters ==> fresh(f)
    {
      var f := new AdversarialFilter(advs[i].1);
      filters := filters + [f];
    }
    assert advs[..|advs|] == advs;
  }

  class PacketRouter {
    const setup: Setup
    const channel: ChannelModel
    const metrics: MetricsCollector
    const tracer: Tracer.PacketTracer
    const filters: seq<AdversarialFilter>
    var now: real
    var broadcasts: seq<Broadcast>
    var tasks: map<nat, Task>
    var nextTask: nat
    ghost var history: seq<Tx>
    ghost var decisions: map<nat, Decision>
    ghost var drained: map<nat, real>

    ghost predicate Valid() {
      channel.config == ChannelOf(setup) &&
      |filters| == |setup.adversaries| &&
      (forall i :: 0 <= i < |filters| ==> filters[i].config == setup.adversaries[i].1) &&
      forall i, j :: 0 <= i < j < |filters| ==> filters[i] != filters[j]
    }

    ghost function View(): World
      reads this, channel, metrics, tracer, filters
    {
      World(now, tracer.txCounter, channel.active, broadcasts, tasks, nextTask, Buffers(filters), metrics.View(),
            history, decisions, drained)
    }

    /** Wire a router up; it starts at loop time `start`. */
    constructor (setup: Setup, filters: seq<AdversarialFilter>, start: real)
      requires FiltersFor(setup.adversaries, filters)
      ensures Valid() && View() == Initial(setup, start) && tracer.Valid() && tracer.calls == []
      ensures this.setup == setup && this.filters == filters && fresh(channel) && fresh(metrics) && fresh(tracer)
    {
      this.setup := setup;
      this.filters := filters;
      channel := new ChannelModel(ChannelOf(setup));
      metrics := new MetricsCollector();
      tracer := new Tracer.PacketTracer();
      now, broadcasts, tasks, nextTask := start, [], map[], 0;
      history, decisions, drained := [], map[], map[];
      new;
      assert Buffers(filters) == Initial(setup, start).buffers;
    }

    /** A numbered transmission enters the channel; the deliveries of any are left for later. */
    method Enqueue(sender: string, packet: Bytes, txId: Option<nat>, txEnd: real)
      modifies this`history, this`broadcasts, channel
      ensures View() == Enqueued(old(View()), sender, packet, txId, txEnd)
    {
      if txId.Some? {
        var q := Tx(txId.value, sender, now, txEnd);
        channel.RegisterAndPrune(q);
        history := history + [q];
      }
      broadcasts := broadcasts + [Broadcast(sender, packet, txId, now, txEnd)];
    }

    /** The tracer numbers the transmission if its packet decodes. */
    method Trace(sender: string, packet: Bytes, airtimeMs: real, txEnd: real) returns (txId: Option<nat>)
      requires tracer.Valid()
      modifies tracer
      ensures tracer.Valid()
      ensures tracer.calls == old(tracer.calls) + [Tracer.Tx(sender, Packet.Hex(packet), now, airtimeMs, Some(txEnd))]
      ensures txId.Some? == Packet.DecodeRaw(packet).Some?
      ensures tracer.txCounter == if txId == None then old(tracer.txCounter) else old(tracer.txCounter) + 1
      ensures txId.Some? ==> txId.value == tracer.txCounter
    {
      HexDecodes(packet);
      txId := tracer.RecordTx(sender, Packet.Hex(packet), now, airtimeMs, Some(txEnd));
    }

    /** First part of `_on_tx`, once the time on air is known. */
    method OnTxUntil(sender: string, packet: Bytes, airtimeMs: real, txEnd: real)
      requires Valid() && tracer.Valid()
      modifies this, channel, metrics, tracer
      ensures Valid() && tracer.Valid()
      ensures View() == TransmitUntil(old(View()), sender, packet, txEnd, Packet.DecodeRaw(packet).Some?)
      ensures tracer.calls == old(tracer.calls) +
                              [Tracer.Tx(sender, Packet.Hex(packet), old(now), airtimeMs, Some(txEnd))]
    {
      metrics.RecordTx(sender);
      var txId := Trace(sender, packet, airtimeMs, txEnd);
      Enqueue(sender, packet, txId, txEnd);
    }

    /** First part of `_on_tx`. */
    method OnTx(sender: string, packet: Bytes)
      requires Valid() && tracer.Valid()
      modifies this, channel, metrics, tracer
      ensures Valid() && tracer.Valid() && View() == Transmit(setup, old(View()), sender, packet)
      ensures tracer.calls == old(tracer.calls) + Calls(setup, old(View()), DoTransmit(sender, packet))
    {
      OnTxUntil(sender, packet, AirMillis(setup, packet), now + AirSeconds(setup, packet));
    }

    /** One delivery per link, in the order of the adjacency list. */
    method CreateTasks(sender: string, links: seq<EdgeLink>, packet: Bytes, txId: Option<nat>,
                       window: Option<(real, real)>)
      modifies this`tasks, this`nextTask
      ensures View() == AddTasks(old(View()), sender, links, packet, txId, window)
    {
      assert links[..0] == [];
      for j := 0 to |links|
        invariant View() == AddTasks(old(View()), sender, links[..j], packet, txId, window)
      {
        assert links[..j + 1][..j] == links[..j];
        tasks := tasks[nextTask := Task(sender, links[j], packet, txId, window, Created)];
        nextTask := nextTask + 1;
      }
      assert links[..|links|] == links;
    }

    /** Second part of `_on_tx`, for the i-th broadcast waiting for it. */
    method SpawnDeliveries(i: nat)
      requires Valid() && i < |broadcasts|
      modifies this
      ensures Valid() && View() == Spawn(setup, old(View()), i)
    {
      var b := broadcasts[i];
      broadcasts := broadcasts[..i] + broadcasts[i + 1..];
      CreateTasks(b.sender, Neighbours(setup, b.sender), b.packet, b.txId, Some((b.start, b.end)));
    }

    /** The delivery is counted and its coroutine returns. */
    method End(id: nat, outcome: Outcome)
      requires id in tasks
      modifies this`tasks, this`decisions, metrics
      ensures View() == Decide(old(View()), id, outcome)
    {
      match outcome {
        case SnrDropped => metrics.RecordSnrDrop();
        case LinkLost => metrics.RecordLinkLoss();
        case AdvDropped => metrics.RecordAdversarialDrop();
        case AdvCaptured => metrics.RecordAdversarialReplay();
        case HalfDuplex(blocker) => metrics.RecordHalfDuplexDrop(blocker);
        case Collided(loss) => metrics.RecordCollision(loss);
        case Received(receiver) => metrics.RecordRx(receiver);
        case NoAgent =>
      }
      decisions := decisions[id := Decision(tasks[id], now, outcome)];
      tasks := tasks - {id};
    }

    /** What the filter's bit flips make of a delivery's packet. */
    ghost function CorruptionOf(t: Task, k: nat, draws: Draws): Bytes
      requires k < |setup.adversaries|
    {
      Corrupted(t.packet, setup.adversaries[k].1.corruptByteCount, draws)
    }

    /** First part of `_deliver_to`. */
    method BeginDelivery(id: nat, lossDraw: real, advDraw: real, draws: Draws)
      requires Valid() && id in tasks
      modifies this, metrics, filters
      ensures Valid()
      ensures var k := FilterIndex(setup, old(tasks)[id].link.other);
              View() == Begin(setup, old(View()), id, lossDraw, advDraw,
                              if k.Some? then CorruptionOf(old(tasks)[id], k.value, draws) else [])
    {
      var t := tasks[id];
      if t.link.snr < SnrThreshold(setup.radio.sf) {
        End(id, SnrDropped);
        return;
      }
      if t.link.loss > 0.0 && lossDraw < t.link.loss {
        End(id, LinkLost);
        return;
      }
      var k := FilterIndex(setup, t.link.other);
      if k.Some? && advDraw < filters[k.value].config.probability {
        ApplyFilter(id, k.value, draws);
      } else {
        GoToSleep(id, t.packet);
      }
    }

    /** Ask one filter, and what that does to the router's state. */
    method AskFilter(k: nat, packet: Bytes, id: nat, draws: Draws) returns (result: Option<Bytes>)
      requires Valid() && k < |filters|
      modifies filters[k]
      ensures var cfg, w := setup.adversaries[k].1, old(View());
              View() == (if cfg.mode == "replay"
                         then w.(buffers := w.buffers[k := w.buffers[k] +
                                   [Replayed(w.now + cfg.replayDelayMs / 1000.0, packet, id)]])
                         else w) &&
              result == if cfg.mode == "drop" || cfg.mode == "replay" then None
                        else if cfg.mode == "corrupt" then Some(Corrupted(packet, cfg.corruptByteCount, draws))
                        else Some(packet)
    {
      ghost var bs := Buffers(filters);
      result := filters[k].FilterPacket(packet, now, id, draws);
      assert Buffers(filters) == bs[k := filters[k].replayBuffer];
      assert bs[k := bs[k]] == bs;
    }

    /** The adversarial filter of the receiving node. */
    method ApplyFilter(id: nat, k: nat, draws: Draws)
      requires Valid() && id in tasks && k < |filters|
      modifies this, metrics, filters
      ensures Valid() && View() == Filtered(setup, old(View()), id, k, CorruptionOf(old(tasks)[id], k, draws))
    {
      var result := AskFilter(k, tasks[id].packet, id, draws);
      if result == None {
        if filters[k].config.mode == "replay" {
          End(id, AdvCaptured);
        } else {
          End(id, AdvDropped);
        }
      } else {
        metrics.RecordAdversarialCorrupt();
        GoToSleep(id, result.value);
      }
    }

    /** Sleep until the end of the transmission plus the propagation delay. */
    method GoToSleep(id: nat, packet: Bytes)
      requires id in tasks
      modifies this`tasks
      ensures View() == Sleep(old(View()), id, packet)
    {
      var t := tasks[id];
      var until := now;
      if t.window.Some? {
        var wait := MaxReal(t.window.value.1 + t.link.latencyMs / 1000.0 - now, 0.0);
        until := now + wait;
      } else if t.link.latencyMs > 0.0 {
        until := now + t.link.latencyMs / 1000.0;
      }
      tasks := tasks[id := t.(packet := packet, stage := Waiting(until))];
    }

    /** The half-duplex check, the collision check, and whether anyone is there to receive. */
    method Judge(t: Task) returns (outcome: Outcome)
      requires Valid()
      ensures outcome == Verdict(setup, channel.active, t)
    {
      var lat := t.link.latencyMs / 1000.0;
      if t.window.Some? {
        var rxStart, rxEnd := t.window.value.0 + lat, t.window.value.1 + lat;
        var busy := channel.IsReceiverBusy(t.link.other, rxStart, rxEnd);
        if busy.Some? {
          return HalfDuplex(busy.value.id);
        }
      }
      if t.txId.Some? && t.window.Some? {
        var loss := channel.IsLost(Flight(t.sender, t.link.other, t.window.value.0, t.window.value.1, t.txId.value));
        if loss.Some? {
          return Collided(loss.value);
        }
      }
      if t.link.other !in setup.agents {
        return NoAgent;
      }
      return Received(t.link.other);
    }

    /** What the tracer is told of a judged delivery. */
    method TraceVerdict(t: Task, outcome: Outcome)
      requires tracer.Valid() && IsVerdict(outcome)
      modifies tracer
      ensures tracer.Valid() && tracer.txCounter == old(tracer.txCounter)
      ensures tracer.calls == old(tracer.calls) + [VerdictCall(t, now, outcome)]
    {
      var hex, receiver := Packet.Hex(t.packet), t.link.other;
      match outcome {
        case HalfDuplex(blocker) => tracer.RecordHalfduplex(t.sender, receiver, hex, now, t.txId, Some(blocker));
        case Collided(loss) =>
          tracer.RecordCollision(t.sender, receiver, hex, now, t.txId,
                                 Some(loss.interferer), Some(loss.interfererId), loss.overlap);
        case Received(_) => tracer.RecordRx(t.sender, receiver, hex, now, t.txId);
        case NoAgent => tracer.RecordRx(t.sender, receiver, hex, now, t.txId);
      }
    }

    /** Second part of `_deliver_to`. */
    method FinishDelivery(id: nat)
      requires Valid() && tracer.Valid() && Enabled(View(), DoFinish(id))
      modifies this, metrics, tracer
      ensures Valid() && tracer.Valid() && View() == Finish(setup, old(View()), id)
      ensures tracer.calls == old(tracer.calls) + Calls(setup, old(View()), DoFinish(id))
    {
      var outcome := Judge(tasks[id]);
      TraceVerdict(tasks[id], outcome);
      End(id, outcome);
    }

    /** The replays of one adversary, each to all its neighbours. */
    method EmitAll(name: string, due: seq<Replayed>)
      modifies this`tasks, this`nextTask, this`drained
      ensures View() == Emit(setup, old(View()), name, due)
    {
      assert due[..0] == [];
      for i := 0 to |due|
        invariant View() == Emit(setup, old(View()), name, due[..i])
      {
        assert due[..i + 1][..i] == due[..i];
        drained := drained[due[i].source := now];
        CreateTasks(name, Neighbours(setup, name), due[i].packet, None, None);
      }
      assert due[..|due|] == due;
    }

    /** What is due in one filter leaves its buffer. */
    method DrainFilter(k: nat)
      requires Valid() && k < |filters|
      modifies this, filters
      ensures Valid() && View() == DrainOne(setup, old(View()), k)
    {
      ghost var bs := Buffers(filters);
      var ready := filters[k].DrainReplays(now);
      assert Buffers(filters) == bs[k := NotDue(bs[k], now)];
      EmitAll(setup.adversaries[k].0, ready);
    }

    /** One pass of `run_replay_drainer` over all filters. */
    method DrainReplays()
      requires Valid()
      modifies this, filters
      ensures Valid() && View() == DrainUpTo(setup, old(View()), |setup.adversaries|)
    {
      for k := 0 to |filters|
        invariant Valid() && View() == DrainUpTo(setup, old(View()), k)
      {
        DrainFilter(k);
      }
    }
  }
}
