/** The packet router as a machine of atomic steps.
  *
  * Between two awaits nothing else runs, so a step is what one coroutine does from one await
  * to the next: hearing of a transmission, creating its deliveries, starting one delivery,
  * deciding it, draining replays.  Which step comes next, how far the clock moves and what
  * the random draws say are arbitrary.
  */
module RouterModel {
  import opened Common
  import opened Channel
  import opened TopologyConfig
  import opened Topology
  import OrderedDict
  import Airtime
  import Packet

  type Bytes = seq<Byte>

  // ---- The fixed surroundings -----------------------------------------------

  /** `adversaries` lists the nodes with a filter, in the order the router holds them. */
  datatype SetupFields = SetupFields(
    links: Adjacency, agents: set<string>, adversaries: seq<(string, AdversarialConfig)>, radio: RadioConfig)

  type Setup = s: SetupFields |
    7 <= s.radio.sf <= 12 && s.radio.bwHz > 0 && s.radio.preambleSymbols >= 0
    witness SetupFields(map[], {}, [], DEFAULT_RADIO)

  /** One agent per node, by name; of nodes with the same name the last is used. */
  function Agents(ns: seq<NodeConfig>): OrderedDict.Dict<string, NodeConfig> {
    if ns == [] then []
    else
      var last := ns[|ns| - 1];
      OrderedDict.Put(Agents(ns[..|ns| - 1]), last.name, last)
  }

  /** The agents with an adversarial configuration, in their order. */
  function Adversaries(agents: OrderedDict.Dict<string, NodeConfig>): seq<(string, AdversarialConfig)> {
    if agents == [] then []
    else
      var (name, node) := agents[|agents| - 1];
      Adversaries(agents[..|agents| - 1]) + if node.adversarial.Some? then [(name, node.adversarial.value)] else []
  }

  /** What the simulation hands to the router for a configuration, unless an edge has an unknown end. */
  function Wired(t: TopologyConfig): Option<SetupFields> {
    match Links(t)
    case None => None
    case Some(links) =>
      Some(SetupFields(links, set n | n in t.nodes :: n.name, Adversaries(Agents(t.nodes)),
                       if t.radio.Some? then t.radio.value else DEFAULT_RADIO))
  }

  function Neighbours(s: Setup, name: string): seq<EdgeLink> {
    if name in s.links then s.links[name] else []
  }

  /** A dictionary from neighbour to a property of the link; of parallel links the last counts. */
  function LinkTable(links: seq<EdgeLink>, property: EdgeLink -> real): map<string, real> {
    if links == [] then map[]
    else
      var last := links[|links| - 1];
      LinkTable(links[..|links| - 1], property)[last.other := property(last)]
  }

  /** The channel the simulation builds from its topology. */
  function ChannelOf(s: Setup): Config {
    ChannelConfig(map n | n in s.links :: LinkTable(s.links[n], (l: EdgeLink) => l.snr),
                  map n | n in s.links :: LinkTable(s.links[n], (l: EdgeLink) => l.latencyMs),
                  s.radio.sf, s.radio.bwHz, s.radio.cr, 6.0, s.radio.preambleSymbols)
  }

  function AirMillis(s: Setup, packet: Bytes): real {
    Airtime.LoraAirtimeMs(s.radio.sf, s.radio.bwHz, s.radio.cr, |packet|, s.radio.preambleSymbols, true, true)
  }

  function AirSeconds(s: Setup, packet: Bytes): real {
    AirMillis(s, packet) / 1000.0
  }

  /** `SNR_THRESHOLD` */
  function SnrThreshold(sf: int): real {
    if sf == 7 then -7.5 else if sf == 8 then -10.0 else if sf == 9 then -12.5
    else if sf == 10 then -15.0 else if sf == 11 then -17.5 else -20.0
  }

  function FilterIndex(s: Setup, node: string): Option<nat> {
    FilterFrom(s.adversaries, node, 0)
  }

  function FilterFrom(advs: seq<(string, AdversarialConfig)>, node: string, i: nat): (r: Option<nat>)
    requires i <= |advs|
    ensures r.Some? ==> i <= r.value < |advs| && advs[r.value].0 == node
    decreases |advs| - i
  {
    if i == |advs| then None
    else if advs[i].0 == node then Some(i)
    else FilterFrom(advs, node, i + 1)
  }

  // ---- State ----------------------------------------------------------------

  datatype Stage = Created | Waiting(until: real)

  /** One delivery coroutine.  `window` is the sender-side transmission time, absent for replays. */
  datatype Task = Task(
    sender: string, link: EdgeLink, packet: Bytes, txId: Option<nat>, window: Option<(real, real)>, stage: Stage)

  /** How a delivery ended.  `NoAgent` is a receiver without a process: it is not counted. */
  datatype Outcome =
    | SnrDropped
    | LinkLost
    | AdvDropped
    | AdvCaptured
    | HalfDuplex(blocker: nat)
    | Collided(loss: Loss)
    | Received(receiver: string)
    | NoAgent

  /** The outcomes of a delivery that got as far as being judged. */
  predicate IsVerdict(o: Outcome) {
    o.HalfDuplex? || o.Collided? || o.Received? || o.NoAgent?
  }

  datatype Decision = Decision(task: Task, at: real, outcome: Outcome)

  /** A buffered packet; `source` names the delivery it was captured from, and nothing reads it. */
  datatype Replayed = Replayed(emitAt: real, packet: Bytes, source: nat)

  /** A transmission whose deliveries have not been created yet. */
  datatype Broadcast = Broadcast(sender: string, packet: Bytes, txId: Option<nat>, start: real, end: real)

  datatype Ledger = Ledger(
    tx: map<string, nat>, rx: map<string, nat>, linkLoss: nat, advDrop: nat, advCorrupt: nat,
    advReplay: nat, collision: nat, halfDuplex: nat, snrDrop: nat)

  /** `history`, `decisions` and `drained` are the record the theorems speak of; no step reads them. */
  datatype World = World(
    now: real, txCounter: nat, active: seq<Tx>, broadcasts: seq<Broadcast>,
    tasks: map<nat, Task>, nextTask: nat, buffers: seq<seq<Replayed>>, ledger: Ledger,
    history: seq<Tx>, decisions: map<nat, Decision>, drained: map<nat, real>)

  function Initial(s: Setup, now: real): World {
    World(now, 0, [], [], map[], 0, seq(|s.adversaries|, _ => []),
          Ledger(map[], map[], 0, 0, 0, 0, 0, 0, 0), [], map[], map[])
  }

  // ---- Counters -------------------------------------------------------------

  function Bump(m: map<string, nat>, k: string): map<string, nat> {
    m[k := (if k in m then m[k] else 0) + 1]
  }

  function Record(l: Ledger, o: Outcome): Ledger {
    match o
    case SnrDropped => l.(snrDrop := l.snrDrop + 1)
    case LinkLost => l.(linkLoss := l.linkLoss + 1)
    case AdvDropped => l.(advDrop := l.advDrop + 1)
    case AdvCaptured => l.(advReplay := l.advReplay + 1)
    case HalfDuplex(_) => l.(halfDuplex := l.halfDuplex + 1)
    case Collided(_) => l.(collision := l.collision + 1)
    case Received(r) => l.(rx := Bump(l.rx, r))
    case NoAgent => l
  }

  // ---- Steps ----------------------------------------------------------------

  /** The delivery ends. */
  function Decide(w: World, id: nat, o: Outcome): World
    requires id in w.tasks
  {
    w.(tasks := w.tasks - {id}, ledger := Record(w.ledger, o),
       decisions := w.decisions[id := Decision(w.tasks[id], w.now, o)])
  }

  function AddTask(w: World, t: Task): World {
    w.(tasks := w.tasks[w.nextTask := t], nextTask := w.nextTask + 1)
  }

  function AddTasks(w: World, sender: string, links: seq<EdgeLink>, packet: Bytes,
                    txId: Option<nat>, window: Option<(real, real)>): World {
    if links == [] then w
    else AddTask(AddTasks(w, sender, links[..|links| - 1], packet, txId, window),
                 Task(sender, links[|links| - 1], packet, txId, window, Created))
  }

  /** First part of `_on_tx`: count, time, trace, register and prune. */
  function Transmit(s: Setup, w: World, sender: string, packet: Bytes): World {
    TransmitUntil(w, sender, packet, w.now + AirSeconds(s, packet), Packet.DecodeRaw(packet).Some?)
  }

  /** A numbered transmission enters the channel; the deliveries of any are left for later. */
  function Enqueued(w: World, sender: string, packet: Bytes, txId: Option<nat>, end: real): World {
    var w1 := w.(broadcasts := w.broadcasts + [Broadcast(sender, packet, txId, w.now, end)]);
    match txId
    case None => w1
    case Some(id) =>
      var q := Tx(id, sender, w.now, end);
      w1.(active := Kept(Registered(w.active, q), w.now - 5.0), history := w.history + [q])
  }

  /** The transmission lasts until `end`; only a packet that decodes gets a tx_id. */
  function TransmitUntil(w: World, sender: string, packet: Bytes, end: real, decodes: bool): World {
    var w1 := w.(ledger := w.ledger.(tx := Bump(w.ledger.tx, sender)));
    if decodes then Enqueued(w1.(txCounter := w.txCounter + 1), sender, packet, Some(w.txCounter + 1), end)
    else Enqueued(w1, sender, packet, None, end)
  }

  /** Second part of `_on_tx`: one delivery per neighbour. */
  function Spawn(s: Setup, w: World, i: nat): World
    requires i < |w.broadcasts|
  {
    var b := w.broadcasts[i];
    AddTasks(w.(broadcasts := w.broadcasts[..i] + w.broadcasts[i + 1..]),
             b.sender, Neighbours(s, b.sender), b.packet, b.txId, Some((b.start, b.end)))
  }

  /** When the delivery's sleep is over: the end of the transmission plus the link's latency. */
  function WakeTime(w: World, t: Task): real {
    match t.window
    case Some(win) => MaxReal(w.now, win.1 + t.link.latencyMs / 1000.0)
    case None => if t.link.latencyMs > 0.0 then w.now + t.link.latencyMs / 1000.0 else w.now
  }

  function Sleep(w: World, id: nat, packet: Bytes): World
    requires id in w.tasks
  {
    var t := w.tasks[id];
    w.(tasks := w.tasks[id := t.(packet := packet, stage := Waiting(WakeTime(w, t)))])
  }

  /** The filter of adversary `k` on a delivery it applies to. */
  function Filtered(s: Setup, w: World, id: nat, k: nat, corrupted: Bytes): World
    requires id in w.tasks && k < |s.adversaries| && |w.buffers| == |s.adversaries|
  {
    var t, cfg := w.tasks[id], s.adversaries[k].1;
    if cfg.mode == "drop" then Decide(w, id, AdvDropped)
    else if cfg.mode == "replay" then
      var r := Replayed(w.now + cfg.replayDelayMs / 1000.0, t.packet, id);
      Decide(w.(buffers := w.buffers[k := w.buffers[k] + [r]]), id, AdvCaptured)
    else
      Sleep(w.(ledger := w.ledger.(advCorrupt := w.ledger.advCorrupt + 1)), id,
            if cfg.mode == "corrupt" then corrupted else t.packet)
  }

  /** First part of `_deliver_to`: decode gate, link loss, adversarial filter. */
  function Begin(s: Setup, w: World, id: nat, lossDraw: real, advDraw: real, corrupted: Bytes): World
    requires id in w.tasks && |w.buffers| == |s.adversaries|
  {
    var t := w.tasks[id];
    if t.link.snr < SnrThreshold(s.radio.sf) then Decide(w, id, SnrDropped)
    else if t.link.loss > 0.0 && lossDraw < t.link.loss then Decide(w, id, LinkLost)
    else
      match FilterIndex(s, t.link.other)
      case Some(k) =>
        if advDraw < s.adversaries[k].1.probability then Filtered(s, w, id, k, corrupted)
        else Sleep(w, id, t.packet)
      case None => Sleep(w, id, t.packet)
  }

  /** What the channel and the agents say of a delivery, given a store of transmissions. */
  function Verdict(s: Setup, store: seq<Tx>, t: Task): Outcome {
    var receiver, lat := t.link.other, t.link.latencyMs / 1000.0;
    var busy := if t.window.Some?
                then FirstBusy(store, receiver, t.window.value.0 + lat, t.window.value.1 + lat)
                else None;
    if busy.Some? then HalfDuplex(busy.value.id)
    else
      var loss := if t.window.Some? && t.txId.Some? then FirstLoss(ChannelOf(s), store, FlightOf(t)) else None;
      if loss.Some? then Collided(loss.value)
      else if receiver in s.agents then Received(receiver)
      else NoAgent
  }

  function FlightOf(t: Task): Flight
    requires t.window.Some? && t.txId.Some?
  {
    Flight(t.sender, t.link.other, t.window.value.0, t.window.value.1, t.txId.value)
  }

  /** Second part of `_deliver_to`, after the sleep. */
  function Finish(s: Setup, w: World, id: nat): World
    requires id in w.tasks
  {
    Decide(w, id, Verdict(s, w.active, w.tasks[id]))
  }

  // ---- Replays --------------------------------------------------------------

  function Due(b: seq<Replayed>, now: real): seq<Replayed> {
    if b == [] then []
    else (if now >= b[0].emitAt then [b[0]] else []) + Due(b[1..], now)
  }

  function NotDue(b: seq<Replayed>, now: real): seq<Replayed> {
    if b == [] then []
    else (if now < b[0].emitAt then [b[0]] else []) + NotDue(b[1..], now)
  }

  function DueAt(now: real): Replayed -> bool {
    (r: Replayed) => now >= r.emitAt
  }

  function WaitingAt(now: real): Replayed -> bool {
    (r: Replayed) => now < r.emitAt
  }

  lemma {:induction false} DueSelects(b: seq<Replayed>, now: real)
    ensures IsSelection(Due(b, now), b, DueAt(now))
  {
    if b == [] {
      NothingSelected(DueAt(now));
    } else {
      DueSelects(b[1..], now);
      assert b == [b[0]] + b[1..];
      if now >= b[0].emitAt {
        TakeFirst(Due(b[1..], now), b[1..], DueAt(now), b[0]);
      } else {
        SkipFirst(Due(b[1..], now), b[1..], DueAt(now), b[0]);
        assert [] + Due(b[1..], now) == Due(b[1..], now);
      }
    }
  }

  lemma {:induction false} NotDueSelects(b: seq<Replayed>, now: real)
    ensures IsSelection(NotDue(b, now), b, WaitingAt(now))
  {
    if b == [] {
      NothingSelected(WaitingAt(now));
    } else {
      NotDueSelects(b[1..], now);
      assert b == [b[0]] + b[1..];
      if now < b[0].emitAt {
        TakeFirst(NotDue(b[1..], now), b[1..], WaitingAt(now), b[0]);
      } else {
        SkipFirst(NotDue(b[1..], now), b[1..], WaitingAt(now), b[0]);
        assert [] + NotDue(b[1..], now) == NotDue(b[1..], now);
      }
    }
  }

  /** Each due packet goes to every neighbour of the adversary. */
  function Emit(s: Setup, w: World, name: string, due: seq<Replayed>): (w': World)
    ensures w'.buffers == w.buffers && w'.now == w.now
  {
    if due == [] then w
    else
      var w1 := Emit(s, w, name, due[..|due| - 1]);
      var r := due[|due| - 1];
      AddTasksKeeps(w1.(drained := w1.drained[r.source := w1.now]), name, Neighbours(s, name), r.packet, None, None);
      AddTasks(w1.(drained := w1.drained[r.source := w1.now]), name, Neighbours(s, name), r.packet, None, None)
  }

  /** Creating deliveries changes nothing but the deliveries. */
  lemma {:induction false} AddTasksKeeps(w: World, sender: string, links: seq<EdgeLink>, packet: Bytes,
                                         txId: Option<nat>, window: Option<(real, real)>)
    ensures var w' := AddTasks(w, sender, links, packet, txId, window);
            w' == w.(tasks := w'.tasks, nextTask := w'.nextTask)
  {
    if links != [] {
      AddTasksKeeps(w, sender, links[..|links| - 1], packet, txId, window);
    }
  }

  /** The drainer at one filter. */
  function DrainOne(s: Setup, w: World, k: nat): (w': World)
    requires k < |s.adversaries| && |w.buffers| == |s.adversaries|
    ensures |w'.buffers| == |s.adversaries| && w'.now == w.now
  {
    Emit(s, w.(buffers := w.buffers[k := NotDue(w.buffers[k], w.now)]), s.adversaries[k].0, Due(w.buffers[k], w.now))
  }

  /** The drainer's pass over the first `k` filters. */
  function DrainUpTo(s: Setup, w: World, k: nat): (w': World)
    requires k <= |s.adversaries| && |w.buffers| == |s.adversaries|
    ensures |w'.buffers| == |s.adversaries| && w'.now == w.now
  {
    if k == 0 then w else DrainOne(s, DrainUpTo(s, w, k - 1), k - 1)
  }

  // ---- Runs -----------------------------------------------------------------

  datatype Step =
    | Tick(dt: real)
    | DoTransmit(sender: string, packet: Bytes)
    | DoSpawn(i: nat)
    | DoBegin(id: nat, lossDraw: real, advDraw: real, corrupted: Bytes)
    | DoFinish(id: nat)
    | DoDrain

  predicate Enabled(w: World, a: Step) {
    match a
    case Tick(dt) => dt >= 0.0
    case DoTransmit(_, _) => true
    case DoSpawn(i) => i < |w.broadcasts|
    case DoBegin(id, _, _, _) => id in w.tasks && w.tasks[id].stage == Created
    case DoFinish(id) => id in w.tasks && w.tasks[id].stage.Waiting? && w.now >= w.tasks[id].stage.until
    case DoDrain => true
  }

  function Apply(s: Setup, w: World, a: Step): World
    requires Enabled(w, a) && |w.buffers| == |s.adversaries|
  {
    match a
    case Tick(dt) => w.(now := w.now + dt)
    case DoTransmit(sender, packet) => Transmit(s, w, sender, packet)
    case DoSpawn(i) => Spawn(s, w, i)
    case DoBegin(id, lossDraw, advDraw, corrupted) => Begin(s, w, id, lossDraw, advDraw, corrupted)
    case DoFinish(id) => Finish(s, w, id)
    case DoDrain => DrainUpTo(s, w, |s.adversaries|)
  }

  lemma ApplyKeepsBuffers(s: Setup, w: World, a: Step)
    requires Enabled(w, a) && |w.buffers| == |s.adversaries|
    ensures |Apply(s, w, a).buffers| == |s.adversaries|
  {
    if a.DoSpawn? {
      var b := w.broadcasts[a.i];
      AddTasksKeeps(w.(broadcasts := w.broadcasts[..a.i] + w.broadcasts[a.i + 1..]),
                    b.sender, Neighbours(s, b.sender), b.packet, b.txId, Some((b.start, b.end)));
    }
  }

  /** Where a sequence of steps leads, if each of them was possible when it was taken. */
  function Reach(s: Setup, start: real, steps: seq<Step>): (w: Option<World>)
    ensures w.Some? ==> |w.value.buffers| == |s.adversaries|
  {
    if steps == [] then Some(Initial(s, start))
    else
      var a := steps[|steps| - 1];
      match Reach(s, start, steps[..|steps| - 1])
      case None => None
      case Some(w) =>
        if Enabled(w, a) then ApplyKeepsBuffers(s, w, a); Some(Apply(s, w, a)) else None
  }
}
