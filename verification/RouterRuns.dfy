/** Runs of the router that show where its verdicts go wrong. */
module RouterRuns {
  import opened Common
  import opened Channel
  import opened Collision
  import opened Topology
  import opened RouterModel
  import opened RouterVerdicts
  import opened TopologyConfig
  import OrderedDict
  import Airtime
  import Packet

  lemma OneMoreStep(s: Setup, start: real, steps: seq<Step>, w: World, a: Step)
    requires Reach(s, start, steps) == Some(w) && Enabled(w, a) && |w.buffers| == |s.adversaries|
    ensures Reach(s, start, steps + [a]) == Some(Apply(s, w, a))
  {
    assert (steps + [a])[..|steps|] == steps;
  }

  lemma TransmitIs(s: Setup, w: World, sender: string, packet: Bytes, end: real)
    requires end == w.now + AirSeconds(s, packet) && Packet.DecodeRaw(packet).Some?
    ensures Transmit(s, w, sender, packet) == TransmitUntil(w, sender, packet, end, true)
  {
  }

  lemma OneMoreTransmit(s: Setup, start: real, steps: seq<Step>, w: World, sender: string, packet: Bytes, end: real)
    requires Reach(s, start, steps) == Some(w) && |w.buffers| == |s.adversaries|
    requires Transmit(s, w, sender, packet) == TransmitUntil(w, sender, packet, end, true)
    ensures Reach(s, start, steps + [DoTransmit(sender, packet)]) == Some(TransmitUntil(w, sender, packet, end, true))
  {
    OneMoreStep(s, start, steps, w, DoTransmit(sender, packet));
  }

  lemma OneMoreTick(s: Setup, start: real, steps: seq<Step>, w: World, dt: real)
    requires Reach(s, start, steps) == Some(w) && |w.buffers| == |s.adversaries| && dt >= 0.0
    ensures Reach(s, start, steps + [Tick(dt)]) == Some(w.(now := w.now + dt))
  {
    OneMoreStep(s, start, steps, w, Tick(dt));
  }

  lemma OneMoreFinish(s: Setup, start: real, steps: seq<Step>, w: World, id: nat, o: Outcome)
    requires Reach(s, start, steps) == Some(w) && |w.buffers| == |s.adversaries| && Enabled(w, DoFinish(id))
    requires Verdict(s, w.active, w.tasks[id]) == o
    ensures Reach(s, start, steps + [DoFinish(id)]) == Some(Decide(w, id, o))
  {
    OneMoreStep(s, start, steps, w, DoFinish(id));
  }

  // ---- Configurations -------------------------------------------------------

  function Node(name: string): NodeConfig {
    NodeConfig(name, false, false, None, None, None, None, None, None)
  }

  function Edge(a: string, b: string, latencyMs: real): EdgeConfig {
    EdgeConfig(a, b, 0.0, latencyMs, 10.0, None, None)
  }

  const SIMULATION := SimulationConfig(5.0, 60.0, 10.0, 30.0, 0, DEFAULT_BINARY, None, JNull)

  // ---- Parallel links -------------------------------------------------------

  /** Two edges between a and r, the slower one listed last, and one between b and r. */
  const PARALLEL_FILE := TopologyConfig(
    [Node("a"), Node("b"), Node("r")], [Edge("a", "r", 0.0), Edge("a", "r", 2000.0), Edge("b", "r", 0.0)],
    SIMULATION, None)

  const PARALLEL: Setup := SetupFields(
    map["a" := [EdgeLink("r", 0.0, 0.0, 10.0), EdgeLink("r", 0.0, 2000.0, 10.0)],
        "b" := [EdgeLink("r", 0.0, 0.0, 10.0)],
        "r" := [EdgeLink("a", 0.0, 0.0, 10.0), EdgeLink("a", 0.0, 2000.0, 10.0), EdgeLink("b", 0.0, 0.0, 10.0)]],
    {"a", "b", "r"}, [], DEFAULT_RADIO)

  lemma NobodyHostile(ns: seq<NodeConfig>)
    requires forall n :: n in ns ==> n.adversarial == None
    ensures Adversaries(Agents(ns)) == [] && forall e :: e in Agents(ns) ==> e.1.adversarial == None
  {
    if ns != [] {
      NobodyHostile(ns[..|ns| - 1]);
      NoAdversaries(Agents(ns));
    }
  }

  lemma NoAdversaries(agents: OrderedDict.Dict<string, NodeConfig>)
    requires forall e :: e in agents ==> e.1.adversarial == None
    ensures Adversaries(agents) == []
  {
  }

  /** One more edge, without overrides. */
  lemma OneMoreEdge(adj: Adjacency, es: seq<EdgeConfig>, e: EdgeConfig, front: Adjacency)
    requires AddEdges(adj, es) == Some(front) && e.a in front && e.b in front && e.a != e.b
    requires e.aToB == None && e.bToA == None
    ensures AddEdges(adj, es + [e]) ==
            Some(front[e.a := front[e.a] + [EdgeLink(e.b, e.loss, e.latencyMs, e.snr)]]
                      [e.b := front[e.b] + [EdgeLink(e.a, e.loss, e.latencyMs, e.snr)]])
  {
    assert (es + [e])[..|es|] == es;
  }

  lemma NoLinksYet(ns: seq<NodeConfig>, a: string, b: string, c: string)
    requires ns == [Node(a), Node(b), Node(c)]
    ensures EmptyAdjacency(ns) == map[a := [], b := [], c := []]
    ensures (set n | n in ns :: n.name) == {a, b, c}
  {
    assert ns[0] in ns && ns[1] in ns && ns[2] in ns;
    assert (set n | n in ns :: n.name) == {a, b, c};
    assert EmptyAdjacency(ns).Keys == {a, b, c};
  }

  lemma NamesDiffer()
    ensures "a" != "b" && "a" != "c" && "a" != "r" && "b" != "r" && "c" != "r"
  {
    assert "a"[0] != "b"[0] && "a"[0] != "c"[0] && "a"[0] != "r"[0] && "b"[0] != "r"[0] && "c"[0] != "r"[0];
  }

  lemma WiredIs(t: TopologyConfig, links: Adjacency, agents: set<string>)
    requires AddEdges(EmptyAdjacency(t.nodes), t.edges) == Some(links) && agents == set n | n in t.nodes :: n.name
    requires forall n :: n in t.nodes ==> n.adversarial == None
    ensures Wired(t) == Some(SetupFields(links, agents, [], if t.radio.Some? then t.radio.value else DEFAULT_RADIO))
  {
    NobodyHostile(t.nodes);
  }

  lemma ParallelWired()
    ensures Wired(PARALLEL_FILE) == Some(PARALLEL)
  {
    NoLinksYet(PARALLEL_FILE.nodes, "a", "b", "r");
    ParallelLinks();
    WiredIs(PARALLEL_FILE, PARALLEL.links, PARALLEL.agents);
  }

  /** The adjacency while the edges are read. */
  function Three(a: seq<EdgeLink>, b: seq<EdgeLink>, r: seq<EdgeLink>): Adjacency {
    map["a" := a, "b" := b, "r" := r]
  }

  lemma ThreeUpdated(a: seq<EdgeLink>, b: seq<EdgeLink>, r: seq<EdgeLink>, l: EdgeLink, l': EdgeLink)
    ensures Three(a, b, r)["a" := a + [l]]["r" := r + [l']] == Three(a + [l], b, r + [l'])
    ensures Three(a, b, r)["b" := b + [l]]["r" := r + [l']] == Three(a, b + [l], r + [l'])
    ensures Three(a, b, r)["a"] == a && Three(a, b, r)["b"] == b && Three(a, b, r)["r"] == r
  {
    NamesDiffer();
  }

  lemma ParallelLinks()
    ensures AddEdges(map["a" := [], "b" := [], "r" := []], PARALLEL_FILE.edges) == Some(PARALLEL.links)
  {
    NamesDiffer();
    var e1, e2, e3 := Edge("a", "r", 0.0), Edge("a", "r", 2000.0), Edge("b", "r", 0.0);
    var toR, toA, toB := EdgeLink("r", 0.0, 0.0, 10.0), EdgeLink("a", 0.0, 0.0, 10.0), EdgeLink("b", 0.0, 0.0, 10.0);
    var slowToR, slowToA := EdgeLink("r", 0.0, 2000.0, 10.0), EdgeLink("a", 0.0, 2000.0, 10.0);
    var none := Three([], [], []);
    OneMoreEdge(none, [], e1, none);
    ThreeUpdated([], [], [], toR, toA);
    assert AddEdges(none, [] + [e1]) == Some(Three([] + [toR], [], [] + [toA]));
    OneMoreEdge(none, [] + [e1], e2, Three([] + [toR], [], [] + [toA]));
    ThreeUpdated([] + [toR], [], [] + [toA], slowToR, slowToA);
    OneMoreEdge(none, [] + [e1] + [e2], e3, Three([] + [toR] + [slowToR], [], [] + [toA] + [slowToA]));
    ThreeUpdated([] + [toR] + [slowToR], [], [] + [toA] + [slowToA], toR, toB);
    assert [] + [e1] + [e2] + [e3] == PARALLEL_FILE.edges;
    assert AddEdges(none, PARALLEL_FILE.edges) ==
           Some(Three([] + [toR] + [slowToR], [] + [toR], [] + [toA] + [slowToA] + [toB]));
    assert [] + [toR] + [slowToR] == [toR, slowToR] && [] + [toR] == [toR];
    assert [] + [toA] + [slowToA] + [toB] == [toA, slowToA, toB];
    assert Three([toR, slowToR], [toR], [toA, slowToA, toB]) == PARALLEL.links;
  }

  lemma ParallelChannel()
    ensures LatencyS(ChannelOf(PARALLEL), "a", "r") == 2.0 && LatencyS(ChannelOf(PARALLEL), "b", "r") == 0.0
    ensures Channel.Snr(ChannelOf(PARALLEL), "a", "r") == Some(10.0)
    ensures Channel.Snr(ChannelOf(PARALLEL), "b", "r") == Some(10.0)
  {
    var la, lb := PARALLEL.links["a"], PARALLEL.links["b"];
    var lat, snr := (l: EdgeLink) => l.latencyMs, (l: EdgeLink) => l.snr;
    assert la[..1][..0] == [] && la[..1] == [la[0]] && lb[..0] == [];
    assert LinkTable(la, lat)["r"] == 2000.0 && LinkTable(la, snr)["r"] == 10.0;
    assert LinkTable(lb, lat)["r"] == 0.0 && LinkTable(lb, snr)["r"] == 10.0;
  }

  lemma ParallelDeafToItself()
    ensures Channel.Snr(ChannelOf(PARALLEL), "r", "r") == None
  {
    LinkTableKeys(PARALLEL.links["r"], (l: EdgeLink) => l.snr, "r");
  }

  lemma {:induction false} LinkTableKeys(links: seq<EdgeLink>, property: EdgeLink -> real, name: string)
    requires forall l :: l in links ==> l.other != name
    ensures name !in LinkTable(links, property)
  {
    if links != [] {
      LinkTableKeys(links[..|links| - 1], property, name);
    }
  }

  /** The delivery of a's packet over its faster link. */
  function FastDelivery(air: real): Task {
    Task("a", EdgeLink("r", 0.0, 0.0, 10.0), SHORT, Some(1), Some((0.0, air)), Waiting(air))
  }

  lemma ParallelReceived(air: real)
    requires 0.0 < air < 2.0
    ensures Verdict(PARALLEL, [Tx(1, "a", 0.0, air)], FastDelivery(air)) == Received("r")
  {
    var c, f, p := ChannelOf(PARALLEL), Flight("a", "r", 0.0, air, 1), Tx(1, "a", 0.0, air);
    CollisionRule(c, f, p);
    OneInStore(c, f, p);
    BusyExactlyWhen([p], "r", 0.0, air);
  }

  /** Arrivals that begin together, the second audible and as strong, destroy the first. */
  lemma TogetherCollide(c: Config, f: Flight, q: Tx)
    requires q.id != f.id && q.sender != f.sender && RxStart(c, f) == IntStart(c, f, q)
    requires f.end - f.start >= TPreamble(c) && q.end - q.start >= TPreamble(c) && c.captureDb > 0.0
    requires Channel.Snr(c, f.sender, f.receiver) == Channel.Snr(c, q.sender, f.receiver) != None
    ensures Collides(c, f, q).Some?
  {
    Timing(c);
    CollisionRule(c, f, q);
  }

  lemma LossMeansCollided(s: Setup, store: seq<Tx>, t: Task, q: Tx)
    requires t.window.Some? && t.txId.Some? && q in store && Collides(ChannelOf(s), FlightOf(t), q).Some?
    requires forall p :: p in store ==> p.sender != t.link.other
    ensures Verdict(s, store, t).Collided?
  {
    LostExactlyWhen(ChannelOf(s), store, FlightOf(t));
    BusyExactlyWhen(store, t.link.other, t.window.value.0 + Latency(t), t.window.value.1 + Latency(t));
  }

  lemma ParallelCollided(air: real)
    requires TPreamble(ChannelOf(PARALLEL)) <= air < 2.0
    ensures Verdict(PARALLEL, [Tx(1, "a", 0.0, air), Tx(2, "b", 2.0, 2.0 + air)], FastDelivery(air)).Collided?
  {
    ParallelChannel();
    NamesDiffer();
    var p, q := Tx(1, "a", 0.0, air), Tx(2, "b", 2.0, 2.0 + air);
    TogetherCollide(ChannelOf(PARALLEL), FlightOf(FastDelivery(air)), q);
    LossMeansCollided(PARALLEL, [p, q], FastDelivery(air), q);
  }

  lemma ParallelVerdicts(air: real)
    requires 0.0 < TPreamble(ChannelOf(PARALLEL)) <= air < 2.0
    ensures Verdict(PARALLEL, [Tx(1, "a", 0.0, air)], FastDelivery(air)) == Received("r")
    ensures Verdict(PARALLEL, [Tx(1, "a", 0.0, air), Tx(2, "b", 2.0, 2.0 + air)], FastDelivery(air)).Collided?
  {
    ParallelReceived(air);
    ParallelCollided(air);
  }

  lemma ParallelInTime(air: real)
    requires 0.0 < air < 2.0
    ensures InTime(PARALLEL, Decision(FastDelivery(air), air, Received("r")))
  {
    ParallelChannel();
    ParallelDeafToItself();
    Timing(ChannelOf(PARALLEL));
    forall n | CanDestroy(PARALLEL, "a", "r", n)
      ensures LatencyS(ChannelOf(PARALLEL), n, "r") == 0.0
    {
      assert n in PARALLEL.links;
    }
  }

  /** Over a topology with parallel links: the delivery over a's faster link ends at once, and in
    * time; b transmits two seconds later, when the channel believes the reception still goes on.
    */
  lemma ParallelLinksBreakFinality() returns (steps: seq<Step>, more: seq<Step>)
    ensures Wired(PARALLEL_FILE) == Some(PARALLEL)
    ensures Reach(PARALLEL, 0.0, steps).Some? && Reach(PARALLEL, 0.0, steps + more).Some?
    ensures var w, w' := Reach(PARALLEL, 0.0, steps).value, Reach(PARALLEL, 0.0, steps + more).value;
            && 0 in w.decisions && w.decisions[0].outcome == Received("r") && InTime(PARALLEL, w.decisions[0])
            && Verdict(PARALLEL, w.history, w.decisions[0].task) == Received("r")
            && Verdict(PARALLEL, w'.history, w.decisions[0].task).Collided?
  {
    var air := AirSeconds(PARALLEL, SHORT);
    AirSecondsLong(PARALLEL, SHORT);
    Airtime.DefaultRadioIsQuick(2);
    ShortDecodes();
    ParallelWired();
    steps := [DoTransmit("a", SHORT), DoSpawn(0), DoBegin(0, 0.5, 0.5, []), Tick(air), DoFinish(0)];
    more := [Tick(2.0 - air), DoTransmit("b", SHORT)];
    var w := ParallelUntilVerdict(air);
    ParallelVerdicts(air);
    ParallelInTime(air);
    ParallelGoesOn(steps, w, air);
  }

  /** The steps after the verdict. */
  lemma ParallelGoesOn(steps: seq<Step>, w: World, air: real)
    requires air == AirSeconds(PARALLEL, SHORT) && 0.0 < air < 2.0 && Packet.DecodeRaw(SHORT).Some?
    requires Reach(PARALLEL, 0.0, steps) == Some(w) && w.now == air && w.txCounter == 1 && w.buffers == []
    requires w.history == [Tx(1, "a", 0.0, air)]
    ensures var w' := Reach(PARALLEL, 0.0, steps + [Tick(2.0 - air), DoTransmit("b", SHORT)]);
            w'.Some? && w'.value.history == [Tx(1, "a", 0.0, air), Tx(2, "b", 2.0, 2.0 + air)]
  {
    OneMoreTick(PARALLEL, 0.0, steps, w, 2.0 - air);
    var w1 := w.(now := 2.0);
    TransmitIs(PARALLEL, w1, "b", SHORT, 2.0 + air);
    OneMoreTransmit(PARALLEL, 0.0, steps + [Tick(2.0 - air)], w1, "b", SHORT, 2.0 + air);
    assert steps + [Tick(2.0 - air)] + [DoTransmit("b", SHORT)] == steps + [Tick(2.0 - air), DoTransmit("b", SHORT)];
  }

  /** After a's transmission and the start of the delivery over its faster link. */
  ghost predicate Begun(w: World, air: real) {
    w.now == 0.0 && w.txCounter == 1 && w.history == w.active == [Tx(1, "a", 0.0, air)] && w.buffers == [] &&
    0 in w.tasks && w.tasks[0] == FastDelivery(air)
  }

  lemma ParallelSpawned(air: real) returns (w: World)
    requires air == AirSeconds(PARALLEL, SHORT) && air > 0.0 && Packet.DecodeRaw(SHORT).Some?
    ensures Reach(PARALLEL, 0.0, [DoTransmit("a", SHORT), DoSpawn(0)]) == Some(w)
    ensures Begun(w.(tasks := map[0 := FastDelivery(air)]), air)
    ensures 0 in w.tasks && w.tasks[0] == FastDelivery(air).(stage := Created)
  {
    var a1: Step, a2: Step := DoTransmit("a", SHORT), DoSpawn(0);
    var w0 := Initial(PARALLEL, 0.0);
    assert [] + [a1] == [a1] && [a1] + [a2] == [a1, a2];
    TransmitIs(PARALLEL, w0, "a", SHORT, air);
    OneMoreTransmit(PARALLEL, 0.0, [], w0, "a", SHORT, air);
    var w1 := TransmitUntil(w0, "a", SHORT, air, true);
    assert Kept(Registered([], Tx(1, "a", 0.0, air)), -5.0) == [Tx(1, "a", 0.0, air)];
    OneMoreStep(PARALLEL, 0.0, [a1], w1, a2);
    w := Spawn(PARALLEL, w1, 0);
    ParallelSpawn(w1, air);
  }

  lemma ParallelBegun(air: real) returns (w: World)
    requires air == AirSeconds(PARALLEL, SHORT) && air > 0.0 && Packet.DecodeRaw(SHORT).Some?
    ensures Reach(PARALLEL, 0.0, [DoTransmit("a", SHORT), DoSpawn(0), DoBegin(0, 0.5, 0.5, [])]) == Some(w)
    ensures Begun(w, air)
  {
    var steps, a: Step := [DoTransmit("a", SHORT), DoSpawn(0)], DoBegin(0, 0.5, 0.5, []);
    var w0 := ParallelSpawned(air);
    OneMoreStep(PARALLEL, 0.0, steps, w0, a);
    w := Begin(PARALLEL, w0, 0, 0.5, 0.5, []);
    assert steps + [a] == [DoTransmit("a", SHORT), DoSpawn(0), DoBegin(0, 0.5, 0.5, [])];
  }

  lemma ParallelUntilVerdict(air: real) returns (w: World)
    requires air == AirSeconds(PARALLEL, SHORT) && 0.0 < air < 2.0 && Packet.DecodeRaw(SHORT).Some?
    ensures Reach(PARALLEL, 0.0, [DoTransmit("a", SHORT), DoSpawn(0), DoBegin(0, 0.5, 0.5, []), Tick(air), DoFinish(0)])
            == Some(w)
    ensures w.now == air && w.txCounter == 1 && w.history == [Tx(1, "a", 0.0, air)] && w.buffers == []
    ensures 0 in w.decisions && w.decisions[0] == Decision(FastDelivery(air), air, Received("r"))
  {
    var steps := [DoTransmit("a", SHORT), DoSpawn(0), DoBegin(0, 0.5, 0.5, [])];
    var w0 := ParallelBegun(air);
    OneMoreTick(PARALLEL, 0.0, steps, w0, air);
    var w1 := w0.(now := air);
    ParallelReceived(air);
    OneMoreFinish(PARALLEL, 0.0, steps + [Tick(air)], w1, 0, Received("r"));
    w := Decide(w1, 0, Received("r"));
    assert steps + [Tick(air)] + [DoFinish(0)] ==
           [DoTransmit("a", SHORT), DoSpawn(0), DoBegin(0, 0.5, 0.5, []), Tick(air), DoFinish(0)];
  }

  lemma ParallelSpawn(w: World, air: real)
    requires w.broadcasts == [Broadcast("a", SHORT, Some(1), 0.0, air)] && w.tasks == map[] && w.nextTask == 0
    ensures var w' := Spawn(PARALLEL, w, 0);
            && w' == w.(broadcasts := [], tasks := w'.tasks, nextTask := 2)
            && 0 in w'.tasks && w'.tasks[0] == FastDelivery(air).(stage := Created)
  {
    var links, window := PARALLEL.links["a"], Some((0.0, air));
    var w1 := w.(broadcasts := w.broadcasts[..0] + w.broadcasts[1..]);
    assert w1.broadcasts == [] && Neighbours(PARALLEL, "a") == links;
    assert links[..1] == [links[0]] && links[..1][..0] == [];
    assert AddTasks(w1, "a", links[..1][..0], SHORT, Some(1), window) == w1;
    assert AddTasks(w1, "a", links[..1], SHORT, Some(1), window) ==
           AddTask(w1, Task("a", links[0], SHORT, Some(1), window, Created));
  }

  // ---- A pruned store -------------------------------------------------------

  /** The slowest narrow-band setting; a and r hear each other, c is heard by nobody. */
  const SLOW_FILE := TopologyConfig(
    [Node("a"), Node("c"), Node("r")], [Edge("a", "r", 0.0)], SIMULATION,
    Some(RadioConfig(12, 62_500, 4, 8, DEFAULT_NOISE_FLOOR)))

  const SLOW: Setup := SetupFields(
    map["a" := [EdgeLink("r", 0.0, 0.0, 10.0)], "c" := [], "r" := [EdgeLink("a", 0.0, 0.0, 10.0)]],
    {"a", "c", "r"}, [], RadioConfig(12, 62_500, 4, 8, DEFAULT_NOISE_FLOOR))

  lemma SlowWired()
    ensures Wired(SLOW_FILE) == Some(SLOW)
  {
    NoLinksYet(SLOW_FILE.nodes, "a", "c", "r");
    SlowLinks();
    WiredIs(SLOW_FILE, SLOW.links, SLOW.agents);
  }

  lemma SlowLinks()
    ensures AddEdges(map["a" := [], "c" := [], "r" := []], SLOW_FILE.edges) == Some(SLOW.links)
  {
    NamesDiffer();
    var none: Adjacency := map["a" := [], "c" := [], "r" := []];
    var e, toR, toA := Edge("a", "r", 0.0), EdgeLink("r", 0.0, 0.0, 10.0), EdgeLink("a", 0.0, 0.0, 10.0);
    OneMoreEdge(none, [], e, none);
    assert [] + [e] == SLOW_FILE.edges && [] + [toR] == [toR] && [] + [toA] == [toA];
    assert none["a" := [toR]]["r" := [toA]] == SLOW.links;
  }

  function Zeros(n: nat): (z: Bytes)
    ensures |z| == n
  {
    if n == 0 then [] else [0] + Zeros(n - 1)
  }

  /** The longest packet. */
  const FULL: Bytes := SHORT + Zeros(253)

  lemma FullDecodes()
    ensures |FULL| == 255 && Packet.DecodeRaw(FULL).Some?
  {
    assert FULL[0] == 1 && FULL[1] == 0;
  }

  function SlowDelivery(air: real): Task {
    Task("a", EdgeLink("r", 0.0, 0.0, 10.0), FULL, Some(2), Some((0.0, air)), Waiting(air))
  }

  function Own(brief: real): Tx { Tx(1, "r", 0.0, brief) }

  function Heard(air: real): Tx { Tx(2, "a", 0.0, air) }

  function Unheard(brief: real): Tx { Tx(3, "c", 10.0, 10.0 + brief) }

  lemma SlowVerdicts(air: real, brief: real)
    requires 0.0 < brief < 5.0 && air >= 10.0
    ensures Verdict(SLOW, [Heard(air), Unheard(brief)], SlowDelivery(air)) == Received("r")
    ensures Verdict(SLOW, [Own(brief), Heard(air), Unheard(brief)], SlowDelivery(air)) == HalfDuplex(1)
  {
    var c, f := ChannelOf(SLOW), Flight("a", "r", 0.0, air, 2);
    var p, q := Heard(air), Unheard(brief);
    var none: seq<EdgeLink> := SLOW.links["c"];
    assert LinkTable(none, (l: EdgeLink) => l.snr) == map[];
    CollisionRule(c, f, p);
    CollisionRule(c, f, q);
    LostExactlyWhen(c, [p, q], f);
    BusyExactlyWhen([p, q], "r", 0.0, air);
    assert [Own(brief), p, q][0] == Own(brief);
  }

  lemma SlowPruning(air: real, brief: real)
    requires 0.0 < brief < 5.0 && air >= 10.0
    ensures Kept(Registered([], Own(brief)), -5.0) == [Own(brief)]
    ensures Kept(Registered([Own(brief)], Heard(air)), -5.0) == [Own(brief), Heard(air)]
    ensures Kept(Registered([Own(brief), Heard(air)], Unheard(brief)), 5.0) == [Heard(air), Unheard(brief)]
  {
    var o, h, u := Own(brief), Heard(air), Unheard(brief);
    RegisterNew([o], h);
    RegisterNew([o, h], u);
    assert [o] + [h] == [o, h] && [o, h] + [u] == [o, h, u];
    assert [o, h][1..] == [h] && [h][1..] == [] && [o, h, u][1..] == [h, u] && [h, u][1..] == [u] && [u][1..] == [];
    assert Kept([h], -5.0) == [h] && Kept([u], 5.0) == [u];
    assert Kept([h, u], 5.0) == [h, u];
  }

  /** After both transmissions, and the start of the one delivery. */
  ghost predicate BothOnAir(w: World, air: real, brief: real) {
    w.now == 0.0 && w.txCounter == 2 && w.history == w.active == [Own(brief), Heard(air)] && w.buffers == []
  }

  lemma SlowFirst(brief: real) returns (w: World)
    requires brief == AirSeconds(SLOW, SHORT) && 0.0 < brief < 5.0 && Packet.DecodeRaw(SHORT).Some?
    ensures Reach(SLOW, 0.0, [DoTransmit("r", SHORT)]) == Some(w)
    ensures w == TransmitUntil(Initial(SLOW, 0.0), "r", SHORT, brief, true) && w.active == w.history == [Own(brief)]
  {
    var w0 := Initial(SLOW, 0.0);
    SlowPruning(10.0, brief);
    TransmitIs(SLOW, w0, "r", SHORT, brief);
    OneMoreTransmit(SLOW, 0.0, [], w0, "r", SHORT, brief);
    assert [] + [DoTransmit("r", SHORT)] == [DoTransmit("r", SHORT)];
    w := TransmitUntil(w0, "r", SHORT, brief, true);
  }

  lemma SlowTransmitted(air: real, brief: real) returns (w: World)
    requires air == AirSeconds(SLOW, FULL) >= 10.0 && brief == AirSeconds(SLOW, SHORT) && 0.0 < brief < 5.0
    requires Packet.DecodeRaw(SHORT).Some? && Packet.DecodeRaw(FULL).Some?
    ensures Reach(SLOW, 0.0, [DoTransmit("r", SHORT), DoTransmit("a", FULL)]) == Some(w) && BothOnAir(w, air, brief)
    ensures w.tasks == map[] && w.nextTask == 0
    ensures w.broadcasts == [Broadcast("r", SHORT, Some(1), 0.0, brief), Broadcast("a", FULL, Some(2), 0.0, air)]
  {
    var a1: Step, a2: Step := DoTransmit("r", SHORT), DoTransmit("a", FULL);
    var w1 := SlowFirst(brief);
    assert [a1] + [a2] == [a1, a2];
    TransmitIs(SLOW, w1, "a", FULL, air);
    OneMoreTransmit(SLOW, 0.0, [a1], w1, "a", FULL, air);
    w := TransmitUntil(w1, "a", FULL, air, true);
    SlowSecond(w1, FULL, air, brief);
  }

  lemma SlowSecond(w: World, packet: Bytes, air: real, brief: real)
    requires 0.0 < brief < 5.0 && air >= 10.0
    requires w == TransmitUntil(Initial(SLOW, 0.0), "r", SHORT, brief, true) && w.active == w.history == [Own(brief)]
    ensures var w' := TransmitUntil(w, "a", packet, air, true);
            && BothOnAir(w', air, brief) && w'.tasks == map[] && w'.nextTask == 0
            && w'.broadcasts == [Broadcast("r", SHORT, Some(1), 0.0, brief), Broadcast("a", packet, Some(2), 0.0, air)]
  {
    SlowPruning(air, brief);
  }

  lemma SlowSpawn(w: World, air: real, brief: real)
    requires w.broadcasts == [Broadcast("r", SHORT, Some(1), 0.0, brief), Broadcast("a", FULL, Some(2), 0.0, air)]
    requires w.tasks == map[] && w.nextTask == 0
    ensures var w' := Spawn(SLOW, w, 1);
            && w' == w.(broadcasts := w.broadcasts[..1], tasks := w'.tasks, nextTask := 1)
            && 0 in w'.tasks && w'.tasks[0] == SlowDelivery(air).(stage := Created)
  {
    var links, window := SLOW.links["a"], Some((0.0, air));
    var w1 := w.(broadcasts := w.broadcasts[..1] + w.broadcasts[2..]);
    assert w1.broadcasts == w.broadcasts[..1] && Neighbours(SLOW, "a") == links && links[..0] == [];
    assert AddTasks(w1, "a", links[..0], FULL, Some(2), window) == w1;
    assert AddTasks(w1, "a", links, FULL, Some(2), window) ==
           AddTask(w1, Task("a", links[0], FULL, Some(2), window, Created));
  }

  lemma SlowBegin(w: World, air: real)
    requires w.now == 0.0 && air > 0.0 && |w.buffers| == 0
    requires 0 in w.tasks && w.tasks[0] == SlowDelivery(air).(stage := Created)
    ensures Begin(SLOW, w, 0, 0.5, 0.5, []) == w.(tasks := w.tasks[0 := SlowDelivery(air)])
  {
  }

  lemma SlowBegun(air: real, brief: real) returns (w: World)
    requires air == AirSeconds(SLOW, FULL) >= 10.0 && brief == AirSeconds(SLOW, SHORT) && 0.0 < brief < 5.0
    requires Packet.DecodeRaw(SHORT).Some? && Packet.DecodeRaw(FULL).Some?
    ensures Reach(SLOW, 0.0, [DoTransmit("r", SHORT), DoTransmit("a", FULL), DoSpawn(1), DoBegin(0, 0.5, 0.5, [])])
            == Some(w)
    ensures BothOnAir(w, air, brief) && 0 in w.tasks && w.tasks[0] == SlowDelivery(air)
  {
    var steps := [DoTransmit("r", SHORT), DoTransmit("a", FULL)];
    var a1: Step, a2: Step := DoSpawn(1), DoBegin(0, 0.5, 0.5, []);
    var w0 := SlowTransmitted(air, brief);
    SlowSpawn(w0, air, brief);
    OneMoreStep(SLOW, 0.0, steps, w0, a1);
    var w1 := Spawn(SLOW, w0, 1);
    OneMoreStep(SLOW, 0.0, steps + [a1], w1, a2);
    SlowBegin(w1, air);
    w := w1.(tasks := w1.tasks[0 := SlowDelivery(air)]);
    assert steps + [a1] + [a2] ==
           [DoTransmit("r", SHORT), DoTransmit("a", FULL), DoSpawn(1), DoBegin(0, 0.5, 0.5, [])];
  }

  /** What the full history knows and the store has forgotten: r itself transmitted when the packet
    * began to arrive, c's transmission ten seconds later prunes that, and the delivery, ending
    * without any delay, counts as received.
    */
  lemma PruningChangesVerdict() returns (steps: seq<Step>)
    ensures Wired(SLOW_FILE) == Some(SLOW)
    ensures Reach(SLOW, 0.0, steps).Some?
    ensures var w := Reach(SLOW, 0.0, steps).value;
            && 0 in w.decisions && w.decisions[0].outcome == Received("r")
            && w.decisions[0].task.window == Some((0.0, w.decisions[0].at))
            && Verdict(SLOW, w.history, w.decisions[0].task) == HalfDuplex(1)
  {
    var air, brief := AirSeconds(SLOW, FULL), AirSeconds(SLOW, SHORT);
    ShortDecodes();
    FullDecodes();
    Airtime.SlowRadioOutlastsHistory();
    Airtime.SlowRadioShortPacket();
    AirSecondsLong(SLOW, SHORT);
    SlowWired();
    var before := [DoTransmit("r", SHORT), DoTransmit("a", FULL), DoSpawn(1), DoBegin(0, 0.5, 0.5, [])];
    var w0 := SlowBegun(air, brief);
    steps := before + [Tick(10.0)] + [DoTransmit("c", SHORT)] + [Tick(air - 10.0)] + [DoFinish(0)];
    var w2 := SlowPruned(before, w0, air, brief);
    var w := SlowEnd(before + [Tick(10.0)] + [DoTransmit("c", SHORT)], w2, air, brief);
    SlowVerdicts(air, brief);
  }

  ghost predicate WronglyReceived(w: World, air: real, brief: real) {
    w.history == [Own(brief), Heard(air), Unheard(brief)] && 0 in w.decisions &&
    w.decisions[0] == Decision(SlowDelivery(air), air, Received("r"))
  }

  lemma SlowEnd(steps: seq<Step>, w: World, air: real, brief: real) returns (w': World)
    requires air >= 10.0 && 0.0 < brief < 5.0 && Reach(SLOW, 0.0, steps) == Some(w)
    requires w.now == 10.0 && w.buffers == [] && w.active == [Heard(air), Unheard(brief)]
    requires w.history == [Own(brief), Heard(air), Unheard(brief)]
    requires 0 in w.tasks && w.tasks[0] == SlowDelivery(air)
    ensures Reach(SLOW, 0.0, steps + [Tick(air - 10.0)] + [DoFinish(0)]) == Some(w') && WronglyReceived(w', air, brief)
  {
    OneMoreTick(SLOW, 0.0, steps, w, air - 10.0);
    w' := SlowFinished(steps + [Tick(air - 10.0)], w.(now := air), air, brief);
  }

  lemma SlowFinished(steps: seq<Step>, w: World, air: real, brief: real) returns (w': World)
    requires air >= 10.0 && 0.0 < brief < 5.0 && Reach(SLOW, 0.0, steps) == Some(w)
    requires w.now == air && w.buffers == [] && w.active == [Heard(air), Unheard(brief)]
    requires w.history == [Own(brief), Heard(air), Unheard(brief)]
    requires 0 in w.tasks && w.tasks[0] == SlowDelivery(air)
    ensures Reach(SLOW, 0.0, steps + [DoFinish(0)]) == Some(w') && WronglyReceived(w', air, brief)
  {
    SlowVerdicts(air, brief);
    OneMoreFinish(SLOW, 0.0, steps, w, 0, Received("r"));
    w' := Decide(w, 0, Received("r"));
  }

  /** When c transmits, r's own transmission is forgotten. */
  lemma SlowPruned(before: seq<Step>, w0: World, air: real, brief: real) returns (w: World)
    requires air >= 10.0 && brief == AirSeconds(SLOW, SHORT) && 0.0 < brief < 5.0 && Packet.DecodeRaw(SHORT).Some?
    requires Reach(SLOW, 0.0, before) == Some(w0)
    requires BothOnAir(w0, air, brief) && 0 in w0.tasks && w0.tasks[0] == SlowDelivery(air)
    ensures Reach(SLOW, 0.0, before + [Tick(10.0)] + [DoTransmit("c", SHORT)]) == Some(w)
    ensures w.now == 10.0 && w.tasks == w0.tasks && w.decisions == w0.decisions && w.buffers == []
    ensures w.history == [Own(brief), Heard(air), Unheard(brief)] && w.active == [Heard(air), Unheard(brief)]
  {
    OneMoreStep(SLOW, 0.0, before, w0, Tick(10.0));
    var w1 := w0.(now := 10.0);
    TransmitIs(SLOW, w1, "c", SHORT, 10.0 + brief);
    OneMoreTransmit(SLOW, 0.0, before + [Tick(10.0)], w1, "c", SHORT, 10.0 + brief);
    w := TransmitUntil(w1, "c", SHORT, 10.0 + brief, true);
    SlowPruning(air, brief);
    assert [Own(brief), Heard(air)] + [Unheard(brief)] == [Own(brief), Heard(air), Unheard(brief)];
  }
}
