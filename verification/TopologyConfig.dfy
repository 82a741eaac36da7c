/** The topology file: its configuration objects, and their way to JSON and back. */
module TopologyConfig {
  import opened Common

  // ---- Configuration objects ------------------------------------------------

  datatype AdversarialConfig = AdversarialConfig(
    mode: string, probability: real, replayDelayMs: real, corruptByteCount: int)

  datatype NodeConfig = NodeConfig(
    name: string, relay: bool, roomServer: bool, prvKey: Option<string>,
    adversarial: Option<AdversarialConfig>, binary: Option<string>, maxHeapKb: Option<int>,
    lat: Option<real>, lon: Option<real>)

  datatype DirectionalOverrides = DirectionalOverrides(
    loss: Option<real>, latencyMs: Option<real>, snr: Option<real>)

  datatype EdgeConfig = EdgeConfig(
    a: string, b: string, loss: real, latencyMs: real, snr: real,
    aToB: Option<DirectionalOverrides>, bToA: Option<DirectionalOverrides>)

  datatype RadioConfig = RadioConfig(
    sf: int, bwHz: int, cr: int, preambleSymbols: int, noiseFloorDbm: real)

  /** The seed is kept as it stands in the file; null is none. */
  datatype SimulationConfig = SimulationConfig(
    warmupSecs: real, durationSecs: real, trafficIntervalSecs: real, advertIntervalSecs: real,
    epoch: int, defaultBinary: string, defaultMaxHeapKb: Option<int>, seed: Json)

  datatype TopologyConfig = TopologyConfig(
    nodes: seq<NodeConfig>, edges: seq<EdgeConfig>, simulation: SimulationConfig, radio: Option<RadioConfig>)

  const DEFAULT_BINARY := "./node_agent/build/node_agent"
  const DEFAULT_NOISE_FLOOR := -120.0
  const DEFAULT_RADIO := RadioConfig(10, 250_000, 1, 8, DEFAULT_NOISE_FLOOR)

  // ---- JSON -----------------------------------------------------------------

  /** The field names of a topology file; `Other` is any field the loader does not read. */
  datatype Key =
    | Nodes | Edges | Simulation | Radio
    | Name | Relay | RoomServer | PrvKey | Adversarial | Binary | MaxHeapKb | Lat | Lon
    | Mode | Probability | ReplayDelayMs | CorruptByteCount
    | A | B | Loss | LatencyMs | Snr | AToB | BToA
    | WarmupSecs | DurationSecs | TrafficIntervalSecs | AdvertIntervalSecs | Epoch
    | DefaultBinary | AgentBinary | DefaultMaxHeapKb | Seed
    | Sf | BwHz | Cr | PreambleSymbols
    | Other(name: string)

  type Object = map<Key, Json>

  datatype Json =
    | JNull
    | JBool(b: bool)
    | JInt(i: int)
    | JReal(r: real)
    | JString(s: string)
    | JList(items: seq<Json>)
    | JObject(fields: map<Key, Json>)

  /** What Python counts as true. */
  predicate Truthy(j: Json) {
    match j
    case JNull => false
    case JBool(b) => b
    case JInt(i) => i != 0
    case JReal(r) => r != 0.0
    case JString(s) => s != ""
    case JList(items) => items != []
    case JObject(fields) => fields != map[]
  }

  /** A value, or the exception the loader dies with. */
  datatype Result<+T> = Ok(value: T) | Err {
    predicate IsFailure() { Err? }

    function PropagateFailure<U>(): Result<U>
      requires Err?
    {
      Err
    }

    function Extract(): T
      requires Ok?
    {
      value
    }
  }

  function ToFloat(j: Json): Result<real> {
    match j
    case JInt(i) => Ok(i as real)
    case JReal(r) => Ok(r)
    case JBool(b) => Ok(if b then 1.0 else 0.0)
    case _ => Err
  }

  /** `int(x)` truncates toward zero. */
  function ToInt(j: Json): Result<int> {
    match j
    case JInt(i) => Ok(i)
    case JReal(r) => Ok(if r >= 0.0 then r.Floor else -(-r).Floor)
    case JBool(b) => Ok(if b then 1 else 0)
    case _ => Err
  }

  function ToStr(j: Json): Result<string> {
    if j.JString? then Ok(j.s) else Err
  }

  function ToObject(j: Json): Result<Object> {
    if j.JObject? then Ok(j.fields) else Err
  }

  function ToList(j: Json): Result<seq<Json>> {
    if j.JList? then Ok(j.items) else Err
  }

  function Get(o: Object, k: Key, default: Json): Json {
    if k in o then o[k] else default
  }

  /** `o[k]`, a KeyError if it is not there. */
  function Need(o: Object, k: Key): Result<Json> {
    if k in o then Ok(o[k]) else Err
  }

  function OptStr(j: Json): Result<Option<string>> {
    if j == JNull then Ok(None) else var s :- ToStr(j); Ok(Some(s))
  }

  function OptInt(j: Json): Result<Option<int>> {
    if j == JNull then Ok(None) else var i :- ToInt(j); Ok(Some(i))
  }

  function OptFloat(j: Json): Result<Option<real>> {
    if j == JNull then Ok(None) else var r :- ToFloat(j); Ok(Some(r))
  }

  /** `if c: o[k] = v` */
  function Put(o: Object, c: bool, k: Key, v: Json): Object {
    if c then o[k := v] else o
  }

  function PutStr(o: Object, k: Key, v: Option<string>): Object {
    match v case None => o case Some(s) => o[k := JString(s)]
  }

  function PutInt(o: Object, k: Key, v: Option<int>): Object {
    match v case None => o case Some(i) => o[k := JInt(i)]
  }

  function PutReal(o: Object, k: Key, v: Option<real>): Object {
    match v case None => o case Some(r) => o[k := JReal(r)]
  }

  // ---- topology_to_dict -----------------------------------------------------

  function AdversarialDict(a: AdversarialConfig): Object {
    var o := map[Mode := JString(a.mode)];
    var o := Put(o, a.probability != 1.0, Probability, JReal(a.probability));
    var o := Put(o, a.replayDelayMs != 5000.0, ReplayDelayMs, JReal(a.replayDelayMs));
    Put(o, a.corruptByteCount != 1, CorruptByteCount, JInt(a.corruptByteCount))
  }

  function PutAdversarial(o: Object, a: Option<AdversarialConfig>): Object {
    match a case None => o case Some(c) => o[Adversarial := JObject(AdversarialDict(c))]
  }

  function NodeDict(n: NodeConfig): Object {
    var o := map[Name := JString(n.name)];
    var o := Put(o, n.relay, Relay, JBool(true));
    var o := Put(o, n.roomServer, RoomServer, JBool(true));
    var o := PutStr(o, PrvKey, n.prvKey);
    var o := PutStr(o, Binary, n.binary);
    var o := PutInt(o, MaxHeapKb, n.maxHeapKb);
    var o := PutReal(o, Lat, n.lat);
    var o := PutReal(o, Lon, n.lon);
    PutAdversarial(o, n.adversarial)
  }

  function OverridesDict(o: Option<DirectionalOverrides>): Object {
    match o
    case None => map[]
    case Some(d) => PutReal(PutReal(PutReal(map[], Loss, d.loss), LatencyMs, d.latencyMs), Snr, d.snr)
  }

  function EdgeDict(e: EdgeConfig): Object {
    var atob, btoa := OverridesDict(e.aToB), OverridesDict(e.bToA);
    var o := map[A := JString(e.a), B := JString(e.b)];
    var o := Put(o, e.loss != 0.0, Loss, JReal(e.loss));
    var o := Put(o, e.latencyMs != 0.0, LatencyMs, JReal(e.latencyMs));
    var o := Put(o, e.snr != 6.0, Snr, JReal(e.snr));
    var o := Put(o, atob != map[], AToB, JObject(atob));
    Put(o, btoa != map[], BToA, JObject(btoa))
  }

  function SimulationDict(s: SimulationConfig): Object {
    var o := map[
      WarmupSecs := JReal(s.warmupSecs), DurationSecs := JReal(s.durationSecs),
      TrafficIntervalSecs := JReal(s.trafficIntervalSecs), AdvertIntervalSecs := JReal(s.advertIntervalSecs),
      Epoch := JInt(s.epoch), DefaultBinary := JString(s.defaultBinary)];
    Put(PutInt(o, DefaultMaxHeapKb, s.defaultMaxHeapKb), s.seed != JNull, Seed, s.seed)
  }

  function RadioDict(c: RadioConfig): Object {
    map[Sf := JInt(c.sf), BwHz := JInt(c.bwHz), Cr := JInt(c.cr), PreambleSymbols := JInt(c.preambleSymbols)]
  }

  function NodeDicts(ns: seq<NodeConfig>): (js: seq<Json>)
    ensures |js| == |ns|
  {
    seq(|ns|, i requires 0 <= i < |ns| => JObject(NodeDict(ns[i])))
  }

  function EdgeDicts(es: seq<EdgeConfig>): (js: seq<Json>)
    ensures |js| == |es|
  {
    seq(|es|, i requires 0 <= i < |es| => JObject(EdgeDict(es[i])))
  }

  function TopologyDict(t: TopologyConfig): Object {
    var o := map[Nodes := JList(NodeDicts(t.nodes)), Edges := JList(EdgeDicts(t.edges)),
                 Simulation := JObject(SimulationDict(t.simulation))];
    match t.radio case None => o case Some(c) => o[Radio := JObject(RadioDict(c))]
  }

  // ---- load_topology --------------------------------------------------------

  function LoadAdversarial(j: Json): Result<Option<AdversarialConfig>> {
    if !Truthy(j) then Ok(None)
    else
      var o :- ToObject(j);
      var modeJ :- Need(o, Mode);
      var mode :- ToStr(modeJ);
      var probability :- ToFloat(Get(o, Probability, JReal(1.0)));
      var delay :- ToFloat(Get(o, ReplayDelayMs, JReal(5000.0)));
      var count :- ToInt(Get(o, CorruptByteCount, JInt(1)));
      Ok(Some(AdversarialConfig(mode, probability, delay, count)))
  }

  function LoadNode(j: Json): Result<NodeConfig> {
    var o :- ToObject(j);
    var adv :- LoadAdversarial(Get(o, Adversarial, JNull));
    var nameJ :- Need(o, Name);
    var name :- ToStr(nameJ);
    var prv :- OptStr(Get(o, PrvKey, JNull));
    var binary :- OptStr(Get(o, Binary, JNull));
    var heap :- OptInt(Get(o, MaxHeapKb, JNull));
    var lat :- OptFloat(Get(o, Lat, JNull));
    var lon :- OptFloat(Get(o, Lon, JNull));
    Ok(NodeConfig(name, Truthy(Get(o, Relay, JBool(false))), Truthy(Get(o, RoomServer, JBool(false))),
                  prv, adv, binary, heap, lat, lon))
  }

  function OverrideOf(o: Object, k: Key): Result<Option<real>> {
    if k in o then var r :- ToFloat(o[k]); Ok(Some(r)) else Ok(None)
  }

  /** `_parse_directional`: nothing at all is no override object. */
  function LoadDirectional(j: Json): Result<Option<DirectionalOverrides>> {
    if !Truthy(j) then Ok(None)
    else
      var o :- ToObject(j);
      var loss :- OverrideOf(o, Loss);
      var latency :- OverrideOf(o, LatencyMs);
      var snr :- OverrideOf(o, Snr);
      Ok(Some(DirectionalOverrides(loss, latency, snr)))
  }

  function LoadEdge(j: Json): Result<EdgeConfig> {
    var o :- ToObject(j);
    var aJ :- Need(o, A);
    var a :- ToStr(aJ);
    var bJ :- Need(o, B);
    var b :- ToStr(bJ);
    var loss :- ToFloat(Get(o, Loss, JReal(0.0)));
    var latency :- ToFloat(Get(o, LatencyMs, JReal(0.0)));
    var snr :- ToFloat(Get(o, Snr, JReal(6.0)));
    var aToB :- LoadDirectional(Get(o, AToB, JObject(map[])));
    var bToA :- LoadDirectional(Get(o, BToA, JObject(map[])));
    Ok(EdgeConfig(a, b, loss, latency, snr, aToB, bToA))
  }

  function LoadNodes(js: seq<Json>): Result<seq<NodeConfig>> {
    if js == [] then Ok([])
    else
      var front :- LoadNodes(js[..|js| - 1]);
      var n :- LoadNode(js[|js| - 1]);
      Ok(front + [n])
  }

  function LoadEdges(js: seq<Json>): Result<seq<EdgeConfig>> {
    if js == [] then Ok([])
    else
      var front :- LoadEdges(js[..|js| - 1]);
      var e :- LoadEdge(js[|js| - 1]);
      Ok(front + [e])
  }

  /** The current name of the field, or the old one, or the default. */
  function LoadBinary(o: Object): Result<string> {
    if Truthy(Get(o, DefaultBinary, JNull)) then ToStr(o[DefaultBinary])
    else ToStr(Get(o, AgentBinary, JString(DEFAULT_BINARY)))
  }

  /** An epoch of zero means the wall clock, `now`. */
  function LoadSimulation(j: Json, now: int): Result<SimulationConfig> {
    var o :- ToObject(j);
    var warmup :- ToFloat(Get(o, WarmupSecs, JReal(5.0)));
    var duration :- ToFloat(Get(o, DurationSecs, JReal(60.0)));
    var traffic :- ToFloat(Get(o, TrafficIntervalSecs, JReal(10.0)));
    var advert :- ToFloat(Get(o, AdvertIntervalSecs, JReal(30.0)));
    var epoch :- ToInt(Get(o, Epoch, JInt(0)));
    var binary :- LoadBinary(o);
    var heap :- OptInt(Get(o, DefaultMaxHeapKb, JNull));
    Ok(SimulationConfig(warmup, duration, traffic, advert, if epoch == 0 then now else epoch, binary, heap,
                        Get(o, Seed, JNull)))
  }

  function LoadRadio(j: Json): Result<Option<RadioConfig>> {
    if j == JNull then Ok(None)
    else
      var o :- ToObject(j);
      var sf :- ToInt(Get(o, Sf, JInt(9)));
      var bw :- ToInt(Get(o, BwHz, JInt(125_000)));
      var cr :- ToInt(Get(o, Cr, JInt(1)));
      var preamble :- ToInt(Get(o, PreambleSymbols, JInt(8)));
      Ok(Some(RadioConfig(sf, bw, cr, preamble, DEFAULT_NOISE_FLOOR)))
  }

  function Load(raw: Object, now: int): Result<TopologyConfig> {
    var nodesJ :- ToList(Get(raw, Nodes, JList([])));
    var nodes :- LoadNodes(nodesJ);
    var edgesJ :- ToList(Get(raw, Edges, JList([])));
    var edges :- LoadEdges(edgesJ);
    var sim :- LoadSimulation(Get(raw, Simulation, JObject(map[])), now);
    var radio :- LoadRadio(Get(raw, Radio, JNull));
    Ok(TopologyConfig(nodes, edges, sim, radio))
  }

  // ---- The two routines as they run -----------------------------------------

  /** `topology_to_dict` */
  method TopologyToDict(t: TopologyConfig) returns (result: Object)
    ensures result == TopologyDict(t)
  {
    var nodesOut := [];
    for i := 0 to |t.nodes|
      invariant |nodesOut| == i
      invariant forall j :: 0 <= j < i ==> nodesOut[j] == JObject(NodeDict(t.nodes[j]))
    {
      nodesOut := nodesOut + [JObject(NodeDict(t.nodes[i]))];
    }
    var edgesOut := [];
    for i := 0 to |t.edges|
      invariant |edgesOut| == i
      invariant forall j :: 0 <= j < i ==> edgesOut[j] == JObject(EdgeDict(t.edges[j]))
    {
      edgesOut := edgesOut + [JObject(EdgeDict(t.edges[i]))];
    }
    assert nodesOut == NodeDicts(t.nodes) && edgesOut == EdgeDicts(t.edges);
    result := map[Nodes := JList(nodesOut), Edges := JList(edgesOut),
                  Simulation := JObject(SimulationDict(t.simulation))];
    if t.radio.Some? {
      result := result[Radio := JObject(RadioDict(t.radio.value))];
    }
  }

  lemma {:induction false} LoadNodesFails(js: seq<Json>, i: nat)
    requires i < |js| && LoadNode(js[i]).Err?
    ensures LoadNodes(js).Err?
  {
    if i < |js| - 1 {
      LoadNodesFails(js[..|js| - 1], i);
    }
  }

  lemma {:induction false} LoadEdgesFails(js: seq<Json>, i: nat)
    requires i < |js| && LoadEdge(js[i]).Err?
    ensures LoadEdges(js).Err?
  {
    if i < |js| - 1 {
      LoadEdgesFails(js[..|js| - 1], i);
    }
  }

  /** `load_topology`, reading the clock as `now`. */
  method LoadTopology(raw: Object, now: int) returns (topo: Result<TopologyConfig>)
    ensures topo == Load(raw, now)
  {
    var nodesJ :- ToList(Get(raw, Nodes, JList([])));
    var nodes := [];
    for i := 0 to |nodesJ|
      invariant LoadNodes(nodesJ[..i]) == Ok(nodes)
    {
      assert nodesJ[..i + 1][..i] == nodesJ[..i];
      var n := LoadNode(nodesJ[i]);
      if n.Err? {
        LoadNodesFails(nodesJ, i);
        return Err;
      }
      nodes := nodes + [n.value];
    }
    assert nodesJ[..|nodesJ|] == nodesJ;
    var edgesJ :- ToList(Get(raw, Edges, JList([])));
    var edges := [];
    for i := 0 to |edgesJ|
      invariant LoadEdges(edgesJ[..i]) == Ok(edges)
    {
      assert edgesJ[..i + 1][..i] == edgesJ[..i];
      var e := LoadEdge(edgesJ[i]);
      if e.Err? {
        LoadEdgesFails(edgesJ, i);
        return Err;
      }
      edges := edges + [e.value];
    }
    assert edgesJ[..|edgesJ|] == edgesJ;
    var sim :- LoadSimulation(Get(raw, Simulation, JObject(map[])), now);
    var radio :- LoadRadio(Get(raw, Radio, JNull));
    topo := Ok(TopologyConfig(nodes, edges, sim, radio));
  }
}
