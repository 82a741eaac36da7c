/** What the loader reads from a topology file, key by key: which defaults stand for keys that are not
  * there, and exactly when it fails.
  */
module LoadLaws {
  import opened Common
  import opened TopologyConfig

  // ---- Numbers --------------------------------------------------------------

  predicate IsNumber(j: Json) {
    j.JInt? || j.JReal? || j.JBool?
  }

  /** Truth counts as one. */
  function Value(j: Json): real
    requires IsNumber(j)
  {
    match j
    case JInt(i) => i as real
    case JReal(r) => r
    case JBool(b) => if b then 1.0 else 0.0
  }

  /** `i` is `v` without its fraction. */
  ghost predicate Truncates(v: real, i: int) {
    if v >= 0.0 then 0 <= i && i as real <= v < (i + 1) as real else i <= 0 && (i - 1) as real < v <= i as real
  }

  /** The key is missing or a number; and what a real or an integer field then is. */
  predicate Numeric(o: Object, k: Key) {
    k in o ==> IsNumber(o[k])
  }

  ghost predicate IsReal(o: Object, k: Key, default: real, r: real) {
    Numeric(o, k) && r == if k in o then Value(o[k]) else default
  }

  ghost predicate IsInt(o: Object, k: Key, default: int, i: int) {
    Numeric(o, k) && if k in o then Truncates(Value(o[k]), i) else i == default
  }

  /** Null is as good as missing. */
  predicate Given(o: Object, k: Key) {
    k in o && o[k] != JNull
  }

  ghost predicate IsMaybeReal(o: Object, k: Key, r: Option<real>) {
    if Given(o, k) then IsNumber(o[k]) && r == Some(Value(o[k])) else r == None
  }

  ghost predicate IsMaybeInt(o: Object, k: Key, i: Option<int>) {
    if Given(o, k) then IsNumber(o[k]) && i.Some? && Truncates(Value(o[k]), i.value) else i == None
  }

  ghost predicate IsMaybeString(o: Object, k: Key, s: Option<string>) {
    if Given(o, k) then o[k].JString? && s == Some(o[k].s) else s == None
  }

  ghost predicate IsFlag(o: Object, k: Key, b: bool) {
    b == (k in o && Truthy(o[k]))
  }

  /** Everything is true but null, false, zero, and the empty string, list and object. */
  lemma TruthLaw(j: Json)
    ensures Truthy(j) <==>
            j != JNull && j != JBool(false) && j != JInt(0) && j != JReal(0.0) && j != JString("") &&
            j != JList([]) && j != JObject(map[])
  {
  }

  lemma FloatLaw(o: Object, k: Key, default: real)
    ensures var r := ToFloat(Get(o, k, JReal(default)));
            (r.Ok? <==> Numeric(o, k)) && (r.Ok? ==> IsReal(o, k, default, r.value))
  {
  }

  lemma TruncationLaw(j: Json)
    ensures ToInt(j).Ok? <==> IsNumber(j)
    ensures ToInt(j).Ok? ==> Truncates(Value(j), ToInt(j).value)
  {
  }

  lemma IntLaw(o: Object, k: Key, default: int)
    ensures var r := ToInt(Get(o, k, JInt(default)));
            (r.Ok? <==> Numeric(o, k)) && (r.Ok? ==> IsInt(o, k, default, r.value))
  {
    TruncationLaw(Get(o, k, JInt(default)));
  }

  lemma MaybeLaws(o: Object, k: Key)
    ensures var r := OptFloat(Get(o, k, JNull));
            (r.Ok? <==> (Given(o, k) ==> IsNumber(o[k]))) && (r.Ok? ==> IsMaybeReal(o, k, r.value))
    ensures var r := OptInt(Get(o, k, JNull));
            (r.Ok? <==> (Given(o, k) ==> IsNumber(o[k]))) && (r.Ok? ==> IsMaybeInt(o, k, r.value))
    ensures var r := OptStr(Get(o, k, JNull));
            (r.Ok? <==> (Given(o, k) ==> o[k].JString?)) && (r.Ok? ==> IsMaybeString(o, k, r.value))
  {
    TruncationLaw(Get(o, k, JNull));
  }

  // ---- Radio and simulation ---------------------------------------------------

  ghost predicate IsRadio(o: Object, c: RadioConfig) {
    IsInt(o, Sf, 9, c.sf) && IsInt(o, BwHz, 125000, c.bwHz) && IsInt(o, Cr, 1, c.cr) &&
    IsInt(o, PreambleSymbols, 8, c.preambleSymbols) && c.noiseFloorDbm == -120.0
  }

  /** A radio section without a key means SF 9, 125 kHz, CR 4/5 and eight preamble symbols. */
  lemma RadioLaw(o: Object)
    ensures var r := LoadRadio(JObject(o));
            && (r.Ok? <==> Numeric(o, Sf) && Numeric(o, BwHz) && Numeric(o, Cr) && Numeric(o, PreambleSymbols))
            && (r.Ok? ==> r.value.Some? && IsRadio(o, r.value.value))
  {
    IntLaw(o, Sf, 9);
    IntLaw(o, BwHz, 125000);
    IntLaw(o, Cr, 1);
    IntLaw(o, PreambleSymbols, 8);
  }

  /** The default binary is the current key if that says anything, else the old one, else the default. */
  ghost predicate IsBinary(o: Object, s: string) {
    if DefaultBinary in o && Truthy(o[DefaultBinary]) then o[DefaultBinary] == JString(s)
    else if AgentBinary in o then o[AgentBinary] == JString(s)
    else s == "./node_agent/build/node_agent"
  }

  lemma BinaryLaw(o: Object)
    ensures LoadBinary(o).Ok? <==> exists s :: IsBinary(o, s)
    ensures LoadBinary(o).Ok? ==> IsBinary(o, LoadBinary(o).value)
  {
    if DefaultBinary in o && Truthy(o[DefaultBinary]) {
      assert o[DefaultBinary].JString? ==> IsBinary(o, o[DefaultBinary].s);
    } else if AgentBinary in o {
      assert o[AgentBinary].JString? ==> IsBinary(o, o[AgentBinary].s);
    } else {
      assert IsBinary(o, "./node_agent/build/node_agent");
    }
  }

  ghost predicate SimulationReadable(o: Object) {
    Numeric(o, WarmupSecs) && Numeric(o, DurationSecs) && Numeric(o, TrafficIntervalSecs) &&
    Numeric(o, AdvertIntervalSecs) && Numeric(o, Epoch) && (exists s :: IsBinary(o, s)) &&
    (Given(o, DefaultMaxHeapKb) ==> IsNumber(o[DefaultMaxHeapKb]))
  }

  ghost predicate IsEpoch(o: Object, now: int, epoch: int) {
    exists e :: IsInt(o, Epoch, 0, e) && epoch == if e == 0 then now else e
  }

  /** The defaults of the simulation section, and that an epoch of zero is the clock. */
  lemma SimulationLaw(o: Object, now: int)
    ensures var r := LoadSimulation(JObject(o), now);
            && (r.Ok? <==> SimulationReadable(o))
            && (r.Ok? ==>
                  var c := r.value;
                  IsReal(o, WarmupSecs, 5.0, c.warmupSecs) && IsReal(o, DurationSecs, 60.0, c.durationSecs) &&
                  IsReal(o, TrafficIntervalSecs, 10.0, c.trafficIntervalSecs) &&
                  IsReal(o, AdvertIntervalSecs, 30.0, c.advertIntervalSecs) &&
                  IsEpoch(o, now, c.epoch) && IsBinary(o, c.defaultBinary) &&
                  IsMaybeInt(o, DefaultMaxHeapKb, c.defaultMaxHeapKb) &&
                  c.seed == if Seed in o then o[Seed] else JNull)
  {
    FloatLaw(o, WarmupSecs, 5.0);
    FloatLaw(o, DurationSecs, 60.0);
    FloatLaw(o, TrafficIntervalSecs, 10.0);
    FloatLaw(o, AdvertIntervalSecs, 30.0);
    IntLaw(o, Epoch, 0);
    BinaryLaw(o);
    MaybeLaws(o, DefaultMaxHeapKb);
  }

  // ---- Edges ------------------------------------------------------------------

  predicate DirectionReadable(o: Object, k: Key) {
    k in o && Truthy(o[k]) ==>
      o[k].JObject? && Numeric(o[k].fields, Loss) && Numeric(o[k].fields, LatencyMs) && Numeric(o[k].fields, Snr)
  }

  /** A direction that is missing, null or empty overrides nothing; otherwise its keys do. */
  ghost predicate IsDirection(o: Object, k: Key, d: Option<DirectionalOverrides>) {
    if k in o && Truthy(o[k]) then
      o[k].JObject? && d.Some? &&
      IsOverride(o[k].fields, Loss, d.value.loss) && IsOverride(o[k].fields, LatencyMs, d.value.latencyMs) &&
      IsOverride(o[k].fields, Snr, d.value.snr)
    else d == None
  }

  ghost predicate IsOverride(o: Object, k: Key, r: Option<real>) {
    if k in o then IsNumber(o[k]) && r == Some(Value(o[k])) else r == None
  }

  lemma DirectionLaw(o: Object, k: Key)
    ensures var r := LoadDirectional(Get(o, k, JObject(map[])));
            (r.Ok? <==> DirectionReadable(o, k)) && (r.Ok? ==> IsDirection(o, k, r.value))
  {
  }

  predicate HasString(o: Object, k: Key) {
    k in o && o[k].JString?
  }

  /** An edge needs its two ends; without other keys it loses nothing, takes no time and arrives at
    * 6 dB.
    */
  lemma EdgeLaw(o: Object)
    ensures var r := LoadEdge(JObject(o));
            && (r.Ok? <==> HasString(o, A) && HasString(o, B) && Numeric(o, Loss) && Numeric(o, LatencyMs) &&
                           Numeric(o, Snr) && DirectionReadable(o, AToB) && DirectionReadable(o, BToA))
            && (r.Ok? ==>
                  var e := r.value;
                  e.a == o[A].s && e.b == o[B].s && IsReal(o, Loss, 0.0, e.loss) &&
                  IsReal(o, LatencyMs, 0.0, e.latencyMs) && IsReal(o, Snr, 6.0, e.snr) &&
                  IsDirection(o, AToB, e.aToB) && IsDirection(o, BToA, e.bToA))
  {
    FloatLaw(o, Loss, 0.0);
    FloatLaw(o, LatencyMs, 0.0);
    FloatLaw(o, Snr, 6.0);
    DirectionLaw(o, AToB);
    DirectionLaw(o, BToA);
  }

  // ---- Nodes ------------------------------------------------------------------

  predicate AdversaryReadable(o: Object) {
    Adversarial in o && Truthy(o[Adversarial]) ==>
      o[Adversarial].JObject? &&
      var a := o[Adversarial].fields;
      HasString(a, Mode) && Numeric(a, Probability) && Numeric(a, ReplayDelayMs) && Numeric(a, CorruptByteCount)
  }

  /** An adversary needs a mode; by default it always acts, replays after five seconds and flips one
    * bit.
    */
  ghost predicate IsAdversary(o: Object, c: Option<AdversarialConfig>) {
    if Adversarial in o && Truthy(o[Adversarial]) then
      o[Adversarial].JObject? && c.Some? &&
      var a := o[Adversarial].fields;
      HasString(a, Mode) && c.value.mode == a[Mode].s && IsReal(a, Probability, 1.0, c.value.probability) &&
      IsReal(a, ReplayDelayMs, 5000.0, c.value.replayDelayMs) &&
      IsInt(a, CorruptByteCount, 1, c.value.corruptByteCount)
    else c == None
  }

  lemma AdversaryLaw(o: Object)
    ensures var r := LoadAdversarial(Get(o, Adversarial, JNull));
            (r.Ok? <==> AdversaryReadable(o)) && (r.Ok? ==> IsAdversary(o, r.value))
  {
    if Adversarial in o && o[Adversarial].JObject? {
      var a := o[Adversarial].fields;
      FloatLaw(a, Probability, 1.0);
      FloatLaw(a, ReplayDelayMs, 5000.0);
      IntLaw(a, CorruptByteCount, 1);
    }
  }

  predicate NodeReadable(o: Object) {
    HasString(o, Name) && AdversaryReadable(o) && (Given(o, PrvKey) ==> o[PrvKey].JString?) &&
    (Given(o, Binary) ==> o[Binary].JString?) && (Given(o, MaxHeapKb) ==> IsNumber(o[MaxHeapKb])) &&
    (Given(o, Lat) ==> IsNumber(o[Lat])) && (Given(o, Lon) ==> IsNumber(o[Lon]))
  }

  /** A node needs its name, everything else may be missing. */
  lemma NodeLaw(o: Object)
    ensures var r := LoadNode(JObject(o));
            && (r.Ok? <==> NodeReadable(o))
            && (r.Ok? ==>
                  var n := r.value;
                  n.name == o[Name].s && IsFlag(o, Relay, n.relay) && IsFlag(o, RoomServer, n.roomServer) &&
                  IsMaybeString(o, PrvKey, n.prvKey) && IsMaybeString(o, Binary, n.binary) &&
                  IsMaybeInt(o, MaxHeapKb, n.maxHeapKb) && IsMaybeReal(o, Lat, n.lat) &&
                  IsMaybeReal(o, Lon, n.lon) && IsAdversary(o, n.adversarial))
  {
    AdversaryLaw(o);
    MaybeLaws(o, PrvKey);
    MaybeLaws(o, Binary);
    MaybeLaws(o, MaxHeapKb);
    MaybeLaws(o, Lat);
    MaybeLaws(o, Lon);
  }

  // ---- The whole file -----------------------------------------------------------

  ghost predicate AreNodes(js: seq<Json>, ns: seq<NodeConfig>) {
    |ns| == |js| && forall i :: 0 <= i < |js| ==> LoadNode(js[i]) == Ok(ns[i])
  }

  ghost predicate AreEdges(js: seq<Json>, es: seq<EdgeConfig>) {
    |es| == |js| && forall i :: 0 <= i < |js| ==> LoadEdge(js[i]) == Ok(es[i])
  }

  lemma {:induction false} NodesLaw(js: seq<Json>)
    ensures LoadNodes(js).Ok? <==> forall j :: j in js ==> LoadNode(j).Ok?
    ensures LoadNodes(js).Ok? ==> AreNodes(js, LoadNodes(js).value)
  {
    if js != [] {
      NodesLaw(js[..|js| - 1]);
      assert forall j :: j in js <==> j in js[..|js| - 1] || j == js[|js| - 1];
    }
  }

  lemma {:induction false} EdgesLaw(js: seq<Json>)
    ensures LoadEdges(js).Ok? <==> forall j :: j in js ==> LoadEdge(j).Ok?
    ensures LoadEdges(js).Ok? ==> AreEdges(js, LoadEdges(js).value)
  {
    if js != [] {
      EdgesLaw(js[..|js| - 1]);
      assert forall j :: j in js <==> j in js[..|js| - 1] || j == js[|js| - 1];
    }
  }

  /** The list under a key, empty if it is missing. */
  ghost predicate IsListed(raw: Object, k: Key, items: seq<Json>) {
    if k in raw then raw[k] == JList(items) else items == []
  }

  /** A file loads exactly if each of its parts does: nodes and edges one by one and in order, the
    * simulation as if empty where it is missing, and no radio where that is missing or null.
    */
  lemma FileLaw(raw: Object, now: int)
    ensures Load(raw, now).Ok? <==>
            (exists ns :: IsListed(raw, Nodes, ns) && forall j :: j in ns ==> LoadNode(j).Ok?) &&
            (exists es :: IsListed(raw, Edges, es) && forall j :: j in es ==> LoadEdge(j).Ok?) &&
            LoadSimulation(Get(raw, Simulation, JObject(map[])), now).Ok? && LoadRadio(Get(raw, Radio, JNull)).Ok?
    ensures Load(raw, now).Ok? ==>
            var t := Load(raw, now).value;
            && (forall js :: IsListed(raw, Nodes, js) ==> AreNodes(js, t.nodes))
            && (forall js :: IsListed(raw, Edges, js) ==> AreEdges(js, t.edges))
            && LoadSimulation(if Simulation in raw then raw[Simulation] else JObject(map[]), now) == Ok(t.simulation)
            && LoadRadio(if Radio in raw then raw[Radio] else JNull) == Ok(t.radio)
            && ((Radio !in raw || raw[Radio] == JNull) ==> t.radio == None)
  {
    ListLaw(raw, Nodes);
    ListLaw(raw, Edges);
    var ns, es := ToList(Get(raw, Nodes, JList([]))), ToList(Get(raw, Edges, JList([])));
    if ns.Ok? {
      NodesLaw(ns.value);
    }
    if es.Ok? {
      EdgesLaw(es.value);
    }
  }

  lemma ListLaw(raw: Object, k: Key)
    ensures var r := ToList(Get(raw, k, JList([])));
            forall items :: IsListed(raw, k, items) <==> r == Ok(items)
  {
  }
}
