/** The adjacency a configuration denotes, and that writing and reading the file keeps it. */
module Topology {
  import opened Common
  import opened TopologyConfig

  /** One directed view of an edge, towards `other`. */
  datatype EdgeLink = EdgeLink(other: string, loss: real, latencyMs: real, snr: real)

  type Adjacency = map<string, seq<EdgeLink>>

  function Resolve(base: real, override: Option<real>): real {
    match override case None => base case Some(v) => v
  }

  /** The link one direction of an edge gives, its overrides applied. */
  function LinkOf(other: string, e: EdgeConfig, o: Option<DirectionalOverrides>): EdgeLink {
    match o
    case None => EdgeLink(other, e.loss, e.latencyMs, e.snr)
    case Some(d) => EdgeLink(other, Resolve(e.loss, d.loss), Resolve(e.latencyMs, d.latencyMs), Resolve(e.snr, d.snr))
  }

  function EmptyAdjacency(ns: seq<NodeConfig>): Adjacency {
    map n | n in ns :: n.name := []
  }

  /** Both directions of an edge appended; an unknown end is a KeyError. */
  function AddEdge(adj: Adjacency, e: EdgeConfig): Option<Adjacency> {
    if e.a !in adj || e.b !in adj then None
    else
      var adj1 := adj[e.a := adj[e.a] + [LinkOf(e.b, e, e.aToB)]];
      Some(adj1[e.b := adj1[e.b] + [LinkOf(e.a, e, e.bToA)]])
  }

  function AddEdges(adj: Adjacency, es: seq<EdgeConfig>): Option<Adjacency> {
    if es == [] then Some(adj)
    else
      match AddEdges(adj, es[..|es| - 1])
      case None => None
      case Some(front) => AddEdge(front, es[|es| - 1])
  }

  /** `Topology.__init__` */
  function Links(t: TopologyConfig): Option<Adjacency> {
    AddEdges(EmptyAdjacency(t.nodes), t.edges)
  }

  lemma {:induction false} AddEdgesFails(adj: Adjacency, es: seq<EdgeConfig>, i: nat)
    requires i < |es| && AddEdges(adj, es[..i + 1]) == None
    ensures AddEdges(adj, es) == None
  {
    if i < |es| - 1 {
      assert es[..|es| - 1][..i + 1] == es[..i + 1];
      AddEdgesFails(adj, es[..|es| - 1], i);
    } else {
      assert es[..i + 1] == es;
    }
  }

  /** No link leads out of the adjacency. */
  ghost predicate Closed(adj: Adjacency) {
    forall n, l :: n in adj && l in adj[n] ==> l.other in adj
  }

  lemma AddEdgeCloses(adj: Adjacency, e: EdgeConfig)
    requires Closed(adj) && AddEdge(adj, e).Some?
    ensures Closed(AddEdge(adj, e).value) && AddEdge(adj, e).value.Keys == adj.Keys
  {
  }

  /** Every link of a configuration leads to one of its nodes. */
  lemma {:induction false} AddEdgesClose(adj: Adjacency, es: seq<EdgeConfig>)
    requires Closed(adj) && AddEdges(adj, es).Some?
    ensures Closed(AddEdges(adj, es).value) && AddEdges(adj, es).value.Keys == adj.Keys
  {
    if es != [] {
      AddEdgesClose(adj, es[..|es| - 1]);
      AddEdgeCloses(AddEdges(adj, es[..|es| - 1]).value, es[|es| - 1]);
    }
  }

  lemma LinksStayInside(t: TopologyConfig)
    requires Links(t).Some?
    ensures Closed(Links(t).value) && Links(t).value.Keys == set n | n in t.nodes :: n.name
  {
    var none := EmptyAdjacency(t.nodes);
    assert none.Keys == set n | n in t.nodes :: n.name;
    AddEdgesClose(none, t.edges);
  }

  method BuildLinks(t: TopologyConfig) returns (built: Option<Adjacency>)
    ensures built == Links(t)
  {
    var adj: Adjacency := map n | n in t.nodes :: n.name := [];
    ghost var start := adj;
    for i := 0 to |t.edges|
      invariant AddEdges(start, t.edges[..i]) == Some(adj)
    {
      var e := t.edges[i];
      assert t.edges[..i + 1][..i] == t.edges[..i];
      if e.a !in adj || e.b !in adj {
        AddEdgesFails(start, t.edges, i);
        return None;
      }
      adj := adj[e.a := adj[e.a] + [LinkOf(e.b, e, e.aToB)]];
      adj := adj[e.b := adj[e.b] + [LinkOf(e.a, e, e.bToA)]];
    }
    assert t.edges[..|t.edges|] == t.edges;
    built := Some(adj);
  }

  // ---- What a round trip changes --------------------------------------------

  const NO_OVERRIDES := DirectionalOverrides(None, None, None)

  function NormalOverrides(o: Option<DirectionalOverrides>): Option<DirectionalOverrides> {
    if o == Some(NO_OVERRIDES) then None else o
  }

  function NormalEdge(e: EdgeConfig): EdgeConfig {
    e.(aToB := NormalOverrides(e.aToB), bToA := NormalOverrides(e.bToA))
  }

  function NormalEdges(es: seq<EdgeConfig>): (r: seq<EdgeConfig>)
    ensures |r| == |es|
  {
    seq(|es|, i requires 0 <= i < |es| => NormalEdge(es[i]))
  }

  function NormalSimulation(s: SimulationConfig, now: int): SimulationConfig {
    s.(epoch := if s.epoch == 0 then now else s.epoch,
       defaultBinary := if s.defaultBinary == "" then DEFAULT_BINARY else s.defaultBinary)
  }

  function NormalRadio(r: Option<RadioConfig>): Option<RadioConfig> {
    match r case None => None case Some(c) => Some(c.(noiseFloorDbm := DEFAULT_NOISE_FLOOR))
  }

  /** The four things a file does not carry: override objects that override nothing, an epoch
    * of zero, an empty default binary, and the noise floor.
    */
  function Normal(t: TopologyConfig, now: int): TopologyConfig {
    TopologyConfig(t.nodes, NormalEdges(t.edges), NormalSimulation(t.simulation, now), NormalRadio(t.radio))
  }

  // ---- The round trip -------------------------------------------------------

  lemma AdversarialRoundTrip(a: AdversarialConfig)
    ensures LoadAdversarial(JObject(AdversarialDict(a))) == Ok(Some(a))
  {
    var o := AdversarialDict(a);
    assert Mode in o;
  }

  lemma NodeFields(n: NodeConfig)
    ensures var o := NodeDict(n);
            Need(o, Name) == Ok(JString(n.name)) &&
            Truthy(Get(o, Relay, JBool(false))) == n.relay &&
            Truthy(Get(o, RoomServer, JBool(false))) == n.roomServer
  {
  }

  lemma StringNodeFields(n: NodeConfig)
    ensures var o := NodeDict(n);
            OptStr(Get(o, PrvKey, JNull)) == Ok(n.prvKey) && OptStr(Get(o, Binary, JNull)) == Ok(n.binary)
  {
  }

  lemma MoreNodeFields(n: NodeConfig)
    ensures var o := NodeDict(n);
            OptInt(Get(o, MaxHeapKb, JNull)) == Ok(n.maxHeapKb) &&
            OptFloat(Get(o, Lat, JNull)) == Ok(n.lat) &&
            OptFloat(Get(o, Lon, JNull)) == Ok(n.lon) &&
            LoadAdversarial(Get(o, Adversarial, JNull)) == Ok(n.adversarial)
  {
    if n.adversarial.Some? {
      AdversarialRoundTrip(n.adversarial.value);
    }
  }

  lemma NodeRoundTrip(n: NodeConfig)
    ensures LoadNode(JObject(NodeDict(n))) == Ok(n)
  {
    var o := NodeDict(n);
    NodeFields(n);
    StringNodeFields(n);
    MoreNodeFields(n);
    LoadNodeFrom(o, n);
  }

  /** Loading a node is loading its fields. */
  lemma LoadNodeFrom(o: Object, n: NodeConfig)
    requires Need(o, Name) == Ok(JString(n.name))
    requires Truthy(Get(o, Relay, JBool(false))) == n.relay
    requires Truthy(Get(o, RoomServer, JBool(false))) == n.roomServer
    requires OptStr(Get(o, PrvKey, JNull)) == Ok(n.prvKey) && OptStr(Get(o, Binary, JNull)) == Ok(n.binary)
    requires OptInt(Get(o, MaxHeapKb, JNull)) == Ok(n.maxHeapKb)
    requires OptFloat(Get(o, Lat, JNull)) == Ok(n.lat) && OptFloat(Get(o, Lon, JNull)) == Ok(n.lon)
    requires LoadAdversarial(Get(o, Adversarial, JNull)) == Ok(n.adversarial)
    ensures LoadNode(JObject(o)) == Ok(n)
  {
  }

  lemma OverridesRoundTrip(o: Option<DirectionalOverrides>)
    ensures LoadDirectional(JObject(OverridesDict(o))) == Ok(NormalOverrides(o))
    ensures OverridesDict(o) == map[] <==> NormalOverrides(o) == None
  {
    var d := OverridesDict(o);
    if o.Some? && o.value != NO_OVERRIDES {
      assert o.value.loss.Some? ==> Loss in d;
      assert o.value.latencyMs.Some? ==> LatencyMs in d;
      assert o.value.snr.Some? ==> Snr in d;
    }
  }

  lemma EdgeRoundTrip(e: EdgeConfig)
    ensures LoadEdge(JObject(EdgeDict(e))) == Ok(NormalEdge(e))
  {
    var o := EdgeDict(e);
    OverridesRoundTrip(e.aToB);
    OverridesRoundTrip(e.bToA);
    assert Need(o, A) == Ok(JString(e.a)) && Need(o, B) == Ok(JString(e.b));
    assert ToFloat(Get(o, Loss, JReal(0.0))) == Ok(e.loss);
    assert ToFloat(Get(o, LatencyMs, JReal(0.0))) == Ok(e.latencyMs);
    assert ToFloat(Get(o, Snr, JReal(6.0))) == Ok(e.snr);
    assert Get(o, AToB, JObject(map[])) == JObject(OverridesDict(e.aToB));
    assert Get(o, BToA, JObject(map[])) == JObject(OverridesDict(e.bToA));
  }

  lemma SimulationRoundTrip(s: SimulationConfig, now: int)
    ensures LoadSimulation(JObject(SimulationDict(s)), now) == Ok(NormalSimulation(s, now))
  {
    var o := SimulationDict(s);
    assert OptInt(Get(o, DefaultMaxHeapKb, JNull)) == Ok(s.defaultMaxHeapKb);
    assert Get(o, Seed, JNull) == s.seed;
    assert Get(o, DefaultBinary, JNull) == JString(s.defaultBinary);
    assert AgentBinary !in o;
  }

  lemma {:induction false} NodesRoundTrip(ns: seq<NodeConfig>)
    ensures LoadNodes(NodeDicts(ns)) == Ok(ns)
  {
    if ns != [] {
      var n := |ns| - 1;
      NodesRoundTrip(ns[..n]);
      assert NodeDicts(ns)[..n] == NodeDicts(ns[..n]);
      NodeRoundTrip(ns[n]);
      assert ns[..n] + [ns[n]] == ns;
    }
  }

  lemma {:induction false} EdgesRoundTrip(es: seq<EdgeConfig>)
    ensures LoadEdges(EdgeDicts(es)) == Ok(NormalEdges(es))
  {
    if es != [] {
      var n := |es| - 1;
      EdgesRoundTrip(es[..n]);
      assert EdgeDicts(es)[..n] == EdgeDicts(es[..n]);
      EdgeRoundTrip(es[n]);
      assert NormalEdges(es) == NormalEdges(es[..n]) + [NormalEdge(es[n])];
    }
  }

  lemma TopologyFields(t: TopologyConfig)
    ensures var o := TopologyDict(t);
            && Get(o, Nodes, JList([])) == JList(NodeDicts(t.nodes))
            && Get(o, Edges, JList([])) == JList(EdgeDicts(t.edges))
            && Get(o, Simulation, JObject(map[])) == JObject(SimulationDict(t.simulation))
            && LoadRadio(Get(o, Radio, JNull)) == Ok(NormalRadio(t.radio))
  {
  }

  /** Loading what was written gives the normal form, for every configuration. */
  lemma RoundTrip(t: TopologyConfig, now: int)
    ensures Load(TopologyDict(t), now) == Ok(Normal(t, now))
  {
    NodesRoundTrip(t.nodes);
    EdgesRoundTrip(t.edges);
    SimulationRoundTrip(t.simulation, now);
    TopologyFields(t);
  }

  /** The documented lossless round trip holds exactly when none of the four things is there. */
  lemma LosslessExactlyWhen(t: TopologyConfig, now: int)
    ensures Load(TopologyDict(t), now) == Ok(t) <==>
            (forall e :: e in t.edges ==> e.aToB != Some(NO_OVERRIDES) && e.bToA != Some(NO_OVERRIDES)) &&
            (t.simulation.epoch != 0 || now == 0) && t.simulation.defaultBinary != "" &&
            (t.radio.Some? ==> t.radio.value.noiseFloorDbm == DEFAULT_NOISE_FLOOR)
  {
    RoundTrip(t, now);
    if forall e :: e in t.edges ==> e.aToB != Some(NO_OVERRIDES) && e.bToA != Some(NO_OVERRIDES) {
      assert NormalEdges(t.edges) == t.edges;
    } else {
      var i :| 0 <= i < |t.edges| && (t.edges[i].aToB == Some(NO_OVERRIDES) || t.edges[i].bToA == Some(NO_OVERRIDES));
      assert NormalEdges(t.edges)[i] != t.edges[i];
    }
  }

  /** Once written and read, a configuration stays as it is, unless the clock read zero the first time
    * for an epoch of zero and reads something else now.
    */
  lemma SecondRoundTripIsIdentity(t: TopologyConfig, now: int, later: int)
    ensures Load(TopologyDict(Normal(t, now)), later) == Ok(Normal(t, now)) <==>
            t.simulation.epoch != 0 || now != 0 || later == 0
  {
    RoundTrip(Normal(t, now), later);
    assert NormalEdges(NormalEdges(t.edges)) == NormalEdges(t.edges);
  }

  /** A missing override object and one that overrides nothing denote the same link. */
  lemma LinkOfNormal(other: string, e: EdgeConfig, o: Option<DirectionalOverrides>)
    ensures LinkOf(other, e, NormalOverrides(o)) == LinkOf(other, e, o)
  {
  }

  lemma {:induction false} AddNormalEdges(adj: Adjacency, es: seq<EdgeConfig>)
    ensures AddEdges(adj, NormalEdges(es)) == AddEdges(adj, es)
  {
    if es != [] {
      var n := |es| - 1;
      AddNormalEdges(adj, es[..n]);
      assert NormalEdges(es)[..n] == NormalEdges(es[..n]);
      var e := es[n];
      assert LinkOf(e.b, NormalEdge(e), NormalEdge(e).aToB) == LinkOf(e.b, e, e.aToB);
      assert LinkOf(e.a, NormalEdge(e), NormalEdge(e).bToA) == LinkOf(e.a, e, e.bToA);
    }
  }

  /** Writing and reading a topology never changes the directed graph it denotes. */
  lemma RoundTripKeepsLinks(t: TopologyConfig, now: int)
    ensures Load(TopologyDict(t), now).Ok?
    ensures Links(Load(TopologyDict(t), now).value) == Links(t)
  {
    RoundTrip(t, now);
    AddNormalEdges(EmptyAdjacency(t.nodes), t.edges);
  }

  // ---- What the adjacency holds ---------------------------------------------

  /** The links edge `e` contributes to the list of node `v`, in order. */
  function LinksFrom(e: EdgeConfig, v: string): seq<EdgeLink> {
    (if e.a == v then [LinkOf(e.b, e, e.aToB)] else []) + (if e.b == v then [LinkOf(e.a, e, e.bToA)] else [])
  }

  function AllLinksFrom(es: seq<EdgeConfig>, v: string): seq<EdgeLink> {
    if es == [] then [] else AllLinksFrom(es[..|es| - 1], v) + LinksFrom(es[|es| - 1], v)
  }

  lemma AddEdgeLists(adj: Adjacency, e: EdgeConfig)
    requires e.a in adj && e.b in adj
    ensures AddEdge(adj, e).Some? && AddEdge(adj, e).value.Keys == adj.Keys
    ensures forall v :: v in adj ==> AddEdge(adj, e).value[v] == adj[v] + LinksFrom(e, v)
  {
    forall v | v in adj
      ensures AddEdge(adj, e).value[v] == adj[v] + LinksFrom(e, v)
    {
      if e.a == v && e.b == v {
        assert adj[v] + [LinkOf(e.b, e, e.aToB)] + [LinkOf(e.a, e, e.bToA)] == adj[v] + LinksFrom(e, v);
      } else if e.a != v && e.b != v {
        assert adj[v] + [] == adj[v];
      }
    }
  }

  lemma {:induction false} AddEdgesDefined(adj: Adjacency, es: seq<EdgeConfig>)
    ensures AddEdges(adj, es).Some? <==> forall e :: e in es ==> e.a in adj && e.b in adj
    ensures AddEdges(adj, es).Some? ==> AddEdges(adj, es).value.Keys == adj.Keys
  {
    if es != [] {
      var n := |es| - 1;
      AddEdgesDefined(adj, es[..n]);
      assert forall e :: e in es <==> e in es[..n] || e == es[n];
      var front := AddEdges(adj, es[..n]);
      if front.Some? && es[n].a in adj && es[n].b in adj {
        AddEdgeLists(front.value, es[n]);
      }
    }
  }

  /** The lists are complete and in file order: each edge appears once in each direction, at
    * its own end only.  Building fails exactly on an edge with an unknown end.
    */
  lemma {:induction false} AdjacencyIsEdges(adj: Adjacency, es: seq<EdgeConfig>, v: string)
    requires v in adj
    ensures AddEdges(adj, es).Some? <==> forall e :: e in es ==> e.a in adj && e.b in adj
    ensures AddEdges(adj, es).Some? ==>
              v in AddEdges(adj, es).value && AddEdges(adj, es).value[v] == adj[v] + AllLinksFrom(es, v)
  {
    AddEdgesDefined(adj, es);
    if es != [] && AddEdges(adj, es).Some? {
      var n := |es| - 1;
      AddEdgesDefined(adj, es[..n]);
      AdjacencyIsEdges(adj, es[..n], v);
      var front := AddEdges(adj, es[..n]).value;
      AddEdgeLists(front, es[n]);
      assert adj[v] + AllLinksFrom(es[..n], v) + LinksFrom(es[n], v) == adj[v] + AllLinksFrom(es, v);
    }
  }

  // ---- Every link, field by field ---------------------------------------------

  /** The link is the view of the edge from `a` (forward) or from `b`: each property is what that
    * direction overrides, or else the edge's own.
    */
  ghost predicate IsView(l: EdgeLink, e: EdgeConfig, forward: bool) {
    var o := if forward then e.aToB else e.bToA;
    && l.other == (if forward then e.b else e.a)
    && l.loss == (if o.Some? && o.value.loss.Some? then o.value.loss.value else e.loss)
    && l.latencyMs == (if o.Some? && o.value.latencyMs.Some? then o.value.latencyMs.value else e.latencyMs)
    && l.snr == (if o.Some? && o.value.snr.Some? then o.value.snr.value else e.snr)
  }

  /** The ends of edges at `v`, as an edge's number and whether it is its first end. */
  function EndsAt(es: seq<EdgeConfig>, v: string): seq<(nat, bool)> {
    if es == [] then []
    else
      var n := |es| - 1;
      EndsAt(es[..n], v) + (if es[n].a == v then [(n, true)] else []) + (if es[n].b == v then [(n, false)] else [])
  }

  ghost predicate Before(x: (nat, bool), y: (nat, bool)) {
    x.0 < y.0 || (x.0 == y.0 && x.1 && !y.1)
  }

  ghost predicate InOrder(ends: seq<(nat, bool)>) {
    forall j, k :: 0 <= j < k < |ends| ==> Before(ends[j], ends[k])
  }

  lemma {:induction false} EndsAtComplete(es: seq<EdgeConfig>, v: string, i: nat, forward: bool)
    ensures (i, forward) in EndsAt(es, v) <==> i < |es| && v == if forward then es[i].a else es[i].b
  {
    if es != [] {
      EndsAtComplete(es[..|es| - 1], v, i, forward);
    }
  }

  lemma AppendEnd(ends: seq<(nat, bool)>, x: (nat, bool))
    requires InOrder(ends) && forall y :: y in ends ==> Before(y, x)
    ensures InOrder(ends + [x])
  {
  }

  lemma {:induction false} EndsAtInOrder(es: seq<EdgeConfig>, v: string)
    ensures InOrder(EndsAt(es, v))
  {
    if es != [] {
      var n := |es| - 1;
      var front := EndsAt(es[..n], v);
      EndsAtInOrder(es[..n], v);
      forall y | y in front
        ensures y.0 < n
      {
        EndsAtComplete(es[..n], v, y.0, y.1);
      }
      AppendEnd(front, (n, true));
      AppendEnd(front, (n, false));
      AppendEnd(front + [(n, true)], (n, false));
    }
  }

  /** All ends at `v` are listed, each once: edges in file order, the first end before the second. */
  lemma EndsAtListed(es: seq<EdgeConfig>, v: string)
    ensures forall i: nat, forward: bool ::
              (i, forward) in EndsAt(es, v) <==> i < |es| && v == if forward then es[i].a else es[i].b
    ensures InOrder(EndsAt(es, v))
  {
    forall i: nat, forward: bool
      ensures (i, forward) in EndsAt(es, v) <==> i < |es| && v == if forward then es[i].a else es[i].b
    {
      EndsAtComplete(es, v, i, forward);
    }
    EndsAtInOrder(es, v);
  }

  lemma ViewsOf(e: EdgeConfig)
    ensures IsView(LinkOf(e.b, e, e.aToB), e, true) && IsView(LinkOf(e.a, e, e.bToA), e, false)
  {
  }

  lemma {:induction false} AllViews(es: seq<EdgeConfig>, v: string)
    ensures |AllLinksFrom(es, v)| == |EndsAt(es, v)|
    ensures forall k :: 0 <= k < |EndsAt(es, v)| ==>
              EndsAt(es, v)[k].0 < |es| && IsView(AllLinksFrom(es, v)[k], es[EndsAt(es, v)[k].0], EndsAt(es, v)[k].1)
  {
    if es != [] {
      AllViews(es[..|es| - 1], v);
      ViewsOf(es[|es| - 1]);
    }
  }

  /** The list of a node holds one view of each of its edges' ends at it, and nothing else. */
  lemma LinksAreViews(t: TopologyConfig, v: string)
    requires Links(t).Some? && v in Links(t).value
    ensures var links, ends := Links(t).value[v], EndsAt(t.edges, v);
            && |links| == |ends|
            && (forall k :: 0 <= k < |ends| ==>
                  ends[k].0 < |t.edges| && IsView(links[k], t.edges[ends[k].0], ends[k].1))
  {
    var none := EmptyAdjacency(t.nodes);
    AddEdgesDefined(none, t.edges);
    AdjacencyIsEdges(none, t.edges, v);
    AllViews(t.edges, v);
    assert none[v] + AllLinksFrom(t.edges, v) == AllLinksFrom(t.edges, v);
  }
}
