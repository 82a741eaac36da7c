/** What the router's machine does, said without it: from the links and the radio of the simulation,
  * and from the transmissions of a run.
  */
module RouterLaws {
  import opened Common
  import opened Channel
  import opened Collision
  import opened OrderedDict
  import opened TopologyConfig
  import opened Topology
  import opened RouterModel
  import opened RouterCounts
  import Airtime

  // ---- The router of a simulation ---------------------------------------------

  /** Node `i` is the last one listed under its name. */
  ghost predicate IsLastNode(ns: seq<NodeConfig>, i: nat) {
    i < |ns| && forall j :: i < j < |ns| ==> ns[j].name != ns[i].name
  }

  lemma {:induction false} AgentsLaw(ns: seq<NodeConfig>, name: string, default: NodeConfig)
    ensures DistinctKeys(Agents(ns))
    ensures Has(Agents(ns), name) <==> exists n :: n in ns && n.name == name
    ensures forall i: nat :: IsLastNode(ns, i) && ns[i].name == name ==> GetOr(Agents(ns), name, default) == ns[i]
  {
    if ns != [] {
      var front, last := ns[..|ns| - 1], ns[|ns| - 1];
      assert ns == front + [last];
      AgentsLaw(front, name, default);
      PutKeepsDistinct(Agents(front), last.name, last);
      GetAfterPut(Agents(front), last.name, last, name, default);
      assert forall i: nat :: IsLastNode(ns, i) && i < |front| ==> IsLastNode(front, i) && ns[i].name != last.name;
      assert forall n :: n in ns <==> n in front || n == last;
    }
  }

  lemma {:induction false} LastNode(ns: seq<NodeConfig>, name: string) returns (i: nat)
    requires exists n :: n in ns && n.name == name
    ensures IsLastNode(ns, i) && ns[i].name == name
  {
    var last := |ns| - 1;
    if ns[last].name == name {
      i := last;
    } else {
      assert ns == ns[..last] + [ns[last]];
      i := LastNode(ns[..last], name);
    }
  }

  lemma {:induction false} AdversariesLaw(agents: Dict<string, NodeConfig>, name: string, cfg: AdversarialConfig)
    ensures (name, cfg) in Adversaries(agents) <==>
            exists e :: e in agents && e.0 == name && e.1.adversarial == Some(cfg)
  {
    if agents != [] {
      var front, last := agents[..|agents| - 1], agents[|agents| - 1];
      assert agents == front + [last];
      AdversariesLaw(front, name, cfg);
    }
  }

  /** An agent for every name; as adversaries those whose node, the last of that name, is configured as
    * one, with that configuration; and without a radio section SF 10, 250 kHz, CR 4/5 and eight symbols.
    */
  lemma WiringLaw(t: TopologyConfig, s: Setup, name: string, cfg: AdversarialConfig)
    requires Wired(t) == Some(s)
    ensures Links(t) == Some(s.links)
    ensures name in s.agents <==> exists n :: n in t.nodes && n.name == name
    ensures (name, cfg) in s.adversaries <==>
            exists i: nat :: IsLastNode(t.nodes, i) && t.nodes[i].name == name && t.nodes[i].adversarial == Some(cfg)
    ensures s.radio == if t.radio.Some? then t.radio.value else RadioConfig(10, 250000, 1, 8, -120.0)
  {
    var d := Agents(t.nodes);
    AdversariesLaw(d, name, cfg);
    if exists n :: n in t.nodes && n.name == name {
      var i := LastNode(t.nodes, name);
      AgentsLaw(t.nodes, name, t.nodes[i]);
      OneAgent(d, name, t.nodes[i]);
      assert forall j: nat :: IsLastNode(t.nodes, j) && t.nodes[j].name == name ==> j == i;
    } else if d != [] {
      AgentsLaw(t.nodes, name, d[0].1);
      NoAgentOf(d, name);
    }
  }

  lemma OneAgent(d: Dict<string, NodeConfig>, name: string, n: NodeConfig)
    requires DistinctKeys(d) && Has(d, name) && GetOr(d, name, n) == n
    ensures forall e :: e in d && e.0 == name ==> e.1 == n
    ensures (name, n) in d
  {
    forall e | e in d && e.0 == name
      ensures e.1 == n
    {
      var i :| 0 <= i < |d| && d[i] == e;
      FindIs(d, i);
    }
  }

  lemma NoAgentOf(d: Dict<string, NodeConfig>, name: string)
    requires !Has(d, name)
    ensures forall e :: e in d ==> e.0 != name
  {
  }

  // ---- The channel of a simulation --------------------------------------------

  /** Link `i` is the last of those from `a` to the same node. */
  ghost predicate IsLastLink(s: Setup, a: string, i: nat) {
    a in s.links && i < |s.links[a]| &&
    forall j :: i < j < |s.links[a]| ==> s.links[a][j].other != s.links[a][i].other
  }

  lemma {:induction false} LastInTable(links: seq<EdgeLink>, property: EdgeLink -> real, i: nat)
    requires i < |links| && forall j :: i < j < |links| ==> links[j].other != links[i].other
    ensures links[i].other in LinkTable(links, property)
    ensures LinkTable(links, property)[links[i].other] == property(links[i])
  {
    if i < |links| - 1 {
      LastInTable(links[..|links| - 1], property, i);
    }
  }

  /** The channel takes SNR and milliseconds of the last link to a node, and captures from 6 dB. */
  lemma ChannelLaw(s: Setup, a: string, i: nat)
    requires IsLastLink(s, a, i)
    ensures var c, l := ChannelOf(s), s.links[a][i];
            && a in c.linkSnr && l.other in c.linkSnr[a] && c.linkSnr[a][l.other] == l.snr
            && a in c.linkLatencyMs && l.other in c.linkLatencyMs[a] && c.linkLatencyMs[a][l.other] == l.latencyMs
            && c.captureDb == 6.0 && c.sf == s.radio.sf && c.bwHz == s.radio.bwHz && c.cr == s.radio.cr
            && c.preambleSymbols == s.radio.preambleSymbols
  {
    LastInTable(s.links[a], (l: EdgeLink) => l.snr, i);
    LastInTable(s.links[a], (l: EdgeLink) => l.latencyMs, i);
  }

  /** Nothing is heard where there is no link. */
  lemma NoLinkNoSignal(s: Setup, a: string, b: string)
    requires forall l :: l in Neighbours(s, a) ==> l.other != b
    ensures !(a in ChannelOf(s).linkSnr && b in ChannelOf(s).linkSnr[a])
  {
    if a in s.links && b in LinkTable(s.links[a], (l: EdgeLink) => l.snr) {
      LinkTableHas(s.links[a], (l: EdgeLink) => l.snr, b);
    }
  }

  lemma {:induction false} LinkTableHas(links: seq<EdgeLink>, property: EdgeLink -> real, name: string)
    requires name in LinkTable(links, property)
    ensures exists l :: l in links && l.other == name
  {
    var n := |links| - 1;
    if links[n].other == name {
      assert links[n] in links;
    } else {
      LinkTableHas(links[..n], property, name);
      var l :| l in links[..n] && l.other == name;
      assert l in links;
    }
  }

  // ---- Time on air --------------------------------------------------------------

  /** A packet of the router has its checksum and an explicit header. */
  lemma AirLaw(s: Setup, packet: Bytes, t: real, k: int)
    requires t * s.radio.bwHz as real == 1000.0 * Pow2(s.radio.sf) as real
    requires Airtime.IsBlocks(8 * |packet| - 4 * s.radio.sf + 44,
                              if t >= 16.0 then 4 * s.radio.sf - 8 else 4 * s.radio.sf, k)
    ensures Airtime.Lasts(AirMillis(s, packet), s.radio.preambleSymbols, Airtime.CodedBlocks(k, s.radio.cr), t)
    ensures AirSeconds(s, packet) == AirMillis(s, packet) / 1000.0
  {
    Airtime.FormulaLaw(s.radio.sf, s.radio.bwHz, s.radio.cr, |packet|, s.radio.preambleSymbols, true, true, t, k);
  }

  // ---- When a delivery wakes up -----------------------------------------------

  /** A delivery that is not stopped sleeps until its transmission is over and has travelled over the
    * link, a replay as long as it travels, and neither into the past; it carries what it carried, or
    * what the corrupting filter of its receiver made of it.
    */
  lemma WakeLaw(s: Setup, w: World, id: nat, lossDraw: real, advDraw: real, corrupted: Bytes)
    requires id in w.tasks && |w.buffers| == |s.adversaries|
    requires id in Begin(s, w, id, lossDraw, advDraw, corrupted).tasks
    ensures var t, t' := w.tasks[id], Begin(s, w, id, lossDraw, advDraw, corrupted).tasks[id];
            && t' == t.(packet := t'.packet, stage := t'.stage) && t'.stage.Waiting?
            && (t.window.Some? ==>
                  t'.stage.until == MaxReal(w.now, t.window.value.1 + t.link.latencyMs / 1000.0))
            && (t.window.None? ==> t'.stage.until == w.now + MaxReal(0.0, t.link.latencyMs) / 1000.0)
            && t'.packet == if IsFiltered(s, t, advDraw, "corrupt") then corrupted else t.packet
  {
    FilterCause(s, w.tasks[id], advDraw);
  }

  // ---- The verdict ------------------------------------------------------------

  /** `q` is on air at `receiver`, which sent it, while the packet arrives over the link of the delivery. */
  ghost predicate InTheWay(t: Task, q: Tx) {
    t.window.Some? && q.sender == t.link.other &&
    q.start < t.window.value.1 + t.link.latencyMs / 1000.0 && t.window.value.0 + t.link.latencyMs / 1000.0 < q.end
  }

  ghost predicate Spoils(s: Setup, t: Task, q: Tx, loss: Loss) {
    t.window.Some? && t.txId.Some? &&
    Collides(ChannelOf(s), Flight(t.sender, t.link.other, t.window.value.0, t.window.value.1, t.txId.value), q)
      == Some(loss)
  }

  ghost predicate SomeInTheWay(store: seq<Tx>, t: Task) {
    exists q :: q in store && InTheWay(t, q)
  }

  ghost predicate FirstInTheWay(store: seq<Tx>, t: Task, i: nat) {
    i < |store| && InTheWay(t, store[i]) && forall j :: 0 <= j < i ==> !InTheWay(t, store[j])
  }

  ghost predicate SomeSpoils(s: Setup, store: seq<Tx>, t: Task) {
    exists q, loss :: q in store && Spoils(s, t, q, loss)
  }

  ghost predicate FirstSpoils(s: Setup, store: seq<Tx>, t: Task, i: nat, loss: Loss) {
    i < |store| && Spoils(s, t, store[i], loss) && forall j, other :: 0 <= j < i ==> !Spoils(s, t, store[j], other)
  }

  /** Half-duplex comes first, then collision, then reception; the transmission named is the first
    * registered of those to blame.
    */
  lemma VerdictLaw(s: Setup, store: seq<Tx>, t: Task)
    ensures match Verdict(s, store, t)
            case HalfDuplex(id) => exists i: nat :: FirstInTheWay(store, t, i) && store[i].id == id
            case Collided(loss) => !SomeInTheWay(store, t) && exists i: nat :: FirstSpoils(s, store, t, i, loss)
            case Received(r) =>
              !SomeInTheWay(store, t) && !SomeSpoils(s, store, t) && r == t.link.other && r in s.agents
            case NoAgent => !SomeInTheWay(store, t) && !SomeSpoils(s, store, t) && t.link.other !in s.agents
            case _ => false
  {
    if t.window.Some? {
      BusyLaw(store, t);
      if t.txId.Some? {
        LossLaw(s, store, t);
      }
    }
  }

  lemma BusyLaw(store: seq<Tx>, t: Task)
    requires t.window.Some?
    ensures var lat := t.link.latencyMs / 1000.0;
            var busy := FirstBusy(store, t.link.other, t.window.value.0 + lat, t.window.value.1 + lat);
            && (busy.Some? <==> SomeInTheWay(store, t))
            && (busy.Some? ==> exists i: nat :: FirstInTheWay(store, t, i) && store[i] == busy.value)
  {
    var lat := t.link.latencyMs / 1000.0;
    var rxStart, rxEnd := t.window.value.0 + lat, t.window.value.1 + lat;
    BusyExactlyWhen(store, t.link.other, rxStart, rxEnd);
    var busy := FirstBusy(store, t.link.other, rxStart, rxEnd);
    assert forall q :: InTheWay(t, q) <==> Blocks(q, t.link.other, rxStart, rxEnd);
    if busy.Some? {
      var i :| 0 <= i < |store| && Some(store[i]) == busy && Blocks(store[i], t.link.other, rxStart, rxEnd) &&
        forall j :: 0 <= j < i ==> !Blocks(store[j], t.link.other, rxStart, rxEnd);
      assert FirstInTheWay(store, t, i);
    }
  }

  lemma LossLaw(s: Setup, store: seq<Tx>, t: Task)
    requires t.window.Some? && t.txId.Some?
    ensures var loss := FirstLoss(ChannelOf(s), store, FlightOf(t));
            && (loss.Some? <==> SomeSpoils(s, store, t))
            && (loss.Some? ==> exists i: nat :: FirstSpoils(s, store, t, i, loss.value))
  {
    var c, f := ChannelOf(s), FlightOf(t);
    LostExactlyWhen(c, store, f);
    var loss := FirstLoss(c, store, f);
    assert forall q, l :: Spoils(s, t, q, l) <==> Collides(c, f, q) == Some(l);
    if loss.Some? {
      var i :| 0 <= i < |store| && Collides(c, f, store[i]) == loss &&
        forall j :: 0 <= j < i ==> Collides(c, f, store[j]) == None;
      assert FirstSpoils(s, store, t, i, loss.value);
    }
    if SomeSpoils(s, store, t) {
      var q, l :| q in store && Spoils(s, t, q, l);
      assert Collides(c, f, q).Some?;
    }
  }
}
