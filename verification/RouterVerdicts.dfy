/** Deciding a delivery late, from a pruned store, loses nothing.
  *
  * A reception is judged when it is over, from what the channel still remembers.  In every
  * reachable state each verdict given in time is the one a channel that never forgets would
  * give now, with everything transmitted since in its history.
  */
module RouterVerdicts {
  import opened Common
  import opened Channel
  import opened Collision
  import opened Topology
  import opened RouterModel
  import Airtime
  import Packet

  // ---- Properties of a topology ---------------------------------------------

  /** No negative latency, and no two links from one node to the same other node. */
  ghost predicate PlainLinks(s: Setup) {
    forall n :: n in s.links ==> Plain(s.links[n])
  }

  ghost predicate Plain(links: seq<EdgeLink>) {
    (forall l :: l in links ==> l.latencyMs >= 0.0) &&
    forall i, j :: 0 <= i < j < |links| ==> links[i].other != links[j].other
  }

  lemma {:induction false} LinkTableOf(links: seq<EdgeLink>, property: EdgeLink -> real, i: nat)
    requires i < |links| && Plain(links)
    ensures links[i].other in LinkTable(links, property)
    ensures LinkTable(links, property)[links[i].other] == property(links[i])
  {
    if i < |links| - 1 {
      LinkTableOf(links[..|links| - 1], property, i);
    }
  }

  lemma {:induction false} LinkTableEntries(links: seq<EdgeLink>, property: EdgeLink -> real, name: string)
    requires name in LinkTable(links, property)
    ensures exists l :: l in links && LinkTable(links, property)[name] == property(l)
  {
    var n := |links| - 1;
    if links[n].other == name {
      assert links[n] in links;
    } else {
      LinkTableEntries(links[..n], property, name);
      var l :| l in links[..n] && LinkTable(links[..n], property)[name] == property(l);
      assert l in links;
    }
  }

  /** The channel shifts a delivery by the latency of the link it travels on. */
  lemma ChannelLatency(s: Setup, sender: string, l: EdgeLink)
    requires PlainLinks(s) && l in Neighbours(s, sender)
    ensures LatencyS(ChannelOf(s), sender, l.other) == l.latencyMs / 1000.0
  {
    var i :| 0 <= i < |s.links[sender]| && s.links[sender][i] == l;
    LinkTableOf(s.links[sender], (k: EdgeLink) => k.latencyMs, i);
  }

  lemma LatencyNotNegative(s: Setup, a: string, b: string)
    requires PlainLinks(s)
    ensures LatencyS(ChannelOf(s), a, b) >= 0.0
  {
    if a in s.links && b in LinkTable(s.links[a], (k: EdgeLink) => k.latencyMs) {
      LinkTableEntries(s.links[a], (k: EdgeLink) => k.latencyMs, b);
    }
  }

  // ---- Times on air ---------------------------------------------------------

  /** The shortest packet that decodes: a flood header and an empty path. */
  const SHORT: Bytes := [1, 0]

  lemma ShortDecodes()
    ensures Packet.DecodeRaw(SHORT).Some?
  {
  }

  /** `d` is how long some packet that gets a tx_id is on air. */
  ghost predicate IsAirtime(s: Setup, d: real) {
    exists packet: Bytes :: Packet.DecodeRaw(packet).Some? && AirSeconds(s, packet) == d
  }

  ghost predicate Lasting(s: Setup, start: real, end: real) {
    end - start >= TPreamble(ChannelOf(s))
  }

  /** The symbol time of the channel and that of the airtime formula. */
  lemma SymbolTimes(s: Setup)
    ensures TSym(ChannelOf(s)) == Airtime.TSymMs(s.radio.sf, s.radio.bwHz) / 1000.0
  {
    Airtime.TSymSeconds(s.radio.sf, s.radio.bwHz);
  }

  /** Every transmission lasts longer than its preamble. */
  lemma AirSecondsLong(s: Setup, packet: Bytes)
    ensures AirSeconds(s, packet) >= TPreamble(ChannelOf(s)) > 0.0
  {
    SymbolTimes(s);
    Airtime.LongerThanPreamble(s.radio.sf, s.radio.bwHz, s.radio.cr, |packet|, s.radio.preambleSymbols, true, true,
                               TSym(ChannelOf(s)));
  }

  // ---- Invariants -----------------------------------------------------------

  /** The store is the history without what ended five seconds before the last transmission. */
  ghost predicate StoreOk(w: World) {
    (forall q :: q in w.history ==> q.start <= w.now && q.id <= w.txCounter) &&
    (forall q :: q in w.active ==> q.id <= w.txCounter) &&
    w.active == Kept(w.history, Horizon(w))
  }

  ghost function Horizon(w: World): real {
    (if w.history == [] then w.now else w.history[|w.history| - 1].start) - 5.0
  }

  ghost predicate WindowOk(s: Setup, window: Option<(real, real)>, now: real) {
    window.Some? ==> Lasting(s, window.value.0, window.value.1) && window.value.0 <= now
  }

  function Latency(t: Task): real {
    t.link.latencyMs / 1000.0
  }

  ghost predicate TaskOk(s: Setup, t: Task, now: real) {
    t.link in Neighbours(s, t.sender) && WindowOk(s, t.window, now) &&
    (t.window.Some? && t.stage.Waiting? ==> t.stage.until >= t.window.value.1 + Latency(t))
  }

  ghost predicate TasksOk(s: Setup, w: World) {
    (forall id :: id in w.tasks ==> TaskOk(s, w.tasks[id], w.now)) &&
    forall b :: b in w.broadcasts ==> Lasting(s, b.start, b.end) && b.start <= w.now
  }

  /** Judged when it was over at the receiver. */
  ghost predicate DecisionOk(s: Setup, d: Decision, now: real) {
    d.at <= now && TaskOk(s, d.task, now) &&
    (IsVerdict(d.outcome) && d.task.window.Some? ==> d.at >= d.task.window.value.1 + Latency(d.task))
  }

  ghost predicate DecisionsOk(s: Setup, w: World) {
    forall id :: id in w.decisions ==> DecisionOk(s, w.decisions[id], w.now)
  }

  /** A transmission of `n` can destroy what `receiver` hears of `sender`: it is audible, and the
    * sender is not strong enough to capture the receiver.
    */
  predicate CanDestroy(s: Setup, sender: string, receiver: string, n: string) {
    var c := ChannelOf(s);
    n != sender && Snr(c, n, receiver).Some? &&
    !(Snr(c, sender, receiver).Some? && Snr(c, sender, receiver).value - Snr(c, n, receiver).value >= c.captureDb)
  }

  /** Nothing that ended before `horizon` can matter to the delivery: not to half-duplex, where
    * the window is shifted by the link's latency, and not to collisions, where the channel shifts
    * it by its own and a grace period is allowed.
    */
  ghost predicate Remembers(s: Setup, t: Task, horizon: real) {
    t.window.Some? ==>
      horizon <= t.window.value.0 + Latency(t) &&
      (t.txId.Some? ==>
         forall n :: CanDestroy(s, t.sender, t.link.other, n) ==>
           horizon + LatencyS(ChannelOf(s), n, t.link.other) <=
           RxStart(ChannelOf(s), FlightOf(t)) + Grace(ChannelOf(s)))
  }

  /** Judged while everything that can matter was still remembered. */
  ghost predicate InTime(s: Setup, d: Decision) {
    Remembers(s, d.task, d.at - 5.0)
  }

  /** A delivery over `l` is judged when no later transmission can spoil it: the channel's latency
    * from `sender`, that of the last of parallel links, exceeds the latency of `l` by no more than
    * the latency of any interferer and what coding corrects.
    */
  ghost predicate LinkIsFinal(s: Setup, sender: string, l: EdgeLink) {
    forall n :: CanDestroy(s, sender, l.other, n) ==>
      LatencyS(ChannelOf(s), sender, l.other) <=
      l.latencyMs / 1000.0 + LatencyS(ChannelOf(s), n, l.other) + FecTolerance(ChannelOf(s))
  }

  ghost predicate TaskIsFinal(s: Setup, t: Task) {
    LinkIsFinal(s, t.sender, t.link)
  }

  ghost predicate Final(s: Setup, w: World) {
    forall id :: id in w.decisions && IsVerdict(w.decisions[id].outcome) && InTime(s, w.decisions[id]) &&
                 TaskIsFinal(s, w.decisions[id].task) ==>
      w.decisions[id].outcome == Verdict(s, w.history, w.decisions[id].task)
  }

  ghost predicate Sound(s: Setup, w: World) {
    StoreOk(w) && TasksOk(s, w) && DecisionsOk(s, w) && Final(s, w)
  }

  // ---- Why a late verdict is final ------------------------------------------

  lemma Destroys(s: Setup, f: Flight, q: Tx)
    ensures Collides(ChannelOf(s), f, q).Some? ==> CanDestroy(s, f.sender, f.receiver, q.sender)
  {
    CollisionRule(ChannelOf(s), f, q);
  }

  /** What starts when the reception is over does not change what the history says of it. */
  lemma LaterTxKeepsVerdict(s: Setup, history: seq<Tx>, later: seq<Tx>, t: Task)
    requires TaskIsFinal(s, t)
    requires t.window.Some? ==> Lasting(s, t.window.value.0, t.window.value.1)
    requires t.window.Some? ==> forall q :: q in later ==>
               Lasting(s, q.start, q.end) && q.start >= t.window.value.1 + Latency(t)
    ensures Verdict(s, history + later, t) == Verdict(s, history, t)
  {
    if t.window.Some? {
      LateTxBlocksNothing(history, later, t.link.other, t.window.value.0 + Latency(t), t.window.value.1 + Latency(t));
      if t.txId.Some? {
        forall q | q in later
          ensures Collides(ChannelOf(s), FlightOf(t), q) == None
        {
          LateTxDestroysNothing(s, t, q);
        }
        FirstLossConcat(ChannelOf(s), history, later, FlightOf(t));
        LostExactlyWhen(ChannelOf(s), later, FlightOf(t));
      }
    }
  }

  lemma LateTxDestroysNothing(s: Setup, t: Task, q: Tx)
    requires TaskIsFinal(s, t) && t.window.Some? && t.txId.Some? && q.start >= t.window.value.1 + Latency(t)
    requires Lasting(s, t.window.value.0, t.window.value.1) && Lasting(s, q.start, q.end)
    ensures Collides(ChannelOf(s), FlightOf(t), q) == None
  {
    Destroys(s, FlightOf(t), q);
    ToleranceAndGrace(ChannelOf(s));
    CollisionRule(ChannelOf(s), FlightOf(t), q);
  }

  /** A store pruned five seconds before the decision, or earlier, gives the history's verdict. */
  lemma PrunedStoreGivesVerdict(s: Setup, history: seq<Tx>, horizon: real, t: Task)
    requires Remembers(s, t, horizon)
    ensures Verdict(s, Kept(history, horizon), t) == Verdict(s, history, t)
  {
    if t.window.Some? {
      PruningKeepsBusy(history, horizon, t.link.other, t.window.value.0 + Latency(t), t.window.value.1 + Latency(t));
      if t.txId.Some? {
        forall q | q in history && q.end < horizon
          ensures Collides(ChannelOf(s), FlightOf(t), q) == None
        {
          Destroys(s, FlightOf(t), q);
          CollisionRule(ChannelOf(s), FlightOf(t), q);
        }
        PruningKeepsLoss(ChannelOf(s), history, horizon, FlightOf(t));
      }
    }
  }

  lemma LessRemembered(s: Setup, t: Task, horizon: real, earlier: real)
    requires Remembers(s, t, horizon) && earlier <= horizon
    ensures Remembers(s, t, earlier)
  {
  }

  // ---- Exactly when ---------------------------------------------------------

  /** Transmissions as long as some packet is on air, and those of them that begin no earlier than `t`. */
  ghost predicate Aired(s: Setup, qs: seq<Tx>) {
    forall q :: q in qs ==> IsAirtime(s, q.end - q.start)
  }

  ghost predicate Follow(s: Setup, qs: seq<Tx>, t: real) {
    Aired(s, qs) && forall q :: q in qs ==> q.start >= t
  }

  lemma AirtimesLast(s: Setup, start: real, end: real)
    requires IsAirtime(s, end - start)
    ensures Lasting(s, start, end) && start < end
  {
    var packet: Bytes :| Packet.DecodeRaw(packet).Some? && AirSeconds(s, packet) == end - start;
    AirSecondsLong(s, packet);
  }

  /** The verdict on a delivery of `sender` over `l`, whenever it was sent and however long it is, is
    * never changed by what is transmitted from the end of the transmission plus the link's latency on.
    */
  ghost predicate NeverRevised(s: Setup, sender: string, l: EdgeLink) {
    forall t: Task, history: seq<Tx>, later: seq<Tx> ::
      t.sender == sender && t.link == l && t.window.Some? && IsAirtime(s, t.window.value.1 - t.window.value.0) &&
      Aired(s, history) && Follow(s, later, t.window.value.1 + Latency(t)) ==>
        Verdict(s, history + later, t) == Verdict(s, history, t)
  }

  /** A delivery and one late transmission of `n` for a link that is not final; both last `air`. */
  lemma RevisedBy(s: Setup, sender: string, l: EdgeLink, n: string, air: real) returns (t: Task, q: Tx)
    requires CanDestroy(s, sender, l.other, n) && air >= TPreamble(ChannelOf(s))
    requires LatencyS(ChannelOf(s), sender, l.other) >
             l.latencyMs / 1000.0 + LatencyS(ChannelOf(s), n, l.other) + FecTolerance(ChannelOf(s))
    ensures t.sender == sender && t.link == l && t.window == Some((0.0, air))
    ensures q.end == q.start + air && q.start >= air + Latency(t)
    ensures Verdict(s, [q], t) != Verdict(s, [], t)
  {
    var c, lat := ChannelOf(s), l.latencyMs / 1000.0;
    var gap := LatencyS(c, sender, l.other) - lat - LatencyS(c, n, l.other);
    ToleranceAndGrace(c);
    t := Task(sender, l, SHORT, Some(1), Some((0.0, air)), Created);
    var start := MaxReal(air, gap) + lat;
    q := Tx(2, n, start, start + air);
    CollisionRule(c, FlightOf(t), q);
    OneInStore(c, FlightOf(t), q);
  }

  lemma OneInStore(c: Config, f: Flight, q: Tx)
    ensures FirstLoss(c, [q], f) == Collides(c, f, q) && FirstLoss(c, [], f) == None
  {
    assert [q][1..] == [];
  }

  /** Finality, exactly: it holds for a link if and only if no interferer's latency, added to that of
    * the link and to what coding corrects, falls short of the latency the channel gives the sender.
    */
  lemma FinalExactlyWhen(s: Setup, sender: string, l: EdgeLink)
    ensures NeverRevised(s, sender, l) <==> LinkIsFinal(s, sender, l)
  {
    if LinkIsFinal(s, sender, l) {
      forall t: Task, history: seq<Tx>, later: seq<Tx> |
        t.sender == sender && t.link == l && t.window.Some? && IsAirtime(s, t.window.value.1 - t.window.value.0) &&
        Aired(s, history) && Follow(s, later, t.window.value.1 + Latency(t))
        ensures Verdict(s, history + later, t) == Verdict(s, history, t)
      {
        AirtimesLast(s, t.window.value.0, t.window.value.1);
        forall q | q in later
          ensures Lasting(s, q.start, q.end)
        {
          AirtimesLast(s, q.start, q.end);
        }
        LaterTxKeepsVerdict(s, history, later, t);
      }
    } else {
      var n :| CanDestroy(s, sender, l.other, n) &&
               LatencyS(ChannelOf(s), sender, l.other) >
               l.latencyMs / 1000.0 + LatencyS(ChannelOf(s), n, l.other) + FecTolerance(ChannelOf(s));
      var air := ShortAir(s);
      var t, q := RevisedBy(s, sender, l, n, air);
      assert q.end - q.start == air == t.window.value.1 - t.window.value.0;
      assert [] + [q] == [q] && Aired(s, []) && Follow(s, [q], t.window.value.1 + Latency(t));
      assert Verdict(s, [] + [q], t) != Verdict(s, [], t);
    }
  }

  lemma ShortAir(s: Setup) returns (air: real)
    ensures IsAirtime(s, air) && air >= TPreamble(ChannelOf(s)) > 0.0
  {
    air := AirSeconds(s, SHORT);
    ShortDecodes();
    AirSecondsLong(s, SHORT);
  }

  /** In a topology without negative latencies and parallel links every link is final. */
  lemma PlainLinksAreFinal(s: Setup, sender: string, l: EdgeLink)
    requires PlainLinks(s) && l in Neighbours(s, sender)
    ensures LinkIsFinal(s, sender, l)
  {
    ChannelLatency(s, sender, l);
    forall n | CanDestroy(s, sender, l.other, n)
      ensures LatencyS(ChannelOf(s), sender, l.other) <=
              l.latencyMs / 1000.0 + LatencyS(ChannelOf(s), n, l.other) + FecTolerance(ChannelOf(s))
    {
      LatencyNotNegative(s, n, l.other);
      Timing(ChannelOf(s));
    }
  }

  /** No history makes pruning at `horizon` change the verdict. */
  ghost predicate SafelyPruned(s: Setup, t: Task, horizon: real) {
    forall history: seq<Tx> :: Aired(s, history) ==> Verdict(s, Kept(history, horizon), t) == Verdict(s, history, t)
  }

  /** One transmission that pruning at `horizon` loses and half-duplex needs. */
  lemma ForgottenBlocker(s: Setup, t: Task, horizon: real)
    requires t.window.Some? && t.window.value.0 < t.window.value.1 && horizon > t.window.value.0 + Latency(t)
    ensures !SafelyPruned(s, t, horizon)
  {
    var rxStart, rxEnd := t.window.value.0 + Latency(t), t.window.value.1 + Latency(t);
    var air := ShortAir(s);
    var end := MinReal((rxStart + horizon) / 2.0, rxEnd);
    var q := Tx(0, t.link.other, end - air, end);
    assert [q][1..] == [] && Kept([q], horizon) == [];
    assert Verdict(s, [q], t) == HalfDuplex(0);
    assert q.end - q.start == air;
    assert Aired(s, [q]) && Verdict(s, Kept([q], horizon), t) != Verdict(s, [q], t);
  }

  /** And one that collisions need. */
  lemma ForgottenInterferer(s: Setup, t: Task, horizon: real, n: string)
    requires t.window.Some? && t.txId.Some? && t.window.value.0 < t.window.value.1
    requires CanDestroy(s, t.sender, t.link.other, n)
    requires horizon + LatencyS(ChannelOf(s), n, t.link.other) >
             RxStart(ChannelOf(s), FlightOf(t)) + Grace(ChannelOf(s))
    ensures !SafelyPruned(s, t, horizon)
  {
    var c, f := ChannelOf(s), FlightOf(t);
    var lat := LatencyS(c, n, t.link.other);
    Timing(c);
    var air := ShortAir(s);
    var end := MinReal((RxStart(c, f) + Grace(c) - lat + horizon) / 2.0, RxStart(c, f) + TPreamble(c) - lat);
    var q := Tx(t.txId.value + 1, n, end - air, end);
    CollisionRule(c, f, q);
    OneInStore(c, f, q);
    assert [q][1..] == [] && Kept([q], horizon) == [];
    assert q.end - q.start == air;
    assert Aired(s, [q]) && Verdict(s, Kept([q], horizon), t) != Verdict(s, [q], t);
  }

  /** What may be forgotten, exactly. */
  lemma RememberedExactlyWhen(s: Setup, t: Task, horizon: real)
    requires t.window.Some? ==> t.window.value.0 < t.window.value.1
    ensures SafelyPruned(s, t, horizon) <==> Remembers(s, t, horizon)
  {
    if Remembers(s, t, horizon) {
      forall history: seq<Tx> | Aired(s, history)
        ensures Verdict(s, Kept(history, horizon), t) == Verdict(s, history, t)
      {
        PrunedStoreGivesVerdict(s, history, horizon, t);
      }
    } else if horizon > t.window.value.0 + Latency(t) {
      ForgottenBlocker(s, t, horizon);
    } else {
      var n :| CanDestroy(s, t.sender, t.link.other, n) &&
               horizon + LatencyS(ChannelOf(s), n, t.link.other) >
               RxStart(ChannelOf(s), FlightOf(t)) + Grace(ChannelOf(s));
      ForgottenInterferer(s, t, horizon, n);
    }
  }

  // ---- Steps ----------------------------------------------------------------

  lemma {:induction false} KeptTwice(store: seq<Tx>, t: real, t': real)
    requires t <= t'
    ensures Kept(Kept(store, t), t') == Kept(store, t')
  {
    if store != [] {
      KeptTwice(store[1..], t, t');
      KeptConcat(if store[0].end >= t then [store[0]] else [], Kept(store[1..], t), t');
      assert [store[0]][1..] == [];
    }
  }

  /** Pruning as one goes is pruning the whole history at once. */
  lemma PruneAfterNext(history: seq<Tx>, q: Tx, t: real, t': real)
    requires t <= t'
    ensures Kept(Kept(history, t) + [q], t') == Kept(history + [q], t')
  {
    KeptConcat(Kept(history, t), [q], t');
    KeptConcat(history, [q], t');
    KeptTwice(history, t, t');
  }

  lemma RegisteredStore(w: World, w': World, q: Tx)
    requires StoreOk(w) && q.start == w.now == w'.now && q.id == w'.txCounter == w.txCounter + 1
    requires w'.history == w.history + [q] && w'.active == Kept(w.active + [q], w.now - 5.0)
    ensures StoreOk(w')
  {
    if w.history != [] {
      assert w.history[|w.history| - 1] in w.history;
    }
    PruneAfterNext(w.history, q, Horizon(w), w.now - 5.0);
    KeptMembers(w.active + [q], w.now - 5.0);
  }

  lemma TransmitStore(w: World, sender: string, packet: Bytes, end: real, decodes: bool)
    requires StoreOk(w) && end > w.now
    ensures StoreOk(TransmitUntil(w, sender, packet, end, decodes))
  {
    if decodes {
      var q := Tx(w.txCounter + 1, sender, w.now, end);
      RegisterNew(w.active, q);
      RegisteredStore(w, TransmitUntil(w, sender, packet, end, decodes), q);
    }
  }

  lemma {:induction false} KeptMembers(store: seq<Tx>, t: real)
    ensures forall q :: q in Kept(store, t) ==> q in store
  {
    if store != [] {
      KeptMembers(store[1..], t);
    }
  }

  lemma LaterTxFinal(s: Setup, w: World, w': World, later: seq<Tx>)
    requires Sound(s, w) && w'.decisions == w.decisions && w'.history == w.history + later
    requires forall q :: q in later ==> q.start >= w.now && Lasting(s, q.start, q.end)
    ensures Final(s, w')
  {
    forall id | id in w.decisions && IsVerdict(w.decisions[id].outcome) && InTime(s, w.decisions[id]) &&
                TaskIsFinal(s, w.decisions[id].task)
      ensures w.decisions[id].outcome == Verdict(s, w'.history, w.decisions[id].task)
    {
      LaterTxKeepsVerdict(s, w.history, later, w.decisions[id].task);
    }
  }

  lemma TransmitUntilSound(s: Setup, w: World, w': World, sender: string, packet: Bytes, end: real, decodes: bool)
    requires Sound(s, w) && Lasting(s, w.now, end) && w' == TransmitUntil(w, sender, packet, end, decodes)
    ensures Sound(s, w')
  {
    Timing(ChannelOf(s));
    TransmitStore(w, sender, packet, end, decodes);
    var later := if decodes then [Tx(w.txCounter + 1, sender, w.now, end)] else [];
    assert w'.history == w.history + later;
    LaterTxFinal(s, w, w', later);
  }

  lemma TransmitSound(s: Setup, w: World, sender: string, packet: Bytes)
    requires Sound(s, w)
    ensures Sound(s, Transmit(s, w, sender, packet))
  {
    AirSecondsLong(s, packet);
    TransmitUntilSound(s, w, Transmit(s, w, sender, packet),
                       sender, packet, w.now + AirSeconds(s, packet), Packet.DecodeRaw(packet).Some?);
  }

  /** Nothing a verdict depends on changes. */
  ghost predicate SameChannel(w: World, w': World) {
    w'.now == w.now && w'.txCounter == w.txCounter && w'.active == w.active && w'.history == w.history
  }

  lemma {:induction false} AddTasksOk(s: Setup, w: World, sender: string, links: seq<EdgeLink>, packet: Bytes,
                                      txId: Option<nat>, window: Option<(real, real)>)
    requires TasksOk(s, w) && WindowOk(s, window, w.now) && forall l :: l in links ==> l in Neighbours(s, sender)
    ensures TasksOk(s, AddTasks(w, sender, links, packet, txId, window))
  {
    AddTasksKeeps(w, sender, links, packet, txId, window);
    if links != [] {
      var n := |links| - 1;
      AddTasksKeeps(w, sender, links[..n], packet, txId, window);
      AddTasksOk(s, w, sender, links[..n], packet, txId, window);
      assert links[n] in links;
    }
  }

  lemma SpawnSound(s: Setup, w: World, i: nat)
    requires Sound(s, w) && i < |w.broadcasts|
    ensures Sound(s, Spawn(s, w, i))
  {
    var b := w.broadcasts[i];
    assert b in w.broadcasts;
    var w1 := w.(broadcasts := w.broadcasts[..i] + w.broadcasts[i + 1..]);
    AddTasksKeeps(w1, b.sender, Neighbours(s, b.sender), b.packet, b.txId, Some((b.start, b.end)));
    AddTasksOk(s, w1, b.sender, Neighbours(s, b.sender), b.packet, b.txId, Some((b.start, b.end)));
  }

  lemma {:induction false} EmitSound(s: Setup, w: World, name: string, due: seq<Replayed>)
    requires TasksOk(s, w)
    ensures var w' := Emit(s, w, name, due);
            TasksOk(s, w') && SameChannel(w, w') && w'.decisions == w.decisions
  {
    if due != [] {
      EmitSound(s, w, name, due[..|due| - 1]);
      var w1, r := Emit(s, w, name, due[..|due| - 1]), due[|due| - 1];
      var w2 := w1.(drained := w1.drained[r.source := w1.now]);
      AddTasksKeeps(w2, name, Neighbours(s, name), r.packet, None, None);
      AddTasksOk(s, w2, name, Neighbours(s, name), r.packet, None, None);
    }
  }

  lemma {:induction false} DrainSound(s: Setup, w: World, k: nat)
    requires TasksOk(s, w) && k <= |s.adversaries| && |w.buffers| == |s.adversaries|
    ensures var w' := DrainUpTo(s, w, k);
            TasksOk(s, w') && SameChannel(w, w') && w'.decisions == w.decisions
  {
    if k > 0 {
      DrainSound(s, w, k - 1);
      var w1 := DrainUpTo(s, w, k - 1);
      EmitSound(s, w1.(buffers := w1.buffers[k - 1 := NotDue(w1.buffers[k - 1], w1.now)]),
                s.adversaries[k - 1].0, Due(w1.buffers[k - 1], w1.now));
    }
  }

  /** Before the sleep deliveries only end without a verdict. */
  lemma EarlyDecisionSound(s: Setup, w: World, id: nat, o: Outcome)
    requires Sound(s, w) && id in w.tasks && !IsVerdict(o)
    ensures Sound(s, Decide(w, id, o))
  {
  }

  lemma SleepSound(s: Setup, w: World, id: nat, packet: Bytes)
    requires Sound(s, w) && id in w.tasks
    ensures Sound(s, Sleep(w, id, packet))
  {
    var w' := Sleep(w, id, packet);
    assert TaskOk(s, w.tasks[id], w.now);
    assert TaskOk(s, w'.tasks[id], w.now);
  }

  lemma BeginSound(s: Setup, w: World, id: nat, lossDraw: real, advDraw: real, corrupted: Bytes)
    requires Sound(s, w) && id in w.tasks && |w.buffers| == |s.adversaries|
    ensures Sound(s, Begin(s, w, id, lossDraw, advDraw, corrupted))
  {
    var t := w.tasks[id];
    EarlyDecisionSound(s, w, id, SnrDropped);
    EarlyDecisionSound(s, w, id, LinkLost);
    SleepSound(s, w, id, t.packet);
    if FilterIndex(s, t.link.other).Some? {
      FilteredSound(s, w, id, FilterIndex(s, t.link.other).value, corrupted);
    }
  }

  /** Buffers and counters have no part in it. */
  lemma OtherFieldsSound(s: Setup, w: World, buffers: seq<seq<Replayed>>, ledger: Ledger)
    requires Sound(s, w)
    ensures Sound(s, w.(buffers := buffers, ledger := ledger))
  {
  }

  lemma FilterCapturesSound(s: Setup, w: World, id: nat, k: nat, corrupted: Bytes)
    requires Sound(s, w) && id in w.tasks && k < |s.adversaries| && |w.buffers| == |s.adversaries|
    requires s.adversaries[k].1.mode == "replay"
    ensures Sound(s, Filtered(s, w, id, k, corrupted))
  {
    var r := Replayed(w.now + s.adversaries[k].1.replayDelayMs / 1000.0, w.tasks[id].packet, id);
    var w1 := w.(buffers := w.buffers[k := w.buffers[k] + [r]], ledger := w.ledger);
    OtherFieldsSound(s, w, w1.buffers, w1.ledger);
    EarlyDecisionSound(s, w1, id, AdvCaptured);
    assert Filtered(s, w, id, k, corrupted) == Decide(w1, id, AdvCaptured);
  }

  lemma FilterPassesSound(s: Setup, w: World, id: nat, k: nat, corrupted: Bytes)
    requires Sound(s, w) && id in w.tasks && k < |s.adversaries| && |w.buffers| == |s.adversaries|
    requires s.adversaries[k].1.mode != "replay" && s.adversaries[k].1.mode != "drop"
    ensures Sound(s, Filtered(s, w, id, k, corrupted))
  {
    var packet := if s.adversaries[k].1.mode == "corrupt" then corrupted else w.tasks[id].packet;
    var w1 := w.(buffers := w.buffers, ledger := w.ledger.(advCorrupt := w.ledger.advCorrupt + 1));
    OtherFieldsSound(s, w, w1.buffers, w1.ledger);
    SleepSound(s, w1, id, packet);
    assert Filtered(s, w, id, k, corrupted) == Sleep(w1, id, packet);
  }

  lemma FilteredSound(s: Setup, w: World, id: nat, k: nat, corrupted: Bytes)
    requires Sound(s, w) && id in w.tasks && k < |s.adversaries| && |w.buffers| == |s.adversaries|
    ensures Sound(s, Filtered(s, w, id, k, corrupted))
  {
    if s.adversaries[k].1.mode == "drop" {
      EarlyDecisionSound(s, w, id, AdvDropped);
    } else if s.adversaries[k].1.mode == "replay" {
      FilterCapturesSound(s, w, id, k, corrupted);
    } else {
      FilterPassesSound(s, w, id, k, corrupted);
    }
  }

  lemma StoreGivesVerdict(s: Setup, w: World, d: Decision)
    requires StoreOk(w) && d.at == w.now && InTime(s, d)
    ensures Verdict(s, w.active, d.task) == Verdict(s, w.history, d.task)
  {
    if w.history != [] {
      assert w.history[|w.history| - 1] in w.history;
    }
    LessRemembered(s, d.task, d.at - 5.0, Horizon(w));
    PrunedStoreGivesVerdict(s, w.history, Horizon(w), d.task);
  }

  lemma DecideSound(s: Setup, w: World, id: nat, o: Outcome)
    requires Sound(s, w) && id in w.tasks
    requires var d := Decision(w.tasks[id], w.now, o);
             DecisionOk(s, d, w.now) && (IsVerdict(o) && InTime(s, d) ==> o == Verdict(s, w.history, d.task))
    ensures Sound(s, Decide(w, id, o))
  {
  }

  lemma FinishSound(s: Setup, w: World, id: nat)
    requires Sound(s, w) && Enabled(w, DoFinish(id))
    ensures Sound(s, Finish(s, w, id))
  {
    var t := w.tasks[id];
    var d := Decision(t, w.now, Verdict(s, w.active, t));
    assert TaskOk(s, t, w.now);
    if InTime(s, d) {
      StoreGivesVerdict(s, w, d);
    }
    DecideSound(s, w, id, d.outcome);
  }

  lemma TickSound(s: Setup, w: World, dt: real)
    requires Sound(s, w) && dt >= 0.0
    ensures Sound(s, w.(now := w.now + dt))
  {
  }

  lemma ApplySound(s: Setup, w: World, a: Step)
    requires Sound(s, w) && Enabled(w, a) && |w.buffers| == |s.adversaries|
    ensures Sound(s, Apply(s, w, a))
  {
    match a
    case Tick(dt) => TickSound(s, w, dt);
    case DoTransmit(sender, packet) => TransmitSound(s, w, sender, packet);
    case DoSpawn(i) => SpawnSound(s, w, i);
    case DoBegin(id, lossDraw, advDraw, corrupted) => BeginSound(s, w, id, lossDraw, advDraw, corrupted);
    case DoFinish(id) => FinishSound(s, w, id);
    case DoDrain => DrainSound(s, w, |s.adversaries|);
  }

  lemma {:induction false} ReachSound(s: Setup, start: real, steps: seq<Step>)
    requires Reach(s, start, steps).Some?
    ensures Sound(s, Reach(s, start, steps).value)
  {
    if steps != [] {
      ReachSound(s, start, steps[..|steps| - 1]);
      ApplySound(s, Reach(s, start, steps[..|steps| - 1]).value, steps[|steps| - 1]);
    }
  }

  /** In every reachable state of every topology: each verdict that was given in time over a final
    * link, half-duplex, collision or reception, is that of the complete history as it stands now.
    */
  lemma VerdictsMatchFullHistory(s: Setup, start: real, steps: seq<Step>, id: nat)
    requires Reach(s, start, steps).Some? && id in Reach(s, start, steps).value.decisions
    ensures var w := Reach(s, start, steps).value;
            IsVerdict(w.decisions[id].outcome) && InTime(s, w.decisions[id]) && TaskIsFinal(s, w.decisions[id].task) ==>
              w.decisions[id].outcome == Verdict(s, w.history, w.decisions[id].task)
  {
    ReachSound(s, start, steps);
  }

  // ---- Finality without any bound -------------------------------------------

  /** From `w` to `w'` the transmissions `later` were made. */
  ghost predicate Grew(s: Setup, w: World, w': World, later: seq<Tx>) {
    w'.history == w.history + later && w'.now >= w.now &&
    forall q :: q in later ==> q.start >= w.now && Lasting(s, q.start, q.end)
  }

  lemma GrewTwice(s: Setup, w: World, w': World, w'': World, later: seq<Tx>, step: seq<Tx>)
    requires Grew(s, w, w', later) && Grew(s, w', w'', step)
    ensures Grew(s, w, w'', later + step)
  {
  }

  /** The last step of a run that goes on. */
  lemma LastOfRun(s: Setup, start: real, steps: seq<Step>, more: seq<Step>) returns (w: World, w': World, step: seq<Tx>)
    requires more != [] && Reach(s, start, steps + more).Some?
    ensures Reach(s, start, steps + more[..|more| - 1]) == Some(w) && Reach(s, start, steps + more) == Some(w')
    ensures Grew(s, w, w', step)
  {
    assert (steps + more)[..|steps + more| - 1] == steps + more[..|more| - 1];
    w := Reach(s, start, steps + more[..|more| - 1]).value;
    w' := Apply(s, w, more[|more| - 1]);
    step := StepHistory(s, w, more[|more| - 1]);
  }

  lemma {:induction false} HistoryGrows(s: Setup, start: real, steps: seq<Step>, more: seq<Step>)
    returns (later: seq<Tx>)
    requires Reach(s, start, steps).Some? && Reach(s, start, steps + more).Some?
    ensures Grew(s, Reach(s, start, steps).value, Reach(s, start, steps + more).value, later)
  {
    if more == [] {
      assert steps + more == steps;
      later := [];
    } else {
      var w, w', step := LastOfRun(s, start, steps, more);
      later := HistoryGrows(s, start, steps, more[..|more| - 1]);
      GrewTwice(s, Reach(s, start, steps).value, w, w', later, step);
      later := later + step;
    }
  }

  lemma StepHistory(s: Setup, w: World, a: Step) returns (later: seq<Tx>)
    requires Enabled(w, a) && |w.buffers| == |s.adversaries|
    ensures Grew(s, w, Apply(s, w, a), later)
  {
    later := [];
    match a
    case Tick(_) =>
    case DoTransmit(sender, packet) =>
      if Packet.DecodeRaw(packet).Some? {
        AirSecondsLong(s, packet);
        later := [Tx(w.txCounter + 1, sender, w.now, w.now + AirSeconds(s, packet))];
      }
    case DoSpawn(i) =>
      var b := w.broadcasts[i];
      AddTasksKeeps(w.(broadcasts := w.broadcasts[..i] + w.broadcasts[i + 1..]),
                    b.sender, Neighbours(s, b.sender), b.packet, b.txId, Some((b.start, b.end)));
    case DoBegin(_, _, _, _) =>
    case DoFinish(_) =>
    case DoDrain => DrainHistory(s, w, |s.adversaries|);
  }

  lemma {:induction false} EmitHistory(s: Setup, w: World, name: string, due: seq<Replayed>)
    ensures SameChannel(w, Emit(s, w, name, due))
  {
    if due != [] {
      EmitHistory(s, w, name, due[..|due| - 1]);
      var w1, r := Emit(s, w, name, due[..|due| - 1]), due[|due| - 1];
      AddTasksKeeps(w1.(drained := w1.drained[r.source := w1.now]), name, Neighbours(s, name), r.packet, None, None);
    }
  }

  lemma {:induction false} DrainHistory(s: Setup, w: World, k: nat)
    requires k <= |s.adversaries| && |w.buffers| == |s.adversaries|
    ensures SameChannel(w, DrainUpTo(s, w, k))
  {
    if k > 0 {
      DrainHistory(s, w, k - 1);
      var w1 := DrainUpTo(s, w, k - 1);
      EmitHistory(s, w1.(buffers := w1.buffers[k - 1 := NotDue(w1.buffers[k - 1], w1.now)]),
                  s.adversaries[k - 1].0, Due(w1.buffers[k - 1], w1.now));
    }
  }

  /** Once a delivery over a final link has been judged, nothing that happens later changes what the
    * full history says of it, however long the run goes on and however late the judgement was.
    */
  lemma VerdictIsFinal(s: Setup, start: real, steps: seq<Step>, more: seq<Step>, id: nat)
    requires Reach(s, start, steps).Some? && Reach(s, start, steps + more).Some?
    requires id in Reach(s, start, steps).value.decisions
    requires IsVerdict(Reach(s, start, steps).value.decisions[id].outcome)
    requires TaskIsFinal(s, Reach(s, start, steps).value.decisions[id].task)
    ensures var w, w' := Reach(s, start, steps).value, Reach(s, start, steps + more).value;
            Verdict(s, w'.history, w.decisions[id].task) == Verdict(s, w.history, w.decisions[id].task)
  {
    ReachSound(s, start, steps);
    var later := HistoryGrows(s, start, steps, more);
    var w := Reach(s, start, steps).value;
    LaterTxKeepsVerdict(s, w.history, later, w.decisions[id].task);
  }

  // ---- The assumptions --------------------------------------------------------

  /** Time on air, lateness of the task, the longest latency, and what the link's latency exceeds the
    * channel's by if links are parallel, within five seconds are enough.
    */
  lemma InTimeWhen(s: Setup, d: Decision, late: real, maxLatency: real)
    requires d.task.window.Some? && d.at <= d.task.window.value.1 + Latency(d.task) + late && maxLatency >= 0.0
    requires forall n: string :: LatencyS(ChannelOf(s), n, d.task.link.other) <= maxLatency
    requires var skew := Latency(d.task) - LatencyS(ChannelOf(s), d.task.sender, d.task.link.other);
             d.task.window.value.1 - d.task.window.value.0 + late + maxLatency + MaxReal(skew, 0.0) <= 5.0
    ensures InTime(s, d)
  {
    Timing(ChannelOf(s));
  }
}
