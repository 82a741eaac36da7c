/** Every delivery the router creates is accounted for, in every reachable state. */
module RouterLedger {
  import opened Common
  import opened Topology
  import opened RouterModel
  import Packet

  datatype Kind =
    SnrKind | LossKind | DropKind | CaptureKind | HalfDuplexKind | CollisionKind | ReceptionKind | NoAgentKind

  function KindOf(o: Outcome): Kind {
    match o
    case SnrDropped => SnrKind
    case LinkLost => LossKind
    case AdvDropped => DropKind
    case AdvCaptured => CaptureKind
    case HalfDuplex(_) => HalfDuplexKind
    case Collided(_) => CollisionKind
    case Received(_) => ReceptionKind
    case NoAgent => NoAgentKind
  }

  ghost function Ended(ds: map<nat, Decision>, k: Kind): set<nat> {
    set id | id in ds && KindOf(ds[id].outcome) == k
  }

  ghost function ReceivedBy(ds: map<nat, Decision>, node: string): set<nat> {
    set id | id in ds && ds[id].outcome == Received(node)
  }

  /** Every delivery ever created is either in flight or has ended, once. */
  ghost predicate Tracked(w: World) {
    w.tasks.Keys !! w.decisions.Keys &&
    forall id :: id in w.tasks || id in w.decisions <==> 0 <= id < w.nextTask
  }

  /** Each counter is the number of deliveries that ended that way. */
  ghost predicate LedgerMatches(l: Ledger, ds: map<nat, Decision>) {
    l.snrDrop == |Ended(ds, SnrKind)| && l.linkLoss == |Ended(ds, LossKind)| &&
    l.advDrop == |Ended(ds, DropKind)| && l.advReplay == |Ended(ds, CaptureKind)| &&
    l.halfDuplex == |Ended(ds, HalfDuplexKind)| && l.collision == |Ended(ds, CollisionKind)| &&
    forall n :: (if n in l.rx then l.rx[n] else 0) == |ReceivedBy(ds, n)|
  }

  ghost predicate Accounted(w: World) {
    Tracked(w) && LedgerMatches(w.ledger, w.decisions)
  }

  // ---- One step -------------------------------------------------------------

  lemma EndedGrows(ds: map<nat, Decision>, id: nat, d: Decision, k: Kind)
    requires id !in ds
    ensures |Ended(ds[id := d], k)| == |Ended(ds, k)| + if KindOf(d.outcome) == k then 1 else 0
  {
    if KindOf(d.outcome) == k {
      assert Ended(ds[id := d], k) == Ended(ds, k) + {id};
    } else {
      assert Ended(ds[id := d], k) == Ended(ds, k);
    }
  }

  lemma ReceivedGrows(ds: map<nat, Decision>, id: nat, d: Decision, n: string)
    requires id !in ds
    ensures |ReceivedBy(ds[id := d], n)| == |ReceivedBy(ds, n)| + if d.outcome == Received(n) then 1 else 0
  {
    if d.outcome == Received(n) {
      assert ReceivedBy(ds[id := d], n) == ReceivedBy(ds, n) + {id};
    } else {
      assert ReceivedBy(ds[id := d], n) == ReceivedBy(ds, n);
    }
  }

  lemma RecordMatches(l: Ledger, ds: map<nat, Decision>, id: nat, d: Decision)
    requires LedgerMatches(l, ds) && id !in ds
    ensures LedgerMatches(Record(l, d.outcome), ds[id := d])
  {
    EndedGrows(ds, id, d, SnrKind);
    EndedGrows(ds, id, d, LossKind);
    EndedGrows(ds, id, d, DropKind);
    EndedGrows(ds, id, d, CaptureKind);
    EndedGrows(ds, id, d, HalfDuplexKind);
    EndedGrows(ds, id, d, CollisionKind);
    forall n
      ensures |ReceivedBy(ds[id := d], n)| == |ReceivedBy(ds, n)| + if d.outcome == Received(n) then 1 else 0
    {
      ReceivedGrows(ds, id, d, n);
    }
  }

  lemma DecideAccounts(w: World, id: nat, o: Outcome)
    requires Accounted(w) && id in w.tasks
    ensures Accounted(Decide(w, id, o))
  {
    RecordMatches(w.ledger, w.decisions, id, Decision(w.tasks[id], w.now, o));
  }

  lemma {:induction false} AddTasksAccounts(w: World, sender: string, links: seq<EdgeLink>, packet: Bytes,
                                            txId: Option<nat>, window: Option<(real, real)>)
    requires Accounted(w)
    ensures Accounted(AddTasks(w, sender, links, packet, txId, window))
  {
    if links != [] {
      AddTasksAccounts(w, sender, links[..|links| - 1], packet, txId, window);
    }
  }

  lemma {:induction false} EmitAccounts(s: Setup, w: World, name: string, due: seq<Replayed>)
    requires Accounted(w)
    ensures Accounted(Emit(s, w, name, due))
  {
    if due != [] {
      EmitAccounts(s, w, name, due[..|due| - 1]);
      var w1, r := Emit(s, w, name, due[..|due| - 1]), due[|due| - 1];
      AddTasksAccounts(w1.(drained := w1.drained[r.source := w1.now]), name, Neighbours(s, name), r.packet, None, None);
    }
  }

  lemma {:induction false} DrainAccounts(s: Setup, w: World, k: nat)
    requires Accounted(w) && k <= |s.adversaries| && |w.buffers| == |s.adversaries|
    ensures Accounted(DrainUpTo(s, w, k))
  {
    if k > 0 {
      DrainAccounts(s, w, k - 1);
      var w1 := DrainUpTo(s, w, k - 1);
      EmitAccounts(s, w1.(buffers := w1.buffers[k - 1 := NotDue(w1.buffers[k - 1], w1.now)]),
                   s.adversaries[k - 1].0, Due(w1.buffers[k - 1], w1.now));
    }
  }

  /** Going to sleep, and counting a corruption on the way, decides nothing. */
  lemma SleepAccounts(w: World, id: nat, packet: Bytes)
    requires Accounted(w) && id in w.tasks
    ensures Accounted(Sleep(w, id, packet))
    ensures Accounted(w.(ledger := w.ledger.(advCorrupt := w.ledger.advCorrupt + 1)))
    ensures Accounted(Sleep(w.(ledger := w.ledger.(advCorrupt := w.ledger.advCorrupt + 1)), id, packet))
  {
    assert Sleep(w, id, packet).tasks.Keys == w.tasks.Keys;
  }

  lemma FilteredAccounts(s: Setup, w: World, id: nat, k: nat, corrupted: Bytes)
    requires Accounted(w) && id in w.tasks && k < |s.adversaries| && |w.buffers| == |s.adversaries|
    ensures Accounted(Filtered(s, w, id, k, corrupted))
  {
    var t, cfg := w.tasks[id], s.adversaries[k].1;
    if cfg.mode == "drop" {
      DecideAccounts(w, id, AdvDropped);
    } else if cfg.mode == "replay" {
      var r := Replayed(w.now + cfg.replayDelayMs / 1000.0, t.packet, id);
      DecideAccounts(w.(buffers := w.buffers[k := w.buffers[k] + [r]]), id, AdvCaptured);
    } else {
      SleepAccounts(w, id, if cfg.mode == "corrupt" then corrupted else t.packet);
    }
  }

  lemma BeginAccounts(s: Setup, w: World, id: nat, lossDraw: real, advDraw: real, corrupted: Bytes)
    requires Accounted(w) && id in w.tasks && |w.buffers| == |s.adversaries|
    ensures Accounted(Begin(s, w, id, lossDraw, advDraw, corrupted))
  {
    var t := w.tasks[id];
    DecideAccounts(w, id, SnrDropped);
    DecideAccounts(w, id, LinkLost);
    SleepAccounts(w, id, t.packet);
    if FilterIndex(s, t.link.other).Some? {
      FilteredAccounts(s, w, id, FilterIndex(s, t.link.other).value, corrupted);
    }
  }

  lemma TransmitAccounts(w: World, sender: string, packet: Bytes, end: real, decodes: bool)
    requires Accounted(w)
    ensures Accounted(TransmitUntil(w, sender, packet, end, decodes))
  {
  }

  lemma SpawnAccounts(s: Setup, w: World, i: nat)
    requires Accounted(w) && i < |w.broadcasts|
    ensures Accounted(Spawn(s, w, i))
  {
    var b := w.broadcasts[i];
    AddTasksAccounts(w.(broadcasts := w.broadcasts[..i] + w.broadcasts[i + 1..]),
                     b.sender, Neighbours(s, b.sender), b.packet, b.txId, Some((b.start, b.end)));
  }

  lemma ApplyAccounts(s: Setup, w: World, a: Step)
    requires Accounted(w) && Enabled(w, a) && |w.buffers| == |s.adversaries|
    ensures Accounted(Apply(s, w, a))
  {
    match a
    case Tick(_) =>
    case DoTransmit(sender, packet) =>
      TransmitAccounts(w, sender, packet, w.now + AirSeconds(s, packet), Packet.DecodeRaw(packet).Some?);
    case DoSpawn(i) => SpawnAccounts(s, w, i);
    case DoBegin(id, lossDraw, advDraw, corrupted) => BeginAccounts(s, w, id, lossDraw, advDraw, corrupted);
    case DoFinish(id) => DecideAccounts(w, id, Verdict(s, w.active, w.tasks[id]));
    case DoDrain => DrainAccounts(s, w, |s.adversaries|);
  }

  lemma {:induction false} ReachAccounts(s: Setup, start: real, steps: seq<Step>)
    requires Reach(s, start, steps).Some?
    ensures Accounted(Reach(s, start, steps).value)
  {
    if steps == [] {
      assert forall k :: Ended(map[], k) == {};
      assert forall n :: ReceivedBy(map[], n) == {};
    } else {
      ReachAccounts(s, start, steps[..|steps| - 1]);
      ApplyAccounts(s, Reach(s, start, steps[..|steps| - 1]).value, steps[|steps| - 1]);
    }
  }

  // ---- The sum --------------------------------------------------------------

  ghost function Ids(n: nat): set<nat> {
    if n == 0 then {} else Ids(n - 1) + {n - 1}
  }

  lemma {:induction false} IdsCount(n: nat)
    ensures |Ids(n)| == n && forall i :: i in Ids(n) <==> 0 <= i < n
  {
    if n > 0 {
      IdsCount(n - 1);
    }
  }

  lemma Joined(a: set<nat>, b: set<nat>)
    requires a !! b
    ensures |a + b| == |a| + |b|
  {
  }

  ghost function EndedIn(ds: map<nat, Decision>, ks: set<Kind>): set<nat> {
    set id | id in ds && KindOf(ds[id].outcome) in ks
  }

  lemma OneMoreKind(ds: map<nat, Decision>, ks: set<Kind>, k: Kind)
    requires k !in ks
    ensures |EndedIn(ds, ks + {k})| == |EndedIn(ds, ks)| + |Ended(ds, k)|
  {
    assert EndedIn(ds, ks + {k}) == EndedIn(ds, ks) + Ended(ds, k);
    Joined(EndedIn(ds, ks), Ended(ds, k));
  }

  lemma FourMoreKinds(ds: map<nat, Decision>, ks: set<Kind>, a: Kind, b: Kind, c: Kind, d: Kind)
    requires a !in ks && b !in ks + {a} && c !in ks + {a} + {b} && d !in ks + {a} + {b} + {c}
    ensures |EndedIn(ds, ks + {a} + {b} + {c} + {d})| ==
            |EndedIn(ds, ks)| + |Ended(ds, a)| + |Ended(ds, b)| + |Ended(ds, c)| + |Ended(ds, d)|
  {
    OneMoreKind(ds, ks, a);
    OneMoreKind(ds, ks + {a}, b);
    OneMoreKind(ds, ks + {a} + {b}, c);
    OneMoreKind(ds, ks + {a} + {b} + {c}, d);
  }

  lemma KindsPartition(ds: map<nat, Decision>)
    ensures |ds.Keys| == |Ended(ds, SnrKind)| + |Ended(ds, LossKind)| + |Ended(ds, DropKind)| +
                         |Ended(ds, CaptureKind)| + |Ended(ds, HalfDuplexKind)| + |Ended(ds, CollisionKind)| +
                         |Ended(ds, ReceptionKind)| + |Ended(ds, NoAgentKind)|
  {
    var none: set<Kind> := {};
    var four := none + {SnrKind} + {LossKind} + {DropKind} + {CaptureKind};
    assert EndedIn(ds, none) == {};
    FourMoreKinds(ds, none, SnrKind, LossKind, DropKind, CaptureKind);
    LastFourKinds(ds, four);
  }

  lemma LastFourKinds(ds: map<nat, Decision>, four: set<Kind>)
    requires four == {SnrKind, LossKind, DropKind, CaptureKind}
    ensures |ds.Keys| == |EndedIn(ds, four)| + |Ended(ds, HalfDuplexKind)| + |Ended(ds, CollisionKind)|
                       + |Ended(ds, ReceptionKind)| + |Ended(ds, NoAgentKind)|
  {
    FourMoreKinds(ds, four, HalfDuplexKind, CollisionKind, ReceptionKind, NoAgentKind);
    var all := four + {HalfDuplexKind} + {CollisionKind} + {ReceptionKind} + {NoAgentKind};
    forall k: Kind
      ensures k in all
    {
      assert k.SnrKind? || k.LossKind? || k.DropKind? || k.CaptureKind? || k in all - four;
    }
    EveryKind(ds, all);
  }

  lemma EveryKind(ds: map<nat, Decision>, ks: set<Kind>)
    requires forall k :: k in ks
    ensures EndedIn(ds, ks) == ds.Keys
  {
  }

  // ---- Receptions over all nodes --------------------------------------------

  /** The sum of a counter over its keys. */
  ghost function Total(m: map<string, nat>): nat {
    if m == map[] then 0
    else
      var k :| k in m;
      m[k] + Total(m - {k})
  }

  ghost function ReceivedIn(ds: map<nat, Decision>, nodes: set<string>): set<nat> {
    set id | id in ds && ds[id].outcome.Received? && ds[id].outcome.receiver in nodes
  }

  lemma {:induction false} TotalReceived(m: map<string, nat>, ds: map<nat, Decision>)
    requires forall n :: n in m ==> m[n] == |ReceivedBy(ds, n)|
    ensures Total(m) == |ReceivedIn(ds, m.Keys)|
  {
    if m == map[] {
      assert ReceivedIn(ds, m.Keys) == {};
    } else {
      var k :| k in m && Total(m) == m[k] + Total(m - {k});
      TotalReceived(m - {k}, ds);
      assert (m - {k}).Keys == m.Keys - {k};
      assert ReceivedIn(ds, m.Keys) == ReceivedIn(ds, m.Keys - {k}) + ReceivedBy(ds, k);
      Joined(ReceivedIn(ds, m.Keys - {k}), ReceivedBy(ds, k));
    }
  }

  /** Nobody receives who has no counter. */
  lemma ReceptionsAreTotal(l: Ledger, ds: map<nat, Decision>)
    requires LedgerMatches(l, ds)
    ensures Total(l.rx) == |Ended(ds, ReceptionKind)|
  {
    TotalReceived(l.rx, ds);
    forall id | id in Ended(ds, ReceptionKind)
      ensures ds[id].outcome.receiver in l.rx
    {
      assert id in ReceivedBy(ds, ds[id].outcome.receiver);
    }
    assert ReceivedIn(ds, l.rx.Keys) == Ended(ds, ReceptionKind);
  }

  /** Conservation: the deliveries created are those in flight plus those counted as dropped,
    * lost, captured, blocked, collided or received at some node, plus those whose receiver has no
    * agent.  Receptions are counted at the node that received.
    */
  lemma EveryDeliveryIsAccountedFor(s: Setup, start: real, steps: seq<Step>)
    requires Reach(s, start, steps).Some?
    ensures var w := Reach(s, start, steps).value;
            w.nextTask == |w.tasks| + w.ledger.snrDrop + w.ledger.linkLoss + w.ledger.advDrop + w.ledger.advReplay
                        + w.ledger.halfDuplex + w.ledger.collision
                        + Total(w.ledger.rx) + |Ended(w.decisions, NoAgentKind)| &&
            forall n :: (if n in w.ledger.rx then w.ledger.rx[n] else 0) == |ReceivedBy(w.decisions, n)|
  {
    ReachAccounts(s, start, steps);
    var w := Reach(s, start, steps).value;
    IdsCount(w.nextTask);
    Joined(w.tasks.Keys, w.decisions.Keys);
    assert w.tasks.Keys + w.decisions.Keys == Ids(w.nextTask);
    KindsPartition(w.decisions);
    ReceptionsAreTotal(w.ledger, w.decisions);
  }
}
