/** The counters a run of the simulation ends with: transmissions, corruptions, and that no
  * delivery is left uncounted.
  */
module RouterCounts {
  import opened Common
  import opened TopologyConfig
  import opened Topology
  import opened RouterModel
  import opened RouterLedger

  // ---- Replays count nothing --------------------------------------------------

  lemma {:induction false} EmitKeepsLedger(s: Setup, w: World, name: string, due: seq<Replayed>)
    ensures Emit(s, w, name, due).ledger == w.ledger
  {
    if due != [] {
      EmitKeepsLedger(s, w, name, due[..|due| - 1]);
      var w1, r := Emit(s, w, name, due[..|due| - 1]), due[|due| - 1];
      AddTasksKeeps(w1.(drained := w1.drained[r.source := w1.now]), name, Neighbours(s, name), r.packet, None, None);
    }
  }

  lemma {:induction false} DrainKeepsLedger(s: Setup, w: World, k: nat)
    requires k <= |s.adversaries| && |w.buffers| == |s.adversaries|
    ensures DrainUpTo(s, w, k).ledger == w.ledger
  {
    if k > 0 {
      DrainKeepsLedger(s, w, k - 1);
      var w1 := DrainUpTo(s, w, k - 1);
      EmitKeepsLedger(s, w1.(buffers := w1.buffers[k - 1 := NotDue(w1.buffers[k - 1], w1.now)]),
                      s.adversaries[k - 1].0, Due(w1.buffers[k - 1], w1.now));
    }
  }

  // ---- What stops a delivery --------------------------------------------------

  /** Filter `k` is the one at the node. */
  ghost predicate IsFilterOf(s: Setup, node: string, k: nat) {
    k < |s.adversaries| && s.adversaries[k].0 == node && forall j :: 0 <= j < k ==> s.adversaries[j].0 != node
  }

  lemma {:induction false} FilterFromFirst(advs: seq<(string, AdversarialConfig)>, node: string, i: nat)
    requires i <= |advs|
    ensures FilterFrom(advs, node, i) == None ==> forall j :: i <= j < |advs| ==> advs[j].0 != node
    ensures FilterFrom(advs, node, i).Some? ==>
              forall j :: i <= j < FilterFrom(advs, node, i).value ==> advs[j].0 != node
    decreases |advs| - i
  {
    if i < |advs| && advs[i].0 != node {
      FilterFromFirst(advs, node, i + 1);
    }
  }

  lemma FilterIndexIs(s: Setup, node: string)
    ensures forall k: nat :: IsFilterOf(s, node, k) <==> FilterIndex(s, node) == Some(k)
  {
    FilterFromFirst(s.adversaries, node, 0);
    var r := FilterIndex(s, node);
    if r.Some? {
      assert IsFilterOf(s, node, r.value);
      assert forall k: nat :: IsFilterOf(s, node, k) ==> !(k < r.value) && !(r.value < k);
    }
  }

  /** What becomes of a delivery before its sleep: too weak to demodulate, lost on the link, dropped,
    * captured or let through by its receiver's filter, or left alone.
    */
  datatype Cause = TooWeak | LostOnLink | Dropped | Captured | LetThrough | Untouched

  /** Every spreading factor demodulates 2.5 dB deeper than the one before. */
  ghost predicate IsTooWeak(s: Setup, t: Task) {
    t.link.snr < -7.5 - 2.5 * (s.radio.sf - 7) as real
  }

  ghost predicate IsLost(t: Task, lossDraw: real) {
    0.0 < t.link.loss && lossDraw < t.link.loss
  }

  /** The receiver has a filter in that mode, and the draw is below its probability. */
  ghost predicate IsFiltered(s: Setup, t: Task, advDraw: real, mode: string) {
    exists k: nat ::
      IsFilterOf(s, t.link.other, k) && advDraw < s.adversaries[k].1.probability && s.adversaries[k].1.mode == mode
  }

  ghost predicate IsTouched(s: Setup, t: Task, advDraw: real) {
    exists k: nat :: IsFilterOf(s, t.link.other, k) && advDraw < s.adversaries[k].1.probability
  }

  /** The first cause that applies, in the order of the code. */
  ghost function CauseOf(s: Setup, t: Task, lossDraw: real, advDraw: real): Cause {
    if IsTooWeak(s, t) then TooWeak
    else if IsLost(t, lossDraw) then LostOnLink
    else if !IsTouched(s, t, advDraw) then Untouched
    else if IsFiltered(s, t, advDraw, "drop") then Dropped
    else if IsFiltered(s, t, advDraw, "replay") then Captured
    else LetThrough
  }

  predicate Stops(c: Cause) {
    !c.LetThrough? && !c.Untouched?
  }

  function OutcomeOf(c: Cause): Outcome
    requires Stops(c)
  {
    match c
    case TooWeak => SnrDropped
    case LostOnLink => LinkLost
    case Dropped => AdvDropped
    case Captured => AdvCaptured
  }

  function CounterOf(l: Ledger, c: Cause): nat
    requires !c.Untouched?
  {
    match c
    case TooWeak => l.snrDrop
    case LostOnLink => l.linkLoss
    case Dropped => l.advDrop
    case Captured => l.advReplay
    case LetThrough => l.advCorrupt
  }

  lemma ThresholdFalls(sf: int)
    requires 7 <= sf <= 12
    ensures SnrThreshold(sf) == -7.5 - 2.5 * (sf - 7) as real
  {
  }

  lemma FilterCause(s: Setup, t: Task, advDraw: real)
    ensures match FilterIndex(s, t.link.other)
            case None => !IsTouched(s, t, advDraw)
            case Some(k) =>
              && (IsTouched(s, t, advDraw) <==> advDraw < s.adversaries[k].1.probability)
              && forall m: string :: IsFiltered(s, t, advDraw, m) <==>
                   advDraw < s.adversaries[k].1.probability && s.adversaries[k].1.mode == m
  {
    FilterIndexIs(s, t.link.other);
  }

  /** How many of the deliveries the step begins come to `c`. */
  ghost function BegunBy(s: Setup, w: World, a: Step, c: Cause): set<nat>
    requires Enabled(w, a)
  {
    if a.DoBegin? && CauseOf(s, w.tasks[a.id], a.lossDraw, a.advDraw) == c then {a.id} else {}
  }

  // ---- What a step does to the counters ---------------------------------------

  /** The filter's part of a delivery. */
  lemma FilteredLaw(s: Setup, w: World, id: nat, k: nat, corrupted: Bytes, c: Cause)
    requires id in w.tasks && k < |s.adversaries| && |w.buffers| == |s.adversaries|
    requires c == if s.adversaries[k].1.mode == "drop" then Dropped
                  else if s.adversaries[k].1.mode == "replay" then Captured else LetThrough
    ensures BeganAs(w, Filtered(s, w, id, k, corrupted), id, c)
  {
  }

  /** From `w` to `w'` delivery `id` began and came to `c`, and nothing else was counted. */
  ghost predicate BeganAs(w: World, w': World, id: nat, c: Cause)
    requires id in w.tasks
  {
    var d := if c.Untouched? then w.ledger else Counted(w.ledger, c);
    && w'.ledger == d && w'.now == w.now
    && (if Stops(c)
        then w'.tasks == w.tasks - {id} &&
             w'.decisions == w.decisions[id := Decision(w.tasks[id], w.now, OutcomeOf(c))]
        else w'.decisions == w.decisions && id in w'.tasks && w'.tasks[id].stage.Waiting? &&
             w'.tasks == w.tasks[id := w'.tasks[id]])
  }

  function Counted(l: Ledger, c: Cause): Ledger
    requires !c.Untouched?
  {
    match c
    case TooWeak => l.(snrDrop := l.snrDrop + 1)
    case LostOnLink => l.(linkLoss := l.linkLoss + 1)
    case Dropped => l.(advDrop := l.advDrop + 1)
    case Captured => l.(advReplay := l.advReplay + 1)
    case LetThrough => l.(advCorrupt := l.advCorrupt + 1)
  }

  /** A delivery comes to the first cause that applies to it. */
  lemma BeginLaw(s: Setup, w: World, id: nat, lossDraw: real, advDraw: real, corrupted: Bytes)
    requires id in w.tasks && |w.buffers| == |s.adversaries|
    ensures BeganAs(w, Begin(s, w, id, lossDraw, advDraw, corrupted), id,
                    CauseOf(s, w.tasks[id], lossDraw, advDraw))
  {
    var t := w.tasks[id];
    ThresholdFalls(s.radio.sf);
    FilterCause(s, t, advDraw);
    if FilterIndex(s, t.link.other).Some? {
      var k := FilterIndex(s, t.link.other).value;
      FilteredLaw(s, w, id, k, corrupted,
                  if s.adversaries[k].1.mode == "drop" then Dropped
                  else if s.adversaries[k].1.mode == "replay" then Captured else LetThrough);
    }
  }

  lemma BeganCounters(w: World, w': World, id: nat, c': Cause, c: Cause)
    requires id in w.tasks && BeganAs(w, w', id, c')
    ensures w'.ledger.tx == w.ledger.tx
    ensures !c.Untouched? ==> CounterOf(w'.ledger, c) == CounterOf(w.ledger, c) + if c' == c then 1 else 0
  {
  }

  lemma StepCounters(s: Setup, w: World, a: Step, c: Cause)
    requires Enabled(w, a) && |w.buffers| == |s.adversaries|
    ensures Apply(s, w, a).ledger.tx == if a.DoTransmit? then Bump(w.ledger.tx, a.sender) else w.ledger.tx
    ensures !c.Untouched? ==>
              CounterOf(Apply(s, w, a).ledger, c) == CounterOf(w.ledger, c) + |BegunBy(s, w, a, c)|
  {
    match a
    case Tick(_) =>
    case DoTransmit(_, _) =>
    case DoSpawn(i) =>
      var b := w.broadcasts[i];
      AddTasksKeeps(w.(broadcasts := w.broadcasts[..i] + w.broadcasts[i + 1..]),
                    b.sender, Neighbours(s, b.sender), b.packet, b.txId, Some((b.start, b.end)));
    case DoBegin(id, lossDraw, advDraw, corrupted) =>
      BeginLaw(s, w, id, lossDraw, advDraw, corrupted);
      BeganCounters(w, Apply(s, w, a), id, CauseOf(s, w.tasks[id], lossDraw, advDraw), c);
    case DoFinish(_) =>
    case DoDrain => DrainKeepsLedger(s, w, |s.adversaries|);
  }

  // ---- Transmissions --------------------------------------------------------

  /** How often `name` transmits in a run. */
  function Sends(steps: seq<Step>, name: string): nat {
    if steps == [] then 0
    else
      var a := steps[|steps| - 1];
      Sends(steps[..|steps| - 1], name) + if a.DoTransmit? && a.sender == name then 1 else 0
  }

  /** Each transmission is counted at its sender, whether or not its packet decodes. */
  lemma {:induction false} TransmissionsAreCounted(s: Setup, start: real, steps: seq<Step>, name: string)
    requires Reach(s, start, steps).Some?
    ensures var tx := Reach(s, start, steps).value.ledger.tx;
            (if name in tx then tx[name] else 0) == Sends(steps, name)
  {
    if steps != [] {
      TransmissionsAreCounted(s, start, steps[..|steps| - 1], name);
      StepCounters(s, Reach(s, start, steps[..|steps| - 1]).value, steps[|steps| - 1], Untouched);
    }
  }

  // ---- Causes ---------------------------------------------------------------

  /** The deliveries of a run that came to `c`. */
  ghost function Begun(s: Setup, start: real, steps: seq<Step>, c: Cause): set<nat>
    requires Reach(s, start, steps).Some?
  {
    if steps == [] then {}
    else
      var front := steps[..|steps| - 1];
      Begun(s, start, front, c) + BegunBy(s, Reach(s, start, front).value, steps[|steps| - 1], c)
  }

  /** Where a delivery that came to `c` is afterwards: ended by that cause, or asleep, or judged. */
  ghost predicate Came(w: World, id: nat, c: Cause) {
    if Stops(c) then id in w.decisions && w.decisions[id].outcome == OutcomeOf(c)
    else if id in w.tasks then w.tasks[id].stage.Waiting?
    else id in w.decisions && IsVerdict(w.decisions[id].outcome)
  }

  ghost predicate CameStays(w: World, w': World) {
    forall id: nat, c: Cause :: Came(w, id, c) && Tracked(w) ==> Came(w', id, c)
  }

  lemma {:induction false} AddTasksCame(w: World, sender: string, links: seq<EdgeLink>, packet: Bytes,
                                        txId: Option<nat>, window: Option<(real, real)>)
    requires Accounted(w)
    ensures CameStays(w, AddTasks(w, sender, links, packet, txId, window))
  {
    if links != [] {
      AddTasksCame(w, sender, links[..|links| - 1], packet, txId, window);
      AddTasksAccounts(w, sender, links[..|links| - 1], packet, txId, window);
    }
  }

  lemma {:induction false} EmitCame(s: Setup, w: World, name: string, due: seq<Replayed>)
    requires Accounted(w)
    ensures CameStays(w, Emit(s, w, name, due))
  {
    if due != [] {
      EmitCame(s, w, name, due[..|due| - 1]);
      EmitAccounts(s, w, name, due[..|due| - 1]);
      var w1, r := Emit(s, w, name, due[..|due| - 1]), due[|due| - 1];
      AddTasksCame(w1.(drained := w1.drained[r.source := w1.now]), name, Neighbours(s, name), r.packet, None, None);
    }
  }

  lemma DrainOneCame(s: Setup, w: World, w': World, k: nat)
    requires Accounted(w) && k < |s.adversaries| && |w.buffers| == |s.adversaries| && w' == DrainOne(s, w, k)
    ensures CameStays(w, w')
  {
    EmitCame(s, w.(buffers := w.buffers[k := NotDue(w.buffers[k], w.now)]),
             s.adversaries[k].0, Due(w.buffers[k], w.now));
  }

  lemma CameTwice(w: World, w': World, w'': World)
    requires CameStays(w, w') && CameStays(w', w'') && (Tracked(w) ==> Tracked(w'))
    ensures CameStays(w, w'')
  {
  }

  lemma {:induction false} DrainCame(s: Setup, w: World, k: nat)
    requires Accounted(w) && k <= |s.adversaries| && |w.buffers| == |s.adversaries|
    ensures CameStays(w, DrainUpTo(s, w, k))
  {
    if k > 0 {
      var w1 := DrainUpTo(s, w, k - 1);
      DrainCame(s, w, k - 1);
      DrainAccounts(s, w, k - 1);
      DrainOneCame(s, w1, DrainUpTo(s, w, k), k - 1);
      CameTwice(w, w1, DrainUpTo(s, w, k));
    }
  }

  /** One delivery moves on. */
  lemma BeganCame(w: World, w': World, id: nat, c: Cause)
    requires Tracked(w) && id in w.tasks && w.tasks[id].stage.Created? && BeganAs(w, w', id, c)
    ensures Came(w', id, c) && CameStays(w, w')
  {
  }

  lemma FinishCame(s: Setup, w: World, id: nat)
    requires Tracked(w) && id in w.tasks
    ensures CameStays(w, Finish(s, w, id))
  {
  }

  lemma StepCame(s: Setup, w: World, a: Step)
    requires Accounted(w) && Enabled(w, a) && |w.buffers| == |s.adversaries|
    ensures CameStays(w, Apply(s, w, a))
    ensures forall id, c :: id in BegunBy(s, w, a, c) ==> Came(Apply(s, w, a), id, c)
  {
    match a
    case Tick(_) =>
    case DoTransmit(_, _) =>
    case DoSpawn(i) =>
      var b := w.broadcasts[i];
      AddTasksCame(w.(broadcasts := w.broadcasts[..i] + w.broadcasts[i + 1..]),
                   b.sender, Neighbours(s, b.sender), b.packet, b.txId, Some((b.start, b.end)));
    case DoBegin(id, lossDraw, advDraw, corrupted) =>
      BeginLaw(s, w, id, lossDraw, advDraw, corrupted);
      BeganCame(w, Apply(s, w, a), id, CauseOf(s, w.tasks[id], lossDraw, advDraw));
    case DoFinish(id) => FinishCame(s, w, id);
    case DoDrain => DrainCame(s, w, |s.adversaries|);
  }

  lemma NewlyBegun(s: Setup, w: World, a: Step, c: Cause, ids: set<nat>)
    requires Tracked(w) && Enabled(w, a) && forall id :: id in ids ==> Came(w, id, c)
    ensures |ids + BegunBy(s, w, a, c)| == |ids| + |BegunBy(s, w, a, c)|
  {
    assert ids !! BegunBy(s, w, a, c);
    Joined(ids, BegunBy(s, w, a, c));
  }

  /** Before their sleep deliveries are counted by the first cause that applies to them: each counter
    * is the number of deliveries that came to its cause, each once, and those a cause stops end with
    * its outcome.  A filter in an unknown mode counts as one that corrupts.
    */
  lemma {:induction false} CausesAreCounted(s: Setup, start: real, steps: seq<Step>, c: Cause)
    requires Reach(s, start, steps).Some?
    ensures var w := Reach(s, start, steps).value;
            (!c.Untouched? ==> CounterOf(w.ledger, c) == |Begun(s, start, steps, c)|) &&
            forall id :: id in Begun(s, start, steps, c) ==> Came(w, id, c)
  {
    if steps != [] {
      var front, a := steps[..|steps| - 1], steps[|steps| - 1];
      CausesAreCounted(s, start, front, c);
      ReachAccounts(s, start, front);
      var w := Reach(s, start, front).value;
      StepCounters(s, w, a, c);
      StepCame(s, w, a);
      NewlyBegun(s, w, a, c, Begun(s, start, front, c));
    }
  }

  // ---- A simulation has an agent for every receiver ----------------------------

  ghost predicate Served(s: Setup, w: World) {
    (forall id :: id in w.tasks ==> w.tasks[id].link.other in s.agents) &&
    forall id :: id in w.decisions ==> !w.decisions[id].outcome.NoAgent?
  }

  ghost predicate AllServed(s: Setup) {
    forall n, l :: l in Neighbours(s, n) ==> l.other in s.agents
  }

  lemma ClosedServesAll(s: Setup)
    requires Closed(s.links) && s.agents == s.links.Keys
    ensures AllServed(s)
  {
  }

  lemma WiredServesAll(t: TopologyConfig, s: Setup)
    requires Wired(t) == Some(s)
    ensures AllServed(s)
  {
    var links := Links(t).value;
    LinksStayInside(t);
    assert s.links == links && s.agents == set n | n in t.nodes :: n.name;
    ClosedServesAll(s);
  }

  lemma {:induction false} AddTasksServed(s: Setup, w: World, sender: string, links: seq<EdgeLink>, packet: Bytes,
                                          txId: Option<nat>, window: Option<(real, real)>)
    requires Served(s, w) && forall l :: l in links ==> l.other in s.agents
    ensures Served(s, AddTasks(w, sender, links, packet, txId, window))
  {
    if links != [] {
      AddTasksServed(s, w, sender, links[..|links| - 1], packet, txId, window);
      assert links[|links| - 1] in links;
    }
  }

  lemma {:induction false} EmitServed(s: Setup, w: World, name: string, due: seq<Replayed>)
    requires Served(s, w) && AllServed(s)
    ensures Served(s, Emit(s, w, name, due))
  {
    if due != [] {
      EmitServed(s, w, name, due[..|due| - 1]);
      var w1, r := Emit(s, w, name, due[..|due| - 1]), due[|due| - 1];
      AddTasksServed(s, w1.(drained := w1.drained[r.source := w1.now]),
                     name, Neighbours(s, name), r.packet, None, None);
    }
  }

  lemma {:induction false} DrainServed(s: Setup, w: World, k: nat)
    requires Served(s, w) && AllServed(s) && k <= |s.adversaries| && |w.buffers| == |s.adversaries|
    ensures Served(s, DrainUpTo(s, w, k))
  {
    if k > 0 {
      DrainServed(s, w, k - 1);
      var w1 := DrainUpTo(s, w, k - 1);
      EmitServed(s, w1.(buffers := w1.buffers[k - 1 := NotDue(w1.buffers[k - 1], w1.now)]),
                 s.adversaries[k - 1].0, Due(w1.buffers[k - 1], w1.now));
    }
  }

  lemma DecideServed(s: Setup, w: World, id: nat, o: Outcome)
    requires Served(s, w) && id in w.tasks && !o.NoAgent?
    ensures Served(s, Decide(w, id, o))
  {
  }

  lemma BeginServed(s: Setup, w: World, id: nat, lossDraw: real, advDraw: real, corrupted: Bytes)
    requires Served(s, w) && id in w.tasks && |w.buffers| == |s.adversaries|
    ensures Served(s, Begin(s, w, id, lossDraw, advDraw, corrupted))
  {
    DecideServed(s, w, id, SnrDropped);
    DecideServed(s, w, id, LinkLost);
    DecideServed(s, w, id, AdvDropped);
    DecideServed(s, w, id, AdvCaptured);
  }

  lemma ApplyServed(s: Setup, w: World, a: Step)
    requires Served(s, w) && AllServed(s) && Enabled(w, a) && |w.buffers| == |s.adversaries|
    ensures Served(s, Apply(s, w, a))
  {
    match a
    case Tick(_) =>
    case DoTransmit(_, _) =>
    case DoSpawn(i) =>
      var b := w.broadcasts[i];
      AddTasksServed(s, w.(broadcasts := w.broadcasts[..i] + w.broadcasts[i + 1..]),
                     b.sender, Neighbours(s, b.sender), b.packet, b.txId, Some((b.start, b.end)));
    case DoBegin(id, lossDraw, advDraw, corrupted) => BeginServed(s, w, id, lossDraw, advDraw, corrupted);
    case DoFinish(id) => DecideServed(s, w, id, Verdict(s, w.active, w.tasks[id]));
    case DoDrain => DrainServed(s, w, |s.adversaries|);
  }

  lemma {:induction false} ReachServed(s: Setup, start: real, steps: seq<Step>)
    requires AllServed(s) && Reach(s, start, steps).Some?
    ensures Served(s, Reach(s, start, steps).value)
  {
    if steps != [] {
      ReachServed(s, start, steps[..|steps| - 1]);
      ApplyServed(s, Reach(s, start, steps[..|steps| - 1]).value, steps[|steps| - 1]);
    }
  }

  /** In a simulation the counters alone account for every delivery: whenever it is stopped, those
    * created are those in flight plus what is counted.
    */
  lemma CountersAccountForAll(t: TopologyConfig, s: Setup, start: real, steps: seq<Step>)
    requires Wired(t) == Some(s) && Reach(s, start, steps).Some?
    ensures var w := Reach(s, start, steps).value;
            w.nextTask == |w.tasks| + w.ledger.snrDrop + w.ledger.linkLoss + w.ledger.advDrop + w.ledger.advReplay
                        + w.ledger.halfDuplex + w.ledger.collision + Total(w.ledger.rx)
  {
    WiredServesAll(t, s);
    ReachServed(s, start, steps);
    EveryDeliveryIsAccountedFor(s, start, steps);
    assert Ended(Reach(s, start, steps).value.decisions, NoAgentKind) == {};
  }
}
