/** What the collision check decides for two arrivals, and what it may forget. */
module Collision {
  import opened Common
  import opened Channel

  // ---- The pairwise law -----------------------------------------------------

  lemma Timing(c: Config)
    ensures 0.0 <= Grace(c) < TPreamble(c) && 0.0 <= FecTolerance(c) < TPreamble(c)
  {
    var t := TSym(c);
    assert TPreamble(c) == c.preambleSymbols as real * t + 4.25 * t;
    assert (c.preambleSymbols - 5) as real * t == c.preambleSymbols as real * t - 5.0 * t;
    assert c.preambleSymbols as real * t >= 0.0;
  }

  /** What coding corrects and the grace period together are shorter than a preamble. */
  lemma ToleranceAndGrace(c: Config)
    ensures Grace(c) + FecTolerance(c) < TPreamble(c) && Grace(c) >= 0.0 && FecTolerance(c) >= 0.0
  {
    var t, p := TSym(c), c.preambleSymbols as real;
    assert TPreamble(c) == p * t + 4.25 * t;
    assert (c.preambleSymbols - 5) as real * t == p * t - 5.0 * t;
    assert p * t >= 0.0;
    assert FecTolerance(c) <= 2.0 * t;
  }

  /** The payload branch never decides anything the tail branch does not. */
  lemma PayloadCaseIsSubsumed(c: Config, f: Flight, q: Tx)
    requires OverlapStart(c, f, q) >= RxStart(c, f) + TPreamble(c)
    ensures OverlapStart(c, f, q) > RxStart(c, f) + Grace(c)
  {
    Timing(c);
  }

  /** The check in closed form: a reception is destroyed by an overlapping, uncaptured arrival
    * that reaches past the grace period and is not a tail short enough to correct.
    */
  lemma CollisionRule(c: Config, f: Flight, q: Tx)
    ensures Collides(c, f, q).Some? <==>
            Overlaps(c, f, q) && !Captures(c, f, q) && IntEnd(c, f, q) > RxStart(c, f) + Grace(c) &&
            (OverlapStart(c, f, q) > RxStart(c, f) + Grace(c) ==> Overlap(c, f, q) > FecTolerance(c))
    ensures Collides(c, f, q).Some? && q.start < q.end && f.start < f.end ==>
            Collides(c, f, q).value.interferer == q.sender && Collides(c, f, q).value.interfererId == q.id &&
            0.0 < Collides(c, f, q).value.overlap <= MinReal(q.end - q.start, f.end - f.start)
  {
    Timing(c);
  }

  /** A flight seen as an interferer of others. */
  function AsTx(f: Flight): Tx {
    Tx(f.id, f.sender, f.start, f.end)
  }

  /** Two arrivals at one receiver that are both audible, overlap, last at least a preamble,
    * and of which neither captures the receiver.
    */
  ghost predicate Contend(c: Config, f: Flight, g: Flight) {
    f.receiver == g.receiver && Overlaps(c, f, AsTx(g)) && Overlaps(c, g, AsTx(f)) &&
    f.end - f.start >= TPreamble(c) && g.end - g.start >= TPreamble(c) &&
    !Captures(c, f, AsTx(g)) && !Captures(c, g, AsTx(f))
  }

  ghost predicate SurvivesPair(c: Config, f: Flight, g: Flight) {
    Collides(c, f, AsTx(g)) == None
  }

  /** The arrival that came first survives exactly when the other one begins after its grace
    * period and the overlap is short enough to correct; the other one survives exactly when
    * the first one is over within the other's grace period.
    */
  lemma EarlierAndLater(c: Config, f: Flight, g: Flight)
    requires Contend(c, f, g) && RxStart(c, f) < RxStart(c, g)
    ensures SurvivesPair(c, f, g) <==>
            RxStart(c, g) > RxStart(c, f) + Grace(c) && RxEnd(c, f) - RxStart(c, g) <= FecTolerance(c)
    ensures SurvivesPair(c, g, f) <==> RxEnd(c, f) <= RxStart(c, g) + Grace(c)
  {
    Timing(c);
    CollisionRule(c, f, AsTx(g));
    CollisionRule(c, g, AsTx(f));
  }

  /** Arrivals that begin together destroy each other. */
  lemma SimultaneousBothLost(c: Config, f: Flight, g: Flight)
    requires Contend(c, f, g) && RxStart(c, f) == RxStart(c, g)
    ensures !SurvivesPair(c, f, g) && !SurvivesPair(c, g, f)
  {
    Timing(c);
    CollisionRule(c, f, AsTx(g));
    CollisionRule(c, g, AsTx(f));
  }

  lemma ToleranceWithinGrace(c: Config)
    requires c.preambleSymbols >= 7
    ensures FecTolerance(c) <= Grace(c)
  {
    var t, k := TSym(c), (c.preambleSymbols - 5) as real;
    assert k >= 2.0;
    assert k * t == 2.0 * t + (k - 2.0) * t;
    assert (k - 2.0) * t >= 0.0;
    assert FecSymbols(c) as real * t <= 2.0 * t;
  }

  /** Where the grace period is at least as long as what coding corrects (as it is for eight
    * preamble symbols at every coding rate), the first arrival never survives alone.
    */
  lemma FirstNeverSurvivesAlone(c: Config, f: Flight, g: Flight)
    requires Contend(c, f, g) && RxStart(c, f) < RxStart(c, g)
    requires c.preambleSymbols >= 7
    ensures SurvivesPair(c, f, g) ==> SurvivesPair(c, g, f)
  {
    EarlierAndLater(c, f, g);
    ToleranceWithinGrace(c);
  }

  /** With a positive threshold at most one of two arrivals captures the receiver. */
  lemma OneCaptures(c: Config, f: Flight, g: Flight)
    requires c.captureDb > 0.0 && f.receiver == g.receiver
    requires Snr(c, f.sender, f.receiver).Some? && Snr(c, g.sender, g.receiver).Some?
    ensures !(Captures(c, f, AsTx(g)) && Captures(c, g, AsTx(f)))
  {
  }

  // ---- What a store decides -------------------------------------------------

  /** A reception is lost exactly if some registered transmission destroys it, and the one
    * reported is the first registered of those.
    */
  lemma {:induction false} LostExactlyWhen(c: Config, store: seq<Tx>, f: Flight)
    ensures FirstLoss(c, store, f).Some? <==> exists q :: q in store && Collides(c, f, q).Some?
    ensures FirstLoss(c, store, f).Some? ==>
              exists i :: 0 <= i < |store| && Collides(c, f, store[i]) == FirstLoss(c, store, f) &&
                forall j :: 0 <= j < i ==> Collides(c, f, store[j]) == None
  {
    if store != [] {
      LostExactlyWhen(c, store[1..], f);
      if Collides(c, f, store[0]).Some? {
        assert store[0] in store;
      } else if FirstLoss(c, store, f).Some? {
        var k :| 0 <= k < |store[1..]| && Collides(c, f, store[1..][k]) == FirstLoss(c, store, f) &&
          forall j :: 0 <= j < k ==> Collides(c, f, store[1..][j]) == None;
        forall j | 0 <= j < k + 1
          ensures Collides(c, f, store[j]) == None
        {
          assert j > 0 ==> store[j] == store[1..][j - 1];
        }
        assert store[k + 1] == store[1..][k];
      }
      forall q | q in store && q != store[0]
        ensures q in store[1..]
      {
      }
    }
  }

  /** Transmissions that start too late to be heard during the reception do not change it. */
  lemma {:induction false} LateTxChangesNothing(c: Config, store: seq<Tx>, later: seq<Tx>, f: Flight)
    requires forall q :: q in later ==> IntStart(c, f, q) >= RxEnd(c, f)
    ensures FirstLoss(c, store + later, f) == FirstLoss(c, store, f)
  {
    FirstLossConcat(c, store, later, f);
    LostExactlyWhen(c, later, f);
    assert forall q :: q in later ==> !Overlaps(c, f, q);
  }

  lemma {:induction false} BusyExactlyWhen(store: seq<Tx>, receiver: string, rxStart: real, rxEnd: real)
    ensures FirstBusy(store, receiver, rxStart, rxEnd).Some? <==>
            exists q :: q in store && Blocks(q, receiver, rxStart, rxEnd)
    ensures FirstBusy(store, receiver, rxStart, rxEnd).Some? ==>
              exists i :: 0 <= i < |store| && Some(store[i]) == FirstBusy(store, receiver, rxStart, rxEnd) &&
                Blocks(store[i], receiver, rxStart, rxEnd) &&
                forall j :: 0 <= j < i ==> !Blocks(store[j], receiver, rxStart, rxEnd)
  {
    if store != [] {
      BusyExactlyWhen(store[1..], receiver, rxStart, rxEnd);
      if Blocks(store[0], receiver, rxStart, rxEnd) {
        assert store[0] in store;
      } else if FirstBusy(store, receiver, rxStart, rxEnd).Some? {
        var k :| 0 <= k < |store[1..]| && Some(store[1..][k]) == FirstBusy(store, receiver, rxStart, rxEnd) &&
          Blocks(store[1..][k], receiver, rxStart, rxEnd) &&
          forall j :: 0 <= j < k ==> !Blocks(store[1..][j], receiver, rxStart, rxEnd);
        forall j | 0 <= j < k + 1
          ensures !Blocks(store[j], receiver, rxStart, rxEnd)
        {
          assert j > 0 ==> store[j] == store[1..][j - 1];
        }
        assert store[k + 1] == store[1..][k];
      }
      forall q | q in store && q != store[0]
        ensures q in store[1..]
      {
      }
    }
  }

  lemma LateTxBlocksNothing(store: seq<Tx>, later: seq<Tx>, receiver: string, rxStart: real, rxEnd: real)
    requires forall q :: q in later ==> q.start >= rxEnd
    ensures FirstBusy(store + later, receiver, rxStart, rxEnd) == FirstBusy(store, receiver, rxStart, rxEnd)
  {
    FirstBusyConcat(store, later, receiver, rxStart, rxEnd);
    BusyExactlyWhen(later, receiver, rxStart, rxEnd);
  }

  // ---- What pruning may forget ----------------------------------------------

  /** Pruning keeps the whole verdict as long as nothing it drops destroys the reception. */
  lemma {:induction false} PruningKeepsLoss(c: Config, store: seq<Tx>, t: real, f: Flight)
    requires forall q :: q in store && q.end < t ==> Collides(c, f, q) == None
    ensures FirstLoss(c, Kept(store, t), f) == FirstLoss(c, store, f)
  {
    if store != [] {
      assert store[0] in store;
      assert forall q :: q in store[1..] ==> q in store;
      PruningKeepsLoss(c, store[1..], t, f);
      FirstLossConcat(c, if store[0].end >= t then [store[0]] else [], Kept(store[1..], t), f);
      assert [store[0]][1..] == [];
    }
  }

  lemma {:induction false} PruningKeepsBusy(store: seq<Tx>, t: real, receiver: string, rxStart: real, rxEnd: real)
    requires forall q :: q in store && q.end < t ==> q.end <= rxStart
    ensures FirstBusy(Kept(store, t), receiver, rxStart, rxEnd) == FirstBusy(store, receiver, rxStart, rxEnd)
  {
    if store != [] {
      assert store[0] in store;
      assert forall q :: q in store[1..] ==> q in store;
      PruningKeepsBusy(store[1..], t, receiver, rxStart, rxEnd);
      FirstBusyConcat(if store[0].end >= t then [store[0]] else [], Kept(store[1..], t), receiver, rxStart, rxEnd);
      assert [store[0]][1..] == [];
    }
  }

  /** For one interfering node the five-second horizon is exact: a store pruned at `now - 5`
    * gives every verdict of the full history if and only if the time since the primary began
    * to arrive, plus the interferer's latency, is within five seconds and a grace period.
    */
  lemma LossHorizonIsExact(c: Config, f: Flight, other: string, now: real)
    requires f.start < f.end && now >= RxEnd(c, f)
    requires other != f.sender && Snr(c, other, f.receiver).Some?
    requires !Captures(c, f, Tx(f.id + 1, other, 0.0, 0.0))
    ensures (forall q: Tx :: q.sender == other && q.start <= q.end ==>
               FirstLoss(c, Kept([q], now - 5.0), f) == FirstLoss(c, [q], f))
            <==> now - RxStart(c, f) + LatencyS(c, other, f.receiver) <= 5.0 + Grace(c)
  {
    var lat := LatencyS(c, other, f.receiver);
    var horizon := RxStart(c, f) + Grace(c) - lat;
    if now - 5.0 <= horizon {
      forall q: Tx | q.sender == other && q.start <= q.end
        ensures FirstLoss(c, Kept([q], now - 5.0), f) == FirstLoss(c, [q], f)
      {
        CollisionRule(c, f, q);
        PruningKeepsLoss(c, [q], now - 5.0, f);
      }
    } else {
      Timing(c);
      var end := (horizon + now - 5.0) / 2.0;
      var q := Tx(f.id + 1, other, MinReal(end, RxStart(c, f) - lat), end);
      CollisionRule(c, f, q);
      assert Collides(c, f, q).Some?;
      assert [q][1..] == [];
      assert Kept([q], now - 5.0) == [] && FirstLoss(c, [], f) == None;
      assert FirstLoss(c, [q], f).Some?;
    }
  }

  /** The half-duplex check has no grace period, and latency plays no part in it. */
  lemma BusyHorizonIsExact(receiver: string, rxStart: real, rxEnd: real, now: real)
    requires rxStart < rxEnd <= now
    ensures (forall q: Tx :: q.start <= q.end ==>
               FirstBusy(Kept([q], now - 5.0), receiver, rxStart, rxEnd) == FirstBusy([q], receiver, rxStart, rxEnd))
            <==> now - rxStart <= 5.0
  {
    if now - rxStart <= 5.0 {
      forall q: Tx | q.start <= q.end
        ensures FirstBusy(Kept([q], now - 5.0), receiver, rxStart, rxEnd) == FirstBusy([q], receiver, rxStart, rxEnd)
      {
        PruningKeepsBusy([q], now - 5.0, receiver, rxStart, rxEnd);
      }
    } else {
      var q := Tx(0, receiver, rxStart, (rxStart + now - 5.0) / 2.0);
      assert [q][1..] == [];
      assert Kept([q], now - 5.0) == [] && FirstBusy([], receiver, rxStart, rxEnd) == None;
      assert FirstBusy([q], receiver, rxStart, rxEnd) == Some(q);
    }
  }
}
