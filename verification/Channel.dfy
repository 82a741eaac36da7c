/** The RF channel: which receptions collide, and the store of transmissions it decides from. */
module Channel {
  import opened Common

  /** One registered transmission, in sender time (seconds). */
  datatype Tx = Tx(id: nat, sender: string, start: real, end: real)

  /** A reception to be decided: transmission `id` of `sender` as `receiver` sees it. */
  datatype Flight = Flight(sender: string, receiver: string, start: real, end: real, id: nat)

  /** Who destroyed a reception, with what, for how long they overlapped. */
  datatype Loss = Loss(interferer: string, interfererId: nat, overlap: real)

  datatype ChannelConfig = ChannelConfig(
    linkSnr: map<string, map<string, real>>, linkLatencyMs: map<string, map<string, real>>,
    sf: nat, bwHz: nat, cr: int, captureDb: real, preambleSymbols: nat)

  type Config = c: ChannelConfig | c.bwHz > 0 witness ChannelConfig(map[], map[], 7, 125_000, 1, 6.0, 8)

  // ---- Constants of a radio setting -----------------------------------------

  /** Symbol time in seconds. */
  function TSym(c: Config): (r: real)
    ensures r > 0.0
  {
    Pow2(c.sf) as real / c.bwHz as real
  }

  function TPreamble(c: Config): real {
    (c.preambleSymbols as real + 4.25) * TSym(c)
  }

  /** How many corrupted symbols the coding rate corrects. */
  function FecSymbols(c: Config): int {
    if c.cr == 3 then 1 else if c.cr == 4 then 2 else 0
  }

  function FecTolerance(c: Config): real {
    FecSymbols(c) as real * TSym(c)
  }

  /** The part of the preamble a receiver can do without: all but five symbols. */
  function Grace(c: Config): real {
    MaxReal(0.0, (c.preambleSymbols - 5) as real * TSym(c))
  }

  function Snr(c: Config, sender: string, receiver: string): Option<real> {
    if sender in c.linkSnr && receiver in c.linkSnr[sender] then Some(c.linkSnr[sender][receiver]) else None
  }

  function LatencyS(c: Config, sender: string, receiver: string): real {
    (if sender in c.linkLatencyMs && receiver in c.linkLatencyMs[sender]
     then c.linkLatencyMs[sender][receiver] else 0.0) / 1000.0
  }

  // ---- One primary against one interferer -----------------------------------

  /** Arrival window of a flight, and of a transmission, at the flight's receiver. */
  function RxStart(c: Config, f: Flight): real { f.start + LatencyS(c, f.sender, f.receiver) }

  function RxEnd(c: Config, f: Flight): real { f.end + LatencyS(c, f.sender, f.receiver) }

  function IntStart(c: Config, f: Flight, q: Tx): real { q.start + LatencyS(c, q.sender, f.receiver) }

  function IntEnd(c: Config, f: Flight, q: Tx): real { q.end + LatencyS(c, q.sender, f.receiver) }

  /** The transmission counts as an interferer at all, and is on air at the same time. */
  predicate Overlaps(c: Config, f: Flight, q: Tx) {
    q.id != f.id && q.sender != f.sender && Snr(c, q.sender, f.receiver).Some? &&
    IntStart(c, f, q) < RxEnd(c, f) && RxStart(c, f) < IntEnd(c, f, q)
  }

  /** The primary is enough stronger than the interferer. */
  predicate Captures(c: Config, f: Flight, q: Tx)
    requires Snr(c, q.sender, f.receiver).Some?
  {
    Snr(c, f.sender, f.receiver).Some? &&
    Snr(c, f.sender, f.receiver).value - Snr(c, q.sender, f.receiver).value >= c.captureDb
  }

  function OverlapStart(c: Config, f: Flight, q: Tx): real { MaxReal(RxStart(c, f), IntStart(c, f, q)) }

  function Overlap(c: Config, f: Flight, q: Tx): real {
    MinReal(RxEnd(c, f), IntEnd(c, f, q)) - OverlapStart(c, f, q)
  }

  /** The three stages of the collision check, in the order they are tried. */
  function Collides(c: Config, f: Flight, q: Tx): Option<Loss> {
    if !Overlaps(c, f, q) then None
    else if Captures(c, f, q) then None
    else if IntEnd(c, f, q) <= RxStart(c, f) + Grace(c) then None
    else if OverlapStart(c, f, q) >= RxStart(c, f) + TPreamble(c) && Overlap(c, f, q) <= FecTolerance(c) then None
    else if OverlapStart(c, f, q) > RxStart(c, f) + Grace(c) && Overlap(c, f, q) <= FecTolerance(c) then None
    else Some(Loss(q.sender, q.id, Overlap(c, f, q)))
  }

  // ---- A primary against a store --------------------------------------------

  /** The first registered transmission that destroys the reception. */
  function FirstLoss(c: Config, store: seq<Tx>, f: Flight): Option<Loss> {
    if store == [] then None
    else if Collides(c, f, store[0]).Some? then Collides(c, f, store[0])
    else FirstLoss(c, store[1..], f)
  }

  /** Half-duplex: the receiver itself is on air during the window. */
  predicate Blocks(q: Tx, receiver: string, rxStart: real, rxEnd: real) {
    q.sender == receiver && q.start < rxEnd && rxStart < q.end
  }

  function FirstBusy(store: seq<Tx>, receiver: string, rxStart: real, rxEnd: real): Option<Tx> {
    if store == [] then None
    else if Blocks(store[0], receiver, rxStart, rxEnd) then Some(store[0])
    else FirstBusy(store[1..], receiver, rxStart, rxEnd)
  }

  /** A dictionary keeps the place of a key it already has. */
  function Registered(store: seq<Tx>, q: Tx): seq<Tx> {
    if store == [] then [q]
    else if store[0].id == q.id then [q] + store[1..]
    else [store[0]] + Registered(store[1..], q)
  }

  function Kept(store: seq<Tx>, t: real): seq<Tx> {
    if store == [] then []
    else (if store[0].end >= t then [store[0]] else []) + Kept(store[1..], t)
  }

  lemma {:induction false} KeptConcat(a: seq<Tx>, b: seq<Tx>, t: real)
    ensures Kept(a + b, t) == Kept(a, t) + Kept(b, t)
  {
    if a == [] {
      assert a + b == b;
    } else {
      KeptConcat(a[1..], b, t);
      assert (a + b)[1..] == a[1..] + b;
    }
  }

  lemma {:induction false} FirstLossConcat(c: Config, a: seq<Tx>, b: seq<Tx>, f: Flight)
    ensures FirstLoss(c, a + b, f) == if FirstLoss(c, a, f).Some? then FirstLoss(c, a, f) else FirstLoss(c, b, f)
  {
    if a == [] {
      assert a + b == b;
    } else {
      FirstLossConcat(c, a[1..], b, f);
      assert (a + b)[1..] == a[1..] + b;
    }
  }

  lemma {:induction false} FirstBusyConcat(a: seq<Tx>, b: seq<Tx>, receiver: string, rxStart: real, rxEnd: real)
    ensures FirstBusy(a + b, receiver, rxStart, rxEnd) ==
            if FirstBusy(a, receiver, rxStart, rxEnd).Some? then FirstBusy(a, receiver, rxStart, rxEnd)
            else FirstBusy(b, receiver, rxStart, rxEnd)
  {
    if a == [] {
      assert a + b == b;
    } else {
      FirstBusyConcat(a[1..], b, receiver, rxStart, rxEnd);
      assert (a + b)[1..] == a[1..] + b;
    }
  }

  /** A new transmission goes to the end. */
  lemma {:induction false} RegisterNew(store: seq<Tx>, q: Tx)
    requires forall o :: o in store ==> o.id != q.id
    ensures Registered(store, q) == store + [q]
  {
    if store != [] {
      assert store[0] in store;
      RegisterNew(store[1..], q);
    }
  }

  ghost predicate FirstWithId(store: seq<Tx>, id: nat, i: int) {
    0 <= i < |store| && store[i].id == id && forall j :: 0 <= j < i ==> store[j].id != id
  }

  /** What a repeated id does: its record is replaced where it stands. */
  lemma {:induction false} RegisterKnown(store: seq<Tx>, q: Tx, i: nat)
    requires FirstWithId(store, q.id, i)
    ensures Registered(store, q) == store[i := q]
  {
    if i > 0 {
      RegisterKnown(store[1..], q, i - 1);
      assert store == [store[0]] + store[1..];
    }
  }

  /** The records `expire_before` keeps. */
  function EndsFrom(t: real): Tx -> bool {
    (q: Tx) => q.end >= t
  }

  lemma {:induction false} KeptSelects(store: seq<Tx>, t: real)
    ensures IsSelection(Kept(store, t), store, EndsFrom(t))
  {
    if store == [] {
      NothingSelected(EndsFrom(t));
    } else {
      KeptSelects(store[1..], t);
      assert store == [store[0]] + store[1..];
      if store[0].end >= t {
        TakeFirst(Kept(store[1..], t), store[1..], EndsFrom(t), store[0]);
      } else {
        SkipFirst(Kept(store[1..], t), store[1..], EndsFrom(t), store[0]);
        assert [] + Kept(store[1..], t) == Kept(store[1..], t);
      }
    }
  }

  lemma FirstLossAt(c: Config, store: seq<Tx>, f: Flight, i: nat)
    requires i < |store|
    ensures FirstLoss(c, store[i..], f) ==
            if Collides(c, f, store[i]).Some? then Collides(c, f, store[i]) else FirstLoss(c, store[i + 1..], f)
  {
    assert store[i..][0] == store[i] && store[i..][1..] == store[i + 1..];
  }

  class ChannelModel {
    const config: Config
    /** The `_active` dictionary, in insertion order. */
    var active: seq<Tx>

    constructor (config: Config)
      ensures this.config == config && active == []
    {
      this.config := config;
      active := [];
    }

    /** `register_tx`: a new id goes behind the others, a known one keeps its place. */
    method RegisterTx(q: Tx)
      modifies this
      ensures active == Registered(old(active), q)
      ensures (forall o :: o in old(active) ==> o.id != q.id) ==> active == old(active) + [q]
      ensures forall i :: FirstWithId(old(active), q.id, i) ==> active == old(active)[i := q]
    {
      if forall o :: o in active ==> o.id != q.id {
        RegisterNew(active, q);
      }
      forall i | FirstWithId(active, q.id, i)
        ensures Registered(active, q) == active[i := q]
      {
        RegisterKnown(active, q, i);
      }
      active := Registered(active, q);
    }

    /** `expire_before`: exactly the records that end at `t` or later stay, in their order. */
    method ExpireBefore(t: real)
      modifies this
      ensures active == Kept(old(active), t)
      ensures IsSelection(active, old(active), EndsFrom(t))
    {
      KeptSelects(active, t);
      active := Kept(active, t);
    }

    /** What the router does with every transmission: register it, and forget what ended 5 s before. */
    method RegisterAndPrune(q: Tx)
      modifies this
      ensures active == Kept(Registered(old(active), q), q.start - 5.0)
    {
      RegisterTx(q);
      ExpireBefore(q.start - 5.0);
    }

    /** `is_receiver_busy` */
    method IsReceiverBusy(receiver: string, rxStart: real, rxEnd: real) returns (busy: Option<Tx>)
      ensures busy == FirstBusy(active, receiver, rxStart, rxEnd)
    {
      var i := 0;
      while i < |active|
        invariant 0 <= i <= |active|
        invariant FirstBusy(active, receiver, rxStart, rxEnd) == FirstBusy(active[i..], receiver, rxStart, rxEnd)
      {
        var q := active[i];
        assert active[i..][0] == q && active[i..][1..] == active[i + 1..];
        i := i + 1;
        if q.sender != receiver {
          continue;
        }
        if q.start < rxEnd && q.end > rxStart {
          return Some(q);
        }
      }
      busy := None;
    }

    /** The body of the loop of `is_lost`, for one transmission. */
    method Judge(f: Flight, q: Tx) returns (hit: Option<Loss>)
      ensures hit == Collides(config, f, q)
    {
      var primarySnr := Snr(config, f.sender, f.receiver);
      var primaryLat := LatencyS(config, f.sender, f.receiver);
      var rxStart, rxEnd := f.start + primaryLat, f.end + primaryLat;
      if q.id == f.id {
        return None;
      }
      if q.sender == f.sender {
        return None;
      }
      var interfererSnr := Snr(config, q.sender, f.receiver);
      if interfererSnr == None {
        return None;
      }
      var intLat := LatencyS(config, q.sender, f.receiver);
      var intStart, intEnd := q.start + intLat, q.end + intLat;
      if intStart >= rxEnd || intEnd <= rxStart {
        return None;
      }
      if primarySnr.Some? {
        if primarySnr.value - interfererSnr.value >= config.captureDb {
          assert Captures(config, f, q);
          return None;
        }
      }
      assert !Captures(config, f, q) && Overlaps(config, f, q);
      var overlapStart := MaxReal(rxStart, intStart);
      var overlapEnd := MinReal(rxEnd, intEnd);
      var overlap := overlapEnd - overlapStart;
      var critical := rxStart + Grace(config);
      if intEnd <= critical {
        return None;
      }
      var payloadStart := rxStart + TPreamble(config);
      var tolerance := FecTolerance(config);
      if overlapStart >= payloadStart {
        if overlap <= tolerance {
          return None;
        }
      }
      if overlapStart > critical {
        if overlap <= tolerance {
          return None;
        }
      }
      return Some(Loss(q.sender, q.id, overlap));
    }

    /** `is_lost` */
    method IsLost(f: Flight) returns (lost: Option<Loss>)
      ensures lost == FirstLoss(config, active, f)
    {
      var i := 0;
      while i < |active|
        invariant 0 <= i <= |active|
        invariant FirstLoss(config, active, f) == FirstLoss(config, active[i..], f)
      {
        FirstLossAt(config, active, f, i);
        var hit := Judge(f, active[i]);
        if hit.Some? {
          return hit;
        }
        i := i + 1;
      }
      lost := None;
    }
  }
}
