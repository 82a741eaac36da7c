/** The proactive next-hop routing table: what one event does to it.
  *
  * `Table` is the abstract state.  The class at the end keeps it in a fixed array
  * the way the agent does, and each of its methods is proved to compute the
  * function of the same name on `Table`.
  */
module RouteTable {
  import opened Common
  import opened PathBlocks

  const RT_MAX_ROUTES: nat := 128
  const RT_MAX_AGE: nat := 3
  const RT_PATH_CAP: nat := 64
  const RT_AGE_EVERY: nat := 16
  const RT_ADMIT_PER_CYCLE: nat := 16
  const RT_PINNED_BIT: nat := 0x80
  const UINT8: nat := 0x100
  const UINT32: nat := 0x1_0000_0000

  type Prefix = p: seq<Byte> | |p| == 4 witness [0, 0, 0, 0]

  /** One slot.  `path` holds the `path_bytes` bytes in use; an empty one is a metric-only route. */
  datatype RouteEntry = RouteEntry(
    dest: Prefix, path: seq<Byte>, hashSz: Byte, metric: Byte, age: Byte, useCount: Byte)
  {
    /** `age & RT_PINNED_BIT` */
    predicate Pinned() {
      age >= RT_PINNED_BIT
    }

    /** `age & RT_AGE_MASK` */
    function Counter(): Byte {
      age % RT_PINNED_BIT
    }

    predicate Useless() {
      path == []
    }

    /** One age cycle older; the pinned bit is known to be clear. */
    function Older(): RouteEntry
      requires !Pinned() && Counter() < RT_MAX_AGE
    {
      this.(age := Counter() + 1)
    }
  }

  /** The path field of a received packet.  `path` is the whole `MAX_PATH_SIZE` buffer;
    * `hashCnt` blocks of `hashSz` bytes of it are in use.
    */
  datatype PathField = PathField(path: seq<Byte>, hashSz: nat, hashCnt: nat)

  /** Two bits of size and six bits of count are what a packet can carry. */
  type AdvertPacket = p: PathField | |p.path| == RT_PATH_CAP && 1 <= p.hashSz <= 4 && p.hashCnt <= 63
    witness PathField(seq(RT_PATH_CAP, _ => 0), 1, 0)

  /** `live` is `rt_table[..rt_count]`. */
  datatype Table = Table(live: seq<RouteEntry>, advertSeen: nat, admits: nat) {
    ghost predicate Valid() {
      |live| <= RT_MAX_ROUTES && advertSeen < UINT32 && admits <= RT_ADMIT_PER_CYCLE && Distinct(live)
    }
  }

  const EMPTY_TABLE := Table([], 0, 0)

  ghost predicate Distinct(s: seq<RouteEntry>) {
    forall i, j :: 0 <= i < j < |s| ==> s[i].dest != s[j].dest
  }

  // ---- Lookup ---------------------------------------------------------------

  /** The index of the first entry for `dest`, or `|s|`. */
  function FindIndex(s: seq<RouteEntry>, dest: Prefix): (i: nat)
    ensures i <= |s|
    ensures i < |s| ==> s[i].dest == dest
    ensures forall j :: 0 <= j < i ==> s[j].dest != dest
  {
    if s == [] then 0
    else if s[0].dest == dest then 0
    else 1 + FindIndex(s[1..], dest)
  }

  // ---- Ageing ---------------------------------------------------------------

  /** Slot `i` overwritten by the tail, the tail slot given up. */
  function SwapOut(s: seq<RouteEntry>, i: nat): seq<RouteEntry>
    requires i < |s|
  {
    s[i := s[|s| - 1]][..|s| - 1]
  }

  /** The ageing pass from slot `i` on, a stale entry being overwritten by the tail. */
  function AgeFrom(s: seq<RouteEntry>, i: nat): seq<RouteEntry>
    requires i <= |s|
    decreases |s| - i
  {
    if i == |s| then s
    else if s[i].Pinned() then AgeFrom(s, i + 1)
    else if s[i].Counter() + 1 > RT_MAX_AGE then AgeFrom(SwapOut(s, i), i)
    else AgeFrom(s[i := s[i].Older()], i + 1)
  }

  // ---- Insertion and eviction -----------------------------------------------

  /** What one comparison of the eviction scan keeps: `w` or the newcomer `i`. */
  function Worse(s: seq<RouteEntry>, w: nat, i: nat): nat
    requires w < |s| && i < |s|
  {
    if s[i].Useless() && !s[w].Useless() then i
    else if s[i].Useless() != s[w].Useless() then w
    else if s[i].Useless() then if s[i].Counter() > s[w].Counter() then i else w
    else if s[w].useCount > 0 && s[i].useCount == 0 then i
    else if s[i].useCount == s[w].useCount && s[i].Counter() > s[w].Counter() then i
    else w
  }

  /** The slot the eviction scan ends on, if any entry is not pinned. */
  function Victim(s: seq<RouteEntry>): (w: Option<nat>)
    ensures w.Some? ==> w.value < |s| && !s[w.value].Pinned()
  {
    if s == [] then None
    else
      var i := |s| - 1;
      var w := Victim(s[..i]);
      if s[i].Pinned() then w
      else if w == None then Some(i)
      else Some(Worse(s, w.value, i))
  }

  /** A route as a free slot receives it: cut to the capacity, age and use count zero. */
  function NewEntry(dest: Prefix, rev: seq<Byte>, hashSz: Byte, metric: Byte): RouteEntry {
    RouteEntry(dest, if |rev| <= RT_PATH_CAP then rev else rev[..RT_PATH_CAP], hashSz, metric, 0, 0)
  }

  /** The refreshed form of `e`: new route, age zero, pinned bit and use count kept. */
  function Refreshed(e: RouteEntry, rev: seq<Byte>, hashSz: Byte, metric: Byte): RouteEntry {
    NewEntry(e.dest, rev, hashSz, metric).(
      age := if e.Pinned() then RT_PINNED_BIT else 0,
      useCount := e.useCount)
  }

  /** `rt_upsert`: refresh, refuse, append or evict. */
  function Upserted(t: Table, dest: Prefix, rev: seq<Byte>, hashSz: Byte, metric: Byte): Table {
    var i := FindIndex(t.live, dest);
    if i < |t.live| then
      if metric <= t.live[i].metric then
        t.(live := t.live[i := Refreshed(t.live[i], rev, hashSz, metric)])
      else t
    else if t.admits >= RT_ADMIT_PER_CYCLE then t
    else if |t.live| < RT_MAX_ROUTES then
      t.(live := t.live + [NewEntry(dest, rev, hashSz, metric)], admits := t.admits + 1)
    else
      var w := Victim(t.live);
      if w == None || rev == [] then t
      else t.(live := t.live[w.value := NewEntry(dest, rev, hashSz, metric)], admits := t.admits + 1)
  }

  // ---- Events ---------------------------------------------------------------

  /** `uint8_t` length of the path field and hop count of an advert. */
  function FieldBytes(p: AdvertPacket): Byte { (p.hashCnt * p.hashSz) % UINT8 }

  function Metric(p: AdvertPacket): Byte { (p.hashCnt + 1) % UINT8 }

  /** The path the table stores for an advert: reversed, or nothing if it does not fit. */
  function StoredPath(p: AdvertPacket): seq<Byte>
  {
    FieldFits(p);
    if FieldBytes(p) > RT_PATH_CAP then []
    else ReverseBlocks(p.path[..p.hashCnt * p.hashSz], p.hashSz, p.hashCnt)
  }

  /** The 6-bit count and 2-bit size of the wire format never overflow the byte arithmetic. */
  lemma FieldFits(p: AdvertPacket)
    ensures 0 <= p.hashCnt * p.hashSz < UINT8
    ensures FieldBytes(p) == p.hashCnt * p.hashSz && Metric(p) == p.hashCnt + 1 <= 64
  {
    assert p.hashCnt * p.hashSz <= 63 * 4 by {
      assert p.hashCnt * p.hashSz <= 63 * p.hashSz;
    }
  }

  /** The advert counter moves on, and every sixteenth advert starts a new age cycle. */
  function AgeCycle(t: Table): Table {
    var seen := (t.advertSeen + 1) % UINT32;
    if seen % RT_AGE_EVERY == 0 then Table(AgeFrom(t.live, 0), seen, 0)
    else t.(advertSeen := seen)
  }

  /** The table part of `onAdvertRecv` for an advert that is not our own. */
  function AdvertStep(t: Table, dest: Prefix, p: AdvertPacket): Table
  {
    Upserted(AgeCycle(t), dest, StoredPath(p), p.hashSz, Metric(p))
  }

  /** The path `sendTextTo` takes from the table, if it takes one. */
  function Lookup(t: Table, dest: Prefix): Option<seq<Byte>> {
    var i := FindIndex(t.live, dest);
    if i < |t.live| && t.live[i].metric > 1 && !t.live[i].Useless() then Some(t.live[i].path) else None
  }

  /** A table-direct send counts one use, saturating. */
  function SendStep(t: Table, dest: Prefix): Table {
    var i := FindIndex(t.live, dest);
    if Lookup(t, dest) == None || t.live[i].useCount == 255 then t
    else t.(live := t.live[i := t.live[i].(useCount := t.live[i].useCount + 1)])
  }

  // ---- The agent's own form -------------------------------------------------

  lemma FindIndexIs(s: seq<RouteEntry>, dest: Prefix, i: nat)
    requires i <= |s| && (i < |s| ==> s[i].dest == dest)
    requires forall j :: 0 <= j < i ==> s[j].dest != dest
    ensures FindIndex(s, dest) == i
  {
    var f := FindIndex(s, dest);
    assert f < |s| ==> s[f].dest == dest;
  }

  class NextHopTable {
    const table: array<RouteEntry>
    var count: nat
    var advertSeen: nat
    var admits: nat

    ghost predicate Valid()
      reads this
    {
      table.Length == RT_MAX_ROUTES && count <= RT_MAX_ROUTES &&
      advertSeen < UINT32 && admits <= RT_ADMIT_PER_CYCLE
    }

    ghost function State(): Table
      requires Valid()
      reads this, table
    {
      Table(table[..count], advertSeen, admits)
    }

    constructor ()
      ensures Valid() && fresh(table)
      ensures State() == EMPTY_TABLE
    {
      table := new RouteEntry[RT_MAX_ROUTES](_ => RouteEntry([0, 0, 0, 0], [], 0, 0, 0, 0));
      count, advertSeen, admits := 0, 0, 0;
    }

    /** `rt_find`; `count` stands for the null pointer. */
    method Find(dest: Prefix) returns (i: nat)
      requires Valid()
      ensures i == FindIndex(State().live, dest)
    {
      i := 0;
      while i < count
        invariant 0 <= i <= count
        invariant forall j :: 0 <= j < i ==> table[j].dest != dest
      {
        if table[i].dest == dest {
          FindIndexIs(table[..count], dest, i);
          return;
        }
        i := i + 1;
      }
      FindIndexIs(table[..count], dest, i);
    }

    /** One turn of the loop of `rt_age_entries`. */
    method AgeSlot(i: nat) returns (i': nat)
      requires Valid() && i < count
      modifies this`count, table
      ensures Valid() && i' <= count && count - i' < old(count) - i
      ensures AgeFrom(table[..count], i') == AgeFrom(old(table[..count]), i)
    {
      ghost var s := table[..count];
      i' := i;
      if table[i].Pinned() {
        i' := i + 1;
      } else {
        var newAge := (table[i].Counter() + 1) % UINT8;
        if newAge > RT_MAX_AGE {
          count := count - 1;
          table[i] := table[count];
          assert table[..count] == SwapOut(s, i);
        } else {
          table[i] := table[i].(age := newAge);
          assert table[..count] == s[i := s[i].Older()];
          i' := i + 1;
        }
      }
    }

    /** `rt_age_entries` */
    method AgeEntries()
      requires Valid()
      modifies this, table
      ensures Valid()
      ensures State() == Table(AgeFrom(old(State()).live, 0), old(advertSeen), 0)
    {
      admits := 0;
      var i := 0;
      while i < count
        invariant Valid() && 0 <= i <= count
        invariant advertSeen == old(advertSeen) && admits == 0
        invariant AgeFrom(table[..count], i) == AgeFrom(old(table[..count]), 0)
        decreases count - i
      {
        i := AgeSlot(i);
      }
    }

    /** The eviction scan of `rt_upsert`; `RT_MAX_ROUTES` means every entry is pinned. */
    method PickVictim() returns (worst: nat)
      requires Valid() && count == RT_MAX_ROUTES
      ensures Victim(State().live) == if worst == RT_MAX_ROUTES then None else Some(worst)
      ensures worst <= RT_MAX_ROUTES
    {
      worst := RT_MAX_ROUTES;
      var i := 0;
      while i < count
        invariant 0 <= i <= count
        invariant worst < i || worst == RT_MAX_ROUTES
        invariant Victim(table[..i]) == if worst == RT_MAX_ROUTES then None else Some(worst)
      {
        ghost var s := table[..i + 1];
        assert s[..i] == table[..i];
        ghost var was := worst;
        if table[i].Pinned() {
        } else if worst == RT_MAX_ROUTES {
          worst := i;
        } else {
          var iUseless, wUseless := table[i].path == [], table[worst].path == [];
          var iAge, wAge := table[i].Counter(), table[worst].Counter();
          if iUseless && !wUseless {
            worst := i;
          } else if iUseless == wUseless {
            if !iUseless {
              if table[worst].useCount > 0 && table[i].useCount == 0 {
                worst := i;
              } else if table[i].useCount == table[worst].useCount && iAge > wAge {
                worst := i;
              }
            } else {
              if iAge > wAge {
                worst := i;
              }
            }
          }
          assert worst == Worse(s, was, i);
        }
        i := i + 1;
      }
    }

    /** `rt_upsert` */
    method Upsert(dest: Prefix, rev: seq<Byte>, hashSz: Byte, metric: Byte)
      requires Valid()
      modifies this, table
      ensures Valid()
      ensures State() == Upserted(old(State()), dest, rev, hashSz, metric)
    {
      ghost var s := table[..count];
      var e := Find(dest);
      if e < count {
        if metric <= table[e].metric {
          var n := if |rev| <= RT_PATH_CAP then |rev| else RT_PATH_CAP;
          table[e] := RouteEntry(table[e].dest, rev[..n], hashSz, metric,
                                 if table[e].Pinned() then RT_PINNED_BIT else 0, table[e].useCount);
          assert rev[..|rev|] == rev;
          assert table[..count] == s[e := Refreshed(s[e], rev, hashSz, metric)];
        }
        return;
      }
      if admits >= RT_ADMIT_PER_CYCLE {
        return;
      }
      if count < RT_MAX_ROUTES {
        Write(count, dest, rev, hashSz, metric);
        count := count + 1;
        admits := admits + 1;
        assert table[..count] == s + [NewEntry(dest, rev, hashSz, metric)];
        return;
      }
      var worst := PickVictim();
      if worst == RT_MAX_ROUTES {
        return;
      }
      if |rev| == 0 {
        return;
      }
      Write(worst, dest, rev, hashSz, metric);
      admits := admits + 1;
    }

    /** Fill one slot with a new route. */
    method Write(i: nat, dest: Prefix, rev: seq<Byte>, hashSz: Byte, metric: Byte)
      requires i < table.Length
      modifies table
      ensures table[..] == old(table[..])[i := NewEntry(dest, rev, hashSz, metric)]
    {
      var n := if |rev| <= RT_PATH_CAP then |rev| else RT_PATH_CAP;
      assert rev[..|rev|] == rev;
      table[i] := RouteEntry(dest, rev[..n], hashSz, metric, 0, 0);
    }

    /** The reversed path field, or nothing if it is longer than a slot. */
    method PathToStore(packet: AdvertPacket) returns (rev: seq<Byte>)
      ensures rev == StoredPath(packet)
    {
      FieldFits(packet);
      var fullPathBytes := (packet.hashCnt * packet.hashSz) % UINT8;
      rev := [];
      if fullPathBytes <= RT_PATH_CAP {
        var buffer := new Byte[RT_PATH_CAP](_ => 0);
        var revBytes := ReverseInto(buffer, packet.path, packet.hashSz, packet.hashCnt);
        rev := buffer[..revBytes];
      }
    }

    /** The advert counter moves on, and every sixteenth advert ages the table. */
    method CountAdvert()
      requires Valid()
      modifies this, table
      ensures Valid() && State() == AgeCycle(old(State()))
    {
      advertSeen := (advertSeen + 1) % UINT32;
      if advertSeen % RT_AGE_EVERY == 0 {
        AgeEntries();
      }
    }

    /** The table part of `onAdvertRecv`; `fromSelf` is the early return for our own advert. */
    method OnAdvertRecv(fromSelf: bool, dest: Prefix, packet: AdvertPacket)
      requires Valid()
      modifies this, table
      ensures Valid()
      ensures State() == if fromSelf then old(State()) else AdvertStep(old(State()), dest, packet)
    {
      if fromSelf {
        return;
      }
      var metric: Byte := (packet.hashCnt + 1) % UINT8;
      var rev := PathToStore(packet);
      CountAdvert();
      Upsert(dest, rev, packet.hashSz, metric);
    }

    /** The table lookup of `sendTextTo`; no path means the caller falls back to the
      * contact's own path or to a flood.
      */
    method SendTextTo(dest: Prefix) returns (path: Option<seq<Byte>>)
      requires Valid()
      modifies table
      ensures Valid()
      ensures path == Lookup(old(State()), dest)
      ensures State() == SendStep(old(State()), dest)
    {
      var r := Find(dest);
      if r < count && table[r].metric > 1 && |table[r].path| > 0 {
        path := Some(table[r].path);
        if table[r].useCount < 255 {
          ghost var s := table[..count];
          table[r] := table[r].(useCount := table[r].useCount + 1);
          assert table[..count] == s[r := s[r].(useCount := s[r].useCount + 1)];
        }
        return;
      }
      path := None;
    }
  }
}
