/** Whole runs of the routing table, from empty, against a table with no slots at all.
  *
  * `Book` remembers for every destination the last route accepted and the age cycle it
  * was accepted in.  It never ages, never evicts, never refuses and has no size.  On every
  * run the real table holds exactly the entries of the book that are at most `RT_MAX_AGE`
  * cycles old, so everything provable of the book holds of the table.
  */
module RouteHistory {
  import opened Common
  import opened RouteTable
  import opened RouteAgeing

  datatype Event =
    | Advert(fromSelf: bool, dest: Prefix, packet: AdvertPacket)
    | Send(dest: Prefix)
  {
    /** The adverts `rt_advert_seen` counts. */
    predicate Counted() {
      Advert? && !fromSelf
    }

    predicate CountedFor(d: Prefix) {
      Counted() && dest == d
    }
  }

  function Step(t: Table, e: Event): Table {
    match e
    case Advert(fromSelf, dest, packet) => if fromSelf then t else AdvertStep(t, dest, packet)
    case Send(dest) => SendStep(t, dest)
  }

  function Run(es: seq<Event>): Table {
    if es == [] then EMPTY_TABLE else Step(Run(es[..|es| - 1]), es[|es| - 1])
  }

  // ---- The book -------------------------------------------------------------

  datatype Known = Known(path: seq<Byte>, hashSz: Byte, metric: Byte, cycle: nat, useCount: Byte)

  /** `adverts` is the unbounded number of adverts counted so far. */
  datatype Book = Book(adverts: nat, known: map<Prefix, Known>) {
    function Cycle(): nat {
      adverts / RT_AGE_EVERY
    }

    predicate Holds(d: Prefix) {
      d in known && Cycle() - known[d].cycle <= RT_MAX_AGE
    }
  }

  function BookAdvert(b: Book, d: Prefix, p: AdvertPacket): Book {
    var b1 := b.(adverts := b.adverts + 1);
    if b1.Holds(d) && Metric(p) > b1.known[d].metric then b1
    else
      var uses := if b1.Holds(d) then b1.known[d].useCount else 0;
      b1.(known := b1.known[d := Known(StoredPath(p), p.hashSz, Metric(p), b1.Cycle(), uses)])
  }

  function BookSend(b: Book, d: Prefix): Book {
    if b.Holds(d) && b.known[d].metric > 1 && b.known[d].path != [] && b.known[d].useCount < 255 then
      b.(known := b.known[d := b.known[d].(useCount := b.known[d].useCount + 1)])
    else b
  }

  function BookStep(b: Book, e: Event): Book {
    match e
    case Advert(fromSelf, dest, packet) => if fromSelf then b else BookAdvert(b, dest, packet)
    case Send(dest) => BookSend(b, dest)
  }

  function BookRun(es: seq<Event>): Book {
    if es == [] then Book(0, map[]) else BookStep(BookRun(es[..|es| - 1]), es[|es| - 1])
  }

  /** The table entry a held destination has. */
  function EntryOf(b: Book, d: Prefix): (e: RouteEntry)
    requires b.Holds(d) && b.known[d].cycle <= b.Cycle()
  {
    var k := b.known[d];
    RouteEntry(d, k.path, k.hashSz, k.metric, b.Cycle() - k.cycle, k.useCount)
  }

  ghost predicate CyclesPast(b: Book) {
    forall d :: d in b.known ==> b.known[d].cycle <= b.Cycle()
  }

  /** The table and the book say the same. */
  ghost predicate Agrees(t: Table, b: Book) {
    t.advertSeen == b.adverts % UINT32 &&
    CyclesPast(b) &&
    Distinct(t.live) &&
    (forall e :: e in t.live ==> b.Holds(e.dest) && e == EntryOf(b, e.dest)) &&
    (forall d :: b.Holds(d) ==> EntryOf(b, d) in t.live)
  }

  // ---- Why there is always room ---------------------------------------------

  ghost function AcceptedIn(b: Book, cycle: nat): set<Prefix> {
    set d | d in b.known && b.known[d].cycle == cycle
  }

  /** Every cycle so far accepted at most sixteen destinations, the running one at most
    * `soFar`, of which `admits` counts the new ones.
    */
  ghost predicate Roomy(t: Table, b: Book, soFar: nat) {
    soFar <= RT_AGE_EVERY && t.admits <= soFar &&
    (forall c: nat :: |AcceptedIn(b, c)| <= RT_AGE_EVERY) &&
    |AcceptedIn(b, b.Cycle())| <= soFar
  }

  ghost predicate Inv(t: Table, b: Book) {
    Agrees(t, b) && Roomy(t, b, b.adverts % RT_AGE_EVERY + 1)
  }

  ghost function Dests(s: seq<RouteEntry>): set<Prefix> {
    set e | e in s :: e.dest
  }

  lemma {:induction false} DestsCount(s: seq<RouteEntry>)
    requires Distinct(s)
    ensures |Dests(s)| == |s|
  {
    if s != [] {
      var n := |s| - 1;
      DestsCount(s[..n]);
      assert Dests(s) == Dests(s[..n]) + {s[n].dest};
      assert s[n].dest !in Dests(s[..n]);
    }
  }

  lemma SubsetCount<T>(a: set<T>, b: set<T>)
    requires a <= b
    ensures |a| <= |b|
  {
    assert b == a + (b - a);
  }

  lemma UnionCount<T>(a: set<T>, b: set<T>)
    ensures |a + b| <= |a| + |b|
  {
    assert a + b == a + (b - a);
    SubsetCount(b - a, b);
  }

  /** The destinations in the table with a given age all lie in one cycle of the book. */
  ghost function AgeClass(s: seq<RouteEntry>, age: nat): set<Prefix> {
    set e | e in s && e.age == age :: e.dest
  }

  lemma AgeClassFits(t: Table, b: Book, age: nat, soFar: nat)
    requires Agrees(t, b) && Roomy(t, b, soFar)
    ensures |AgeClass(t.live, age)| <= RT_AGE_EVERY
    ensures age == 0 ==> |AgeClass(t.live, age)| <= soFar
    ensures age > RT_MAX_AGE ==> AgeClass(t.live, age) == {}
  {
    if age <= b.Cycle() {
      SubsetCount(AgeClass(t.live, age), AcceptedIn(b, b.Cycle() - age));
    } else {
      assert AgeClass(t.live, age) == {};
    }
  }

  lemma TableFits(t: Table, b: Book, soFar: nat)
    requires Agrees(t, b) && Roomy(t, b, soFar)
    ensures |t.live| <= 48 + soFar
  {
    var c0, c1, c2, c3 := AgeClass(t.live, 0), AgeClass(t.live, 1), AgeClass(t.live, 2), AgeClass(t.live, 3);
    assert Dests(t.live) == c0 + c1 + c2 + c3;
    DestsCount(t.live);
    AgeClassFits(t, b, 0, soFar);
    AgeClassFits(t, b, 1, soFar);
    AgeClassFits(t, b, 2, soFar);
    AgeClassFits(t, b, 3, soFar);
    UnionCount(c0, c1);
    UnionCount(c0 + c1, c2);
    UnionCount(c0 + c1 + c2, c3);
  }

  // ---- One event ------------------------------------------------------------

  lemma CounterWraps(n: nat)
    ensures (n % UINT32 + 1) % UINT32 == (n + 1) % UINT32
    ensures (n % UINT32) % RT_AGE_EVERY == n % RT_AGE_EVERY
  {
    var q, r := n / UINT32, n % UINT32;
    Remainder(q, r);
    if r + 1 < UINT32 {
      Remainder(q, r + 1);
    } else {
      Remainder(q + 1, 0);
    }
  }

  /** Adding whole wraps of the counter changes neither its value nor its place in a cycle. */
  lemma Remainder(q: nat, r: nat)
    requires r < UINT32
    ensures (UINT32 * q + r) % UINT32 == r && (UINT32 * q + r) % RT_AGE_EVERY == r % RT_AGE_EVERY
  {
    InCycle(0x1000_0000 * q, r);
  }

  lemma InCycle(k: nat, r: nat)
    ensures (RT_AGE_EVERY * k + r) % RT_AGE_EVERY == r % RT_AGE_EVERY
  {
    var c, p := r / RT_AGE_EVERY, r % RT_AGE_EVERY;
    assert RT_AGE_EVERY * k + r == RT_AGE_EVERY * (k + c) + p;
  }

  /** An entry survives a new cycle exactly if the book still holds it, one cycle older. */
  lemma EntryAges(b: Book, d: Prefix)
    requires CyclesPast(b) && (b.adverts + 1) % RT_AGE_EVERY == 0
    ensures var b1 := b.(adverts := b.adverts + 1);
            b1.Cycle() == b.Cycle() + 1 &&
            (b1.Holds(d) <==> b.Holds(d) && Survives(EntryOf(b, d))) &&
            (b1.Holds(d) ==> EntryOf(b1, d) == AfterCycle(EntryOf(b, d)))
  {
  }

  lemma NewCycleAgrees(t: Table, b: Book)
    requires Agrees(t, b) && (b.adverts + 1) % RT_AGE_EVERY == 0
    ensures Agrees(Table(AgeFrom(t.live, 0), (b.adverts + 1) % UINT32, 0), b.(adverts := b.adverts + 1))
  {
    var live1, b1 := AgeFrom(t.live, 0), b.(adverts := b.adverts + 1);
    AgeingKeepsDistinct(t.live, 0);
    forall e | e in live1
      ensures b1.Holds(e.dest) && e == EntryOf(b1, e.dest)
    {
      AgeingMembers(t.live, e);
      var o :| o in t.live && Survives(o) && AfterCycle(o) == e;
      EntryAges(b, o.dest);
    }
    forall d | b1.Holds(d)
      ensures EntryOf(b1, d) in live1
    {
      EntryAges(b, d);
      assert EntryOf(b, d) in t.live;
      AgeingMembers(t.live, EntryOf(b1, d));
    }
  }

  lemma AcceptedInIsKnown(b: Book, b1: Book)
    requires b1.known == b.known
    ensures forall c: nat :: AcceptedIn(b1, c) == AcceptedIn(b, c)
  {
  }

  /** Before the new route goes in: the clock has moved, and stale entries are gone. */
  lemma CycleAgrees(t: Table, b: Book)
    requires Inv(t, b)
    ensures Agrees(AgeCycle(t), b.(adverts := b.adverts + 1))
    ensures Roomy(AgeCycle(t), b.(adverts := b.adverts + 1), (b.adverts + 1) % RT_AGE_EVERY)
  {
    var b1 := b.(adverts := b.adverts + 1);
    CounterWraps(b.adverts);
    CounterWraps(b.adverts + 1);
    AcceptedInIsKnown(b, b1);
    if b1.adverts % RT_AGE_EVERY == 0 {
      NewCycleAgrees(t, b);
      assert AcceptedIn(b1, b1.Cycle()) == {};
    } else {
      assert b1.Cycle() == b.Cycle();
      assert forall d :: b1.Holds(d) <==> b.Holds(d);
    }
  }

  // ---- The new route --------------------------------------------------------

  lemma FindIsIn(s: seq<RouteEntry>, d: Prefix, e: RouteEntry)
    requires Distinct(s) && e in s && e.dest == d
    ensures FindIndex(s, d) < |s| && s[FindIndex(s, d)] == e
  {
    var j :| 0 <= j < |s| && s[j] == e;
    var i := FindIndex(s, d);
    assert i < |s| ==> s[i].dest == d;
  }

  /** Looking a destination up in the table is looking it up in the book. */
  lemma FindAgrees(t: Table, b: Book, d: Prefix)
    requires Agrees(t, b)
    ensures FindIndex(t.live, d) < |t.live| <==> b.Holds(d)
    ensures b.Holds(d) ==> t.live[FindIndex(t.live, d)] == EntryOf(b, d)
  {
    var i := FindIndex(t.live, d);
    if i < |t.live| {
      assert t.live[i] in t.live;
    }
    if b.Holds(d) {
      FindIsIn(t.live, d, EntryOf(b, d));
    }
  }

  /** Replacing the entry of `d` on both sides. */
  lemma ReplaceAgrees(t: Table, b: Book, d: Prefix, e: RouteEntry, k: Known)
    requires Agrees(t, b) && b.Holds(d) && k.cycle <= b.Cycle() && b.Cycle() - k.cycle <= RT_MAX_AGE
    requires e == RouteEntry(d, k.path, k.hashSz, k.metric, b.Cycle() - k.cycle, k.useCount)
    ensures FindIndex(t.live, d) < |t.live|
    ensures Agrees(t.(live := t.live[FindIndex(t.live, d) := e]), b.(known := b.known[d := k]))
  {
    FindAgrees(t, b, d);
    var i := FindIndex(t.live, d);
    var live', b' := t.live[i := e], b.(known := b.known[d := k]);
    forall x | x in live'
      ensures b'.Holds(x.dest) && x == EntryOf(b', x.dest)
    {
      var j :| 0 <= j < |live'| && live'[j] == x;
      if j != i {
        assert t.live[j] == x && x in t.live;
      }
    }
    forall x | b'.Holds(x)
      ensures EntryOf(b', x) in live'
    {
      if x == d {
        assert live'[i] == e;
      } else {
        var j :| 0 <= j < |t.live| && t.live[j] == EntryOf(b, x);
        assert live'[j] == t.live[j];
      }
    }
  }

  lemma AppendAgrees(t: Table, b: Book, d: Prefix, e: RouteEntry, k: Known)
    requires Agrees(t, b) && !b.Holds(d) && k.cycle == b.Cycle()
    requires e == RouteEntry(d, k.path, k.hashSz, k.metric, 0, k.useCount)
    ensures Agrees(t.(live := t.live + [e]), b.(known := b.known[d := k]))
  {
    FindAgrees(t, b, d);
    var live', b' := t.live + [e], b.(known := b.known[d := k]);
    forall x | b'.Holds(x)
      ensures EntryOf(b', x) in live'
    {
      if x != d {
        assert EntryOf(b, x) in t.live;
      }
    }
  }

  lemma AcceptedGrows(b: Book, d: Prefix, k: Known, soFar: nat)
    requires k.cycle == b.Cycle() && soFar < RT_AGE_EVERY
    requires (forall c: nat :: |AcceptedIn(b, c)| <= RT_AGE_EVERY) && |AcceptedIn(b, b.Cycle())| <= soFar
    ensures var b' := b.(known := b.known[d := k]);
            (forall c: nat :: |AcceptedIn(b', c)| <= RT_AGE_EVERY) && |AcceptedIn(b', b'.Cycle())| <= soFar + 1
  {
    var b' := b.(known := b.known[d := k]);
    forall c: nat
      ensures |AcceptedIn(b', c)| <= if c == b.Cycle() then soFar + 1 else RT_AGE_EVERY
    {
      if c == b.Cycle() {
        assert AcceptedIn(b', c) == AcceptedIn(b, c) + {d};
      } else {
        SubsetCount(AcceptedIn(b', c), AcceptedIn(b, c));
      }
    }
  }

  /** In a table that agrees with the book the limiter and the eviction scan are out of reach. */
  lemma RoomForNew(t: Table, b: Book)
    requires Inv(t, b)
    ensures AgeCycle(t).admits < RT_ADMIT_PER_CYCLE && |AgeCycle(t).live| < 64
  {
    CycleAgrees(t, b);
    TableFits(AgeCycle(t), b.(adverts := b.adverts + 1), (b.adverts + 1) % RT_AGE_EVERY);
  }

  lemma StoredPathFits(p: AdvertPacket)
    ensures |StoredPath(p)| <= RT_PATH_CAP
  {
    FieldFits(p);
  }

  /** The route the book records for an accepted advert. */
  function Accepted(b: Book, d: Prefix, path: seq<Byte>, hashSz: Byte, metric: Byte): Known {
    Known(path, hashSz, metric, b.Cycle(), if b.Holds(d) then b.known[d].useCount else 0)
  }

  lemma RefreshAgrees(t: Table, b: Book, d: Prefix, path: seq<Byte>, hashSz: Byte, metric: Byte)
    requires Agrees(t, b) && b.Holds(d) && metric <= b.known[d].metric && |path| <= RT_PATH_CAP
    ensures Agrees(Upserted(t, d, path, hashSz, metric),
                   b.(known := b.known[d := Accepted(b, d, path, hashSz, metric)]))
  {
    FindAgrees(t, b, d);
    ReplaceAgrees(t, b, d, Refreshed(EntryOf(b, d), path, hashSz, metric), Accepted(b, d, path, hashSz, metric));
  }

  lemma InsertAgrees(t: Table, b: Book, d: Prefix, path: seq<Byte>, hashSz: Byte, metric: Byte)
    requires Agrees(t, b) && !b.Holds(d) && |path| <= RT_PATH_CAP
    requires t.admits < RT_ADMIT_PER_CYCLE && |t.live| < RT_MAX_ROUTES
    ensures Agrees(Upserted(t, d, path, hashSz, metric),
                   b.(known := b.known[d := Accepted(b, d, path, hashSz, metric)]))
  {
    FindAgrees(t, b, d);
    AppendAgrees(t, b, d, NewEntry(d, path, hashSz, metric), Accepted(b, d, path, hashSz, metric));
  }

  /** Accepting a route leaves room for the rest of the cycle. */
  lemma AcceptedRoom(t: Table, b: Book, d: Prefix, path: seq<Byte>, hashSz: Byte, metric: Byte, soFar: nat)
    requires Roomy(t, b, soFar) && soFar < RT_AGE_EVERY
    ensures Roomy(Upserted(t, d, path, hashSz, metric), b.(known := b.known[d := Accepted(b, d, path, hashSz, metric)]),
                  soFar + 1)
  {
    AcceptedGrows(b, d, Accepted(b, d, path, hashSz, metric), soFar);
  }

  lemma AdvertAgrees(t: Table, b: Book, d: Prefix, p: AdvertPacket)
    requires Inv(t, b)
    ensures Inv(AdvertStep(t, d, p), BookAdvert(b, d, p))
  {
    var t1, b1 := AgeCycle(t), b.(adverts := b.adverts + 1);
    CycleAgrees(t, b);
    RoomForNew(t, b);
    StoredPathFits(p);
    FindAgrees(t1, b1, d);
    if b1.Holds(d) && Metric(p) > b1.known[d].metric {
      assert AdvertStep(t, d, p) == t1;
    } else {
      AcceptedRoom(t1, b1, d, StoredPath(p), p.hashSz, Metric(p), b1.adverts % RT_AGE_EVERY);
      if b1.Holds(d) {
        RefreshAgrees(t1, b1, d, StoredPath(p), p.hashSz, Metric(p));
      } else {
        InsertAgrees(t1, b1, d, StoredPath(p), p.hashSz, Metric(p));
      }
    }
  }

  lemma SendAgrees(t: Table, b: Book, d: Prefix)
    requires Inv(t, b)
    ensures Inv(SendStep(t, d), BookSend(b, d))
  {
    FindAgrees(t, b, d);
    var b' := BookSend(b, d);
    if b' != b {
      var k := b.known[d].(useCount := b.known[d].useCount + 1);
      ReplaceAgrees(t, b, d, EntryOf(b, d).(useCount := k.useCount), k);
      assert forall c: nat :: AcceptedIn(b', c) == AcceptedIn(b, c);
    }
  }

  // ---- Whole runs -----------------------------------------------------------

  /** On every run the table is the book restricted to what is not too old. */
  lemma {:induction false} RunRefinesBook(es: seq<Event>)
    ensures Inv(Run(es), BookRun(es))
  {
    if es == [] {
      assert forall c: nat :: AcceptedIn(Book(0, map[]), c) == {};
    } else {
      var es0, e := es[..|es| - 1], es[|es| - 1];
      RunRefinesBook(es0);
      match e
      case Advert(fromSelf, d, p) =>
        if !fromSelf {
          AdvertAgrees(Run(es0), BookRun(es0), d, p);
        }
      case Send(d) => SendAgrees(Run(es0), BookRun(es0), d);
    }
  }
}
