/** What holds of the routing table on every run from empty, whatever adverts and sends it sees. */
module RouteTheorems {
  import opened Common
  import opened PathBlocks
  import opened RouteTable
  import opened RouteHistory

  // ---- Size -----------------------------------------------------------------

  /** At most sixteen routes of each age 0..3 and none older or pinned: at most 64 in all. */
  lemma AgeClassesBounded(es: seq<Event>)
    ensures forall age: nat :: |AgeClass(Run(es).live, age)| <= RT_AGE_EVERY
    ensures forall e :: e in Run(es).live ==> !e.Pinned() && e.age <= RT_MAX_AGE
    ensures Distinct(Run(es).live) && |Run(es).live| <= 64
  {
    RunRefinesBook(es);
    var t, b := Run(es), BookRun(es);
    forall age: nat
      ensures |AgeClass(t.live, age)| <= RT_AGE_EVERY
    {
      AgeClassFits(t, b, age, b.adverts % RT_AGE_EVERY + 1);
    }
    TableFits(t, b, b.adverts % RT_AGE_EVERY + 1);
  }

  lemma DestsOfUpdate(s: seq<RouteEntry>, i: nat, e: RouteEntry)
    requires i < |s| && e.dest == s[i].dest
    ensures Dests(s[i := e]) == Dests(s)
  {
    var s' := s[i := e];
    forall d | d in Dests(s)
      ensures d in Dests(s')
    {
      var j :| 0 <= j < |s| && s[j].dest == d;
      assert s'[j] in s';
    }
    forall d | d in Dests(s')
      ensures d in Dests(s)
    {
      var j :| 0 <= j < |s'| && s'[j].dest == d;
      assert s[j] in s;
    }
  }

  lemma RoomyUpsert(t: Table, d: Prefix, rev: seq<Byte>, hashSz: Byte, metric: Byte)
    requires t.admits < RT_ADMIT_PER_CYCLE && |t.live| < RT_MAX_ROUTES
    ensures Dests(Upserted(t, d, rev, hashSz, metric).live) == Dests(t.live) + {d}
  {
    var i := FindIndex(t.live, d);
    if i < |t.live| {
      DestsOfUpdate(t.live, i, Refreshed(t.live[i], rev, hashSz, metric));
      assert t.live[i] in t.live;
    } else {
      var e := NewEntry(d, rev, hashSz, metric);
      assert forall x :: x in t.live + [e] <==> x in t.live || x == e;
    }
  }

  /** The limiter never refuses and the scan never evicts: after its advert a destination is
    * in the table, and besides it exactly the destinations that ageing left.
    */
  lemma NeverRefusedNeverEvicted(es: seq<Event>, d: Prefix, p: AdvertPacket)
    ensures AgeCycle(Run(es)).admits < RT_ADMIT_PER_CYCLE && |AgeCycle(Run(es)).live| < RT_MAX_ROUTES
    ensures Dests(Run(es + [Advert(false, d, p)]).live) == Dests(AgeCycle(Run(es)).live) + {d}
  {
    RunRefinesBook(es);
    RoomForNew(Run(es), BookRun(es));
    assert (es + [Advert(false, d, p)])[..|es|] == es;
    RoomyUpsert(AgeCycle(Run(es)), d, StoredPath(p), p.hashSz, Metric(p));
  }

  function Adverts(ds: seq<Prefix>, p: AdvertPacket): seq<Event> {
    seq(|ds|, i requires 0 <= i < |ds| => Advert(false, ds[i], p))
  }

  ghost predicate AllDistinct(ds: seq<Prefix>) {
    forall i, j :: 0 <= i < j < |ds| ==> ds[i] != ds[j]
  }

  /** What the book holds after distinct destinations advertised in turn. */
  ghost predicate HoldsInTurn(b: Book, ds: seq<Prefix>) {
    b.adverts == |ds| && (forall d :: d in b.known <==> d in ds) &&
    forall j :: 0 <= j < |ds| ==> b.known[ds[j]].cycle == (j + 1) / RT_AGE_EVERY
  }

  lemma NextInTurn(b: Book, ds: seq<Prefix>, d: Prefix, p: AdvertPacket)
    requires HoldsInTurn(b, ds) && d !in ds
    ensures HoldsInTurn(BookStep(b, Advert(false, d, p)), ds + [d])
  {
    var b' := BookStep(b, Advert(false, d, p));
    assert b'.known.Keys == b.known.Keys + {d};
    forall j | 0 <= j < |ds + [d]|
      ensures b'.known[(ds + [d])[j]].cycle == (j + 1) / RT_AGE_EVERY
    {
      if j < |ds| {
        assert ds[j] in ds;
      }
    }
  }

  lemma {:induction false} DistinctBook(ds: seq<Prefix>, p: AdvertPacket)
    requires AllDistinct(ds)
    ensures HoldsInTurn(BookRun(Adverts(ds, p)), ds)
  {
    if ds != [] {
      var front, d := ds[..|ds| - 1], ds[|ds| - 1];
      assert ds == front + [d];
      DistinctBook(front, p);
      assert Adverts(ds, p) == Adverts(front, p) + [Advert(false, d, p)];
      BookRunNext(Adverts(front, p), Advert(false, d, p));
      NextInTurn(BookRun(Adverts(front, p)), front, d, p);
    }
  }

  lemma {:induction false} DistinctCount(ds: seq<Prefix>)
    requires AllDistinct(ds)
    ensures |set d | d in ds| == |ds|
  {
    if ds != [] {
      var n := |ds| - 1;
      DistinctCount(ds[..n]);
      assert (set d | d in ds) == (set d | d in ds[..n]) + {ds[n]};
    }
  }

  lemma DistinctHeld(ds: seq<Prefix>, p: AdvertPacket, lo: nat)
    requires AllDistinct(ds)
    requires lo == if |ds| < 64 then 0 else RT_AGE_EVERY * (|ds| / RT_AGE_EVERY - 3) - 1
    ensures lo <= |ds|
    ensures forall d :: BookRun(Adverts(ds, p)).Holds(d) <==> d in ds[lo..]
  {
    var b := BookRun(Adverts(ds, p));
    DistinctBook(ds, p);
    forall j | 0 <= j < |ds|
      ensures ds[j] in b.known && (b.Holds(ds[j]) <==> lo <= j)
    {
      assert ds[j] in ds;
    }
    forall d
      ensures b.Holds(d) <==> d in ds[lo..]
    {
      if b.Holds(d) {
        var j :| 0 <= j < |ds| && ds[j] == d;
        assert ds[lo..][j - lo] == d;
      }
    }
  }

  /** How full the table is when no destination repeats, exactly, at every moment. */
  lemma DistinctRunSize(ds: seq<Prefix>, p: AdvertPacket)
    requires AllDistinct(ds)
    ensures |Run(Adverts(ds, p)).live| == if |ds| < 64 then |ds| else 49 + |ds| % RT_AGE_EVERY
  {
    var es := Adverts(ds, p);
    var lo := if |ds| < 64 then 0 else RT_AGE_EVERY * (|ds| / RT_AGE_EVERY - 3) - 1;
    RunRefinesBook(es);
    DistinctHeld(ds, p, lo);
    HeldAreDests(Run(es), BookRun(es), ds[lo..]);
    DestsCount(Run(es).live);
    DistinctCount(ds[lo..]);
  }

  lemma HeldAreDests(t: Table, b: Book, ds: seq<Prefix>)
    requires Agrees(t, b) && forall d :: b.Holds(d) <==> d in ds
    ensures Dests(t.live) == set d | d in ds
  {
    forall d | d in ds
      ensures d in Dests(t.live)
    {
      assert EntryOf(b, d) in t.live;
    }
  }

  /** The bound of 64 is reached. */
  lemma SixtyFourIsReached(p: AdvertPacket)
    ensures exists es :: |Run(es).live| == 64
  {
    var ds := seq<Prefix>(79, i requires 0 <= i < 79 => [i, 0, 0, 0]);
    assert forall i, j :: 0 <= i < j < |ds| ==> ds[i][0] != ds[j][0];
    DistinctRunSize(ds, p);
  }

  // ---- Lifetime -------------------------------------------------------------

  function CountedAdverts(es: seq<Event>): nat {
    if es == [] then 0
    else CountedAdverts(es[..|es| - 1]) + if es[|es| - 1].Counted() then 1 else 0
  }

  lemma {:induction false} BookCounts(es: seq<Event>)
    ensures BookRun(es).adverts == CountedAdverts(es)
  {
    if es != [] {
      BookCounts(es[..|es| - 1]);
    }
  }

  lemma {:induction false} CountedConcat(a: seq<Event>, c: seq<Event>)
    ensures CountedAdverts(a + c) == CountedAdverts(a) + CountedAdverts(c)
  {
    if c == [] {
      assert a + c == a;
    } else {
      CountedConcat(a, c[..|c| - 1]);
      assert (a + c)[..|a + c| - 1] == a + c[..|c| - 1];
    }
  }

  predicate Present(es: seq<Event>, d: Prefix) {
    FindIndex(Run(es).live, d) < |Run(es).live|
  }

  function EntryAfter(es: seq<Event>, d: Prefix): RouteEntry
    requires Present(es, d)
  {
    Run(es).live[FindIndex(Run(es).live, d)]
  }

  lemma PresentInBook(es: seq<Event>, d: Prefix)
    ensures Inv(Run(es), BookRun(es)) && BookRun(es).adverts == CountedAdverts(es)
    ensures Present(es, d) <==> BookRun(es).Holds(d)
    ensures Present(es, d) ==> EntryAfter(es, d) == EntryOf(BookRun(es), d)
  {
    RunRefinesBook(es);
    FindAgrees(Run(es), BookRun(es), d);
    BookCounts(es);
  }

  /** No advert for `d` with a hop count as good as `metric`. */
  ghost predicate Unrefreshed(more: seq<Event>, d: Prefix, metric: Byte) {
    forall i :: 0 <= i < |more| && more[i].CountedFor(d) ==> Metric(more[i].packet) > metric
  }

  ghost predicate Unheard(more: seq<Event>, d: Prefix) {
    forall i :: 0 <= i < |more| ==> !more[i].CountedFor(d)
  }

  ghost predicate SameRoute(k: Known, k': Known) {
    k' == k.(useCount := k'.useCount)
  }

  lemma {:induction false} BookUnheard(es: seq<Event>, more: seq<Event>, d: Prefix)
    requires d in BookRun(es).known && Unheard(more, d)
    ensures d in BookRun(es + more).known && SameRoute(BookRun(es).known[d], BookRun(es + more).known[d])
  {
    if more == [] {
      assert es + more == es;
    } else {
      var n := |more| - 1;
      BookUnheard(es, more[..n], d);
      assert (es + more)[..|es + more| - 1] == es + more[..n];
    }
  }

  /** A route nothing is heard of again stays for exactly as long as its age allows: it is in
    * the table after k more counted adverts if and only if fewer than four age cycles have
    * begun since it was refreshed, and until then it does not change.
    */
  lemma ExactLifetime(es: seq<Event>, more: seq<Event>, d: Prefix)
    requires Present(es, d) && Unheard(more, d)
    ensures var n, k := CountedAdverts(es), CountedAdverts(more);
            var e := EntryAfter(es, d);
            var age := e.age + (n + k) / RT_AGE_EVERY - n / RT_AGE_EVERY;
            (Present(es + more, d) <==> age <= RT_MAX_AGE) &&
            (Present(es + more, d) ==>
               var e' := EntryAfter(es + more, d);
               e' == e.(age := age, useCount := e'.useCount))
  {
    PresentInBook(es, d);
    PresentInBook(es + more, d);
    BookUnheard(es, more, d);
    CountedConcat(es, more);
  }

  /** So a route just refreshed outlives the next 48 counted adverts and is gone by the 64th. */
  lemma FortyEightToSixtyFour(es: seq<Event>, more: seq<Event>, d: Prefix)
    requires Present(es, d) && EntryAfter(es, d).age == 0 && Unheard(more, d)
    ensures CountedAdverts(more) <= 48 ==> Present(es + more, d)
    ensures CountedAdverts(more) >= 64 ==> !Present(es + more, d)
  {
    ExactLifetime(es, more, d);
  }

  lemma BookAdvertsGrow(es: seq<Event>, more: seq<Event>)
    ensures BookRun(es).Cycle() <= BookRun(es + more).Cycle()
  {
    BookCounts(es);
    BookCounts(es + more);
    CountedConcat(es, more);
  }

  lemma {:induction false} BookUnrefreshed(es: seq<Event>, more: seq<Event>, d: Prefix)
    requires d in BookRun(es).known && Unrefreshed(more, d, BookRun(es).known[d].metric)
    requires BookRun(es + more).Cycle() - BookRun(es).known[d].cycle <= RT_MAX_AGE
    ensures d in BookRun(es + more).known && SameRoute(BookRun(es).known[d], BookRun(es + more).known[d])
  {
    if more == [] {
      assert es + more == es;
    } else {
      var n := |more| - 1;
      assert (es + more)[..|es + more| - 1] == es + more[..n];
      assert more[n] == (es + more)[|es + more| - 1];
      BookAdvertsGrow(es + more[..n], [more[n]]);
      assert es + more[..n] + [more[n]] == es + more;
      BookUnrefreshed(es, more[..n], d);
    }
  }

  /** Adverts over more hops neither refresh a route nor shorten its life. */
  lemma WorseAdvertsChangeNothing(es: seq<Event>, more: seq<Event>, d: Prefix)
    requires Present(es, d) && Unrefreshed(more, d, EntryAfter(es, d).metric)
    ensures var n, k := CountedAdverts(es), CountedAdverts(more);
            var e := EntryAfter(es, d);
            var age := e.age + (n + k) / RT_AGE_EVERY - n / RT_AGE_EVERY;
            age <= RT_MAX_AGE ==>
              Present(es + more, d) &&
              var e' := EntryAfter(es + more, d);
              e' == e.(age := age, useCount := e'.useCount)
  {
    var n, k := CountedAdverts(es), CountedAdverts(more);
    PresentInBook(es, d);
    PresentInBook(es + more, d);
    CountedConcat(es, more);
    if EntryAfter(es, d).age + (n + k) / RT_AGE_EVERY - n / RT_AGE_EVERY <= RT_MAX_AGE {
      BookUnrefreshed(es, more, d);
    }
  }

  // ---- Metric ---------------------------------------------------------------

  lemma BookMetricRises(b: Book, e: Event, d: Prefix)
    requires CyclesPast(b) && b.Holds(d) && BookStep(b, e).Holds(d)
    ensures BookStep(b, e).known[d].metric > b.known[d].metric <==>
            e.CountedFor(d) && (b.adverts + 1) % RT_AGE_EVERY == 0 &&
            EntryOf(b, d).age == RT_MAX_AGE && Metric(e.packet) > b.known[d].metric
  {
    if e.CountedFor(d) {
      var b1 := b.(adverts := b.adverts + 1);
      if (b.adverts + 1) % RT_AGE_EVERY == 0 {
        EntryAges(b, d);
      } else {
        assert b1.Cycle() == b.Cycle();
      }
    }
  }

  /** A destination that is in the table before and after an event keeps its hop count or
    * improves it, except in one situation: the event is an advert for it that opens an age
    * cycle, its route was at the last age, and the new route is longer.  (The ageing pass
    * then drops the old route just before the new one is inserted.)
    */
  lemma MetricRisesExactlyWhen(es: seq<Event>, e: Event, d: Prefix)
    requires Present(es, d) && Present(es + [e], d)
    ensures EntryAfter(es + [e], d).metric > EntryAfter(es, d).metric <==>
            e.CountedFor(d) && (CountedAdverts(es) + 1) % RT_AGE_EVERY == 0 &&
            EntryAfter(es, d).age == RT_MAX_AGE && Metric(e.packet) > EntryAfter(es, d).metric
  {
    EntryInBook(es, d);
    EntryInBook(es + [e], d);
    BookRunNext(es, e);
    BookMetricRises(BookRun(es), e, d);
  }

  /** An advert for `d` over one hop and 62 for another node. */
  function LongAgo(d: Prefix, o: Prefix, p: AdvertPacket): (es: seq<Event>)
    ensures |es| == 63
  {
    [Advert(false, d, p)] + seq(62, _ => Advert(false, o, p))
  }

  lemma {:induction false} AllCounted(es: seq<Event>)
    requires forall i :: 0 <= i < |es| ==> es[i].Counted()
    ensures CountedAdverts(es) == |es|
  {
    if es != [] {
      AllCounted(es[..|es| - 1]);
    }
  }

  lemma AdvertisedIsPresent(es: seq<Event>, d: Prefix, p: AdvertPacket)
    ensures Present(es + [Advert(false, d, p)], d)
  {
    var s := Run(es + [Advert(false, d, p)]).live;
    NeverRefusedNeverEvicted(es, d, p);
    assert d in Dests(s);
    var e :| e in s && e.dest == d;
    var i :| 0 <= i < |s| && s[i] == e;
  }

  lemma FirstEntry(d: Prefix, p: AdvertPacket)
    ensures var es := [Advert(false, d, p)];
            Present(es, d) && EntryAfter(es, d).age == 0 && EntryAfter(es, d).metric == Metric(p)
  {
    var es := [Advert(false, d, p)];
    assert [] + es == es;
    AdvertisedIsPresent([], d, p);
    EntryInBook(es, d);
    BookRunNext([], Advert(false, d, p));
    FirstKnown(d, p);
  }

  lemma FirstKnown(d: Prefix, p: AdvertPacket)
    ensures var b := BookStep(Book(0, map[]), Advert(false, d, p));
            b.Holds(d) && b.known[d].cycle == b.Cycle() == 0 && b.known[d].metric == Metric(p)
  {
  }

  lemma OldEntry(d: Prefix, o: Prefix, p: AdvertPacket)
    requires d != o
    ensures var es := LongAgo(d, o, p);
            && CountedAdverts(es) == 63 && Present(es, d)
            && EntryAfter(es, d).age == RT_MAX_AGE && EntryAfter(es, d).metric == Metric(p)
  {
    var first, more := [Advert(false, d, p)], seq(62, _ => Advert(false, o, p));
    FirstEntry(d, p);
    AllCounted(first);
    AllCounted(more);
    AllCounted(first + more);
    ExactLifetime(first, more, d);
  }

  /** It happens: after an advert for a node and 62 for another, an advert for the node over a longer
    * path makes its hop count rise.
    */
  lemma MetricRisesOnSomeRun(d: Prefix, o: Prefix, near: AdvertPacket, far: AdvertPacket)
    requires d != o && Metric(far) > Metric(near)
    ensures var es, e := LongAgo(d, o, near), Advert(false, d, far);
            && Present(es, d) && Present(es + [e], d)
            && EntryAfter(es, d).metric == Metric(near) && EntryAfter(es + [e], d).metric > Metric(near)
  {
    var es, e := LongAgo(d, o, near), Advert(false, d, far);
    OldEntry(d, o, near);
    AdvertisedIsPresent(es, d, far);
    MetricRisesExactlyWhen(es, e, d);
  }

  lemma EntryInBook(es: seq<Event>, d: Prefix)
    requires Present(es, d)
    ensures var b := BookRun(es);
            b.Holds(d) && CyclesPast(b) && EntryAfter(es, d) == EntryOf(b, d) && b.adverts == CountedAdverts(es)
  {
    PresentInBook(es, d);
  }

  lemma BookRunNext(es: seq<Event>, e: Event)
    ensures BookRun(es + [e]) == BookStep(BookRun(es), e)
  {
    assert (es + [e])[..|es + [e]| - 1] == es;
  }

  // ---- Where paths come from ------------------------------------------------

  /** Event `j` is the advert the book's record of `d` was taken from. */
  ghost predicate TakenFrom(es: seq<Event>, j: nat, d: Prefix, k: Known) {
    j < |es| && es[j].CountedFor(d) &&
    k.path == StoredPath(es[j].packet) && k.hashSz == es[j].packet.hashSz && k.metric == Metric(es[j].packet) &&
    k.cycle == CountedAdverts(es[..j + 1]) / RT_AGE_EVERY
  }

  lemma {:induction false} BookProvenance(es: seq<Event>, d: Prefix) returns (j: nat)
    requires d in BookRun(es).known
    ensures TakenFrom(es, j, d, BookRun(es).known[d])
  {
    var n := |es| - 1;
    var b0, b := BookRun(es[..n]), BookRun(es);
    BookCounts(es);
    assert es[..n + 1] == es;
    if es[n].CountedFor(d) && (d !in b0.known || b.known[d] != b0.known[d]) {
      j := n;
    } else {
      j := BookProvenance(es[..n], d);
      assert es[..n][..j + 1] == es[..j + 1];
    }
  }

  /** Every path handed to a direct send is the reversed path field of an earlier advert from
    * a node with the same four-byte prefix, one of the last 64 counted; reversing it again
    * gives that field back.
    */
  lemma SentPathsAreReversedAdverts(es: seq<Event>, d: Prefix)
    requires Lookup(Run(es), d).Some?
    ensures exists j: nat :: j < |es| && es[j].CountedFor(d) &&
              var p, path := es[j].packet, Lookup(Run(es), d).value;
              0 < p.hashCnt * p.hashSz <= RT_PATH_CAP && |path| == p.hashCnt * p.hashSz &&
              path == ReverseBlocks(p.path[..p.hashCnt * p.hashSz], p.hashSz, p.hashCnt) &&
              ReverseBlocks(path, p.hashSz, p.hashCnt) == p.path[..p.hashCnt * p.hashSz] &&
              CountedAdverts(es) - CountedAdverts(es[..j + 1]) < 64
  {
    PresentInBook(es, d);
    var b := BookRun(es);
    var j := BookProvenance(es, d);
    var p := es[j].packet;
    FieldFits(p);
    ReverseTwice(p.path[..p.hashCnt * p.hashSz], p.hashSz, p.hashCnt);
  }

  /** Every live entry was filled from some advert. */
  lemma EntryTaken(es: seq<Event>, e: RouteEntry) returns (p: AdvertPacket)
    requires e in Run(es).live
    ensures e.path == StoredPath(p) && e.hashSz == p.hashSz && e.metric == Metric(p)
  {
    RunRefinesBook(es);
    var j := BookProvenance(es, e.dest);
    p := es[j].packet;
  }

  /** A stored path is empty or as long as its hop count says, and never longer than a slot. */
  lemma StoredPathsFit(es: seq<Event>, e: RouteEntry)
    requires e in Run(es).live
    ensures e.path == [] || |e.path| == (e.metric - 1) * e.hashSz
    ensures |e.path| <= RT_PATH_CAP && 1 <= e.metric <= 64 && 1 <= e.hashSz <= 4
  {
    var p := EntryTaken(es, e);
    AdvertPathFits(p);
  }

  lemma AdvertPathFits(p: AdvertPacket)
    ensures var path, metric := StoredPath(p), Metric(p);
            (path == [] || |path| == (metric - 1) * p.hashSz) && |path| <= RT_PATH_CAP && 1 <= metric <= 64
  {
    FieldFits(p);
  }
}
