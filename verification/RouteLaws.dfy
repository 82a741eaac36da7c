/** What one event does to one route, on every run and in the numbers of the wire format: when it
  * is there, what it then holds, and which bytes a message to it is sent along.
  */
module RouteLaws {
  import opened PathBlocks
  import opened RouteTable
  import opened RouteHistory
  import opened RouteTheorems

  /** The event is the sixteenth, thirty-second, ... advert counted. */
  predicate Ticks(es: seq<Event>, e: Event) {
    e.Counted() && (CountedAdverts(es) + 1) % 16 == 0
  }

  /** The route is there, and the event does not age it away. */
  predicate Survived(es: seq<Event>, e: Event, d: Prefix) {
    Present(es, d) && !(Ticks(es, e) && EntryAfter(es, d).age == 3)
  }

  /** The event is an advert of `d` that is no further away than the route there is, if any. */
  predicate Accepts(es: seq<Event>, e: Event, d: Prefix) {
    e.CountedFor(d) && (Survived(es, e, d) ==> e.packet.hashCnt + 1 <= EntryAfter(es, d).metric)
  }

  lemma FieldSize(p: AdvertPacket)
    ensures |StoredPath(p)| == if p.hashCnt * p.hashSz <= 64 then p.hashCnt * p.hashSz else 0
  {
    FieldFits(p);
  }

  lemma FieldByte(p: AdvertPacket, i: nat, k: nat)
    requires p.hashCnt * p.hashSz <= 64 && i < p.hashCnt && k < p.hashSz
    ensures 0 <= i * p.hashSz + k < |StoredPath(p)| && 0 <= (p.hashCnt - 1 - i) * p.hashSz + k < |p.path|
    ensures StoredPath(p)[i * p.hashSz + k] == p.path[(p.hashCnt - 1 - i) * p.hashSz + k]
  {
    FieldFits(p);
    ReverseBlocksAt(p.path[..p.hashCnt * p.hashSz], p.hashSz, p.hashCnt, i, k);
  }

  /** The book after one event, for one destination. */
  lemma BookLaw(b: Book, e: Event, d: Prefix)
    requires CyclesPast(b)
    ensures var b' := BookStep(b, e);
            var stays := b.Holds(d) && !(e.Counted() && (b.adverts + 1) % 16 == 0 && EntryOf(b, d).age == 3);
            && CyclesPast(b') && (b'.Holds(d) <==> stays || e.CountedFor(d))
            && (stays && !e.CountedFor(d) ==>
                  EntryOf(b', d) == AfterEvent(EntryOf(b, d), e, e.Counted() && (b.adverts + 1) % 16 == 0))
  {
    if e.Counted() && (b.adverts + 1) % RT_AGE_EVERY == 0 {
      assert (b.adverts + 1) / RT_AGE_EVERY == b.adverts / RT_AGE_EVERY + 1;
    } else if e.Counted() {
      assert (b.adverts + 1) / RT_AGE_EVERY == b.adverts / RT_AGE_EVERY;
    }
  }

  /** A route nobody advertised: one cycle older at a tick, one use more if a message went along it. */
  function AfterEvent(x: RouteEntry, e: Event, tick: bool): RouteEntry
    requires tick ==> x.age < 255
  {
    x.(age := x.age + if tick then 1 else 0,
       useCount := x.useCount + if e == Send(x.dest) && x.metric > 1 && x.path != [] && x.useCount < 255 then 1 else 0)
  }

  /** The book after an advert of `d`: taken over unless it is worse than what is held. */
  lemma BookAcceptLaw(b: Book, d: Prefix, p: AdvertPacket)
    requires CyclesPast(b)
    ensures var b' := BookStep(b, Advert(false, d, p));
            var tick := (b.adverts + 1) % 16 == 0;
            var stays := b.Holds(d) && !(tick && EntryOf(b, d).age == 3);
            && CyclesPast(b') && b'.Holds(d)
            && EntryOf(b', d) ==
               if stays && p.hashCnt + 1 > EntryOf(b, d).metric
               then EntryOf(b, d).(age := EntryOf(b, d).age + if tick then 1 else 0)
               else RouteEntry(d, StoredPath(p), p.hashSz, p.hashCnt + 1, 0,
                               if stays then EntryOf(b, d).useCount else 0)
  {
    FieldFits(p);
    if (b.adverts + 1) % RT_AGE_EVERY == 0 {
      assert (b.adverts + 1) / RT_AGE_EVERY == b.adverts / RT_AGE_EVERY + 1;
    } else {
      assert (b.adverts + 1) / RT_AGE_EVERY == b.adverts / RT_AGE_EVERY;
    }
  }

  /** What the table says of a destination is what the book says. */
  lemma Mirrored(es: seq<Event>, d: Prefix)
    ensures CyclesPast(BookRun(es)) && BookRun(es).adverts == CountedAdverts(es)
    ensures Present(es, d) <==> BookRun(es).Holds(d)
    ensures Present(es, d) ==> EntryAfter(es, d) == EntryOf(BookRun(es), d)
  {
    PresentInBook(es, d);
  }

  /** A destination is in the table after an event exactly if it was there and is not aged away, or
    * the event is its own advert.
    */
  lemma PresenceLaw(es: seq<Event>, e: Event, d: Prefix)
    ensures Present(es + [e], d) <==> Survived(es, e, d) || e.CountedFor(d)
  {
    Mirrored(es, d);
    Mirrored(es + [e], d);
    BookRunNext(es, e);
    BookLaw(BookRun(es), e, d);
  }

  /** What is not replaced is one cycle older at a tick, and counts one more use, up to 255, if a
    * message went along it.
    */
  lemma KeptLaw(es: seq<Event>, e: Event, d: Prefix)
    requires Survived(es, e, d) && !Accepts(es, e, d)
    ensures Present(es + [e], d) && EntryAfter(es, d).dest == d && EntryAfter(es, d).age <= 3
    ensures EntryAfter(es + [e], d) == AfterEvent(EntryAfter(es, d), e, Ticks(es, e))
  {
    PresenceLaw(es, e, d);
    if e.CountedFor(d) {
      WorseAdvertEntry(es, e, d);
    } else {
      UnheardEntry(es, e, d);
    }
  }

  lemma UnheardEntry(es: seq<Event>, e: Event, d: Prefix)
    requires Survived(es, e, d) && !e.CountedFor(d) && Present(es + [e], d)
    ensures EntryAfter(es, d).dest == d && EntryAfter(es, d).age <= 3
    ensures EntryAfter(es + [e], d) == AfterEvent(EntryAfter(es, d), e, Ticks(es, e))
  {
    Mirrored(es, d);
    Mirrored(es + [e], d);
    BookRunNext(es, e);
    BookLaw(BookRun(es), e, d);
  }

  lemma WorseAdvertEntry(es: seq<Event>, e: Event, d: Prefix)
    requires Survived(es, e, d) && e.CountedFor(d) && !Accepts(es, e, d) && Present(es + [e], d)
    ensures EntryAfter(es, d).dest == d && EntryAfter(es, d).age <= 3
    ensures EntryAfter(es + [e], d) == AfterEvent(EntryAfter(es, d), e, Ticks(es, e))
  {
    Mirrored(es, d);
    Mirrored(es + [e], d);
    BookRunNext(es, e);
    BookAcceptLaw(BookRun(es), d, e.packet);
  }

  /** An accepted advert sets the whole entry: age zero, the uses counted so far if the route was
    * there, the hop count, and a path of all the bytes of the field, or none if they exceed 64.
    */
  lemma AcceptedLaw(es: seq<Event>, e: Event, d: Prefix)
    requires Accepts(es, e, d)
    ensures Present(es + [e], d)
    ensures var x, n := EntryAfter(es + [e], d), e.packet.hashCnt * e.packet.hashSz;
            && x.metric == e.packet.hashCnt + 1 && x.hashSz == e.packet.hashSz && x.age == 0 && x.dest == d
            && x.useCount == (if Survived(es, e, d) then EntryAfter(es, d).useCount else 0)
            && |x.path| == if n <= 64 then n else 0
  {
    AcceptedEntry(es, e, d);
    FieldSize(e.packet);
  }

  lemma AcceptedEntry(es: seq<Event>, e: Event, d: Prefix)
    requires Accepts(es, e, d)
    ensures Present(es + [e], d)
    ensures EntryAfter(es + [e], d) == RouteEntry(d, StoredPath(e.packet), e.packet.hashSz, e.packet.hashCnt + 1, 0,
                                                  if Survived(es, e, d) then EntryAfter(es, d).useCount else 0)
  {
    PresenceLaw(es, e, d);
    Mirrored(es, d);
    Mirrored(es + [e], d);
    BookRunNext(es, e);
    BookAcceptLaw(BookRun(es), d, e.packet);
  }

  /** After an accepted advert a message is sent along a stored path exactly if the advert came over
    * relays and their hashes fit into 64 bytes.
    */
  lemma DirectSendExactlyWhen(es: seq<Event>, e: Event, d: Prefix)
    requires Accepts(es, e, d)
    ensures Lookup(Run(es + [e]), d).Some? <==> 0 < e.packet.hashCnt * e.packet.hashSz <= 64
    ensures Lookup(Run(es + [e]), d).Some? ==>
              |Lookup(Run(es + [e]), d).value| == e.packet.hashCnt * e.packet.hashSz
  {
    AcceptedEntry(es, e, d);
    FieldSize(e.packet);
    FieldFits(e.packet);
  }

  /** And then the nearest relay comes first: hash `i` of the path is hash `cnt - 1 - i` of the field,
    * byte for byte.
    */
  lemma DirectSendPath(es: seq<Event>, e: Event, d: Prefix, i: nat, k: nat)
    requires Accepts(es, e, d) && e.packet.hashCnt * e.packet.hashSz <= 64
    requires i < e.packet.hashCnt && k < e.packet.hashSz
    ensures Lookup(Run(es + [e]), d).Some?
    ensures var p, path := e.packet, Lookup(Run(es + [e]), d).value;
            && 0 <= i * p.hashSz + k < |path| && 0 <= (p.hashCnt - 1 - i) * p.hashSz + k < |p.path|
            && path[i * p.hashSz + k] == p.path[(p.hashCnt - 1 - i) * p.hashSz + k]
  {
    AcceptedEntry(es, e, d);
    FieldSize(e.packet);
    FieldByte(e.packet, i, k);
  }
}
