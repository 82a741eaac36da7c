/** The greedy, capped filling of gaps in a measured topology. A node is its position in the sorted
  * list of prefixes, so that comparing nodes is comparing prefixes.
  */
module GapFill {

  datatype Edge = Edge(a: nat, b: nat, snr: real)

  datatype Candidate = Candidate(dist: real, node: nat)

  /** What the filling depends on: the number of nodes, their distances in km, the SNR estimate
    * drawn for each pair, the maximum distance and the cap on links with positive SNR.
    */
  datatype Params = Params(
    n: nat, dist: (nat, nat) -> real, draw: (nat, nat) -> real, maxKm: real, maxGood: int)

  const MAX_EDGES_PER_NODE := 12
  const SNR_FLOOR := -12.0
  const MIN_KM := 0.01

  // ---- Rounding -------------------------------------------------------------

  /** `round(r, 2)`, halves going to the even neighbour. */
  function Round2(r: real): real {
    var low := (r * 100.0).Floor;
    var part := r * 100.0 - low as real;
    (if part < 0.5 || (part == 0.5 && low % 2 == 0) then low else low + 1) as real / 100.0
  }

  lemma RoundedPositive(r: real)
    ensures Round2(r) > 0.0 <==> r > 0.005
  {
    var low := (r * 100.0).Floor;
    if low < -1 || low > 0 {
      assert r > 0.0 <==> low >= 0;
    }
  }

  // ---- True counts ----------------------------------------------------------

  predicate Touches(e: Edge, p: nat) {
    e.a == p || e.b == p
  }

  function Degree(es: seq<Edge>, p: nat): nat {
    if es == [] then 0
    else Degree(es[..|es| - 1], p) + if Touches(es[|es| - 1], p) then 1 else 0
  }

  /** Links of `p` whose stored SNR is positive. */
  function GoodStored(es: seq<Edge>, p: nat): nat {
    if es == [] then 0
    else GoodStored(es[..|es| - 1], p) + if Touches(es[|es| - 1], p) && es[|es| - 1].snr > 0.0 then 1 else 0
  }

  /** Links of `p` whose drawn SNR is positive. */
  function GoodDrawn(m: Params, es: seq<Edge>, p: nat): nat {
    if es == [] then 0
    else
      var e := es[|es| - 1];
      GoodDrawn(m, es[..|es| - 1], p) + if Touches(e, p) && m.draw(e.a, e.b) > 0.0 then 1 else 0
  }

  lemma {:induction false} DegreeOfBoth(es: seq<Edge>, fs: seq<Edge>, p: nat)
    ensures Degree(es + fs, p) == Degree(es, p) + Degree(fs, p)
  {
    if fs == [] {
      assert es + fs == es;
    } else {
      assert (es + fs)[..|es + fs| - 1] == es + fs[..|fs| - 1];
      DegreeOfBoth(es, fs[..|fs| - 1], p);
    }
  }

  lemma {:induction false} GoodOfBoth(es: seq<Edge>, fs: seq<Edge>, p: nat)
    ensures GoodStored(es + fs, p) == GoodStored(es, p) + GoodStored(fs, p)
  {
    if fs == [] {
      assert es + fs == es;
    } else {
      assert (es + fs)[..|es + fs| - 1] == es + fs[..|fs| - 1];
      GoodOfBoth(es, fs[..|fs| - 1], p);
    }
  }

  // ---- Candidates -----------------------------------------------------------

  predicate HasPair(es: seq<Edge>, a: nat, b: nat) {
    exists i :: 0 <= i < |es| && es[i].a == a && es[i].b == b
  }

  /** A pair in range that has no measured edge. */
  predicate IsGap(m: Params, measured: seq<Edge>, a: nat, b: nat) {
    a < b < m.n && !HasPair(measured, a, b) && MIN_KM < m.dist(a, b) <= m.maxKm
  }

  predicate Ascending(cs: seq<Candidate>) {
    forall i, j :: 0 <= i < j < |cs| ==> cs[i].node < cs[j].node
  }

  /** Candidates for `p1` among the nodes below `k`. */
  function Candidates(m: Params, measured: seq<Edge>, p1: nat, k: nat): (cs: seq<Candidate>)
    requires k <= m.n
    ensures Ascending(cs)
    ensures forall c :: c in cs <==>
                        c.node < k && IsGap(m, measured, p1, c.node) && c.dist == m.dist(p1, c.node)
  {
    if k == 0 then []
    else
      var front := Candidates(m, measured, p1, k - 1);
      if IsGap(m, measured, p1, k - 1) then front + [Candidate(m.dist(p1, k - 1), k - 1)] else front
  }

  predicate Precedes(c: Candidate, d: Candidate) {
    c.dist < d.dist || (c.dist == d.dist && c.node < d.node)
  }

  predicate ClosestFirst(cs: seq<Candidate>) {
    forall i, j :: 0 <= i < j < |cs| ==> Precedes(cs[i], cs[j])
  }

  lemma HeadIsFirst(c: Candidate, cs: seq<Candidate>)
    requires cs != [] && ClosestFirst(cs) && !Precedes(c, cs[0]) && c.node != cs[0].node
    ensures Precedes(cs[0], c) && forall d :: d in cs[1..] ==> Precedes(cs[0], d)
  {
    assert forall j :: 0 <= j < |cs[1..]| ==> cs[1..][j] == cs[j + 1];
  }

  lemma AllAfter(c: Candidate, cs: seq<Candidate>)
    requires ClosestFirst(cs) && forall d :: d in cs ==> Precedes(c, d)
    ensures ClosestFirst([c] + cs)
  {
  }

  function Insert(c: Candidate, cs: seq<Candidate>): (r: seq<Candidate>)
    requires ClosestFirst(cs) && forall d :: d in cs ==> d.node != c.node
    ensures ClosestFirst(r)
    ensures forall d :: d in r <==> d == c || d in cs
  {
    if cs == [] then [c]
    else if Precedes(c, cs[0]) then [c] + cs
    else
      HeadIsFirst(c, cs);
      AllAfter(cs[0], Insert(c, cs[1..]));
      [cs[0]] + Insert(c, cs[1..])
  }

  /** `candidates.sort()` */
  function Sort(cs: seq<Candidate>): (r: seq<Candidate>)
    requires Ascending(cs)
    ensures ClosestFirst(r)
    ensures forall d :: d in r <==> d in cs
  {
    if cs == [] then [] else Insert(cs[|cs| - 1], Sort(cs[..|cs| - 1]))
  }

  function WithNode(p1: nat, cs: seq<Candidate>): seq<(nat, nat)> {
    seq(|cs|, i requires 0 <= i < |cs| => (p1, cs[i].node))
  }

  /** The pairs considered for one node. */
  function NodeVisits(m: Params, measured: seq<Edge>, p1: nat): seq<(nat, nat)> {
    WithNode(p1, Sort(Candidates(m, measured, p1, m.n)))
  }

  /** The pairs considered for the first `k` nodes, in the order they are considered. */
  function Visits(m: Params, measured: seq<Edge>, k: nat): seq<(nat, nat)>
    requires k <= m.n
  {
    if k == 0 then []
    else Visits(m, measured, k - 1) + NodeVisits(m, measured, k - 1)
  }

  predicate InOrder(m: Params, u: (nat, nat), v: (nat, nat)) {
    u.0 < v.0 || (u.0 == v.0 && Precedes(Candidate(m.dist(u.0, u.1), u.1), Candidate(m.dist(v.0, v.1), v.1)))
  }

  ghost predicate AllInOrder(m: Params, vs: seq<(nat, nat)>) {
    forall i, j :: 0 <= i < j < |vs| ==> InOrder(m, vs[i], vs[j])
  }

  lemma InOrderAfter(m: Params, us: seq<(nat, nat)>, ws: seq<(nat, nat)>)
    requires AllInOrder(m, us) && AllInOrder(m, ws)
    requires forall u, w :: u in us && w in ws ==> u.0 < w.0
    ensures AllInOrder(m, us + ws)
  {
    forall i, j | 0 <= i < j < |us + ws|
      ensures InOrder(m, (us + ws)[i], (us + ws)[j])
    {
      if i < |us| <= j {
        assert us[i] in us && ws[j - |us|] in ws;
      }
    }
  }

  lemma VisitsOfNode(m: Params, measured: seq<Edge>, p1: nat)
    ensures AllInOrder(m, NodeVisits(m, measured, p1))
    ensures AreGapsOf(m, measured, NodeVisits(m, measured, p1), p1)
  {
    var cs := Sort(Candidates(m, measured, p1, m.n));
    var vs := WithNode(p1, cs);
    forall i | 0 <= i < |vs|
      ensures vs[i].0 == p1 && IsGap(m, measured, p1, vs[i].1) && cs[i] == Candidate(m.dist(p1, vs[i].1), vs[i].1)
    {
      assert cs[i] in cs;
    }
    forall v: (nat, nat) | v.0 == p1 && IsGap(m, measured, v.0, v.1)
      ensures v in vs
    {
      var c := Candidate(m.dist(p1, v.1), v.1);
      assert c in cs;
      var i :| 0 <= i < |cs| && cs[i] == c;
      assert vs[i] == v;
    }
  }

  ghost predicate AreGapsOf(m: Params, measured: seq<Edge>, vs: seq<(nat, nat)>, p1: nat) {
    forall v: (nat, nat) :: v in vs <==> v.0 == p1 && IsGap(m, measured, v.0, v.1)
  }

  ghost predicate AreGapsBelow(m: Params, measured: seq<Edge>, vs: seq<(nat, nat)>, k: nat) {
    forall v: (nat, nat) :: v in vs <==> v.0 < k && IsGap(m, measured, v.0, v.1)
  }

  lemma NoGapsBelowZero(m: Params, measured: seq<Edge>)
    ensures AreGapsBelow(m, measured, [], 0) && AllInOrder(m, [])
  {
  }

  /** What the visits of the first `k` nodes come to. */
  ghost predicate AreVisits(m: Params, measured: seq<Edge>, vs: seq<(nat, nat)>, k: nat) {
    AllInOrder(m, vs) && AreGapsBelow(m, measured, vs, k)
  }

  ghost predicate AreVisitsOf(m: Params, measured: seq<Edge>, ws: seq<(nat, nat)>, p1: nat) {
    AllInOrder(m, ws) && AreGapsOf(m, measured, ws, p1)
  }

  lemma OneMoreNode(m: Params, measured: seq<Edge>, us: seq<(nat, nat)>, ws: seq<(nat, nat)>,
                    vs: seq<(nat, nat)>, k: nat)
    requires vs == us + ws && AreVisits(m, measured, us, k) && AreVisitsOf(m, measured, ws, k)
    ensures AreVisits(m, measured, vs, k + 1)
  {
    InOrderAfter(m, us, ws);
  }

  lemma NodeVisitsAre(m: Params, measured: seq<Edge>, p1: nat)
    ensures AreVisitsOf(m, measured, NodeVisits(m, measured, p1), p1)
  {
    VisitsOfNode(m, measured, p1);
  }

  lemma VisitsOfNext(m: Params, measured: seq<Edge>, k: nat)
    requires 0 < k <= m.n && AreVisits(m, measured, Visits(m, measured, k - 1), k - 1)
    ensures AreVisits(m, measured, Visits(m, measured, k), k)
  {
    NodeVisitsAre(m, measured, k - 1);
    OneMoreNode(m, measured, Visits(m, measured, k - 1), NodeVisits(m, measured, k - 1),
                Visits(m, measured, k), k - 1);
  }

  /** Every gap is considered exactly once: node by node, for each node the closest first. */
  lemma {:induction false} VisitsAreTheGaps(m: Params, measured: seq<Edge>, k: nat)
    requires k <= m.n
    ensures AreVisits(m, measured, Visits(m, measured, k), k)
  {
    if k == 0 {
      NoGapsBelowZero(m, measured);
    } else {
      VisitsAreTheGaps(m, measured, k - 1);
      VisitsOfNext(m, measured, k);
    }
  }

  // ---- The greedy run -------------------------------------------------------

  /** Whether the caps and the floor let the pair in, after `added`. */
  predicate Accepts(m: Params, measured: seq<Edge>, added: seq<Edge>, v: (nat, nat)) {
    && Degree(measured, v.0) + Degree(added, v.0) < MAX_EDGES_PER_NODE
    && Degree(measured, v.1) + Degree(added, v.1) < MAX_EDGES_PER_NODE
    && m.draw(v.0, v.1) > SNR_FLOOR
    && (m.draw(v.0, v.1) > 0.0 ==>
          && GoodStored(measured, v.0) + GoodDrawn(m, added, v.0) < m.maxGood
          && GoodStored(measured, v.1) + GoodDrawn(m, added, v.1) < m.maxGood)
  }

  function EdgeFor(m: Params, v: (nat, nat)): Edge {
    Edge(v.0, v.1, Round2(m.draw(v.0, v.1)))
  }

  function Next(m: Params, measured: seq<Edge>, added: seq<Edge>, v: (nat, nat)): seq<Edge> {
    if Accepts(m, measured, added, v) then added + [EdgeFor(m, v)] else added
  }

  /** The edges added while considering `vs`. */
  function Run(m: Params, measured: seq<Edge>, vs: seq<(nat, nat)>): seq<Edge> {
    if vs == [] then [] else Next(m, measured, Run(m, measured, vs[..|vs| - 1]), vs[|vs| - 1])
  }

  function Added(m: Params, measured: seq<Edge>): seq<Edge> {
    Run(m, measured, Visits(m, measured, m.n))
  }

  lemma {:induction false} RunAddsVisited(m: Params, measured: seq<Edge>, vs: seq<(nat, nat)>)
    requires AllInOrder(m, vs)
    ensures var es := Run(m, measured, vs);
            && (forall e :: e in es ==> (e.a, e.b) in vs && e == EdgeFor(m, (e.a, e.b)) && m.draw(e.a, e.b) > SNR_FLOOR)
            && (forall i, j :: 0 <= i < j < |es| ==> InOrder(m, (es[i].a, es[i].b), (es[j].a, es[j].b)))
  {
    if vs != [] {
      var front, v := vs[..|vs| - 1], vs[|vs| - 1];
      RunAddsVisited(m, measured, front);
      assert vs == front + [v];
      var before := Run(m, measured, front);
      forall i | 0 <= i < |before|
        ensures InOrder(m, (before[i].a, before[i].b), v)
      {
        assert before[i] in before;
      }
    }
  }

  /** What is added are gaps with an SNR above the floor, no pair twice, none a self-edge. */
  lemma AddsGapsOnce(m: Params, measured: seq<Edge>)
    ensures var es := Added(m, measured);
            && (forall e :: e in es ==> IsGap(m, measured, e.a, e.b) && m.draw(e.a, e.b) > SNR_FLOOR &&
                                        e.snr == Round2(m.draw(e.a, e.b)))
            && (forall i, j :: 0 <= i < j < |es| ==> (es[i].a, es[i].b) != (es[j].a, es[j].b))
  {
    VisitsAreTheGaps(m, measured, m.n);
    RunAddsVisited(m, measured, Visits(m, measured, m.n));
  }

  function Max(a: int, b: int): int {
    if a >= b then a else b
  }

  lemma {:induction false} RunKeepsCaps(m: Params, measured: seq<Edge>, vs: seq<(nat, nat)>, p: nat)
    ensures Degree(measured, p) + Degree(Run(m, measured, vs), p) <= Max(Degree(measured, p), MAX_EDGES_PER_NODE)
    ensures GoodStored(measured, p) + GoodDrawn(m, Run(m, measured, vs), p) <= Max(GoodStored(measured, p), m.maxGood)
  {
    if vs != [] {
      RunKeepsCaps(m, measured, vs[..|vs| - 1], p);
    }
  }

  /** No node ends with more edges than it had or twelve, whichever is more; likewise for good links. */
  lemma CapsHold(m: Params, measured: seq<Edge>, p: nat)
    ensures Degree(measured + Added(m, measured), p) <= Max(Degree(measured, p), MAX_EDGES_PER_NODE)
    ensures GoodStored(measured, p) + GoodDrawn(m, Added(m, measured), p) <= Max(GoodStored(measured, p), m.maxGood)
  {
    DegreeOfBoth(measured, Added(m, measured), p);
    RunKeepsCaps(m, measured, Visits(m, measured, m.n), p);
  }

  lemma CountsGrow(m: Params, measured: seq<Edge>, vs: seq<(nat, nat)>, p: nat)
    requires vs != []
    ensures Degree(Run(m, measured, vs[..|vs| - 1]), p) <= Degree(Run(m, measured, vs), p)
    ensures GoodDrawn(m, Run(m, measured, vs[..|vs| - 1]), p) <= GoodDrawn(m, Run(m, measured, vs), p)
  {
  }

  lemma {:induction false} RejectedStaysFull(m: Params, measured: seq<Edge>, vs: seq<(nat, nat)>, v: (nat, nat))
    requires v in vs && m.draw(v.0, v.1) > SNR_FLOOR
    ensures HasPair(Run(m, measured, vs), v.0, v.1) || !Accepts(m, measured, Run(m, measured, vs), v)
  {
    var front := vs[..|vs| - 1];
    var before, after := Run(m, measured, front), Run(m, measured, vs);
    assert vs == front + [vs[|vs| - 1]];
    CountsGrow(m, measured, vs, v.0);
    CountsGrow(m, measured, vs, v.1);
    if v in front {
      RejectedStaysFull(m, measured, front, v);
      if HasPair(before, v.0, v.1) {
        var i :| 0 <= i < |before| && before[i].a == v.0 && before[i].b == v.1;
        assert after[i] == before[i];
      }
    } else if Accepts(m, measured, before, v) {
      assert after[|before|] == EdgeFor(m, v);
    }
  }

  /** The filling is maximal: a gap above the floor is left open only if, counting everything
    * that was added, a cap at one of its ends forbids it.
    */
  lemma FillingIsMaximal(m: Params, measured: seq<Edge>, a: nat, b: nat)
    requires IsGap(m, measured, a, b) && m.draw(a, b) > SNR_FLOOR && !HasPair(Added(m, measured), a, b)
    ensures !Accepts(m, measured, Added(m, measured), (a, b))
  {
    VisitsAreTheGaps(m, measured, m.n);
    RejectedStaysFull(m, measured, Visits(m, measured, m.n), (a, b));
  }

  // ---- The rule in numbers ----------------------------------------------------

  /** The edges of `es` whose pairs were considered before `v`. */
  function Earlier(m: Params, es: seq<Edge>, v: (nat, nat)): seq<Edge> {
    if es == [] then []
    else
      var e := es[|es| - 1];
      Earlier(m, es[..|es| - 1], v) + if InOrder(m, (e.a, e.b), v) then [e] else []
  }

  lemma {:induction false} AllEarlier(m: Params, es: seq<Edge>, v: (nat, nat))
    requires forall e :: e in es ==> InOrder(m, (e.a, e.b), v)
    ensures Earlier(m, es, v) == es
  {
    if es != [] {
      assert es == es[..|es| - 1] + [es[|es| - 1]];
      AllEarlier(m, es[..|es| - 1], v);
    }
  }

  lemma RunOfFront(m: Params, measured: seq<Edge>, vs: seq<(nat, nat)>)
    requires vs != [] && AllInOrder(m, vs)
    ensures AllInOrder(m, vs[..|vs| - 1])
    ensures forall e :: e in Run(m, measured, vs[..|vs| - 1]) ==> InOrder(m, (e.a, e.b), vs[|vs| - 1])
  {
    var front := vs[..|vs| - 1];
    RunAddsVisited(m, measured, front);
    forall e | e in Run(m, measured, front)
      ensures InOrder(m, (e.a, e.b), vs[|vs| - 1])
    {
      var i :| 0 <= i < |front| && front[i] == (e.a, e.b);
      assert vs[i] == front[i];
    }
  }

  lemma EarlierNext(m: Params, es: seq<Edge>, e: Edge, v: (nat, nat))
    ensures Earlier(m, es + [e], v) == Earlier(m, es, v) + if InOrder(m, (e.a, e.b), v) then [e] else []
  {
    assert (es + [e])[..|es|] == es;
  }

  /** What the run had added when it came to the i-th pair is what precedes that pair in the end. */
  lemma {:induction false} EarlierIsPrefix(m: Params, measured: seq<Edge>, vs: seq<(nat, nat)>, i: nat)
    requires i < |vs| && AllInOrder(m, vs)
    ensures Earlier(m, Run(m, measured, vs), vs[i]) == Run(m, measured, vs[..i])
  {
    var front, v := vs[..|vs| - 1], vs[|vs| - 1];
    RunOfFront(m, measured, vs);
    EarlierNext(m, Run(m, measured, front), EdgeFor(m, v), vs[i]);
    if i == |vs| - 1 {
      AllEarlier(m, Run(m, measured, front), v);
    } else {
      EarlierIsPrefix(m, measured, front, i);
      assert front[..i] == vs[..i];
      assert InOrder(m, vs[i], v);
    }
  }

  lemma NoSuchPair(es: seq<Edge>, a: nat, b: nat)
    requires forall e :: e in es ==> e.a != a || e.b != b
    ensures !HasPair(es, a, b)
  {
  }

  lemma {:induction false} AddedAtItsTurn(m: Params, measured: seq<Edge>, vs: seq<(nat, nat)>, i: nat)
    requires i < |vs| && AllInOrder(m, vs)
    ensures HasPair(Run(m, measured, vs), vs[i].0, vs[i].1) <==> Accepts(m, measured, Run(m, measured, vs[..i]), vs[i])
  {
    var front, v := vs[..|vs| - 1], vs[|vs| - 1];
    var before, after := Run(m, measured, front), Run(m, measured, vs);
    RunOfFront(m, measured, vs);
    if i == |vs| - 1 {
      assert !InOrder(m, v, v);
      NoSuchPair(before, v.0, v.1);
      if Accepts(m, measured, before, v) {
        assert after[|before|] == EdgeFor(m, v);
      }
    } else {
      AddedAtItsTurn(m, measured, front, i);
      assert front[..i] == vs[..i] && InOrder(m, vs[i], v);
      SamePairs(m, before, after, v, vs[i]);
    }
  }

  lemma SamePairs(m: Params, before: seq<Edge>, after: seq<Edge>, v: (nat, nat), u: (nat, nat))
    requires (after == before || after == before + [EdgeFor(m, v)]) && u != v
    ensures HasPair(after, u.0, u.1) <==> HasPair(before, u.0, u.1)
  {
    if i :| 0 <= i < |before| && before[i].a == u.0 && before[i].b == u.1 {
      assert after[i] == before[i];
    }
  }

  /** A pair in the order of the loops, measured nowhere, more than ten metres apart and in range. */
  ghost predicate InReach(m: Params, measured: seq<Edge>, a: nat, b: nat) {
    a < b < m.n && !HasPair(measured, a, b) && 0.01 < m.dist(a, b) && m.dist(a, b) <= m.maxKm
  }

  /** With `es` added so far, there is room at node `p`: fewer than twelve edges, and fewer good ones
    * than the cap if this would be one.
    */
  ghost predicate HasRoom(m: Params, measured: seq<Edge>, es: seq<Edge>, p: nat, good: bool) {
    Degree(measured, p) + Degree(es, p) < 12 && (good ==> GoodStored(measured, p) + GoodDrawn(m, es, p) < m.maxGood)
  }

  /** Exactly which edges are added: those in reach with a draw above -12 dB and room at both ends,
    * counting what is measured and what was added for pairs before them: pairs of an earlier node, or
    * closer ones of the same.
    */
  lemma AddedExactlyWhen(m: Params, measured: seq<Edge>, a: nat, b: nat)
    ensures var es := Added(m, measured);
            var earlier, r := Earlier(m, es, (a, b)), m.draw(a, b);
            HasPair(es, a, b) <==>
            InReach(m, measured, a, b) && r > -12.0 &&
            HasRoom(m, measured, earlier, a, r > 0.0) && HasRoom(m, measured, earlier, b, r > 0.0)
  {
    var vs := Visits(m, measured, m.n);
    VisitsAreTheGaps(m, measured, m.n);
    assert (a, b) in vs <==> InReach(m, measured, a, b);
    if (a, b) in vs {
      var i :| 0 <= i < |vs| && vs[i] == (a, b);
      EarlierIsPrefix(m, measured, vs, i);
      AddedAtItsTurn(m, measured, vs, i);
    } else {
      AddsGapsOnce(m, measured);
      NoSuchPair(Added(m, measured), a, b);
    }
  }

  /** The stored SNR is the draw to the nearest hundredth, halves going to the even one. */
  lemma RoundLaw(r: real)
    ensures var k := (100.0 * Round2(r)).Floor;
            && 100.0 * Round2(r) == k as real
            && -0.5 <= 100.0 * r - k as real <= 0.5
            && (100.0 * r - k as real == 0.5 || 100.0 * r - k as real == -0.5 ==> k % 2 == 0)
  {
  }

  // ---- Stored against drawn SNR ---------------------------------------------

  /** A draw the counter and the file see differently. */
  predicate IsTiny(r: real) {
    0.0 < r <= 0.005
  }

  /** The tiny positive draws, which are stored as zero. */
  predicate StoredAsZero(m: Params, e: Edge) {
    IsTiny(m.draw(e.a, e.b))
  }

  lemma {:induction false} StoredGoodExactlyWhen(m: Params, es: seq<Edge>, p: nat)
    requires forall i :: 0 <= i < |es| ==> es[i].snr == Round2(m.draw(es[i].a, es[i].b))
    ensures GoodStored(es, p) <= GoodDrawn(m, es, p)
    ensures GoodStored(es, p) == GoodDrawn(m, es, p) <==>
            forall i :: 0 <= i < |es| && Touches(es[i], p) ==> !StoredAsZero(m, es[i])
  {
    if es != [] {
      var front, e := es[..|es| - 1], es[|es| - 1];
      StoredGoodExactlyWhen(m, front, p);
      RoundedPositive(m.draw(e.a, e.b));
      assert forall i :: 0 <= i < |front| ==> front[i] == es[i];
      if StoredAsZero(m, e) && Touches(e, p) {
        assert Touches(es[|es| - 1], p);
      }
    }
  }

  /** The good links the finished topology shows never exceed the cap, and they are those the
    * counter counted exactly if no edge added at the node has a draw that was stored as zero.
    */
  lemma GoodCounterMatchesExactlyWhen(m: Params, measured: seq<Edge>, p: nat)
    ensures var es := Added(m, measured);
            && GoodStored(measured + es, p) <= Max(GoodStored(measured, p), m.maxGood)
            && (GoodStored(measured + es, p) == GoodStored(measured, p) + GoodDrawn(m, es, p) <==>
                forall i :: 0 <= i < |es| && Touches(es[i], p) ==> !StoredAsZero(m, es[i]))
  {
    var es := Added(m, measured);
    AddsGapsOnce(m, measured);
    assert forall i :: 0 <= i < |es| ==> es[i] in es;
    GoodOfBoth(measured, es, p);
    StoredGoodExactlyWhen(m, es, p);
    CapsHold(m, measured, p);
  }

  /** So they agree if no gap at the node has a tiny draw. */
  lemma NoTinyDrawNoMismatch(m: Params, measured: seq<Edge>, p: nat)
    requires forall a: nat, b: nat :: IsGap(m, measured, a, b) && (a == p || b == p) ==> !IsTiny(m.draw(a, b))
    ensures GoodStored(measured + Added(m, measured), p) ==
            GoodStored(measured, p) + GoodDrawn(m, Added(m, measured), p)
  {
    var es := Added(m, measured);
    AddsGapsOnce(m, measured);
    forall i | 0 <= i < |es| && Touches(es[i], p)
      ensures !StoredAsZero(m, es[i])
    {
      assert es[i] in es;
    }
    GoodCounterMatchesExactlyWhen(m, measured, p);
  }

  /** No nodes in reach of each other but `a` and `b`, nothing measured, one good link allowed. */
  function OnlyPair(n: nat, draw: (nat, nat) -> real, a: nat, b: nat): Params {
    Params(n, (x: nat, y: nat) => if x == a && y == b then 1.0 else 100.0, draw, 10.0, 1)
  }

  lemma OnlyPairIsAdded(n: nat, draw: (nat, nat) -> real, a: nat, b: nat)
    requires a < b < n && draw(a, b) > SNR_FLOOR
    ensures var m := OnlyPair(n, draw, a, b);
            forall e :: e in Added(m, []) <==> e == EdgeFor(m, (a, b))
  {
    var m := OnlyPair(n, draw, a, b);
    AddsGapsOnce(m, []);
    assert forall x: nat, y: nat :: IsGap(m, [], x, y) ==> x == a && y == b;
    var es := Added(m, []);
    OnlyEdgesOf(es, a, b);
    if !HasPair(es, a, b) {
      FillingIsMaximal(m, [], a, b);
    }
    var i :| 0 <= i < |es| && es[i].a == a && es[i].b == b;
    assert es[i] in es && es[i] == EdgeFor(m, (a, b));
  }

  lemma OnlyEdgesOf(es: seq<Edge>, a: nat, b: nat)
    requires forall e :: e in es ==> e.a == a && e.b == b
    ensures es == [] || HasPair(es, a, b)
  {
    if es != [] {
      assert es[0] in es;
    }
  }

  /** No other condition on the draws alone will do: whatever the draws, a tiny one for any pair makes
    * counter and file disagree at both its ends, where only that pair is in reach.
    */
  lemma TinyDrawMismatch(n: nat, draw: (nat, nat) -> real, a: nat, b: nat, p: nat)
    requires a < b < n && IsTiny(draw(a, b)) && (p == a || p == b)
    ensures var m := OnlyPair(n, draw, a, b);
            GoodStored(Added(m, []), p) < GoodDrawn(m, Added(m, []), p)
  {
    var m := OnlyPair(n, draw, a, b);
    var es := Added(m, []);
    OnlyPairIsAdded(n, draw, a, b);
    AddsGapsOnce(m, []);
    assert EdgeFor(m, (a, b)) in es;
    var i :| 0 <= i < |es| && es[i] == EdgeFor(m, (a, b));
    assert Touches(es[i], p) && StoredAsZero(m, es[i]);
    StoredGoodExactlyWhen(m, es, p);
  }

  // ---- The loops ------------------------------------------------------------

  function Get(counts: map<nat, nat>, p: nat): nat {
    if p in counts then counts[p] else 0
  }

  /** The counters seeded from the measured edges. */
  method CountMeasured(measured: seq<Edge>) returns (total: map<nat, nat>, good: map<nat, nat>)
    requires forall i :: 0 <= i < |measured| ==> measured[i].a != measured[i].b
    ensures forall p :: Get(total, p) == Degree(measured, p) && Get(good, p) == GoodStored(measured, p)
  {
    total, good := map[], map[];
    for i := 0 to |measured|
      invariant forall p :: Get(total, p) == Degree(measured[..i], p)
      invariant forall p :: Get(good, p) == GoodStored(measured[..i], p)
    {
      var e := measured[i];
      assert measured[..i + 1][..i] == measured[..i];
      total := total[e.a := Get(total, e.a) + 1];
      if e.snr > 0.0 {
        good := good[e.a := Get(good, e.a) + 1];
      }
      total := total[e.b := Get(total, e.b) + 1];
      if e.snr > 0.0 {
        good := good[e.b := Get(good, e.b) + 1];
      }
    }
    assert measured[..|measured|] == measured;
  }

  /** The unordered pairs that have an edge; the lower node comes first. */
  ghost predicate IsEdgeSet(pairs: set<(nat, nat)>, es: seq<Edge>) {
    forall a: nat, b: nat :: (a, b) in pairs <==> HasPair(es, a, b)
  }

  method FindCandidates(m: Params, ghost measured: seq<Edge>, ghost added: seq<Edge>, pairs: set<(nat, nat)>, p1: nat)
    returns (candidates: seq<Candidate>)
    requires IsEdgeSet(pairs, measured + added) && forall e :: e in added ==> e.a < p1
    ensures candidates == Candidates(m, measured, p1, m.n)
  {
    candidates := [];
    for p2 := 0 to m.n
      invariant candidates == Candidates(m, measured, p1, p2)
    {
      NoneAddedYet(measured, added, p1, p2);
      if p2 <= p1 {
        continue;
      }
      if (p1, p2) in pairs {
        continue;
      }
      var dist := m.dist(p1, p2);
      if dist > m.maxKm || dist <= MIN_KM {
        continue;
      }
      candidates := candidates + [Candidate(dist, p2)];
    }
  }

  lemma PairsOfBoth(es: seq<Edge>, fs: seq<Edge>, a: nat, b: nat)
    ensures HasPair(es + fs, a, b) <==> HasPair(es, a, b) || HasPair(fs, a, b)
  {
    if HasPair(es, a, b) {
      var i :| 0 <= i < |es| && es[i].a == a && es[i].b == b;
      assert (es + fs)[i] == es[i];
    }
    if HasPair(fs, a, b) {
      var i :| 0 <= i < |fs| && fs[i].a == a && fs[i].b == b;
      assert (es + fs)[|es| + i] == fs[i];
    }
  }

  lemma NoneAddedYet(measured: seq<Edge>, added: seq<Edge>, p1: nat, p2: nat)
    requires forall e :: e in added ==> e.a < p1
    ensures HasPair(measured + added, p1, p2) <==> HasPair(measured, p1, p2)
  {
    PairsOfBoth(measured, added, p1, p2);
  }

  lemma PairsGrow(pairs: set<(nat, nat)>, es: seq<Edge>, e: Edge)
    requires IsEdgeSet(pairs, es)
    ensures IsEdgeSet(pairs + {(e.a, e.b)}, es + [e])
  {
    forall a: nat, b: nat
      ensures (a, b) in pairs + {(e.a, e.b)} <==> HasPair(es + [e], a, b)
    {
      PairsOfBoth(es, [e], a, b);
      assert HasPair([e], a, b) <==> [e][0].a == a && [e][0].b == b;
    }
  }

  ghost predicate CountersAreTrue(
    m: Params, measured: seq<Edge>, added: seq<Edge>, total: map<nat, nat>, good: map<nat, nat>)
  {
    forall p: nat ::
      && Get(total, p) == Degree(measured, p) + Degree(added, p)
      && Get(good, p) == GoodStored(measured, p) + GoodDrawn(m, added, p)
  }

  function Bumped(counts: map<nat, nat>, a: nat, b: nat): map<nat, nat> {
    counts[a := Get(counts, a) + 1][b := Get(counts, b) + 1]
  }

  lemma CountersStayTrue(m: Params, measured: seq<Edge>, added: seq<Edge>,
                         total: map<nat, nat>, good: map<nat, nat>, e: Edge)
    requires CountersAreTrue(m, measured, added, total, good) && e.a != e.b
    ensures CountersAreTrue(m, measured, added + [e], Bumped(total, e.a, e.b),
                            if m.draw(e.a, e.b) > 0.0 then Bumped(good, e.a, e.b) else good)
  {
    assert (added + [e])[..|added|] == added;
  }

  lemma RunStep(m: Params, measured: seq<Edge>, vs: seq<(nat, nat)>, v: (nat, nat))
    ensures Run(m, measured, vs + [v]) == Next(m, measured, Run(m, measured, vs), v)
  {
    assert (vs + [v])[..|vs|] == vs;
  }

  /** The caps, consulted for one candidate. */
  method TryPair(m: Params, ghost measured: seq<Edge>, ghost added: seq<Edge>, p1: nat, p2: nat,
                 edges: seq<Edge>, pairs: set<(nat, nat)>, total: map<nat, nat>, good: map<nat, nat>)
    returns (edges': seq<Edge>, pairs': set<(nat, nat)>, total': map<nat, nat>, good': map<nat, nat>)
    requires edges == measured + added && IsEdgeSet(pairs, edges) && p1 != p2
    requires CountersAreTrue(m, measured, added, total, good)
    ensures edges' == measured + Next(m, measured, added, (p1, p2)) && IsEdgeSet(pairs', edges')
    ensures CountersAreTrue(m, measured, Next(m, measured, added, (p1, p2)), total', good')
  {
    edges', pairs', total', good' := edges, pairs, total, good;
    var t1, t2 := Get(total, p1), Get(total, p2);
    if t1 >= MAX_EDGES_PER_NODE || t2 >= MAX_EDGES_PER_NODE {
      return;
    }
    var estimate := m.draw(p1, p2);
    if estimate <= SNR_FLOOR {
      return;
    }
    if estimate > 0.0 {
      var g1, g2 := Get(good, p1), Get(good, p2);
      if g1 >= m.maxGood || g2 >= m.maxGood {
        return;
      }
    }
    var edge := Edge(p1, p2, Round2(estimate));
    edges' := edges + [edge];
    pairs' := pairs + {(p1, p2)};
    total' := total[p1 := t1 + 1];
    total' := total'[p2 := t2 + 1];
    if estimate > 0.0 {
      good' := good[p1 := Get(good, p1) + 1];
      good' := good'[p2 := Get(good', p2) + 1];
    }
    PairsGrow(pairs, edges, edge);
    CountersStayTrue(m, measured, added, total, good, edge);
    assert total' == Bumped(total, p1, p2);
    assert edges' == measured + (added + [edge]);
  }

  /** The caps, consulted for one candidate after another. */
  method AddEdgesOf(m: Params, ghost measured: seq<Edge>, ghost vs: seq<(nat, nat)>, p1: nat,
                    candidates: seq<Candidate>, edges: seq<Edge>, pairs: set<(nat, nat)>,
                    total: map<nat, nat>, good: map<nat, nat>)
    returns (edges': seq<Edge>, pairs': set<(nat, nat)>, total': map<nat, nat>, good': map<nat, nat>)
    requires edges == measured + Run(m, measured, vs) && IsEdgeSet(pairs, edges)
    requires CountersAreTrue(m, measured, Run(m, measured, vs), total, good)
    requires forall i :: 0 <= i < |candidates| ==> candidates[i].node != p1
    ensures edges' == measured + Run(m, measured, vs + WithNode(p1, candidates)) && IsEdgeSet(pairs', edges')
    ensures CountersAreTrue(m, measured, Run(m, measured, vs + WithNode(p1, candidates)), total', good')
  {
    edges', pairs', total', good' := edges, pairs, total, good;
    ghost var done := vs;
    assert vs + WithNode(p1, candidates[..0]) == vs;
    for i := 0 to |candidates|
      invariant done == vs + WithNode(p1, candidates[..i])
      invariant edges' == measured + Run(m, measured, done) && IsEdgeSet(pairs', edges')
      invariant CountersAreTrue(m, measured, Run(m, measured, done), total', good')
    {
      var p2 := candidates[i].node;
      RunStep(m, measured, done, (p1, p2));
      NextVisit(p1, candidates, i);
      edges', pairs', total', good' :=
        TryPair(m, measured, Run(m, measured, done), p1, p2, edges', pairs', total', good');
      done := done + [(p1, p2)];
    }
    assert candidates[..|candidates|] == candidates;
  }

  lemma NextVisit(p1: nat, cs: seq<Candidate>, i: nat)
    requires i < |cs|
    ensures WithNode(p1, cs[..i + 1]) == WithNode(p1, cs[..i]) + [(p1, cs[i].node)]
  {
  }

  /** All of this for one node. */
  method FillNode(m: Params, ghost measured: seq<Edge>, p1: nat, edges: seq<Edge>, pairs: set<(nat, nat)>,
                  total: map<nat, nat>, good: map<nat, nat>)
    returns (edges': seq<Edge>, pairs': set<(nat, nat)>, total': map<nat, nat>, good': map<nat, nat>)
    requires p1 < m.n && edges == measured + Run(m, measured, Visits(m, measured, p1)) && IsEdgeSet(pairs, edges)
    requires CountersAreTrue(m, measured, Run(m, measured, Visits(m, measured, p1)), total, good)
    ensures edges' == measured + Run(m, measured, Visits(m, measured, p1 + 1)) && IsEdgeSet(pairs', edges')
    ensures CountersAreTrue(m, measured, Run(m, measured, Visits(m, measured, p1 + 1)), total', good')
  {
    AddedBefore(m, measured, p1);
    var candidates := FindCandidates(m, measured, Run(m, measured, Visits(m, measured, p1)), pairs, p1);
    candidates := Sort(candidates);
    edges', pairs', total', good' :=
      AddEdgesOf(m, measured, Visits(m, measured, p1), p1, candidates, edges, pairs, total, good);
  }

  /** Fills the gaps of a measured topology: what is added is the greedy run over all gaps, and the
    * counters are the true counts at the end.
    */
  method FillGaps(m: Params, measured: seq<Edge>, measuredPairs: set<(nat, nat)>)
    returns (edges: seq<Edge>, total: map<nat, nat>, good: map<nat, nat>)
    requires forall i :: 0 <= i < |measured| ==> measured[i].a < measured[i].b < m.n
    requires IsEdgeSet(measuredPairs, measured)
    ensures edges == measured + Added(m, measured)
    ensures CountersAreTrue(m, measured, Added(m, measured), total, good)
  {
    total, good := CountMeasured(measured);
    edges := measured;
    var pairs := measuredPairs;
    assert measured + [] == measured;
    for p1 := 0 to m.n
      invariant edges == measured + Run(m, measured, Visits(m, measured, p1)) && IsEdgeSet(pairs, edges)
      invariant CountersAreTrue(m, measured, Run(m, measured, Visits(m, measured, p1)), total, good)
    {
      edges, pairs, total, good := FillNode(m, measured, p1, edges, pairs, total, good);
    }
  }

  lemma AddedBefore(m: Params, measured: seq<Edge>, p1: nat)
    requires p1 <= m.n
    ensures forall e :: e in Run(m, measured, Visits(m, measured, p1)) ==> e.a < p1
  {
    VisitsAreTheGaps(m, measured, p1);
    RunAddsVisited(m, measured, Visits(m, measured, p1));
  }
}
