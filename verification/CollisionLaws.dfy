/** The collision check in the numbers of the radio: symbols, milliseconds and decibels. */
module CollisionLaws {
  import opened Common
  import opened Channel
  import opened Collision

  /** Seconds from `sender` to `receiver`: the milliseconds of the link, or none if it has no entry. */
  ghost predicate Delay(c: Config, sender: string, receiver: string, d: real) {
    1000.0 * d ==
    if sender in c.linkLatencyMs && receiver in c.linkLatencyMs[sender]
    then c.linkLatencyMs[sender][receiver] else 0.0
  }

  ghost predicate Audible(c: Config, sender: string, receiver: string) {
    sender in c.linkSnr && receiver in c.linkSnr[sender]
  }

  /** The primary is known at the receiver and exceeds the other by the threshold. */
  ghost predicate Stronger(c: Config, sender: string, other: string, receiver: string) {
    Audible(c, sender, receiver) && Audible(c, other, receiver) &&
    c.linkSnr[sender][receiver] >= c.linkSnr[other][receiver] + c.captureDb
  }

  /** The preamble symbols a receiver can do without. */
  function SpareSymbols(preamble: nat): nat {
    if preamble < 5 then 0 else preamble - 5
  }

  /** The symbols that coding rates 4/5 to 4/8 correct. */
  function Correctable(cr: int): nat {
    match cr case 3 => 1 case 4 => 2 case _ => 0
  }

  lemma SymbolTime(c: Config, t: real)
    requires t * c.bwHz as real == Pow2(c.sf) as real
    ensures TSym(c) == t > 0.0
  {
    var b := c.bwHz as real;
    assert TSym(c) * b == t * b;
    assert (TSym(c) - t) * b == 0.0;
  }

  lemma GraceInSymbols(c: Config, t: real)
    requires t * c.bwHz as real == Pow2(c.sf) as real
    ensures Grace(c) == SpareSymbols(c.preambleSymbols) as real * t
    ensures FecTolerance(c) == Correctable(c.cr) as real * t
  {
    SymbolTime(c, t);
    if c.preambleSymbols < 5 {
      assert (c.preambleSymbols - 5) as real * t <= 0.0;
    } else {
      assert (c.preambleSymbols - 5) as real * t >= 0.0;
    }
  }

  /** What the channel says of a primary on air at the receiver from `p0` to `p1` and another
    * transmission there from `i0` to `i1`, with symbols of `t` seconds.
    */
  lemma LossInNumbers(c: Config, f: Flight, q: Tx, t: real, d: real, d': real)
    requires t * c.bwHz as real == Pow2(c.sf) as real
    requires Delay(c, f.sender, f.receiver, d) && Delay(c, q.sender, f.receiver, d')
    ensures var p0, p1, i0, i1 := f.start + d, f.end + d, q.start + d', q.end + d';
            var critical := p0 + SpareSymbols(c.preambleSymbols) as real * t;
            var overlap := (if p1 <= i1 then p1 else i1) - (if p0 >= i0 then p0 else i0);
            Collides(c, f, q) ==
            if q.id != f.id && q.sender != f.sender && Audible(c, q.sender, f.receiver) && i0 < p1 && p0 < i1 &&
               !Stronger(c, f.sender, q.sender, f.receiver) && i1 > critical &&
               (i0 > critical ==> overlap > Correctable(c.cr) as real * t)
            then Some(Loss(q.sender, q.id, overlap))
            else None
  {
    GraceInSymbols(c, t);
    Timing(c);
  }

  /** An overlapping arrival that cannot be captured and does not begin after the critical point
    * spares the primary exactly if it has ended by then; one that begins later, exactly if the
    * overlap is at most what coding corrects.
    */
  lemma SparedExactlyWhen(c: Config, f: Flight, q: Tx, t: real, d: real, d': real)
    requires t * c.bwHz as real == Pow2(c.sf) as real
    requires Delay(c, f.sender, f.receiver, d) && Delay(c, q.sender, f.receiver, d')
    requires q.id != f.id && q.sender != f.sender && Audible(c, q.sender, f.receiver)
    requires q.start + d' < f.end + d && f.start + d < q.end + d'
    requires !Stronger(c, f.sender, q.sender, f.receiver)
    ensures var critical := f.start + d + SpareSymbols(c.preambleSymbols) as real * t;
            var overlap := MinReal(f.end + d, q.end + d') - MaxReal(f.start + d, q.start + d');
            Collides(c, f, q) == None <==>
            if q.start + d' <= critical then q.end + d' <= critical
            else overlap <= Correctable(c.cr) as real * t
  {
    LossInNumbers(c, f, q, t, d, d');
  }
}
