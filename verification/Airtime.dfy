/** LoRa time on air (section 4 of Semtech AN1200.13), as the orchestrator and the radio
  * shim each compute it.
  */
module Airtime {
  import opened Common

  function Ceil(x: real): int {
    -((-x).Floor)
  }

  /** Symbol duration in milliseconds. */
  function TSymMs(sf: nat, bwHz: nat): (r: real)
    requires bwHz > 0
    ensures r > 0.0
  {
    Pow2(sf) as real / (bwHz as real / 1000.0)
  }

  /** Low data rate optimisation. */
  function LowRate(sf: nat, bwHz: nat): int
    requires bwHz > 0
  {
    if TSymMs(sf, bwHz) >= 16.0 then 1 else 0
  }

  /** The coded part of the payload, in symbols. */
  function CodedSymbols(bits: int, blockBits: int, cr: int): int
    requires blockBits > 0
  {
    var n := Ceil(bits as real / blockBits as real) * (cr + 4);
    if n > 0 then n else 0
  }

  function PayloadBits(sf: nat, payloadBytes: nat, crc: bool, explicitHeader: bool): int {
    8 * payloadBytes - 4 * sf + 28 + (if crc then 16 else 0) - (if explicitHeader then 0 else 20)
  }

  /** `lora_airtime_ms`, for the spreading factors it documents. */
  function LoraAirtimeMs(sf: nat, bwHz: nat, cr: int, payloadBytes: nat,
                         preambleSymbols: nat, crc: bool, explicitHeader: bool): real
    requires 7 <= sf <= 12 && bwHz > 0
  {
    var t := TSymMs(sf, bwHz);
    var blockBits := 4 * (sf - 2 * LowRate(sf, bwHz));
    var payloadSymbols := 8 + CodedSymbols(PayloadBits(sf, payloadBytes, crc, explicitHeader), blockBits, cr);
    (preambleSymbols as real + 4.25) * t + payloadSymbols as real * t
  }

  // ---- Products of reals ----------------------------------------------------

  lemma ScaleUp(a: real, b: real, t: real)
    requires t > 0.0
    ensures a <= b <==> a * t <= b * t
    ensures a < b <==> a * t < b * t
  {
    assert b * t - a * t == (b - a) * t;
    if a < b {
      assert (b - a) * t > 0.0;
    } else if b < a {
      assert (a - b) * t > 0.0;
      assert (a - b) * t == -((b - a) * t);
    }
  }

  lemma ScaleRight(a: real, t: real, t': real)
    requires a > 0.0
    ensures t <= t' ==> a * t <= a * t'
    ensures t < t' ==> a * t < a * t'
  {
    ScaleUp(t, t', a);
    assert a * t == t * a;
    assert a * t' == t' * a;
  }

  lemma ProductGrows(a: real, a': real, t: real, t': real, x: real, x': real)
    requires 0.0 < a <= a' && 0.0 < t <= t' && x == a * t && x' == a' * t'
    ensures x <= x' && (t < t' ==> x < x')
  {
    ScaleUp(a, a', t);
    ScaleRight(a', t, t');
  }

  lemma ScaleUpInt(a: int, b: int, n: int)
    requires a <= b && n >= 0
    ensures a * n <= b * n
  {
    assert b * n - a * n == (b - a) * n;
    NotNegative(b - a, n);
  }

  lemma NotNegative(d: int, n: int)
    requires d >= 0 && n >= 0
    ensures d * n >= 0
  {
  }

  function Coded(sf: nat, bwHz: nat, cr: int, n: nat, crc: bool, hdr: bool): int
    requires 7 <= sf <= 12 && bwHz > 0
  {
    CodedSymbols(PayloadBits(sf, n, crc, hdr), 4 * (sf - 2 * LowRate(sf, bwHz)), cr)
  }

  /** A time on air is its number of symbols, preamble included, times their duration. */
  ghost predicate Lasts(air: real, pre: nat, coded: int, t: real) {
    t > 0.0 && coded >= 0 && air == (pre as real + 12.25 + coded as real) * t
  }

  lemma AirtimeInSymbols(sf: nat, bwHz: nat, cr: int, n: nat, pre: nat, crc: bool, hdr: bool)
    requires 7 <= sf <= 12 && bwHz > 0
    ensures Lasts(LoraAirtimeMs(sf, bwHz, cr, n, pre, crc, hdr), pre, Coded(sf, bwHz, cr, n, crc, hdr),
                  TSymMs(sf, bwHz))
  {
    var t := TSymMs(sf, bwHz);
    var coded := Coded(sf, bwHz, cr, n, crc, hdr);
    SumTimes(pre as real + 4.25, (8 + coded) as real, t);
    assert pre as real + 4.25 + (8 + coded) as real == pre as real + 12.25 + coded as real;
  }

  lemma TSymSeconds(sf: nat, bwHz: nat)
    requires bwHz > 0
    ensures TSymMs(sf, bwHz) / 1000.0 == Pow2(sf) as real / bwHz as real > 0.0
  {
    var p, bw := Pow2(sf) as real, bwHz as real;
    assert TSymMs(sf, bwHz) * (bw / 1000.0) == p;
  }

  lemma SecondsOfSymbols(air: real, pre: nat, coded: int, tMs: real, t: real)
    requires Lasts(air, pre, coded, tMs) && tMs / 1000.0 == t
    ensures air / 1000.0 >= (pre as real + 4.25) * t > 0.0
  {
    var a := pre as real + 12.25 + coded as real;
    assert air / 1000.0 == a * t;
    ScaleUp(pre as real + 4.25, a, t);
    ScaleUp(0.0, pre as real + 4.25, t);
  }

  /** In seconds, a packet is on air for longer than its preamble. */
  lemma LongerThanPreamble(sf: nat, bwHz: nat, cr: int, n: nat, pre: nat, crc: bool, hdr: bool, t: real)
    requires 7 <= sf <= 12 && bwHz > 0 && t == TSymMs(sf, bwHz) / 1000.0
    ensures LoraAirtimeMs(sf, bwHz, cr, n, pre, crc, hdr) / 1000.0 >= (pre as real + 4.25) * t > 0.0
  {
    AirtimeInSymbols(sf, bwHz, cr, n, pre, crc, hdr);
    SecondsOfSymbols(LoraAirtimeMs(sf, bwHz, cr, n, pre, crc, hdr), pre, Coded(sf, bwHz, cr, n, crc, hdr),
                     TSymMs(sf, bwHz), t);
  }

  /** No more symbols, none longer: no more time; and less if they are shorter. */
  lemma FewerShorter(air: real, air': real, pre: nat, coded: int, coded': int, t: real, t': real)
    requires Lasts(air, pre, coded, t) && Lasts(air', pre, coded', t')
    requires coded <= coded' && t <= t'
    ensures air <= air' && (t < t' ==> air < air')
  {
    var a, a' := pre as real + 12.25 + coded as real, pre as real + 12.25 + coded' as real;
    ProductGrows(a, a', t, t', air, air');
  }

  /** Twice as long symbols outweigh half as many coded ones. */
  lemma HalfOfDouble(air: real, air': real, pre: nat, coded: int, coded': int, t: real)
    requires Lasts(air, pre, coded, t) && Lasts(air', pre, coded', 2.0 * t)
    requires coded <= 2 * coded' + pre + 12
    ensures air < air'
  {
    var a, a' := pre as real + 12.25 + coded as real, pre as real + 12.25 + coded' as real;
    assert (2 * coded' + pre + 12) as real == 2.0 * coded' as real + pre as real + 12.0;
    assert a < 2.0 * a';
    assert air' == a' * (2.0 * t) == (2.0 * a') * t;
    ScaleUp(a, 2.0 * a', t);
  }

  // ---- Rounding up ----------------------------------------------------------

  /** The ceiling of a quotient is the least multiplier that reaches the numerator. */
  lemma CeilQuotient(a: int, b: int, k: int)
    requires b > 0
    ensures Ceil(a as real / b as real) <= k <==> a <= k * b
  {
    var x := a as real / b as real;
    assert x * b as real == a as real;
    assert (k * b) as real == k as real * b as real;
    ScaleUp(x, k as real, b as real);
    assert Ceil(x) <= k <==> x <= k as real;
  }

  /** More bits, a lower coding gain or a smaller block never take fewer coded symbols. */
  lemma CodedSymbolsMonotone(bits: int, bits': int, block: int, block': int, cr: int, cr': int)
    requires bits <= bits' && block >= block' > 0 && -4 <= cr <= cr'
    ensures CodedSymbols(bits, block, cr) <= CodedSymbols(bits', block', cr')
  {
    var k, k' := Ceil(bits as real / block as real), Ceil(bits' as real / block' as real);
    var m := if k' >= 0 then k' else 0;
    CeilQuotient(bits', block', m);
    assert m * block' <= m * block by {
      assert m * (block - block') >= 0;
    }
    CeilQuotient(bits, block, m);
    ScaleUpInt(k, m, cr + 4);
    assert m * (cr + 4) <= m * (cr' + 4) by {
      assert m * (cr' - cr) >= 0;
    }
  }

  // ---- The formula ----------------------------------------------------------

  lemma SymbolTimeIs(sf: nat, bwHz: nat, t: real)
    requires bwHz > 0 && t * bwHz as real == 1000.0 * Pow2(sf) as real
    ensures TSymMs(sf, bwHz) == t > 0.0
  {
    var b, t' := bwHz as real, TSymMs(sf, bwHz);
    assert t' * (b / 1000.0) == Pow2(sf) as real;
    assert t' * b == 1000.0 * Pow2(sf) as real;
    assert (t - t') * b == 0.0;
  }

  /** The bits of the payload in blocks, rounded up. */
  ghost predicate IsBlocks(bits: int, block: int, k: int) {
    (k - 1) * block < bits <= k * block
  }

  lemma BlocksAre(bits: int, block: int, k: int)
    requires block > 0 && IsBlocks(bits, block, k)
    ensures Ceil(bits as real / block as real) == k
  {
    CeilQuotient(bits, block, k);
    CeilQuotient(bits, block, k - 1);
  }

  function CodedBlocks(k: int, cr: int): int {
    if k * (cr + 4) > 0 then k * (cr + 4) else 0
  }

  lemma CodedIs(sf: nat, bwHz: nat, cr: int, n: nat, crc: bool, hdr: bool, t: real, k: int)
    requires 7 <= sf <= 12 && bwHz > 0 && t == TSymMs(sf, bwHz)
    requires IsBlocks(8 * n - 4 * sf + (if crc then 44 else 28) - (if hdr then 0 else 20),
                      if t >= 16.0 then 4 * sf - 8 else 4 * sf, k)
    ensures Coded(sf, bwHz, cr, n, crc, hdr) == CodedBlocks(k, cr)
  {
    BlocksAre(PayloadBits(sf, n, crc, hdr), 4 * (sf - 2 * LowRate(sf, bwHz)), k);
  }

  /** The time on air as section 4 of AN1200.13 has it, with symbols of `t` milliseconds: 12.25 symbols
    * more than the preamble, and `cr + 4` for each of `k` blocks; long symbols make the blocks smaller.
    */
  lemma FormulaLaw(sf: nat, bwHz: nat, cr: int, n: nat, pre: nat, crc: bool, hdr: bool, t: real, k: int)
    requires 7 <= sf <= 12 && bwHz > 0 && t * bwHz as real == 1000.0 * Pow2(sf) as real
    requires IsBlocks(8 * n - 4 * sf + (if crc then 44 else 28) - (if hdr then 0 else 20),
                      if t >= 16.0 then 4 * sf - 8 else 4 * sf, k)
    ensures Lasts(LoraAirtimeMs(sf, bwHz, cr, n, pre, crc, hdr), pre, CodedBlocks(k, cr), t)
  {
    SymbolTimeIs(sf, bwHz, t);
    CodedIs(sf, bwHz, cr, n, crc, hdr, t, k);
    AirtimeInSymbols(sf, bwHz, cr, n, pre, crc, hdr);
  }

  // ---- Payload and coding rate ----------------------------------------------

  /** A longer payload and a more redundant code never take less time. */
  lemma MonotoneInPayloadAndCode(sf: nat, bwHz: nat, cr: int, cr': int, n: nat, n': nat, pre: nat, crc: bool, hdr: bool)
    requires 7 <= sf <= 12 && bwHz > 0 && n <= n' && -4 <= cr <= cr'
    ensures LoraAirtimeMs(sf, bwHz, cr, n, pre, crc, hdr) <= LoraAirtimeMs(sf, bwHz, cr', n', pre, crc, hdr)
  {
    var block, t := 4 * (sf - 2 * LowRate(sf, bwHz)), TSymMs(sf, bwHz);
    CodedSymbolsMonotone(PayloadBits(sf, n, crc, hdr), PayloadBits(sf, n', crc, hdr), block, block, cr, cr');
    AirtimeInSymbols(sf, bwHz, cr, n, pre, crc, hdr);
    AirtimeInSymbols(sf, bwHz, cr', n', pre, crc, hdr);
    FewerShorter(LoraAirtimeMs(sf, bwHz, cr, n, pre, crc, hdr), LoraAirtimeMs(sf, bwHz, cr', n', pre, crc, hdr), pre,
                 Coded(sf, bwHz, cr, n, crc, hdr), Coded(sf, bwHz, cr', n', crc, hdr), t, t);
  }

  // ---- Bandwidth ------------------------------------------------------------

  lemma TSymFallsWithBandwidth(sf: nat, bw: nat, bw': nat)
    requires 0 < bw < bw'
    ensures TSymMs(sf, bw') < TSymMs(sf, bw)
  {
    var t, t', x, x' := TSymMs(sf, bw), TSymMs(sf, bw'), bw as real / 1000.0, bw' as real / 1000.0;
    assert t * x == Pow2(sf) as real && t' * x' == Pow2(sf) as real;
    assert t' * x < t' * x' by {
      assert t' * (x' - x) > 0.0;
    }
    ScaleUp(t', t, x);
  }

  /** A wider channel always takes less time, also where it switches the optimisation off. */
  lemma FallsWithBandwidth(sf: nat, bw: nat, bw': nat, cr: int, n: nat, pre: nat, crc: bool, hdr: bool)
    requires 7 <= sf <= 12 && 0 < bw < bw' && cr >= -4
    ensures LoraAirtimeMs(sf, bw', cr, n, pre, crc, hdr) < LoraAirtimeMs(sf, bw, cr, n, pre, crc, hdr)
  {
    TSymFallsWithBandwidth(sf, bw, bw');
    var bits := PayloadBits(sf, n, crc, hdr);
    CodedSymbolsMonotone(bits, bits, 4 * (sf - 2 * LowRate(sf, bw')), 4 * (sf - 2 * LowRate(sf, bw)), cr, cr);
    AirtimeInSymbols(sf, bw, cr, n, pre, crc, hdr);
    AirtimeInSymbols(sf, bw', cr, n, pre, crc, hdr);
    FewerShorter(LoraAirtimeMs(sf, bw', cr, n, pre, crc, hdr), LoraAirtimeMs(sf, bw, cr, n, pre, crc, hdr), pre,
                 Coded(sf, bw', cr, n, crc, hdr), Coded(sf, bw, cr, n, crc, hdr), TSymMs(sf, bw'), TSymMs(sf, bw));
  }

  // ---- Spreading factor -----------------------------------------------------

  lemma TwiceAndOne(m: int, b: int)
    ensures (2 * m + 1) * b == 2 * (m * b) + b
    ensures (b + 4) * m == m * b + 4 * m && b * m == m * b
  {
  }

  lemma BlockArithmetic(bits: int, block: int, block': int, m: int)
    requires block >= 20 && 0 < block' <= block + 4 && m >= 0 && bits - 4 <= m * block'
    ensures bits <= (2 * m + 1) * block
  {
    ScaleUpInt(block', block + 4, m);
    ScaleUpInt(20, block, m);
    TwiceAndOne(m, block);
    TwiceAndOne(m, block');
  }

  /** One step up loses at most half of the blocks and one. */
  lemma BlocksAtNextFactor(bits: int, block: int, block': int, m: int)
    requires block >= 20 && 0 < block' <= block + 4 && m >= 0
    requires Ceil((bits - 4) as real / block' as real) <= m
    ensures Ceil(bits as real / block as real) <= 2 * m + 1
  {
    CeilQuotient(bits - 4, block', m);
    BlockArithmetic(bits, block, block', m);
    CeilQuotient(bits, block, 2 * m + 1);
  }

  lemma CodedSymbolsAtNextFactor(bits: int, block: int, block': int, cr: int)
    requires block >= 20 && 0 < block' <= block + 4 && cr >= -4
    ensures CodedSymbols(bits, block, cr) <= 2 * CodedSymbols(bits - 4, block', cr) + cr + 4
  {
    var k, k' := Ceil(bits as real / block as real), Ceil((bits - 4) as real / block' as real);
    var m := if k' > 0 then k' else 0;
    BlocksAtNextFactor(bits, block, block', m);
    ScaleUpInt(k, 2 * m + 1, cr + 4);
    assert (2 * m + 1) * (cr + 4) == 2 * (m * (cr + 4)) + cr + 4;
    ScaleUpInt(0, m, cr + 4);
    ScaleUpInt(k', m, cr + 4);
    assert CodedSymbols(bits - 4, block', cr) == m * (cr + 4);
  }

  lemma TSymDoubles(sf: nat, bwHz: nat)
    requires bwHz > 0
    ensures TSymMs(sf + 1, bwHz) == 2.0 * TSymMs(sf, bwHz)
  {
    var p, x := Pow2(sf) as real, bwHz as real / 1000.0;
    assert Pow2(sf + 1) as real == 2.0 * p;
    assert (2.0 * p) / x == 2.0 * (p / x);
  }

  /** With a rate below -4 blocks count backwards, and none but a missing header makes them negative. */
  lemma NegativeBlocks(bits: int, block: int, block': int, cr: int)
    requires cr < -4 && block > 0 && block' > 0
    requires bits >= -block && (bits == -block ==> bits - 4 <= -block')
    ensures CodedSymbols(bits, block, cr) <= CodedSymbols(bits - 4, block', cr)
  {
    var k, k' := Ceil(bits as real / block as real), Ceil((bits - 4) as real / block' as real);
    CeilQuotient(bits, block, -1);
    CeilQuotient(bits, block, -2);
    CeilQuotient(bits - 4, block', -1);
    if k >= 0 {
      NotNegative(k, -(cr + 4));
      assert k * (cr + 4) == -(k * -(cr + 4));
    } else {
      assert k == -1 && k' <= -1;
      ScaleUpInt(1, -k', -(cr + 4));
      assert k' * (cr + 4) == -k' * -(cr + 4);
    }
  }

  lemma CodedAtNextFactor(sf: nat, bwHz: nat, cr: int, n: nat, crc: bool, hdr: bool)
    requires 7 <= sf < 12 && bwHz > 0 && cr < -4
    ensures Coded(sf, bwHz, cr, n, crc, hdr) <= Coded(sf + 1, bwHz, cr, n, crc, hdr)
  {
    TSymDoubles(sf, bwHz);
    assert PayloadBits(sf + 1, n, crc, hdr) == PayloadBits(sf, n, crc, hdr) - 4;
    NegativeBlocks(PayloadBits(sf, n, crc, hdr), 4 * (sf - 2 * LowRate(sf, bwHz)),
                   4 * (sf + 1 - 2 * LowRate(sf + 1, bwHz)), cr);
  }

  /** One factor up, the symbols are twice as long and the coded ones at least half as many, less one
    * block.
    */
  lemma NextFactorTakesLonger(sf: nat, bwHz: nat, cr: int, n: nat, pre: nat, crc: bool, hdr: bool)
    requires 7 <= sf < 12 && bwHz > 0 && cr <= pre + 8
    ensures LoraAirtimeMs(sf, bwHz, cr, n, pre, crc, hdr) < LoraAirtimeMs(sf + 1, bwHz, cr, n, pre, crc, hdr)
  {
    TSymDoubles(sf, bwHz);
    AirtimeInSymbols(sf, bwHz, cr, n, pre, crc, hdr);
    AirtimeInSymbols(sf + 1, bwHz, cr, n, pre, crc, hdr);
    if cr < -4 {
      CodedAtNextFactor(sf, bwHz, cr, n, crc, hdr);
    } else {
      CodedSymbolsAtNextFactor(PayloadBits(sf, n, crc, hdr), 4 * (sf - 2 * LowRate(sf, bwHz)),
                               4 * (sf + 1 - 2 * LowRate(sf + 1, bwHz)), cr);
      assert PayloadBits(sf + 1, n, crc, hdr) == PayloadBits(sf, n, crc, hdr) - 4;
    }
    HalfOfDouble(LoraAirtimeMs(sf, bwHz, cr, n, pre, crc, hdr), LoraAirtimeMs(sf + 1, bwHz, cr, n, pre, crc, hdr), pre,
                 Coded(sf, bwHz, cr, n, crc, hdr), Coded(sf + 1, bwHz, cr, n, crc, hdr), TSymMs(sf, bwHz));
  }

  /** A higher spreading factor always takes longer, also across the low-data-rate switch. */
  lemma {:induction false} RisesWithSpreadingFactor(sf: nat, sf': nat, bwHz: nat, cr: int, n: nat, pre: nat,
                                                    crc: bool, hdr: bool)
    requires 7 <= sf < sf' <= 12 && bwHz > 0 && cr <= pre + 8
    ensures LoraAirtimeMs(sf, bwHz, cr, n, pre, crc, hdr) < LoraAirtimeMs(sf', bwHz, cr, n, pre, crc, hdr)
    decreases sf' - sf
  {
    NextFactorTakesLonger(sf, bwHz, cr, n, pre, crc, hdr);
    if sf + 1 < sf' {
      RisesWithSpreadingFactor(sf + 1, sf', bwHz, cr, n, pre, crc, hdr);
    }
  }

  lemma LongerExactly(air: real, air': real, pre: nat, coded: int, t: real)
    requires Lasts(air, pre, coded, t) && Lasts(air', pre, 0, 2.0 * t)
    ensures air < air' <==> coded <= pre + 12
  {
    var a, a' := pre as real + 12.25 + coded as real, 2.0 * (pre as real + 12.25);
    SumTimes(pre as real + 12.25, pre as real + 12.25, t);
    assert air' == a' * t;
    ScaleUp(a, a', t);
    assert a < a' <==> coded as real < pre as real + 12.25;
  }

  /** An empty payload fills part of one block at factor 10 and none at factor 11. */
  lemma EmptyPayload(bwHz: nat, cr: int, pre: nat)
    requires bwHz > 0 && cr >= -4
    ensures LoraAirtimeMs(10, bwHz, cr, 0, pre, true, true) < LoraAirtimeMs(11, bwHz, cr, 0, pre, true, true) <==>
            cr <= pre + 8
  {
    var block, block' := 4 * (10 - 2 * LowRate(10, bwHz)), 4 * (11 - 2 * LowRate(11, bwHz));
    CeilQuotient(4, block, 0);
    CeilQuotient(4, block, 1);
    CeilQuotient(0, block', 0);
    CeilQuotient(0, block', -1);
    assert CodedSymbols(4, block, cr) == cr + 4 && CodedSymbols(0, block', cr) == 0;
    AirtimeInSymbols(10, bwHz, cr, 0, pre, true, true);
    AirtimeInSymbols(11, bwHz, cr, 0, pre, true, true);
    TSymDoubles(10, bwHz);
    LongerExactly(LoraAirtimeMs(10, bwHz, cr, 0, pre, true, true), LoraAirtimeMs(11, bwHz, cr, 0, pre, true, true),
                  pre, cr + 4, TSymMs(10, bwHz));
  }

  /** Every packet takes longer at every higher spreading factor. */
  ghost predicate AlwaysRises(bwHz: nat, cr: int, pre: nat)
    requires bwHz > 0
  {
    forall sf: nat, sf': nat, n: nat, crc: bool, hdr: bool :: 7 <= sf < sf' <= 12 ==>
      LoraAirtimeMs(sf, bwHz, cr, n, pre, crc, hdr) < LoraAirtimeMs(sf', bwHz, cr, n, pre, crc, hdr)
  }

  /** The bound on the coding rate is sharp, whatever the bandwidth and the preamble. */
  lemma RisesExactlyWhen(bwHz: nat, cr: int, pre: nat)
    requires bwHz > 0
    ensures AlwaysRises(bwHz, cr, pre) <==> cr <= pre + 8
  {
    if cr <= pre + 8 {
      forall sf: nat, sf': nat, n: nat, crc: bool, hdr: bool | 7 <= sf < sf' <= 12
        ensures LoraAirtimeMs(sf, bwHz, cr, n, pre, crc, hdr) < LoraAirtimeMs(sf', bwHz, cr, n, pre, crc, hdr)
      {
        RisesWithSpreadingFactor(sf, sf', bwHz, cr, n, pre, crc, hdr);
      }
    } else {
      EmptyPayload(bwHz, cr, pre);
    }
  }

  // ---- The radio shim -------------------------------------------------------

  const UINT32 := 0x1_0000_0000

  /** The payload symbols the shim counts, in floating point. */
  function ShimSymbols(sf: nat, de: int, cr: int, lenBytes: nat): int
    requires 7 <= sf <= 12 && 0 <= de <= 1
  {
    var num := 8.0 * lenBytes as real - 4.0 * sf as real + 44.0;
    var den := 4.0 * (sf - 2 * de) as real;
    8 + MaxReal(Ceil(num / den) as real * (cr + 4) as real, 0.0).Floor
  }

  /** What `getEstAirtimeFor` computes before it truncates. */
  function ShimMillis(sf: nat, bwHz: nat, cr: int, lenBytes: nat): real
    requires 7 <= sf <= 12 && bwHz > 0
  {
    var tSym := Pow2(sf) as real / (bwHz as real / 1000.0);
    var tPre := (8.0 + 4.25) * tSym;
    var de := if tSym >= 16.0 then 1 else 0;
    tPre + ShimSymbols(sf, de, cr, lenBytes) as real * tSym
  }

  /** `SimRadio::getEstAirtimeFor`: eight preamble symbols, CRC and explicit header, truncated
    * to a 32-bit count of milliseconds.
    */
  function EstAirtimeFor(sf: nat, bwHz: nat, cr: int, lenBytes: nat): int
    requires 7 <= sf <= 12 && bwHz > 0
  {
    ShimMillis(sf, bwHz, cr, lenBytes).Floor % UINT32
  }

  lemma PowersOfTwo()
    ensures Pow2(7) == 128 && Pow2(8) == 256 && Pow2(9) == 512
    ensures Pow2(10) == 1024 && Pow2(11) == 2048 && Pow2(12) == 4096
  {
    assert Pow2(3) == 8;
    assert Pow2(6) == 64;
    assert Pow2(9) == 512;
  }

  lemma LongestSymbol(sf: nat, bwHz: nat)
    requires 7 <= sf <= 12 && bwHz > 0
    ensures TSymMs(sf, bwHz) <= 4_096_000.0
  {
    PowersOfTwo();
    var t, x := TSymMs(sf, bwHz), bwHz as real / 1000.0;
    assert t * x == Pow2(sf) as real <= 4096.0;
    assert t * x >= t * 0.001 by {
      assert t * (x - 0.001) >= 0.0;
    }
  }

  lemma FewCodedSymbols(sf: nat, bwHz: nat, cr: int, n: nat)
    requires 7 <= sf <= 12 && bwHz > 0 && 1 <= cr <= 4 && n <= 255
    ensures Coded(sf, bwHz, cr, n, true, true) <= 824
  {
    CodedSymbolsMonotone(PayloadBits(sf, n, true, true), 2056, 4 * (sf - 2 * LowRate(sf, bwHz)), 20, cr, 4);
    CeilQuotient(2056, 20, 103);
  }

  lemma AirtimeBelowUint32(sf: nat, bwHz: nat, cr: int, n: nat)
    requires 7 <= sf <= 12 && bwHz > 0 && 1 <= cr <= 4 && n <= 255
    ensures 0.0 <= LoraAirtimeMs(sf, bwHz, cr, n, 8, true, true) < UINT32 as real
  {
    var air, t := LoraAirtimeMs(sf, bwHz, cr, n, 8, true, true), TSymMs(sf, bwHz);
    var coded := Coded(sf, bwHz, cr, n, true, true);
    FewCodedSymbols(sf, bwHz, cr, n);
    AirtimeInSymbols(sf, bwHz, cr, n, 8, true, true);
    LongestSymbol(sf, bwHz);
    FewerShorter(air, 844.25 * 4_096_000.0, 8, coded, 824, t, 4_096_000.0);
    LastsPositive(air, 8, coded, t);
  }

  lemma LastsPositive(air: real, pre: nat, coded: int, t: real)
    requires Lasts(air, pre, coded, t)
    ensures air > 0.0
  {
    ScaleUp(0.0, pre as real + 12.25 + coded as real, t);
  }

  lemma FloorOfProduct(k: int, c: int)
    ensures MaxReal(k as real * c as real, 0.0).Floor == if k * c > 0 then k * c else 0
  {
    assert k as real * c as real == (k * c) as real;
  }

  /** The coded symbols, in integers and in floating point. */
  lemma ShimCoded(num: real, den: real, bits: int, block: int, cr: int)
    requires num == bits as real && den == block as real && block > 0
    ensures MaxReal(Ceil(num / den) as real * (cr + 4) as real, 0.0).Floor == CodedSymbols(bits, block, cr)
  {
    FloorOfProduct(Ceil(bits as real / block as real), cr + 4);
  }

  lemma ShimSymbolsAt(sf: nat, de: int, cr: int, n: nat)
    requires 7 <= sf <= 12 && 0 <= de <= 1
    ensures ShimSymbols(sf, de, cr, n) == 8 + CodedSymbols(PayloadBits(sf, n, true, true), 4 * (sf - 2 * de), cr)
  {
    ShimCoded(8.0 * n as real - 4.0 * sf as real + 44.0, 4.0 * (sf - 2 * de) as real,
              PayloadBits(sf, n, true, true), 4 * (sf - 2 * de), cr);
  }

  /** The shim counts the symbols the orchestrator counts. */
  lemma ShimSymbolsAgree(sf: nat, bwHz: nat, cr: int, n: nat)
    requires 7 <= sf <= 12 && bwHz > 0
    ensures ShimSymbols(sf, LowRate(sf, bwHz), cr, n) == 8 + Coded(sf, bwHz, cr, n, true, true)
  {
    ShimSymbolsAt(sf, LowRate(sf, bwHz), cr, n);
  }

  lemma SumTimes(a: real, b: real, t: real)
    ensures a * t + b * t == (a + b) * t
  {
  }

  lemma ShimInSymbols(sf: nat, bwHz: nat, cr: int, n: nat, air: real)
    requires 7 <= sf <= 12 && bwHz > 0
    requires Lasts(air, 8, ShimSymbols(sf, LowRate(sf, bwHz), cr, n) - 8, TSymMs(sf, bwHz))
    ensures ShimMillis(sf, bwHz, cr, n) == air
  {
    SymbolsLast(air, ShimSymbols(sf, LowRate(sf, bwHz), cr, n), TSymMs(sf, bwHz));
  }

  lemma SymbolsLast(air: real, p: int, t: real)
    requires Lasts(air, 8, p - 8, t)
    ensures air == (8.0 + 4.25) * t + p as real * t
  {
    SumTimes(8.0 + 4.25, p as real, t);
    assert 8 as real + 12.25 + (p - 8) as real == 8.0 + 4.25 + p as real;
  }

  /** The shim's estimate is the orchestrator's time on air rounded down to a millisecond, up to
    * the width of its result.
    */
  lemma ShimIsFloorModulo(sf: nat, bwHz: nat, cr: int, n: nat)
    requires 7 <= sf <= 12 && bwHz > 0
    ensures EstAirtimeFor(sf, bwHz, cr, n) == LoraAirtimeMs(sf, bwHz, cr, n, 8, true, true).Floor % UINT32
  {
    ShimSymbolsAgree(sf, bwHz, cr, n);
    AirtimeInSymbols(sf, bwHz, cr, n, 8, true, true);
    ShimInSymbols(sf, bwHz, cr, n, LoraAirtimeMs(sf, bwHz, cr, n, 8, true, true));
  }

  /** For every packet the radio can send, that is exactly the time rounded down. */
  lemma ShimAgrees(sf: nat, bwHz: nat, cr: int, n: nat)
    requires 7 <= sf <= 12 && bwHz > 0 && 1 <= cr <= 4 && n <= 255
    ensures EstAirtimeFor(sf, bwHz, cr, n) == LoraAirtimeMs(sf, bwHz, cr, n, 8, true, true).Floor
  {
    AirtimeBelowUint32(sf, bwHz, cr, n);
    ShimIsFloorModulo(sf, bwHz, cr, n);
  }

  // ---- Against the five-second history of the channel ------------------------

  /** At the default radio setting every packet is on air for less than 1.15 seconds. */
  lemma DefaultRadioIsQuick(n: nat)
    requires n <= 255
    ensures LoraAirtimeMs(10, 250_000, 1, n, 8, true, true) < 1150.0
  {
    PowersOfTwo();
    var t := TSymMs(10, 250_000);
    assert t == 4.096;
    CodedSymbolsMonotone(PayloadBits(10, n, true, true), 2044, 40, 40, 1, 1);
    CeilQuotient(2044, 40, 52);
    AirtimeInSymbols(10, 250_000, 1, n, 8, true, true);
    FewerShorter(LoraAirtimeMs(10, 250_000, 1, n, 8, true, true), 280.25 * t, 8,
                 Coded(10, 250_000, 1, n, true, true), 260, t, t);
  }

  /** At the slowest narrow-band setting a full packet alone outlasts the history twice over. */
  lemma SlowRadioOutlastsHistory()
    ensures LoraAirtimeMs(12, 62_500, 4, 255, 8, true, true) > 10_000.0
  {
    PowersOfTwo();
    var t := TSymMs(12, 62_500);
    assert t == 65.536;
    AirtimeInSymbols(12, 62_500, 4, 255, 8, true, true);
    var coded := Coded(12, 62_500, 4, 255, true, true);
    CeilQuotient(2036, 40, 50);
    FewerShorter(270.25 * t, LoraAirtimeMs(12, 62_500, 4, 255, 8, true, true), 8, 250, coded, t, t);
  }

  /** At the same setting a packet of two bytes takes less than two seconds. */
  lemma SlowRadioShortPacket()
    ensures LoraAirtimeMs(12, 62_500, 4, 2, 8, true, true) < 2000.0
  {
    PowersOfTwo();
    var t := TSymMs(12, 62_500);
    assert t == 65.536;
    AirtimeInSymbols(12, 62_500, 4, 2, 8, true, true);
    CeilQuotient(12, 40, 1);
    FewerShorter(LoraAirtimeMs(12, 62_500, 4, 2, 8, true, true), 28.25 * t, 8,
                 Coded(12, 62_500, 4, 2, true, true), 8, t, t);
  }
}
