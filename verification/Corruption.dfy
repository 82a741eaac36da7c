/** What a corrupting adversary does to a packet: it flips bits at random places. */
module Corruption {
  import opened Common

  /** `x ^ (1 << b)` */
  function Toggle(x: nat, b: nat): nat {
    if b == 0 then (if x % 2 == 0 then x + 1 else x - 1) else 2 * Toggle(x / 2, b - 1) + x % 2
  }

  lemma {:induction false} ToggleFits(x: nat, b: nat, n: nat)
    requires x < Pow2(n) && b < n
    ensures Toggle(x, b) < Pow2(n)
  {
    assert Pow2(n) == 2 * Pow2(n - 1);
    if b == 0 {
    } else {
      ToggleFits(x / 2, b - 1, n - 1);
      assert Toggle(x, b) == 2 * Toggle(x / 2, b - 1) + x % 2;
    }
  }

  /** Flipping a bit twice gives the number back, and flipping it once does not. */
  lemma {:induction false} ToggleTwice(x: nat, b: nat)
    ensures Toggle(Toggle(x, b), b) == x && Toggle(x, b) != x
  {
    if b > 0 {
      ToggleTwice(x / 2, b - 1);
      var y := Toggle(x, b);
      assert y == 2 * Toggle(x / 2, b - 1) + x % 2;
      assert y / 2 == Toggle(x / 2, b - 1) && y % 2 == x % 2;
    }
  }

  function ToggleByte(x: Byte, b: nat): Byte
    requires b < 8
  {
    EightBits();
    ToggleFits(x, b, 8);
    Toggle(x, b)
  }

  lemma EightBits()
    ensures Pow2(8) == 256
  {
    assert Pow2(4) == 16;
  }

  /** Random numbers; draw number `i` picks a byte and a bit. */
  type Draws = nat -> (nat, nat)

  /** `randrange(n)` gives a number below `n`. */
  function RandRange(x: nat, n: nat): (r: nat)
    requires n > 0
    ensures r < n
  {
    if x < n then x else 0
  }

  function Flip(data: seq<Byte>, pick: (nat, nat)): (r: seq<Byte>)
    requires data != []
    ensures |r| == |data|
  {
    var i := RandRange(pick.0, |data|);
    data[i := ToggleByte(data[i], RandRange(pick.1, 8))]
  }

  /** `data` after `k` flips. */
  function Flipped(data: seq<Byte>, k: nat, draws: Draws): (r: seq<Byte>)
    ensures |r| == |data|
  {
    if data == [] || k == 0 then data else Flip(Flipped(data, k - 1, draws), draws(k - 1))
  }

  /** `_corrupt`: as many flips as configured, none for a negative number. */
  function Corrupted(data: seq<Byte>, count: int, draws: Draws): seq<Byte> {
    Flipped(data, if count < 0 then 0 else count, draws)
  }

  /** The places where two strings of the same length differ. */
  ghost function Differences(a: seq<Byte>, b: seq<Byte>): set<nat>
    requires |a| == |b|
  {
    set i: nat | i < |a| && a[i] != b[i]
  }

  lemma FlipDiffers(a: seq<Byte>, b: seq<Byte>, pick: (nat, nat))
    requires |a| == |b| && b != []
    ensures |Differences(a, Flip(b, pick))| <= |Differences(a, b)| + 1
  {
    var i := RandRange(pick.0, |b|);
    forall j | j in Differences(a, Flip(b, pick))
      ensures j in Differences(a, b) + {i}
    {
      assert j != i ==> Flip(b, pick)[j] == b[j];
    }
    Subset(Differences(a, Flip(b, pick)), Differences(a, b) + {i});
  }

  lemma {:induction false} Subset(a: set<nat>, b: set<nat>)
    requires a <= b
    ensures |a| <= |b|
  {
    if x :| x in a {
      Subset(a - {x}, b - {x});
    }
  }

  /** A corrupted packet keeps its length and differs in at most as many bytes as there were flips. */
  lemma {:induction false} CorruptionIsBounded(data: seq<Byte>, k: nat, draws: Draws)
    ensures |Differences(data, Flipped(data, k, draws))| <= k
  {
    if data == [] || k == 0 {
      assert Differences(data, data) == {};
    } else {
      CorruptionIsBounded(data, k - 1, draws);
      FlipDiffers(data, Flipped(data, k - 1, draws), draws(k - 1));
    }
  }

  // ---- Exactly when a corruption does nothing --------------------------------

  function Bit(x: nat, c: nat): bool {
    if c == 0 then x % 2 == 1 else Bit(x / 2, c - 1)
  }

  lemma {:induction false} ToggleFlipsBit(x: nat, b: nat, c: nat)
    ensures Bit(Toggle(x, b), c) == (Bit(x, c) != (b == c))
  {
    if b > 0 && c > 0 {
      ToggleFlipsBit(x / 2, b - 1, c - 1);
      assert Toggle(x, b) / 2 == Toggle(x / 2, b - 1);
    } else if c > 0 {
      assert Toggle(x, b) / 2 == x / 2;
    }
  }

  /** The bits make the number. */
  lemma {:induction false} SameBits(x: nat, y: nat, n: nat)
    requires x < Pow2(n) && y < Pow2(n)
    requires forall c: nat :: c < n ==> Bit(x, c) == Bit(y, c)
    ensures x == y
  {
    if n > 0 {
      assert Bit(x, 0) == Bit(y, 0);
      forall c: nat | c < n - 1
        ensures Bit(x / 2, c) == Bit(y / 2, c)
      {
        assert Bit(x, c + 1) == Bit(y, c + 1);
      }
      SameBits(x / 2, y / 2, n - 1);
    }
  }

  /** The byte and the bit that draw number `i` picks. */
  function Place(data: seq<Byte>, draws: Draws, i: nat): (nat, nat)
    requires data != []
  {
    (RandRange(draws(i).0, |data|), RandRange(draws(i).1, 8))
  }

  /** How many of the first `k` draws pick bit `b` of byte `i`. */
  function Hits(data: seq<Byte>, draws: Draws, k: nat, i: nat, b: nat): nat
    requires data != []
  {
    if k == 0 then 0 else Hits(data, draws, k - 1, i, b) + if Place(data, draws, k - 1) == (i, b) then 1 else 0
  }

  lemma FlipOneBit(data: seq<Byte>, pick: (nat, nat), i: nat, b: nat)
    requires i < |data| && b < 8
    ensures Bit(Flip(data, pick)[i], b) ==
            (Bit(data[i], b) != ((RandRange(pick.0, |data|), RandRange(pick.1, 8)) == (i, b)))
  {
    ToggleFlipsBit(data[i], RandRange(pick.1, 8), b);
  }

  /** A bit is flipped exactly if it was hit an odd number of times. */
  lemma {:induction false} FlippedBit(data: seq<Byte>, k: nat, draws: Draws, i: nat, b: nat)
    requires i < |data| && b < 8
    ensures Bit(Flipped(data, k, draws)[i], b) == (Bit(data[i], b) != (Hits(data, draws, k, i, b) % 2 == 1))
  {
    if k > 0 {
      FlippedBit(data, k - 1, draws, i, b);
      FlipOneBit(Flipped(data, k - 1, draws), draws(k - 1), i, b);
    }
  }

  ghost predicate AllHitEvenly(data: seq<Byte>, draws: Draws, k: nat)
    requires data != []
  {
    forall i: nat, b: nat :: i < |data| && b < 8 ==> Hits(data, draws, k, i, b) % 2 == 0
  }

  /** A packet comes out of a corruption as it went in exactly if every bit was hit an even number
    * of times.
    */
  lemma UnchangedExactlyWhen(data: seq<Byte>, count: int, draws: Draws)
    requires data != []
    ensures Corrupted(data, count, draws) == data <==> AllHitEvenly(data, draws, if count < 0 then 0 else count)
  {
    var k := if count < 0 then 0 else count;
    var after := Flipped(data, k, draws);
    forall i: nat, b: nat | i < |data| && b < 8
      ensures Bit(after[i], b) == (Bit(data[i], b) != (Hits(data, draws, k, i, b) % 2 == 1))
    {
      FlippedBit(data, k, draws, i, b);
    }
    if AllHitEvenly(data, draws, k) {
      EightBits();
      forall i: nat | i < |data|
        ensures after[i] == data[i]
      {
        SameBits(after[i], data[i], 8);
      }
    }
  }

  /** Two flips cancel exactly if they hit the same bit. */
  lemma TwoFlipsCancelExactlyWhen(data: seq<Byte>, draws: Draws)
    requires data != []
    ensures Corrupted(data, 2, draws) == data <==> Place(data, draws, 0) == Place(data, draws, 1)
  {
    UnchangedExactlyWhen(data, 2, draws);
    forall i: nat, b: nat
      ensures Hits(data, draws, 2, i, b) ==
              (if Place(data, draws, 0) == (i, b) then 1 else 0) + if Place(data, draws, 1) == (i, b) then 1 else 0
    {
      assert Hits(data, draws, 1, i, b) == if Place(data, draws, 0) == (i, b) then 1 else 0;
    }
    var (i, b) := Place(data, draws, 0);
    assert Hits(data, draws, 2, i, b) >= 1;
  }

  // ---- Which numbers of flips can cancel ---------------------------------------

  /** Whether the number of ones in `x` is odd. */
  function OddOnes(x: nat): bool {
    if x == 0 then false else (x % 2 == 1) != OddOnes(x / 2)
  }

  lemma {:induction false} ToggleChangesOnes(x: nat, b: nat)
    ensures OddOnes(Toggle(x, b)) != OddOnes(x)
  {
    if b == 0 {
      assert Toggle(x, 0) / 2 == x / 2;
    } else {
      ToggleChangesOnes(x / 2, b - 1);
      assert Toggle(x, b) / 2 == Toggle(x / 2, b - 1) && Toggle(x, b) % 2 == x % 2;
    }
  }

  function OddOnesIn(data: seq<Byte>): bool {
    if data == [] then false else OddOnes(data[0]) != OddOnesIn(data[1..])
  }

  lemma {:induction false} OneByteChangesOnes(data: seq<Byte>, i: nat, x: Byte)
    requires i < |data| && OddOnes(x) != OddOnes(data[i])
    ensures OddOnesIn(data[i := x]) != OddOnesIn(data)
  {
    if i == 0 {
      assert data[0 := x][1..] == data[1..];
    } else {
      OneByteChangesOnes(data[1..], i - 1, x);
      assert data[i := x][1..] == data[1..][i - 1 := x];
    }
  }

  lemma FlipChangesOnes(data: seq<Byte>, pick: (nat, nat))
    requires data != []
    ensures OddOnesIn(Flip(data, pick)) != OddOnesIn(data)
  {
    var i, b := RandRange(pick.0, |data|), RandRange(pick.1, 8);
    ToggleChangesOnes(data[i], b);
    OneByteChangesOnes(data, i, ToggleByte(data[i], b));
  }

  lemma {:induction false} FlipsChangeOnes(data: seq<Byte>, k: nat, draws: Draws)
    requires data != []
    ensures OddOnesIn(Flipped(data, k, draws)) == (OddOnesIn(data) != (k % 2 == 1))
  {
    if k > 0 {
      FlipsChangeOnes(data, k - 1, draws);
      FlipChangesOnes(Flipped(data, k - 1, draws), draws(k - 1));
    }
  }

  lemma {:induction false} SameBitHits(data: seq<Byte>, k: nat, i: nat, b: nat)
    requires data != []
    ensures Hits(data, _ => (0, 0), k, i, b) == if (i, b) == (0, 0) then k else 0
  {
    if k > 0 {
      SameBitHits(data, k - 1, i, b);
    }
  }

  /** By the configured number alone: some draws leave the packet as it was exactly if that number is
    * even, or not positive.
    */
  lemma CanCancelExactlyWhen(data: seq<Byte>, count: int)
    requires data != []
    ensures (exists draws: Draws :: Corrupted(data, count, draws) == data) <==> count <= 0 || count % 2 == 0
  {
    var k := if count < 0 then 0 else count;
    if k % 2 == 0 {
      var same: Draws := _ => (0, 0);
      forall i: nat, b: nat | i < |data| && b < 8
        ensures Hits(data, same, k, i, b) % 2 == 0
      {
        SameBitHits(data, k, i, b);
      }
      UnchangedExactlyWhen(data, count, same);
      assert Corrupted(data, count, same) == data;
    } else {
      forall draws: Draws
        ensures Corrupted(data, count, draws) != data
      {
        FlipsChangeOnes(data, k, draws);
      }
    }
  }

  /** A single flip never leaves the packet as it was. */
  lemma OneFlipShows(data: seq<Byte>, draws: Draws)
    requires data != []
    ensures Corrupted(data, 1, draws) != data
  {
    CanCancelExactlyWhen(data, 1);
  }

  /** One turn of the loop of `_corrupt`, in place. */
  method FlipInPlace(buffer: array<Byte>, pick: (nat, nat))
    requires buffer.Length > 0
    modifies buffer
    ensures buffer[..] == Flip(old(buffer[..]), pick)
  {
    var i := RandRange(pick.0, buffer.Length);
    buffer[i] := ToggleByte(buffer[i], RandRange(pick.1, 8));
  }

  /** `_corrupt` */
  method Corrupt(data: seq<Byte>, count: int, draws: Draws) returns (result: seq<Byte>)
    ensures result == Corrupted(data, count, draws)
  {
    if data == [] {
      return data;
    }
    var buffer := new Byte[|data|](i requires 0 <= i < |data| => data[i]);
    assert buffer[..] == data;
    var k := 0;
    while k < count
      invariant 0 <= k && (count >= 0 ==> k <= count) && (count < 0 ==> k == 0)
      invariant buffer[..] == Flipped(data, k, draws)
    {
      FlipInPlace(buffer, draws(k));
      k := k + 1;
    }
    result := buffer[..];
  }
}
