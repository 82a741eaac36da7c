/** The node's random generator: splitmix64 seeding, xoshiro256** stepping, byte output. */
module SimRng {

  type Word = bv64
  /** A key byte as the 64-bit operand it is used as. */
  type KeyByte = b: bv64 | b < 256

  // ---- splitmix64 -----------------------------------------------------------

  function XorShift30(z: Word): Word { z ^ (z >> 30) }

  function XorShift27(z: Word): Word { z ^ (z >> 27) }

  function XorShift31(z: Word): Word { z ^ (z >> 31) }

  function Times1(z: Word): Word { z * 0xbf58476d1ce4e5b9 }

  function Times2(z: Word): Word { z * 0x94d049bb133111eb }

  /** The counter of splitmix64. */
  function Advance(state: Word): Word { state + 0x9e3779b97f4a7c15 }

  /** The output function of splitmix64. */
  function Mix(z: Word): Word {
    XorShift31(Times2(XorShift27(Times1(XorShift30(z)))))
  }

  // ---- xoshiro256** ---------------------------------------------------------

  datatype Xoshiro = Xoshiro(s0: Word, s1: Word, s2: Word, s3: Word)

  const ZERO := Xoshiro(0, 0, 0, 0)

  function Rotl7(x: Word): Word { (x << 7) | (x >> 57) }

  function Rotl45(x: Word): Word { (x << 45) | (x >> 19) }

  function Times5(x: Word): Word { x * 5 }

  function Times9(x: Word): Word { x * 9 }

  /** The scrambler that gives the generator its two stars. */
  function Scramble(x: Word): Word { Times9(Rotl7(Times5(x))) }

  function Output(s: Xoshiro): Word {
    Scramble(s.s1)
  }

  function Xor(a: Word, b: Word): Word { a ^ b }

  function Shl17(x: Word): Word { x << 17 }

  function Next(s: Xoshiro): Xoshiro {
    var a2, a3 := Xor(s.s2, s.s0), Xor(s.s3, s.s1);
    Xoshiro(Xor(s.s0, a3), Xor(s.s1, a2), Xor(a2, Shl17(s.s1)), Rotl45(a3))
  }

  /** The state four draws of splitmix64 give. */
  function Seeded(seed: Word): Xoshiro {
    var a := Advance(seed);
    var b := Advance(a);
    var c := Advance(b);
    Xoshiro(Mix(a), Mix(b), Mix(c), Mix(Advance(c)))
  }

  // ---- Undoing one operation --------------------------------------------------

  function UnShift30(y: Word): Word { y ^ (y >> 30) ^ (y >> 60) }

  function UnShift27(y: Word): Word { y ^ (y >> 27) ^ (y >> 54) }

  function UnShift31(y: Word): Word { y ^ (y >> 31) ^ (y >> 62) }

  /** Multiplication by the inverses modulo 2^64 of the two (odd) multipliers. */
  function UnTimes1(y: Word): Word { y * 0x96de1b173f119089 }

  function UnTimes2(y: Word): Word { y * 0x319642b2d24d8ec3 }

  lemma XorShift30Is(z: Word)
    ensures XorShift30(z) == z ^ (z >> 30)
  {
  }

  lemma UnShift30Cancels(z: Word)
    ensures UnShift30(z ^ (z >> 30)) == z
  {
  }

  lemma UndoXorShift30(z: Word)
    ensures UnShift30(XorShift30(z)) == z
  {
    XorShift30Is(z);
    UnShift30Cancels(z);
  }

  lemma XorShift27Is(z: Word)
    ensures XorShift27(z) == z ^ (z >> 27)
  {
  }

  lemma UnShift27Cancels(z: Word)
    ensures UnShift27(z ^ (z >> 27)) == z
  {
  }

  lemma UndoXorShift27(z: Word)
    ensures UnShift27(XorShift27(z)) == z
  {
    XorShift27Is(z);
    UnShift27Cancels(z);
  }

  lemma XorShift31Is(z: Word)
    ensures XorShift31(z) == z ^ (z >> 31)
  {
  }

  lemma UnShift31Cancels(z: Word)
    ensures UnShift31(z ^ (z >> 31)) == z
  {
  }

  lemma UndoXorShift31(z: Word)
    ensures UnShift31(XorShift31(z)) == z
  {
    XorShift31Is(z);
    UnShift31Cancels(z);
  }

  lemma Times1Is(z: Word)
    ensures Times1(z) == z * 0xbf58476d1ce4e5b9
  {
  }

  lemma UnTimes1Cancels(z: Word)
    ensures UnTimes1(z * 0xbf58476d1ce4e5b9) == z
  {
  }

  lemma UndoTimes1(z: Word)
    ensures UnTimes1(Times1(z)) == z
  {
    Times1Is(z);
    UnTimes1Cancels(z);
  }

  lemma Times2Is(z: Word)
    ensures Times2(z) == z * 0x94d049bb133111eb
  {
  }

  lemma UnTimes2Cancels(z: Word)
    ensures UnTimes2(z * 0x94d049bb133111eb) == z
  {
  }

  lemma UndoTimes2(z: Word)
    ensures UnTimes2(Times2(z)) == z
  {
    Times2Is(z);
    UnTimes2Cancels(z);
  }

  function Unmix(w: Word): Word {
    UnShift30(UnTimes1(UnShift27(UnTimes2(UnShift31(w)))))
  }

  /** splitmix64's mixing can be undone, so it maps different inputs to different outputs. */
  lemma UnmixUndoesMix(z: Word)
    ensures Unmix(Mix(z)) == z
  {
    var a := XorShift30(z);
    var b := Times1(a);
    var c := XorShift27(b);
    var d := Times2(c);
    UndoXorShift30(z);
    UndoTimes1(a);
    UndoXorShift27(b);
    UndoTimes2(c);
    UndoXorShift31(d);
  }

  // ---- Undoing the output -----------------------------------------------------

  function UnTimes5(y: Word): Word { y * 0xcccccccccccccccd }

  function UnTimes9(y: Word): Word { y * 0x8e38e38e38e38e39 }

  function Rotr7(y: Word): Word { (y >> 7) | (y << 57) }

  /** The word of the state that an output was made from. */
  function Unscramble(y: Word): Word {
    UnTimes5(Rotr7(UnTimes9(y)))
  }

  lemma Times5Is(x: Word)
    ensures Times5(x) == x * 5
  {
  }

  lemma UnTimes5Cancels(x: Word)
    ensures UnTimes5(x * 5) == x
  {
  }

  lemma UndoTimes5(x: Word)
    ensures UnTimes5(Times5(x)) == x
  {
    Times5Is(x);
    UnTimes5Cancels(x);
  }

  lemma Times9Is(x: Word)
    ensures Times9(x) == x * 9
  {
  }

  lemma UnTimes9Cancels(x: Word)
    ensures UnTimes9(x * 9) == x
  {
  }

  lemma UndoTimes9(x: Word)
    ensures UnTimes9(Times9(x)) == x
  {
    Times9Is(x);
    UnTimes9Cancels(x);
  }

  lemma Rotl7Is(x: Word)
    ensures Rotl7(x) == (x << 7) | (x >> 57)
  {
  }

  lemma Rotr7Cancels(x: Word)
    ensures Rotr7((x << 7) | (x >> 57)) == x
  {
  }

  lemma UndoRotl7(x: Word)
    ensures Rotr7(Rotl7(x)) == x
  {
    Rotl7Is(x);
    Rotr7Cancels(x);
  }

  /** The output can be undone: it shows the second word of the state, and nothing else. */
  lemma UnscrambleUndoesOutput(s: Xoshiro)
    ensures Unscramble(Output(s)) == s.s1
  {
    UndoTimes9(Rotl7(Times5(s.s1)));
    UndoRotl7(Times5(s.s1));
    UndoTimes5(s.s1);
  }

  // ---- Seeding --------------------------------------------------------------

  lemma AdvanceIs(x: Word)
    ensures Advance(x) == x + 0x9e3779b97f4a7c15
  {
  }

  lemma Advance2Is(x: Word)
    ensures Advance(Advance(x)) == x + 0x3c6ef372fe94f82a
  {
  }

  lemma Advance3Is(x: Word)
    ensures Advance(Advance(Advance(x))) == x + 0xdaa66d2c7ddf743f
  {
  }

  lemma SumsDiffer(x: Word)
    ensures x != x + 0x9e3779b97f4a7c15 && x != x + 0x3c6ef372fe94f82a && x != x + 0xdaa66d2c7ddf743f
  {
  }

  lemma AdvancesDiffer(x: Word)
    ensures x != Advance(x) && x != Advance(Advance(x)) && x != Advance(Advance(Advance(x)))
  {
    AdvanceIs(x);
    Advance2Is(x);
    Advance3Is(x);
    SumsDiffer(x);
  }

  lemma MixDiffers(a: Word, b: Word)
    requires a != b
    ensures Mix(a) != Mix(b)
  {
    UnmixUndoesMix(a);
    UnmixUndoesMix(b);
  }

  lemma MixesDiffer(a: Word, b: Word, c: Word, d: Word)
    requires a != b && a != c && a != d && b != c && b != d && c != d
    ensures Mix(a) != Mix(b) && Mix(a) != Mix(c) && Mix(a) != Mix(d)
    ensures Mix(b) != Mix(c) && Mix(b) != Mix(d) && Mix(c) != Mix(d)
  {
    MixDiffers(a, b);
    MixDiffers(a, c);
    MixDiffers(a, d);
    MixDiffers(b, c);
    MixDiffers(b, d);
    MixDiffers(c, d);
  }

  ghost predicate WordsDiffer(s: Xoshiro) {
    s.s0 != s.s1 && s.s0 != s.s2 && s.s0 != s.s3 && s.s1 != s.s2 && s.s1 != s.s3 && s.s2 != s.s3
  }

  /** For every seed the four words of the state are pairwise different, so at most one is zero. */
  lemma SeededWordsDiffer(seed: Word)
    ensures WordsDiffer(Seeded(seed)) && Seeded(seed) != ZERO
  {
    var a := Advance(seed);
    var b := Advance(a);
    var c := Advance(b);
    AdvancesDiffer(a);
    AdvancesDiffer(b);
    AdvancesDiffer(c);
    MixesDiffer(a, b, c, Advance(c));
  }

  lemma AdvanceInjective(a: Word, b: Word)
    requires a != b
    ensures Advance(a) != Advance(b)
  {
  }

  lemma Advance4Is(x: Word)
    ensures Advance(Advance(Advance(Advance(x)))) == x + 0x78dde6e5fd29f054
  {
  }

  /** The words of a seeded state, unmixed, are the seed plus one to four times the golden gamma, in
    * that order.
    */
  lemma SeedRecovered(seed: Word)
    ensures Unmix(Seeded(seed).s0) == seed + 0x9e3779b97f4a7c15
    ensures Unmix(Seeded(seed).s1) == seed + 0x3c6ef372fe94f82a
    ensures Unmix(Seeded(seed).s2) == seed + 0xdaa66d2c7ddf743f
    ensures Unmix(Seeded(seed).s3) == seed + 0x78dde6e5fd29f054
  {
    AdvanceIs(seed);
    Advance2Is(seed);
    Advance3Is(seed);
    Advance4Is(seed);
    UnmixUndoesMix(Advance(seed));
    UnmixUndoesMix(Advance(Advance(seed)));
    UnmixUndoesMix(Advance(Advance(Advance(seed))));
    UnmixUndoesMix(Advance(Advance(Advance(Advance(seed)))));
  }

  /** Different seeds give different generators. */
  lemma SeedsDiffer(a: Word, b: Word)
    requires a != b
    ensures Seeded(a).s0 != Seeded(b).s0
  {
    AdvanceInjective(a, b);
    MixDiffers(Advance(a), Advance(b));
  }

  // ---- Stepping -------------------------------------------------------------

  lemma XorIs(a: Word, b: Word)
    ensures Xor(a, b) == a ^ b
  {
  }

  lemma XorTwiceRaw(a: Word, b: Word)
    ensures Xor(a ^ b, b) == a && Xor(b, a ^ b) == a && Xor(b ^ a, b) == a && Xor(b, b ^ a) == a
  {
  }

  /** Two equal operands cancel, in whatever order they stand. */
  lemma XorTwice(a: Word, b: Word)
    ensures Xor(Xor(a, b), b) == a && Xor(b, Xor(a, b)) == a && Xor(Xor(b, a), b) == a && Xor(b, Xor(b, a)) == a
  {
    XorIs(a, b);
    XorIs(b, a);
    XorTwiceRaw(a, b);
  }

  function Unfold17(y: Word): Word { y ^ (y << 17) ^ (y << 34) ^ (y << 51) }

  lemma Unfold17Raw(x: Word, a: Word)
    ensures Unfold17(Xor(x ^ a, a ^ (x << 17))) == x
  {
    assert (x ^ a) ^ (a ^ (x << 17)) == x ^ (x << 17);
    Unfold17Cancels(x);
    XorIs(x ^ a, a ^ (x << 17));
  }

  lemma Unfold17Cancels(x: Word)
    ensures Unfold17(x ^ (x << 17)) == x
  {
  }

  lemma Shl17Is(x: Word)
    ensures Shl17(x) == x << 17
  {
  }

  /** The two words that hold x shifted against itself give x back. */
  lemma Unfold17Undoes(x: Word, a: Word)
    ensures Unfold17(Xor(Xor(x, a), Xor(a, Shl17(x)))) == x
  {
    Shl17Is(x);
    XorIs(x, a);
    XorIs(a, x << 17);
    Unfold17Raw(x, a);
  }

  function Rotl19(x: Word): Word { (x << 19) | (x >> 45) }

  lemma Rotl45Is(x: Word)
    ensures Rotl45(x) == (x << 45) | (x >> 19)
  {
  }

  lemma Rotl19Cancels(x: Word)
    ensures Rotl19((x << 45) | (x >> 19)) == x
  {
  }

  lemma Rotl19Undoes(x: Word)
    ensures Rotl19(Rotl45(x)) == x
  {
    Rotl45Is(x);
    Rotl19Cancels(x);
  }

  /** One step back. */
  function Previous(t: Xoshiro): Xoshiro {
    var a3 := Rotl19(t.s3);
    var s0 := Xor(t.s0, a3);
    var s1 := Unfold17(Xor(t.s1, t.s2));
    var a2 := Xor(t.s1, s1);
    Xoshiro(s0, s1, Xor(a2, s0), Xor(a3, s1))
  }

  /** Every step can be undone: no two states have the same successor. */
  lemma PreviousUndoesNext(s: Xoshiro)
    ensures Previous(Next(s)) == s
  {
    var a2, a3 := Xor(s.s2, s.s0), Xor(s.s3, s.s1);
    Rotl19Undoes(a3);
    XorTwice(s.s0, a3);
    Unfold17Undoes(s.s1, a2);
    XorTwice(a2, s.s1);
    XorTwice(s.s2, s.s0);
    XorTwice(s.s3, s.s1);
  }

  lemma ZeroStaysZero()
    ensures Next(ZERO) == ZERO
  {
    assert (0 as Word) ^ 0 == 0;
  }

  lemma NoChange(a: Word, b: Word)
    requires Xor(a, b) == a
    ensures b == 0
  {
    XorTwice(b, a);
    assert Xor(a, a) == 0;
  }

  /** The zero state is the only one that does not change. */
  lemma OnlyZeroIsFixed(s: Xoshiro)
    requires Next(s) == s
    ensures s == ZERO
  {
    var a2, a3 := Xor(s.s2, s.s0), Xor(s.s3, s.s1);
    NoChange(s.s0, a3);
    NoChange(s.s1, a2);
    assert Rotl45(0) == 0;
    assert Xor(0, s.s1) == s.s1;
    assert Xor(0, Shl17(0)) == 0;
    assert Xor(0, s.s0) == s.s0;
  }

  function Steps(s: Xoshiro, n: nat): Xoshiro
    decreases n
  {
    if n == 0 then s else Steps(Next(s), n - 1)
  }

  /** From no state but zero does any number of steps lead to zero. */
  lemma {:induction false} StepsNeverZero(s: Xoshiro, n: nat)
    requires s != ZERO
    ensures Steps(s, n) != ZERO
    decreases n
  {
    if n > 0 {
      if Next(s) == ZERO {
        ZeroStaysZero();
        PreviousUndoesNext(s);
        PreviousUndoesNext(ZERO);
      }
      StepsNeverZero(Next(s), n - 1);
    }
  }

  /** The generator is in the all-zero state at no time, whatever it was seeded with. */
  lemma NeverAllZero(seed: Word, n: nat)
    ensures Steps(Seeded(seed), n) != ZERO
  {
    SeededWordsDiffer(seed);
    StepsNeverZero(Seeded(seed), n);
  }

  // ---- Output in bytes ------------------------------------------------------

  /** Byte j of a word as `memcpy` finds it on a little-endian machine. */
  function ByteOf(v: Word, j: nat): bv8
    requires j < 8
  {
    if j == 0 then (v & 0xff) as bv8 else ByteOf(v >> 8, j - 1)
  }

  function WordBytes(v: Word, n: nat): (b: seq<bv8>)
    requires n <= 8
    ensures |b| == n
  {
    seq(n, j requires 0 <= j < n => ByteOf(v, j))
  }

  function Chunk(sz: nat): (n: nat)
    ensures n <= 8 && n <= sz && (sz > 0 ==> n > 0)
  {
    if sz < 8 then sz else 8
  }

  /** What `random` writes for `sz` bytes, and the state it leaves. */
  function Bytes(s: Xoshiro, sz: nat): (b: seq<bv8>)
    ensures |b| == sz
    decreases sz
  {
    if sz == 0 then []
    else WordBytes(Output(s), Chunk(sz)) + Bytes(Next(s), sz - Chunk(sz))
  }

  function After(s: Xoshiro, sz: nat): Xoshiro
    decreases sz
  {
    if sz == 0 then s else After(Next(s), sz - Chunk(sz))
  }

  /** Steps taken: one for each eight bytes or part of them. */
  function Draws(sz: nat): nat {
    (sz + 7) / 8
  }

  lemma {:induction false} AfterIsSteps(s: Xoshiro, sz: nat)
    ensures After(s, sz) == Steps(s, Draws(sz))
    decreases sz
  {
    if sz > 0 {
      AfterIsSteps(Next(s), sz - Chunk(sz));
      assert Draws(sz - Chunk(sz)) == Draws(sz) - 1;
    }
  }

  /** Drawing a multiple of eight bytes and then more is drawing all of them at once. */
  lemma {:induction false} SplitAtWords(s: Xoshiro, a: nat, b: nat)
    requires a % 8 == 0
    ensures Bytes(s, a + b) == Bytes(s, a) + Bytes(After(s, a), b)
    ensures After(s, a + b) == After(After(s, a), b)
    decreases a
  {
    if a > 0 {
      FirstWord(s, a);
      FirstWord(s, a + b);
      SplitAtWords(Next(s), a - 8, b);
      assert a + b - 8 == (a - 8) + b;
    }
  }

  lemma FirstWord(s: Xoshiro, sz: nat)
    requires sz > 0
    ensures Bytes(s, sz) == WordBytes(Output(s), Chunk(sz)) + Bytes(Next(s), sz - Chunk(sz))
    ensures After(s, sz) == After(Next(s), sz - Chunk(sz))
  {
  }

  lemma {:induction false} StepsAdd(s: Xoshiro, m: nat, n: nat)
    ensures Steps(Steps(s, m), n) == Steps(s, m + n)
    decreases m
  {
    if m > 0 {
      StepsAdd(Next(s), m - 1, n);
    }
  }

  /** For other splits the state agrees exactly when the two requests together need no more
    * words than the one; when they do, it is one step ahead.
    */
  lemma SplitStateExactlyWhen(seed: Word, k: nat, a: nat, b: nat)
    ensures var s := Steps(Seeded(seed), k);
            After(After(s, a), b) == After(s, a + b) <==> Draws(a) + Draws(b) == Draws(a + b)
  {
    var s := Steps(Seeded(seed), k);
    AfterIsSteps(s, a);
    AfterIsSteps(After(s, a), b);
    AfterIsSteps(s, a + b);
    StepsAdd(s, Draws(a), Draws(b));
    if Draws(a) + Draws(b) != Draws(a + b) {
      assert Draws(a) + Draws(b) == Draws(a + b) + 1;
      StepsAdd(s, Draws(a + b), 1);
      StepsAdd(Seeded(seed), k, Draws(a + b));
      NeverAllZero(seed, k + Draws(a + b));
      var t := Steps(s, Draws(a + b));
      assert Steps(t, 1) == Next(t) by {
        assert Steps(Next(t), 0) == Next(t);
      }
      if Next(t) == t {
        OnlyZeroIsFixed(t);
      }
    }
  }

  lemma WordByteAt(v: Word, n: nat, j: nat)
    requires j < n <= 8
    ensures WordBytes(v, n)[j] == ByteOf(v, j)
  {
  }

  lemma NextEight(i: nat)
    requires i >= 8
    ensures i / 8 == (i - 8) / 8 + 1 && i % 8 == (i - 8) % 8
  {
  }

  /** Byte `i` of a draw is byte `i % 8` of the word that `i / 8` steps lead to, whatever the size. */
  lemma {:induction false} BytesAreWords(s: Xoshiro, sz: nat, i: nat)
    requires i < sz
    ensures Bytes(s, sz)[i] == ByteOf(Output(Steps(s, i / 8)), i % 8)
    decreases sz
  {
    FirstWord(s, sz);
    if i < 8 {
      WordByteAt(Output(s), Chunk(sz), i);
    } else {
      BytesAreWords(Next(s), sz - 8, i - 8);
      NextEight(i);
      assert Steps(s, i / 8) == Steps(Next(s), (i - 8) / 8);
    }
  }

  function LowByte(v: Word): bv8 { (v & 0xff) as bv8 }

  function HighBytes(v: Word): Word { v >> 8 }

  function Join(b: bv8, w: Word): Word { (b as Word) | (w << 8) }

  /** The number that bytes spell, the least significant first. */
  function Spelled(b: seq<bv8>): Word {
    if b == [] then 0 else Join(b[0], Spelled(b[1..]))
  }

  lemma JoinRaw(v: Word)
    ensures (((v & 0xff) as bv8) as Word) | ((v >> 8) << 8) == v
  {
  }

  lemma JoinSplit(v: Word)
    ensures Join(LowByte(v), HighBytes(v)) == v
  {
    JoinRaw(v);
  }

  lemma FirstByte(v: Word, n: nat)
    requires 0 < n <= 8
    ensures WordBytes(v, n) == [LowByte(v)] + WordBytes(HighBytes(v), n - 1)
  {
  }

  lemma SpelledNext(b: bv8, rest: seq<bv8>)
    ensures Spelled([b] + rest) == Join(b, Spelled(rest))
  {
    assert ([b] + rest)[1..] == rest;
  }

  /** Nothing is left of the word beyond `n` bytes. */
  predicate FitsIn(v: Word, n: nat) {
    if n == 0 then v == 0 else FitsIn(HighBytes(v), n - 1)
  }

  lemma FitsRaw(v: Word)
    ensures ((((((((v >> 8) >> 8) >> 8) >> 8) >> 8) >> 8) >> 8) >> 8) == 0
  {
  }

  lemma EightBytesFit(v: Word)
    ensures FitsIn(v, 8)
  {
    var v2 := HighBytes(HighBytes(v));
    var v4 := HighBytes(HighBytes(v2));
    var v6 := HighBytes(HighBytes(v4));
    FitsRaw(v);
    assert FitsIn(HighBytes(HighBytes(v6)), 0);
    assert FitsIn(v6, 2);
    assert FitsIn(v4, 4);
    assert FitsIn(v2, 6);
  }

  /** The first byte is the least significant one: a word that fits into `n` bytes is spelled by them. */
  lemma {:induction false} BytesSpellWord(v: Word, n: nat)
    requires n <= 8 && FitsIn(v, n)
    ensures Spelled(WordBytes(v, n)) == v
  {
    if n > 0 {
      BytesSpellWord(HighBytes(v), n - 1);
      FirstByte(v, n);
      SpelledNext(LowByte(v), WordBytes(HighBytes(v), n - 1));
      JoinSplit(v);
    }
  }

  /** A whole word comes back from its eight bytes. */
  lemma EightBytesSpellWord(v: Word)
    ensures Spelled(WordBytes(v, 8)) == v
  {
    EightBytesFit(v);
    BytesSpellWord(v, 8);
  }

  /** Moving the next word from what is to come to what is there. */
  lemma TakeWord(done: seq<bv8>, s: Xoshiro, sz: nat)
    requires sz > 0
    ensures done + Bytes(s, sz) == done + WordBytes(Output(s), Chunk(sz)) + Bytes(Next(s), sz - Chunk(sz))
    ensures After(s, sz) == After(Next(s), sz - Chunk(sz))
  {
    FirstWord(s, sz);
  }

  // ---- Seeding from a key ---------------------------------------------------

  const FNV_BASIS: Word := 0xcbf29ce484222325

  function TimesPrime(h: Word): Word { h * 0x100000001b3 }

  /** One round of FNV-1a. */
  function Absorb(h: Word, b: KeyByte): Word {
    TimesPrime(Xor(h, b))
  }

  function Hash(h: Word, key: seq<KeyByte>): Word {
    if key == [] then h else Absorb(Hash(h, key[..|key| - 1]), key[|key| - 1])
  }

  function UnTimesPrime(y: Word): Word { y * 0xce965057aff6957b }

  lemma TimesPrimeIs(h: Word)
    ensures TimesPrime(h) == h * 0x100000001b3
  {
  }

  lemma UnTimesPrimeCancels(h: Word)
    ensures UnTimesPrime(h * 0x100000001b3) == h
  {
  }

  lemma UndoTimesPrime(h: Word)
    ensures UnTimesPrime(TimesPrime(h)) == h
  {
    TimesPrimeIs(h);
    UnTimesPrimeCancels(h);
  }

  /** A round changes with the hash so far and with the byte. */
  lemma AbsorbDiffers(h: Word, h': Word, b: KeyByte, b': KeyByte)
    requires (h == h') != (b == b')
    ensures Absorb(h, b) != Absorb(h', b')
  {
    UndoTimesPrime(Xor(h, b));
    UndoTimesPrime(Xor(h', b'));
    XorTwice(h, b);
    XorTwice(h', b');
    XorTwice(b, h);
    XorTwice(b', h');
  }

  lemma {:induction false} HashDiffers(h: Word, h': Word, key: seq<KeyByte>)
    requires h != h'
    ensures Hash(h, key) != Hash(h', key)
  {
    if key != [] {
      HashDiffers(h, h', key[..|key| - 1]);
      AbsorbDiffers(Hash(h, key[..|key| - 1]), Hash(h', key[..|key| - 1]), key[|key| - 1], key[|key| - 1]);
    }
  }

  lemma {:induction false} HashConcat(h: Word, a: seq<KeyByte>, b: seq<KeyByte>)
    ensures Hash(h, a + b) == Hash(Hash(h, a), b)
  {
    if b == [] {
      assert a + b == a;
    } else {
      HashConcat(h, a, b[..|b| - 1]);
      assert (a + b)[..|a + b| - 1] == a + b[..|b| - 1];
    }
  }

  /** The rounds undone, last byte first. */
  function Unhash(h: Word, key: seq<KeyByte>): Word
    decreases |key|
  {
    if key == [] then h else Unhash(Xor(UnTimesPrime(h), key[|key| - 1]), key[..|key| - 1])
  }

  /** Every key's hash leads back to the offset basis of 64-bit FNV-1a. */
  lemma {:induction false} UnhashUndoesHash(key: seq<KeyByte>)
    ensures Unhash(Hash(FNV_BASIS, key), key) == 0xcbf29ce484222325
  {
    if key != [] {
      var h, b := Hash(FNV_BASIS, key[..|key| - 1]), key[|key| - 1];
      UndoTimesPrime(Xor(h, b));
      XorTwice(h, b);
      UnhashUndoesHash(key[..|key| - 1]);
    }
  }

  /** Two keys that differ in exactly one byte never give the same generator. */
  lemma OneByteMatters(a: seq<KeyByte>, x: KeyByte, y: KeyByte, b: seq<KeyByte>)
    requires x != y
    ensures Seeded(Hash(FNV_BASIS, a + [x] + b)) != Seeded(Hash(FNV_BASIS, a + [y] + b))
  {
    var h := Hash(FNV_BASIS, a);
    HashConcat(FNV_BASIS, a + [x], b);
    HashConcat(FNV_BASIS, a + [y], b);
    assert (a + [x])[..|a|] == a && (a + [y])[..|a|] == a;
    AbsorbDiffers(h, h, x, y);
    HashDiffers(Absorb(h, x), Absorb(h, y), b);
    SeedsDiffer(Hash(FNV_BASIS, a + [x] + b), Hash(FNV_BASIS, a + [y] + b));
  }

  // ---- The generator --------------------------------------------------------

  class Generator {
    const s: array<Word>

    ghost predicate Valid() {
      s.Length == 4
    }

    ghost function State(): Xoshiro
      requires Valid()
      reads s
    {
      Xoshiro(s[0], s[1], s[2], s[3])
    }

    /** Without a key the seed is zero. */
    constructor ()
      ensures Valid() && fresh(s)
      ensures State() == Seeded(0)
    {
      s := new Word[4](_ => 0);
      new;
      Seed(0);
    }

    method Splitmix64(state: Word) returns (state': Word, z: Word)
      ensures state' == Advance(state)
      ensures z == Mix(state')
    {
      state' := Advance(state);
      z := Times1(XorShift30(state'));
      z := Times2(XorShift27(z));
      z := XorShift31(z);
    }

    method Seed(seed: Word)
      requires Valid()
      modifies s
      ensures State() == Seeded(seed)
    {
      var sm := seed;
      sm, s[0] := Splitmix64(sm);
      sm, s[1] := Splitmix64(sm);
      sm, s[2] := Splitmix64(sm);
      sm, s[3] := Splitmix64(sm);
    }

    method SeedFromKey(key: seq<KeyByte>)
      requires Valid()
      modifies s
      ensures State() == Seeded(Hash(FNV_BASIS, key))
    {
      var h := FNV_BASIS;
      for i := 0 to |key|
        invariant h == Hash(FNV_BASIS, key[..i])
      {
        assert key[..i + 1][..i] == key[..i];
        h := Xor(h, key[i]);
        h := TimesPrime(h);
      }
      assert key[..|key|] == key;
      Seed(h);
    }

    /** `xoshiro256ss` */
    method Step() returns (result: Word)
      requires Valid()
      modifies s
      ensures result == Output(old(State())) && State() == Next(old(State()))
    {
      result := Scramble(s[1]);
      var t := Shl17(s[1]);
      s[2] := Xor(s[2], s[0]);
      s[3] := Xor(s[3], s[1]);
      s[1] := Xor(s[1], s[2]);
      s[0] := Xor(s[0], s[3]);
      s[2] := Xor(s[2], t);
      s[3] := Rotl45(s[3]);
    }

    /** The first bytes of a word, as `memcpy` leaves them. */
    method WriteWord(dest: array<bv8>, i: nat, n: nat, val: Word)
      requires n <= 8 && i + n <= dest.Length
      modifies dest
      ensures dest[..i] == old(dest[..i]) && dest[i..i + n] == WordBytes(val, n)
    {
      for j := 0 to n
        invariant dest[..i] == old(dest[..i])
        invariant dest[i..i + j] == WordBytes(val, j)
      {
        dest[i + j] := ByteOf(val, j);
      }
    }

    /** One turn of the loop of `random`: the next word, or the part of it that is left to write. */
    method WriteNext(dest: array<bv8>, i: nat) returns (i': nat)
      requires Valid() && i < dest.Length
      modifies s, dest
      ensures i' == i + Chunk(dest.Length - i) && State() == Next(old(State()))
      ensures dest[..i'] == old(dest[..i]) + WordBytes(Output(old(State())), i' - i)
    {
      var val := Step();
      var remaining := dest.Length - i;
      var chunk := if remaining < 8 then remaining else 8;
      ghost var state := State();
      WriteWord(dest, i, chunk, val);
      assert State() == state;
      i' := i + chunk;
      assert dest[..i'] == dest[..i] + dest[i..i + chunk];
    }

    /** `random` */
    method Random(dest: array<bv8>)
      requires Valid()
      modifies s, dest
      ensures dest[..] == Bytes(old(State()), dest.Length)
      ensures State() == After(old(State()), dest.Length)
    {
      var i := 0;
      while i < dest.Length
        invariant 0 <= i <= dest.Length
        invariant dest[..i] + Bytes(State(), dest.Length - i) == Bytes(old(State()), dest.Length)
        invariant After(State(), dest.Length - i) == After(old(State()), dest.Length)
      {
        ghost var done, state, left := dest[..i], State(), dest.Length - i;
        i := WriteNext(dest, i);
        TakeWord(done, state, left);
      }
      assert dest[..dest.Length] == dest[..];
    }
  }
}
