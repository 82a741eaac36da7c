/** The streaming Base64 decoder against the encoding of section 4 of RFC 4648. */
module Base64 {
  import opened Common

  type Sextet = v: int | 0 <= v < 64

  // ---- The alphabet ---------------------------------------------------------

  /** The decoder's table: -1 for every byte outside the alphabet. */
  function Table(c: Byte): (v: int)
    ensures -1 <= v < 64
  {
    if c == 43 then 62                        // '+'
    else if c == 47 then 63                   // '/'
    else if 48 <= c <= 57 then c - 48 + 52    // '0'..'9'
    else if 65 <= c <= 90 then c - 65         // 'A'..'Z'
    else if 97 <= c <= 122 then c - 97 + 26   // 'a'..'z'
    else -1
  }

  /** Table 1 of RFC 4648: the character of a six-bit value. */
  function Char(v: Sextet): Byte {
    if v < 26 then 65 + v
    else if v < 52 then 97 + (v - 26)
    else if v < 62 then 48 + (v - 52)
    else if v == 62 then 43
    else 47
  }

  const PAD: Byte := 61

  lemma TableInvertsChar(v: Sextet, c: Byte)
    ensures Table(Char(v)) == v && Table(PAD) == -1
    ensures Table(c) >= 0 ==> Char(Table(c)) == c
  {
  }

  /** Upper case, lower case, digits, plus and slash, and the equals sign as padding. */
  lemma AlphabetLaw(v: Sextet)
    ensures 0 <= v <= 25 ==> Char(v) == 'A' as int + v
    ensures 26 <= v <= 51 ==> Char(v) == 'a' as int + v - 26
    ensures 52 <= v <= 61 ==> Char(v) == '0' as int + v - 52
    ensures v == 62 ==> Char(v) == '+' as int
    ensures v == 63 ==> Char(v) == '/' as int
    ensures PAD == '=' as int
  {
  }

  /** The values of the alphabet characters of a text, all else left out. */
  function Sextets(text: seq<Byte>): seq<Sextet> {
    if text == [] then []
    else Sextets(text[..|text| - 1]) + (if Table(text[|text| - 1]) < 0 then [] else [Table(text[|text| - 1])])
  }

  lemma {:induction false} SextetsConcat(a: seq<Byte>, b: seq<Byte>)
    ensures Sextets(a + b) == Sextets(a) + Sextets(b)
  {
    if b == [] {
      assert a + b == a;
    } else {
      SextetsConcat(a, b[..|b| - 1]);
      assert (a + b)[..|a + b| - 1] == a + b[..|b| - 1];
    }
  }

  // ---- The bit stream -------------------------------------------------------

  /** Decoder state: bytes written, and `bits` bits waiting in `accum`. */
  datatype Stream = Stream(out: seq<Byte>, accum: nat, bits: nat)

  function Feed(s: Stream, v: Sextet): Stream {
    var accum, bits := s.accum * 64 + v, s.bits + 6;
    if bits >= 8 then Stream(s.out + [(accum / Pow2(bits - 8)) % 256], accum % Pow2(bits - 8), bits - 8)
    else Stream(s.out, accum, bits)
  }

  function FeedAll(s: Stream, vs: seq<Sextet>): Stream {
    if vs == [] then s else Feed(FeedAll(s, vs[..|vs| - 1]), vs[|vs| - 1])
  }

  const START := Stream([], 0, 0)

  function Decoded(text: seq<Byte>): seq<Byte> {
    FeedAll(START, Sextets(text)).out
  }

  lemma {:induction false} FeedAllConcat(s: Stream, a: seq<Sextet>, b: seq<Sextet>)
    ensures FeedAll(s, a + b) == FeedAll(FeedAll(s, a), b)
  {
    if b == [] {
      assert a + b == a;
    } else {
      FeedAllConcat(s, a, b[..|b| - 1]);
      assert (a + b)[..|a + b| - 1] == a + b[..|b| - 1];
    }
  }

  // ---- What the stream amounts to -------------------------------------------

  function Number(digits: seq<nat>, base: nat): nat {
    if digits == [] then 0 else Number(digits[..|digits| - 1], base) * base + digits[|digits| - 1]
  }

  /** Fewer than eight bits wait, and they fit in `accum`. */
  ghost predicate Tight(s: Stream) {
    s.bits < 8 && s.accum < Pow2(s.bits)
  }

  lemma SmallPowers()
    ensures Pow2(0) == 1 && Pow2(1) == 2 && Pow2(2) == 4 && Pow2(3) == 8
    ensures Pow2(4) == 16 && Pow2(5) == 32 && Pow2(6) == 64 && Pow2(7) == 128
  {
    assert Pow2(3) == 8;
    assert Pow2(5) == 32;
  }

  lemma DivMod(a: nat, p: nat, k: nat)
    requires p > 0 && a < k * p
    ensures a / p < k && a == (a / p) * p + a % p && a % p < p
  {
  }

  lemma FeedTight(s: Stream, v: Sextet)
    requires Tight(s)
    ensures Tight(Feed(s, v))
    ensures s.accum * 64 + v < 0x1_0000_0000
  {
    SmallPowers();
  }

  lemma EmitArithmetic(m: nat, a: nat, v: nat, p: nat, q: nat, r: nat)
    requires a * 64 + v == q * p + r
    ensures (m * (4 * p) + a) * 64 + v == (m * 256 + q) * p + r
  {
    assert m * (4 * p) * 64 == m * 256 * p;
    assert (m * 256 + q) * p == m * 256 * p + q * p;
  }

  lemma WaitArithmetic(m: nat, a: nat, v: nat, p: nat)
    ensures (m * p + a) * 64 + v == m * (64 * p) + (a * 64 + v)
  {
    assert m * (64 * p) == m * p * 64;
  }

  ghost function Value(s: Stream): nat {
    Number(s.out, 256) * Pow2(s.bits) + s.accum
  }

  lemma NumberSnoc(digits: seq<nat>, d: nat, base: nat)
    ensures Number(digits + [d], base) == Number(digits, base) * base + d
  {
    assert (digits + [d])[..|digits|] == digits;
  }

  lemma EmitNumber(s: Stream, v: Sextet)
    requires Tight(s) && s.bits >= 2
    ensures Value(Feed(s, v)) == Value(s) * 64 + v
  {
    var p := Pow2(s.bits - 2);
    assert Pow2(s.bits) == 4 * p;
    var q, r := FeedSplits(s, v, p);
    EmitValue(s, v, p, q, r);
  }

  /** Quotient goes out, remainder stays. */
  lemma FeedSplits(s: Stream, v: Sextet, p: nat) returns (q: Byte, r: nat)
    requires s.bits >= 2 && Pow2(s.bits - 2) == p && p > 0 && s.accum < 4 * p
    ensures Feed(s, v) == Stream(s.out + [q], r, s.bits - 2) && s.accum * 64 + v == q * p + r
  {
    var accum := s.accum * 64 + v;
    DivMod(accum, p, 256);
    q, r := accum / p, accum % p;
    FeedDigit(s, v, p, q, r);
  }

  /** One byte out, given quotient and remainder. */
  lemma FeedDigit(s: Stream, v: Sextet, p: nat, q: Byte, r: nat)
    requires s.bits >= 2 && Pow2(s.bits - 2) == p
    requires q == (s.accum * 64 + v) / p && r == (s.accum * 64 + v) % p
    ensures Feed(s, v) == Stream(s.out + [q], r, s.bits - 2)
  {
  }

  lemma EmitValue(s: Stream, v: Sextet, p: nat, q: Byte, r: nat)
    requires s.bits >= 2 && Pow2(s.bits) == 4 * p && Pow2(s.bits - 2) == p
    requires s.accum * 64 + v == q * p + r
    ensures Value(Stream(s.out + [q], r, s.bits - 2)) == Value(s) * 64 + v
  {
    EmitArithmetic(Number(s.out, 256), s.accum, v, p, q, r);
    NumberSnoc(s.out, q, 256);
  }

  lemma WaitNumber(s: Stream, v: Sextet)
    requires Tight(s) && s.bits < 2
    ensures Value(Feed(s, v)) == Value(s) * 64 + v
  {
    SmallPowers();
    WaitArithmetic(Number(s.out, 256), s.accum, v, Pow2(s.bits));
  }

  /** After k characters the decoder has written the whole bytes of their 6k bits and holds the
    * rest: read as one number, bytes and rest are the number the characters spell.
    */
  lemma {:induction false} StreamIsNumber(vs: seq<Sextet>)
    ensures var s := FeedAll(START, vs);
            Tight(s) && |s.out| == 6 * |vs| / 8 && s.bits == 6 * |vs| % 8 &&
            Value(s) == Number(vs, 64)
  {
    if vs != [] {
      var s := FeedAll(START, vs[..|vs| - 1]);
      StreamIsNumber(vs[..|vs| - 1]);
      FeedTight(s, vs[|vs| - 1]);
      if s.bits >= 2 {
        EmitNumber(s, vs[|vs| - 1]);
      } else {
        WaitNumber(s, vs[|vs| - 1]);
      }
    }
  }

  /** Those bytes are the only ones with that number. */
  lemma {:induction false} NumberDeterminesBytes(a: seq<Byte>, b: seq<Byte>)
    requires |a| == |b| && Number(a, 256) == Number(b, 256)
    ensures a == b
  {
    if a != [] {
      var n := |a| - 1;
      LastDigit(Number(a[..n], 256), a[n], Number(b[..n], 256), b[n]);
      NumberDeterminesBytes(a[..n], b[..n]);
      assert a == a[..n] + [a[n]] && b == b[..n] + [b[n]];
    }
  }

  lemma LastDigit(p: nat, x: Byte, q: nat, y: Byte)
    requires p * 256 + x == q * 256 + y
    ensures p == q && x == y
  {
  }

  // ---- Round trip -----------------------------------------------------------

  /** The six-bit values section 4 of RFC 4648 cuts a byte string into. */
  function Cut(b: seq<Byte>): seq<Sextet> {
    if b == [] then []
    else if |b| == 1 then Two(b[0])
    else if |b| == 2 then Three(b[0], b[1])
    else Four(b[0], b[1], b[2]) + Cut(b[3..])
  }

  function Two(x: Byte): seq<Sextet> {
    [x / 4, x % 4 * 16]
  }

  function Three(x: Byte, y: Byte): seq<Sextet> {
    [x / 4, x % 4 * 16 + y / 16, y % 16 * 4]
  }

  function Four(x: Byte, y: Byte, z: Byte): seq<Sextet> {
    [x / 4, x % 4 * 16 + y / 16, y % 16 * 4 + z / 64, z % 64]
  }

  function Chars(vs: seq<Sextet>): (text: seq<Byte>)
    ensures |text| == |vs|
  {
    seq(|vs|, i requires 0 <= i < |vs| => Char(vs[i]))
  }

  /** The encoding, with or without the padding that completes the last group of four. */
  function Encoded(b: seq<Byte>, padded: bool): seq<Byte> {
    Chars(Cut(b)) + if !padded || |b| % 3 == 0 then [] else if |b| % 3 == 1 then [PAD, PAD] else [PAD]
  }

  lemma {:induction false} CharsSextets(vs: seq<Sextet>)
    ensures Sextets(Chars(vs)) == vs
  {
    if vs != [] {
      var n := |vs| - 1;
      CharsSextets(vs[..n]);
      assert Chars(vs)[..n] == Chars(vs[..n]);
      TableInvertsChar(vs[n], 0);
      assert vs == vs[..n] + [vs[n]];
    }
  }

  lemma PaddingIsNothing(pad: seq<Byte>)
    requires pad == [] || pad == [PAD] || pad == [PAD, PAD]
    ensures Sextets(pad) == []
  {
    assert [PAD, PAD][..1] == [PAD] && [PAD][..0] == [];
    assert Sextets([PAD]) == [];
  }

  lemma EncodedSextets(b: seq<Byte>, padded: bool)
    ensures Sextets(Encoded(b, padded)) == Cut(b)
  {
    var pad := if !padded || |b| % 3 == 0 then [] else if |b| % 3 == 1 then [PAD, PAD] else [PAD];
    CharsSextets(Cut(b));
    SextetsConcat(Chars(Cut(b)), pad);
    PaddingIsNothing(pad);
  }

  /** The four states a group of four characters goes through. */
  lemma FeedGroup(out: seq<Byte>, x: Byte, y: Byte, z: Byte)
    ensures Feed(Stream(out, 0, 0), x / 4) == Stream(out, x / 4, 6)
    ensures Feed(Stream(out, x / 4, 6), x % 4 * 16 + y / 16) == Stream(out + [x], y / 16, 4)
    ensures Feed(Stream(out, y / 16, 4), y % 16 * 4 + z / 64) == Stream(out + [y], z / 64, 2)
    ensures Feed(Stream(out, z / 64, 2), z % 64) == Stream(out + [z], 0, 0)
  {
    SmallPowers();
    FeedDigit(Stream(out, x / 4, 6), x % 4 * 16 + y / 16, 16, x, y / 16);
    FeedDigit(Stream(out, y / 16, 4), y % 16 * 4 + z / 64, 4, y, z / 64);
    FeedDigit(Stream(out, z / 64, 2), z % 64, 1, z, 0);
  }

  lemma FeedAllNext(s: Stream, vs: seq<Sextet>, v: Sextet)
    ensures FeedAll(s, vs + [v]) == Feed(FeedAll(s, vs), v)
  {
    assert (vs + [v])[..|vs|] == vs;
  }

  lemma FeedTwo(out: seq<Byte>, x: Byte)
    ensures FeedAll(Stream(out, 0, 0), Two(x)).out == out + [x]
  {
    var s := Stream(out, 0, 0);
    FeedGroup(out, x, 0, 0);
    FeedAllNext(s, [], x / 4);
    FeedAllNext(s, [x / 4], x % 4 * 16);
    assert [] + [x / 4] == [x / 4] && [x / 4] + [x % 4 * 16] == Two(x);
  }

  lemma FeedThree(out: seq<Byte>, x: Byte, y: Byte)
    ensures FeedAll(Stream(out, 0, 0), Three(x, y)).out == out + [x, y]
  {
    var s, a, b, c := Stream(out, 0, 0), x / 4, x % 4 * 16 + y / 16, y % 16 * 4;
    FeedGroup(out, x, y, 0);
    FeedGroup(out + [x], x, y, 0);
    FeedAllNext(s, [], a);
    FeedAllNext(s, [a], b);
    FeedAllNext(s, [a, b], c);
    assert [] + [a] == [a] && [a] + [b] == [a, b] && [a, b] + [c] == Three(x, y);
    assert out + [x] + [y] == out + [x, y];
  }

  lemma FeedFour(out: seq<Byte>, x: Byte, y: Byte, z: Byte)
    ensures FeedAll(Stream(out, 0, 0), Four(x, y, z)) == Stream(out + [x, y, z], 0, 0)
  {
    var s, a, b, c, d := Stream(out, 0, 0), x / 4, x % 4 * 16 + y / 16, y % 16 * 4 + z / 64, z % 64;
    FeedGroup(out, x, y, z);
    FeedGroup(out + [x], x, y, z);
    FeedGroup(out + [x, y], x, y, z);
    FeedAllNext(s, [], a);
    FeedAllNext(s, [a], b);
    FeedAllNext(s, [a, b], c);
    FeedAllNext(s, [a, b, c], d);
    assert [] + [a] == [a] && [a] + [b] == [a, b] && [a, b] + [c] == [a, b, c] && [a, b, c] + [d] == Four(x, y, z);
    assert out + [x] + [y] == out + [x, y] && out + [x, y] + [z] == out + [x, y, z];
  }

  lemma FeedFourThen(out: seq<Byte>, x: Byte, y: Byte, z: Byte, rest: seq<Sextet>)
    ensures FeedAll(Stream(out, 0, 0), Four(x, y, z) + rest) == FeedAll(Stream(out + [x, y, z], 0, 0), rest)
  {
    FeedFour(out, x, y, z);
    FeedAllConcat(Stream(out, 0, 0), Four(x, y, z), rest);
  }

  lemma FeedOneByte(out: seq<Byte>, b: seq<Byte>)
    requires |b| == 1
    ensures FeedAll(Stream(out, 0, 0), Cut(b)).out == out + b
  {
    FeedTwo(out, b[0]);
    assert b == [b[0]] && Cut(b) == Two(b[0]);
  }

  lemma FeedTwoBytes(out: seq<Byte>, b: seq<Byte>)
    requires |b| == 2
    ensures FeedAll(Stream(out, 0, 0), Cut(b)).out == out + b
  {
    FeedThree(out, b[0], b[1]);
    assert b == [b[0], b[1]] && Cut(b) == Three(b[0], b[1]);
  }

  lemma {:induction false} FeedCut(out: seq<Byte>, b: seq<Byte>)
    ensures FeedAll(Stream(out, 0, 0), Cut(b)).out == out + b
    decreases |b|
  {
    if |b| == 0 {
    } else if |b| == 1 {
      FeedOneByte(out, b);
    } else if |b| == 2 {
      FeedTwoBytes(out, b);
    } else {
      FeedFourThen(out, b[0], b[1], b[2], Cut(b[3..]));
      FeedCut(out + [b[0], b[1], b[2]], b[3..]);
      assert out + [b[0], b[1], b[2]] + b[3..] == out + b;
    }
  }

  /** Decoding the encoding of any byte string gives it back, padded or not, and also with any
    * characters outside the alphabet strewn in.
    */
  lemma DecodeInvertsEncode(b: seq<Byte>, padded: bool, text: seq<Byte>)
    requires Sextets(text) == Sextets(Encoded(b, padded))
    ensures Decoded(Encoded(b, padded)) == b && Decoded(text) == b
  {
    EncodedSextets(b, padded);
    FeedCut([], b);
  }

  // ---- The decoder ----------------------------------------------------------

  /** The length of what a text decodes to. */
  function DecodedLength(text: seq<Byte>): nat {
    6 * |Sextets(text)| / 8
  }

  lemma DecodedHasLength(text: seq<Byte>)
    ensures |Decoded(text)| == DecodedLength(text)
  {
    StreamIsNumber(Sextets(text));
  }

  lemma NextSextet(text: seq<Byte>, i: nat)
    requires i < |text|
    ensures Sextets(text[..i + 1]) == Sextets(text[..i]) + (if Table(text[i]) < 0 then [] else [Table(text[i])])
    ensures |Sextets(text[..i + 1])| <= |Sextets(text)|
  {
    assert text[..i + 1][..i] == text[..i];
    assert text == text[..i + 1] + text[i + 1..];
    SextetsConcat(text[..i + 1], text[i + 1..]);
  }

  lemma StripPad(text: seq<Byte>, n: nat)
    requires 0 < n <= |text| && text[n - 1] == PAD
    ensures Sextets(text[..n - 1]) == Sextets(text[..n])
  {
    assert text[..n][..n - 1] == text[..n - 1];
  }

  lemma FeedStep(vs: seq<Sextet>, v: Sextet)
    ensures FeedAll(START, vs + [v]) == Feed(FeedAll(START, vs), v)
    ensures Tight(FeedAll(START, vs)) && FeedAll(START, vs).accum * 64 + v < 0x1_0000_0000
    ensures |FeedAll(START, vs + [v]).out| == 6 * (|vs| + 1) / 8
  {
    assert (vs + [v])[..|vs|] == vs;
    StreamIsNumber(vs);
    StreamIsNumber(vs + [v]);
    FeedTight(FeedAll(START, vs), v);
  }

  /** The stream after the first i characters of a text. */
  function StreamAt(text: seq<Byte>, i: nat): Stream
    requires i <= |text|
  {
    FeedAll(START, Sextets(text[..i]))
  }

  lemma NextCharacter(text: seq<Byte>, i: nat)
    requires i < |text|
    ensures Tight(StreamAt(text, i))
    ensures Table(text[i]) < 0 ==> StreamAt(text, i + 1) == StreamAt(text, i)
    ensures Table(text[i]) >= 0 ==>
              StreamAt(text, i + 1) == Feed(StreamAt(text, i), Table(text[i])) &&
              (StreamAt(text, i).bits >= 2 ==> |StreamAt(text, i).out| < DecodedLength(text))
  {
    NextSextet(text, i);
    if Table(text[i]) >= 0 {
      FeedStep(Sextets(text[..i]), Table(text[i]));
    } else {
      StreamIsNumber(Sextets(text[..i]));
      assert Sextets(text[..i]) + [] == Sextets(text[..i]);
    }
  }

  /** Stripping trailing padding takes no alphabet character away. */
  method StripPadding(input: seq<Byte>) returns (inputLen: nat)
    ensures inputLen <= |input| && Sextets(input[..inputLen]) == Sextets(input)
    ensures inputLen > 0 ==> input[inputLen - 1] != PAD
  {
    inputLen := |input|;
    assert input[..|input|] == input;
    while inputLen > 0 && input[inputLen - 1] == PAD
      invariant 0 <= inputLen <= |input|
      invariant Sextets(input[..inputLen]) == Sextets(input)
    {
      StripPad(input, inputLen);
      inputLen := inputLen - 1;
    }
  }

  /** One alphabet character: the decoder's state moves on, at most one byte is written. */
  method Consume(output: array<Byte>, outLen: nat, accum: nat, bits: nat, val: Sextet)
    returns (outLen': nat, accum': nat, bits': nat)
    requires outLen <= output.Length && Tight(Stream(output[..outLen], accum, bits))
    requires bits >= 2 ==> outLen < output.Length
    modifies output
    ensures outLen <= outLen' <= output.Length
    ensures Stream(output[..outLen'], accum', bits') == Feed(Stream(old(output[..outLen]), accum, bits), val)
    ensures forall k :: outLen' <= k < output.Length ==> output[k] == old(output[k])
  {
    ghost var s := Stream(output[..outLen], accum, bits);
    FeedTight(s, val);
    outLen' := outLen;
    accum' := (accum * 64 + val) % 0x1_0000_0000;
    bits' := bits + 6;
    if bits' >= 8 {
      bits' := bits' - 8;
      var b := (accum' / Pow2(bits')) % 256;
      output[outLen'] := b;
      outLen' := outLen' + 1;
      assert output[..outLen'] == s.out + [b];
      accum' := accum' % Pow2(bits');
    }
  }

  /** `decode_base64`: writes to `output`, returns how many bytes. */
  method DecodeBase64(input: seq<Byte>, output: array<Byte>) returns (outLen: nat)
    requires output.Length >= DecodedLength(input)
    modifies output
    ensures outLen == DecodedLength(input)
    ensures output[..outLen] == Decoded(input)
    ensures forall k :: outLen <= k < output.Length ==> output[k] == old(output[k])
  {
    var inputLen := StripPadding(input);
    outLen := 0;
    var accum, bits := 0, 0;
    assert input[..0] == [] && output[..0] == [];
    for i := 0 to inputLen
      invariant outLen <= output.Length
      invariant StreamAt(input, i) == Stream(output[..outLen], accum, bits)
      invariant forall k :: outLen <= k < output.Length ==> output[k] == old(output[k])
    {
      NextCharacter(input, i);
      var val := Table(input[i]);
      if val < 0 {
        continue;
      }
      outLen, accum, bits := Consume(output, outLen, accum, bits, val);
    }
    DecodedHasLength(input);
  }
}
