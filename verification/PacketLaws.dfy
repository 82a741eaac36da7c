/** The wire format byte by byte, and what counts as hex. */
module PacketLaws {
  import opened Common
  import opened Packet

  // ---- Hex ------------------------------------------------------------------

  const LOWER := "0123456789abcdef"
  const UPPER := "0123456789ABCDEF"
  const WHITE := " \t\n\r\U{00000B}\U{00000C}"

  ghost predicate IsDigit(c: char, n: nat) {
    n < 16 && (c == LOWER[n] || c == UPPER[n])
  }

  ghost predicate Blank(s: string) {
    forall i :: 0 <= i < |s| ==> s[i] in WHITE
  }

  lemma DigitLaw(c: char, n: nat)
    ensures HexValue(c) == Some(n) <==> IsDigit(c, n)
  {
    assert LOWER[..10] == UPPER[..10];
    if n < 10 {
      assert LOWER[n] == ('0' as int + n) as char == UPPER[n];
    } else if n < 16 {
      assert LOWER[n] == ('a' as int + n - 10) as char && UPPER[n] == ('A' as int + n - 10) as char;
    }
  }

  lemma ValueFits(c: char)
    ensures HexValue(c).Some? ==> 0 <= HexValue(c).value < 16
  {
  }

  lemma SpaceLaw(c: char)
    ensures IsSpace(c) <==> c in WHITE
    ensures c in WHITE ==> HexValue(c) == None
  {
  }

  /** The text writes the bytes: two digits each, of either case, with white space before, between and
    * after them.
    */
  ghost predicate Spells(s: string, b: seq<Byte>)
    decreases |s|
  {
    if s == "" then b == []
    else if s[0] in WHITE then Spells(s[1..], b)
    else
      b != [] && |s| >= 2 && IsDigit(s[0], b[0] / 16) && IsDigit(s[1], b[0] % 16) && Spells(s[2..], b[1..])
  }

  /** Text reads as bytes exactly if it spells them. */
  lemma {:induction false} FromHexExactlyWhen(s: string, b: seq<Byte>)
    ensures FromHex(s) == Some(b) <==> Spells(s, b)
    decreases |s|
  {
    if s != "" {
      SpaceLaw(s[0]);
      if s[0] in WHITE {
        FromHexExactlyWhen(s[1..], b);
      } else if |s| >= 2 && b != [] {
        FromHexExactlyWhen(s[2..], b[1..]);
        PairLaw(s[0], s[1], b[0]);
        FirstPair(s, b);
      }
    }
  }

  /** The first byte and the rest. */
  lemma FirstPair(s: string, b: seq<Byte>)
    requires |s| >= 2 && !IsSpace(s[0]) && b != []
    ensures FromHex(s) == Some(b) <==>
            HexValue(s[0]).Some? && HexValue(s[1]).Some? && FromHex(s[2..]) == Some(b[1..]) &&
            b[0] == 16 * HexValue(s[0]).value + HexValue(s[1]).value
  {
    assert [b[0]] + b[1..] == b;
  }

  lemma PairLaw(c: char, d: char, x: Byte)
    ensures IsDigit(c, x / 16) && IsDigit(d, x % 16) <==>
            HexValue(c).Some? && HexValue(d).Some? && x == 16 * HexValue(c).value + HexValue(d).value
  {
    DigitLaw(c, x / 16);
    DigitLaw(d, x % 16);
    ValueFits(c);
    ValueFits(d);
    if HexValue(c).Some? && HexValue(d).Some? {
      Halves(x, HexValue(c).value, HexValue(d).value);
    }
  }

  lemma Halves(x: nat, h: nat, l: nat)
    requires l < 16
    ensures x == 16 * h + l <==> x / 16 == h && x % 16 == l
  {
  }

  /** Bytes are written in lower case without white space. */
  lemma {:induction false} HexAt(b: seq<Byte>, i: nat)
    requires i < |b|
    ensures |Hex(b)| == 2 * |b|
    ensures Hex(b)[2 * i] == LOWER[b[i] / 16] && Hex(b)[2 * i + 1] == LOWER[b[i] % 16]
  {
    LowerLaw(b[0] / 16);
    LowerLaw(b[0] % 16);
    if i > 0 {
      HexAt(b[1..], i - 1);
    } else {
      HexLength(b[1..]);
    }
  }

  lemma {:induction false} HexLength(b: seq<Byte>)
    ensures |Hex(b)| == 2 * |b|
  {
    if b != [] {
      HexLength(b[1..]);
    }
  }

  lemma LowerLaw(n: nat)
    requires n < 16
    ensures HexDigit(n) == LOWER[n]
  {
    HexDigitValue(n);
    DigitLaw(HexDigit(n), n);
    assert 'a' <= HexDigit(n) || n < 10;
    assert n < 10 ==> LOWER[n] == UPPER[n];
  }

  /** The fingerprint is the type byte and the payload, in hex. */
  lemma FingerprintLaw(info: PacketInfo)
    ensures Fingerprint(info) == Hex([info.payloadType] + info.payload)
  {
    HexConcat([info.payloadType], info.payload);
  }

  // ---- Wire format ------------------------------------------------------------

  /** Where the path length byte is: behind the header, and behind four bytes of transport codes for the
    * route types 0 and 3.
    */
  function PathLengthAt(raw: seq<Byte>): nat
    requires raw != []
  {
    if raw[0] % 4 == 0 || raw[0] % 4 == 3 then 5 else 1
  }

  function PathBytes(raw: seq<Byte>): nat
    requires raw != [] && PathLengthAt(raw) < |raw|
  {
    (raw[PathLengthAt(raw)] % 64) * (raw[PathLengthAt(raw)] / 64 + 1)
  }

  /** A packet decodes exactly if its length byte is there, does not have both upper bits set, and is
    * followed by the whole path; and then into these fields.
    */
  lemma DecodesExactlyWhen(raw: seq<Byte>)
    ensures DecodeRaw(raw).Some? <==>
            |raw| >= 2 && PathLengthAt(raw) < |raw| && raw[PathLengthAt(raw)] < 192 &&
            PathLengthAt(raw) + 1 + PathBytes(raw) <= |raw|
    ensures DecodeRaw(raw).Some? ==>
              var info, at := DecodeRaw(raw).value, PathLengthAt(raw);
              var end := at + 1 + PathBytes(raw);
              && info.routeType == raw[0] % 4 && info.payloadType == raw[0] / 4 % 16 && info.version == raw[0] / 64
              && info.pathCount == raw[at] % 64 && info.pathSize == raw[at] / 64 + 1
              && info.pathBytes == raw[at + 1..end] && info.payload == raw[end..]
  {
  }
}
