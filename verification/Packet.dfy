/** The MeshCore wire format, its decoder, and the hop-invariant fingerprint. */
module Packet {
  import opened Common

  /** The route types that carry transport codes; 1 and 2 are flood and direct without. */
  const ROUTE_TYPE_TRANSPORT_FLOOD := 0
  const ROUTE_TYPE_TRANSPORT_DIRECT := 3

  datatype PacketInfo = PacketInfo(
    routeType: int, payloadType: Byte, version: int, pathCount: int, pathSize: int,
    pathBytes: seq<Byte>, payload: seq<Byte>)
  {
    /** Field values a packet on the air can have; a hash size of four is reserved. */
    ghost predicate Valid() {
      0 <= routeType < 4 && payloadType < 16 && 0 <= version < 4 &&
      0 <= pathCount < 64 && 1 <= pathSize <= 3 && |pathBytes| == pathCount * pathSize
    }
  }

  predicate HasTransport(routeType: int) {
    routeType == ROUTE_TYPE_TRANSPORT_FLOOD || routeType == ROUTE_TYPE_TRANSPORT_DIRECT
  }

  // ---- Hex ------------------------------------------------------------------

  function HexDigit(n: int): char
    requires 0 <= n < 16
  {
    if n < 10 then ('0' as int + n) as char else ('a' as int + n - 10) as char
  }

  function HexValue(c: char): Option<int> {
    if '0' <= c <= '9' then Some(c as int - '0' as int)
    else if 'a' <= c <= 'f' then Some(c as int - 'a' as int + 10)
    else if 'A' <= c <= 'F' then Some(c as int - 'A' as int + 10)
    else None
  }

  /** `bytes.hex()` */
  function Hex(b: seq<Byte>): string {
    if b == [] then "" else [HexDigit(b[0] / 16), HexDigit(b[0] % 16)] + Hex(b[1..])
  }

  predicate IsSpace(c: char) {
    c == ' ' || ('\t' <= c && c <= '\r')
  }

  /** `bytes.fromhex`: pairs of digits, white space allowed between them. */
  function FromHex(s: string): Option<seq<Byte>> {
    if s == "" then Some([])
    else if IsSpace(s[0]) then FromHex(s[1..])
    else if |s| < 2 || HexValue(s[0]) == None || HexValue(s[1]) == None then None
    else
      match FromHex(s[2..])
      case None => None
      case Some(rest) => Some([16 * HexValue(s[0]).value + HexValue(s[1]).value] + rest)
  }

  lemma HexDigitValue(n: int)
    requires 0 <= n < 16
    ensures HexValue(HexDigit(n)) == Some(n) && !IsSpace(HexDigit(n))
  {
  }

  /** Two digits read as the byte they write. */
  lemma ReadPair(x: Byte, rest: string, b: seq<Byte>)
    requires FromHex(rest) == Some(b)
    ensures FromHex([HexDigit(x / 16), HexDigit(x % 16)] + rest) == Some([x] + b)
  {
    var s := [HexDigit(x / 16), HexDigit(x % 16)] + rest;
    HexDigitValue(x / 16);
    HexDigitValue(x % 16);
    assert s[2..] == rest;
  }

  lemma {:induction false} HexRoundTrip(b: seq<Byte>)
    ensures FromHex(Hex(b)) == Some(b)
  {
    if b != [] {
      HexRoundTrip(b[1..]);
      ReadPair(b[0], Hex(b[1..]), b[1..]);
      assert [b[0]] + b[1..] == b;
    }
  }

  lemma HexOfFirst(x: Byte, b: seq<Byte>)
    ensures Hex([x] + b) == Hex([x]) + Hex(b)
  {
    assert ([x] + b)[1..] == b && [x][1..] == [];
  }

  lemma {:induction false} HexConcat(a: seq<Byte>, b: seq<Byte>)
    ensures Hex(a + b) == Hex(a) + Hex(b)
  {
    if a == [] {
      assert a + b == b;
    } else {
      HexConcat(a[1..], b);
      HexOfFirst(a[0], a[1..]);
      HexOfFirst(a[0], a[1..] + b);
      assert a == [a[0]] + a[1..] && a + b == [a[0]] + (a[1..] + b);
    }
  }

  // ---- Decoding -------------------------------------------------------------

  /** `decode_packet` on the raw bytes. */
  function DecodeRaw(raw: seq<Byte>): Option<PacketInfo> {
    if |raw| < 2 then None
    else
      var header := raw[0];
      var routeType := header % 4;
      var payloadType := (header / 4) % 16;
      var version := (header / 64) % 4;
      if HasTransport(routeType) && 1 + 4 > |raw| then None
      else
        var i := if HasTransport(routeType) then 5 else 1;
        if i >= |raw| then None
        else
          var pathCount := raw[i] % 64;
          var pathSize := raw[i] / 64 + 1;
          var n := pathCount * pathSize;
          if pathSize == 4 then None
          else if i + 1 + n > |raw| then None
          else
            Some(PacketInfo(routeType, payloadType, version, pathCount, pathSize,
                            raw[i + 1..i + 1 + n], raw[i + 1 + n..]))
  }

  /** `decode_packet` */
  function Decode(hex: string): Option<PacketInfo> {
    match FromHex(hex) case None => None case Some(raw) => DecodeRaw(raw)
  }

  /** The wire layout of a packet; `codes` are the transport codes, used if the route type has them. */
  function Layout(info: PacketInfo, codes: seq<Byte>): seq<Byte>
    requires info.Valid() && |codes| == 4
  {
    [info.routeType + 4 * info.payloadType + 64 * info.version]
    + (if HasTransport(info.routeType) then codes else [])
    + [info.pathCount + 64 * (info.pathSize - 1)]
    + info.pathBytes + info.payload
  }

  /** Decoding inverts the layout of every valid packet. */
  lemma DecodeInvertsLayout(info: PacketInfo, codes: seq<Byte>)
    requires info.Valid() && |codes| == 4
    ensures DecodeRaw(Layout(info, codes)) == Some(info)
    ensures Decode(Hex(Layout(info, codes))) == Some(info)
  {
    RawInvertsLayout(info, codes);
    HexRoundTrip(Layout(info, codes));
  }

  lemma RawInvertsLayout(info: PacketInfo, codes: seq<Byte>)
    requires info.Valid() && |codes| == 4
    ensures DecodeRaw(Layout(info, codes)) == Some(info)
  {
    var raw := Layout(info, codes);
    var i := if HasTransport(info.routeType) then 5 else 1;
    HeaderFields(info.routeType, info.payloadType, info.version);
    assert raw[i] == info.pathCount + 64 * (info.pathSize - 1);
    assert raw[i] % 64 == info.pathCount && raw[i] / 64 + 1 == info.pathSize;
    var n := info.pathCount * info.pathSize;
    assert raw[i + 1..i + 1 + n] == info.pathBytes;
    assert raw[i + 1 + n..] == info.payload;
  }

  lemma HeaderFields(r: int, p: int, v: int)
    requires 0 <= r < 4 && 0 <= p < 16 && 0 <= v < 4
    ensures var h := r + 4 * p + 64 * v; h % 4 == r && (h / 4) % 16 == p && (h / 64) % 4 == v
  {
  }

  lemma HeaderParts(h: Byte)
    ensures h == h % 4 + 4 * ((h / 4) % 16) + 64 * ((h / 64) % 4)
  {
  }

  /** And it accepts nothing else: whatever decodes is the layout of the packet it decodes to. */
  lemma LayoutInvertsDecode(raw: seq<Byte>, codes: seq<Byte>)
    requires DecodeRaw(raw).Some? && |codes| == 4
    requires HasTransport(DecodeRaw(raw).value.routeType) ==> |raw| >= 5 && codes == raw[1..5]
    ensures DecodeRaw(raw).value.Valid() && Layout(DecodeRaw(raw).value, codes) == raw
  {
    var info := DecodeRaw(raw).value;
    HeaderParts(raw[0]);
    var i := if HasTransport(info.routeType) then 5 else 1;
    assert raw[i] == info.pathCount + 64 * (info.pathSize - 1);
    assert 0 <= info.pathCount * info.pathSize;
    var r := Layout(info, codes);
    assert raw == raw[..i] + [raw[i]] + raw[i + 1..];
    assert raw[i + 1..] == info.pathBytes + info.payload;
    assert raw[..i] == [raw[0]] + (if HasTransport(info.routeType) then codes else []);
  }

  // ---- Fingerprint ----------------------------------------------------------

  /** `packet_fingerprint` */
  function Fingerprint(info: PacketInfo): string {
    Hex([info.payloadType]) + Hex(info.payload)
  }

  /** Two copies count as one packet exactly if payload type and payload agree: the route
    * type, the version and the path make no difference.
    */
  lemma FingerprintIdentifies(a: PacketInfo, b: PacketInfo)
    ensures Fingerprint(a) == Fingerprint(b) <==> a.payloadType == b.payloadType && a.payload == b.payload
  {
    HexConcat([a.payloadType], a.payload);
    HexConcat([b.payloadType], b.payload);
    HexRoundTrip([a.payloadType] + a.payload);
    HexRoundTrip([b.payloadType] + b.payload);
    assert ([a.payloadType] + a.payload)[1..] == a.payload;
    assert ([b.payloadType] + b.payload)[1..] == b.payload;
    assert ([a.payloadType] + a.payload)[0] == a.payloadType;
    assert ([b.payloadType] + b.payload)[0] == b.payloadType;
  }

  /** A relay that appends a hash to a flood packet's path leaves its fingerprint alone. */
  lemma RelayedCopyKeepsFingerprint(info: PacketInfo, hash: seq<Byte>, codes: seq<Byte>)
    requires info.Valid() && |codes| == 4 && |hash| == info.pathSize && info.pathCount < 63
    ensures var grown := info.(pathCount := info.pathCount + 1, pathBytes := info.pathBytes + hash);
            grown.Valid() &&
            Decode(Hex(Layout(grown, codes))) == Some(grown) &&
            Fingerprint(grown) == Fingerprint(info)
  {
    var grown := info.(pathCount := info.pathCount + 1, pathBytes := info.pathBytes + hash);
    DecodeInvertsLayout(grown, codes);
  }
}
