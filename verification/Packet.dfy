/**
 Outer datagrams: the 32-byte header, the INITIAL, RETRY, HANDSHAKE and TRANSPORT payloads, and
 whole packets (codec/packet.go and codec/payload.go).
 */
module Packets {
  import opened Bytes

  const VERSION_1: byte := 0x01
  const HEADER_SIZE: nat := 32
  const TAG_SIZE: nat := 16
  const KEY_SIZE: nat := 32
  const MIN_RETRY_TOKEN: nat := 16
  const DEFAULT_MAX_DATAGRAM: nat := 1400

  const INITIAL: byte := 0x01
  const RETRY: byte := 0x02
  const HANDSHAKE: byte := 0x03
  const TRANSPORT: byte := 0x10

  type Key = k: bytes | |k| == KEY_SIZE witness seq(KEY_SIZE, _ => 0)

  // ---------------------------------------------------------------------------------------------
  // The header
  // ---------------------------------------------------------------------------------------------

  datatype Header = Header(
    version: byte, kind: byte, flags: uint16, dcid: uint64, scid: uint64,
    packetNumber: uint64, payloadLength: uint16, reserved: uint16)

  predicate ValidHeader(h: Header) {
    && h.version == VERSION_1 && h.flags == 0 && h.reserved == 0
    && h.kind in [INITIAL, RETRY, HANDSHAKE, TRANSPORT]
    && (h.kind == INITIAL ==> h.dcid == 0 && h.scid != 0 && h.packetNumber == 0)
    && (h.kind == RETRY ==> h.dcid != 0 && h.scid == 0 && h.packetNumber == 0)
    && (h.kind == HANDSHAKE ==> h.dcid != 0 && h.scid != 0 && h.packetNumber == 0)
    && (h.kind == TRANSPORT ==> h.dcid != 0 && h.scid != 0)
  }

  function EncodeHeader(h: Header): (b: bytes)
    ensures |b| == HEADER_SIZE
  {
    [h.version, h.kind] + Be16(h.flags) + Be64(h.dcid) + Be64(h.scid) + Be64(h.packetNumber)
    + Be16(h.payloadLength) + Be16(h.reserved)
  }

  function DecodeHeader(b: bytes): Header
    requires |b| == HEADER_SIZE
  {
    Header(b[0], b[1], U16(b[2..4]), U64(b[4..12]), U64(b[12..20]), U64(b[20..28]), U16(b[28..30]), U16(b[30..32]))
  }

  lemma HeaderFields(h: Header)
    ensures var b := EncodeHeader(h);
      && b[0] == h.version && b[1] == h.kind && b[2..4] == Be16(h.flags)
      && b[4..12] == Be64(h.dcid) && b[12..20] == Be64(h.scid) && b[20..28] == Be64(h.packetNumber)
      && b[28..30] == Be16(h.payloadLength) && b[30..32] == Be16(h.reserved)
  {
    hide Be16, Be64;
  }

  lemma DecodeEncodedHeader(h: Header)
    ensures DecodeHeader(EncodeHeader(h)) == h
  {
    hide EncodeHeader;
    HeaderFields(h);
  }

  lemma EncodeDecodedHeader(b: bytes)
    requires |b| == HEADER_SIZE
    ensures EncodeHeader(DecodeHeader(b)) == b
  {
    Be16OfU16(b[2..4]);
    Be64OfU64(b[4..12]);
    Be64OfU64(b[12..20]);
    Be64OfU64(b[20..28]);
    Be16OfU16(b[28..30]);
    Be16OfU16(b[30..32]);
    hide Be16, Be64, U16, U64;
    assert b == [b[0], b[1]] + b[2..4] + b[4..12] + b[12..20] + b[20..28] + b[28..30] + b[30..32];
  }

  /** Two headers with one encoding are the same header. */
  lemma HeaderInjective(g: Header, h: Header)
    requires EncodeHeader(g) == EncodeHeader(h)
    ensures g == h
  {
    DecodeEncodedHeader(g);
    DecodeEncodedHeader(h);
  }

  function ParseHeader(b: bytes): Option<Header>
    requires |b| == HEADER_SIZE
  {
    var h := DecodeHeader(b);
    if ValidHeader(h) then Some(h) else None
  }

  function HeaderBytes(h: Header): Option<bytes> {
    if ValidHeader(h) then Some(EncodeHeader(h)) else None
  }

  method MarshalHeader(h: Header) returns (r: Option<bytes>)
    ensures r == HeaderBytes(h)
  {
    hide ValidHeader, Be16, Be64;
    if !ValidHeader(h) {
      return None;
    }
    var data := new byte[HEADER_SIZE];
    data[0] := h.version;
    data[1] := h.kind;
    assert data[..2] == [h.version, h.kind];
    Put(data, 2, Be16(h.flags));
    Put(data, 4, Be64(h.dcid));
    Put(data, 12, Be64(h.scid));
    Put(data, 20, Be64(h.packetNumber));
    Put(data, 28, Be16(h.payloadLength));
    Put(data, 30, Be16(h.reserved));
    assert data[..] == data[..HEADER_SIZE];
    r := Some(data[..]);
  }

  // ---------------------------------------------------------------------------------------------
  // Payloads
  // ---------------------------------------------------------------------------------------------

  datatype Initial = Initial(token: bytes, ephemeral: Key, encrypted: bytes)
  datatype Handshake = Handshake(ephemeral: Key, encrypted: bytes)

  predicate ValidInitial(p: Initial) {
    && |p.token| <= MAX_UINT16 && TAG_SIZE <= |p.encrypted| <= MAX_UINT16
    && 2 + |p.token| + KEY_SIZE + 2 + |p.encrypted| <= MAX_UINT16
  }

  /** What precedes the ciphertext; it is authenticated together with the header. */
  function InitialPrefix(token: bytes, ephemeral: Key, encryptedLength: nat): (b: bytes)
    ensures |b| == 2 + |token| + KEY_SIZE + 2
  {
    Be16(Low16(|token|)) + token + ephemeral + Be16(Low16(encryptedLength))
  }

  function EncodeInitial(p: Initial): bytes {
    InitialPrefix(p.token, p.ephemeral, |p.encrypted|) + p.encrypted
  }

  function DecodeInitial(data: bytes): Option<Initial> {
    if |data| > MAX_UINT16 || |data| < 2 then None
    else
      var n := U16(data[..2]);
      if |data| - 2 < n || |data| - 2 - n < KEY_SIZE + 2 + TAG_SIZE then None
      else
        var key := 2 + n;
        var m := U16(data[key + KEY_SIZE..key + KEY_SIZE + 2]);
        if m < TAG_SIZE || |data| - (key + KEY_SIZE + 2) != m then None
        else Some(Initial(data[2..key], data[key..key + KEY_SIZE], data[key + KEY_SIZE + 2..]))
  }

  lemma InitialSlices(p: Initial)
    requires ValidInitial(p)
    ensures var (d, n) := (EncodeInitial(p), |p.token|);
      && |d| == 2 + n + 34 + |p.encrypted|
      && d[..2] == Be16(n) && d[2..2 + n] == p.token && d[2 + n..2 + n + 32] == p.ephemeral
      && d[2 + n + 32..2 + n + 34] == Be16(|p.encrypted|) && d[2 + n + 34..] == p.encrypted
  {
    var (a, b) := (Be16(|p.token|), Be16(|p.encrypted|));
    PrefixParts(p);
    hide Be16, InitialPrefix;
    FiveParts(a, p.token, p.ephemeral, b, p.encrypted);
  }

  lemma FiveParts(a: bytes, b: bytes, c: bytes, d: bytes, e: bytes)
    ensures var s := a + b + c + d + e; var i := |a|; var j := i + |b|; var k := j + |c|; var l := k + |d|;
      && |s| == l + |e| && s[..i] == a && s[i..j] == b && s[j..k] == c && s[k..l] == d && s[l..] == e
  {
  }

  lemma InitialJoins(data: bytes, n: nat)
    requires |data| >= 2 + n + 34 && n == U16(data[..2])
    requires U16(data[2 + n + 32..2 + n + 34]) == |data| - (2 + n + 34)
    ensures EncodeInitial(Initial(data[2..2 + n], data[2 + n..2 + n + 32], data[2 + n + 34..])) == data
  {
    var p := Initial(data[2..2 + n], data[2 + n..2 + n + 32], data[2 + n + 34..]);
    Be16OfU16(data[..2]);
    Be16OfU16(data[2 + n + 32..2 + n + 34]);
    hide Be16, U16;
    assert Low16(|p.token|) == n && Low16(|p.encrypted|) == |data| - (2 + n + 34);
    CutInFive(data, 2, 2 + n, 2 + n + 32, 2 + n + 34);
  }

  /** INITIAL payloads: accepted with p exactly when p is well formed and encodes to the bytes. */
  lemma InitialExact(data: bytes, p: Initial)
    ensures DecodeInitial(data) == Some(p) <==> ValidInitial(p) && data == EncodeInitial(p)
  {
    hide EncodeInitial;
    if ValidInitial(p) && data == EncodeInitial(p) {
      InitialSlices(p);
    }
    if DecodeInitial(data) == Some(p) {
      InitialJoins(data, |p.token|);
    }
  }

  method ParseInitial(data: bytes) returns (r: Option<Initial>)
    ensures r == DecodeInitial(data)
  {
    if |data| > MAX_UINT16 || |data| < 2 {
      return None;
    }
    var tokenLength := U16(data[..2]);
    if tokenLength > |data| - 2 || |data| - 2 - tokenLength < KEY_SIZE + 2 + TAG_SIZE {
      return None;
    }
    var offset := 2;
    var token := data[offset..offset + tokenLength];
    offset := offset + tokenLength;
    var ephemeral := data[offset..offset + KEY_SIZE];
    offset := offset + KEY_SIZE;
    var encryptedLength := U16(data[offset..offset + 2]);
    offset := offset + 2;
    if encryptedLength < TAG_SIZE {
      return None;
    }
    var remaining := |data| - offset;
    if remaining != encryptedLength {
      return None;
    }
    r := Some(Initial(token, ephemeral, data[offset..]));
  }

  function InitialBytes(p: Initial): Option<bytes> {
    if ValidInitial(p) then Some(EncodeInitial(p)) else None
  }

  method MarshalInitial(p: Initial) returns (r: Option<bytes>)
    ensures r == InitialBytes(p)
  {
    hide Be16;
    if |p.token| > MAX_UINT16 || |p.encrypted| < TAG_SIZE || |p.encrypted| > MAX_UINT16 {
      return None;
    }
    var total := 2 + |p.token| + KEY_SIZE + 2 + |p.encrypted|;
    if total > MAX_UINT16 {
      return None;
    }
    var data := new byte[total];
    WriteInitialPrefix(data, p);
    Put(data, total - |p.encrypted|, p.encrypted);
    assert data[..] == data[..total];
    r := Some(data[..]);
  }

  method WriteInitialPrefix(data: array<byte>, p: Initial)
    requires ValidInitial(p) && data.Length == 2 + |p.token| + KEY_SIZE + 2 + |p.encrypted|
    modifies data
    ensures data[..data.Length - |p.encrypted|] == InitialPrefix(p.token, p.ephemeral, |p.encrypted|)
  {
    var (tokenLength, encryptedLength) := (Be16(|p.token|), Be16(|p.encrypted|));
    PrefixParts(p);
    hide Be16, InitialPrefix;
    var offset := Append(data, 0, tokenLength, []);
    assert [] + tokenLength == tokenLength;
    offset := Append(data, offset, p.token, tokenLength);
    offset := Append(data, offset, p.ephemeral, tokenLength + p.token);
    offset := Append(data, offset, encryptedLength, tokenLength + p.token + p.ephemeral);
  }

  lemma PrefixParts(p: Initial)
    requires ValidInitial(p)
    ensures InitialPrefix(p.token, p.ephemeral, |p.encrypted|) == Be16(|p.token|) + p.token + p.ephemeral + Be16(|p.encrypted|)
  {
    hide Be16, Low16;
  }

  predicate ValidHandshake(p: Handshake) {
    TAG_SIZE <= |p.encrypted| && KEY_SIZE + 2 + |p.encrypted| <= MAX_UINT16
  }

  function HandshakePrefix(ephemeral: Key, encryptedLength: nat): (b: bytes)
    ensures |b| == KEY_SIZE + 2
  {
    ephemeral + Be16(Low16(encryptedLength))
  }

  function EncodeHandshake(p: Handshake): bytes {
    HandshakePrefix(p.ephemeral, |p.encrypted|) + p.encrypted
  }

  function DecodeHandshake(data: bytes): Option<Handshake> {
    if |data| > MAX_UINT16 || |data| < KEY_SIZE + 2 then None
    else
      var m := U16(data[KEY_SIZE..KEY_SIZE + 2]);
      if m < TAG_SIZE || |data| - (KEY_SIZE + 2) != m then None
      else Some(Handshake(data[..KEY_SIZE], data[KEY_SIZE + 2..]))
  }

  lemma HandshakeSlices(p: Handshake)
    requires ValidHandshake(p)
    ensures var d := EncodeHandshake(p);
      && |d| == 34 + |p.encrypted| && d[..32] == p.ephemeral
      && d[32..34] == Be16(|p.encrypted|) && d[34..] == p.encrypted
  {
    var b := Be16(|p.encrypted|);
    assert HandshakePrefix(p.ephemeral, |p.encrypted|) == p.ephemeral + b;
    hide Be16, HandshakePrefix;
    CutThree(p.ephemeral, b, p.encrypted);
  }

  /** HANDSHAKE payloads: accepted with p exactly when p is well formed and encodes to the bytes. */
  lemma HandshakeExact(data: bytes, p: Handshake)
    ensures DecodeHandshake(data) == Some(p) <==> ValidHandshake(p) && data == EncodeHandshake(p)
  {
    if ValidHandshake(p) && data == EncodeHandshake(p) {
      hide EncodeHandshake;
      HandshakeSlices(p);
    }
    if DecodeHandshake(data) == Some(p) {
      Be16OfU16(data[32..34]);
      assert data == data[..32] + data[32..34] + data[34..];
    }
  }

  function HandshakeBytes(p: Handshake): Option<bytes> {
    if ValidHandshake(p) then Some(EncodeHandshake(p)) else None
  }

  method MarshalHandshake(p: Handshake) returns (r: Option<bytes>)
    ensures r == HandshakeBytes(p)
  {
    hide Be16;
    if |p.encrypted| < TAG_SIZE || |p.encrypted| > MAX_UINT16 {
      return None;
    }
    var total := KEY_SIZE + 2 + |p.encrypted|;
    if total > MAX_UINT16 {
      return None;
    }
    var data := new byte[total];
    Put(data, 0, p.ephemeral);
    assert data[..KEY_SIZE] == p.ephemeral;
    Put(data, KEY_SIZE, Be16(|p.encrypted|));
    Put(data, KEY_SIZE + 2, p.encrypted);
    assert data[..] == data[..total];
    r := Some(data[..]);
  }

  // ---------------------------------------------------------------------------------------------
  // Whole packets
  // ---------------------------------------------------------------------------------------------

  datatype Packet = Packet(header: Header, payload: bytes)

  predicate ValidPayload(kind: byte, payload: bytes) {
    if kind == INITIAL then DecodeInitial(payload).Some?
    else if kind == RETRY then MIN_RETRY_TOKEN <= |payload| <= MAX_UINT16
    else if kind == HANDSHAKE then DecodeHandshake(payload).Some?
    else kind == TRANSPORT && TAG_SIZE <= |payload| <= MAX_UINT16
  }

  function DatagramLimit(maxDatagram: int): Option<nat> {
    if maxDatagram == 0 then Some(DEFAULT_MAX_DATAGRAM)
    else if maxDatagram < HEADER_SIZE || maxDatagram > HEADER_SIZE + MAX_UINT16 then None
    else Some(maxDatagram)
  }

  /** Zero selects the default limit; a negative limit admits no datagram at all, in either direction. */
  lemma NegativeLimitRefuses(data: bytes, p: Packet, maxDatagram: int)
    ensures maxDatagram < 0 ==> Parse(data, maxDatagram) == None && Marshal(p, maxDatagram) == None
    ensures Parse(data, 0) == Parse(data, DEFAULT_MAX_DATAGRAM) && Marshal(p, 0) == Marshal(p, DEFAULT_MAX_DATAGRAM)
  {
  }

  function Parse(data: bytes, maxDatagram: int): Option<Packet> {
    var limit := DatagramLimit(maxDatagram);
    if limit.None? || |data| < HEADER_SIZE || |data| > limit.value then None
    else
      var header := ParseHeader(data[..HEADER_SIZE]);
      if header.None? || |data| != HEADER_SIZE + header.value.payloadLength then None
      else if !ValidPayload(header.value.kind, data[HEADER_SIZE..]) then None
      else Some(Packet(header.value, data[HEADER_SIZE..]))
  }

  /** The length field is always derived from the payload, never taken from the caller's header. */
  function Marshal(p: Packet, maxDatagram: int): Option<bytes> {
    var limit := DatagramLimit(maxDatagram);
    if limit.None? || |p.payload| > MAX_UINT16 || HEADER_SIZE + |p.payload| > limit.value then None
    else if !ValidPayload(p.header.kind, p.payload) then None
    else
      var header := HeaderBytes(p.header.(payloadLength := |p.payload|));
      if header.None? then None else Some(header.value + p.payload)
  }

  /**
   Under one limit, printing and parsing are the same relation on packets whose length field is
   the payload's length; and what a packet prints as never depends on that field.
   */
  lemma ParseInvertsMarshal(data: bytes, p: Packet, maxDatagram: int)
    ensures Parse(data, maxDatagram) == Some(p) <==>
      p.header.payloadLength == |p.payload| && Marshal(p, maxDatagram) == Some(data)
    ensures |p.payload| <= MAX_UINT16 ==>
      Marshal(p, maxDatagram) == Marshal(p.(header := p.header.(payloadLength := |p.payload|)), maxDatagram)
  {
    hide ValidPayload, ValidHeader, EncodeHeader, DecodeHeader;
    if Parse(data, maxDatagram) == Some(p) {
      EncodeDecodedHeader(data[..HEADER_SIZE]);
      TakeDrop(data, HEADER_SIZE);
    }
    if p.header.payloadLength == |p.payload| && Marshal(p, maxDatagram) == Some(data) {
      DecodeEncodedHeader(p.header);
      assert p.header.(payloadLength := |p.payload|) == p.header;
      assert data[..HEADER_SIZE] == EncodeHeader(p.header) && data[HEADER_SIZE..] == p.payload;
    }
  }

  method MarshalPacket(p: Packet, maxDatagram: int) returns (r: Option<bytes>)
    ensures r == Marshal(p, maxDatagram)
  {
    hide ValidPayload, ValidHeader, EncodeHeader;
    var limit := DatagramLimit(maxDatagram);
    if limit.None? || |p.payload| > MAX_UINT16 || HEADER_SIZE + |p.payload| > limit.value {
      return None;
    }
    if !ValidPayload(p.header.kind, p.payload) {
      return None;
    }
    var encodedHeader := MarshalHeader(p.header.(payloadLength := |p.payload|));
    if encodedHeader.None? {
      return None;
    }
    var data := new byte[HEADER_SIZE + |p.payload|];
    Put(data, 0, encodedHeader.value);
    assert data[..HEADER_SIZE] == encodedHeader.value;
    Put(data, HEADER_SIZE, p.payload);
    assert data[..] == data[..HEADER_SIZE + |p.payload|];
    r := Some(data[..]);
  }
}
