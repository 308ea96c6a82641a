/**
 The wire format in plain numbers: which fields, messages, frames, headers and packets there are, and where their
 bytes lie. The tables of the codec are compared with these lists for all values.
 */
module WireRules {
  import opened Bytes
  import Tlv
  import Frames
  import Packets
  import Completion

  // ---------------------------------------------------------------------------------------------
  // Fields
  // ---------------------------------------------------------------------------------------------

  /** The size a type prescribes. */
  ghost predicate Sized(kind: int, size: int) {
    && (kind in {0x0C, 0x83, 0x84, 0x85} ==> size == 8)
    && (kind in {0x81, 0x86} ==> size == 1)
    && (kind in {0x82, 0x8D} ==> size == 16)
    && (kind in {0x87, 0x8A} ==> size == 2)
    && (kind == 0x88 ==> size == 5)
    && (kind == 0x89 ==> size == 17)
    && (kind == 0x8B ==> size == 4)
    && (kind in {0x8C, 0x8E} ==> size == 32)
  }

  /** Critical types are 0x81 to 0x8E, and types with a prescribed size have it. */
  lemma FieldRules(f: Tlv.Field)
    ensures Tlv.ValidField(f) <==> (f.kind >= 0x80 ==> 0x81 <= f.kind <= 0x8E) && Sized(f.kind, |f.value|)
  {
  }

  /** A field is its type, its length in two bytes, high byte first, and its value. */
  lemma FieldLayout(f: Tlv.Field)
    requires |f.value| <= MAX_UINT16
    ensures var b := Tlv.EncodeField(f);
      |b| == 3 + |f.value| && b[0] == f.kind && 256 * (b[1] as int) + b[2] as int == |f.value| && b[3..] == f.value
  {
  }

  /** A stream of these fields is accepted exactly when types increase, each field keeps the rules and everything fits sixteen bits. */
  lemma StreamRules(fs: seq<Tlv.Field>)
    ensures (exists data :: Tlv.Parse(data) == Some(fs)) <==>
      && (forall i, j :: 0 <= i < j < |fs| ==> fs[i].kind < fs[j].kind)
      && (forall f :: f in fs ==> (f.kind >= 0x80 ==> 0x81 <= f.kind <= 0x8E) && Sized(f.kind, |f.value|) && |f.value| <= 0xFFFF)
      && Completion.Size(fs) <= 0xFFFF
  {
    hide Tlv.Parse, Tlv.Encode, Sized, Tlv.ValidField;
    forall f: Tlv.Field ensures Tlv.ValidField(f) <==> (f.kind >= 0x80 ==> 0x81 <= f.kind <= 0x8E) && Sized(f.kind, |f.value|) {
      FieldRules(f);
    }
    Completion.EncodedSize(fs);
    forall data ensures Tlv.Parse(data) == Some(fs) <==> Tlv.Canonical(fs) && data == Tlv.Encode(fs) {
      Tlv.ParseExact(data, fs);
    }
    if Tlv.Canonical(fs) {
      assert Tlv.Parse(Tlv.Encode(fs)) == Some(fs);
    }
  }

  function Kinds(fs: seq<Tlv.Field>): set<int> {
    set f | f in fs :: f.kind as int
  }

  lemma KindsHave(fs: seq<Tlv.Field>, kind: byte)
    ensures kind in Kinds(fs) <==> Tlv.Has(fs, kind)
  {
  }

  /** A field keeps the rules and the bounds of lease prefixes. */
  ghost predicate SoundField(f: Tlv.Field) {
    && (f.kind >= 0x80 ==> 0x81 <= f.kind <= 0x8E) && Sized(f.kind, |f.value|)
    && (f.kind == 0x88 ==> f.value[4] <= 32) && (f.kind == 0x89 ==> f.value[16] <= 128)
  }

  /** Each type once, and each field sound. */
  ghost predicate SoundFields(fs: seq<Tlv.Field>) {
    Tlv.DistinctKinds(multiset(fs)) && forall f :: f in fs ==> SoundField(f)
  }

  /** What an INITIAL and a HANDSHAKE must and may contain. */
  lemma MessageRules(fs: seq<Tlv.Field>)
    ensures Tlv.ValidFor(fs, Tlv.Initial) <==>
      && SoundFields(fs)
      && {0x81, 0x82, 0x83, 0x85, 0x86, 0x87, 0x8C} <= Kinds(fs)
      && Kinds(fs) !! {0x0C, 0x0D, 0x84, 0x88, 0x89, 0x8A, 0x8B}
      && (0x8D in Kinds(fs) <==> 0x8E in Kinds(fs))
    ensures Tlv.ValidFor(fs, Tlv.Handshake) <==>
      && SoundFields(fs)
      && {0x81, 0x82, 0x83, 0x84, 0x85, 0x86, 0x87, 0x8A, 0x8B} <= Kinds(fs)
      && Kinds(fs) !! {0x8C, 0x8D, 0x8E}
      && (0x88 in Kinds(fs) || 0x89 in Kinds(fs))
  {
    InitialRules(fs);
    HandshakeRules(fs);
  }

  lemma AllKinds(fs: seq<Tlv.Field>)
    ensures forall kind: byte :: kind in Kinds(fs) <==> Tlv.Has(fs, kind)
  {
    forall kind: byte ensures kind in Kinds(fs) <==> Tlv.Has(fs, kind) {
      KindsHave(fs, kind);
    }
  }

  lemma FitsInitial(f: Tlv.Field)
    ensures Tlv.FieldFits(f, Tlv.Initial) <==> SoundField(f) && f.kind !in {0x0C, 0x0D, 0x84, 0x88, 0x89, 0x8A, 0x8B}
  {
  }

  lemma FitsHandshake(f: Tlv.Field)
    ensures Tlv.FieldFits(f, Tlv.Handshake) <==> SoundField(f) && f.kind !in {0x8C, 0x8D, 0x8E}
  {
  }

  lemma RequiredInitial(fs: seq<Tlv.Field>)
    ensures (forall kind :: kind in Tlv.Required(Tlv.Initial) ==> Tlv.Has(fs, kind)) <==> {0x81, 0x82, 0x83, 0x85, 0x86, 0x87, 0x8C} <= Kinds(fs)
  {
    AllKinds(fs);
    hide Tlv.Has, Kinds;
  }

  lemma RequiredHandshake(fs: seq<Tlv.Field>)
    ensures (forall kind :: kind in Tlv.Required(Tlv.Handshake) ==> Tlv.Has(fs, kind)) <==>
      {0x81, 0x82, 0x83, 0x84, 0x85, 0x86, 0x87, 0x8A, 0x8B} <= Kinds(fs)
  {
    AllKinds(fs);
    hide Tlv.Has, Kinds;
  }

  /** All fields avoid the types exactly when the list does. */
  lemma Avoids(fs: seq<Tlv.Field>, kinds: set<int>)
    ensures Kinds(fs) !! kinds <==> forall f :: f in fs ==> f.kind !in kinds
  {
  }

  lemma InitialRules(fs: seq<Tlv.Field>)
    ensures Tlv.ValidFor(fs, Tlv.Initial) <==>
      && SoundFields(fs)
      && {0x81, 0x82, 0x83, 0x85, 0x86, 0x87, 0x8C} <= Kinds(fs)
      && Kinds(fs) !! {0x0C, 0x0D, 0x84, 0x88, 0x89, 0x8A, 0x8B}
      && (0x8D in Kinds(fs) <==> 0x8E in Kinds(fs))
  {
    hide Tlv.DistinctKinds, Tlv.FieldFits, Tlv.Has, Kinds, Tlv.Required, SoundField;
    forall f: Tlv.Field ensures Tlv.FieldFits(f, Tlv.Initial) <==> SoundField(f) && f.kind !in {0x0C, 0x0D, 0x84, 0x88, 0x89, 0x8A, 0x8B} {
      FitsInitial(f);
    }
    RequiredInitial(fs);
    AllKinds(fs);
    Avoids(fs, {0x0C, 0x0D, 0x84, 0x88, 0x89, 0x8A, 0x8B});
  }

  lemma HandshakeRules(fs: seq<Tlv.Field>)
    ensures Tlv.ValidFor(fs, Tlv.Handshake) <==>
      && SoundFields(fs)
      && {0x81, 0x82, 0x83, 0x84, 0x85, 0x86, 0x87, 0x8A, 0x8B} <= Kinds(fs)
      && Kinds(fs) !! {0x8C, 0x8D, 0x8E}
      && (0x88 in Kinds(fs) || 0x89 in Kinds(fs))
  {
    hide Tlv.DistinctKinds, Tlv.FieldFits, Tlv.Has, Kinds, Tlv.Required, SoundField;
    forall f: Tlv.Field ensures Tlv.FieldFits(f, Tlv.Handshake) <==> SoundField(f) && f.kind !in {0x8C, 0x8D, 0x8E} {
      FitsHandshake(f);
    }
    RequiredHandshake(fs);
    AllKinds(fs);
    Avoids(fs, {0x8C, 0x8D, 0x8E});
  }

  // ---------------------------------------------------------------------------------------------
  // Frames
  // ---------------------------------------------------------------------------------------------

  /** A whole IPv4 packet (section 3.1 of RFC 791) or IPv6 packet (section 3 of RFC 8200), by its own length fields. */
  ghost predicate WholePacket(p: bytes) {
    || (|p| >= 20 && 0x45 <= p[0] <= 0x4F && 4 * (p[0] - 0x40) <= |p| && 256 * (p[2] as int) + p[3] as int == |p|)
    || (|p| >= 40 && 0x60 <= p[0] <= 0x6F && 40 + 256 * (p[4] as int) + p[5] as int == |p|)
  }

  /** Frames 1 to 8 without flags; the bodies of IP, CONFIRM, PING, PONG and CLOSE are prescribed. */
  lemma FrameRules(f: Frames.Frame)
    ensures Frames.ValidFrame(f) <==>
      && 1 <= f.kind <= 8 && f.flags == 0
      && (f.kind == 1 ==> WholePacket(f.body))
      && (f.kind == 2 ==> |f.body| == 32)
      && (f.kind in {3, 4} ==> |f.body| == 8)
      && (f.kind == 8 ==> 2 <= |f.body| <= 258 && Frames.ValidUtf8(f.body[2..]))
  {
    PacketWhole(f.body);
    hide Frames.ValidIpPacket, WholePacket, Frames.ValidUtf8;
  }

  lemma PacketWhole(p: bytes)
    ensures Frames.ValidIpPacket(p) <==> WholePacket(p)
  {
    if p != [] {
      var n := p[0];
      assert n / 16 == 4 <==> 0x40 <= n <= 0x4F;
      assert n / 16 == 6 <==> 0x60 <= n <= 0x6F;
      if 0x40 <= n <= 0x4F {
        assert n % 16 == n - 0x40;
      }
    }
  }

  /** A frame is its type, a zero, its length in two bytes, high byte first, and its body. */
  lemma FrameLayout(f: Frames.Frame)
    requires |f.body| <= MAX_UINT16
    ensures var b := Frames.EncodeFrame(f);
      |b| == 4 + |f.body| && b[0] == f.kind && b[1] == 0 && 256 * (b[2] as int) + b[3] as int == |f.body| && b[4..] == f.body
  {
  }

  function FrameSize(fs: seq<Frames.Frame>): nat {
    if fs == [] then 0 else 4 + |fs[0].body| + FrameSize(fs[1..])
  }

  lemma {:induction false} EncodedFrameSize(fs: seq<Frames.Frame>)
    ensures |Frames.Encode(fs)| == FrameSize(fs)
  {
    if fs != [] {
      EncodedFrameSize(fs[1..]);
    }
  }

  /** Zero stands for 1352; otherwise a plaintext limit is between 4 and 65535. */
  ghost predicate Within(size: int, limit: int) {
    if limit == 0 then size <= 1352 else 4 <= limit <= 0xFFFF && size <= limit
  }

  /** A plaintext can be made of these frames exactly when there are some, each keeps the rules, an IP packet is alone, CONFIRM comes with PING only, and all fit. */
  lemma PlaintextRules(fs: seq<Frames.Frame>, limit: int)
    ensures Frames.Marshal(fs, limit).Some? <==>
      && |fs| > 0 && (forall f :: f in fs ==> Frames.ValidFrame(f) && |f.body| <= 0xFFFF)
      && ((exists f :: f in fs && f.kind == 1) ==> |fs| == 1)
      && ((exists f :: f in fs && f.kind == 2) ==> |fs| == 2 && fs[0].kind == 2 && fs[1].kind == 3)
      && Within(FrameSize(fs), limit)
  {
    hide Frames.ValidFrame, Frames.Encode;
    EncodedFrameSize(fs);
    assert Frames.Contains(fs, 1) <==> exists f :: f in fs && f.kind == 1 by { ContainsIs(fs, 1); }
    assert Frames.Contains(fs, 2) <==> exists f :: f in fs && f.kind == 2 by { ContainsIs(fs, 2); }
  }

  lemma ContainsIs(fs: seq<Frames.Frame>, kind: byte)
    ensures Frames.Contains(fs, kind) <==> exists f :: f in fs && f.kind == kind
  {
    if Frames.Contains(fs, kind) {
      var i :| 0 <= i < |fs| && fs[i].kind == kind;
      assert fs[i] in fs;
    }
    if f :| f in fs && f.kind == kind {
      var i :| 0 <= i < |fs| && fs[i] == f;
    }
  }

  // ---------------------------------------------------------------------------------------------
  // Packets
  // ---------------------------------------------------------------------------------------------

  /** The four kinds of packet and the identifiers and numbers each may carry. */
  lemma HeaderRules(h: Packets.Header)
    ensures Packets.ValidHeader(h) <==>
      && h.version == 1 && h.flags == 0 && h.reserved == 0
      && ((h.kind == 0x01 && h.dcid == 0 && h.scid != 0 && h.packetNumber == 0)
          || (h.kind == 0x02 && h.dcid != 0 && h.scid == 0 && h.packetNumber == 0)
          || (h.kind == 0x03 && h.dcid != 0 && h.scid != 0 && h.packetNumber == 0)
          || (h.kind == 0x10 && h.dcid != 0 && h.scid != 0))
  {
  }

  /** Where the header's fields lie, and that they are big-endian. */
  lemma HeaderLayout(h: Packets.Header)
    ensures var b := Packets.EncodeHeader(h);
      && |b| == 32 && b[0] == h.version && b[1] == h.kind && Number(b[2..4]) == h.flags
      && Number(b[4..12]) == h.dcid && Number(b[12..20]) == h.scid && Number(b[20..28]) == h.packetNumber
      && Number(b[28..30]) == h.payloadLength && Number(b[30..32]) == h.reserved
  {
    Packets.HeaderFields(h);
    hide Packets.EncodeHeader;
    ShortNumber(h.flags);
    ShortNumber(h.payloadLength);
    ShortNumber(h.reserved);
    LongNumber(h.dcid);
    LongNumber(h.scid);
    LongNumber(h.packetNumber);
    hide Be16, Be64, Number;
  }

  lemma ShortNumber(v: uint16)
    ensures Number(Be16(v)) == v
  {
    var b := Be16(v);
    assert b[..1] == [v / 256];
    assert Number([v / 256]) == v / 256 by { assert [v / 256][..0] == []; }
  }

  lemma LongNumber(v: uint64)
    ensures Number(Be64(v)) == v
  {
    assert U64(Be64(v)) == v;
  }

  /** Zero stands for 1400; otherwise a datagram limit is between 32 and 65567. */
  ghost predicate DatagramWithin(size: int, limit: int) {
    if limit == 0 then size <= 1400 else 32 <= limit <= 65567 && size <= limit
  }

  /** Payload lengths: an INITIAL or HANDSHAKE holds a tag at least, a RETRY sixteen bytes, a TRANSPORT a tag. */
  ghost predicate PayloadKept(kind: int, payload: bytes) {
    && |payload| <= 0xFFFF
    && (kind == 0x01 ==> exists m :: Packets.EncodeInitial(m) == payload && |m.encrypted| >= 16)
    && (kind == 0x02 ==> |payload| >= 16)
    && (kind == 0x03 ==> exists m :: Packets.EncodeHandshake(m) == payload && |m.encrypted| >= 16)
    && (kind == 0x10 ==> |payload| >= 16)
  }

  /** A packet can be printed exactly when its header keeps the rules, its payload its own, and both fit the limit. */
  lemma PacketRules(p: Packets.Packet, limit: int)
    ensures Packets.Marshal(p, limit).Some? <==>
      && |p.payload| <= 0xFFFF && Packets.ValidHeader(p.header.(payloadLength := |p.payload|)) && PayloadKept(p.header.kind, p.payload)
      && DatagramWithin(32 + |p.payload|, limit)
  {
    hide Packets.EncodeHeader, Packets.DecodeInitial, Packets.DecodeHandshake, Packets.EncodeInitial, Packets.EncodeHandshake;
    InitialPayloads(p.payload);
    HandshakePayloads(p.payload);
  }

  lemma InitialPayloads(payload: bytes)
    ensures Packets.DecodeInitial(payload).Some? <==> |payload| <= 0xFFFF && exists m :: Packets.EncodeInitial(m) == payload && |m.encrypted| >= 16
  {
    hide Packets.DecodeInitial, Packets.EncodeInitial;
    if Packets.DecodeInitial(payload).Some? {
      var m := Packets.DecodeInitial(payload).value;
      Packets.InitialExact(payload, m);
      InitialLength(m);
    }
    if |payload| <= 0xFFFF {
      forall m | Packets.EncodeInitial(m) == payload && |m.encrypted| >= 16 ensures Packets.DecodeInitial(payload) == Some(m) {
        Packets.InitialExact(payload, m);
        InitialLength(m);
      }
    }
  }

  lemma InitialLength(m: Packets.Initial)
    ensures |Packets.EncodeInitial(m)| == 36 + |m.token| + |m.encrypted|
  {
    hide Packets.InitialPrefix;
  }

  lemma HandshakePayloads(payload: bytes)
    ensures Packets.DecodeHandshake(payload).Some? <==> |payload| <= 0xFFFF && exists m :: Packets.EncodeHandshake(m) == payload && |m.encrypted| >= 16
  {
    hide Packets.DecodeHandshake, Packets.EncodeHandshake;
    if Packets.DecodeHandshake(payload).Some? {
      var m := Packets.DecodeHandshake(payload).value;
      Packets.HandshakeExact(payload, m);
      HandshakeLength(m);
    }
    if |payload| <= 0xFFFF {
      forall m | Packets.EncodeHandshake(m) == payload && |m.encrypted| >= 16 ensures Packets.DecodeHandshake(payload) == Some(m) {
        Packets.HandshakeExact(payload, m);
        HandshakeLength(m);
      }
    }
  }

  lemma HandshakeLength(m: Packets.Handshake)
    ensures |Packets.EncodeHandshake(m)| == 34 + |m.encrypted|
  {
    hide Packets.HandshakePrefix;
  }

  /** Where the parts of the two handshake payloads lie. */
  lemma PayloadLayout(i: Packets.Initial, h: Packets.Handshake)
    ensures Packets.ValidInitial(i) ==>
      var (b, n) := (Packets.EncodeInitial(i), |i.token|);
      && |b| == 36 + n + |i.encrypted| && 256 * (b[0] as int) + b[1] as int == n && b[2..2 + n] == i.token && b[2 + n..34 + n] == i.ephemeral
      && 256 * (b[34 + n] as int) + b[35 + n] as int == |i.encrypted| && b[36 + n..] == i.encrypted
    ensures Packets.ValidHandshake(h) ==>
      var b := Packets.EncodeHandshake(h);
      |b| == 34 + |h.encrypted| && b[..32] == h.ephemeral && 256 * (b[32] as int) + b[33] as int == |h.encrypted| && b[34..] == h.encrypted
  {
    if Packets.ValidInitial(i) {
      var (b, n) := (Packets.EncodeInitial(i), |i.token|);
      Packets.InitialSlices(i);
      hide Packets.EncodeInitial;
      assert b[..2][0] == b[0] && b[..2][1] == b[1];
      assert b[2 + n + 32..2 + n + 34][0] == b[34 + n] && b[2 + n + 32..2 + n + 34][1] == b[35 + n];
    }
    if Packets.ValidHandshake(h) {
      var b := Packets.EncodeHandshake(h);
      Packets.HandshakeSlices(h);
      hide Packets.EncodeHandshake;
      assert b[32..34][0] == b[32] && b[32..34][1] == b[33];
    }
  }
}
