/**
 Which datagrams, from whomever, the handshake accepts: exact forms of parseInitialWire, parseHandshakeWire, the
 admission of an INITIAL and the acceptance of a HANDSHAKE, in terms of what the peer must have printed.
 */
module HandshakeLaws {
  import opened Bytes
  import opened Packets
  import opened Negotiation
  import opened NegotiationLaws
  import opened Handshakes
  import Tlv

  /** The bytes are the printed form of this packet under the limit. */
  ghost predicate PrintedAs(datagram: bytes, header: Header, payload: bytes, n: uint16) {
    header.payloadLength == |payload| && Packets.Marshal(Packet(header, payload), n) == Some(datagram)
  }

  /** What is authenticated and hashed of a datagram whose tail is the ciphertext. */
  ghost predicate CutFrom(c: Crypto, context: bytes, datagram: bytes, encrypted: bytes, w: Wire) {
    && w.datagram == datagram && w.encrypted == encrypted && w.ad + encrypted == context + datagram
    && w.transcript == c.hash(context + datagram)
  }

  lemma TailCut(context: bytes, datagram: bytes, front: bytes, encrypted: bytes)
    requires datagram == front + encrypted
    ensures context + datagram[..|front|] + encrypted == context + datagram
    ensures forall ad: bytes :: ad + encrypted == context + datagram ==> ad == context + datagram[..|front|]
  {
    assert datagram[..|front|] == front;
    forall ad: bytes | ad + encrypted == context + datagram ensures ad == context + front {
      assert ad == (ad + encrypted)[..|ad|] && |ad| == |context + front|;
      assert context + datagram == context + front + encrypted;
      assert (context + front + encrypted)[..|context + front|] == context + front;
    }
  }

  /** An INITIAL is read exactly from the print of a well-formed INITIAL packet that fits, and cut where its ciphertext begins. */
  lemma ReadsInitialExactly(c: Crypto, datagram: bytes, n: uint16, context: bytes, r: InitialMessage)
    ensures ReadInitial(c, datagram, n, context) == Some(r) <==>
      && r.header.kind == INITIAL && ValidInitial(r.message) && PrintedAs(datagram, r.header, EncodeInitial(r.message), n)
      && CutFrom(c, context, datagram, r.message.encrypted, r.wire)
  {
    hide Packets.Parse, Packets.Marshal, DecodeInitial, EncodeInitial, ValidInitial;
    var payload := EncodeInitial(r.message);
    ParseInvertsMarshal(datagram, Packet(r.header, payload), n);
    InitialExact(payload, r.message);
    var packet := Packets.Parse(datagram, n);
    if packet.Some? {
      ParsedFront(datagram, n);
      InitialExact(packet.value.payload, r.message);
      if DecodeInitial(packet.value.payload).Some? {
        var m := DecodeInitial(packet.value.payload).value;
        InitialExact(packet.value.payload, m);
        InitialEnds(m);
        WholeCut(context, datagram, packet.value, m.encrypted);
      }
    }
  }

  lemma ParsedFront(datagram: bytes, n: uint16)
    requires Packets.Parse(datagram, n).Some?
    ensures var p := Packets.Parse(datagram, n).value;
      |datagram| == HEADER_SIZE + |p.payload| && datagram[HEADER_SIZE..] == p.payload && p.header.payloadLength == |p.payload|
  {
    hide ValidPayload, ParseHeader;
  }

  lemma InitialEnds(m: Packets.Initial)
    ensures var p := EncodeInitial(m); |m.encrypted| <= |p| && p[|p| - |m.encrypted|..] == m.encrypted
  {
    hide InitialPrefix;
  }

  lemma HandshakeEnds(m: Packets.Handshake)
    ensures var p := EncodeHandshake(m); |m.encrypted| <= |p| && p[|p| - |m.encrypted|..] == m.encrypted
  {
    hide HandshakePrefix;
  }

  lemma WholeCut(context: bytes, datagram: bytes, p: Packet, encrypted: bytes)
    requires |datagram| == HEADER_SIZE + |p.payload| && datagram[HEADER_SIZE..] == p.payload
    requires |encrypted| <= |p.payload| && p.payload[|p.payload| - |encrypted|..] == encrypted
    ensures var at := HEADER_SIZE + |p.payload| - |encrypted|;
      && context + datagram[..at] + encrypted == context + datagram
      && forall ad: bytes :: ad + encrypted == context + datagram ==> ad == context + datagram[..at]
  {
    var at := HEADER_SIZE + |p.payload| - |encrypted|;
    assert datagram == datagram[..at] + encrypted by {
      assert datagram[at..] == p.payload[|p.payload| - |encrypted|..];
    }
    TailCut(context, datagram, datagram[..at], encrypted);
  }

  /** The same for a HANDSHAKE. */
  lemma ReadsHandshakeExactly(c: Crypto, datagram: bytes, n: uint16, context: bytes, r: HandshakeMessage)
    ensures ReadHandshake(c, datagram, n, context) == Some(r) <==>
      && r.header.kind == HANDSHAKE && ValidHandshake(r.message) && PrintedAs(datagram, r.header, EncodeHandshake(r.message), n)
      && CutFrom(c, context, datagram, r.message.encrypted, r.wire)
  {
    hide Packets.Parse, Packets.Marshal, DecodeHandshake, EncodeHandshake, ValidHandshake;
    var payload := EncodeHandshake(r.message);
    ParseInvertsMarshal(datagram, Packet(r.header, payload), n);
    HandshakeExact(payload, r.message);
    var packet := Packets.Parse(datagram, n);
    if packet.Some? {
      ParsedFront(datagram, n);
      HandshakeExact(packet.value.payload, r.message);
      if DecodeHandshake(packet.value.payload).Some? {
        var m := DecodeHandshake(packet.value.payload).value;
        HandshakeExact(packet.value.payload, m);
        HandshakeEnds(m);
        WholeCut(context, datagram, packet.value, m.encrypted);
      }
    }
  }

  /** A plaintext is taken as these fields. */
  ghost predicate Carries(plaintext: Option<bytes>, fs: seq<Tlv.Field>, context: Tlv.Context) {
    plaintext.Some? && Tlv.Canonical(fs) && Tlv.ValidFor(fs, context) && plaintext.value == Tlv.Encode(fs)
  }

  lemma CarriedFields(plaintext: bytes, fs: seq<Tlv.Field>, context: Tlv.Context)
    ensures Tlv.ParseFor(plaintext, context) == Some(fs) <==> Carries(Some(plaintext), fs, context)
  {
    hide Tlv.ValidFor, Tlv.Canonical, Tlv.Encode, Tlv.Parse;
    Tlv.ParseExact(plaintext, fs);
  }

  /**
   The server admits a datagram, from whomever, exactly when it is the print of an INITIAL whose ciphertext opens,
   under the key shared with its ephemeral key and with everything before it as associated data, to fields that ask
   for a registered client of this deployment under the outer identifier.
   */
  lemma AdmitsExactly(c: Crypto, id: ServerIdentity, o: ServerOptions, datagram: bytes, a: Admitted)
    ensures var context := ContextBytes(id.deployment);
      Admit(c, id, o, datagram) == Some(a) <==>
        && ReadInitial(c, datagram, o.maxDatagram, context) == Some(a.message) && a.message.header.dcid == 0 && a.message.header.scid != 0
        && c.dh(id.secret, a.message.message.ephemeral) == Some(a.es) && DeriveM1(c, context, a.es).Some?
        && exists fs ::
             && Carries(c.open(DeriveM1(c, context, a.es).value.key, a.message.wire.ad, a.message.message.encrypted), fs, Tlv.Initial)
             && Asks(fs, id.deployment, id.registered, a.message.header.scid, a.request)
  {
    hide ReadInitial, DeriveM1, Tlv.ParseFor, ValidateInitial, Asks, Carries, Tlv.ValidFor;
    var context := ContextBytes(id.deployment);
    var read := ReadInitial(c, datagram, o.maxDatagram, context);
    if read == Some(a.message) && c.dh(id.secret, a.message.message.ephemeral) == Some(a.es) && DeriveM1(c, context, a.es).Some? {
      var plaintext := c.open(DeriveM1(c, context, a.es).value.key, a.message.wire.ad, a.message.message.encrypted);
      if plaintext.Some? {
        AdmittedFields(plaintext.value, id, a);
      } else {
        CarriesNothing(Tlv.Initial);
      }
    }
  }

  lemma CarriesNothing(context: Tlv.Context)
    ensures forall fs :: !Carries(None, fs, context)
  {
  }

  lemma AdmittedFields(plaintext: bytes, id: ServerIdentity, a: Admitted)
    ensures var p := Tlv.ParseFor(plaintext, Tlv.Initial);
      && (p.Some? ==> Tlv.ValidFor(p.value, Tlv.Initial))
      && ((p.Some? && ValidateInitial(p.value, id.deployment, id.registered, a.message.header.scid) == Some(a.request)) <==>
            exists fs :: Carries(Some(plaintext), fs, Tlv.Initial) && Asks(fs, id.deployment, id.registered, a.message.header.scid, a.request))
  {
    hide ValidateInitial, Asks, Tlv.ValidFor, Tlv.Parse, Tlv.Canonical, Tlv.Encode;
    var p := Tlv.ParseFor(plaintext, Tlv.Initial);
    forall fs ensures Carries(Some(plaintext), fs, Tlv.Initial) <==> p == Some(fs) {
      CarriedFields(plaintext, fs, Tlv.Initial);
    }
    if p.Some? {
      ValidatesInitialExactly(p.value, id.deployment, id.registered, a.message.header.scid, a.request);
    }
  }

  /**
   The client finishes on a datagram, from whomever, exactly when it is the print of a HANDSHAKE to it whose
   ciphertext opens, under the keys of its own handshake and with everything before it as associated data, to fields
   that offer parameters within its bounds; transcript and traffic keys are then those of that datagram.
   */
  lemma FinishesExactly(
    c: Crypto, id: ClientIdentity, o: ClientOptions, cid: uint64, ephemeral: Key, es: Key, th1: Key, datagram: bytes, unicast: bytes -> bool, f: Finished)
    ensures Finish(c, id, o, cid, ephemeral, es, th1, datagram, unicast) == Some(f) <==>
      var read := ReadHandshake(c, datagram, o.maxDatagram, ContextBytes(id.deployment) + th1);
      && read.Some? && read.value.header.dcid == cid && read.value.header.scid != 0
      && var m2 := ClientSecrets(c, id.secret, ephemeral, id.serverPublic, read.value.message.ephemeral, th1, es);
      && m2.Some? && f.th2 == read.value.wire.transcript && f.traffic == DeriveTraffic(c, m2.value.prk, f.th2)
      && Accepts(c.open(m2.value.key, read.value.wire.ad, read.value.message.encrypted), id, o, cid, read.value.header.scid, unicast, f)
  {
    hide ReadHandshake, ClientSecrets, Tlv.ParseFor, ValidateHandshake, Tlv.ValidFor, Accepts;
    var read := ReadHandshake(c, datagram, o.maxDatagram, ContextBytes(id.deployment) + th1);
    if read.Some? {
      var m2 := ClientSecrets(c, id.secret, ephemeral, id.serverPublic, read.value.message.ephemeral, th1, es);
      if m2.Some? {
        AcceptedFields(c.open(m2.value.key, read.value.wire.ad, read.value.message.encrypted), id, o, cid, read.value.header.scid, unicast, f);
      }
    }
  }

  /** The plaintext carries fields that say an offer within the client's bounds. */
  ghost predicate Accepts(
    plaintext: Option<bytes>, id: ClientIdentity, o: ClientOptions, cid: uint64, outer: uint64, unicast: bytes -> bool, f: Finished) {
    exists fs, v: Offered ::
      Carries(plaintext, fs, Tlv.Handshake) && v.Sized() && Says(fs, v) && Offers(v, id.deployment, cid, o, outer, unicast, f.negotiated, f.serverCid)
  }

  lemma AcceptedFields(
    plaintext: Option<bytes>, id: ClientIdentity, o: ClientOptions, cid: uint64, outer: uint64, unicast: bytes -> bool, f: Finished)
    ensures plaintext.Some? && Tlv.ParseFor(plaintext.value, Tlv.Handshake).Some? ==>
      Tlv.ValidFor(Tlv.ParseFor(plaintext.value, Tlv.Handshake).value, Tlv.Handshake)
    ensures (&& plaintext.Some? && Tlv.ParseFor(plaintext.value, Tlv.Handshake).Some?
             && ValidateHandshake(Tlv.ParseFor(plaintext.value, Tlv.Handshake).value, id.deployment, cid, o, outer, unicast)
                == Some((f.negotiated, f.serverCid))) <==> Accepts(plaintext, id, o, cid, outer, unicast, f)
  {
    hide Tlv.ValidFor, Tlv.Parse, Tlv.Canonical, Tlv.Encode, Says, Offers, Judge, Read;
    if plaintext.Some? {
      var p := Tlv.ParseFor(plaintext.value, Tlv.Handshake);
      forall fs ensures Carries(plaintext, fs, Tlv.Handshake) <==> p == Some(fs) {
        CarriedFields(plaintext.value, fs, Tlv.Handshake);
      }
      if p.Some? {
        forall v: Offered | v.Sized() ensures v == Read(p.value) <==> Says(p.value, v) {
          ReadsExactly(p.value, v);
        }
        JudgesExactly(Read(p.value), id.deployment, cid, o, outer, unicast, f.negotiated, f.serverCid);
      }
    }
  }
}
