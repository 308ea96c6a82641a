/**
 The WG-HS/1 handshake (handshake/client.go, server.go, wire.go and crypto/kdf.go).

 The primitives are the fields of `Crypto`; `Lawful` is all that is asked of them: Diffie-Hellman
 commutes, sealing adds a tag, and opening undoes it. Random keys and connection identifiers are parameters.
 */
module Handshakes {
  import opened Bytes
  import opened Packets
  import opened Negotiation
  import Tlv

  datatype Crypto = Crypto(
    public: Key -> Key,
    dh: (Key, Key) -> Option<Key>,
    hash: bytes -> Key,
    extract: (bytes, bytes) -> Key,
    expand: (Key, bytes) -> Key,
    seal: (Key, bytes, bytes) -> bytes,
    open: (Key, bytes, bytes) -> Option<bytes>)

  ghost predicate Lawful(c: Crypto) {
    && (forall a: Key, b: Key :: c.dh(a, c.public(b)) == c.dh(b, c.public(a)))
    && (forall k: Key, ad: bytes, p: bytes ::
          |c.seal(k, ad, p)| == |p| + TAG_SIZE && c.open(k, ad, c.seal(k, ad, p)) == Some(p))
  }

  // ---------------------------------------------------------------------------------------------
  // The key schedule
  // ---------------------------------------------------------------------------------------------

  function Ascii(s: string): bytes {
    seq(|s|, i requires 0 <= i < |s| => (s[i] as int) % 0x100)
  }

  const SUITE: string := "WG-HS1-X25519-CHACHAPOLY-BLAKE2S"

  function ContextBytes(deployment: Deployment): bytes {
    [4] + Ascii("WG/1") + deployment + [32] + Ascii(SUITE)
  }

  predicate IsZero(k: Key) {
    forall i :: 0 <= i < KEY_SIZE ==> k[i] == 0
  }

  /** The secret both later keys come from, and the key of one message. */
  datatype Derived = Derived(prk: Key, key: Key)

  function DeriveM1(c: Crypto, context: bytes, es: Key): Option<Derived> {
    if IsZero(es) then None
    else
      var prk := c.extract(c.hash(context), es);
      Some(Derived(prk, c.expand(prk, Ascii("WG-HS1/m1"))))
  }

  function DeriveM2(c: Crypto, th1: Key, es: Key, ss: Key, ee: Key, se: Key): Option<Derived> {
    if IsZero(es) || IsZero(ss) || IsZero(ee) || IsZero(se) then None
    else
      var prk := c.extract(th1, es + ss + ee + se);
      Some(Derived(prk, c.expand(prk, Ascii("WG-HS1/m2") + th1)))
  }

  datatype Traffic = Traffic(c2s: Key, s2c: Key)

  function DeriveTraffic(c: Crypto, prk: Key, th2: Key): Traffic {
    Traffic(c.expand(prk, Ascii("WG-HS1/c2s") + th2), c.expand(prk, Ascii("WG-HS1/s2c") + th2))
  }

  /** The inputs that separate the four derived keys never coincide, whatever the transcripts. */
  lemma LabelsApart(th1: bytes, th2: bytes)
    ensures Ascii("WG-HS1/m1") != Ascii("WG-HS1/m2") + th1
    ensures Ascii("WG-HS1/c2s") + th2 != Ascii("WG-HS1/s2c") + th2
    ensures Ascii("WG-HS1/m2") + th1 != Ascii("WG-HS1/c2s") + th2 && Ascii("WG-HS1/m2") + th1 != Ascii("WG-HS1/s2c") + th2
    ensures Ascii("WG-HS1/m1") != Ascii("WG-HS1/c2s") + th2 && Ascii("WG-HS1/m1") != Ascii("WG-HS1/s2c") + th2
  {
    var (m1, m2, c2s, s2c) := (Ascii("WG-HS1/m1"), Ascii("WG-HS1/m2") + th1, Ascii("WG-HS1/c2s") + th2, Ascii("WG-HS1/s2c") + th2);
    assert m1[7] == 'm' as int && m2[7] == 'm' as int && c2s[7] == 'c' as int && s2c[7] == 's' as int;
    assert m1[8] == '1' as int && m2[8] == '2' as int;
  }

  /** Two deployments never share a context. */
  lemma ContextInjective(d: Deployment, e: Deployment)
    requires ContextBytes(d) == ContextBytes(e)
    ensures d == e
  {
    assert d == ContextBytes(d)[5..21] && e == ContextBytes(e)[5..21];
  }

  // ---------------------------------------------------------------------------------------------
  // Messages on the wire
  // ---------------------------------------------------------------------------------------------

  /** A handshake message: what is authenticated, what is encrypted, the transcript hash, and the datagram. */
  datatype Wire = Wire(ad: bytes, encrypted: bytes, transcript: Key, datagram: bytes)

  function MakeInitialPrefix(token: bytes, ephemeral: Key, encryptedLength: nat): Option<bytes> {
    if |token| > MAX_UINT16 || encryptedLength < TAG_SIZE || encryptedLength > MAX_UINT16 then None
    else Some(InitialPrefix(token, ephemeral, encryptedLength))
  }

  function MakeHandshakePrefix(ephemeral: Key, encryptedLength: nat): Option<bytes> {
    if encryptedLength < TAG_SIZE || encryptedLength > MAX_UINT16 then None
    else Some(HandshakePrefix(ephemeral, encryptedLength))
  }

  function MakeHeader(kind: byte, dcid: uint64, scid: uint64, payloadLength: nat): Option<Header> {
    if payloadLength > MAX_UINT16 then None
    else
      var header := Header(Packets.VERSION_1, kind, 0, dcid, scid, 0, payloadLength, 0);
      if ValidHeader(header) then Some(header) else None
  }

  /** The common end of Start and HandleInitial: seal behind header and prefix, hash, and print. */
  function Write(c: Crypto, key: Key, context: bytes, header: Header, prefix: bytes, plaintext: bytes, maxDatagram: uint16): Option<Wire> {
    var ad := context + (EncodeHeader(header) + prefix);
    var encrypted := c.seal(key, ad, plaintext);
    if |encrypted| != |plaintext| + TAG_SIZE then None
    else
      var datagram := Packets.Marshal(Packet(header, prefix + encrypted), maxDatagram);
      if datagram.None? then None else Some(Wire(ad, encrypted, c.hash(ad + encrypted), datagram.value))
  }

  function WriteInitial(
    c: Crypto, key: Key, context: bytes, token: bytes, ephemeral: Key, cid: uint64, plaintext: bytes, maxDatagram: uint16
  ): Option<Wire> {
    var length := |plaintext| + TAG_SIZE;
    var prefix := MakeInitialPrefix(token, ephemeral, length);
    if prefix.None? then None
    else
      var header := MakeHeader(INITIAL, 0, cid, |prefix.value| + length);
      if header.None? then None
      else Write(c, key, context, header.value, prefix.value, plaintext, maxDatagram)
  }

  function WriteHandshake(
    c: Crypto, key: Key, context: bytes, ephemeral: Key, clientCid: uint64, serverCid: uint64, plaintext: bytes, maxDatagram: uint16
  ): Option<Wire> {
    var length := |plaintext| + TAG_SIZE;
    var prefix := MakeHandshakePrefix(ephemeral, length);
    if prefix.None? then None
    else
      var header := MakeHeader(HANDSHAKE, clientCid, serverCid, |prefix.value| + length);
      if header.None? then None
      else Write(c, key, context, header.value, prefix.value, plaintext, maxDatagram)
  }

  datatype InitialMessage = InitialMessage(header: Header, message: Packets.Initial, wire: Wire)

  /** parseInitialWire: the associated data are cut from the datagram as received. */
  function ReadInitial(c: Crypto, datagram: bytes, maxDatagram: uint16, context: bytes): Option<InitialMessage> {
    var packet := Packets.Parse(datagram, maxDatagram);
    if packet.None? || packet.value.header.kind != INITIAL then None
    else
      var message := DecodeInitial(packet.value.payload);
      if message.None? then None
      else
        var adEnd := HEADER_SIZE + |packet.value.payload| - |message.value.encrypted|;
        if adEnd < 0 || adEnd > |datagram| then None
        else
          var ad := context + datagram[..adEnd];
          Some(InitialMessage(packet.value.header, message.value,
                              Wire(ad, message.value.encrypted, c.hash(ad + message.value.encrypted), datagram)))
  }

  datatype HandshakeMessage = HandshakeMessage(header: Header, message: Packets.Handshake, wire: Wire)

  function ReadHandshake(c: Crypto, datagram: bytes, maxDatagram: uint16, context: bytes): Option<HandshakeMessage> {
    var packet := Packets.Parse(datagram, maxDatagram);
    if packet.None? || packet.value.header.kind != HANDSHAKE then None
    else
      var message := DecodeHandshake(packet.value.payload);
      if message.None? then None
      else
        var adEnd := HEADER_SIZE + |packet.value.payload| - |message.value.encrypted|;
        if adEnd < 0 || adEnd > |datagram| then None
        else
          var ad := context + datagram[..adEnd];
          Some(HandshakeMessage(packet.value.header, message.value,
                                Wire(ad, message.value.encrypted, c.hash(ad + message.value.encrypted), datagram)))
  }

  /** Printing a packet under one limit is parsing it under any limit it fits. */
  lemma WrittenParses(p: Packet, datagram: bytes, m: uint16, n: uint16)
    requires Packets.Marshal(p, m) == Some(datagram) && p.header.payloadLength == |p.payload|
    ensures Packets.Parse(datagram, n) == if DatagramLimit(n).Some? && |datagram| <= DatagramLimit(n).value then Some(p) else None
    ensures datagram == EncodeHeader(p.header) + p.payload
  {
    hide ValidPayload, EncodeHeader, DecodeHeader, ValidHeader;
    ParseInvertsMarshal(datagram, p, m);
    assert p.header.(payloadLength := |p.payload|) == p.header;
  }

  predicate Fits(datagram: bytes, maxDatagram: uint16) {
    DatagramLimit(maxDatagram).Some? && |datagram| <= DatagramLimit(maxDatagram).value
  }

  /** The server cuts out exactly the bytes the client authenticated and hashed. */
  lemma InitialAsWritten(
    c: Crypto, key: Key, context: bytes, token: bytes, ephemeral: Key, cid: uint64, plaintext: bytes, m: uint16, n: uint16)
    requires WriteInitial(c, key, context, token, ephemeral, cid, plaintext, m).Some?
    ensures var w := WriteInitial(c, key, context, token, ephemeral, cid, plaintext, m).value;
      match ReadInitial(c, w.datagram, n, context)
      case Some(r) => Fits(w.datagram, n) && r.wire == w && r.message == Packets.Initial(token, ephemeral, w.encrypted)
        && r.header.kind == INITIAL && r.header.dcid == 0 && r.header.scid == cid != 0
      case None => !Fits(w.datagram, n)
  {
    hide EncodeHeader, DecodeHeader;
    var w := WriteInitial(c, key, context, token, ephemeral, cid, plaintext, m).value;
    var prefix := MakeInitialPrefix(token, ephemeral, |plaintext| + TAG_SIZE).value;
    var header := MakeHeader(INITIAL, 0, cid, |prefix| + |plaintext| + TAG_SIZE).value;
    var message := Packets.Initial(token, ephemeral, w.encrypted);
    assert EncodeInitial(message) == prefix + w.encrypted;
    hide InitialPrefix;
    InitialExact(prefix + w.encrypted, message);
    hide DecodeInitial, Packets.Parse, Packets.Marshal;
    WrittenParses(Packet(header, prefix + w.encrypted), w.datagram, m, n);
    CutsAd(context, EncodeHeader(header), prefix, w.encrypted, w.datagram);
  }

  lemma CutsAd(context: bytes, header: bytes, prefix: bytes, encrypted: bytes, datagram: bytes)
    requires datagram == header + (prefix + encrypted)
    ensures |header| + |prefix| <= |datagram|
    ensures context + datagram[..|header| + |prefix|] == context + (header + prefix)
  {
    assert datagram[..|header| + |prefix|] == header + prefix;
  }

  /** The client cuts out exactly the bytes the server authenticated and hashed. */
  lemma HandshakeAsWritten(
    c: Crypto, key: Key, context: bytes, ephemeral: Key, clientCid: uint64, serverCid: uint64, plaintext: bytes, m: uint16, n: uint16)
    requires WriteHandshake(c, key, context, ephemeral, clientCid, serverCid, plaintext, m).Some?
    ensures var w := WriteHandshake(c, key, context, ephemeral, clientCid, serverCid, plaintext, m).value;
      && Fits(w.datagram, m)
      && match ReadHandshake(c, w.datagram, n, context)
      case Some(r) => Fits(w.datagram, n) && r.wire == w && r.message == Packets.Handshake(ephemeral, w.encrypted)
        && r.header.kind == HANDSHAKE && r.header.dcid == clientCid != 0 && r.header.scid == serverCid != 0
      case None => !Fits(w.datagram, n)
  {
    hide EncodeHeader, DecodeHeader;
    var w := WriteHandshake(c, key, context, ephemeral, clientCid, serverCid, plaintext, m).value;
    var prefix := MakeHandshakePrefix(ephemeral, |plaintext| + TAG_SIZE).value;
    var header := MakeHeader(HANDSHAKE, clientCid, serverCid, |prefix| + |plaintext| + TAG_SIZE).value;
    var message := Packets.Handshake(ephemeral, w.encrypted);
    assert EncodeHandshake(message) == prefix + w.encrypted;
    hide HandshakePrefix;
    HandshakeExact(prefix + w.encrypted, message);
    WrittenParses(Packet(header, prefix + w.encrypted), w.datagram, m, m);
    hide DecodeHandshake, Packets.Parse, Packets.Marshal;
    WrittenParses(Packet(header, prefix + w.encrypted), w.datagram, m, n);
    CutsAd(context, EncodeHeader(header), prefix, w.encrypted, w.datagram);
  }

  // ---------------------------------------------------------------------------------------------
  // The three steps
  // ---------------------------------------------------------------------------------------------

  datatype ClientIdentity = ClientIdentity(deployment: Deployment, secret: Key, serverPublic: Key)

  datatype Started = Started(cid: uint64, ephemeral: Key, es: Key, wire: Wire)

  ghost function Start(c: Crypto, id: ClientIdentity, o: ClientOptions, cid: uint64, ephemeral: Key): Option<Started> {
    var es := c.dh(ephemeral, id.serverPublic);
    if es.None? then None
    else
      var context := ContextBytes(id.deployment);
      var m1 := DeriveM1(c, context, es.value);
      var plaintext := Tlv.MarshalFor(RequestFields(o, id.deployment, cid, c.public(id.secret)), Tlv.Initial);
      if m1.None? || plaintext.None? then None
      else
        var wire := WriteInitial(c, m1.value.key, context, o.token, c.public(ephemeral), cid, plaintext.value, o.maxDatagram);
        if wire.None? then None else Some(Started(cid, ephemeral, es.value, wire.value))
  }

  datatype ServerIdentity = ServerIdentity(deployment: Deployment, secret: Key, registered: seq<Key>)

  datatype ServerSession = ServerSession(
    clientCid: uint64, serverCid: uint64, clientStatic: Key, th2: Key, traffic: Traffic, maxDatagram: uint16)

  datatype Response = Response(session: ServerSession, wire: Wire)

  /** What the server knows about a request before it commits any resource to it. */
  datatype Admitted = Admitted(message: InitialMessage, es: Key, request: Request)

  /** The first half of HandleInitial: parse, decrypt, validate. */
  ghost function Admit(c: Crypto, id: ServerIdentity, o: ServerOptions, datagram: bytes): Option<Admitted> {
    var context := ContextBytes(id.deployment);
    var read := ReadInitial(c, datagram, o.maxDatagram, context);
    if read.None? || read.value.header.dcid != 0 || read.value.header.scid == 0 then None
    else
      var es := c.dh(id.secret, read.value.message.ephemeral);
      if es.None? || DeriveM1(c, context, es.value).None? then None
      else
        var k1 := DeriveM1(c, context, es.value).value.key;
        var plaintext := c.open(k1, read.value.wire.ad, read.value.message.encrypted);
        if plaintext.None? then None
        else
          var fields := Tlv.ParseFor(plaintext.value, Tlv.Initial);
          if fields.None? then None
          else
            var request := ValidateInitial(fields.value, id.deployment, id.registered, read.value.header.scid);
            if request.None? then None else Some(Admitted(read.value, es.value, request.value))
  }

  /** Keys from one static and one ephemeral secret; the server's form. */
  function ServerSecrets(c: Crypto, secret: Key, ephemeral: Key, clientStatic: Key, clientEphemeral: Key, th1: Key, es: Key): Option<Derived> {
    var (ss, ee, se) := (c.dh(secret, clientStatic), c.dh(ephemeral, clientEphemeral), c.dh(ephemeral, clientStatic));
    if ss.None? || ee.None? || se.None? then None else DeriveM2(c, th1, es, ss.value, ee.value, se.value)
  }

  /** The second half: agree on keys, negotiate, answer. */
  ghost function Reply(
    c: Crypto, id: ServerIdentity, o: ServerOptions, a: Admitted, serverCid: uint64, ephemeral: Key
  ): Option<Response> {
    var th1 := a.message.wire.transcript;
    var m2 := ServerSecrets(c, id.secret, ephemeral, a.request.identity, a.message.message.ephemeral, th1, a.es);
    var sel := Select(o, a.request.families, a.request.maxDatagram);
    if m2.None? || sel.None? then None
    else
      var clientCid := a.message.header.scid;
      var plaintext := Tlv.MarshalFor(Offer(o, id.deployment, clientCid, serverCid, sel.value), Tlv.Handshake);
      if plaintext.None? then None
      else
        var wire := WriteHandshake(c, m2.value.key, ContextBytes(id.deployment) + th1, c.public(ephemeral),
                                   clientCid, serverCid, plaintext.value, sel.value.maxDatagram);
        if wire.None? then None
        else
          var th2 := wire.value.transcript;
          Some(Response(ServerSession(clientCid, serverCid, a.request.identity, th2, DeriveTraffic(c, m2.value.prk, th2),
                                      sel.value.maxDatagram), wire.value))
  }

  ghost function Respond(
    c: Crypto, id: ServerIdentity, o: ServerOptions, datagram: bytes, serverCid: uint64, ephemeral: Key
  ): Option<Response> {
    var a := Admit(c, id, o, datagram);
    if a.None? then None else Reply(c, id, o, a.value, serverCid, ephemeral)
  }

  datatype Finished = Finished(serverCid: uint64, th2: Key, traffic: Traffic, negotiated: Negotiated)

  /** Keys from one static and one ephemeral secret; the client's form. */
  function ClientSecrets(c: Crypto, secret: Key, ephemeral: Key, serverPublic: Key, serverEphemeral: Key, th1: Key, es: Key): Option<Derived> {
    var (ss, ee, se) := (c.dh(secret, serverPublic), c.dh(ephemeral, serverEphemeral), c.dh(secret, serverEphemeral));
    if ss.None? || ee.None? || se.None? then None else DeriveM2(c, th1, es, ss.value, ee.value, se.value)
  }

  ghost function Finish(
    c: Crypto, id: ClientIdentity, o: ClientOptions, cid: uint64, ephemeral: Key, es: Key, th1: Key, datagram: bytes,
    unicast: bytes -> bool
  ): Option<Finished> {
    var read := ReadHandshake(c, datagram, o.maxDatagram, ContextBytes(id.deployment) + th1);
    if read.None? || read.value.header.dcid != cid || read.value.header.scid == 0 then None
    else
      var m2 := ClientSecrets(c, id.secret, ephemeral, id.serverPublic, read.value.message.ephemeral, th1, es);
      if m2.None? then None
      else
        var plaintext := c.open(m2.value.key, read.value.wire.ad, read.value.message.encrypted);
        if plaintext.None? then None
        else
          var fields := Tlv.ParseFor(plaintext.value, Tlv.Handshake);
          if fields.None? then None
          else
            var judged := ValidateHandshake(fields.value, id.deployment, cid, o, read.value.header.scid, unicast);
            if judged.None? then None
            else
              var th2 := read.value.wire.transcript;
              Some(Finished(judged.value.1, th2, DeriveTraffic(c, m2.value.prk, th2), judged.value.0))
  }

  // ---------------------------------------------------------------------------------------------
  // Agreement
  // ---------------------------------------------------------------------------------------------

  /** A client and a server that mean each other. */
  datatype Pair = Pair(
    cc: ClientConfig, sc: ServerConfig, client: ClientIdentity, server: ServerIdentity, co: ClientOptions, so: ServerOptions)
  {
    ghost predicate Honest(c: Crypto) {
      && Lawful(c)
      && NormalizeClient(cc) == Some(co) && NormalizeServer(sc) == Some(so)
      && cc.deployment == sc.deployment == client.deployment == server.deployment
      && client.serverPublic == c.public(server.secret)
    }
  }

  /** Diffie-Hellman commutes, so both sides derive the same HANDSHAKE key material. */
  lemma SecretsAgree(c: Crypto, cs: Key, ce: Key, ss: Key, se: Key, th1: Key, es: Key)
    requires Lawful(c)
    ensures ClientSecrets(c, cs, ce, c.public(ss), c.public(se), th1, es) ==
      ServerSecrets(c, ss, se, c.public(cs), c.public(ce), th1, es)
  {
    assert c.dh(cs, c.public(ss)) == c.dh(ss, c.public(cs));
    assert c.dh(ce, c.public(se)) == c.dh(se, c.public(ce));
    assert c.dh(cs, c.public(se)) == c.dh(se, c.public(cs));
  }

  /**
   The server admits an honest client's datagram exactly when it fits its datagram limit and the key
   is registered; it then holds the client's associated data, transcript hash and shared secret.
   */
  lemma AdmitsHonest(c: Crypto, p: Pair, cid: uint64, ephemeral: Key)
    requires p.Honest(c) && Start(c, p.client, p.co, cid, ephemeral).Some?
    ensures var st := Start(c, p.client, p.co, cid, ephemeral).value; var public := c.public(p.client.secret);
      match Admit(c, p.server, p.so, st.wire.datagram)
      case Some(a) =>
        && Fits(st.wire.datagram, p.so.maxDatagram) && public in p.server.registered
        && a.message.wire == st.wire && a.message.header.scid == cid != 0 && a.message.message.ephemeral == c.public(ephemeral)
        && a.es == st.es && a.request == Request(public, p.co.families, p.co.maxDatagram)
      case None => !Fits(st.wire.datagram, p.so.maxDatagram) || public !in p.server.registered
  {
    hide NormalizeClient, NormalizeServer, WriteInitial, ReadInitial, Fits, ValidateInitial, RequestFields,
      Tlv.Parse, Tlv.ValidFor, Tlv.Marshal;
    var st := Start(c, p.client, p.co, cid, ephemeral).value;
    var (context, public) := (ContextBytes(p.client.deployment), c.public(p.client.secret));
    assert c.dh(ephemeral, c.public(p.server.secret)) == c.dh(p.server.secret, c.public(ephemeral));
    var k1 := DeriveM1(c, context, st.es).value.key;
    var fields := RequestFields(p.co, p.client.deployment, cid, public);
    var plaintext := Tlv.MarshalFor(fields, Tlv.Initial).value;
    InitialAsWritten(c, k1, context, p.co.token, c.public(ephemeral), cid, plaintext, p.co.maxDatagram, p.so.maxDatagram);
    InitialSealed(c, k1, context, p.co.token, c.public(ephemeral), cid, plaintext, p.co.maxDatagram);
    Tlv.MessageRoundTrip(fields, Tlv.Initial);
    var parsed := Tlv.ParseFor(plaintext, Tlv.Initial).value;
    RequestAccepted(p.cc, parsed, cid, public, p.server.deployment, p.server.registered);
  }

  lemma InitialSealed(
    c: Crypto, key: Key, context: bytes, token: bytes, ephemeral: Key, cid: uint64, plaintext: bytes, m: uint16)
    requires Lawful(c) && WriteInitial(c, key, context, token, ephemeral, cid, plaintext, m).Some?
    ensures var w := WriteInitial(c, key, context, token, ephemeral, cid, plaintext, m).value;
      c.open(key, w.ad, w.encrypted) == Some(plaintext)
  {
    hide EncodeHeader, InitialPrefix, Packets.Marshal, ValidHeader;
  }

  lemma HandshakeSealed(
    c: Crypto, key: Key, context: bytes, ephemeral: Key, clientCid: uint64, serverCid: uint64, plaintext: bytes, m: uint16)
    requires Lawful(c) && WriteHandshake(c, key, context, ephemeral, clientCid, serverCid, plaintext, m).Some?
    ensures var w := WriteHandshake(c, key, context, ephemeral, clientCid, serverCid, plaintext, m).value;
      c.open(key, w.ad, w.encrypted) == Some(plaintext)
  {
    hide EncodeHeader, HandshakePrefix, Packets.Marshal, ValidHeader;
  }

  /** What the answer to an honest client says; it exists only if the two share a family. */
  lemma AnswersHonest(c: Crypto, p: Pair, cid: uint64, ephemeral: Key, serverCid: uint64, serverEphemeral: Key)
    requires p.Honest(c) && Start(c, p.client, p.co, cid, ephemeral).Some?
    requires Respond(c, p.server, p.so, Start(c, p.client, p.co, cid, ephemeral).value.wire.datagram, serverCid, serverEphemeral).Some?
    ensures var st := Start(c, p.client, p.co, cid, ephemeral).value;
      var r := Respond(c, p.server, p.so, st.wire.datagram, serverCid, serverEphemeral).value;
      && Shares(p.so, p.co.families)
      && r.session.clientCid == cid != 0 && r.session.serverCid == serverCid
      && r.session.clientStatic == c.public(p.client.secret) && r.session.th2 == r.wire.transcript
      && Answered(c, p, st, r, serverCid, serverEphemeral)
  {
    hide NormalizeClient, NormalizeServer, WriteHandshake, Admit, Offer, Tlv.MarshalFor, Select, ServerSecrets;
    AdmitsHonest(c, p, cid, ephemeral);
    SelectsIfShared(p.cc, p.sc);
  }

  /** The response is the offer, sealed under the keys both sides derive from th1. */
  ghost predicate Answered(c: Crypto, p: Pair, st: Started, r: Response, serverCid: uint64, serverEphemeral: Key) {
    var m2 := ServerSecrets(c, p.server.secret, serverEphemeral, c.public(p.client.secret), c.public(st.ephemeral), st.wire.transcript, st.es);
    var sel := Select(p.so, p.co.families, p.co.maxDatagram);
    && m2.Some? && sel.Some?
    && var plaintext := Tlv.MarshalFor(Offer(p.so, p.server.deployment, st.cid, serverCid, sel.value), Tlv.Handshake);
    && plaintext.Some?
    && WriteHandshake(c, m2.value.key, ContextBytes(p.server.deployment) + st.wire.transcript, c.public(serverEphemeral),
                      st.cid, serverCid, plaintext.value, sel.value.maxDatagram) == Some(r.wire)
    && r.session.traffic == DeriveTraffic(c, m2.value.prk, r.wire.transcript)
    && r.session.maxDatagram == sel.value.maxDatagram
  }

  /** The client's key material and its view of the message are the server's. */
  lemma ReadsAnswer(c: Crypto, p: Pair, st: Started, r: Response, serverCid: uint64, serverEphemeral: Key)
    requires p.Honest(c) && Answered(c, p, st, r, serverCid, serverEphemeral)
    ensures var read := ReadHandshake(c, r.wire.datagram, p.co.maxDatagram, ContextBytes(p.client.deployment) + st.wire.transcript);
      && read.Some? && read.value.wire == r.wire && read.value.message == Packets.Handshake(c.public(serverEphemeral), r.wire.encrypted)
      && read.value.header.dcid == st.cid && read.value.header.scid == serverCid != 0
      && var m2 := ClientSecrets(c, p.client.secret, st.ephemeral, p.client.serverPublic, c.public(serverEphemeral), st.wire.transcript, st.es);
      && m2.Some? && r.session.traffic == DeriveTraffic(c, m2.value.prk, r.wire.transcript)
      && var sel := Select(p.so, p.co.families, p.co.maxDatagram).value;
         c.open(m2.value.key, r.wire.ad, r.wire.encrypted) == Tlv.MarshalFor(Offer(p.so, p.server.deployment, st.cid, serverCid, sel), Tlv.Handshake)
  {
    hide NormalizeClient, NormalizeServer, WriteHandshake, ReadHandshake, Offer, Tlv.MarshalFor, Select, ServerSecrets, ClientSecrets;
    SecretsAgree(c, p.client.secret, st.ephemeral, p.server.secret, serverEphemeral, st.wire.transcript, st.es);
    var m2 := ServerSecrets(c, p.server.secret, serverEphemeral, c.public(p.client.secret), c.public(st.ephemeral), st.wire.transcript, st.es).value;
    var sel := Select(p.so, p.co.families, p.co.maxDatagram).value;
    var plaintext := Tlv.MarshalFor(Offer(p.so, p.server.deployment, st.cid, serverCid, sel), Tlv.Handshake).value;
    var context := ContextBytes(p.server.deployment) + st.wire.transcript;
    HandshakeAsWritten(c, m2.key, context, c.public(serverEphemeral), st.cid, serverCid, plaintext, sel.maxDatagram, p.co.maxDatagram);
    HandshakeSealed(c, m2.key, context, c.public(serverEphemeral), st.cid, serverCid, plaintext, sel.maxDatagram);
    SelectionFits(p, r.wire.datagram);
  }

  lemma SelectionFits(p: Pair, datagram: bytes)
    requires NormalizeClient(p.cc) == Some(p.co) && NormalizeServer(p.sc) == Some(p.so)
    requires Select(p.so, p.co.families, p.co.maxDatagram).Some?
    requires Fits(datagram, Select(p.so, p.co.families, p.co.maxDatagram).value.maxDatagram)
    ensures Fits(datagram, p.co.maxDatagram)
  {
    hide NormalizeClient, NormalizeServer, Select;
    NormalClient(p.cc);
    SelectionBounds(p.sc, p.co.families, p.co.maxDatagram);
  }

  /**
   Transcript agreement: whenever an honest server answers an honest client, the client finishes
   exactly when it finds the leases and the MTU acceptable, and then both hold the same transcript
   hash, the same traffic keys, each other's connection identifiers and the same parameters.
   */
  lemma FinishesHonest(
    c: Crypto, p: Pair, cid: uint64, ephemeral: Key, serverCid: uint64, serverEphemeral: Key, unicast: bytes -> bool)
    requires p.Honest(c) && Start(c, p.client, p.co, cid, ephemeral).Some?
    requires Respond(c, p.server, p.so, Start(c, p.client, p.co, cid, ephemeral).value.wire.datagram, serverCid, serverEphemeral).Some?
    ensures var st := Start(c, p.client, p.co, cid, ephemeral).value;
      var r := Respond(c, p.server, p.so, st.wire.datagram, serverCid, serverEphemeral).value;
      && Select(p.so, p.co.families, p.co.maxDatagram).Some?
      && LeaseOk(p.so.ipv4Lease, 4, 32) && LeaseOk(p.so.ipv6Lease, 16, 128)
      && var sel := Select(p.so, p.co.families, p.co.maxDatagram).value;
      && r.session.maxDatagram == sel.maxDatagram
      && Finish(c, p.client, p.co, st.cid, st.ephemeral, st.es, st.wire.transcript, r.wire.datagram, unicast) ==
         if Acceptable(p.co, p.so, sel, unicast)
         then Some(Finished(r.session.serverCid, r.session.th2, r.session.traffic, Agreed(p.so, sel))) else None
  {
    hide NormalizeClient, NormalizeServer, WriteHandshake, ReadHandshake, Offer, Tlv.Marshal, Tlv.Parse, Tlv.ValidFor, Select,
      ServerSecrets, ClientSecrets, ValidateHandshake, Acceptable, Agreed, Start, Respond, LeaseOk;
    AnswersHonest(c, p, cid, ephemeral, serverCid, serverEphemeral);
    var st := Start(c, p.client, p.co, cid, ephemeral).value;
    StartedAs(c, p, cid, ephemeral);
    var r := Respond(c, p.server, p.so, st.wire.datagram, serverCid, serverEphemeral).value;
    ReadsAnswer(c, p, st, r, serverCid, serverEphemeral);
    var sel := Select(p.so, p.co.families, p.co.maxDatagram).value;
    var offer := Offer(p.so, p.server.deployment, st.cid, serverCid, sel);
    Tlv.MessageRoundTrip(offer, Tlv.Handshake);
    var fields := Tlv.ParseFor(Tlv.MarshalFor(offer, Tlv.Handshake).value, Tlv.Handshake).value;
    OfferAccepted(p.cc, p.sc, fields, st.cid, serverCid, unicast);
  }

  lemma StartedAs(c: Crypto, p: Pair, cid: uint64, ephemeral: Key)
    requires Start(c, p.client, p.co, cid, ephemeral).Some?
    ensures var st := Start(c, p.client, p.co, cid, ephemeral).value; st.cid == cid && st.ephemeral == ephemeral
  {
    hide WriteInitial, Tlv.MarshalFor;
  }

  /** A finished client knows a server by a non-zero identifier. */
  lemma FinishedNamesServer(
    c: Crypto, id: ClientIdentity, o: ClientOptions, cid: uint64, ephemeral: Key, es: Key, th1: Key, datagram: bytes,
    unicast: bytes -> bool)
    requires Finish(c, id, o, cid, ephemeral, es, th1, datagram, unicast).Some?
    ensures Finish(c, id, o, cid, ephemeral, es, th1, datagram, unicast).value.serverCid != 0
  {
    hide ReadHandshake, ClientSecrets, Tlv.ParseFor, Read;
  }
}
