/**
 Exact acceptance on both sides of the negotiation, for arbitrary configurations and arbitrary peers: which
 configurations are normalized to what, and which messages, honest or not, each validator takes.
 */
module NegotiationLaws {
  import opened Bytes
  import opened Tlv
  import opened Negotiation
  import Packets
  import Attempts

  // ---------------------------------------------------------------------------------------------
  // Configurations
  // ---------------------------------------------------------------------------------------------

  const NO_DEPLOYMENT: Deployment := seq(16, _ => 0)

  function OrDefault(value: int, default: int): int {
    if value != 0 then value else default
  }

  /** A client configuration is refused exactly for a missing key, a zero deployment, unknown families, a size below 628 or an empty interval. */
  lemma NormalizesClient(c: ClientConfig)
    ensures var size := OrDefault(c.maxDatagram, 1400);
      NormalizeClient(c).Some? <==>
        && c.identity.Some? && c.deployment != NO_DEPLOYMENT && c.families <= 3 && size >= 628
        && OrDefault(c.minMtu, 576) <= OrDefault(c.maxMtu, size - 52)
    ensures NormalizeClient(c).Some? ==>
      var o := NormalizeClient(c).value;
      && o.families == OrDefault(c.families, 3) && o.maxDatagram == OrDefault(c.maxDatagram, 1400)
      && o.minMtu == OrDefault(c.minMtu, 576) && o.maxMtu == OrDefault(c.maxMtu, o.maxDatagram - 52)
      && o.capabilities == c.capabilities && o.token == c.token
  {
    ZeroIs(c.deployment);
    RoomWraps(OrDefault(c.maxDatagram, 1400));
    hide TunnelRoom, ZeroId;
  }

  lemma ZeroIs(d: Deployment)
    ensures ZeroId(d) <==> d == NO_DEPLOYMENT
  {
  }

  /** An attempt configuration is refused exactly for a negative duration or limit, or for too few records. */
  lemma NormalizesAttempts(c: ServerConfig)
    ensures var pending := OrDefault(c.maxPending, 1024);
      NormalizeAttempts(c).Some? <==>
        && c.pendingTimeout >= 0 && c.confirmGrace >= 0 && c.retention >= 0 && c.maxPending >= 0
        && (if c.maxRecords == 0 then 4 * pending <= 0x7FFF_FFFF_FFFF_FFFF else c.maxRecords >= pending)
    ensures NormalizeAttempts(c).Some? ==>
      var (o, second) := (NormalizeAttempts(c).value, 1_000_000_000);
      && o.pendingTimeout == OrDefault(c.pendingTimeout, 5 * second) && o.confirmGrace == OrDefault(c.confirmGrace, 10 * second)
      && o.retention == OrDefault(c.retention, 30 * second) && o.maxPending == OrDefault(c.maxPending, 1024)
      && o.maxRecords == OrDefault(c.maxRecords, 4 * o.maxPending)
  {
  }

  /** A lease is absent, or an address with a prefix length that fits it. */
  predicate LeaseShape(lease: bytes, size: nat) {
    |lease| == 0 || (|lease| == size + 1 && lease[size] <= 8 * size)
  }

  /** A server configuration is refused exactly for the same reasons, an MTU outside its room, no or malformed leases, or no clients. */
  lemma NormalizesServer(c: ServerConfig)
    ensures var size := OrDefault(c.maxDatagram, 1400);
      NormalizeServer(c).Some? <==>
        && c.identity.Some? && c.deployment != NO_DEPLOYMENT && |c.registered| > 0 && c.families <= 3 && size >= 628
        && 576 <= OrDefault(c.tunnelMtu, size - 52) <= size - 52
        && |c.ipv4Lease| + |c.ipv6Lease| > 0 && LeaseShape(c.ipv4Lease, 4) && LeaseShape(c.ipv6Lease, 16) && NormalizeAttempts(c).Some?
    ensures NormalizeServer(c).Some? ==>
      var o := NormalizeServer(c).value;
      && o.families == OrDefault(c.families, 1) && o.maxDatagram == OrDefault(c.maxDatagram, 1400)
      && o.tunnelMtu == OrDefault(c.tunnelMtu, o.maxDatagram - 52) && o.leaseSeconds == OrDefault(c.leaseSeconds, 600)
      && o.capabilities == c.capabilities && o.ipv4Lease == c.ipv4Lease && o.ipv6Lease == c.ipv6Lease
      && o.egressPolicy == c.egressPolicy && o.dns == c.dns && Some(o.attempts) == NormalizeAttempts(c)
  {
    ZeroIs(c.deployment);
    RoomWraps(OrDefault(c.maxDatagram, 1400));
    hide TunnelRoom, ZeroId, NormalizeAttempts;
  }

  // ---------------------------------------------------------------------------------------------
  // Messages
  // ---------------------------------------------------------------------------------------------

  /** In a valid message, finding a value is having the field. */
  lemma FindIs(fs: seq<Field>, context: Context, kind: byte, value: bytes)
    requires ValidFor(fs, context)
    ensures Find(fs, kind) == Some(value) <==> Field(kind, value) in fs
  {
    hide FieldFits, DistinctKinds, Required;
    if Field(kind, value) in fs {
      FindOnly(fs, Field(kind, value));
    }
  }

  /** And reading a required value is having the field. */
  lemma ValueIs(fs: seq<Field>, context: Context, kind: byte, value: bytes)
    requires ValidFor(fs, context) && kind in Required(context)
    ensures Value(fs, context, kind) == value <==> Field(kind, value) in fs
  {
    hide ValidFor, Find;
    RequiredField(fs, context, kind);
    FindIs(fs, context, kind, value);
  }

  lemma OneByte(b: bytes, v: byte)
    requires |b| == 1
    ensures b[0] == v <==> b == [v]
  {
  }

  lemma FindsNone(fs: seq<Field>, kind: byte)
    ensures Find(fs, kind).None? <==> forall f :: f in fs ==> f.kind != kind
  {
  }

  lemma Be32OfU32(b: bytes)
    requires |b| == 4
    ensures Be32(U32(b)) == b
  {
    BigEndianOfNumber(b);
  }

  lemma ShortIs(b: bytes, v: uint16)
    requires |b| == 2
    ensures U16(b) == v <==> b == Be16(v)
  {
    Be16OfU16(b);
  }

  lemma LongIs(b: bytes, v: uint64)
    requires |b| == 8
    ensures U64(b) == v <==> b == Be64(v)
  {
    Be64OfU64(b);
  }

  lemma WordIs(b: bytes, v: uint32)
    requires |b| == 4
    ensures U32(b) == v <==> b == Be32(v)
  {
    Be32OfU32(b);
  }

  /** What an INITIAL must say, field by field, for this request to be taken from it. */
  ghost predicate Asks(fs: seq<Field>, deployment: Deployment, registered: seq<Packets.Key>, cid: uint64, r: Request) {
    && Field(VERSION, [1]) in fs && Field(DEPLOYMENT_ID, deployment) in fs && Field(CLIENT_CID, Be64(cid)) in fs
    && Field(ADDRESS_FAMILIES, [r.families]) in fs && 1 <= r.families <= 3
    && Field(MAX_DATAGRAM, Be16(r.maxDatagram)) in fs && r.maxDatagram >= 52
    && Field(CLIENT_STATIC, r.identity) in fs && r.identity in registered
    && forall f :: f in fs ==> f.kind != TOKEN_ID && f.kind != TOKEN_PROOF
  }

  /** The INITIAL validator, for any valid message of any peer: a request is taken exactly when the message asks for it. */
  lemma ValidatesInitialExactly(fs: seq<Field>, deployment: Deployment, registered: seq<Packets.Key>, cid: uint64, r: Request)
    requires ValidFor(fs, Tlv.Initial)
    ensures ValidateInitial(fs, deployment, registered, cid) == Some(r) <==> Asks(fs, deployment, registered, cid, r)
  {
    hide ValidFor, Find, Value, Be16, Be64, U16, U64, Asks;
    var ctx := Tlv.Initial;
    var (version, families) := (Value(fs, ctx, VERSION), Value(fs, ctx, ADDRESS_FAMILIES));
    OneByte(version, 1);
    OneByte(families, r.families);
    LongIs(Value(fs, ctx, CLIENT_CID), cid);
    ShortIs(Value(fs, ctx, MAX_DATAGRAM), r.maxDatagram);
    AsksByValue(fs, deployment, registered, cid, r);
    FindsNone(fs, TOKEN_ID);
    FindsNone(fs, TOKEN_PROOF);
  }

  lemma AsksByValue(fs: seq<Field>, deployment: Deployment, registered: seq<Packets.Key>, cid: uint64, r: Request)
    requires ValidFor(fs, Tlv.Initial)
    ensures var ctx := Tlv.Initial;
      Asks(fs, deployment, registered, cid, r) <==>
        && Value(fs, ctx, VERSION) == [1] && Value(fs, ctx, DEPLOYMENT_ID) == deployment && Value(fs, ctx, CLIENT_CID) == Be64(cid)
        && Value(fs, ctx, ADDRESS_FAMILIES) == [r.families] && 1 <= r.families <= 3
        && Value(fs, ctx, MAX_DATAGRAM) == Be16(r.maxDatagram) && r.maxDatagram >= 52
        && Value(fs, ctx, CLIENT_STATIC) == r.identity && r.identity in registered
        && (forall f :: f in fs ==> f.kind != TOKEN_ID && f.kind != TOKEN_PROOF)
  {
    hide ValidFor, Value, Be16, Be64;
    var ctx := Tlv.Initial;
    ValueIs(fs, ctx, VERSION, [1]);
    ValueIs(fs, ctx, DEPLOYMENT_ID, deployment);
    ValueIs(fs, ctx, CLIENT_CID, Be64(cid));
    ValueIs(fs, ctx, ADDRESS_FAMILIES, [r.families]);
    ValueIs(fs, ctx, MAX_DATAGRAM, Be16(r.maxDatagram));
    ValueIs(fs, ctx, CLIENT_STATIC, r.identity);
  }

  /** What an offer must say for these parameters to be taken from it. */
  ghost predicate Offers(v: Offered, deployment: Deployment, clientCid: uint64, o: ClientOptions, outer: uint64, unicast: bytes -> bool, n: Negotiated, sid: uint64)
    requires v.Sized()
  {
    && v.version == 1 && v.deployment == deployment && v.clientCid == clientCid && v.serverCid == sid == outer && sid != 0
    && v.families == n.families && 1 <= n.families <= 3
    && (n.families % 2 == 1 ==> o.families % 2 == 1) && (n.families >= 2 ==> o.families / 2 % 2 == 1)
    && v.maxDatagram == n.maxDatagram && 52 <= n.maxDatagram <= o.maxDatagram
    && v.mtu == n.mtu && o.minMtu <= n.mtu <= o.maxMtu && n.mtu + 52 <= n.maxDatagram
    && v.leaseSeconds == n.leaseSeconds > 0 && v.capabilities == n.capabilities
    && (if n.families % 2 == 1 then v.v4 == Some(n.ipv4Lease) && unicast(v.v4.value[..4]) else v.v4.None? && n.ipv4Lease == [])
    && (if n.families >= 2 then v.v6 == Some(n.ipv6Lease) && unicast(v.v6.value[..16]) else v.v6.None? && n.ipv6Lease == [])
    && n.egressPolicy == (if v.egress.Some? then U64(v.egress.value) else 0)
    && n.dns == (if v.dns.Some? then v.dns.value else [])
  }

  /** The HANDSHAKE validator, for any offer of any peer: parameters are taken exactly when the offer offers them within the client's bounds. */
  lemma JudgesExactly(v: Offered, deployment: Deployment, clientCid: uint64, o: ClientOptions, outer: uint64, unicast: bytes -> bool, n: Negotiated, sid: uint64)
    requires v.Sized()
    ensures Judge(v, deployment, clientCid, o, outer, unicast) == Some((n, sid)) <==> Offers(v, deployment, clientCid, o, outer, unicast, n, sid)
  {
    RoomWraps(v.maxDatagram);
    hide TunnelRoom, U64;
  }

  /** And the numbers of an offer are those of the fields in the message. */
  lemma ReadsExactly(fs: seq<Field>, v: Offered)
    requires ValidFor(fs, Tlv.Handshake) && v.Sized()
    ensures v == Read(fs) <==> Says(fs, v)
  {
    FixedSaid(fs, v);
    OptionalSaid(fs, v);
    hide ValidFor, Find, FixedPart, OptionalPart;
    ReadInParts(fs, v);
  }

  ghost predicate Says(fs: seq<Field>, v: Offered) {
    FixedPart(fs, v) && OptionalPart(fs, v)
  }

  ghost predicate FixedPart(fs: seq<Field>, v: Offered) {
    && Field(VERSION, [v.version]) in fs && Field(DEPLOYMENT_ID, v.deployment) in fs && Field(CLIENT_CID, Be64(v.clientCid)) in fs
    && Field(SERVER_CID, Be64(v.serverCid)) in fs && Field(CAPABILITIES, Be64(v.capabilities)) in fs && Field(ADDRESS_FAMILIES, [v.families]) in fs
    && Field(MAX_DATAGRAM, Be16(v.maxDatagram)) in fs && Field(TUNNEL_MTU, Be16(v.mtu)) in fs && Field(LEASE_SECONDS, Be32(v.leaseSeconds)) in fs
  }

  ghost predicate Optionally(fs: seq<Field>, kind: byte, v: Option<bytes>) {
    if v.Some? then Field(kind, v.value) in fs else forall f :: f in fs ==> f.kind != kind
  }

  ghost predicate OptionalPart(fs: seq<Field>, v: Offered) {
    Optionally(fs, IPV4_LEASE, v.v4) && Optionally(fs, IPV6_LEASE, v.v6) && Optionally(fs, EGRESS_POLICY, v.egress) && Optionally(fs, DNS_PARAMETERS, v.dns)
  }

  ghost predicate SameFixed(v: Offered, w: Offered) {
    v == w.(v4 := v.v4, v6 := v.v6, egress := v.egress, dns := v.dns)
  }

  ghost predicate SameOptional(v: Offered, w: Offered) {
    v.v4 == w.v4 && v.v6 == w.v6 && v.egress == w.egress && v.dns == w.dns
  }

  lemma ReadInParts(fs: seq<Field>, v: Offered)
    requires ValidFor(fs, Tlv.Handshake)
    ensures v == Read(fs) <==> SameFixed(v, Read(fs)) && SameOptional(v, Read(fs))
  {
    hide Read;
  }

  lemma ByteSaid(fs: seq<Field>, kind: byte, v: byte)
    requires ValidFor(fs, Tlv.Handshake) && (kind == VERSION || kind == ADDRESS_FAMILIES)
    ensures Byte(fs, kind) == v <==> Field(kind, [v]) in fs
  {
    hide ValidFor, Value;
    ValueIs(fs, Tlv.Handshake, kind, [v]);
    OneByte(Value(fs, Tlv.Handshake, kind), v);
  }

  lemma LongSaid(fs: seq<Field>, kind: byte, v: uint64)
    requires ValidFor(fs, Tlv.Handshake) && (kind == CLIENT_CID || kind == SERVER_CID || kind == CAPABILITIES)
    ensures Long(fs, kind) == v <==> Field(kind, Be64(v)) in fs
  {
    hide ValidFor, Value, Be64, U64;
    ValueIs(fs, Tlv.Handshake, kind, Be64(v));
    LongIs(Value(fs, Tlv.Handshake, kind), v);
  }

  lemma ShortSaid(fs: seq<Field>, kind: byte, v: uint16)
    requires ValidFor(fs, Tlv.Handshake) && (kind == MAX_DATAGRAM || kind == TUNNEL_MTU)
    ensures Short(fs, kind) == v <==> Field(kind, Be16(v)) in fs
  {
    hide ValidFor, Value, Be16, U16;
    ValueIs(fs, Tlv.Handshake, kind, Be16(v));
    ShortIs(Value(fs, Tlv.Handshake, kind), v);
  }

  lemma OthersSaid(fs: seq<Field>, deployment: bytes, seconds: uint32)
    requires ValidFor(fs, Tlv.Handshake)
    ensures DeploymentOf(fs) == deployment <==> Field(DEPLOYMENT_ID, deployment) in fs
    ensures LeaseSeconds(fs) == seconds <==> Field(LEASE_SECONDS, Be32(seconds)) in fs
  {
    hide ValidFor, Value, Be32, U32;
    ValueIs(fs, Tlv.Handshake, DEPLOYMENT_ID, deployment);
    ValueIs(fs, Tlv.Handshake, LEASE_SECONDS, Be32(seconds));
    WordIs(Value(fs, Tlv.Handshake, LEASE_SECONDS), seconds);
  }

  lemma FixedSaid(fs: seq<Field>, v: Offered)
    requires ValidFor(fs, Tlv.Handshake)
    ensures SameFixed(v, Read(fs)) <==> FixedPart(fs, v)
  {
    hide ValidFor, Find, Byte, Long, Short, DeploymentOf, LeaseSeconds, Be16, Be32, Be64;
    ByteSaid(fs, VERSION, v.version);
    ByteSaid(fs, ADDRESS_FAMILIES, v.families);
    LongSaid(fs, CLIENT_CID, v.clientCid);
    LongSaid(fs, SERVER_CID, v.serverCid);
    LongSaid(fs, CAPABILITIES, v.capabilities);
    ShortSaid(fs, MAX_DATAGRAM, v.maxDatagram);
    ShortSaid(fs, TUNNEL_MTU, v.mtu);
    OthersSaid(fs, v.deployment, v.leaseSeconds);
  }

  lemma OptionSaid(fs: seq<Field>, kind: byte, v: Option<bytes>)
    requires ValidFor(fs, Tlv.Handshake)
    ensures Find(fs, kind) == v <==> Optionally(fs, kind, v)
  {
    hide ValidFor;
    if v.Some? {
      FindIs(fs, Tlv.Handshake, kind, v.value);
    } else {
      FindsNone(fs, kind);
    }
  }

  lemma OptionalSaid(fs: seq<Field>, v: Offered)
    requires ValidFor(fs, Tlv.Handshake)
    ensures SameOptional(v, Read(fs)) <==> OptionalPart(fs, v)
  {
    hide ValidFor, Find, Byte, Long, Short, DeploymentOf, LeaseSeconds, Optionally;
    OptionSaid(fs, IPV4_LEASE, v.v4);
    OptionSaid(fs, IPV6_LEASE, v.v6);
    OptionSaid(fs, EGRESS_POLICY, v.egress);
    OptionSaid(fs, DNS_PARAMETERS, v.dns);
  }
}
