/**
 Configuration and parameter negotiation (handshake/types.go and the two field validators in
 handshake/client.go and handshake/server.go). Sixteen-bit subtraction is written out with its
 wrap-around. Address families are two bits: 1 for IPv4, 2 for IPv6.
 */
module Negotiation {
  import opened Bytes
  import opened Tlv
  import Packets
  import Frames
  import Attempts

  type Deployment = d: bytes | |d| == 16 witness seq(16, _ => 0)

  const OVERHEAD: nat := Packets.HEADER_SIZE + Packets.TAG_SIZE + Frames.HEADER_SIZE
  const MIN_MTU: nat := 576
  const MAX_INT: nat := 0x7FFF_FFFF_FFFF_FFFF

  /** Subtraction of unsigned 16-bit numbers. */
  function Sub16(a: uint16, b: nat): uint16 {
    (a - b) % 0x10000
  }

  function TunnelRoom(maxDatagram: uint16): uint16 {
    Sub16(Sub16(Sub16(maxDatagram, Packets.HEADER_SIZE), Packets.TAG_SIZE), Frames.HEADER_SIZE)
  }

  /** The room for a tunnelled packet wraps around exactly for sizes that cannot hold an empty frame. */
  lemma RoomWraps(maxDatagram: uint16)
    ensures TunnelRoom(maxDatagram) == maxDatagram - OVERHEAD <==> maxDatagram >= OVERHEAD
  {
  }

  predicate V4(families: byte) {
    families % 2 == 1
  }

  predicate V6(families: byte) {
    families / 2 % 2 == 1
  }

  function Families(v4: bool, v6: bool): (f: byte)
    ensures f <= 3 && V4(f) == v4 && V6(f) == v6
  {
    (if v4 then 1 else 0) + (if v6 then 2 else 0)
  }

  // ---------------------------------------------------------------------------------------------
  // Configuration
  // ---------------------------------------------------------------------------------------------

  datatype ClientConfig = ClientConfig(
    deployment: Deployment, identity: Option<Packets.Key>, serverPublic: Packets.Key, token: bytes, capabilities: uint64,
    families: byte, maxDatagram: uint16, minMtu: uint16, maxMtu: uint16)

  datatype ClientOptions = ClientOptions(
    families: byte, maxDatagram: uint16, minMtu: uint16, maxMtu: uint16, capabilities: uint64, token: bytes)

  datatype ServerConfig = ServerConfig(
    deployment: Deployment, identity: Option<Packets.Key>, registered: seq<Packets.Key>, capabilities: uint64, families: byte,
    maxDatagram: uint16, tunnelMtu: uint16, leaseSeconds: uint32, ipv4Lease: bytes, ipv6Lease: bytes,
    egressPolicy: uint64, dns: bytes,
    pendingTimeout: int, confirmGrace: int, retention: int, maxPending: int, maxRecords: int)

  datatype ServerOptions = ServerOptions(
    families: byte, maxDatagram: uint16, tunnelMtu: uint16, leaseSeconds: uint32, capabilities: uint64,
    ipv4Lease: bytes, ipv6Lease: bytes, egressPolicy: uint64, dns: bytes, attempts: Attempts.Options)

  predicate ZeroId(deployment: Deployment) {
    forall i :: 0 <= i < |deployment| ==> deployment[i] == 0
  }

  function NormalizeClient(config: ClientConfig): Option<ClientOptions> {
    if config.identity.None? || ZeroId(config.deployment) then None
    else
      var families := if config.families == 0 then 3 else config.families;
      var maxDatagram: uint16 := if config.maxDatagram == 0 then Packets.DEFAULT_MAX_DATAGRAM else config.maxDatagram;
      var minMtu: uint16 := if config.minMtu == 0 then MIN_MTU else config.minMtu;
      var maxMtu := if config.maxMtu == 0 then TunnelRoom(maxDatagram) else config.maxMtu;
      if families > 3 || maxDatagram < OVERHEAD + MIN_MTU || minMtu > maxMtu then None
      else Some(ClientOptions(families, maxDatagram, minMtu, maxMtu, config.capabilities, config.token))
  }

  /** Zero selects the default. */
  function Or(value: int, default: int): int {
    if value == 0 then default else value
  }

  function NormalizeAttempts(config: ServerConfig): Option<Attempts.Options> {
    var (pendingTimeout, confirmGrace, retention) :=
      (Or(config.pendingTimeout, 5_000_000_000), Or(config.confirmGrace, 10_000_000_000), Or(config.retention, 30_000_000_000));
    var maxPending := Or(config.maxPending, 1024);
    if pendingTimeout < 0 || confirmGrace < 0 || retention < 0 || maxPending < 0 then None
    else if config.maxRecords == 0 && maxPending > MAX_INT / 4 then None
    else
      var maxRecords := Or(config.maxRecords, maxPending * 4);
      if maxRecords < maxPending then None
      else Some(Attempts.Options(pendingTimeout, confirmGrace, retention, maxPending, maxRecords))
  }

  predicate LeaseOk(lease: bytes, size: nat, maxBits: nat) {
    lease == [] || (|lease| == size + 1 && lease[size] <= maxBits)
  }

  function NormalizeServer(config: ServerConfig): Option<ServerOptions> {
    if config.identity.None? || ZeroId(config.deployment) || config.registered == [] then None
    else
      var families := if config.families == 0 then 1 else config.families;
      var maxDatagram: uint16 := if config.maxDatagram == 0 then Packets.DEFAULT_MAX_DATAGRAM else config.maxDatagram;
      var tunnelMtu := if config.tunnelMtu == 0 then TunnelRoom(maxDatagram) else config.tunnelMtu;
      var leaseSeconds: uint32 := if config.leaseSeconds == 0 then 600 else config.leaseSeconds;
      var attempts := NormalizeAttempts(config);
      if families > 3 || maxDatagram < OVERHEAD + MIN_MTU then None
      else if tunnelMtu < MIN_MTU || tunnelMtu > TunnelRoom(maxDatagram) then None
      else if config.ipv4Lease == [] && config.ipv6Lease == [] then None
      else if !LeaseOk(config.ipv4Lease, 4, 32) || !LeaseOk(config.ipv6Lease, 16, 128) || attempts.None? then None
      else
        Some(ServerOptions(families, maxDatagram, tunnelMtu, leaseSeconds, config.capabilities, config.ipv4Lease,
                           config.ipv6Lease, config.egressPolicy, config.dns, attempts.value))
  }

  // ---------------------------------------------------------------------------------------------
  // The server's side
  // ---------------------------------------------------------------------------------------------

  /** A required field of a validated message: present, and as long as the reader takes for granted. */
  function Value(fs: seq<Field>, context: Context, kind: byte): (v: bytes)
    requires ValidFor(fs, context) && kind in Required(context)
    ensures FixedLength(kind).Some? && |v| == FixedLength(kind).value
  {
    RequiredField(fs, context, kind);
    Find(fs, kind).value
  }

  datatype Request = Request(identity: Packets.Key, families: byte, maxDatagram: uint16)

  function ValidateInitial(fs: seq<Field>, deployment: Deployment, registered: seq<Packets.Key>, outerCid: uint64): Option<Request>
    requires ValidFor(fs, Tlv.Initial)
  {
    if Find(fs, TOKEN_ID).Some? || Find(fs, TOKEN_PROOF).Some? then None
    else if Value(fs, Tlv.Initial, VERSION)[0] != Packets.VERSION_1 then None
    else if Value(fs, Tlv.Initial, DEPLOYMENT_ID) != deployment then None
    else if U64(Value(fs, Tlv.Initial, CLIENT_CID)) != outerCid then None
    else
      var families := Value(fs, Tlv.Initial, ADDRESS_FAMILIES)[0];
      var maxDatagram := U16(Value(fs, Tlv.Initial, MAX_DATAGRAM));
      var identity: Packets.Key := Value(fs, Tlv.Initial, CLIENT_STATIC);
      if families == 0 || families > 3 || maxDatagram < OVERHEAD || identity !in registered then None
      else Some(Request(identity, families, maxDatagram))
  }

  datatype Selection = Selection(families: byte, maxDatagram: uint16, mtu: uint16)

  function Min16(a: uint16, b: uint16): uint16 {
    if a < b then a else b
  }

  /** Shared families with a lease, the smaller datagram size, and the largest MTU both allow. */
  function Select(o: ServerOptions, families: byte, maxDatagram: uint16): Option<Selection> {
    var shared := Families(V4(families) && V4(o.families) && o.ipv4Lease != [], V6(families) && V6(o.families) && o.ipv6Lease != []);
    var size := Min16(maxDatagram, o.maxDatagram);
    var mtu := Min16(o.tunnelMtu, TunnelRoom(size));
    if shared == 0 || mtu < MIN_MTU then None else Some(Selection(shared, size, mtu))
  }

  function OfferedDns(o: ServerOptions): seq<Field> {
    if o.dns != [] then [Field(DNS_PARAMETERS, o.dns)] else []
  }

  function OfferedV4(o: ServerOptions, sel: Selection): seq<Field> {
    if V4(sel.families) && o.ipv4Lease != [] then [Field(IPV4_LEASE, o.ipv4Lease)] else []
  }

  function OfferedV6(o: ServerOptions, sel: Selection): seq<Field> {
    if V6(sel.families) && o.ipv6Lease != [] then [Field(IPV6_LEASE, o.ipv6Lease)] else []
  }

  function OfferedBase(o: ServerOptions, deployment: Deployment, clientCid: uint64, serverCid: uint64, sel: Selection): seq<Field> {
    [Field(EGRESS_POLICY, Be64(o.egressPolicy)), Field(VERSION, [Packets.VERSION_1]), Field(DEPLOYMENT_ID, deployment),
     Field(CLIENT_CID, Be64(clientCid)), Field(SERVER_CID, Be64(serverCid)), Field(CAPABILITIES, Be64(o.capabilities)),
     Field(ADDRESS_FAMILIES, [sel.families]), Field(MAX_DATAGRAM, Be16(sel.maxDatagram)),
     Field(TUNNEL_MTU, Be16(sel.mtu)), Field(LEASE_SECONDS, Be32(o.leaseSeconds))]
  }

  /** The HANDSHAKE fields, in the order in which they are appended. */
  function Offer(o: ServerOptions, deployment: Deployment, clientCid: uint64, serverCid: uint64, sel: Selection): seq<Field> {
    OfferedBase(o, deployment, clientCid, serverCid, sel) + OfferedDns(o) + OfferedV4(o, sel) + OfferedV6(o, sel)
  }

  // ---------------------------------------------------------------------------------------------
  // The client's side
  // ---------------------------------------------------------------------------------------------

  datatype Negotiated = Negotiated(
    capabilities: uint64, families: byte, maxDatagram: uint16, mtu: uint16, leaseSeconds: uint32,
    ipv4Lease: bytes, ipv6Lease: bytes, egressPolicy: uint64, dns: bytes)

  function OrEmpty(v: Option<bytes>): bytes {
    if v.Some? then v.value else []
  }

  /** An optional field of fixed size, if present, has that size. */
  lemma PresentField(fs: seq<Field>, context: Context, kind: byte)
    requires ValidFor(fs, context) && Find(fs, kind).Some? && FixedLength(kind).Some?
    ensures |Find(fs, kind).value| == FixedLength(kind).value
  {
    hide Known, Allowed, DistinctKinds;
    assert FieldFits(Field(kind, Find(fs, kind).value), context);
  }

  /** An optional field of a fixed size. */
  function Optional(fs: seq<Field>, kind: byte, size: nat): (v: Option<bytes>)
    requires ValidFor(fs, Tlv.Handshake) && FixedLength(kind) == Some(size)
    ensures v == Find(fs, kind)
    ensures v.Some? ==> |v.value| == size
  {
    hide ValidFor;
    if Find(fs, kind).None? then None
    else
      PresentField(fs, Tlv.Handshake, kind);
      Find(fs, kind)
  }

  /** The numbers in a HANDSHAKE message. */
  datatype Offered = Offered(
    version: byte, deployment: bytes, clientCid: uint64, serverCid: uint64, capabilities: uint64, families: byte,
    maxDatagram: uint16, mtu: uint16, leaseSeconds: uint32, v4: Option<bytes>, v6: Option<bytes>,
    egress: Option<bytes>, dns: Option<bytes>)
  {
    predicate Sized() {
      (v4.Some? ==> |v4.value| == 5) && (v6.Some? ==> |v6.value| == 17) && (egress.Some? ==> |egress.value| == 8)
    }
  }

  function Read(fs: seq<Field>): (r: Offered)
    requires ValidFor(fs, Tlv.Handshake)
    ensures r.Sized()
  {
    hide ValidFor;
    Offered(Byte(fs, VERSION), DeploymentOf(fs), Long(fs, CLIENT_CID), Long(fs, SERVER_CID),
            Long(fs, CAPABILITIES), Byte(fs, ADDRESS_FAMILIES), Short(fs, MAX_DATAGRAM), Short(fs, TUNNEL_MTU), LeaseSeconds(fs),
            Optional(fs, IPV4_LEASE, 5), Optional(fs, IPV6_LEASE, 17), Optional(fs, EGRESS_POLICY, 8), Find(fs, DNS_PARAMETERS))
  }

  function Byte(fs: seq<Field>, kind: byte): byte
    requires ValidFor(fs, Tlv.Handshake) && (kind == VERSION || kind == ADDRESS_FAMILIES)
  {
    hide ValidFor;
    Value(fs, Tlv.Handshake, kind)[0]
  }

  function DeploymentOf(fs: seq<Field>): bytes
    requires ValidFor(fs, Tlv.Handshake)
  {
    hide ValidFor;
    Value(fs, Tlv.Handshake, DEPLOYMENT_ID)
  }

  function LeaseSeconds(fs: seq<Field>): uint32
    requires ValidFor(fs, Tlv.Handshake)
  {
    hide ValidFor;
    U32(Value(fs, Tlv.Handshake, Tlv.LEASE_SECONDS))
  }

  function Long(fs: seq<Field>, kind: byte): uint64
    requires ValidFor(fs, Tlv.Handshake) && (kind == CLIENT_CID || kind == SERVER_CID || kind == CAPABILITIES)
  {
    hide ValidFor;
    U64(Value(fs, Tlv.Handshake, kind))
  }

  function Short(fs: seq<Field>, kind: byte): uint16
    requires ValidFor(fs, Tlv.Handshake) && (kind == MAX_DATAGRAM || kind == TUNNEL_MTU)
  {
    hide ValidFor;
    U16(Value(fs, Tlv.Handshake, kind))
  }

  /** `unicast` says which addresses are global unicast and not loopback. */
  function Judge(
    v: Offered, deployment: Deployment, clientCid: uint64, o: ClientOptions, outerCid: uint64, unicast: bytes -> bool
  ): Option<(Negotiated, uint64)>
    requires v.Sized()
  {
    if v.version != Packets.VERSION_1 || v.deployment != deployment || v.clientCid != clientCid then None
    else if v.serverCid == 0 || v.serverCid != outerCid then None
    else if v.families == 0 || v.families > 3 || (V4(v.families) && !V4(o.families)) || (V6(v.families) && !V6(o.families)) then None
    else if v.maxDatagram < OVERHEAD || v.maxDatagram > o.maxDatagram then None
    else if v.mtu < o.minMtu || v.mtu > o.maxMtu || v.mtu > TunnelRoom(v.maxDatagram) then None
    else if v.leaseSeconds == 0 then None
    else if v.v4.Some? != V4(v.families) || v.v6.Some? != V6(v.families) then None
    else if v.v4.Some? && !unicast(v.v4.value[..4]) then None
    else if v.v6.Some? && !unicast(v.v6.value[..16]) then None
    else
      Some((Negotiated(v.capabilities, v.families, v.maxDatagram, v.mtu, v.leaseSeconds, OrEmpty(v.v4), OrEmpty(v.v6),
                       if v.egress.Some? then U64(v.egress.value) else 0, OrEmpty(v.dns)), v.serverCid))
  }

  function ValidateHandshake(
    fs: seq<Field>, deployment: Deployment, clientCid: uint64, o: ClientOptions, outerCid: uint64, unicast: bytes -> bool
  ): Option<(Negotiated, uint64)>
    requires ValidFor(fs, Tlv.Handshake)
  {
    Judge(Read(fs), deployment, clientCid, o, outerCid, unicast)
  }

  // ---------------------------------------------------------------------------------------------
  // Soundness
  // ---------------------------------------------------------------------------------------------

  lemma NormalClient(config: ClientConfig)
    requires NormalizeClient(config).Some?
    ensures var o := NormalizeClient(config).value;
      && 0 < o.families <= 3 && OVERHEAD + MIN_MTU <= o.maxDatagram && o.minMtu <= o.maxMtu
      && TunnelRoom(o.maxDatagram) == o.maxDatagram - OVERHEAD
      && (config.minMtu == 0 && config.maxMtu == 0 ==> o.minMtu == MIN_MTU && o.maxMtu == o.maxDatagram - OVERHEAD)
  {
  }

  lemma NormalServer(config: ServerConfig)
    requires NormalizeServer(config).Some?
    ensures var o := NormalizeServer(config).value;
      && 0 < o.families <= 3 && OVERHEAD + MIN_MTU <= o.maxDatagram && o.leaseSeconds > 0
      && TunnelRoom(o.maxDatagram) == o.maxDatagram - OVERHEAD
      && MIN_MTU <= o.tunnelMtu <= o.maxDatagram - OVERHEAD
      && LeaseOk(o.ipv4Lease, 4, 32) && LeaseOk(o.ipv6Lease, 16, 128) && (o.ipv4Lease != [] || o.ipv6Lease != [])
      && 0 < o.attempts.maxPending <= o.attempts.maxRecords
  {
    hide LeaseOk;
    NormalAttempts(config);
  }

  lemma NormalAttempts(config: ServerConfig)
    requires NormalizeAttempts(config).Some?
    ensures var a := NormalizeAttempts(config).value;
      0 < a.maxPending <= a.maxRecords && a.pendingTimeout > 0 && a.confirmGrace > 0 && a.retention > 0
  {
  }

  /** What normalizing produces, normalizing leaves alone. */
  lemma NormalizingTwice(cc: ClientConfig, sc: ServerConfig)
    ensures NormalizeClient(cc).Some? ==>
      var o := NormalizeClient(cc).value;
      NormalizeClient(cc.(families := o.families, maxDatagram := o.maxDatagram, minMtu := o.minMtu, maxMtu := o.maxMtu,
                          capabilities := o.capabilities, token := o.token)) == Some(o)
    ensures NormalizeServer(sc).Some? ==>
      var o := NormalizeServer(sc).value;
      NormalizeServer(sc.(families := o.families, maxDatagram := o.maxDatagram, tunnelMtu := o.tunnelMtu,
                          leaseSeconds := o.leaseSeconds, capabilities := o.capabilities, ipv4Lease := o.ipv4Lease,
                          ipv6Lease := o.ipv6Lease, egressPolicy := o.egressPolicy, dns := o.dns,
                          pendingTimeout := o.attempts.pendingTimeout, confirmGrace := o.attempts.confirmGrace,
                          retention := o.attempts.retention, maxPending := o.attempts.maxPending,
                          maxRecords := o.attempts.maxRecords)) == Some(o)
  {
    hide LeaseOk, ZeroId;
    if NormalizeClient(cc).Some? {
      NormalClient(cc);
    }
    if NormalizeServer(sc).Some? {
      NormalServer(sc);
      NormalAttempts(sc);
    }
  }

  /** What a server selects for any admitted request, computed without wrapping around. */
  lemma SelectionBounds(config: ServerConfig, families: byte, maxDatagram: uint16)
    requires NormalizeServer(config).Some? && maxDatagram >= OVERHEAD
    ensures var o := NormalizeServer(config).value; var size := Min16(maxDatagram, o.maxDatagram);
      && TunnelRoom(size) == size - OVERHEAD
      && match Select(o, families, maxDatagram)
         case Some(sel) =>
           && 0 < sel.families <= 3 && MIN_MTU <= sel.mtu <= sel.maxDatagram - OVERHEAD && sel.maxDatagram <= maxDatagram
           && Best(o, families, maxDatagram, sel)
         case None => maxDatagram < OVERHEAD + MIN_MTU || !Shares(o, families)
  {
    NormalServer(config);
    RoomWraps(Min16(maxDatagram, NormalizeServer(config).value.maxDatagram));
  }

  /** The families both sides can serve, the greatest size both allow, and the greatest MTU that fits it. */
  predicate Best(o: ServerOptions, families: byte, maxDatagram: uint16, sel: Selection) {
    && (V4(sel.families) <==> V4(families) && V4(o.families) && o.ipv4Lease != [])
    && (V6(sel.families) <==> V6(families) && V6(o.families) && o.ipv6Lease != [])
    && Lesser(sel.maxDatagram, maxDatagram, o.maxDatagram) && Lesser(sel.mtu, o.tunnelMtu, sel.maxDatagram - OVERHEAD)
  }

  predicate Lesser(x: int, a: int, b: int) {
    x <= a && x <= b && (x == a || x == b)
  }

  predicate Shares(o: ServerOptions, families: byte) {
    (V4(families) && V4(o.families) && o.ipv4Lease != []) || (V6(families) && V6(o.families) && o.ipv6Lease != [])
  }

  // What the client finds in a validated arrangement of the offer.

  lemma FoundAsOffered(fs: seq<Field>, offer: seq<Field>, f: Field)
    requires multiset(fs) == multiset(offer) && DistinctKinds(multiset(fs)) && f in offer
    ensures Find(fs, f.kind) == Some(f.value)
  {
    assert f in multiset(offer);
    FindOnly(fs, f);
  }

  lemma NotOffered(fs: seq<Field>, offer: seq<Field>, kind: byte)
    requires multiset(fs) == multiset(offer) && forall i :: 0 <= i < |offer| ==> offer[i].kind != kind
    ensures Find(fs, kind) == None
  {
    forall f | f in fs ensures f.kind != kind {
      assert f in multiset(fs);
      assert f in offer;
    }
  }

  lemma OfferedKinds(o: ServerOptions, deployment: Deployment, clientCid: uint64, serverCid: uint64, sel: Selection)
    ensures var offer := Offer(o, deployment, clientCid, serverCid, sel);
      forall f :: f in offer <==>
        f in OfferedBase(o, deployment, clientCid, serverCid, sel) || f in OfferedDns(o) || f in OfferedV4(o, sel) || f in OfferedV6(o, sel)
  {
    hide OfferedBase, OfferedDns, OfferedV4, OfferedV6;
  }

  lemma BaseFound(fs: seq<Field>, o: ServerOptions, deployment: Deployment, clientCid: uint64, serverCid: uint64, sel: Selection, i: nat)
    requires multiset(fs) == multiset(Offer(o, deployment, clientCid, serverCid, sel)) && DistinctKinds(multiset(fs)) && i < 10
    ensures var f := OfferedBase(o, deployment, clientCid, serverCid, sel)[i]; Find(fs, f.kind) == Some(f.value)
  {
    var base := OfferedBase(o, deployment, clientCid, serverCid, sel);
    assert |base| == 10;
    hide DistinctKinds, Find, OfferedBase, Offer;
    OfferedKinds(o, deployment, clientCid, serverCid, sel);
    assert base[i] in base;
    FoundAsOffered(fs, Offer(o, deployment, clientCid, serverCid, sel), base[i]);
  }

  lemma BaseKinds(o: ServerOptions, deployment: Deployment, clientCid: uint64, serverCid: uint64, sel: Selection, f: Field)
    requires f in OfferedBase(o, deployment, clientCid, serverCid, sel)
    ensures f.kind != DNS_PARAMETERS && f.kind != IPV4_LEASE && f.kind != IPV6_LEASE
  {
    hide Be16, Be32, Be64;
  }

  /** An optional field is found exactly when it is offered. */
  lemma OptionFound(
    fs: seq<Field>, o: ServerOptions, deployment: Deployment, clientCid: uint64, serverCid: uint64, sel: Selection,
    kind: byte, part: seq<Field>)
    requires multiset(fs) == multiset(Offer(o, deployment, clientCid, serverCid, sel)) && DistinctKinds(multiset(fs))
    requires (kind == DNS_PARAMETERS && part == OfferedDns(o)) || (kind == IPV4_LEASE && part == OfferedV4(o, sel))
      || (kind == IPV6_LEASE && part == OfferedV6(o, sel))
    ensures |part| <= 1 && Find(fs, kind) == if part == [] then None else Some(part[0].value)
  {
    hide DistinctKinds, Find, Offer, OfferedBase;
    var offer := Offer(o, deployment, clientCid, serverCid, sel);
    OfferedKinds(o, deployment, clientCid, serverCid, sel);
    if part != [] {
      assert part[0] in part;
      FoundAsOffered(fs, offer, part[0]);
    } else {
      forall f | f in offer ensures f.kind != kind {
        if f in OfferedBase(o, deployment, clientCid, serverCid, sel) {
          BaseKinds(o, deployment, clientCid, serverCid, sel, f);
        }
      }
      NotOffered(fs, offer, kind);
    }
  }

  /** The client reads the numbers the server put in. */
  lemma OfferRead(fs: seq<Field>, o: ServerOptions, deployment: Deployment, clientCid: uint64, serverCid: uint64, sel: Selection)
    requires multiset(fs) == multiset(Offer(o, deployment, clientCid, serverCid, sel)) && ValidFor(fs, Tlv.Handshake)
    ensures Read(fs) == Offered(
      Packets.VERSION_1, deployment, clientCid, serverCid, o.capabilities, sel.families, sel.maxDatagram, sel.mtu, o.leaseSeconds,
      if V4(sel.families) && o.ipv4Lease != [] then Some(o.ipv4Lease) else None,
      if V6(sel.families) && o.ipv6Lease != [] then Some(o.ipv6Lease) else None,
      Some(Be64(o.egressPolicy)), if o.dns != [] then Some(o.dns) else None)
  {
    hide DistinctKinds, Find, Offer, Be16, Be32, Be64, U16, U32, U64;
    var base := OfferedBase(o, deployment, clientCid, serverCid, sel);
    forall i: nat | i < 10 ensures Find(fs, base[i].kind) == Some(base[i].value) {
      BaseFound(fs, o, deployment, clientCid, serverCid, sel, i);
    }
    hide ValidFor;
    BaseIsFound(fs, base);
    OptionFound(fs, o, deployment, clientCid, serverCid, sel, DNS_PARAMETERS, OfferedDns(o));
    OptionFound(fs, o, deployment, clientCid, serverCid, sel, IPV4_LEASE, OfferedV4(o, sel));
    OptionFound(fs, o, deployment, clientCid, serverCid, sel, IPV6_LEASE, OfferedV6(o, sel));
  }

  lemma BaseIsFound(fs: seq<Field>, base: seq<Field>)
    requires |base| == 10 && forall i: nat :: i < 10 ==> Find(fs, base[i].kind) == Some(base[i].value)
    ensures Find(fs, base[0].kind) == Some(base[0].value) && Find(fs, base[1].kind) == Some(base[1].value)
    ensures Find(fs, base[2].kind) == Some(base[2].value) && Find(fs, base[3].kind) == Some(base[3].value)
    ensures Find(fs, base[4].kind) == Some(base[4].value) && Find(fs, base[5].kind) == Some(base[5].value)
    ensures Find(fs, base[6].kind) == Some(base[6].value) && Find(fs, base[7].kind) == Some(base[7].value)
    ensures Find(fs, base[8].kind) == Some(base[8].value) && Find(fs, base[9].kind) == Some(base[9].value)
  {
  }

  /** The client's own two conditions on an honest offer. */
  predicate Acceptable(c: ClientOptions, s: ServerOptions, sel: Selection, unicast: bytes -> bool)
    requires LeaseOk(s.ipv4Lease, 4, 32) && LeaseOk(s.ipv6Lease, 16, 128)
  {
    && c.minMtu <= sel.mtu <= c.maxMtu
    && (V4(sel.families) && s.ipv4Lease != [] ==> unicast(s.ipv4Lease[..4]))
    && (V6(sel.families) && s.ipv6Lease != [] ==> unicast(s.ipv6Lease[..16]))
  }

  function Agreed(s: ServerOptions, sel: Selection): Negotiated {
    Negotiated(s.capabilities, sel.families, sel.maxDatagram, sel.mtu, s.leaseSeconds,
               if V4(sel.families) then s.ipv4Lease else [], if V6(sel.families) then s.ipv6Lease else [], s.egressPolicy, s.dns)
  }

  /**
   Whatever two normalized configurations meet: the client accepts the offer a server makes it
   exactly when the leases are global unicast and the MTU is in its interval, and then it takes over
   exactly what the server selected.
   */
  lemma OfferAccepted(
    cc: ClientConfig, sc: ServerConfig, fs: seq<Field>, clientCid: uint64, serverCid: uint64, unicast: bytes -> bool)
    requires NormalizeClient(cc).Some? && NormalizeServer(sc).Some? && sc.deployment == cc.deployment && serverCid != 0
    requires Select(NormalizeServer(sc).value, NormalizeClient(cc).value.families, NormalizeClient(cc).value.maxDatagram).Some?
    requires ValidFor(fs, Tlv.Handshake)
    requires var (c, s) := (NormalizeClient(cc).value, NormalizeServer(sc).value);
      multiset(fs) == multiset(Offer(s, sc.deployment, clientCid, serverCid, Select(s, c.families, c.maxDatagram).value))
    ensures var (c, s) := (NormalizeClient(cc).value, NormalizeServer(sc).value);
      var sel := Select(s, c.families, c.maxDatagram).value;
      && LeaseOk(s.ipv4Lease, 4, 32) && LeaseOk(s.ipv6Lease, 16, 128)
      && ValidateHandshake(fs, cc.deployment, clientCid, c, serverCid, unicast) ==
         if Acceptable(c, s, sel, unicast) then Some((Agreed(s, sel), serverCid)) else None
  {
    hide NormalizeClient, NormalizeServer, ValidFor, Find, Offer, Read, TunnelRoom, Judge, Acceptable, LeaseOk;
    NormalClient(cc);
    NormalServer(sc);
    var (c, s) := (NormalizeClient(cc).value, NormalizeServer(sc).value);
    var sel := Select(s, c.families, c.maxDatagram).value;
    SelectionBounds(sc, c.families, c.maxDatagram);
    RoomWraps(sel.maxDatagram);
    OfferRead(fs, s, sc.deployment, clientCid, serverCid, sel);
    OfferJudged(Read(fs), c, s, sel, sc.deployment, clientCid, serverCid, unicast);
  }

  lemma OfferJudged(
    v: Offered, c: ClientOptions, s: ServerOptions, sel: Selection, deployment: Deployment, clientCid: uint64,
    serverCid: uint64, unicast: bytes -> bool)
    requires LeaseOk(s.ipv4Lease, 4, 32) && LeaseOk(s.ipv6Lease, 16, 128) && serverCid != 0 && s.leaseSeconds > 0
    requires Select(s, c.families, c.maxDatagram) == Some(sel) && v.Sized()
    requires OVERHEAD <= sel.maxDatagram <= c.maxDatagram && sel.mtu <= TunnelRoom(sel.maxDatagram)
    requires v == Offered(
      Packets.VERSION_1, deployment, clientCid, serverCid, s.capabilities, sel.families, sel.maxDatagram, sel.mtu, s.leaseSeconds,
      if V4(sel.families) && s.ipv4Lease != [] then Some(s.ipv4Lease) else None,
      if V6(sel.families) && s.ipv6Lease != [] then Some(s.ipv6Lease) else None,
      Some(Be64(s.egressPolicy)), if s.dns != [] then Some(s.dns) else None)
    ensures Judge(v, deployment, clientCid, c, serverCid, unicast) ==
      if Acceptable(c, s, sel, unicast) then Some((Agreed(s, sel), serverCid)) else None
  {
    hide TunnelRoom;
  }

  /** With the default interval the MTU is never the reason for a refusal. */
  lemma DefaultInterval(cc: ClientConfig, sc: ServerConfig)
    requires NormalizeClient(cc).Some? && NormalizeServer(sc).Some? && cc.minMtu == 0 && cc.maxMtu == 0
    requires Select(NormalizeServer(sc).value, NormalizeClient(cc).value.families, NormalizeClient(cc).value.maxDatagram).Some?
    ensures var (c, s) := (NormalizeClient(cc).value, NormalizeServer(sc).value);
      c.minMtu <= Select(s, c.families, c.maxDatagram).value.mtu <= c.maxMtu
  {
    hide NormalizeServer, NormalizeClient;
    NormalClient(cc);
    SelectionBounds(sc, NormalizeClient(cc).value.families, NormalizeClient(cc).value.maxDatagram);
  }

  /** A server refuses a normalized client's parameters only for want of a shared family. */
  lemma SelectsIfShared(cc: ClientConfig, sc: ServerConfig)
    requires NormalizeClient(cc).Some? && NormalizeServer(sc).Some?
    ensures var (c, s) := (NormalizeClient(cc).value, NormalizeServer(sc).value);
      Select(s, c.families, c.maxDatagram).Some? <==> Shares(s, c.families)
  {
    hide NormalizeServer, NormalizeClient;
    NormalClient(cc);
    NormalServer(sc);
    var (c, s) := (NormalizeClient(cc).value, NormalizeServer(sc).value);
    SelectionBounds(sc, c.families, c.maxDatagram);
  }

  // ---------------------------------------------------------------------------------------------
  // The INITIAL message
  // ---------------------------------------------------------------------------------------------

  function RequestFields(o: ClientOptions, deployment: Deployment, cid: uint64, public: Packets.Key): seq<Field> {
    [Field(VERSION, [Packets.VERSION_1]), Field(DEPLOYMENT_ID, deployment), Field(CLIENT_CID, Be64(cid)),
     Field(CAPABILITIES, Be64(o.capabilities)), Field(ADDRESS_FAMILIES, [o.families]),
     Field(MAX_DATAGRAM, Be16(o.maxDatagram)), Field(CLIENT_STATIC, public)]
  }

  lemma RequestFound(fs: seq<Field>, o: ClientOptions, deployment: Deployment, cid: uint64, public: Packets.Key)
    requires multiset(fs) == multiset(RequestFields(o, deployment, cid, public)) && DistinctKinds(multiset(fs))
    ensures Find(fs, VERSION) == Some([Packets.VERSION_1]) && Find(fs, DEPLOYMENT_ID) == Some(deployment)
    ensures Find(fs, CLIENT_CID) == Some(Be64(cid)) && Find(fs, ADDRESS_FAMILIES) == Some([o.families])
    ensures Find(fs, MAX_DATAGRAM) == Some(Be16(o.maxDatagram)) && Find(fs, CLIENT_STATIC) == Some(public)
    ensures Find(fs, TOKEN_ID).None? && Find(fs, TOKEN_PROOF).None?
  {
    hide DistinctKinds, Find, Be16, Be64;
    var request := RequestFields(o, deployment, cid, public);
    forall i | 0 <= i < |request| ensures Find(fs, request[i].kind) == Some(request[i].value) {
      FoundAsOffered(fs, request, request[i]);
    }
    assert request[0].kind == VERSION && request[1].kind == DEPLOYMENT_ID && request[2].kind == CLIENT_CID;
    assert request[4].kind == ADDRESS_FAMILIES && request[5].kind == MAX_DATAGRAM && request[6].kind == CLIENT_STATIC;
    NotOffered(fs, request, TOKEN_ID);
    NotOffered(fs, request, TOKEN_PROOF);
  }

  /** A normalized client's INITIAL is refused by its validator only for a foreign deployment or an unknown key. */
  lemma RequestAccepted(
    cc: ClientConfig, fs: seq<Field>, cid: uint64, public: Packets.Key, deployment: Deployment, registered: seq<Packets.Key>)
    requires NormalizeClient(cc).Some? && ValidFor(fs, Tlv.Initial)
    requires multiset(fs) == multiset(RequestFields(NormalizeClient(cc).value, cc.deployment, cid, public))
    ensures var o := NormalizeClient(cc).value;
      ValidateInitial(fs, deployment, registered, cid) ==
      if deployment == cc.deployment && public in registered then Some(Request(public, o.families, o.maxDatagram)) else None
  {
    hide NormalizeClient;
    NormalClient(cc);
    RequestFound(fs, NormalizeClient(cc).value, cc.deployment, cid, public);
    hide ValidFor, Find, Be16, Be64, U16, U64, RequestFields;
  }
}
