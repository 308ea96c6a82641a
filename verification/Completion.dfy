/**
 When the handshake goes through: exact sizes of both messages, and exact conditions under which
 Start and HandleInitial succeed. Nothing but sizes, degenerate Diffie-Hellman results, registration
 and a missing shared family stands between an honest client and an answer.
 */
module Completion {
  import opened Bytes
  import opened Packets
  import opened Negotiation
  import opened Handshakes
  import KeyLaws
  import Tlv

  type Field = Tlv.Field

  // ---------------------------------------------------------------------------------------------
  // Sizes
  // ---------------------------------------------------------------------------------------------

  function Size(fs: seq<Field>): nat {
    if fs == [] then 0 else 3 + |fs[0].value| + Size(fs[1..])
  }

  lemma {:induction false} EncodedSize(fs: seq<Field>)
    ensures |Tlv.Encode(fs)| == Size(fs)
  {
    if fs != [] {
      EncodedSize(fs[1..]);
    }
  }

  lemma {:induction false} SizeJoins(a: seq<Field>, b: seq<Field>)
    ensures Size(a + b) == Size(a) + Size(b)
  {
    if a == [] {
      assert a + b == b;
    } else {
      assert (a + b)[1..] == a[1..] + b;
      SizeJoins(a[1..], b);
    }
  }

  lemma SizeOne(f: Field)
    ensures Size([f]) == 3 + |f.value|
  {
    assert [f][1..] == [];
  }

  lemma SizeTwo(f: Field, g: Field)
    ensures Size([f, g]) == 6 + |f.value| + |g.value|
  {
    SizeOne(f);
    SizeOne(g);
    SizeJoins([f], [g]);
    assert [f] + [g] == [f, g];
  }

  lemma SizeSeven(fs: seq<Field>)
    requires |fs| == 7
    ensures Size(fs) == 21 + |fs[0].value| + |fs[1].value| + |fs[2].value| + |fs[3].value| + |fs[4].value| + |fs[5].value| + |fs[6].value|
  {
    SizeTwo(fs[0], fs[1]);
    SizeTwo(fs[2], fs[3]);
    SizeTwo(fs[4], fs[5]);
    SizeOne(fs[6]);
    var (a, b, c, d) := ([fs[0], fs[1]], [fs[2], fs[3]], [fs[4], fs[5]], [fs[6]]);
    SizeJoins(a, b);
    SizeJoins(a + b, c);
    SizeJoins(a + b + c, d);
    assert fs == a + b + c + d;
  }

  lemma IncreasingJoins(a: seq<Field>, b: seq<Field>)
    requires Tlv.Increasing(a) && Tlv.Increasing(b) && forall f, g :: f in a && g in b ==> f.kind < g.kind
    ensures Tlv.Increasing(a + b)
  {
  }

  // ---------------------------------------------------------------------------------------------
  // The INITIAL fields
  // ---------------------------------------------------------------------------------------------

  lemma RequestCanonical(o: ClientOptions, deployment: Deployment, cid: uint64, public: Key)
    ensures var fs := RequestFields(o, deployment, cid, public);
      && Size(fs) == 89 && Tlv.Canonical(fs) && (forall f :: f in fs ==> Tlv.FieldFits(f, Tlv.Initial))
  {
    hide Be16, Be64;
    var fs := RequestFields(o, deployment, cid, public);
    SizeSeven(fs);
    EncodedSize(fs);
  }

  lemma RequestPlaces(o: ClientOptions, deployment: Deployment, cid: uint64, public: Key)
    ensures var fs := RequestFields(o, deployment, cid, public);
      && (forall kind :: kind in Tlv.Required(Tlv.Initial) ==> Tlv.Has(fs, kind))
      && !Tlv.Has(fs, Tlv.TOKEN_ID) && !Tlv.Has(fs, Tlv.TOKEN_PROOF)
  {
    hide Be16, Be64;
    var fs := RequestFields(o, deployment, cid, public);
    assert fs[0] in fs && fs[1] in fs && fs[2] in fs && fs[3] in fs && fs[4] in fs && fs[5] in fs && fs[6] in fs;
  }

  /** A client's INITIAL fields always encode, to 89 bytes. */
  lemma RequestEncodes(o: ClientOptions, deployment: Deployment, cid: uint64, public: Key)
    ensures var r := Tlv.MarshalFor(RequestFields(o, deployment, cid, public), Tlv.Initial); r.Some? && |r.value| == 89
  {
    hide RequestFields, Tlv.DistinctKinds, Tlv.FieldFits, Tlv.Has, Tlv.Canonical, Tlv.Required, Tlv.Marshal;
    var fs := RequestFields(o, deployment, cid, public);
    RequestCanonical(o, deployment, cid, public);
    RequestPlaces(o, deployment, cid, public);
    CanonicalEncodes(fs, fs);
  }

  lemma CanonicalEncodes(fs: seq<Field>, s: seq<Field>)
    requires Tlv.Canonical(s) && multiset(s) == multiset(fs)
    ensures Tlv.Marshal(fs).Some? && |Tlv.Marshal(fs).value| == Size(s) && Tlv.DistinctKinds(multiset(fs))
  {
    Tlv.MarshalIs(fs, s);
    Tlv.IncreasingIsDistinct(s);
    EncodedSize(s);
  }

  // ---------------------------------------------------------------------------------------------
  // The HANDSHAKE fields
  // ---------------------------------------------------------------------------------------------

  function Head(o: ServerOptions): seq<Field> {
    [Tlv.Field(Tlv.EGRESS_POLICY, Be64(o.egressPolicy))]
  }

  function Middle(o: ServerOptions, deployment: Deployment, clientCid: uint64, serverCid: uint64, sel: Selection): seq<Field> {
    [Tlv.Field(Tlv.VERSION, [Packets.VERSION_1]), Tlv.Field(Tlv.DEPLOYMENT_ID, deployment),
     Tlv.Field(Tlv.CLIENT_CID, Be64(clientCid)), Tlv.Field(Tlv.SERVER_CID, Be64(serverCid)),
     Tlv.Field(Tlv.CAPABILITIES, Be64(o.capabilities)), Tlv.Field(Tlv.ADDRESS_FAMILIES, [sel.families]),
     Tlv.Field(Tlv.MAX_DATAGRAM, Be16(sel.maxDatagram))]
  }

  function Tail(o: ServerOptions, sel: Selection): seq<Field> {
    [Tlv.Field(Tlv.TUNNEL_MTU, Be16(sel.mtu)), Tlv.Field(Tlv.LEASE_SECONDS, Be32(o.leaseSeconds))]
  }

  /** The offer in canonical order. */
  function Sorted(o: ServerOptions, deployment: Deployment, clientCid: uint64, serverCid: uint64, sel: Selection): seq<Field> {
    Head(o) + OfferedDns(o) + Middle(o, deployment, clientCid, serverCid, sel) + OfferedV4(o, sel) + OfferedV6(o, sel) + Tail(o, sel)
  }

  function OfferSize(o: ServerOptions, sel: Selection): nat {
    88 + (if o.dns != [] then 3 + |o.dns| else 0)
    + (if V4(sel.families) && o.ipv4Lease != [] then 8 else 0) + (if V6(sel.families) && o.ipv6Lease != [] then 20 else 0)
  }

  lemma SortedIsOffer(o: ServerOptions, deployment: Deployment, clientCid: uint64, serverCid: uint64, sel: Selection)
    ensures multiset(Sorted(o, deployment, clientCid, serverCid, sel)) == multiset(Offer(o, deployment, clientCid, serverCid, sel))
  {
    BaseInParts(o, deployment, clientCid, serverCid, sel);
    hide OfferedBase, Head, Middle, Tail, OfferedDns, OfferedV4, OfferedV6;
    Shuffled(Head(o), Middle(o, deployment, clientCid, serverCid, sel), Tail(o, sel), OfferedDns(o), OfferedV4(o, sel), OfferedV6(o, sel));
  }

  lemma BaseInParts(o: ServerOptions, deployment: Deployment, clientCid: uint64, serverCid: uint64, sel: Selection)
    ensures OfferedBase(o, deployment, clientCid, serverCid, sel) == Head(o) + Middle(o, deployment, clientCid, serverCid, sel) + Tail(o, sel)
  {
    hide Be16, Be32, Be64;
  }

  lemma Shuffled(h: seq<Field>, m: seq<Field>, t: seq<Field>, a: seq<Field>, b: seq<Field>, c: seq<Field>)
    ensures multiset(h + a + m + b + c + t) == multiset(h + m + t + a + b + c)
  {
    BagOfSix(h, a, m, b, c, t);
    BagOfSix(h, m, t, a, b, c);
  }

  /** The bag of a concatenation is the sum of the bags. */
  lemma BagOfSix(u: seq<Field>, v: seq<Field>, w: seq<Field>, x: seq<Field>, y: seq<Field>, z: seq<Field>)
    ensures multiset(u + v + w + x + y + z) == multiset(u) + multiset(v) + multiset(w) + multiset(x) + multiset(y) + multiset(z)
  {
    assert multiset(u + v) == multiset(u) + multiset(v);
    assert multiset(u + v + w) == multiset(u + v) + multiset(w);
    assert multiset(u + v + w + x) == multiset(u + v + w) + multiset(x);
    assert multiset(u + v + w + x + y) == multiset(u + v + w + x) + multiset(y);
  }

  lemma SortedSize(o: ServerOptions, deployment: Deployment, clientCid: uint64, serverCid: uint64, sel: Selection)
    requires LeaseOk(o.ipv4Lease, 4, 32) && LeaseOk(o.ipv6Lease, 16, 128)
    ensures Size(Sorted(o, deployment, clientCid, serverCid, sel)) == OfferSize(o, sel)
  {
    hide Be16, Be32, Be64;
    var (h, a, m, b, c, t) :=
      (Head(o), OfferedDns(o), Middle(o, deployment, clientCid, serverCid, sel), OfferedV4(o, sel), OfferedV6(o, sel), Tail(o, sel));
    SizeOne(h[0]);
    SizeSeven(m);
    SizeTwo(t[0], t[1]);
    SizeOne(Tlv.Field(Tlv.DNS_PARAMETERS, o.dns));
    SizeOne(Tlv.Field(Tlv.IPV4_LEASE, o.ipv4Lease));
    SizeOne(Tlv.Field(Tlv.IPV6_LEASE, o.ipv6Lease));
    SizeJoinsAll(h, a, m, b, c, t);
  }

  lemma SizeJoinsAll(h: seq<Field>, a: seq<Field>, m: seq<Field>, b: seq<Field>, c: seq<Field>, t: seq<Field>)
    ensures Size(h + a + m + b + c + t) == Size(h) + Size(a) + Size(m) + Size(b) + Size(c) + Size(t)
  {
    SizeJoins(h, a);
    SizeJoins(h + a, m);
    SizeJoins(h + a + m, b);
    SizeJoins(h + a + m + b, c);
    SizeJoins(h + a + m + b + c, t);
  }

  /** All types of a list lie between two bounds. */
  predicate Within(fs: seq<Field>, low: int, high: int) {
    Tlv.Increasing(fs) && forall f :: f in fs ==> low <= f.kind <= high
  }

  lemma WithinJoins(a: seq<Field>, b: seq<Field>, low: int, mid: int, next: int, high: int)
    requires Within(a, low, mid) && Within(b, next, high) && low <= mid < next <= high
    ensures Within(a + b, low, high)
  {
    IncreasingJoins(a, b);
  }

  lemma SortedIncreases(o: ServerOptions, deployment: Deployment, clientCid: uint64, serverCid: uint64, sel: Selection)
    ensures Tlv.Increasing(Sorted(o, deployment, clientCid, serverCid, sel))
  {
    var (h, a, m, b, c, t) :=
      (Head(o), OfferedDns(o), Middle(o, deployment, clientCid, serverCid, sel), OfferedV4(o, sel), OfferedV6(o, sel), Tail(o, sel));
    assert Within(h, 0x0C, 0x0C) && Within(a, 0x0D, 0x0D) && Within(b, 0x88, 0x88) && Within(c, 0x89, 0x89) && Within(t, 0x8A, 0x8B);
    MiddleWithin(o, deployment, clientCid, serverCid, sel);
    hide Within, Head, Middle, Tail, OfferedDns, OfferedV4, OfferedV6;
    WithinJoins(h, a, 0x0C, 0x0C, 0x0D, 0x0D);
    WithinJoins(h + a, m, 0x0C, 0x0D, 0x81, 0x87);
    WithinJoins(h + a + m, b, 0x0C, 0x87, 0x88, 0x88);
    WithinJoins(h + a + m + b, c, 0x0C, 0x88, 0x89, 0x89);
    WithinJoins(h + a + m + b + c, t, 0x0C, 0x89, 0x8A, 0x8B);
    WithinIncreases(h + a + m + b + c + t, 0x0C, 0x8B);
  }

  lemma WithinIncreases(fs: seq<Field>, low: int, high: int)
    requires Within(fs, low, high)
    ensures Tlv.Increasing(fs)
  {
  }

  lemma MiddleWithin(o: ServerOptions, deployment: Deployment, clientCid: uint64, serverCid: uint64, sel: Selection)
    ensures Within(Middle(o, deployment, clientCid, serverCid, sel), 0x81, 0x87)
  {
    hide Be16, Be64;
  }

  ghost predicate AllFit(fs: seq<Field>) {
    forall f :: f in fs ==> Tlv.FieldFits(f, Tlv.Handshake) && |f.value| <= MAX_UINT16
  }

  lemma FitJoins(a: seq<Field>, b: seq<Field>)
    requires AllFit(a) && AllFit(b)
    ensures AllFit(a + b)
  {
  }

  lemma FixedFits(kind: byte, value: bytes)
    requires Tlv.FixedLength(kind) == Some(|value|) && Tlv.Allowed(kind, Tlv.Handshake) && kind != Tlv.IPV4_LEASE && kind != Tlv.IPV6_LEASE
    ensures AllFit([Tlv.Field(kind, value)])
  {
  }

  lemma HeadFits(o: ServerOptions)
    ensures AllFit(Head(o))
  {
    hide AllFit;
    FixedFits(Tlv.EGRESS_POLICY, Be64(o.egressPolicy));
  }

  lemma TailFits(o: ServerOptions, sel: Selection)
    ensures AllFit(Tail(o, sel))
  {
    hide AllFit, Be16, Be32;
    var (f, g) := (Tail(o, sel)[0], Tail(o, sel)[1]);
    FixedFits(f.kind, f.value);
    FixedFits(g.kind, g.value);
    FitJoins([f], [g]);
    assert [f] + [g] == Tail(o, sel);
  }

  lemma MiddleFits(o: ServerOptions, deployment: Deployment, clientCid: uint64, serverCid: uint64, sel: Selection)
    ensures AllFit(Middle(o, deployment, clientCid, serverCid, sel))
  {
    hide AllFit, Be16, Be64;
    var m := Middle(o, deployment, clientCid, serverCid, sel);
    FixedFits(m[0].kind, m[0].value);
    FixedFits(m[1].kind, m[1].value);
    FixedFits(m[2].kind, m[2].value);
    FixedFits(m[3].kind, m[3].value);
    FixedFits(m[4].kind, m[4].value);
    FixedFits(m[5].kind, m[5].value);
    FixedFits(m[6].kind, m[6].value);
    hide Middle;
    SevenFit(m);
  }

  lemma SevenFit(m: seq<Field>)
    requires |m| == 7 && AllFit([m[0]]) && AllFit([m[1]]) && AllFit([m[2]]) && AllFit([m[3]]) && AllFit([m[4]]) && AllFit([m[5]]) && AllFit([m[6]])
    ensures AllFit(m)
  {
    hide Tlv.FieldFits;
    forall i | 0 <= i < 7 ensures AllFit([m[i]]) {
    }
    forall f | f in m ensures Tlv.FieldFits(f, Tlv.Handshake) && |f.value| <= MAX_UINT16 {
      assert f in [f];
    }
  }

  lemma OptionalPartsFit(o: ServerOptions, sel: Selection)
    requires LeaseOk(o.ipv4Lease, 4, 32) && LeaseOk(o.ipv6Lease, 16, 128) && |o.dns| <= MAX_UINT16
    ensures AllFit(OfferedDns(o)) && AllFit(OfferedV4(o, sel)) && AllFit(OfferedV6(o, sel))
  {
  }

  lemma SortedFits(o: ServerOptions, deployment: Deployment, clientCid: uint64, serverCid: uint64, sel: Selection)
    requires LeaseOk(o.ipv4Lease, 4, 32) && LeaseOk(o.ipv6Lease, 16, 128) && |o.dns| <= MAX_UINT16
    ensures AllFit(Sorted(o, deployment, clientCid, serverCid, sel))
  {
    HeadFits(o);
    MiddleFits(o, deployment, clientCid, serverCid, sel);
    TailFits(o, sel);
    OptionalPartsFit(o, sel);
    hide AllFit, Head, Middle, Tail, OfferedDns, OfferedV4, OfferedV6;
    var (h, a, m, b, c, t) :=
      (Head(o), OfferedDns(o), Middle(o, deployment, clientCid, serverCid, sel), OfferedV4(o, sel), OfferedV6(o, sel), Tail(o, sel));
    FitJoins(h, a);
    FitJoins(h + a, m);
    FitJoins(h + a + m, b);
    FitJoins(h + a + m + b, c);
    FitJoins(h + a + m + b + c, t);
  }

  lemma SortedPlaces(o: ServerOptions, deployment: Deployment, clientCid: uint64, serverCid: uint64, sel: Selection)
    requires (V4(sel.families) && o.ipv4Lease != []) || (V6(sel.families) && o.ipv6Lease != [])
    ensures var fs := Sorted(o, deployment, clientCid, serverCid, sel);
      && (forall kind :: kind in Tlv.Required(Tlv.Handshake) ==> Tlv.Has(fs, kind))
      && (Tlv.Has(fs, Tlv.IPV4_LEASE) || Tlv.Has(fs, Tlv.IPV6_LEASE))
      && !Tlv.Has(fs, Tlv.TOKEN_ID) && !Tlv.Has(fs, Tlv.TOKEN_PROOF)
  {
    var fs := Sorted(o, deployment, clientCid, serverCid, sel);
    var (h, m, b, c, t) :=
      (Head(o) + OfferedDns(o), Middle(o, deployment, clientCid, serverCid, sel), OfferedV4(o, sel), OfferedV6(o, sel), Tail(o, sel));
    assert fs == h + m + b + c + t;
    SortedKinds(o, deployment, clientCid, serverCid, sel);
    NoTokens(fs);
    MiddleHas(o, deployment, clientCid, serverCid, sel);
    OthersHave(o, sel);
    hide Head, Middle, Tail, OfferedDns, OfferedV4, OfferedV6, Sorted, Tlv.Has, Tlv.Required;
    PartsHave(h, m, b, c, t);
    AllRequired(fs);
  }

  lemma PartsHave(h: seq<Field>, m: seq<Field>, b: seq<Field>, c: seq<Field>, t: seq<Field>)
    ensures forall kind :: Tlv.Has(m, kind) || Tlv.Has(b, kind) || Tlv.Has(c, kind) || Tlv.Has(t, kind) ==> Tlv.Has(h + m + b + c + t, kind)
  {
    hide Tlv.Has;
    PartsOccur(h, m, b, c, t);
    var fs := h + m + b + c + t;
    HasMore(m, fs);
    HasMore(b, fs);
    HasMore(c, fs);
    HasMore(t, fs);
  }

  lemma AllRequired(fs: seq<Field>)
    requires Tlv.Has(fs, Tlv.VERSION) && Tlv.Has(fs, Tlv.DEPLOYMENT_ID) && Tlv.Has(fs, Tlv.CLIENT_CID) && Tlv.Has(fs, Tlv.SERVER_CID)
    requires Tlv.Has(fs, Tlv.CAPABILITIES) && Tlv.Has(fs, Tlv.ADDRESS_FAMILIES) && Tlv.Has(fs, Tlv.MAX_DATAGRAM)
    requires Tlv.Has(fs, Tlv.TUNNEL_MTU) && Tlv.Has(fs, Tlv.LEASE_SECONDS)
    ensures forall kind :: kind in Tlv.Required(Tlv.Handshake) ==> Tlv.Has(fs, kind)
  {
    hide Tlv.Has;
  }

  lemma NoTokens(fs: seq<Field>)
    requires forall f :: f in fs ==> f.kind != Tlv.TOKEN_ID && f.kind != Tlv.TOKEN_PROOF
    ensures !Tlv.Has(fs, Tlv.TOKEN_ID) && !Tlv.Has(fs, Tlv.TOKEN_PROOF)
  {
  }

  lemma OthersHave(o: ServerOptions, sel: Selection)
    requires (V4(sel.families) && o.ipv4Lease != []) || (V6(sel.families) && o.ipv6Lease != [])
    ensures Tlv.Has(OfferedV4(o, sel), Tlv.IPV4_LEASE) || Tlv.Has(OfferedV6(o, sel), Tlv.IPV6_LEASE)
    ensures Tlv.Has(Tail(o, sel), Tlv.TUNNEL_MTU) && Tlv.Has(Tail(o, sel), Tlv.LEASE_SECONDS)
  {
    hide Be16, Be32;
    var (b, c, t) := (OfferedV4(o, sel), OfferedV6(o, sel), Tail(o, sel));
    assert t[0] in t && t[1] in t;
    assert (b != [] ==> b[0] in b) && (c != [] ==> c[0] in c);
  }

  lemma HasMore(part: seq<Field>, fs: seq<Field>)
    requires forall f :: f in part ==> f in fs
    ensures forall kind :: Tlv.Has(part, kind) ==> Tlv.Has(fs, kind)
  {
  }

  lemma PartsOccur(h: seq<Field>, m: seq<Field>, b: seq<Field>, c: seq<Field>, t: seq<Field>)
    ensures forall f :: f in h + m + b + c + t <==> f in h || f in m || f in b || f in c || f in t
  {
  }

  lemma MiddleHas(o: ServerOptions, deployment: Deployment, clientCid: uint64, serverCid: uint64, sel: Selection)
    ensures var m := Middle(o, deployment, clientCid, serverCid, sel);
      && Tlv.Has(m, Tlv.VERSION) && Tlv.Has(m, Tlv.DEPLOYMENT_ID) && Tlv.Has(m, Tlv.CLIENT_CID) && Tlv.Has(m, Tlv.SERVER_CID)
      && Tlv.Has(m, Tlv.CAPABILITIES) && Tlv.Has(m, Tlv.ADDRESS_FAMILIES) && Tlv.Has(m, Tlv.MAX_DATAGRAM)
  {
    hide Be16, Be64;
    var m := Middle(o, deployment, clientCid, serverCid, sel);
    assert m[0] in m && m[1] in m && m[2] in m && m[3] in m && m[4] in m && m[5] in m && m[6] in m;
  }

  lemma SortedKinds(o: ServerOptions, deployment: Deployment, clientCid: uint64, serverCid: uint64, sel: Selection)
    ensures forall f :: f in Sorted(o, deployment, clientCid, serverCid, sel) ==> f.kind != Tlv.TOKEN_ID && f.kind != Tlv.TOKEN_PROOF
  {
    hide Be16, Be32, Be64;
    PartsOccur(Head(o) + OfferedDns(o), Middle(o, deployment, clientCid, serverCid, sel), OfferedV4(o, sel), OfferedV6(o, sel), Tail(o, sel));
  }

  /** A server's offer always encodes, to its exact size, unless that size is beyond sixteen bits. */
  lemma OfferEncodes(o: ServerOptions, deployment: Deployment, clientCid: uint64, serverCid: uint64, sel: Selection)
    requires LeaseOk(o.ipv4Lease, 4, 32) && LeaseOk(o.ipv6Lease, 16, 128) && OfferSize(o, sel) <= MAX_UINT16
    requires (V4(sel.families) && o.ipv4Lease != []) || (V6(sel.families) && o.ipv6Lease != [])
    ensures var r := Tlv.MarshalFor(Offer(o, deployment, clientCid, serverCid, sel), Tlv.Handshake);
      r.Some? && |r.value| == OfferSize(o, sel)
  {
    hide Offer, Sorted, Tlv.DistinctKinds, Tlv.FieldFits, Tlv.Has, Tlv.Required, Tlv.Marshal, Tlv.Encode, Tlv.ValidField, LeaseOk;
    var (fs, s) := (Offer(o, deployment, clientCid, serverCid, sel), Sorted(o, deployment, clientCid, serverCid, sel));
    SortedIsOffer(o, deployment, clientCid, serverCid, sel);
    SortedSize(o, deployment, clientCid, serverCid, sel);
    SortedIncreases(o, deployment, clientCid, serverCid, sel);
    SortedFits(o, deployment, clientCid, serverCid, sel);
    SortedPlaces(o, deployment, clientCid, serverCid, sel);
    EncodedSize(s);
    FitIsValid(s);
    CanonicalEncodes(fs, s);
    Tlv.SameFieldsValid(s, fs, Tlv.Handshake);
  }

  lemma FitIsValid(fs: seq<Field>)
    requires AllFit(fs)
    ensures forall f :: f in fs ==> Tlv.ValidField(f) && |f.value| <= MAX_UINT16
  {
  }

  // ---------------------------------------------------------------------------------------------
  // Exact conditions
  // ---------------------------------------------------------------------------------------------

  const INITIAL_OVERHEAD: nat := HEADER_SIZE + 2 + KEY_SIZE + 2 + TAG_SIZE
  const HANDSHAKE_OVERHEAD: nat := HEADER_SIZE + KEY_SIZE + 2 + TAG_SIZE

  /** An INITIAL can be written exactly when it fits the datagram size. */
  lemma WritesInitial(
    c: Crypto, key: Key, context: bytes, token: bytes, ephemeral: Key, cid: uint64, plaintext: bytes, m: uint16)
    requires Lawful(c) && cid != 0 && m >= HEADER_SIZE
    ensures var size := INITIAL_OVERHEAD + |token| + |plaintext|; var w := WriteInitial(c, key, context, token, ephemeral, cid, plaintext, m);
      && (w.Some? <==> size <= m)
      && (w.Some? ==> |w.value.datagram| == size)
  {
    hide EncodeHeader, Lawful, InitialPrefix;
    var size := INITIAL_OVERHEAD + |token| + |plaintext|;
    var prefix := MakeInitialPrefix(token, ephemeral, |plaintext| + TAG_SIZE);
    if prefix.Some? {
      var ad := context + (EncodeHeader(Header(Packets.VERSION_1, INITIAL, 0, 0, cid, 0, (size - HEADER_SIZE) % 0x10000, 0)) + prefix.value);
      SealedSize(c, key, ad, plaintext);
      InitialPayload(token, ephemeral, prefix.value, c.seal(key, ad, plaintext));
      hide DecodeInitial;
    }
  }

  lemma SealedSize(c: Crypto, key: Key, ad: bytes, plaintext: bytes)
    requires Lawful(c)
    ensures |c.seal(key, ad, plaintext)| == |plaintext| + TAG_SIZE
  {
    assert c.open(key, ad, c.seal(key, ad, plaintext)) == Some(plaintext);
  }

  lemma InitialPayload(token: bytes, ephemeral: Key, prefix: bytes, encrypted: bytes)
    requires MakeInitialPrefix(token, ephemeral, |encrypted|) == Some(prefix)
    ensures |prefix| + |encrypted| <= MAX_UINT16 ==> DecodeInitial(prefix + encrypted).Some?
  {
    hide DecodeInitial, InitialPrefix;
    if |prefix| + |encrypted| <= MAX_UINT16 {
      InitialExact(prefix + encrypted, Packets.Initial(token, ephemeral, encrypted));
    }
  }

  /** A HANDSHAKE can be written exactly when it fits the datagram size. */
  lemma WritesHandshake(
    c: Crypto, key: Key, context: bytes, ephemeral: Key, clientCid: uint64, serverCid: uint64, plaintext: bytes, m: uint16)
    requires Lawful(c) && clientCid != 0 && serverCid != 0 && m >= HEADER_SIZE
    ensures var size := HANDSHAKE_OVERHEAD + |plaintext|; var w := WriteHandshake(c, key, context, ephemeral, clientCid, serverCid, plaintext, m);
      && (w.Some? <==> size <= m)
      && (w.Some? ==> |w.value.datagram| == size)
  {
    hide EncodeHeader, Lawful, HandshakePrefix;
    var size := HANDSHAKE_OVERHEAD + |plaintext|;
    var prefix := MakeHandshakePrefix(ephemeral, |plaintext| + TAG_SIZE);
    if prefix.Some? {
      var ad := context + (EncodeHeader(Header(Packets.VERSION_1, HANDSHAKE, 0, clientCid, serverCid, 0, (size - HEADER_SIZE) % 0x10000, 0)) + prefix.value);
      SealedSize(c, key, ad, plaintext);
      HandshakePayload(ephemeral, prefix.value, c.seal(key, ad, plaintext));
      hide DecodeHandshake;
    }
  }

  lemma HandshakePayload(ephemeral: Key, prefix: bytes, encrypted: bytes)
    requires MakeHandshakePrefix(ephemeral, |encrypted|) == Some(prefix)
    ensures |prefix| + |encrypted| <= MAX_UINT16 ==> DecodeHandshake(prefix + encrypted).Some?
  {
    hide DecodeHandshake, HandshakePrefix;
    if |prefix| + |encrypted| <= MAX_UINT16 {
      HandshakeExact(prefix + encrypted, Packets.Handshake(ephemeral, encrypted));
    }
  }

  /** Start succeeds exactly when the shared secret is usable and the datagram, 173 bytes and the token, fits. */
  lemma StartsExactly(c: Crypto, id: ClientIdentity, cc: ClientConfig, o: ClientOptions, cid: uint64, ephemeral: Key)
    requires Lawful(c) && NormalizeClient(cc) == Some(o) && cid != 0
    ensures var st := Start(c, id, o, cid, ephemeral); var es := c.dh(ephemeral, id.serverPublic);
      && (st.Some? <==> es.Some? && !IsZero(es.value) && 173 + |o.token| <= o.maxDatagram)
      && (st.Some? ==> |st.value.wire.datagram| == 173 + |o.token|)
  {
    hide NormalizeClient, WriteInitial, Lawful, RequestFields, Tlv.MarshalFor, IsZero;
    NormalClient(cc);
    RequestEncodes(o, id.deployment, cid, c.public(id.secret));
    var es := c.dh(ephemeral, id.serverPublic);
    if es.Some? && !IsZero(es.value) {
      var context := ContextBytes(id.deployment);
      var plaintext := Tlv.MarshalFor(RequestFields(o, id.deployment, cid, c.public(id.secret)), Tlv.Initial).value;
      WritesInitial(c, DeriveM1(c, context, es.value).value.key, context, o.token, c.public(ephemeral), cid, plaintext, o.maxDatagram);
    }
  }

  /** What it takes to answer an honest client, apart from registration and the size of its datagram. */
  ghost predicate CanAnswer(c: Crypto, p: Pair, st: Started, serverEphemeral: Key) {
    && Shares(p.so, p.co.families)
    && ServerSecrets(c, p.server.secret, serverEphemeral, c.public(p.client.secret), c.public(st.ephemeral), st.wire.transcript, st.es).Some?
    && Select(p.so, p.co.families, p.co.maxDatagram).Some?
    && var sel := Select(p.so, p.co.families, p.co.maxDatagram).value;
       HANDSHAKE_OVERHEAD + OfferSize(p.so, sel) <= sel.maxDatagram
  }

  /**
   An honest server answers an honest client exactly when the client's datagram fits, its key is
   registered, a family is shared, no shared secret is degenerate, and the answer fits the selected size.
   */
  lemma AnswersExactly(c: Crypto, p: Pair, cid: uint64, ephemeral: Key, serverCid: uint64, serverEphemeral: Key)
    requires p.Honest(c) && serverCid != 0 && Start(c, p.client, p.co, cid, ephemeral).Some?
    ensures var st := Start(c, p.client, p.co, cid, ephemeral).value;
      Respond(c, p.server, p.so, st.wire.datagram, serverCid, serverEphemeral).Some? <==>
        Fits(st.wire.datagram, p.so.maxDatagram) && c.public(p.client.secret) in p.server.registered && CanAnswer(c, p, st, serverEphemeral)
  {
    hide NormalizeClient, NormalizeServer, Start, Admit, Reply, Lawful, CanAnswer, Fits;
    AdmitsHonest(c, p, cid, ephemeral);
    StartedAs(c, p, cid, ephemeral);
    var st := Start(c, p.client, p.co, cid, ephemeral).value;
    var a := Admit(c, p.server, p.so, st.wire.datagram);
    if a.Some? {
      RepliesExactly(c, p, st, a.value, serverCid, serverEphemeral);
    }
  }

  lemma RepliesExactly(c: Crypto, p: Pair, st: Started, a: Admitted, serverCid: uint64, serverEphemeral: Key)
    requires p.Honest(c) && serverCid != 0 && st.cid != 0
    requires a.message.wire == st.wire && a.message.header.scid == st.cid && a.message.message.ephemeral == c.public(st.ephemeral)
    requires a.es == st.es && a.request == Request(c.public(p.client.secret), p.co.families, p.co.maxDatagram)
    ensures Reply(c, p.server, p.so, a, serverCid, serverEphemeral).Some? <==> CanAnswer(c, p, st, serverEphemeral)
  {
    hide NormalizeClient, NormalizeServer, Lawful, ServerSecrets, Offer, WriteHandshake, Tlv.MarshalFor, Select, LeaseOk, OfferSize;
    SelectsIfShared(p.cc, p.sc);
    NormalServer(p.sc);
    NormalClient(p.cc);
    SelectionBounds(p.sc, p.co.families, p.co.maxDatagram);
    var m2 := ServerSecrets(c, p.server.secret, serverEphemeral, c.public(p.client.secret), c.public(st.ephemeral), st.wire.transcript, st.es);
    var sel := Select(p.so, p.co.families, p.co.maxDatagram);
    if m2.Some? && sel.Some? {
      AnswerFits(c, p, st, m2.value.key, sel.value, serverCid, serverEphemeral);
    }
  }

  lemma AnswerFits(c: Crypto, p: Pair, st: Started, key: Key, sel: Selection, serverCid: uint64, serverEphemeral: Key)
    requires Lawful(c) && serverCid != 0 && st.cid != 0 && LeaseOk(p.so.ipv4Lease, 4, 32) && LeaseOk(p.so.ipv6Lease, 16, 128)
    requires Shares(p.so, p.co.families) && Best(p.so, p.co.families, p.co.maxDatagram, sel) && OVERHEAD <= sel.maxDatagram
    ensures var plaintext := Tlv.MarshalFor(Offer(p.so, p.server.deployment, st.cid, serverCid, sel), Tlv.Handshake);
      (plaintext.Some? && WriteHandshake(c, key, ContextBytes(p.server.deployment) + st.wire.transcript, c.public(serverEphemeral),
                                         st.cid, serverCid, plaintext.value, sel.maxDatagram).Some?)
      <==> HANDSHAKE_OVERHEAD + OfferSize(p.so, sel) <= sel.maxDatagram
  {
    hide Lawful, Offer, WriteHandshake, OfferSize, LeaseOk;
    var offer := Offer(p.so, p.server.deployment, st.cid, serverCid, sel);
    if OfferSize(p.so, sel) <= MAX_UINT16 {
      OfferEncodes(p.so, p.server.deployment, st.cid, serverCid, sel);
      hide Tlv.MarshalFor;
      WritesHandshake(c, key, ContextBytes(p.server.deployment) + st.wire.transcript, c.public(serverEphemeral), st.cid, serverCid,
                      Tlv.MarshalFor(offer, Tlv.Handshake).value, sel.maxDatagram);
    } else {
      OversizedOffer(p.so, p.server.deployment, st.cid, serverCid, sel);
    }
  }

  lemma OversizedOffer(o: ServerOptions, deployment: Deployment, clientCid: uint64, serverCid: uint64, sel: Selection)
    requires LeaseOk(o.ipv4Lease, 4, 32) && LeaseOk(o.ipv6Lease, 16, 128) && OfferSize(o, sel) > MAX_UINT16
    ensures Tlv.Marshal(Offer(o, deployment, clientCid, serverCid, sel)) == None
  {
    hide Offer, Sorted, OfferSize, LeaseOk, Tlv.Encode, Tlv.Marshal, Tlv.ValidField;
    var (fs, s) := (Offer(o, deployment, clientCid, serverCid, sel), Sorted(o, deployment, clientCid, serverCid, sel));
    SortedIsOffer(o, deployment, clientCid, serverCid, sel);
    SortedSize(o, deployment, clientCid, serverCid, sel);
    SortedIncreases(o, deployment, clientCid, serverCid, sel);
    EncodedSize(s);
    Tlv.Refused(fs, s);
  }

  /** Without a token, DNS parameters or degenerate secrets an honest handshake between parties that share a family completes. */
  lemma PlainHandshakeCompletes(
    c: Crypto, p: Pair, cid: uint64, ephemeral: Key, serverCid: uint64, serverEphemeral: Key, unicast: bytes -> bool)
    requires p.Honest(c) && cid != 0 && serverCid != 0 && p.co.token == [] && p.so.dns == []
    requires c.public(p.client.secret) in p.server.registered && Shares(p.so, p.co.families)
    requires c.dh(ephemeral, p.client.serverPublic).Some? && !IsZero(c.dh(ephemeral, p.client.serverPublic).value)
    ensures var st := Start(c, p.client, p.co, cid, ephemeral);
      && st.Some?
      && (ServerSecrets(c, p.server.secret, serverEphemeral, c.public(p.client.secret), c.public(ephemeral), st.value.wire.transcript, st.value.es).Some? ==>
            Respond(c, p.server, p.so, st.value.wire.datagram, serverCid, serverEphemeral).Some?)
  {
    hide NormalizeClient, NormalizeServer, Start, Respond, Lawful, Select, IsZero, ServerSecrets, LeaseOk;
    NormalClient(p.cc);
    NormalServer(p.sc);
    StartsExactly(c, p.client, p.cc, p.co, cid, ephemeral);
    StartedAs(c, p, cid, ephemeral);
    AnswersExactly(c, p, cid, ephemeral, serverCid, serverEphemeral);
    SelectsIfShared(p.cc, p.sc);
    SelectionBounds(p.sc, p.co.families, p.co.maxDatagram);
  }

  /** The premises can be met: primitives that obey the laws, and a pair that shares IPv4. */
  lemma HonestPairExists() returns (c: Crypto, p: Pair)
    ensures p.Honest(c) && Shares(p.so, p.co.families) && c.public(p.client.secret) in p.server.registered
    ensures forall a: Key, b: Key :: c.dh(a, b).Some? && !IsZero(c.dh(a, b).value)
    ensures KeyLaws.Separates(c)
  {
    var ones: Key := seq(KEY_SIZE, _ => 1);
    var tag: bytes := seq(TAG_SIZE, _ => 0);
    c := Crypto(k => k, (a, b) => Some(ones), b => ones, (a, b) => ones, KeyLaws.InfoFront(9), (k, ad, plain) => plain + tag,
                (k, ad, ct) => if |ct| >= TAG_SIZE then Some(ct[..|ct| - TAG_SIZE]) else None);
    var id: Deployment := seq(16, _ => 1);
    assert ones[0] == 1 && id[0] == 1;
    var cc := ClientConfig(id, Some(ones), ones, [], 0, 0, 0, 0, 0);
    var sc := ServerConfig(id, Some(ones), [ones], 0, 0, 0, 0, 0, [10, 0, 0, 2, 24], [], 0, [], 0, 0, 0, 0, 0);
    forall k: Key, ad: bytes, plain: bytes ensures c.open(k, ad, c.seal(k, ad, plain)) == Some(plain) {
      CutConcat(plain, tag);
    }
    FrontSeparates(c);
    p := Pair(cc, sc, ClientIdentity(id, ones, ones), ServerIdentity(id, ones, [ones]), NormalizeClient(cc).value, NormalizeServer(sc).value);
  }

  lemma FrontSeparates(c: Crypto)
    requires c.expand == KeyLaws.InfoFront(9)
    ensures KeyLaws.Separates(c)
  {
    forall prk: Key, u: bytes, v: bytes | |u| >= 9 && |v| >= 9 && u[..9] != v[..9] ensures c.expand(prk, u) != c.expand(prk, v) {
      CutConcat(u[..9], KeyLaws.ZEROS[9..]);
      CutConcat(v[..9], KeyLaws.ZEROS[9..]);
    }
  }
}
