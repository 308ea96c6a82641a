/**
 The canonical type-length-value streams of codec/tlv.go.

 `Canonical` and `Encode` say which field lists have an encoding and what it is; the parser is
 proved to accept exactly the encodings of canonical lists, and the printer to find the canonical
 arrangement of any list that has one.
 */
module Tlv {
  import opened Bytes

  datatype Field = Field(kind: byte, value: bytes)

  const EGRESS_POLICY: byte := 0x0C
  const DNS_PARAMETERS: byte := 0x0D
  const VERSION: byte := 0x81
  const DEPLOYMENT_ID: byte := 0x82
  const CLIENT_CID: byte := 0x83
  const SERVER_CID: byte := 0x84
  const CAPABILITIES: byte := 0x85
  const ADDRESS_FAMILIES: byte := 0x86
  const MAX_DATAGRAM: byte := 0x87
  const IPV4_LEASE: byte := 0x88
  const IPV6_LEASE: byte := 0x89
  const TUNNEL_MTU: byte := 0x8A
  const LEASE_SECONDS: byte := 0x8B
  const CLIENT_STATIC: byte := 0x8C
  const TOKEN_ID: byte := 0x8D
  const TOKEN_PROOF: byte := 0x8E

  datatype Context = Any | Initial | Handshake | Unknown

  // ---------------------------------------------------------------------------------------------
  // Tables
  // ---------------------------------------------------------------------------------------------

  predicate Known(kind: byte) {
    kind == EGRESS_POLICY || kind == DNS_PARAMETERS || VERSION <= kind <= TOKEN_PROOF
  }

  function FixedLength(kind: byte): Option<nat> {
    if kind == EGRESS_POLICY || kind == CLIENT_CID || kind == SERVER_CID || kind == CAPABILITIES then Some(8)
    else if kind == VERSION || kind == ADDRESS_FAMILIES then Some(1)
    else if kind == DEPLOYMENT_ID || kind == TOKEN_ID then Some(16)
    else if kind == MAX_DATAGRAM || kind == TUNNEL_MTU then Some(2)
    else if kind == IPV4_LEASE then Some(5)
    else if kind == IPV6_LEASE then Some(17)
    else if kind == LEASE_SECONDS then Some(4)
    else if kind == CLIENT_STATIC || kind == TOKEN_PROOF then Some(32)
    else None
  }

  predicate Allowed(kind: byte, context: Context) {
    match context
    case Initial =>
      kind in [VERSION, DEPLOYMENT_ID, CLIENT_CID, CAPABILITIES, ADDRESS_FAMILIES, MAX_DATAGRAM,
               CLIENT_STATIC, TOKEN_ID, TOKEN_PROOF]
    case Handshake =>
      kind in [EGRESS_POLICY, DNS_PARAMETERS, VERSION, DEPLOYMENT_ID, CLIENT_CID, SERVER_CID, CAPABILITIES,
               ADDRESS_FAMILIES, MAX_DATAGRAM, IPV4_LEASE, IPV6_LEASE, TUNNEL_MTU, LEASE_SECONDS]
    case _ => false
  }

  function Required(context: Context): seq<byte> {
    match context
    case Initial =>
      [VERSION, DEPLOYMENT_ID, CLIENT_CID, CAPABILITIES, ADDRESS_FAMILIES, MAX_DATAGRAM, CLIENT_STATIC]
    case Handshake =>
      [VERSION, DEPLOYMENT_ID, CLIENT_CID, SERVER_CID, CAPABILITIES, ADDRESS_FAMILIES, MAX_DATAGRAM,
       TUNNEL_MTU, LEASE_SECONDS]
    case _ => []
  }

  /** Critical types (high bit set) must be known, and fixed-size types have their size. */
  predicate ValidField(f: Field) {
    && (f.kind >= 0x80 ==> Known(f.kind))
    && (FixedLength(f.kind).Some? ==> |f.value| == FixedLength(f.kind).value)
  }

  // ---------------------------------------------------------------------------------------------
  // The encoding
  // ---------------------------------------------------------------------------------------------

  function EncodeField(f: Field): (b: bytes)
    ensures |b| == 3 + |f.value|
  {
    [f.kind] + Be16(Low16(|f.value|)) + f.value
  }

  function Encode(fs: seq<Field>): bytes {
    if fs == [] then [] else EncodeField(fs[0]) + Encode(fs[1..])
  }

  predicate Increasing(fs: seq<Field>) {
    forall i, j :: 0 <= i < j < |fs| ==> fs[i].kind < fs[j].kind
  }

  /** Strictly increasing types, each above `floor`, every field well formed. */
  predicate CanonicalAbove(fs: seq<Field>, floor: int) {
    && Increasing(fs)
    && forall f :: f in fs ==> floor < f.kind && ValidField(f) && |f.value| <= MAX_UINT16
  }

  predicate Canonical(fs: seq<Field>) {
    CanonicalAbove(fs, -1) && |Encode(fs)| <= MAX_UINT16
  }

  /** One more field in front. */
  lemma CanonicalCons(f: Field, rest: seq<Field>, floor: int)
    requires floor < f.kind && ValidField(f) && |f.value| <= MAX_UINT16
    requires CanonicalAbove(rest, f.kind)
    ensures CanonicalAbove([f] + rest, floor)
    ensures Encode([f] + rest) == EncodeField(f) + Encode(rest)
  {
    hide ValidField, EncodeField;
    assert ([f] + rest)[1..] == rest;
  }

  lemma {:induction false} EncodeConcat(a: seq<Field>, b: seq<Field>)
    ensures Encode(a + b) == Encode(a) + Encode(b)
  {
    hide EncodeField;
    if a == [] {
      assert a + b == b;
    } else {
      EncodeConcat(a[1..], b);
      assert (a + b)[1..] == a[1..] + b;
      Associates(EncodeField(a[0]), Encode(a[1..]), Encode(b));
    }
  }

  // ---------------------------------------------------------------------------------------------
  // Parsing
  // ---------------------------------------------------------------------------------------------

  function Decode(data: bytes, floor: int): Option<seq<Field>>
    decreases |data|
  {
    if data == [] then Some([])
    else if |data| < 3 then None
    else
      var (kind, length) := (data[0], U16(data[1..3]));
      if kind <= floor || length > |data| - 3 then None
      else
        var f := Field(kind, data[3..3 + length]);
        if !ValidField(f) then None else Prepend([f], Decode(data[3 + length..], kind))
  }

  function Parse(data: bytes): Option<seq<Field>> {
    if |data| > MAX_UINT16 then None else Decode(data, -1)
  }

  lemma {:induction false} DecodeSound(data: bytes, floor: int)
    ensures var r := Decode(data, floor); r.Some? ==> CanonicalAbove(r.value, floor) && Encode(r.value) == data
    decreases |data|
  {
    hide ValidField, EncodeField;
    var r := Decode(data, floor);
    if r.Some? && data != [] {
      var (kind, length) := (data[0], U16(data[1..3]));
      DecodeSound(data[3 + length..], kind);
      var rest := Decode(data[3 + length..], kind).value;
      CanonicalCons(Field(kind, data[3..3 + length]), rest, floor);
      FieldAtFront(data, length);
    }
  }

  lemma FieldAtFront(data: bytes, length: nat)
    requires |data| >= 3 + length && length == U16(data[1..3])
    ensures EncodeField(Field(data[0], data[3..3 + length])) + data[3 + length..] == data
  {
    Be16OfU16(data[1..3]);
    assert data == [data[0]] + data[1..3] + data[3..3 + length] + data[3 + length..];
  }

  lemma EncodedFront(f: Field, rest: bytes)
    requires |f.value| <= MAX_UINT16
    ensures var data := EncodeField(f) + rest;
      && |data| == 3 + |f.value| + |rest|
      && data[0] == f.kind && U16(data[1..3]) == |f.value|
      && data[3..3 + |f.value|] == f.value && data[3 + |f.value|..] == rest
  {
    var data := EncodeField(f) + rest;
    assert data[1..3] == Be16(|f.value|);
  }

  lemma {:induction false} DecodeComplete(fs: seq<Field>, floor: int)
    requires CanonicalAbove(fs, floor)
    ensures Decode(Encode(fs), floor) == Some(fs)
  {
    hide ValidField, EncodeField;
    if fs != [] {
      var (f, rest) := (fs[0], fs[1..]);
      forall g | g in rest ensures f.kind < g.kind {
        var i :| 0 <= i < |rest| && rest[i] == g;
        assert g == fs[i + 1];
      }
      DecodeComplete(rest, f.kind);
      EncodedFront(f, Encode(rest));
      assert fs == [f] + rest;
    }
  }

  /**
   The parser accepts exactly the canonical encodings, and returns the one list each encodes. So
   every accepted stream re-encodes to itself and no two accepted streams mean the same fields.
   */
  lemma ParseExact(data: bytes, fs: seq<Field>)
    ensures Parse(data) == Some(fs) <==> Canonical(fs) && data == Encode(fs)
  {
    DecodeSound(data, -1);
    if Canonical(fs) && data == Encode(fs) {
      DecodeComplete(fs, -1);
    }
  }

  /** What decoding from an offset comes to, said about the whole data. */
  lemma DecodeAt(data: bytes, offset: nat, floor: int)
    requires offset <= |data|
    ensures offset == |data| ==> Decode(data[offset..], floor) == Some([])
    ensures 0 < |data| - offset < 3 ==> Decode(data[offset..], floor) == None
    ensures |data| - offset >= 3 ==>
      var (kind, length, at) := (data[offset], U16(data[offset + 1..offset + 3]), offset + 3);
      Decode(data[offset..], floor) ==
        if kind <= floor || length > |data| - at then None
        else
          var f := Field(kind, data[at..at + length]);
          if !ValidField(f) then None else Prepend([f], Decode(data[at + length..], kind))
  {
    hide ValidField, Prepend, U16;
    if |data| - offset >= 3 {
      SliceOfSuffix(data, offset, 1, 3);
      var length := U16(data[offset + 1..offset + 3]);
      if length <= |data| - offset - 3 {
        SliceOfSuffix(data, offset, 3, 3 + length);
      }
    }
  }

  method ParseTlvs(data: bytes) returns (r: Option<seq<Field>>)
    ensures r == Parse(data)
  {
    hide ValidField, Decode, U16;
    if |data| > MAX_UINT16 {
      return None;
    }
    var fields: seq<Field> := [];
    var offset := 0;
    var previous: int := -1;
    assert data[offset..] == data;
    PrependNothing(Decode(data, -1));
    while offset < |data|
      invariant 0 <= offset <= |data|
      invariant Decode(data, -1) == Prepend(fields, Decode(data[offset..], previous))
    {
      DecodeAt(data, offset, previous);
      if |data| - offset < 3 {
        return None;
      }
      var kind := data[offset];
      var length := U16(data[offset + 1..offset + 3]);
      if kind <= previous {
        return None;
      }
      var valueOffset := offset + 3;
      if length > |data| - valueOffset {
        return None;
      }
      var field := Field(kind, data[valueOffset..valueOffset + length]);
      if !ValidField(field) {
        return None;
      }
      PrependTwice(fields, field, Decode(data[valueOffset + length..], kind));
      fields := fields + [field];
      previous := kind;
      offset := valueOffset + length;
    }
    DecodeAt(data, offset, previous);
    assert fields + [] == fields;
    r := Some(fields);
  }

  // ---------------------------------------------------------------------------------------------
  // Printing
  // ---------------------------------------------------------------------------------------------

  /** No type occurs twice, said of the fields as a bag. */
  ghost predicate DistinctKinds(m: multiset<Field>) {
    forall f, g :: f in m && g in m && f.kind == g.kind ==> f == g && m[f] == 1
  }

  /** s is the canonical arrangement of the fields in fs. */
  ghost predicate Arranges(s: seq<Field>, fs: seq<Field>) {
    multiset(s) == multiset(fs) && Canonical(s)
  }

  ghost function Marshal(fs: seq<Field>): Option<bytes> {
    if exists s :: Arranges(s, fs) then (var s :| Arranges(s, fs); Some(Encode(s))) else None
  }

  lemma MemberOfBag<T>(s: seq<T>, x: T)
    ensures x in s <==> x in multiset(s)
  {
  }

  lemma {:induction false} IncreasingIsDistinct(s: seq<Field>)
    requires Increasing(s)
    ensures DistinctKinds(multiset(s))
  {
    hide DistinctKinds, Increasing;
    if s == [] {
      NoKinds();
    } else {
      var (front, last) := (s[..|s| - 1], s[|s| - 1]);
      LastIsLargest(s);
      IncreasingIsDistinct(front);
      OneMoreKind(front, last);
      assert s == front + [last];
    }
  }

  lemma LastIsLargest(s: seq<Field>)
    requires Increasing(s) && s != []
    ensures Increasing(s[..|s| - 1]) && forall g :: g in s[..|s| - 1] ==> g.kind < s[|s| - 1].kind
  {
  }

  lemma TwoPlaces(s: seq<Field>, i: nat, j: nat)
    requires i < j < |s| && s[i] == s[j]
    ensures multiset(s)[s[i]] >= 2
  {
    assert s == s[..j] + s[j..];
    assert multiset(s) == multiset(s[..j]) + multiset(s[j..]);
    assert s[..j][i] in multiset(s[..j]) && s[j..][0] in multiset(s[j..]);
  }

  predicate Ordered(s: seq<Field>) {
    forall i, j :: 0 <= i < j < |s| ==> s[i].kind <= s[j].kind
  }

  lemma DistinctOrderedIsIncreasing(s: seq<Field>)
    requires Ordered(s) && DistinctKinds(multiset(s))
    ensures Increasing(s)
  {
    forall i, j | 0 <= i < j < |s| ensures s[i].kind < s[j].kind {
      if s[i].kind == s[j].kind {
        assert s[i] in multiset(s) && s[j] in multiset(s);
        TwoPlaces(s, i, j);
      }
    }
  }

  /** The canonical arrangement is unique: whatever the sorting algorithm, the order is the same. */
  lemma {:induction false} OneArrangement(a: seq<Field>, b: seq<Field>)
    requires Increasing(a) && Increasing(b) && multiset(a) == multiset(b)
    ensures a == b
  {
    hide Increasing;
    assert |multiset(a)| == |a| && |multiset(b)| == |b|;
    if a != [] {
      SmallestFirst(a, b);
      SmallestFirst(b, a);
      WithoutFirst(a);
      WithoutFirst(b);
      OneArrangement(a[1..], b[1..]);
      assert a == [a[0]] + a[1..] && b == [b[0]] + b[1..];
    }
  }

  lemma WithoutFirst(a: seq<Field>)
    requires a != [] && Increasing(a)
    ensures multiset(a[1..]) == multiset(a) - multiset{a[0]} && Increasing(a[1..])
  {
    assert a == [a[0]] + a[1..];
  }

  lemma SmallestFirst(a: seq<Field>, b: seq<Field>)
    requires a != [] && b != [] && Increasing(a) && Increasing(b) && multiset(a) == multiset(b)
    ensures a[0].kind <= b[0].kind
    ensures a[0].kind == b[0].kind ==> a[0] == b[0]
  {
    MemberOfBag(a, b[0]);
    assert b[0] in multiset(b);
    var i :| 0 <= i < |a| && a[i] == b[0];
  }

  lemma MarshalIs(fs: seq<Field>, s: seq<Field>)
    requires Arranges(s, fs)
    ensures Marshal(fs) == Some(Encode(s))
  {
    var t :| Arranges(t, fs) && Marshal(fs) == Some(Encode(t));
    OneArrangement(s, t);
  }

  /** Any accepted list parses back as its canonical arrangement. */
  lemma MarshalParses(fs: seq<Field>)
    requires Marshal(fs).Some?
    ensures exists s :: Arranges(s, fs) && Parse(Marshal(fs).value) == Some(s)
  {
    var s :| Arranges(s, fs);
    MarshalIs(fs, s);
    ParseExact(Encode(s), s);
  }

  /** Any accepted stream re-encodes to itself. */
  lemma ParseMarshals(data: bytes)
    requires Parse(data).Some?
    ensures Marshal(Parse(data).value) == Some(data)
  {
    var fs := Parse(data).value;
    ParseExact(data, fs);
    MarshalIs(fs, fs);
  }

  /** The order in which fields are handed over does not matter. */
  lemma MarshalPermutes(fs: seq<Field>, gs: seq<Field>)
    requires multiset(fs) == multiset(gs)
    ensures Marshal(fs) == Marshal(gs)
  {
    if s :| Arranges(s, fs) {
      assert Arranges(s, gs);
      MarshalIs(fs, s);
      MarshalIs(gs, s);
    } else {
      assert forall s :: Arranges(s, gs) ==> Arranges(s, fs);
    }
  }

  /** Sorting by type; the result is one of the orderings a library sort may return. */
  method SortByKind(fs: seq<Field>) returns (s: seq<Field>)
    ensures multiset(s) == multiset(fs) && Ordered(s)
  {
    s := [];
    for n := 0 to |fs|
      invariant multiset(s) == multiset(fs[..n]) && Ordered(s)
    {
      assert fs[..n + 1] == fs[..n] + [fs[n]];
      s := Insert(s, fs[n]);
    }
    assert fs[..|fs|] == fs;
  }

  method Insert(s: seq<Field>, f: Field) returns (t: seq<Field>)
    requires Ordered(s)
    ensures Ordered(t) && multiset(t) == multiset(s) + multiset{f}
  {
    var at := 0;
    while at < |s| && s[at].kind <= f.kind
      invariant 0 <= at <= |s|
      invariant forall i :: 0 <= i < at ==> s[i].kind <= f.kind
    {
      at := at + 1;
    }
    Inserted(s, at, f);
    t := s[..at] + [f] + s[at..];
  }

  lemma Inserted(s: seq<Field>, at: nat, f: Field)
    requires at <= |s| && Ordered(s)
    requires forall i :: 0 <= i < at ==> s[i].kind <= f.kind
    requires at < |s| ==> f.kind <= s[at].kind
    ensures var t := s[..at] + [f] + s[at..]; Ordered(t) && multiset(t) == multiset(s) + multiset{f}
  {
    InsertedBag(s, at, f);
    var t := s[..at] + [f] + s[at..];
    forall i, j | 0 <= i < j < |t| ensures t[i].kind <= t[j].kind {
      assert t[j] == if j < at then s[j] else if j == at then f else s[j - 1];
      assert t[i] == if i < at then s[i] else if i == at then f else s[i - 1];
    }
  }

  lemma InsertedBag(s: seq<Field>, at: nat, f: Field)
    requires at <= |s|
    ensures multiset(s[..at] + [f] + s[at..]) == multiset(s) + multiset{f}
  {
    assert s == s[..at] + s[at..];
    assert multiset(s) == multiset(s[..at]) + multiset(s[at..]);
  }

  lemma EncodeOne(f: Field)
    ensures Encode([f]) == EncodeField(f)
  {
    hide EncodeField;
    assert [f][1..] == [];
    assert EncodeField(f) + [] == EncodeField(f);
  }

  lemma EncodeNext(s: seq<Field>, i: nat)
    requires i < |s|
    ensures Encode(s[..i + 1]) == Encode(s[..i]) + EncodeField(s[i])
    ensures |Encode(s[..i + 1])| == |Encode(s[..i])| + 3 + |s[i].value|
    ensures |Encode(s[..i + 1])| <= |Encode(s)|
  {
    EncodeConcat(s[..i], [s[i]]);
    TakeNext(s, i);
    EncodeOne(s[i]);
    EncodeConcat(s[..i + 1], s[i + 1..]);
    TakeDrop(s, i + 1);
  }

  /** A list no arrangement of which is canonical, seen from one sorted arrangement. */
  lemma Refused(fs: seq<Field>, s: seq<Field>)
    requires multiset(s) == multiset(fs) && Ordered(s) && !Canonical(s)
    ensures Marshal(fs) == None
  {
    if t :| Arranges(t, fs) {
      IncreasingIsDistinct(t);
      DistinctOrderedIsIncreasing(s);
      OneArrangement(s, t);
    }
  }

  method MarshalTlvs(fields: seq<Field>) returns (r: Option<bytes>)
    ensures r == Marshal(fields)
  {
    hide EncodeField, ValidField;
    var canonical := SortByKind(fields);
    var total := 0;
    for index := 0 to |canonical|
      invariant CanonicalAbove(canonical[..index], -1)
      invariant total == |Encode(canonical[..index])| <= MAX_UINT16
    {
      var field := canonical[index];
      EncodeNext(canonical, index);
      assert field in canonical;
      if index > 0 && field.kind == canonical[index - 1].kind {
        Refused(fields, canonical);
        return None;
      }
      if !ValidField(field) || |field.value| > MAX_UINT16 || total > MAX_UINT16 - 3 - |field.value| {
        Refused(fields, canonical);
        return None;
      }
      total := total + 3 + |field.value|;
      StillCanonical(canonical, index);
    }
    assert canonical[..|canonical|] == canonical;
    MarshalIs(fields, canonical);
    var data := WriteFields(canonical, total);
    r := Some(data);
  }

  method WriteFields(canonical: seq<Field>, total: nat) returns (r: bytes)
    requires total == |Encode(canonical)|
    ensures r == Encode(canonical)
  {
    hide EncodeField;
    var data := new byte[total];
    var offset := 0;
    for index := 0 to |canonical|
      invariant offset == |Encode(canonical[..index])| <= total
      invariant data[..offset] == Encode(canonical[..index])
    {
      var field := canonical[index];
      EncodeNext(canonical, index);
      Put(data, offset, EncodeField(field));
      offset := offset + 3 + |field.value|;
    }
    assert canonical[..|canonical|] == canonical;
    assert data[..] == data[..offset];
    r := data[..];
  }

  lemma StillCanonical(s: seq<Field>, i: nat)
    requires i < |s| && Ordered(s) && CanonicalAbove(s[..i], -1)
    requires i > 0 ==> s[i].kind != s[i - 1].kind
    requires ValidField(s[i]) && |s[i].value| <= MAX_UINT16
    ensures CanonicalAbove(s[..i + 1], -1)
  {
    var t := s[..i + 1];
    forall a, b | 0 <= a < b < |t| ensures t[a].kind < t[b].kind {
      if b == i {
        if a < i - 1 {
          assert s[..i][a].kind < s[..i][i - 1].kind;
        }
      } else {
        assert s[..i][a].kind < s[..i][b].kind;
      }
    }
    forall f | f in t ensures ValidField(f) && |f.value| <= MAX_UINT16 {
      var k :| 0 <= k < |t| && t[k] == f;
      if k < i {
        assert s[..i][k] == f;
      }
    }
  }

  // ---------------------------------------------------------------------------------------------
  // Placement rules
  // ---------------------------------------------------------------------------------------------

  /** The value of the first field of a type. */
  function Find(fs: seq<Field>, kind: byte): (r: Option<bytes>)
    ensures r.Some? <==> Has(fs, kind)
    ensures r.Some? ==> Field(kind, r.value) in fs
  {
    if fs == [] then None
    else if fs[0].kind == kind then assert fs[0] == Field(kind, fs[0].value); Some(fs[0].value)
    else Find(fs[1..], kind)
  }

  ghost predicate Has(fs: seq<Field>, kind: byte) {
    exists f :: f in fs && f.kind == kind
  }

  lemma FindOnly(fs: seq<Field>, f: Field)
    requires f in fs && DistinctKinds(multiset(fs))
    ensures Find(fs, f.kind) == Some(f.value)
  {
    var g := Field(f.kind, Find(fs, f.kind).value);
    MemberOfBag(fs, f);
    MemberOfBag(fs, g);
  }

  ghost predicate FieldFits(f: Field, context: Context) {
    && ValidField(f)
    && (context != Any && Known(f.kind) ==> Allowed(f.kind, context))
    && (f.kind == IPV4_LEASE ==> f.value[4] <= 32)
    && (f.kind == IPV6_LEASE ==> f.value[16] <= 128)
  }

  /** The occurrence rules of a message, whatever the order of its fields. */
  ghost predicate ValidFor(fs: seq<Field>, context: Context) {
    && context != Unknown
    && DistinctKinds(multiset(fs))
    && (forall f :: f in fs ==> FieldFits(f, context))
    && (Has(fs, TOKEN_ID) <==> Has(fs, TOKEN_PROOF))
    && (forall kind :: kind in Required(context) ==> Has(fs, kind))
    && (context == Handshake ==> Has(fs, IPV4_LEASE) || Has(fs, IPV6_LEASE))
  }

  lemma SameFieldsValid(fs: seq<Field>, gs: seq<Field>, context: Context)
    requires multiset(fs) == multiset(gs)
    ensures ValidFor(fs, context) <==> ValidFor(gs, context)
    ensures forall f :: f in fs <==> f in gs
  {
    assert forall f :: f in fs <==> f in multiset(fs);
    assert forall f :: f in gs <==> f in multiset(gs);
    forall kind: byte ensures Has(fs, kind) <==> Has(gs, kind) {
    }
  }

  /** After a valid parse every required field is there, with the length its type fixes. */
  lemma RequiredField(fs: seq<Field>, context: Context, kind: byte)
    requires ValidFor(fs, context) && kind in Required(context)
    ensures Find(fs, kind).Some? && FixedLength(kind).Some?
    ensures |Find(fs, kind).value| == FixedLength(kind).value
  {
    hide Known, Allowed, DistinctKinds;
    assert FieldFits(Field(kind, Find(fs, kind).value), context);
  }

  ghost function ParseFor(data: bytes, context: Context): Option<seq<Field>> {
    var fs := Parse(data);
    if fs.Some? && ValidFor(fs.value, context) then fs else None
  }

  ghost function MarshalFor(fs: seq<Field>, context: Context): Option<bytes> {
    if ValidFor(fs, context) then Marshal(fs) else None
  }

  /** What one side prints for a message, the other side parses back as the same set of fields. */
  lemma MessageRoundTrip(fs: seq<Field>, context: Context)
    requires MarshalFor(fs, context).Some?
    ensures var r := ParseFor(MarshalFor(fs, context).value, context);
      r.Some? && multiset(r.value) == multiset(fs)
  {
    MarshalParses(fs);
    var s :| Arranges(s, fs) && Parse(Marshal(fs).value) == Some(s);
    SameFieldsValid(s, fs, context);
  }

  /** `seen` holds each field of the list under its type. */
  ghost predicate Indexes(seen: map<byte, Field>, fs: seq<Field>) {
    && (forall f :: f in fs ==> f.kind in seen && seen[f.kind] == f)
    && (forall k :: k in seen ==> seen[k] in fs && seen[k].kind == k)
  }

  ghost predicate Placed(f: Field, context: Context) {
    ValidField(f) && (context != Any && Known(f.kind) ==> Allowed(f.kind, context))
  }

  lemma IndexNone()
    ensures Indexes(map[], [])
  {
  }

  lemma IndexNext(seen: map<byte, Field>, done: seq<Field>, f: Field)
    requires Indexes(seen, done)
    ensures f.kind in seen ==> seen[f.kind] in done && seen[f.kind].kind == f.kind
    ensures f.kind !in seen ==> (forall g :: g in done ==> g.kind != f.kind)
    ensures f.kind !in seen ==> Indexes(seen[f.kind := f], done + [f])
  {
  }

  /** The lease checks on the index are the lease checks on every field. */
  lemma LeasesFit(fs: seq<Field>, seen: map<byte, Field>, context: Context)
    requires Indexes(seen, fs) && forall f :: f in fs ==> Placed(f, context)
    ensures IPV4_LEASE in seen ==> |seen[IPV4_LEASE].value| == 5
    ensures IPV6_LEASE in seen ==> |seen[IPV6_LEASE].value| == 17
    ensures (forall f :: f in fs ==> FieldFits(f, context)) <==>
      && (IPV4_LEASE in seen ==> seen[IPV4_LEASE].value[4] <= 32)
      && (IPV6_LEASE in seen ==> seen[IPV6_LEASE].value[16] <= 128)
  {
    hide Known, Allowed;
    assert forall k :: k in seen ==> Placed(seen[k], context);
    if IPV4_LEASE in seen && seen[IPV4_LEASE].value[4] > 32 {
      assert !FieldFits(seen[IPV4_LEASE], context);
    }
    if IPV6_LEASE in seen && seen[IPV6_LEASE].value[16] > 128 {
      assert !FieldFits(seen[IPV6_LEASE], context);
    }
  }

  lemma FitsIsPlaced(fs: seq<Field>, context: Context)
    requires forall f :: f in fs ==> FieldFits(f, context)
    ensures forall f :: f in fs ==> Placed(f, context)
  {
    hide Known, Allowed;
  }

  method CollectFields(fields: seq<Field>, context: Context) returns (r: Option<map<byte, Field>>)
    ensures r.Some? <==> DistinctKinds(multiset(fields)) && forall f :: f in fields ==> Placed(f, context)
    ensures r.Some? ==> Indexes(r.value, fields)
  {
    hide ValidField, Known, Allowed, DistinctKinds, Indexes;
    var seen: map<byte, Field> := map[];
    NoKinds();
    IndexNone();
    for n := 0 to |fields|
      invariant DistinctKinds(multiset(fields[..n]))
      invariant forall f :: f in fields[..n] ==> Placed(f, context)
      invariant Indexes(seen, fields[..n])
    {
      var field := fields[n];
      ghost var done := fields[..n];
      assert fields[..n + 1] == done + [field];
      assert field in fields;
      IndexNext(seen, done, field);
      if field.kind in seen {
        Repeated(fields, n, seen[field.kind]);
        return None;
      }
      if !ValidField(field) {
        return None;
      }
      if context != Any && Known(field.kind) && !Allowed(field.kind, context) {
        return None;
      }
      OneMoreKind(done, field);
      seen := seen[field.kind := field];
    }
    assert fields[..|fields|] == fields;
    r := Some(seen);
  }

  method ValidateTlvs(fields: seq<Field>, context: Context) returns (ok: bool)
    ensures ok <==> ValidFor(fields, context)
  {
    hide Placed, FieldFits, DistinctKinds, Indexes;
    if context == Unknown {
      return false;
    }
    var collected := CollectFields(fields, context);
    if collected.None? {
      if ValidFor(fields, context) {
        FitsIsPlaced(fields, context);
      }
      return false;
    }
    var seen := collected.value;
    SeenIsHas(fields, seen);
    if (TOKEN_ID in seen) != (TOKEN_PROOF in seen) {
      return false;
    }
    LeasesFit(fields, seen, context);
    if IPV4_LEASE in seen && seen[IPV4_LEASE].value[4] > 32 {
      return false;
    }
    if IPV6_LEASE in seen && seen[IPV6_LEASE].value[16] > 128 {
      return false;
    }
    var required := Required(context);
    for n := 0 to |required|
      invariant forall i :: 0 <= i < n ==> Has(fields, required[i])
    {
      if required[n] !in seen {
        assert required[n] in Required(context);
        return false;
      }
    }
    if context == Handshake && IPV4_LEASE !in seen && IPV6_LEASE !in seen {
      return false;
    }
    ok := true;
  }

  lemma NoKinds()
    ensures DistinctKinds(multiset{})
  {
  }

  lemma SeenIsHas(fs: seq<Field>, seen: map<byte, Field>)
    requires Indexes(seen, fs)
    ensures forall k: byte :: k in seen <==> Has(fs, k)
  {
    forall k: byte | k in seen ensures Has(fs, k) {
      assert seen[k] in fs;
    }
  }

  lemma OneMoreKind(done: seq<Field>, f: Field)
    requires DistinctKinds(multiset(done))
    requires forall g :: g in done ==> g.kind != f.kind
    ensures DistinctKinds(multiset(done + [f]))
  {
    assert multiset(done + [f]) == multiset(done) + multiset{f};
    assert forall g :: g in multiset(done) <==> g in done;
  }

  lemma Repeated(fields: seq<Field>, n: nat, earlier: Field)
    requires n < |fields| && earlier in fields[..n] && earlier.kind == fields[n].kind
    ensures !DistinctKinds(multiset(fields))
  {
    var i :| 0 <= i < n && fields[i] == earlier;
    assert fields[n] in multiset(fields) && fields[i] in multiset(fields);
    if fields[n] == fields[i] {
      TwoPlaces(fields, i, n);
    }
  }
}
