/**
 What the key schedule and the transcript are made of (crypto/kdf.go, handshake/wire.go): which secret enters
 where, which label separates which key, and that every byte on the wire is authenticated and hashed.

 Functions cannot be injective from longer to shorter byte strings, so nothing here assumes that they are:
 the derivations are observed through probes that let one input through, and equal hashes are traced to the
 two inputs of the hash function.
 */
module KeyLaws {
  import opened Bytes
  import opened Packets
  import opened Negotiation
  import opened Handshakes

  const ZEROS: Key := seq(KEY_SIZE, _ => 0)

  // ---------------------------------------------------------------------------------------------
  // What enters the key schedule
  // ---------------------------------------------------------------------------------------------

  /** A probe that lets the i-th 32 bytes of the input key material through. */
  function Piece(i: nat): (bytes, bytes) -> Key {
    (salt: bytes, ikm: bytes) => if |ikm| >= KEY_SIZE * (i + 1) then ikm[KEY_SIZE * i..KEY_SIZE * (i + 1)] else ZEROS
  }

  /** A probe that lets the salt through. */
  function Salt(): (bytes, bytes) -> Key {
    (salt: bytes, ikm: bytes) => if |salt| == KEY_SIZE then salt else ZEROS
  }

  /** A probe that lets the end of the info through. */
  function InfoEnd(): (Key, bytes) -> Key {
    (prk: Key, info: bytes) => if |info| >= KEY_SIZE then info[|info| - KEY_SIZE..] else ZEROS
  }

  /** A probe that lets the front of the info through, padded with zeros. */
  function InfoFront(n: nat): (Key, bytes) -> Key
    requires n <= KEY_SIZE
  {
    (prk: Key, info: bytes) => if |info| >= n then info[..n] + ZEROS[n..] else ZEROS
  }

  /** A probe that lets the extracted secret through. */
  function Secret(): (Key, bytes) -> Key {
    (prk: Key, info: bytes) => prk
  }

  lemma FourPieces(a: Key, b: Key, c: Key, d: Key, i: nat)
    requires i < 4
    ensures (a + b + c + d)[32 * i..32 * (i + 1)] == [a, b, c, d][i]
  {
    var s := a + b + c + d;
    assert s[..32] == a && s[32..64] == b && s[64..96] == c && s[96..128] == d;
    assert i == 0 || i == 1 || i == 2 || i == 3;
  }

  /**
   The HANDSHAKE secret is extracted from es, ss, ee and se, in this order and in full, with th1 as the salt;
   and each side contributes exactly these Diffie-Hellman results.
   */
  lemma SecretsInOrder(
    c: Crypto, secret: Key, ephemeral: Key, peerStatic: Key, peerEphemeral: Key, th1: Key, es: Key, i: nat)
    requires i < 4
    ensures var m2 := ServerSecrets(c.(extract := Piece(i)), secret, ephemeral, peerStatic, peerEphemeral, th1, es);
      m2.Some? ==>
        && c.dh(secret, peerStatic).Some? && c.dh(ephemeral, peerEphemeral).Some? && c.dh(ephemeral, peerStatic).Some?
        && m2.value.prk == [es, c.dh(secret, peerStatic).value, c.dh(ephemeral, peerEphemeral).value, c.dh(ephemeral, peerStatic).value][i]
    ensures var m2 := ClientSecrets(c.(extract := Piece(i)), secret, ephemeral, peerStatic, peerEphemeral, th1, es);
      m2.Some? ==>
        && c.dh(secret, peerStatic).Some? && c.dh(ephemeral, peerEphemeral).Some? && c.dh(secret, peerEphemeral).Some?
        && m2.value.prk == [es, c.dh(secret, peerStatic).value, c.dh(ephemeral, peerEphemeral).value, c.dh(secret, peerEphemeral).value][i]
  {
    hide IsZero;
    var (ss, ee) := (c.dh(secret, peerStatic), c.dh(ephemeral, peerEphemeral));
    var (se, es') := (c.dh(ephemeral, peerStatic), c.dh(secret, peerEphemeral));
    if ss.Some? && ee.Some? && se.Some? {
      FourPieces(es, ss.value, ee.value, se.value, i);
    }
    if ss.Some? && ee.Some? && es'.Some? {
      FourPieces(es, ss.value, ee.value, es'.value, i);
    }
  }

  /** Key material exists exactly when all four secrets do and none of them is zero; INITIAL's when es is not. */
  lemma DerivesExactly(c: Crypto, secret: Key, ephemeral: Key, peerStatic: Key, peerEphemeral: Key, th1: Key, es: Key, context: bytes)
    ensures DeriveM1(c, context, es).Some? <==> es != ZEROS
    ensures var (ss, ee, se) := (c.dh(secret, peerStatic), c.dh(ephemeral, peerEphemeral), c.dh(ephemeral, peerStatic));
      ServerSecrets(c, secret, ephemeral, peerStatic, peerEphemeral, th1, es).Some? <==>
        es != ZEROS && ss.Some? && ee.Some? && se.Some? && ss.value != ZEROS && ee.value != ZEROS && se.value != ZEROS
  {
    forall k: Key ensures IsZero(k) <==> k == ZEROS {
    }
  }

  lemma EndOf(front: bytes, th: Key)
    ensures |front + th| >= KEY_SIZE && (front + th)[|front + th| - KEY_SIZE..] == th
  {
  }

  /** The salts and transcripts: th1 salts and names the HANDSHAKE key, th2 names the traffic keys, the context's hash salts INITIAL. */
  lemma TranscriptsEnter(c: Crypto, context: bytes, th1: Key, th2: Key, prk: Key, es: Key, ss: Key, ee: Key, se: Key)
    ensures DeriveM1(c.(extract := Salt()), context, es).Some? ==> DeriveM1(c.(extract := Salt()), context, es).value.prk == c.hash(context)
    ensures DeriveM1(c.(extract := Piece(0)), context, es).Some? ==> DeriveM1(c.(extract := Piece(0)), context, es).value.prk == es
    ensures DeriveM2(c.(extract := Salt()), th1, es, ss, ee, se).Some? ==> DeriveM2(c.(extract := Salt()), th1, es, ss, ee, se).value.prk == th1
    ensures DeriveM2(c.(expand := InfoEnd()), th1, es, ss, ee, se).Some? ==> DeriveM2(c.(expand := InfoEnd()), th1, es, ss, ee, se).value.key == th1
    ensures DeriveTraffic(c.(expand := InfoEnd()), prk, th2) == Traffic(th2, th2)
    ensures DeriveTraffic(c.(expand := Secret()), prk, th2) == Traffic(prk, prk)
    ensures DeriveM2(c.(expand := Secret()), th1, es, ss, ee, se).Some? ==>
      var m := DeriveM2(c.(expand := Secret()), th1, es, ss, ee, se).value; m.key == m.prk
  {
    hide IsZero;
    EndOf(Ascii("WG-HS1/m2"), th1);
    EndOf(Ascii("WG-HS1/c2s"), th2);
    EndOf(Ascii("WG-HS1/s2c"), th2);
    assert es[0..32] == es;
  }

  // ---------------------------------------------------------------------------------------------
  // Labels keep keys apart
  // ---------------------------------------------------------------------------------------------

  /** The labels are those of the protocol. */
  lemma LabelsAre(c: Crypto, context: bytes, th1: Key, th2: Key, prk: Key, es: Key, ss: Key, ee: Key, se: Key)
    ensures var m := DeriveM1(c.(expand := InfoFront(9)), context, es); m.Some? ==> m.value.key[..9] == Ascii("WG-HS1/m1")
    ensures var m := DeriveM2(c.(expand := InfoFront(9)), th1, es, ss, ee, se); m.Some? ==> m.value.key[..9] == Ascii("WG-HS1/m2")
    ensures var t := DeriveTraffic(c.(expand := InfoFront(10)), prk, th2); t.c2s[..10] == Ascii("WG-HS1/c2s") && t.s2c[..10] == Ascii("WG-HS1/s2c")
  {
    hide IsZero;
    var (m1, m2, c2s, s2c) := (Ascii("WG-HS1/m1"), Ascii("WG-HS1/m2"), Ascii("WG-HS1/c2s"), Ascii("WG-HS1/s2c"));
    assert m1[..9] == m1 && (m2 + th1)[..9] == m2 && (c2s + th2)[..10] == c2s && (s2c + th2)[..10] == s2c;
    assert (m1 + ZEROS[9..])[..9] == m1 && (m2 + ZEROS[9..])[..9] == m2;
    assert (c2s + ZEROS[10..])[..10] == c2s && (s2c + ZEROS[10..])[..10] == s2c;
  }

  /** Expansion under one secret keeps infos apart that differ within their first nine bytes. */
  ghost predicate Separates(c: Crypto) {
    forall prk: Key, u: bytes, v: bytes :: |u| >= 9 && |v| >= 9 && u[..9] != v[..9] ==> c.expand(prk, u) != c.expand(prk, v)
  }

  /** So the HANDSHAKE key and the two traffic keys that come from one secret are pairwise different. */
  lemma KeysDiffer(c: Crypto, th1: Key, th2: Key, es: Key, ss: Key, ee: Key, se: Key)
    requires Separates(c)
    ensures var m2 := DeriveM2(c, th1, es, ss, ee, se);
      m2.Some? ==>
        var t := DeriveTraffic(c, m2.value.prk, th2);
        t.c2s != t.s2c && m2.value.key != t.c2s && m2.value.key != t.s2c
    ensures forall prk: Key :: DeriveTraffic(c, prk, th2).c2s != DeriveTraffic(c, prk, th2).s2c
  {
    hide IsZero;
    var (m2, c2s, s2c) := (Ascii("WG-HS1/m2") + th1, Ascii("WG-HS1/c2s") + th2, Ascii("WG-HS1/s2c") + th2);
    assert m2[..9][7] == 'm' as int && c2s[..9][7] == 'c' as int && s2c[..9][7] == 's' as int;
  }

  /** Every part of the context is preceded by its length. */
  lemma ContextLayout(d: Deployment)
    ensures var x := ContextBytes(d);
      && |x| == 54 && x[0] == 4 && x[1..5] == Ascii("WG/1") && x[5..21] == d
      && x[21] == 32 && x[22..] == Ascii("WG-HS1-X25519-CHACHAPOLY-BLAKE2S")
  {
  }

  // ---------------------------------------------------------------------------------------------
  // Every byte counts
  // ---------------------------------------------------------------------------------------------

  /** Associated data and ciphertext are, together, the context and the whole datagram; the transcript is their hash. */
  ghost predicate Covers(c: Crypto, context: bytes, w: Wire) {
    w.ad + w.encrypted == context + w.datagram && w.transcript == c.hash(context + w.datagram)
  }

  lemma InitialCovers(c: Crypto, datagram: bytes, n: uint16, context: bytes)
    requires ReadInitial(c, datagram, n, context).Some?
    ensures Covers(c, context, ReadInitial(c, datagram, n, context).value.wire) && ReadInitial(c, datagram, n, context).value.wire.datagram == datagram
  {
    hide Packets.Parse, DecodeInitial;
    var r := ReadInitial(c, datagram, n, context).value;
    ParsedWhole(datagram, n);
    InitialTail(Packets.Parse(datagram, n).value.payload);
    JoinsAt(context, datagram, |datagram| - |r.wire.encrypted|);
  }

  lemma HandshakeCovers(c: Crypto, datagram: bytes, n: uint16, context: bytes)
    requires ReadHandshake(c, datagram, n, context).Some?
    ensures Covers(c, context, ReadHandshake(c, datagram, n, context).value.wire) && ReadHandshake(c, datagram, n, context).value.wire.datagram == datagram
  {
    hide Packets.Parse, DecodeHandshake;
    var r := ReadHandshake(c, datagram, n, context).value;
    ParsedWhole(datagram, n);
    HandshakeTail(Packets.Parse(datagram, n).value.payload);
    JoinsAt(context, datagram, |datagram| - |r.wire.encrypted|);
  }

  lemma JoinsAt(context: bytes, datagram: bytes, at: nat)
    requires at <= |datagram|
    ensures context + datagram[..at] + datagram[at..] == context + datagram
  {
  }

  lemma ParsedWhole(datagram: bytes, n: uint16)
    requires Packets.Parse(datagram, n).Some?
    ensures |datagram| >= HEADER_SIZE && Packets.Parse(datagram, n).value.payload == datagram[HEADER_SIZE..]
  {
    hide ValidPayload, ParseHeader;
  }

  lemma InitialTail(payload: bytes)
    requires DecodeInitial(payload).Some?
    ensures var e := DecodeInitial(payload).value.encrypted; |e| <= |payload| && payload[|payload| - |e|..] == e
  {
  }

  lemma HandshakeTail(payload: bytes)
    requires DecodeHandshake(payload).Some?
    ensures var e := DecodeHandshake(payload).value.encrypted; |e| <= |payload| && payload[|payload| - |e|..] == e
  {
  }

  /** Two INITIALs with one transcript hash are the same datagram, or the hash function collides on the two contexts-and-datagrams. */
  lemma InitialTranscriptBinds(c: Crypto, d: bytes, e: bytes, n: uint16, context: bytes)
    requires ReadInitial(c, d, n, context).Some? && ReadInitial(c, e, n, context).Some?
    requires ReadInitial(c, d, n, context).value.wire.transcript == ReadInitial(c, e, n, context).value.wire.transcript
    ensures d == e || (context + d != context + e && c.hash(context + d) == c.hash(context + e))
  {
    InitialCovers(c, d, n, context);
    InitialCovers(c, e, n, context);
    hide ReadInitial;
    if context + d == context + e {
      assert d == (context + d)[|context|..] && e == (context + e)[|context|..];
    }
  }

  /** Two HANDSHAKEs with one transcript hash are the same datagram and follow the same INITIAL transcript, or the hash function collides. */
  lemma HandshakeTranscriptBinds(c: Crypto, d: bytes, e: bytes, n: uint16, context: bytes, th1: Key, th1': Key)
    requires ReadHandshake(c, d, n, context + th1).Some? && ReadHandshake(c, e, n, context + th1').Some?
    requires ReadHandshake(c, d, n, context + th1).value.wire.transcript == ReadHandshake(c, e, n, context + th1').value.wire.transcript
    ensures (d == e && th1 == th1') || (context + th1 + d != context + th1' + e && c.hash(context + th1 + d) == c.hash(context + th1' + e))
  {
    HandshakeCovers(c, d, n, context + th1);
    HandshakeCovers(c, e, n, context + th1');
    hide ReadHandshake;
    var (x, y, k) := (context + th1 + d, context + th1' + e, |context|);
    if x == y {
      assert th1 == x[k..k + 32] && th1' == y[k..k + 32] && d == x[k + 32..] && e == y[k + 32..];
    }
  }
}
