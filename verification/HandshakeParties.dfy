/**
 The handshake calls as the two endpoints execute them: the client's fields updated in place, the
 server's work between acquiring an attempt and publishing it.
 */
module HandshakeParties {
  import opened Bytes
  import opened Packets
  import opened Negotiation
  import opened Handshakes
  import Tlv

  method MarshalFields(fields: seq<Tlv.Field>, context: Tlv.Context) returns (r: Option<bytes>)
    ensures r == Tlv.MarshalFor(fields, context)
  {
    var ok := Tlv.ValidateTlvs(fields, context);
    if !ok {
      return None;
    }
    r := Tlv.MarshalTlvs(fields);
  }

  method ParseFields(data: bytes, context: Tlv.Context) returns (r: Option<seq<Tlv.Field>>)
    ensures r == Tlv.ParseFor(data, context)
    ensures r.Some? ==> Tlv.ValidFor(r.value, context)
  {
    var fields := Tlv.ParseTlvs(data);
    if fields.None? {
      return None;
    }
    var ok := Tlv.ValidateTlvs(fields.value, context);
    r := if ok then fields else None;
  }

  datatype ClientState = Idle | InitialSent | PendingConfirm | Rejected | Closed

  class ClientHandshake {
    const crypto: Crypto
    const id: ClientIdentity
    const options: ClientOptions

    var state: ClientState
    var clientCid: uint64
    var serverCid: uint64
    var ephemeral: Option<Key>
    var es: Key
    var th1: Key
    var th2: Key
    var traffic: Traffic
    var maxDatagram: uint16
    var negotiated: Option<Negotiated>

    constructor (crypto: Crypto, id: ClientIdentity, options: ClientOptions)
      ensures this.crypto == crypto && this.id == id && this.options == options
      ensures state == Idle && ephemeral.None? && maxDatagram == options.maxDatagram && negotiated.None?
    {
      this.crypto, this.id, this.options := crypto, id, options;
      state, clientCid, serverCid, ephemeral := Idle, 0, 0, None;
      es, th1, th2 := ZERO, ZERO, ZERO;
      traffic, maxDatagram, negotiated := Traffic(ZERO, ZERO), options.maxDatagram, None;
    }

    /** A failed start changes nothing; a successful one leaves what Finish will need. */
    method Start(cid: uint64, newEphemeral: Key) returns (datagram: Option<bytes>)
      modifies this`state, this`clientCid, this`ephemeral, this`es, this`th1
      ensures old(state) != Idle || Handshakes.Start(crypto, id, options, cid, newEphemeral).None? ==>
        datagram.None? && unchanged(this)
      ensures old(state) == Idle && Handshakes.Start(crypto, id, options, cid, newEphemeral).Some? ==>
        var st := Handshakes.Start(crypto, id, options, cid, newEphemeral).value;
        && datagram == Some(st.wire.datagram) && state == InitialSent && clientCid == cid && ephemeral == Some(newEphemeral)
        && es == st.es && th1 == st.wire.transcript
    {
      hide Tlv.MarshalFor, WriteInitial, DeriveM1, RequestFields;
      if state != Idle {
        return None;
      }
      var shared := crypto.dh(newEphemeral, id.serverPublic);
      if shared.None? {
        return None;
      }
      var context := ContextBytes(id.deployment);
      var m1 := DeriveM1(crypto, context, shared.value);
      if m1.None? {
        return None;
      }
      var plaintext := MarshalFields(RequestFields(options, id.deployment, cid, crypto.public(id.secret)), Tlv.Initial);
      if plaintext.None? {
        return None;
      }
      var wire := WriteInitial(crypto, m1.value.key, context, options.token, crypto.public(newEphemeral), cid,
                               plaintext.value, options.maxDatagram);
      if wire.None? {
        return None;
      }
      clientCid := cid;
      ephemeral := Some(newEphemeral);
      es := shared.value;
      th1 := wire.value.transcript;
      state := InitialSent;
      datagram := Some(wire.value.datagram);
    }

    method CloseLocked(target: ClientState)
      modifies this`state, this`ephemeral, this`es, this`traffic
      ensures state == target && ephemeral.None? && es == ZERO && traffic == Traffic(ZERO, ZERO)
    {
      ephemeral, es, traffic, state := None, ZERO, Traffic(ZERO, ZERO), target;
    }

    /** Any failure after the state check rejects the attempt and forgets its keys. */
    method Finish(datagram: bytes, unicast: bytes -> bool) returns (ok: bool)
      modifies this
      ensures old(state) != InitialSent || old(ephemeral).None? ==> !ok && unchanged(this)
      ensures clientCid == old(clientCid) && th1 == old(th1)
      ensures old(state) == InitialSent && old(ephemeral).Some? ==>
        match Handshakes.Finish(crypto, id, options, old(clientCid), old(ephemeral).value, old(es), old(th1), datagram, unicast)
        case None => !ok && state == Rejected && ephemeral.None? && es == ZERO && traffic == Traffic(ZERO, ZERO)
        case Some(f) =>
          && ok && state == PendingConfirm && ephemeral.None? && es == ZERO && serverCid == f.serverCid && th2 == f.th2
          && traffic == f.traffic && negotiated == Some(f.negotiated) && maxDatagram == f.negotiated.maxDatagram
    {
      hide Handshakes.Finish;
      if state != InitialSent || ephemeral.None? {
        return false;
      }
      var finished := Complete(crypto, id, options, clientCid, ephemeral.value, es, th1, datagram, unicast);
      if finished.None? {
        CloseLocked(Rejected);
        return false;
      }
      serverCid := finished.value.serverCid;
      th2 := finished.value.th2;
      traffic := finished.value.traffic;
      negotiated := Some(finished.value.negotiated);
      maxDatagram := finished.value.negotiated.maxDatagram;
      ephemeral := None;
      es := ZERO;
      state := PendingConfirm;
      ok := true;
    }
  }

  const ZERO: Key := seq(KEY_SIZE, _ => 0)

  /** The computation inside Finish. */
  method Complete(
    crypto: Crypto, id: ClientIdentity, options: ClientOptions, cid: uint64, ephemeral: Key, es: Key, th1: Key,
    datagram: bytes, unicast: bytes -> bool
  ) returns (r: Option<Finished>)
    ensures r == Handshakes.Finish(crypto, id, options, cid, ephemeral, es, th1, datagram, unicast)
  {
    hide Tlv.ParseFor, ReadHandshake, ClientSecrets, ValidateHandshake, Tlv.ValidFor;
    var read := ReadHandshake(crypto, datagram, options.maxDatagram, ContextBytes(id.deployment) + th1);
    if read.None? || read.value.header.dcid != cid || read.value.header.scid == 0 {
      return None;
    }
    var m2 := ClientSecrets(crypto, id.secret, ephemeral, id.serverPublic, read.value.message.ephemeral, th1, es);
    if m2.None? {
      return None;
    }
    var plaintext := crypto.open(m2.value.key, read.value.wire.ad, read.value.message.encrypted);
    if plaintext.None? {
      return None;
    }
    var fields := ParseFields(plaintext.value, Tlv.Handshake);
    if fields.None? {
      return None;
    }
    var judged := ValidateHandshake(fields.value, id.deployment, cid, options, read.value.header.scid, unicast);
    if judged.None? {
      return None;
    }
    var th2 := read.value.wire.transcript;
    r := Some(Finished(judged.value.1, th2, DeriveTraffic(crypto, m2.value.prk, th2), judged.value.0));
  }

  /** isRegistered looks at every key, whatever it has found. */
  method IsRegistered(candidate: Key, registered: seq<Key>) returns (found: bool)
    ensures found <==> candidate in registered
  {
    found := false;
    for i := 0 to |registered|
      invariant found <==> candidate in registered[..i]
    {
      found := found || candidate == registered[i];
    }
  }

  /** What the builder of an attempt does before it reserves anything. */
  method AdmitInitial(crypto: Crypto, id: ServerIdentity, options: ServerOptions, datagram: bytes) returns (r: Option<Admitted>)
    ensures r == Handshakes.Admit(crypto, id, options, datagram)
  {
    hide Tlv.ParseFor, ReadInitial, DeriveM1, ValidateInitial, Tlv.ValidFor;
    var context := ContextBytes(id.deployment);
    var read := ReadInitial(crypto, datagram, options.maxDatagram, context);
    if read.None? || read.value.header.dcid != 0 || read.value.header.scid == 0 {
      return None;
    }
    var es := crypto.dh(id.secret, read.value.message.ephemeral);
    if es.None? {
      return None;
    }
    var m1 := DeriveM1(crypto, context, es.value);
    if m1.None? {
      return None;
    }
    var plaintext := crypto.open(m1.value.key, read.value.wire.ad, read.value.message.encrypted);
    if plaintext.None? {
      return None;
    }
    var fields := ParseFields(plaintext.value, Tlv.Initial);
    if fields.None? {
      return None;
    }
    var request := ValidateInitial(fields.value, id.deployment, id.registered, read.value.header.scid);
    if request.None? {
      return None;
    }
    r := Some(Admitted(read.value, es.value, request.value));
  }

  /** What it does with a reserved connection identifier and a fresh key. */
  method BuildResponse(
    crypto: Crypto, id: ServerIdentity, options: ServerOptions, a: Admitted, serverCid: uint64, ephemeral: Key
  ) returns (r: Option<Response>)
    ensures r == Handshakes.Reply(crypto, id, options, a, serverCid, ephemeral)
  {
    hide Tlv.MarshalFor, WriteHandshake, ServerSecrets, Select, Offer;
    var th1 := a.message.wire.transcript;
    var m2 := ServerSecrets(crypto, id.secret, ephemeral, a.request.identity, a.message.message.ephemeral, th1, a.es);
    if m2.None? {
      return None;
    }
    var sel := Select(options, a.request.families, a.request.maxDatagram);
    if sel.None? {
      return None;
    }
    var clientCid := a.message.header.scid;
    var plaintext := MarshalFields(Offer(options, id.deployment, clientCid, serverCid, sel.value), Tlv.Handshake);
    if plaintext.None? {
      return None;
    }
    var wire := WriteHandshake(crypto, m2.value.key, ContextBytes(id.deployment) + th1, crypto.public(ephemeral),
                               clientCid, serverCid, plaintext.value, sel.value.maxDatagram);
    if wire.None? {
      return None;
    }
    var th2 := wire.value.transcript;
    r := Some(Response(ServerSession(clientCid, serverCid, a.request.identity, th2, DeriveTraffic(crypto, m2.value.prk, th2),
                                     sel.value.maxDatagram), wire.value));
  }
}
