/**
 From handshake to transport: what an honest handshake leaves behind is where the transport's runs
 start, and three more datagrams delivered in order establish both sides.
 */
module Connections {
  import opened Bytes
  import opened Packets
  import opened Negotiation
  import Handshakes
  import KeyLaws
  import Transport
  import TransportLaws
  import Frames
  import Replay

  type Key = Packets.Key

  function ClientEnd(cid: uint64, f: Handshakes.Finished): Transport.Endpoint {
    Transport.Endpoint(cid, f.serverCid, f.traffic.c2s, f.traffic.s2c, 0, Replay.FRESH, f.negotiated.maxDatagram)
  }

  function ServerEnd(s: Handshakes.ServerSession): Transport.Endpoint {
    Transport.Endpoint(s.serverCid, s.clientCid, s.traffic.s2c, s.traffic.c2s, 0, Replay.FRESH, s.maxDatagram)
  }

  /** The connection right after Finish, before any TRANSPORT datagram. */
  function Initially(cid: uint64, f: Handshakes.Finished, s: Handshakes.ServerSession): Transport.System {
    Transport.System(
      Transport.Party(Transport.PendingConfirm, ClientEnd(cid, f), f.th2, [], false),
      Transport.Party(Transport.PendingConfirm, ServerEnd(s), s.th2, [], false),
      [], [], {}, {}, false)
  }

  /** Each end sends to the other, with the key the other receives with, under one size limit. */
  ghost predicate Facing(a: Transport.Endpoint, b: Transport.Endpoint) {
    && a.local == b.remote && a.remote == b.local && a.sendKey == b.receiveKey && a.receiveKey == b.sendKey
    && a.maxDatagram == b.maxDatagram && Transport.Usable(a) && Transport.Usable(b)
  }

  /** An honest handshake leaves two endpoints that face each other and one transcript hash. */
  lemma HandshakeFaces(
    c: Handshakes.Crypto, p: Handshakes.Pair, cid: uint64, ephemeral: Key, serverCid: uint64, serverEphemeral: Key,
    unicast: bytes -> bool)
    requires p.Honest(c) && Handshakes.Start(c, p.client, p.co, cid, ephemeral).Some?
    requires Handshakes.Respond(
      c, p.server, p.so, Handshakes.Start(c, p.client, p.co, cid, ephemeral).value.wire.datagram, serverCid, serverEphemeral).Some?
    ensures var st := Handshakes.Start(c, p.client, p.co, cid, ephemeral).value;
      var r := Handshakes.Respond(c, p.server, p.so, st.wire.datagram, serverCid, serverEphemeral).value;
      var f := Handshakes.Finish(c, p.client, p.co, st.cid, st.ephemeral, st.es, st.wire.transcript, r.wire.datagram, unicast);
      f.Some? ==>
        var s := Initially(cid, f.value, r.session);
        && Facing(s.client.end, s.server.end) && s.client.th2 == s.server.th2 && s.client.end.maxDatagram >= OVERHEAD + MIN_MTU
        && (Transport.NoReflection(s.client.end) ==> Transport.Start(s))
        && (KeyLaws.Separates(c) ==> s.client.end.sendKey != s.server.end.sendKey && Transport.Start(s))
  {
    hide Handshakes.Start, Handshakes.Respond, Handshakes.Finish, NormalizeClient, NormalizeServer, Select, Handshakes.Lawful,
      Acceptable, LeaseOk, Handshakes.Answered, Facing, Initially, Transport.Start, Transport.NoReflection;
    Handshakes.FinishesHonest(c, p, cid, ephemeral, serverCid, serverEphemeral, unicast);
    Handshakes.AnswersHonest(c, p, cid, ephemeral, serverCid, serverEphemeral);
    var st := Handshakes.Start(c, p.client, p.co, cid, ephemeral).value;
    var r := Handshakes.Respond(c, p.server, p.so, st.wire.datagram, serverCid, serverEphemeral).value;
    var f := Handshakes.Finish(c, p.client, p.co, st.cid, st.ephemeral, st.es, st.wire.transcript, r.wire.datagram, unicast);
    if f.Some? {
      Handshakes.FinishedNamesServer(
        c, p.client, p.co, st.cid, st.ephemeral, st.es, st.wire.transcript, r.wire.datagram, unicast);
      NormalClient(p.cc);
      SelectionBounds(p.sc, p.co.families, p.co.maxDatagram);
      FinishedFaces(cid, f.value, r.session);
      if KeyLaws.Separates(c) {
        TrafficDiffers(c, p, st, r, serverCid, serverEphemeral);
        TwoKeysDoNotReflect(cid, f.value, r.session);
      }
    }
  }

  lemma TrafficDiffers(c: Handshakes.Crypto, p: Handshakes.Pair, st: Handshakes.Started, r: Handshakes.Response, serverCid: uint64, serverEphemeral: Key)
    requires KeyLaws.Separates(c) && Handshakes.Answered(c, p, st, r, serverCid, serverEphemeral)
    ensures r.session.traffic.c2s != r.session.traffic.s2c
  {
    hide Select, Handshakes.WriteHandshake, Handshakes.DeriveTraffic, Offer, KeyLaws.Separates;
    var m2 := Handshakes.ServerSecrets(
      c, p.server.secret, serverEphemeral, c.public(p.client.secret), c.public(st.ephemeral), st.wire.transcript, st.es).value;
    var any := m2.prk;
    KeyLaws.KeysDiffer(c, any, r.wire.transcript, any, any, any, any);
  }

  lemma TwoKeysDoNotReflect(cid: uint64, f: Handshakes.Finished, s: Handshakes.ServerSession)
    requires f.traffic.c2s != f.traffic.s2c && s.traffic == f.traffic
    ensures var t := Initially(cid, f, s); t.client.end.sendKey != t.server.end.sendKey && Transport.NoReflection(t.client.end)
  {
  }

  lemma FinishedFaces(cid: uint64, f: Handshakes.Finished, s: Handshakes.ServerSession)
    requires cid != 0 && f.serverCid != 0 && s.clientCid == cid && s.serverCid == f.serverCid && s.th2 == f.th2
    requires s.traffic == f.traffic && s.maxDatagram == f.negotiated.maxDatagram >= OVERHEAD + MIN_MTU
    ensures var t := Initially(cid, f, s);
      && Facing(t.client.end, t.server.end) && t.client.th2 == t.server.th2 && t.client.end.maxDatagram >= OVERHEAD + MIN_MTU
      && (Transport.NoReflection(t.client.end) ==> Transport.Start(t))
  {
  }

  /**
   With an expansion that keeps labels apart, the connection an honest handshake leaves behind never seals two
   packets under one key and nonce, in whatever run of the transport, on whichever side.
   */
  lemma HonestNoncesUnique(
    c: Handshakes.Crypto, p: Handshakes.Pair, cid: uint64, ephemeral: Key, serverCid: uint64, serverEphemeral: Key, unicast: bytes -> bool,
    cipher: Transport.Cipher, states: seq<Transport.System>, actions: seq<Transport.Action>, openers: seq<Transport.Opener>)
    requires p.Honest(c) && KeyLaws.Separates(c) && Handshakes.Start(c, p.client, p.co, cid, ephemeral).Some?
    requires Handshakes.Respond(
      c, p.server, p.so, Handshakes.Start(c, p.client, p.co, cid, ephemeral).value.wire.datagram, serverCid, serverEphemeral).Some?
    requires var st := Handshakes.Start(c, p.client, p.co, cid, ephemeral).value;
      var r := Handshakes.Respond(c, p.server, p.so, st.wire.datagram, serverCid, serverEphemeral).value;
      var f := Handshakes.Finish(c, p.client, p.co, st.cid, st.ephemeral, st.es, st.wire.transcript, r.wire.datagram, unicast);
      f.Some? && |states| > 0 && states[0] == Initially(cid, f.value, r.session)
    requires Transport.IsRun(cipher, states, actions, openers)
    ensures var log := states[|actions|].log;
      forall i, j :: 0 <= i < j < |log| ==> log[i].sealing.key != log[j].sealing.key || log[i].sealing.nonce != log[j].sealing.nonce
  {
    hide Handshakes.Start, Handshakes.Respond, Handshakes.Finish, Handshakes.Lawful, KeyLaws.Separates, Facing, Transport.Step, Transport.Ideal,
      NormalizeClient, NormalizeServer, Transport.Start;
    HandshakeFaces(c, p, cid, ephemeral, serverCid, serverEphemeral, unicast);
    TransportLaws.PairsNeverReused(cipher, states, actions, openers);
  }

  // ---------------------------------------------------------------------------------------------
  // Establishment
  // ---------------------------------------------------------------------------------------------

  lemma ConfirmIsSendable(th2: Key, challenge: bytes, maxPlaintext: int)
    requires |challenge| == 8 && 60 <= maxPlaintext <= MAX_UINT16
    ensures Frames.Marshal(Transport.ConfirmFrames(th2, challenge), maxPlaintext).Some?
    ensures Frames.Marshal(Transport.PongFrames(challenge), maxPlaintext).Some?
  {
    var (confirm, ping, pong) :=
      (Frames.Frame(Frames.CONFIRM, 0, th2), Frames.Frame(Frames.PING, 0, challenge), Frames.Frame(Frames.PONG, 0, challenge));
    assert [confirm, ping][1..] == [ping] && [ping][1..] == [] && [pong][1..] == [];
    assert |Frames.Encode([ping])| == 12 && |Frames.Encode([pong])| == 12;
    assert |Frames.Encode([confirm, ping])| == 48;
  }

  /** A fresh window takes the first number. */
  lemma FreshTakesFirst()
    ensures Replay.Judge(Replay.FRESH, 0) == Replay.Accepted
  {
  }

  /** The client's CONFIRM, the server's answer to it, and the client's reading of that answer. */
  lemma Establishes(
    c: Transport.Cipher, s: Transport.System, challenge: bytes, serverOpen: Transport.Opener, clientOpen: Transport.Opener)
    returns (s1: Transport.System, s2: Transport.System, s3: Transport.System, confirm: bytes, pong: bytes)
    requires Transport.Lawful(c) && Transport.Start(s) && Facing(s.client.end, s.server.end) && s.client.th2 == s.server.th2
    requires s.client.end.maxDatagram >= 108 && |challenge| == 8
    ensures s1 == Transport.Step(c, s, Transport.BuildConfirm(challenge), serverOpen)
    ensures Transport.Seal(c, s.client.end, Transport.ConfirmFrames(s.client.th2, challenge)).Sent?
    ensures confirm == Transport.Seal(c, s.client.end, Transport.ConfirmFrames(s.client.th2, challenge)).datagram
    ensures Transport.Ideal(serverOpen, c, s1.log) ==>
      && s2 == Transport.Step(c, s1, Transport.HandleConfirm(confirm, true), serverOpen)
      && s2.server.state == Transport.Established
      && (Transport.Ideal(clientOpen, c, s2.log) ==>
        && s3 == Transport.Step(c, s2, Transport.HandlePong(pong), clientOpen)
        && s3.client.state == Transport.Established && s3.server.state == Transport.Established)
  {
    hide Transport.Step, Transport.Lawful, Transport.Ideal;
    var frames := Transport.ConfirmFrames(s.client.th2, challenge);
    ConfirmSent(c, s, challenge, serverOpen);
    s1 := Transport.Step(c, s, Transport.BuildConfirm(challenge), serverOpen);
    confirm := Transport.Seal(c, s.client.end, frames).datagram;
    s2, s3, pong := s1, s1, [];
    if Transport.Ideal(serverOpen, c, s1.log) {
      ConfirmAnswered(c, s, s1, challenge, confirm, serverOpen);
      s2 := Transport.Step(c, s1, Transport.HandleConfirm(confirm, true), serverOpen);
      pong := Transport.Seal(c, s.server.end.(window := Replay.Claim(s.server.end.window, 0)), Transport.PongFrames(challenge)).datagram;
      if Transport.Ideal(clientOpen, c, s2.log) {
        s3 := Transport.Step(c, s2, Transport.HandlePong(pong), clientOpen);
        PongTaken(c, s2, challenge, pong, s.server.end.(window := Replay.Claim(s.server.end.window, 0)), clientOpen);
      }
    }
  }

  /** So every such start has a run that establishes both sides, every step with a cipher ideal for its log. */
  lemma EstablishingRun(c: Transport.Cipher, s: Transport.System, challenge: bytes)
    returns (states: seq<Transport.System>, actions: seq<Transport.Action>, openers: seq<Transport.Opener>)
    requires Transport.Lawful(c) && Transport.Start(s) && Facing(s.client.end, s.server.end) && s.client.th2 == s.server.th2
    requires s.client.end.maxDatagram >= 108 && |challenge| == 8
    ensures Transport.IsRun(c, states, actions, openers) && |states| == 4 && states[0] == s
    ensures states[3].client.state == Transport.Established && states[3].server.state == Transport.Established
  {
    hide Transport.Step, Transport.Lawful, Transport.Ideal, Transport.Start, Facing;
    var first := Transport.IdealExists(c, s.log);
    var sent, _, _, _, _ := Establishes(c, s, challenge, first, first);
    var second := Transport.IdealExists(c, sent.log);
    ConfirmNeedsNoOpener(c, s, challenge, first, second);
    var _, answered, _, _, _ := Establishes(c, s, challenge, second, first);
    var third := Transport.IdealExists(c, answered.log);
    var s1, s2, s3, confirm, pong := Establishes(c, s, challenge, second, third);
    states := [s, s1, s2, s3];
    actions := [Transport.BuildConfirm(challenge), Transport.HandleConfirm(confirm, true), Transport.HandlePong(pong)];
    openers := [first, second, third];
  }

  lemma ConfirmNeedsNoOpener(c: Transport.Cipher, s: Transport.System, challenge: bytes, a: Transport.Opener, b: Transport.Opener)
    ensures Transport.Step(c, s, Transport.BuildConfirm(challenge), a) == Transport.Step(c, s, Transport.BuildConfirm(challenge), b)
  {
    hide Transport.Seal;
  }

  lemma ConfirmSent(c: Transport.Cipher, s: Transport.System, challenge: bytes, open: Transport.Opener)
    requires Transport.Lawful(c) && Transport.Start(s) && Transport.Usable(s.client.end)
    requires s.client.end.maxDatagram >= 108 && |challenge| == 8
    ensures var r := Transport.Seal(c, s.client.end, Transport.ConfirmFrames(s.client.th2, challenge));
      var t := Transport.Step(c, s, Transport.BuildConfirm(challenge), open);
      && r.Sent? && t.server == s.server
      && t.client == s.client.(state := Transport.PendingPong, challenge := challenge, haveChallenge := true,
                               end := s.client.end.(sendPN := 1))
      && t.log == [Transport.Record(true, 0, Transport.ConfirmFrames(s.client.th2, challenge), r.sealing)]
      && t.everEstablished == s.everEstablished
  {
    hide Transport.Lawful, Transport.Seal, Frames.Marshal, Transport.ConfirmFrames;
    ConfirmIsSendable(s.client.th2, challenge, Transport.MaxPlaintext(s.client.end.maxDatagram));
    Transport.FramesFitDatagram(c, s.client.end, Transport.ConfirmFrames(s.client.th2, challenge));
  }

  lemma ConfirmAnswered(
    c: Transport.Cipher, s: Transport.System, s1: Transport.System, challenge: bytes, confirm: bytes, open: Transport.Opener)
    requires Transport.Lawful(c) && Transport.Start(s) && Facing(s.client.end, s.server.end) && s.client.th2 == s.server.th2
    requires s.client.end.maxDatagram >= 108 && |challenge| == 8
    requires Transport.Seal(c, s.client.end, Transport.ConfirmFrames(s.client.th2, challenge)).Sent?
    requires var r := Transport.Seal(c, s.client.end, Transport.ConfirmFrames(s.client.th2, challenge));
      && confirm == r.datagram && s1.server == s.server
      && s1.log == [Transport.Record(true, 0, Transport.ConfirmFrames(s.client.th2, challenge), r.sealing)]
    requires Transport.Ideal(open, c, s1.log)
    ensures var t := Transport.Step(c, s1, Transport.HandleConfirm(confirm, true), open);
      var e := s.server.end.(window := Replay.Claim(s.server.end.window, 0));
      && t.server.state == Transport.Established && t.client == s1.client
      && Transport.Seal(c, e, Transport.PongFrames(challenge)).Sent?
      && t.log == s1.log + [Transport.Record(false, 0, Transport.PongFrames(challenge), Transport.Seal(c, e, Transport.PongFrames(challenge)).sealing)]
  {
    hide Transport.Lawful, Transport.Ideal, Transport.Seal, Frames.Marshal, Transport.Authenticate, Replay.Claim;
    var e := s.server.end.(window := Replay.Claim(s.server.end.window, 0));
    FreshTakesFirst();
    Transport.SentIsDelivered(
      c, s.client.end, Transport.ConfirmFrames(s.client.th2, challenge), s.server.end, s1.log, 0, open);
    OpenedAdvances(s.server.end, confirm, open);
    ConfirmIsSendable(s.client.th2, challenge, Transport.MaxPlaintext(e.maxDatagram));
    Transport.FramesFitDatagram(c, e, Transport.PongFrames(challenge));
  }

  lemma OpenedAdvances(e: Transport.Endpoint, datagram: bytes, open: Transport.Opener)
    requires Transport.Open(e, datagram, open).Delivered?
    ensures Transport.AfterOpen(e, datagram, open) == e.(window := Replay.Claim(e.window, Transport.Open(e, datagram, open).pn))
  {
    hide Transport.Authenticate, Replay.Claim, Replay.Judge, Frames.Parse;
  }

  lemma PongTaken(
    c: Transport.Cipher, s: Transport.System, challenge: bytes, pong: bytes, sender: Transport.Endpoint, open: Transport.Opener)
    requires Transport.Lawful(c) && Transport.Ideal(open, c, s.log) && |s.log| == 2
    requires Transport.Seal(c, sender, Transport.PongFrames(challenge)).Sent? && sender.sendPN == 0
    requires pong == Transport.Seal(c, sender, Transport.PongFrames(challenge)).datagram
    requires s.log[1].sealing == Transport.Seal(c, sender, Transport.PongFrames(challenge)).sealing
    requires s.client.state == Transport.PendingPong && s.client.haveChallenge && s.client.challenge == challenge
    requires Facing(s.client.end, sender) && s.client.end.window == Replay.FRESH
    ensures Transport.Step(c, s, Transport.HandlePong(pong), open).client.state == Transport.Established
    ensures Transport.Step(c, s, Transport.HandlePong(pong), open).server == s.server
  {
    hide Transport.Lawful, Transport.Ideal, Transport.Seal, Transport.Authenticate;
    FreshTakesFirst();
    Transport.SentIsDelivered(c, sender, Transport.PongFrames(challenge), s.client.end, s.log, 1, open);
  }
}
