/**
 What the transport calls are for, said of their results: which datagrams are authentic, what establishes a
 client, what a server does with a CONFIRM, that established sides reach each other, and that closed ones
 are silent.
 */
module TransportLaws {
  import opened Bytes
  import opened Replay
  import opened Packets
  import opened Transport
  import Frames

  lemma RunLength(c: Cipher, states: seq<System>, actions: seq<Action>, openers: seq<Opener>)
    requires IsRun(c, states, actions, openers)
    ensures |states| == |actions| + 1 && |openers| == |actions| && states[0].client.state == PendingConfirm
  {
  }

  lemma RunStep(c: Cipher, states: seq<System>, actions: seq<Action>, openers: seq<Opener>, n: nat)
    requires IsRun(c, states, actions, openers) && n < |actions|
    ensures n + 1 < |states| && n < |openers| && states[n + 1] == Step(c, states[n], actions[n], openers[n])
  {
    hide Step, Ideal, Start;
  }

  // ---------------------------------------------------------------------------------------------
  // Opening
  // ---------------------------------------------------------------------------------------------

  /** The datagram is this TRANSPORT packet to this endpoint, with a number it still takes. */
  ghost predicate Addressed(e: Endpoint, datagram: bytes, pn: uint64, payload: bytes) {
    && |payload| <= MAX_UINT16
    && Marshal(Packet(Header(VERSION_1, TRANSPORT, 0, e.local, e.remote, pn, |payload|, 0), payload), e.maxDatagram) == Some(datagram)
    && pn < REHANDSHAKE && Judge(e.window, pn) != TooOld
  }

  /**
   A datagram authenticates exactly when it is the printed form of a packet from the peer to this endpoint,
   numbered below 2^32 and not too old, whose payload opens under the receive key with that very header.
   */
  lemma AuthenticatesExactly(e: Endpoint, datagram: bytes, open: Opener, pn: uint64, plaintext: bytes)
    ensures Authenticate(e, datagram, open) == Some((pn, plaintext)) <==>
      exists payload ::
        && Addressed(e, datagram, pn, payload)
        && open(e.receiveKey, Nonce(pn), EncodeHeader(Header(VERSION_1, TRANSPORT, 0, e.local, e.remote, pn, |payload|, 0)), payload) == Some(plaintext)
  {
    hide ValidPayload, EncodeHeader, Parse, Marshal;
    if Authenticate(e, datagram, open) == Some((pn, plaintext)) {
      var p := Parse(datagram, e.maxDatagram).value;
      ParseInvertsMarshal(datagram, p, e.maxDatagram);
      ParsedHeader(datagram, e.maxDatagram);
      PrecheckIsTooOld(e.window, pn);
      assert p == Packet(Header(VERSION_1, TRANSPORT, 0, e.local, e.remote, pn, |p.payload|, 0), p.payload);
      assert Addressed(e, datagram, pn, p.payload);
    }
    forall payload | Addressed(e, datagram, pn, payload)
      ensures Parse(datagram, e.maxDatagram) == Some(Packet(Header(VERSION_1, TRANSPORT, 0, e.local, e.remote, pn, |payload|, 0), payload))
      ensures PassesPrecheck(e.window, pn)
    {
      var p := Packet(Header(VERSION_1, TRANSPORT, 0, e.local, e.remote, pn, |payload|, 0), payload);
      ParseInvertsMarshal(datagram, p, e.maxDatagram);
      PrecheckIsTooOld(e.window, pn);
    }
  }

  lemma ParsedHeader(datagram: bytes, maxDatagram: int)
    requires Parse(datagram, maxDatagram).Some?
    ensures var p := Parse(datagram, maxDatagram).value; ValidHeader(p.header) && p.header.payloadLength == |p.payload|
  {
    hide ValidPayload, DecodeHeader;
  }

  /** An authentic datagram is delivered exactly when its number is new and its plaintext is a frame list within the limit. */
  lemma DeliversExactly(e: Endpoint, datagram: bytes, open: Opener, pn: nat, frames: seq<Frame>)
    ensures Open(e, datagram, open) == Delivered(pn, frames) <==>
      var a := Authenticate(e, datagram, open);
      && a.Some? && a.value.0 == pn && Judge(e.window, pn) == Accepted
      && Frames.Marshal(frames, e.maxDatagram - 48) == Some(a.value.1)
  {
    hide Authenticate, Frames.Parse, Frames.Marshal;
    var a := Authenticate(e, datagram, open);
    if a.Some? {
      Frames.ParseInvertsMarshal(a.value.1, frames, MaxPlaintext(e.maxDatagram));
    }
  }

  // ---------------------------------------------------------------------------------------------
  // What establishes a client
  // ---------------------------------------------------------------------------------------------

  ghost predicate IsPong(r: Opened, challenge: bytes) {
    r.Delivered? && |r.frames| == 1 && r.frames[0].kind == Frames.PONG && r.frames[0].body == challenge
  }

  /** A client becomes Established exactly by opening a lone PONG of its own challenge while it waits for one. */
  lemma EstablishesClient(c: Cipher, s: System, a: Action, open: Opener)
    requires s.client.state != Established
    ensures Step(c, s, a, open).client.state == Established <==>
      && s.client.state == PendingPong && s.client.haveChallenge
      && a.HandlePong? && IsPong(Open(s.client.end, a.datagram, open), s.client.challenge)
  {
    hide Seal, Open, AfterOpen, ClaimedBy;
  }

  /** A successful BuildConfirm. */
  ghost predicate BuildsConfirm(c: Cipher, s: System, a: Action) {
    a.BuildConfirm? && s.client.state == PendingConfirm && Seal(c, s.client.end, ConfirmFrames(s.client.th2, a.challenge)).Sent?
  }

  /** Waiting for PONG starts with a successful BuildConfirm and keeps its challenge. */
  lemma AwaitsPong(c: Cipher, s: System, a: Action, open: Opener)
    requires Step(c, s, a, open).client.state == PendingPong
    ensures var t := Step(c, s, a, open);
      if BuildsConfirm(c, s, a) then t.client.challenge == a.challenge && t.client.haveChallenge
      else s.client.state == PendingPong && t.client.challenge == s.client.challenge && t.client.haveChallenge == s.client.haveChallenge
  {
    hide Seal, Open, AfterOpen, ClaimedBy;
  }

  lemma {:induction false} LatestConfirm(c: Cipher, states: seq<System>, actions: seq<Action>, openers: seq<Opener>, n: nat) returns (k: nat)
    requires IsRun(c, states, actions, openers) && n < |states| && states[n].client.state == PendingPong
    ensures k < n && BuildsConfirm(c, states[k], actions[k]) && states[n].client.challenge == actions[k].challenge
    ensures forall j :: k < j < n ==> !BuildsConfirm(c, states[j], actions[j])
    ensures states[n].client.haveChallenge
  {
    hide IsRun, Step, BuildsConfirm;
    RunLength(c, states, actions, openers);
    RunStep(c, states, actions, openers, n - 1);
    var (s, a) := (states[n - 1], actions[n - 1]);
    AwaitsPong(c, s, a, openers[n - 1]);
    if BuildsConfirm(c, s, a) {
      k := n - 1;
    } else {
      k := LatestConfirm(c, states, actions, openers, n - 1);
    }
  }

  /**
   In every run the call in which the client becomes Established opened exactly one frame, a PONG with the
   challenge of the client's latest successful BuildConfirm, and the log holds the server's sealing of that PONG.
   */
  lemma EstablishedByOwnPong(c: Cipher, states: seq<System>, actions: seq<Action>, openers: seq<Opener>, n: nat) returns (k: nat, i: nat)
    requires IsRun(c, states, actions, openers) && n < |actions|
    requires states[n].client.state != Established && states[n + 1].client.state == Established
    ensures k < n && BuildsConfirm(c, states[k], actions[k]) && forall j :: k < j < n ==> !BuildsConfirm(c, states[j], actions[j])
    ensures actions[n].HandlePong? && IsPong(Open(states[n].client.end, actions[n].datagram, openers[n]), actions[k].challenge)
    ensures i < |states[n].log| && !states[n].log[i].byClient
    ensures Open(states[n].client.end, actions[n].datagram, openers[n]) == Delivered(states[n].log[i].pn, states[n].log[i].frames)
  {
    hide Step, Ideal, BuildsConfirm, Open, LogInv, DeliveryInv, AgreementInv;
    EstablishesClient(c, states[n], actions[n], openers[n]);
    k := LatestConfirm(c, states, actions, openers, n);
    RunKeeps(c, states, actions, openers, n);
    DeliveredIsAuthentic(states[n].client.end, actions[n].datagram, openers[n]);
    i := OpenedWasSealed(c, states[n], true, actions[n].datagram, openers[n]);
  }

  // ---------------------------------------------------------------------------------------------
  // What a server does with a CONFIRM
  // ---------------------------------------------------------------------------------------------

  /** Two frames, CONFIRM and PING. */
  ghost predicate IsConfirmation(r: Opened) {
    r.Delivered? && |r.frames| == 2 && r.frames[0].kind == Frames.CONFIRM && r.frames[1].kind == Frames.PING
  }

  /**
   A pending session that opens a CONFIRM is rejected for another transcript, closed if the cache does not stand
   behind it, and otherwise established with the challenge, or closed if the answer cannot be sealed. Nothing else
   changes its state; and nothing a CONFIRM says changes the state or challenge of an established one, except that
   an answer that cannot be sealed closes it.
   */
  lemma ConfirmOutcome(c: Cipher, s: System, datagram: bytes, cacheAgrees: bool, open: Opener)
    ensures var t := Step(c, s, HandleConfirm(datagram, cacheAgrees), open);
      var r := Open(s.server.end, datagram, open);
      var reply := ConfirmReply(c, s.server, datagram, cacheAgrees, open);
      && (s.server.state == PendingConfirm && IsConfirmation(r) ==>
            t.server.state ==
              if r.frames[0].body != s.server.th2 then Rejected
              else if !cacheAgrees || !reply.Sent? then Closed else Established)
      && (s.server.state == PendingConfirm && !IsConfirmation(r) ==> t.server.state == PendingConfirm)
      && (s.server.state == PendingConfirm && t.server.state == Established ==>
            t.server.haveChallenge && t.server.challenge == r.frames[1].body)
      && (s.server.state == Established ==>
            || (t.server.state == Established && t.server.challenge == s.server.challenge && t.server.haveChallenge == s.server.haveChallenge)
            || (t.server.state == Closed && Confirms(s.server, datagram, cacheAgrees, open) && !reply.Sent?))
      && (s.server.state != PendingConfirm && s.server.state != Established ==> t == s)
  {
    hide Open, AfterOpen, Seal, ClaimedBy;
  }

  /** A retry is answered with the challenge the session was established with, or not at all. */
  lemma RetryRepeatsChallenge(c: Cipher, s: System, datagram: bytes, cacheAgrees: bool, open: Opener)
    requires s.server.state == Established
    ensures var t := Step(c, s, HandleConfirm(datagram, cacheAgrees), open);
      || t.log == s.log
      || (cacheAgrees && s.server.haveChallenge && |t.log| == |s.log| + 1 && !t.log[|s.log|].byClient
          && t.log[|s.log|].frames == PongFrames(s.server.challenge)
          && Open(s.server.end, datagram, open).Delivered? && Open(s.server.end, datagram, open).frames[0].body == s.server.th2)
  {
    hide Open, AfterOpen, Seal, ClaimedBy;
  }

  // ---------------------------------------------------------------------------------------------
  // Established sides reach each other
  // ---------------------------------------------------------------------------------------------

  /** The sender's next number is one the receiver takes, and the two ends fit. */
  ghost predicate Reaches(sender: Endpoint, receiver: Endpoint) {
    && receiver.receiveKey == sender.sendKey && receiver.maxDatagram == sender.maxDatagram && Usable(sender)
    && receiver.local == sender.remote && receiver.remote == sender.local
    && sender.sendPN < REHANDSHAKE && Judge(receiver.window, sender.sendPN) == Accepted
  }

  ghost function SealAction(byClient: bool, frames: seq<Frame>): Action {
    if byClient then ClientSeal(frames) else ServerSeal(frames)
  }

  ghost function OpenAction(atClient: bool, datagram: bytes): Action {
    if atClient then ClientOpen(datagram) else ServerOpen(datagram)
  }

  /** Whatever an established side seals within the limit, the other established side delivers, in either direction. */
  lemma Transfers(c: Cipher, s: System, byClient: bool, frames: seq<Frame>, sealOpen: Opener, open: Opener) returns (datagram: bytes)
    requires Transport.Lawful(c) && s.client.state == Established && s.server.state == Established
    requires Reaches(SideOf(s, byClient).end, SideOf(s, !byClient).end)
    requires Frames.Marshal(frames, MaxPlaintext(SideOf(s, byClient).end.maxDatagram)).Some?
    requires Ideal(open, c, Step(c, s, SealAction(byClient, frames), sealOpen).log)
    ensures var e := SideOf(s, byClient).end; var t := Step(c, s, SealAction(byClient, frames), sealOpen);
      && Seal(c, e, frames).Sent? && datagram == Seal(c, e, frames).datagram
      && t.log == s.log + [Record(byClient, e.sendPN, frames, Seal(c, e, frames).sealing)]
      && Step(c, t, OpenAction(!byClient, datagram), open).delivered == s.delivered + [Delivery(!byClient, e.sendPN, frames)]
  {
    hide Transport.Lawful, Ideal, Seal, Frames.Marshal, Step, Open;
    var (e, d) := (SideOf(s, byClient).end, SideOf(s, !byClient).end);
    FramesFitDatagram(c, e, frames);
    datagram := Seal(c, e, frames).datagram;
    SealsOne(c, s, byClient, frames, sealOpen);
    var t := Step(c, s, SealAction(byClient, frames), sealOpen);
    SentIsDelivered(c, e, frames, d, t.log, |s.log|, open);
    OpensOne(c, t, !byClient, datagram, open);
  }

  lemma SealsOne(c: Cipher, s: System, byClient: bool, frames: seq<Frame>, open: Opener)
    requires SideOf(s, byClient).state == Established && Seal(c, SideOf(s, byClient).end, frames).Sent?
    ensures var t := Step(c, s, SealAction(byClient, frames), open); var e := SideOf(s, byClient).end;
      && t.log == s.log + [Record(byClient, e.sendPN, frames, Seal(c, e, frames).sealing)]
      && SideOf(t, !byClient) == SideOf(s, !byClient) && t.delivered == s.delivered
  {
    hide Seal;
  }

  lemma OpensOne(c: Cipher, s: System, atClient: bool, datagram: bytes, open: Opener)
    requires SideOf(s, atClient).state == Established && Open(SideOf(s, atClient).end, datagram, open).Delivered?
    ensures var r := Open(SideOf(s, atClient).end, datagram, open);
      Step(c, s, OpenAction(atClient, datagram), open).delivered == s.delivered + [Delivery(atClient, r.pn, r.frames)]
  {
    hide Open, AfterOpen, ClaimedBy;
  }

  // ---------------------------------------------------------------------------------------------
  // Closing
  // ---------------------------------------------------------------------------------------------

  predicate Down(state: State) {
    state == Rejected || state == Closed
  }

  /** A side closes when told to, and when it runs out of packet numbers while sealing. */
  lemma Closes(c: Cipher, s: System, frames: seq<Frame>, open: Opener)
    ensures Step(c, s, ClientClose, open).client.state == Closed && Step(c, s, ServerClose, open).server.state == Closed
    ensures s.client.state == Established && s.client.end.sendPN >= REHANDSHAKE ==>
      Step(c, s, ClientSeal(frames), open).client.state == Closed && Step(c, s, ClientSeal(frames), open).log == s.log
    ensures s.server.state == Established && s.server.end.sendPN >= REHANDSHAKE ==>
      Step(c, s, ServerSeal(frames), open).server.state == Closed && Step(c, s, ServerSeal(frames), open).log == s.log
  {
  }

  lemma StaysDown(c: Cipher, s: System, a: Action, open: Opener, client: bool)
    requires Down(SideOf(s, client).state)
    ensures var t := Step(c, s, a, open); Down(SideOf(t, client).state) && SideOf(t, client).end == SideOf(s, client).end
  {
    hide Open, AfterOpen, Seal, ClaimedBy;
  }

  /** A side that is down seals nothing and delivers nothing. */
  lemma DownIsSilent(c: Cipher, s: System, a: Action, open: Opener)
    ensures var t := Step(c, s, a, open);
      && (Down(s.client.state) && |t.log| > |s.log| ==> !t.log[|s.log|].byClient)
      && (Down(s.server.state) && |t.log| > |s.log| ==> t.log[|s.log|].byClient)
      && (Down(s.client.state) && |t.delivered| > |s.delivered| ==> !t.delivered[|s.delivered|].atClient)
      && (Down(s.server.state) && |t.delivered| > |s.delivered| ==> t.delivered[|s.delivered|].atClient)
  {
    hide Open, AfterOpen, Seal, ClaimedBy;
  }

  /** So over every run: from the moment a side is down its endpoint never changes again. */
  lemma {:induction false} SilentEverAfter(c: Cipher, states: seq<System>, actions: seq<Action>, openers: seq<Opener>, i: nat, j: nat, client: bool)
    requires IsRun(c, states, actions, openers) && i <= j < |states| && Down(SideOf(states[i], client).state)
    ensures Down(SideOf(states[j], client).state) && SideOf(states[j], client).end == SideOf(states[i], client).end
  {
    hide IsRun, Step, Down;
    RunLength(c, states, actions, openers);
    if i < j {
      SilentEverAfter(c, states, actions, openers, i, j - 1, client);
      RunStep(c, states, actions, openers, j - 1);
      StaysDown(c, states[j - 1], actions[j - 1], openers[j - 1], client);
    }
  }

  // ---------------------------------------------------------------------------------------------
  // Nonces
  // ---------------------------------------------------------------------------------------------

  lemma StepKeepsKeys(c: Cipher, s: System, a: Action, open: Opener)
    ensures var t := Step(c, s, a, open);
      t.client.end.sendKey == s.client.end.sendKey && t.server.end.sendKey == s.server.end.sendKey
  {
    hide Open, AfterOpen, Seal, ClaimedBy;
    if a.HandlePong? || a.ClientOpen? {
      OpeningKeepsKey(s.client.end, a.datagram, open);
    } else if a.HandleConfirm? || a.ServerOpen? {
      OpeningKeepsKey(s.server.end, a.datagram, open);
    }
  }

  lemma OpeningKeepsKey(e: Endpoint, datagram: bytes, open: Opener)
    ensures AfterOpen(e, datagram, open).sendKey == e.sendKey
  {
    hide Authenticate;
  }

  lemma {:induction false} KeysStay(c: Cipher, states: seq<System>, actions: seq<Action>, openers: seq<Opener>, n: nat)
    requires IsRun(c, states, actions, openers) && n < |states|
    ensures states[n].client.end.sendKey == states[0].client.end.sendKey && states[n].server.end.sendKey == states[0].server.end.sendKey
  {
    hide IsRun, Step;
    RunLength(c, states, actions, openers);
    if n > 0 {
      KeysStay(c, states, actions, openers, n - 1);
      RunStep(c, states, actions, openers, n - 1);
      StepKeepsKeys(c, states[n - 1], actions[n - 1], openers[n - 1]);
    }
  }

  /** In a run that starts with two send keys, no key and nonce pair is ever sealed twice, on whichever side. */
  lemma PairsNeverReused(c: Cipher, states: seq<System>, actions: seq<Action>, openers: seq<Opener>)
    requires IsRun(c, states, actions, openers) && states[0].client.end.sendKey != states[0].server.end.sendKey
    ensures var log := states[|actions|].log;
      forall i, j :: 0 <= i < j < |log| ==> log[i].sealing.key != log[j].sealing.key || log[i].sealing.nonce != log[j].sealing.nonce
  {
    hide Step, Ideal;
    KeysStay(c, states, actions, openers, |actions|);
    NonceNeverReused(c, states, actions, openers);
  }
}
