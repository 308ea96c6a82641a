/**
 The objects of handshake/transport.go: a client and a server session, each with its packet
 number counter and its replay window in place, proved against the steps of Transport.
 */
module Parties {
  import opened Bytes
  import opened Replay
  import opened Packets
  import opened Transport
  import Frames

  /** What a Client and a ServerSession share: sealLocked and openLocked. */
  class Link {
    const local: uint64
    const remote: uint64
    const sendKey: Key
    const receiveKey: Key
    const maxDatagram: nat
    const window: ReplayWindow
    var sendPN: nat

    constructor (local: uint64, remote: uint64, sendKey: Key, receiveKey: Key, maxDatagram: nat)
      ensures Valid() && fresh(window) && fresh(window.bitmap)
      ensures View() == Endpoint(local, remote, sendKey, receiveKey, 0, FRESH, maxDatagram)
    {
      this.local, this.remote, this.sendKey, this.receiveKey := local, remote, sendKey, receiveKey;
      this.maxDatagram, this.sendPN := maxDatagram, 0;
      this.window := new ReplayWindow();
    }

    ghost predicate Valid()
      reads this, window, window.bitmap
    {
      window.Valid()
    }

    ghost function View(): Endpoint
      requires Valid()
      reads this, window, window.bitmap
    {
      Endpoint(local, remote, sendKey, receiveKey, sendPN, window.Model(), maxDatagram)
    }

    method SealLocked(frames: seq<Frame>, seal: Cipher) returns (r: Sealed)
      requires Valid()
      modifies this
      ensures Valid() && r == Seal(seal, old(View()), frames) && View() == AfterSeal(old(View()))
    {
      hide Frames.Marshal, Marshal, ValidHeader, EncodeHeader;
      if sendPN >= REHANDSHAKE {
        return Exhausted;
      }
      var pn := sendPN;
      sendPN := sendPN + 1;
      var plaintext := Frames.MarshalFrames(frames, MaxPlaintext(maxDatagram));
      if plaintext.None? || |plaintext.value| > MAX_UINT16 - TAG_SIZE {
        return Refused;
      }
      var header := Header(VERSION_1, TRANSPORT, 0, remote, local, pn, |plaintext.value| + TAG_SIZE, 0);
      var associatedData := MarshalHeader(header);
      if associatedData.None? {
        return Refused;
      }
      var sealing := Sealing(sendKey, Nonce(pn), associatedData.value, plaintext.value);
      var datagram := MarshalPacket(Packet(header, seal(sealing)), maxDatagram);
      r := if datagram.None? then Discarded(sealing) else Sent(sealing, datagram.value);
    }

    method OpenLocked(datagram: bytes, open: Opener) returns (r: Opened)
      requires Valid()
      modifies window, window.bitmap
      ensures Valid() && r == Open(old(View()), datagram, open)
      ensures View() == AfterOpen(old(View()), datagram, open)
    {
      hide Frames.Parse, Packets.Parse, EncodeHeader, Nonce;
      var packet := Packets.Parse(datagram, maxDatagram);
      if packet.None? || packet.value.header.kind != TRANSPORT {
        return Dropped;
      }
      var header := packet.value.header;
      if header.dcid != local || header.scid != remote {
        return Dropped;
      }
      var inReach := window.Precheck(header.packetNumber);
      if header.packetNumber >= REHANDSHAKE || !inReach {
        return Dropped;
      }
      var plaintext := open(receiveKey, Nonce(header.packetNumber), EncodeHeader(header), packet.value.payload);
      if plaintext.None? {
        return Dropped;
      }
      var verdict := window.AcceptAuthenticated(header.packetNumber);
      if verdict != Accepted {
        return Repeated;
      }
      var frames := Frames.ParseFrames(plaintext.value, MaxPlaintext(maxDatagram));
      r := if frames.None? then Malformed else Delivered(header.packetNumber, frames.value);
    }
  }

  class Client {
    const link: Link
    const th2: Key
    var state: State
    var challenge: bytes
    var haveChallenge: bool

    constructor (link: Link, th2: Key)
      requires link.Valid()
      ensures Valid() && this.link == link && View() == Party(PendingConfirm, link.View(), th2, [], false)
    {
      this.link, this.th2 := link, th2;
      state, challenge, haveChallenge := PendingConfirm, [], false;
    }

    ghost predicate Valid()
      reads this, link, link.window, link.window.bitmap
    {
      link.Valid()
    }

    ghost function View(): Party
      requires Valid()
      reads this, link, link.window, link.window.bitmap
    {
      Party(state, link.View(), th2, challenge, haveChallenge)
    }

    method CloseLocked(next: State)
      requires Valid()
      modifies this
      ensures Valid() && View() == CloseAs(old(View()), next)
    {
      haveChallenge, challenge, state := false, [], next;
    }

    /** sealLocked: running out of packet numbers closes the client. */
    method SealLocked(frames: seq<Frame>, seal: Cipher, ghost s: System) returns (r: Sealed)
      requires Valid() && s.client == View()
      modifies this, link
      ensures Valid() && r == Seal(seal, old(View()).end, frames)
      ensures View() == Seals(seal, s, true, frames).client
    {
      hide Transport.Seal;
      SealCounts(seal, link.View(), frames);
      r := link.SealLocked(frames, seal);
      if r == Exhausted {
        CloseLocked(Closed);
      }
    }

    method BuildConfirm(random: bytes, seal: Cipher, ghost s: System, ghost open: Opener) returns (r: Sealed)
      requires Valid() && s.client == View()
      modifies this, link
      ensures Valid() && View() == Step(seal, s, Action.BuildConfirm(random), open).client
      ensures r == if old(state) == PendingConfirm then Seal(seal, old(View()).end, ConfirmFrames(th2, random)) else Refused
    {
      hide Transport.Seal;
      if state != PendingConfirm {
        return Refused;
      }
      r := SealLocked(ConfirmFrames(th2, random), seal, s);
      if r.Sent? {
        challenge, haveChallenge, state := random, true, PendingPong;
      }
    }

    method RetransmitConfirm(seal: Cipher, ghost s: System, ghost open: Opener) returns (r: Sealed)
      requires Valid() && s.client == View()
      modifies this, link
      ensures Valid() && View() == Step(seal, s, Action.RetransmitConfirm, open).client
      ensures r == if old(state) == PendingPong && old(haveChallenge)
                   then Seal(seal, old(View()).end, ConfirmFrames(th2, old(challenge))) else Refused
    {
      hide Transport.Seal;
      if state != PendingPong || !haveChallenge {
        return Refused;
      }
      r := SealLocked(ConfirmFrames(th2, challenge), seal, s);
    }

    method HandlePong(datagram: bytes, open: Opener, ghost seal: Cipher, ghost s: System) returns (ok: bool)
      requires Valid() && s.client == View()
      modifies this, link.window, link.window.bitmap
      ensures Valid() && View() == Step(seal, s, Action.HandlePong(datagram), open).client
      ensures ok <==> old(state) != Established && state == Established
      ensures ok <==>
        var r := Open(old(View()).end, datagram, open);
        && old(state) == PendingPong && old(haveChallenge)
        && r.Delivered? && |r.frames| == 1 && r.frames[0].kind == Frames.PONG && r.frames[0].body == old(challenge)
    {
      hide Transport.Open, AfterOpen;
      if state != PendingPong || !haveChallenge {
        return false;
      }
      var r := link.OpenLocked(datagram, open);
      if !r.Delivered? || |r.frames| != 1 || r.frames[0].kind != Frames.PONG || r.frames[0].body != challenge {
        return false;
      }
      haveChallenge, challenge, state := false, [], Established;
      ok := true;
    }
  }

  class ServerSession {
    const link: Link
    const th2: Key
    var state: State
    var challenge: bytes
    var haveChallenge: bool

    constructor (link: Link, th2: Key)
      requires link.Valid()
      ensures Valid() && this.link == link && View() == Party(PendingConfirm, link.View(), th2, [], false)
    {
      this.link, this.th2 := link, th2;
      state, challenge, haveChallenge := PendingConfirm, [], false;
    }

    ghost predicate Valid()
      reads this, link, link.window, link.window.bitmap
    {
      link.Valid()
    }

    ghost function View(): Party
      requires Valid()
      reads this, link, link.window, link.window.bitmap
    {
      Party(state, link.View(), th2, challenge, haveChallenge)
    }

    method CloseLocked(next: State)
      requires Valid()
      modifies this
      ensures Valid() && View() == CloseAs(old(View()), next)
    {
      haveChallenge, challenge, state := false, [], next;
    }

    /** Seal the PONG; if that fails for any reason the session closes. */
    method Reply(challenge': bytes, seal: Cipher, ghost s: System) returns (r: Sealed)
      requires Valid() && s.server == View()
      modifies this, link
      ensures Valid() && View() == Answer(seal, s, challenge').server
      ensures r == Seal(seal, old(View()).end, PongFrames(challenge'))
      ensures r.Sent? ==> state == old(state) && challenge == old(challenge)
    {
      hide Transport.Seal;
      SealCounts(seal, link.View(), PongFrames(challenge'));
      r := link.SealLocked(PongFrames(challenge'), seal);
      if !r.Sent? {
        CloseLocked(Closed);
      }
    }

    /** `cacheAgrees` is the answer of promoteAttempt or, once established, of confirmGraceActive. */
    method HandleConfirm(datagram: bytes, cacheAgrees: bool, seal: Cipher, open: Opener, ghost s: System)
      returns (r: Sealed)
      requires Valid() && s.server == View()
      modifies this, link, link.window, link.window.bitmap
      ensures Valid() && View() == Step(seal, s, Action.HandleConfirm(datagram, cacheAgrees), open).server
      ensures r == ConfirmReply(seal, old(View()), datagram, cacheAgrees, open)
      ensures r.Sent? ==> state == Established && r == Seal(seal, AfterOpen(old(View()).end, datagram, open), PongFrames(challenge))
    {
      hide Transport.Open, AfterOpen, Transport.Seal, Answer, ClaimedBy;
      r := Refused;
      if state != PendingConfirm && state != Established {
        return;
      }
      var wasEstablished := state == Established;
      var got := link.OpenLocked(datagram, open);
      ghost var t := Opens(s, false, datagram, open);
      if !got.Delivered? || |got.frames| != 2 || got.frames[0].kind != Frames.CONFIRM
         || got.frames[1].kind != Frames.PING {
        return;
      }
      if got.frames[0].body != th2 {
        if !wasEstablished {
          CloseLocked(Rejected);
        }
        return;
      }
      var received := got.frames[1].body;
      if wasEstablished {
        if !haveChallenge || received != challenge || !cacheAgrees {
          return;
        }
      } else {
        if !cacheAgrees {
          CloseLocked(Closed);
          return;
        }
        challenge, haveChallenge, state := received, true, Established;
        t := t.(everEstablished := true,
                server := t.server.(state := Established, challenge := received, haveChallenge := true));
      }
      r := Reply(received, seal, t);
    }
  }
}
