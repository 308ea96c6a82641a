/**
 The TRANSPORT phase of one connection: a client and a server session that number, seal, open and
 replay-check datagrams over a network that may lose, repeat, reorder or invent them
 (handshake/transport.go, crypto/transport.go, crypto/aead.go).

 The cipher is ideal: a ciphertext opens only to what was sealed under the same key, nonce and
 associated data. Everything else is the code's own logic.
 */
module Transport {
  import opened Bytes
  import opened Replay
  import opened Packets
  import Frames

  type Frame = Frames.Frame

  const REHANDSHAKE: nat := 0x1_0000_0000

  // ---------------------------------------------------------------------------------------------
  // The cipher
  // ---------------------------------------------------------------------------------------------

  /** The inputs of one call of the AEAD's sealing function. */
  datatype Sealing = Sealing(key: Key, nonce: bytes, ad: bytes, plaintext: bytes)

  type Cipher = Sealing -> bytes

  /** Ciphertexts carry a 16-byte tag and decrypt to one plaintext. */
  ghost predicate Lawful(c: Cipher) {
    && (forall s: Sealing :: |c(s)| == |s.plaintext| + TAG_SIZE)
    && (forall s: Sealing, t: Sealing :: s.key == t.key && s.nonce == t.nonce && s.ad == t.ad && c(s) == c(t) ==> s == t)
  }

  type Opener = (Key, bytes, bytes, bytes) -> Option<bytes>

  /** The opener answers exactly for the ciphertexts of logged sealings, with their plaintexts. */
  ghost predicate Ideal(open: Opener, c: Cipher, log: seq<Record>) {
    && (forall key, nonce, ad, ct :: open(key, nonce, ad, ct).Some? ==>
          Logged(Sealing(key, nonce, ad, open(key, nonce, ad, ct).value), ct, c, log))
    && (forall i :: 0 <= i < |log| ==>
          var s := log[i].sealing; open(s.key, s.nonce, s.ad, c(s)) == Some(s.plaintext))
  }

  ghost predicate Logged(s: Sealing, ct: bytes, c: Cipher, log: seq<Record>) {
    c(s) == ct && exists i :: 0 <= i < |log| && log[i].sealing == s
  }

  /** Such an opener exists for every lawful cipher, whatever has been sealed. */
  lemma IdealExists(c: Cipher, log: seq<Record>) returns (open: Opener)
    requires Lawful(c)
    ensures Ideal(open, c, log)
  {
    open := (key, nonce, ad, ct) =>
      if exists i :: 0 <= i < |log| && Produced(log[i].sealing, key, nonce, ad, ct, c)
      then (var i :| 0 <= i < |log| && Produced(log[i].sealing, key, nonce, ad, ct, c); Some(log[i].sealing.plaintext))
      else None;
    forall i | 0 <= i < |log|
      ensures var s := log[i].sealing; open(s.key, s.nonce, s.ad, c(s)) == Some(s.plaintext)
    {
      var s := log[i].sealing;
      assert Produced(log[i].sealing, s.key, s.nonce, s.ad, c(s), c);
    }
  }

  /** The sealing produced this ciphertext under this key, nonce and associated data. */
  ghost predicate Produced(s: Sealing, key: Key, nonce: bytes, ad: bytes, ct: bytes, c: Cipher) {
    s.key == key && s.nonce == nonce && s.ad == ad && c(s) == ct
  }

  function Nonce(packetNumber: nat): bytes {
    [0, 0, 0, 0] + LittleEndian(packetNumber, 8)
  }

  lemma NonceInjective(m: uint64, n: uint64)
    requires Nonce(m) == Nonce(n)
    ensures m == n
  {
    assert LittleEndian(m, 8) == Nonce(m)[4..] && LittleEndian(n, 8) == Nonce(n)[4..];
    WidthLimits();
    LittleEndianInjective(m, n, 8);
  }

  // ---------------------------------------------------------------------------------------------
  // Sealing and opening at one end
  // ---------------------------------------------------------------------------------------------

  datatype Endpoint = Endpoint(
    local: uint64, remote: uint64, sendKey: Key, receiveKey: Key,
    sendPN: nat, window: Window, maxDatagram: nat)

  /** Connection IDs are non-zero and the datagram size leaves room for one empty frame. */
  predicate Usable(e: Endpoint) {
    e.local != 0 && e.remote != 0 && 52 <= e.maxDatagram <= MAX_UINT16
  }

  function MaxPlaintext(maxDatagram: int): int {
    maxDatagram - HEADER_SIZE - TAG_SIZE
  }

  function OutgoingHeader(e: Endpoint, pn: uint64, plaintextLength: nat): Header
    requires plaintextLength + TAG_SIZE <= MAX_UINT16
  {
    Header(VERSION_1, TRANSPORT, 0, e.remote, e.local, pn, plaintextLength + TAG_SIZE, 0)
  }

  /** One sealing by one side, with the packet number and the frames it was made for. */
  datatype Record = Record(byClient: bool, pn: nat, frames: seq<Frame>, sealing: Sealing)

  /**
   A call of sealLocked ends without a number left, with a refusal before or after the AEAD was
   invoked, or with a datagram.
   */
  datatype Sealed = Exhausted | Refused | Discarded(sealing: Sealing) | Sent(sealing: Sealing, datagram: bytes) {
    predicate Invoked() {
      Discarded? || Sent?
    }
  }

  ghost function Seal(c: Cipher, e: Endpoint, frames: seq<Frame>): Sealed {
    if e.sendPN >= REHANDSHAKE then Exhausted
    else
      var plaintext := Frames.Marshal(frames, MaxPlaintext(e.maxDatagram));
      if plaintext.None? || |plaintext.value| > MAX_UINT16 - TAG_SIZE then Refused
      else
        var header := OutgoingHeader(e, e.sendPN, |plaintext.value|);
        var ad := HeaderBytes(header);
        if ad.None? then Refused
        else
          var s := Sealing(e.sendKey, Nonce(e.sendPN), ad.value, plaintext.value);
          var datagram := Marshal(Packet(header, c(s)), e.maxDatagram);
          if datagram.None? then Discarded(s) else Sent(s, datagram.value)
  }

  /** The number is used up whatever becomes of the sealing. */
  ghost function AfterSeal(e: Endpoint): Endpoint {
    if e.sendPN >= REHANDSHAKE then e else e.(sendPN := e.sendPN + 1)
  }

  datatype Opened = Dropped | Repeated | Malformed | Delivered(pn: nat, frames: seq<Frame>)

  /** Everything up to and including authentication: the packet number and the plaintext. */
  function Authenticate(e: Endpoint, datagram: bytes, open: Opener): Option<(uint64, bytes)> {
    var packet := Parse(datagram, e.maxDatagram);
    if packet.None? || packet.value.header.kind != TRANSPORT then None
    else
      var h := packet.value.header;
      if h.dcid != e.local || h.scid != e.remote then None
      else if h.packetNumber >= REHANDSHAKE || !PassesPrecheck(e.window, h.packetNumber) then None
      else
        var plaintext := open(e.receiveKey, Nonce(h.packetNumber), EncodeHeader(h), packet.value.payload);
        if plaintext.None? then None else Some((h.packetNumber, plaintext.value))
  }

  ghost function Open(e: Endpoint, datagram: bytes, open: Opener): Opened {
    var authentic := Authenticate(e, datagram, open);
    if authentic.None? then Dropped
    else
      var (pn, plaintext) := authentic.value;
      if Judge(e.window, pn) != Accepted then Repeated
      else
        var frames := Frames.Parse(plaintext, MaxPlaintext(e.maxDatagram));
        if frames.None? then Malformed else Delivered(pn, frames.value)
  }

  ghost function AfterOpen(e: Endpoint, datagram: bytes, open: Opener): Endpoint {
    var authentic := Authenticate(e, datagram, open);
    if authentic.None? then e else e.(window := Claim(e.window, authentic.value.0))
  }

  /**
   What a datagram does to the window: nothing if it fails before authentication or repeats a
   number; otherwise its own number is used up, whether or not its frames turn out to be readable.
   */
  lemma WindowEffect(e: Endpoint, datagram: bytes, open: Opener)
    ensures var (r, e') := (Open(e, datagram, open), AfterOpen(e, datagram, open));
      && (r == Dropped <==> Authenticate(e, datagram, open).None?)
      && (r == Dropped || r == Repeated ==> e' == e)
      && (r == Malformed || r.Delivered? ==>
            var pn := Authenticate(e, datagram, open).value.0;
            && (r.Delivered? ==> r.pn == pn)
            && Judge(e.window, pn) == Accepted && Judge(e'.window, pn) == Duplicate
            && e' == e.(window := Claim(e.window, pn)))
  {
    hide Frames.Parse, Parse;
    var authentic := Authenticate(e, datagram, open);
    if authentic.Some? {
      var pn := authentic.value.0;
      assert Judge(e.window, pn) == Accepted ==> Judge(Claim(e.window, pn), pn) == Duplicate;
    }
  }

  /** A sealing is only ever refused for its frames: what the frame limit admits, the datagram holds. */
  lemma FramesFitDatagram(c: Cipher, e: Endpoint, frames: seq<Frame>)
    requires Lawful(c) && Usable(e) && e.sendPN < REHANDSHAKE
    requires Frames.Marshal(frames, MaxPlaintext(e.maxDatagram)).Some?
    ensures Seal(c, e, frames).Sent?
  {
    hide Frames.Encode, Frames.Sendable, Frames.ValidCombination, EncodeHeader;
  }

  /**
   Whatever one side sends, the other side delivers: with mirrored connection IDs, the same key
   and size limit, and a number the window still takes, opening returns the frames that were sealed.
   */
  lemma SentIsDelivered(
    c: Cipher, sender: Endpoint, frames: seq<Frame>, receiver: Endpoint, log: seq<Record>, i: nat, open: Opener)
    requires Lawful(c) && Ideal(open, c, log)
    requires Seal(c, sender, frames).Sent? && i < |log| && log[i].sealing == Seal(c, sender, frames).sealing
    requires receiver.receiveKey == sender.sendKey && receiver.maxDatagram == sender.maxDatagram
    requires receiver.local == sender.remote && receiver.remote == sender.local
    requires Judge(receiver.window, sender.sendPN) == Accepted
    ensures Open(receiver, Seal(c, sender, frames).datagram, open) == Delivered(sender.sendPN, frames)
  {
    hide Frames.Marshal, Frames.Parse, EncodeHeader, ValidHeader, Marshal, Parse;
    var sent := Seal(c, sender, frames);
    var plaintext := sent.sealing.plaintext;
    var header := OutgoingHeader(sender, sender.sendPN, |plaintext|);
    var packet := Packet(header, c(sent.sealing));
    Packets.ParseInvertsMarshal(sent.datagram, packet, sender.maxDatagram);
    assert open(receiver.receiveKey, Nonce(sender.sendPN), EncodeHeader(header), packet.payload) == Some(plaintext);
    PrecheckIsTooOld(receiver.window, sender.sendPN);
    Frames.ParseInvertsMarshal(plaintext, frames, MaxPlaintext(sender.maxDatagram));
  }

  // ---------------------------------------------------------------------------------------------
  // The two parties
  // ---------------------------------------------------------------------------------------------

  datatype State = PendingConfirm | PendingPong | Established | Rejected | Closed

  datatype Party = Party(
    state: State, end: Endpoint, th2: Key, challenge: bytes, haveChallenge: bool)

  /** closeLocked: no challenge outlives it. */
  function CloseAs(p: Party, state: State): Party {
    p.(state := state, challenge := [], haveChallenge := false)
  }

  datatype Delivery = Delivery(atClient: bool, pn: nat, frames: seq<Frame>)

  /**
   One connection. `log`, `delivered`, the claimed sets and `everEstablished` only record what has
   happened: every AEAD sealing, every frame list returned by openLocked, every number claimed.
   */
  datatype System = System(
    client: Party, server: Party,
    log: seq<Record>, delivered: seq<Delivery>,
    clientClaimed: set<nat>, serverClaimed: set<nat>, everEstablished: bool)

  /** One call by either side; datagrams, challenges and the attempt cache's answers are arbitrary. */
  datatype Action =
    | BuildConfirm(challenge: bytes)
    | RetransmitConfirm
    | HandlePong(datagram: bytes)
    | ClientSeal(frames: seq<Frame>)
    | ClientOpen(datagram: bytes)
    | ClientClose
    | HandleConfirm(datagram: bytes, cacheAgrees: bool)
    | ServerSeal(frames: seq<Frame>)
    | ServerOpen(datagram: bytes)
    | ServerClose

  function ConfirmFrames(th2: Key, challenge: bytes): seq<Frame> {
    [Frames.Frame(Frames.CONFIRM, 0, th2), Frames.Frame(Frames.PING, 0, challenge)]
  }

  function PongFrames(challenge: bytes): seq<Frame> {
    [Frames.Frame(Frames.PONG, 0, challenge)]
  }

  ghost function SideOf(s: System, client: bool): Party {
    if client then s.client else s.server
  }

  ghost function WithSide(s: System, client: bool, p: Party): System {
    if client then s.(client := p) else s.(server := p)
  }

  /** sealLocked on either side; running out of numbers closes the side. */
  ghost function Seals(c: Cipher, s: System, byClient: bool, frames: seq<Frame>): System {
    var p := SideOf(s, byClient);
    var r := Seal(c, p.end, frames);
    if r == Exhausted then WithSide(s, byClient, CloseAs(p, Closed))
    else
      WithSide(s, byClient, p.(end := AfterSeal(p.end)))
      .(log := s.log + if r.Invoked() then [Record(byClient, p.end.sendPN, frames, r.sealing)] else [])
  }

  /** The number openLocked claims, if any. */
  ghost function ClaimedBy(e: Endpoint, datagram: bytes, open: Opener): set<nat> {
    var authentic := Authenticate(e, datagram, open);
    if authentic.Some? && Judge(e.window, authentic.value.0) == Accepted then {authentic.value.0} else {}
  }

  /** openLocked on either side. */
  ghost function Opens(s: System, atClient: bool, datagram: bytes, open: Opener): System {
    var p := SideOf(s, atClient);
    var (r, claimed) := (Open(p.end, datagram, open), ClaimedBy(p.end, datagram, open));
    WithSide(s, atClient, p.(end := AfterOpen(p.end, datagram, open)))
    .(clientClaimed := s.clientClaimed + if atClient then claimed else {},
      serverClaimed := s.serverClaimed + if atClient then {} else claimed,
      delivered := s.delivered + if r.Delivered? then [Delivery(atClient, r.pn, r.frames)] else [])
  }

  /** The client's wait for PONG ends in Established only on its own challenge. */
  ghost function PongStep(s: System, datagram: bytes, open: Opener): System {
    var (r, t) := (Open(s.client.end, datagram, open), Opens(s, true, datagram, open));
    if r.Delivered? && |r.frames| == 1 && r.frames[0].kind == Frames.PONG && r.frames[0].body == s.client.challenge
    then t.(client := CloseAs(t.client, Established))
    else t
  }

  /** The server's CONFIRM handling; `cacheAgrees` is what promoteAttempt or confirmGraceActive answers. */
  ghost function ConfirmStep(c: Cipher, s: System, datagram: bytes, cacheAgrees: bool, open: Opener): System {
    var (r, t) := (Open(s.server.end, datagram, open), Opens(s, false, datagram, open));
    var was := s.server.state == Established;
    if !(r.Delivered? && |r.frames| == 2 && r.frames[0].kind == Frames.CONFIRM && r.frames[1].kind == Frames.PING)
    then t
    else if r.frames[0].body != s.server.th2 then
      if was then t else t.(server := CloseAs(t.server, Rejected))
    else
      var challenge := r.frames[1].body;
      if was then
        if !s.server.haveChallenge || challenge != s.server.challenge || !cacheAgrees then t
        else Answer(c, t, challenge)
      else if !cacheAgrees then t.(server := CloseAs(t.server, Closed))
      else
        var up := t.(everEstablished := true,
                     server := t.server.(state := Established, challenge := challenge, haveChallenge := true));
        Answer(c, up, challenge)
  }

  /** Reply with PONG; a failed reply closes the session. */
  ghost function Answer(c: Cipher, s: System, challenge: bytes): System {
    var t := Seals(c, s, false, PongFrames(challenge));
    if Seal(c, s.server.end, PongFrames(challenge)).Sent? then t else t.(server := CloseAs(t.server, Closed))
  }

  /** An authentic CONFIRM of the session's own transcript that the cache still stands behind; a retry repeats its challenge. */
  ghost predicate Confirms(p: Party, datagram: bytes, cacheAgrees: bool, open: Opener) {
    && (p.state == PendingConfirm || p.state == Established)
    && var r := Open(p.end, datagram, open);
    && r.Delivered? && |r.frames| == 2 && r.frames[0].kind == Frames.CONFIRM && r.frames[1].kind == Frames.PING
    && r.frames[0].body == p.th2
    && (p.state == Established ==> p.haveChallenge && r.frames[1].body == p.challenge)
    && cacheAgrees
  }

  /** What the server's CONFIRM handling sends. */
  ghost function ConfirmReply(c: Cipher, p: Party, datagram: bytes, cacheAgrees: bool, open: Opener): Sealed {
    if Confirms(p, datagram, cacheAgrees, open)
    then Seal(c, AfterOpen(p.end, datagram, open), PongFrames(Open(p.end, datagram, open).frames[1].body))
    else Refused
  }

  /** A reply is sealed exactly where the step logs one; a session answers only as an established one, or closes. */
  lemma ReplyIsLogged(c: Cipher, s: System, datagram: bytes, cacheAgrees: bool, open: Opener)
    ensures var (r, t) := (ConfirmReply(c, s.server, datagram, cacheAgrees, open), Step(c, s, HandleConfirm(datagram, cacheAgrees), open));
      && t.log == s.log + (if r.Invoked() then
           [Record(false, s.server.end.sendPN, PongFrames(Open(s.server.end, datagram, open).frames[1].body), r.sealing)] else [])
      && (Confirms(s.server, datagram, cacheAgrees, open) ==> t.server.state == if r.Sent? then Established else Closed)
  {
    hide Open, AfterOpen, Seal, ClaimedBy;
    OpeningKeepsCounter(s.server.end, datagram, open);
  }

  lemma OpeningKeepsCounter(e: Endpoint, datagram: bytes, open: Opener)
    ensures AfterOpen(e, datagram, open).sendPN == e.sendPN
  {
    hide Authenticate;
  }

  ghost function Step(c: Cipher, s: System, a: Action, open: Opener): System {
    match a
    case BuildConfirm(challenge) =>
      if s.client.state != PendingConfirm then s
      else
        var t := Seals(c, s, true, ConfirmFrames(s.client.th2, challenge));
        if Seal(c, s.client.end, ConfirmFrames(s.client.th2, challenge)).Sent?
        then t.(client := t.client.(state := PendingPong, challenge := challenge, haveChallenge := true))
        else t
    case RetransmitConfirm =>
      if s.client.state != PendingPong || !s.client.haveChallenge then s
      else Seals(c, s, true, ConfirmFrames(s.client.th2, s.client.challenge))
    case HandlePong(datagram) =>
      if s.client.state != PendingPong || !s.client.haveChallenge then s else PongStep(s, datagram, open)
    case ClientSeal(frames) =>
      if s.client.state != Established then s else Seals(c, s, true, frames)
    case ClientOpen(datagram) =>
      if s.client.state != Established then s else Opens(s, true, datagram, open)
    case ClientClose => s.(client := CloseAs(s.client, Closed))
    case HandleConfirm(datagram, cacheAgrees) =>
      if s.server.state != PendingConfirm && s.server.state != Established then s
      else ConfirmStep(c, s, datagram, cacheAgrees, open)
    case ServerSeal(frames) =>
      if s.server.state != Established then s else Seals(c, s, false, frames)
    case ServerOpen(datagram) =>
      if s.server.state != Established then s else Opens(s, false, datagram, open)
    case ServerClose => s.(server := CloseAs(s.server, Closed))
  }

  /** A run: any actions in any order, each opened by a cipher that is ideal for the log so far. */
  ghost predicate IsRun(c: Cipher, states: seq<System>, actions: seq<Action>, openers: seq<Opener>) {
    && |states| == |actions| + 1 && |openers| == |actions|
    && Start(states[0])
    && forall i :: 0 <= i < |actions| ==>
         Ideal(openers[i], c, states[i].log) && states[i + 1] == Step(c, states[i], actions[i], openers[i])
  }

  /** Both sides fresh out of the handshake; nothing says yet that they agree on anything. */
  ghost predicate Start(s: System) {
    && s.client.state == PendingConfirm && s.server.state == PendingConfirm
    && !s.client.haveChallenge && !s.server.haveChallenge
    && Fresh(s.client.end) && Fresh(s.server.end)
    && s.log == [] && s.delivered == [] && s.clientClaimed == {} && s.serverClaimed == {} && !s.everEstablished
  }

  /** An endpoint that has sent and received nothing; its own packets cannot be reflected back at it. */
  ghost predicate Fresh(e: Endpoint) {
    e.sendPN == 0 && e.window == FRESH && NoReflection(e)
  }

  ghost predicate NoReflection(e: Endpoint) {
    e.sendKey != e.receiveKey || e.local != e.remote
  }

  // ---------------------------------------------------------------------------------------------
  // What every step keeps
  // ---------------------------------------------------------------------------------------------

  /** A record really is one sealing by its side's endpoint. */
  ghost predicate Genuine(r: Record, e: Endpoint) {
    && r.pn < e.sendPN && r.pn <= MAX_UINT64 && |r.sealing.plaintext| + TAG_SIZE <= MAX_UINT16
    && r.sealing.key == e.sendKey && r.sealing.nonce == Nonce(r.pn)
    && r.sealing.ad == EncodeHeader(OutgoingHeader(e, r.pn, |r.sealing.plaintext|))
    && Frames.Sendable(r.frames) && r.sealing.plaintext == Frames.Encode(r.frames)
  }

  ghost predicate LogInv(s: System) {
    && (forall i :: 0 <= i < |s.log| ==> Genuine(s.log[i], SideOf(s, s.log[i].byClient).end))
    && (forall i, j :: 0 <= i < j < |s.log| && s.log[i].byClient == s.log[j].byClient ==> s.log[i].pn < s.log[j].pn)
    && s.client.end.sendPN <= REHANDSHAKE && s.server.end.sendPN <= REHANDSHAKE
    && NoReflection(s.client.end) && NoReflection(s.server.end)
  }

  /** Delivery d hands over exactly what record r sealed, on the other side. */
  ghost predicate Matches(d: Delivery, r: Record) {
    r.byClient != d.atClient && r.pn == d.pn && r.frames == d.frames
  }

  ghost predicate WasSent(d: Delivery, log: seq<Record>) {
    exists j :: 0 <= j < |log| && Matches(d, log[j])
  }

  ghost predicate DeliveryInv(s: System) {
    && Remembers(s.client.end.window, s.clientClaimed)
    && Remembers(s.server.end.window, s.serverClaimed)
    && (forall i :: 0 <= i < |s.delivered| ==>
          && s.delivered[i].pn in (if s.delivered[i].atClient then s.clientClaimed else s.serverClaimed)
          && WasSent(s.delivered[i], s.log))
    && (forall i, j :: 0 <= i < j < |s.delivered| && s.delivered[i].atClient == s.delivered[j].atClient ==>
          s.delivered[i].pn != s.delivered[j].pn)
  }

  /**
   Until the server has been established the client has sealed nothing but its own CONFIRM, and
   the server nothing at all; afterwards both hold the same transcript hash. An established client
   has heard from the server, so the other key agrees too.
   */
  ghost predicate AgreementInv(s: System) {
    && (s.server.state == Established ==> s.everEstablished)
    && (s.client.state == Established ==> s.everEstablished)
    && (s.client.state == PendingConfirm || s.client.state == PendingPong || s.client.state == Established
        || s.client.state == Closed)
    && (!s.everEstablished ==> forall i :: 0 <= i < |s.log| ==>
          s.log[i].byClient && IsConfirmOf(s.log[i].frames, s.client.th2))
    && (s.everEstablished ==> s.server.th2 == s.client.th2 && Mirrored(s.client.end, s.server.end))
    && (s.client.state == Established ==> s.client.end.receiveKey == s.server.end.sendKey)
  }

  /** The two ends name each other and share the client-to-server key. */
  ghost predicate Mirrored(client: Endpoint, server: Endpoint) {
    client.local == server.remote && client.remote == server.local && client.sendKey == server.receiveKey
  }

  ghost predicate Inv(s: System) {
    LogInv(s) && DeliveryInv(s) && AgreementInv(s)
  }

  // ---------------------------------------------------------------------------------------------
  // Proofs
  // ---------------------------------------------------------------------------------------------

  /** An authentic datagram carries a logged plaintext, sealed under the header the receiver saw. */
  lemma AuthenticIsLogged(c: Cipher, e: Endpoint, datagram: bytes, open: Opener, log: seq<Record>) returns (i: nat, h: Header)
    requires Ideal(open, c, log) && Authenticate(e, datagram, open).Some?
    ensures i < |log|
    ensures var (pn, plaintext) := Authenticate(e, datagram, open).value;
      && h.packetNumber == pn && h.dcid == e.local && h.scid == e.remote
      && log[i].sealing == Sealing(e.receiveKey, Nonce(pn), EncodeHeader(h), plaintext)
  {
    hide Parse, EncodeHeader, Nonce;
    var packet := Parse(datagram, e.maxDatagram).value;
    h := packet.header;
    var plaintext := open(e.receiveKey, Nonce(h.packetNumber), EncodeHeader(h), packet.payload).value;
    var s := Sealing(e.receiveKey, Nonce(h.packetNumber), EncodeHeader(h), plaintext);
    assert Logged(s, packet.payload, c, log);
    i :| 0 <= i < |log| && log[i].sealing == s;
  }

  /** Frames read back from an encoded plaintext are the frames that were encoded. */
  lemma SamePlaintext(frames: seq<Frame>, plaintext: bytes, maxPlaintext: int)
    requires Frames.Sendable(frames) && plaintext == Frames.Encode(frames)
    requires Frames.Parse(plaintext, maxPlaintext).Some?
    ensures Frames.Parse(plaintext, maxPlaintext).value == frames
  {
    Frames.DecodeComplete(frames);
  }

  /** What a side opens was sealed by the other side, with the same number and the same frames. */
  lemma OpenedWasSealed(c: Cipher, s: System, atClient: bool, datagram: bytes, open: Opener) returns (i: nat)
    requires LogInv(s) && Ideal(open, c, s.log)
    requires Authenticate(SideOf(s, atClient).end, datagram, open).Some?
    ensures i < |s.log| && s.log[i].byClient == !atClient
    ensures var (e, d) := (SideOf(s, atClient).end, SideOf(s, !atClient).end);
      && e.local == d.remote && e.remote == d.local && e.receiveKey == d.sendKey
      && Authenticate(e, datagram, open).value == (s.log[i].pn, s.log[i].sealing.plaintext)
      && (Open(e, datagram, open).Delivered? ==>
            Open(e, datagram, open) == Delivered(s.log[i].pn, s.log[i].frames))
  {
    hide Frames.Parse, Frames.Encode, Frames.Sendable, Authenticate, EncodeHeader, Nonce;
    var e := SideOf(s, atClient).end;
    var h;
    i, h := AuthenticIsLogged(c, e, datagram, open, s.log);
    var r := s.log[i];
    var d := SideOf(s, r.byClient).end;
    assert Genuine(r, d);
    HeaderInjective(h, OutgoingHeader(d, r.pn, |r.sealing.plaintext|));
    if Open(e, datagram, open).Delivered? {
      SamePlaintext(r.frames, r.sealing.plaintext, MaxPlaintext(e.maxDatagram));
    }
  }

  ghost function ClaimedAt(s: System, client: bool): set<nat> {
    if client then s.clientClaimed else s.serverClaimed
  }

  /** One claim on a window is one more number remembered. */
  lemma ClaimRemembers(w: Window, claimed: set<nat>, pn: nat)
    requires Remembers(w, claimed)
    ensures Judge(w, pn) == Accepted ==> pn !in claimed
    ensures Remembers(Claim(w, pn), claimed + if Judge(w, pn) == Accepted then {pn} else {})
  {
  }

  lemma SealIsGenuine(c: Cipher, e: Endpoint, byClient: bool, frames: seq<Frame>)
    requires Seal(c, e, frames).Invoked()
    ensures Genuine(Record(byClient, e.sendPN, frames, Seal(c, e, frames).sealing), AfterSeal(e))
  {
    hide Frames.Encode, Frames.Sendable, Frames.ValidCombination, Marshal, EncodeHeader, Nonce;
  }

  /** Genuine looks only at what sealing and opening never change, and at a counter that only grows. */
  lemma StaysGenuine(r: Record, e: Endpoint, f: Endpoint)
    requires Genuine(r, e)
    requires f.local == e.local && f.remote == e.remote && f.sendKey == e.sendKey && e.sendPN <= f.sendPN
    ensures Genuine(r, f)
  {
    hide Frames.Encode, Frames.Sendable, EncodeHeader, Nonce;
  }

  lemma SealsKeeps(c: Cipher, s: System, byClient: bool, frames: seq<Frame>)
    requires LogInv(s) && DeliveryInv(s)
    ensures LogInv(Seals(c, s, byClient, frames)) && DeliveryInv(Seals(c, s, byClient, frames))
    ensures Seals(c, s, byClient, frames).log == s.log + (
      var e := SideOf(s, byClient).end; var r := Seal(c, e, frames);
      if r.Invoked() then [Record(byClient, e.sendPN, frames, r.sealing)] else [])
  {
    hide Genuine, Seal, WasSent, Remembers;
    var (t, e) := (Seals(c, s, byClient, frames), SideOf(s, byClient).end);
    var r := Seal(c, e, frames);
    if r == Exhausted {
      assert t.log == s.log;
    }
    SealCounts(c, e, frames);
    if r.Invoked() {
      SealIsGenuine(c, e, byClient, frames);
    }
    forall i | 0 <= i < |t.log| ensures Genuine(t.log[i], SideOf(t, t.log[i].byClient).end) {
      if i < |s.log| {
        assert Genuine(s.log[i], SideOf(s, s.log[i].byClient).end);
        StaysGenuine(s.log[i], SideOf(s, s.log[i].byClient).end, SideOf(t, s.log[i].byClient).end);
      }
    }
    forall i | 0 <= i < |s.log| && s.log[i].byClient == byClient ensures s.log[i].pn < e.sendPN {
      GenuineIsEarlier(s.log[i], e);
    }
    forall d: Delivery | WasSent(d, s.log) ensures WasSent(d, t.log) {
      StillSent(d, s.log, t.log);
    }
  }

  lemma SealCounts(c: Cipher, e: Endpoint, frames: seq<Frame>)
    ensures Seal(c, e, frames) == Exhausted <==> e.sendPN >= REHANDSHAKE
  {
  }

  lemma GenuineIsEarlier(r: Record, e: Endpoint)
    requires Genuine(r, e)
    ensures r.pn < e.sendPN
  {
  }

  lemma StillSent(d: Delivery, log: seq<Record>, more: seq<Record>)
    requires WasSent(d, log) && log <= more
    ensures WasSent(d, more)
  {
    var j :| 0 <= j < |log| && Matches(d, log[j]);
    assert Matches(d, more[j]);
  }

  lemma OpensKeeps(c: Cipher, s: System, atClient: bool, datagram: bytes, open: Opener)
    requires LogInv(s) && DeliveryInv(s) && Ideal(open, c, s.log)
    ensures LogInv(Opens(s, atClient, datagram, open)) && DeliveryInv(Opens(s, atClient, datagram, open))
  {
    hide Genuine, WasSent, Remembers, Frames.Parse, Ideal, Authenticate;
    var (t, e) := (Opens(s, atClient, datagram, open), SideOf(s, atClient).end);
    forall i | 0 <= i < |t.log| ensures Genuine(t.log[i], SideOf(t, t.log[i].byClient).end) {
      assert Genuine(s.log[i], SideOf(s, s.log[i].byClient).end);
      StaysGenuine(s.log[i], SideOf(s, s.log[i].byClient).end, SideOf(t, s.log[i].byClient).end);
    }
    var authentic := Authenticate(e, datagram, open);
    assert ClaimedAt(t, !atClient) == ClaimedAt(s, !atClient);
    if authentic.None? {
      assert ClaimedAt(t, atClient) == ClaimedAt(s, atClient);
    } else {
      ClaimRemembers(e.window, ClaimedAt(s, atClient), authentic.value.0);
      var k := OpenedWasSealed(c, s, atClient, datagram, open);
      if Open(e, datagram, open).Delivered? {
        ThisWasSent(Delivery(atClient, s.log[k].pn, s.log[k].frames), s.log, k);
      }
    }
  }

  lemma ThisWasSent(d: Delivery, log: seq<Record>, k: nat)
    requires k < |log| && Matches(d, log[k])
    ensures WasSent(d, log)
  {
  }

  /** Closing a side, or moving it to another state, touches neither the log nor the deliveries. */
  lemma StateKeeps(s: System, client: bool, p: Party)
    requires LogInv(s) && DeliveryInv(s) && p.end == SideOf(s, client).end
    ensures LogInv(WithSide(s, client, p)) && DeliveryInv(WithSide(s, client, p))
  {
    hide Genuine, WasSent, Remembers;
    var t := WithSide(s, client, p);
    assert t.log == s.log;
    forall i | 0 <= i < |t.log| ensures Genuine(t.log[i], SideOf(t, t.log[i].byClient).end) {
      assert Genuine(s.log[i], SideOf(s, s.log[i].byClient).end);
    }
  }

  ghost predicate IsConfirmOf(frames: seq<Frame>, th2: Key) {
    exists challenge :: frames == ConfirmFrames(th2, challenge)
  }

  lemma ClientSealAgrees(c: Cipher, s: System, frames: seq<Frame>)
    requires Inv(s) && (s.everEstablished || IsConfirmOf(frames, s.client.th2))
    ensures Inv(Seals(c, s, true, frames))
  {
    hide LogInv, DeliveryInv, Seal, IsConfirmOf;
    SealsKeeps(c, s, true, frames);
    var t := Seals(c, s, true, frames);
    assert t.client.th2 == s.client.th2;
  }

  lemma ServerSealAgrees(c: Cipher, s: System, frames: seq<Frame>)
    requires Inv(s) && s.everEstablished
    ensures Inv(Seals(c, s, false, frames)) && Seals(c, s, false, frames).everEstablished
  {
    hide LogInv, DeliveryInv, Seal, IsConfirmOf;
    SealsKeeps(c, s, false, frames);
  }

  lemma OpenAgrees(c: Cipher, s: System, atClient: bool, datagram: bytes, open: Opener)
    requires Inv(s) && Ideal(open, c, s.log)
    ensures Inv(Opens(s, atClient, datagram, open))
  {
    hide LogInv, DeliveryInv, Authenticate, IsConfirmOf, Ideal;
    OpensKeeps(c, s, atClient, datagram, open);
  }

  /** Nothing reaches the client before the server has been established, or under another key than the server's. */
  lemma ClientHearsEstablished(c: Cipher, s: System, datagram: bytes, open: Opener)
    requires Inv(s) && Ideal(open, c, s.log) && Authenticate(s.client.end, datagram, open).Some?
    ensures s.everEstablished && s.client.end.receiveKey == s.server.end.sendKey
  {
    hide Authenticate, Genuine, IsConfirmOf;
    var k := OpenedWasSealed(c, s, true, datagram, open);
  }

  /** The first CONFIRM that the server accepts is the client's own, so it carries the client's hash. */
  lemma ServerHearsClient(c: Cipher, s: System, datagram: bytes, open: Opener)
    requires Inv(s) && Ideal(open, c, s.log) && Open(s.server.end, datagram, open).Delivered?
    ensures Mirrored(s.client.end, s.server.end)
    ensures !s.everEstablished ==> IsConfirmOf(Open(s.server.end, datagram, open).frames, s.client.th2)
  {
    hide Genuine, IsConfirmOf, Frames.Parse, Authenticate;
    var k := OpenedWasSealed(c, s, false, datagram, open);
  }

  lemma PongKeeps(c: Cipher, s: System, datagram: bytes, open: Opener)
    requires Inv(s) && Ideal(open, c, s.log)
    ensures Inv(PongStep(s, datagram, open))
  {
    hide LogInv, DeliveryInv, Ideal, Authenticate, Frames.Parse, IsConfirmOf;
    OpenAgrees(c, s, true, datagram, open);
    var (r, t) := (Open(s.client.end, datagram, open), Opens(s, true, datagram, open));
    if r.Delivered? {
      ClientHearsEstablished(c, s, datagram, open);
      StateKeeps(t, true, CloseAs(t.client, Established));
    }
  }

  lemma AnswerKeeps(c: Cipher, s: System, challenge: bytes)
    requires Inv(s) && s.everEstablished
    ensures Inv(Answer(c, s, challenge))
  {
    hide LogInv, DeliveryInv, Seal, IsConfirmOf;
    ServerSealAgrees(c, s, PongFrames(challenge));
    var t := Seals(c, s, false, PongFrames(challenge));
    StateKeeps(t, false, CloseAs(t.server, Closed));
  }

  lemma ConfirmKeeps(c: Cipher, s: System, datagram: bytes, cacheAgrees: bool, open: Opener)
    requires Inv(s) && Ideal(open, c, s.log)
    requires s.server.state == PendingConfirm || s.server.state == Established
    ensures Inv(ConfirmStep(c, s, datagram, cacheAgrees, open))
  {
    hide LogInv, DeliveryInv, Ideal, Authenticate, Frames.Parse, Answer, IsConfirmOf;
    OpenAgrees(c, s, false, datagram, open);
    var (r, t) := (Open(s.server.end, datagram, open), Opens(s, false, datagram, open));
    StateKeeps(t, false, CloseAs(t.server, Rejected));
    StateKeeps(t, false, CloseAs(t.server, Closed));
    if r.Delivered? {
      ServerHearsClient(c, s, datagram, open);
      if |r.frames| == 2 && r.frames[0].body == s.server.th2 {
        var challenge := r.frames[1].body;
        if s.server.state == Established {
          AnswerKeeps(c, t, challenge);
        } else {
          var up := t.(everEstablished := true,
                       server := t.server.(state := Established, challenge := challenge, haveChallenge := true));
          StateKeeps(t, false, t.server.(state := Established, challenge := challenge, haveChallenge := true));
          EstablishAgrees(t, up, r.frames);
          AnswerKeeps(c, up, challenge);
        }
      }
    }
  }

  lemma EstablishAgrees(t: System, up: System, frames: seq<Frame>)
    requires Inv(t) && Mirrored(t.client.end, t.server.end)
    requires |frames| == 2 && frames[0].body == t.server.th2
    requires !t.everEstablished ==> IsConfirmOf(frames, t.client.th2)
    requires up == WithSide(t, false, up.server).(everEstablished := true)
    requires up.server.end == t.server.end && up.server.th2 == t.server.th2
    requires LogInv(WithSide(t, false, up.server)) && DeliveryInv(WithSide(t, false, up.server))
    ensures Inv(up)
  {
    hide Genuine, WasSent, Remembers;
    var u := WithSide(t, false, up.server);
    assert LogInv(up) by {
      forall i | 0 <= i < |up.log| ensures Genuine(up.log[i], SideOf(up, up.log[i].byClient).end) {
        assert Genuine(u.log[i], SideOf(u, u.log[i].byClient).end);
      }
    }
  }

  lemma StepKeeps(c: Cipher, s: System, a: Action, open: Opener)
    requires Inv(s) && Ideal(open, c, s.log)
    ensures Inv(Step(c, s, a, open))
  {
    hide LogInv, DeliveryInv, Ideal, Seal, Open, AfterOpen, ClaimedBy, PongStep, ConfirmStep, Mirrored;
    match a
    case BuildConfirm(challenge) =>
      assert IsConfirmOf(ConfirmFrames(s.client.th2, challenge), s.client.th2);
      ClientSealAgrees(c, s, ConfirmFrames(s.client.th2, challenge));
      var t := Seals(c, s, true, ConfirmFrames(s.client.th2, challenge));
      StateKeeps(t, true, t.client.(state := PendingPong, challenge := challenge, haveChallenge := true));
    case RetransmitConfirm =>
      assert IsConfirmOf(ConfirmFrames(s.client.th2, s.client.challenge), s.client.th2);
      ClientSealAgrees(c, s, ConfirmFrames(s.client.th2, s.client.challenge));
    case HandlePong(datagram) => PongKeeps(c, s, datagram, open);
    case ClientSeal(frames) =>
      if s.client.state == Established {
        ClientSealAgrees(c, s, frames);
      }
    case ClientOpen(datagram) => OpenAgrees(c, s, true, datagram, open);
    case ClientClose => StateKeeps(s, true, CloseAs(s.client, Closed));
    case HandleConfirm(datagram, cacheAgrees) =>
      if s.server.state == PendingConfirm || s.server.state == Established {
        ConfirmKeeps(c, s, datagram, cacheAgrees, open);
      }
    case ServerSeal(frames) =>
      if s.server.state == Established {
        ServerSealAgrees(c, s, frames);
      }
    case ServerOpen(datagram) => OpenAgrees(c, s, false, datagram, open);
    case ServerClose => StateKeeps(s, false, CloseAs(s.server, Closed));
  }

  lemma {:induction false} RunKeeps(c: Cipher, states: seq<System>, actions: seq<Action>, openers: seq<Opener>, n: nat)
    requires IsRun(c, states, actions, openers) && n < |states|
    ensures Inv(states[n])
  {
    if n == 0 {
      hide Genuine;
    } else {
      hide Inv, Step;
      RunKeeps(c, states, actions, openers, n - 1);
      StepKeeps(c, states[n - 1], actions[n - 1], openers[n - 1]);
    }
  }

  // ---------------------------------------------------------------------------------------------
  // Whole runs
  // ---------------------------------------------------------------------------------------------

  /**
   In every run, everything either side hands over was sealed by the other side under the same
   packet number with the same frames, and each packet number is handed over at most once per
   side: deliveries map injectively to sealings.
   */
  lemma DeliveredOnceAsSent(c: Cipher, states: seq<System>, actions: seq<Action>, openers: seq<Opener>)
    requires IsRun(c, states, actions, openers)
    ensures var s := states[|actions|];
      && (forall i :: 0 <= i < |s.delivered| ==> WasSent(s.delivered[i], s.log))
      && (forall i, j, k :: 0 <= i < j < |s.delivered| && 0 <= k < |s.log| ==>
            !(Matches(s.delivered[i], s.log[k]) && Matches(s.delivered[j], s.log[k])))
  {
    RunKeeps(c, states, actions, openers, |actions|);
  }

  /**
   In every run no side invokes the AEAD twice with one nonce, whatever seals fail, repeat a
   CONFIRM or follow a close, and all its packet numbers are below 2^32; with different keys for
   the two directions, no two invocations of the connection share a key and a nonce.
   */
  lemma NonceNeverReused(c: Cipher, states: seq<System>, actions: seq<Action>, openers: seq<Opener>)
    requires IsRun(c, states, actions, openers)
    ensures var s := states[|actions|];
      && (forall i :: 0 <= i < |s.log| ==> s.log[i].pn < REHANDSHAKE && s.log[i].sealing.nonce == Nonce(s.log[i].pn))
      && (forall i, j :: 0 <= i < j < |s.log| && s.log[i].byClient == s.log[j].byClient ==>
            s.log[i].sealing.nonce != s.log[j].sealing.nonce)
      && (s.client.end.sendKey != s.server.end.sendKey ==> forall i, j :: 0 <= i < j < |s.log| ==>
            s.log[i].sealing.key != s.log[j].sealing.key || s.log[i].sealing.nonce != s.log[j].sealing.nonce)
  {
    hide Nonce, DeliveryInv, AgreementInv, Step;
    RunKeeps(c, states, actions, openers, |actions|);
    var s := states[|actions|];
    forall i | 0 <= i < |s.log|
      ensures s.log[i].pn < REHANDSHAKE && s.log[i].sealing.nonce == Nonce(s.log[i].pn)
      ensures s.log[i].sealing.key == SideOf(s, s.log[i].byClient).end.sendKey
    {
      assert Genuine(s.log[i], SideOf(s, s.log[i].byClient).end);
    }
    forall i, j | 0 <= i < j < |s.log| && s.log[i].byClient == s.log[j].byClient
      ensures s.log[i].sealing.nonce != s.log[j].sealing.nonce
    {
      if Nonce(s.log[i].pn) == Nonce(s.log[j].pn) {
        NonceInjective(s.log[i].pn, s.log[j].pn);
      }
    }
  }

  /** `everEstablished` is set by nothing but the server accepting a CONFIRM in PendingConfirm. */
  lemma EverIsEstablished(c: Cipher, s: System, a: Action, open: Opener)
    requires !s.everEstablished && Step(c, s, a, open).everEstablished
    ensures a.HandleConfirm? && a.cacheAgrees && s.server.state == PendingConfirm
    ensures Open(s.server.end, a.datagram, open).Delivered?
    ensures Open(s.server.end, a.datagram, open).frames[0].body == s.server.th2
  {
    hide Seal, Open, AfterOpen, ClaimedBy;
  }

  lemma EstablishedByPong(c: Cipher, s: System, a: Action, open: Opener)
    requires s.client.state != Established && Step(c, s, a, open).client.state == Established
    ensures a.HandlePong? && Open(s.client.end, a.datagram, open).Delivered?
  {
    hide Seal, Open, AfterOpen, ClaimedBy;
  }

  /** The call in which the server session reached Established. */
  ghost predicate Establishes(states: seq<System>, actions: seq<Action>, m: nat) {
    && m < |actions| && m + 1 < |states|
    && actions[m].HandleConfirm? && actions[m].cacheAgrees && states[m].server.state == PendingConfirm
    && !states[m].everEstablished && states[m + 1].everEstablished
  }

  lemma {:induction false} ServerEstablishedAt(
    c: Cipher, states: seq<System>, actions: seq<Action>, openers: seq<Opener>, n: nat) returns (m: nat)
    requires IsRun(c, states, actions, openers) && n < |states| && states[n].everEstablished
    ensures m < n && Establishes(states, actions, m)
  {
    hide Step, Ideal;
    if states[n - 1].everEstablished {
      m := ServerEstablishedAt(c, states, actions, openers, n - 1);
    } else {
      m := n - 1;
      EverIsEstablished(c, states[m], actions[m], openers[m]);
    }
  }

  /** A client is established only after the call in which its server session was. */
  lemma {:induction false} ClientAfterServer(
    c: Cipher, states: seq<System>, actions: seq<Action>, openers: seq<Opener>, n: nat) returns (m: nat)
    requires IsRun(c, states, actions, openers) && n < |states| && states[n].client.state == Established
    ensures m + 1 < n && Establishes(states, actions, m)
  {
    hide Step, Ideal, Open, Inv;
    if states[n - 1].client.state == Established {
      m := ClientAfterServer(c, states, actions, openers, n - 1);
    } else {
      EstablishedByPong(c, states[n - 1], actions[n - 1], openers[n - 1]);
      RunKeeps(c, states, actions, openers, n - 1);
      DeliveredIsAuthentic(states[n - 1].client.end, actions[n - 1].datagram, openers[n - 1]);
      ClientHearsEstablished(c, states[n - 1], actions[n - 1].datagram, openers[n - 1]);
      m := ServerEstablishedAt(c, states, actions, openers, n - 1);
    }
  }

  lemma DeliveredIsAuthentic(e: Endpoint, datagram: bytes, open: Opener)
    requires Open(e, datagram, open).Delivered?
    ensures Authenticate(e, datagram, open).Some?
  {
  }

  /**
   Authentication, in every run and without assuming that the handshake agreed on anything: once
   either side is established, both hold the same transcript hash and client-to-server key and
   each names the other's connection ID; once the client is established, the other key agrees too.
   */
  lemma EstablishedAgree(c: Cipher, states: seq<System>, actions: seq<Action>, openers: seq<Opener>, n: nat)
    requires IsRun(c, states, actions, openers) && n < |states|
    requires states[n].client.state == Established || states[n].server.state == Established
    ensures states[n].server.th2 == states[n].client.th2 && Mirrored(states[n].client.end, states[n].server.end)
    ensures states[n].client.state == Established ==> states[n].client.end.receiveKey == states[n].server.end.sendKey
  {
    hide LogInv, DeliveryInv, Step;
    RunKeeps(c, states, actions, openers, n);
  }
}
