# WG/1 protocol core in Dafny

A model of the in-memory core of WG/1, with proofs about all inputs and all runs: the canonical wire
codec, the handshake with its negotiation, the attempt cache and session lifecycle of the server, the
replay-protected transport, the timed session machine, and the routing engine with its expiring rules.

`dafny verify dfyconfig.toml` checks everything.

| file | what it models |
|---|---|
| Words, Bytes | bits of 64-bit words; byte strings and big-endian numbers |
| Replay | packet-number allocation and the 2048-bit replay window, as a set and as 32 words |
| Tlv, Frame, Packet | the canonical codec: fields, inner frames, headers, payloads, datagrams |
| WireRules, Utf8 | the same format in plain numbers, compared with the codec for all values |
| Transport, TransportLaws, Parties | sealing and opening at both ends as a two-party system, and the two objects that run it |
| Attempts, AttemptCache, AttemptLaws | the single-flight cache as a value, the object that updates it, and what its callers get |
| Cids, ServerRuns, ServerTraces, SessionLifecycle | connection identifiers; every interleaving of calls and sessions, and what its actions say about it; a session's own fields |
| Negotiation, NegotiationLaws | configuration and parameters; exact acceptance for arbitrary peers |
| Handshake, KeyLaws, HandshakeLaws, Completion, HandshakeParties, Connection | transcript agreement, what keys and transcripts are made of, exact acceptance, exact conditions of success, and the way into the transport |
| Session, SessionLaws | the timed session machine, as a value and as an object, and its calls event by event |
| Routing, RuleStore, RuleLaws, RuleService | targets, prefixes and rules; the service's metadata and operations; when they succeed; the object around them |

State that the program changes in place is a class whose methods are proved against functions on
values; what holds over runs is proved about those functions.

## How the world is modelled

- Clock readings, random bytes and connection identifiers are parameters. Time is an integer and may
  stand still or go back between calls unless the program itself checks it.
- X25519, BLAKE2s, HKDF and ChaCha20-Poly1305 are function values. The handshake asks only that
  Diffie-Hellman commutes, that sealing adds a 16-byte tag and that opening undoes it;
  `Completion.HonestPairExists` shows that these premises can be met. The transport uses an ideal AEAD, which
  opens exactly what was sealed (`Transport.IdealExists`). `NoReflection` (different traffic keys or different identifiers) is the
  one further premise of transport runs; `Connections.HandshakeFaces` gets it from the handshake if expansion
  keeps labels apart (`KeyLaws.Separates`).
- A mutex makes a critical region one step; between steps anything else may happen. A session's own
  lock is a field that says what its holder is in the middle of.
- Entries of the attempt cache have identities, because callers keep entries after their keys are gone.
- The texts of net/netip addresses and the domain normalizer are functions held to the laws in
  `Routing.Faithful`, which `Routing.BitTextIsFaithful` shows can be met. Addresses are bit strings; IPv6 zones are not modelled.
- Results of the codec are accept or reject. Error kinds are kept where a property needs them.

## Where the code differs from its description

- The comment on `ParsePacket` promises the default limit for every non-positive limit; the code
  selects it for zero only and refuses negative limits. The model follows the code
  (internal/codec/packet.go:156-226, `Packets.NegativeLimitRefuses`).
- That no session becomes Established after its attempt is tombstoned is not quite so: promotion and
  the assignment of Established are two critical regions, and a cleanup between them buries the attempt
  if the grace period is already over. `ServerTraces.EstablishMayTrail` gives the run,
  `ServerTraces.TrailsExactly` says exactly when it happens, in the times of the calls, and
  `ServerRuns.NeverEstablishedAfterTombstone` proves the statement for attempts that die before promotion.
- A target such as `1.2.3.4.` is a domain whose text is an address. `Routing.ParseStable` says exactly
  when a text leads back to its target; rules are keyed by kind and text. The service hands the text
  back to the engine, which parses it again (internal/app/service.go:266): a rule set for such a domain
  is stored for the address, and the domain itself stays without a rule although the call succeeds.
  `RuleStore.SetIsObeyed` proves that this is the only such case, and `RuleStore.SetMayMiss` gives one.

## Model

| member | source | states |
|---|---|---|
| Replay.AllocationRun | internal/session/replay.go:35-48 | n calls hand out first, first+1, … in order, the maximum exactly once, and nothing afterwards |
| Replay.PacketNumbers.Next | internal/session/replay.go:35-48 | one call on the object is one allocation of the model |
| Replay.WindowRemembers | internal/session/replay.go:107-138 | after any sequence of numbers the window's set is exactly the accepted numbers within 2048 of the highest |
| Replay.RunVerdict | internal/session/replay.go:107-138 | in every run a number is accepted if and only if it was never accepted and nothing accepted is 2048 or more ahead of it; it is too old if and only if something is |
| Replay.AcceptedOnce | internal/session/replay.go:107-138 | no number is accepted twice in any run |
| Replay.PrecheckIsTooOld | internal/session/replay.go:95-103 | Precheck refuses exactly what AcceptAuthenticated would call too old |
| Replay.ShiftedWordBit | internal/session/replay.go:140-162 | where one bit of a combined two-word shift comes from |
| Replay.ShiftMovesBits | internal/session/replay.go:140-162 | the word-wise shift moves bit p - advance to bit p, for every advance |
| Replay.SetBit | internal/session/replay.go:117-136 | or-ing a mask into a word sets that bit of the window and no other |
| Replay.ReplayWindow.Precheck | internal/session/replay.go:95-103 | on the bitmap object, the model's precheck |
| Replay.ReplayWindow.AcceptAuthenticated | internal/session/replay.go:107-138 | verdict and new set are those of the set model: the bitmap refines it |
| Replay.ReplayWindow.ShiftLocked | internal/session/replay.go:140-162 | the in-place loop over 32 words moves every bit by advance, dropping those that leave |
| Tlv.ParseExact | internal/codec/tlv.go:53-87 | a stream is accepted with a field list if and only if the list is canonical (strictly increasing types, valid fields, within the limits) and encodes to the stream |
| Tlv.ParseTlvs | internal/codec/tlv.go:53-87 | the offset loop computes that parse |
| Tlv.OneArrangement | internal/codec/tlv.go:103-106 | a bag of fields with distinct types has one increasing order, so the sorting algorithm is irrelevant |
| Tlv.MarshalParses | internal/codec/tlv.go:103-133 | any accepted list parses back as its canonical arrangement |
| Tlv.ParseMarshals | internal/codec/tlv.go:53-133 | any accepted stream re-encodes to itself |
| Tlv.MarshalPermutes | internal/codec/tlv.go:103-133 | the encoding does not depend on the order of the fields |
| Tlv.SortByKind | internal/codec/tlv.go:104-105 | ordered by type, with the same fields |
| Tlv.MarshalTlvs | internal/codec/tlv.go:103-133 | the sort, the checks and the buffer compute the marshalling relation, refusals included |
| Tlv.Find | internal/codec/tlv.go:205-212 | finds a value exactly when the type occurs |
| Tlv.FindOnly | internal/codec/tlv.go:205-212 | in a list without repeated types, finding a field's type finds that field |
| Tlv.CollectFields | internal/codec/tlv.go:148-160 | the loop over the fields succeeds exactly when types are distinct and every field may stand there, and then indexes them all |
| Tlv.ValidateTlvs | internal/codec/tlv.go:144-202 | accepts exactly the occurrence rules: distinct, known, allowed, sized, lease widths, paired token fields, required fields, a lease |
| Tlv.RequiredField | internal/codec/tlv.go:175-192 | after validation each required field is present with the length its type fixes, so unchecked indexing is in bounds |
| Tlv.MessageRoundTrip | internal/codec/tlv.go:91-141 | what one side prints for a message, the other parses back as the same fields |
| WireRules.FieldRules | internal/codec/tlv.go:214-250 | in numbers: critical types are 0x81 to 0x8E, and every type with a prescribed size has it |
| WireRules.FieldLayout | internal/codec/tlv.go:124-131 | type, two length bytes, value |
| WireRules.StreamRules | internal/codec/tlv.go:53-87 | a field list is accepted by some stream if and only if types increase strictly, each field keeps those rules, and everything fits sixteen bits |
| WireRules.MessageRules | internal/codec/tlv.go:144-202 | in numbers: what an INITIAL and a HANDSHAKE must and may contain, if and only if |
| Frames.ParseInvertsMarshal | internal/codec/frame.go:44-124 | under one limit, parsing gives a frame list if and only if printing that list gives the bytes |
| Frames.DecodeComplete | internal/codec/frame.go:44-86 | every sendable list decodes back from its encoding, inner IP lengths and CLOSE text included |
| Frames.ValidateCombination | internal/codec/frame.go:181-207 | accepts exactly: an IP packet travels alone, and CONFIRM is followed by PING and by nothing else |
| Frames.ParseFrames | internal/codec/frame.go:44-86 | the offset loop computes the parse |
| Frames.MarshalFrames | internal/codec/frame.go:90-124 | the buffer loop computes the printing |
| WireRules.FrameRules | internal/codec/frame.go:154-238 | in numbers, if and only if: frames 1 to 8 without flags, whole IPv4 and IPv6 packets by their own length fields, bodies of 32 and 8 bytes, bounded CLOSE text |
| WireRules.FrameLayout | internal/codec/frame.go:114-122 | type, zero, two length bytes, body |
| WireRules.PlaintextRules | internal/codec/frame.go:90-124 | a plaintext can be made of a frame list if and only if it is not empty, each frame keeps the rules, an IP packet is alone, CONFIRM comes with PING only, and all fit the limit |
| Utf8.Utf8Exactly | internal/codec/frame.go:141-152 | CLOSE text is accepted if and only if it is the UTF-8 encoding of a sequence of Unicode scalar values |
| Packets.HeaderInjective | internal/codec/packet.go:54-89 | two headers with one encoding are the same header |
| Packets.MarshalHeader | internal/codec/packet.go:75-133 | fills the 32-byte buffer exactly for valid headers |
| Packets.InitialExact | internal/codec/payload.go:22-81 | an INITIAL payload is accepted if and only if it is the encoding of a well-formed message |
| Packets.ParseInitial | internal/codec/payload.go:22-56 | the moving offset computes that parse |
| Packets.MarshalInitial | internal/codec/payload.go:59-81 | the in-place buffer holds that encoding |
| Packets.HandshakeExact | internal/codec/payload.go:112-150 | a HANDSHAKE payload is accepted if and only if it is the encoding of a well-formed message |
| Packets.MarshalHandshake | internal/codec/payload.go:137-150 | the in-place buffer holds that encoding |
| Packets.ParseInvertsMarshal | internal/codec/packet.go:158-216 | under one datagram limit packets parse if and only if they print; the length field is derived from the payload |
| Packets.NegativeLimitRefuses | internal/codec/packet.go:218-226 | a negative limit admits no datagram in either direction; zero selects the default |
| Packets.MarshalPacket | internal/codec/packet.go:192-216 | the in-place buffer holds that printing |
| WireRules.HeaderRules | internal/codec/packet.go:91-133 | the four kinds of packet and the identifiers and numbers each may carry, if and only if |
| WireRules.HeaderLayout | internal/codec/packet.go:75-89 | where each header field lies, big-endian |
| WireRules.PayloadLayout | internal/codec/payload.go:59-150 | where the parts of INITIAL and HANDSHAKE payloads lie |
| WireRules.PacketRules | internal/codec/packet.go:192-245 | a packet can be printed if and only if header and payload keep their rules and both fit the limit |
| Transport.NonceInjective | internal/crypto/aead.go:38-42 | different packet numbers give different nonces |
| Transport.WindowEffect | internal/handshake/transport.go:118-141 | a datagram that fails before authentication, or repeats a number, leaves the window alone; an authenticated one uses up its own number, which is a duplicate from then on, malformed or delivered alike |
| Transport.FramesFitDatagram | internal/handshake/transport.go:96-116 | frames admitted under the plaintext limit always fit the datagram limit once sealed |
| Transport.SentIsDelivered | internal/handshake/transport.go:96-141 | a mirrored receiver with a number it still takes opens exactly the frames that were sealed |
| Transport.StepKeeps | internal/handshake/transport.go:15-255 | every call by either side, with an arbitrary datagram, keeps the log, delivery and agreement invariants |
| Transport.RunKeeps | internal/handshake/transport.go:15-255 | so does every run over a network that loses, repeats, reorders and invents datagrams |
| Transport.DeliveredOnceAsSent | internal/handshake/transport.go:118-141 | in every run deliveries map injectively to the peer's sealings with the same number and the same frames |
| Transport.NonceNeverReused | internal/handshake/transport.go:96-102 | in every run all sealings use numbers below 2^32 and no side uses a nonce twice, across refusals, retransmissions and closes; if the two send keys differ, no key and nonce pair occurs twice at all |
| Transport.ClientAfterServer | internal/handshake/transport.go:56-73 | a client is Established only after its server session had been established by a confirmation |
| Transport.EstablishedAgree | internal/handshake/transport.go:145-188 | once either side is Established both hold the same transcript hash, mirrored identifiers and the same client-to-server key; once the client is, the server-to-client key agrees too |
| Transport.ReplyIsLogged | internal/handshake/transport.go:145-188 | a PONG is sealed exactly for an authentic CONFIRM of the session's own transcript that the cache stands behind, and a retry must repeat its challenge; the session then is Established, or Closed if sealing failed |
| Transport.IdealExists | internal/crypto/transport.go:28-91 | for every lawful cipher and every log there is an ideal opener, so the runs are not empty |
| TransportLaws.AuthenticatesExactly | internal/handshake/transport.go:118-133 | a datagram authenticates if and only if it is the print of a packet from the peer, numbered below 2^32 and not too old, whose payload opens under the receive key with that very header |
| TransportLaws.DeliversExactly | internal/handshake/transport.go:133-141 | it is delivered if and only if its number is new and its plaintext prints those frames within the limit |
| TransportLaws.EstablishesClient | internal/handshake/transport.go:56-73 | a client becomes Established if and only if, waiting for PONG, it opens one frame, a PONG of its own challenge |
| TransportLaws.EstablishedByOwnPong | internal/handshake/transport.go:56-73 | in every run that PONG answers the client's latest successful BuildConfirm and is one the server sealed |
| TransportLaws.ConfirmOutcome | internal/handshake/transport.go:145-188 | what opening a CONFIRM does to a pending session: rejected, closed or established; an established one keeps state and challenge or closes for want of a reply |
| TransportLaws.RetryRepeatsChallenge | internal/handshake/transport.go:166-172 | a retry is answered with the challenge of the establishing CONFIRM or not at all |
| TransportLaws.Transfers | internal/handshake/transport.go:76-94 | whatever an established side seals within the limit the other established side delivers, in either direction |
| TransportLaws.Closes | internal/handshake/transport.go:96-100 | a side closes when told to and when it runs out of packet numbers |
| TransportLaws.DownIsSilent | internal/handshake/transport.go:76-94 | a closed or rejected side seals and delivers nothing |
| TransportLaws.SilentEverAfter | internal/handshake/transport.go:76-94 | and never does again, in any run |
| TransportLaws.PairsNeverReused | internal/handshake/transport.go:96-102 | a run that starts with two send keys never seals twice under one key and nonce |
| Parties.Link.SealLocked | internal/handshake/transport.go:235-255 | on the object: the number is spent first, whatever becomes of the sealing |
| Parties.Link.OpenLocked | internal/handshake/transport.go:210-233 | on the object: the checks in their order, over the bitmap window |
| Parties.Client.BuildConfirm | internal/handshake/transport.go:15-37 | updates the client's fields as the model step and returns the sealing of CONFIRM and PING |
| Parties.Client.RetransmitConfirm | internal/handshake/transport.go:41-52 | seals the same challenge under a fresh number, and refuses in every other state |
| Parties.Client.HandlePong | internal/handshake/transport.go:56-73 | succeeds exactly when, waiting for PONG, the client opens one frame, a PONG of its own challenge; it then is Established |
| Parties.Client.CloseLocked | internal/handshake/client.go:87-95 | closing drops the challenge |
| Parties.ServerSession.HandleConfirm | internal/handshake/transport.go:145-188 | updates the session as the model step, and answers exactly what the model says: the PONG of the confirmed challenge, or nothing |
| Parties.ServerSession.CloseLocked | internal/handshake/server.go:385-390 | closing drops the challenge |
| Attempts.CleanupKeeps | internal/handshake/cache.go:214-239 | cleanup keeps the accounts: the counter counts live entries, both limits hold, no failed entry stays, only published entries hold a session or a response, done exactly when not building |
| Attempts.AcquireKeeps | internal/handshake/cache.go:40-94 | so does acquiring |
| Attempts.PublishKeeps | internal/handshake/cache.go:115-133 | so does publishing |
| Attempts.FailKeeps | internal/handshake/cache.go:135-146 | so does failing |
| Attempts.PromoteKeeps | internal/handshake/cache.go:148-162 | so does promoting |
| Attempts.GraceKeeps | internal/handshake/cache.go:164-177 | so does the grace check |
| Attempts.RemoveKeeps | internal/handshake/cache.go:179-187 | so does removing |
| Attempts.LeaseIsOwn | internal/handshake/cache.go:40-94 | a lease is for the caller's own key and datagram, and only an absent key is built |
| Attempts.PendingLifetime | internal/handshake/cache.go:115-133 | right after its insertion an attempt expires, and right after its publication it is promotable, exactly up to the pending timeout |
| Attempts.GraceLifetime | internal/handshake/cache.go:148-177 | right after a promotion the grace is active exactly up to the grace period, and checking an active grace changes nothing |
| Attempts.RetentionLifetime | internal/handshake/cache.go:179-201 | a tombstone answers its reason and is forgotten exactly from the retention period on |
| Attempts.CleanupOnce | internal/handshake/cache.go:214-239 | after a cleanup nothing is left to expire or forget, and a second one changes nothing |
| AttemptCache.VisitOne | internal/handshake/cache.go:217-237 | one more visited key is one more key in the set: cleanup does not depend on map order |
| AttemptCache.Server.CleanupAttemptsLocked | internal/handshake/cache.go:214-239 | the loop over the map in arbitrary order computes the order-free cleanup and the sessions to close |
| AttemptCache.Server.AcquireAttempt | internal/handshake/cache.go:40-94 | cleanup, lookup and insertion in place, as the model's acquisition |
| AttemptCache.Server.TombstoneAttemptLocked | internal/handshake/cache.go:189-201 | the entry is buried and the counter follows |
| AttemptCache.Server.PublishAttempt | internal/handshake/cache.go:115-133 | in place, as the model's publication |
| AttemptCache.Server.FailAttempt | internal/handshake/cache.go:135-146 | in place, as the model's failure |
| AttemptCache.Server.PromoteAttempt | internal/handshake/cache.go:148-162 | succeeds exactly when the attempt is the session's, published and unexpired |
| AttemptCache.Server.ConfirmGraceActive | internal/handshake/cache.go:164-177 | succeeds exactly within the grace; otherwise an overdue attempt is buried |
| AttemptCache.Server.RemoveAttempt | internal/handshake/cache.go:179-187 | buries the session's own published attempt and nothing else |
| ServerRuns.StepKeeps | internal/handshake/server.go:76-267 | every lock-protected region, in any interleaving, keeps the cache's accounts, the ownership of identifiers and the links between entries, calls and sessions |
| ServerRuns.RunKeeps | internal/handshake/server.go:76-267 | so does every run |
| ServerRuns.StepKeepsCids | internal/handshake/server.go:340-403 | the active identifiers are always exactly those held by unclosed sessions and builds in flight, one holder each |
| ServerRuns.OthersHold | internal/handshake/server.go:359-403 | only the acting holder gains or loses an identifier; publishing hands the build's to the session |
| ServerRuns.ReleasedOnce | internal/handshake/server.go:385-403 | a released identifier was its releaser's alone and is nobody's afterwards, also when publishing fails after expiry |
| ServerRuns.OneBuilder | internal/handshake/cache.go:40-94 | one builder per attempt at any moment, and per key among the attempts in the map; an unfinished attempt is in the map |
| ServerTraces.BuildersInTurn | internal/handshake/cache.go:40-146 | over a run, a second call that builds under a key means the first attempt was failed by its own builder, or its tombstone forgotten by a cleanup, in between |
| ServerRuns.AnswersAgree | internal/handshake/cache.go:96-133 | all callers answered from one attempt, at any time and by any path, get the same session and the same bytes; different attempts have different sessions |
| ServerRuns.WaitersAreServed | internal/handshake/cache.go:51-56 | a waiting caller's attempt is done, or its builder is still at work |
| ServerRuns.ResumeCompletes | internal/handshake/cache.go:96-113 | the branch for an attempt that did not complete is unreachable; the answer is what was published, or the attempt's own error |
| ServerRuns.RunSettles | internal/handshake/cache.go:96-133 | published answers and dead attempts never change again |
| ServerRuns.OnlyOwnAttempt | internal/handshake/cache.go:148-187 | confirming, retrying or closing a session touches no attempt but its own |
| ServerRuns.ConfirmsExactly | internal/handshake/transport.go:173-181 | an open session always has an attempt; its confirmation succeeds exactly while that attempt is published and unexpired |
| ServerRuns.NeverEstablishedAfterTombstone | internal/handshake/transport.go:173-181 | once its attempt is a tombstone, a session not yet promoted is never Established, however confirmation, cleanup and closing interleave |
| ServerRuns.PromotedOnce | internal/handshake/transport.go:173-181 | a session is promoted in at most one step of a run |
| ServerRuns.DiesByCleanup | internal/handshake/cache.go:214-239 | a published attempt, in a step that is not its own session's: a cleanup past the expiry buries it, anything else leaves it as it is |
| ServerTraces.TrailsExactly | internal/handshake/transport.go:173-181 | every assignment of Established follows one promotion; the attempt is a tombstone by then if and only if some cleanup in between ran at or after the promotion's time plus the grace period, and is still published otherwise |
| ServerTraces.EstablishMayTrail | internal/handshake/transport.go:173-181 | a concrete run that is an instance of that condition: Established is assigned after the tombstone |
| ServerTraces.PublishesExactly | internal/handshake/cache.go:115-133 | in every run a builder can publish its attempt if and only if no cleanup since its arrival came at or after the arrival's time plus the pending timeout |
| ServerTraces.PromotesExactly | internal/handshake/cache.go:148-162 | in every run a confirmation promotes if and only if it comes before the publication's time plus the pending timeout and no cleanup in between came at or after that |
| ServerTraces.AnswersRetriesExactly | internal/handshake/cache.go:164-177 | in every run a retry is answered if and only if it comes before the promotion's time plus the grace period and neither a cleanup nor a retry in between came at or after that |
| AttemptLaws.AcquiresExactly | internal/handshake/cache.go:40-94 | the lease of every acquisition, if and only if: published answer, wait, the attempt's own error, refusal of another INITIAL, a new build exactly if both limits leave room |
| AttemptLaws.ArrivesExactly | internal/handshake/cache.go:40-94 | in every run, what every arrival ends as; a repeated INITIAL of a published attempt returns exactly what was published |
| AttemptLaws.WaitersHearFailure | internal/handshake/cache.go:135-146 | in every run, whoever waits for an attempt whose builder gives up hears the builder's error |
| AttemptLaws.BuildersHearThemselves | internal/handshake/server.go:90-99 | a builder that abandons returns its own error |
| AttemptLaws.FinishEffect | internal/handshake/server.go:253-266 | in every run, publishing makes a pending session under the reserved identifier; failing to closes it and returns the attempt's own error |
| AttemptLaws.DiesOf | internal/handshake/cache.go:189-201 | cleanup, late confirmation and late retry bury as expired, closing with the session's own reason, and all for the retention period |
| AttemptLaws.CloseBuries | internal/handshake/server.go:391-398 | closing a session buries its attempt if that is still published |
| AttemptLaws.HandsBackExactly | internal/handshake/cache.go:222-224 | a cleanup hands back exactly the sessions of the published, unconfirmed attempts it buries |
| SessionLifecycle.LiveSession.CloseLocked | internal/handshake/server.go:385-403 | the attempt is removed once and the identifier released once; the fields follow the two model actions |
| SessionLifecycle.LiveSession.ConfirmLocked | internal/handshake/transport.go:173-181 | promotes and establishes, or closes; the fields follow the model actions |
| Cids.Registry.NextNonZeroCid | internal/handshake/wire.go:125-136 | the first non-zero word; failure only after 32 zeros or at the end of the source |
| Cids.Registry.ReserveServerCid | internal/handshake/server.go:340-357 | claims the first word that is neither zero nor active; failure claims nothing and means 32 taken words, 32 zeros or the end of the source |
| Cids.Registry.ReleaseCid | internal/handshake/server.go:359-363 | removes that identifier only |
| Negotiation.RoomWraps | internal/handshake/server.go:200-202 | the 16-bit subtraction wraps exactly below 52 |
| Negotiation.NormalClient | internal/handshake/types.go:137-179 | bounds every normalized client configuration satisfies; none of its subtractions wraps |
| Negotiation.NormalServer | internal/handshake/types.go:181-279 | bounds every normalized server configuration satisfies; none of its subtractions wraps |
| Negotiation.NormalizingTwice | internal/handshake/types.go:137-279 | normalizing a normalized configuration changes nothing |
| Negotiation.SelectionBounds | internal/handshake/server.go:187-208 | for any admitted request no subtraction wraps, the selection is the best both sides allow, and it fails only for want of a shared family or of 576 bytes |
| Negotiation.SelectsIfShared | internal/handshake/server.go:187-208 | a normalized client is refused parameters if and only if no family is shared |
| Negotiation.OfferRead | internal/handshake/client.go:285-342 | the client reads back the numbers the server put in, whatever the field order |
| Negotiation.OfferAccepted | internal/handshake/client.go:285-356 | a normalized client accepts a normalized server's offer if and only if the leases are global unicast and the MTU is in its interval, and takes over exactly the selection |
| Negotiation.DefaultInterval | internal/handshake/types.go:165-175 | with the default interval the MTU is always acceptable |
| Negotiation.RequestAccepted | internal/handshake/server.go:269-305 | a normalized client's INITIAL is refused by the validator only for a foreign deployment or an unregistered key |
| Negotiation.Value | internal/handshake/server.go:276-300 | every unchecked read of a required field is in bounds |
| NegotiationLaws.NormalizesClient | internal/handshake/types.go:137-179 | which client configurations are accepted, if and only if, and every option they become |
| NegotiationLaws.NormalizesServer | internal/handshake/types.go:181-279 | which server configurations are accepted, if and only if, and every option they become |
| NegotiationLaws.NormalizesAttempts | internal/handshake/types.go:234-266 | which timeouts and limits are accepted, if and only if, and their defaults |
| NegotiationLaws.ValidatesInitialExactly | internal/handshake/server.go:269-305 | for any valid message of any peer, the request taken is exactly the one its fields ask for, within the rules; enrollment fields are refused |
| NegotiationLaws.JudgesExactly | internal/handshake/client.go:297-356 | for any offer of any peer, parameters are taken if and only if they are offered within the client's bounds |
| NegotiationLaws.ReadsExactly | internal/handshake/client.go:286-295 | the numbers judged are exactly those of the message's fields |
| Handshakes.LabelsApart | internal/crypto/kdf.go:19-24 | the infos of the four key derivations never coincide |
| Handshakes.ContextInjective | internal/crypto/kdf.go:28-36 | two deployments never share a context |
| KeyLaws.KeysDiffer | internal/crypto/kdf.go:105-149 | if expansion separates infos that differ in their first nine bytes, the HANDSHAKE key and the two traffic keys of one secret are pairwise different |
| KeyLaws.SecretsInOrder | internal/crypto/kdf.go:105-126 | the four Diffie-Hellman results enter in the order es, ss, ee, se, each in full, on both sides |
| KeyLaws.DerivesExactly | internal/crypto/kdf.go:89-126 | keys are derived if and only if all four secrets exist and none is zero |
| KeyLaws.TranscriptsEnter | internal/crypto/kdf.go:89-149 | which transcript salts and names which key |
| KeyLaws.LabelsAre | internal/crypto/kdf.go:19-24 | which label each key is derived under |
| KeyLaws.ContextLayout | internal/crypto/kdf.go:28-36 | every part of the context is preceded by its length |
| KeyLaws.InitialCovers | internal/handshake/wire.go:65-85 | associated data and ciphertext of an INITIAL are together the context and the whole datagram, whose hash is th1 |
| KeyLaws.HandshakeCovers | internal/handshake/wire.go:87-107 | likewise for a HANDSHAKE and th2, with th1 in front |
| KeyLaws.InitialTranscriptBinds | internal/handshake/wire.go:65-85 | two INITIALs with one th1 are one datagram, or the hash function collides on those two inputs |
| KeyLaws.HandshakeTranscriptBinds | internal/handshake/wire.go:87-107 | two HANDSHAKEs with one th2 are one datagram after one th1, or the hash function collides on those two inputs |
| HandshakeLaws.ReadsInitialExactly | internal/handshake/wire.go:65-85 | an INITIAL is read if and only if the datagram is the print of a well-formed one that fits |
| HandshakeLaws.ReadsHandshakeExactly | internal/handshake/wire.go:87-107 | a HANDSHAKE is read if and only if the datagram is the print of a well-formed one that fits |
| HandshakeLaws.AdmitsExactly | internal/handshake/server.go:76-130 | for any datagram of any peer, what is admitted and why, if and only if |
| HandshakeLaws.FinishesExactly | internal/handshake/client.go:203-283 | for any datagram of any peer, what the client finishes with and why, if and only if |
| Handshakes.InitialAsWritten | internal/handshake/wire.go:65-85 | the server cuts from the datagram exactly the bytes the client authenticated and hashed, if and only if the datagram fits its limit |
| Handshakes.HandshakeAsWritten | internal/handshake/wire.go:87-107 | the client cuts out exactly the bytes the server authenticated and hashed |
| Handshakes.SecretsAgree | internal/crypto/kdf.go:105-126 | both sides derive the same HANDSHAKE keys because Diffie-Hellman commutes |
| Handshakes.AdmitsHonest | internal/handshake/server.go:76-130 | an honest INITIAL is admitted if and only if it fits and its key is registered; associated data, th1 and es are then the client's |
| Handshakes.AnswersHonest | internal/handshake/server.go:154-267 | what the answer to an honest client says; it exists only if a family is shared |
| Handshakes.ReadsAnswer | internal/handshake/client.go:216-241 | the client reads the server's message with the server's keys |
| Handshakes.FinishesHonest | internal/handshake/client.go:203-283 | the client finishes an honest answer if and only if the parameters are acceptable, with the server's th2, traffic keys, identifier and selection |
| Completion.RequestEncodes | internal/handshake/client.go:144-159 | a client's INITIAL fields always validate and encode, to 89 bytes |
| Completion.OfferEncodes | internal/handshake/server.go:307-330 | a server's offer always validates and encodes, to its exact size, unless that exceeds sixteen bits |
| Completion.WritesInitial | internal/handshake/wire.go:14-63 | an INITIAL can be written if and only if it fits the datagram size |
| Completion.WritesHandshake | internal/handshake/wire.go:29-63 | a HANDSHAKE can be written if and only if it fits the datagram size |
| Completion.StartsExactly | internal/handshake/client.go:113-199 | Start succeeds if and only if the shared secret is usable and 173 bytes and the token fit |
| Completion.AnswersExactly | internal/handshake/server.go:76-267 | an honest server answers an honest client if and only if the datagram fits, the key is registered, a family is shared, no secret is degenerate and the answer fits the selected size |
| Completion.PlainHandshakeCompletes | internal/handshake/server.go:76-267 | with no token and no DNS parameters sizes are never in the way |
| HandshakeParties.MarshalFields | internal/codec/tlv.go:136-141 | validation, then marshalling |
| HandshakeParties.ParseFields | internal/codec/tlv.go:91-100 | parsing, then validation |
| HandshakeParties.ClientHandshake.Start | internal/handshake/client.go:113-199 | a failed start changes nothing; a successful one stores what Finish needs |
| HandshakeParties.ClientHandshake.Finish | internal/handshake/client.go:203-283 | success stores the agreed values; any failure after the state check rejects the attempt and clears its keys |
| HandshakeParties.ClientHandshake.CloseLocked | internal/handshake/client.go:87-95 | ephemeral and traffic keys are cleared |
| HandshakeParties.Complete | internal/handshake/client.go:216-264 | the checks in their order compute the model's Finish |
| HandshakeParties.IsRegistered | internal/handshake/server.go:332-338 | the constant-time scan finds the key exactly when it is registered |
| HandshakeParties.AdmitInitial | internal/handshake/server.go:77-130 | the checks in their order compute the model's admission |
| HandshakeParties.BuildResponse | internal/handshake/server.go:158-258 | the steps in their order compute the model's answer |
| Connections.HandshakeFaces | internal/handshake/client.go:266-282 | an honest handshake leaves two endpoints that mirror each other in identifiers, both keys and size limit, which is where the transport's runs start; with a separating expansion the two directions have different keys |
| Connections.HonestNoncesUnique | internal/handshake/transport.go:96-102 | with a separating expansion, no run of a connection left by an honest handshake seals twice under one key and nonce, on either side |
| Connections.Establishes | internal/handshake/transport.go:15-188 | from there CONFIRM, PONG and their delivery in order establish both sides |
| Connections.EstablishingRun | internal/handshake/transport.go:15-188 | every such start has a run of the transport, with ideal openers, that ends with both sides Established |
| Session.Validate | internal/session/state.go:209-237 | accepts exactly the policies with positive durations, non-zero retry limits and bases below the maximum |
| Session.BoundedBackoff | internal/session/state.go:247-259 | equals min(base·2^retry, maximum) and never overflows 64 bits, odd maxima included |
| Session.BackoffMonotone | internal/session/state.go:247-259 | monotone in the retry, positive, and at most the maximum |
| Session.ApplyKeeps | internal/session/machine.go:96-453 | every call keeps the invariant: deadline unset exactly in Idle and Closed and otherwise later than the last event, pings, retries, rekey-ready and confirm fields as allowed |
| Session.ReachableInv | internal/session/machine.go:54-453 | so does every run from a new machine |
| Session.FixedAtEntry | internal/session/machine.go:118-151 | in every run the present state was entered by one successful call and not left since; that call's time stays the entry time, and in InitialSent, PendingConfirm and Draining the deadline stays that time plus the policy's duration |
| Session.EntersNow | internal/session/machine.go:118-151 | a call that changes the state enters it at its own time, with the policy's deadline for that state |
| Session.StaysEntered | internal/session/machine.go:174-299 | a call that does not change the state keeps the entry time, and moves the deadline exactly if it is traffic or a repeated CONFIRM in Established, or completes a rekey, and succeeds |
| SessionLaws.SucceedsExactly | internal/session/machine.go:96-453 | event by event, when a call succeeds, if and only if |
| SessionLaws.LeadsExactly | internal/session/machine.go:160-453 | event by event, where a successful call leads and which fields it sets |
| SessionLaws.FailureKinds | internal/session/machine.go:96-116 | what each refusal means |
| SessionLaws.DeadlineLaw | internal/session/machine.go:118-151 | in every run the deadline is the state's duration after the latest call that set it: the entry, later traffic or a repeated CONFIRM in Established, a later completed handshake in Rekeying |
| SessionLaws.RetriesCounted | internal/session/machine.go:197-299 | in every run the counters are the numbers of retransmissions since the handshake began or was retried, and of the outstanding ping |
| SessionLaws.DelayIs | internal/session/machine.go:197-299 | the delay answered is the backoff of that counter, initial or control |
| Session.FailureChangesNothing | internal/session/machine.go:96-453 | a call that reports an error leaves every field as it was |
| Session.DelaysBounded | internal/session/machine.go:197-216 | a retransmission delay is positive and within the policy |
| Session.DelaysGrow | internal/session/machine.go:197-216 | the delay never shrinks from one retry to a later one |
| Session.PingsAreRecent | internal/session/machine.go:247-270 | an outstanding ping was issued after the latest completed handshake |
| Session.ClientEstablishedByPong | internal/session/machine.go:303-325 | in every run a client enters Established only by the pong of a ping issued after the latest completed handshake |
| Session.TwoTimeoutsClose | internal/session/machine.go:420-435 | from any state but Idle two due timeouts reach Closed, and one does from InitialSent, PendingConfirm and Draining |
| Session.ClosedForever | internal/session/state.go:262-359 | Closed is final |
| Session.GraceNeverExtended | internal/session/machine.go:331-363 | while a server stays Established its grace and confirm identifier never change, whatever duplicates arrive |
| Session.Machine.NewMachine | internal/session/machine.go:54-68 | creates a machine exactly for a valid policy |
| Session.Machine.SetStateLocked | internal/session/machine.go:118-151 | entering a state, in place |
| Session.Machine.BeginHandshake | internal/session/machine.go:160-172 | only an idle client starts, with a fresh deadline and no retries; every field as in the model |
| Session.Machine.HandleRetry | internal/session/machine.go:177-192 | resets the retry count and leaves the deadline alone; every field as in the model |
| Session.Machine.RecordInitialRetransmission | internal/session/machine.go:197-216 | counts a retry and answers its backoff, or refuses once the policy's limit is reached; every field as in the model |
| Session.Machine.CompleteHandshake | internal/session/machine.go:221-243 | enters PendingConfirm, or makes a rekey ready with a new deadline and no ping; every field as in the model |
| Session.Machine.SendPing | internal/session/machine.go:247-270 | one outstanding ping, and during a rekey only when it is ready; every field as in the model |
| Session.Machine.RecordPingRetransmission | internal/session/machine.go:274-299 | counts a retry of the outstanding ping only, and answers its backoff; every field as in the model |
| Session.Machine.AcceptPong | internal/session/machine.go:303-325 | establishes on the outstanding ping's identifier only; every field as in the model |
| Session.Machine.AcceptConfirmPing | internal/session/machine.go:331-363 | establishes and opens the grace, or answers a duplicate of the same identifier within it; every field as in the model |
| Session.Machine.Rekey | internal/session/machine.go:367-382 | from Established only, with a deadline of its own; every field as in the model |
| Session.Machine.Touch | internal/session/machine.go:386-401 | moves the idle deadline of an established session; every field as in the model |
| Session.Machine.Drain | internal/session/machine.go:404-416 | enters Draining from the states that may; every field as in the model |
| Session.Machine.CheckTimeout | internal/session/machine.go:420-435 | nothing before the deadline; Draining or Closed from it on; every field as in the model |
| Session.Machine.Shut | internal/session/machine.go:438-453 | closes from any state, and is idempotent; every field as in the model |
| Routing.CanonicalIsFixed | internal/routing/routing.go:102-111 | canonicalizing a prefix is idempotent, and its result is never an IPv4-mapped one |
| Routing.CanonicalContains | internal/routing/routing.go:102-111 | canonicalizing keeps exactly the addresses a prefix contains, mapped prefixes included |
| Routing.SameLengthSamePrefix | internal/routing/routing.go:102-111 | of two canonical prefixes of one length at most one contains an address |
| Routing.ParseStable | internal/routing/routing.go:72-100 | a target's text parses to the same text, and to the same target if and only if it is not a domain that reads as an address |
| Routing.ParsedIsProper | internal/routing/routing.go:72-100 | parsing yields canonical prefixes, unmapped addresses and normal domains under their own texts |
| Routing.SetKeeps | internal/routing/routing.go:230-270 | setting keeps rules under their own keys, proper, concrete, and with unique identifiers |
| Routing.RemoveKeeps | internal/routing/routing.go:275-290 | so does deleting |
| Routing.SetGeneration | internal/routing/routing.go:243-269 | the generation moves, by one, exactly when the target-to-action map changes |
| Routing.SetKeepsOthers | internal/routing/routing.go:243-269 | an update keeps the rule's identity and no other rule is touched |
| Routing.RemoveGeneration | internal/routing/routing.go:281-287 | the generation moves, by one, exactly when the target-to-action map changes |
| Routing.GenerationNamesPolicy | internal/routing/routing.go:310-315 | over any run, equal generations mean equal policies |
| Routing.NoTies | internal/routing/routing.go:374-394 | two rules of equal length that contain one address are the same rule |
| Routing.MatchDetermined | internal/routing/routing.go:374-394 | the match is determined by the rules and the target alone |
| Routing.ExplanationDetermined | internal/routing/routing.go:320-372 | so is the explanation, and its effective action is always concrete |
| Routing.Engine.SetRule | internal/routing/routing.go:230-270 | refused exactly for AUTO, unknown actions and malformed targets; otherwise the table changes as the model says |
| Routing.Engine.DeleteRule | internal/routing/routing.go:275-290 | removes the exact rule and explains the target's text, parsed again |
| Routing.Engine.Explain | internal/routing/routing.go:320-372 | manual match, else classifier, else default |
| Routing.Engine.MatchLocked | internal/routing/routing.go:374-394 | the loop over the map in arbitrary order returns the exact rule, else the one longest prefix containing the address |
| RuleLaws.ParsesExactly | internal/routing/routing.go:72-100 | which strings name a target, if and only if, and of which kind |
| RuleLaws.CanonicalizesExactly | internal/routing/routing.go:102-111 | a prefix is refused if and only if it is mapped and shorter than the mapping |
| RuleLaws.ClassifierDecides | internal/routing/routing.go:345-362 | without a manual rule a concrete answer of the classifier decides, and the default otherwise |
| RuleLaws.UpdatesAreDated | internal/routing/routing.go:243-253 | an update is dated, and only an update |
| RuleStore.CoupledKeys | internal/app/service.go:215-356 | the metadata's keys are exactly the texts of the engine's rules, one rule each |
| RuleStore.RunCoupled | internal/app/service.go:215-356 | in every reachable state |
| RuleStore.SetCoupled | internal/app/service.go:240-277 | setting keeps the coupling |
| RuleStore.DeleteCoupled | internal/app/service.go:288-355 | deleting keeps the coupling |
| RuleStore.PrunedOneMore | internal/app/service.go:529-543 | pruning does not depend on map order |
| RuleStore.PruneClears | internal/app/service.go:529-543 | after pruning every rule the engine can match is unexpired, and unexpired rules are untouched |
| RuleLaws.PrunesExactly | internal/app/service.go:529-543 | which texts stay, if and only if, that revision and generation count the removed ones, and that their automatic rows go |
| RuleStore.EffectOnce | internal/app/service.go:242-245 | an operation identifier takes effect at most once in a run |
| RuleStore.RecordsStay | internal/app/service.go:276-276 | and is answered with the same response ever after |
| RuleStore.ExpectedRevisionGuards | internal/app/service.go:263-344 | a set or a delete, by identifier or by target, that names an existing target's earlier revision is carried out only if neither rule nor metadata of the target changed in between |
| RuleStore.SetIsObeyed | internal/app/service.go:215-278 | a successful new set stores the metadata asked for and decides the target its text parses to; it decides the target asked for if and only if that is not a domain that reads as an address, and leaves such a domain without a rule |
| RuleLaws.SetsExactly | internal/app/service.go:215-278 | for every coupled store, when a new set succeeds, if and only if, which failure each violated condition gets, and that failures change nothing |
| RuleLaws.SetRecorded | internal/app/service.go:242-245 | a recorded set is answered from the record |
| RuleLaws.SetAnswers | internal/app/service.go:273-277 | the answer describes the rule as it now stands |
| RuleLaws.OperationIds | internal/app/service.go:611-622 | which operation identifiers are accepted, if and only if |
| RuleStore.SetMayMiss | internal/app/service.go:266-266 | a set that succeeds and is not obeyed: an address with a trailing dot |
| RuleStore.DeleteIsObeyed | internal/app/service.go:295-355 | a successful new delete that leads to a manual rule, by identifier or by target, removes that rule and its metadata and nothing else; by target it is the rule stored for the target's text |
| RuleLaws.DeletesExactly | internal/app/service.go:280-356 | for every coupled store, when a new delete by number, tag or target succeeds, if and only if, and which failure it gets otherwise |
| RuleLaws.RowGoes | internal/app/service.go:316-328 | deleting an automatic row takes the first with the tag and leaves every other row, rule and text |
| RuleService.Service.PruneExpiredRules | internal/app/service.go:529-543 | the loop in arbitrary order computes the order-free pruning |
| RuleService.Service.RemoveRecentAutoLocked | internal/app/service.go:545-553 | filters the rows of one target |
| RuleService.Service.SetRule | internal/app/service.go:215-278 | pruning, then the model's set, in place |
| RuleService.Service.DeleteRule | internal/app/service.go:280-356 | pruning, then the model's delete, in place |
| RuleService.Service.ResolveRef | internal/app/service.go:295-314 | a target leads to its rule, else to its first automatic row |
| RuleService.Service.DeleteRow | internal/app/service.go:316-328 | removes the first automatic row with the identifier |
| RuleService.Service.DeleteMatched | internal/app/service.go:330-355 | revision check, then rule and metadata go together |
| RuleService.Service.FindRule | internal/app/service.go:249-255 | the scan finds the one rule with an identifier |
| RuleService.Service.ExplainRule | internal/app/service.go:358-369 | pruning and explaining with nothing in between: the rule behind the explanation is not expired |
| RuleStore.ExplainedAfterPruning | internal/app/service.go:358-369 | whatever runs between the two regions, a rule that matches was unexpired at the pruning or was set after it |
| Routing.BitTextIsFaithful | internal/routing/routing.go:72-138 | the laws asked of the text functions can be met |

## Left out

- Key zeroing and constant-time comparison: no functional meaning beyond the fields that closing clears; in the transport model a closed side keeps its keys but no call seals with them.
- RETRY payloads beyond their length check, `EncodeClose`, `DecodeClose` and `NewPacket`: they would only add easy members.
- `List`, `ListRules`, `manualRules` and the display strings of explanations: sorting and formatting.
- The text parsers of net/netip, `normalizeDomain` and `ParseAction`: strings; only their laws are used.
- Global-unicast tests on leases: library code, a predicate parameter.
- Role values other than client and server in the session machine: the constructor refuses them, and the type has none.
- The number of changes that a cleanup reports, and the detached copies handed to callers.
- RuleService.Service.ExplainRule: is the call with nothing between pruning and explaining; what calls in between can change is `RuleStore.ExplainedAfterPruning`, over runs.
- Closing the sessions that a cleanup returns: any session may close at any time in the model, so this is one of its runs; that it eventually happens is not stated.
- Server mode of the rule handlers: the handlers then refuse before they touch anything.
- Wrap-around of the 64-bit revision, generation and rule counters: unbounded here.
- Fingerprints, private DNS, platform code, the control API, commands, scripts and user interface; pairing, connection, DNS and update handlers: simulator bookkeeping and I/O.
- Enrollment, RETRY issuance and path validation: described in the design, without code here.
