/**
 Every interleaving of the server's handshake calls and sessions (handshake/server.go, cache.go and
 HandleConfirm in transport.go).

 A region that runs under one lock is one action; between two actions any other action may run.
 `builder` and `published` are history: no action reads them.
 */
module ServerRuns {
  import opened Bytes
  import opened Attempts

  type Cid = uint64
  type CallId = nat

  datatype State = PendingConfirm | Established | Rejected | Closed

  /** What the holder of a session's own lock is in the middle of. */
  datatype Lock = Free | Promoted | Doomed | Closing

  datatype Session = Session(
    state: State, cid: Cid, closedCid: bool, hasAttempt: bool, key: AttemptKey, lock: Lock,
    entry: EntryId, promotions: nat)

  /** Where a call of HandleInitial stands. */
  datatype Call =
    | Awaiting(entry: EntryId)
    | Working(entry: EntryId, cid: Option<Cid>)
    | Failing(entry: EntryId, failure: Failure)
    | Returned(waited: Option<EntryId>, lease: Lease)
  {
    predicate Builds(e: EntryId) {
      (Working? || Failing?) && entry == e
    }
  }

  datatype Sys = Sys(
    cache: Cache, cids: set<Cid>, sessions: map<SessionId, Session>, calls: map<CallId, Call>,
    builder: map<EntryId, CallId>, published: map<EntryId, Lease>)

  const START: Sys := Sys(EMPTY, {}, map[], map[], map[], map[])

  datatype Action =
    | Arrive(call: CallId, key: AttemptKey, initial: bytes, entry: EntryId, now: int)
    | Clean(now: int)
    | Resume(call: CallId)
    | Reserve(call: CallId, cid: Cid)
    | Abandon(call: CallId, failure: Failure)
    | Finish(call: CallId, session: SessionId, response: bytes, now: int)
    | GiveUp(call: CallId)
    | Confirm(session: SessionId, now: int)
    | Establish(session: SessionId)
    | Retry(session: SessionId, now: int)
    | CloseBegin(session: SessionId, target: State, now: int)
    | CloseEnd(session: SessionId)

  predicate Enabled(s: Sys, a: Action) {
    match a
    case Arrive(call, _, _, e, _) => call !in s.calls && e !in s.cache.entries
    case Clean(_) => true
    case Resume(call) =>
      call in s.calls && s.calls[call].Awaiting? && s.calls[call].entry in s.cache.entries
      && s.cache.entries[s.calls[call].entry].done
    case Reserve(call, cid) => call in s.calls && s.calls[call].Working? && s.calls[call].cid.None? && cid !in s.cids
    case Abandon(call, _) => call in s.calls && s.calls[call].Working?
    case Finish(call, sid, _, _) =>
      call in s.calls && s.calls[call].Working? && s.calls[call].cid.Some? && sid !in s.sessions
      && s.calls[call].entry in s.cache.entries
    case GiveUp(call) => call in s.calls && s.calls[call].Failing? && s.calls[call].entry in s.cache.entries
    case Confirm(sid, _) => sid in s.sessions && s.sessions[sid].lock == Free && s.sessions[sid].state == PendingConfirm
    case Establish(sid) => sid in s.sessions && s.sessions[sid].lock == Promoted
    case Retry(sid, _) => sid in s.sessions && s.sessions[sid].lock == Free && s.sessions[sid].state == Established
    case CloseBegin(sid, target, _) =>
      && sid in s.sessions
      && (target == Closed || (target == Rejected && s.sessions[sid].state == PendingConfirm && s.sessions[sid].lock == Free))
      && (s.sessions[sid].lock == Free || s.sessions[sid].lock == Doomed)
    case CloseEnd(sid) => sid in s.sessions && s.sessions[sid].lock == Closing
  }

  function Step(s: Sys, a: Action, o: Options): Sys
    requires Enabled(s, a)
  {
    match a
    case Arrive(call, key, initial, e, now) => Arriving(s, call, Acquire(s.cache, key, initial, e, now, o))
    case Clean(now) => s.(cache := Cleaned(s.cache, now, o))
    case Resume(call) =>
      var e := s.calls[call].entry;
      s.(calls := s.calls[call := Returned(Some(e), Result(s.cache.entries[e], e))])
    case Reserve(call, cid) => s.(cids := s.cids + {cid}, calls := s.calls[call := Working(s.calls[call].entry, Some(cid))])
    case Abandon(call, failure) =>
      s.(cids := if s.calls[call].cid.Some? then s.cids - {s.calls[call].cid.value} else s.cids,
         calls := s.calls[call := Failing(s.calls[call].entry, failure)])
    case Finish(call, sid, response, now) => Finishing(s, call, sid, response, now, o)
    case GiveUp(call) =>
      s.(cache := Fail(s.cache, s.calls[call].entry, s.calls[call].failure),
         calls := s.calls[call := Returned(None, Reject(s.calls[call].failure))])
    case Confirm(sid, now) =>
      var n := s.sessions[sid];
      if n.hasAttempt && Promotable(s.cache, n.key, sid, now) then
        s.(cache := Promote(s.cache, n.key, sid, now, o),
           sessions := s.sessions[sid := n.(lock := Promoted, promotions := n.promotions + 1)])
      else
        s.(cache := if n.hasAttempt then Promote(s.cache, n.key, sid, now, o) else s.cache,
           sessions := s.sessions[sid := n.(lock := Doomed)])
    case Establish(sid) => s.(sessions := s.sessions[sid := s.sessions[sid].(state := Established, lock := Free)])
    case Retry(sid, now) =>
      var n := s.sessions[sid];
      s.(cache := if n.hasAttempt then CheckGrace(s.cache, n.key, sid, now, o) else s.cache)
    case CloseBegin(sid, target, now) =>
      var n := s.sessions[sid];
      var reason := if target == Rejected then TranscriptMismatch else StateError;
      s.(cache := if n.hasAttempt then Remove(s.cache, n.key, sid, reason, now, o) else s.cache,
         sessions := s.sessions[sid := n.(state := target, hasAttempt := false, lock := Closing)])
    case CloseEnd(sid) =>
      var n := s.sessions[sid];
      s.(cids := if n.closedCid then s.cids else s.cids - {n.cid},
         sessions := s.sessions[sid := n.(closedCid := true, lock := Free)])
  }

  /** What a call does with the lease it got. */
  function Arriving(s: Sys, call: CallId, acquired: (Cache, Lease)): Sys {
    var (c, lease) := acquired;
    match lease
    case Build(e) => s.(cache := c, calls := s.calls[call := Working(e, None)], builder := s.builder[e := call])
    case Wait(e) => s.(cache := c, calls := s.calls[call := Awaiting(e)])
    case _ => s.(cache := c, calls := s.calls[call := Returned(None, lease)])
  }

  /** Publishing: on failure the session is closed by its builder, which then fails the attempt. */
  function Finishing(s: Sys, call: CallId, sid: SessionId, response: bytes, now: int, o: Options): Sys
    requires Enabled(s, Finish(call, sid, response, now))
  {
    var (e, cid) := (s.calls[call].entry, s.calls[call].cid.value);
    var key := s.cache.entries[e].key;
    var (c, failure) := Publish(s.cache, e, sid, response, now, o);
    match failure
    case None =>
      s.(cache := c,
         sessions := s.sessions[sid := Session(PendingConfirm, cid, false, true, key, Free, e, 0)],
         calls := s.calls[call := Returned(None, Answer(e, sid, response))],
         published := s.published[e := Answer(e, sid, response)])
    case Some(f) =>
      s.(sessions := s.sessions[sid := Session(Closed, cid, false, false, key, Closing, e, 0)],
         calls := s.calls[call := Failing(e, f)])
  }

  // ---------------------------------------------------------------------------------------------
  // What happens to entries
  // ---------------------------------------------------------------------------------------------

  /** An entry is left alone, or dies. */
  ghost predicate Ages(m: Entry, n: Entry) {
    n == m || (m.Live() && n.phase == Tombstone && n.key == m.key && n.initial == m.initial)
  }

  ghost predicate AllAge(c: Cache, d: Cache) {
    c.entries.Keys == d.entries.Keys && forall e :: e in c.entries ==> Ages(c.entries[e], d.entries[e])
  }

  /** Nothing but the entry published for this session changes. */
  ghost predicate OnlyOwn(c: Cache, d: Cache, session: SessionId) {
    c.entries.Keys == d.entries.Keys &&
    forall e :: e in c.entries ==> d.entries[e] == c.entries[e] || c.entries[e].session == Some(session)
  }

  lemma CleanedAges(c: Cache, now: int, o: Options)
    requires CacheInv(c, o)
    ensures AllAge(c, Cleaned(c, now, o))
  {
    hide EntriesOk, KeysOk, LiveKeys;
  }

  lemma BuryAges(c: Cache, e: EntryId, reason: Failure, now: int, o: Options)
    requires e in c.entries && c.entries[e].Live()
    ensures AllAge(c, Bury(c, e, reason, now, o))
  {
  }

  lemma CloseAges(c: Cache, key: AttemptKey, session: SessionId, reason: Failure, now: int, o: Options)
    ensures AllAge(c, Remove(c, key, session, reason, now, o)) && OnlyOwn(c, Remove(c, key, session, reason, now, o), session)
    ensures AllAge(c, CheckGrace(c, key, session, now, o)) && OnlyOwn(c, CheckGrace(c, key, session, now, o), session)
    ensures OnlyOwn(c, Promote(c, key, session, now, o), session)
    ensures !Promotable(c, key, session, now) ==> AllAge(c, Promote(c, key, session, now, o))
  {
    if Owns(c, key, session) {
      BuryAges(c, c.attempts[key], reason, now, o);
      BuryAges(c, c.attempts[key], AttemptExpired, now, o);
    }
  }

  // ---------------------------------------------------------------------------------------------
  // Connection identifiers are owned
  // ---------------------------------------------------------------------------------------------

  datatype Holder = BySession(session: SessionId) | ByCall(call: CallId)

  ghost predicate Holds(s: Sys, h: Holder, cid: Cid) {
    match h
    case BySession(sid) => sid in s.sessions && !s.sessions[sid].closedCid && s.sessions[sid].cid == cid
    case ByCall(call) => call in s.calls && s.calls[call].Working? && s.calls[call].cid == Some(cid)
  }

  ghost predicate Held(s: Sys, cid: Cid) {
    exists h :: Holds(s, h, cid)
  }

  /** The active identifiers are exactly the held ones, and each has one holder. */
  ghost predicate CidInv(s: Sys) {
    && (forall h, cid :: Holds(s, h, cid) ==> cid in s.cids)
    && (forall cid :: cid in s.cids ==> Held(s, cid))
    && (forall h, g, cid :: Holds(s, h, cid) && Holds(s, g, cid) ==> h == g)
  }

  /** What an action does to ownership: (who lets go, who takes, what). */
  ghost function LetsGo(s: Sys, a: Action): Option<Holder> {
    match a
    case Abandon(call, _) => Some(ByCall(call))
    case Finish(call, _, _, _) => Some(ByCall(call))
    case CloseEnd(sid) => Some(BySession(sid))
    case _ => None
  }

  ghost function Takes(s: Sys, a: Action): Option<Holder> {
    match a
    case Reserve(call, _) => Some(ByCall(call))
    case Finish(_, sid, _, _) => Some(BySession(sid))
    case _ => None
  }

  /** Only the acting holder gains or loses an identifier. */
  lemma OthersHold(s: Sys, a: Action, o: Options, h: Holder, cid: Cid)
    requires Enabled(s, a)
    ensures Some(h) != LetsGo(s, a) && Some(h) != Takes(s, a) ==> (Holds(s, h, cid) <==> Holds(Step(s, a, o), h, cid))
    ensures Some(h) == LetsGo(s, a) ==> !Holds(Step(s, a, o), h, cid)
    ensures Some(h) == Takes(s, a) ==>
      !Holds(s, h, cid) &&
      (Holds(Step(s, a, o), h, cid) <==> match a case Reserve(_, c) => c == cid case Finish(call, _, _, _) => Holds(s, ByCall(call), cid) case _ => false)
  {
    hide Acquire, Publish, Cleaned, Promote, Promotable, CheckGrace, Remove, Fail, Result;
  }

  /** What happens to the set of active identifiers. */
  lemma ActiveAfter(s: Sys, a: Action, o: Options)
    requires Enabled(s, a)
    ensures match a
      case Reserve(call, cid) => Step(s, a, o).cids == s.cids + {cid}
      case Abandon(call, _) => forall cid :: cid in Step(s, a, o).cids <==> cid in s.cids && !Holds(s, ByCall(call), cid)
      case CloseEnd(sid) => forall cid :: cid in Step(s, a, o).cids <==> cid in s.cids && !Holds(s, BySession(sid), cid)
      case _ => Step(s, a, o).cids == s.cids
  {
    hide Acquire, Publish, Cleaned, Promote, Promotable, CheckGrace, Remove, Fail, Result;
  }

  /** Whose identifier a holder has after an action: its own, one handed over by the build, or a fresh one. */
  ghost function Predecessor(a: Action, h: Holder): Option<Holder> {
    match a
    case Reserve(call, _) => if h == ByCall(call) then None else Some(h)
    case Finish(call, sid, _, _) => Some(if h == BySession(sid) then ByCall(call) else h)
    case _ => Some(h)
  }

  lemma HolderAfter(s: Sys, a: Action, o: Options, h: Holder, cid: Cid)
    requires CidInv(s) && Enabled(s, a) && Holds(Step(s, a, o), h, cid)
    ensures cid in Step(s, a, o).cids && Some(h) != LetsGo(s, a)
    ensures match Predecessor(a, h) case Some(g) => Holds(s, g, cid) && cid in s.cids case None => a.Reserve? && a.cid == cid && cid !in s.cids
  {
    hide Step, Holds, CidInv;
    OthersHold(s, a, o, h, cid);
    ActiveAfter(s, a, o);
    UniqueHolder(s, cid);
  }

  lemma UniqueHolder(s: Sys, cid: Cid)
    requires CidInv(s)
    ensures forall h :: Holds(s, h, cid) ==> cid in s.cids
    ensures forall h, g :: Holds(s, h, cid) && Holds(s, g, cid) ==> h == g
  {
  }

  lemma HeldAfter(s: Sys, a: Action, o: Options, cid: Cid)
    requires CidInv(s) && Enabled(s, a) && cid in Step(s, a, o).cids
    ensures Held(Step(s, a, o), cid)
  {
    hide Step, Holds;
    ActiveAfter(s, a, o);
    if a.Reserve? && a.cid == cid {
      OthersHold(s, a, o, ByCall(a.call), cid);
    } else {
      assert cid in s.cids;
      var h :| Holds(s, h, cid);
      var g := if a.Finish? && h == ByCall(a.call) then BySession(a.session) else h;
      OthersHold(s, a, o, h, cid);
      OthersHold(s, a, o, g, cid);
      assert Holds(Step(s, a, o), g, cid);
    }
  }

  lemma StepKeepsCids(s: Sys, a: Action, o: Options)
    requires CidInv(s) && Enabled(s, a)
    ensures CidInv(Step(s, a, o))
  {
    hide Step, Holds, Held;
    var t := Step(s, a, o);
    forall h, cid | Holds(t, h, cid) ensures cid in t.cids {
      HolderAfter(s, a, o, h, cid);
    }
    forall h, g, cid | Holds(t, h, cid) && Holds(t, g, cid) ensures h == g {
      HolderAfter(s, a, o, h, cid);
      HolderAfter(s, a, o, g, cid);
    }
    forall cid | cid in t.cids ensures Held(t, cid) {
      HeldAfter(s, a, o, cid);
    }
  }

  // ---------------------------------------------------------------------------------------------
  // Entries, calls and sessions belong together
  // ---------------------------------------------------------------------------------------------

  /** A Building entry has its builder at work; a Ready one holds what was published, for an open session. */
  ghost predicate EntryLinked(s: Sys, e: EntryId)
    requires e in s.cache.entries
  {
    var entry := s.cache.entries[e];
    && (entry.phase == Building ==>
      e in s.builder && s.builder[e] in s.calls && s.calls[s.builder[e]].Builds(e) && e !in s.published)
    && (entry.phase == Ready ==> entry.session.Some? && ReadyLinked(s, e, entry, entry.session.value))
  }

  ghost predicate ReadyLinked(s: Sys, e: EntryId, entry: Entry, sid: SessionId) {
    && e in s.published && s.published[e] == Answer(e, sid, entry.response)
    && sid in s.sessions && s.sessions[sid].entry == e && s.sessions[sid].hasAttempt && s.sessions[sid].key == entry.key
    && (entry.confirmed <==> s.sessions[sid].promotions == 1)
  }

  /** A builder is its entry's only one; an answer is what was published; a waiter's error is the entry's. */
  ghost predicate CallLinked(s: Sys, call: CallId)
    requires call in s.calls
  {
    match s.calls[call]
    case Awaiting(e) => e in s.cache.entries
    case Working(e, _) => e in s.cache.entries && e in s.builder && s.builder[e] == call
    case Failing(e, _) => e in s.cache.entries && e in s.builder && s.builder[e] == call
    case Returned(waited, lease) =>
      match lease
      case Answer(e, _, _) => e in s.published && s.published[e] == lease
      case Reject(f) => waited.Some? ==> waited.value in s.cache.entries && s.cache.entries[waited.value].err == Some(f)
      case _ => false
  }

  /** The life of a session: at most one promotion, and an attempt exactly as long as it is open. */
  ghost predicate SessionLinked(s: Sys, sid: SessionId)
    requires sid in s.sessions
  {
    var n := s.sessions[sid];
    && n.entry in s.cache.entries && s.cache.entries[n.entry].phase != Building
    && (n.hasAttempt <==> n.state == PendingConfirm || n.state == Established)
    && (n.hasAttempt ==> n.entry in s.published && s.published[n.entry].Answer? && s.published[n.entry].session == sid)
    && n.promotions <= 1
    && (n.state == Established ==> n.promotions == 1)
    && (n.state == PendingConfirm ==> (n.promotions == 1 <==> n.lock == Promoted))
    && (n.lock == Promoted || n.lock == Doomed ==> n.state == PendingConfirm)
    && (n.lock == Closing || n.closedCid ==> !n.hasAttempt)
  }

  ghost predicate PublishedLinked(s: Sys, e: EntryId)
    requires e in s.published
  {
    && e in s.cache.entries && s.cache.entries[e].phase != Building
    && s.published[e].Answer? && s.published[e].entry == e
    && s.published[e].session in s.sessions && s.sessions[s.published[e].session].entry == e
    && s.sessions[s.published[e].session].key == s.cache.entries[e].key
  }

  ghost predicate Linked(s: Sys) {
    && (forall e :: e in s.cache.entries ==> EntryLinked(s, e))
    && (forall call :: call in s.calls ==> CallLinked(s, call))
    && (forall sid :: sid in s.sessions ==> SessionLinked(s, sid))
    && (forall e :: e in s.published ==> PublishedLinked(s, e))
  }

  ghost predicate Inv(s: Sys, o: Options) {
    CacheInv(s.cache, o) && CidInv(s) && Linked(s)
  }

  /** Entries that die or stay as they are break no link. */
  lemma AgeingKeeps(s: Sys, d: Cache)
    requires Linked(s) && EntriesOk(s.cache) && EntriesOk(d) && AllAge(s.cache, d)
    ensures Linked(s.(cache := d))
  {
    hide Linked, EntriesOk, EntryLinked, CallLinked, SessionLinked, PublishedLinked, EntryOk, Ages, AllAge;
    var t := s.(cache := d);
    forall e | e in t.cache.entries ensures EntryLinked(t, e) {
      EntryAges(s, d, e);
    }
    forall call | call in t.calls ensures CallLinked(t, call) {
      CallAges(s, d, call);
    }
    forall sid | sid in t.sessions ensures SessionLinked(t, sid) {
      SessionEntryAges(s, d, sid);
    }
    forall e | e in t.published ensures PublishedLinked(t, e) {
      PublishedAges(s, d, e);
    }
    LinkedParts(t);
  }

  lemma LinkedEntry(s: Sys, e: EntryId)
    requires Linked(s) && e in s.cache.entries
    ensures EntryLinked(s, e)
  {
  }

  lemma LinkedParts(s: Sys)
    requires forall e :: e in s.cache.entries ==> EntryLinked(s, e)
    requires forall call :: call in s.calls ==> CallLinked(s, call)
    requires forall sid :: sid in s.sessions ==> SessionLinked(s, sid)
    requires forall e :: e in s.published ==> PublishedLinked(s, e)
    ensures Linked(s)
  {
  }

  lemma EntryAges(s: Sys, d: Cache, e: EntryId)
    requires Linked(s) && AllAge(s.cache, d) && e in d.entries
    ensures EntryLinked(s.(cache := d), e)
  {
    assert EntryLinked(s, e) && Ages(s.cache.entries[e], d.entries[e]);
  }

  lemma CallAges(s: Sys, d: Cache, call: CallId)
    requires Linked(s) && EntriesOk(s.cache) && AllAge(s.cache, d) && call in s.calls
    ensures CallLinked(s.(cache := d), call)
  {
    hide Linked, AllAge, EntriesOk;
    LinkedCall(s, call);
    SameEntries(s.cache, d);
    match s.calls[call]
    case Returned(Some(e), Reject(f)) => DeadStays(s.cache, d, e);
    case _ =>
  }

  lemma SameEntries(c: Cache, d: Cache)
    requires AllAge(c, d)
    ensures c.entries.Keys == d.entries.Keys
  {
  }

  lemma DeadStays(c: Cache, d: Cache, e: EntryId)
    requires AllAge(c, d) && EntriesOk(c) && e in c.entries && c.entries[e].err.Some?
    ensures e in d.entries && d.entries[e] == c.entries[e]
  {
    assert EntryOk(c, e) && Ages(c.entries[e], d.entries[e]);
  }

  lemma SessionEntryAges(s: Sys, d: Cache, sid: SessionId)
    requires Linked(s) && AllAge(s.cache, d) && sid in s.sessions
    ensures SessionLinked(s.(cache := d), sid)
  {
    assert SessionLinked(s, sid);
    assert Ages(s.cache.entries[s.sessions[sid].entry], d.entries[s.sessions[sid].entry]);
  }

  lemma PublishedAges(s: Sys, d: Cache, e: EntryId)
    requires Linked(s) && AllAge(s.cache, d) && e in s.published
    ensures PublishedLinked(s.(cache := d), e)
  {
    assert PublishedLinked(s, e) && Ages(s.cache.entries[e], d.entries[e]);
  }

  /** A call that moves on without touching anything else. */
  lemma CallKeeps(s: Sys, call: CallId, n: Call, cids: set<Cid>)
    requires Linked(s)
    requires call in s.calls ==> forall e :: s.calls[call].Builds(e) && e in s.cache.entries && s.cache.entries[e].phase == Building ==> n.Builds(e)
    requires var t := s.(calls := s.calls[call := n], cids := cids); CallLinked(t, call)
    ensures Linked(s.(calls := s.calls[call := n], cids := cids))
  {
    hide Linked;
    var t := s.(calls := s.calls[call := n], cids := cids);
    forall e | e in t.cache.entries ensures EntryLinked(t, e) {
      LinkedEntry(s, e);
    }
    forall b | b in t.calls ensures CallLinked(t, b) {
      if b != call {
        LinkedCall(s, b);
      }
    }
    forall sid | sid in t.sessions ensures SessionLinked(t, sid) {
      LinkedSession(s, sid);
    }
    forall e | e in t.published ensures PublishedLinked(t, e) {
      LinkedPublished(s, e);
    }
    LinkedParts(t);
  }

  /** A session that moves on; the entry it was published in, if still Ready, must agree. */
  lemma SessionKeeps(s: Sys, sid: SessionId, n: Session, cids: set<Cid>)
    requires Linked(s) && sid in s.sessions && n.entry == s.sessions[sid].entry && n.key == s.sessions[sid].key
    requires SessionLinked(s.(sessions := s.sessions[sid := n], cids := cids), sid)
    requires (n.promotions == s.sessions[sid].promotions && n.hasAttempt == s.sessions[sid].hasAttempt) || Unowned(s, sid)
    ensures Linked(s.(sessions := s.sessions[sid := n], cids := cids))
  {
    hide Linked, SessionLinked, EntryLinked, PublishedLinked;
    var t := s.(sessions := s.sessions[sid := n], cids := cids);
    forall e | e in t.cache.entries ensures EntryLinked(t, e) {
      SessionKeepsEntry(s, sid, n, cids, e);
    }
    forall b | b in t.calls ensures CallLinked(t, b) {
      LinkedCall(s, b);
    }
    forall m | m in t.sessions && m != sid ensures SessionLinked(t, m) {
      SessionKeepsOther(s, sid, n, cids, m);
    }
    forall e | e in t.published ensures PublishedLinked(t, e) {
      SessionKeepsPublished(s, sid, n, cids, e);
    }
    LinkedParts(t);
  }

  lemma SessionKeepsEntry(s: Sys, sid: SessionId, n: Session, cids: set<Cid>, e: EntryId)
    requires Linked(s) && sid in s.sessions && n.entry == s.sessions[sid].entry && n.key == s.sessions[sid].key && e in s.cache.entries
    requires (n.promotions == s.sessions[sid].promotions && n.hasAttempt == s.sessions[sid].hasAttempt) || Unowned(s, sid)
    ensures EntryLinked(s.(sessions := s.sessions[sid := n], cids := cids), e)
  {
    assert EntryLinked(s, e);
  }

  lemma SessionKeepsOther(s: Sys, sid: SessionId, n: Session, cids: set<Cid>, m: SessionId)
    requires Linked(s) && sid in s.sessions && m in s.sessions && m != sid
    ensures SessionLinked(s.(sessions := s.sessions[sid := n], cids := cids), m)
  {
    assert SessionLinked(s, m);
  }

  lemma SessionKeepsPublished(s: Sys, sid: SessionId, n: Session, cids: set<Cid>, e: EntryId)
    requires Linked(s) && sid in s.sessions && n.entry == s.sessions[sid].entry && n.key == s.sessions[sid].key && e in s.published
    ensures PublishedLinked(s.(sessions := s.sessions[sid := n], cids := cids), e)
  {
    assert PublishedLinked(s, e);
  }

  /** No entry is Ready for this session. */
  ghost predicate Unowned(s: Sys, sid: SessionId) {
    forall e :: e in s.cache.entries && s.cache.entries[e].phase == Ready ==> s.cache.entries[e].session != Some(sid)
  }

  /** A session's key leads to its own entry and to no other. */
  lemma OwnEntry(s: Sys, sid: SessionId, e: EntryId)
    requires Linked(s) && EntriesOk(s.cache) && sid in s.sessions && e in s.cache.entries
    requires s.cache.entries[e].phase == Ready && s.cache.entries[e].session == Some(sid)
    ensures var n := s.sessions[sid]; n.entry == e && n.hasAttempt && Owns(s.cache, n.key, sid) && s.cache.attempts[n.key] == e
  {
    assert EntryLinked(s, e) && EntryOk(s.cache, e);
  }

  // ---------------------------------------------------------------------------------------------
  // Every action keeps the links
  // ---------------------------------------------------------------------------------------------

  lemma CleanKeeps(s: Sys, now: int, o: Options)
    requires Inv(s, o)
    ensures Linked(s.(cache := Cleaned(s.cache, now, o)))
    ensures CacheInv(Cleaned(s.cache, now, o), o)
    ensures Cleaned(s.cache, now, o).entries.Keys == s.cache.entries.Keys
  {
    hide EntriesOk, KeysOk, LiveKeys, Linked, Cleaned;
    CleanupKeeps(s.cache, now, o);
    CleanedAges(s.cache, now, o);
    AgeingKeeps(s, Cleaned(s.cache, now, o));
  }

  lemma CleanStepKeeps(s: Sys, a: Action, o: Options)
    requires Inv(s, o) && a.Clean? && Enabled(s, a)
    ensures Linked(Step(s, a, o))
  {
    CleanKeeps(s, a.now, o);
  }

  lemma ArriveKeeps(s: Sys, a: Action, o: Options)
    requires Inv(s, o) && a.Arrive? && Enabled(s, a)
    ensures Linked(Step(s, a, o))
  {
    hide EntriesOk, KeysOk, LiveKeys, Linked, Cleaned;
    var key := a.key;
    CleanKeeps(s, a.now, o);
    var d := Cleaned(s.cache, a.now, o);
    var t := s.(cache := d);
    var lease := Acquire(s.cache, a.key, a.initial, a.entry, a.now, o).1;
    match lease {
      case Build(e) => InsertLinked(t, a.call, e, Acquire(s.cache, a.key, a.initial, a.entry, a.now, o).0, o);
      case Wait(e) => CallKeeps(t, a.call, Awaiting(e), s.cids);
      case _ =>
        if lease.Answer? {
          FoundLinked(t, d.attempts, key, lease);
        }
        CallKeeps(t, a.call, Returned(None, lease), s.cids);
    }
  }

  /** The answer of an entry that is done. */
  lemma FoundLinked(t: Sys, attempts: map<AttemptKey, EntryId>, key: AttemptKey, lease: Lease)
    requires Linked(t) && attempts == t.cache.attempts && lease.Answer?
    requires Tracks(t.cache, key) && lease == Result(At(t.cache, key), attempts[key])
    ensures lease.entry in t.published && t.published[lease.entry] == lease
  {
    assert EntryLinked(t, attempts[key]);
  }

  lemma InsertLinked(t: Sys, call: CallId, e: EntryId, d: Cache, o: Options)
    requires Linked(t) && e !in t.cache.entries && call !in t.calls && e in d.entries
    requires d.entries == t.cache.entries[e := d.entries[e]] && d.entries[e].phase == Building
    ensures Linked(t.(cache := d, calls := t.calls[call := Working(e, None)], builder := t.builder[e := call]))
  {
    hide Linked;
    var u := t.(cache := d, calls := t.calls[call := Working(e, None)], builder := t.builder[e := call]);
    forall f | f in t.published ensures f != e {
      LinkedPublished(t, f);
    }
    forall f | f in u.cache.entries ensures EntryLinked(u, f) {
      if f != e {
        LinkedEntry(t, f);
      }
    }
    forall b | b in u.calls ensures CallLinked(u, b) {
      if b != call {
        LinkedCall(t, b);
      }
    }
    forall sid | sid in u.sessions ensures SessionLinked(u, sid) {
      LinkedSession(t, sid);
    }
    forall f | f in u.published ensures PublishedLinked(u, f) {
      LinkedPublished(t, f);
    }
    LinkedParts(u);
  }

  lemma ResumeKeeps(s: Sys, a: Action, o: Options)
    requires Inv(s, o) && a.Resume? && Enabled(s, a)
    ensures Linked(Step(s, a, o))
    ensures s.cache.entries[s.calls[a.call].entry].phase != Building
  {
    hide Linked, CidInv, KeysOk, LiveKeys;
    var e := s.calls[a.call].entry;
    LinkedEntry(s, e);
    assert EntryOk(s.cache, e);
    CallKeeps(s, a.call, Returned(Some(e), Result(s.cache.entries[e], e)), s.cids);
  }

  lemma CallMovesKeep(s: Sys, a: Action, o: Options)
    requires Inv(s, o) && (a.Reserve? || a.Abandon?) && Enabled(s, a)
    ensures Linked(Step(s, a, o))
  {
    assert CallLinked(s, a.call);
    var t := Step(s, a, o);
    CallKeeps(s, a.call, t.calls[a.call], t.cids);
  }

  lemma FinishKeeps(s: Sys, a: Action, o: Options)
    requires Inv(s, o) && a.Finish? && Enabled(s, a)
    ensures Linked(Step(s, a, o))
  {
    hide Linked, KeysOk, LiveKeys;
    var e := s.calls[a.call].entry;
    assert EntryOk(s.cache, e);
    if Publishable(s.cache, e) {
      PublishLinked(s, Step(s, a, o), a.call, a.session, e);
    } else {
      AddSessionKeeps(s, a.session, Step(s, a, o).sessions[a.session]);
      assert CallLinked(s, a.call) by { LinkedCall(s, a.call); }
      CallKeeps(s.(sessions := Step(s, a, o).sessions), a.call, Step(s, a, o).calls[a.call], s.cids);
    }
  }

  lemma LinkedCall(s: Sys, call: CallId)
    requires Linked(s) && call in s.calls
    ensures CallLinked(s, call)
  {
  }

  /** A session that was never published. */
  lemma AddSessionKeeps(s: Sys, sid: SessionId, n: Session)
    requires Linked(s) && sid !in s.sessions && n.entry in s.cache.entries && s.cache.entries[n.entry].phase != Building
    requires n.state == Closed && !n.hasAttempt && n.promotions == 0 && n.lock == Closing
    ensures Linked(s.(sessions := s.sessions[sid := n]))
  {
    hide Linked;
    var t := s.(sessions := s.sessions[sid := n]);
    forall e | e in t.cache.entries ensures EntryLinked(t, e) {
      LinkedEntry(s, e);
    }
    forall b | b in t.calls ensures CallLinked(t, b) {
      LinkedCall(s, b);
    }
    forall m | m in t.sessions ensures SessionLinked(t, m) {
      if m != sid {
        LinkedSession(s, m);
      }
    }
    forall e | e in t.published ensures PublishedLinked(t, e) {
      LinkedPublished(s, e);
    }
    LinkedParts(t);
  }

  lemma PublishLinked(s: Sys, t: Sys, call: CallId, sid: SessionId, e: EntryId)
    requires Linked(s) && call in s.calls && s.calls[call].Builds(e) && e in s.cache.entries && sid !in s.sessions
    requires s.cache.entries[e].phase == Building && !s.cache.entries[e].confirmed
    requires e in t.cache.entries && t.cache.entries == s.cache.entries[e := t.cache.entries[e]]
    requires var m := t.cache.entries[e];
      m == s.cache.entries[e].(phase := Ready, session := Some(sid), response := m.response, expiresAt := m.expiresAt, done := true)
      && t.published == s.published[e := Answer(e, sid, m.response)]
      && t.calls == s.calls[call := Returned(None, Answer(e, sid, m.response))]
    requires sid in t.sessions && t.sessions == s.sessions[sid := t.sessions[sid]] && t.builder == s.builder
    requires var n := t.sessions[sid];
      n.state == PendingConfirm && n.hasAttempt && !n.closedCid && n.lock == Free && n.entry == e && n.promotions == 0
      && n.key == s.cache.entries[e].key
    ensures Linked(t)
  {
    hide Linked;
    LinkedEntry(s, e);
    forall f | f in t.cache.entries ensures EntryLinked(t, f) {
      LinkedEntry(s, f);
    }
    forall b | b in t.calls ensures CallLinked(t, b) {
      if b != call {
        PublishedGrow(s, t, e, b);
      }
    }
    forall m | m in t.sessions ensures SessionLinked(t, m) {
      if m != sid {
        LinkedSession(s, m);
      }
    }
    forall f | f in t.published ensures PublishedLinked(t, f) {
      if f != e {
        LinkedPublished(s, f);
      }
    }
    LinkedParts(t);
  }

  lemma PublishedGrow(s: Sys, t: Sys, e: EntryId, b: CallId)
    requires Linked(s) && b in s.calls && b in t.calls && t.calls[b] == s.calls[b] && e !in s.published
    requires e in s.cache.entries && e in t.cache.entries && t.cache.entries == s.cache.entries[e := t.cache.entries[e]]
    requires t.cache.entries[e].err == s.cache.entries[e].err
    requires e in t.published && t.published == s.published[e := t.published[e]] && t.builder == s.builder
    ensures CallLinked(t, b)
  {
    assert CallLinked(s, b);
  }

  lemma GiveUpKeeps(s: Sys, a: Action, o: Options)
    requires Inv(s, o) && a.GiveUp? && Enabled(s, a)
    ensures Linked(Step(s, a, o))
  {
    hide Linked, KeysOk, LiveKeys;
    var (e, t) := (s.calls[a.call].entry, Step(s, a, o));
    assert EntryOk(s.cache, e);
    if Publishable(s.cache, e) {
      FailLinked(s, t, a.call, e);
    } else {
      CallKeeps(s, a.call, t.calls[a.call], s.cids);
    }
  }

  lemma FailLinked(s: Sys, t: Sys, call: CallId, e: EntryId)
    requires Linked(s) && call in s.calls && s.calls[call].Builds(e) && e in s.cache.entries
    requires s.cache.entries[e].phase == Building && s.cache.entries[e].err.None?
    requires e in t.cache.entries && t.cache.entries == s.cache.entries[e := t.cache.entries[e]]
    requires t.cache.entries[e].phase == Failed && call in t.calls
    requires t.calls[call].Returned? && t.calls[call].waited.None? && t.calls[call].lease.Reject?
    requires t == s.(cache := t.cache, calls := s.calls[call := t.calls[call]])
    ensures Linked(t)
  {
    hide Linked;
    LinkedEntry(s, e);
    forall f | f in t.cache.entries ensures EntryLinked(t, f) {
      LinkedEntry(s, f);
    }
    forall b | b in t.calls ensures CallLinked(t, b) {
      if b != call {
        LinkedCall(s, b);
      }
    }
    forall m | m in t.sessions ensures SessionLinked(t, m) {
      LinkedSession(s, m);
    }
    forall f | f in t.published ensures PublishedLinked(t, f) {
      LinkedPublished(s, f);
    }
    LinkedParts(t);
  }

  lemma ConfirmKeeps(s: Sys, a: Action, o: Options)
    requires Inv(s, o) && a.Confirm? && Enabled(s, a)
    ensures Linked(Step(s, a, o))
  {
    hide Linked, CacheInv, CidInv, SessionLinked, Promote;
    var n := s.sessions[a.session];
    if n.hasAttempt && Promotable(s.cache, n.key, a.session, a.now) {
      PromotedLinked(s, a.session, a.now, o);
    } else {
      if n.hasAttempt {
        UnpromotedLinked(s, a.session, a.now, o);
      }
      DoomedLinked(s.(cache := Step(s, a, o).cache), a.session);
    }
  }

  lemma PromotedLinked(s: Sys, sid: SessionId, now: int, o: Options)
    requires Inv(s, o) && sid in s.sessions && Promotable(s.cache, s.sessions[sid].key, sid, now)
    requires s.sessions[sid].state == PendingConfirm && s.sessions[sid].lock == Free
    ensures var n := s.sessions[sid];
      Linked(s.(cache := Promote(s.cache, n.key, sid, now, o), sessions := s.sessions[sid := n.(lock := Promoted, promotions := n.promotions + 1)]))
  {
    hide Linked, CacheInv, CidInv;
    var n := s.sessions[sid];
    var t := s.(cache := Promote(s.cache, n.key, sid, now, o), sessions := s.sessions[sid := n.(lock := Promoted, promotions := n.promotions + 1)]);
    PromoteLinked(s, t, sid, s.cache.attempts[n.key]);
  }

  lemma UnpromotedLinked(s: Sys, sid: SessionId, now: int, o: Options)
    requires Inv(s, o) && sid in s.sessions && !Promotable(s.cache, s.sessions[sid].key, sid, now)
    ensures Linked(s.(cache := Promote(s.cache, s.sessions[sid].key, sid, now, o)))
  {
    hide Linked, EntriesOk, KeysOk, LiveKeys, CidInv, AllAge, OnlyOwn, Promotable;
    var key := s.sessions[sid].key;
    CloseAges(s.cache, key, sid, StateError, now, o);
    PromoteKeeps(s.cache, key, sid, now, o);
    AgeingKeeps(s, Promote(s.cache, key, sid, now, o));
  }

  lemma DoomedLinked(s: Sys, sid: SessionId)
    requires Linked(s) && sid in s.sessions && s.sessions[sid].state == PendingConfirm && s.sessions[sid].lock == Free
    ensures Linked(s.(sessions := s.sessions[sid := s.sessions[sid].(lock := Doomed)]))
  {
    hide Linked;
    LinkedSession(s, sid);
    SessionKeeps(s, sid, s.sessions[sid].(lock := Doomed), s.cids);
  }

  lemma LinkedSession(s: Sys, sid: SessionId)
    requires Linked(s) && sid in s.sessions
    ensures SessionLinked(s, sid)
  {
  }

  ghost predicate Promotes(s: Sys, t: Sys, sid: SessionId, e: EntryId) {
    && sid in s.sessions && e in s.cache.entries && e in t.cache.entries
    && s.cache.entries[e].phase == Ready && s.cache.entries[e].session == Some(sid)
    && s.sessions[sid].state == PendingConfirm && s.sessions[sid].lock == Free
    && t.cache.entries == s.cache.entries[e := t.cache.entries[e]]
    && t.cache.entries[e] == s.cache.entries[e].(confirmed := true, expiresAt := t.cache.entries[e].expiresAt)
    && t == s.(cache := t.cache, sessions := s.sessions[sid := s.sessions[sid].(lock := Promoted, promotions := s.sessions[sid].promotions + 1)])
  }

  lemma PromoteEntryLinked(s: Sys, t: Sys, sid: SessionId, e: EntryId, f: EntryId)
    requires Linked(s) && Promotes(s, t, sid, e) && f in t.cache.entries
    ensures EntryLinked(t, f)
  {
    assert EntryLinked(s, e) && SessionLinked(s, sid) && EntryLinked(s, f);
  }

  lemma PromoteSessionLinked(s: Sys, t: Sys, sid: SessionId, e: EntryId, m: SessionId)
    requires Linked(s) && Promotes(s, t, sid, e) && m in t.sessions
    ensures SessionLinked(t, m)
  {
    assert EntryLinked(s, e) && SessionLinked(s, m);
  }

  lemma PromoteLinked(s: Sys, t: Sys, sid: SessionId, e: EntryId)
    requires Linked(s) && Promotes(s, t, sid, e)
    ensures Linked(t)
  {
    hide Linked, EntryLinked, SessionLinked;
    forall f | f in t.cache.entries ensures EntryLinked(t, f) {
      PromoteEntryLinked(s, t, sid, e, f);
    }
    forall b | b in t.calls ensures CallLinked(t, b) {
      LinkedCall(s, b);
    }
    forall m | m in t.sessions ensures SessionLinked(t, m) {
      PromoteSessionLinked(s, t, sid, e, m);
    }
    forall f | f in t.published ensures PublishedLinked(t, f) {
      LinkedPublished(s, f);
    }
    LinkedParts(t);
  }

  lemma RetryKeeps(s: Sys, a: Action, o: Options)
    requires Inv(s, o) && a.Retry? && Enabled(s, a)
    ensures Linked(Step(s, a, o))
  {
    hide Linked, EntriesOk, KeysOk, LiveKeys;
    var n := s.sessions[a.session];
    if n.hasAttempt {
      CloseAges(s.cache, n.key, a.session, StateError, a.now, o);
      GraceKeeps(s.cache, n.key, a.session, a.now, o);
      AgeingKeeps(s, CheckGrace(s.cache, n.key, a.session, a.now, o));
    }
  }

  lemma CloseBeginKeeps(s: Sys, a: Action, o: Options)
    requires Inv(s, o) && a.CloseBegin? && Enabled(s, a)
    ensures Linked(Step(s, a, o))
  {
    hide Linked, CidInv, CacheInv, Unowned, SessionLinked, Remove;
    var (n, t) := (s.sessions[a.session], Step(s, a, o));
    var reason := if a.target == Rejected then TranscriptMismatch else StateError;
    if n.hasAttempt {
      RemovedLinked(s, a.session, reason, a.now, o);
    } else {
      ClosedUnowned(s, a.session);
    }
    ClosingLinked(s.(cache := t.cache), a.session, a.target);
  }

  lemma RemovedLinked(s: Sys, sid: SessionId, reason: Failure, now: int, o: Options)
    requires Inv(s, o) && sid in s.sessions
    ensures var t := s.(cache := Remove(s.cache, s.sessions[sid].key, sid, reason, now, o)); Linked(t) && Unowned(t, sid)
  {
    hide Linked, EntriesOk, KeysOk, LiveKeys, Unowned, CidInv, AllAge, OnlyOwn;
    var key := s.sessions[sid].key;
    CloseAges(s.cache, key, sid, reason, now, o);
    RemoveKeeps(s.cache, key, sid, reason, now, o);
    AgeingKeeps(s, Remove(s.cache, key, sid, reason, now, o));
    RemovedUnowned(s, sid, reason, now, o);
  }

  lemma ClosingLinked(s: Sys, sid: SessionId, target: State)
    requires Linked(s) && sid in s.sessions && Unowned(s, sid) && (target == Closed || target == Rejected)
    ensures Linked(s.(sessions := s.sessions[sid := s.sessions[sid].(state := target, hasAttempt := false, lock := Closing)]))
  {
    hide Linked, Unowned;
    LinkedSession(s, sid);
    SessionKeeps(s, sid, s.sessions[sid].(state := target, hasAttempt := false, lock := Closing), s.cids);
  }

  /** Removing or failing to promote leaves no Ready entry for the session. */
  lemma RemovedUnowned(s: Sys, sid: SessionId, reason: Failure, now: int, o: Options)
    requires Inv(s, o) && sid in s.sessions
    ensures Unowned(s.(cache := Remove(s.cache, s.sessions[sid].key, sid, reason, now, o)), sid)
    ensures var n := s.sessions[sid]; !Promotable(s.cache, n.key, sid, now) ==>
      Unowned(s.(cache := Promote(s.cache, n.key, sid, now, o)), sid)
  {
    hide Linked, EntriesOk, KeysOk, LiveKeys;
    forall e | e in s.cache.entries && s.cache.entries[e].phase == Ready && s.cache.entries[e].session == Some(sid)
      ensures Owns(s.cache, s.sessions[sid].key, sid) && s.cache.attempts[s.sessions[sid].key] == e
    {
      OwnEntry(s, sid, e);
    }
  }

  lemma ClosedUnowned(s: Sys, sid: SessionId)
    requires Linked(s) && sid in s.sessions && !s.sessions[sid].hasAttempt
    ensures Unowned(s, sid)
  {
    forall e | e in s.cache.entries && s.cache.entries[e].phase == Ready ensures s.cache.entries[e].session != Some(sid) {
      assert EntryLinked(s, e);
    }
  }

  lemma SessionMovesKeep(s: Sys, a: Action, o: Options)
    requires Inv(s, o) && (a.Establish? || a.CloseEnd?) && Enabled(s, a)
    ensures Linked(Step(s, a, o))
  {
    hide Linked, EntriesOk, KeysOk, LiveKeys;
    LinkedSession(s, a.session);
    var t := Step(s, a, o);
    SessionKeeps(s, a.session, t.sessions[a.session], t.cids);
  }

  lemma StepKeepsLinks(s: Sys, a: Action, o: Options)
    requires Inv(s, o) && Enabled(s, a)
    ensures Linked(Step(s, a, o))
  {
    hide Inv, Linked, Step, Enabled;
    match a {
      case Arrive(_, _, _, _, _) => ArriveKeeps(s, a, o);
      case Clean(_) => CleanStepKeeps(s, a, o);
      case Resume(_) => ResumeKeeps(s, a, o);
      case Reserve(_, _) => CallMovesKeep(s, a, o);
      case Abandon(_, _) => CallMovesKeep(s, a, o);
      case Finish(_, _, _, _) => FinishKeeps(s, a, o);
      case GiveUp(_) => GiveUpKeeps(s, a, o);
      case Confirm(_, _) => ConfirmKeeps(s, a, o);
      case Retry(_, _) => RetryKeeps(s, a, o);
      case CloseBegin(_, _, _) => CloseBeginKeeps(s, a, o);
      case Establish(_) => SessionMovesKeep(s, a, o);
      case CloseEnd(_) => SessionMovesKeep(s, a, o);
    }
  }

  lemma StepKeepsCache(s: Sys, a: Action, o: Options)
    requires CacheInv(s.cache, o) && Enabled(s, a)
    ensures CacheInv(Step(s, a, o).cache, o)
  {
    hide CacheInv, Acquire, Publish, Cleaned, Promote, Promotable, CheckGrace, Remove, Fail, Result;
    match a {
      case Arrive(_, key, initial, e, now) => AcquireKeeps(s.cache, key, initial, e, now, o);
      case Clean(now) => CleanupKeeps(s.cache, now, o);
      case Finish(call, sid, response, now) => PublishKeeps(s.cache, s.calls[call].entry, sid, response, now, o);
      case GiveUp(call) => FailKeeps(s.cache, s.calls[call].entry, s.calls[call].failure, o);
      case Confirm(sid, now) => PromoteKeeps(s.cache, s.sessions[sid].key, sid, now, o);
      case Retry(sid, now) => GraceKeeps(s.cache, s.sessions[sid].key, sid, now, o);
      case CloseBegin(sid, target, now) =>
        RemoveKeeps(s.cache, s.sessions[sid].key, sid, if target == Rejected then TranscriptMismatch else StateError, now, o);
      case _ =>
    }
  }

  /** Every action keeps the cache's accounts, the ownership of identifiers and the links. */
  lemma StepKeeps(s: Sys, a: Action, o: Options)
    requires Inv(s, o) && Enabled(s, a)
    ensures Inv(Step(s, a, o), o)
  {
    hide CacheInv, CidInv, Linked, Step, Enabled;
    StepKeepsCache(s, a, o);
    StepKeepsCids(s, a, o);
    StepKeepsLinks(s, a, o);
  }

  // ---------------------------------------------------------------------------------------------
  // Whole runs
  // ---------------------------------------------------------------------------------------------

  ghost predicate Next(s: Sys, t: Sys, o: Options) {
    exists a :: Enabled(s, a) && t == Step(s, a, o)
  }

  ghost predicate IsRun(run: seq<Sys>, o: Options) {
    |run| > 0 && run[0] == START && forall i :: 0 < i < |run| ==> Next(run[i - 1], run[i], o)
  }

  lemma {:induction false} RunKeeps(run: seq<Sys>, o: Options, i: nat)
    requires IsRun(run, o) && i < |run|
    ensures Inv(run[i], o)
  {
    hide Inv, Next;
    if i == 0 {
      StartInv(o);
    } else {
      RunKeeps(run, o, i - 1);
      NextKeeps(run[i - 1], run[i], o);
    }
  }

  lemma NextKeeps(s: Sys, t: Sys, o: Options)
    requires Inv(s, o) && Next(s, t, o)
    ensures Inv(t, o)
  {
    hide Inv, Step;
    var a :| Enabled(s, a) && t == Step(s, a, o);
    StepKeeps(s, a, o);
  }

  lemma StartInv(o: Options)
    ensures Inv(START, o)
  {
    EmptyKeeps(o);
  }

  /** Published answers, builders and dead entries are final, and entries keep the key and the datagram they were made for. */
  ghost predicate Settles(s: Sys, t: Sys) {
    && (forall e :: e in s.published ==> e in t.published && t.published[e] == s.published[e])
    && (forall e :: e in s.builder && e in s.cache.entries ==> e in t.builder && t.builder[e] == s.builder[e])
    && EntriesKept(s.cache, t.cache)
  }

  ghost predicate EntriesKept(c: Cache, d: Cache) {
    forall e :: e in c.entries ==> e in d.entries && SameAttempt(c.entries[e], d.entries[e])
  }

  ghost predicate SameAttempt(m: Entry, n: Entry) {
    n.key == m.key && n.initial == m.initial && (!m.Live() ==> n == m)
  }

  lemma AgeingIsKept(c: Cache, d: Cache)
    requires AllAge(c, d)
    ensures EntriesKept(c, d)
  {
    forall e | e in c.entries ensures e in d.entries && SameAttempt(c.entries[e], d.entries[e]) {
      assert Ages(c.entries[e], d.entries[e]);
    }
  }

  lemma SettlesTransitive(s: Sys, t: Sys, u: Sys)
    requires Settles(s, t) && Settles(t, u)
    ensures Settles(s, u)
  {
  }

  lemma StepSettles(s: Sys, a: Action, o: Options)
    requires Inv(s, o) && Enabled(s, a)
    ensures Settles(s, Step(s, a, o))
  {
    hide CacheInv, CidInv, Linked, EntriesKept, Acquire, Fail, Cleaned, Promote, CheckGrace, Remove, Promotable, Result;
    KeptItself(s.cache);
    match a {
      case Arrive(_, key, initial, e, now) =>
        AcquireIsKept(s.cache, key, initial, e, now, o);
        BuildsFresh(s.cache, key, initial, e, now, o);
      case Clean(now) =>
        CleanedAges(s.cache, now, o);
        AgeingIsKept(s.cache, Cleaned(s.cache, now, o));
      case Finish(call, sid, response, now) =>
        PublishesOnce(s, s.calls[call].entry, o);
        PublishIsKept(s.cache, s.calls[call].entry, sid, response, now, o);
      case GiveUp(call) => FailIsKept(s.cache, s.calls[call].entry, s.calls[call].failure);
      case Confirm(sid, now) => PromoteIsKept(s.cache, s.sessions[sid].key, sid, now, o);
      case Retry(sid, now) =>
        CloseAges(s.cache, s.sessions[sid].key, sid, StateError, now, o);
        AgeingIsKept(s.cache, CheckGrace(s.cache, s.sessions[sid].key, sid, now, o));
      case CloseBegin(sid, target, now) =>
        var reason := if target == Rejected then TranscriptMismatch else StateError;
        CloseAges(s.cache, s.sessions[sid].key, sid, reason, now, o);
        AgeingIsKept(s.cache, Remove(s.cache, s.sessions[sid].key, sid, reason, now, o));
      case _ =>
    }
  }

  lemma KeptItself(c: Cache)
    ensures EntriesKept(c, c)
  {
  }

  lemma AcquireIsKept(c: Cache, key: AttemptKey, initial: bytes, e: EntryId, now: int, o: Options)
    requires CacheInv(c, o) && e !in c.entries
    ensures EntriesKept(c, Acquire(c, key, initial, e, now, o).0)
  {
    hide EntriesOk, KeysOk, LiveKeys, Cleaned;
    CleanedAges(c, now, o);
    AgeingIsKept(c, Cleaned(c, now, o));
  }

  lemma BuildsFresh(c: Cache, key: AttemptKey, initial: bytes, e: EntryId, now: int, o: Options)
    ensures var lease := Acquire(c, key, initial, e, now, o).1; lease.Build? ==> lease.entry == e
  {
    hide Cleaned;
  }

  lemma PublishIsKept(c: Cache, e: EntryId, sid: SessionId, response: bytes, now: int, o: Options)
    requires e in c.entries
    ensures EntriesKept(c, Publish(c, e, sid, response, now, o).0)
  {
  }

  lemma FailIsKept(c: Cache, e: EntryId, failure: Failure)
    requires e in c.entries
    ensures EntriesKept(c, Fail(c, e, failure))
  {
  }

  lemma PromoteIsKept(c: Cache, key: AttemptKey, sid: SessionId, now: int, o: Options)
    ensures EntriesKept(c, Promote(c, key, sid, now, o))
  {
  }

  lemma PublishesOnce(s: Sys, e: EntryId, o: Options)
    requires Linked(s)
    ensures Publishable(s.cache, e) ==> e !in s.published
  {
    if Publishable(s.cache, e) {
      assert EntryLinked(s, e);
    }
  }

  lemma {:induction false} RunSettles(run: seq<Sys>, o: Options, i: nat, j: nat)
    requires IsRun(run, o) && i <= j < |run|
    ensures Settles(run[i], run[j])
  {
    hide Inv, Next, Settles;
    if i == j {
      SettlesItself(run[i]);
    } else {
      RunSettles(run, o, i, j - 1);
      RunKeeps(run, o, j - 1);
      NextSettles(run[j - 1], run[j], o);
      SettlesTransitive(run[i], run[j - 1], run[j]);
    }
  }

  lemma SettlesItself(s: Sys)
    ensures Settles(s, s)
  {
  }

  lemma NextSettles(s: Sys, t: Sys, o: Options)
    requires Inv(s, o) && Next(s, t, o)
    ensures Settles(s, t)
  {
    hide Inv, Settles, Step;
    var a :| Enabled(s, a) && t == Step(s, a, o);
    StepSettles(s, a, o);
  }

  /** Whenever and however two callers are answered from one attempt, they get the same session and the same bytes. */
  lemma AnswersAgree(run: seq<Sys>, o: Options, i: nat, j: nat, a: CallId, b: CallId)
    requires IsRun(run, o) && i < |run| && j < |run| && a in run[i].calls && b in run[j].calls
    requires run[i].calls[a].Returned? && run[j].calls[b].Returned?
    requires run[i].calls[a].lease.Answer? && run[j].calls[b].lease.Answer?
    ensures run[i].calls[a].lease.entry == run[j].calls[b].lease.entry ==> run[i].calls[a].lease == run[j].calls[b].lease
    ensures run[i].calls[a].lease.entry != run[j].calls[b].lease.entry ==>
      run[i].calls[a].lease.session != run[j].calls[b].lease.session
  {
    hide IsRun, CacheInv, CidInv, Linked;
    RunKeeps(run, o, i);
    RunKeeps(run, o, j);
    LinkedCall(run[i], a);
    LinkedCall(run[j], b);
    RunSettles(run, o, if i <= j then i else j, if i <= j then j else i);
    var last := if i <= j then j else i;
    RunKeeps(run, o, last);
    LinkedPublished(run[last], run[i].calls[a].lease.entry);
    LinkedPublished(run[last], run[j].calls[b].lease.entry);
  }

  lemma LinkedPublished(s: Sys, e: EntryId)
    requires Linked(s) && e in s.published
    ensures PublishedLinked(s, e)
  {
  }

  /** The map leads from the entry's key to the entry. */
  ghost predicate Current(c: Cache, e: EntryId) {
    e in c.entries && c.entries[e].key in c.attempts && c.attempts[c.entries[e].key] == e
  }

  /**
   Single flight: an attempt has one builder, and so has a key from the insertion of its attempt until
   the attempt fails or its tombstone is forgotten. An unfinished attempt is always in the map.
   */
  lemma OneBuilder(run: seq<Sys>, o: Options, i: nat, a: CallId, b: CallId, e: EntryId, f: EntryId)
    requires IsRun(run, o) && i < |run| && a in run[i].calls && b in run[i].calls
    requires run[i].calls[a].Builds(e) && run[i].calls[b].Builds(f)
    ensures e in run[i].cache.entries && f in run[i].cache.entries
    ensures run[i].cache.entries[e].phase == Building ==> Current(run[i].cache, e)
    ensures e == f ==> a == b
    ensures Current(run[i].cache, e) && Current(run[i].cache, f) && run[i].cache.entries[e].key == run[i].cache.entries[f].key ==> a == b
  {
    RunKeeps(run, o, i);
    assert CallLinked(run[i], a) && CallLinked(run[i], b);
    assert EntryOk(run[i].cache, e);
  }

  /** A caller that waits is never stranded: its entry is done, or its builder is still at work. */
  lemma WaitersAreServed(run: seq<Sys>, o: Options, i: nat, call: CallId)
    requires IsRun(run, o) && i < |run| && call in run[i].calls && run[i].calls[call].Awaiting?
    ensures var s := run[i]; var e := s.calls[call].entry;
      && e in s.cache.entries
      && (!s.cache.entries[e].done ==> e in s.builder && s.builder[e] in s.calls && s.calls[s.builder[e]].Builds(e))
      && (s.cache.entries[e].done ==> Enabled(s, Resume(call)))
  {
    RunKeeps(run, o, i);
    assert CallLinked(run[i], call);
    var e := run[i].calls[call].entry;
    assert EntryOk(run[i].cache, e) && EntryLinked(run[i], e);
  }

  /** resultOfAttempt never finds the attempt unfinished: it answers what was published, or the attempt's error. */
  lemma ResumeCompletes(run: seq<Sys>, o: Options, i: nat, call: CallId)
    requires IsRun(run, o) && i < |run| && Enabled(run[i], Resume(call))
    ensures var s := run[i]; var e := s.calls[call].entry;
      && s.cache.entries[e].phase != Building
      && match Result(s.cache.entries[e], e) {
        case Answer(f, _, _) => f == e && e in s.published && s.published[e] == Result(s.cache.entries[e], e)
        case Reject(failure) => s.cache.entries[e].err == Some(failure)
        case _ => false
      }
  {
    RunKeeps(run, o, i);
    var e := run[i].calls[call].entry;
    assert EntryOk(run[i].cache, e) && EntryLinked(run[i], e);
  }

  /** A released identifier was its releaser's alone, and is nobody's afterwards. */
  lemma ReleasedOnce(run: seq<Sys>, o: Options, i: nat, a: Action, h: Holder, cid: Cid)
    requires IsRun(run, o) && i < |run| && Enabled(run[i], a) && Holds(run[i], h, cid)
    requires cid !in Step(run[i], a, o).cids
    ensures LetsGo(run[i], a) == Some(h) && !a.Finish?
    ensures !Held(Step(run[i], a, o), cid)
    ensures Step(run[i], a, o).cids == run[i].cids - {cid}
  {
    hide Holds, Step, IsRun, CacheInv, Linked;
    RunKeeps(run, o, i);
    StepKeepsCids(run[i], a, o);
    ActiveAfter(run[i], a, o);
    UniqueHolder(run[i], cid);
    forall g | Holds(run[i], g, cid) ensures g == h {
    }
    OneIdentifier(run[i], h, cid);
  }

  lemma OneIdentifier(s: Sys, h: Holder, cid: Cid)
    requires Holds(s, h, cid)
    ensures forall other :: Holds(s, h, other) ==> other == cid
  {
  }

  // ---------------------------------------------------------------------------------------------
  // The life of a session
  // ---------------------------------------------------------------------------------------------

  /** The session an action works on, once it exists. */
  ghost function Actor(a: Action): Option<SessionId> {
    match a
    case Confirm(sid, _) => Some(sid)
    case Retry(sid, _) => Some(sid)
    case CloseBegin(sid, _, _) => Some(sid)
    case _ => None
  }

  /** A session confirms, retries or closes without touching any attempt but its own. */
  lemma OnlyOwnAttempt(run: seq<Sys>, o: Options, i: nat, a: Action, e: EntryId)
    requires IsRun(run, o) && i < |run| && Enabled(run[i], a) && Actor(a).Some? && e in run[i].cache.entries
    ensures Actor(a).value in run[i].sessions
    ensures e in Step(run[i], a, o).cache.entries
    ensures Step(run[i], a, o).cache.entries[e] != run[i].cache.entries[e] ==> run[i].sessions[Actor(a).value].entry == e
  {
    hide IsRun, EntriesOk, KeysOk, LiveKeys, CidInv, Linked;
    RunKeeps(run, o, i);
    var s := run[i];
    var (sid, t) := (Actor(a).value, Step(s, a, o));
    if t.cache.entries != s.cache.entries && Owns(s.cache, s.sessions[sid].key, sid) {
      OwnEntry(s, sid, s.cache.attempts[s.sessions[sid].key]);
    }
  }

  ghost predicate Open(n: Session) {
    n.state == PendingConfirm || n.state == Established
  }

  /** A session keeps its identity, is never promoted less, and never reopens. */
  ghost predicate SessionAges(m: Session, n: Session) {
    && n.cid == m.cid && n.entry == m.entry && n.key == m.key
    && m.promotions <= n.promotions
    && (Open(n) ==> Open(m)) && (n.state == PendingConfirm ==> m.state == PendingConfirm)
    && (m.closedCid ==> n.closedCid)
  }

  ghost predicate SessionsAge(s: Sys, t: Sys) {
    forall sid :: sid in s.sessions ==> sid in t.sessions && SessionAges(s.sessions[sid], t.sessions[sid])
  }

  /** Unpromoted, and the attempt no longer there to be confirmed. */
  ghost predicate Lost(s: Sys, sid: SessionId) {
    && sid in s.sessions && s.sessions[sid].promotions == 0
    && s.sessions[sid].entry in s.cache.entries && !s.cache.entries[s.sessions[sid].entry].Live()
  }

  lemma StepAges(s: Sys, a: Action, o: Options)
    requires Inv(s, o) && Enabled(s, a)
    ensures SessionsAge(s, Step(s, a, o))
  {
    hide CacheInv, CidInv, Linked, Acquire, Fail, Cleaned, Promote, CheckGrace, Remove, Promotable, Result, Publish;
    if a.Establish? {
      LinkedSession(s, a.session);
    }
  }

  lemma LostStays(s: Sys, a: Action, o: Options, sid: SessionId)
    requires Inv(s, o) && Enabled(s, a) && Lost(s, sid)
    ensures Lost(Step(s, a, o), sid)
  {
    hide Inv, Step, Enabled, EntriesKept;
    StepSettles(s, a, o);
    StepAges(s, a, o);
    KeptEntry(s.cache, Step(s, a, o).cache, s.sessions[sid].entry);
    LostNotPromoted(s, a, o, sid);
  }

  lemma KeptEntry(c: Cache, d: Cache, e: EntryId)
    requires EntriesKept(c, d) && e in c.entries
    ensures e in d.entries && SameAttempt(c.entries[e], d.entries[e])
  {
  }

  lemma LostNotPromoted(s: Sys, a: Action, o: Options, sid: SessionId)
    requires Inv(s, o) && Enabled(s, a) && Lost(s, sid)
    ensures sid in Step(s, a, o).sessions && Step(s, a, o).sessions[sid].promotions == 0
  {
    hide CacheInv, CidInv, Linked, Acquire, Fail, Cleaned, Promote, CheckGrace, Remove, Result, Publish;
    if Owns(s.cache, s.sessions[sid].key, sid) {
      OwnsOwn(s, sid, o);
    }
  }

  lemma OwnsOwn(s: Sys, sid: SessionId, o: Options)
    requires Inv(s, o) && sid in s.sessions && Owns(s.cache, s.sessions[sid].key, sid)
    ensures s.cache.attempts[s.sessions[sid].key] == s.sessions[sid].entry
  {
    hide EntriesOk, KeysOk, LiveKeys, CidInv, Linked;
    OwnEntry(s, sid, s.cache.attempts[s.sessions[sid].key]);
  }

  lemma NextAges(s: Sys, t: Sys, o: Options, sid: SessionId)
    requires Inv(s, o) && Next(s, t, o)
    ensures SessionsAge(s, t)
    ensures Lost(s, sid) ==> Lost(t, sid)
  {
    hide Inv, SessionsAge, Lost, Step;
    var a :| Enabled(s, a) && t == Step(s, a, o);
    StepAges(s, a, o);
    if Lost(s, sid) {
      LostStays(s, a, o, sid);
    }
  }

  lemma {:induction false} RunAges(run: seq<Sys>, o: Options, i: nat, j: nat, sid: SessionId)
    requires IsRun(run, o) && i <= j < |run|
    ensures SessionsAge(run[i], run[j])
    ensures Lost(run[i], sid) ==> Lost(run[j], sid)
  {
    hide Inv, Lost, Next, SessionAges;
    if i == j {
      SessionsAgeRefl(run[i]);
    } else {
      RunAges(run, o, i, j - 1, sid);
      RunKeeps(run, o, j - 1);
      NextAges(run[j - 1], run[j], o, sid);
      hide SessionsAge;
      SessionsAgeTrans(run[i], run[j - 1], run[j]);
    }
  }

  lemma SessionsAgeRefl(s: Sys)
    ensures SessionsAge(s, s)
  {
  }

  lemma SessionsAgeTrans(s: Sys, t: Sys, u: Sys)
    requires SessionsAge(s, t) && SessionsAge(t, u)
    ensures SessionsAge(s, u)
  {
  }

  /**
   Once an attempt is a tombstone with its session not promoted, that session is never Established,
   in whatever order confirmation, cleanup and closing go on.
   */
  lemma NeverEstablishedAfterTombstone(run: seq<Sys>, o: Options, i: nat, j: nat, sid: SessionId)
    requires IsRun(run, o) && i <= j < |run| && sid in run[i].sessions && run[i].sessions[sid].promotions == 0
    requires run[i].sessions[sid].entry in run[i].cache.entries
    requires run[i].cache.entries[run[i].sessions[sid].entry].phase == Tombstone
    ensures sid in run[j].sessions && run[j].sessions[sid].state != Established && run[j].sessions[sid].lock != Promoted
  {
    hide IsRun, CacheInv, CidInv, Linked;
    RunAges(run, o, i, j, sid);
    RunKeeps(run, o, j);
    LinkedSession(run[j], sid);
  }

  /** A session is promoted in at most one step of a run. */
  lemma PromotedOnce(run: seq<Sys>, o: Options, i: nat, j: nat, sid: SessionId)
    requires IsRun(run, o) && 0 < i < |run| && 0 < j < |run|
    requires sid in run[i - 1].sessions && sid in run[i].sessions && sid in run[j - 1].sessions && sid in run[j].sessions
    requires run[i - 1].sessions[sid].promotions < run[i].sessions[sid].promotions
    requires run[j - 1].sessions[sid].promotions < run[j].sessions[sid].promotions
    ensures i == j
  {
    hide IsRun, CacheInv, CidInv, Linked;
    var (low, high) := if i <= j then (i, j) else (j, i);
    if low < high {
      RunAges(run, o, low, high - 1, sid);
      assert SessionAges(run[low].sessions[sid], run[high - 1].sessions[sid]);
      RunKeeps(run, o, high);
      LinkedSession(run[high], sid);
    }
  }

  /** Confirming succeeds exactly while the session's own attempt is published and unexpired. */
  lemma ConfirmsExactly(run: seq<Sys>, o: Options, i: nat, sid: SessionId, now: int)
    requires IsRun(run, o) && i < |run| && Enabled(run[i], Confirm(sid, now))
    ensures var s := run[i]; var n := s.sessions[sid]; var t := Step(s, Confirm(sid, now), o);
      && n.hasAttempt && n.entry in s.cache.entries
      && (t.sessions[sid].lock == Promoted <==>
        s.cache.entries[n.entry].phase == Ready && now < s.cache.entries[n.entry].expiresAt)
      && (t.sessions[sid].lock != Promoted ==> t.sessions[sid].lock == Doomed && Lost(t, sid))
  {
    hide IsRun, CacheInv, CidInv, Linked;
    RunKeeps(run, o, i);
    LinkedSession(run[i], sid);
    ReadyIsOwn(run[i], sid, o);
    var s := run[i];
    if Owns(s.cache, s.sessions[sid].key, sid) {
      OwnsOwn(s, sid, o);
    }
  }

  /** The entry an open session was published in: if it is Ready, it is reached by the session's key. */
  lemma ReadyIsOwn(s: Sys, sid: SessionId, o: Options)
    requires Inv(s, o) && sid in s.sessions && s.sessions[sid].hasAttempt
    ensures s.sessions[sid].entry in s.cache.entries
    ensures s.cache.entries[s.sessions[sid].entry].phase == Ready ==> Owns(s.cache, s.sessions[sid].key, sid)
  {
    assert SessionLinked(s, sid);
    var e := s.sessions[sid].entry;
    assert EntryLinked(s, e) && EntryOk(s.cache, e);
  }

  /** The action runs a cleanup at a time not before the deadline. */
  ghost predicate Cleans(a: Action, deadline: int) {
    (a.Clean? || a.Arrive?) && a.now >= deadline
  }

  /** A published attempt, in a step that is not its own session's: it dies by a cleanup past its expiry, or is left alone. */
  lemma DiesByCleanup(s: Sys, a: Action, o: Options, sid: SessionId)
    requires Inv(s, o) && Enabled(s, a) && sid in s.sessions && Actor(a) != Some(sid)
    requires Owns(s.cache, s.sessions[sid].key, sid)
    ensures var e := s.sessions[sid].entry; var t := Step(s, a, o);
      && e in s.cache.entries && e in t.cache.entries
      && (if Cleans(a, s.cache.entries[e].expiresAt) then t.cache.entries[e].phase == Tombstone
          else t.cache.entries[e] == s.cache.entries[e])
  {
    hide Step, Enabled, CacheInv, CidInv, Linked;
    OwnsOwn(s, sid, o);
    var (e, key) := (s.sessions[sid].entry, s.sessions[sid].key);
    if a.Clean? || a.Arrive? {
      CleaningLive(s, a, o, key);
    } else if Actor(a).Some? {
      OthersKeepEntry(s, a, o, e);
    } else {
      CallsKeepReady(s, a, o, e);
    }
  }

  lemma CallsKeepReady(s: Sys, a: Action, o: Options, e: EntryId)
    requires Enabled(s, a) && !a.Clean? && !a.Arrive? && Actor(a).None? && e in s.cache.entries && s.cache.entries[e].phase == Ready
    ensures e in Step(s, a, o).cache.entries && Step(s, a, o).cache.entries[e] == s.cache.entries[e]
  {
    hide Cleaned, Promote, CheckGrace, Remove, Promotable, Acquire, Result;
  }

  lemma CleaningLive(s: Sys, a: Action, o: Options, key: AttemptKey)
    requires CacheInv(s.cache, o) && Enabled(s, a) && (a.Clean? || a.Arrive?) && Tracks(s.cache, key) && At(s.cache, key).Live()
    ensures var (e, d) := (s.cache.attempts[key], Step(s, a, o).cache);
      e in d.entries && (if a.now >= s.cache.entries[e].expiresAt then d.entries[e].phase == Tombstone else d.entries[e] == s.cache.entries[e])
  {
    hide CacheInv, Cleaned, Result;
    CleanedLive(s.cache, a.now, key, o);
  }

  lemma OthersKeepEntry(s: Sys, a: Action, o: Options, e: EntryId)
    requires Enabled(s, a) && Actor(a).Some? && e in s.cache.entries && s.cache.entries[e].session != Actor(a)
    ensures e in Step(s, a, o).cache.entries && Step(s, a, o).cache.entries[e] == s.cache.entries[e]
  {
    hide Promote, CheckGrace, Remove, Promotable, AllAge, OnlyOwn;
    var other := Actor(a).value;
    var (key, reason) := (s.sessions[other].key, if a.CloseBegin? && a.target == Rejected then TranscriptMismatch else StateError);
    CloseAges(s.cache, key, other, reason, a.now, o);
    OwnApart(s.cache, Remove(s.cache, key, other, reason, a.now, o), other, e);
    OwnApart(s.cache, CheckGrace(s.cache, key, other, a.now, o), other, e);
    OwnApart(s.cache, Promote(s.cache, key, other, a.now, o), other, e);
  }

  lemma OwnApart(c: Cache, d: Cache, other: SessionId, e: EntryId)
    requires OnlyOwn(c, d, other) && e in c.entries && c.entries[e].session != Some(other)
    ensures e in d.entries && d.entries[e] == c.entries[e]
  {
  }

  lemma CleanedLive(c: Cache, now: int, key: AttemptKey, o: Options)
    requires CacheInv(c, o) && Tracks(c, key) && At(c, key).Live()
    ensures var (e, d) := (c.attempts[key], Cleaned(c, now, o));
      && e in d.entries && Tracks(d, key) && d.attempts[key] == e
      && (if now >= c.entries[e].expiresAt then d.entries[e].phase == Tombstone else d.entries[e] == c.entries[e])
  {
    hide EntriesOk, LiveKeys;
    assert KeyOk(c, key);
  }
}
