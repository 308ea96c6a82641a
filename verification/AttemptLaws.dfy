/**
 What callers of the attempt cache get: the outcome of every arrival, what waiters hear, why an attempt
 died, and which sessions a cleanup hands back.
 */
module AttemptLaws {
  import opened Bytes
  import opened Attempts
  import opened ServerRuns
  import opened ServerTraces

  // ---------------------------------------------------------------------------------------------
  // Arrivals
  // ---------------------------------------------------------------------------------------------

  /** Room for one more attempt: below both limits, counting what is in the map. */
  ghost predicate HasRoom(d: Cache, o: Options) {
    |LiveKeys(d)| < o.maxPending && |d.attempts| < o.maxRecords
  }

  /** The lease of a key that is in the map after cleanup, and of one that is not. */
  lemma AcquiresExactly(c: Cache, key: AttemptKey, initial: bytes, f: EntryId, now: int, o: Options)
    requires CacheInv(c, o)
    ensures var (d, lease) := (Cleaned(c, now, o), Acquire(c, key, initial, f, now, o).1);
      && CacheInv(d, o)
      && (key in d.attempts ==> Tracks(d, key) && Leases(d.attempts[key], At(d, key), initial, lease))
      && (key !in d.attempts ==> lease == if HasRoom(d, o) then Build(f) else Reject(CapacityReached))
  {
    hide Cleaned, EntriesOk, LiveKeys;
    CleanupKeeps(c, now, o);
    var d := Cleaned(c, now, o);
    if key in d.attempts {
      assert KeyOk(d, key);
      EntryIsOk(d, d.attempts[key]);
    }
  }

  lemma EntryIsOk(c: Cache, e: EntryId)
    requires EntriesOk(c) && e in c.entries
    ensures EntryOk(c, e)
  {
  }

  /** The same INITIAL is answered with what was published, awaited, or refused with the attempt's own error; another INITIAL is refused. */
  ghost predicate Leases(e: EntryId, entry: Entry, initial: bytes, lease: Lease) {
    if entry.initial != initial then lease == Reject(TranscriptMismatch)
    else match entry.phase
      case Ready => entry.session.Some? && lease == Answer(e, entry.session.value, entry.response)
      case Building => lease == Wait(e)
      case _ => entry.err.Some? && lease == Reject(entry.err.value)
  }

  /** What the calls in `t` show for an arrival on attempt e. */
  ghost predicate Greeted(s: Sys, t: Sys, call: CallId, e: EntryId, entry: Entry, initial: bytes) {
    && call in t.calls
    && if entry.initial != initial then t.calls[call] == Returned(None, Reject(TranscriptMismatch))
       else match entry.phase
         case Ready => e in s.published && t.calls[call] == Returned(None, s.published[e])
         case Building => t.calls[call] == Awaiting(e)
         case _ => entry.err.Some? && t.calls[call] == Returned(None, Reject(entry.err.value))
  }

  /**
   Every arrival of every run: a repeated INITIAL of a published attempt returns exactly what was published;
   of an attempt under construction, waits for it; of a dead one, returns its error; a different INITIAL under
   the key is refused. Without such an attempt the call becomes its builder if and only if both limits leave room.
   */
  lemma ArrivesExactly(run: seq<Sys>, acts: seq<Action>, o: Options, j: nat)
    requires IsTrace(run, acts, o) && j < |acts| && acts[j].Arrive?
    ensures var (s, t, a) := (run[j], run[j + 1], acts[j]); var d := Cleaned(s.cache, a.now, o);
      && (a.key in d.attempts ==> Tracks(d, a.key) && Greeted(s, t, a.call, d.attempts[a.key], At(d, a.key), a.initial))
      && (a.key !in d.attempts ==>
            && a.call in t.calls
            && t.calls[a.call] == (if HasRoom(d, o) then Working(a.entry, None) else Returned(None, Reject(CapacityReached))))
  {
    hide Inv;
    var (s, a) := (run[j], acts[j]);
    assert Enabled(s, a) && run[j + 1] == Step(s, a, o);
    TraceKeeps(run, acts, o, j);
    ArrivalIs(s, a, o);
  }

  lemma ArrivalIs(s: Sys, a: Action, o: Options)
    requires Inv(s, o) && a.Arrive? && Enabled(s, a)
    ensures var (t, d) := (Step(s, a, o), Cleaned(s.cache, a.now, o));
      && (a.key in d.attempts ==> Tracks(d, a.key) && Greeted(s, t, a.call, d.attempts[a.key], At(d, a.key), a.initial))
      && (a.key !in d.attempts ==>
            && a.call in t.calls
            && t.calls[a.call] == (if HasRoom(d, o) then Working(a.entry, None) else Returned(None, Reject(CapacityReached))))
  {
    hide CacheInv, CidInv, Linked, Cleaned, HasRoom, Acquire;
    AcquiresExactly(s.cache, a.key, a.initial, a.entry, a.now, o);
    CleanKeeps(s, a.now, o);
    var d := Cleaned(s.cache, a.now, o);
    if a.key in d.attempts {
      LinkedEntry(s.(cache := d), d.attempts[a.key]);
    }
  }

  // ---------------------------------------------------------------------------------------------
  // Waiters
  // ---------------------------------------------------------------------------------------------

  lemma FailEffect(s: Sys, a: Action, o: Options)
    requires Enabled(s, a) && a.GiveUp? && Publishable(s.cache, s.calls[a.call].entry)
    ensures var (e, t) := (s.calls[a.call].entry, Step(s, a, o));
      e in t.cache.entries && t.cache.entries[e].phase == Failed && t.cache.entries[e].err == Some(s.calls[a.call].failure)
  {
  }

  lemma ResumeEffect(s: Sys, a: Action, o: Options)
    requires Enabled(s, a) && a.Resume?
    ensures var e := s.calls[a.call].entry;
      a.call in Step(s, a, o).calls && Step(s, a, o).calls[a.call] == Returned(Some(e), Result(s.cache.entries[e], e))
  {
    hide Result;
  }

  /** A builder that abandons its work, with or without an identifier, returns its own error. */
  lemma BuildersHearThemselves(s: Sys, a: Action, o: Options)
    requires Enabled(s, a) && (a.Abandon? || a.GiveUp?)
    ensures var t := Step(s, a, o);
      && a.call in t.calls
      && (a.Abandon? ==> t.calls[a.call] == Failing(s.calls[a.call].entry, a.failure) && t.cache == s.cache)
      && (a.GiveUp? ==> t.calls[a.call] == Returned(None, Reject(s.calls[a.call].failure)))
  {
    hide Fail;
  }

  /** Whoever waits for an attempt whose builder gives up hears the builder's error, whenever it resumes. */
  lemma WaitersHearFailure(run: seq<Sys>, acts: seq<Action>, o: Options, i: nat, j: nat, e: EntryId)
    requires IsTrace(run, acts, o) && i < j < |acts| && acts[i].GiveUp? && acts[j].Resume?
    requires run[i].calls[acts[i].call].entry == e && Publishable(run[i].cache, e) && run[j].calls[acts[j].call].entry == e
    ensures acts[j].call in run[j + 1].calls
    ensures run[j + 1].calls[acts[j].call] == Returned(Some(e), Reject(run[i].calls[acts[i].call].failure))
  {
    assert Enabled(run[i], acts[i]) && run[i + 1] == Step(run[i], acts[i], o);
    assert Enabled(run[j], acts[j]) && run[j + 1] == Step(run[j], acts[j], o);
    FailEffect(run[i], acts[i], o);
    ResumeEffect(run[j], acts[j], o);
    TraceIsRun(run, acts, o);
    RunSettles(run, o, i + 1, j);
    hide IsTrace, IsRun, Step, Enabled;
    KeptEntry(run[i + 1].cache, run[j].cache, e);
  }

  // ---------------------------------------------------------------------------------------------
  // Why an attempt died, and who is told
  // ---------------------------------------------------------------------------------------------

  ghost predicate DiedOf(c: Cache, d: Cache, e: EntryId, reason: Failure, forgetAt: int) {
    && e in c.entries && e in d.entries
    && (c.entries[e].Live() && d.entries[e].phase == Tombstone ==> d.entries[e].err == Some(reason) && d.entries[e].forgetAt == forgetAt)
  }

  /** A cleanup, and a confirmation or retry that comes too late, bury as expired; closing gives the session's own reason. */
  lemma DiesOf(s: Sys, a: Action, o: Options, e: EntryId)
    requires Inv(s, o) && Enabled(s, a) && e in s.cache.entries && (a.Clean? || Actor(a).Some?)
    ensures var reason := if a.CloseBegin? then (if a.target == Rejected then TranscriptMismatch else StateError) else AttemptExpired;
      DiedOf(s.cache, Step(s, a, o).cache, e, reason, a.now + o.retention)
  {
    hide EntriesOk, KeysOk, LiveKeys, CidInv, Linked;
    if a.Clean? {
      hide Promote, CheckGrace, Remove, Promotable;
    } else {
      hide Cleaned;
    }
  }

  /** Closing a session buries its attempt if that is still published. */
  lemma CloseBuries(s: Sys, a: Action, o: Options)
    requires Inv(s, o) && Enabled(s, a) && a.CloseBegin?
    ensures var e := s.sessions[a.session].entry; var t := Step(s, a, o);
      && e in s.cache.entries && e in t.cache.entries
      && (s.sessions[a.session].hasAttempt && s.cache.entries[e].phase == Ready ==> t.cache.entries[e].phase == Tombstone)
  {
    var sid := a.session;
    LinkedSession(s, sid) by { hide CacheInv, CidInv, SessionLinked; }
    if s.sessions[sid].hasAttempt {
      ReadyIsOwn(s, sid, o);
      if Owns(s.cache, s.sessions[sid].key, sid) {
        OwnsOwn(s, sid, o);
      }
    }
    hide CacheInv, CidInv, Linked;
  }

  /** A cleanup hands back exactly the sessions of the published, unconfirmed attempts it buries. */
  lemma HandsBackExactly(c: Cache, now: int, o: Options, sid: SessionId)
    requires CacheInv(c, o)
    ensures sid in ExpiredSessions(c, c.attempts.Keys, now) <==>
      exists e :: e in c.entries && c.entries[e].session == Some(sid) && c.entries[e].phase == Ready && !c.entries[e].confirmed
                  && Cleaned(c, now, o).entries[e].phase == Tombstone
  {
    hide LiveKeys;
    var d := Cleaned(c, now, o);
    if sid in ExpiredSessions(c, c.attempts.Keys, now) {
      var key :| key in c.attempts && Expires(c, key, now) && At(c, key).phase == Ready && !At(c, key).confirmed && At(c, key).session == Some(sid);
      assert KeyOk(c, key);
      var e := c.attempts[key];
      assert d.entries[e].phase == Tombstone;
    }
    if e :| e in c.entries && c.entries[e].session == Some(sid) && c.entries[e].phase == Ready && !c.entries[e].confirmed && d.entries[e].phase == Tombstone {
      assert EntryOk(c, e);
      var key := c.entries[e].key;
      assert key in c.attempts && Expires(c, key, now) && At(c, key) == c.entries[e];
    }
  }

  /** In every run, publishing makes a pending session under the reserved identifier; failing to closes it and returns the attempt's own error. */
  lemma FinishEffect(run: seq<Sys>, acts: seq<Action>, o: Options, j: nat)
    requires IsTrace(run, acts, o) && j < |acts| && acts[j].Finish?
    ensures var (s, t, a) := (run[j], run[j + 1], acts[j]); var (sid, e) := (a.session, s.calls[a.call].entry);
      && sid in t.sessions && t.sessions[sid].cid == s.calls[a.call].cid.value && t.sessions[sid].entry == e
      && e in s.cache.entries && e in t.cache.entries
      && (if s.cache.entries[e].phase == Building
          then t.sessions[sid].state == PendingConfirm && t.calls[a.call] == Returned(None, Answer(e, sid, a.response))
               && t.cache.entries[e].phase == Ready && t.cache.entries[e].session == Some(sid) && t.cache.entries[e].response == a.response
          else t.sessions[sid].state == Closed && s.cache.entries[e].err.Some? && t.calls[a.call] == Failing(e, s.cache.entries[e].err.value))
  {
    var (s, a) := (run[j], acts[j]);
    assert Enabled(s, a) && run[j + 1] == Step(s, a, o);
    var e := s.calls[a.call].entry;
    TraceKeeps(run, acts, o, j);
    var i := BuildSpan(run, acts, o, j, a.call, e);
    hide IsTrace, BegunBy, Late, KeysOk, LiveKeys, CidInv, Linked;
    EntryIsOk(s.cache, e);
  }
}
