/**
 Runs of the server that record their actions: what happens between the two critical regions of a
 confirmation, how long an attempt can be published, confirmed and confirmed again, and how one key's
 builders follow each other.
 */
module ServerTraces {
  import opened Bytes
  import opened Attempts
  import opened ServerRuns

  ghost predicate IsTrace(run: seq<Sys>, acts: seq<Action>, o: Options) {
    && |run| == |acts| + 1 && run[0] == START
    && forall i :: 0 <= i < |acts| ==> Enabled(run[i], acts[i]) && run[i + 1] == Step(run[i], acts[i], o)
  }

  lemma TraceIsRun(run: seq<Sys>, acts: seq<Action>, o: Options)
    requires IsTrace(run, acts, o)
    ensures IsRun(run, o)
  {
    hide Step, Enabled;
    forall i | 0 < i < |run| ensures Next(run[i - 1], run[i], o) {
      assert Enabled(run[i - 1], acts[i - 1]) && run[i - 1 + 1] == Step(run[i - 1], acts[i - 1], o);
    }
  }

  lemma TraceKeeps(run: seq<Sys>, acts: seq<Action>, o: Options, i: nat)
    requires IsTrace(run, acts, o) && i < |run|
    ensures Inv(run[i], o)
  {
    hide Inv, IsRun, IsTrace;
    TraceIsRun(run, acts, o);
    RunKeeps(run, o, i);
  }

  // ---------------------------------------------------------------------------------------------
  // Between promotion and establishment
  // ---------------------------------------------------------------------------------------------

  /** Some action in the span runs a cleanup at or after the deadline. */
  ghost predicate Late(acts: seq<Action>, from: nat, to: nat, deadline: int)
    requires from <= to <= |acts|
  {
    exists k :: from <= k < to && Cleans(acts[k], deadline)
  }

  lemma LateNext(acts: seq<Action>, from: nat, to: nat, deadline: int)
    requires from <= to < |acts|
    ensures Late(acts, from, to + 1, deadline) <==> Late(acts, from, to, deadline) || Cleans(acts[to], deadline)
  {
    if Late(acts, from, to + 1, deadline) && !Cleans(acts[to], deadline) {
      var k :| from <= k < to + 1 && Cleans(acts[k], deadline);
      assert from <= k < to;
    }
  }

  /** The action promotes the session. */
  ghost predicate PromotedBy(s: Sys, a: Action, o: Options, sid: SessionId) {
    && Enabled(s, a) && a.Confirm? && a.session == sid
    && sid in Step(s, a, o).sessions && Step(s, a, o).sessions[sid].lock == Promoted
  }

  lemma PromotionEffect(s: Sys, a: Action, o: Options, sid: SessionId)
    requires Inv(s, o) && PromotedBy(s, a, o, sid)
    ensures var (t, e) := (Step(s, a, o), s.sessions[sid].entry);
      && t.sessions[sid].entry == e && e in t.cache.entries
      && t.cache.entries[e].phase == Ready && t.cache.entries[e].expiresAt == a.now + o.confirmGrace
  {
    hide Inv;
    if Owns(s.cache, s.sessions[sid].key, sid) {
      OwnsOwn(s, sid, o);
    }
  }

  /** A promoted session is touched by nothing but its own establishment. */
  lemma PromotedWaits(s: Sys, a: Action, o: Options, sid: SessionId)
    requires Enabled(s, a) && sid in s.sessions && s.sessions[sid].lock == Promoted && a != Establish(sid)
    ensures sid in Step(s, a, o).sessions && Step(s, a, o).sessions[sid] == s.sessions[sid]
  {
    hide Acquire, Fail, Cleaned, Promote, CheckGrace, Remove, Promotable, Result, Publish;
  }

  /** Only a confirmation makes a session promoted. */
  lemma PromotedSince(s: Sys, a: Action, o: Options, sid: SessionId)
    requires Enabled(s, a) && sid in Step(s, a, o).sessions && Step(s, a, o).sessions[sid].lock == Promoted
    ensures PromotedBy(s, a, o, sid) || (sid in s.sessions && s.sessions[sid].lock == Promoted && a != Establish(sid))
  {
    hide Acquire, Fail, Cleaned, Promote, CheckGrace, Remove, Promotable, Result, Publish;
  }

  /** The attempt of a promoted session is Ready with the deadline the promotion gave it, or a late cleanup has buried it. */
  ghost predicate Waits(s: Sys, sid: SessionId, deadline: int, late: bool) {
    && sid in s.sessions && s.sessions[sid].lock == Promoted && s.sessions[sid].entry in s.cache.entries
    && var entry := s.cache.entries[s.sessions[sid].entry];
    && (late ==> entry.phase == Tombstone)
    && (!late ==> entry.phase == Ready && entry.expiresAt == deadline)
  }

  lemma WaitsOn(s: Sys, a: Action, o: Options, sid: SessionId, deadline: int, late: bool)
    requires Inv(s, o) && Enabled(s, a) && Waits(s, sid, deadline, late) && a != Establish(sid)
    ensures Waits(Step(s, a, o), sid, deadline, late || Cleans(a, deadline))
  {
    hide Inv, Step, Enabled, EntriesKept;
    PromotedWaits(s, a, o, sid);
    StepSettles(s, a, o);
    KeptEntry(s.cache, Step(s, a, o).cache, s.sessions[sid].entry);
    if !late {
      PromotedHasAttempt(s, sid, o);
      ReadyIsOwn(s, sid, o);
      PromotedIsLocked(s, a, sid);
      DiesByCleanup(s, a, o, sid);
    }
  }

  lemma PromotedIsLocked(s: Sys, a: Action, sid: SessionId)
    requires Enabled(s, a) && sid in s.sessions && s.sessions[sid].lock == Promoted
    ensures Actor(a) != Some(sid)
  {
  }

  lemma PromotedHasAttempt(s: Sys, sid: SessionId, o: Options)
    requires Inv(s, o) && sid in s.sessions && s.sessions[sid].lock == Promoted
    ensures s.sessions[sid].hasAttempt && s.sessions[sid].state == PendingConfirm
  {
    hide CacheInv, CidInv, Linked;
    LinkedSession(s, sid);
  }

  lemma {:induction false} WaitingSpan(run: seq<Sys>, acts: seq<Action>, o: Options, i: nat, j: nat, sid: SessionId)
    requires IsTrace(run, acts, o) && i < j <= |acts| && PromotedBy(run[i], acts[i], o, sid)
    requires forall k :: i < k < j ==> acts[k] != Establish(sid)
    ensures var deadline := acts[i].now + o.confirmGrace; Waits(run[j], sid, deadline, Late(acts, i + 1, j, deadline))
  {
    hide Inv, Step, Enabled, Late;
    var deadline := acts[i].now + o.confirmGrace;
    TraceKeeps(run, acts, o, j - 1);
    if j == i + 1 {
      PromotionEffect(run[i], acts[i], o, sid);
      NotLateYet(acts, j, deadline);
    } else {
      WaitingSpan(run, acts, o, i, j - 1, sid);
      WaitsOn(run[j - 1], acts[j - 1], o, sid, deadline, Late(acts, i + 1, j - 1, deadline));
      LateNext(acts, i + 1, j - 1, deadline);
    }
  }

  lemma NotLateYet(acts: seq<Action>, from: nat, deadline: int)
    requires from <= |acts|
    ensures !Late(acts, from, from, deadline)
  {
  }

  /** A session about to be established was promoted at one earlier step and has waited since. */
  lemma {:induction false} PromotedBefore(run: seq<Sys>, acts: seq<Action>, o: Options, j: nat, sid: SessionId) returns (i: nat)
    requires IsTrace(run, acts, o) && j < |run| && sid in run[j].sessions && run[j].sessions[sid].lock == Promoted
    ensures i < j && PromotedBy(run[i], acts[i], o, sid)
    ensures forall k :: i < k < j ==> acts[k] != Establish(sid)
  {
    hide Step, Enabled;
    if j == 0 {
      assert false;
    } else {
      assert Enabled(run[j - 1], acts[j - 1]) && run[j - 1 + 1] == Step(run[j - 1], acts[j - 1], o);
      PromotedSince(run[j - 1], acts[j - 1], o, sid);
      if PromotedBy(run[j - 1], acts[j - 1], o, sid) {
        i := j - 1;
      } else {
        i := PromotedBefore(run, acts, o, j - 1, sid);
      }
    }
  }

  /**
   Established comes after the tombstone exactly when, since the promotion at step i, some cleanup ran
   at or after the promotion's time plus the grace period; otherwise the attempt is still published.
   */
  lemma TrailsExactly(run: seq<Sys>, acts: seq<Action>, o: Options, j: nat, sid: SessionId) returns (i: nat)
    requires IsTrace(run, acts, o) && j < |acts| && acts[j] == Establish(sid)
    ensures i < j && PromotedBy(run[i], acts[i], o, sid)
    ensures var (s, t) := (run[j], run[j + 1]);
      && sid in s.sessions && sid in t.sessions && s.sessions[sid].state == PendingConfirm && t.sessions[sid].state == Established
      && t.cache == s.cache && t.sessions[sid].entry == s.sessions[sid].entry && s.sessions[sid].entry in s.cache.entries
      && var entry := s.cache.entries[s.sessions[sid].entry];
      && (entry.phase == Tombstone <==> Late(acts, i + 1, j, acts[i].now + o.confirmGrace))
      && (entry.phase != Tombstone ==> entry.phase == Ready && entry.confirmed)
  {
    hide Inv, Late;
    assert Enabled(run[j], acts[j]) && run[j + 1] == Step(run[j], acts[j], o);
    i := PromotedBefore(run, acts, o, j, sid);
    hide Step, Enabled;
    WaitingSpan(run, acts, o, i, j, sid);
    TraceKeeps(run, acts, o, j);
    PromotedHasAttempt(run[j], sid, o);
    ReadyIsConfirmed(run[j], sid, o);
    EstablishEffect(run[j], sid, o);
  }

  lemma EstablishEffect(s: Sys, sid: SessionId, o: Options)
    requires Enabled(s, Establish(sid))
    ensures var t := Step(s, Establish(sid), o); t.cache == s.cache && sid in t.sessions && t.sessions[sid] == s.sessions[sid].(state := Established, lock := Free)
  {
  }

  lemma ReadyIsConfirmed(s: Sys, sid: SessionId, o: Options)
    requires Inv(s, o) && sid in s.sessions && s.sessions[sid].lock == Promoted && s.sessions[sid].entry in s.cache.entries
    ensures var entry := s.cache.entries[s.sessions[sid].entry]; entry.phase == Ready ==> entry.confirmed
  {
    hide CacheInv, CidInv, Linked;
    LinkedSession(s, sid);
    LinkedEntry(s, s.sessions[sid].entry);
  }

  lemma NothingToClean(o: Options)
    ensures Cleaned(EMPTY, 0, o) == EMPTY
  {
    var d := Cleaned(EMPTY, 0, o);
    assert d.attempts == map[] && d.entries == map[];
    assert (set key | key in EMPTY.attempts.Keys && Expires(EMPTY, key, 0)) == {};
  }

  const SHORT_GRACE: Options := Options(10, 1, 10, 4, 4)

  /** One run of HandleInitial and HandleConfirm, with a cleanup between promotion and establishment. */
  const TRAILING: seq<Action> :=
    [Arrive(0, [1], [2], 0, 0), Reserve(0, 7), Finish(0, 0, [3], 0), Confirm(0, 0), Clean(1), Establish(0)]

  lemma Extend(run: seq<Sys>, acts: seq<Action>, a: Action, o: Options) returns (longer: seq<Sys>)
    requires IsTrace(run, acts, o) && Enabled(run[|acts|], a)
    ensures longer == run + [Step(run[|acts|], a, o)] && IsTrace(longer, acts + [a], o)
  {
    hide Step, Enabled;
    longer := run + [Step(run[|acts|], a, o)];
  }

  lemma TrailingPrefixes()
    ensures TRAILING[..3] == [] + [Arrive(0, [1], [2], 0, 0)] + [Reserve(0, 7)] + [Finish(0, 0, [3], 0)]
    ensures TRAILING == TRAILING[..3] + [Confirm(0, 0)] + [Clean(1)] + [Establish(0)]
  {
  }

  /** A first attempt, under construction. */
  lemma ArrivedTrace() returns (run: seq<Sys>)
    ensures IsTrace(run, [] + [Arrive(0, [1], [2], 0, 0)], SHORT_GRACE) && |run| == 2
    ensures run[1] == Sys(Cache(map[[1] := 0], map[0 := NewEntry([1], [2], 0, SHORT_GRACE)], 1), {}, map[],
                          map[0 := Working(0, None)], map[0 := 0], map[])
  {
    var o := SHORT_GRACE;
    NothingToClean(o);
    run := StartTrace(o);
    hide Cleaned, IsTrace;
    run := Extend(run, [], Arrive(0, [1], [2], 0, 0), o);
  }

  /** The same, published at time zero. */
  lemma PublishedTrace() returns (run: seq<Sys>)
    ensures IsTrace(run, TRAILING[..3], SHORT_GRACE) && |run| == 4
    ensures run[3].sessions == map[0 := Session(PendingConfirm, 7, false, true, [1], Free, 0, 0)]
    ensures Promotable(run[3].cache, [1], 0, 0)
  {
    var o := SHORT_GRACE;
    run := ArrivedTrace();
    hide IsTrace, Cleaned, Acquire;
    var (a, b, c) := (Arrive(0, [1], [2], 0, 0), Reserve(0, 7), Finish(0, 0, [3], 0));
    run := Extend(run, [] + [a], b, o);
    run := Extend(run, [] + [a] + [b], c, o);
    TrailingPrefixes();
  }

  lemma StartTrace(o: Options) returns (run: seq<Sys>)
    ensures run == [START] && IsTrace(run, [], o)
  {
    run := [START];
  }

  /** The two critical regions of a confirmation can be separated by such a cleanup: an instance of the condition above. */
  lemma EstablishMayTrail() returns (run: seq<Sys>)
    ensures IsTrace(run, TRAILING, SHORT_GRACE) && Late(TRAILING, 4, 5, 0 + SHORT_GRACE.confirmGrace)
    ensures 0 in run[6].sessions && run[6].sessions[0].state == Established && run[6].sessions[0].entry in run[6].cache.entries
    ensures run[6].cache.entries[run[6].sessions[0].entry].phase == Tombstone
  {
    var (o, acts) := (SHORT_GRACE, TRAILING);
    run := PublishedTrace();
    hide IsTrace, Cleaned, Promotable;
    TrailingPrefixes();
    run := Extend(run, acts[..3], Confirm(0, 0), o);
    run := Extend(run, acts[..3] + [Confirm(0, 0)], Clean(1), o);
    run := Extend(run, acts[..3] + [Confirm(0, 0)] + [Clean(1)], Establish(0), o);
    hide Step, Enabled;
    assert Cleans(acts[4], 1);
    var i := TrailsExactly(run, acts, o, 5, 0);
    assert i == 3 && acts[i].now == 0 && acts[4] == Clean(1);
  }

  // ---------------------------------------------------------------------------------------------
  // Lifetimes
  // ---------------------------------------------------------------------------------------------

  /** The action publishes an attempt for the session. */
  ghost predicate PublishedBy(s: Sys, a: Action, sid: SessionId) {
    Enabled(s, a) && a.Finish? && a.session == sid && Publishable(s.cache, s.calls[a.call].entry)
  }

  /** Published, not confirmed yet, and nobody in the middle of it. */
  ghost predicate Unconfirmed(s: Sys, sid: SessionId) {
    sid in s.sessions && s.sessions[sid].state == PendingConfirm && s.sessions[sid].lock == Free
  }

  lemma UnconfirmedSince(s: Sys, a: Action, o: Options, sid: SessionId)
    requires Inv(s, o) && Enabled(s, a) && Unconfirmed(Step(s, a, o), sid)
    ensures PublishedBy(s, a, sid) || (Unconfirmed(s, sid) && Actor(a) != Some(sid) && Step(s, a, o).sessions[sid] == s.sessions[sid])
  {
    hide CacheInv, CidInv, Linked, Acquire, Fail, Cleaned, Promote, CheckGrace, Remove, Promotable, Result;
    if a.CloseEnd? {
      LinkedSession(s, a.session);
    }
  }

  /** The session's attempt is Ready with this expiry, or a late cleanup has buried it. */
  ghost predicate Holding(s: Sys, sid: SessionId, deadline: int, late: bool) {
    && sid in s.sessions && s.sessions[sid].entry in s.cache.entries
    && var entry := s.cache.entries[s.sessions[sid].entry];
    && (late ==> entry.phase == Tombstone)
    && (!late ==> entry.phase == Ready && entry.expiresAt == deadline)
  }

  lemma PublicationEffect(s: Sys, a: Action, o: Options, sid: SessionId)
    requires PublishedBy(s, a, sid)
    ensures Holding(Step(s, a, o), sid, a.now + o.pendingTimeout, false)
  {
  }

  /** A step that is not the session's own. */
  lemma HoldsOn(s: Sys, a: Action, o: Options, sid: SessionId, deadline: int, late: bool)
    requires Inv(s, o) && Enabled(s, a) && Holding(s, sid, deadline, late) && Actor(a) != Some(sid)
    requires s.sessions[sid].hasAttempt && sid in Step(s, a, o).sessions && Step(s, a, o).sessions[sid].entry == s.sessions[sid].entry
    ensures Holding(Step(s, a, o), sid, deadline, late || Cleans(a, deadline))
  {
    hide Inv, Step, Enabled, EntriesKept;
    StepSettles(s, a, o);
    KeptEntry(s.cache, Step(s, a, o).cache, s.sessions[sid].entry);
    if !late {
      ReadyIsOwn(s, sid, o);
      DiesByCleanup(s, a, o, sid);
    }
  }

  lemma OpenHasAttempt(s: Sys, sid: SessionId, o: Options)
    requires Inv(s, o) && sid in s.sessions && (s.sessions[sid].state == PendingConfirm || s.sessions[sid].state == Established)
    ensures s.sessions[sid].hasAttempt
  {
    hide CacheInv, CidInv, Linked;
    LinkedSession(s, sid);
  }

  lemma {:induction false} PendingSpan(run: seq<Sys>, acts: seq<Action>, o: Options, j: nat, sid: SessionId) returns (i: nat)
    requires IsTrace(run, acts, o) && j < |run| && Unconfirmed(run[j], sid)
    ensures i < j && PublishedBy(run[i], acts[i], sid)
    ensures var deadline := acts[i].now + o.pendingTimeout; Holding(run[j], sid, deadline, Late(acts, i + 1, j, deadline))
  {
    hide Inv, Step, Enabled, Late, PublishedBy, Holding;
    if j == 0 {
      assert false;
    } else {
      var (s, a) := (run[j - 1], acts[j - 1]);
      assert Enabled(s, a) && run[j - 1 + 1] == Step(s, a, o);
      TraceKeeps(run, acts, o, j - 1);
      UnconfirmedSince(s, a, o, sid);
      if PublishedBy(s, a, sid) {
        i := j - 1;
        PublicationEffect(s, a, o, sid);
        PublishesAt(s, a, sid);
        NotLateYet(acts, j, a.now + o.pendingTimeout);
      } else {
        i := PendingSpan(run, acts, o, j - 1, sid);
        PublishesAt(run[i], acts[i], sid);
        var deadline := acts[i].now + o.pendingTimeout;
        OpenHasAttempt(s, sid, o);
        HoldsOn(s, a, o, sid, deadline, Late(acts, i + 1, j - 1, deadline));
        LateNext(acts, i + 1, j - 1, deadline);
      }
    }
  }

  lemma PublishesAt(s: Sys, a: Action, sid: SessionId)
    requires PublishedBy(s, a, sid)
    ensures a.Finish?
  {
  }

  /**
   A published attempt can be confirmed for exactly the pending timeout: a confirmation promotes if and
   only if it comes before the publication's time plus the timeout and no cleanup in between came at or after that.
   */
  lemma PromotesExactly(run: seq<Sys>, acts: seq<Action>, o: Options, j: nat, sid: SessionId) returns (i: nat)
    requires IsTrace(run, acts, o) && j < |acts| && acts[j].Confirm? && acts[j].session == sid
    ensures i < j && PublishedBy(run[i], acts[i], sid)
    ensures var deadline := acts[i].now + o.pendingTimeout;
      PromotedBy(run[j], acts[j], o, sid) <==> acts[j].now < deadline && !Late(acts, i + 1, j, deadline)
  {
    hide Inv, Late, PublishedBy;
    assert Enabled(run[j], acts[j]) && run[j + 1] == Step(run[j], acts[j], o);
    i := PendingSpan(run, acts, o, j, sid);
    PublishesAt(run[i], acts[i], sid);
    TraceIsRun(run, acts, o);
    hide IsTrace, IsRun, PromotedBy;
    ConfirmsExactly(run, o, j, sid, acts[j].now);
    ConfirmPromotes(run[j], acts[j], o, sid);
  }

  lemma ConfirmPromotes(s: Sys, a: Action, o: Options, sid: SessionId)
    requires Enabled(s, a) && a.Confirm? && a.session == sid
    ensures PromotedBy(s, a, o, sid) <==> sid in Step(s, a, o).sessions && Step(s, a, o).sessions[sid].lock == Promoted
  {
  }

  /** The call is at work on an attempt. */
  ghost predicate WorksOn(s: Sys, call: CallId, e: EntryId) {
    call in s.calls && s.calls[call].Working? && s.calls[call].entry == e
  }

  /** The action is the call's arrival and makes it the attempt's builder. */
  ghost predicate BegunBy(s: Sys, a: Action, o: Options, call: CallId, e: EntryId) {
    Enabled(s, a) && a.Arrive? && a.call == call && WorksOn(Step(s, a, o), call, e)
  }

  lemma WorkingSince(s: Sys, a: Action, o: Options, call: CallId, e: EntryId)
    requires Enabled(s, a) && WorksOn(Step(s, a, o), call, e)
    ensures BegunBy(s, a, o, call, e) || (WorksOn(s, call, e) && !(a.Finish? && a.call == call) && !(a.Arrive? && a.call == call))
  {
    hide Acquire, Fail, Cleaned, Promote, CheckGrace, Remove, Promotable, Result, Publish;
  }

  /** The attempt is under construction with this expiry, or a late cleanup has buried it. */
  ghost predicate Underway(c: Cache, e: EntryId, deadline: int, late: bool) {
    && e in c.entries
    && (late ==> c.entries[e].phase == Tombstone)
    && (!late ==> c.entries[e].phase == Building && c.entries[e].expiresAt == deadline)
  }

  lemma BeginningEffect(s: Sys, a: Action, o: Options, call: CallId, e: EntryId)
    requires BegunBy(s, a, o, call, e)
    ensures Underway(Step(s, a, o).cache, e, a.now + o.pendingTimeout, false)
  {
    hide Cleaned;
  }

  /** No other call works on the attempt. */
  lemma OnlyWorker(s: Sys, o: Options, call: CallId, other: CallId, e: EntryId)
    requires Inv(s, o) && WorksOn(s, call, e) && other in s.calls && s.calls[other].Builds(e)
    ensures other == call
  {
    hide CacheInv, CidInv, Linked;
    LinkedCall(s, call);
    LinkedCall(s, other);
  }

  lemma BuildingEntry(s: Sys, o: Options, e: EntryId)
    requires Inv(s, o) && e in s.cache.entries && s.cache.entries[e].phase == Building
    ensures Publishable(s.cache, e) && s.cache.entries[e].session.None?
  {
    hide KeysOk, LiveKeys, CidInv, Linked;
    assert EntryOk(s.cache, e);
  }

  /** Calls that do not build the attempt leave it alone. */
  lemma OtherCallsKeep(s: Sys, a: Action, o: Options, e: EntryId)
    requires Enabled(s, a) && !a.Clean? && !a.Arrive? && Actor(a).None? && e in s.cache.entries
    requires (a.Finish? || a.GiveUp?) ==> !s.calls[a.call].Builds(e)
    ensures e in Step(s, a, o).cache.entries && Step(s, a, o).cache.entries[e] == s.cache.entries[e]
  {
    hide Cleaned, Promote, CheckGrace, Remove, Promotable, Acquire, Result;
  }

  lemma UnderwayOn(s: Sys, a: Action, o: Options, call: CallId, e: EntryId, deadline: int, late: bool)
    requires Inv(s, o) && Enabled(s, a) && WorksOn(s, call, e) && !(a.Finish? && a.call == call) && Underway(s.cache, e, deadline, late)
    ensures Underway(Step(s, a, o).cache, e, deadline, late || Cleans(a, deadline))
  {
    hide Inv, Step, EntriesKept;
    StepSettles(s, a, o);
    KeptEntry(s.cache, Step(s, a, o).cache, e);
    if !late {
      BuildingEntry(s, o, e);
      if a.Clean? || a.Arrive? {
        CleaningBuild(s, a, o, e);
      } else if Actor(a).Some? {
        OthersKeepEntry(s, a, o, e);
      } else {
        if (a.Finish? || a.GiveUp?) && s.calls[a.call].Builds(e) {
          OnlyWorker(s, o, call, a.call, e);
        }
        OtherCallsKeep(s, a, o, e);
      }
    }
  }

  lemma CleaningBuild(s: Sys, a: Action, o: Options, e: EntryId)
    requires Inv(s, o) && Enabled(s, a) && (a.Clean? || a.Arrive?) && Publishable(s.cache, e)
    ensures var d := Step(s, a, o).cache;
      e in d.entries && (if a.now >= s.cache.entries[e].expiresAt then d.entries[e].phase == Tombstone else d.entries[e] == s.cache.entries[e])
  {
    hide CacheInv, CidInv, Linked, Step, Enabled;
    CleaningLive(s, a, o, s.cache.entries[e].key);
  }

  lemma {:induction false} BuildSpan(run: seq<Sys>, acts: seq<Action>, o: Options, j: nat, call: CallId, e: EntryId) returns (i: nat)
    requires IsTrace(run, acts, o) && j < |run| && WorksOn(run[j], call, e)
    ensures i < j && BegunBy(run[i], acts[i], o, call, e)
    ensures var deadline := acts[i].now + o.pendingTimeout; Underway(run[j].cache, e, deadline, Late(acts, i + 1, j, deadline))
  {
    hide Inv, Step, Enabled, Late, Underway, WorksOn;
    if j == 0 {
      NobodyWorks(call, e);
      assert false;
    } else {
      var (s, a) := (run[j - 1], acts[j - 1]);
      assert Enabled(s, a) && run[j - 1 + 1] == Step(s, a, o);
      WorkingSince(s, a, o, call, e);
      TraceKeeps(run, acts, o, j - 1);
      if BegunBy(s, a, o, call, e) {
        i := j - 1;
        BeginningEffect(s, a, o, call, e);
        NotLateYet(acts, j, a.now + o.pendingTimeout);
      } else {
        i := BuildSpan(run, acts, o, j - 1, call, e);
        var deadline := acts[i].now + o.pendingTimeout;
        UnderwayOn(s, a, o, call, e, deadline, Late(acts, i + 1, j - 1, deadline));
        LateNext(acts, i + 1, j - 1, deadline);
      }
    }
  }

  lemma NobodyWorks(call: CallId, e: EntryId)
    ensures !WorksOn(START, call, e)
  {
  }

  /**
   An attempt may be under construction for the pending timeout and longer, until somebody looks: its builder
   can publish it if and only if no cleanup since its arrival came at or after the arrival's time plus the timeout.
   */
  lemma PublishesExactly(run: seq<Sys>, acts: seq<Action>, o: Options, j: nat, sid: SessionId) returns (i: nat)
    requires IsTrace(run, acts, o) && j < |acts| && acts[j].Finish? && acts[j].session == sid
    ensures acts[j].call in run[j].calls && run[j].calls[acts[j].call].Working?
    ensures i < j && BegunBy(run[i], acts[i], o, acts[j].call, run[j].calls[acts[j].call].entry)
    ensures var deadline := acts[i].now + o.pendingTimeout;
      PublishedBy(run[j], acts[j], sid) <==> !Late(acts, i + 1, j, deadline)
  {
    hide Inv, Late, Step;
    assert Enabled(run[j], acts[j]) && run[j + 1] == Step(run[j], acts[j], o);
    var e := run[j].calls[acts[j].call].entry;
    i := BuildSpan(run, acts, o, j, acts[j].call, e);
    TraceKeeps(run, acts, o, j);
    hide IsTrace, BegunBy;
    if run[j].cache.entries[e].phase == Building {
      BuildingEntry(run[j], o, e);
    }
  }

  /** A cleanup, or a retry of the session's own, at or after the deadline. */
  ghost predicate Lapses(a: Action, sid: SessionId, deadline: int) {
    Cleans(a, deadline) || (a.Retry? && a.session == sid && a.now >= deadline)
  }

  ghost predicate Lapsed(acts: seq<Action>, from: nat, to: nat, sid: SessionId, deadline: int)
    requires from <= to <= |acts|
  {
    exists k :: from <= k < to && Lapses(acts[k], sid, deadline)
  }

  lemma LapsedNext(acts: seq<Action>, from: nat, to: nat, sid: SessionId, deadline: int)
    requires from <= to < |acts|
    ensures !Lapsed(acts, from, from, sid, deadline)
    ensures Lapsed(acts, from, to + 1, sid, deadline) <==> Lapsed(acts, from, to, sid, deadline) || Lapses(acts[to], sid, deadline)
  {
    if Lapsed(acts, from, to + 1, sid, deadline) && !Lapses(acts[to], sid, deadline) {
      var k :| from <= k < to + 1 && Lapses(acts[k], sid, deadline);
      assert from <= k < to;
    }
  }

  lemma NotLapsedYet(acts: seq<Action>, from: nat, sid: SessionId, deadline: int)
    requires from <= |acts|
    ensures !Lapsed(acts, from, from, sid, deadline)
  {
  }

  /** Promoted, and not closed since. */
  ghost predicate Serving(s: Sys, sid: SessionId) {
    sid in s.sessions && (s.sessions[sid].lock == Promoted || s.sessions[sid].state == Established)
  }

  lemma ServingSince(s: Sys, a: Action, o: Options, sid: SessionId)
    requires Enabled(s, a) && Serving(Step(s, a, o), sid)
    ensures PromotedBy(s, a, o, sid) ||
      (Serving(s, sid) && (Actor(a) != Some(sid) || a.Retry?) && Step(s, a, o).sessions[sid].entry == s.sessions[sid].entry)
  {
    hide Acquire, Fail, Cleaned, Promote, CheckGrace, Remove, Promotable, Result, Publish;
  }

  /** The session's own retry buries an attempt whose grace is over, and leaves one alone whose grace is not. */
  lemma RetryHolds(s: Sys, a: Action, o: Options, sid: SessionId, deadline: int, late: bool)
    requires Inv(s, o) && Enabled(s, a) && a.Retry? && a.session == sid && Holding(s, sid, deadline, late)
    ensures Holding(Step(s, a, o), sid, deadline, late || a.now >= deadline)
  {
    OpenHasAttempt(s, sid, o);
    ReadyIsOwn(s, sid, o);
    EstablishedIsConfirmed(s, sid, o);
    hide Inv;
    if Owns(s.cache, s.sessions[sid].key, sid) {
      OwnsOwn(s, sid, o);
    }
  }

  lemma EstablishedIsConfirmed(s: Sys, sid: SessionId, o: Options)
    requires Inv(s, o) && sid in s.sessions && s.sessions[sid].state == Established && s.sessions[sid].entry in s.cache.entries
    ensures var entry := s.cache.entries[s.sessions[sid].entry]; entry.phase == Ready ==> entry.confirmed
  {
    hide CacheInv, CidInv, Linked;
    LinkedSession(s, sid);
    LinkedEntry(s, s.sessions[sid].entry);
  }

  lemma {:induction false} GraceSpan(run: seq<Sys>, acts: seq<Action>, o: Options, j: nat, sid: SessionId) returns (i: nat)
    requires IsTrace(run, acts, o) && j < |run| && Serving(run[j], sid)
    ensures i < j && PromotedBy(run[i], acts[i], o, sid)
    ensures var deadline := acts[i].now + o.confirmGrace; Holding(run[j], sid, deadline, Lapsed(acts, i + 1, j, sid, deadline))
  {
    hide Inv, Step, Enabled, Lapsed;
    if j == 0 {
      assert false;
    } else {
      var (s, a) := (run[j - 1], acts[j - 1]);
      assert Enabled(s, a) && run[j - 1 + 1] == Step(s, a, o);
      ServingSince(s, a, o, sid);
      TraceKeeps(run, acts, o, j - 1);
      if PromotedBy(s, a, o, sid) {
        i := j - 1;
        PromotionEffect(s, a, o, sid);
        NotLapsedYet(acts, j, sid, a.now + o.confirmGrace);
      } else {
        i := GraceSpan(run, acts, o, j - 1, sid);
        var deadline := acts[i].now + o.confirmGrace;
        ServingHasAttempt(s, sid, o);
        if a.Retry? && a.session == sid {
          RetryHolds(s, a, o, sid, deadline, Lapsed(acts, i + 1, j - 1, sid, deadline));
        } else {
          HoldsOn(s, a, o, sid, deadline, Lapsed(acts, i + 1, j - 1, sid, deadline));
        }
        LapsedNext(acts, i + 1, j - 1, sid, deadline);
      }
    }
  }

  lemma ServingHasAttempt(s: Sys, sid: SessionId, o: Options)
    requires Inv(s, o) && Serving(s, sid)
    ensures s.sessions[sid].hasAttempt
  {
    hide CacheInv, CidInv, Linked;
    LinkedSession(s, sid);
  }

  /**
   Retries are answered for exactly the grace period: a retry is answered if and only if it comes before
   the promotion's time plus the grace and neither a cleanup nor a retry in between came at or after that.
   */
  lemma AnswersRetriesExactly(run: seq<Sys>, acts: seq<Action>, o: Options, j: nat, sid: SessionId) returns (i: nat)
    requires IsTrace(run, acts, o) && j < |acts| && acts[j].Retry? && acts[j].session == sid
    ensures i < j && PromotedBy(run[i], acts[i], o, sid)
    ensures var (deadline, n) := (acts[i].now + o.confirmGrace, run[j].sessions[sid]);
      && n.hasAttempt
      && (GraceActive(run[j].cache, n.key, sid, acts[j].now) <==> acts[j].now < deadline && !Lapsed(acts, i + 1, j, sid, deadline))
  {
    hide Inv, Lapsed;
    assert Enabled(run[j], acts[j]) && run[j + 1] == Step(run[j], acts[j], o);
    i := GraceSpan(run, acts, o, j, sid);
    TraceKeeps(run, acts, o, j);
    OpenHasAttempt(run[j], sid, o);
    ReadyIsOwn(run[j], sid, o);
    EstablishedIsConfirmed(run[j], sid, o);
    hide IsTrace, PromotedBy, Step;
    if Owns(run[j].cache, run[j].sessions[sid].key, sid) {
      OwnsOwn(run[j], sid, o);
    }
  }

  // ---------------------------------------------------------------------------------------------
  // One builder after the other
  // ---------------------------------------------------------------------------------------------

  /** The action takes an attempt out of the map: its own builder fails it, or a cleanup forgets its tombstone. */
  ghost predicate Retires(s: Sys, a: Action, o: Options, e: EntryId) {
    && Enabled(s, a) && e in s.cache.entries && e in Step(s, a, o).cache.entries
    && ((a.GiveUp? && s.calls[a.call].Builds(e) && Step(s, a, o).cache.entries[e].phase == Failed)
        || (s.cache.entries[e].phase == Tombstone && Cleans(a, s.cache.entries[e].forgetAt)))
  }

  lemma CleanedCurrent(c: Cache, now: int, o: Options, e: EntryId)
    requires CacheInv(c, o) && Current(c, e)
    ensures e in Cleaned(c, now, o).entries && Cleaned(c, now, o).entries[e].key == c.entries[e].key
    ensures Current(Cleaned(c, now, o), e) || (c.entries[e].phase == Tombstone && now >= c.entries[e].forgetAt)
  {
    hide EntriesOk, LiveKeys;
    assert KeyOk(c, c.entries[e].key);
  }

  lemma AcquiredCurrent(c: Cache, key: AttemptKey, initial: bytes, f: EntryId, now: int, o: Options, e: EntryId)
    requires CacheInv(c, o) && Current(c, e) && f !in c.entries
    ensures Current(Acquire(c, key, initial, f, now, o).0, e) || (c.entries[e].phase == Tombstone && now >= c.entries[e].forgetAt)
  {
    hide CacheInv, Cleaned;
    CleanedCurrent(c, now, o, e);
    CleanupKeeps(c, now, o);
  }

  /** Only arrivals, cleanups and failures change the map. */
  lemma MapUntouched(s: Sys, a: Action, o: Options)
    requires Enabled(s, a) && !a.Arrive? && !a.Clean? && !a.GiveUp?
    ensures Step(s, a, o).cache.attempts == s.cache.attempts
  {
    hide Cleaned, Acquire, Result;
  }

  lemma FailedCurrent(s: Sys, a: Action, o: Options, e: EntryId)
    requires Enabled(s, a) && a.GiveUp? && Current(s.cache, e)
    ensures Current(Step(s, a, o).cache, e) || Retires(s, a, o, e)
  {
  }

  lemma CleaningCurrent(s: Sys, a: Action, o: Options, e: EntryId)
    requires Inv(s, o) && Enabled(s, a) && (a.Arrive? || a.Clean?) && Current(s.cache, e)
    ensures Current(Step(s, a, o).cache, e) || (s.cache.entries[e].phase == Tombstone && Cleans(a, s.cache.entries[e].forgetAt))
  {
    hide CacheInv, CidInv, Linked, Cleaned, Acquire, Current, Result;
    match a {
      case Arrive(_, key, initial, f, now) => AcquiredCurrent(s.cache, key, initial, f, now, o, e);
      case Clean(now) => CleanedCurrent(s.cache, now, o, e);
    }
  }

  /** An attempt leaves the map in no other way. */
  lemma StaysCurrent(s: Sys, a: Action, o: Options, e: EntryId)
    requires Inv(s, o) && Enabled(s, a) && Current(s.cache, e)
    ensures Current(Step(s, a, o).cache, e) || Retires(s, a, o, e)
  {
    hide Inv, Step, Enabled, EntriesKept;
    StepSettles(s, a, o);
    KeptEntry(s.cache, Step(s, a, o).cache, e);
    if a.Arrive? || a.Clean? {
      CleaningCurrent(s, a, o, e);
    } else if a.GiveUp? {
      FailedCurrent(s, a, o, e);
    } else {
      MapUntouched(s, a, o);
    }
  }

  lemma {:induction false} RetiredAt(run: seq<Sys>, acts: seq<Action>, o: Options, i: nat, j: nat, e: EntryId) returns (k: nat)
    requires IsTrace(run, acts, o) && i <= j < |run| && Current(run[i].cache, e) && !Current(run[j].cache, e)
    ensures i <= k < j && Current(run[k].cache, e) && Retires(run[k], acts[k], o, e)
  {
    hide Inv, Step, Enabled, Current, Retires;
    if i == j {
      assert false;
    } else if Current(run[j - 1].cache, e) {
      k := j - 1;
      TraceKeeps(run, acts, o, k);
      assert Enabled(run[k], acts[k]) && run[k + 1] == Step(run[k], acts[k], o);
      StaysCurrent(run[k], acts[k], o, e);
    } else {
      k := RetiredAt(run, acts, o, i, j - 1, e);
    }
  }

  /**
   Single flight over time: if a second call comes to build an attempt under a key, the first attempt
   had failed or its tombstone had been forgotten in between.
   */
  lemma BuildersInTurn(
    run: seq<Sys>, acts: seq<Action>, o: Options, i: nat, j: nat, a: CallId, b: CallId, e: EntryId, f: EntryId) returns (k: nat)
    requires IsTrace(run, acts, o) && i <= j < |run| && a in run[i].calls && b in run[j].calls && a != b
    requires run[i].calls[a].Builds(e) && run[j].calls[b].Builds(f) && Current(run[i].cache, e) && Current(run[j].cache, f)
    requires run[i].cache.entries[e].key == run[j].cache.entries[f].key
    ensures e != f && i <= k < j && Current(run[k].cache, e) && Retires(run[k], acts[k], o, e)
  {
    TraceIsRun(run, acts, o);
    RunKeeps(run, o, i);
    RunKeeps(run, o, j);
    RunSettles(run, o, i, j);
    hide IsTrace, IsRun, CacheInv, CidInv, Linked, Retires;
    LinkedCall(run[i], a);
    LinkedCall(run[j], b);
    KeptEntry(run[i].cache, run[j].cache, e);
    k := RetiredAt(run, acts, o, i, j, e);
  }
}
