/**
 A server session's own fields beside the server's cache and identifier table (closeLocked in
 handshake/server.go, the promotion inside HandleConfirm in handshake/transport.go). Each method is
 what its two critical regions do when nothing comes in between.
 */
module SessionLifecycle {
  import opened Bytes
  import opened Attempts
  import AttemptCache
  import Cids
  import opened ServerRuns

  class LiveSession {
    const server: AttemptCache.Server
    const registry: Cids.Registry
    const sid: SessionId
    const cid: Cid
    const key: AttemptKey
    var state: State
    var closedCid: bool
    var hasAttempt: bool

    constructor (server: AttemptCache.Server, registry: Cids.Registry, sid: SessionId, cid: Cid, key: AttemptKey)
      ensures this.server == server && this.registry == registry && this.sid == sid && this.cid == cid && this.key == key
      ensures state == PendingConfirm && !closedCid && hasAttempt
    {
      this.server, this.registry, this.sid, this.cid, this.key := server, registry, sid, cid, key;
      state, closedCid, hasAttempt := PendingConfirm, false, true;
    }

    /** The objects hold what the system says they hold. */
    ghost predicate Shows(s: Sys)
      reads this, server, registry
    {
      && sid in s.sessions && s.cache == server.View() && s.cids == registry.active
      && var n := s.sessions[sid];
      && n.state == state && n.cid == cid && n.closedCid == closedCid && n.hasAttempt == hasAttempt && n.key == key
    }

    /** The confirmation and the establishment, one after the other. */
    ghost predicate Confirmed(s: Sys, t: Sys, now: int)
      requires Enabled(s, Confirm(sid, now))
    {
      var u := Step(s, Confirm(sid, now), server.options);
      Enabled(u, Establish(sid)) && t == Step(u, Establish(sid), server.options)
    }

    /** The failed confirmation and both regions of closing, one after the other. */
    ghost predicate Refused(s: Sys, t: Sys, now: int)
      requires Enabled(s, Confirm(sid, now))
    {
      var u := Step(s, Confirm(sid, now), server.options);
      && Enabled(u, CloseBegin(sid, Closed, now))
      && var v := Step(u, CloseBegin(sid, Closed, now), server.options);
      && Enabled(v, CloseEnd(sid)) && t == Step(v, CloseEnd(sid), server.options)
    }

    method CloseLocked(target: State, now: int, ghost s: Sys) returns (ghost t: Sys)
      requires server.Valid() && Shows(s) && Enabled(s, CloseBegin(sid, target, now))
      modifies this, server, registry
      ensures server.Valid() && state == target && closedCid && !hasAttempt
      ensures Shows(t)
      ensures var u := Step(s, CloseBegin(sid, target, now), server.options);
        Enabled(u, CloseEnd(sid)) && t == Step(u, CloseEnd(sid), server.options)
    {
      hide CacheInv, Remove;
      state := target;
      if hasAttempt {
        var reason := StateError;
        if target == Rejected {
          reason := TranscriptMismatch;
        }
        server.RemoveAttempt(key, sid, reason, now);
        hasAttempt := false;
      }
      if !closedCid {
        registry.ReleaseCid(cid);
        closedCid := true;
      }
      t := Step(Step(s, CloseBegin(sid, target, now), server.options), CloseEnd(sid), server.options);
    }

    /** A first CONFIRM: promoted and established, or refused and closed. */
    method ConfirmLocked(now: int, ghost s: Sys) returns (ok: bool, ghost t: Sys)
      requires server.Valid() && Shows(s) && Enabled(s, Confirm(sid, now))
      modifies this, server, registry
      ensures server.Valid() && Shows(t)
      ensures ok <==> s.sessions[sid].hasAttempt && Promotable(s.cache, key, sid, now)
      ensures ok ==> state == Established
      ensures !ok ==> state == Closed && closedCid && !hasAttempt
      ensures ok ==> Confirmed(s, t, now)
      ensures !ok ==> Refused(s, t, now)
    {
      hide CacheInv, Promote, Promotable;
      ghost var u := Step(s, Confirm(sid, now), server.options);
      ok := hasAttempt;
      if ok {
        ok := server.PromoteAttempt(key, sid, now);
      }
      if !ok {
        t := CloseLocked(Closed, now, u);
        return;
      }
      state := Established;
      t := Step(u, Establish(sid), server.options);
    }
  }
}
