/**
 The attempt cache as an object: the maps, the entry table and the counter updated in place, with
 cleanup as a loop over the map in an arbitrary order.
 */
module AttemptCache {
  import opened Bytes
  import opened Attempts

  /** One more key visited. */
  lemma VisitOne(c: Cache, keys: set<AttemptKey>, key: AttemptKey, now: int, o: Options)
    requires KeysOk(c) && key in c.attempts && key !in keys && keys <= c.attempts.Keys
    ensures var (d, n) := (CleanedKeys(c, keys, now, o), CleanedKeys(c, keys + {key}, now, o));
      && key in d.attempts && d.attempts[key] == c.attempts[key] && d.attempts[key] in d.entries
      && d.entries[d.attempts[key]] == At(c, key)
      && n == if Expires(c, key, now) then Bury(d, d.attempts[key], AttemptExpired, now, o)
              else if Forgets(c, key, now) then d.(attempts := d.attempts - {key})
              else d
  {
    var (d, n) := (CleanedKeys(c, keys, now, o), CleanedKeys(c, keys + {key}, now, o));
    assert KeyOk(c, key);
    var e := c.attempts[key];
    forall f | f in c.entries && f != e ensures d.entries[f] == n.entries[f] {
    }
    VisitCounts(c, keys, key, now);
    if Expires(c, key, now) {
      assert n.entries == d.entries[e := Buried(d.entries[e], AttemptExpired, now, o)];
      assert n.attempts == d.attempts;
    } else {
      assert n.entries == d.entries;
      if Forgets(c, key, now) {
        assert n.attempts == d.attempts - {key};
      } else {
        assert n.attempts == d.attempts;
      }
    }
  }

  lemma VisitCounts(c: Cache, keys: set<AttemptKey>, key: AttemptKey, now: int)
    requires key !in keys
    ensures |set k | k in keys + {key} && Expires(c, k, now)| ==
      |set k | k in keys && Expires(c, k, now)| + if Expires(c, key, now) then 1 else 0
  {
    var (a, b) := (set k | k in keys && Expires(c, k, now), set k | k in keys + {key} && Expires(c, k, now));
    assert b == a + if Expires(c, key, now) then {key} else {};
  }

  lemma VisitNone(c: Cache, now: int, o: Options)
    ensures CleanedKeys(c, {}, now, o) == c
  {
    var d := CleanedKeys(c, {}, now, o);
    assert (set k | k in {} && Expires(c, k, now)) == {};
    assert d.attempts == c.attempts && d.entries == c.entries;
  }

  lemma VisitSessions(c: Cache, keys: set<AttemptKey>, key: AttemptKey, now: int)
    requires Tracks(c, key)
    ensures var (a, b) := (ExpiredSessions(c, keys, now), ExpiredSessions(c, keys + {key}, now));
      if Expires(c, key, now) && At(c, key).phase == Ready && !At(c, key).confirmed && At(c, key).session.Some?
      then b == a + {At(c, key).session.value} else b == a
  {
  }

  class Server {
    const options: Options
    var attempts: map<AttemptKey, EntryId>
    var entries: map<EntryId, Entry>
    var active: int
    var nextEntry: EntryId

    constructor (options: Options)
      ensures View() == EMPTY && Valid() && this.options == options
    {
      this.options, attempts, entries, active, nextEntry := options, map[], map[], 0, 0;
      new;
      EmptyKeeps(options);
    }

    function View(): Cache
      reads this
    {
      Cache(attempts, entries, active)
    }

    ghost predicate Valid()
      reads this
    {
      CacheInv(View(), options) && forall e :: e in entries ==> e < nextEntry
    }

    method TombstoneAttemptLocked(e: EntryId, reason: Failure, now: int)
      requires e in entries
      modifies this`entries, this`active
      ensures View() == Bury(old(View()), e, reason, now, options)
    {
      var entry := entries[e];
      if entry.phase == Building || entry.phase == Ready {
        active := active - 1;
      }
      entries := entries[e := entry.(phase := Tombstone, response := [], session := None, err := Some(reason),
                                     confirmed := false, expiresAt := 0, forgetAt := now + options.retention, done := true)];
    }

    method CleanupAttemptsLocked(now: int) returns (expired: set<SessionId>)
      requires Valid()
      modifies this`attempts, this`entries, this`active
      ensures View() == Cleaned(old(View()), now, options)
      ensures expired == ExpiredSessions(old(View()), old(attempts).Keys, now)
    {
      hide EntriesOk, KeysOk, LiveKeys, CleanedKeys, Bury, Expires, Forgets, ExpiredSessions;
      ghost var c := View();
      expired := {};
      ghost var visited: set<AttemptKey> := {};
      var remaining := attempts.Keys;
      VisitNone(c, now, options);
      NoSessions(c, now);
      while remaining != {}
        invariant visited + remaining == c.attempts.Keys && visited !! remaining
        invariant View() == CleanedKeys(c, visited, now, options)
        invariant expired == ExpiredSessions(c, visited, now)
        decreases remaining
      {
        var key :| key in remaining;
        VisitOne(c, visited, key, now, options);
        Judgements(c, key, now);
        VisitSessions(c, visited, key, now);
        var e := attempts[key];
        var entry := entries[e];
        if entry.phase == Building || entry.phase == Ready {
          if now >= entry.expiresAt {
            if entry.phase == Ready && !entry.confirmed && entry.session.Some? {
              expired := expired + {entry.session.value};
            }
            TombstoneAttemptLocked(e, AttemptExpired, now);
          }
        } else if entry.phase == Failed || now >= entry.forgetAt {
          attempts := attempts - {key};
        }
        visited := visited + {key};
        remaining := remaining - {key};
      }
      assert visited == c.attempts.Keys;
    }

    static lemma NoSessions(c: Cache, now: int)
      ensures ExpiredSessions(c, {}, now) == {}
    {
    }

    static lemma Judgements(c: Cache, key: AttemptKey, now: int)
      requires KeysOk(c) && key in c.attempts
      ensures Tracks(c, key)
      ensures Expires(c, key, now) <==> At(c, key).Live() && now >= At(c, key).expiresAt
      ensures Forgets(c, key, now) <==>
        At(c, key).phase == Failed || (At(c, key).phase == Tombstone && now >= At(c, key).forgetAt)
    {
      assert KeyOk(c, key);
    }

    method AcquireAttempt(key: AttemptKey, initial: bytes, now: int) returns (lease: Lease, expired: set<SessionId>)
      requires Valid()
      modifies this
      ensures Valid()
      ensures (View(), lease) == Acquire(old(View()), key, initial, old(nextEntry), now, options)
      ensures expired == ExpiredSessions(old(View()), old(attempts).Keys, now)
    {
      hide EntriesOk, KeysOk, LiveKeys, Cleaned, ExpiredSessions;
      AcquireKeeps(View(), key, initial, nextEntry, now, options);
      CleanupKeeps(View(), now, options);
      expired := CleanupAttemptsLocked(now);
      KeysAreTracked(View());
      if key in attempts {
        var e := attempts[key];
        var entry := entries[e];
        if entry.initial != initial {
          return Reject(TranscriptMismatch), expired;
        }
        lease := if entry.phase == Building then Wait(e) else Result(entry, e);
        return;
      }
      if active >= options.maxPending || |attempts| >= options.maxRecords {
        return Reject(CapacityReached), expired;
      }
      var e := nextEntry;
      attempts := attempts[key := e];
      entries := entries[e := Entry(key, initial, Building, false, [], None, now + options.pendingTimeout, 0, false, None)];
      active := active + 1;
      nextEntry := nextEntry + 1;
      lease := Build(e);
    }

    static lemma KeysAreTracked(c: Cache)
      requires KeysOk(c)
      ensures forall key :: key in c.attempts ==> Tracks(c, key)
    {
      forall key | key in c.attempts ensures Tracks(c, key) {
        assert KeyOk(c, key);
      }
    }

    method PublishAttempt(e: EntryId, session: SessionId, response: bytes, now: int) returns (failure: Option<Failure>)
      requires Valid() && e in entries
      modifies this`entries
      ensures Valid() && (View(), failure) == Publish(old(View()), e, session, response, now, options)
    {
      hide EntriesOk, KeysOk, LiveKeys;
      PublishKeeps(View(), e, session, response, now, options);
      var entry := entries[e];
      if entry.key !in attempts || attempts[entry.key] != e || entry.phase != Building {
        return Some(if entry.err.Some? then entry.err.value else AttemptExpired);
      }
      entries := entries[e := entry.(phase := Ready, session := Some(session), response := response,
                                     expiresAt := now + options.pendingTimeout, done := true)];
      failure := None;
    }

    method FailAttempt(e: EntryId, failure: Failure)
      requires Valid() && e in entries
      modifies this`attempts, this`entries, this`active
      ensures Valid() && View() == Fail(old(View()), e, failure)
    {
      hide EntriesOk, KeysOk, LiveKeys;
      FailKeeps(View(), e, failure, options);
      var entry := entries[e];
      if entry.key in attempts && attempts[entry.key] == e && entry.phase == Building {
        attempts := attempts - {entry.key};
        active := active - 1;
        entries := entries[e := entry.(phase := Failed, err := Some(failure), done := true)];
      }
    }

    method PromoteAttempt(key: AttemptKey, session: SessionId, now: int) returns (ok: bool)
      requires Valid()
      modifies this`entries, this`active
      ensures Valid() && View() == Promote(old(View()), key, session, now, options)
      ensures ok == Promotable(old(View()), key, session, now)
    {
      hide EntriesOk, KeysOk, LiveKeys;
      PromoteKeeps(View(), key, session, now, options);
      KeysAreTracked(View());
      if key !in attempts {
        return false;
      }
      var e := attempts[key];
      var entry := entries[e];
      if entry.phase != Ready || entry.session != Some(session) || now >= entry.expiresAt {
        if entry.phase == Ready && entry.session == Some(session) {
          TombstoneAttemptLocked(e, AttemptExpired, now);
        }
        return false;
      }
      entries := entries[e := entry.(confirmed := true, expiresAt := now + options.confirmGrace)];
      ok := true;
    }

    method ConfirmGraceActive(key: AttemptKey, session: SessionId, now: int) returns (ok: bool)
      requires Valid()
      modifies this`entries, this`active
      ensures Valid() && View() == CheckGrace(old(View()), key, session, now, options)
      ensures ok == GraceActive(old(View()), key, session, now)
    {
      hide EntriesOk, KeysOk, LiveKeys;
      GraceKeeps(View(), key, session, now, options);
      KeysAreTracked(View());
      if key !in attempts {
        return false;
      }
      var e := attempts[key];
      var entry := entries[e];
      if entry.phase != Ready || entry.session != Some(session) || !entry.confirmed {
        return false;
      }
      if now >= entry.expiresAt {
        TombstoneAttemptLocked(e, AttemptExpired, now);
        return false;
      }
      ok := true;
    }

    method RemoveAttempt(key: AttemptKey, session: SessionId, reason: Failure, now: int)
      requires Valid()
      modifies this`entries, this`active
      ensures Valid() && View() == Remove(old(View()), key, session, reason, now, options)
    {
      hide EntriesOk, KeysOk, LiveKeys;
      RemoveKeeps(View(), key, session, reason, now, options);
      KeysAreTracked(View());
      if key !in attempts {
        return;
      }
      var e := attempts[key];
      if entries[e].phase != Ready || entries[e].session != Some(session) {
        return;
      }
      TombstoneAttemptLocked(e, reason, now);
    }
  }
}
