/**
 The single-flight cache of handshake attempts (handshake/cache.go).

 `Cache` is the state under the attempt lock as a value; every lock-protected region is one
 function on it. Entries are kept in a table by identity, because callers hold on to an entry
 after its key has been forgotten or reused. Clock readings are arbitrary integers.
 */
module Attempts {
  import opened Bytes

  type AttemptKey = bytes
  type EntryId = nat
  type SessionId = nat

  datatype Phase = Building | Ready | Tombstone | Failed

  datatype Failure = AttemptExpired | StateError | TranscriptMismatch | CapacityReached | BuildError(code: int)

  datatype Entry = Entry(
    key: AttemptKey, initial: bytes, phase: Phase, done: bool,
    response: bytes, session: Option<SessionId>,
    expiresAt: int, forgetAt: int, confirmed: bool, err: Option<Failure>)
  {
    predicate Live() {
      phase == Building || phase == Ready
    }
  }

  datatype Options = Options(
    pendingTimeout: int, confirmGrace: int, retention: int, maxPending: nat, maxRecords: nat)

  datatype Cache = Cache(attempts: map<AttemptKey, EntryId>, entries: map<EntryId, Entry>, active: int)

  const EMPTY: Cache := Cache(map[], map[], 0)

  /** The entry object a key stands for. */
  function At(c: Cache, key: AttemptKey): Entry
    requires key in c.attempts && c.attempts[key] in c.entries
  {
    c.entries[c.attempts[key]]
  }

  predicate Tracks(c: Cache, key: AttemptKey) {
    key in c.attempts && c.attempts[key] in c.entries
  }

  // ---------------------------------------------------------------------------------------------
  // The lock-protected regions
  // ---------------------------------------------------------------------------------------------

  function Buried(entry: Entry, reason: Failure, now: int, o: Options): Entry {
    entry.(phase := Tombstone, response := [], session := None, err := Some(reason), confirmed := false,
           expiresAt := 0, forgetAt := now + o.retention, done := true)
  }

  function Bury(c: Cache, e: EntryId, reason: Failure, now: int, o: Options): Cache
    requires e in c.entries
  {
    c.(entries := c.entries[e := Buried(c.entries[e], reason, now, o)],
       active := if c.entries[e].Live() then c.active - 1 else c.active)
  }

  predicate Expires(c: Cache, key: AttemptKey, now: int) {
    Tracks(c, key) && At(c, key).Live() && now >= At(c, key).expiresAt
  }

  predicate Forgets(c: Cache, key: AttemptKey, now: int) {
    Tracks(c, key) &&
    (At(c, key).phase == Failed || (At(c, key).phase == Tombstone && now >= At(c, key).forgetAt))
  }

  /** What cleanup has done once it has visited `keys`, in whatever order. */
  function CleanedKeys(c: Cache, keys: set<AttemptKey>, now: int, o: Options): Cache {
    Cache(
      map key | key in c.attempts && !(key in keys && Forgets(c, key, now)) :: c.attempts[key],
      map e | e in c.entries ::
        if c.entries[e].key in keys && Expires(c, c.entries[e].key, now) && c.attempts[c.entries[e].key] == e
        then Buried(c.entries[e], AttemptExpired, now, o) else c.entries[e],
      c.active - |set key | key in keys && Expires(c, key, now)|)
  }

  function Cleaned(c: Cache, now: int, o: Options): Cache {
    CleanedKeys(c, c.attempts.Keys, now, o)
  }

  /** Sessions that cleanup hands back to be closed: published, but never confirmed. */
  function ExpiredSessions(c: Cache, keys: set<AttemptKey>, now: int): set<SessionId> {
    set key | key in keys && Expires(c, key, now) && At(c, key).phase == Ready && !At(c, key).confirmed
              && At(c, key).session.Some? :: At(c, key).session.value
  }

  datatype Lease =
    | Build(entry: EntryId)
    | Wait(entry: EntryId)
    | Answer(entry: EntryId, session: SessionId, response: bytes)
    | Reject(failure: Failure)

  /** resultOfAttempt: what an entry answers a caller that waited for it. */
  function Result(entry: Entry, e: EntryId): Lease {
    match entry.phase
    case Building => Reject(StateError)
    case Ready => if entry.session.Some? then Answer(e, entry.session.value, entry.response) else Reject(StateError)
    case _ => Reject(if entry.err.Some? then entry.err.value else AttemptExpired)
  }

  function NewEntry(key: AttemptKey, initial: bytes, now: int, o: Options): Entry {
    Entry(key, initial, Building, false, [], None, now + o.pendingTimeout, 0, false, None)
  }

  /** Look up or insert, after cleanup; `e` is the identity a new entry would get. */
  function Acquire(c: Cache, key: AttemptKey, initial: bytes, e: EntryId, now: int, o: Options): (Cache, Lease) {
    var d := Cleaned(c, now, o);
    if Tracks(d, key) then
      (d, if At(d, key).initial != initial then Reject(TranscriptMismatch)
          else if At(d, key).phase == Building then Wait(d.attempts[key])
          else Result(At(d, key), d.attempts[key]))
    else if d.active >= o.maxPending || |d.attempts| >= o.maxRecords then (d, Reject(CapacityReached))
    else
      (d.(attempts := d.attempts[key := e], entries := d.entries[e := NewEntry(key, initial, now, o)],
          active := d.active + 1), Build(e))
  }

  predicate Publishable(c: Cache, e: EntryId) {
    e in c.entries && c.entries[e].phase == Building && c.entries[e].key in c.attempts
    && c.attempts[c.entries[e].key] == e
  }

  function Publish(c: Cache, e: EntryId, session: SessionId, response: bytes, now: int, o: Options): (Cache, Option<Failure>)
    requires e in c.entries
  {
    if !Publishable(c, e) then (c, Some(if c.entries[e].err.Some? then c.entries[e].err.value else AttemptExpired))
    else
      (c.(entries := c.entries[e := c.entries[e].(phase := Ready, session := Some(session), response := response,
                                                  expiresAt := now + o.pendingTimeout, done := true)]), None)
  }

  function Fail(c: Cache, e: EntryId, failure: Failure): Cache
    requires e in c.entries
  {
    if !Publishable(c, e) then c
    else
      Cache(c.attempts - {c.entries[e].key},
            c.entries[e := c.entries[e].(phase := Failed, err := Some(failure), done := true)],
            c.active - 1)
  }

  /** The key's current entry is published and belongs to the session. */
  predicate Owns(c: Cache, key: AttemptKey, session: SessionId) {
    Tracks(c, key) && At(c, key).phase == Ready && At(c, key).session == Some(session)
  }

  predicate Promotable(c: Cache, key: AttemptKey, session: SessionId, now: int) {
    Owns(c, key, session) && now < At(c, key).expiresAt
  }

  function Promote(c: Cache, key: AttemptKey, session: SessionId, now: int, o: Options): Cache {
    if Promotable(c, key, session, now) then
      c.(entries := c.entries[c.attempts[key] := At(c, key).(confirmed := true, expiresAt := now + o.confirmGrace)])
    else if Owns(c, key, session) then Bury(c, c.attempts[key], AttemptExpired, now, o)
    else c
  }

  predicate GraceActive(c: Cache, key: AttemptKey, session: SessionId, now: int) {
    Owns(c, key, session) && At(c, key).confirmed && now < At(c, key).expiresAt
  }

  function CheckGrace(c: Cache, key: AttemptKey, session: SessionId, now: int, o: Options): Cache {
    if Owns(c, key, session) && At(c, key).confirmed && now >= At(c, key).expiresAt
    then Bury(c, c.attempts[key], AttemptExpired, now, o) else c
  }

  function Remove(c: Cache, key: AttemptKey, session: SessionId, reason: Failure, now: int, o: Options): Cache {
    if Owns(c, key, session) then Bury(c, c.attempts[key], reason, now, o) else c
  }

  // ---------------------------------------------------------------------------------------------
  // What every region keeps
  // ---------------------------------------------------------------------------------------------

  ghost predicate EntryOk(c: Cache, e: EntryId)
    requires e in c.entries
  {
    var entry := c.entries[e];
    && (entry.done <==> entry.phase != Building)
    && (entry.Live() ==> entry.key in c.attempts && c.attempts[entry.key] == e)
    && (entry.phase == Ready <==> entry.session.Some?)
    && (entry.phase != Ready ==> entry.response == [] && !entry.confirmed)
    && (entry.phase == Tombstone || entry.phase == Failed <==> entry.err.Some?)
  }

  ghost predicate KeyOk(c: Cache, key: AttemptKey)
    requires key in c.attempts
  {
    Tracks(c, key) && At(c, key).key == key && At(c, key).phase != Failed
  }

  ghost function LiveKeys(c: Cache): set<AttemptKey> {
    set key | key in c.attempts && Tracks(c, key) && At(c, key).Live()
  }

  ghost predicate EntriesOk(c: Cache) {
    forall e :: e in c.entries ==> EntryOk(c, e)
  }

  ghost predicate KeysOk(c: Cache) {
    forall key :: key in c.attempts ==> KeyOk(c, key)
  }

  /**
   Unfinished entries are exactly those whose channel is open; live entries are in the map, failed
   ones are not; only published entries hold a session or a response; the counter counts the live
   entries; and both limits hold.
   */
  ghost predicate CacheInv(c: Cache, o: Options) {
    && EntriesOk(c) && KeysOk(c)
    && c.active == |LiveKeys(c)| <= o.maxPending
    && |c.attempts| <= o.maxRecords
  }

  lemma EmptyKeeps(o: Options)
    ensures CacheInv(EMPTY, o)
  {
    assert LiveKeys(EMPTY) == {};
  }

  lemma SetMinus<T>(a: set<T>, b: set<T>)
    requires b <= a
    ensures |a - b| == |a| - |b|
  {
    assert a == (a - b) + b;
  }

  lemma SubmapSize<K, V>(a: map<K, V>, b: map<K, V>)
    requires a.Keys <= b.Keys
    ensures |a| <= |b|
  {
    SetMinus(b.Keys, a.Keys);
    assert |a| == |a.Keys| && |b| == |b.Keys|;
  }

  /** Changing one entry of a live key leaves the other live keys alone. */
  lemma ChangedLiveKeys(c: Cache, e: EntryId, n: Entry)
    requires KeysOk(c) && e in c.entries && EntryOk(c, e) && c.entries[e].Live()
    ensures var d := c.(entries := c.entries[e := n]);
      && c.entries[e].key in LiveKeys(c)
      && LiveKeys(d) == if n.Live() then LiveKeys(c) else LiveKeys(c) - {c.entries[e].key}
  {
    var d := c.(entries := c.entries[e := n]);
    forall k | k in c.attempts ensures Tracks(c, k) && Tracks(d, k) && (c.attempts[k] == e <==> k == c.entries[e].key) {
      assert KeyOk(c, k);
    }
  }

  lemma ChangedEntries(c: Cache, e: EntryId, n: Entry)
    requires EntriesOk(c) && KeysOk(c) && e in c.entries && n.key == c.entries[e].key && n.phase != Failed
    requires EntryOk(c.(entries := c.entries[e := n]), e)
    ensures var d := c.(entries := c.entries[e := n]); EntriesOk(d) && KeysOk(d)
  {
    var d := c.(entries := c.entries[e := n]);
    forall f | f in d.entries ensures EntryOk(d, f) {
      if f != e {
        assert EntryOk(c, f);
      }
    }
    forall k | k in d.attempts ensures KeyOk(d, k) {
      assert KeyOk(c, k);
    }
  }

  lemma BuryKeeps(c: Cache, e: EntryId, reason: Failure, now: int, o: Options)
    requires CacheInv(c, o) && e in c.entries && c.entries[e].Live()
    ensures CacheInv(Bury(c, e, reason, now, o), o)
  {
    hide LiveKeys, KeyOk;
    var n := Buried(c.entries[e], reason, now, o);
    assert EntryOk(c, e);
    ChangedEntries(c, e, n);
    ChangedLiveKeys(c, e, n);
    SetMinus(LiveKeys(c), {c.entries[e].key});
    SameLiveKeys(c.(entries := c.entries[e := n]), Bury(c, e, reason, now, o));
  }

  /** The counter plays no part in the other conditions. */
  lemma SameLiveKeys(c: Cache, d: Cache)
    requires d == c.(active := d.active)
    ensures LiveKeys(d) == LiveKeys(c)
    ensures EntriesOk(c) ==> EntriesOk(d)
    ensures KeysOk(c) ==> KeysOk(d)
  {
    assert forall k :: Tracks(d, k) == Tracks(c, k);
    if EntriesOk(c) {
      forall e | e in d.entries ensures EntryOk(d, e) {
        assert EntryOk(c, e);
      }
    }
    if KeysOk(c) {
      forall k | k in d.attempts ensures KeyOk(d, k) {
        assert KeyOk(c, k);
      }
    }
  }

  lemma CleanupKeepsOrder(c: Cache, now: int, o: Options)
    requires EntriesOk(c) && KeysOk(c)
    ensures EntriesOk(Cleaned(c, now, o)) && KeysOk(Cleaned(c, now, o))
    ensures Cleaned(c, now, o).entries.Keys == c.entries.Keys
    ensures Cleaned(c, now, o).attempts.Keys <= c.attempts.Keys
  {
    var d := Cleaned(c, now, o);
    forall e | e in d.entries ensures EntryOk(d, e) {
      assert EntryOk(c, e);
    }
    forall key | key in d.attempts ensures KeyOk(d, key) {
      assert KeyOk(c, key);
    }
  }

  lemma CleanupCounts(c: Cache, now: int, o: Options)
    requires EntriesOk(c) && KeysOk(c)
    ensures var expiring := set key | key in c.attempts.Keys && Expires(c, key, now);
      expiring <= LiveKeys(c) && LiveKeys(Cleaned(c, now, o)) == LiveKeys(c) - expiring
  {
    hide EntryOk;
    var d := Cleaned(c, now, o);
    var expiring := set key | key in c.attempts.Keys && Expires(c, key, now);
    forall key | key in c.attempts ensures key in LiveKeys(d) <==> key in LiveKeys(c) - expiring {
      assert KeyOk(c, key);
    }
  }

  lemma CleanupKeeps(c: Cache, now: int, o: Options)
    requires CacheInv(c, o)
    ensures CacheInv(Cleaned(c, now, o), o)
    ensures Cleaned(c, now, o).entries.Keys == c.entries.Keys
  {
    hide EntriesOk, KeysOk, LiveKeys, Expires, Forgets;
    CleanupKeepsOrder(c, now, o);
    CleanupCounts(c, now, o);
    SubmapSize(Cleaned(c, now, o).attempts, c.attempts);
    SetMinus(LiveKeys(c), set key | key in c.attempts.Keys && Expires(c, key, now));
  }

  lemma AcquireKeeps(c: Cache, key: AttemptKey, initial: bytes, e: EntryId, now: int, o: Options)
    requires CacheInv(c, o) && e !in c.entries
    ensures CacheInv(Acquire(c, key, initial, e, now, o).0, o)
  {
    hide Cleaned, EntriesOk, KeysOk, LiveKeys;
    CleanupKeeps(c, now, o);
    if Acquire(c, key, initial, e, now, o).1.Build? {
      InsertKeeps(Cleaned(c, now, o), key, e, NewEntry(key, initial, now, o), o);
    }
  }

  lemma InsertKeeps(d: Cache, key: AttemptKey, e: EntryId, n: Entry, o: Options)
    requires CacheInv(d, o) && e !in d.entries && !Tracks(d, key) && d.active < o.maxPending && |d.attempts| < o.maxRecords
    requires n.key == key && n.phase == Building && !n.done && n.response == [] && n.session.None? && !n.confirmed && n.err.None?
    ensures CacheInv(d.(attempts := d.attempts[key := e], entries := d.entries[e := n], active := d.active + 1), o)
  {
    var a := d.(attempts := d.attempts[key := e], entries := d.entries[e := n], active := d.active + 1);
    forall k | k in d.attempts ensures Tracks(d, k) {
      assert KeyOk(d, k);
    }
    InsertOrder(d, key, e, n, a);
    assert LiveKeys(a) == LiveKeys(d) + {key};
  }

  lemma InsertOrder(d: Cache, key: AttemptKey, e: EntryId, n: Entry, a: Cache)
    requires EntriesOk(d) && KeysOk(d) && e !in d.entries && key !in d.attempts
    requires n.key == key && n.phase == Building && !n.done && n.response == [] && n.session.None? && !n.confirmed && n.err.None?
    requires a.attempts == d.attempts[key := e] && a.entries == d.entries[e := n]
    ensures EntriesOk(a) && KeysOk(a)
    ensures LiveKeys(a) == LiveKeys(d) + {key}
  {
    forall f | f in a.entries ensures EntryOk(a, f) {
      if f != e {
        assert EntryOk(d, f);
      }
    }
    forall k | k in a.attempts ensures KeyOk(a, k) {
      if k != key {
        assert KeyOk(d, k);
      }
    }
    forall k | k in d.attempts ensures Tracks(d, k) && Tracks(a, k) && At(a, k) == At(d, k) {
      assert KeyOk(d, k);
    }
  }

  /** Replacing a live entry by another live entry of the same key changes no count. */
  lemma ReplaceLiveKeeps(c: Cache, e: EntryId, n: Entry, o: Options)
    requires CacheInv(c, o) && e in c.entries && c.entries[e].Live() && n.key == c.entries[e].key && n.Live()
    requires n.done <==> n.phase != Building
    requires n.phase == Ready <==> n.session.Some?
    requires n.phase != Ready ==> n.response == [] && !n.confirmed
    requires n.err.None?
    ensures CacheInv(c.(entries := c.entries[e := n]), o)
  {
    hide LiveKeys, KeyOk;
    assert EntryOk(c, e);
    ChangedEntries(c, e, n);
    ChangedLiveKeys(c, e, n);
  }

  /** What the invariant says of an entry that a session owns. */
  lemma OwnedEntry(c: Cache, key: AttemptKey, session: SessionId)
    requires EntriesOk(c) && KeysOk(c) && Owns(c, key, session)
    ensures At(c, key).Live() && At(c, key).done && At(c, key).err.None? && At(c, key).key == key
  {
    assert KeyOk(c, key);
    assert EntryOk(c, c.attempts[key]);
  }

  lemma PublishKeeps(c: Cache, e: EntryId, session: SessionId, response: bytes, now: int, o: Options)
    requires CacheInv(c, o) && e in c.entries
    ensures CacheInv(Publish(c, e, session, response, now, o).0, o)
  {
    if Publishable(c, e) {
      assert EntryOk(c, e);
      ReplaceLiveKeeps(c, e, Publish(c, e, session, response, now, o).0.entries[e], o);
    }
  }

  lemma FailKeeps(c: Cache, e: EntryId, failure: Failure, o: Options)
    requires CacheInv(c, o) && e in c.entries
    ensures CacheInv(Fail(c, e, failure), o)
  {
    hide LiveKeys;
    if Publishable(c, e) {
      var (d, key) := (Fail(c, e, failure), c.entries[e].key);
      assert EntryOk(c, e);
      FailOrder(c, e, d);
      SubmapSize(d.attempts, c.attempts);
      SetMinus(LiveKeys(c), {key});
    }
  }

  lemma FailOrder(c: Cache, e: EntryId, d: Cache)
    requires EntriesOk(c) && KeysOk(c) && Publishable(c, e) && e in d.entries
    requires d.attempts == c.attempts - {c.entries[e].key} && d.entries == c.entries[e := d.entries[e]]
    requires d.entries[e] == c.entries[e].(phase := Failed, err := d.entries[e].err, done := true) && d.entries[e].err.Some?
    ensures EntriesOk(d) && KeysOk(d)
    ensures c.entries[e].key in LiveKeys(c) && LiveKeys(d) == LiveKeys(c) - {c.entries[e].key}
  {
    assert EntryOk(c, e);
    forall f | f in d.entries ensures EntryOk(d, f) {
      assert EntryOk(c, f);
    }
    forall k | k in d.attempts ensures KeyOk(d, k) && At(d, k) == At(c, k) {
      assert KeyOk(c, k);
    }
  }

  lemma PromoteKeeps(c: Cache, key: AttemptKey, session: SessionId, now: int, o: Options)
    requires CacheInv(c, o)
    ensures CacheInv(Promote(c, key, session, now, o), o)
  {
    hide EntriesOk, KeysOk, LiveKeys;
    if Owns(c, key, session) {
      OwnedEntry(c, key, session);
      if Promotable(c, key, session, now) {
        ReplaceLiveKeeps(c, c.attempts[key], At(c, key).(confirmed := true, expiresAt := now + o.confirmGrace), o);
      } else {
        BuryKeeps(c, c.attempts[key], AttemptExpired, now, o);
      }
    }
  }

  lemma GraceKeeps(c: Cache, key: AttemptKey, session: SessionId, now: int, o: Options)
    requires CacheInv(c, o)
    ensures CacheInv(CheckGrace(c, key, session, now, o), o)
  {
    if Owns(c, key, session) {
      BuryKeeps(c, c.attempts[key], AttemptExpired, now, o);
    }
  }

  lemma RemoveKeeps(c: Cache, key: AttemptKey, session: SessionId, reason: Failure, now: int, o: Options)
    requires CacheInv(c, o)
    ensures CacheInv(Remove(c, key, session, reason, now, o), o)
  {
    if Owns(c, key, session) {
      BuryKeeps(c, c.attempts[key], reason, now, o);
    }
  }

  /** A lease is for the caller's own key and datagram, and only an absent key is built. */
  lemma LeaseIsOwn(c: Cache, key: AttemptKey, initial: bytes, e: EntryId, now: int, o: Options)
    requires CacheInv(c, o) && e !in c.entries
    ensures var (d, lease) := Acquire(c, key, initial, e, now, o);
      && (!lease.Reject? ==> lease.entry in d.entries && d.entries[lease.entry].key == key
                             && d.entries[lease.entry].initial == initial && key in d.attempts && d.attempts[key] == lease.entry)
      && (lease.Build? ==> key !in Cleaned(c, now, o).attempts)
  {
    hide EntriesOk, LiveKeys, Cleaned;
    CleanupKeeps(c, now, o);
    var d := Cleaned(c, now, o);
    if key in d.attempts {
      assert KeyOk(d, key);
    }
  }

  // ---------------------------------------------------------------------------------------------
  // Lifetimes
  // ---------------------------------------------------------------------------------------------

  /** An attempt may be built, and then confirmed, for exactly the pending timeout. */
  lemma PendingLifetime(c: Cache, key: AttemptKey, initial: bytes, e: EntryId, session: SessionId, response: bytes, at: int, now: int, o: Options)
    requires CacheInv(c, o)
    ensures e !in c.entries && Acquire(c, key, initial, e, at, o).1 == Build(e) ==>
      (Expires(Acquire(c, key, initial, e, at, o).0, key, now) <==> now >= at + o.pendingTimeout)
    ensures e in c.entries && c.entries[e].key == key && Publish(c, e, session, response, at, o).1.None? ==>
      (Promotable(Publish(c, e, session, response, at, o).0, key, session, now) <==> now < at + o.pendingTimeout)
  {
    hide CacheInv, Cleaned;
  }

  /** A confirmation answers retries for exactly the grace period; confirming again is not how it is extended. */
  lemma GraceLifetime(c: Cache, key: AttemptKey, session: SessionId, at: int, now: int, o: Options)
    ensures Promotable(c, key, session, at) ==>
      (GraceActive(Promote(c, key, session, at, o), key, session, now) <==> now < at + o.confirmGrace)
    ensures GraceActive(c, key, session, at) ==> CheckGrace(c, key, session, at, o) == c
  {
  }

  /** A tombstone is kept for exactly the retention period. */
  lemma RetentionLifetime(c: Cache, key: AttemptKey, session: SessionId, reason: Failure, at: int, now: int, o: Options)
    requires Owns(c, key, session)
    ensures var d := Remove(c, key, session, reason, at, o);
      && !Owns(d, key, session) && (Forgets(d, key, now) <==> now >= at + o.retention)
      && Result(At(d, key), d.attempts[key]) == Reject(reason)
  {
  }

  /** One cleanup at a time is enough, as tombstones are kept at all. */
  lemma CleanupOnce(c: Cache, now: int, o: Options)
    requires CacheInv(c, o) && o.retention > 0
    ensures Cleaned(Cleaned(c, now, o), now, o) == Cleaned(c, now, o)
    ensures forall key :: !Expires(Cleaned(c, now, o), key, now) && !Forgets(Cleaned(c, now, o), key, now)
  {
    var d := Cleaned(c, now, o);
    CleanupKeeps(c, now, o);
    forall key ensures !Expires(d, key, now) && !Forgets(d, key, now) {
      if key in d.attempts {
        assert KeyOk(c, key) && KeyOk(d, key);
      }
    }
    NothingExpires(d, now, o);
  }

  lemma NothingExpires(d: Cache, now: int, o: Options)
    requires forall key :: !Expires(d, key, now) && !Forgets(d, key, now)
    ensures Cleaned(d, now, o) == d
  {
    var f := Cleaned(d, now, o);
    assert f.attempts == d.attempts && f.entries == d.entries;
    assert (set key | key in d.attempts.Keys && Expires(d, key, now)) == {};
  }
}
