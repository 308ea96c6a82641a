/**
 The timed session control machine of session/state.go and session/machine.go.

 `Snapshot` is the machine's state as a value and `Apply` one call on it; `Machine` is the object
 whose methods update the fields in place.
 */
module Session {
  import opened Bytes

  datatype Role = Client | Server
  datatype State = Idle | InitialSent | PendingConfirm | Established | Rekeying | Draining | Closed

  datatype Event =
    | BeginHandshake | RetryReceived | RetransmitInitial | HandshakeComplete
    | IssuePing(id: uint64) | RetransmitPing(id: uint64) | Pong(id: uint64) | ConfirmPing(id: uint64)
    | Activity | BeginRekey | BeginDrain | Timeout | Close

  /** Durations are whole time units; retry limits are 8-bit. */
  datatype Policy = Policy(
    initialSent: int, pendingConfirm: int, establishedIdle: int, pathValidation: int, draining: int,
    retryToken: int, confirmGrace: int, initialRetryBase: int, controlRetryBase: int, maxRetryBackoff: int,
    maxInitialRetries: byte, maxControlRetries: byte)

  function Durations(p: Policy): seq<int> {
    [p.initialSent, p.pendingConfirm, p.establishedIdle, p.pathValidation, p.draining, p.retryToken,
     p.confirmGrace, p.initialRetryBase, p.controlRetryBase, p.maxRetryBackoff]
  }

  predicate ValidPolicy(p: Policy) {
    && (forall i :: 0 <= i < |Durations(p)| ==> Durations(p)[i] > 0)
    && p.maxInitialRetries > 0 && p.maxControlRetries > 0
    && p.initialRetryBase <= p.maxRetryBackoff && p.controlRetryBase <= p.maxRetryBackoff
  }

  method Validate(p: Policy) returns (ok: bool)
    ensures ok == ValidPolicy(p)
  {
    var durations := Durations(p);
    for i := 0 to |durations|
      invariant forall k :: 0 <= k < i ==> durations[k] > 0
    {
      if durations[i] <= 0 {
        return false;
      }
    }
    if p.maxInitialRetries == 0 || p.maxControlRetries == 0 {
      return false;
    }
    ok := p.initialRetryBase <= p.maxRetryBackoff && p.controlRetryBase <= p.maxRetryBackoff;
  }

  // ---------------------------------------------------------------------------------------------
  // Backoff
  // ---------------------------------------------------------------------------------------------

  function Pow2(n: nat): (p: nat)
    ensures p >= 1
  {
    if n == 0 then 1 else 2 * Pow2(n - 1)
  }

  /** The delay before a retransmission: doubled once per earlier retry, never above the maximum. */
  function Backoff(base: int, retry: nat, maximum: int): int {
    if base * Pow2(retry) <= maximum then base * Pow2(retry) else maximum
  }

  const MAX_DURATION: int := 0x7FFF_FFFF_FFFF_FFFF

  /**
   The doubling loop, for every positive base and maximum that a 64-bit duration can hold, odd
   maxima included: it computes the closed form and its intermediate value never overflows.
   */
  method BoundedBackoff(base: int, retry: byte, maximum: int) returns (delay: int)
    requires 0 < base <= MAX_DURATION && 0 < maximum <= MAX_DURATION
    ensures delay == Backoff(base, retry, maximum)
  {
    delay := base;
    var step := 0;
    while step < retry
      invariant 0 <= step <= retry
      invariant 0 < delay <= MAX_DURATION && delay == base * Pow2(step)
    {
      if delay >= maximum || delay > maximum / 2 {
        PowersGrow(base, step + 1, retry);
        assert base * Pow2(step + 1) == 2 * delay;
        return maximum;
      }
      assert delay * 2 <= MAX_DURATION;
      delay := delay * 2;
      step := step + 1;
    }
    if delay > maximum {
      return maximum;
    }
  }

  lemma {:induction false} PowersGrow(base: int, m: nat, n: nat)
    requires 0 < base && m <= n
    ensures base * Pow2(m) <= base * Pow2(n)
  {
    if m < n {
      PowersGrow(base, m, n - 1);
      assert base * Pow2(n) == 2 * (base * Pow2(n - 1));
    }
  }

  lemma BackoffMonotone(base: int, m: nat, n: nat, maximum: int)
    requires 0 < base && 0 < maximum && m <= n
    ensures 0 < Backoff(base, m, maximum) <= Backoff(base, n, maximum) <= maximum
  {
    PowersGrow(base, m, n);
    PowersGrow(base, 0, m);
  }

  // ---------------------------------------------------------------------------------------------
  // The machine as a value
  // ---------------------------------------------------------------------------------------------

  datatype Snapshot = Snapshot(
    role: Role, policy: Policy, state: State,
    enteredAt: int, lastEventAt: int, deadline: Option<int>,
    initialRetries: nat, controlRetries: nat,
    ping: Option<uint64>, rekeyReady: bool,
    lastConfirm: Option<uint64>, graceUntil: int)

  datatype Outcome =
    | Done | Wait(delay: int) | DuplicateConfirm | NotDue
    | TimeRegression | TimedOut | Illegal | RetriesExhausted
    | PingOutstanding | NoPing | PongMismatch | ConfirmMismatch | GraceExpired
  {
    predicate Failed() {
      !(Done? || Wait? || DuplicateConfirm? || NotDue?)
    }
  }

  function Create(role: Role, policy: Policy, now: int): Option<Snapshot> {
    if ValidPolicy(policy) then Some(Snapshot(role, policy, Idle, now, now, None, 0, 0, None, false, None, 0)) else None
  }

  /** The role-specific transition table. */
  function NextState(role: Role, from: State, e: Event): Option<State> {
    if e.Close? then Some(Closed)
    else match (role, from)
      case (Client, Idle) => if e.BeginHandshake? then Some(InitialSent) else None
      case (Client, InitialSent) =>
        if e.RetryReceived? || e.RetransmitInitial? then Some(InitialSent)
        else if e.HandshakeComplete? then Some(PendingConfirm)
        else if e.Timeout? then Some(Closed) else None
      case (Client, PendingConfirm) =>
        if e.IssuePing? || e.RetransmitPing? then Some(PendingConfirm)
        else if e.Pong? then Some(Established)
        else if e.Timeout? then Some(Closed) else None
      case (Client, Established) =>
        if e.Activity? then Some(Established)
        else if e.BeginRekey? then Some(Rekeying)
        else if e.BeginDrain? || e.Timeout? then Some(Draining) else None
      case (Client, Rekeying) =>
        if e.HandshakeComplete? || e.IssuePing? || e.RetransmitPing? then Some(Rekeying)
        else if e.Pong? then Some(Established)
        else if e.BeginDrain? || e.Timeout? then Some(Draining) else None
      case (Server, Idle) => if e.HandshakeComplete? then Some(PendingConfirm) else None
      case (Server, PendingConfirm) =>
        if e.ConfirmPing? then Some(Established) else if e.Timeout? then Some(Closed) else None
      case (Server, Established) =>
        if e.Activity? || e.ConfirmPing? then Some(Established)
        else if e.BeginRekey? then Some(Rekeying)
        else if e.BeginDrain? || e.Timeout? then Some(Draining) else None
      case (Server, Rekeying) =>
        if e.HandshakeComplete? then Some(Rekeying)
        else if e.ConfirmPing? then Some(Established)
        else if e.BeginDrain? || e.Timeout? then Some(Draining) else None
      case (_, Draining) => if e.Timeout? then Some(Closed) else None
      case _ => None
  }

  function ClearPing(m: Snapshot): Snapshot {
    m.(ping := None, controlRetries := 0)
  }

  function Enter(m: Snapshot, next: State, now: int): Snapshot {
    var n := m.(state := next, enteredAt := now, lastEventAt := now);
    match next
    case Idle => n.(deadline := None)
    case InitialSent => ClearPing(n).(deadline := Some(now + m.policy.initialSent), initialRetries := 0)
    case PendingConfirm => ClearPing(n).(deadline := Some(now + m.policy.pendingConfirm))
    case Established => n.(deadline := Some(now + m.policy.establishedIdle), rekeyReady := false)
    case Rekeying => ClearPing(n).(deadline := Some(now + m.policy.pendingConfirm), rekeyReady := false)
    case Draining => ClearPing(n).(deadline := Some(now + m.policy.draining), rekeyReady := false)
    case Closed => ClearPing(n).(deadline := None, rekeyReady := false)
  }

  predicate Overdue(m: Snapshot, now: int) {
    m.deadline.Some? && now >= m.deadline.value
  }

  /** Which calls look at the state's deadline before anything else. */
  predicate ChecksDeadline(e: Event) {
    !(e.BeginHandshake? || e.BeginDrain? || e.Timeout? || e.Close?)
  }

  /** One call: the checks in their order, then the effect. */
  function Apply(m: Snapshot, e: Event, now: int): (Snapshot, Outcome) {
    if now < m.lastEventAt then (m, TimeRegression)
    else if e.Timeout? && !Overdue(m, now) then (m, NotDue)
    else if e.Close? && m.state == Closed then (m, Done)
    else if ChecksDeadline(e) && Overdue(m, now) then (m, TimedOut)
    else
      var next := NextState(m.role, m.state, e);
      if next.None? then (m, Illegal) else Effect(m, e, next.value, now)
  }

  function Effect(m: Snapshot, e: Event, next: State, now: int): (Snapshot, Outcome) {
    match e
    case RetryReceived => (m.(initialRetries := 0, lastEventAt := now), Done)
    case RetransmitInitial =>
      if m.initialRetries >= m.policy.maxInitialRetries then (m, RetriesExhausted)
      else (m.(initialRetries := m.initialRetries + 1, lastEventAt := now),
            Wait(Backoff(m.policy.initialRetryBase, m.initialRetries, m.policy.maxRetryBackoff)))
    case HandshakeComplete =>
      if m.state == Rekeying then
        (ClearPing(m).(rekeyReady := true, deadline := Some(now + m.policy.pendingConfirm), lastEventAt := now), Done)
      else (Enter(m, next, now), Done)
    case IssuePing(id) =>
      if m.state == Rekeying && !m.rekeyReady then (m, Illegal)
      else if m.ping.Some? then (m, PingOutstanding)
      else (m.(ping := Some(id), controlRetries := 0, lastEventAt := now), Done)
    case RetransmitPing(id) =>
      if m.ping.None? then (m, NoPing)
      else if m.ping.value != id then (m, PongMismatch)
      else if m.controlRetries >= m.policy.maxControlRetries then (m, RetriesExhausted)
      else (m.(controlRetries := m.controlRetries + 1, lastEventAt := now),
            Wait(Backoff(m.policy.controlRetryBase, m.controlRetries, m.policy.maxRetryBackoff)))
    case Pong(id) =>
      if m.ping.None? then (m, NoPing)
      else if m.ping.value != id then (m, PongMismatch)
      else (Enter(ClearPing(m), next, now), Done)
    case ConfirmPing(id) =>
      if m.state == Rekeying && !m.rekeyReady then (m, Illegal)
      else if m.state == Established then
        if m.lastConfirm != Some(id) then (m, ConfirmMismatch)
        else if now > m.graceUntil then (m, GraceExpired)
        else (m.(lastEventAt := now, deadline := Some(now + m.policy.establishedIdle)), DuplicateConfirm)
      else (Enter(m.(lastConfirm := Some(id), graceUntil := now + m.policy.confirmGrace), next, now), Done)
    case Activity => (m.(lastEventAt := now, deadline := Some(now + m.policy.establishedIdle)), Done)
    case _ => (Enter(m, next, now), Done)
  }

  // ---------------------------------------------------------------------------------------------
  // What every reachable machine satisfies
  // ---------------------------------------------------------------------------------------------

  ghost predicate Inv(m: Snapshot) {
    && ValidPolicy(m.policy)
    && (m.deadline.None? <==> m.state == Idle || m.state == Closed)
    && (m.deadline.Some? ==> m.lastEventAt < m.deadline.value)
    && m.enteredAt <= m.lastEventAt
    && (m.ping.Some? ==> m.role == Client && (m.state == PendingConfirm || (m.state == Rekeying && m.rekeyReady)))
    && (m.ping.None? ==> m.controlRetries == 0)
    && m.initialRetries <= m.policy.maxInitialRetries && m.controlRetries <= m.policy.maxControlRetries
    && (m.rekeyReady ==> m.state == Rekeying)
    && (m.state == InitialSent ==> m.role == Client && m.deadline == Some(m.enteredAt + m.policy.initialSent))
    && (m.state == PendingConfirm ==> m.deadline == Some(m.enteredAt + m.policy.pendingConfirm))
    && (m.state == Draining ==> m.deadline == Some(m.enteredAt + m.policy.draining))
    && (m.role == Client ==> m.lastConfirm.None?)
    && (m.role == Server && m.state == Established ==>
          m.lastConfirm.Some? && m.graceUntil == m.enteredAt + m.policy.confirmGrace)
  }

  lemma PositivePolicy(p: Policy)
    requires ValidPolicy(p)
    ensures p.initialSent > 0 && p.pendingConfirm > 0 && p.establishedIdle > 0 && p.draining > 0 && p.confirmGrace > 0
    ensures p.initialRetryBase > 0 && p.controlRetryBase > 0 && p.maxRetryBackoff > 0
  {
    var d := Durations(p);
    assert d[0] > 0 && d[1] > 0 && d[2] > 0 && d[4] > 0 && d[6] > 0 && d[7] > 0 && d[8] > 0 && d[9] > 0;
  }

  lemma ApplyKeeps(m: Snapshot, e: Event, now: int)
    requires Inv(m)
    ensures Inv(Apply(m, e, now).0)
    ensures m.lastEventAt <= Apply(m, e, now).0.lastEventAt
  {
    PositivePolicy(m.policy);
    hide ValidPolicy, Backoff;
  }

  /** A call that reports an error leaves every field as it was. */
  lemma FailureChangesNothing(m: Snapshot, e: Event, now: int)
    requires Apply(m, e, now).1.Failed()
    ensures Apply(m, e, now).0 == m
  {
    hide Backoff, NextState, Enter;
  }

  /** A retransmission's delay is positive and within the policy. */
  lemma DelaysBounded(m: Snapshot, e: Event, now: int)
    requires Inv(m) && Apply(m, e, now).1.Wait?
    ensures 0 < Apply(m, e, now).1.delay <= m.policy.maxRetryBackoff
  {
    PositivePolicy(m.policy);
    BackoffMonotone(m.policy.initialRetryBase, m.initialRetries, m.initialRetries, m.policy.maxRetryBackoff);
    BackoffMonotone(m.policy.controlRetryBase, m.controlRetries, m.controlRetries, m.policy.maxRetryBackoff);
    hide Backoff, ValidPolicy, NextState, Enter;
  }

  /** The delay never shrinks from one retry to a later one. */
  lemma DelaysGrow(m: Snapshot, n: Snapshot, e: Event, t1: int, t2: int)
    requires Inv(m) && n.policy == m.policy && Apply(m, e, t1).1.Wait? && Apply(n, e, t2).1.Wait?
    requires m.initialRetries <= n.initialRetries && m.controlRetries <= n.controlRetries
    ensures Apply(m, e, t1).1.delay <= Apply(n, e, t2).1.delay
  {
    PositivePolicy(m.policy);
    BackoffMonotone(m.policy.initialRetryBase, m.initialRetries, n.initialRetries, m.policy.maxRetryBackoff);
    BackoffMonotone(m.policy.controlRetryBase, m.controlRetries, n.controlRetries, m.policy.maxRetryBackoff);
    hide Backoff, ValidPolicy, NextState, Enter;
  }

  // ---------------------------------------------------------------------------------------------
  // Whole runs
  // ---------------------------------------------------------------------------------------------

  datatype Call = Call(event: Event, now: int)

  function After(m: Snapshot, calls: seq<Call>): Snapshot {
    if calls == [] then m
    else
      var last := calls[|calls| - 1];
      Apply(After(m, calls[..|calls| - 1]), last.event, last.now).0
  }

  /** Call n of the run succeeds. */
  predicate Succeeds(m: Snapshot, calls: seq<Call>, n: nat)
    requires n < |calls|
  {
    !Apply(After(m, calls[..n]), calls[n].event, calls[n].now).1.Failed()
  }

  lemma {:induction false} ReachableInv(role: Role, policy: Policy, start: int, calls: seq<Call>)
    requires Create(role, policy, start).Some?
    ensures Inv(After(Create(role, policy, start).value, calls))
    ensures After(Create(role, policy, start).value, calls).role == role
  {
    if calls == [] {
    } else {
      var last := calls[|calls| - 1];
      ReachableInv(role, policy, start, calls[..|calls| - 1]);
      hide Inv, ValidPolicy;
      var before := After(Create(role, policy, start).value, calls[..|calls| - 1]);
      ApplyKeeps(before, last.event, last.now);
      FixedFields(before, last.event, last.now);
    }
  }

  lemma FixedFields(m: Snapshot, e: Event, now: int)
    ensures Apply(m, e, now).0.role == m.role && Apply(m, e, now).0.policy == m.policy
  {
    hide Backoff, NextState;
  }

  /** Index of the last successful call of a kind, or -1. */
  function LastHandshake(m: Snapshot, calls: seq<Call>): int {
    if calls == [] then -1
    else
      var n := |calls| - 1;
      if calls[n].event.HandshakeComplete? && Succeeds(m, calls, n) then n else LastHandshake(m, calls[..n])
  }

  function LastPing(m: Snapshot, calls: seq<Call>): int {
    if calls == [] then -1
    else
      var n := |calls| - 1;
      if calls[n].event.IssuePing? && Succeeds(m, calls, n) then n else LastPing(m, calls[..n])
  }

  /** The outstanding ping is the last one issued, and was issued after the last completed handshake. */
  ghost predicate PingHistory(m: Snapshot, calls: seq<Call>) {
    var (now, h, p) := (After(m, calls), LastHandshake(m, calls), LastPing(m, calls));
    && -1 <= h < |calls| && -1 <= p < |calls|
    && (now.state == PendingConfirm || now.rekeyReady ==> 0 <= h)
    && (now.ping.Some? ==> 0 <= h < p && calls[p].event == IssuePing(now.ping.value))
  }

  /** The effect of one call on the fields the history argument needs. */
  lemma PingEffect(m: Snapshot, e: Event, now: int)
    requires Inv(m)
    ensures var (n, ok) := (Apply(m, e, now).0, !Apply(m, e, now).1.Failed());
      && (e.HandshakeComplete? && ok ==> n.ping.None?)
      && (n.ping.Some? && n.ping != m.ping ==> e == IssuePing(n.ping.value) && ok)
      && (e.IssuePing? && ok ==> n.ping == Some(e.id) && (m.state == PendingConfirm || m.rekeyReady))
      && (n.state == PendingConfirm || n.rekeyReady ==>
            m.state == PendingConfirm || m.rekeyReady || (e.HandshakeComplete? && ok))
  {
    hide Backoff, ValidPolicy;
  }

  lemma {:induction false} PingsAreRecent(role: Role, policy: Policy, start: int, calls: seq<Call>)
    requires Create(role, policy, start).Some?
    ensures PingHistory(Create(role, policy, start).value, calls)
  {
    var m := Create(role, policy, start).value;
    if calls != [] {
      var n := |calls| - 1;
      PingsAreRecent(role, policy, start, calls[..n]);
      ReachableInv(role, policy, start, calls[..n]);
      PingEffect(After(m, calls[..n]), calls[n].event, calls[n].now);
      hide Inv, Apply, Create;
    }
  }

  lemma EstablishedBy(m: Snapshot, e: Event, now: int)
    requires Inv(m) && m.role == Client && m.state != Established && Apply(m, e, now).0.state == Established
    ensures m.ping.Some? && e == Pong(m.ping.value)
  {
    hide Backoff, ValidPolicy;
  }

  /**
   In every run a client enters Established only on a pong that answers a ping which was issued
   after the latest completed handshake.
   */
  lemma ClientEstablishedByPong(policy: Policy, start: int, calls: seq<Call>, n: nat) returns (h: nat, p: nat)
    requires Create(Client, policy, start).Some? && n < |calls|
    requires var m := Create(Client, policy, start).value;
      After(m, calls[..n]).state != Established && After(m, calls[..n + 1]).state == Established
    ensures var m := Create(Client, policy, start).value;
      && h < p < n
      && calls[h].event.HandshakeComplete? && Succeeds(m, calls, h)
      && (forall k :: h < k < n && calls[k].event.HandshakeComplete? ==> !Succeeds(m, calls, k))
      && calls[p].event.IssuePing? && Succeeds(m, calls, p)
      && calls[n].event == Pong(calls[p].event.id)
  {
    var m := Create(Client, policy, start).value;
    assert calls[..n + 1][..n] == calls[..n];
    ReachableInv(Client, policy, start, calls[..n]);
    EstablishedBy(After(m, calls[..n]), calls[n].event, calls[n].now);
    PingsAreRecent(Client, policy, start, calls[..n]);
    h, p := LastHandshake(m, calls[..n]), LastPing(m, calls[..n]);
    LastHandshakeIs(m, calls, n);
    LastPingIs(m, calls, n);
  }

  lemma {:induction false} LastHandshakeIs(m: Snapshot, calls: seq<Call>, n: nat)
    requires n <= |calls|
    ensures var h := LastHandshake(m, calls[..n]);
      && -1 <= h < n
      && (h >= 0 ==> calls[h].event.HandshakeComplete? && Succeeds(m, calls, h))
      && (forall k :: h < k < n && calls[k].event.HandshakeComplete? ==> !Succeeds(m, calls, k))
  {
    hide Apply;
    if n > 0 {
      LastHandshakeIs(m, calls, n - 1);
      assert calls[..n][..n - 1] == calls[..n - 1];
    }
  }

  lemma {:induction false} LastPingIs(m: Snapshot, calls: seq<Call>, n: nat)
    requires n <= |calls|
    ensures var p := LastPing(m, calls[..n]);
      -1 <= p < n && (p >= 0 ==> calls[p].event.IssuePing? && Succeeds(m, calls, p))
  {
    hide Apply;
    if n > 0 {
      LastPingIs(m, calls, n - 1);
      assert calls[..n][..n - 1] == calls[..n - 1];
    }
  }

  /** From any state but Idle, two timeouts that are due lead to Closed, whatever the state was. */
  lemma TwoTimeoutsClose(m: Snapshot, t1: int, t2: int)
    requires Inv(m) && m.state != Idle
    requires m.lastEventAt <= t1 <= t2 && (m.deadline.Some? ==> Overdue(m, t1))
    requires var n := Apply(m, Timeout, t1).0; n.deadline.Some? ==> Overdue(n, t2)
    ensures Apply(Apply(m, Timeout, t1).0, Timeout, t2).0.state == Closed
    ensures m.state == InitialSent || m.state == PendingConfirm || m.state == Draining ==>
      Apply(m, Timeout, t1).0.state == Closed
  {
    hide Backoff, ValidPolicy;
  }

  /** Closed is final. */
  lemma {:induction false} ClosedForever(m: Snapshot, calls: seq<Call>)
    requires Inv(m) && m.state == Closed
    ensures Inv(After(m, calls)) && After(m, calls).state == Closed
  {
    if calls != [] {
      ClosedForever(m, calls[..|calls| - 1]);
      var last := calls[|calls| - 1];
      ApplyKeeps(After(m, calls[..|calls| - 1]), last.event, last.now);
      hide Inv, Backoff;
    }
  }

  /**
   As long as a server session stays Established, nothing renews the confirm grace: neither
   duplicates of the CONFIRM nor traffic, whatever the run.
   */
  lemma {:induction false} GraceNeverExtended(m: Snapshot, calls: seq<Call>)
    requires Inv(m) && m.role == Server && m.state == Established
    requires forall n :: 0 <= n <= |calls| ==> After(m, calls[..n]).state == Established
    ensures After(m, calls).graceUntil == m.graceUntil && After(m, calls).lastConfirm == m.lastConfirm
    ensures After(m, calls).enteredAt == m.enteredAt
  {
    if calls != [] {
      var (before, last) := (calls[..|calls| - 1], calls[|calls| - 1]);
      forall n | 0 <= n <= |before| ensures After(m, before[..n]).state == Established {
        assert before[..n] == calls[..n];
      }
      GraceNeverExtended(m, before);
      assert calls[..|calls|] == calls;
      hide Backoff, Inv;
    }
  }

  /** The states whose deadline no call can move. */
  function FixedDuration(p: Policy, state: State): Option<int> {
    match state
    case InitialSent => Some(p.initialSent)
    case PendingConfirm => Some(p.pendingConfirm)
    case Draining => Some(p.draining)
    case _ => None
  }

  /** In the state since that time, under the policy's deadline if the state fixes one. */
  predicate EnteredAt(m: Snapshot, state: State, at: int) {
    && m.state == state && m.enteredAt == at
    && (FixedDuration(m.policy, state).Some? ==> m.deadline == Some(at + FixedDuration(m.policy, state).value))
  }

  /** A call that changes the state succeeds and enters it at its own time. */
  lemma EntersNow(m: Snapshot, e: Event, now: int)
    requires Apply(m, e, now).0.state != m.state
    ensures EnteredAt(Apply(m, e, now).0, Apply(m, e, now).0.state, now) && !Apply(m, e, now).1.Failed()
    ensures Apply(m, e, now).0.state == Established ==> Apply(m, e, now).0.deadline == Some(now + m.policy.establishedIdle)
    ensures Apply(m, e, now).0.state == Rekeying ==> Apply(m, e, now).0.deadline == Some(now + m.policy.pendingConfirm)
  {
    hide Backoff;
  }

  /**
   A call that does not change the state leaves the entry time alone, and moves the deadline exactly if it
   is traffic or a repeated CONFIRM in Established, or completes a rekey, and succeeds.
   */
  lemma StaysEntered(m: Snapshot, e: Event, now: int)
    requires Apply(m, e, now).0.state == m.state
    ensures var n := Apply(m, e, now).0;
      && n.enteredAt == m.enteredAt
      && n.deadline ==
           if Apply(m, e, now).1.Failed() then m.deadline
           else if m.state == Established && (e.Activity? || e.ConfirmPing?) then Some(now + m.policy.establishedIdle)
           else if m.state == Rekeying && e.HandshakeComplete? then Some(now + m.policy.pendingConfirm)
           else m.deadline
  {
    hide Backoff;
  }

  /** Ever since call k the machine has been in the state, entered at that call's time. */
  ghost predicate EnteredBy(m: Snapshot, calls: seq<Call>, k: nat, state: State)
    requires k < |calls|
  {
    forall n :: k < n <= |calls| ==> EnteredAt(After(m, calls[..n]), state, calls[k].now)
  }

  lemma EnteredOneMore(m: Snapshot, calls: seq<Call>, k: nat, state: State)
    requires k < |calls| && EnteredAt(After(m, calls), state, calls[k].now)
    requires k < |calls| - 1 ==> EnteredBy(m, calls[..|calls| - 1], k, state)
    ensures EnteredBy(m, calls, k, state)
  {
    hide After, EnteredAt;
    var before := calls[..|calls| - 1];
    forall n | k < n <= |calls| ensures EnteredAt(After(m, calls[..n]), state, calls[k].now) {
      assert calls[..|calls|] == calls;
      assert n < |calls| ==> before[..n] == calls[..n];
    }
  }

  lemma EnteredLast(m: Snapshot, calls: seq<Call>, k: nat, state: State)
    requires k < |calls| && EnteredBy(m, calls, k, state)
    ensures EnteredAt(After(m, calls), state, calls[k].now)
  {
    hide After, EnteredAt;
    assert calls[..|calls|] == calls;
  }

  /**
   Deadlines are fixed at entry: in every run from a new machine the present state was entered by one
   successful call and not left since. That call's time is the entry time throughout, and in InitialSent,
   PendingConfirm and Draining the deadline is throughout that time plus the policy's duration, whatever
   retries, retransmissions and pings came in between.
   */
  lemma {:induction false} FixedAtEntry(role: Role, policy: Policy, start: int, calls: seq<Call>) returns (k: nat)
    requires Create(role, policy, start).Some? && After(Create(role, policy, start).value, calls).state != Idle
    ensures var m := Create(role, policy, start).value;
      && k < |calls| && After(m, calls[..k]).state != After(m, calls).state && Succeeds(m, calls, k)
      && EnteredBy(m, calls, k, After(m, calls).state) && After(m, calls).policy == policy
  {
    hide Apply, EnteredBy, EnteredAt, ValidPolicy;
    var m := Create(role, policy, start).value;
    var (before, last) := (calls[..|calls| - 1], calls[|calls| - 1]);
    var (a, b) := (After(m, before), After(m, calls));
    RunPolicy(m, calls);
    if a.state == b.state {
      k := FixedAtEntry(role, policy, start, before);
      EnteredLast(m, before, k, b.state);
      StillEntered(a, last.event, last.now, calls[k].now);
      assert before[..k] == calls[..k];
    } else {
      k := |calls| - 1;
      EntersNow(a, last.event, last.now);
    }
    EnteredOneMore(m, calls, k, b.state);
  }

  lemma StillEntered(m: Snapshot, e: Event, now: int, at: int)
    requires EnteredAt(m, m.state, at) && Apply(m, e, now).0.state == m.state
    ensures EnteredAt(Apply(m, e, now).0, m.state, at)
  {
    hide Apply;
    StaysEntered(m, e, now);
    FixedFields(m, e, now);
  }

  lemma {:induction false} RunPolicy(m: Snapshot, calls: seq<Call>)
    ensures After(m, calls).policy == m.policy && After(m, calls).role == m.role
  {
    if calls != [] {
      var (before, last) := (calls[..|calls| - 1], calls[|calls| - 1]);
      RunPolicy(m, before);
      FixedFields(After(m, before), last.event, last.now);
      hide Apply;
    }
  }

  // ---------------------------------------------------------------------------------------------
  // The machine as an object
  // ---------------------------------------------------------------------------------------------

  class Machine {
    const role: Role
    const policy: Policy
    var state: State
    var enteredAt: int
    var lastEventAt: int
    var deadline: Option<int>
    var initialRetries: nat
    var controlRetries: nat
    var ping: Option<uint64>
    var rekeyReady: bool
    var lastConfirm: Option<uint64>
    var graceUntil: int

    constructor (role: Role, policy: Policy, now: int)
      requires ValidPolicy(policy)
      ensures Create(role, policy, now) == Some(View())
    {
      this.role, this.policy, state := role, policy, Idle;
      enteredAt, lastEventAt, deadline := now, now, None;
      initialRetries, controlRetries := 0, 0;
      ping, rekeyReady, lastConfirm, graceUntil := None, false, None, 0;
    }

    /** An invalid policy yields no machine. */
    static method NewMachine(role: Role, policy: Policy, now: int) returns (m: Machine?)
      ensures m == null <==> Create(role, policy, now).None?
      ensures m != null ==> fresh(m) && Create(role, policy, now) == Some(m.View())
    {
      var ok := Validate(policy);
      if !ok {
        return null;
      }
      m := new Machine(role, policy, now);
    }

    function View(): Snapshot
      reads this
    {
      Snapshot(role, policy, state, enteredAt, lastEventAt, deadline, initialRetries, controlRetries,
               ping, rekeyReady, lastConfirm, graceUntil)
    }

    method ClearPingLocked()
      modifies this
      ensures View() == ClearPing(old(View()))
    {
      ping := None;
      controlRetries := 0;
    }

    method SetStateLocked(next: State, now: int)
      modifies this
      ensures View() == Enter(old(View()), next, now)
    {
      state, enteredAt, lastEventAt := next, now, now;
      match next {
        case Idle =>
          deadline := None;
        case InitialSent =>
          deadline := Some(now + policy.initialSent);
          initialRetries := 0;
          ClearPingLocked();
        case PendingConfirm =>
          deadline := Some(now + policy.pendingConfirm);
          ClearPingLocked();
        case Established =>
          deadline := Some(now + policy.establishedIdle);
          rekeyReady := false;
        case Rekeying =>
          deadline := Some(now + policy.pendingConfirm);
          rekeyReady := false;
          ClearPingLocked();
        case Draining =>
          deadline := Some(now + policy.draining);
          rekeyReady := false;
          ClearPingLocked();
        case Closed =>
          deadline := None;
          rekeyReady := false;
          ClearPingLocked();
      }
    }

    /** The checks most calls start with: time, deadline, transition table. */
    method Admit(event: Event, now: int) returns (failure: Option<Outcome>)
      requires ChecksDeadline(event)
      ensures failure.Some? ==> Apply(View(), event, now) == (View(), failure.value) && failure.value.Failed()
      ensures failure.None? ==> NextState(role, state, event).Some?
      ensures failure.None? ==>
        Apply(View(), event, now) == Effect(View(), event, NextState(role, state, event).value, now)
    {
      hide NextState, Effect;
      if now < lastEventAt {
        return Some(TimeRegression);
      }
      if deadline.Some? && now >= deadline.value {
        return Some(TimedOut);
      }
      failure := if NextState(role, state, event).None? then Some(Illegal) else None;
    }

    method BeginHandshake(now: int) returns (r: Outcome)
      modifies this
      ensures (View(), r) == Apply(old(View()), Event.BeginHandshake, now)
    {
      if now < lastEventAt {
        return TimeRegression;
      }
      var next := NextState(role, state, Event.BeginHandshake);
      if next.None? {
        return Illegal;
      }
      SetStateLocked(next.value, now);
      r := Done;
    }

    method HandleRetry(now: int) returns (r: Outcome)
      modifies this
      ensures (View(), r) == Apply(old(View()), RetryReceived, now)
    {
      var failure := Admit(RetryReceived, now);
      if failure.Some? {
        return failure.value;
      }
      initialRetries := 0;
      lastEventAt := now;
      r := Done;
    }

    method RecordInitialRetransmission(now: int) returns (r: Outcome)
      requires ValidPolicy(policy) && policy.maxRetryBackoff <= MAX_DURATION && initialRetries <= policy.maxInitialRetries
      modifies this
      ensures (View(), r) == Apply(old(View()), RetransmitInitial, now)
    {
      PositivePolicy(policy);
      var failure := Admit(RetransmitInitial, now);
      if failure.Some? {
        return failure.value;
      }
      if initialRetries >= policy.maxInitialRetries {
        return RetriesExhausted;
      }
      var delay := BoundedBackoff(policy.initialRetryBase, initialRetries, policy.maxRetryBackoff);
      initialRetries := initialRetries + 1;
      lastEventAt := now;
      r := Wait(delay);
    }

    /** HandshakeComplete enters PendingConfirm, or marks the new handshake of a rekey ready. */
    method CompleteHandshake(now: int) returns (r: Outcome)
      modifies this
      ensures (View(), r) == Apply(old(View()), HandshakeComplete, now)
    {
      var failure := Admit(HandshakeComplete, now);
      if failure.Some? {
        return failure.value;
      }
      if state == Rekeying {
        rekeyReady := true;
        ClearPingLocked();
        deadline := Some(now + policy.pendingConfirm);
        lastEventAt := now;
        return Done;
      }
      SetStateLocked(NextState(role, state, HandshakeComplete).value, now);
      r := Done;
    }

    method SendPing(id: uint64, now: int) returns (r: Outcome)
      modifies this
      ensures (View(), r) == Apply(old(View()), IssuePing(id), now)
    {
      var failure := Admit(IssuePing(id), now);
      if failure.Some? {
        return failure.value;
      }
      if state == Rekeying && !rekeyReady {
        return Illegal;
      }
      if ping.Some? {
        return PingOutstanding;
      }
      ping := Some(id);
      controlRetries := 0;
      lastEventAt := now;
      r := Done;
    }

    method RecordPingRetransmission(id: uint64, now: int) returns (r: Outcome)
      requires ValidPolicy(policy) && policy.maxRetryBackoff <= MAX_DURATION && controlRetries <= policy.maxControlRetries
      modifies this
      ensures (View(), r) == Apply(old(View()), RetransmitPing(id), now)
    {
      PositivePolicy(policy);
      var failure := Admit(RetransmitPing(id), now);
      if failure.Some? {
        return failure.value;
      }
      if ping.None? {
        return NoPing;
      }
      if ping.value != id {
        return PongMismatch;
      }
      if controlRetries >= policy.maxControlRetries {
        return RetriesExhausted;
      }
      var delay := BoundedBackoff(policy.controlRetryBase, controlRetries, policy.maxRetryBackoff);
      controlRetries := controlRetries + 1;
      lastEventAt := now;
      r := Wait(delay);
    }

    method AcceptPong(id: uint64, now: int) returns (r: Outcome)
      modifies this
      ensures (View(), r) == Apply(old(View()), Pong(id), now)
    {
      var failure := Admit(Pong(id), now);
      if failure.Some? {
        return failure.value;
      }
      var next := NextState(role, state, Pong(id)).value;
      if ping.None? {
        return NoPing;
      }
      if ping.value != id {
        return PongMismatch;
      }
      ClearPingLocked();
      SetStateLocked(next, now);
      r := Done;
    }

    method AcceptConfirmPing(id: uint64, now: int) returns (r: Outcome)
      modifies this
      ensures (View(), r) == Apply(old(View()), ConfirmPing(id), now)
    {
      var failure := Admit(ConfirmPing(id), now);
      if failure.Some? {
        return failure.value;
      }
      var next := NextState(role, state, ConfirmPing(id)).value;
      if state == Rekeying && !rekeyReady {
        return Illegal;
      }
      if state == Established {
        if lastConfirm != Some(id) {
          return ConfirmMismatch;
        }
        if now > graceUntil {
          return GraceExpired;
        }
        lastEventAt := now;
        deadline := Some(now + policy.establishedIdle);
        return DuplicateConfirm;
      }
      lastConfirm := Some(id);
      graceUntil := now + policy.confirmGrace;
      SetStateLocked(next, now);
      r := Done;
    }

    method Rekey(now: int) returns (r: Outcome)
      modifies this
      ensures (View(), r) == Apply(old(View()), BeginRekey, now)
    {
      var failure := Admit(BeginRekey, now);
      if failure.Some? {
        return failure.value;
      }
      SetStateLocked(NextState(role, state, BeginRekey).value, now);
      r := Done;
    }

    method Touch(now: int) returns (r: Outcome)
      modifies this
      ensures (View(), r) == Apply(old(View()), Activity, now)
    {
      var failure := Admit(Activity, now);
      if failure.Some? {
        return failure.value;
      }
      lastEventAt := now;
      deadline := Some(now + policy.establishedIdle);
      r := Done;
    }

    method Drain(now: int) returns (r: Outcome)
      modifies this
      ensures (View(), r) == Apply(old(View()), BeginDrain, now)
    {
      if now < lastEventAt {
        return TimeRegression;
      }
      var next := NextState(role, state, BeginDrain);
      if next.None? {
        return Illegal;
      }
      SetStateLocked(next.value, now);
      r := Done;
    }

    method CheckTimeout(now: int) returns (r: Outcome)
      modifies this
      ensures (View(), r) == Apply(old(View()), Timeout, now)
    {
      if now < lastEventAt {
        return TimeRegression;
      }
      if deadline.None? || now < deadline.value {
        return NotDue;
      }
      var next := NextState(role, state, Timeout);
      if next.None? {
        return Illegal;
      }
      SetStateLocked(next.value, now);
      r := Done;
    }

    method Shut(now: int) returns (r: Outcome)
      modifies this
      ensures (View(), r) == Apply(old(View()), Close, now)
    {
      if now < lastEventAt {
        return TimeRegression;
      }
      if state == Closed {
        return Done;
      }
      SetStateLocked(NextState(role, state, Close).value, now);
      r := Done;
    }
  }
}
