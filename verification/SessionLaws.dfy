/**
 What each call of the session machine is for, event by event: when it succeeds, where it leads, which
 deadline holds and what the retry counters count. The transition table is by role and state; these laws
 are by event, over every machine that keeps the invariant and over every run.
 */
module SessionLaws {
  import opened Bytes
  import opened Session

  /** When a call that is not late in time succeeds. */
  predicate Admissible(m: Snapshot, e: Event, now: int) {
    var intime := !Overdue(m, now);
    match e
    case BeginHandshake => m.role == Client && m.state == Idle
    case RetryReceived => m.state == InitialSent && intime
    case RetransmitInitial => m.state == InitialSent && intime && m.initialRetries < m.policy.maxInitialRetries
    case HandshakeComplete =>
      intime && (m.state == InitialSent || (m.role == Server && m.state == Idle) || m.state == Rekeying)
    case IssuePing(_) =>
      m.role == Client && intime && m.ping.None? && (m.state == PendingConfirm || m.rekeyReady)
    case RetransmitPing(id) => intime && m.ping == Some(id) && m.controlRetries < m.policy.maxControlRetries
    case Pong(id) => intime && m.ping == Some(id)
    case ConfirmPing(id) =>
      && m.role == Server && intime
      && (m.state == PendingConfirm || m.rekeyReady
          || (m.state == Established && m.lastConfirm == Some(id) && now <= m.enteredAt + m.policy.confirmGrace))
    case Activity => m.state == Established && intime
    case BeginRekey => m.state == Established && intime
    case BeginDrain => m.state == Established || m.state == Rekeying
    case Timeout => true
    case Close => true
  }

  /** A call succeeds exactly when its time does not go back and its event is admissible. */
  lemma SucceedsExactly(m: Snapshot, e: Event, now: int)
    requires Inv(m)
    ensures !Apply(m, e, now).1.Failed() <==> now >= m.lastEventAt && Admissible(m, e, now)
  {
    hide Backoff, Enter, ValidPolicy;
  }

  /** What each refusal means. */
  lemma FailureKinds(m: Snapshot, e: Event, now: int)
    requires Inv(m)
    ensures var r := Apply(m, e, now).1; var late := now >= m.lastEventAt && Overdue(m, now);
      && (r == TimeRegression <==> now < m.lastEventAt)
      && (r == TimedOut <==> late && !(e.BeginHandshake? || e.BeginDrain? || e.Timeout? || e.Close?))
      && (r == RetriesExhausted ==>
            if e.RetransmitInitial? then m.initialRetries == m.policy.maxInitialRetries
            else e.RetransmitPing? && m.controlRetries == m.policy.maxControlRetries)
      && (r == PingOutstanding ==> e.IssuePing? && m.ping.Some?)
      && (r == NoPing ==> (e.RetransmitPing? || e.Pong?) && m.ping.None?)
      && (r == PongMismatch ==> (e.RetransmitPing? || e.Pong?) && m.ping.Some? && m.ping != Some(e.id))
      && (r == ConfirmMismatch ==> e.ConfirmPing? && m.state == Established && m.lastConfirm != Some(e.id))
      && (r == GraceExpired ==> e.ConfirmPing? && m.state == Established && now > m.enteredAt + m.policy.confirmGrace)
  {
    hide Backoff, Enter, ValidPolicy;
  }

  /** Where a successful call leads. */
  ghost predicate LeadsTo(m: Snapshot, e: Event, now: int, n: Snapshot, r: Outcome) {
    match e
    case BeginHandshake => n.state == InitialSent && n.initialRetries == 0
    case RetryReceived => n == m.(initialRetries := 0, lastEventAt := now)
    case RetransmitInitial => n == m.(initialRetries := m.initialRetries + 1, lastEventAt := now)
    case HandshakeComplete =>
      if m.state == Rekeying then n.state == Rekeying && n.rekeyReady && n.ping.None?
      else n.state == PendingConfirm && n.ping.None? && !n.rekeyReady
    case IssuePing(id) => n == m.(ping := Some(id), controlRetries := 0, lastEventAt := now)
    case RetransmitPing(_) => n == m.(controlRetries := m.controlRetries + 1, lastEventAt := now)
    case Pong(_) => n.state == Established && n.ping.None? && !n.rekeyReady
    case ConfirmPing(id) =>
      && n.state == Established && n.lastConfirm == Some(id) && !n.rekeyReady
      && n.graceUntil == (if m.state == Established then m.graceUntil else now + m.policy.confirmGrace)
      && (r == DuplicateConfirm <==> m.state == Established)
    case Activity => n.state == Established
    case BeginRekey => n.state == Rekeying && !n.rekeyReady
    case BeginDrain => n.state == Draining
    case Timeout =>
      if !Overdue(m, now) then n == m && r == NotDue
      else n.state == if m.state == Established || m.state == Rekeying then Draining else Closed
    case Close => n.state == Closed
  }

  lemma LeadsExactly(m: Snapshot, e: Event, now: int)
    requires Inv(m) && !Apply(m, e, now).1.Failed()
    ensures var (n, r) := Apply(m, e, now); LeadsTo(m, e, now, n, r) && (n != m ==> n.lastEventAt == now)
  {
    hide Backoff, ValidPolicy;
  }

  /** The delays asked for: those of the initial retries for INITIAL, those of the control retries for pings. */
  lemma DelayIs(m: Snapshot, e: Event, now: int)
    requires Inv(m) && !Apply(m, e, now).1.Failed()
    ensures var (r, p) := (Apply(m, e, now).1, m.policy);
      && (e.RetransmitInitial? ==> r == Wait(Backoff(p.initialRetryBase, m.initialRetries, p.maxRetryBackoff)))
      && (e.RetransmitPing? ==> r == Wait(Backoff(p.controlRetryBase, m.controlRetries, p.maxRetryBackoff)))
  {
    hide Backoff, Enter, ValidPolicy;
  }

  // ---------------------------------------------------------------------------------------------
  // Deadlines over runs
  // ---------------------------------------------------------------------------------------------

  /** How long a state lasts from the call that set its deadline. */
  function Duration(p: Policy, state: State): int
    requires state != Idle && state != Closed
  {
    match state
    case InitialSent => p.initialSent
    case PendingConfirm => p.pendingConfirm
    case Established => p.establishedIdle
    case Rekeying => p.pendingConfirm
    case Draining => p.draining
  }

  /** The events that restart the clock of a state without leaving it. */
  predicate Renews(state: State, e: Event) {
    (state == Established && (e.Activity? || e.ConfirmPing?)) || (state == Rekeying && e.HandshakeComplete?)
  }

  /** A successful call that enters the state or restarts its clock. */
  ghost predicate Sets(a: Snapshot, call: Call, state: State) {
    var (b, r) := Apply(a, call.event, call.now);
    !r.Failed() && b.state == state && (a.state != state || Renews(state, call.event))
  }

  /** Such a call sets the deadline from its own time; any other that stays in the state leaves it. */
  lemma SetsDeadline(a: Snapshot, call: Call)
    ensures var (b, r) := Apply(a, call.event, call.now);
      b.state != Idle && b.state != Closed ==>
        if Sets(a, call, b.state) then b.deadline == Some(call.now + Duration(a.policy, b.state))
        else b.state == a.state && b.deadline == a.deadline
  {
    hide Apply;
    if Apply(a, call.event, call.now).0.state != a.state {
      EntersNow(a, call.event, call.now);
      FixedFields(a, call.event, call.now);
    } else {
      StaysEntered(a, call.event, call.now);
    }
  }

  /**
   In every run the deadline is the state's duration after the latest call that set it: the entry, or, in
   Established, later traffic or a repeated CONFIRM, or, in Rekeying, a later completed handshake.
   */
  lemma {:induction false} DeadlineLaw(role: Role, policy: Policy, start: int, calls: seq<Call>) returns (k: nat)
    requires Create(role, policy, start).Some?
    requires var b := After(Create(role, policy, start).value, calls); b.state != Idle && b.state != Closed
    ensures var m := Create(role, policy, start).value; var b := After(m, calls);
      && k < |calls| && Sets(After(m, calls[..k]), calls[k], b.state)
      && (forall n :: k < n < |calls| ==> After(m, calls[..n]).state == b.state && !Sets(After(m, calls[..n]), calls[n], b.state))
      && b.deadline == Some(calls[k].now + Duration(policy, b.state))
  {
    hide Apply, Sets, ValidPolicy;
    var m := Create(role, policy, start).value;
    var (before, last) := (calls[..|calls| - 1], calls[|calls| - 1]);
    var (a, b) := (After(m, before), After(m, calls));
    RunPolicy(m, before);
    SetsDeadline(a, last);
    if Sets(a, last, b.state) {
      k := |calls| - 1;
    } else {
      k := DeadlineLaw(role, policy, start, before);
      assert before[..k] == calls[..k];
      forall n | k < n < |calls| ensures After(m, calls[..n]).state == b.state && !Sets(After(m, calls[..n]), calls[n], b.state) {
        assert n < |before| ==> before[..n] == calls[..n] && before[n] == calls[n];
      }
    }
  }

  // ---------------------------------------------------------------------------------------------
  // Retry counters over runs
  // ---------------------------------------------------------------------------------------------

  /** INITIAL retransmissions since the handshake began or the server last asked for a retry. */
  function InitialRetransmissions(m: Snapshot, calls: seq<Call>): nat {
    if calls == [] then 0
    else
      var (before, n) := (calls[..|calls| - 1], |calls| - 1);
      var e := calls[n].event;
      if !Succeeds(m, calls, n) then InitialRetransmissions(m, before)
      else if e.RetransmitInitial? then InitialRetransmissions(m, before) + 1
      else if e.BeginHandshake? || e.RetryReceived? then 0
      else InitialRetransmissions(m, before)
  }

  /** Retransmissions of the outstanding ping. */
  function PingRetransmissions(m: Snapshot, calls: seq<Call>): nat {
    if calls == [] then 0
    else
      var (before, n) := (calls[..|calls| - 1], |calls| - 1);
      var e := calls[n].event;
      if !Succeeds(m, calls, n) then PingRetransmissions(m, before)
      else if e.RetransmitPing? then PingRetransmissions(m, before) + 1
      else if After(m, calls).ping.None? || e.IssuePing? then 0
      else PingRetransmissions(m, before)
  }

  lemma CounterStep(m: Snapshot, e: Event, now: int)
    requires Inv(m) && !Apply(m, e, now).1.Failed()
    ensures var n := Apply(m, e, now).0;
      && n.initialRetries == (if e.RetransmitInitial? then m.initialRetries + 1 else if e.BeginHandshake? || e.RetryReceived? then 0 else m.initialRetries)
      && n.controlRetries == (if e.RetransmitPing? then m.controlRetries + 1 else if n.ping.None? || e.IssuePing? then 0 else m.controlRetries)
  {
    hide Backoff, ValidPolicy;
  }

  /** The counters count: in every run they are the numbers of retransmissions that their delays depend on. */
  lemma {:induction false} RetriesCounted(role: Role, policy: Policy, start: int, calls: seq<Call>)
    requires Create(role, policy, start).Some?
    ensures var m := Create(role, policy, start).value;
      && After(m, calls).initialRetries == InitialRetransmissions(m, calls)
      && After(m, calls).controlRetries == PingRetransmissions(m, calls)
  {
    if calls != [] {
      var m := Create(role, policy, start).value;
      var (before, last) := (calls[..|calls| - 1], calls[|calls| - 1]);
      var a := After(m, before);
      RetriesCounted(role, policy, start, before);
      ReachableInv(role, policy, start, before);
      if Apply(a, last.event, last.now).1.Failed() {
        FailureChangesNothing(a, last.event, last.now);
      } else {
        CounterStep(a, last.event, last.now);
      }
      hide Apply, Inv;
    }
  }
}
