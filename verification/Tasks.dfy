/** Task records and the pure rules by which one record becomes the next. */
module Tasks {
  import opened Prelude

  type TaskId = nat
  type Token = nat

  datatype Status =
    | Pending
    | Running
    | Deferred
    | Succeeded
    | Failed
    | Cancelled
    | Blocked
    | Review

  predicate IsTerminal(s: Status) {
    s.Succeeded? || s.Failed? || s.Cancelled? || s.Blocked?
  }

  /** The two states from which a task may be claimed. */
  predicate IsQueued(s: Status) {
    s.Pending? || s.Deferred?
  }

  datatype Task = Task(
    id: TaskId,
    worker: string,
    action: string,
    inputEventId: string,
    inputIdentityKey: Option<string>,
    branchId: Option<string>,
    routeRuleId: Option<string>,
    routingReason: Option<string>,
    status: Status,
    priority: real,
    attempts: nat,
    maxAttempts: nat,
    createdAt: Time,
    updatedAt: Time,
    availableAt: Time,
    startedAt: Option<Time>,
    finishedAt: Option<Time>,
    leaseExpiresAt: Option<Time>,
    claimToken: Option<Token>,
    lastError: Option<string>)

  function DedupeKey(t: Task): string {
    t.worker + ":" + t.action + ":" +
    (if t.inputIdentityKey.Some? && t.inputIdentityKey.value != "" then t.inputIdentityKey.value else t.inputEventId)
  }

  /** The record validator: what pydantic checks whenever a task is built. */
  predicate WellFormed(t: Task) {
    && t.attempts <= t.maxAttempts
    && 1 <= t.maxAttempts
    && (t.finishedAt.Some? ==> IsTerminal(t.status))
    && (t.status.Running? ==> t.startedAt.Some? && t.claimToken.Some?)
    && (!t.status.Running? ==> t.leaseExpiresAt.None? && t.claimToken.None?)
  }

  /** The lock-protected operations of the queue, with their arguments. */
  datatype Op =
    | Heartbeat(token: Token, leaseFor: Time)
    | Succeed(token: Token)
    | Fail(token: Token, error: string, retryDelay: Option<Time>)
    | Defer(delay: Time, deferReason: Option<string>)
    | Block(blockReason: string)
    | SendToReview(reviewReason: string)
    | ReleaseReview(releaseDelay: Time)
    | Cancel(cancelReason: Option<string>)

  function NonBlank(s: string, otherwise: string): string {
    if s == "" then otherwise else s
  }

  function BlankToNone(s: string): Option<string> {
    if s == "" then None else Some(s)
  }

  /** The terminal record that `_finish` builds; an absent error keeps the old one. */
  function Finished(t: Task, status: Status, error: Option<string>, now: Time): Task {
    t.(leaseExpiresAt := None, claimToken := None, status := status, updatedAt := now, finishedAt := Some(now),
       lastError := if error.Some? then BlankToNone(error.value) else t.lastError)
  }

  /** A failed execution: deferred while a delay is given and attempts remain, FAILED otherwise. */
  function FailedAttempt(t: Task, error: string, retryDelay: Option<Time>, now: Time): Task {
    var released := t.(leaseExpiresAt := None, claimToken := None, updatedAt := now, lastError := Some(error));
    if retryDelay.Some? && t.attempts < t.maxAttempts then
      released.(status := Deferred, availableAt := now + retryDelay.value, startedAt := None, finishedAt := None)
    else
      released.(status := Failed, finishedAt := Some(now))
  }

  /** What an operation makes of the record it reads, or Rejected. */
  function Transition(t: Task, op: Op, now: Time): (r: Result<Task>) {
    match op
    case Heartbeat(token, leaseFor) =>
      if leaseFor <= 0.0 || !t.status.Running? || t.claimToken != Some(token) then Err(Rejected)
      else Ok(t.(leaseExpiresAt := Some(now + leaseFor), updatedAt := now))
    case Succeed(token) =>
      if !t.status.Running? || t.claimToken != Some(token) then Err(Rejected)
      else Ok(Finished(t, Succeeded, None, now))
    case Fail(token, error, retryDelay) =>
      if !t.status.Running? || t.claimToken != Some(token) then Err(Rejected)
      else if retryDelay.Some? && t.attempts < t.maxAttempts && retryDelay.value < 0.0 then Err(Rejected)
      else Ok(FailedAttempt(t, NonBlank(error, "unknown error"), retryDelay, now))
    case Defer(delay, reason) =>
      if delay < 0.0 || !IsQueued(t.status) then Err(Rejected)
      else Ok(t.(status := Deferred, availableAt := now + delay, updatedAt := now,
                 lastError := if reason.Some? && reason.value != "" then reason else t.lastError))
    case Block(reason) =>
      if IsTerminal(t.status) then Err(Rejected) else Ok(Finished(t, Blocked, Some(reason), now))
    case SendToReview(reason) =>
      if IsTerminal(t.status) then Err(Rejected)
      else Ok(t.(leaseExpiresAt := None, claimToken := None, status := Review, startedAt := None, finishedAt := None,
                 updatedAt := now, lastError := Some(NonBlank(reason, "manual review required"))))
    case ReleaseReview(delay) =>
      if delay < 0.0 || !t.status.Review? then Err(Rejected)
      else Ok(t.(availableAt := now + delay, updatedAt := now, lastError := None,
                 status := if delay == 0.0 then Pending else Deferred, startedAt := None))
    case Cancel(reason) =>
      if IsTerminal(t.status) then Err(Rejected) else Ok(Finished(t, Cancelled, reason, now))
  }

  predicate LeaseExpired(t: Task, now: Time) {
    t.status.Running? && t.leaseExpiresAt.Some? && t.leaseExpiresAt.value <= now
  }

  /** The record that lease recovery stores for an expired one. */
  function Recovered(t: Task, retryDelay: Time, now: Time): Task {
    FailedAttempt(t, "worker lease expired", Some(retryDelay), now)
  }

  predicate ReadyAt(t: Task, now: Time) {
    IsQueued(t.status) && t.availableAt <= now && t.attempts < t.maxAttempts
  }

  function Claimed(t: Task, token: Token, now: Time, leaseExpiresAt: Time): Task {
    t.(attempts := t.attempts + 1, startedAt := Some(now), finishedAt := None, status := Running,
       leaseExpiresAt := Some(leaseExpiresAt), claimToken := Some(token), updatedAt := now, lastError := None)
  }

  /** Fields that no operation and no claim ever rewrites. */
  predicate SameIdentity(a: Task, b: Task) {
    && a.id == b.id
    && a.maxAttempts == b.maxAttempts
    && a.createdAt == b.createdAt
    && a.worker == b.worker
    && a.action == b.action
    && a.inputEventId == b.inputEventId
    && a.inputIdentityKey == b.inputIdentityKey
    && a.branchId == b.branchId
  }

  /** An operation keeps identity and the attempt count, never mints a token, and never
      produces a record the validator would refuse. */
  lemma TransitionIsLawful(t: Task, op: Op, now: Time)
    requires WellFormed(t) && Transition(t, op, now).Ok?
    ensures var u := Transition(t, op, now).value;
      && WellFormed(u)
      && SameIdentity(t, u) && DedupeKey(u) == DedupeKey(t)
      && u.attempts == t.attempts
      && (u.claimToken.Some? <==> op.Heartbeat?)
      && (u.claimToken.Some? ==> u.claimToken == t.claimToken)
      && !IsTerminal(t.status)
      && (u.status.Running? <==> op.Heartbeat?)
      && (u.status.Running? ==> u.leaseExpiresAt.Some?)
  {
  }

  /** Only the current token can end, extend or fail a claim. */
  lemma StaleTokenIsRejected(t: Task, op: Op, now: Time)
    requires WellFormed(t)
    requires op.Heartbeat? || op.Succeed? || op.Fail?
    ensures Transition(t, op, now).Ok? ==> t.status.Running? && t.claimToken == Some(op.token)
  {
  }
}
