/** What a queue operation makes possible: when its task can be claimed next, when its claim can be
    taken away, and what the record says of it. */
module TaskTimes {
  import opened Prelude
  import opened Tasks
  import opened TaskRuns

  /** Claims of the task are accepted from `from` on and not before; never, if there is no such instant. */
  ghost predicate OpensAt(s: Store, id: TaskId, from: Option<Time>) {
    forall now, leaseFor ::
      Rewrite(s, Claim(id, now, leaseFor)).Some? <==> from.Some? && now >= from.value && leaseFor > 0.0
  }

  /** Recovery takes the task's claim away from `from` on and not before. */
  ghost predicate ExpiresAt(s: Store, id: TaskId, from: Option<Time>) {
    forall now, retryDelay ::
      Rewrite(s, Recover(id, now, retryDelay)).Some? <==> from.Some? && now >= from.value && retryDelay >= 0.0
  }

  /** No operation is accepted any more. */
  ghost predicate IsDead(s: Store, id: TaskId) {
    && OpensAt(s, id, None) && ExpiresAt(s, id, None)
    && forall op, now :: Rewrite(s, Apply(id, op, now)).None?
  }

  /** `from`, if the task has an attempt left. */
  function IfAttemptsLeft(t: Task, from: Time): Option<Time> {
    if t.attempts < t.maxAttempts then Some(from) else None
  }

  /** The statuses tell what can happen to a task: a waiting one opens when it becomes available and has
      an attempt left, only a running one expires, and a finished one is dead. */
  lemma StatusTells(s: Store, id: TaskId)
    requires Inv(s) && id in s.tasks
    ensures var t := s.tasks[id];
      match t.status
      case Pending => OpensAt(s, id, IfAttemptsLeft(t, t.availableAt)) && ExpiresAt(s, id, None)
      case Deferred => OpensAt(s, id, IfAttemptsLeft(t, t.availableAt)) && ExpiresAt(s, id, None)
      case Running => OpensAt(s, id, None) && t.leaseExpiresAt.Some? && ExpiresAt(s, id, Some(t.leaseExpiresAt.value))
      case Review => OpensAt(s, id, None) && ExpiresAt(s, id, None)
      case Succeeded => IsDead(s, id)
      case Failed => IsDead(s, id)
      case Cancelled => IsDead(s, id)
      case Blocked => IsDead(s, id)
  {
    hide DedupeKey;
    assert RecordInv(s, id);
  }

  /** Which operations a record accepts. */
  lemma AcceptedIff(s: Store, id: TaskId, op: Op, now: Time)
    requires Inv(s)
    ensures Rewrite(s, Apply(id, op, now)).Some? <==>
      && id in s.tasks
      && var t := s.tasks[id];
      match op
      case Heartbeat(token, leaseFor) => t.status == Running && t.claimToken == Some(token) && leaseFor > 0.0
      case Succeed(token) => t.status == Running && t.claimToken == Some(token)
      case Fail(token, _, delay) =>
        && t.status == Running && t.claimToken == Some(token)
        && (delay.Some? && t.attempts < t.maxAttempts ==> delay.value >= 0.0)
      case Defer(delay, _) => t.status in {Pending, Deferred} && delay >= 0.0
      case Block(_) => t.status in {Pending, Deferred, Running, Review}
      case SendToReview(_) => t.status in {Pending, Deferred, Running, Review}
      case ReleaseReview(delay) => t.status == Review && delay >= 0.0
      case Cancel(_) => t.status in {Pending, Deferred, Running, Review}
  {
    hide DedupeKey;
  }

  function Told(reason: string, otherwise: string): Option<string> {
    Some(if |reason| == 0 then otherwise else reason)
  }

  /** What no operation touches. */
  predicate SameOrigin(t: Task, u: Task) {
    && u.id == t.id && u.worker == t.worker && u.action == t.action && u.branchId == t.branchId
    && u.inputEventId == t.inputEventId && u.inputIdentityKey == t.inputIdentityKey
    && u.routeRuleId == t.routeRuleId && u.routingReason == t.routingReason
    && u.priority == t.priority && u.maxAttempts == t.maxAttempts && u.createdAt == t.createdAt
  }

  /** The status an accepted operation leaves, and what the record then says. */
  lemma RecordTells(s: Store, id: TaskId, op: Op, now: Time)
    requires Inv(s) && Rewrite(s, Apply(id, op, now)).Some?
    ensures var t, u := s.tasks[id], Next(s, Apply(id, op, now)).tasks[id];
      && u.updatedAt == now && u.attempts == t.attempts && SameOrigin(t, u)
      && (u.availableAt == t.availableAt || op.Defer? || op.ReleaseReview? || (op.Fail? && u.status == Deferred))
      && (u.startedAt == t.startedAt || op.SendToReview? || op.ReleaseReview? || (op.Fail? && u.status == Deferred))
      && match op
         case Heartbeat(token, _) =>
           u.status == Running && u.claimToken == Some(token) && u.lastError == t.lastError
         case Succeed(_) => u.status == Succeeded && u.finishedAt == Some(now) && u.lastError == t.lastError
         case Fail(_, error, delay) =>
           && u.lastError == Told(error, "unknown error")
           && (if delay.Some? && t.attempts < t.maxAttempts then u.status == Deferred && u.startedAt.None? && u.finishedAt.None?
               else u.status == Failed && u.finishedAt == Some(now))
         case Defer(_, reason) =>
           u.status == Deferred && u.lastError == if reason.Some? && |reason.value| > 0 then reason else t.lastError
         case Block(reason) =>
           u.status == Blocked && u.finishedAt == Some(now) && u.lastError == if |reason| > 0 then Some(reason) else None
         case SendToReview(reason) =>
           u.status == Review && u.startedAt.None? && u.finishedAt.None? && u.lastError == Told(reason, "manual review required")
         case ReleaseReview(delay) =>
           u.status == (if delay == 0.0 then Pending else Deferred) && u.startedAt.None? && u.lastError.None?
         case Cancel(reason) =>
           && u.status == Cancelled && u.finishedAt == Some(now)
           && u.lastError == match reason case None => t.lastError case Some(why) => if |why| > 0 then Some(why) else None
  {
    hide DedupeKey;
    assert RecordInv(s, id);
  }

  /** When the task can be claimed and its claim taken away after an accepted operation. */
  lemma OperationTakesEffect(s: Store, id: TaskId, op: Op, now: Time)
    requires Inv(s) && Rewrite(s, Apply(id, op, now)).Some?
    ensures var t, s' := s.tasks[id], Next(s, Apply(id, op, now));
      match op
      case Heartbeat(_, leaseFor) => OpensAt(s', id, None) && ExpiresAt(s', id, Some(now + leaseFor))
      case Succeed(_) => IsDead(s', id)
      case Fail(_, _, delay) =>
        if delay.Some? && t.attempts < t.maxAttempts then OpensAt(s', id, Some(now + delay.value)) && ExpiresAt(s', id, None)
        else IsDead(s', id)
      case Defer(delay, _) => OpensAt(s', id, IfAttemptsLeft(t, now + delay)) && ExpiresAt(s', id, None)
      case Block(_) => IsDead(s', id)
      case SendToReview(_) => OpensAt(s', id, None) && ExpiresAt(s', id, None)
      case ReleaseReview(delay) => OpensAt(s', id, IfAttemptsLeft(t, now + delay)) && ExpiresAt(s', id, None)
      case Cancel(_) => IsDead(s', id)
  {
    var step, s' := Apply(id, op, now), Next(s, Apply(id, op, now));
    NextKeepsInv(s, step);
    RecordTells(s, id, op, now);
    StatusTells(s', id);
    DelaysCount(s, id, op, now);
    hide DedupeKey, Inv, OpensAt, ExpiresAt, IsDead, Rewrite, Transition;
  }

  /** The instants an operation writes. */
  lemma DelaysCount(s: Store, id: TaskId, op: Op, now: Time)
    requires Inv(s) && Rewrite(s, Apply(id, op, now)).Some?
    ensures id in Next(s, Apply(id, op, now)).tasks
    ensures var t, u := s.tasks[id], Next(s, Apply(id, op, now)).tasks[id];
      && u.maxAttempts == t.maxAttempts
      && (op.Heartbeat? ==> u.leaseExpiresAt == Some(now + op.leaseFor))
      && (op.Fail? && u.status == Deferred ==> u.availableAt == now + op.retryDelay.value)
      && (op.Defer? ==> u.availableAt == now + op.delay)
      && (op.ReleaseReview? ==> u.availableAt == now + op.releaseDelay)
  {
    hide DedupeKey;
  }

  /** A claim holds its task for its lease: it is started and unblemished, counts one attempt more, and
      can be taken away from the end of the lease on. */
  lemma ClaimTakesEffect(s: Store, id: TaskId, now: Time, leaseFor: Time)
    requires Inv(s) && Rewrite(s, Claim(id, now, leaseFor)).Some?
    ensures var s' := Next(s, Claim(id, now, leaseFor));
      && id in s.tasks && id in s'.tasks
      && OpensAt(s', id, None) && ExpiresAt(s', id, Some(now + leaseFor))
      && var t, u := s.tasks[id], s'.tasks[id];
      && u.status == Running && u.claimToken == Some(s.nextToken) && u.attempts == t.attempts + 1
      && u.startedAt == Some(now) && u.finishedAt.None? && u.lastError.None? && u.updatedAt == now
      && u.availableAt == t.availableAt && SameOrigin(t, u)
  {
    hide DedupeKey;
    NextKeepsInv(s, Claim(id, now, leaseFor));
    StatusTells(Next(s, Claim(id, now, leaseFor)), id);
    hide Inv, OpensAt, ExpiresAt, IsDead;
  }

  /** Recovery puts a task with an attempt left back for after the delay and ends any other. */
  lemma RecoveryTakesEffect(s: Store, id: TaskId, now: Time, retryDelay: Time)
    requires Inv(s) && Rewrite(s, Recover(id, now, retryDelay)).Some?
    ensures var s' := Next(s, Recover(id, now, retryDelay));
      && id in s.tasks && id in s'.tasks
      && var t, u := s.tasks[id], s'.tasks[id];
      && t.status == Running && u.lastError == Some("worker lease expired") && u.attempts == t.attempts
      && u.updatedAt == now && SameOrigin(t, u)
      && (if t.attempts < t.maxAttempts
          then u.status == Deferred && OpensAt(s', id, Some(now + retryDelay)) && ExpiresAt(s', id, None)
          else u.status == Failed && u.finishedAt == Some(now) && IsDead(s', id))
  {
    hide DedupeKey;
    assert id in s.tasks && RecordInv(s, id);
    NextKeepsInv(s, Recover(id, now, retryDelay));
    StatusTells(Next(s, Recover(id, now, retryDelay)), id);
    hide Inv, OpensAt, ExpiresAt, IsDead;
  }

  // ----- a claim kept alive over runs ------------------------------------------------------------

  /** When the claim runs out, as the heartbeats under its token leave it. */
  function LeaseEnd(end: Time, steps: seq<Step>, id: TaskId, token: Token): Time
    decreases |steps|
  {
    if steps == [] then end else LeaseEnd(Renewed(end, steps[0], id, token), steps[1..], id, token)
  }

  function Renewed(end: Time, step: Step, id: TaskId, token: Token): Time {
    match step
    case Apply(i, Heartbeat(k, leaseFor), now) => if i == id && k == token && leaseFor > 0.0 then now + leaseFor else end
    case _ => end
  }

  /** An operation that ends the claim: its owner's completion, or an operator's block, review or cancel. */
  predicate EndsClaim(step: Step, id: TaskId, token: Token) {
    && step.Apply? && step.id == id
    && match step.op
       case Succeed(k) => k == token
       case Fail(k, _, _) => k == token
       case Block(_) => true
       case SendToReview(_) => true
       case Cancel(_) => true
       case _ => false
  }

  /** The owner heartbeats in time: every recovery of the task finds its lease not yet over. */
  predicate KeptAlive(end: Time, steps: seq<Step>, id: TaskId, token: Token)
    decreases |steps|
  {
    steps != [] ==>
      && !EndsClaim(steps[0], id, token)
      && (steps[0].Recover? && steps[0].id == id ==> steps[0].now < end)
      && KeptAlive(Renewed(end, steps[0], id, token), steps[1..], id, token)
  }

  ghost predicate HeldUntil(s: Store, id: TaskId, token: Token, end: Time) {
    && id in s.tasks && s.tasks[id].status == Running && s.tasks[id].claimToken == Some(token)
    && s.tasks[id].leaseExpiresAt == Some(end)
  }

  lemma StepKeepsHeld(s: Store, step: Step, id: TaskId, token: Token, end: Time)
    requires Inv(s) && HeldUntil(s, id, token, end) && !EndsClaim(step, id, token)
    requires step.Recover? && step.id == id ==> step.now < end
    ensures HeldUntil(Next(s, step), id, token, Renewed(end, step, id, token))
  {
    hide DedupeKey;
    assert RecordInv(s, id);
  }

  /** A claim whose owner heartbeats within every lease is never taken by recovery, whatever else runs;
      it is still held at the end, and can be taken away from the last heartbeat's lease on. */
  lemma {:induction false} LivingClaimIsKept(s: Store, steps: seq<Step>, id: TaskId, token: Token, end: Time)
    requires Inv(s) && HeldUntil(s, id, token, end) && KeptAlive(end, steps, id, token)
    ensures HeldUntil(Run(s, steps), id, token, LeaseEnd(end, steps, id, token))
    ensures ExpiresAt(Run(s, steps), id, Some(LeaseEnd(end, steps, id, token)))
    decreases |steps|
  {
    hide HeldUntil, EndsClaim, Renewed, Inv, Next, ExpiresAt;
    if steps == [] {
      HeldExpires(s, id, token, end);
    } else {
      NextKeepsInv(s, steps[0]);
      StepKeepsHeld(s, steps[0], id, token, end);
      LivingClaimIsKept(Next(s, steps[0]), steps[1..], id, token, Renewed(end, steps[0], id, token));
    }
  }

  lemma HeldExpires(s: Store, id: TaskId, token: Token, end: Time)
    requires Inv(s) && HeldUntil(s, id, token, end)
    ensures ExpiresAt(s, id, Some(end))
  {
    hide Inv;
    StatusTells(s, id);
  }

  // ----- what enters the queue -------------------------------------------------------------------

  /** What a draft must be to be enqueued. */
  predicate IsFreshDraft(t: Task) {
    && t.status in {Pending, Deferred} && 1 <= t.maxAttempts && t.attempts <= t.maxAttempts
    && t.finishedAt.None? && t.leaseExpiresAt.None? && t.claimToken.None?
  }

  /** A draft is stored if and only if it is a fresh one and no task ever had its key; it is stored as it
      is, under the next id, and opens when it becomes available. */
  lemma EnqueueTakesEffect(s: Store, draft: Task, now: Time)
    requires Inv(s)
    ensures var s' := Next(s, Step.Enqueue(draft, now));
      && (s.nextId in s'.tasks <==> IsFreshDraft(draft) && forall id :: id in s.tasks ==> !SameWork(s.tasks[id], draft))
      && (forall id :: id in s.tasks ==> id in s'.tasks && s'.tasks[id] == s.tasks[id])
      && s'.nextId == s.nextId + 1 && s'.nextToken == s.nextToken
      && (s.nextId in s'.tasks ==>
            && s'.tasks[s.nextId] == draft.(id := s.nextId, updatedAt := now)
            && OpensAt(s', s.nextId, IfAttemptsLeft(draft, draft.availableAt)) && ExpiresAt(s', s.nextId, None))
  {
    var s' := Next(s, Step.Enqueue(draft, now));
    NextKeepsInv(s, Step.Enqueue(draft, now));
    forall id | id in s.tasks
      ensures SameWork(s.tasks[id], draft) <==> DedupeKey(s.tasks[id]) == DedupeKey(draft)
      ensures id != s.nextId
    {
      assert RecordInv(s, id);
    }
    if s.nextId in s'.tasks {
      StatusTells(s', s.nextId);
    }
    hide DedupeKey, OpensAt, ExpiresAt;
  }

  /** What the task is about: the identity of its input, or failing that the event it came from. */
  function Subject(t: Task): string {
    match t.inputIdentityKey
    case Some(key) => if |key| > 0 then key else t.inputEventId
    case None => t.inputEventId
  }

  /** The same worker is to do the same action on the same subject, as far as the joined text tells. */
  predicate SameWork(a: Task, b: Task) {
    a.worker + ":" + a.action + ":" + Subject(a) == b.worker + ":" + b.action + ":" + Subject(b)
  }

  /** Unless a worker or an action has a colon in its name the joined text tells exactly that. */
  lemma SameWorkIff(a: Task, b: Task)
    requires ':' !in a.worker && ':' !in a.action && ':' !in b.worker && ':' !in b.action
    ensures SameWork(a, b) <==> a.worker == b.worker && a.action == b.action && Subject(a) == Subject(b)
    ensures DedupeKey(a) == DedupeKey(b) <==> SameWork(a, b)
  {
    Rejoined(a.worker, a.action, Subject(a));
    Rejoined(b.worker, b.action, Subject(b));
    if SameWork(a, b) {
      FirstColon(a.worker, a.action + ":" + Subject(a), b.worker, b.action + ":" + Subject(b));
      FirstColon(a.action, Subject(a), b.action, Subject(b));
    }
  }

  lemma Rejoined(x: string, y: string, z: string)
    ensures x + ":" + y + ":" + z == x + ":" + (y + ":" + z)
  {
  }

  /** Two joined texts without a colon in their first parts agree only part by part. */
  lemma FirstColon(x: string, rest: string, y: string, more: string)
    requires ':' !in x && ':' !in y && x + ":" + rest == y + ":" + more
    ensures x == y && rest == more
  {
    var joined := x + ":" + rest;
    assert joined[|x|] == ':' && joined[|y|] == ':';
    assert forall i :: 0 <= i < |x| ==> joined[i] == x[i] != ':';
    assert forall i :: 0 <= i < |y| ==> joined[i] == y[i] != ':';
    assert |x| == |y|;
    assert x == joined[..|x|] && y == (y + ":" + more)[..|y|];
    assert rest == joined[|x| + 1..] && more == (y + ":" + more)[|y| + 1..];
  }
}
