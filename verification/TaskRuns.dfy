/** The queue as one atomic state machine: a store is its records, every operation is one step. */
module TaskRuns {
  import opened Prelude
  import opened Tasks

  /** `nextId` and `nextToken` stand for the supply of unused uuid4 values. */
  datatype Store = Store(tasks: map<TaskId, Task>, nextId: TaskId, nextToken: Token)

  const EMPTY := Store(map[], 0, 0)

  datatype Step =
    | Enqueue(draft: Task, now: Time)
    | Claim(id: TaskId, now: Time, leaseFor: Time)
    | Apply(id: TaskId, op: Op, now: Time)
    | Recover(id: TaskId, now: Time, retryDelay: Time)

  /** The steps that do not take the queue's transition lock. */
  predicate IsUnlocked(step: Step) {
    step.Enqueue? || step.Claim?
  }

  ghost predicate HasKey(tasks: map<TaskId, Task>, key: string) {
    exists id :: id in tasks && DedupeKey(tasks[id]) == key
  }

  predicate EnqueueAccepted(draft: Task) {
    WellFormed(draft) && IsQueued(draft.status)
  }

  ghost predicate ClaimAccepted(s: Store, id: TaskId, now: Time, leaseFor: Time) {
    leaseFor > 0.0 && id in s.tasks && ReadyAt(s.tasks[id], now)
  }

  /** The record a step writes over an existing one, if the step is accepted. */
  ghost function Rewrite(s: Store, step: Step): Option<Task>
    requires !step.Enqueue?
  {
    match step
    case Claim(id, now, leaseFor) =>
      if ClaimAccepted(s, id, now, leaseFor) then Some(Claimed(s.tasks[id], s.nextToken, now, now + leaseFor)) else None
    case Apply(id, op, now) =>
      if id in s.tasks && Transition(s.tasks[id], op, now).Ok? then Some(Transition(s.tasks[id], op, now).value) else None
    case Recover(id, now, retryDelay) =>
      if retryDelay >= 0.0 && id in s.tasks && LeaseExpired(s.tasks[id], now)
      then Some(Recovered(s.tasks[id], retryDelay, now)) else None
  }

  ghost function Inserted(s: Store, draft: Task, now: Time): Store {
    var t := draft.(id := s.nextId, updatedAt := now);
    var minted := s.(nextId := s.nextId + 1);
    if EnqueueAccepted(draft) && !HasKey(s.tasks, DedupeKey(draft)) then minted.(tasks := s.tasks[t.id := t]) else minted
  }

  ghost function Next(s: Store, step: Step): Store {
    if step.Enqueue? then Inserted(s, step.draft, step.now)
    else
      match Rewrite(s, step)
      case None => s
      case Some(t) =>
        s.(tasks := s.tasks[step.id := t], nextToken := if step.Claim? then s.nextToken + 1 else s.nextToken)
  }

  ghost function Run(s: Store, steps: seq<Step>): Store
    decreases |steps|
  {
    if steps == [] then s else Run(Next(s, steps[0]), steps[1..])
  }

  /** What holds of every reachable store. */
  ghost predicate Inv(s: Store) {
    && (forall id :: id in s.tasks ==> RecordInv(s, id))
    && KeysDistinct(s.tasks)
    && TokensDistinct(s.tasks)
  }

  ghost predicate RecordInv(s: Store, id: TaskId)
    requires id in s.tasks
  {
    var t := s.tasks[id];
    && t.id == id < s.nextId
    && WellFormed(t)
    && (t.status.Running? ==> t.leaseExpiresAt.Some?)
    && (t.claimToken.Some? ==> t.claimToken.value < s.nextToken)
  }

  ghost predicate KeysDistinct(tasks: map<TaskId, Task>) {
    forall i, j :: i in tasks && j in tasks && i != j ==> DedupeKey(tasks[i]) != DedupeKey(tasks[j])
  }

  ghost predicate TokensDistinct(tasks: map<TaskId, Task>) {
    forall i, j :: i in tasks && j in tasks && i != j && tasks[i].claimToken.Some? ==>
      tasks[i].claimToken != tasks[j].claimToken
  }

  /** A step that rewrites a record keeps its identity and moves it along the status graph. */
  lemma RewriteIsLawful(s: Store, step: Step)
    requires Inv(s) && !step.Enqueue? && Rewrite(s, step).Some?
    ensures step.id in s.tasks
    ensures var t := s.tasks[step.id]; var u := Rewrite(s, step).value;
      && WellFormed(u) && SameIdentity(t, u) && DedupeKey(u) == DedupeKey(t)
      && !IsTerminal(t.status)
      && u.attempts == t.attempts + (if step.Claim? then 1 else 0)
      && (u.status.Running? ==> u.leaseExpiresAt.Some?)
      && (u.claimToken.Some? ==> u.claimToken == if step.Claim? then Some(s.nextToken) else t.claimToken)
      && (step.Claim? ==> t.claimToken.None? && u.claimToken.Some?)
  {
    if step.Apply? {
      TransitionIsLawful(s.tasks[step.id], step.op, step.now);
    }
  }

  lemma InsertKeepsInv(s: Store, draft: Task, now: Time)
    requires Inv(s)
    ensures Inv(Inserted(s, draft, now))
  {
    var t := draft.(id := s.nextId, updatedAt := now);
    assert DedupeKey(t) == DedupeKey(draft);
    hide DedupeKey;
    var s' := Inserted(s, draft, now);
    forall i, j | i in s'.tasks && j in s'.tasks && i != j
      ensures DedupeKey(s'.tasks[i]) != DedupeKey(s'.tasks[j])
    {
      assert i in s.tasks || i == s.nextId;
      assert j in s.tasks || j == s.nextId;
    }
  }

  lemma RewriteKeepsInv(s: Store, step: Step)
    requires Inv(s) && !step.Enqueue? && Rewrite(s, step).Some?
    ensures Inv(Next(s, step))
  {
    hide DedupeKey, Rewrite, WellFormed, KeysDistinct, TokensDistinct, RecordInv;
    RewriteIsLawful(s, step);
    RewriteTokenIsIssued(s, step);
    var u := Rewrite(s, step).value;
    var token := if step.Claim? then s.nextToken + 1 else s.nextToken;
    assert Next(s, step) == s.(tasks := s.tasks[step.id := u], nextToken := token);
    ReplacedRecord(s, u, token);
    ReplacedKeys(s.tasks, u);
    ReplacedTokens(s, u, token);
  }

  lemma RewriteTokenIsIssued(s: Store, step: Step)
    requires Inv(s) && !step.Enqueue? && Rewrite(s, step).Some?
    ensures var u := Rewrite(s, step).value;
      && u.id == step.id
      && (u.claimToken.Some? ==> u.claimToken.value < if step.Claim? then s.nextToken + 1 else s.nextToken)
  {
    hide DedupeKey, Rewrite;
    RewriteIsLawful(s, step);
    assert RecordInv(s, step.id);
  }

  /** A lawful record in place of the one with its id keeps every record sound. */
  lemma ReplacedRecord(s: Store, u: Task, token: Token)
    requires (forall id :: id in s.tasks ==> RecordInv(s, id)) && u.id in s.tasks && token >= s.nextToken
    requires WellFormed(u) && (u.status.Running? ==> u.leaseExpiresAt.Some?)
    requires u.claimToken.Some? ==> u.claimToken.value < token
    ensures var s' := s.(tasks := s.tasks[u.id := u], nextToken := token);
      forall id :: id in s'.tasks ==> RecordInv(s', id)
  {
    hide WellFormed;
    var s' := s.(tasks := s.tasks[u.id := u], nextToken := token);
    forall id | id in s'.tasks
      ensures RecordInv(s', id)
    {
      assert RecordInv(s, id);
    }
  }

  lemma ReplacedKeys(tasks: map<TaskId, Task>, u: Task)
    requires KeysDistinct(tasks) && u.id in tasks && DedupeKey(u) == DedupeKey(tasks[u.id])
    ensures KeysDistinct(tasks[u.id := u])
  {
    hide DedupeKey;
  }

  /** The replaced record's token is the old one or a new one, so no other task has it. */
  lemma ReplacedTokens(s: Store, u: Task, token: Token)
    requires (forall id :: id in s.tasks ==> RecordInv(s, id)) && TokensDistinct(s.tasks) && u.id in s.tasks
    requires u.claimToken.Some? ==> u.claimToken == s.tasks[u.id].claimToken || u.claimToken.value >= s.nextToken
    ensures TokensDistinct(s.tasks[u.id := u])
  {
    hide DedupeKey, WellFormed;
    var after := s.tasks[u.id := u];
    forall i, j | i in after && j in after && i != j && after[i].claimToken.Some?
      ensures after[i].claimToken != after[j].claimToken
    {
      assert RecordInv(s, i) && RecordInv(s, j);
    }
  }

  lemma NextKeepsInv(s: Store, step: Step)
    requires Inv(s)
    ensures Inv(Next(s, step))
  {
    if step.Enqueue? {
      InsertKeepsInv(s, step.draft, step.now);
    } else if Rewrite(s, step).Some? {
      RewriteKeepsInv(s, step);
    }
  }

  /** Reachable stores: records are well formed, keys and tokens are never shared. */
  lemma {:induction false} RunKeepsInv(s: Store, steps: seq<Step>)
    requires Inv(s)
    ensures Inv(Run(s, steps))
    decreases |steps|
  {
    if steps != [] {
      NextKeepsInv(s, steps[0]);
      RunKeepsInv(Next(s, steps[0]), steps[1..]);
    }
  }

  lemma {:induction false} RunConcat(s: Store, a: seq<Step>, b: seq<Step>)
    ensures Run(s, a + b) == Run(Run(s, a), b)
    decreases |a|
  {
    if a == [] {
      assert a + b == b;
    } else {
      assert (a + b)[0] == a[0] && (a + b)[1..] == a[1..] + b;
      RunConcat(Next(s, a[0]), a[1..], b);
    }
  }

  // ----- attempts count claims -------------------------------------------------------------

  /** How many claims of `id` a run accepts. */
  ghost function ClaimsOf(s: Store, steps: seq<Step>, id: TaskId): nat
    decreases |steps|
  {
    if steps == [] then 0
    else (if steps[0].Claim? && steps[0].id == id && Rewrite(s, steps[0]).Some? then 1 else 0)
         + ClaimsOf(Next(s, steps[0]), steps[1..], id)
  }

  /** Over any run, `attempts` grows by exactly the accepted claims and stays within the maximum. */
  lemma {:induction false} AttemptsCountClaims(s: Store, steps: seq<Step>, id: TaskId)
    requires Inv(s) && id in s.tasks
    ensures var end := Run(s, steps);
      && id in end.tasks
      && end.tasks[id].attempts == s.tasks[id].attempts + ClaimsOf(s, steps, id)
      && end.tasks[id].maxAttempts == s.tasks[id].maxAttempts
      && end.tasks[id].attempts <= end.tasks[id].maxAttempts
    decreases |steps|
  {
    if steps != [] {
      var step := steps[0];
      NextKeepsInv(s, step);
      if !step.Enqueue? && Rewrite(s, step).Some? {
        RewriteIsLawful(s, step);
      }
      AttemptsCountClaims(Next(s, step), steps[1..], id);
    }
  }

  /** No step of any kind rewrites a terminal record. */
  lemma {:induction false} TerminalIsForever(s: Store, steps: seq<Step>, id: TaskId)
    requires Inv(s) && id in s.tasks && IsTerminal(s.tasks[id].status)
    ensures id in Run(s, steps).tasks && Run(s, steps).tasks[id] == s.tasks[id]
    decreases |steps|
  {
    if steps != [] {
      var step := steps[0];
      NextKeepsInv(s, step);
      if !step.Enqueue? && Rewrite(s, step).Some? {
        RewriteIsLawful(s, step);
      }
      TerminalIsForever(Next(s, step), steps[1..], id);
    }
  }

  // ----- claim tokens ----------------------------------------------------------------------

  /** Some RUNNING task is fenced by `token`. */
  ghost predicate Holds(s: Store, token: Token) {
    exists id :: id in s.tasks && s.tasks[id].claimToken == Some(token)
  }

  function Count(b: bool): nat { if b then 1 else 0 }

  /** How often a run hands out `token`. */
  ghost function Issued(s: Store, steps: seq<Step>, token: Token): nat
    decreases |steps|
  {
    if steps == [] then 0
    else Count(!Holds(s, token) && Holds(Next(s, steps[0]), token)) + Issued(Next(s, steps[0]), steps[1..], token)
  }

  /** How often a run ends the claim fenced by `token`. */
  ghost function Ended(s: Store, steps: seq<Step>, token: Token): nat
    decreases |steps|
  {
    if steps == [] then 0
    else Count(Holds(s, token) && !Holds(Next(s, steps[0]), token)) + Ended(Next(s, steps[0]), steps[1..], token)
  }

  /** A token newly held was the next unused one. */
  lemma NewTokenIsFresh(s: Store, step: Step, token: Token)
    requires Inv(s)
    ensures !Holds(s, token) && Holds(Next(s, step), token) ==>
              step.Claim? && token == s.nextToken && Next(s, step).nextToken == token + 1
    ensures s.nextToken <= Next(s, step).nextToken
    ensures Holds(s, token) ==> token < s.nextToken
  {
    if !Holds(s, token) && Holds(Next(s, step), token) {
      var id :| id in Next(s, step).tasks && Next(s, step).tasks[id].claimToken == Some(token);
      if !step.Enqueue? {
        RewriteIsLawful(s, step);
      }
    }
  }

  /** Every token is issued at most once and ended at most once: issues are conserved as
      claims that have ended plus claims still held. */
  lemma {:induction false} TokenEndsOnce(s: Store, steps: seq<Step>, token: Token)
    requires Inv(s)
    ensures Count(Holds(s, token)) + Issued(s, steps, token)
         == Count(Holds(Run(s, steps), token)) + Ended(s, steps, token)
    ensures Count(token < s.nextToken) + Issued(s, steps, token) <= 1
    ensures Ended(s, steps, token) <= 1
    decreases |steps|
  {
    NewTokenIsFresh(s, Claim(0, 0.0, 0.0), token);
    if steps != [] {
      var step := steps[0];
      NextKeepsInv(s, step);
      NewTokenIsFresh(s, step, token);
      TokenEndsOnce(Next(s, step), steps[1..], token);
    }
  }

  /** A heartbeat, completion or failure that does not carry the current token is inert. */
  lemma StaleTokenIsInert(s: Store, id: TaskId, op: Op, now: Time)
    requires Inv(s) && (op.Heartbeat? || op.Succeed? || op.Fail?)
    ensures Next(s, Apply(id, op, now)) != s ==>
      id in s.tasks && s.tasks[id].status.Running? && s.tasks[id].claimToken == Some(op.token)
  {
    hide Transition, DedupeKey;
    if id in s.tasks {
      assert RecordInv(s, id);
      StaleTokenIsRejected(s.tasks[id], op, now);
    }
  }

  /** Once a token is no longer held, nothing carrying it ever changes a store again. */
  lemma {:induction false} SpentTokenStaysInert(s: Store, steps: seq<Step>, id: TaskId, op: Op, now: Time)
    requires Inv(s) && (op.Heartbeat? || op.Succeed? || op.Fail?)
    requires op.token < s.nextToken && !Holds(s, op.token)
    ensures Next(Run(s, steps), Apply(id, op, now)) == Run(s, steps)
    decreases |steps|
  {
    if steps == [] {
      StaleTokenIsInert(s, id, op, now);
      assert id in s.tasks ==> s.tasks[id].claimToken != Some(op.token);
    } else {
      var step := steps[0];
      NextKeepsInv(s, step);
      NewTokenIsFresh(s, step, op.token);
      SpentTokenStaysInert(Next(s, step), steps[1..], id, op, now);
    }
  }

  // ----- attempts left ---------------------------------------------------------------------

  /** Every task that may still run, now or after a review, has an attempt left. */
  ghost predicate AttemptsLeft(s: Store) {
    forall id :: id in s.tasks && (IsQueued(s.tasks[id].status) || s.tasks[id].status.Review?) ==>
      s.tasks[id].attempts < s.tasks[id].maxAttempts
  }

  predicate RunsLastAttempt(t: Task) {
    t.status.Running? && t.attempts == t.maxAttempts
  }

  /** The run enqueues only unexhausted drafts and reviews no task that runs its last attempt. */
  ghost predicate ReviewsLeaveAttempts(s: Store, steps: seq<Step>)
    decreases |steps|
  {
    steps != [] ==>
      && (steps[0].Enqueue? ==> steps[0].draft.attempts < steps[0].draft.maxAttempts)
      && (steps[0].Apply? && steps[0].op.SendToReview? && steps[0].id in s.tasks ==> !RunsLastAttempt(s.tasks[steps[0].id]))
      && ReviewsLeaveAttempts(Next(s, steps[0]), steps[1..])
  }

  lemma RewriteLeavesAttempts(s: Store, step: Step)
    requires Inv(s) && AttemptsLeft(s) && !step.Enqueue? && Rewrite(s, step).Some?
    requires step.Apply? && step.op.SendToReview? ==> !RunsLastAttempt(s.tasks[step.id])
    ensures var u := Rewrite(s, step).value;
      IsQueued(u.status) || u.status.Review? ==> u.attempts < u.maxAttempts
  {
    hide DedupeKey, KeysDistinct, TokensDistinct;
    assert RecordInv(s, step.id);
  }

  lemma NextKeepsAttemptsLeft(s: Store, step: Step)
    requires Inv(s) && AttemptsLeft(s) && ReviewsLeaveAttempts(s, [step])
    ensures AttemptsLeft(Next(s, step))
  {
    hide DedupeKey, Inv, Rewrite;
    if !step.Enqueue? && Rewrite(s, step).Some? {
      RewriteNames(s, step);
      RewriteLeavesAttempts(s, step);
    }
  }

  lemma RewriteNames(s: Store, step: Step)
    requires !step.Enqueue? && Rewrite(s, step).Some?
    ensures step.id in s.tasks
  {
    hide DedupeKey;
  }

  /** As long as no task is reviewed during its last attempt, every live task has an attempt left. */
  lemma {:induction false} LiveTasksCanRun(s: Store, steps: seq<Step>)
    requires Inv(s) && AttemptsLeft(s) && ReviewsLeaveAttempts(s, steps)
    ensures AttemptsLeft(Run(s, steps))
    decreases |steps|
  {
    if steps != [] {
      NextKeepsInv(s, steps[0]);
      NextKeepsAttemptsLeft(s, steps[0]);
      LiveTasksCanRun(Next(s, steps[0]), steps[1..]);
    }
  }

  /** The task after a review is raised and released at once. */
  ghost function ReviewedAndReleased(s: Store, id: TaskId, reason: string, now: Time): Store {
    Next(Next(s, Apply(id, SendToReview(reason), now)), Apply(id, ReleaseReview(0.0), now))
  }

  ghost predicate Claimable(s: Store, id: TaskId) {
    exists steps :: ClaimsOf(s, steps, id) > 0
  }

  /** A review raised while a task runs, once released, leaves a task that some run claims again if
      and only if the attempt that ran was not its last. */
  lemma ReviewStrandsIff(s: Store, id: TaskId, reason: string, now: Time)
    requires Inv(s) && id in s.tasks && s.tasks[id].status.Running?
    ensures Claimable(ReviewedAndReleased(s, id, reason, now), id) <==> !RunsLastAttempt(s.tasks[id])
  {
    var end := ReviewedAndReleased(s, id, reason, now);
    ReviewedIsPending(s, id, reason, now);
    hide Next, ClaimsOf, DedupeKey, Inv;
    if RunsLastAttempt(s.tasks[id]) {
      forall steps
        ensures ClaimsOf(end, steps, id) == 0
      {
        AttemptsCountClaims(end, steps, id);
      }
    } else {
      ClaimNow(end, id, now);
    }
  }

  lemma ReviewedIsPending(s: Store, id: TaskId, reason: string, now: Time)
    requires Inv(s) && id in s.tasks && s.tasks[id].status.Running?
    ensures var end := ReviewedAndReleased(s, id, reason, now);
      && Inv(end) && id in end.tasks && end.tasks[id].status.Pending? && end.tasks[id].availableAt == now
      && end.tasks[id].attempts == s.tasks[id].attempts && end.tasks[id].maxAttempts == s.tasks[id].maxAttempts
    ensures s.tasks[id].attempts <= s.tasks[id].maxAttempts
  {
    hide DedupeKey;
    assert RecordInv(s, id);
    var reviewed := Next(s, Apply(id, SendToReview(reason), now));
    NextKeepsInv(s, Apply(id, SendToReview(reason), now));
    assert reviewed.tasks[id].status.Review?;
    NextKeepsInv(reviewed, Apply(id, ReleaseReview(0.0), now));
  }

  lemma ClaimNow(s: Store, id: TaskId, now: Time)
    requires id in s.tasks && ReadyAt(s.tasks[id], now)
    ensures ClaimsOf(s, [Claim(id, now, 1.0)], id) > 0
  {
    assert [Claim(id, now, 1.0)][0] == Claim(id, now, 1.0);
  }

  // ----- what an outcome tells -------------------------------------------------------------

  /** A task that runs or has an execution's outcome was claimed; FAILED means out of attempts,
      unless some failure wanted no retry. */
  predicate Earned(t: Task, alwaysRetried: bool) {
    && (t.status.Running? || t.status.Succeeded? || t.status.Failed? ==> t.attempts >= 1)
    && (t.status.Failed? && alwaysRetried ==> t.attempts == t.maxAttempts)
  }

  ghost predicate AllEarned(s: Store, alwaysRetried: bool) {
    forall id :: id in s.tasks ==> Earned(s.tasks[id], alwaysRetried)
  }

  predicate WantsRetries(steps: seq<Step>) {
    forall i :: 0 <= i < |steps| && steps[i].Apply? && steps[i].op.Fail? ==> steps[i].op.retryDelay.Some?
  }

  lemma RewriteKeepsEarned(s: Store, step: Step, alwaysRetried: bool)
    requires Inv(s) && AllEarned(s, alwaysRetried) && (alwaysRetried ==> WantsRetries([step]))
    requires !step.Enqueue? && Rewrite(s, step).Some?
    ensures Earned(Rewrite(s, step).value, alwaysRetried)
  {
    hide DedupeKey, KeysDistinct, TokensDistinct;
    assert RecordInv(s, step.id) && Earned(s.tasks[step.id], alwaysRetried);
    if step.Apply? && alwaysRetried {
      assert [step][0] == step;
    }
  }

  lemma NextKeepsEarned(s: Store, step: Step, alwaysRetried: bool)
    requires Inv(s) && AllEarned(s, alwaysRetried) && (alwaysRetried ==> WantsRetries([step]))
    ensures AllEarned(Next(s, step), alwaysRetried)
  {
    if !step.Enqueue? && Rewrite(s, step).Some? {
      RewriteKeepsEarned(s, step, alwaysRetried);
    }
    hide Inv, Rewrite, DedupeKey;
  }

  /** Over any run no task succeeds or fails without having been claimed, and if every failure
      asked for a retry, none fails before its last attempt. */
  lemma {:induction false} OutcomesAreEarned(s: Store, steps: seq<Step>, alwaysRetried: bool)
    requires Inv(s) && AllEarned(s, alwaysRetried) && (alwaysRetried ==> WantsRetries(steps))
    ensures AllEarned(Run(s, steps), alwaysRetried)
    decreases |steps|
  {
    if steps != [] {
      assert alwaysRetried ==> WantsRetries([steps[0]]) && WantsRetries(steps[1..]);
      NextKeepsEarned(s, steps[0], alwaysRetried);
      NextKeepsInv(s, steps[0]);
      OutcomesAreEarned(Next(s, steps[0]), steps[1..], alwaysRetried);
    }
  }

  /** A review raised on a queued task and released again gives the task back: claimable from the
      release's delay on exactly if it was before, with the same attempts, priority and identity. */
  lemma ReviewGivesTaskBack(s: Store, id: TaskId, reason: string, at: Time, delay: Time, now: Time, later: Time)
    requires Inv(s) && id in s.tasks && IsQueued(s.tasks[id].status) && delay >= 0.0
    ensures var end := Next(Next(s, Apply(id, SendToReview(reason), at)), Apply(id, ReleaseReview(delay), now));
      && end.tasks.Keys == s.tasks.Keys
      && (forall other :: other in s.tasks && other != id ==> end.tasks[other] == s.tasks[other])
      && SameIdentity(s.tasks[id], end.tasks[id])
      && end.tasks[id].attempts == s.tasks[id].attempts && end.tasks[id].priority == s.tasks[id].priority
      && (ReadyAt(end.tasks[id], later) <==> later >= now + delay && s.tasks[id].attempts < s.tasks[id].maxAttempts)
  {
    hide DedupeKey;
    var reviewed := Next(s, Apply(id, SendToReview(reason), at));
    assert reviewed.tasks[id].status.Review?;
    assert Rewrite(reviewed, Apply(id, ReleaseReview(delay), now)).Some?;
  }
}
