/** The lifecycle: gates, budget, claim, then execution and the closing of both ledgers. */
module Lifecycles {
  import opened Prelude
  import Tasks
  import opened TaskRuns
  import opened TaskQueues
  import opened TaskStores
  import opened Sums
  import B = Budgets
  import BB = BudgetBooks
  import opened BudgetStores
  import M = BudgetManagers
  import R = BudgetRuns

  type TaskId = Tasks.TaskId

  /** What a gate decides; `approved` is an earlier human approval of the review it asks for. */
  datatype Gate =
    | Pass
    | Postpone(delay: Time, reason: string)
    | Forbid(reason: string)
    | AskReview(reason: string, approved: bool)

  predicate LetsThrough(g: Gate) {
    g.Pass? || (g.AskReview? && g.approved)
  }

  /** The queue operation with which a gate stops a task. */
  function StoppingOp(g: Gate): Tasks.Op
    requires !LetsThrough(g)
  {
    match g
    case Postpone(delay, reason) => Tasks.Defer(delay, Some(Tasks.NonBlank(reason, "execution gate deferred task")))
    case Forbid(reason) => Tasks.Block(Tasks.NonBlank(reason, "execution gate blocked task"))
    case AskReview(reason, _) => Tasks.SendToReview(Tasks.NonBlank(reason, "manual review required"))
  }

  /** The first gate that does not let the task through. */
  function Stopper(gates: seq<Gate>): (g: Option<Gate>)
    ensures g.Some? ==> !LetsThrough(g.value)
  {
    if gates == [] then None
    else if LetsThrough(gates[0]) then Stopper(gates[1..])
    else Some(gates[0])
  }

  /** How an admission ends: with a ticket, with a reported outcome, or with an escaping error of a
      queue transition that lost its race. */
  datatype Admission =
    | Ticket(task: Tasks.Task, reservation: Option<Id>)
    | Stopped
    | Deferred
    | Denied
    | Stale
    | Escaped

  /** How the supervised execution of a ticket ends. */
  datatype Ending =
    | Succeeded
    | WantsRetry(error: string, delay: Time)
    | Failed(error: string)
    | ExecutorRaised(error: string)
    | Cancelled(external: bool)
    | HeartbeatLost(error: string)

  datatype Execution = Finalized(status: Tasks.Status) | StaleExecution | RaisedAfterFinalizing | CommitEscaped

  /** Endings whose budget commit is allowed to fail silently. */
  predicate SuppressesCommit(e: Ending) {
    e.Cancelled? || e.HeartbeatLost?
  }

  function EndingOp(e: Ending, token: Tasks.Token): Tasks.Op {
    match e
    case Succeeded => Tasks.Succeed(token)
    case WantsRetry(error, delay) => Tasks.Fail(token, error, Some(delay))
    case Failed(error) => Tasks.Fail(token, error, None)
    case ExecutorRaised(error) => Tasks.Fail(token, "executor exception: " + error, None)
    case Cancelled(external) =>
      Tasks.Fail(token, if external then "execution cancelled by operator" else "worker execution cancelled unexpectedly", Some(0.0))
    case HeartbeatLost(error) => Tasks.Fail(token, "lease heartbeat failed: " + error, Some(0.0))
  }

  /** The reservation, if there is one, is still ACTIVE and its commit does not underflow. */
  predicate Live(b: BB.Books, reservation: Option<Id>) {
    reservation.Some? ==> B.IsActive(b.ledger, reservation.value) && !BB.Underflows(b, reservation.value, B.Committed)
  }

  class Lifecycle {
    const queue: TaskQueue
    const budgets: InMemoryBudgetStore
    const profile: M.Profile
    const capacityRetryAfter: Time

    constructor (queue: TaskQueue, budgets: InMemoryBudgetStore, profile: M.Profile, capacityRetryAfter: Time)
      requires capacityRetryAfter >= 0.0
      ensures this.queue == queue && this.budgets == budgets && this.profile == profile
      ensures this.capacityRetryAfter == capacityRetryAfter
    {
      this.queue, this.budgets, this.profile, this.capacityRetryAfter := queue, budgets, profile, capacityRetryAfter;
    }

    /** How the queue takes a task that the budget turned away for now. */
    function DeferralFor(reason: string): Tasks.Op {
      Tasks.Defer(capacityRetryAfter, Some(Tasks.NonBlank(reason, "budget deferred")))
    }

    /** Any queue step of another coroutine. */
    method Perform(step: Step)
      requires queue.store.Valid()
      modifies queue.store
      ensures queue.store.Valid() && queue.store.State() == Next(old(queue.store.State()), step)
    {
      hide Tasks.DedupeKey, Inv;
      RunNothing(queue.store.State());
      match step {
        case Enqueue(draft, now) => var _ := queue.Enqueue(draft, now);
        case Claim(id, now, leaseFor) => var _ := queue.Claim(id, now, leaseFor);
        case Recover(id, now, retryDelay) =>
          var t := queue.Require(id);
          if t.Ok? && retryDelay >= 0.0 && Tasks.LeaseExpired(t.value, now) {
            var _ := queue.RecoverOne(t.value, retryDelay, now);
          }
        case Apply(id, op, now) => PerformOp(id, op, now);
      }
    }

    method PerformOp(id: TaskId, op: Tasks.Op, now: Time)
      requires queue.store.Valid()
      modifies queue.store
      ensures queue.store.Valid() && queue.store.State() == Next(old(queue.store.State()), Apply(id, op, now))
    {
      hide Tasks.DedupeKey, Inv, Tasks.Transition;
      RunNothing(queue.store.State());
      match op {
        case Heartbeat(token, leaseFor) => var _ := queue.Heartbeat(id, token, leaseFor, now, []);
        case Succeed(token) => var _ := queue.Succeed(id, token, now, []);
        case Fail(token, error, retryDelay) => var _ := queue.Fail(id, token, error, retryDelay, now, []);
        case Defer(delay, reason) => var _ := queue.Defer(id, delay, reason, now, []);
        case Block(reason) => var _ := queue.Block(id, reason, now, []);
        case SendToReview(reason) => var _ := queue.SendToReview(id, reason, now, []);
        case ReleaseReview(delay) => var _ := queue.ReleaseReview(id, delay, now, []);
        case Cancel(reason) => var _ := queue.Cancel(id, reason, now, []);
      }
    }

    /** Whatever other coroutines do to the queue while this one waits. */
    method Elsewhere(steps: seq<Step>)
      requires queue.store.Valid()
      modifies queue.store
      ensures queue.store.Valid() && queue.store.State() == Run(old(queue.store.State()), steps)
    {
      var k := 0;
      while k < |steps|
        invariant 0 <= k <= |steps|
        invariant queue.store.Valid() && queue.store.State() == Run(old(queue.store.State()), steps[..k])
      {
        TaskQueues.RunSnoc(old(queue.store.State()), steps, k);
        Perform(steps[k]);
        k := k + 1;
      }
      assert steps[..k] == steps;
    }

    /** Stops at the first gate that does not let the task through, with that gate's operation. */
    method ApplyGates(id: TaskId, gates: seq<Gate>, now: Time) returns (stopped: bool, escaped: bool)
      requires queue.store.Valid()
      modifies queue.store
      ensures queue.store.Valid()
      ensures stopped <==> Stopper(gates).Some?
      ensures queue.store.State() ==
        if stopped then Next(old(queue.store.State()), Apply(id, StoppingOp(Stopper(gates).value), now))
        else old(queue.store.State())
      ensures escaped <==> stopped && Rewrite(old(queue.store.State()), Apply(id, StoppingOp(Stopper(gates).value), now)).None?
    {
      hide Tasks.DedupeKey, Inv, Tasks.Transition;
      RunNothing(queue.store.State());
      var k := 0;
      assert gates[0..] == gates;
      while k < |gates|
        invariant 0 <= k <= |gates| && queue.store.Valid() && queue.store.State() == old(queue.store.State())
        invariant Stopper(gates) == Stopper(gates[k..])
      {
        var gate := gates[k];
        assert gates[k..][1..] == gates[k + 1..];
        var r: Result<Tasks.Task> := Err(Rejected);
        match gate {
          case Pass =>
          case Postpone(delay, reason) =>
            r := queue.Defer(id, delay, Some(Tasks.NonBlank(reason, "execution gate deferred task")), now, []);
            return true, r.Err?;
          case Forbid(reason) =>
            r := queue.Block(id, Tasks.NonBlank(reason, "execution gate blocked task"), now, []);
            return true, r.Err?;
          case AskReview(reason, approved) =>
            if !approved {
              r := queue.SendToReview(id, Tasks.NonBlank(reason, "manual review required"), now, []);
              return true, r.Err?;
            }
        }
        k := k + 1;
      }
      stopped, escaped := false, false;
    }

    /** Gate, budget, claim. A ticket means every gate passed, the budget allowed it and the claim won;
        without one, every total and every open reservation is what it was. `early` and `race` are what
        other coroutines do to the queue before the gates answer and before the claim, `reason` is
        the text of the budget's answer. */
    method Admit(id: TaskId, gates: seq<Gate>, req: M.Request, reason: string, leaseFor: Time, now: Time,
                 early: seq<Step>, race: seq<Step>)
      returns (r: Admission, ghost checks: seq<B.Check>)
      requires queue.store.Valid() && budgets.Valid() && budgets.Exact() && R.CoarseDemand(req) && leaseFor > 0.0
      modifies queue.store, budgets
      ensures queue.store.Valid() && budgets.Valid() && budgets.Exact()
      ensures LeakFree(old(budgets.Book()), budgets.Book(), r)
      ensures QueueOutcome(old(queue.store.State()), id, gates, DeferralFor(reason), DenialFor(reason), leaseFor, now,
                           early, race, queue.store.State(), r)
      ensures r.Ticket? || r.Denied? || r.Deferred? ==>
        && M.Compiled(profile, req, checks)
        && R.Verdict(profile, old(budgets.Book()), req, checks) == VerdictOf(r)
        && budgets.Book() == R.AfterReserve(profile, old(budgets.Book()), req, checks, now, leaseFor)
        && (r.Ticket? ==> r.reservation == if checks == [] then None else Some(old(budgets.nextId)))
    {
      hide InMemoryBudgetStore.Valid, InMemoryBudgetStore.Exact, Tasks.DedupeKey, Inv, Tasks.Transition, LeakFree, QueueOutcome,
        M.Compiled, R.AfterReserve, R.CoarseDemand, R.Verdict, R.StoreVerdict, R.StoreReserved;
      checks := [];
      ghost var s0, l0 := queue.store.State(), budgets.Book();
      BookIsSound(budgets);
      NothingLeaked(l0, Stale);
      var found := queue.Require(id);
      if found.Err? || !Tasks.IsQueued(found.value.status) {
        r := Stale;
        OutcomeStale(s0, id, gates, DeferralFor(reason), DenialFor(reason), leaseFor, now, early, race);
        return;
      }
      Elsewhere(early);
      ghost var s1 := queue.store.State();
      var stopped, escaped := ApplyGates(id, gates, now);
      if stopped {
        r := if escaped then Escaped else Stopped;
        NothingLeaked(l0, r);
        OutcomeStopped(s0, id, gates, DeferralFor(reason), DenialFor(reason), leaseFor, now, early, race, r);
        return;
      }
      var decision;
      decision, checks := R.Reserve(budgets, profile, req, now, leaseFor);
      CompiledPositive(profile, req, checks);
      Elsewhere(race);
      r := Conclude(id, gates, req, reason, leaseFor, now, early, race, decision.value, checks, s0, l0);
    }

    /** What follows the budget's answer. */
    method Conclude(id: TaskId, ghost gates: seq<Gate>, ghost req: M.Request, reason: string, leaseFor: Time, now: Time,
                    ghost early: seq<Step>, ghost race: seq<Step>, decision: R.Decision, ghost checks: seq<B.Check>,
                    ghost s0: Store, ghost l0: B.Ledger)
      returns (r: Admission)
      requires queue.store.Valid() && budgets.Valid() && budgets.Exact() && leaseFor > 0.0
      requires id in s0.tasks && Tasks.IsQueued(s0.tasks[id].status) && Stopper(gates).None?
      requires queue.store.State() == Run(Run(s0, early), race)
      requires B.LedgerInv(l0) && forall i :: 0 <= i < |checks| ==> checks[i].requested > 0.0
      requires decision.outcome == R.Verdict(profile, l0, req, checks)
      requires budgets.Book() == R.AfterReserve(profile, l0, req, checks, now, leaseFor)
      requires decision.reservation == (if decision.outcome.Allow? && checks != [] then Some(l0.nextId) else None)
      modifies queue.store, budgets
      ensures queue.store.Valid() && budgets.Valid() && budgets.Exact()
      ensures LeakFree(l0, budgets.Book(), r)
      ensures QueueOutcome(s0, id, gates, DeferralFor(reason), DenialFor(reason), leaseFor, now, early, race,
                           queue.store.State(), r)
      ensures r.Ticket? || r.Denied? || r.Deferred? ==> decision.outcome == VerdictOf(r)
      ensures budgets.Book() == Concluded(profile, l0, req, checks, now, leaseFor, decision, r)
      ensures r.Ticket? ==> r.reservation == decision.reservation
    {
      hide InMemoryTaskStore.Valid, InMemoryBudgetStore.Valid, InMemoryBudgetStore.Exact, BB.Closing,
        BudgetStores.Answered, Tasks.DedupeKey, Inv, Tasks.Transition, LeakFree, M.Compiled, Run;
      ghost var s2 := queue.store.State();
      ghost var l1 := budgets.Book();
      RunNothing(s2);
      match decision.outcome {
        case Defer =>
          var deferred := queue.Defer(id, capacityRetryAfter, Some(Tasks.NonBlank(reason, "budget deferred")), now, []);
          r := if deferred.Ok? then Deferred else Escaped;
        case Deny =>
          var blocked := queue.Block(id, Tasks.NonBlank(reason, "hard budget denied execution"), now, []);
          r := if blocked.Ok? then Denied else Escaped;
        case Allow =>
          var claimed := queue.Claim(id, now, leaseFor);
          if claimed.Err? {
            if decision.reservation.Some? {
              var _ := budgets.Release(decision.reservation.value);
            }
            r := Stale;
          } else {
            r := Ticket(claimed.value, decision.reservation);
          }
      }
      ConcludeLeaks(profile, l0, req, checks, now, leaseFor, decision, r);
      assert budgets.Book() == Concluded(profile, l0, req, checks, now, leaseFor, decision, r);
      assert QueueOutcome(s0, id, gates, DeferralFor(reason), DenialFor(reason), leaseFor, now, early, race,
                          queue.store.State(), r);
    }

    /** Closing both ledgers after a supervised execution. `between` is whatever other coroutines do to
        the queue between the commit and the transition, lease recovery and operators included; `env` are
        the claims and enqueues between the transition's read and save. With the reservation live, or an
        ending that tolerates a failed commit, a ticket whose token is still current by then always
        leaves RUNNING; otherwise the commit error escapes and the task stays as it is for lease
        recovery. A stale ticket changes no record. */
    method ExecuteClaimed(id: TaskId, token: Tasks.Token, reservation: Option<Id>, ending: Ending, now: Time,
                          between: seq<Step>, env: seq<Step>)
      returns (r: Execution)
      requires queue.store.Valid() && budgets.Valid() && AllUnlocked(env)
      requires ending.WantsRetry? ==> ending.delay >= 0.0
      modifies queue.store, budgets
      ensures queue.store.Valid() && budgets.Valid()
      ensures budgets.State() ==
        if reservation.Some? then BB.Closing(old(budgets.State()), reservation.value, B.Committed) else old(budgets.State())
      ensures r.CommitEscaped? <==>
        && !Live(old(budgets.State()), reservation)
        && (ending.Succeeded? || ending.WantsRetry? || ending.Failed? || ending.ExecutorRaised?)
      ensures r.CommitEscaped? ==> queue.store.State() == old(queue.store.State())
      ensures !r.CommitEscaped? ==>
        FinalOutcome(Run(old(queue.store.State()), between), env, id, token, ending, now, queue.store.State(), r)
    {
      hide InMemoryTaskStore.Valid, InMemoryBudgetStore.Valid, Tasks.DedupeKey, Inv, Tasks.Transition, FinalOutcome, BB.Closing,
        BB.Underflows;
      if reservation.Some? {
        var committed := budgets.Commit(reservation.value);
        if committed.Err? && !SuppressesCommit(ending) {
          return CommitEscaped;
        }
      }
      Elsewhere(between);
      ghost var s := queue.store.State();
      StoreIsSound(queue.store);
      var ended := End(id, token, ending, now, env);
      r := if ending.Cancelled? && ending.external then RaisedAfterFinalizing
           else if ended.Ok? then Finalized(ended.value.status) else StaleExecution;
      EndingIsFinal(s, env, id, token, ending, now, queue.store.State(), ended, r);
    }

    /** The queue transition an ending calls for. */
    method End(id: TaskId, token: Tasks.Token, ending: Ending, now: Time, env: seq<Step>) returns (ended: Result<Tasks.Task>)
      requires queue.store.Valid() && AllUnlocked(env)
      modifies queue.store
      ensures queue.store.Valid()
      ensures AtomicOrNothing(old(queue.store.State()), env, id, EndingOp(ending, token), now, queue.store.State(), ended)
    {
      hide InMemoryTaskStore.Valid, Tasks.DedupeKey, Inv, Tasks.Transition, AtomicOrNothing;
      match ending {
        case Succeeded => ended := queue.Succeed(id, token, now, env);
        case WantsRetry(error, delay) => ended := queue.Fail(id, token, error, Some(delay), now, env);
        case Failed(error) => ended := queue.Fail(id, token, error, None, now, env);
        case ExecutorRaised(error) => ended := queue.Fail(id, token, "executor exception: " + error, None, now, env);
        case Cancelled(external) =>
          ended := queue.Fail(id, token, if external then "execution cancelled by operator"
                                         else "worker execution cancelled unexpectedly", Some(0.0), now, env);
        case HeartbeatLost(error) => ended := queue.Fail(id, token, "lease heartbeat failed: " + error, Some(0.0), now, env);
      }
    }

    /** Crash recovery: overdue reservations first, then overdue tasks, at two readings of the clock. An
        underflow in the first half is the one thing that keeps the second from happening. */
    method RecoverExpired(retryDelay: Time, reapAt: Time, recoverAt: Time, env: seq<Step>) returns (r: Result<(nat, nat)>)
      requires queue.store.Valid() && budgets.Valid() && AllUnlocked(env) && retryDelay >= 0.0
      modifies queue.store, budgets
      ensures queue.store.Valid() && budgets.Valid()
      ensures old(budgets.Exact()) ==> r.Ok? && budgets.Exact()
      ensures r.Err? ==> queue.store.State() == old(queue.store.State())
      ensures r.Ok? ==>
        && budgets.Book() == B.Reaped(old(budgets.Book()), reapAt)
        && (forall rid: Id :: B.IsActive(budgets.Book(), rid) ==> budgets.reservations[rid].expiresAt > reapAt)
        && (forall key :: B.CommittedTotal(budgets.Book(), key) == B.CommittedTotal(old(budgets.Book()), key))
        && AllReleased(old(queue.store.tasks), queue.store.tasks, {}, retryDelay, recoverAt, old(queue.store.nextToken))
    {
      hide InMemoryTaskStore.Valid, InMemoryBudgetStore.Exact, Tasks.DedupeKey, Inv, AllReleased, BB.Swept;
      ghost var l := budgets.Book();
      assert B.LedgerInv(l);
      var expired := budgets.ReapExpired(reapAt);
      if expired.Err? {
        return Err(Broken);
      }
      forall key
        ensures B.CommittedTotal(budgets.Book(), key) == B.CommittedTotal(l, key)
      {
        B.ReapedUsage(l, reapAt, key);
      }
      var recovered, _ := queue.RecoverExpiredLeases(retryDelay, recoverAt, env);
      r := Ok((|recovered|, |expired.value|));
    }
  }

  /** How the queue takes a task that the budget turned away for good. */
  function DenialFor(reason: string): Tasks.Op {
    Tasks.Block(Tasks.NonBlank(reason, "hard budget denied execution"))
  }

  function VerdictOf(r: Admission): R.Outcome
    requires r.Ticket? || r.Denied? || r.Deferred?
  {
    if r.Ticket? then R.Allow else if r.Denied? then R.Deny else R.Defer
  }

  /** Totals and open reservations are as before, but for the one the ticket carries. */
  ghost predicate LeakFree(before: B.Ledger, after: B.Ledger, r: Admission) {
    && (forall rid: Id :: B.IsActive(after, rid) <==> B.IsActive(before, rid) || (r.Ticket? && r.reservation == Some(rid)))
    && (r.Ticket? && r.reservation.Some? ==> !B.IsActive(before, r.reservation.value))
    && (forall rid: Id :: rid in before.entries ==> rid in after.entries && after.entries[rid] == before.entries[rid])
    && (forall key :: B.CommittedTotal(after, key) == B.CommittedTotal(before, key))
    && (!r.Ticket? ==> forall key :: B.Reserved(after, key) == B.Reserved(before, key))
  }

  /** What an admission does to the queue, between and after what others do. */
  ghost predicate QueueOutcome(s: Store, id: TaskId, gates: seq<Gate>, deferral: Tasks.Op, denial: Tasks.Op,
                               leaseFor: Time, now: Time, early: seq<Step>, race: seq<Step>, s': Store, r: Admission) {
    var gated := Run(s, early);
    var late := Run(gated, race);
    match r
    case Ticket(task, _) =>
      && Stopper(gates).None? && ClaimAccepted(late, id, now, leaseFor) && s' == Next(late, Claim(id, now, leaseFor))
      && id in s'.tasks && task == s'.tasks[id] && task.status.Running? && task.claimToken == Some(late.nextToken)
    case Stopped =>
      && Stopper(gates).Some? && s' == Next(gated, Apply(id, StoppingOp(Stopper(gates).value), now))
      && Rewrite(gated, Apply(id, StoppingOp(Stopper(gates).value), now)).Some?
    case Deferred =>
      && Stopper(gates).None? && s' == Next(late, Apply(id, deferral, now)) && Rewrite(late, Apply(id, deferral, now)).Some?
    case Denied =>
      && Stopper(gates).None? && s' == Next(late, Apply(id, denial, now)) && Rewrite(late, Apply(id, denial, now)).Some?
    case Stale =>
      || (s' == s && (id in s.tasks ==> !Tasks.IsQueued(s.tasks[id].status)))
      || (Stopper(gates).None? && s' == late && !ClaimAccepted(late, id, now, leaseFor))
    case Escaped => s' == gated || s' == late
  }

  /** What the end of an execution does to the queue. */
  ghost predicate FinalOutcome(s: Store, env: seq<Step>, id: TaskId, token: Tasks.Token, ending: Ending, now: Time,
                               s': Store, r: Execution) {
    if id in s.tasks && s.tasks[id].status.Running? && s.tasks[id].claimToken == Some(token) then
      && id in s'.tasks && s' == Next(Run(s, env), Apply(id, EndingOp(ending, token), now))
      && !s'.tasks[id].status.Running? && s'.tasks[id].attempts == s.tasks[id].attempts
      && s'.tasks[id].status == FinalStatus(s.tasks[id], ending)
      && r == if ending.Cancelled? && ending.external then RaisedAfterFinalizing else Finalized(FinalStatus(s.tasks[id], ending))
    else
      s' == s && r == if ending.Cancelled? && ending.external then RaisedAfterFinalizing else StaleExecution
  }

  /** SUCCEEDED on success; FAILED when no retry is wanted or no attempt is left; DEFERRED otherwise. */
  function FinalStatus(t: Tasks.Task, ending: Ending): Tasks.Status {
    if ending.Succeeded? then Tasks.Status.Succeeded
    else if ending.Failed? || ending.ExecutorRaised? || t.attempts >= t.maxAttempts then Tasks.Status.Failed
    else Tasks.Status.Deferred
  }

  lemma RunNothing(s: Store)
    ensures Run(s, []) == s
  {
  }

  lemma NothingLeaked(l: B.Ledger, r: Admission)
    requires !r.Ticket?
    ensures LeakFree(l, l, r)
  {
  }

  lemma OutcomeStale(s: Store, id: TaskId, gates: seq<Gate>, deferral: Tasks.Op, denial: Tasks.Op, leaseFor: Time, now: Time,
                     early: seq<Step>, race: seq<Step>)
    requires id in s.tasks ==> !Tasks.IsQueued(s.tasks[id].status)
    ensures QueueOutcome(s, id, gates, deferral, denial, leaseFor, now, early, race, s, Stale)
  {
  }

  lemma OutcomeStopped(s: Store, id: TaskId, gates: seq<Gate>, deferral: Tasks.Op, denial: Tasks.Op, leaseFor: Time, now: Time,
                       early: seq<Step>, race: seq<Step>, r: Admission)
    requires Stopper(gates).Some?
    requires var step := Apply(id, StoppingOp(Stopper(gates).value), now);
      r == if Rewrite(Run(s, early), step).None? then Escaped else Stopped
    ensures QueueOutcome(s, id, gates, deferral, denial, leaseFor, now, early, race,
                         Next(Run(s, early), Apply(id, StoppingOp(Stopper(gates).value), now)), r)
  {
  }

  lemma CompiledPositive(p: M.Profile, req: M.Request, checks: seq<B.Check>)
    requires M.Compiled(p, req, checks)
    ensures forall i :: 0 <= i < |checks| ==> checks[i].requested > 0.0
  {
    forall i | 0 <= i < |checks|
      ensures checks[i].requested > 0.0
    {
      assert checks[i] in checks;
    }
  }

  lemma BookIsSound(budgets: InMemoryBudgetStore)
    requires budgets.Valid()
    ensures B.LedgerInv(budgets.Book())
  {
  }

  lemma StoreIsSound(store: InMemoryTaskStore)
    requires store.Valid()
    ensures Inv(store.State())
  {
  }

  /** A reservation entered and then released leaves every total as it was. */
  lemma EnteredThenReleased(l: B.Ledger, id: Id, r: B.Reservation)
    requires B.LedgerInv(l) && id !in l.entries && id < l.nextId && r.state.Active? && B.Positive(r.items)
    ensures var l' := B.Closed(B.Entered(l, id, r), id, B.Released);
      forall key :: B.Reserved(l', key) == B.Reserved(l, key) && B.CommittedTotal(l', key) == B.CommittedTotal(l, key)
  {
    hide B.LedgerInv, B.Reserved, B.CommittedTotal, B.Charged, B.Entered, B.Closed;
    forall key
      ensures B.Reserved(B.Closed(B.Entered(l, id, r), id, B.Released), key) == B.Reserved(l, key)
      ensures B.CommittedTotal(B.Closed(B.Entered(l, id, r), id, B.Released), key) == B.CommittedTotal(l, key)
    {
      B.EnteredUsage(l, id, r, key);
      ReleasedUsage(l, id, r, key);
    }
  }

  /** The releasing half: what was entered is taken off again. */
  lemma ReleasedUsage(l: B.Ledger, id: Id, r: B.Reservation, key: B.Key)
    requires B.LedgerInv(l) && id !in l.entries && id < l.nextId && r.state.Active? && B.Positive(r.items)
    ensures var entered := B.Entered(l, id, r);
      && B.Reserved(B.Closed(entered, id, B.Released), key) == B.Reserved(entered, key) - B.Charged(r.items, key)
      && B.CommittedTotal(B.Closed(entered, id, B.Released), key) == B.CommittedTotal(entered, key)
  {
    hide B.Reserved, B.CommittedTotal, B.Charged;
    EnteredIsSound(l, id, r);
    B.ClosedUsage(B.Entered(l, id, r), id, B.Released, key);
  }

  lemma EnteredIsSound(l: B.Ledger, id: Id, r: B.Reservation)
    requires B.LedgerInv(l) && id !in l.entries && id < l.nextId && B.Positive(r.items)
    ensures B.LedgerInv(B.Entered(l, id, r))
  {
    assert id !in l.order;
  }

  lemma ConcludeLeaks(p: M.Profile, l: B.Ledger, req: M.Request, checks: seq<B.Check>, now: Time, leaseFor: Time,
                      decision: R.Decision, r: Admission)
    requires B.LedgerInv(l) && forall i :: 0 <= i < |checks| ==> checks[i].requested > 0.0
    requires decision.outcome == R.Verdict(p, l, req, checks)
    requires decision.reservation == (if decision.outcome.Allow? && checks != [] then Some(l.nextId) else None)
    requires r.Ticket? ==> decision.outcome.Allow? && r.reservation == decision.reservation
    requires !r.Ticket? && decision.outcome.Allow? ==> r.Stale?
    ensures LeakFree(l, Concluded(p, l, req, checks, now, leaseFor, decision, r), r)
  {
    var made := R.Opened(req, checks, now, leaseFor);
    assert l.nextId !in l.entries && l.nextId !in l.order && B.Positive(made.items);
    BB.MintedUsage(l);
    hide B.Reserved, B.CommittedTotal, B.LedgerInv, B.Fits, R.PermanentlyViolated, B.Positive, R.Opened;
    if decision.reservation.Some? {
      assert R.AfterReserve(p, l, req, checks, now, leaseFor) == B.Entered(B.Minted(l), l.nextId, made);
      if r.Stale? {
        EnteredThenReleased(B.Minted(l), l.nextId, made);
      } else {
        forall key
          ensures B.CommittedTotal(B.Entered(B.Minted(l), l.nextId, made), key) == B.CommittedTotal(l, key)
        {
          B.EnteredUsage(B.Minted(l), l.nextId, made, key);
        }
      }
    }
  }

  /** Under the current token an ending always takes effect; under any other it changes nothing. */
  lemma EndingIsFinal(s: Store, env: seq<Step>, id: TaskId, token: Tasks.Token, ending: Ending, now: Time,
                      s': Store, ended: Result<Tasks.Task>, r: Execution)
    requires Inv(s) && AllUnlocked(env) && (ending.WantsRetry? ==> ending.delay >= 0.0)
    requires AtomicOrNothing(s, env, id, EndingOp(ending, token), now, s', ended)
    requires r == if ending.Cancelled? && ending.external then RaisedAfterFinalizing
                  else if ended.Ok? then Finalized(ended.value.status) else StaleExecution
    ensures FinalOutcome(s, env, id, token, ending, now, s', r)
  {
    hide Tasks.DedupeKey, Tasks.Transition, EndingOp, FinalStatus;
    if id in s.tasks {
      var op := EndingOp(ending, token);
      EnvOnlyClaims(s, env, id);
      assert RecordInv(s, id);
      EndingOfRecord(s.tasks[id], token, ending, now);
      if Tasks.Transition(s.tasks[id], op, now).Ok? {
        SameRecordSameRewrite(s, Run(s, env), s.tasks[id], op, now);
      }
      hide Inv, Run;
    }
  }

  /** An ending is accepted exactly under the record's own token, and then ends the claim. */
  lemma EndingOfRecord(t: Tasks.Task, token: Tasks.Token, ending: Ending, now: Time)
    requires Tasks.WellFormed(t) && (ending.WantsRetry? ==> ending.delay >= 0.0)
    ensures var u := Tasks.Transition(t, EndingOp(ending, token), now);
      && (u.Ok? <==> t.status.Running? && t.claimToken == Some(token))
      && (u.Ok? ==> !u.value.status.Running? && u.value.attempts == t.attempts && u.value.status == FinalStatus(t, ending))
  {
  }

  /** The ledger after the budget's answer and what followed it. */
  ghost function Concluded(p: M.Profile, l: B.Ledger, req: M.Request, checks: seq<B.Check>, now: Time, leaseFor: Time,
                           decision: R.Decision, r: Admission): B.Ledger {
    var after := R.AfterReserve(p, l, req, checks, now, leaseFor);
    if decision.reservation.Some? && r.Stale? then B.Closed(after, decision.reservation.value, B.Released) else after
  }
}
