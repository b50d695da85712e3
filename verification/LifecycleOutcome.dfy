/** What an admission or an execution leaves of its task: when it can be claimed again and what it says. */
module LifecycleOutcomes {
  import opened Prelude
  import Tasks
  import opened TaskRuns
  import opened TaskTimes
  import opened TaskQueues
  import opened Lifecycles

  /** The task waits, with its attempts, and can be claimed from `from` on if it has one left. */
  ghost predicate WaitsUntil(s: Store, s': Store, id: TaskId, from: Time, why: string) {
    && id in s.tasks && id in s'.tasks && s'.tasks[id].status == Tasks.Deferred
    && s'.tasks[id].attempts == s.tasks[id].attempts && s'.tasks[id].lastError == Some(why)
    && OpensAt(s', id, IfAttemptsLeft(s.tasks[id], from)) && ExpiresAt(s', id, None)
  }

  /** The task is over. */
  ghost predicate EndsAs(s': Store, id: TaskId, status: Tasks.Status, now: Time) {
    id in s'.tasks && s'.tasks[id].status == status && s'.tasks[id].finishedAt == Some(now) && IsDead(s', id)
  }

  ghost predicate EndsWith(s': Store, id: TaskId, status: Tasks.Status, now: Time, why: string) {
    EndsAs(s', id, status, now) && s'.tasks[id].lastError == Some(why)
  }

  /** A failure that wants another attempt waits for it if one is left and is final otherwise. */
  ghost predicate RetriesFrom(s: Store, s': Store, id: TaskId, from: Time, why: string, now: Time)
    requires id in s.tasks
  {
    if s.tasks[id].attempts < s.tasks[id].maxAttempts then WaitsUntil(s, s', id, from, why)
    else EndsWith(s', id, Tasks.Failed, now, why)
  }

  /** What an execution leaves under its current token: a success is final; a worker's request to retry
      waits its delay, an interrupted execution not at all; any other failure is final. The record says
      why in the ending's own words. */
  lemma ExecutionOutcome(s: Store, env: seq<Step>, id: TaskId, token: Tasks.Token, ending: Ending, now: Time,
                         s': Store, r: Execution)
    requires Inv(s) && AllUnlocked(env) && FinalOutcome(s, env, id, token, ending, now, s', r)
    requires id in s.tasks && s.tasks[id].status == Tasks.Running && s.tasks[id].claimToken == Some(token)
    ensures match ending
      case Succeeded => EndsAs(s', id, Tasks.Status.Succeeded, now)
      case WantsRetry(error, delay) => |error| > 0 && delay >= 0.0 ==> RetriesFrom(s, s', id, now + delay, error, now)
      case Failed(error) => |error| > 0 ==> EndsWith(s', id, Tasks.Status.Failed, now, error)
      case ExecutorRaised(error) => EndsWith(s', id, Tasks.Status.Failed, now, "executor exception: " + error)
      case Cancelled(external) =>
        RetriesFrom(s, s', id, now, if external then "execution cancelled by operator"
                                    else "worker execution cancelled unexpectedly", now)
      case HeartbeatLost(error) => RetriesFrom(s, s', id, now, "lease heartbeat failed: " + error, now)
  {
    hide Tasks.DedupeKey, OpensAt, ExpiresAt, IsDead, Tasks.Transition, Inv, Rewrite;
    var mid, op := Run(s, env), EndingOp(ending, token);
    RunningIsPinned(s, env, id);
    AcceptedIff(mid, id, op, now);
    if Rewrite(mid, Apply(id, op, now)).Some? {
      RecordTells(mid, id, op, now);
      OperationTakesEffect(mid, id, op, now);
    }
  }

  /** Claims and enqueues leave a running task alone. */
  lemma RunningIsPinned(s: Store, env: seq<Step>, id: TaskId)
    requires Inv(s) && AllUnlocked(env) && id in s.tasks && s.tasks[id].status == Tasks.Running
    ensures Inv(Run(s, env)) && id in Run(s, env).tasks && Run(s, env).tasks[id] == s.tasks[id]
  {
    hide Inv, Run;
    EnvOnlyClaims(s, env, id);
  }

  // ----- admissions ----------------------------------------------------------------------------

  /** The gate lets a task through: outright, or because a person has approved the review it asks for. */
  predicate Passes(g: Gate) {
    match g
    case Pass => true
    case AskReview(_, approved) => approved
    case _ => false
  }

  predicate AllPass(gates: seq<Gate>, n: nat)
    requires n <= |gates|
  {
    forall i :: 0 <= i < n ==> Passes(gates[i])
  }

  /** The gate that stops a task is the first that does not let it through. */
  lemma {:induction false} StopperIsFirst(gates: seq<Gate>)
    ensures Stopper(gates).None? <==> AllPass(gates, |gates|)
    ensures Stopper(gates).Some? ==>
      exists k :: 0 <= k < |gates| && AllPass(gates, k) && !Passes(gates[k]) && Stopper(gates) == Some(gates[k])
  {
    if gates != [] {
      StopperIsFirst(gates[1..]);
      if LetsThrough(gates[0]) && Stopper(gates[1..]).Some? {
        var k :| 0 <= k < |gates[1..]| && AllPass(gates[1..], k) && !Passes(gates[1..][k]) && Stopper(gates[1..]) == Some(gates[1..][k]);
        assert gates[k + 1] == gates[1..][k];
        forall i | 0 <= i < k + 1
          ensures Passes(gates[i])
        {
          assert i > 0 ==> gates[i] == gates[1..][i - 1];
        }
        assert AllPass(gates, k + 1);
      } else if LetsThrough(gates[0]) {
        forall i | 0 <= i < |gates|
          ensures Passes(gates[i])
        {
          assert i > 0 ==> gates[i] == gates[1..][i - 1];
        }
      } else {
        assert AllPass(gates, 0) && !Passes(gates[0]);
      }
    }
  }

  function Words(reason: string, otherwise: string): string {
    if |reason| == 0 then otherwise else reason
  }

  /** A stopped task waits as the gate says, is blocked, or is under review until a person releases it. */
  ghost predicate StoppedBy(s: Store, s': Store, id: TaskId, g: Gate, now: Time) {
    match g
    case Pass => false
    case Postpone(delay, reason) => WaitsUntil(s, s', id, now + delay, Words(reason, "execution gate deferred task"))
    case Forbid(reason) => EndsWith(s', id, Tasks.Blocked, now, Words(reason, "execution gate blocked task"))
    case AskReview(reason, _) =>
      && id in s'.tasks && s'.tasks[id].status == Tasks.Review && OpensAt(s', id, None)
      && s'.tasks[id].lastError == Some(Words(reason, "manual review required"))
  }

  /** What the first gate that does not pass does to the task. */
  lemma GateOutcome(s: Store, id: TaskId, gates: seq<Gate>, deferral: Tasks.Op, denial: Tasks.Op, leaseFor: Time, now: Time,
                    early: seq<Step>, race: seq<Step>, s': Store)
    requires Inv(s) && QueueOutcome(s, id, gates, deferral, denial, leaseFor, now, early, race, s', Stopped)
    ensures exists k :: 0 <= k < |gates| && AllPass(gates, k) && StoppedBy(Run(s, early), s', id, gates[k], now)
  {
    var gated := Run(s, early);
    RunKeepsInv(s, early);
    StopperIsFirst(gates);
    var k :| 0 <= k < |gates| && AllPass(gates, k) && !Passes(gates[k]) && Stopper(gates) == Some(gates[k]);
    GateStops(gated, id, gates[k], now);
  }

  lemma GateStops(s: Store, id: TaskId, g: Gate, now: Time)
    requires Inv(s) && !Passes(g) && Rewrite(s, Apply(id, StoppingOp(g), now)).Some?
    ensures StoppedBy(s, Next(s, Apply(id, StoppingOp(g), now)), id, g, now)
  {
    hide Tasks.DedupeKey, OpensAt, ExpiresAt, IsDead, Tasks.Transition, Inv, Rewrite;
    var op := StoppingOp(g);
    AcceptedIff(s, id, op, now);
    RecordTells(s, id, op, now);
    OperationTakesEffect(s, id, op, now);
    DelaysCount(s, id, op, now);
  }

  /** What the budget's answer does to the task once every gate has passed: a ticket holds it for its
      lease, a deferral lets it wait the capacity delay, a denial blocks it. */
  lemma BudgetOutcome(lifecycle: Lifecycle, s: Store, id: TaskId, gates: seq<Gate>, reason: string, leaseFor: Time, now: Time,
                      early: seq<Step>, race: seq<Step>, s': Store, r: Admission)
    requires Inv(s) && (r.Ticket? || r.Deferred? || r.Denied?)
    requires QueueOutcome(s, id, gates, lifecycle.DeferralFor(reason), DenialFor(reason), leaseFor, now, early, race, s', r)
    ensures AllPass(gates, |gates|)
    ensures match r
      case Ticket(task, _) =>
        && id in s'.tasks && task == s'.tasks[id] && task.status == Tasks.Running && task.startedAt == Some(now)
        && ExpiresAt(s', id, Some(now + leaseFor)) && OpensAt(s', id, None)
      case Deferred =>
        WaitsUntil(Run(Run(s, early), race), s', id, now + lifecycle.capacityRetryAfter, Words(reason, "budget deferred"))
      case Denied => EndsWith(s', id, Tasks.Blocked, now, Words(reason, "hard budget denied execution"))
      case _ => true
  {
    hide Tasks.DedupeKey, OpensAt, ExpiresAt, IsDead, Tasks.Transition, Inv, Rewrite, Stopper;
    StopperIsFirst(gates);
    var late := Run(Run(s, early), race);
    RunKeepsInv(s, early);
    RunKeepsInv(Run(s, early), race);
    if r.Ticket? {
      ClaimIsRewrite(late, id, now, leaseFor);
      ClaimTakesEffect(late, id, now, leaseFor);
    } else {
      var op := if r.Deferred? then lifecycle.DeferralFor(reason) else DenialFor(reason);
      AcceptedIff(late, id, op, now);
      RecordTells(late, id, op, now);
      OperationTakesEffect(late, id, op, now);
      DelaysCount(late, id, op, now);
    }
  }

  lemma ClaimIsRewrite(s: Store, id: TaskId, now: Time, leaseFor: Time)
    ensures Rewrite(s, Claim(id, now, leaseFor)).Some? <==> ClaimAccepted(s, id, now, leaseFor)
  {
  }
}
