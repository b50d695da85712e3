/** Admission and execution of many tickets at once: queue and budget as one interleaved machine. */
module ExecutionRuns {
  import opened Prelude
  import opened Sums
  import Tasks
  import T = TaskRuns
  import opened Budgets
  import opened BudgetManagers
  import opened BudgetRuns

  /** Where one admission stands. A reservation is held up to and including `Stopped`, unless the admission
      is cancelled before its task is claimed. */
  datatype Phase =
    | Reserved          // budget granted, task not yet claimed
    | Refused           // the claim failed, the release is still to come
    | Abandoned         // cancelled before the claim or before its release
    | Executing(token: Tasks.Token)
    | Stopped(token: Tasks.Token)    // the worker has ended, the ledgers are still open
    | Committed(token: Tasks.Token)  // the budget is closed, the task is still to be finished

  datatype Work = Work(taskId: Tasks.TaskId, phase: Phase)

  /** `firstToken` and `firstId` were the next unused ones when this process started; what carries an
      earlier one was left behind by a process that died. */
  datatype Sys = Sys(store: T.Store, history: History, work: map<Id, Work>, firstToken: Tasks.Token, firstId: Id)

  /** A process starting on stored tasks and reservations. */
  function Started(store: T.Store, h: History): Sys {
    Sys(store, h, map[], store.nextToken, h.ledger.nextId)
  }

  datatype Move =
    | Admit(req: Request, checks: seq<Check>, now: Time, leaseFor: Time)
    | Claim(rid: Id, now: Time, leaseFor: Time)
    | Release(rid: Id)
    | Abandon(rid: Id)
    | Stop(rid: Id)
    | Commit(rid: Id)
    | Finish(rid: Id, op: Tasks.Op, now: Time)
    | Renew(rid: Id, expiresAt: Time)
    | Reap(now: Time)
    | Elsewhere(step: T.Step)      // any other queue step: enqueues, heartbeats, operator actions

  /** The budget key that counts running tasks. */
  const RUNNING := Key(Global, Hard, ConcurrentTasks)

  predicate HoldsReservation(phase: Phase) {
    !phase.Committed? && !phase.Abandoned?
  }

  predicate HasToken(phase: Phase) {
    phase.Executing? || phase.Stopped? || phase.Committed?
  }

  /** The completions that `execute_claimed` uses; a retry delay is never negative. */
  predicate Ends(op: Tasks.Op, token: Tasks.Token) {
    || op == Tasks.Succeed(token)
    || (op.Fail? && op.token == token && (op.retryDelay.Some? ==> op.retryDelay.value >= 0.0))
  }

  ghost function Granted(p: Profile, sys: Sys, m: Move): bool
    requires m.Admit?
  {
    !TooDeep(p, m.req) && m.checks != [] && Fits(sys.history.ledger, m.checks)
  }

  ghost predicate Enabled(p: Profile, widest: real, sys: Sys, m: Move) {
    match m
    case Admit(req, checks, _, _) =>
      && RequestValid(req) && req.branchMultiplier <= widest && Compiled(p, req, checks) && CoarseDemand(req)
      && ConcurrentTasks in req.demand && req.demand[ConcurrentTasks] == 1.0
    case Claim(rid, _, _) => rid in sys.work && sys.work[rid].phase.Reserved?
    case Release(rid) => rid in sys.work && sys.work[rid].phase.Refused?
    case Abandon(rid) => rid in sys.work && (sys.work[rid].phase.Reserved? || sys.work[rid].phase.Refused?)
    case Stop(rid) => rid in sys.work && sys.work[rid].phase.Executing?
    case Commit(rid) => rid in sys.work && sys.work[rid].phase.Stopped?
    case Finish(rid, op, _) => rid in sys.work && sys.work[rid].phase.Committed? && Ends(op, sys.work[rid].phase.token)
    case Renew(_, _) => true
    case Reap(_) => true
    case Elsewhere(step) => !step.Claim?
  }

  ghost function Next(p: Profile, widest: real, sys: Sys, m: Move): Sys
    requires Enabled(p, widest, sys, m)
  {
    match m
    case Admit(req, checks, now, leaseFor) =>
      var h := NextHistory(p, sys.history, Reserving(req, checks, now, leaseFor));
      if Granted(p, sys, m) then sys.(history := h, work := sys.work[sys.history.ledger.nextId := Work(req.taskId, Phase.Reserved)])
      else sys.(history := h)
    case Claim(rid, now, leaseFor) =>
      var w, step := sys.work[rid], T.Claim(sys.work[rid].taskId, now, leaseFor);
      if T.Rewrite(sys.store, step).Some?
      then sys.(store := T.Next(sys.store, step), work := sys.work[rid := w.(phase := Executing(sys.store.nextToken))])
      else sys.(work := sys.work[rid := w.(phase := Refused)])
    case Release(rid) => sys.(history := NextHistory(p, sys.history, Releasing(rid)), work := sys.work - {rid})
    case Abandon(rid) => sys.(work := sys.work[rid := sys.work[rid].(phase := Phase.Abandoned)])
    case Stop(rid) => sys.(work := sys.work[rid := sys.work[rid].(phase := Stopped(sys.work[rid].phase.token))])
    case Commit(rid) =>
      sys.(history := NextHistory(p, sys.history, Committing(rid)),
           work := sys.work[rid := sys.work[rid].(phase := Phase.Committed(sys.work[rid].phase.token))])
    case Finish(rid, op, now) =>
      sys.(store := T.Next(sys.store, T.Apply(sys.work[rid].taskId, op, now)), work := sys.work - {rid})
    case Renew(rid, expiresAt) => sys.(history := NextHistory(p, sys.history, Renewing(rid, expiresAt)))
    case Reap(now) => sys.(history := NextHistory(p, sys.history, Reaping(now)))
    case Elsewhere(step) => sys.(store := T.Next(sys.store, step))
  }

  /** Each running task belongs to the one admission that claimed it, or to a dead process. */
  ghost predicate TaskOwned(sys: Sys, id: Tasks.TaskId)
    requires id in sys.store.tasks
  {
    var t := sys.store.tasks[id];
    t.claimToken.Some? && t.claimToken.value >= sys.firstToken ==> Owned(sys, id, t.claimToken.value)
  }

  ghost predicate Owned(sys: Sys, id: Tasks.TaskId, token: Tasks.Token) {
    exists rid :: rid in sys.work && sys.work[rid].taskId == id && HasToken(sys.work[rid].phase)
               && sys.work[rid].phase.token == token
  }

  ghost predicate Holds(sys: Sys, rid: Id) {
    rid in sys.work && HoldsReservation(sys.work[rid].phase)
  }

  ghost predicate IsAbandoned(sys: Sys, rid: Id) {
    rid in sys.work && sys.work[rid].phase.Abandoned?
  }

  /** What an admission holds is ACTIVE and counts one task; what is ACTIVE is held by an admission, was
      abandoned by one, or was left by a dead process. */
  ghost predicate LedgerOwned(sys: Sys) {
    && (forall rid :: Holds(sys, rid) ==> IsActive(sys.history.ledger, rid))
    && (forall rid: Id :: IsActive(sys.history.ledger, rid) && rid >= sys.firstId ==> Holds(sys, rid) || IsAbandoned(sys, rid))
    && (forall rid :: rid in sys.work ==> sys.firstId <= rid < sys.history.ledger.nextId)
    && sys.firstId <= sys.history.ledger.nextId
    && (forall rid :: rid in sys.history.ledger.entries && rid >= sys.firstId ==>
          Charged(sys.history.ledger.entries[rid].items, RUNNING) == 1.0)
  }

  /** No reservation that an admission holds is overdue. */
  ghost predicate HeldAreFresh(sys: Sys, now: Time) {
    forall rid :: Holds(sys, rid) && rid in sys.history.ledger.entries ==> sys.history.ledger.entries[rid].expiresAt > now
  }

  /** A reap that catches no reservation still held, as at start-up, where none is. */
  ghost predicate Timely(sys: Sys, m: Move) {
    m.Reap? ==> HeldAreFresh(sys, m.now)
  }

  ghost predicate SysInv(p: Profile, widest: real, sys: Sys) {
    && ProfileValid(p) && widest >= 1.0 && Cap(p, RUNNING).Some?
    && T.Inv(sys.store)
    && HistoryInv(sys.history) && WithinCaps(p, widest, sys.history)
    && LedgerOwned(sys)
    && (forall id :: id in sys.store.tasks ==> TaskOwned(sys, id))
  }

  // ----- the budget side -------------------------------------------------------------------------

  ghost function BudgetMove(sys: Sys, m: Move): Option<BudgetStep> {
    match m
    case Admit(req, checks, now, leaseFor) => Some(Reserving(req, checks, now, leaseFor))
    case Release(rid) => Some(Releasing(rid))
    case Commit(rid) => Some(Committing(rid))
    case Renew(rid, expiresAt) => Some(Renewing(rid, expiresAt))
    case Reap(now) => Some(Reaping(now))
    case _ => None
  }

  lemma MoveKeepsCaps(p: Profile, widest: real, sys: Sys, m: Move)
    requires SysInv(p, widest, sys) && Enabled(p, widest, sys, m)
    ensures HistoryInv(Next(p, widest, sys, m).history) && WithinCaps(p, widest, Next(p, widest, sys, m).history)
  {
    hide WithinCaps, HistoryInv, Compiled, LedgerOwned, TaskOwned, T.Inv;
    var step := BudgetMove(sys, m);
    if step.Some? {
      assert Next(p, widest, sys, m).history == NextHistory(p, sys.history, step.value);
      StepKeepsInv(p, widest, sys.history, step.value);
      StepKeepsCaps(p, widest, sys.history, step.value);
    } else {
      assert Next(p, widest, sys, m).history == sys.history;
    }
  }

  /** A granted admission charges exactly one running task. */
  lemma AdmissionCountsOne(p: Profile, req: Request, checks: seq<Check>)
    requires Compiled(p, req, checks) && Cap(p, RUNNING).Some?
    requires ConcurrentTasks in req.demand && req.demand[ConcurrentTasks] == 1.0
    ensures Charged(ItemsOf(checks), RUNNING) == 1.0
  {
    hide Compiled;
    CompiledCharge(p, req, checks, RUNNING);
    assert Expected(p, req, RUNNING).Some?;
  }

  lemma MoveKeepsLedgerOwned(p: Profile, widest: real, sys: Sys, m: Move)
    requires SysInv(p, widest, sys) && Enabled(p, widest, sys, m) && Timely(sys, m)
    ensures LedgerOwned(Next(p, widest, sys, m))
  {
    hide WithinCaps, Compiled, CoarseDemand, TaskOwned, T.Inv, T.Next, T.Rewrite, Expected, Charged, Fits, NextHistory, LedgerOwned;
    match m {
      case Admit(_, _, _, _) => AdmitKeepsLedgerOwned(p, widest, sys, m);
      case Release(rid) => CloseKeepsLedgerOwned(sys, Next(p, widest, sys, m), p, Releasing(rid), rid);
      case Commit(rid) => CloseKeepsLedgerOwned(sys, Next(p, widest, sys, m), p, Committing(rid), rid);
      case Renew(rid, expiresAt) => RenewKeepsLedgerOwned(sys, p, rid, expiresAt);
      case Reap(now) => ReapKeepsLedgerOwned(sys, p, now);
      case Abandon(rid) => AbandonKeepsLedgerOwned(sys, rid);
      case Claim(_, _, _) => SameHoldersSameOwners(sys, Next(p, widest, sys, m));
      case Stop(_) => SameHoldersSameOwners(sys, Next(p, widest, sys, m));
      case Finish(_, _, _) => SameHoldersSameOwners(sys, Next(p, widest, sys, m));
      case Elsewhere(_) => SameHoldersSameOwners(sys, Next(p, widest, sys, m));
    }
  }

  lemma SameHoldersSameOwners(sys: Sys, sys': Sys)
    requires LedgerOwned(sys) && sys'.history == sys.history && sys'.firstId == sys.firstId
    requires (forall rid :: Holds(sys', rid) <==> Holds(sys, rid)) && (forall rid :: rid in sys'.work ==> rid in sys.work)
    requires forall rid :: IsAbandoned(sys', rid) <==> IsAbandoned(sys, rid)
    ensures LedgerOwned(sys')
  {
    hide Charged;
  }

  lemma CloseKeepsLedgerOwned(sys: Sys, sys': Sys, p: Profile, step: BudgetStep, rid: Id)
    requires LedgerOwned(sys) && (step == Releasing(rid) || step == Committing(rid))
    requires sys'.history == NextHistory(p, sys.history, step) && sys'.firstId == sys.firstId
    requires (forall r :: Holds(sys', r) <==> Holds(sys, r) && r != rid) && (forall r :: r in sys'.work ==> r in sys.work)
    requires forall r :: IsAbandoned(sys', r) <==> IsAbandoned(sys, r)
    ensures LedgerOwned(sys')
  {
    hide Charged;
  }

  lemma AbandonKeepsLedgerOwned(sys: Sys, rid: Id)
    requires LedgerOwned(sys) && Holds(sys, rid)
    ensures LedgerOwned(sys.(work := sys.work[rid := sys.work[rid].(phase := Phase.Abandoned)]))
  {
    hide Charged;
    var sys' := sys.(work := sys.work[rid := sys.work[rid].(phase := Phase.Abandoned)]);
    assert forall r: Id :: Holds(sys', r) <==> Holds(sys, r) && r != rid;
    assert forall r: Id :: IsAbandoned(sys', r) <==> IsAbandoned(sys, r) || r == rid;
  }

  lemma RenewKeepsLedgerOwned(sys: Sys, p: Profile, rid: Id, expiresAt: Time)
    requires LedgerOwned(sys)
    ensures LedgerOwned(sys.(history := NextHistory(p, sys.history, Renewing(rid, expiresAt))))
  {
    hide Charged;
    var sys' := sys.(history := NextHistory(p, sys.history, Renewing(rid, expiresAt)));
    assert forall r: Id :: (Holds(sys', r) <==> Holds(sys, r)) && (IsAbandoned(sys', r) <==> IsAbandoned(sys, r));
    assert forall r: Id :: IsActive(sys'.history.ledger, r) <==> IsActive(sys.history.ledger, r);
  }

  lemma ReapKeepsLedgerOwned(sys: Sys, p: Profile, now: Time)
    requires LedgerOwned(sys) && HeldAreFresh(sys, now)
    ensures LedgerOwned(sys.(history := NextHistory(p, sys.history, Reaping(now))))
  {
    hide Charged;
    var sys' := sys.(history := NextHistory(p, sys.history, Reaping(now)));
    assert forall r: Id :: (Holds(sys', r) <==> Holds(sys, r)) && (IsAbandoned(sys', r) <==> IsAbandoned(sys, r));
    assert forall r: Id :: IsActive(sys'.history.ledger, r) ==> IsActive(sys.history.ledger, r);
    assert forall r: Id :: IsActive(sys.history.ledger, r) && sys.history.ledger.entries[r].expiresAt > now ==>
      IsActive(sys'.history.ledger, r);
  }

  lemma AdmitKeepsLedgerOwned(p: Profile, widest: real, sys: Sys, m: Move)
    requires SysInv(p, widest, sys) && Enabled(p, widest, sys, m) && m.Admit?
    ensures LedgerOwned(Next(p, widest, sys, m))
  {
    hide WithinCaps, Compiled, CoarseDemand, TaskOwned, T.Inv, T.Next, Expected, Charged;
    var l, sys' := sys.history.ledger, Next(p, widest, sys, m);
    assert l.nextId !in l.entries && l.nextId !in sys.work;
    assert forall r: Id :: r != l.nextId ==> (Holds(sys', r) <==> Holds(sys, r)) && (IsAbandoned(sys', r) <==> IsAbandoned(sys, r));
    assert forall r: Id :: r != l.nextId ==> (IsActive(sys'.history.ledger, r) <==> IsActive(l, r));
    assert !Holds(sys, l.nextId);
    if Granted(p, sys, m) {
      AdmissionCountsOne(p, m.req, m.checks);
      assert sys'.history.ledger == Entered(Minted(l), l.nextId, Opened(m.req, m.checks, m.now, m.leaseFor));
    } else {
      assert sys'.history.ledger.entries == l.entries;
    }
  }

  // ----- the queue side --------------------------------------------------------------------------

  lemma MoveKeepsTasksOwned(p: Profile, widest: real, sys: Sys, m: Move)
    requires SysInv(p, widest, sys) && Enabled(p, widest, sys, m)
    ensures T.Inv(Next(p, widest, sys, m).store)
    ensures forall id :: id in Next(p, widest, sys, m).store.tasks ==> TaskOwned(Next(p, widest, sys, m), id)
  {
    hide WithinCaps, Compiled, CoarseDemand, T.Inv, LedgerInv, Tasks.DedupeKey, Owned;
    var sys' := Next(p, widest, sys, m);
    var step := match m
      case Claim(rid, now, leaseFor) => Some(T.Claim(sys.work[rid].taskId, now, leaseFor))
      case Finish(rid, op, now) => Some(T.Apply(sys.work[rid].taskId, op, now))
      case Elsewhere(other) => Some(other)
      case _ => None;
    if step.Some? {
      T.NextKeepsInv(sys.store, step.value);
      assert sys'.store == T.Next(sys.store, step.value);
    }
    forall id | id in sys'.store.tasks
      ensures TaskOwned(sys', id)
    {
      if id !in sys.store.tasks {
        NewTaskIsUnclaimed(sys.store, step.value, id);
      } else if step.Some? {
        TokenMoves(sys.store, step.value, id);
        OwnerSurvives(p, widest, sys, m, id);
      } else {
        OwnerSurvives(p, widest, sys, m, id);
      }
    }
  }

  lemma NewTaskIsUnclaimed(s: T.Store, step: T.Step, id: Tasks.TaskId)
    requires T.Inv(s) && id !in s.tasks && id in T.Next(s, step).tasks
    ensures T.Next(s, step).tasks[id].claimToken.None?
  {
    hide Tasks.DedupeKey;
  }

  /** A step gives a task a token only by claiming it, with the next unused one. */
  lemma TokenMoves(s: T.Store, step: T.Step, id: Tasks.TaskId)
    requires T.Inv(s) && id in s.tasks
    ensures id in T.Next(s, step).tasks
    ensures var t, u := s.tasks[id], T.Next(s, step).tasks[id];
      u.claimToken.Some? ==>
        u.claimToken == t.claimToken || (step.Claim? && step.id == id && T.Rewrite(s, step).Some? && u.claimToken == Some(s.nextToken))
    ensures (step.Apply? && step.id == id && (step.op.Succeed? || step.op.Fail?) && Ends(step.op, step.op.token)
             && s.tasks[id].claimToken == Some(step.op.token)) ==>
      T.Next(s, step).tasks[id].claimToken.None?
  {
    hide Tasks.DedupeKey;
    assert T.RecordInv(s, id);
    if !step.Enqueue? && T.Rewrite(s, step).Some? {
      T.RewriteIsLawful(s, step);
    }
  }

  lemma OwnerSurvives(p: Profile, widest: real, sys: Sys, m: Move, id: Tasks.TaskId)
    requires Enabled(p, widest, sys, m)
    requires id in sys.store.tasks && TaskOwned(sys, id) && (forall rid :: rid in sys.work ==> rid < sys.history.ledger.nextId)
    requires id in Next(p, widest, sys, m).store.tasks
    requires var t, u := sys.store.tasks[id], Next(p, widest, sys, m).store.tasks[id];
      && (u.claimToken.Some? ==>
          || u.claimToken == t.claimToken
          || (m.Claim? && sys.work[m.rid].taskId == id && T.Rewrite(sys.store, T.Claim(id, m.now, m.leaseFor)).Some?
              && u.claimToken == Some(sys.store.nextToken)))
      && (m.Finish? && sys.work[m.rid].taskId == id && t.claimToken == Some(sys.work[m.rid].phase.token) ==> u.claimToken.None?)
    ensures TaskOwned(Next(p, widest, sys, m), id)
  {
    hide T.Next, T.Rewrite, NextHistory, Compiled, CoarseDemand, Granted;
    var t, sys' := sys.store.tasks[id], Next(p, widest, sys, m);
    var u := sys'.store.tasks[id];
    if u.claimToken.Some? && u.claimToken.value >= sys.firstToken {
      if u.claimToken == t.claimToken {
        var rid :| rid in sys.work && sys.work[rid].taskId == id && HasToken(sys.work[rid].phase)
                && sys.work[rid].phase.token == t.claimToken.value;
        assert rid in sys'.work && sys'.work[rid].taskId == id && HasToken(sys'.work[rid].phase)
            && sys'.work[rid].phase.token == u.claimToken.value;
      } else {
        assert sys'.work[m.rid].phase == Executing(sys.store.nextToken);
      }
    }
  }

  // ----- runs ------------------------------------------------------------------------------------

  lemma MoveKeepsInv(p: Profile, widest: real, sys: Sys, m: Move)
    requires SysInv(p, widest, sys) && Enabled(p, widest, sys, m) && Timely(sys, m)
    ensures SysInv(p, widest, Next(p, widest, sys, m))
  {
    hide WithinCaps, HistoryInv, LedgerOwned, TaskOwned, T.Inv, Enabled, Next, Timely;
    MoveKeepsCaps(p, widest, sys, m);
    MoveKeepsLedgerOwned(p, widest, sys, m);
    MoveKeepsTasksOwned(p, widest, sys, m);
  }

  /** A reap keeps what the cap rests on if and only if no reservation still held is overdue. */
  lemma ReapKeepsInvIff(p: Profile, widest: real, sys: Sys, now: Time)
    requires SysInv(p, widest, sys)
    ensures SysInv(p, widest, Next(p, widest, sys, Reap(now))) <==> HeldAreFresh(sys, now)
  {
    hide WithinCaps, TaskOwned, T.Inv, Charged;
    if HeldAreFresh(sys, now) {
      MoveKeepsInv(p, widest, sys, Reap(now));
    } else {
      var rid :| Holds(sys, rid) && rid in sys.history.ledger.entries && sys.history.ledger.entries[rid].expiresAt <= now;
      var reaped := Next(p, widest, sys, Reap(now));
      assert Holds(reaped, rid) && !IsActive(reaped.history.ledger, rid);
    }
  }

  /** `run` is a sequence of moves each possible where it is made; it ends in `end`. */
  ghost predicate Reaches(p: Profile, widest: real, sys: Sys, run: seq<Move>, end: Sys)
    decreases |run|
  {
    if run == [] then end == sys
    else Enabled(p, widest, sys, run[0]) && Reaches(p, widest, Next(p, widest, sys, run[0]), run[1..], end)
  }

  /** Every reap of the run catches no reservation that is still held. */
  ghost predicate ReapsTimely(p: Profile, widest: real, sys: Sys, run: seq<Move>)
    decreases |run|
  {
    run != [] && Enabled(p, widest, sys, run[0]) ==>
      Timely(sys, run[0]) && ReapsTimely(p, widest, Next(p, widest, sys, run[0]), run[1..])
  }

  lemma {:induction false} ReachableInv(p: Profile, widest: real, sys: Sys, run: seq<Move>, end: Sys)
    requires SysInv(p, widest, sys) && Reaches(p, widest, sys, run, end) && ReapsTimely(p, widest, sys, run)
    ensures SysInv(p, widest, end)
    decreases |run|
  {
    hide SysInv, Next, Enabled, Timely;
    if run != [] {
      MoveKeepsInv(p, widest, sys, run[0]);
      ReachableInv(p, widest, Next(p, widest, sys, run[0]), run[1..], end);
    }
  }

  ghost function Workers(sys: Sys): set<Id> {
    set rid | rid in sys.work && sys.work[rid].phase.Executing?
  }

  function In(s: set<Id>): (Id, Reservation) -> bool {
    (id: Id, _: Reservation) => id in s
  }

  lemma {:induction false} CountIsSize(order: seq<Id>, entries: map<Id, Reservation>, s: set<Id>)
    requires Distinct(order) && (forall id :: id in order ==> id in entries) && (forall id :: id in s ==> id in order)
    ensures CountIf(order, entries, In(s)) == |s|
  {
    if order == [] {
      assert s == {};
    } else {
      var n, id := |order| - 1, order[|order| - 1];
      var rest := s - {id};
      assert order == order[..n] + [id] && id !in order[..n];
      CountIsSize(order[..n], entries, rest);
      CountAgrees(order[..n], entries, s, rest);
      SizeWithout(s, id);
      CountLast(order, entries, s);
    }
  }

  lemma SizeWithout(s: set<Id>, id: Id)
    ensures |s| == |s - {id}| + if id in s then 1 else 0
  {
    if id in s {
      assert s == (s - {id}) + {id};
    } else {
      assert s == s - {id};
    }
  }

  lemma CountLast(order: seq<Id>, entries: map<Id, Reservation>, s: set<Id>)
    requires order != [] && order[|order| - 1] in entries
    ensures CountIf(order, entries, In(s))
         == CountIf(order[..|order| - 1], entries, In(s)) + if order[|order| - 1] in s then 1 else 0
  {
  }

  lemma {:induction false} CountAgrees(order: seq<Id>, entries: map<Id, Reservation>, s: set<Id>, t: set<Id>)
    requires forall id :: id in order ==> (id in s <==> id in t)
    ensures CountIf(order, entries, In(s)) == CountIf(order, entries, In(t))
  {
    if order != [] {
      CountAgrees(order[..|order| - 1], entries, s, t);
    }
  }

  /** Never more workers executing than the hard concurrency cap allows. */
  lemma WorkersWithinCap(p: Profile, widest: real, sys: Sys, cap: nat)
    requires SysInv(p, widest, sys) && Cap(p, RUNNING) == Some(cap as real)
    ensures |Workers(sys)| <= cap
  {
    hide T.Inv, TaskOwned, Effective, Scaled;
    var h, l, s := sys.history, sys.history.ledger, Workers(sys);
    forall id | id in s
      ensures IsActive(l, id) && Charged(l.entries[id].items, RUNNING) == 1.0
    {
      assert Holds(sys, id);
    }
    forall id | id in l.entries
      ensures ReservedBy(RUNNING)(id, l.entries[id]) >= if In(s)(id, l.entries[id]) then 1.0 else 0.0
    {
      ChargedNonNegative(l.entries[id].items, RUNNING);
    }
    CountIsSize(l.order, l.entries, s);
    CountBoundedBySum(l.order, l.entries, In(s), ReservedBy(RUNNING));
    UsageNonNegative(l, RUNNING);
    NoStretch(p, widest, RUNNING);
    assert |s| as real <= cap as real + EPSILON;
  }

  /** Once nothing is in flight, this process has leaked nothing but what cancelled admissions left:
      whatever else is still RUNNING or ACTIVE was left by a dead one. */
  lemma QuiescenceLeaksNothing(p: Profile, widest: real, sys: Sys)
    requires SysInv(p, widest, sys) && (forall rid :: rid in sys.work ==> sys.work[rid].phase.Abandoned?)
    ensures forall id :: id in sys.store.tasks && sys.store.tasks[id].status.Running? ==>
      sys.store.tasks[id].claimToken.Some? && sys.store.tasks[id].claimToken.value < sys.firstToken
    ensures forall rid: Id :: IsActive(sys.history.ledger, rid) ==> rid < sys.firstId || IsAbandoned(sys, rid)
  {
    forall id | id in sys.store.tasks && sys.store.tasks[id].status.Running?
      ensures sys.store.tasks[id].claimToken.Some? && sys.store.tasks[id].claimToken.value < sys.firstToken
    {
      assert T.RecordInv(sys.store, id) && TaskOwned(sys, id);
    }
  }

  /** No ledger is closed twice: a reservation is ACTIVE whenever a release or commit is due. */
  lemma ClosesOnlyOnce(p: Profile, widest: real, sys: Sys, m: Move)
    requires SysInv(p, widest, sys) && Enabled(p, widest, sys, m) && (m.Release? || m.Commit?)
    ensures IsActive(sys.history.ledger, m.rid) && !IsActive(Next(p, widest, sys, m).history.ledger, m.rid)
  {
    assert Holds(sys, m.rid);
  }

  /** An abandoned reservation keeps its slots through every move except a reap that finds it overdue. */
  lemma AbandonedUntilReaped(p: Profile, widest: real, sys: Sys, m: Move, rid: Id)
    requires SysInv(p, widest, sys) && Enabled(p, widest, sys, m)
    requires IsAbandoned(sys, rid) && IsActive(sys.history.ledger, rid)
    ensures IsAbandoned(Next(p, widest, sys, m), rid)
    ensures IsActive(Next(p, widest, sys, m).history.ledger, rid) <==> !(m.Reap? && Overdue(sys, rid, m.now))
  {
    hide WithinCaps, Compiled, CoarseDemand, TaskOwned, T.Inv, T.Next, T.Rewrite, Charged, Fits;
  }

  /** A process starting on any sound store and ledger is in order: all that is RUNNING or ACTIVE then
      counts as left behind. */
  lemma StartIsSound(p: Profile, widest: real, store: T.Store, h: History)
    requires ProfileValid(p) && widest >= 1.0 && Cap(p, RUNNING).Some?
    requires T.Inv(store) && HistoryInv(h) && WithinCaps(p, widest, h)
    ensures SysInv(p, widest, Started(store, h))
  {
    hide Ceiling, Effective, WithinCaps;
    var sys := Started(store, h);
    forall id | id in store.tasks
      ensures TaskOwned(sys, id)
    {
      assert T.RecordInv(store, id);
    }
  }

  /** From any start, whatever earlier processes left behind, in every reachable state of any
      interleaving: at most `cap` workers execute; every RUNNING task belongs to a live admission or was
      claimed before the start; every ACTIVE reservation is held by one, was abandoned by a cancelled one,
      or was made before the start. */
  lemma JointSafety(p: Profile, widest: real, store: T.Store, h: History, run: seq<Move>, end: Sys, cap: nat)
    requires ProfileValid(p) && widest >= 1.0 && Cap(p, RUNNING) == Some(cap as real)
    requires T.Inv(store) && HistoryInv(h) && WithinCaps(p, widest, h)
    requires Reaches(p, widest, Started(store, h), run, end) && ReapsTimely(p, widest, Started(store, h), run)
    ensures |Workers(end)| <= cap
    ensures forall id :: id in end.store.tasks && end.store.tasks[id].status.Running? ==>
      && end.store.tasks[id].claimToken.Some?
      && var token := end.store.tasks[id].claimToken.value;
      token < end.firstToken || Owned(end, id, token)
    ensures forall rid: Id :: IsActive(end.history.ledger, rid) ==>
      rid < end.firstId || Holds(end, rid) || IsAbandoned(end, rid)
  {
    hide WithinCaps, Reaches, ReapsTimely;
    StartIsSound(p, widest, store, h);
    ReachableInv(p, widest, Started(store, h), run, end);
    WorkersWithinCap(p, widest, end, cap);
    forall id | id in end.store.tasks && end.store.tasks[id].status.Running?
      ensures end.store.tasks[id].claimToken.Some?
      ensures end.store.tasks[id].claimToken.value < end.firstToken || Owned(end, id, end.store.tasks[id].claimToken.value)
    {
      assert T.RecordInv(end.store, id) && TaskOwned(end, id);
    }
  }

  /** The same after crash recovery: its reaping is one more step of the ledger's history, so a process
      that starts with it starts within the caps. */
  lemma RecoveredStart(p: Profile, widest: real, store: T.Store, h: History, now: Time)
    requires ProfileValid(p) && widest >= 1.0 && Cap(p, RUNNING).Some?
    requires T.Inv(store) && HistoryInv(h) && WithinCaps(p, widest, h)
    ensures var h' := NextHistory(p, h, Reaping(now));
      && SysInv(p, widest, Started(store, h'))
      && forall rid :: IsActive(h'.ledger, rid) ==> h'.ledger.entries[rid].expiresAt > now
  {
    hide WithinCaps, HistoryInv;
    StepKeepsInv(p, widest, h, Reaping(now));
    StepKeepsCaps(p, widest, h, Reaping(now));
    StartIsSound(p, widest, store, NextHistory(p, h, Reaping(now)));
  }

  // ----- reaping while workers run -----------------------------------------------------------------

  ghost predicate Overdue(sys: Sys, rid: Id, now: Time) {
    rid in sys.history.ledger.entries && sys.history.ledger.entries[rid].expiresAt <= now
  }

  /** A demand for one task slot, limited by nothing but the concurrency cap. */
  predicate OneSlot(req: Request, checks: seq<Check>, cap: nat) {
    && ConcurrentTasks in req.demand && req.demand[ConcurrentTasks] == 1.0
    && checks == [Check(RUNNING, 1.0, cap as real, cap as real)]
  }

  /** After a reap that catches an executing worker, one more admission is granted and claims: from a
      full house of `cap` workers, `cap + 1` execute. */
  lemma LateReapOverruns(p: Profile, widest: real, sys: Sys, rid: Id, at: Time, req: Request, checks: seq<Check>,
                         leaseFor: Time, cap: nat)
    requires SysInv(p, widest, sys) && Cap(p, RUNNING) == Some(cap as real)
    requires rid in Workers(sys) && Overdue(sys, rid, at)
    requires Enabled(p, widest, sys, Admit(req, checks, at, leaseFor)) && OneSlot(req, checks, cap) && !TooDeep(p, req)
    requires leaseFor > 0.0 && req.taskId in sys.store.tasks && Tasks.ReadyAt(sys.store.tasks[req.taskId], at)
    ensures exists end ::
      && Reaches(p, widest, sys, [Reap(at), Admit(req, checks, at, leaseFor), Claim(sys.history.ledger.nextId, at, leaseFor)], end)
      && |Workers(end)| == |Workers(sys)| + 1
  {
    hide Compiled, CoarseDemand, Fits, T.Inv, TaskOwned, WithinCaps, HistoryInv, Enabled, Next, OneSlot, Charged;
    var reap, admit, claim := Reap(at), Admit(req, checks, at, leaseFor), Claim(sys.history.ledger.nextId, at, leaseFor);
    ReapOnlyReaps(p, widest, sys, at);
    var s1 := Next(p, widest, sys, reap);
    OneSlotChecks(req, checks, cap);
    ReapMakesRoom(p, widest, sys, rid, at, cap);
    OneSlotFits(s1.history.ledger, checks, cap);
    var s2, s3 := AdmitAndClaim(p, widest, s1, req, checks, at, leaseFor, cap);
    ThreeMoves(p, widest, sys, reap, admit, claim);
  }

  lemma ReapOnlyReaps(p: Profile, widest: real, sys: Sys, now: Time)
    ensures Enabled(p, widest, sys, Reap(now))
    ensures var s := Next(p, widest, sys, Reap(now));
      && s.work == sys.work && s.store == sys.store && s.history.ledger == Reaped(sys.history.ledger, now)
      && Workers(s) == Workers(sys)
    ensures forall m: Move :: m.Admit? ==> Enabled(p, widest, sys, m) == Enabled(p, widest, Next(p, widest, sys, Reap(now)), m)
  {
    hide Compiled, CoarseDemand;
  }

  /** With room under the cap, an admission of a ready task is granted, its claim wins, and one more
      worker executes. */
  lemma AdmitAndClaim(p: Profile, widest: real, sys: Sys, req: Request, checks: seq<Check>, at: Time, leaseFor: Time, cap: nat)
    returns (s1: Sys, s2: Sys)
    requires Enabled(p, widest, sys, Admit(req, checks, at, leaseFor)) && OneSlot(req, checks, cap) && !TooDeep(p, req)
    requires Fits(sys.history.ledger, checks) && sys.history.ledger.nextId !in sys.work
    requires leaseFor > 0.0 && req.taskId in sys.store.tasks && Tasks.ReadyAt(sys.store.tasks[req.taskId], at)
    ensures var n := sys.history.ledger.nextId;
      && s1 == Next(p, widest, sys, Admit(req, checks, at, leaseFor))
      && Enabled(p, widest, s1, Claim(n, at, leaseFor)) && s2 == Next(p, widest, s1, Claim(n, at, leaseFor))
      && s2.work == sys.work[n := Work(req.taskId, Executing(sys.store.nextToken))]
      && s2.store == T.Next(sys.store, T.Claim(req.taskId, at, leaseFor))
      && n in s2.history.ledger.entries && s2.history.ledger.entries[n].expiresAt == at + leaseFor
      && Workers(s2) == Workers(sys) + {n} && |Workers(s2)| == |Workers(sys)| + 1
  {
    hide T.Next, T.Rewrite, Compiled, CoarseDemand, Fits;
    var n := sys.history.ledger.nextId;
    assert Granted(p, sys, Admit(req, checks, at, leaseFor));
    s1 := Next(p, widest, sys, Admit(req, checks, at, leaseFor));
    ReadyIsClaimed(sys.store, req.taskId, at, leaseFor);
    s2 := Next(p, widest, s1, Claim(n, at, leaseFor));
    assert n !in Workers(sys);
  }

  lemma ReadyIsClaimed(store: T.Store, id: Tasks.TaskId, now: Time, leaseFor: Time)
    requires id in store.tasks && Tasks.ReadyAt(store.tasks[id], now) && leaseFor > 0.0
    ensures T.Rewrite(store, T.Claim(id, now, leaseFor)).Some?
  {
  }

  lemma ThreeMoves(p: Profile, widest: real, sys: Sys, x: Move, y: Move, z: Move)
    requires Enabled(p, widest, sys, x) && Enabled(p, widest, Next(p, widest, sys, x), y)
    requires Enabled(p, widest, Next(p, widest, Next(p, widest, sys, x), y), z)
    ensures Reaches(p, widest, sys, [x, y, z], Next(p, widest, Next(p, widest, Next(p, widest, sys, x), y), z))
  {
    hide Enabled, Next;
    assert [x, y, z][1..] == [y, z] && [y, z][1..] == [z] && [z][1..] == [];
    assert Reaches(p, widest, Next(p, widest, Next(p, widest, sys, x), y), [z],
                   Next(p, widest, Next(p, widest, Next(p, widest, sys, x), y), z));
  }

  /** The reap takes at least the overdue worker's slot out of the usage. */
  lemma ReapMakesRoom(p: Profile, widest: real, sys: Sys, rid: Id, at: Time, cap: nat)
    requires SysInv(p, widest, sys) && Cap(p, RUNNING) == Some(cap as real)
    requires rid in Workers(sys) && Overdue(sys, rid, at)
    ensures Usage(Reaped(sys.history.ledger, at), RUNNING) <= cap as real + EPSILON - 1.0
  {
    hide T.Inv, TaskOwned, Charged, Effective, Scaled;
    var l := sys.history.ledger;
    assert Holds(sys, rid) && IsActive(l, rid);
    NoStretch(p, widest, RUNNING);
    ReapedBelowClosed(l, rid, at, RUNNING);
    ClosedUsage(l, rid, Expired, RUNNING);
  }

  lemma ReapedBelowClosed(l: Ledger, rid: Id, at: Time, key: Key)
    requires LedgerInv(l) && IsActive(l, rid) && l.entries[rid].expiresAt <= at
    ensures Usage(Reaped(l, at), key) <= Usage(Closed(l, rid, Expired), key)
  {
    var a, b := Closed(l, rid, Expired).entries, Reaped(l, at).entries;
    forall id | id in l.order
      ensures id in a && id in b && ReservedBy(key)(id, b[id]) <= ReservedBy(key)(id, a[id])
      ensures CommittedBy(key)(id, b[id]) <= CommittedBy(key)(id, a[id])
    {
      ChargedNonNegative(l.entries[id].items, key);
    }
    SumPointwise(l.order, a, b, ReservedBy(key));
    SumPointwise(l.order, a, b, CommittedBy(key));
  }

  lemma OneSlotFits(l: Ledger, checks: seq<Check>, cap: nat)
    requires checks == [Check(RUNNING, 1.0, cap as real, cap as real)]
    requires Usage(l, RUNNING) <= cap as real + EPSILON - 1.0
    ensures Fits(l, checks)
  {
  }

  /** The whole run, under a cap of one: admit and claim one task, reap when its lease is over while its
      worker still executes, admit and claim the next. Two workers execute. */
  lemma LateReapRun(p: Profile, widest: real, store: T.Store, h: History, one: Request, two: Request, checks: seq<Check>,
                    now: Time, leaseFor: Time)
    requires SysInv(p, widest, Started(store, h)) && Cap(p, RUNNING) == Some(1.0) && Usage(h.ledger, RUNNING) == 0.0
    requires Enabled(p, widest, Started(store, h), Admit(one, checks, now, leaseFor)) && OneSlot(one, checks, 1) && !TooDeep(p, one)
    requires Enabled(p, widest, Started(store, h), Admit(two, checks, now, leaseFor)) && OneSlot(two, checks, 1) && !TooDeep(p, two)
    requires leaseFor > 0.0 && one.taskId != two.taskId
    requires one.taskId in store.tasks && Tasks.ReadyAt(store.tasks[one.taskId], now)
    requires two.taskId in store.tasks && Tasks.ReadyAt(store.tasks[two.taskId], now + leaseFor)
    ensures exists run, end :: Reaches(p, widest, Started(store, h), run, end) && |run| == 5 && |Workers(end)| == 2
  {
    hide T.Next, Compiled, CoarseDemand, Fits, T.Inv, TaskOwned, WithinCaps, HistoryInv, LedgerOwned, Next, Enabled, OneSlot, Usage;
    var sys, n, at := Started(store, h), h.ledger.nextId, now + leaseFor;
    var admit, claim := Admit(one, checks, now, leaseFor), Claim(n, now, leaseFor);
    OneSlotChecks(one, checks, 1);
    OneSlotFits(h.ledger, checks, 1);
    var s1, s2 := AdmitAndClaim(p, widest, sys, one, checks, now, leaseFor, 1);
    MoveKeepsInv(p, widest, sys, admit);
    MoveKeepsInv(p, widest, s1, claim);
    assert Workers(sys) == {};
    assert n in Workers(s2) && Overdue(s2, n, at);
    ClaimLeavesOthers(store, one.taskId, now, leaseFor, two.taskId);
    StillEnabled(p, widest, sys, s2, two, checks, now, at, leaseFor);
    LateReapOverruns(p, widest, s2, n, at, two, checks, leaseFor, 1);
    var rest := [Reap(at), Admit(two, checks, at, leaseFor), Claim(s2.history.ledger.nextId, at, leaseFor)];
    var end :| Reaches(p, widest, s2, rest, end) && |Workers(end)| == |Workers(s2)| + 1;
    TwoMoves(p, widest, sys, admit, claim, rest, end);
  }

  lemma OneSlotChecks(req: Request, checks: seq<Check>, cap: nat)
    requires OneSlot(req, checks, cap)
    ensures checks == [Check(RUNNING, 1.0, cap as real, cap as real)]
  {
  }

  /** What makes an admission possible is in the request alone. */
  lemma StillEnabled(p: Profile, widest: real, s: Sys, s': Sys, req: Request, checks: seq<Check>, now: Time, at: Time,
                     leaseFor: Time)
    requires Enabled(p, widest, s, Admit(req, checks, now, leaseFor))
    ensures Enabled(p, widest, s', Admit(req, checks, at, leaseFor))
  {
    hide Compiled, CoarseDemand;
  }

  lemma ClaimLeavesOthers(store: T.Store, id: Tasks.TaskId, now: Time, leaseFor: Time, other: Tasks.TaskId)
    requires other in store.tasks && other != id
    ensures var s' := T.Next(store, T.Claim(id, now, leaseFor));
      other in s'.tasks && s'.tasks[other] == store.tasks[other]
  {
    hide Tasks.DedupeKey;
  }

  lemma TwoMoves(p: Profile, widest: real, sys: Sys, x: Move, y: Move, rest: seq<Move>, end: Sys)
    requires Enabled(p, widest, sys, x) && Enabled(p, widest, Next(p, widest, sys, x), y)
    requires Reaches(p, widest, Next(p, widest, Next(p, widest, sys, x), y), rest, end)
    ensures Reaches(p, widest, sys, [x, y] + rest, end)
  {
    hide Enabled, Next;
    assert ([x, y] + rest)[1..] == [y] + rest && ([y] + rest)[1..] == rest;
    assert Reaches(p, widest, Next(p, widest, sys, x), [y] + rest, end);
  }
}
