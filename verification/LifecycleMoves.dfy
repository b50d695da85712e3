/** The lifecycle's operations are runs of the joint machine: what `Admit` and `ExecuteClaimed` promise of
    the two stores is what their moves, made one after another, do to them. */
module LifecycleMoves {
  import opened Prelude
  import opened Sums
  import Tasks
  import T = TaskRuns
  import Q = TaskQueues
  import B = Budgets
  import M = BudgetManagers
  import R = BudgetRuns
  import L = Lifecycles
  import opened ExecutionRuns

  /** In the machine every claim belongs to an admission; what others do is anything but that. */
  predicate NoClaims(steps: seq<T.Step>) {
    forall i :: 0 <= i < |steps| ==> !steps[i].Claim?
  }

  function Others(steps: seq<T.Step>): seq<Move> {
    if steps == [] then [] else [Elsewhere(steps[0])] + Others(steps[1..])
  }

  lemma {:induction false} OthersReach(p: M.Profile, widest: real, sys: Sys, steps: seq<T.Step>)
    requires NoClaims(steps)
    ensures Reaches(p, widest, sys, Others(steps), sys.(store := T.Run(sys.store, steps)))
    decreases |steps|
  {
    hide T.Next;
    if steps != [] {
      var next := Next(p, widest, sys, Elsewhere(steps[0]));
      OthersReach(p, widest, next, steps[1..]);
      assert Others(steps)[1..] == Others(steps[1..]);
    }
  }

  lemma {:induction false} ReachesJoin(p: M.Profile, widest: real, a: Sys, x: seq<Move>, b: Sys, y: seq<Move>, c: Sys)
    requires Reaches(p, widest, a, x, b) && Reaches(p, widest, b, y, c)
    ensures Reaches(p, widest, a, x + y, c)
    decreases |x|
  {
    hide Enabled, Next;
    if x == [] {
      assert x + y == y;
    } else {
      assert (x + y)[1..] == x[1..] + y;
      ReachesJoin(p, widest, Next(p, widest, a, x[0]), x[1..], b, y, c);
    }
  }

  lemma ReachesOne(p: M.Profile, widest: real, sys: Sys, m: Move)
    requires Enabled(p, widest, sys, m)
    ensures Reaches(p, widest, sys, [m], Next(p, widest, sys, m))
  {
    hide Enabled, Next;
    assert [m][1..] == [];
  }

  /** Others' steps, one move, others' steps again. */
  lemma AroundOne(p: M.Profile, widest: real, sys: Sys, early: seq<T.Step>, m: Move, race: seq<T.Step>)
    requires NoClaims(early) && NoClaims(race)
    requires var before := sys.(store := T.Run(sys.store, early));
      Enabled(p, widest, before, m) && Next(p, widest, before, m).store == before.store
    ensures var before := sys.(store := T.Run(sys.store, early));
      Reaches(p, widest, sys, Others(early) + [m] + Others(race),
              Next(p, widest, before, m).(store := T.Run(before.store, race)))
  {
    hide Enabled, Next, T.Run;
    var before := sys.(store := T.Run(sys.store, early));
    var after := Next(p, widest, before, m);
    OthersReach(p, widest, sys, early);
    ReachesOne(p, widest, before, m);
    ReachesJoin(p, widest, sys, Others(early), before, [m], after);
    OthersReach(p, widest, after, race);
    ReachesJoin(p, widest, sys, Others(early) + [m], after, Others(race), after.(store := T.Run(after.store, race)));
  }

  /** The admission of `id` that the moves make. */
  ghost predicate Admits(p: M.Profile, widest: real, sys: Sys, id: Tasks.TaskId, req: M.Request, checks: seq<B.Check>, now: Time,
                         leaseFor: Time) {
    && Enabled(p, widest, sys, Admit(req, checks, now, leaseFor)) && req.taskId == id && checks != []
    && sys.history.ledger.nextId !in sys.work
  }

  /** The state after the reservation and whatever others did before and after it. */
  ghost function AfterReservation(p: M.Profile, widest: real, sys: Sys, early: seq<T.Step>, m: Move, race: seq<T.Step>): Sys
    requires m.Admit? && Enabled(p, widest, sys, m)
  {
    Next(p, widest, sys.(store := T.Run(sys.store, early)), m).(store := T.Run(T.Run(sys.store, early), race))
  }

  lemma ReservingReached(p: M.Profile, widest: real, sys: Sys, early: seq<T.Step>, m: Move, race: seq<T.Step>)
    requires NoClaims(early) && NoClaims(race) && m.Admit? && Enabled(p, widest, sys, m)
    ensures Reaches(p, widest, sys, Others(early) + [m] + Others(race), AfterReservation(p, widest, sys, early, m, race))
  {
    hide T.Run, R.NextHistory, M.Compiled, R.CoarseDemand;
    AroundOne(p, widest, sys, early, m, race);
  }

  /** What the reservation does, by the ledger's verdict. */
  lemma ReservingIs(p: M.Profile, widest: real, sys: Sys, early: seq<T.Step>, m: Move, race: seq<T.Step>)
    requires m.Admit? && Admits(p, widest, sys, m.req.taskId, m.req, m.checks, m.now, m.leaseFor)
    ensures var s, n := AfterReservation(p, widest, sys, early, m, race), sys.history.ledger.nextId;
      && s.history.ledger == R.AfterReserve(p, sys.history.ledger, m.req, m.checks, m.now, m.leaseFor)
      && s.store == T.Run(T.Run(sys.store, early), race)
      && s.work == if R.Verdict(p, sys.history.ledger, m.req, m.checks).Allow? then sys.work[n := Work(m.req.taskId, Phase.Reserved)]
                   else sys.work
  {
    hide T.Run, M.Compiled, R.CoarseDemand, B.Fits, R.PermanentlyViolated;
  }

  /** A ticket is the moves reserve and claim. */
  lemma TicketIsMoves(p: M.Profile, widest: real, sys: Sys, id: Tasks.TaskId, req: M.Request, checks: seq<B.Check>,
                      gates: seq<L.Gate>, deferral: Tasks.Op, denial: Tasks.Op, leaseFor: Time, now: Time,
                      early: seq<T.Step>, race: seq<T.Step>, s': T.Store, task: Tasks.Task)
    requires Admits(p, widest, sys, id, req, checks, now, leaseFor) && NoClaims(early) && NoClaims(race)
    requires R.Verdict(p, sys.history.ledger, req, checks).Allow?
    requires L.QueueOutcome(sys.store, id, gates, deferral, denial, leaseFor, now, early, race, s',
                            L.Ticket(task, Some(sys.history.ledger.nextId)))
    ensures exists run, end ::
      && Reaches(p, widest, sys, run, end) && end.store == s'
      && end.history.ledger == R.AfterReserve(p, sys.history.ledger, req, checks, now, leaseFor)
      && end.work == sys.work[sys.history.ledger.nextId := Work(id, Executing(task.claimToken.value))]
  {
    hide T.Run, M.Compiled, R.CoarseDemand, R.AfterReserve, R.Verdict, T.Inv, Tasks.DedupeKey;
    var m, n := Admit(req, checks, now, leaseFor), sys.history.ledger.nextId;
    var mid := AfterReservation(p, widest, sys, early, m, race);
    ReservingReached(p, widest, sys, early, m, race);
    ReservingIs(p, widest, sys, early, m, race);
    var claim := Claim(n, now, leaseFor);
    ReachesOne(p, widest, mid, claim);
    ReachesJoin(p, widest, sys, Others(early) + [m] + Others(race), mid, [claim], Next(p, widest, mid, claim));
  }

  /** A lost claim is the moves reserve, claim and release. */
  lemma LostClaimIsMoves(p: M.Profile, widest: real, sys: Sys, id: Tasks.TaskId, req: M.Request, checks: seq<B.Check>,
                         leaseFor: Time, now: Time, early: seq<T.Step>, race: seq<T.Step>)
    requires Admits(p, widest, sys, id, req, checks, now, leaseFor) && NoClaims(early) && NoClaims(race)
    requires R.Verdict(p, sys.history.ledger, req, checks).Allow?
    requires !T.ClaimAccepted(T.Run(T.Run(sys.store, early), race), id, now, leaseFor)
    ensures exists run, end ::
      && Reaches(p, widest, sys, run, end) && end.store == T.Run(T.Run(sys.store, early), race)
      && end.history.ledger == B.Closed(R.AfterReserve(p, sys.history.ledger, req, checks, now, leaseFor),
                                        sys.history.ledger.nextId, B.Released)
      && end.work == sys.work
  {
    hide T.Run, M.Compiled, R.CoarseDemand, R.AfterReserve, R.Verdict, T.Inv, Tasks.DedupeKey;
    var m, n := Admit(req, checks, now, leaseFor), sys.history.ledger.nextId;
    var mid := AfterReservation(p, widest, sys, early, m, race);
    ReservingReached(p, widest, sys, early, m, race);
    ReservingIs(p, widest, sys, early, m, race);
    var claim, release := Claim(n, now, leaseFor), Release(n);
    var refused := Next(p, widest, mid, claim);
    ReachesOne(p, widest, mid, claim);
    ReachesJoin(p, widest, sys, Others(early) + [m] + Others(race), mid, [claim], refused);
    var end := Next(p, widest, refused, release);
    ReachesOne(p, widest, refused, release);
    ReachesJoin(p, widest, sys, Others(early) + [m] + Others(race) + [claim], refused, [release], end);
    assert end.work == sys.work;
  }

  /** A deferral or denial by the budget is a reservation that is not granted and a queue step. */
  lemma TurnedAwayIsMoves(p: M.Profile, widest: real, sys: Sys, id: Tasks.TaskId, req: M.Request, checks: seq<B.Check>,
                          gates: seq<L.Gate>, deferral: Tasks.Op, denial: Tasks.Op, leaseFor: Time, now: Time,
                          early: seq<T.Step>, race: seq<T.Step>, s': T.Store, r: L.Admission)
    requires Admits(p, widest, sys, id, req, checks, now, leaseFor) && NoClaims(early) && NoClaims(race)
    requires (r.Deferred? || r.Denied?) && R.Verdict(p, sys.history.ledger, req, checks) == L.VerdictOf(r)
    requires L.QueueOutcome(sys.store, id, gates, deferral, denial, leaseFor, now, early, race, s', r)
    ensures exists run, end ::
      && Reaches(p, widest, sys, run, end) && end.store == s' && end.work == sys.work
      && end.history.ledger == R.AfterReserve(p, sys.history.ledger, req, checks, now, leaseFor)
  {
    hide T.Run, T.Next, T.Rewrite, M.Compiled, R.CoarseDemand, R.AfterReserve, R.Verdict, T.Inv, Tasks.DedupeKey;
    var m := Admit(req, checks, now, leaseFor);
    var mid := AfterReservation(p, widest, sys, early, m, race);
    ReservingReached(p, widest, sys, early, m, race);
    ReservingIs(p, widest, sys, early, m, race);
    var step := Elsewhere(T.Apply(id, if r.Deferred? then deferral else denial, now));
    ReachesOne(p, widest, mid, step);
    ReachesJoin(p, widest, sys, Others(early) + [m] + Others(race), mid, [step], Next(p, widest, mid, step));
  }

  /** A task stopped by a gate is a queue step, and no reservation. */
  lemma StoppedIsMoves(p: M.Profile, widest: real, sys: Sys, id: Tasks.TaskId, gates: seq<L.Gate>, deferral: Tasks.Op,
                       denial: Tasks.Op, leaseFor: Time, now: Time, early: seq<T.Step>, race: seq<T.Step>, s': T.Store)
    requires NoClaims(early)
    requires L.QueueOutcome(sys.store, id, gates, deferral, denial, leaseFor, now, early, race, s', L.Stopped)
    ensures exists run :: Reaches(p, widest, sys, run, sys.(store := s'))
  {
    hide T.Run, T.Next, T.Rewrite, Tasks.DedupeKey;
    var gated := sys.(store := T.Run(sys.store, early));
    var step := Elsewhere(T.Apply(id, L.StoppingOp(L.Stopper(gates).value), now));
    OthersReach(p, widest, sys, early);
    ReachesOne(p, widest, gated, step);
    ReachesJoin(p, widest, sys, Others(early), gated, [step], Next(p, widest, gated, step));
  }

  /** What the transition of an ended execution amounts to, once others have had their turn. */
  lemma EndingIsOneStep(s: T.Store, env: seq<T.Step>, id: Tasks.TaskId, token: Tasks.Token, ending: L.Ending, now: Time,
                        s': T.Store, r: L.Execution)
    requires T.Inv(s) && L.FinalOutcome(s, env, id, token, ending, now, s', r)
    ensures var op := L.EndingOp(ending, token);
      s' == T.Next(T.Run(s, env), T.Apply(id, op, now)) || s' == T.Next(s, T.Apply(id, op, now))
  {
    hide T.Run, T.Inv, Tasks.DedupeKey, Tasks.Transition;
    T.StaleTokenIsInert(s, id, L.EndingOp(ending, token), now);
  }

  lemma EndingsEnd(ending: L.Ending, token: Tasks.Token)
    requires ending.WantsRetry? ==> ending.delay >= 0.0
    ensures Ends(L.EndingOp(ending, token), token)
  {
  }

  /** An execution whose reservation is still held is the moves stop, commit and finish: the budget is
      committed first and once, and the task's transition is the ending's. */
  lemma ExecutionIsMoves(p: M.Profile, widest: real, sys: Sys, rid: Id, token: Tasks.Token, ending: L.Ending, now: Time,
                         between: seq<T.Step>, env: seq<T.Step>, s': T.Store, r: L.Execution)
    requires T.Inv(sys.store) && rid in sys.work && sys.work[rid].phase == Executing(token)
    requires NoClaims(between) && NoClaims(env) && (ending.WantsRetry? ==> ending.delay >= 0.0)
    requires L.FinalOutcome(T.Run(sys.store, between), env, sys.work[rid].taskId, token, ending, now, s', r)
    ensures exists run, end ::
      && Reaches(p, widest, sys, run, end) && end.store == s' && end.work == sys.work - {rid}
      && end.history.ledger == B.Closed(sys.history.ledger, rid, B.Committed)
  {
    hide T.Run, T.Next, T.Inv, Tasks.DedupeKey, L.FinalOutcome, Ends, L.EndingOp;
    var id, op := sys.work[rid].taskId, L.EndingOp(ending, token);
    T.RunKeepsInv(sys.store, between);
    EndingIsOneStep(T.Run(sys.store, between), env, id, token, ending, now, s', r);
    EndingsEnd(ending, token);
    var late := if s' == T.Next(T.Run(sys.store, between), T.Apply(id, op, now)) then [] else env;
    T.RunConcat(sys.store, between, late);
    NothingRuns(T.Run(sys.store, between));
    FinishReached(p, widest, sys, rid, token, op, now, between + late);
  }

  lemma NothingRuns(s: T.Store)
    ensures T.Run(s, []) == s
  {
  }

  lemma FinishReached(p: M.Profile, widest: real, sys: Sys, rid: Id, token: Tasks.Token, op: Tasks.Op, now: Time,
                      steps: seq<T.Step>)
    requires rid in sys.work && sys.work[rid].phase == Executing(token) && NoClaims(steps) && Ends(op, token)
    ensures exists run, end ::
      && Reaches(p, widest, sys, run, end)
      && end.store == T.Next(T.Run(sys.store, steps), T.Apply(sys.work[rid].taskId, op, now))
      && end.work == sys.work - {rid} && end.history.ledger == B.Closed(sys.history.ledger, rid, B.Committed)
  {
    hide T.Run, T.Next, Ends;
    var stopped := Next(p, widest, sys, Stop(rid));
    ReachesOne(p, widest, sys, Stop(rid));
    var committed := Next(p, widest, stopped, Commit(rid));
    ReachesOne(p, widest, stopped, Commit(rid));
    ReachesJoin(p, widest, sys, [Stop(rid)], stopped, [Commit(rid)], committed);
    var late := committed.(store := T.Run(sys.store, steps));
    OthersReach(p, widest, committed, steps);
    ReachesJoin(p, widest, sys, [Stop(rid)] + [Commit(rid)], committed, Others(steps), late);
    var finish := Finish(rid, op, now);
    var end := Next(p, widest, late, finish);
    ReachesOne(p, widest, late, finish);
    ReachesJoin(p, widest, sys, [Stop(rid)] + [Commit(rid)] + Others(steps), late, [finish], end);
    assert end.work == sys.work - {rid};
  }
}
