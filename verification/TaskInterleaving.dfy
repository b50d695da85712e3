/** Read-then-save: how the atomic machine arises from transitions whose read and save are two
    separate store calls, with unlocked claims and enqueues slipping in between. */
module TaskInterleaving {
  import opened Prelude
  import opened Tasks
  import opened TaskRuns

  /** A record read, the record to be saved over it, and the transition that wants the save. */
  datatype Prepared = Prepared(before: Task, after: Task, cause: Step)

  /** `lock` holds what the owner of the transition lock has read and not yet saved. */
  datatype Sys = Sys(store: Store, lock: map<TaskId, Prepared>)

  datatype Fine =
    | Unlocked(step: Step)
    | Begin(id: TaskId, op: Op, now: Time)
    | BeginRecovery(now: Time, retryDelay: Time)
    | Save(id: TaskId)

  /** The comparison `save` makes; only lease recovery also compares the lease. */
  ghost predicate Cas(s: Store, p: Prepared) {
    && p.before.id in s.tasks
    && var cur := s.tasks[p.before.id];
    && cur.status == p.before.status
    && cur.claimToken == p.before.claimToken
    && (p.cause.Recover? ==> cur.leaseExpiresAt == p.before.leaseExpiresAt)
  }

  ghost function Swapped(s: Store, p: Prepared): Store {
    if Cas(s, p) then s.(tasks := s.tasks[p.before.id := p.after]) else s
  }

  ghost function FineNext(sys: Sys, f: Fine): Sys {
    match f
    case Unlocked(step) => if IsUnlocked(step) then sys.(store := Next(sys.store, step)) else sys
    case Begin(id, op, now) =>
      var tasks := sys.store.tasks;
      if sys.lock == map[] && id in tasks && Transition(tasks[id], op, now).Ok?
      then sys.(lock := map[id := Prepared(tasks[id], Transition(tasks[id], op, now).value, Apply(id, op, now))])
      else sys
    case BeginRecovery(now, retryDelay) =>
      var tasks := sys.store.tasks;
      if sys.lock == map[] && retryDelay >= 0.0
      then sys.(lock := map id | id in tasks && LeaseExpired(tasks[id], now) ::
                          Prepared(tasks[id], Recovered(tasks[id], retryDelay, now), Recover(id, now, retryDelay)))
      else sys
    case Save(id) =>
      if id in sys.lock then Sys(Swapped(sys.store, sys.lock[id]), sys.lock - {id}) else sys
  }

  ghost function FineRun(sys: Sys, run: seq<Fine>): Sys
    decreases |run|
  {
    if run == [] then sys else FineRun(FineNext(sys, run[0]), run[1..])
  }

  /** The atomic steps of a run, each at the moment it takes effect: a transition counts at its
      save, and only if the save wins its comparison. */
  ghost function Linearize(sys: Sys, run: seq<Fine>): seq<Step>
    decreases |run|
  {
    if run == [] then [] else Effect(sys, run[0]) + Linearize(FineNext(sys, run[0]), run[1..])
  }

  ghost function Effect(sys: Sys, f: Fine): seq<Step> {
    if f.Unlocked? && IsUnlocked(f.step) then [f.step]
    else if f.Save? && f.id in sys.lock && Cas(sys.store, sys.lock[f.id]) then [sys.lock[f.id].cause]
    else []
  }

  /** What was read is still there, unless a claim took a queued task meanwhile. */
  ghost predicate StillThereOrClaimed(s: Store, p: Prepared) {
    && p.before.id in s.tasks
    && (|| s.tasks[p.before.id] == p.before
        || (IsQueued(p.before.status) && s.tasks[p.before.id].status.Running?))
  }

  ghost predicate PreparedInv(s: Store, id: TaskId, p: Prepared) {
    && p.before.id == id
    && !IsUnlocked(p.cause) && p.cause.id == id
    && StillThereOrClaimed(s, p)
    && (s.tasks[id] == p.before ==> Rewrite(s, p.cause) == Some(p.after))
  }

  ghost predicate SysInv(sys: Sys) {
    && Inv(sys.store)
    && forall id :: id in sys.lock ==> PreparedInv(sys.store, id, sys.lock[id])
  }

  /** `u` is `t`, or `t` was queued with an attempt left and is now claimed, its attempts one more,
      under a token not handed out before `from`. */
  predicate SameOrClaimed(t: Task, u: Task, from: Token) {
    || u == t
    || (&& IsQueued(t.status) && t.attempts < t.maxAttempts
        && u.startedAt.Some? && u.leaseExpiresAt.Some? && u.claimToken.Some? && u.claimToken.value >= from
        && u == Claimed(t, u.claimToken.value, u.startedAt.value, u.leaseExpiresAt.value))
  }

  /** An unlocked step leaves every record alone, except that a claim may take a queued one. */
  lemma UnlockedOnlyClaims(s: Store, step: Step, id: TaskId)
    requires Inv(s) && IsUnlocked(step) && id in s.tasks
    ensures id in Next(s, step).tasks && Next(s, step).nextToken >= s.nextToken
    ensures SameOrClaimed(s.tasks[id], Next(s, step).tasks[id], s.nextToken)
  {
  }

  lemma UnlockedKeepsPrepared(s: Store, step: Step, id: TaskId, p: Prepared)
    requires Inv(s) && IsUnlocked(step) && PreparedInv(s, id, p)
    ensures PreparedInv(Next(s, step), id, p)
  {
    UnlockedOnlyClaims(s, step, id);
  }

  /** A save that wins is its transition, run atomically now; a save that loses changes nothing,
      and loses only to a claim. */
  lemma SaveIsAtomicOrLost(s: Store, id: TaskId, p: Prepared)
    requires Inv(s) && PreparedInv(s, id, p)
    ensures Cas(s, p) ==> Swapped(s, p) == Next(s, p.cause)
    ensures !Cas(s, p) ==> Swapped(s, p) == s
    ensures Cas(s, p) <==> s.tasks[id] == p.before
    ensures !Cas(s, p) <==> IsQueued(p.before.status) && s.tasks[id].status.Running?
  {
  }

  lemma BeginKeepsSysInv(sys: Sys, f: Fine)
    requires SysInv(sys) && (f.Begin? || f.BeginRecovery?)
    ensures SysInv(FineNext(sys, f))
  {
    var sys' := FineNext(sys, f);
    forall id | id in sys'.lock
      ensures PreparedInv(sys'.store, id, sys'.lock[id])
    {
      if id !in sys.lock {
        assert id in sys.store.tasks && RecordInv(sys.store, id);
      }
    }
  }

  /** What is prepared depends on its own record alone. */
  lemma PreparedSurvives(s: Store, s': Store, id: TaskId, p: Prepared)
    requires PreparedInv(s, id, p) && id in s'.tasks && s'.tasks[id] == s.tasks[id]
    ensures PreparedInv(s', id, p)
  {
    hide DedupeKey, Transition;
  }

  lemma SaveKeepsSysInv(sys: Sys, id: TaskId)
    requires SysInv(sys) && id in sys.lock
    ensures SysInv(FineNext(sys, Save(id)))
  {
    hide DedupeKey, Inv, Transition, Rewrite;
    var p := sys.lock[id];
    SaveIsAtomicOrLost(sys.store, id, p);
    NextKeepsInv(sys.store, p.cause);
    var sys' := FineNext(sys, Save(id));
    forall j | j in sys'.lock
      ensures PreparedInv(sys'.store, j, sys'.lock[j])
    {
      assert j != id && PreparedInv(sys.store, j, sys.lock[j]);
      PreparedSurvives(sys.store, sys'.store, j, sys.lock[j]);
    }
  }

  lemma FineKeepsSysInv(sys: Sys, f: Fine)
    requires SysInv(sys)
    ensures SysInv(FineNext(sys, f))
  {
    match f
    case Unlocked(step) =>
      if IsUnlocked(step) {
        NextKeepsInv(sys.store, step);
        forall id | id in sys.lock
          ensures PreparedInv(Next(sys.store, step), id, sys.lock[id])
        {
          UnlockedKeepsPrepared(sys.store, step, id, sys.lock[id]);
        }
      }
    case Begin(_, _, _) => BeginKeepsSysInv(sys, f);
    case BeginRecovery(_, _) => BeginKeepsSysInv(sys, f);
    case Save(id) => if id in sys.lock { SaveKeepsSysInv(sys, id); }
  }

  /** Every interleaving of two-step transitions with unlocked claims and enqueues has exactly the
      effect of its atomic steps, run one after another. */
  lemma {:induction false} Linearizable(sys: Sys, run: seq<Fine>)
    requires SysInv(sys)
    ensures FineRun(sys, run).store == Run(sys.store, Linearize(sys, run))
    ensures SysInv(FineRun(sys, run))
    decreases |run|
  {
    if run != [] {
      var f := run[0];
      var sys' := FineNext(sys, f);
      FineKeepsSysInv(sys, f);
      assert Run(sys.store, Effect(sys, f)) == sys'.store by {
        if f.Save? && f.id in sys.lock {
          SaveIsAtomicOrLost(sys.store, f.id, sys.lock[f.id]);
        }
        if Effect(sys, f) != [] {
          var step := Effect(sys, f)[0];
          assert Run(sys.store, [step]) == Run(Next(sys.store, step), []);
        }
      }
      RunConcat(sys.store, Effect(sys, f), Linearize(sys', run[1..]));
      Linearizable(sys', run[1..]);
    }
  }

  // ----- several queues over one store: the compare-and-swap without the lock -----------------

  /** Equal except for what a heartbeat rewrites. */
  ghost predicate SameButLease(a: Task, b: Task) {
    b == a.(leaseExpiresAt := b.leaseExpiresAt, updatedAt := b.updatedAt)
  }

  lemma {:induction false} LostTokenStaysLost(s: Store, steps: seq<Step>, token: Token)
    requires Inv(s) && token < s.nextToken && !Holds(s, token)
    ensures Inv(Run(s, steps)) && !Holds(Run(s, steps), token)
    decreases |steps|
  {
    if steps != [] {
      NextKeepsInv(s, steps[0]);
      NewTokenIsFresh(s, steps[0], token);
      LostTokenStaysLost(Next(s, steps[0]), steps[1..], token);
    }
  }

  /** One step on a claimed task: a heartbeat at most, or its token is gone. */
  lemma StepPinsRecord(s: Store, step: Step, id: TaskId)
    requires Inv(s) && id in s.tasks && s.tasks[id].claimToken.Some?
    ensures id in Next(s, step).tasks && s.tasks[id].claimToken.value < Next(s, step).nextToken
    ensures var u := Next(s, step).tasks[id];
      || (u.claimToken == s.tasks[id].claimToken && SameButLease(s.tasks[id], u))
      || (u.claimToken.None? && !Holds(Next(s, step), s.tasks[id].claimToken.value))
  {
    hide DedupeKey;
    assert RecordInv(s, id);
    if !step.Enqueue? && Rewrite(s, step).Some? {
      RewriteIsLawful(s, step);
    }
  }

  /** While a task keeps its token, nothing but heartbeats has touched it. */
  lemma {:induction false} TokenPinsRecord(s: Store, steps: seq<Step>, id: TaskId)
    requires Inv(s) && id in s.tasks && s.tasks[id].claimToken.Some?
    ensures id in Run(s, steps).tasks
    ensures Run(s, steps).tasks[id].claimToken == s.tasks[id].claimToken ==>
              SameButLease(s.tasks[id], Run(s, steps).tasks[id])
    decreases |steps|
  {
    hide DedupeKey, Next, Inv;
    if steps != [] {
      var s' := Next(s, steps[0]);
      NextKeepsInv(s, steps[0]);
      StepPinsRecord(s, steps[0], id);
      if s'.tasks[id].claimToken.Some? {
        TokenPinsRecord(s', steps[1..], id);
      } else {
        LostTokenStaysLost(s', steps[1..], s.tasks[id].claimToken.value);
        AttemptsCountClaims(s', steps[1..], id);
      }
    }
  }

  /** No transition of a RUNNING record depends on what a heartbeat rewrites. */
  lemma HeartbeatIsOverwritten(a: Task, b: Task, op: Op, now: Time)
    requires a.status.Running? && SameButLease(a, b) && Transition(a, op, now).Ok?
    ensures Transition(b, op, now) == Transition(a, op, now)
  {
    match op
    case Heartbeat(_, _) =>
    case Succeed(_) =>
    case Fail(_, _, _) =>
    case Defer(_, _) =>
    case Block(_) =>
    case SendToReview(_) =>
    case ReleaseReview(_) =>
    case Cancel(_) =>
  }

  /** A save expecting RUNNING is atomic at its save under every interference whatsoever, other
      queues' transitions included: the token alone is enough, no lock is needed. */
  lemma TokenCasNeedsNoLock(s: Store, steps: seq<Step>, p: Prepared)
    requires Inv(s) && p.before.id in s.tasks && s.tasks[p.before.id] == p.before
    requires p.before.status.Running?
    requires !IsUnlocked(p.cause) && p.cause.id == p.before.id && Rewrite(s, p.cause) == Some(p.after)
    ensures var end := Run(s, steps);
      Cas(end, p) ==> Rewrite(end, p.cause) == Some(p.after) && Swapped(end, p) == Next(end, p.cause)
  {
    var id, end := p.before.id, Run(s, steps);
    assert RecordInv(s, id);
    TokenPinsRecord(s, steps, id);
    if Cas(end, p) {
      assert SameButLease(p.before, end.tasks[id]);
      if p.cause.Apply? {
        HeartbeatIsOverwritten(p.before, end.tasks[id], p.cause.op, p.cause.now);
      }
      assert Rewrite(end, p.cause) == Some(p.after);
    }
  }

  /** Another queue's turn with a task at rest: it is released if it is under review, claimed, sent to
      review, and released again unless that is where it started. */
  ghost function Roundabout(s: Store, id: TaskId): Store
    requires id in s.tasks
  {
    var t := s.tasks[id];
    var now := t.availableAt;
    var queued := if t.status.Review? then Next(s, Apply(id, ReleaseReview(0.0), now)) else s;
    var reviewed := Next(Next(queued, Claim(id, now, 1.0)), Apply(id, SendToReview(""), now));
    if t.status.Review? then reviewed
    else Next(reviewed, Apply(id, ReleaseReview(if t.status.Pending? then 0.0 else 1.0), now))
  }

  lemma RoundaboutReturns(s: Store, id: TaskId)
    requires Inv(s) && id in s.tasks && s.tasks[id].attempts < s.tasks[id].maxAttempts
    requires IsQueued(s.tasks[id].status) || s.tasks[id].status.Review?
    ensures var end := Roundabout(s, id);
      && id in end.tasks && end.tasks[id].status == s.tasks[id].status && end.tasks[id].claimToken.None?
      && end.tasks[id].attempts == s.tasks[id].attempts + 1
  {
    hide DedupeKey, Inv;
    var t, now := s.tasks[id], s.tasks[id].availableAt;
    var queued := if t.status.Review? then Next(s, Apply(id, ReleaseReview(0.0), now)) else s;
    assert id in queued.tasks && ReadyAt(queued.tasks[id], now) && queued.tasks[id].attempts == t.attempts;
    var claimed := Next(queued, Claim(id, now, 1.0));
    assert id in claimed.tasks && claimed.tasks[id].status.Running? && claimed.tasks[id].attempts == t.attempts + 1;
    var reviewed := Next(claimed, Apply(id, SendToReview(""), now));
    assert id in reviewed.tasks && reviewed.tasks[id].status.Review? && reviewed.tasks[id].claimToken.None?
        && reviewed.tasks[id].attempts == t.attempts + 1;
  }

  /** A save prepared by `op` is safe if, after any steps of any queues, it is lost or is its transition
      run atomically at that moment. */
  ghost predicate SafeWithoutLock(s: Store, id: TaskId, op: Op, at: Time)
    requires id in s.tasks && Transition(s.tasks[id], op, at).Ok?
  {
    var p := Prepared(s.tasks[id], Transition(s.tasks[id], op, at).value, Apply(id, op, at));
    forall steps :: Cas(Run(s, steps), p) ==> Swapped(Run(s, steps), p) == Next(Run(s, steps), p.cause)
  }

  lemma RoundaboutIsARun(s: Store, id: TaskId) returns (steps: seq<Step>)
    requires id in s.tasks
    ensures Run(s, steps) == Roundabout(s, id)
  {
    hide Next;
    var t := s.tasks[id];
    var now := t.availableAt;
    var claim, review: Step := Claim(id, now, 1.0), Apply(id, SendToReview(""), now);
    if t.status.Review? {
      var release: Step := Apply(id, ReleaseReview(0.0), now);
      steps := [release, claim, review];
      RunThree(s, release, claim, review);
    } else {
      var release: Step := Apply(id, ReleaseReview(if t.status.Pending? then 0.0 else 1.0), now);
      steps := [claim, review, release];
      RunThree(s, claim, review, release);
    }
  }

  lemma RunThree(s: Store, x: Step, y: Step, z: Step)
    ensures Run(s, [x, y, z]) == Next(Next(Next(s, x), y), z)
  {
    hide Next;
    assert [x, y, z][1..] == [y, z] && [y, z][1..] == [z] && [z][1..] == [];
    assert Run(Next(Next(s, x), y), [z]) == Next(Next(Next(s, x), y), z);
    assert Run(Next(s, x), [y, z]) == Run(Next(Next(s, x), y), [z]);
  }

  /** Read any task at rest with an attempt left, let another queue take it round, and save: the
      comparison passes and the attempt is forgotten, while the operation itself would have kept it. */
  lemma StaleSaveForgetsAnAttempt(s: Store, id: TaskId, op: Op, at: Time)
    requires Inv(s) && id in s.tasks && s.tasks[id].attempts < s.tasks[id].maxAttempts
    requires IsQueued(s.tasks[id].status) || s.tasks[id].status.Review?
    requires Transition(s.tasks[id], op, at).Ok?
    ensures var p := Prepared(s.tasks[id], Transition(s.tasks[id], op, at).value, Apply(id, op, at));
      var end := Roundabout(s, id);
      && Cas(end, p) && id in end.tasks && Swapped(end, p).tasks[id].attempts + 1 == end.tasks[id].attempts
      && Swapped(end, p) != Next(end, p.cause)
  {
    hide DedupeKey, Roundabout;
    assert RecordInv(s, id);
    RoundaboutReturns(s, id);
    TransitionIsLawful(s.tasks[id], op, at);
    var p := Prepared(s.tasks[id], Transition(s.tasks[id], op, at).value, Apply(id, op, at));
    var end := Roundabout(s, id);
    assert Cas(end, p);
    AttemptsSurvive(end, id, op, at);
  }

  lemma AttemptsSurvive(s: Store, id: TaskId, op: Op, at: Time)
    requires id in s.tasks
    ensures id in Next(s, Apply(id, op, at)).tasks && Next(s, Apply(id, op, at)).tasks[id].attempts == s.tasks[id].attempts
  {
    hide DedupeKey;
  }

  // ----- tasks at rest without an attempt left ------------------------------------------------

  /** A task at rest that no claim can take any more. */
  ghost predicate Exhausted(t: Task) {
    (IsQueued(t.status) || t.status.Review?) && t.attempts == t.maxAttempts
  }

  /** The operation overwrites whatever other queues can change in an exhausted task: a release from review
      always does, a deferral if nothing was started and the old error is replaced or cannot be touched. */
  predicate Overwrites(t: Task, op: Op) {
    || op.ReleaseReview?
    || (&& op.Defer? && t.startedAt.None?
        && ((op.deferReason.Some? && op.deferReason.value != "") || (t.status.Pending? && t.lastError.None?)))
  }

  /** What any steps make of an exhausted task `t`: it never runs, keeps its place in everything but
      status, times and error, and is PENDING only untouched or with its error cleared. */
  ghost predicate Parked(t: Task, u: Task) {
    && u == t.(status := u.status, availableAt := u.availableAt, updatedAt := u.updatedAt, startedAt := u.startedAt,
               finishedAt := u.finishedAt, lastError := u.lastError)
    && !u.status.Running?
    && (u.startedAt == t.startedAt || u.startedAt.None?)
    && (u.status.Pending? ==> u.lastError == t.lastError || u.lastError.None?)
  }

  lemma {:induction false} ExhaustedStaysParked(s: Store, steps: seq<Step>, id: TaskId, t: Task)
    requires Inv(s) && id in s.tasks && Exhausted(t) && Parked(t, s.tasks[id])
    ensures Inv(Run(s, steps)) && id in Run(s, steps).tasks && Parked(t, Run(s, steps).tasks[id])
    decreases |steps|
  {
    hide Inv, Parked, Exhausted, Next;
    if steps != [] {
      NextKeepsInv(s, steps[0]);
      StepKeepsParked(s, steps[0], id, t);
      ExhaustedStaysParked(Next(s, steps[0]), steps[1..], id, t);
    }
  }

  lemma StepKeepsParked(s: Store, step: Step, id: TaskId, t: Task)
    requires Inv(s) && id in s.tasks && Exhausted(t) && Parked(t, s.tasks[id])
    ensures id in Next(s, step).tasks && Parked(t, Next(s, step).tasks[id])
  {
    hide DedupeKey;
    assert RecordInv(s, id);
  }

  lemma OverwritingIsSafe(s: Store, steps: seq<Step>, id: TaskId, op: Op, at: Time)
    requires Inv(s) && id in s.tasks && Exhausted(s.tasks[id]) && Overwrites(s.tasks[id], op)
    requires Transition(s.tasks[id], op, at).Ok?
    ensures var p := Prepared(s.tasks[id], Transition(s.tasks[id], op, at).value, Apply(id, op, at));
      Cas(Run(s, steps), p) ==> Swapped(Run(s, steps), p) == Next(Run(s, steps), p.cause)
  {
    hide DedupeKey, Run;
    var t, end := s.tasks[id], Run(s, steps);
    assert RecordInv(s, id);
    ExhaustedStaysParked(s, steps, id, t);
    assert RecordInv(end, id);
    if end.tasks[id].status == t.status {
      assert Transition(end.tasks[id], op, at) == Transition(t, op, at);
    }
  }

  /** Another queue's detour with an exhausted task that moves what `op` does not overwrite: a review and
      back, or, for a deferral that keeps an absent error, a deferral with one. */
  ghost function Detour(s: Store, id: TaskId, op: Op): Store
    requires id in s.tasks
  {
    var t := s.tasks[id];
    var now := t.availableAt + 1.0;
    var review: Step, back: Step := Apply(id, SendToReview(""), now),
      Apply(id, ReleaseReview(if t.status.Deferred? then 1.0 else 0.0), now);
    if t.status.Review? then Next(Next(s, back), review)
    else if op.Defer? && t.startedAt.None? && t.lastError.None? then Next(s, Apply(id, Defer(0.0, Some("waiting")), now))
    else Next(Next(s, review), back)
  }

  lemma DetourIsARun(s: Store, id: TaskId, op: Op) returns (steps: seq<Step>)
    requires id in s.tasks
    ensures Run(s, steps) == Detour(s, id, op)
  {
    hide Next;
    var t := s.tasks[id];
    var now := t.availableAt + 1.0;
    var review: Step, back: Step := Apply(id, SendToReview(""), now),
      Apply(id, ReleaseReview(if t.status.Deferred? then 1.0 else 0.0), now);
    if t.status.Review? {
      steps := [back, review];
      assert steps[1..] == [review] && [review][1..] == [];
      assert Run(Next(s, back), [review]) == Next(Next(s, back), review);
    } else if op.Defer? && t.startedAt.None? && t.lastError.None? {
      steps := [Apply(id, Defer(0.0, Some("waiting")), now)];
      assert steps[1..] == [];
    } else {
      steps := [review, back];
      assert steps[1..] == [back] && [back][1..] == [];
      assert Run(Next(s, review), [back]) == Next(Next(s, review), back);
    }
  }

  lemma DetourMoves(s: Store, id: TaskId, op: Op, at: Time)
    requires Inv(s) && id in s.tasks && Exhausted(s.tasks[id]) && !Overwrites(s.tasks[id], op)
    requires Transition(s.tasks[id], op, at).Ok?
    ensures var end := Detour(s, id, op);
      && id in end.tasks && end.tasks[id].status == s.tasks[id].status && end.tasks[id].claimToken.None?
      && Transition(end.tasks[id], op, at).Ok? && Transition(end.tasks[id], op, at) != Transition(s.tasks[id], op, at)
  {
    hide DedupeKey;
    assert RecordInv(s, id);
  }

  /** Read an exhausted task, let another queue take it on its detour, and save: the comparison passes and
      what the detour moved is overwritten, while the operation itself would have kept it. */
  lemma StaleSaveForgetsAMove(s: Store, id: TaskId, op: Op, at: Time)
    requires Inv(s) && id in s.tasks && Exhausted(s.tasks[id]) && !Overwrites(s.tasks[id], op)
    requires Transition(s.tasks[id], op, at).Ok?
    ensures var p := Prepared(s.tasks[id], Transition(s.tasks[id], op, at).value, Apply(id, op, at));
      Cas(Detour(s, id, op), p) && Swapped(Detour(s, id, op), p) != Next(Detour(s, id, op), p.cause)
  {
    hide DedupeKey, Detour;
    var t, end := s.tasks[id], Detour(s, id, op);
    assert RecordInv(s, id);
    DetourMoves(s, id, op, at);
    var p := Prepared(t, Transition(t, op, at).value, Apply(id, op, at));
    assert Swapped(end, p).tasks[id] == p.after;
    assert Next(end, p.cause).tasks[id] == Transition(end.tasks[id], op, at).value;
  }

  /** Without the lock the saves of an accepted operation are safe if and only if it found the task
      RUNNING, or found it without an attempt left and overwrites all that others can have moved. */
  lemma SafeWithoutLockIff(s: Store, id: TaskId, op: Op, at: Time)
    requires Inv(s) && id in s.tasks && Transition(s.tasks[id], op, at).Ok?
    ensures SafeWithoutLock(s, id, op, at) <==>
            s.tasks[id].status.Running? || (s.tasks[id].attempts == s.tasks[id].maxAttempts && Overwrites(s.tasks[id], op))
  {
    hide Roundabout, Detour, Next, Run, Transition, Cas, Swapped, Overwrites, DedupeKey;
    var t := s.tasks[id];
    var p := Prepared(t, Transition(t, op, at).value, Apply(id, op, at));
    assert RecordInv(s, id);
    TransitionIsLawful(t, op, at);
    if t.status.Running? {
      forall steps
        ensures Cas(Run(s, steps), p) ==> Swapped(Run(s, steps), p) == Next(Run(s, steps), p.cause)
      {
        TokenCasNeedsNoLock(s, steps, p);
      }
    } else if t.attempts < t.maxAttempts {
      var steps := RoundaboutIsARun(s, id);
      StaleSaveForgetsAnAttempt(s, id, op, at);
      assert Cas(Run(s, steps), p) && Swapped(Run(s, steps), p) != Next(Run(s, steps), p.cause);
    } else if Overwrites(t, op) {
      forall steps
        ensures Cas(Run(s, steps), p) ==> Swapped(Run(s, steps), p) == Next(Run(s, steps), p.cause)
      {
        OverwritingIsSafe(s, steps, id, op, at);
      }
    } else {
      var steps := DetourIsARun(s, id, op);
      StaleSaveForgetsAMove(s, id, op, at);
      assert Cas(Run(s, steps), p) && Swapped(Run(s, steps), p) != Next(Run(s, steps), p.cause);
    }
  }
}
