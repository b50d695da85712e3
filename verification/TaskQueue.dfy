/** The queue over the store. Every method reads a record, decides, and saves; `env` is whatever
    claims and enqueues other coroutines complete between that read and that save. */
module TaskQueues {
  import opened Prelude
  import opened Tasks
  import opened TaskRuns
  import opened TaskInterleaving
  import opened TaskStores

  /** The outcome of one transition method: refused on the record read, beaten by a claim, or
      exactly the atomic step at the moment of its save. */
  ghost predicate AtomicOrNothing(s: Store, env: seq<Step>, id: TaskId, op: Op, now: Time, s': Store, r: Result<Task>) {
    var mid := Run(s, env);
    match Rewrite(s, Apply(id, op, now))
    case None => r.Err? && s' == s
    case Some(u) =>
      if id in mid.tasks && mid.tasks[id] == s.tasks[id] then r == Ok(u) && s' == Next(mid, Apply(id, op, now))
      else r == Err(Rejected) && s' == mid
  }

  predicate AllUnlocked(env: seq<Step>) {
    forall i :: 0 <= i < |env| ==> IsUnlocked(env[i])
  }

  /** After unlocked steps a record is as it was, or was queued and is now claimed under a token that
      did not exist before. */
  lemma {:induction false} EnvOnlyClaims(s: Store, env: seq<Step>, id: TaskId)
    requires Inv(s) && AllUnlocked(env) && id in s.tasks
    ensures Inv(Run(s, env)) && id in Run(s, env).tasks
    ensures Run(s, env).nextToken >= s.nextToken
    ensures SameOrClaimed(s.tasks[id], Run(s, env).tasks[id], s.nextToken)
    decreases |env|
  {
    if env != [] {
      NextKeepsInv(s, env[0]);
      UnlockedOnlyClaims(s, env[0], id);
      EnvOnlyClaims(Next(s, env[0]), env[1..], id);
    }
  }

  lemma RunSnoc(s: Store, env: seq<Step>, k: nat)
    requires k < |env|
    ensures Run(s, env[..k + 1]) == Next(Run(s, env[..k]), env[k])
  {
    assert env[..k + 1] == env[..k] + [env[k]];
    RunConcat(s, env[..k], [env[k]]);
    assert [env[k]][1..] == [];
    assert Run(Run(s, env[..k]), [env[k]]) == Run(Next(Run(s, env[..k]), env[k]), []);
  }

  lemma RecordIsSound(s: Store, id: TaskId)
    requires Inv(s) && id in s.tasks
    ensures s.tasks[id].id == id && WellFormed(s.tasks[id])
    ensures s.tasks[id].status.Running? ==> s.tasks[id].leaseExpiresAt.Some?
  {
    assert RecordInv(s, id);
  }

  /** Reading a record and transforming it later is transforming it later, if it did not move. */
  lemma SameRecordSameRewrite(s: Store, mid: Store, before: Task, op: Op, now: Time)
    requires before.id in s.tasks && s.tasks[before.id] == before && Transition(before, op, now).Ok?
    ensures Rewrite(s, Apply(before.id, op, now)) == Some(Transition(before, op, now).value)
    ensures before.id in mid.tasks && mid.tasks[before.id] == before ==>
      Next(mid, Apply(before.id, op, now)) == mid.(tasks := mid.tasks[before.id := Transition(before, op, now).value])
  {
  }

  /** The comparison a save makes in the store is the one the interleaved machine makes: status, token, and
      for lease recovery the lease. */
  lemma SaveIsCas(s: Store, p: Prepared)
    requires p.cause.Recover? ==> p.before.leaseExpiresAt.Some?
    ensures Cas(s, p) <==>
      && p.before.id in s.tasks
      && Matches(s.tasks[p.before.id], p.before.status, p.before.claimToken,
                 if p.cause.Recover? then p.before.leaseExpiresAt else None)
    ensures Cas(s, p) ==>
      && s.tasks[p.before.id].status == p.before.status && s.tasks[p.before.id].claimToken == p.before.claimToken
      && (p.cause.Recover? ==> s.tasks[p.before.id].leaseExpiresAt == p.before.leaseExpiresAt)
  {
  }

  /** What recovery, once `done` with it, leaves of a record. */
  function Released(t: Task, retryDelay: Time, now: Time, done: bool): Task {
    if done && LeaseExpired(t, now) then Recovered(t, retryDelay, now) else t
  }

  ghost predicate AllReleased(before: map<TaskId, Task>, after: map<TaskId, Task>, todo: set<TaskId>,
                              retryDelay: Time, now: Time, from: Token) {
    forall id :: id in before ==>
      id in after && SameOrClaimed(Released(before[id], retryDelay, now, id !in todo), after[id], from)
  }

  /** Recovery read task by task: an expired one waits for its next attempt if one is left, unless
      that attempt has already begun under a fresh token, and has FAILED otherwise; a task at rest is
      as it was. */
  lemma RecoveryOutcome(before: map<TaskId, Task>, after: map<TaskId, Task>, retryDelay: Time, now: Time, from: Token, id: TaskId)
    requires AllReleased(before, after, {}, retryDelay, now, from) && id in before && before[id].attempts <= before[id].maxAttempts
    ensures id in after
    ensures LeaseExpired(before[id], now) && before[id].attempts == before[id].maxAttempts ==>
      after[id].status.Failed? && after[id].attempts == before[id].attempts && after[id].claimToken.None?
    ensures LeaseExpired(before[id], now) && before[id].attempts < before[id].maxAttempts ==>
      || (after[id].status.Deferred? && after[id].attempts == before[id].attempts && after[id].claimToken.None?
          && after[id].availableAt == now + retryDelay)
      || (after[id].status.Running? && after[id].attempts == before[id].attempts + 1
          && after[id].claimToken.Some? && after[id].claimToken.value >= from)
    ensures !LeaseExpired(before[id], now) && !IsQueued(before[id].status) ==> after[id] == before[id]
  {
  }

  lemma SnapshotIsSound(store: InMemoryTaskStore)
    requires store.Valid()
    ensures forall id :: id in store.tasks ==> store.tasks[id].id == id
  {
    forall id | id in store.tasks
      ensures store.tasks[id].id == id
    {
      RecordIsSound(store.State(), id);
    }
  }

  lemma NoneReleased(tasks: map<TaskId, Task>, retryDelay: Time, now: Time, from: Token)
    ensures AllReleased(tasks, tasks, tasks.Keys, retryDelay, now, from)
  {
  }

  lemma ClaimsKeepReleased(before: map<TaskId, Task>, mid: map<TaskId, Task>, after: map<TaskId, Task>,
                           todo: set<TaskId>, retryDelay: Time, now: Time, from: Token)
    requires AllReleased(before, mid, todo, retryDelay, now, from)
    requires forall id :: id in mid ==> id in after && SameOrClaimed(mid[id], after[id], from)
    ensures AllReleased(before, after, todo, retryDelay, now, from)
  {
    hide Released;
  }

  lemma SkipKeepsReleased(before: map<TaskId, Task>, after: map<TaskId, Task>, todo: set<TaskId>, id: TaskId,
                          retryDelay: Time, now: Time, from: Token)
    requires AllReleased(before, after, todo, retryDelay, now, from)
    requires id in before && !LeaseExpired(before[id], now)
    ensures AllReleased(before, after, todo - {id}, retryDelay, now, from)
  {
    hide Recovered, LeaseExpired;
  }

  lemma {:induction false} TokensGrow(s: Store, steps: seq<Step>)
    ensures Run(s, steps).nextToken >= s.nextToken
    decreases |steps|
  {
    if steps != [] {
      TokensGrow(Next(s, steps[0]), steps[1..]);
    }
  }

  lemma TokensSince(was: map<TaskId, Task>, now: map<TaskId, Task>, later: Token, from: Token)
    requires from <= later && forall id :: id in was ==> id in now && SameOrClaimed(was[id], now[id], later)
    ensures forall id :: id in was ==> SameOrClaimed(was[id], now[id], from)
  {
  }

  lemma ExpiredIsRunning(t: Task, now: Time)
    ensures LeaseExpired(t, now) ==> t.status.Running?
  {
  }

  class TaskQueue {
    const store: InMemoryTaskStore

    constructor (store: InMemoryTaskStore)
      ensures this.store == store
    {
      this.store := store;
    }

    /** A new task is minted with an unused id and kept unless its key was ever stored. */
    method Enqueue(draft: Task, now: Time) returns (r: Result<bool>)
      requires store.Valid()
      modifies store
      ensures store.Valid() && store.State() == Next(old(store.State()), Step.Enqueue(draft, now))
      ensures r == if !EnqueueAccepted(draft) then Err(Rejected) else Ok(!HasKey(old(store.tasks), DedupeKey(draft)))
    {
      var id := store.NewTaskId();
      if !EnqueueAccepted(draft) {
        return Err(Rejected);
      }
      var task := draft.(id := id, updatedAt := now);
      assert DedupeKey(task) == DedupeKey(draft);
      var inserted := store.Put(task);
      r := Ok(inserted);
    }

    method Claim(id: TaskId, now: Time, leaseFor: Time) returns (r: Result<Task>)
      requires store.Valid()
      modifies store
      ensures store.Valid() && store.State() == Next(old(store.State()), Step.Claim(id, now, leaseFor))
      ensures r.Ok? <==> ClaimAccepted(old(store.State()), id, now, leaseFor)
      ensures r.Ok? ==> r.value == store.tasks[id] && r.value.claimToken == Some(old(store.nextToken))
    {
      hide DedupeKey, Inv;
      if leaseFor <= 0.0 {
        return Err(Rejected);
      }
      r := store.Claim(id, now, now + leaseFor);
    }

    /** Other coroutines run: any claims and enqueues, one store call after another. */
    method Interleave(env: seq<Step>)
      requires store.Valid() && AllUnlocked(env)
      modifies store
      ensures store.Valid() && store.State() == Run(old(store.State()), env)
    {
      var k := 0;
      while k < |env|
        invariant 0 <= k <= |env|
        invariant store.Valid() && store.State() == Run(old(store.State()), env[..k])
      {
        RunSnoc(old(store.State()), env, k);
        var step := env[k];
        if step.Enqueue? {
          var _ := Enqueue(step.draft, step.now);
        } else {
          var _ := Claim(step.id, step.now, step.leaseFor);
        }
        k := k + 1;
      }
      assert env[..k] == env;
    }

    /** One step of the environment, if any is left. */
    method InterleaveOne(env: seq<Step>) returns (left: seq<Step>)
      requires store.Valid() && AllUnlocked(env)
      modifies store
      ensures store.Valid() && AllUnlocked(left)
      ensures forall id :: id in old(store.tasks) ==>
        && id in store.tasks
        && SameOrClaimed(old(store.tasks)[id], store.tasks[id], old(store.nextToken))
      ensures store.nextToken >= old(store.nextToken)
    {
      hide DedupeKey;
      left := env;
      if env != [] {
        left := env[1..];
        Interleave(env[..1]);
        forall id | id in old(store.tasks)
          ensures id in store.tasks
          ensures SameOrClaimed(old(store.tasks)[id], store.tasks[id], old(store.nextToken))
        {
          EnvOnlyClaims(old(store.State()), env[..1], id);
        }
        TokensGrow(old(store.State()), env[..1]);
      }
    }

    /** The tail every transition shares: let others run, then compare and swap. */
    method Store(before: Task, after: Task, ghost op: Op, ghost now: Time, env: seq<Step>) returns (r: Result<Task>)
      requires store.Valid() && AllUnlocked(env)
      requires before.id in store.tasks && store.tasks[before.id] == before
      requires Transition(before, op, now) == Ok(after)
      modifies store
      ensures store.Valid()
      ensures AtomicOrNothing(old(store.State()), env, before.id, op, now, store.State(), r)
    {
      hide DedupeKey, Inv, WellFormed, Transition, Run;
      ghost var s := store.State();
      EnvOnlyClaims(s, env, before.id);
      RecordIsSound(s, before.id);
      TransitionIsLawful(before, op, now);
      SameRecordSameRewrite(s, Run(s, env), before, op, now);
      Interleave(env);
      r := SaveOver(before, after, None);
    }

    /** The compare-and-swap itself: it wins exactly when no claim took the record. */
    method SaveOver(before: Task, after: Task, expectedLease: Option<Time>) returns (r: Result<Task>)
      requires store.Valid() && before.id in store.tasks && before.id == after.id && MayReplace(before, after)
      requires SameOrClaimed(before, store.tasks[before.id], 0)
      requires expectedLease.Some? ==> before.leaseExpiresAt == expectedLease
      modifies store
      ensures store.Valid()
      ensures if old(store.tasks)[before.id] == before
              then r == Ok(after) && store.State() == old(store.State()).(tasks := old(store.tasks)[before.id := after])
              else r == Err(Rejected) && store.State() == old(store.State())
    {
      hide DedupeKey;
      r := store.Save(after, before.status, before.claimToken, expectedLease);
    }

    method Require(id: TaskId) returns (t: Result<Task>)
      requires store.Valid()
      ensures t == if id in store.tasks then Ok(store.tasks[id]) else Err(UnknownId)
      ensures id in store.tasks ==> RecordInv(store.State(), id)
    {
      var found := store.Get(id);
      t := if found.None? then Err(UnknownId) else Ok(found.value);
    }

    method Heartbeat(id: TaskId, token: Token, leaseFor: Time, now: Time, env: seq<Step>) returns (r: Result<Task>)
      requires store.Valid() && AllUnlocked(env)
      modifies store
      ensures store.Valid()
      ensures AtomicOrNothing(old(store.State()), env, id, Op.Heartbeat(token, leaseFor), now, store.State(), r)
    {
      hide DedupeKey, Inv;
      if leaseFor <= 0.0 {
        return Err(Rejected);
      }
      var found := Require(id);
      if found.Err? {
        return found;
      }
      var task := found.value;
      if !task.status.Running? || task.claimToken != Some(token) {
        return Err(Rejected);
      }
      var renewed := task.(leaseExpiresAt := Some(now + leaseFor), updatedAt := now);
      r := Store(task, renewed, Op.Heartbeat(token, leaseFor), now, env);
    }

    method Fail(id: TaskId, token: Token, error: string, retryDelay: Option<Time>, now: Time, env: seq<Step>)
      returns (r: Result<Task>)
      requires store.Valid() && AllUnlocked(env)
      modifies store
      ensures store.Valid()
      ensures AtomicOrNothing(old(store.State()), env, id, Op.Fail(token, error, retryDelay), now, store.State(), r)
    {
      hide DedupeKey, Inv;
      var found := Require(id);
      if found.Err? {
        return found;
      }
      var task := found.value;
      if !task.status.Running? || task.claimToken != Some(token) {
        return Err(Rejected);
      }
      var failed := task.(lastError := Some(NonBlank(error, "unknown error")),
                          leaseExpiresAt := None, claimToken := None, updatedAt := now);
      if retryDelay.Some? && task.attempts < task.maxAttempts {
        if retryDelay.value < 0.0 {
          return Err(Rejected);
        }
        failed := failed.(status := Status.Deferred, availableAt := now + retryDelay.value,
                          startedAt := None, finishedAt := None);
      } else {
        failed := failed.(status := Status.Failed, finishedAt := Some(now));
      }
      r := Store(task, failed, Op.Fail(token, error, retryDelay), now, env);
    }

    method Defer(id: TaskId, delay: Time, reason: Option<string>, now: Time, env: seq<Step>) returns (r: Result<Task>)
      requires store.Valid() && AllUnlocked(env)
      modifies store
      ensures store.Valid()
      ensures AtomicOrNothing(old(store.State()), env, id, Op.Defer(delay, reason), now, store.State(), r)
    {
      hide DedupeKey, Inv;
      if delay < 0.0 {
        return Err(Rejected);
      }
      var found := Require(id);
      if found.Err? {
        return found;
      }
      var task := found.value;
      if !IsQueued(task.status) {
        return Err(Rejected);
      }
      var deferred := task.(status := Status.Deferred, availableAt := now + delay, updatedAt := now);
      if reason.Some? && reason.value != "" {
        deferred := deferred.(lastError := reason);
      }
      r := Store(task, deferred, Op.Defer(delay, reason), now, env);
    }

    method SendToReview(id: TaskId, reason: string, now: Time, env: seq<Step>) returns (r: Result<Task>)
      requires store.Valid() && AllUnlocked(env)
      modifies store
      ensures store.Valid()
      ensures AtomicOrNothing(old(store.State()), env, id, Op.SendToReview(reason), now, store.State(), r)
    {
      hide DedupeKey, Inv;
      var found := Require(id);
      if found.Err? {
        return found;
      }
      var task := found.value;
      if IsTerminal(task.status) {
        return Err(Rejected);
      }
      var review := task.(leaseExpiresAt := None, claimToken := None, status := Status.Review, startedAt := None,
                          finishedAt := None, updatedAt := now, lastError := Some(NonBlank(reason, "manual review required")));
      r := Store(task, review, Op.SendToReview(reason), now, env);
    }

    method ReleaseReview(id: TaskId, delay: Time, now: Time, env: seq<Step>) returns (r: Result<Task>)
      requires store.Valid() && AllUnlocked(env)
      modifies store
      ensures store.Valid()
      ensures AtomicOrNothing(old(store.State()), env, id, Op.ReleaseReview(delay), now, store.State(), r)
    {
      hide DedupeKey, Inv;
      if delay < 0.0 {
        return Err(Rejected);
      }
      var found := Require(id);
      if found.Err? {
        return found;
      }
      var task := found.value;
      if !task.status.Review? {
        return Err(Rejected);
      }
      var released := task.(availableAt := now + delay, updatedAt := now, lastError := None,
                            status := if delay == 0.0 then Status.Pending else Status.Deferred, startedAt := None);
      r := Store(task, released, Op.ReleaseReview(delay), now, env);
    }

    method Succeed(id: TaskId, token: Token, now: Time, env: seq<Step>) returns (r: Result<Task>)
      requires store.Valid() && AllUnlocked(env)
      modifies store
      ensures store.Valid()
      ensures AtomicOrNothing(old(store.State()), env, id, Op.Succeed(token), now, store.State(), r)
    {
      r := Finish(id, Status.Succeeded, None, Some(token), Op.Succeed(token), now, env);
    }

    method Block(id: TaskId, reason: string, now: Time, env: seq<Step>) returns (r: Result<Task>)
      requires store.Valid() && AllUnlocked(env)
      modifies store
      ensures store.Valid()
      ensures AtomicOrNothing(old(store.State()), env, id, Op.Block(reason), now, store.State(), r)
    {
      r := Finish(id, Status.Blocked, Some(reason), None, Op.Block(reason), now, env);
    }

    method Cancel(id: TaskId, reason: Option<string>, now: Time, env: seq<Step>) returns (r: Result<Task>)
      requires store.Valid() && AllUnlocked(env)
      modifies store
      ensures store.Valid()
      ensures AtomicOrNothing(old(store.State()), env, id, Op.Cancel(reason), now, store.State(), r)
    {
      r := Finish(id, Status.Cancelled, reason, None, Op.Cancel(reason), now, env);
    }

    /** `token` is given exactly when the task has to be RUNNING under it. */
    method Finish(id: TaskId, status: Status, error: Option<string>, token: Option<Token>, ghost op: Op, now: Time,
                  env: seq<Step>)
      returns (r: Result<Task>)
      requires store.Valid() && AllUnlocked(env)
      requires match op
               case Succeed(k) => status == Status.Succeeded && error == None && token == Some(k)
               case Block(why) => status == Status.Blocked && error == Some(why) && token == None
               case Cancel(why) => status == Status.Cancelled && error == why && token == None
               case _ => false
      modifies store
      ensures store.Valid()
      ensures AtomicOrNothing(old(store.State()), env, id, op, now, store.State(), r)
    {
      var found := Require(id);
      if found.Err? {
        return found;
      }
      var task := found.value;
      if token.Some? && (!task.status.Running? || task.claimToken != token) {
        return Err(Rejected);
      }
      if IsTerminal(task.status) {
        return Err(Rejected);
      }
      var finished := task.(leaseExpiresAt := None, claimToken := None, status := status,
                            updatedAt := now, finishedAt := Some(now));
      if error.Some? {
        finished := finished.(lastError := BlankToNone(error.value));
      }
      r := Store(task, finished, op, now, env);
    }

    method RecoverOne(t: Task, retryDelay: Time, now: Time) returns (r: Result<Task>)
      requires store.Valid() && t.id in store.tasks && store.tasks[t.id] == t && LeaseExpired(t, now) && retryDelay >= 0.0
      modifies store
      ensures store.Valid() && r == Ok(Recovered(t, retryDelay, now)) && r.value.id == t.id
      ensures store.State() == old(store.State()).(tasks := old(store.tasks)[t.id := r.value])
    {
      hide DedupeKey;
      assert RecordInv(store.State(), t.id);
      assert Rewrite(store.State(), Recover(t.id, now, retryDelay)) == Some(Recovered(t, retryDelay, now));
      RewriteIsLawful(store.State(), Recover(t.id, now, retryDelay));
      r := SaveOver(t, Recovered(t, retryDelay, now), t.leaseExpiresAt);
    }

    /** One round of recovery, for a task whose lease had expired in the snapshot. */
    method RecoverNext(snapshot: map<TaskId, Task>, ghost todo: set<TaskId>, id: TaskId, env: seq<Step>,
                       retryDelay: Time, now: Time, ghost from: Token)
      returns (left: seq<Step>, task: Task)
      requires store.Valid() && AllUnlocked(env) && retryDelay >= 0.0
      requires AllReleased(snapshot, store.tasks, todo, retryDelay, now, from) && from <= store.nextToken
      requires id in todo && id in snapshot && LeaseExpired(snapshot[id], now) && snapshot[id].id == id
      modifies store
      ensures store.Valid() && AllUnlocked(left)
      ensures AllReleased(snapshot, store.tasks, todo - {id}, retryDelay, now, from) && from <= store.nextToken
      ensures task == Recovered(snapshot[id], retryDelay, now) && task.id == id
    {
      hide InMemoryTaskStore.Valid, DedupeKey, Inv, WellFormed, Recovered, LeaseExpired;
      ghost var was := store.tasks;
      left := InterleaveOne(env);
      TokensSince(was, store.tasks, old(store.nextToken), from);
      ClaimsKeepReleased(snapshot, was, store.tasks, todo, retryDelay, now, from);
      ExpiredIsRunning(snapshot[id], now);
      var r := RecoverOne(snapshot[id], retryDelay, now);
      task := r.value;
    }

    /** Every RUNNING task whose lease has run out is released, whatever claims and enqueues run
        between its saves; nothing else moves, other than by those claims. */
    method RecoverExpiredLeases(retryDelay: Time, now: Time, env: seq<Step>) returns (recovered: seq<Task>, ok: bool)
      requires store.Valid() && AllUnlocked(env)
      modifies store
      ensures store.Valid()
      ensures ok <==> retryDelay >= 0.0
      ensures !ok ==> store.State() == old(store.State())
      ensures ok ==> AllReleased(old(store.tasks), store.tasks, {}, retryDelay, now, old(store.nextToken))
      ensures ok ==> forall id :: id in old(store.tasks) && LeaseExpired(old(store.tasks)[id], now) ==>
        Recovered(old(store.tasks)[id], retryDelay, now) in recovered
      ensures forall t :: t in recovered ==> t.id in old(store.tasks) && LeaseExpired(old(store.tasks)[t.id], now)
    {
      hide InMemoryTaskStore.Valid, AllReleased, DedupeKey, Inv, WellFormed, Recovered, LeaseExpired;
      recovered := [];
      if retryDelay < 0.0 {
        return recovered, false;
      }
      ok := true;
      var snapshot := store.tasks;
      SnapshotIsSound(store);
      NoneReleased(snapshot, retryDelay, now, store.nextToken);
      var todo := snapshot.Keys;
      var left := env;
      while todo != {}
        invariant store.Valid() && AllUnlocked(left) && todo <= snapshot.Keys
        invariant AllReleased(snapshot, store.tasks, todo, retryDelay, now, old(store.nextToken))
        invariant old(store.nextToken) <= store.nextToken
        invariant forall id :: id in snapshot ==> snapshot[id].id == id
        invariant forall id :: id in snapshot && id !in todo && LeaseExpired(snapshot[id], now) ==>
          Recovered(snapshot[id], retryDelay, now) in recovered
        invariant forall t :: t in recovered ==> t.id in snapshot && LeaseExpired(snapshot[t.id], now)
        decreases todo
      {
        var id :| id in todo;
        if LeaseExpired(snapshot[id], now) {
          var task;
          left, task := RecoverNext(snapshot, todo, id, left, retryDelay, now, old(store.nextToken));
          recovered := recovered + [task];
        } else {
          SkipKeepsReleased(snapshot, store.tasks, todo, id, retryDelay, now, old(store.nextToken));
        }
        todo := todo - {id};
      }
    }
  }
}
