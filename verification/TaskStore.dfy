/** The in-memory task store: records plus two dictionaries that make key lookups fast. */
module TaskStores {
  import opened Prelude
  import opened Tasks
  import opened TaskRuns

  /** `index` maps every key ever stored to its one task. */
  ghost predicate IndexesAll(index: map<string, TaskId>, tasks: map<TaskId, Task>) {
    && (forall k :: k in index ==> index[k] in tasks && DedupeKey(tasks[index[k]]) == k)
    && (forall id :: id in tasks ==> DedupeKey(tasks[id]) in index && index[DedupeKey(tasks[id])] == id)
  }

  ghost predicate LiveEntry(index: map<string, TaskId>, tasks: map<TaskId, Task>, key: string)
    requires key in index
  {
    && index[key] in tasks
    && DedupeKey(tasks[index[key]]) == key
    && !IsTerminal(tasks[index[key]].status)
  }

  /** `index` maps a key to a task exactly when that task is unfinished. */
  ghost predicate IndexesLive(index: map<string, TaskId>, tasks: map<TaskId, Task>) {
    && (forall k :: k in index ==> LiveEntry(index, tasks, k))
    && (forall id :: id in tasks && !IsTerminal(tasks[id].status) ==>
          DedupeKey(tasks[id]) in index && index[DedupeKey(tasks[id])] == id)
  }

  /** A record that may replace `old`: same key, validated, and no token it did not hold. */
  ghost predicate MayReplace(old_: Task, t: Task) {
    && t.id == old_.id
    && WellFormed(t)
    && DedupeKey(t) == DedupeKey(old_)
    && (t.status.Running? ==> t.leaseExpiresAt.Some?)
    && (t.claimToken.Some? ==> t.claimToken == old_.claimToken)
    && !IsTerminal(old_.status)
  }

  /** The comparison of compare-and-swap; a lease is compared only when one is expected. */
  predicate Matches(cur: Task, status: Status, token: Option<Token>, lease: Option<Time>) {
    cur.status == status && cur.claimToken == token && (lease.Some? ==> cur.leaseExpiresAt == lease)
  }

  /** `index` leads from `key` to an unfinished task. */
  predicate Occupied(index: map<string, TaskId>, tasks: map<TaskId, Task>, key: string) {
    key in index && index[key] in tasks && !IsTerminal(tasks[index[key]].status)
  }

  /** Another unfinished task has the record's key, and the record claims it. */
  ghost predicate KeyTaken(tasks: map<TaskId, Task>, t: Task) {
    && !IsTerminal(t.status)
    && exists other ::
         other in tasks && other != t.id && DedupeKey(tasks[other]) == DedupeKey(t) && !IsTerminal(tasks[other].status)
  }

  lemma TakenIff(live: map<string, TaskId>, tasks: map<TaskId, Task>, t: Task)
    requires IndexesLive(live, tasks) && t.id in tasks
    ensures var old_ := DedupeKey(tasks[t.id]);
      var rest := if old_ in live && live[old_] == t.id then live - {old_} else live;
      KeyTaken(tasks, t) <==> !IsTerminal(t.status) && DedupeKey(t) in rest && rest[DedupeKey(t)] != t.id
  {
    hide DedupeKey;
    if DedupeKey(t) in live {
      assert LiveEntry(live, tasks, DedupeKey(t));
    }
  }

  class InMemoryTaskStore {
    var tasks: map<TaskId, Task>
    var activeKeys: map<string, TaskId>
    var knownKeys: map<string, TaskId>
    var nextId: TaskId
    var nextToken: Token

    ghost function State(): Store
      reads this
    {
      Store(tasks, nextId, nextToken)
    }

    ghost predicate Valid()
      reads this
    {
      Inv(State()) && IndexesAll(knownKeys, tasks) && IndexesLive(activeKeys, tasks)
    }

    constructor ()
      ensures Valid() && State() == EMPTY
    {
      tasks, activeKeys, knownKeys := map[], map[], map[];
      nextId, nextToken := 0, 0;
    }

    method NewTaskId() returns (id: TaskId)
      requires Valid()
      modifies this`nextId
      ensures Valid() && id == old(nextId) && nextId == id + 1
    {
      id, nextId := nextId, nextId + 1;
    }

    /** Inserts exactly when no task, finished or not, ever had this key. Nothing checks the id:
        the indexes survive unless an id is reused under a new key, and then they do not. */
    method Put(task: Task) returns (inserted: bool)
      requires Valid()
      modifies this`tasks, this`activeKeys, this`knownKeys
      ensures inserted <==> !HasKey(old(tasks), DedupeKey(task))
      ensures tasks == if inserted then old(tasks)[task.id := task] else old(tasks)
      ensures IndexesAll(knownKeys, tasks) && IndexesLive(activeKeys, tasks) <==> task.id !in old(tasks) || !inserted
      ensures WellFormed(task) && IsQueued(task.status) && task.id < nextId ==>
        (Valid() <==> task.id !in old(tasks) || !inserted)
    {
      hide DedupeKey;
      var key := DedupeKey(task);
      ghost var before := tasks;
      inserted := key !in knownKeys && !Occupied(activeKeys, tasks, key);
      if inserted {
        activeKeys := activeKeys - {key};
        tasks := tasks[task.id := task];
        knownKeys := knownKeys[key := task.id];
        if !IsTerminal(task.status) {
          activeKeys := activeKeys[key := task.id];
        }
        if task.id in before {
          assert knownKeys[DedupeKey(before[task.id])] == task.id;
          assert !IndexesAll(knownKeys, tasks);
        } else {
          if WellFormed(task) && IsQueued(task.status) && task.id < nextId {
            PutKeepsInv(Store(before, nextId, nextToken), task);
          }
          PutKeepsIndexes(old(knownKeys), old(activeKeys), before, task);
        }
      }
    }

    method Get(id: TaskId) returns (t: Option<Task>)
      ensures t == if id in tasks then Some(tasks[id]) else None
    {
      t := if id in tasks then Some(tasks[id]) else None;
    }

    /** Compare-and-swap. A record whose key belongs to another unfinished task is refused too late: it
        has been stored by then. For a record that may replace the stored one that cannot arise, and
        the save is refused exactly when the comparison fails. */
    method Save(task: Task, expectedStatus: Status, expectedToken: Option<Token>, expectedLease: Option<Time>)
      returns (r: Result<Task>)
      requires Valid()
      modifies this`tasks, this`activeKeys
      ensures task.id !in old(tasks) ==> r == Err(UnknownId) && Valid() && State() == old(State())
      ensures task.id in old(tasks) && !Matches(old(tasks)[task.id], expectedStatus, expectedToken, expectedLease) ==>
        r == Err(Rejected) && Valid() && State() == old(State())
      ensures task.id in old(tasks) && Matches(old(tasks)[task.id], expectedStatus, expectedToken, expectedLease)
              && MayReplace(old(tasks)[task.id], task) ==>
        r == Ok(task) && Valid() && State() == old(State()).(tasks := old(tasks)[task.id := task])
      ensures task.id in old(tasks) && Matches(old(tasks)[task.id], expectedStatus, expectedToken, expectedLease) ==>
        && tasks == old(tasks)[task.id := task]
        && r == if KeyTaken(old(tasks), task) then Err(Rejected) else Ok(task)
    {
      hide DedupeKey, Inv, IndexesAll, IndexesLive, WellFormed, KeyTaken;
      if task.id !in tasks {
        return Err(UnknownId);
      }
      TakenIff(activeKeys, tasks, task);
      var previous := tasks[task.id];
      if previous.status != expectedStatus {
        return Err(Rejected);
      }
      if previous.claimToken != expectedToken {
        return Err(Rejected);
      }
      if expectedLease.Some? && previous.leaseExpiresAt != expectedLease {
        return Err(Rejected);
      }
      if MayReplace(previous, task) {
        ReplaceKeepsInv(State(), task);
        ReplaceKeepsIndexes(knownKeys, activeKeys, tasks, task);
      }
      var live := activeKeys;
      if DedupeKey(previous) in live && live[DedupeKey(previous)] == task.id {
        live := live - {DedupeKey(previous)};
      }
      activeKeys := live;
      tasks := tasks[task.id := task];
      if !IsTerminal(task.status) {
        if DedupeKey(task) in live && live[DedupeKey(task)] != task.id {
          return Err(Rejected);
        }
        activeKeys := live[DedupeKey(task) := task.id];
      }
      r := Ok(task);
    }

    method Claim(id: TaskId, now: Time, leaseExpiresAt: Time) returns (r: Result<Task>)
      requires Valid()
      modifies this`tasks, this`nextToken
      ensures Valid()
      ensures r.Ok? <==> id in old(tasks) && ReadyAt(old(tasks[id]), now)
      ensures r == Err(UnknownId) <==> id !in old(tasks)
      ensures r.Ok? ==>
        && r.value == Claimed(old(tasks[id]), old(nextToken), now, leaseExpiresAt)
        && State() == old(State()).(tasks := old(tasks)[id := r.value], nextToken := old(nextToken) + 1)
      ensures r.Err? ==> State() == old(State())
    {
      hide DedupeKey, IndexesAll, IndexesLive;
      if id !in tasks {
        return Err(UnknownId);
      }
      var current := tasks[id];
      if !IsQueued(current.status) {
        return Err(Rejected);
      }
      if current.availableAt > now {
        return Err(Rejected);
      }
      if current.attempts >= current.maxAttempts {
        return Err(Rejected);
      }
      var claimed := Claimed(current, nextToken, now, leaseExpiresAt);
      ghost var before := State();
      tasks, nextToken := tasks[id := claimed], nextToken + 1;
      ClaimKeepsInv(before, id, now, leaseExpiresAt);
      ReplaceKeepsIndexes(knownKeys, activeKeys, before.tasks, claimed);
      r := Ok(claimed);
    }

    /** The dictionary lookup finds what a search of all records would, and never has to repair. */
    method ActiveByDedupeKey(key: string) returns (found: Option<Task>)
      requires Valid()
      modifies this`activeKeys
      ensures activeKeys == old(activeKeys)
      ensures found.Some? ==>
        && found.value.id in tasks && tasks[found.value.id] == found.value
        && DedupeKey(found.value) == key && !IsTerminal(found.value.status)
      ensures found.None? ==> forall id :: id in tasks && DedupeKey(tasks[id]) == key ==> IsTerminal(tasks[id].status)
    {
      hide DedupeKey;
      if Occupied(activeKeys, tasks, key) {
        assert LiveEntry(activeKeys, tasks, key);
        found := Some(tasks[activeKeys[key]]);
      } else {
        activeKeys := activeKeys - {key};
        found := None;
      }
    }
  }

  lemma PutKeepsInv(s: Store, t: Task)
    requires Inv(s) && t.id !in s.tasks && t.id < s.nextId && !HasKey(s.tasks, DedupeKey(t))
    requires WellFormed(t) && IsQueued(t.status)
    ensures Inv(s.(tasks := s.tasks[t.id := t]))
  {
    hide DedupeKey;
  }

  lemma PutKeepsIndexes(known: map<string, TaskId>, live: map<string, TaskId>, tasks: map<TaskId, Task>, t: Task)
    requires IndexesAll(known, tasks) && IndexesLive(live, tasks)
    requires t.id !in tasks && !HasKey(tasks, DedupeKey(t))
    ensures IndexesAll(known[DedupeKey(t) := t.id], tasks[t.id := t])
    ensures IndexesLive(if IsTerminal(t.status) then live - {DedupeKey(t)} else (live - {DedupeKey(t)})[DedupeKey(t) := t.id],
                        tasks[t.id := t])
  {
    hide DedupeKey;
    var live' := if IsTerminal(t.status) then live - {DedupeKey(t)} else (live - {DedupeKey(t)})[DedupeKey(t) := t.id];
    var tasks' := tasks[t.id := t];
    forall k | k in live'
      ensures LiveEntry(live', tasks', k)
    {
      assert k == DedupeKey(t) || LiveEntry(live, tasks, k);
    }
  }

  lemma ReplaceKeepsInv(s: Store, t: Task)
    requires Inv(s) && t.id in s.tasks && MayReplace(s.tasks[t.id], t)
    ensures Inv(s.(tasks := s.tasks[t.id := t]))
  {
    hide DedupeKey;
    assert RecordInv(s, t.id);
  }

  /** What `save` does to the dictionary of unfinished tasks. */
  ghost function Reindexed(live: map<string, TaskId>, t: Task): map<string, TaskId> {
    var key := DedupeKey(t);
    var popped := if key in live && live[key] == t.id then live - {key} else live;
    if IsTerminal(t.status) then popped else popped[key := t.id]
  }

  lemma ReplaceKeepsIndexes(known: map<string, TaskId>, live: map<string, TaskId>, tasks: map<TaskId, Task>, t: Task)
    requires IndexesAll(known, tasks) && IndexesLive(live, tasks)
    requires t.id in tasks && !IsTerminal(tasks[t.id].status) && DedupeKey(tasks[t.id]) == DedupeKey(t)
    ensures IndexesAll(known, tasks[t.id := t])
    ensures IndexesLive(Reindexed(live, t), tasks[t.id := t])
    ensures !IsTerminal(t.status) ==> Reindexed(live, t) == live
    ensures DedupeKey(t) in live && live[DedupeKey(t)] == t.id
  {
    hide DedupeKey;
    var live', tasks' := Reindexed(live, t), tasks[t.id := t];
    forall k | k in live'
      ensures LiveEntry(live', tasks', k)
    {
      assert k == DedupeKey(t) || LiveEntry(live, tasks, k);
    }
  }

  lemma ClaimKeepsInv(s: Store, id: TaskId, now: Time, leaseExpiresAt: Time)
    requires Inv(s) && id in s.tasks && ReadyAt(s.tasks[id], now)
    ensures var t := Claimed(s.tasks[id], s.nextToken, now, leaseExpiresAt);
      && DedupeKey(t) == DedupeKey(s.tasks[id])
      && Inv(s.(tasks := s.tasks[id := t], nextToken := s.nextToken + 1))
  {
    assert RecordInv(s, id);
  }
}
