/** The dispatcher: worker slots, per-worker limits and the step budget of one run. */
module Dispatchers {
  import opened Prelude
  import S = Schedulers
  import O = BatchOrders

  /** An execution under way. It is known by the step that admitted it. */
  datatype Job = Job(worker: string, slot: int)

  /** What the admission of one ranked decision comes to. */
  datatype Answer = Ticket | Backpressure | Reported

  /** What the world answers to one request of the loop; `nextReady` is when the next deferred task is due,
      if there is one, and `now` what the clock reads then. */
  datatype World = World(ranked: seq<S.Ranked>, answers: nat -> Answer, finished: set<int>, nextReady: Option<Time>, now: Time)

  datatype Stop = StepLimit | Drained | Paused | Unfinished

  predicate Increasing(s: seq<int>) {
    forall i, j :: 0 <= i < j < |s| ==> s[i] < s[j]
  }

  lemma TailMembers(s: seq<int>)
    requires Increasing(s) && s != []
    ensures forall n :: n in s[1..] <==> n in s && n != s[0]
    ensures forall n :: n in s[1..] ==> s[0] < n
  {
    assert s == [s[0]] + s[1..];
    forall n | n in s[1..]
      ensures s[0] < n
    {
      var k :| 0 <= k < |s[1..]| && s[1..][k] == n;
      assert s[k + 1] == n;
    }
  }

  lemma Fronted(first: int, rest: seq<int>)
    requires Increasing(rest) && forall n :: n in rest ==> first < n
    ensures Increasing([first] + rest)
  {
    forall i, j | 0 <= i < j < |rest| + 1
      ensures ([first] + rest)[i] < ([first] + rest)[j]
    {
      assert rest[j - 1] in rest;
    }
  }

  /** Appending a slot and sorting again. */
  function Inserted(slots: seq<int>, slot: int): (r: seq<int>)
    requires Increasing(slots) && slot !in slots
    ensures Increasing(r) && |r| == |slots| + 1
    ensures forall n :: n in r <==> n in slots || n == slot
  {
    if slots == [] || slot < slots[0] then [slot] + slots
    else
      TailMembers(slots);
      var rest := Inserted(slots[1..], slot);
      Fronted(slots[0], rest);
      [slots[0]] + rest
  }

  function OneTo(n: nat): seq<int> {
    seq(n, i => i + 1)
  }

  /** A sorted list is settled by its members. */
  lemma {:induction false} SortedListsAgree(s: seq<int>, t: seq<int>)
    requires Increasing(s) && Increasing(t) && forall n :: n in s <==> n in t
    ensures s == t
  {
    assert |s| > 0 ==> s[0] in s && s[0] in t;
    assert |t| > 0 ==> t[0] in t && t[0] in s;
    if s != [] && t != [] {
      assert s[0] in t && t[0] in s;
      assert s[0] == t[0];
      TailMembers(s);
      TailMembers(t);
      SortedListsAgree(s[1..], t[1..]);
    }
  }

  ghost predicate Held(active: map<int, Job>, n: int) {
    exists e :: e in active && active[e].slot == n
  }

  /** Free and held slots are exactly 1..concurrency, none twice. */
  ghost predicate SlotsInv(concurrency: nat, slots: seq<int>, active: map<int, Job>) {
    && Increasing(slots)
    && |slots| + |active| == concurrency
    && (forall n :: 1 <= n <= concurrency <==> n in slots || Held(active, n))
    && (forall e :: e in active ==> active[e].slot !in slots)
    && (forall e, f :: e in active && f in active && e != f ==> active[e].slot != active[f].slot)
  }

  lemma TakingKeepsSlots(concurrency: nat, slots: seq<int>, active: map<int, Job>, e: int, worker: string)
    requires SlotsInv(concurrency, slots, active) && e !in active && slots != []
    ensures SlotsInv(concurrency, slots[1..], active[e := Job(worker, slots[0])])
  {
    var after := active[e := Job(worker, slots[0])];
    assert slots == [slots[0]] + slots[1..];
    forall n
      ensures 1 <= n <= concurrency <==> n in slots[1..] || Held(after, n)
    {
      if Held(active, n) {
        var f :| f in active && active[f].slot == n;
        assert f in after && after[f].slot == n;
      }
      if n == slots[0] {
        assert after[e].slot == n;
      }
      if Held(after, n) {
        var f :| f in after && after[f].slot == n;
        assert f == e || (f in active && active[f].slot == n);
      }
    }
  }

  lemma ReturningKeepsSlots(concurrency: nat, slots: seq<int>, active: map<int, Job>, e: int)
    requires SlotsInv(concurrency, slots, active) && e in active
    ensures SlotsInv(concurrency, Inserted(slots, active[e].slot), active - {e})
  {
    var after := active - {e};
    assert |active| == |after| + 1 by {
      assert active == after[e := active[e]];
    }
    forall n
      ensures 1 <= n <= concurrency <==> n in Inserted(slots, active[e].slot) || Held(after, n)
    {
      if Held(active, n) {
        var f :| f in active && active[f].slot == n;
        assert f == e || (f in after && after[f].slot == n);
      }
      if Held(after, n) {
        var f :| f in after && after[f].slot == n;
        assert f in active && active[f].slot == n;
      }
    }
  }

  /** With nothing under way every slot is back in its place. */
  lemma AllSlotsReturned(concurrency: nat, slots: seq<int>)
    requires SlotsInv(concurrency, slots, map[])
    ensures slots == OneTo(concurrency)
  {
    forall n
      ensures n in slots <==> n in OneTo(concurrency)
    {
      assert !Held(map[], n);
      if 1 <= n <= concurrency {
        assert OneTo(concurrency)[n - 1] == n;
      }
    }
    SortedListsAgree(slots, OneTo(concurrency));
  }

  /** Executions of one worker. */
  ghost function JobsOf(active: map<int, Job>, worker: string): set<int> {
    set e | e in active && active[e].worker == worker
  }

  /** A Counter reads 0 for what it has never seen. */
  function CountOf(running: map<string, int>, worker: string): int {
    if worker in running then running[worker] else 0
  }

  ghost predicate Counts(running: map<string, int>, active: map<int, Job>) {
    forall w :: CountOf(running, w) == |JobsOf(active, w)|
  }

  lemma StartingCounts(running: map<string, int>, active: map<int, Job>, e: int, worker: string, slot: int)
    requires Counts(running, active) && e !in active
    ensures Counts(running[worker := CountOf(running, worker) + 1], active[e := Job(worker, slot)])
  {
    var job, after := Job(worker, slot), running[worker := CountOf(running, worker) + 1];
    forall w
      ensures CountOf(after, w) == |JobsOf(active[e := job], w)|
    {
      JobsWith(active, e, job, w);
    }
  }

  lemma JobsWith(active: map<int, Job>, e: int, job: Job, worker: string)
    requires e !in active
    ensures |JobsOf(active[e := job], worker)| == |JobsOf(active, worker)| + if worker == job.worker then 1 else 0
  {
    var before := JobsOf(active, worker);
    if worker == job.worker {
      assert JobsOf(active[e := job], worker) == before + {e};
    } else {
      assert JobsOf(active[e := job], worker) == before;
    }
  }

  lemma EndingCounts(running: map<string, int>, active: map<int, Job>, e: int)
    requires Counts(running, active) && e in active
    ensures var worker := active[e].worker;
      Counts(running[worker := CountOf(running, worker) - 1], active - {e})
  {
    var worker, before := active[e].worker, active - {e};
    var after := running[worker := CountOf(running, worker) - 1];
    forall w
      ensures CountOf(after, w) == |JobsOf(before, w)|
    {
      JobsWithout(active, e, w);
    }
  }

  lemma JobsWithout(active: map<int, Job>, e: int, worker: string)
    requires e in active
    ensures |JobsOf(active - {e}, worker)| == |JobsOf(active, worker)| - if worker == active[e].worker then 1 else 0
  {
    var rest := JobsOf(active - {e}, worker);
    if worker == active[e].worker {
      assert JobsOf(active, worker) == rest + {e};
    } else {
      assert JobsOf(active, worker) == rest;
    }
  }

  /** The decisions of a batch whose admission gave a ticket, in order. */
  function Admitted(batch: seq<S.Ranked>, answers: nat -> Answer): (r: seq<S.Ranked>)
    ensures |r| <= |batch|
  {
    if batch == [] then []
    else
      var n := |batch| - 1;
      Admitted(batch[..n], answers) + (if answers(n).Ticket? then [batch[n]] else [])
  }

  lemma AdmittedNext(batch: seq<S.Ranked>, answers: nat -> Answer, k: nat)
    requires k < |batch|
    ensures Admitted(batch[..k + 1], answers) ==
            if answers(k).Ticket? then Admitted(batch[..k], answers) + [batch[k]] else Admitted(batch[..k], answers)
  {
    assert batch[..k + 1][..k] == batch[..k];
  }

  /** The answers that give a ticket. */
  ghost function Tickets(n: nat, answers: nat -> Answer): set<nat> {
    set i: nat | i < n && answers(i) == Ticket
  }

  /** The decision answered by a ticket stands after those answered by one before it. */
  ghost predicate AdmittedInPlace(batch: seq<S.Ranked>, answers: nat -> Answer, k: nat)
    requires k < |batch|
  {
    var place := |Tickets(k, answers)|;
    place < |Admitted(batch, answers)| && Admitted(batch, answers)[place] == batch[k]
  }

  /** Exactly the decisions answered by a ticket are admitted, in their order. */
  lemma {:induction false} AdmittedAreTickets(batch: seq<S.Ranked>, answers: nat -> Answer)
    ensures |Admitted(batch, answers)| == |Tickets(|batch|, answers)|
    ensures forall k: nat :: k < |batch| && answers(k) == Ticket ==> AdmittedInPlace(batch, answers, k)
  {
    if batch != [] {
      var n := |batch| - 1;
      AdmittedAreTickets(batch[..n], answers);
      TicketsNext(n, answers);
      forall k: nat | k < |batch| && answers(k) == Ticket
        ensures AdmittedInPlace(batch, answers, k)
      {
        if k < n {
          assert AdmittedInPlace(batch[..n], answers, k);
        }
      }
    }
  }

  lemma TicketsNext(n: nat, answers: nat -> Answer)
    ensures |Tickets(n + 1, answers)| == |Tickets(n, answers)| + if answers(n) == Ticket then 1 else 0
  {
    assert Tickets(n + 1, answers) == if answers(n) == Ticket then Tickets(n, answers) + {n} else Tickets(n, answers);
  }

  /** Never more tickets for a worker than decisions of it in the batch. */
  lemma {:induction false} AdmittedOfWorker(batch: seq<S.Ranked>, answers: nat -> Answer, worker: string)
    ensures |S.Of(Admitted(batch, answers), worker)| <= |S.Of(batch, worker)|
  {
    if batch != [] {
      var n := |batch| - 1;
      AdmittedOfWorker(batch[..n], answers, worker);
      S.OfSnoc(Admitted(batch[..n], answers), batch[n], worker);
      assert Admitted(batch, answers) ==
        if answers(n).Ticket? then Admitted(batch[..n], answers) + [batch[n]] else Admitted(batch[..n], answers);
    }
  }

  /** `active` after the tickets got steps `steps + 1..` and the lowest free slots. */
  function Started(active: map<int, Job>, steps: int, slots: seq<int>, tickets: seq<S.Ranked>): map<int, Job>
    requires |tickets| <= |slots|
  {
    if tickets == [] then active
    else
      var n := |tickets| - 1;
      Started(active, steps, slots, tickets[..n])[steps + |tickets| := Job(tickets[n].worker, slots[n])]
  }

  lemma StartedSnoc(active: map<int, Job>, steps: int, slots: seq<int>, tickets: seq<S.Ranked>, next: S.Ranked)
    requires |tickets| < |slots|
    ensures Started(active, steps, slots, tickets + [next]) ==
            Started(active, steps, slots, tickets)[steps + |tickets| + 1 := Job(next.worker, slots[|tickets|])]
  {
    assert (tickets + [next])[..|tickets|] == tickets;
  }

  lemma {:induction false} OfAbsent(batch: seq<S.Ranked>, worker: string)
    requires forall i :: 0 <= i < |batch| ==> batch[i].worker != worker
    ensures S.Of(batch, worker) == []
  {
    if batch != [] {
      OfAbsent(batch[..|batch| - 1], worker);
    }
  }

  /** A batch never overdraws a worker's free slots. */
  lemma BatchWithinCapacity(ranked: seq<S.Ranked>, limit: int, excluded: set<string>, capacities: map<string, int>,
                            batch: seq<S.Ranked>, worker: string)
    requires S.IsBatch(ranked, limit, excluded, capacities, batch) && worker in capacities
    ensures |S.Of(batch, worker)| <= Max(capacities[worker], 0)
  {
    hide S.Of, S.Fair, S.TotalQuota;
    if worker !in S.FirstSeen(ranked, excluded) {
      OfAbsent(batch, worker);
    }
  }

  /** Before item `k`, the tickets already given and the one now due still fit in the batch's share. */
  lemma OneMoreFits(batch: seq<S.Ranked>, answers: nat -> Answer, k: nat)
    requires k < |batch|
    ensures |S.Of(Admitted(batch[..k], answers), batch[k].worker)| + 1 <= |S.Of(batch, batch[k].worker)|
  {
    var worker := batch[k].worker;
    AdmittedOfWorker(batch[..k], answers, worker);
    S.OfSnoc(batch[..k], batch[k], worker);
    assert batch[..k + 1] == batch[..k] + [batch[k]];
    S.OfPrefix(batch, k + 1, worker);
  }

  /** The loop's variables at one moment. */
  datatype Snapshot = Snapshot(active: map<int, Job>, slots: seq<int>, running: map<string, int>, steps: nat, finished: nat)

  lemma BatchHasRoom(ranked: seq<S.Ranked>, limit: int, excluded: set<string>, capacities: map<string, int>, batch: seq<S.Ranked>)
    requires S.IsBatch(ranked, limit, excluded, capacities, batch)
    ensures |batch| <= Max(limit, 0)
    ensures forall w :: w in capacities ==> |S.Of(batch, w)| <= Max(capacities[w], 0)
  {
    hide S.Of, S.Fair, S.TotalQuota, S.FirstSeen, S.Quota, S.QuotaOf;
    forall w | w in capacities
      ensures |S.Of(batch, w)| <= Max(capacities[w], 0)
    {
      BatchWithinCapacity(ranked, limit, excluded, capacities, batch, w);
    }
  }

  class Dispatcher {
    const concurrency: nat
    const limit: int
    const batchSize: nat
    const workerLimits: map<string, int>
    const maxWait: Time
    var active: map<int, Job>
    var slots: seq<int>
    var running: map<string, int>
    var steps: nat
    var finished: nat
    var idleSeen: bool

    ghost predicate Valid()
      reads this
    {
      && concurrency >= 1 && batchSize >= 1 && (forall w :: w in workerLimits ==> workerLimits[w] >= 1)
      && SlotsInv(concurrency, slots, active)
      && Counts(running, active)
      && (forall w :: w in workerLimits ==> CountOf(running, w) <= workerLimits[w])
      && steps <= Max(limit, 0)
      && steps == finished + |active|
      && (forall e :: e in active ==> 1 <= e <= steps)
    }

    constructor (concurrency: nat, limit: int, batchSize: nat, workerLimits: map<string, int>, maxWait: Time)
      requires concurrency >= 1 && batchSize >= 1 && forall w :: w in workerLimits ==> workerLimits[w] >= 1
      ensures Valid() && active == map[] && steps == 0 && slots == OneTo(concurrency)
      ensures this.concurrency == concurrency && this.limit == limit && this.batchSize == batchSize
      ensures this.workerLimits == workerLimits && this.maxWait == maxWait
    {
      this.concurrency, this.limit, this.batchSize, this.workerLimits := concurrency, limit, batchSize, workerLimits;
      this.maxWait := maxWait;
      active, running, steps, finished, idleSeen := map[], map[], 0, 0, false;
      slots := OneTo(concurrency);
      new;
      forall n
        ensures 1 <= n <= concurrency <==> n in slots || Held(active, n)
      {
        if 1 <= n <= concurrency {
          assert slots[n - 1] == n;
        }
      }
      assert forall w :: JobsOf(active, w) == {};
    }

    /** What one round may still start: free slots within the remaining steps and the batch size. */
    function Room(): int
      reads this
    {
      Min(Min(concurrency - |active|, limit - steps), batchSize)
    }

    function Saturated(): set<string>
      reads this
    {
      set w | w in workerLimits && CountOf(running, w) >= workerLimits[w]
    }

    function Capacities(): map<string, int>
      reads this
    {
      map w | w in workerLimits :: Max(0, workerLimits[w] - CountOf(running, w))
    }

    /** A ticket takes the lowest free slot, the next step and one unit of its worker's limit. */
    method Start(worker: string)
      requires Valid() && steps < limit && slots != []
      requires worker in workerLimits ==> CountOf(running, worker) < workerLimits[worker]
      modifies this
      ensures Valid() && !idleSeen
      ensures steps == old(steps) + 1 && slots == old(slots)[1..]
      ensures active == old(active)[steps := Job(worker, old(slots)[0])]
      ensures forall w :: CountOf(running, w) == CountOf(old(running), w) + if w == worker then 1 else 0
      ensures finished == old(finished)
    {
      hide SlotsInv, Counts;
      TakingKeepsSlots(concurrency, slots, active, steps + 1, worker);
      StartingCounts(running, active, steps + 1, worker, slots[0]);
      idleSeen := false;
      steps := steps + 1;
      active := active[steps := Job(worker, slots[0])];
      slots := slots[1..];
      running := running[worker := CountOf(running, worker) + 1];
    }

    /** One round of admissions. Which decisions are tried is the scheduler's fair batch for the free
        capacity; the admitted ones take consecutive steps and the lowest free slots. */
    method Dispatch(ranked: seq<S.Ranked>, answers: nat -> Answer) returns (stalled: bool, ghost batch: seq<S.Ranked>)
      requires Valid() && steps < limit && |active| < concurrency
      modifies this
      ensures Valid()
      ensures S.IsBatch(ranked, old(Room()), old(Saturated()), old(Capacities()), batch)
      ensures |Admitted(batch, answers)| <= |old(slots)|
      ensures steps == old(steps) + |Admitted(batch, answers)|
      ensures active == Started(old(active), old(steps), old(slots), Admitted(batch, answers))
      ensures slots == old(slots)[|Admitted(batch, answers)|..] && finished == old(finished)
      ensures stalled <==> batch == [] || exists i :: 0 <= i < |batch| && answers(i).Backpressure?
      ensures stalled ==> idleSeen || active != map[]
    {
      hide Valid, Started, Admitted, Room, Saturated, Capacities, S.IsBatch, InBatch, S.Of;
      ghost var was := Now();
      var chosen := Choose(ranked, answers);
      batch := chosen;
      stalled := chosen == [];
      if stalled {
        SawIdle();
      }
      var k := 0;
      while k < |chosen|
        invariant 0 <= k <= |chosen| && Valid()
        invariant InBatch(chosen, answers, k, was)
        invariant stalled <==> chosen == [] || exists i :: 0 <= i < k && answers(i).Backpressure?
        invariant stalled ==> idleSeen || active != map[]
      {
        var answer := answers(k);
        TryOne(chosen[k], answer, chosen, answers, k, was);
        stalled := stalled || answer.Backpressure?;
        k := k + 1;
      }
      BatchDone(chosen, answers, was);
    }

    ghost function Now(): Snapshot
      reads this
    {
      Snapshot(active, slots, running, steps, finished)
    }

    /** `admit_batch`'s selection for the capacity that is free. */
    method Choose(ranked: seq<S.Ranked>, ghost answers: nat -> Answer) returns (chosen: seq<S.Ranked>)
      requires Valid() && steps < limit && |active| < concurrency
      ensures S.IsBatch(ranked, Room(), Saturated(), Capacities(), chosen)
      ensures InBatch(chosen, answers, 0, Now())
    {
      hide SlotsInv, Counts, Started, S.IsBatch, S.Of, Room;
      chosen := S.SelectRankedBatch(ranked, Room(), Saturated(), Capacities());
      BatchHasRoom(ranked, Room(), Saturated(), Capacities(), chosen);
      RoomBounds();
      NoTickets(active, steps, slots);
      assert chosen[..0] == [];
    }

    /** What is chosen for a round: within the free slots, the steps left, the batch size and every worker's
        limit, with what is under way counted; and if it stays below the first three, no item is left out
        but of workers at their limit. */
    lemma ChoiceFillsRoom(ranked: seq<S.Ranked>, batch: seq<S.Ranked>, w: string)
      requires Valid() && steps < limit && |active| < concurrency
      requires S.IsBatch(ranked, Room(), Saturated(), Capacities(), batch)
      ensures |active| + |batch| <= concurrency && steps + |batch| <= limit && |batch| <= batchSize
      ensures |O.Places(batch, w)| <= |O.Places(ranked, w)|
      ensures w in workerLimits ==> |JobsOf(active, w)| + |O.Places(batch, w)| <= workerLimits[w]
      ensures |active| + |batch| < concurrency && steps + |batch| < limit && |batch| < batchSize ==>
        || |O.Places(batch, w)| == |O.Places(ranked, w)|
        || (w in workerLimits && |JobsOf(active, w)| + |O.Places(batch, w)| == workerLimits[w])
    {
      hide S.IsBatch, SlotsInv;
      O.BatchFills(ranked, Room(), Saturated(), Capacities(), batch, w);
    }

    method SawIdle()
      requires Valid()
      modifies this`idleSeen
      ensures Valid() && idleSeen
    {
      idleSeen := true;
    }

    lemma BatchDone(batch: seq<S.Ranked>, answers: nat -> Answer, was: Snapshot)
      requires InBatch(batch, answers, |batch|, was)
      ensures var tickets := Admitted(batch, answers);
        && |tickets| <= |was.slots| && steps == was.steps + |tickets| && finished == was.finished
        && active == Started(was.active, was.steps, was.slots, tickets) && slots == was.slots[|tickets|..]
    {
      assert batch[..|batch|] == batch;
    }

    /** The batch fits what is free. */
    lemma RoomBounds()
      requires Valid() && steps < limit && |active| < concurrency
      ensures 0 < Room() <= |slots| && Room() <= limit - steps
    {
    }

    /** `k` items of the batch have been tried since `was`. */
    ghost predicate InBatch(batch: seq<S.Ranked>, answers: nat -> Answer, k: nat, was: Snapshot)
      requires k <= |batch|
      reads `active, `slots, `running, `steps, `finished
    {
      var tickets := Admitted(batch[..k], answers);
      && |tickets| <= k <= |batch| <= |was.slots| && was.steps + |batch| <= limit
      && steps == was.steps + |tickets| && slots == was.slots[|tickets|..] && finished == was.finished
      && active == Started(was.active, was.steps, was.slots, tickets)
      && (forall w :: CountOf(running, w) == CountOf(was.running, w) + |S.Of(tickets, w)|)
      && (forall w :: w in workerLimits ==> CountOf(was.running, w) + |S.Of(batch, w)| <= workerLimits[w])
    }

    /** What the loop over the admissions does with one of them. */
    method TryOne(decision: S.Ranked, answer: Answer, ghost batch: seq<S.Ranked>, ghost answers: nat -> Answer, ghost k: nat,
                  ghost was: Snapshot)
      requires k < |batch| && batch[k] == decision && answers(k) == answer
      requires Valid() && InBatch(batch, answers, k, was)
      modifies this
      ensures Valid() && InBatch(batch, answers, k + 1, was)
      ensures answer.Backpressure? ==> idleSeen
      ensures answer.Ticket? ==> active != map[]
      ensures answer.Reported? ==> idleSeen == old(idleSeen) && active == old(active)
      ensures old(active) != map[] ==> active != map[]
    {
      hide SlotsInv, Counts, Started, Admitted, S.Of;
      ghost var tickets := Admitted(batch[..k], answers);
      AdmittedNext(batch, answers, k);
      if answer.Backpressure? {
        idleSeen := true;
      }
      if answer.Ticket? {
        OneMoreFits(batch, answers, k);
        StartedSnoc(was.active, was.steps, was.slots, tickets, decision);
        TicketsOf(tickets, decision);
        Start(decision.worker);
      }
    }

    /** A completed execution gives back its slot and its worker's unit. */
    method End(e: int)
      requires Valid() && e in active
      modifies this
      ensures Valid() && idleSeen == old(idleSeen) && steps == old(steps)
      ensures active == old(active) - {e} && finished == old(finished) + 1
      ensures forall n :: n in slots <==> n in old(slots) || n == old(active)[e].slot
    {
      hide Counts;
      ReturningKeepsSlots(concurrency, slots, active, e);
      EndingCounts(running, active, e);
      assert active == (active - {e})[e := active[e]];
      var job := active[e];
      active := active - {e};
      slots := Inserted(slots, job.slot);
      running := running[job.worker := CountOf(running, job.worker) - 1];
      finished := finished + 1;
    }

    /** All executions found completed, in whatever order, each once. */
    method EndAll(done: set<int>)
      requires Valid() && done <= active.Keys
      modifies this
      ensures Valid() && idleSeen == old(idleSeen) && steps == old(steps)
      ensures active == old(active) - done && finished == old(finished) + |done|
    {
      hide Valid;
      var todo := done;
      while todo != {}
        invariant todo <= done && Valid() && idleSeen == old(idleSeen) && steps == old(steps)
        invariant todo <= active.Keys
        invariant active == old(active) - (done - todo)
        invariant finished + |todo| == old(finished) + |done|
        decreases |todo|
      {
        assert (forall e :: e !in todo) ==> todo == {};
        var e :| e in todo;
        assert done - (todo - {e}) == (done - todo) + {e};
        End(e);
        todo := todo - {e};
      }
    }

    /** With nothing under way, all is returned. */
    lemma Returned()
      requires Valid() && active == map[]
      ensures slots == OneTo(concurrency) && forall w :: CountOf(running, w) == 0
    {
      AllSlotsReturned(concurrency, slots);
      forall w
        ensures CountOf(running, w) == 0
      {
        assert JobsOf(active, w) == {};
      }
    }

    /** The answer leaves an idle run nothing to wait for: no task is deferred, or none within its patience. */
    predicate LeavesNothing(world: World) {
      world.nextReady.None? || world.nextReady.value - world.now > maxWait
    }

    /** The loop, as far as `fuel` answers of the world take it. It stops only with nothing under way
        and everything returned, and it never comes round without having waited for something. Short of
        its steps it stops at once when an answer leaves it nothing to wait for, and on no other: `last`
        is the answer it stopped on, `missed` whether it ever went on past such an answer. */
    method Run(feed: nat -> World, fuel: nat) returns (why: Stop, ghost spun: bool, ghost missed: bool, ghost last: World)
      requires Valid() && active == map[] && maxWait >= 0.0
      modifies this
      ensures Valid()
      ensures why.Drained? ==> last.nextReady.None?
      ensures why.Paused? ==> last.nextReady.Some? && last.nextReady.value - last.now > maxWait
      ensures !missed
      ensures !why.Unfinished? ==> active == map[] && slots == OneTo(concurrency) && finished == steps
      ensures !why.Unfinished? ==> forall w :: CountOf(running, w) == 0
      ensures why.StepLimit? ==> steps == Max(limit, 0)
      ensures why.Drained? || why.Paused? ==> steps < limit
      ensures !spun
    {
      hide SlotsInv, Counts;
      spun, missed, last := false, false, feed(0);
      var tick := 0;
      while tick < fuel
        invariant 0 <= tick <= fuel && Valid() && !spun && !missed
        decreases fuel - tick
      {
        var stalled := false;
        while tick < fuel && steps < limit && |active| < concurrency && !stalled
          invariant 0 <= tick <= fuel && Valid()
          invariant stalled ==> idleSeen || active != map[]
          decreases fuel - tick
        {
          var world := feed(tick);
          tick := tick + 1;
          ghost var tried;
          stalled, tried := Dispatch(world.ranked, world.answers);
        }
        if tick == fuel {
          return Unfinished, spun, missed, last;
        }
        var world := feed(tick);
        last := world;
        tick := tick + 1;
        if active != map[] {
          EndAll(world.finished * active.Keys);
        } else if steps >= limit {
          Returned();
          return StepLimit, spun, missed, last;
        } else {
          spun := spun || !idleSeen;
          if idleSeen {
            if world.nextReady.None? {
              Returned();
              return Drained, spun, missed, last;
            }
            var wait := MaxReal(0.0, world.nextReady.value - world.now);
            if wait > maxWait {
              Returned();
              return Paused, spun, missed, last;
            }
            missed := missed || LeavesNothing(world);
            idleSeen := false;
          }
        }
      }
      why := Unfinished;
    }
  }

  lemma NoTickets(active: map<int, Job>, steps: int, slots: seq<int>)
    ensures Started(active, steps, slots, []) == active
    ensures forall w :: S.Of([], w) == []
  {
  }

  lemma TicketsOf(tickets: seq<S.Ranked>, next: S.Ranked)
    ensures forall w :: |S.Of(tickets + [next], w)| == |S.Of(tickets, w)| + (if w == next.worker then 1 else 0)
  {
    forall w
      ensures |S.Of(tickets + [next], w)| == |S.Of(tickets, w)| + (if w == next.worker then 1 else 0)
    {
      S.OfSnoc(tickets, next, w);
    }
  }
}
