/** What `ready` returns, told by the tasks' own fields. */
module ReadyOrders {
  import opened Prelude
  import opened Tasks
  import opened FairShortlists

  /** `a` has the higher priority, or has waited longer at the same one; ids settle the rest. */
  predicate Outranks(a: Task, b: Task) {
    && a.priority >= b.priority
    && (a.priority == b.priority ==>
          && a.availableAt <= b.availableAt
          && (a.availableAt == b.availableAt ==>
                a.createdAt <= b.createdAt && (a.createdAt == b.createdAt ==> a.id <= b.id)))
  }

  predicate Ranked(s: seq<Task>) {
    forall i, j :: 0 <= i < j < |s| ==> Outranks(s[i], s[j])
  }

  predicate OlderThan(a: Task, b: Task) {
    a.createdAt <= b.createdAt && (a.createdAt == b.createdAt ==> a.id <= b.id)
  }

  /** Without fairness the list goes by priority, then by how long a task has been available, then by
      age, and what it omits is outranked by all it has. */
  lemma UnfairByPriority(candidates: seq<Task>, limit: nat)
    requires DistinctIds(candidates)
    ensures var all := Sort(ByPriority, candidates);
      && |all| == |candidates| && (forall t :: t in all <==> t in candidates) && DistinctIds(all)
      && Ranked(all)
      && |Take(all, limit)| == Min(limit, |candidates|)
      && (forall i :: 0 <= i < |Take(all, limit)| ==> Take(all, limit)[i] == all[i])
      && (forall kept, omitted :: kept in Take(all, limit) && omitted in candidates && omitted !in Take(all, limit) ==>
            Outranks(kept, omitted))
  {
    var all := Sort(ByPriority, candidates);
    SortSorts(ByPriority, candidates);
    SortKeepsTasks(ByPriority, candidates);
    hide Sort, DistinctIds;
    var n := Min(limit, |all|);
    forall kept, omitted | kept in Take(all, limit) && omitted in candidates && omitted !in Take(all, limit)
      ensures Outranks(kept, omitted)
    {
      var i :| 0 <= i < n && all[i] == kept;
      var j :| 0 <= j < |all| && all[j] == omitted;
      assert forall k :: 0 <= k < n ==> all[k] == Take(all, limit)[k] && all[k] in Take(all, limit);
    }
  }

  /** As many of the list as its first lane has places are the tasks of highest priority: half of them. */
  lemma TopHalfIsListed(candidates: seq<Task>, limit: int, marked: set<TaskId>, result: seq<Task>, t: Task)
    requires DistinctIds(candidates) && IsShortlist(candidates, limit, marked, result) && limit >= 1 && t in candidates
    ensures t in result || exists better: seq<Task> ::
      && |better| == FairLaneLimits(limit).top && DistinctIds(better)
      && forall b :: b in better ==> b in result && Outranks(b, t)
  {
    var top, all := FairLaneLimits(limit).top, Sort(ByPriority, candidates);
    UnfairByPriority(candidates, top);
    if t !in result {
      var better := Take(all, top);
      assert |better| < top ==> better == all;
      assert DistinctIds(better);
    }
  }

  lemma OutranksItself(t: Task)
    ensures Outranks(t, t) && OlderThan(t, t)
  {
  }

  predicate IsHighest(candidates: seq<Task>, r: Task) {
    r in candidates && forall t :: t in candidates ==> Outranks(r, t)
  }

  predicate IsEldest(candidates: seq<Task>, r: Task) {
    r in candidates && forall t :: t in candidates ==> OlderThan(r, t)
  }

  /** Of the lowest priority, the oldest. */
  predicate IsLowest(candidates: seq<Task>, r: Task) {
    && r in candidates
    && forall t :: t in candidates ==> r.priority <= t.priority && (r.priority == t.priority ==> OlderThan(r, t))
  }

  /** The highest ranked of the tasks marked for exploration. */
  predicate IsBestMarked(candidates: seq<Task>, marked: set<TaskId>, r: Task) {
    && r in candidates && r.id in marked
    && forall t :: t in candidates && t.id in marked ==> Outranks(r, t)
  }

  /** What sorts first comes before everything. */
  lemma FirstIsBeforeAll(o: Ordering, s: seq<Task>) returns (first: Task)
    requires DistinctIds(s) && s != []
    ensures first in s && Sort(o, s) != [] && first == Sort(o, s)[0] && forall t :: t in s ==> Precedes(o, first, t)
  {
    SortSorts(o, s);
    SortKeepsTasks(o, s);
    hide Sort, DistinctIds;
    first := Sort(o, s)[0];
    forall t | t in s
      ensures Precedes(o, first, t)
    {
      var j :| 0 <= j < |Sort(o, s)| && Sort(o, s)[j] == t;
      PrecedesTotal(o, first, first);
    }
  }

  /** From one place on, a task of the highest priority of all is listed. */
  lemma HighestPriorityIsListed(candidates: seq<Task>, limit: int, marked: set<TaskId>, result: seq<Task>)
    requires DistinctIds(candidates) && candidates != [] && IsShortlist(candidates, limit, marked, result) && limit >= 1
    ensures exists r :: r in result && IsHighest(candidates, r)
  {
    var r := FirstIsBeforeAll(ByPriority, candidates);
    assert r == Take(Sort(ByPriority, candidates), FairLaneLimits(limit).top)[0];
    assert r in result && IsHighest(candidates, r);
  }

  /** From three places on, the oldest of all is listed. */
  lemma EldestIsListed(candidates: seq<Task>, limit: int, marked: set<TaskId>, result: seq<Task>)
    requires DistinctIds(candidates) && candidates != [] && IsShortlist(candidates, limit, marked, result) && limit >= 3
    ensures exists r :: r in result && IsEldest(candidates, r)
  {
    var sorted := Sort(ByPriority, candidates);
    SortKeepsTasks(ByPriority, candidates);
    assert candidates[0] in sorted;
    var r := FirstIsBeforeAll(ByAge, sorted);
    assert r == Take(Sort(ByAge, sorted), FairLaneLimits(limit).oldest)[0];
    assert r in result && IsEldest(candidates, r);
  }

  /** From two places on, a task of the lowest priority of all is listed. */
  lemma LowestPriorityIsListed(candidates: seq<Task>, limit: int, marked: set<TaskId>, result: seq<Task>)
    requires DistinctIds(candidates) && candidates != [] && IsShortlist(candidates, limit, marked, result) && limit >= 2
    ensures exists r :: r in result && IsLowest(candidates, r)
  {
    var sorted := Sort(ByPriority, candidates);
    SortKeepsTasks(ByPriority, candidates);
    assert candidates[0] in sorted;
    var r := FirstIsBeforeAll(ByTail, sorted);
    assert r == Take(Sort(ByTail, sorted), FairLaneLimits(limit).tail)[0];
    assert r in result && IsLowest(candidates, r);
  }

  /** From five places on, the best task marked for exploration is listed, if there is one. */
  lemma BestExplorationIsListed(candidates: seq<Task>, limit: int, marked: set<TaskId>, result: seq<Task>, explorer: Task)
    requires DistinctIds(candidates) && IsShortlist(candidates, limit, marked, result) && limit >= 5
    requires explorer in candidates && explorer.id in marked
    ensures exists r :: r in result && IsBestMarked(candidates, marked, r)
  {
    var sorted := Sort(ByPriority, candidates);
    UnfairByPriority(candidates, 0);
    ExploratorySound(sorted, marked);
    ExploratoryOrdered(sorted, marked);
    var lane := Exploratory(sorted, marked);
    assert explorer in lane;
    InFirstPlace(lane, FairLaneLimits(limit).exploration);
    FirstOutranksAll(lane);
    hide Sort, DistinctIds, Exploratory, Outranks, FairLaneLimits, Take;
    assert lane[0] in result && IsBestMarked(candidates, marked, lane[0]);
  }

  lemma InFirstPlace(lane: seq<Task>, n: nat)
    requires lane != [] && n >= 1
    ensures lane[0] in Take(lane, n)
  {
    assert Take(lane, n)[0] == lane[0];
  }

  lemma FirstOutranksAll(lane: seq<Task>)
    requires lane != [] && Ranked(lane)
    ensures forall t :: t in lane ==> Outranks(lane[0], t)
  {
    OutranksItself(lane[0]);
  }

  /** Picking out the marked tasks keeps their order. */
  lemma {:induction false} ExploratoryOrdered(s: seq<Task>, marked: set<TaskId>)
    requires DistinctIds(s) && Ranked(s)
    ensures Ranked(Exploratory(s, marked))
  {
    hide Outranks;
    if s != [] {
      ExploratoryOrdered(s[1..], marked);
      ExploratorySound(s[1..], marked);
      FirstBeforeRest(s);
      RankedCons(s[0], Exploratory(s[1..], marked));
      assert Exploratory(s, marked)
          == if s[0].id in marked then [s[0]] + Exploratory(s[1..], marked) else Exploratory(s[1..], marked);
    }
  }

  lemma FirstBeforeRest(s: seq<Task>)
    requires Ranked(s) && s != []
    ensures forall t :: t in s[1..] ==> Outranks(s[0], t)
  {
    hide Outranks;
    forall t | t in s[1..]
      ensures Outranks(s[0], t)
    {
      var k :| 0 <= k < |s[1..]| && s[1..][k] == t;
      assert s[k + 1] == t;
    }
  }

  lemma RankedCons(first: Task, rest: seq<Task>)
    requires Ranked(rest) && forall t :: t in rest ==> Outranks(first, t)
    ensures Ranked([first] + rest)
  {
    hide Outranks;
  }
}
