/** The ready shortlist: priority, age, exploration and tail lanes share a bounded list. */
module FairShortlists {
  import opened Prelude
  import opened Tasks
  import opened TaskRuns
  import opened TaskStores

  /** The three sort keys of `ready`. Ids make each of them a total order. */
  datatype Ordering = ByPriority | ByAge | ByTail

  predicate Precedes(o: Ordering, a: Task, b: Task) {
    match o
    case ByPriority =>
      || a.priority > b.priority
      || (a.priority == b.priority && (a.availableAt < b.availableAt
          || (a.availableAt == b.availableAt && (a.createdAt < b.createdAt || (a.createdAt == b.createdAt && a.id <= b.id)))))
    case ByAge => a.createdAt < b.createdAt || (a.createdAt == b.createdAt && a.id <= b.id)
    case ByTail =>
      || a.priority < b.priority
      || (a.priority == b.priority && (a.createdAt < b.createdAt || (a.createdAt == b.createdAt && a.id <= b.id)))
  }

  predicate SortedBy(o: Ordering, s: seq<Task>) {
    forall i, j :: 0 <= i < j < |s| ==> Precedes(o, s[i], s[j])
  }

  predicate DistinctIds(s: seq<Task>) {
    forall i, j :: 0 <= i < j < |s| ==> s[i].id != s[j].id
  }

  function Insert(o: Ordering, t: Task, s: seq<Task>): seq<Task> {
    if s == [] then [t]
    else if Precedes(o, t, s[0]) then [t] + s
    else [s[0]] + Insert(o, t, s[1..])
  }

  function Sort(o: Ordering, s: seq<Task>): seq<Task> {
    if s == [] then [] else Insert(o, s[0], Sort(o, s[1..]))
  }

  lemma PrecedesTotal(o: Ordering, a: Task, b: Task)
    ensures Precedes(o, a, b) || Precedes(o, b, a)
  {
  }

  lemma PrecedesTransitive(o: Ordering, a: Task, b: Task, c: Task)
    requires Precedes(o, a, b) && Precedes(o, b, c)
    ensures Precedes(o, a, c)
  {
  }

  lemma SortedCons(o: Ordering, t: Task, s: seq<Task>)
    requires SortedBy(o, s) && forall i :: 0 <= i < |s| ==> Precedes(o, t, s[i])
    ensures SortedBy(o, [t] + s)
  {
    hide Precedes;
  }

  lemma {:induction false} InsertSorts(o: Ordering, t: Task, s: seq<Task>)
    requires SortedBy(o, s)
    ensures SortedBy(o, Insert(o, t, s)) && multiset(Insert(o, t, s)) == multiset(s) + multiset{t}
  {
    hide Precedes;
    if s == [] {
    } else if !Precedes(o, t, s[0]) {
      InsertSorts(o, t, s[1..]);
      PrecedesTotal(o, t, s[0]);
      var r := Insert(o, t, s[1..]);
      assert s == [s[0]] + s[1..];
      forall i | 0 <= i < |r|
        ensures Precedes(o, s[0], r[i])
      {
        assert r[i] in multiset(r);
        assert r[i] == t || r[i] in s[1..];
      }
      SortedCons(o, s[0], r);
    } else {
      forall i | 0 <= i < |s|
        ensures Precedes(o, t, s[i])
      {
        if i > 0 {
          PrecedesTransitive(o, t, s[0], s[i]);
        }
      }
      SortedCons(o, t, s);
      assert multiset([t] + s) == multiset(s) + multiset{t};
    }
  }

  lemma {:induction false} SortSorts(o: Ordering, s: seq<Task>)
    ensures SortedBy(o, Sort(o, s)) && multiset(Sort(o, s)) == multiset(s) && |Sort(o, s)| == |s|
  {
    hide Precedes, Insert;
    if s != [] {
      SortSorts(o, s[1..]);
      InsertSorts(o, s[0], Sort(o, s[1..]));
      assert s == [s[0]] + s[1..];
    }
    assert |multiset(Sort(o, s))| == |multiset(s)|;
  }

  /** Sorting keeps exactly the same tasks, each once. */
  lemma SortKeepsTasks(o: Ordering, s: seq<Task>)
    requires DistinctIds(s)
    ensures forall t :: t in Sort(o, s) <==> t in s
    ensures DistinctIds(Sort(o, s))
  {
    var r := Sort(o, s);
    SortSorts(o, s);
    assert forall t :: t in r <==> t in multiset(r);
    assert forall t :: t in s <==> t in multiset(s);
    forall i, j | 0 <= i < j < |r|
      ensures r[i].id != r[j].id
    {
      if r[i].id == r[j].id {
        assert r[i] in s && r[j] in s;
        assert r[i] == r[j];
        TwiceInSeq(r, i, j);
        OnceInSeq(s, r[i]);
      }
    }
  }

  lemma TwiceInSeq(s: seq<Task>, i: nat, j: nat)
    requires i < j < |s| && s[i] == s[j]
    ensures multiset(s)[s[i]] >= 2
  {
    assert s == s[..i] + [s[i]] + s[i + 1..j] + [s[j]] + s[j + 1..];
  }

  lemma {:induction false} OnceInSeq(s: seq<Task>, t: Task)
    requires DistinctIds(s)
    ensures multiset(s)[t] <= 1
  {
    if s != [] {
      assert s == [s[0]] + s[1..];
      OnceInSeq(s[1..], t);
      if s[0] == t {
        assert t !in s[1..];
      }
    }
  }

  // ----- lanes -----------------------------------------------------------------------------------

  datatype LaneLimits = LaneLimits(top: int, oldest: int, exploration: int, tail: int)

  /** Python's `//` on the non-negative numbers it is used on here. */
  function Half(n: int): int
    requires n >= 0
  {
    n / 2
  }

  function FairLaneLimits(limit: int): (l: LaneLimits)
    ensures limit >= 1 ==> l.top + l.oldest + l.exploration + l.tail == limit
    ensures l.top >= 0 && l.oldest >= 0 && l.exploration >= 0 && l.tail >= 0
    ensures (limit >= 1 <==> l.top >= 1) && (limit >= 3 <==> l.oldest >= 1)
    ensures (limit >= 5 <==> l.exploration >= 1) && (limit >= 2 <==> l.tail >= 1)
    ensures limit >= 2 ==> l.top <= limit - l.top <= l.top + 1
    ensures limit >= 1 ==> l.oldest <= limit - l.top - l.oldest <= l.oldest + 1 && l.exploration <= l.tail <= l.exploration + 1
  {
    if limit <= 0 then LaneLimits(0, 0, 0, 0)
    else
      var top := Max(1, Half(limit));
      var oldest := Half(limit - top);
      var exploration := Half(limit - top - oldest);
      LaneLimits(top, oldest, exploration, limit - top - oldest - exploration)
  }

  function Take(s: seq<Task>, n: nat): seq<Task> {
    s[..Min(n, |s|)]
  }

  function Exploratory(s: seq<Task>, marked: set<TaskId>): seq<Task> {
    if s == [] then []
    else (if s[0].id in marked then [s[0]] else []) + Exploratory(s[1..], marked)
  }

  lemma {:induction false} ExploratorySound(s: seq<Task>, marked: set<TaskId>)
    requires DistinctIds(s)
    ensures forall t :: t in Exploratory(s, marked) <==> t in s && t.id in marked
    ensures DistinctIds(Exploratory(s, marked))
  {
    if s != [] {
      ExploratorySound(s[1..], marked);
      assert s == [s[0]] + s[1..];
    }
  }

  function Lanes(sorted: seq<Task>, limit: int, marked: set<TaskId>): seq<seq<Task>> {
    var l := FairLaneLimits(limit);
    [Take(sorted, l.top), Take(Sort(ByAge, sorted), l.oldest), Take(Exploratory(sorted, marked), l.exploration),
     Take(Sort(ByTail, sorted), l.tail), sorted]
  }

  function TotalLength(lanes: seq<seq<Task>>): nat {
    if lanes == [] then 0 else TotalLength(lanes[..|lanes| - 1]) + |lanes[|lanes| - 1]|
  }

  function Ids(s: seq<Task>): set<TaskId> {
    set i | 0 <= i < |s| :: s[i].id
  }

  predicate Within(s: seq<Task>, pool: seq<Task>) {
    forall t :: t in s ==> t in pool
  }

  ghost predicate Picked(selected: seq<Task>, seen: set<TaskId>) {
    DistinctIds(selected) && seen == Ids(selected)
  }

  /** One lane: its unseen tasks are added until the limit is reached. */
  method AddLane(lane: seq<Task>, limit: nat, selected0: seq<Task>, seen0: set<TaskId>, ghost pool: seq<Task>)
    returns (selected: seq<Task>, seen: set<TaskId>, full: bool)
    requires Picked(selected0, seen0) && |selected0| < limit && Within(selected0, pool) && Within(lane, pool)
    ensures Picked(selected, seen) && |selected0| <= |selected| <= |selected0| + |lane| && Within(selected, pool)
    ensures full <==> |selected| == limit
    ensures |selected| <= limit && seen0 <= seen
    ensures !full || |selected0| + |lane| <= limit ==> Ids(lane) <= seen
  {
    selected, seen, full := selected0, seen0, false;
    var j := 0;
    while j < |lane|
      invariant 0 <= j <= |lane| && Picked(selected, seen) && Within(selected, pool)
      invariant |selected0| <= |selected| <= |selected0| + j && |selected| < limit
      invariant seen0 <= seen && Ids(lane[..j]) <= seen
    {
      var task := lane[j];
      IdsSnoc(lane, j);
      if task.id !in seen {
        assert (selected + [task])[..|selected|] == selected;
        IdsSnoc(selected + [task], |selected|);
        seen := seen + {task.id};
        selected := selected + [task];
        assert selected[..|selected|] == selected;
        if |selected| >= limit {
          assert lane[..j + 1] == lane || j + 1 < |lane|;
          full := true;
          return;
        }
      }
      j := j + 1;
    }
    assert lane[..j] == lane;
  }

  lemma IdsSnoc(s: seq<Task>, j: nat)
    requires j < |s|
    ensures Ids(s[..j + 1]) == Ids(s[..j]) + {s[j].id}
  {
    forall id | id in Ids(s[..j]) + {s[j].id}
      ensures id in Ids(s[..j + 1])
    {
      if id in Ids(s[..j]) {
        var i :| 0 <= i < j && s[..j][i].id == id;
        assert s[..j + 1][i].id == id;
      } else {
        assert s[..j + 1][j].id == id;
      }
    }
    forall id | id in Ids(s[..j + 1])
      ensures id in Ids(s[..j]) + {s[j].id}
    {
      var i :| 0 <= i < j + 1 && s[..j + 1][i].id == id;
      if i < j {
        assert s[..j][i].id == id;
      }
    }
  }

  lemma {:induction false} TotalGrows(lanes: seq<seq<Task>>, i: nat, n: nat)
    requires i < n <= |lanes|
    ensures TotalLength(lanes[..i]) + |lanes[i]| == TotalLength(lanes[..i + 1]) <= TotalLength(lanes[..n])
    ensures TotalLength(lanes[..i + 1]) == TotalLength(lanes[..n]) ==> forall k :: i < k < n ==> lanes[k] == []
    decreases n
  {
    assert lanes[..i + 1][..i] == lanes[..i];
    if i + 1 < n {
      TotalGrows(lanes, i, n - 1);
      assert lanes[..n][..n - 1] == lanes[..n - 1];
    }
  }

  /** Walks the lanes in order; `n` of them fit the limit together, so none of those is cut short. */
  method PickDistinct(lanes: seq<seq<Task>>, limit: nat, ghost n: nat, ghost pool: seq<Task>) returns (selected: seq<Task>)
    requires limit >= 1 && n < |lanes| && TotalLength(lanes[..n]) <= limit
    requires forall i :: 0 <= i < |lanes| ==> Within(lanes[i], pool)
    ensures DistinctIds(selected) && |selected| <= limit && Within(selected, pool)
    ensures forall i :: 0 <= i < n ==> Ids(lanes[i]) <= Ids(selected)
    ensures |selected| < limit ==> forall i :: 0 <= i < |lanes| ==> Ids(lanes[i]) <= Ids(selected)
  {
    var seen: set<TaskId> := {};
    selected := [];
    var i := 0;
    while i < |lanes|
      invariant 0 <= i <= |lanes| && Picked(selected, seen) && |selected| < limit && Within(selected, pool)
      invariant i <= n ==> |selected| <= TotalLength(lanes[..i])
      invariant forall k :: 0 <= k < i ==> Ids(lanes[k]) <= seen
    {
      if i < n {
        TotalGrows(lanes, i, n);
      }
      var full;
      selected, seen, full := AddLane(lanes[i], limit, selected, seen, pool);
      if full {
        return;
      }
      i := i + 1;
    }
  }

  // ----- ready -----------------------------------------------------------------------------------

  /** The candidates: every ready task once, in whatever order the dictionary lists them. */
  method Candidates(store: InMemoryTaskStore, now: Time) returns (candidates: seq<Task>)
    requires store.Valid()
    ensures DistinctIds(candidates)
    ensures forall t :: t in candidates <==> t.id in store.tasks && store.tasks[t.id] == t && ReadyAt(t, now)
  {
    hide DedupeKey, ReadyAt;
    candidates := [];
    var todo := store.tasks.Keys;
    forall id | id in store.tasks
      ensures store.tasks[id].id == id
    {
      assert RecordInv(store.State(), id);
    }
    while todo != {}
      invariant todo <= store.tasks.Keys && DistinctIds(candidates)
      invariant forall t :: t in candidates <==> t.id in store.tasks && t.id !in todo && store.tasks[t.id] == t && ReadyAt(t, now)
      decreases todo
    {
      var id :| id in todo;
      todo := todo - {id};
      if ReadyAt(store.tasks[id], now) {
        candidates := candidates + [store.tasks[id]];
      }
    }
  }

  /** What a fair shortlist promises of the candidates it was cut from. */
  ghost predicate IsShortlist(candidates: seq<Task>, limit: int, marked: set<TaskId>, result: seq<Task>) {
    var l, sorted := FairLaneLimits(limit), Sort(ByPriority, candidates);
    && DistinctIds(result)
    && Within(result, candidates)
    && |result| == Min(limit, |candidates|)
    && Within(Take(sorted, l.top), result)
    && Within(Take(Sort(ByAge, sorted), l.oldest), result)
    && Within(Take(Exploratory(sorted, marked), l.exploration), result)
    && Within(Take(Sort(ByTail, sorted), l.tail), result)
  }

  /** `ready`: all candidates by priority, the first few of them, or a fair shortlist. `marked` are
      the tasks whose action, route or reason mentions exploration. */
  method Ready(store: InMemoryTaskStore, now: Time, limit: Option<int>, fair: bool, marked: set<TaskId>)
    returns (r: Result<seq<Task>>, ghost candidates: seq<Task>)
    requires store.Valid()
    ensures DistinctIds(candidates)
    ensures forall t :: t in candidates <==> t.id in store.tasks && store.tasks[t.id] == t && ReadyAt(t, now)
    ensures r.Err? <==> limit.Some? && limit.value < 1
    ensures r.Ok? && limit.None? ==> r.value == Sort(ByPriority, candidates)
    ensures r.Ok? && limit.Some? && !fair ==> r.value == Take(Sort(ByPriority, candidates), limit.value)
    ensures r.Ok? && limit.Some? && fair ==> IsShortlist(candidates, limit.value, marked, r.value)
  {
    var found := Candidates(store, now);
    candidates := found;
    if limit.Some? && limit.value < 1 {
      return Err(Rejected), candidates;
    }
    var sorted := Sort(ByPriority, found);
    if limit.None? {
      return Ok(sorted), candidates;
    }
    if !fair {
      return Ok(Take(sorted, limit.value)), candidates;
    }
    hide Lanes, Sort, IsShortlist, TotalLength, DedupeKey;
    var lanes := Lanes(sorted, limit.value, marked);
    LanesFit(sorted, limit.value, marked);
    LanesAreCandidates(candidates, limit.value, marked);
    var selected := PickDistinct(lanes, limit.value, 4, candidates);
    ShortlistFromPicks(candidates, limit.value, marked, selected);
    r := Ok(selected);
  }

  lemma LanesFit(sorted: seq<Task>, limit: int, marked: set<TaskId>)
    requires limit >= 1
    ensures |Lanes(sorted, limit, marked)| == 5 && TotalLength(Lanes(sorted, limit, marked)[..4]) <= limit
  {
    var l, lanes := FairLaneLimits(limit), Lanes(sorted, limit, marked);
    assert lanes[..4][..3] == lanes[..3] && lanes[..3][..2] == lanes[..2] && lanes[..2][..1] == lanes[..1] && lanes[..1][..0] == [];
    assert |lanes[0]| <= l.top && |lanes[1]| <= l.oldest && |lanes[2]| <= l.exploration && |lanes[3]| <= l.tail;
    assert TotalLength(lanes[..1]) == |lanes[0]|;
    assert TotalLength(lanes[..2]) == |lanes[0]| + |lanes[1]|;
    assert TotalLength(lanes[..3]) == |lanes[0]| + |lanes[1]| + |lanes[2]|;
    assert TotalLength(lanes[..4]) == |lanes[0]| + |lanes[1]| + |lanes[2]| + |lanes[3]|;
  }

  /** Every lane is made of candidates. */
  lemma LanesAreCandidates(candidates: seq<Task>, limit: int, marked: set<TaskId>)
    requires DistinctIds(candidates)
    ensures forall i :: 0 <= i < 5 ==> Within(Lanes(Sort(ByPriority, candidates), limit, marked)[i], candidates)
    ensures Within(candidates, Lanes(Sort(ByPriority, candidates), limit, marked)[4])
  {
    var sorted := Sort(ByPriority, candidates);
    SortKeepsTasks(ByPriority, candidates);
    SortKeepsTasks(ByAge, sorted);
    SortKeepsTasks(ByTail, sorted);
    ExploratorySound(sorted, marked);
  }

  lemma ShortlistFromPicks(candidates: seq<Task>, limit: int, marked: set<TaskId>, selected: seq<Task>)
    requires limit >= 1 && DistinctIds(candidates) && DistinctIds(selected) && |selected| <= limit && Within(selected, candidates)
    requires var lanes := Lanes(Sort(ByPriority, candidates), limit, marked);
      && (forall i :: 0 <= i < 4 ==> Ids(lanes[i]) <= Ids(selected))
      && (|selected| < limit ==> Ids(lanes[4]) <= Ids(selected))
    ensures IsShortlist(candidates, limit, marked, selected)
  {
    var lanes := Lanes(Sort(ByPriority, candidates), limit, marked);
    LanesAreCandidates(candidates, limit, marked);
    forall i | 0 <= i < 5 && Ids(lanes[i]) <= Ids(selected)
      ensures Within(lanes[i], selected)
    {
      IdMeansTask(candidates, lanes[i], selected);
    }
    SubsetLength(selected, candidates);
    if |selected| < limit {
      SubsetLength(candidates, selected);
    }
    LanesAreTheirLanes(candidates, limit, marked, selected);
  }

  lemma LanesAreTheirLanes(candidates: seq<Task>, limit: int, marked: set<TaskId>, selected: seq<Task>)
    requires DistinctIds(selected) && Within(selected, candidates) && |selected| == Min(limit, |candidates|)
    requires forall i :: 0 <= i < 4 ==> Within(Lanes(Sort(ByPriority, candidates), limit, marked)[i], selected)
    ensures IsShortlist(candidates, limit, marked, selected)
  {
    hide Sort, Exploratory, FairLaneLimits, Take;
    var lanes := Lanes(Sort(ByPriority, candidates), limit, marked);
    assert Within(lanes[0], selected) && Within(lanes[1], selected) && Within(lanes[2], selected) && Within(lanes[3], selected);
  }

  /** Among candidates an id names one task. */
  lemma IdMeansTask(candidates: seq<Task>, lane: seq<Task>, selected: seq<Task>)
    requires DistinctIds(candidates) && Within(lane, candidates) && Within(selected, candidates)
    requires Ids(lane) <= Ids(selected)
    ensures Within(lane, selected)
  {
    forall t | t in lane
      ensures t in selected
    {
      var i :| 0 <= i < |lane| && lane[i] == t;
      assert t.id in Ids(lane);
      var j :| 0 <= j < |selected| && selected[j].id == t.id;
      assert selected[j] in candidates && t in candidates;
    }
  }

  lemma SubsetLength(a: seq<Task>, b: seq<Task>)
    requires DistinctIds(a) && DistinctIds(b) && Within(a, b)
    ensures |a| <= |b|
  {
    var x, y := set t | t in a, set t | t in b;
    assert x <= y;
    SetLength(a);
    SetLength(b);
    SubsetSize(x, y);
  }

  lemma {:induction false} SetLength(s: seq<Task>)
    requires DistinctIds(s)
    ensures |set t | t in s| == |s|
  {
    if s != [] {
      var n := |s| - 1;
      SetLength(s[..n]);
      assert s == s[..n] + [s[n]] && s[n] !in s[..n];
      assert (set t | t in s) == (set t | t in s[..n]) + {s[n]};
    }
  }

  lemma {:induction false} SubsetSize<T>(a: set<T>, b: set<T>)
    requires a <= b
    ensures |a| <= |b|
  {
    assert b == a + (b - a);
  }

  /** From a limit of three up, the oldest ready task is never crowded out. */
  lemma OldestIsListed(candidates: seq<Task>, limit: int, marked: set<TaskId>, result: seq<Task>, oldest: Task)
    requires DistinctIds(candidates) && IsShortlist(candidates, limit, marked, result) && limit >= 3
    requires oldest in candidates && forall t :: t in candidates ==> Precedes(ByAge, oldest, t)
    ensures oldest in result
  {
    var sorted := Sort(ByPriority, candidates);
    SortKeepsTasks(ByPriority, candidates);
    FirstIsLeast(ByAge, sorted, oldest);
  }

  /** From a limit of one up, neither is the task of highest priority. */
  lemma HighestIsListed(candidates: seq<Task>, limit: int, marked: set<TaskId>, result: seq<Task>, highest: Task)
    requires DistinctIds(candidates) && IsShortlist(candidates, limit, marked, result) && limit >= 1
    requires highest in candidates && forall t :: t in candidates ==> Precedes(ByPriority, highest, t)
    ensures highest in result
  {
    FirstIsLeast(ByPriority, candidates, highest);
  }

  lemma FirstIsLeast(o: Ordering, s: seq<Task>, least: Task)
    requires DistinctIds(s) && least in s && forall t :: t in s ==> Precedes(o, least, t)
    ensures Sort(o, s) != [] && Sort(o, s)[0] == least
  {
    SortSorts(o, s);
    SortKeepsTasks(o, s);
    var r := Sort(o, s);
    var k :| 0 <= k < |r| && r[k] == least;
    PrecedesTotal(o, least, least);
    assert r[0] in s && Precedes(o, r[0], r[k]);
    PrecedesAntisymmetric(o, r[0], least);
  }

  lemma PrecedesAntisymmetric(o: Ordering, a: Task, b: Task)
    requires Precedes(o, a, b) && Precedes(o, b, a)
    ensures a.id == b.id
  {
  }
}
