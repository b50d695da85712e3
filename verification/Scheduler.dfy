/** Round-robin selection of a dispatch batch from ranked work. */
module Schedulers {
  import opened Prelude

  /** A ranked decision: which task, on which worker. */
  datatype Ranked = Ranked(taskId: nat, worker: string)

  /** A worker's items, in order. */
  function Of(items: seq<Ranked>, worker: string): seq<Ranked> {
    if items == [] then []
    else
      var last := items[|items| - 1];
      Of(items[..|items| - 1], worker) + (if last.worker == worker then [last] else [])
  }

  /** Non-excluded workers in the order in which they first appear. */
  function FirstSeen(items: seq<Ranked>, excluded: set<string>): seq<string> {
    if items == [] then []
    else
      var seen, w := FirstSeen(items[..|items| - 1], excluded), items[|items| - 1].worker;
      if w in excluded || w in seen then seen else seen + [w]
  }

  /** How much a worker can supply: what it has, within its free slots if those are limited. */
  function Quota(ranked: seq<Ranked>, capacities: map<string, int>, worker: string): nat {
    var available := |Of(ranked, worker)|;
    if worker in capacities then Min(Max(capacities[worker], 0), available) else available
  }

  function TotalQuota(ranked: seq<Ranked>, capacities: map<string, int>, workers: seq<string>): nat {
    if workers == [] then 0
    else TotalQuota(ranked, capacities, workers[..|workers| - 1]) + Quota(ranked, capacities, workers[|workers| - 1])
  }

  /** While a worker can still supply, nobody is two ahead of it, nor ahead of it from behind. */
  ghost predicate FairTo(batch: seq<Ranked>, order: seq<string>, quota: string -> nat, i: nat)
    requires i < |order|
  {
    |Of(batch, order[i])| < quota(order[i]) ==>
      forall j :: 0 <= j < |order| ==>
        |Of(batch, order[j])| <= |Of(batch, order[i])| + (if i < j then 0 else 1)
  }

  ghost predicate Fair(batch: seq<Ranked>, order: seq<string>, quota: string -> nat) {
    forall i :: 0 <= i < |order| ==> FairTo(batch, order, quota, i)
  }

  function QuotaOf(ranked: seq<Ranked>, capacities: map<string, int>): string -> nat {
    (w: string) => Quota(ranked, capacities, w)
  }

  /** A fair, maximal batch: only listed workers, each a prefix of its own ranked work within its
      quota, as many items as can be had, and fair at every moment of its making. */
  ghost predicate IsBatch(ranked: seq<Ranked>, limit: int, excluded: set<string>, capacities: map<string, int>,
                          batch: seq<Ranked>) {
    var order := FirstSeen(ranked, excluded);
    && (forall i :: 0 <= i < |batch| ==> batch[i].worker in order)
    && (forall w :: w in order ==> |Of(batch, w)| <= Quota(ranked, capacities, w) && Of(batch, w) <= Of(ranked, w))
    && |batch| == Min(Max(limit, 0), TotalQuota(ranked, capacities, order))
    && (forall p :: 0 <= p <= |batch| ==> Fair(batch[..p], order, QuotaOf(ranked, capacities)))
  }

  predicate NoRepeats(workers: seq<string>) {
    forall i, j :: 0 <= i < j < |workers| ==> workers[i] != workers[j]
  }

  lemma {:induction false} FirstSeenSound(items: seq<Ranked>, excluded: set<string>)
    ensures NoRepeats(FirstSeen(items, excluded))
    ensures forall w :: w in FirstSeen(items, excluded) <==> w !in excluded && Of(items, w) != []
  {
    if items != [] {
      FirstSeenSound(items[..|items| - 1], excluded);
    }
  }

  lemma OfSnoc(items: seq<Ranked>, last: Ranked, worker: string)
    ensures Of(items + [last], worker) == Of(items, worker) + (if last.worker == worker then [last] else [])
  {
    assert (items + [last])[..|items|] == items;
  }

  lemma {:induction false} OfPrefix(items: seq<Ranked>, p: nat, worker: string)
    requires p <= |items|
    ensures Of(items[..p], worker) <= Of(items, worker)
  {
    if p < |items| {
      OfPrefix(items[..|items| - 1], p, worker);
      assert items[..|items| - 1][..p] == items[..p];
    } else {
      assert items[..p] == items;
    }
  }

  /** A batch is exactly as long as what its workers contribute. */
  function Contributed(batch: seq<Ranked>, workers: seq<string>): nat {
    if workers == [] then 0
    else Contributed(batch, workers[..|workers| - 1]) + |Of(batch, workers[|workers| - 1])|
  }

  lemma {:induction false} ContributedSnoc(batch: seq<Ranked>, last: Ranked, workers: seq<string>)
    requires NoRepeats(workers)
    ensures Contributed(batch + [last], workers) == Contributed(batch, workers) + (if last.worker in workers then 1 else 0)
  {
    if workers != [] {
      hide Of;
      var n := |workers| - 1;
      OfSnoc(batch, last, workers[n]);
      ContributedSnoc(batch, last, workers[..n]);
      assert workers == workers[..n] + [workers[n]];
    }
  }

  lemma {:induction false} ContributedIsLength(batch: seq<Ranked>, workers: seq<string>)
    requires NoRepeats(workers) && forall i :: 0 <= i < |batch| ==> batch[i].worker in workers
    ensures Contributed(batch, workers) == |batch|
  {
    if batch == [] {
      NothingContributed(workers);
    } else {
      var n := |batch| - 1;
      ContributedIsLength(batch[..n], workers);
      ContributedSnoc(batch[..n], batch[n], workers);
      assert batch == batch[..n] + [batch[n]];
    }
  }

  lemma {:induction false} NothingContributed(workers: seq<string>)
    ensures Contributed([], workers) == 0
  {
    if workers != [] {
      NothingContributed(workers[..|workers| - 1]);
    }
  }

  lemma {:induction false} ContributedWithinQuota(batch: seq<Ranked>, ranked: seq<Ranked>, capacities: map<string, int>,
                                                  workers: seq<string>)
    requires forall w :: w in workers ==> |Of(batch, w)| <= Quota(ranked, capacities, w)
    ensures Contributed(batch, workers) <= TotalQuota(ranked, capacities, workers)
    ensures (forall w :: w in workers ==> |Of(batch, w)| == Quota(ranked, capacities, w)) ==>
      Contributed(batch, workers) == TotalQuota(ranked, capacities, workers)
  {
    if workers != [] {
      assert workers[|workers| - 1] in workers;
      ContributedWithinQuota(batch, ranked, capacities, workers[..|workers| - 1]);
    }
  }

  /** In the middle of round `r`, `done` workers have had their turn of it. */
  ghost predicate MidRound(batch: seq<Ranked>, order: seq<string>, quota: string -> nat, r: nat, done: nat) {
    forall i :: 0 <= i < |order| ==>
      |Of(batch, order[i])| == Min(if i < done then r + 1 else r, quota(order[i]))
  }

  lemma MidRoundIsFair(batch: seq<Ranked>, order: seq<string>, quota: string -> nat, r: nat, done: nat)
    requires MidRound(batch, order, quota, r, done)
    ensures Fair(batch, order, quota)
  {
    forall i | 0 <= i < |order|
      ensures FairTo(batch, order, quota, i)
    {
    }
  }

  /** What the selection loop keeps of every worker: its taken items and its remaining queue. */
  ghost predicate Drawn(ranked: seq<Ranked>, order: seq<string>, queues: map<string, seq<Ranked>>,
                        taken: map<string, nat>, selected: seq<Ranked>) {
    forall w :: w in order ==>
      && w in queues && w in taken
      && Of(ranked, w) == Of(selected, w) + queues[w]
      && taken[w] == |Of(selected, w)|
  }

  /** The queues the first loop builds. */
  method GroupByWorker(ranked: seq<Ranked>, excluded: set<string>)
    returns (order: seq<string>, queues: map<string, seq<Ranked>>, taken: map<string, nat>)
    ensures order == FirstSeen(ranked, excluded)
    ensures Drawn(ranked, order, queues, taken, [])
  {
    order, queues, taken := [], map[], map[];
    for k := 0 to |ranked|
      invariant order == FirstSeen(ranked[..k], excluded)
      invariant forall w :: w in order ==> w !in excluded
      invariant forall w :: w in order <==> w in queues
      invariant forall w :: w in order <==> w in taken
      invariant forall w :: w in order ==> queues[w] == Of(ranked[..k], w) && taken[w] == 0
      invariant forall w :: w !in order && w !in excluded ==> Of(ranked[..k], w) == []
    {
      var decision := ranked[k];
      assert ranked[..k + 1][..k] == ranked[..k] && ranked[..k + 1][k] == decision;
      if decision.worker !in excluded {
        if decision.worker !in queues {
          order := order + [decision.worker];
          queues, taken := queues[decision.worker := []], taken[decision.worker := 0];
        }
        queues := queues[decision.worker := queues[decision.worker] + [decision]];
      }
    }
    assert ranked[..|ranked|] == ranked;
  }

  /** Whether a worker takes its turn: it has work and a free slot. */
  predicate CanSupply(queues: map<string, seq<Ranked>>, taken: map<string, nat>, capacities: map<string, int>, w: string)
    requires w in queues && w in taken
  {
    !(w in capacities && taken[w] >= capacities[w]) && queues[w] != []
  }

  lemma SupplyMeansQuota(ranked: seq<Ranked>, order: seq<string>, queues: map<string, seq<Ranked>>,
                         taken: map<string, nat>, selected: seq<Ranked>, capacities: map<string, int>, w: string)
    requires Drawn(ranked, order, queues, taken, selected) && w in order
    requires |Of(selected, w)| <= Quota(ranked, capacities, w)
    ensures CanSupply(queues, taken, capacities, w) <==> |Of(selected, w)| < Quota(ranked, capacities, w)
  {
  }

  /** One turn within a round. */
  lemma TurnKeepsRound(ranked: seq<Ranked>, order: seq<string>, capacities: map<string, int>, selected: seq<Ranked>,
                       next: Ranked, r: nat, done: nat)
    requires NoRepeats(order) && done < |order| && next.worker == order[done]
    requires MidRound(selected, order, QuotaOf(ranked, capacities), r, done)
    requires |Of(selected, order[done])| < Quota(ranked, capacities, order[done])
    ensures MidRound(selected + [next], order, QuotaOf(ranked, capacities), r, done + 1)
  {
    forall i | 0 <= i < |order|
      ensures Of(selected + [next], order[i]) == Of(selected, order[i]) + (if i == done then [next] else [])
    {
      OfSnoc(selected, next, order[i]);
    }
  }

  ghost predicate FairSoFar(selected: seq<Ranked>, order: seq<string>, quota: string -> nat) {
    forall p :: 0 <= p <= |selected| ==> Fair(selected[..p], order, quota)
  }

  lemma FairSnoc(selected: seq<Ranked>, next: Ranked, order: seq<string>, quota: string -> nat)
    requires FairSoFar(selected, order, quota) && Fair(selected + [next], order, quota)
    ensures FairSoFar(selected + [next], order, quota)
  {
    forall p | 0 <= p <= |selected| + 1
      ensures Fair((selected + [next])[..p], order, quota)
    {
      if p <= |selected| {
        assert (selected + [next])[..p] == selected[..p];
      } else {
        assert (selected + [next])[..p] == selected + [next];
      }
    }
  }

  /** One round over all workers, stopping as soon as the limit is reached. */
  method Round(ranked: seq<Ranked>, limit: int, capacities: map<string, int>, order: seq<string>,
               queues0: map<string, seq<Ranked>>, taken0: map<string, nat>, selected0: seq<Ranked>, ghost r: nat)
    returns (queues: map<string, seq<Ranked>>, taken: map<string, nat>, selected: seq<Ranked>, progressed: bool)
    requires NoRepeats(order) && |selected0| < limit
    requires Drawn(ranked, order, queues0, taken0, selected0)
    requires MidRound(selected0, order, QuotaOf(ranked, capacities), r, 0)
    requires FairSoFar(selected0, order, QuotaOf(ranked, capacities))
    requires forall i :: 0 <= i < |selected0| ==> selected0[i].worker in order
    ensures Drawn(ranked, order, queues, taken, selected)
    ensures FairSoFar(selected, order, QuotaOf(ranked, capacities))
    ensures forall i :: 0 <= i < |selected| ==> selected[i].worker in order
    ensures forall w :: w in order ==> |Of(selected, w)| <= Quota(ranked, capacities, w)
    ensures |selected| <= limit
    ensures |selected| < limit ==> MidRound(selected, order, QuotaOf(ranked, capacities), r + 1, 0)
    ensures progressed <==> |selected| > |selected0|
    ensures |selected| >= |selected0|
    ensures !progressed ==> forall w :: w in order ==> |Of(selected, w)| == Quota(ranked, capacities, w)
  {
    hide Quota, QuotaOf, Fair, MidRound, Drawn, FairSoFar, Of, CanSupply;
    queues, taken, selected, progressed := queues0, taken0, selected0, false;
    var i := 0;
    ghost var quota := QuotaOf(ranked, capacities);
    RoundQuota(ranked, capacities, selected, order, r, 0);
    while i < |order|
      invariant 0 <= i <= |order| && |selected0| <= |selected| < limit
      invariant Drawn(ranked, order, queues, taken, selected)
      invariant MidRound(selected, order, quota, r, i)
      invariant FairSoFar(selected, order, quota)
      invariant forall k :: 0 <= k < |selected| ==> selected[k].worker in order
      invariant forall w :: w in order ==> |Of(selected, w)| <= Quota(ranked, capacities, w)
      invariant progressed <==> |selected| > |selected0|
      invariant !progressed ==> forall k :: 0 <= k < i ==> |Of(selected, order[k])| == Quota(ranked, capacities, order[k])
    {
      var worker := order[i];
      var supplies := Supplies(ranked, order, queues, taken, selected, capacities, worker);
      if supplies {
        var next;
        queues, taken, next := TakeTurn(ranked, order, queues, taken, selected, worker);
        TurnKeepsRound(ranked, order, capacities, selected, next, r, i);
        MidRoundIsFair(selected + [next], order, quota, r, i + 1);
        FairSnoc(selected, next, order, quota);
        selected := selected + [next];
        RoundQuota(ranked, capacities, selected, order, r, i + 1);
        progressed := true;
        if |selected| >= limit {
          return;
        }
      } else {
        SkipKeepsRound(ranked, order, capacities, selected, r, i);
      }
      i := i + 1;
    }
    RoundEnds(selected, order, quota, r);
    if !progressed {
      forall w | w in order
        ensures |Of(selected, w)| == Quota(ranked, capacities, w)
      {
        var k :| 0 <= k < |order| && order[k] == w;
      }
    }
  }

  lemma RoundQuota(ranked: seq<Ranked>, capacities: map<string, int>, selected: seq<Ranked>, order: seq<string>, r: nat, done: nat)
    requires MidRound(selected, order, QuotaOf(ranked, capacities), r, done)
    ensures forall w :: w in order ==> |Of(selected, w)| <= Quota(ranked, capacities, w)
  {
    hide Quota, Of;
    forall w | w in order
      ensures |Of(selected, w)| <= Quota(ranked, capacities, w)
    {
      var k :| 0 <= k < |order| && order[k] == w;
    }
  }

  lemma RoundEnds(selected: seq<Ranked>, order: seq<string>, quota: string -> nat, r: nat)
    requires MidRound(selected, order, quota, r, |order|)
    ensures MidRound(selected, order, quota, r + 1, 0)
  {
  }

  lemma SkipKeepsRound(ranked: seq<Ranked>, order: seq<string>, capacities: map<string, int>, selected: seq<Ranked>, r: nat, done: nat)
    requires done < |order| && MidRound(selected, order, QuotaOf(ranked, capacities), r, done)
    requires |Of(selected, order[done])| >= Quota(ranked, capacities, order[done])
    ensures MidRound(selected, order, QuotaOf(ranked, capacities), r, done + 1)
    ensures |Of(selected, order[done])| == Quota(ranked, capacities, order[done])
  {
    hide Quota, Of;
  }

  /** The worker's turn: its next item leaves its queue and is counted. */
  method TakeTurn(ranked: seq<Ranked>, order: seq<string>, queues0: map<string, seq<Ranked>>, taken0: map<string, nat>,
                  ghost selected: seq<Ranked>, worker: string)
    returns (queues: map<string, seq<Ranked>>, taken: map<string, nat>, next: Ranked)
    requires Drawn(ranked, order, queues0, taken0, selected) && worker in order
    requires worker in queues0 && queues0[worker] != []
    ensures next.worker == worker && Drawn(ranked, order, queues, taken, selected + [next])
  {
    next := queues0[worker][0];
    HeadIsOwn(ranked, worker, Of(selected, worker), queues0[worker]);
    DrawKeeps(ranked, order, queues0, taken0, selected, next);
    queues := queues0[worker := queues0[worker][1..]];
    taken := taken0[worker := taken0[worker] + 1];
  }

  method Supplies(ghost ranked: seq<Ranked>, ghost order: seq<string>, queues: map<string, seq<Ranked>>, taken: map<string, nat>,
                  ghost selected: seq<Ranked>, capacities: map<string, int>, worker: string)
    returns (b: bool)
    requires Drawn(ranked, order, queues, taken, selected) && worker in order
    requires |Of(selected, worker)| <= Quota(ranked, capacities, worker)
    ensures b <==> |Of(selected, worker)| < Quota(ranked, capacities, worker)
    ensures b ==> worker in queues && queues[worker] != []
  {
    SupplyMeansQuota(ranked, order, queues, taken, selected, capacities, worker);
    b := CanSupply(queues, taken, capacities, worker);
  }

  lemma {:induction false} OfIsOwn(items: seq<Ranked>, worker: string)
    ensures forall i :: 0 <= i < |Of(items, worker)| ==> Of(items, worker)[i].worker == worker
  {
    if items != [] {
      OfIsOwn(items[..|items| - 1], worker);
    }
  }

  lemma HeadIsOwn(ranked: seq<Ranked>, worker: string, before: seq<Ranked>, queue: seq<Ranked>)
    requires Of(ranked, worker) == before + queue && queue != []
    ensures queue[0].worker == worker
  {
    OfIsOwn(ranked, worker);
    assert Of(ranked, worker)[|before|] == queue[0];
  }

  lemma DrawKeeps(ranked: seq<Ranked>, order: seq<string>, queues: map<string, seq<Ranked>>, taken: map<string, nat>,
                  selected: seq<Ranked>, next: Ranked)
    requires Drawn(ranked, order, queues, taken, selected) && next.worker in order
    requires queues[next.worker] != [] && queues[next.worker][0] == next
    ensures Drawn(ranked, order, queues[next.worker := queues[next.worker][1..]],
                  taken[next.worker := taken[next.worker] + 1], selected + [next])
  {
    forall w | w in order
      ensures Of(selected + [next], w) == Of(selected, w) + (if w == next.worker then [next] else [])
    {
      OfSnoc(selected, next, w);
    }
  }

  /** `_select_ranked_batch`: rounds over the workers until the limit or a round without progress. */
  method SelectRankedBatch(ranked: seq<Ranked>, limit: int, excluded: set<string>, capacities: map<string, int>)
    returns (selected: seq<Ranked>)
    ensures IsBatch(ranked, limit, excluded, capacities, selected)
  {
    hide Quota, QuotaOf, FairSoFar, MidRound, Drawn, Of, FirstSeen, NoRepeats, IsBatch;
    var order, queues, taken := GroupByWorker(ranked, excluded);
    FirstSeenSound(ranked, excluded);
    selected := [];
    ghost var r := 0;
    ghost var quota := QuotaOf(ranked, capacities);
    RoundZero(ranked, capacities, order);
    while |selected| < limit
      invariant Drawn(ranked, order, queues, taken, selected)
      invariant FairSoFar(selected, order, quota)
      invariant forall i :: 0 <= i < |selected| ==> selected[i].worker in order
      invariant forall w :: w in order ==> |Of(selected, w)| <= Quota(ranked, capacities, w)
      invariant |selected| <= Max(limit, 0)
      invariant |selected| < limit ==> MidRound(selected, order, quota, r, 0)
      decreases limit - |selected|
    {
      var progressed;
      queues, taken, selected, progressed := Round(ranked, limit, capacities, order, queues, taken, selected, r);
      r := r + 1;
      if !progressed {
        break;
      }
    }
    DrawnIsPrefix(ranked, order, queues, taken, selected);
    MakesBatch(ranked, limit, excluded, capacities, selected);
  }

  /** What the rounds leave is a batch: within all quotas, fair throughout, and full or exhaustive. */
  lemma MakesBatch(ranked: seq<Ranked>, limit: int, excluded: set<string>, capacities: map<string, int>, selected: seq<Ranked>)
    requires var order := FirstSeen(ranked, excluded);
      && NoRepeats(order) && FairSoFar(selected, order, QuotaOf(ranked, capacities))
      && (forall i :: 0 <= i < |selected| ==> selected[i].worker in order)
      && (forall w :: w in order ==> |Of(selected, w)| <= Quota(ranked, capacities, w) && Of(selected, w) <= Of(ranked, w))
      && |selected| <= Max(limit, 0)
      && (|selected| < limit ==> forall w :: w in order ==> |Of(selected, w)| == Quota(ranked, capacities, w))
    ensures IsBatch(ranked, limit, excluded, capacities, selected)
  {
    hide Quota, QuotaOf, TotalQuota, Fair, Of, FirstSeen;
    var order := FirstSeen(ranked, excluded);
    ContributedIsLength(selected, order);
    ContributedWithinQuota(selected, ranked, capacities, order);
  }

  lemma RoundZero(ranked: seq<Ranked>, capacities: map<string, int>, order: seq<string>)
    ensures MidRound([], order, QuotaOf(ranked, capacities), 0, 0)
    ensures FairSoFar([], order, QuotaOf(ranked, capacities))
    ensures forall w :: w in order ==> |Of([], w)| <= Quota(ranked, capacities, w)
  {
    var none: seq<Ranked> := [];
    MidRoundIsFair(none, order, QuotaOf(ranked, capacities), 0, 0);
    assert none[..0] == none;
  }

  lemma DrawnIsPrefix(ranked: seq<Ranked>, order: seq<string>, queues: map<string, seq<Ranked>>, taken: map<string, nat>,
                      selected: seq<Ranked>)
    requires Drawn(ranked, order, queues, taken, selected)
    ensures forall w :: w in order ==> Of(selected, w) <= Of(ranked, w)
  {
  }

  // ----- the contract leaves no choice ---------------------------------------------------------

  /** What a batch's contract says of its item `p`. */
  lemma TurnFacts(ranked: seq<Ranked>, limit: int, excluded: set<string>, capacities: map<string, int>,
                  a: seq<Ranked>, p: nat)
    requires IsBatch(ranked, limit, excluded, capacities, a) && p < |a|
    ensures a[p].worker in FirstSeen(ranked, excluded)
    ensures Fair(a[..p] + [a[p]], FirstSeen(ranked, excluded), QuotaOf(ranked, capacities))
    ensures forall w :: w in FirstSeen(ranked, excluded) ==>
      |Of(a[..p] + [a[p]], w)| <= QuotaOf(ranked, capacities)(w) && Of(a[..p] + [a[p]], w) <= Of(ranked, w)
  {
    hide Quota, Fair, Of, FirstSeen, TotalQuota;
    assert a[..p + 1] == a[..p] + [a[p]];
    forall w | w in FirstSeen(ranked, excluded)
      ensures |Of(a[..p + 1], w)| <= QuotaOf(ranked, capacities)(w) && Of(a[..p + 1], w) <= Of(ranked, w)
    {
      OfPrefix(a, p + 1, w);
    }
  }

  /** Whose turn it is follows from what was taken before. */
  lemma TurnIsForced(order: seq<string>, quota: string -> nat, before: seq<Ranked>, x: Ranked, y: Ranked, i: nat, j: nat)
    requires i < |order| && j < |order| && order[i] == x.worker && order[j] == y.worker
    requires Fair(before + [x], order, quota) && Fair(before + [y], order, quota)
    requires |Of(before + [x], x.worker)| <= quota(x.worker) && |Of(before + [y], y.worker)| <= quota(y.worker)
    ensures x.worker == y.worker
  {
    hide Of;
    OfSnoc(before, x, x.worker);
    OfSnoc(before, x, y.worker);
    OfSnoc(before, y, x.worker);
    OfSnoc(before, y, y.worker);
    assert FairTo(before + [x], order, quota, j) && FairTo(before + [y], order, quota, i);
  }

  lemma {:induction false} BatchesAgree(ranked: seq<Ranked>, limit: int, excluded: set<string>, capacities: map<string, int>,
                                        a: seq<Ranked>, b: seq<Ranked>, p: nat)
    requires IsBatch(ranked, limit, excluded, capacities, a) && IsBatch(ranked, limit, excluded, capacities, b)
    requires p <= |a|
    ensures |a| == |b| && a[..p] == b[..p]
  {
    hide Fair, Of, FirstSeen, Quota, QuotaOf, TotalQuota;
    if p > 0 {
      var order, quota, n := FirstSeen(ranked, excluded), QuotaOf(ranked, capacities), p - 1;
      BatchesAgree(ranked, limit, excluded, capacities, a, b, n);
      TurnFacts(ranked, limit, excluded, capacities, a, n);
      TurnFacts(ranked, limit, excluded, capacities, b, n);
      var i :| 0 <= i < |order| && order[i] == a[n].worker;
      var j :| 0 <= j < |order| && order[j] == b[n].worker;
      TurnIsForced(order, quota, a[..n], a[n], b[n], i, j);
      OfSnoc(a[..n], a[n], a[n].worker);
      OfSnoc(a[..n], b[n], a[n].worker);
      SamePrefixSameNext(Of(a[..n], a[n].worker), a[n], b[n], Of(ranked, a[n].worker));
      assert a[..p] == a[..n] + [a[n]] && b[..p] == b[..n] + [b[n]];
    }
  }

  lemma SamePrefixSameNext(s: seq<Ranked>, x: Ranked, y: Ranked, whole: seq<Ranked>)
    requires s + [x] <= whole && s + [y] <= whole
    ensures x == y
  {
    assert whole[|s|] == (s + [x])[|s|] == (s + [y])[|s|];
  }

  /** There is exactly one fair, maximal batch, so the loop's contract determines its result. */
  lemma BatchIsUnique(ranked: seq<Ranked>, limit: int, excluded: set<string>, capacities: map<string, int>,
                      a: seq<Ranked>, b: seq<Ranked>)
    requires IsBatch(ranked, limit, excluded, capacities, a) && IsBatch(ranked, limit, excluded, capacities, b)
    ensures a == b
  {
    BatchesAgree(ranked, limit, excluded, capacities, a, b, |a|);
    assert a[..|a|] == a && b[..|b|] == b;
  }

  // ----- no task twice ---------------------------------------------------------------------------

  predicate DistinctTasks(items: seq<Ranked>) {
    forall i, j :: 0 <= i < j < |items| ==> items[i].taskId != items[j].taskId
  }

  lemma {:induction false} OfMembers(items: seq<Ranked>, worker: string)
    ensures forall x :: x in Of(items, worker) ==> x in items
    ensures DistinctTasks(items) ==> DistinctTasks(Of(items, worker))
  {
    if items != [] {
      var n := |items| - 1;
      var share := Of(items[..n], worker);
      OfMembers(items[..n], worker);
      forall i | 0 <= i < |share| && DistinctTasks(items)
        ensures share[i].taskId != items[n].taskId
      {
        assert share[i] in items[..n];
        var k :| 0 <= k < n && items[k] == share[i];
      }
    }
  }

  /** An item stands in its worker's share right after the ones before it. */
  lemma PlaceInShare(items: seq<Ranked>, i: nat)
    requires i < |items|
    ensures var share, q := Of(items, items[i].worker), |Of(items[..i], items[i].worker)|;
      q < |share| && share[q] == items[i]
  {
    OfSnoc(items[..i], items[i], items[i].worker);
    assert items[..i + 1] == items[..i] + [items[i]];
    OfPrefix(items, i + 1, items[i].worker);
  }

  lemma SharesGrow(items: seq<Ranked>, i: nat, j: nat)
    requires i < j < |items|
    ensures |Of(items[..i], items[i].worker)| < |Of(items[..j], items[i].worker)|
  {
    PlaceInShare(items[..j], i);
    assert items[..j][..i] == items[..i];
  }

  lemma DistinctMembers(items: seq<Ranked>, x: Ranked, y: Ranked)
    requires DistinctTasks(items) && x in items && y in items && x != y
    ensures x.taskId != y.taskId
  {
  }

  /** A batch of a ranking without repeats has none: no task is dispatched twice. */
  lemma BatchHasNoRepeats(ranked: seq<Ranked>, limit: int, excluded: set<string>, capacities: map<string, int>, batch: seq<Ranked>)
    requires IsBatch(ranked, limit, excluded, capacities, batch) && DistinctTasks(ranked)
    ensures DistinctTasks(batch)
  {
    hide Of, Quota, QuotaOf, TotalQuota, Fair, FirstSeen;
    forall i, j | 0 <= i < j < |batch|
      ensures batch[i].taskId != batch[j].taskId
    {
      var v, w := batch[i].worker, batch[j].worker;
      PlaceInShare(batch, i);
      PlaceInShare(batch, j);
      OfMembers(ranked, v);
      OfMembers(ranked, w);
      var p, q := |Of(batch[..i], v)|, |Of(batch[..j], w)|;
      assert Of(ranked, v)[p] == batch[i] && Of(ranked, w)[q] == batch[j];
      if v == w {
        SharesGrow(batch, i, j);
      } else {
        DistinctMembers(ranked, batch[i], batch[j]);
      }
    }
  }
}
