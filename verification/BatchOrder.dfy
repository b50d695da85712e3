/** What a dispatch batch is, told by the positions and numbers of its items. */
module BatchOrders {
  import opened Prelude
  import opened Schedulers

  /** Where a worker's items stand. */
  function Places(items: seq<Ranked>, worker: string): set<int> {
    set i | 0 <= i < |items| && items[i].worker == worker
  }

  lemma {:induction false} OfCounts(items: seq<Ranked>, worker: string)
    ensures |Of(items, worker)| == |Places(items, worker)|
  {
    if items != [] {
      var n := |items| - 1;
      OfCounts(items[..n], worker);
      var before := Places(items[..n], worker);
      assert Places(items, worker) == if items[n].worker == worker then before + {n} else before;
    }
  }

  /** `v` has an item before any of `w`. */
  predicate SeenBefore(items: seq<Ranked>, v: string, w: string) {
    exists k :: 0 <= k < |items| && items[k].worker == v && forall m :: 0 <= m <= k ==> items[m].worker != w
  }

  /** Workers take their turns in the order in which their first items are ranked. */
  lemma {:induction false} TurnsFollowRank(items: seq<Ranked>, excluded: set<string>)
    ensures var order := FirstSeen(items, excluded);
      && (forall w :: w in order <==> w !in excluded && Places(items, w) != {})
      && (forall i, j :: 0 <= i < j < |order| ==> SeenBefore(items, order[i], order[j]))
  {
    if items != [] {
      var n, w := |items| - 1, items[|items| - 1].worker;
      var seen, order := FirstSeen(items[..n], excluded), FirstSeen(items, excluded);
      TurnsFollowRank(items[..n], excluded);
      forall v
        ensures Places(items, v) != {} <==> Places(items[..n], v) != {} || v == w
      {
        assert v == w ==> n in Places(items, v);
        assert forall i :: i in Places(items[..n], v) ==> i in Places(items, v);
        assert forall i :: i in Places(items, v) && i != n ==> i in Places(items[..n], v);
      }
      forall i, j | 0 <= i < j < |order|
        ensures SeenBefore(items, order[i], order[j])
      {
        if j < |seen| {
          SeenStays(items, n, order[i], order[j]);
        } else {
          NewIsLast(items, order[i], w);
        }
      }
    }
  }

  lemma SeenStays(items: seq<Ranked>, n: nat, v: string, w: string)
    requires n <= |items| && SeenBefore(items[..n], v, w)
    ensures SeenBefore(items, v, w)
  {
    var k :| 0 <= k < n && items[..n][k].worker == v && forall m :: 0 <= m <= k ==> items[..n][m].worker != w;
    forall m | 0 <= m <= k
      ensures items[m].worker != w
    {
      assert items[m] == items[..n][m];
    }
  }

  lemma NewIsLast(items: seq<Ranked>, v: string, w: string)
    requires items != [] && Places(items[..|items| - 1], v) != {} && Places(items[..|items| - 1], w) == {}
    ensures SeenBefore(items, v, w)
  {
    var n := |items| - 1;
    var k :| k in Places(items[..n], v);
    forall m | 0 <= m <= k
      ensures items[m].worker != w
    {
      assert m !in Places(items[..n], w);
    }
  }

  /** An item is never taken before one of the same worker that is ranked higher. */
  lemma BatchFollowsRank(ranked: seq<Ranked>, limit: int, excluded: set<string>, capacities: map<string, int>, batch: seq<Ranked>,
                         i: nat, j: nat, q: nat)
    requires IsBatch(ranked, limit, excluded, capacities, batch) && DistinctTasks(ranked)
    requires i < j < |ranked| && ranked[i].worker == ranked[j].worker && q < |batch| && batch[q] == ranked[j]
    ensures exists p :: 0 <= p < q && batch[p] == ranked[i]
  {
    hide Of, Quota, QuotaOf, TotalQuota, Fair, FirstSeen;
    var w := ranked[j].worker;
    TurnFacts(ranked, limit, excluded, capacities, batch, q);
    OfSnoc(batch[..q], batch[q], w);
    PlaceInShare(ranked, i);
    PlaceInShare(ranked, j);
    SharesGrow(ranked, i, j);
    OfMembers(ranked, w);
    var share, taken := Of(ranked, w), Of(batch[..q], w);
    var a, b := |Of(ranked[..i], w)|, |Of(ranked[..j], w)|;
    assert share[|taken|] == (taken + [batch[q]])[|taken|] == batch[q];
    assert |taken| == b;
    assert taken[a] == share[a] == ranked[i];
    OfMembers(batch[..q], w);
    assert ranked[i] in batch[..q];
  }

  lemma {:induction false} AllAtQuota(batch: seq<Ranked>, ranked: seq<Ranked>, capacities: map<string, int>, workers: seq<string>)
    requires forall w :: w in workers ==> |Of(batch, w)| <= Quota(ranked, capacities, w)
    ensures Contributed(batch, workers) <= TotalQuota(ranked, capacities, workers)
    ensures Contributed(batch, workers) == TotalQuota(ranked, capacities, workers) ==>
      forall w :: w in workers ==> |Of(batch, w)| == Quota(ranked, capacities, w)
  {
    hide Quota, Of;
    if workers != [] {
      var n := |workers| - 1;
      assert workers[n] in workers && workers == workers[..n] + [workers[n]];
      AllAtQuota(batch, ranked, capacities, workers[..n]);
    }
  }

  /** A batch keeps to the limit and to every capacity, takes nothing of an excluded worker, and stops short
      of the limit only when every other worker has run out of items or of capacity. */
  lemma BatchFills(ranked: seq<Ranked>, limit: int, excluded: set<string>, capacities: map<string, int>, batch: seq<Ranked>, w: string)
    requires IsBatch(ranked, limit, excluded, capacities, batch)
    ensures |batch| <= Max(limit, 0)
    ensures w in excluded ==> Places(batch, w) == {}
    ensures |Places(batch, w)| <= |Places(ranked, w)|
    ensures w in capacities ==> |Places(batch, w)| <= Max(capacities[w], 0)
    ensures |batch| < limit && w !in excluded ==>
      || |Places(batch, w)| == |Places(ranked, w)|
      || (w in capacities && |Places(batch, w)| == Max(capacities[w], 0))
  {
    hide Fair, Of, FirstSeen, TotalQuota;
    var order := FirstSeen(ranked, excluded);
    FirstSeenSound(ranked, excluded);
    TurnsFollowRank(ranked, excluded);
    OfCounts(ranked, w);
    OfCounts(batch, w);
    ContributedIsLength(batch, order);
    AllAtQuota(batch, ranked, capacities, order);
    if w !in order {
      assert forall i :: 0 <= i < |batch| ==> batch[i].worker in order;
      assert Places(batch, w) == {};
    }
  }
}
