/** What the rate-limit store answers, told by the buckets, the rules and the leases themselves. */
module RateAnswers {
  import opened Prelude
  import opened Sums
  import opened RateLimits
  import opened RateRuns
  import opened RateLimitStores

  /** The tokens a rated bucket has at `now`: what it had and what has flowed in since, up to the burst; a
      new bucket is full. */
  function TokensAt(s: RateState, key: BucketId, rate: real, burst: real, now: Time): real {
    if key in s.buckets then
      var b := s.buckets[key];
      var inflow := if now > b.lastRefill then (now - b.lastRefill) * rate else 0.0;
      if b.tokens + inflow < burst then b.tokens + inflow else burst
    else burst
  }

  function SlotsOut(s: RateState, key: BucketId): int {
    if key in s.buckets then s.buckets[key].active else 0
  }

  /** The bucket could never hold what is asked. */
  predicate AsksTooMuch(c: RateCheck) {
    c.limits.rps.Some? && c.limits.burst.Some? && c.requests > 0.0 && c.requests > c.limits.burst.value + EPSILON
  }

  predicate HasTokens(s: RateState, c: RateCheck, now: Time) {
    c.limits.rps.Some? && c.limits.burst.Some? && c.requests > 0.0 ==>
      c.requests <= TokensAt(s, c.key, c.limits.rps.value, c.limits.burst.value, now) + EPSILON
  }

  predicate HasSlots(s: RateState, c: RateCheck) {
    c.limits.maxConcurrency.Some? && c.concurrency > 0 ==>
      SlotsOut(s, c.key) + c.concurrency <= c.limits.maxConcurrency.value
  }

  /** An acquisition is impossible if it asks some bucket for more than its burst, and otherwise granted
      exactly if every bucket has the tokens and the free slots asked of it. */
  lemma GrantedIff(s: RateState, checks: seq<RateCheck>, now: Time)
    requires forall i :: 0 <= i < |checks| ==> CheckValid(checks[i])
    ensures Impossible(checks) <==> exists i :: 0 <= i < |checks| && AsksTooMuch(checks[i])
    ensures Grants(s, checks, now) <==>
      !Impossible(checks) && forall i :: 0 <= i < |checks| ==> HasTokens(s, checks[i], now) && HasSlots(s, checks[i])
  {
    forall i | 0 <= i < |checks|
      ensures AsksTooMuch(checks[i]) <==> OverBurst(checks[i])
      ensures Refuses(s, checks[i], now) <==> !(HasTokens(s, checks[i], now) && HasSlots(s, checks[i]))
    {
      OneCheck(s, checks[i], now);
    }
    hide AsksTooMuch, OverBurst, Refuses, HasTokens, HasSlots;
  }

  lemma OneCheck(s: RateState, c: RateCheck, now: Time)
    requires CheckValid(c)
    ensures AsksTooMuch(c) <==> OverBurst(c)
    ensures Refuses(s, c, now) <==> !(HasTokens(s, c, now) && HasSlots(s, c))
  {
  }

  // ----- leases ------------------------------------------------------------------------------------

  /** A grant that takes slots opens a lease for `leaseFor`: a reap at `t` ends it if and only if that time
      is over. */
  lemma LeaseLasts(s: RateState, taskId: nat, checks: seq<RateCheck>, leaseFor: Time, now: Time, t: Time)
    requires SlotsConserved(s) && DistinctBuckets(checks) && Grants(s, checks, now) && LeaseItems(checks) != []
    ensures var s' := Acquired(s, taskId, checks, leaseFor, now);
      && IsActive(s', s.nextId) && s'.leases[s.nextId].items == LeaseItems(checks)
      && (IsActive(Reaped(s', t, |s'.order|), s.nextId) <==> t < now + leaseFor)
  {
    hide LeaseItems, Grants, Written, Slots;
    var s' := Acquired(s, taskId, checks, leaseFor, now);
    AcquireConserves(s, taskId, checks, leaseFor, now);
    assert s'.order[|s.order|] == s.nextId;
    ReapedLeases(s', t, |s'.order|);
  }

  /** Renewed, it lasts until the new instant. */
  lemma RenewedLeaseLasts(s: RateState, id: Id, until: Time, t: Time)
    requires SlotsConserved(s) && IsActive(s, id)
    ensures var s' := RateLimits.Renewed(s, id, until);
      IsActive(Reaped(s', t, |s'.order|), id) <==> t < until
  {
    hide Reaped;
    var s' := RateLimits.Renewed(s, id, until);
    var i :| 0 <= i < |s'.order| && s'.order[i] == id;
    ReapedLeases(s', t, |s'.order|);
  }

  /** The lease holds a slot of the bucket. */
  predicate Holds(s: RateState, id: Id, key: BucketId) {
    IsActive(s, id) && exists i :: 0 <= i < |s.leases[id].items| && s.leases[id].items[i].key == key
                                   && s.leases[id].items[i].concurrency > 0
  }

  function WaitFor(expiresAt: Time, now: Time): Time {
    if expiresAt - now > 0.001 then expiresAt - now else 0.001
  }

  /** The wait reported for slots is that for the first lease to run out of those that hold one, and a
      millisecond if that is over or there is none. */
  lemma SlotRetryIsEarliest(s: RateState, key: BucketId, now: Time)
    requires Orders(s.order, s.leases)
    ensures var wait := SlotRetry(s.order, s.leases, key, now);
      && (forall id :: Holds(s, id, key) ==> wait <= WaitFor(s.leases[id].expiresAt, now))
      && (|| (wait == 0.001 && forall id :: !Holds(s, id, key))
          || exists id :: Holds(s, id, key) && wait == WaitFor(s.leases[id].expiresAt, now))
  {
    EarliestOfAll(s, s.order, key);
    forall id | Holds(s, id, key)
      ensures id in s.order
    {
    }
  }

  lemma {:induction false} EarliestOfAll(s: RateState, order: seq<Id>, key: BucketId)
    requires forall id :: id in order ==> id in s.leases
    ensures var earliest := EarliestExpiry(order, s.leases, key);
      && (forall id :: id in order && Holds(s, id, key) ==> earliest.Some? && earliest.value <= s.leases[id].expiresAt)
      && (earliest.Some? ==> exists id :: id in order && Holds(s, id, key) && earliest.value == s.leases[id].expiresAt)
  {
    if order != [] {
      var n := |order| - 1;
      EarliestOfAll(s, order[..n], key);
      assert order == order[..n] + [order[n]];
      assert OccupiesBucket(s.leases[order[n]], key) <==> Holds(s, order[n], key);
    }
  }

  /** After the wait reported for a bucket with slots out, a reap ends a lease that holds one. */
  lemma WaitFreesSlots(s: RateState, key: BucketId, now: Time)
    requires SlotsConserved(s) && SlotsOut(s, key) > 0
    ensures var later := now + SlotRetry(s.order, s.leases, key, now);
      exists id :: Holds(s, id, key) && !IsActive(Reaped(s, later, |s.order|), id)
  {
    hide SlotsConserved, SlotsOut, SlotRetry, Reaped;
    assert Orders(s.order, s.leases) by { ConservedIsOrdered(s); }
    var later := now + SlotRetry(s.order, s.leases, key, now);
    SlotRetryIsEarliest(s, key, now);
    SomeLeaseHolds(s, key);
    var id :| Holds(s, id, key) && SlotRetry(s.order, s.leases, key, now) == WaitFor(s.leases[id].expiresAt, now);
    ReapEnds(s, id, later);
  }

  lemma ConservedIsOrdered(s: RateState)
    requires SlotsConserved(s)
    ensures Orders(s.order, s.leases)
  {
  }

  lemma ReapEnds(s: RateState, id: Id, t: Time)
    requires Orders(s.order, s.leases) && IsActive(s, id) && s.leases[id].expiresAt <= t
    ensures !IsActive(Reaped(s, t, |s.order|), id)
  {
    hide Reaped;
    ReapedLeases(s, t, |s.order|);
    var i :| 0 <= i < |s.order| && s.order[i] == id;
  }

  lemma SomeLeaseHolds(s: RateState, key: BucketId)
    requires SlotsConserved(s) && SlotsOut(s, key) > 0
    ensures exists id :: Holds(s, id, key)
  {
    assert ActiveAt(s, key) as real == Held(s, key);
    if forall id :: !Holds(s, id, key) {
      NothingHeld(s, s.order, key);
    }
  }

  lemma {:induction false} NothingHeld(s: RateState, order: seq<Id>, key: BucketId)
    requires forall id :: !Holds(s, id, key)
    ensures Sum(order, s.leases, HeldBy(key)) == 0.0
  {
    if order != [] {
      var id := order[|order| - 1];
      NothingHeld(s, order[..|order| - 1], key);
      if IsActive(s, id) {
        var items := s.leases[id].items;
        forall i | 0 <= i < |items| && items[i].key == key
          ensures items[i].concurrency == 0
        {
          assert !Holds(s, id, key);
        }
        NoSlots(items, key);
      }
    }
  }

  lemma {:induction false} NoSlots(items: seq<LeaseItem>, key: BucketId)
    requires forall i :: 0 <= i < |items| && items[i].key == key ==> items[i].concurrency == 0
    ensures Slots(items, key) == 0
  {
    if items != [] {
      NoSlots(items[..|items| - 1], key);
    }
  }

  // ----- buckets -------------------------------------------------------------------------------------

  /** Two matches share a bucket if and only if they are of one rule, and it is global or they are of one
      resource; a rule's id tells its scope. */
  lemma BucketsShared(a: Match, b: Match)
    requires a.rule.id == b.rule.id ==> a.rule.scope == b.rule.scope
    ensures BucketOf(a) == BucketOf(b) <==> a.rule.id == b.rule.id && (a.rule.scope == GlobalScope || a.resource == b.resource)
  {
    if a.rule.scope.PerResource? && b.rule.scope.PerResource? {
      assert ("resource:" + a.resource)[9..] == a.resource && ("resource:" + b.resource)[9..] == b.resource;
    }
  }
}
