/** Shared token buckets and concurrency leases as one atomic state machine. */
module RateLimits {
  import opened Prelude
  import opened Sums

  datatype BucketId = BucketId(rule: string, bucket: string)

  datatype TokenBucket = TokenBucket(tokens: real, lastRefill: Time, active: int)

  /** A rule's limits on one bucket: a rate comes with a burst, and there is a rate or a width. */
  datatype Limits = Limits(rps: Option<real>, burst: Option<real>, maxConcurrency: Option<nat>)

  datatype RateCheck = RateCheck(key: BucketId, requests: real, concurrency: nat, limits: Limits)

  datatype LeaseItem = LeaseItem(key: BucketId, concurrency: nat)

  datatype LeaseState = Active | Released | Expired

  datatype Lease = Lease(taskId: nat, items: seq<LeaseItem>, createdAt: Time, expiresAt: Time, state: LeaseState)

  datatype RateState = RateState(buckets: map<BucketId, TokenBucket>, order: seq<Id>, leases: map<Id, Lease>, nextId: Id)

  predicate LimitsValid(l: Limits) {
    && (l.rps.Some? <==> l.burst.Some?)
    && (l.rps.Some? ==> l.rps.value > 0.0 && l.burst.value > 0.0)
    && (l.maxConcurrency.Some? ==> l.maxConcurrency.value >= 1)
  }

  predicate CheckValid(c: RateCheck) {
    c.requests >= 0.0 && LimitsValid(c.limits)
  }

  predicate DistinctBuckets(checks: seq<RateCheck>) {
    forall i, j :: 0 <= i < j < |checks| ==> checks[i].key != checks[j].key
  }

  predicate Metered(l: Limits) {
    l.rps.Some? && l.burst.Some?
  }

  /** `_current_bucket`: the stored bucket refilled up to `now`, or a full one. */
  function Refilled(b: TokenBucket, l: Limits, now: Time): TokenBucket {
    if Metered(l)
    then TokenBucket(MinReal(l.burst.value, b.tokens + MaxReal(now - b.lastRefill, 0.0) * l.rps.value), now, b.active)
    else b
  }

  function Current(buckets: map<BucketId, TokenBucket>, c: RateCheck, now: Time): TokenBucket {
    if c.key in buckets then Refilled(buckets[c.key], c.limits, now)
    else TokenBucket(if c.limits.burst.Some? then c.limits.burst.value else 0.0, now, 0)
  }

  predicate WantsTokens(c: RateCheck) {
    c.requests > 0.0 && Metered(c.limits)
  }

  predicate WantsSlots(c: RateCheck) {
    c.concurrency > 0 && c.limits.maxConcurrency.Some?
  }

  /** No refill could ever satisfy the check. */
  predicate OverBurst(c: RateCheck) {
    WantsTokens(c) && c.requests > c.limits.burst.value + EPSILON
  }

  predicate ShortOfTokens(b: TokenBucket, c: RateCheck) {
    WantsTokens(c) && b.tokens + EPSILON < c.requests
  }

  predicate ShortOfSlots(b: TokenBucket, c: RateCheck) {
    WantsSlots(c) && b.active + c.concurrency > c.limits.maxConcurrency.value
  }

  function Taken(b: TokenBucket, c: RateCheck): TokenBucket {
    b.(tokens := if c.requests > 0.0 && c.limits.rps.Some? then b.tokens - c.requests else b.tokens,
       active := if WantsSlots(c) then b.active + c.concurrency else b.active)
  }

  // ----- how long to wait ----------------------------------------------------------------------

  predicate OccupiesBucket(l: Lease, key: BucketId) {
    l.state.Active? && exists i :: 0 <= i < |l.items| && l.items[i].key == key && l.items[i].concurrency > 0
  }

  function EarliestExpiry(order: seq<Id>, leases: map<Id, Lease>, key: BucketId): Option<Time> {
    if order == [] then None
    else
      var id, earlier := order[|order| - 1], EarliestExpiry(order[..|order| - 1], leases, key);
      if id in leases && OccupiesBucket(leases[id], key) then
        if earlier.Some? then Some(MinReal(earlier.value, leases[id].expiresAt)) else Some(leases[id].expiresAt)
      else earlier
  }

  const TICK: real := 0.001

  function SlotRetry(order: seq<Id>, leases: map<Id, Lease>, key: BucketId, now: Time): real {
    var earliest := EarliestExpiry(order, leases, key);
    if earliest.None? then TICK else MaxReal(earliest.value - now, TICK)
  }

  function TokenRetry(b: TokenBucket, c: RateCheck): real
    requires CheckValid(c)
  {
    if ShortOfTokens(b, c) then (c.requests - b.tokens) / c.limits.rps.value else 0.0
  }

  function RetryAfter(s: RateState, c: RateCheck, now: Time): real
    requires CheckValid(c)
  {
    var b := Current(s.buckets, c, now);
    MaxReal(TokenRetry(b, c), if ShortOfSlots(b, c) then SlotRetry(s.order, s.leases, c.key, now) else 0.0)
  }

  predicate Refuses(s: RateState, c: RateCheck, now: Time) {
    ShortOfTokens(Current(s.buckets, c, now), c) || ShortOfSlots(Current(s.buckets, c, now), c)
  }

  function LongestRetry(s: RateState, checks: seq<RateCheck>, now: Time): real
    requires forall i :: 0 <= i < |checks| ==> CheckValid(checks[i])
  {
    if checks == [] then 0.0
    else MaxReal(LongestRetry(s, checks[..|checks| - 1], now), RetryAfter(s, checks[|checks| - 1], now))
  }

  // ----- acquisition, all or nothing ------------------------------------------------------------

  /** Every bucket written with its own share; shares are computed from the buckets before. */
  function Written(buckets: map<BucketId, TokenBucket>, checks: seq<RateCheck>, now: Time): map<BucketId, TokenBucket> {
    if checks == [] then buckets
    else
      var c := checks[|checks| - 1];
      Written(buckets, checks[..|checks| - 1], now)[c.key := Taken(Current(buckets, c, now), c)]
  }

  function LeaseItems(checks: seq<RateCheck>): seq<LeaseItem> {
    if checks == [] then []
    else
      var c := checks[|checks| - 1];
      LeaseItems(checks[..|checks| - 1]) + (if WantsSlots(c) then [LeaseItem(c.key, c.concurrency)] else [])
  }

  datatype Outcome = Allow(lease: Option<Id>) | Defer(retryAfter: real)

  predicate Impossible(checks: seq<RateCheck>) {
    exists i :: 0 <= i < |checks| && OverBurst(checks[i])
  }

  predicate Refused(s: RateState, checks: seq<RateCheck>, now: Time) {
    exists i :: 0 <= i < |checks| && Refuses(s, checks[i], now)
  }

  predicate Grants(s: RateState, checks: seq<RateCheck>, now: Time) {
    !Impossible(checks) && !Refused(s, checks, now)
  }

  function Acquired(s: RateState, taskId: nat, checks: seq<RateCheck>, leaseFor: Time, now: Time): RateState {
    if !Grants(s, checks, now) then s
    else
      var items := LeaseItems(checks);
      var s' := s.(buckets := Written(s.buckets, checks, now));
      if items == [] then s'
      else s'.(order := s.order + [s.nextId], nextId := s.nextId + 1,
               leases := s.leases[s.nextId := Lease(taskId, items, now, now + leaseFor, Active)])
  }

  /** Slots that lease items hold in a bucket. */
  function Slots(items: seq<LeaseItem>, key: BucketId): nat {
    if items == [] then 0
    else Slots(items[..|items| - 1], key) + (if items[|items| - 1].key == key then items[|items| - 1].concurrency else 0)
  }

  function Vacated(buckets: map<BucketId, TokenBucket>, items: seq<LeaseItem>): map<BucketId, TokenBucket> {
    map key | key in buckets :: buckets[key].(active := buckets[key].active - Slots(items, key))
  }

  predicate IsActive(s: RateState, id: Id) {
    id in s.leases && s.leases[id].state.Active?
  }

  function Ended(s: RateState, id: Id, state: LeaseState): RateState {
    if !IsActive(s, id) then s
    else s.(buckets := Vacated(s.buckets, s.leases[id].items), leases := s.leases[id := s.leases[id].(state := state)])
  }

  function Renewed(s: RateState, id: Id, expiresAt: Time): RateState {
    if !IsActive(s, id) then s else s.(leases := s.leases[id := s.leases[id].(expiresAt := expiresAt)])
  }

  /** Expired leases end one after another, in the order they were granted. */
  function Reaped(s: RateState, now: Time, upTo: nat): RateState
    requires upTo <= |s.order|
  {
    if upTo == 0 then s
    else
      var s', id := Reaped(s, now, upTo - 1), s.order[upTo - 1];
      if id in s'.leases && s'.leases[id].expiresAt <= now then Ended(s', id, Expired) else s'
  }

  // ----- conservation of slots --------------------------------------------------------------------

  function HeldBy(key: BucketId): (Id, Lease) -> real {
    (_: Id, l: Lease) => if l.state.Active? then Slots(l.items, key) as real else 0.0
  }

  ghost function Held(s: RateState, key: BucketId): real { Sum(s.order, s.leases, HeldBy(key)) }

  function ActiveAt(s: RateState, key: BucketId): int {
    if key in s.buckets then s.buckets[key].active else 0
  }

  /** Every bucket's counter is the sum of what the ACTIVE leases hold in it. */
  ghost predicate SlotsConserved(s: RateState) {
    && Orders(s.order, s.leases)
    && (forall id :: id in s.leases ==> id < s.nextId)
    && (forall key :: ActiveAt(s, key) as real == Held(s, key))
  }

  lemma {:induction false} WrittenAt(buckets: map<BucketId, TokenBucket>, checks: seq<RateCheck>, now: Time, key: BucketId)
    requires DistinctBuckets(checks)
    ensures (forall i :: 0 <= i < |checks| ==> checks[i].key != key) ==>
      (key in Written(buckets, checks, now) <==> key in buckets)
      && (key in buckets ==> Written(buckets, checks, now)[key] == buckets[key])
    ensures forall i :: 0 <= i < |checks| && checks[i].key == key ==>
      key in Written(buckets, checks, now)
      && Written(buckets, checks, now)[key] == Taken(Current(buckets, checks[i], now), checks[i])
  {
    if checks != [] {
      WrittenAt(buckets, checks[..|checks| - 1], now, key);
    }
  }

  lemma {:induction false} ItemsAt(checks: seq<RateCheck>, key: BucketId)
    requires DistinctBuckets(checks)
    ensures (forall i :: 0 <= i < |checks| ==> checks[i].key != key) ==> Slots(LeaseItems(checks), key) == 0
    ensures forall i :: 0 <= i < |checks| && checks[i].key == key ==>
      Slots(LeaseItems(checks), key) == if WantsSlots(checks[i]) then checks[i].concurrency else 0
  {
    if checks != [] {
      var n, c := |checks| - 1, checks[|checks| - 1];
      ItemsAt(checks[..n], key);
      if WantsSlots(c) {
        assert LeaseItems(checks)[..|LeaseItems(checks)| - 1] == LeaseItems(checks[..n]);
      } else {
        assert LeaseItems(checks) == LeaseItems(checks[..n]);
      }
    }
  }

  lemma AcquireConserves(s: RateState, taskId: nat, checks: seq<RateCheck>, leaseFor: Time, now: Time)
    requires SlotsConserved(s) && DistinctBuckets(checks)
    ensures SlotsConserved(Acquired(s, taskId, checks, leaseFor, now))
  {
    if Grants(s, checks, now) {
      var items, s' := LeaseItems(checks), Acquired(s, taskId, checks, leaseFor, now);
      assert s.nextId !in s.order;
      forall key
        ensures ActiveAt(s', key) as real == Held(s', key)
      {
        WrittenAt(s.buckets, checks, now, key);
        ItemsAt(checks, key);
        assert ActiveAt(s', key) == ActiveAt(s, key) + Slots(items, key) by {
          if i :| 0 <= i < |checks| && checks[i].key == key {
            assert Current(s.buckets, checks[i], now).active == ActiveAt(s, key);
          }
        }
        if items != [] {
          SumAppend(s.order, s.leases, s.nextId, s'.leases[s.nextId], HeldBy(key));
        }
      }
    }
  }

  lemma EndConserves(s: RateState, id: Id, state: LeaseState)
    requires SlotsConserved(s) && !state.Active?
    ensures SlotsConserved(Ended(s, id, state))
    ensures Ended(s, id, state).order == s.order
  {
    if IsActive(s, id) {
      var s', lease := Ended(s, id, state), s.leases[id].(state := state);
      forall key
        ensures ActiveAt(s', key) as real == Held(s', key)
      {
        SumUpdate(s.order, s.leases, id, lease, HeldBy(key));
        ActiveLeaseFits(s, id, key);
      }
    }
  }

  /** A bucket has room to give back everything an ACTIVE lease holds: neither the missing-bucket
      nor the underflow error can occur on release. */
  lemma ActiveLeaseFits(s: RateState, id: Id, key: BucketId)
    requires SlotsConserved(s) && IsActive(s, id)
    ensures Slots(s.leases[id].items, key) <= ActiveAt(s, key)
    ensures Slots(s.leases[id].items, key) > 0 ==> key in s.buckets
  {
    SumUpdate(s.order, s.leases, id, s.leases[id].(state := Released), HeldBy(key));
    SumNonNegative(s.order, s.leases[id := s.leases[id].(state := Released)], HeldBy(key));
  }

  lemma LeaseItemsSnoc(checks: seq<RateCheck>, c: RateCheck)
    ensures LeaseItems(checks + [c]) == LeaseItems(checks) + (if WantsSlots(c) then [LeaseItem(c.key, c.concurrency)] else [])
  {
    assert (checks + [c])[..|checks|] == checks;
  }

  lemma SlotsSnoc(items: seq<LeaseItem>, item: LeaseItem, key: BucketId)
    ensures Slots(items + [item], key) == Slots(items, key) + (if item.key == key then item.concurrency else 0)
  {
    assert (items + [item])[..|items|] == items;
  }

  lemma TwiceHeld(c: RateCheck)
    requires WantsSlots(c)
    ensures LeaseItems([c, c]) == [LeaseItem(c.key, c.concurrency), LeaseItem(c.key, c.concurrency)]
    ensures Slots(LeaseItems([c, c]), c.key) == 2 * c.concurrency
  {
    var item := LeaseItem(c.key, c.concurrency);
    var none: seq<RateCheck>, nothing: seq<LeaseItem> := [], [];
    assert LeaseItems(none) == nothing && Slots(nothing, c.key) == 0;
    hide LeaseItems, Slots, WantsSlots;
    LeaseItemsSnoc(none, c);
    LeaseItemsSnoc(none + [c], c);
    assert none + [c] + [c] == [c, c];
    SlotsSnoc(nothing, item, c.key);
    SlotsSnoc(nothing + [item], item, c.key);
    assert nothing + [item] + [item] == [item, item];
  }

  lemma TakenOnce(c: RateCheck, now: Time)
    requires WantsSlots(c)
    ensures c.key in Written(map[], [c, c], now) && Written(map[], [c, c], now)[c.key].active == c.concurrency
  {
    assert [c, c][..1] == [c];
  }

  /** Checks that name a bucket twice break conservation: the lease holds two shares, the bucket
      counts one, and giving both back would underflow. */
  lemma DuplicateChecksLoseSlots(c: RateCheck, taskId: nat, leaseFor: Time, now: Time)
    requires CheckValid(c) && WantsSlots(c) && c.concurrency <= c.limits.maxConcurrency.value && c.requests == 0.0
    ensures var s := Acquired(RateState(map[], [], map[], 0), taskId, [c, c], leaseFor, now);
      && IsActive(s, 0)
      && ActiveAt(s, c.key) == c.concurrency
      && Slots(s.leases[0].items, c.key) == 2 * c.concurrency
      && !SlotsConserved(s)
  {
    var s0 := RateState(map[], [], map[], 0);
    TwiceHeld(c);
    TakenOnce(c, now);
    assert Grants(s0, [c, c], now);
    hide LeaseItems, Slots, Written, Grants, SlotsConserved;
    var s := Acquired(s0, taskId, [c, c], leaseFor, now);
    if SlotsConserved(s) {
      ActiveLeaseFits(s, 0, c.key);
    }
  }
}
