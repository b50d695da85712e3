/** The in-memory rate-limit store and the compilation of rules into its checks. */
module RateLimitStores {
  import opened Prelude
  import opened Sums
  import opened RateLimits
  import opened RateRuns

  datatype RateViolation = RateViolation(key: BucketId, tokenRetry: real, slotRetry: real, retryAfter: real)

  class InMemoryRateLimitStore {
    var buckets: map<BucketId, TokenBucket>
    var order: seq<Id>
    var leases: map<Id, Lease>
    var nextId: Id

    ghost function State(): RateState
      reads this
    {
      RateState(buckets, order, leases, nextId)
    }

    ghost predicate Valid()
      reads this
    {
      SlotsConserved(State())
    }

    constructor ()
      ensures Valid() && State() == RateState(map[], [], map[], 0)
    {
      buckets, order, leases, nextId := map[], [], map[], 0;
    }

    /** One check against its bucket as refilled: impossible, or how long to wait. */
    method RetryOf(check: RateCheck, now: Time) returns (possible: bool, bucket: TokenBucket, retry: real)
      requires CheckValid(check)
      ensures possible <==> !OverBurst(check)
      ensures bucket == Current(buckets, check, now)
      ensures possible ==> retry == RetryAfter(State(), check, now)
    {
      bucket := Current(buckets, check, now);
      var tokenRetry, slotRetry := 0.0, 0.0;
      possible, retry := true, 0.0;
      if check.requests > 0.0 && check.limits.rps.Some? && check.limits.burst.Some? {
        if check.requests > check.limits.burst.value + EPSILON {
          return false, bucket, 0.0;
        }
        if bucket.tokens + EPSILON < check.requests {
          tokenRetry := (check.requests - bucket.tokens) / check.limits.rps.value;
        }
      }
      if check.concurrency > 0 && check.limits.maxConcurrency.Some?
         && bucket.active + check.concurrency > check.limits.maxConcurrency.value {
        slotRetry := SlotRetry(order, leases, check.key, now);
      }
      retry := MaxReal(tokenRetry, slotRetry);
    }

    /** Every bucket grants its share, or nothing at all changes; a refusal reports the longest wait
        any bucket asks for, an impossible demand is an error. */
    method TryAcquire(taskId: nat, checks: seq<RateCheck>, leaseFor: Time, now: Time) returns (r: Result<Outcome>)
      requires Valid() && DistinctBuckets(checks)
      requires forall i :: 0 <= i < |checks| ==> CheckValid(checks[i])
      modifies this
      ensures Valid()
      ensures r.Err? <==> leaseFor <= 0.0 || Impossible(checks)
      ensures State() == if r.Err? then old(State()) else Acquired(old(State()), taskId, checks, leaseFor, now)
      ensures r.Ok? ==> (r.value.Allow? <==> Grants(old(State()), checks, now))
      ensures r.Ok? && r.value.Allow? ==>
        r.value.lease == if LeaseItems(checks) == [] then None else Some(old(nextId))
      ensures r.Ok? && r.value.Defer? ==>
        State() == old(State()) && r.value.retryAfter == LongestRetry(old(State()), checks, now) > 0.0
    {
      if leaseFor <= 0.0 {
        return Err(Rejected);
      }
      hide SlotsConserved, Impossible, Refused, Refuses, LongestRetry, Written, RetryAfter, Taken;
      ghost var s := State();
      var violated, retryAfter := false, 0.0;
      var projected := buckets;
      NothingAsked(s, checks[..0], now);
      for k := 0 to |checks|
        invariant State() == s && !Impossible(checks[..k])
        invariant violated <==> Refused(s, checks[..k], now)
        invariant retryAfter == LongestRetry(s, checks[..k], now) >= 0.0
        invariant violated <==> retryAfter > 0.0
        invariant !violated ==> projected == Written(buckets, checks[..k], now)
      {
        var check := checks[k];
        SplitLast(s, checks, k, now);
        var possible, bucket, retry := RetryOf(check, now);
        if !possible {
          SomeOverBurst(checks, k);
          return Err(Rejected);
        }
        RetryIffRefused(s, check, now);
        if retry > 0.0 {
          violated, retryAfter := true, MaxReal(retryAfter, retry);
        } else {
          projected := projected[check.key := Taken(bucket, check)];
        }
      }
      assert checks[..|checks|] == checks;
      if violated {
        return Ok(Defer(retryAfter));
      }
      var lease := Grant(taskId, checks, projected, leaseFor, now);
      r := Ok(Allow(lease));
    }

    /** Writes all buckets at once and opens the lease, if any slot was taken. */
    method Grant(taskId: nat, checks: seq<RateCheck>, projected: map<BucketId, TokenBucket>, leaseFor: Time, now: Time)
      returns (lease: Option<Id>)
      requires Valid() && DistinctBuckets(checks) && Grants(State(), checks, now)
      requires projected == Written(buckets, checks, now)
      modifies this
      ensures Valid() && State() == Acquired(old(State()), taskId, checks, leaseFor, now)
      ensures lease == if LeaseItems(checks) == [] then None else Some(old(nextId))
    {
      hide SlotsConserved, Written, Grants, LeaseItems;
      AcquireConserves(State(), taskId, checks, leaseFor, now);
      buckets := projected;
      var items := LeaseItems(checks);
      lease := None;
      if items != [] {
        lease := Some(nextId);
        leases := leases[nextId := Lease(taskId, items, now, now + leaseFor, Active)];
        order, nextId := order + [nextId], nextId + 1;
      }
    }

    /** `_release_lease_items`: gives back what an ACTIVE lease holds, bucket by bucket. */
    method ReleaseItems(items: seq<LeaseItem>)
      requires forall key :: Slots(items, key) > 0 ==> key in buckets
      requires forall key :: Slots(items, key) <= (if key in buckets then buckets[key].active else 0)
      modifies this`buckets
      ensures buckets == Vacated(old(buckets), items)
    {
      ghost var before := buckets;
      for k := 0 to |items|
        invariant buckets == Vacated(before, items[..k])
      {
        var item := items[k];
        assert items[..k + 1][..k] == items[..k];
        if item.concurrency != 0 {
          SlotsGrow(items, k, item.key);
          buckets := buckets[item.key := buckets[item.key].(active := buckets[item.key].active - item.concurrency)];
        }
      }
      assert items[..|items|] == items;
    }

    method End(id: Id, state: LeaseState)
      requires Valid() && IsActive(State(), id) && !state.Active?
      modifies this`buckets, this`leases
      ensures Valid() && State() == Ended(old(State()), id, state)
    {
      ghost var s := State();
      forall key
        ensures Slots(leases[id].items, key) <= ActiveAt(s, key)
        ensures Slots(leases[id].items, key) > 0 ==> key in buckets
      {
        ActiveLeaseFits(s, id, key);
      }
      ReleaseItems(leases[id].items);
      leases := leases[id := leases[id].(state := state)];
      EndConserves(s, id, state);
    }

    /** Slots come back; tokens stay spent. */
    method Release(id: Id) returns (r: Result<Lease>)
      requires Valid()
      modifies this`buckets, this`leases
      ensures Valid() && State() == Ended(old(State()), id, Released)
      ensures r == if id !in old(leases) then Err(UnknownId)
                   else if !old(leases)[id].state.Active? then Err(Rejected)
                   else Ok(old(leases)[id].(state := Released))
    {
      if id !in leases {
        return Err(UnknownId);
      }
      if !leases[id].state.Active? {
        return Err(Rejected);
      }
      End(id, Released);
      r := Ok(leases[id]);
    }

    method Renew(id: Id, expiresAt: Time, now: Time) returns (r: Result<Lease>)
      requires Valid()
      modifies this`leases
      ensures Valid()
      ensures r.Ok? <==> IsActive(old(State()), id) && expiresAt > now
      ensures State() == if r.Ok? then Renewed(old(State()), id, expiresAt) else old(State())
    {
      if id !in leases {
        return Err(UnknownId);
      }
      if !leases[id].state.Active? || expiresAt <= now {
        return Err(Rejected);
      }
      ghost var s := State();
      leases := leases[id := leases[id].(expiresAt := expiresAt)];
      RenewConserves(s, id, expiresAt);
      r := Ok(leases[id]);
    }

    method ReapExpired(now: Time) returns (expired: seq<Id>)
      requires Valid()
      modifies this`buckets, this`leases
      ensures Valid() && State() == Reaped(old(State()), now, |old(order)|)
      ensures forall id :: id in expired ==> IsActive(old(State()), id) && old(leases)[id].expiresAt <= now
      ensures forall id :: IsActive(State(), id) ==> leases[id].expiresAt > now
    {
      hide Reaped, Ended;
      expired := [];
      ghost var s := State();
      ReapedNone(s, now);
      for k := 0 to |order|
        invariant order == s.order && Valid() && State() == Reaped(s, now, k)
        invariant forall id :: id in expired ==> IsActive(s, id) && s.leases[id].expiresAt <= now
      {
        ReapedLeases(s, now, k);
        ReapedStep(s, now, k);
        var id := order[k];
        if leases[id].state.Active? && leases[id].expiresAt <= now {
          End(id, Expired);
          expired := expired + [id];
        }
      }
      ReapedLeases(s, now, |order|);
    }
  }

  lemma ReapedNone(s: RateState, now: Time)
    ensures Reaped(s, now, 0) == s
  {
  }

  lemma ReapedStep(s: RateState, now: Time, k: nat)
    requires Orders(s.order, s.leases) && k < |s.order|
    ensures var s', id := Reaped(s, now, k), s.order[k];
      && id in s'.leases
      && Reaped(s, now, k + 1) ==
         if s'.leases[id].state.Active? && s'.leases[id].expiresAt <= now then Ended(s', id, Expired) else s'
  {
    ReapedLeases(s, now, k);
  }

  /** Of the first `upTo` leases the overdue ones are EXPIRED; every other lease is as it was. */
  lemma {:induction false} ReapedLeases(s: RateState, now: Time, upTo: nat)
    requires Orders(s.order, s.leases) && upTo <= |s.order|
    ensures var s' := Reaped(s, now, upTo);
      && s'.order == s.order && s'.leases.Keys == s.leases.Keys
      && (forall i :: 0 <= i < upTo ==>
            s'.leases[s.order[i]] == if IsActive(s, s.order[i]) && s.leases[s.order[i]].expiresAt <= now
                                     then s.leases[s.order[i]].(state := Expired) else s.leases[s.order[i]])
      && (forall i :: upTo <= i < |s.order| ==> s'.leases[s.order[i]] == s.leases[s.order[i]])
  {
    if upTo > 0 {
      var before, id := Reaped(s, now, upTo - 1), s.order[upTo - 1];
      ReapedLeases(s, now, upTo - 1);
      EndedLeases(before, id);
      hide Ended;
    }
  }

  lemma EndedLeases(s: RateState, id: Id)
    requires id in s.leases
    ensures var s' := Ended(s, id, Expired);
      s'.order == s.order && s'.leases == s.leases[id := if IsActive(s, id) then s.leases[id].(state := Expired) else s.leases[id]]
  {
    hide Vacated;
  }

  lemma NothingAsked(s: RateState, none: seq<RateCheck>, now: Time)
    requires none == []
    ensures !Impossible(none) && !Refused(s, none, now) && LongestRetry(s, none, now) == 0.0
    ensures Written(s.buckets, none, now) == s.buckets
  {
  }

  lemma SomeOverBurst(checks: seq<RateCheck>, k: nat)
    requires k < |checks| && OverBurst(checks[k])
    ensures Impossible(checks)
  {
  }

  lemma RetryIffRefused(s: RateState, c: RateCheck, now: Time)
    requires CheckValid(c)
    ensures RetryAfter(s, c, now) >= 0.0
    ensures RetryAfter(s, c, now) > 0.0 <==> Refuses(s, c, now)
  {
    var b := Current(s.buckets, c, now);
    if ShortOfTokens(b, c) {
      DivideIff(0.0, c.requests - b.tokens, c.limits.rps.value);
    }
  }

  lemma SplitLast(s: RateState, checks: seq<RateCheck>, k: nat, now: Time)
    requires k < |checks| && forall i :: 0 <= i < |checks| ==> CheckValid(checks[i])
    ensures Refused(s, checks[..k + 1], now) <==> Refused(s, checks[..k], now) || Refuses(s, checks[k], now)
    ensures LongestRetry(s, checks[..k + 1], now) == MaxReal(LongestRetry(s, checks[..k], now), RetryAfter(s, checks[k], now))
    ensures Impossible(checks[..k + 1]) <==> Impossible(checks[..k]) || OverBurst(checks[k])
    ensures Written(s.buckets, checks[..k + 1], now)
         == Written(s.buckets, checks[..k], now)[checks[k].key := Taken(Current(s.buckets, checks[k], now), checks[k])]
  {
    var a, b := checks[..k], checks[..k + 1];
    assert b[..k] == a && b[k] == checks[k];
    if Refused(s, a, now) {
      var i :| 0 <= i < |a| && Refuses(s, a[i], now);
      assert b[i] == a[i];
    }
    if Impossible(a) {
      var i :| 0 <= i < |a| && OverBurst(a[i]);
      assert b[i] == a[i];
    }
    if Refuses(s, checks[k], now) {
      assert Refuses(s, b[k], now);
    }
    if OverBurst(checks[k]) {
      assert OverBurst(b[k]);
    }
  }

  /** The slots given back up to and including item `k` are part of all of them. */
  lemma {:induction false} SlotsGrow(items: seq<LeaseItem>, k: nat, key: BucketId)
    requires k < |items|
    ensures Slots(items[..k + 1], key) <= Slots(items, key)
    ensures Slots(items[..k + 1], key) == Slots(items[..k], key) + (if items[k].key == key then items[k].concurrency else 0)
    decreases |items|
  {
    assert items[..k + 1][..k] == items[..k];
    if k + 1 == |items| {
      assert items[..k + 1] == items;
    } else {
      assert items[..|items| - 1][..k + 1] == items[..k + 1];
      assert items[..|items| - 1][..k] == items[..k];
      SlotsGrow(items[..|items| - 1], k, key);
    }
  }

  // ----- rules --------------------------------------------------------------------------------------

  datatype Scope = GlobalScope | PerResource

  datatype Rule = Rule(id: string, scope: Scope, limits: Limits)

  /** A rule that matched, with the concrete resource for a per-resource one. */
  datatype Match = Match(rule: Rule, resource: string)

  function BucketOf(m: Match): BucketId {
    BucketId(m.rule.id, if m.rule.scope.GlobalScope? then "global" else "resource:" + m.resource)
  }

  /** `_compile_checks`: one check a bucket, however often the bucket matched, and every matched
      bucket is checked under its rule's limits. */
  method CompileChecks(matches: seq<Match>, requests: real, concurrency: nat, ghost rules: map<string, Limits>)
    returns (checks: seq<RateCheck>)
    requires requests >= 0.0
    requires forall m :: m in matches ==> Configured(rules, m)
    ensures FollowsRules(rules, checks)
    ensures forall c :: c in checks ==> c.requests == requests && c.concurrency == concurrency && Matched(matches, c.key)
    ensures forall m :: m in matches ==> Covered(checks, BucketOf(m))
  {
    hide Matched, Covered, FollowsRules, BucketOf, Configured;
    checks := [];
    NothingToFollow(rules);
    for k := 0 to |matches|
      invariant FollowsRules(rules, checks)
      invariant forall c :: c in checks ==> c.requests == requests && c.concurrency == concurrency && Matched(matches, c.key)
      invariant forall j :: 0 <= j < k ==> Covered(checks, BucketOf(matches[j]))
    {
      var m := matches[k];
      if !Covered(checks, BucketOf(m)) {
        var check := RateCheck(BucketOf(m), requests, concurrency, m.rule.limits);
        CoveredSnoc(checks, check);
        FollowsSnoc(rules, checks, m, check);
        BucketIsMatched(matches, m);
        checks := checks + [check];
      }
    }
  }

  predicate Configured(rules: map<string, Limits>, m: Match) {
    LimitsValid(m.rule.limits) && m.rule.id in rules && rules[m.rule.id] == m.rule.limits
  }

  ghost predicate Matched(matches: seq<Match>, key: BucketId) {
    exists m :: m in matches && key == BucketOf(m)
  }

  lemma BucketIsMatched(matches: seq<Match>, m: Match)
    requires m in matches
    ensures Matched(matches, BucketOf(m))
  {
  }

  lemma NothingToFollow(rules: map<string, Limits>)
    ensures FollowsRules(rules, [])
  {
  }

  lemma FollowsSnoc(rules: map<string, Limits>, checks: seq<RateCheck>, m: Match, check: RateCheck)
    requires FollowsRules(rules, checks) && Configured(rules, m) && !Covered(checks, check.key)
    requires check.key == BucketOf(m) && check.limits == m.rule.limits && check.requests >= 0.0
    ensures FollowsRules(rules, checks + [check])
  {
    hide LimitsValid;
  }

  predicate Covered(checks: seq<RateCheck>, key: BucketId) {
    exists i :: 0 <= i < |checks| && checks[i].key == key
  }

  lemma CoveredSnoc(checks: seq<RateCheck>, check: RateCheck)
    ensures forall key :: Covered(checks + [check], key) <==> Covered(checks, key) || key == check.key
  {
    var all := checks + [check];
    assert all[|checks|] == check && forall i :: 0 <= i < |checks| ==> all[i] == checks[i];
    forall key
      ensures Covered(all, key) <==> Covered(checks, key) || key == check.key
    {
      if Covered(checks, key) {
        var i :| 0 <= i < |checks| && checks[i].key == key;
        assert all[i].key == key;
      }
    }
  }
}
