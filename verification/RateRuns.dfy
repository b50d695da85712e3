/** Rate-limit runs: how much a bucket grants in a window, how many slots it has out, and how exact
    a reported waiting time is. */
module RateRuns {
  import opened Prelude
  import opened Sums
  import opened RateLimits

  datatype RateStep =
    | Acquire(taskId: nat, checks: seq<RateCheck>, leaseFor: Time, now: Time)
    | Release(id: Id, now: Time)
    | Renew(id: Id, expiresAt: Time, now: Time)
    | Reap(now: Time)

  function Next(s: RateState, step: RateStep): RateState {
    match step
    case Acquire(taskId, checks, leaseFor, now) => Acquired(s, taskId, checks, leaseFor, now)
    case Release(id, _) => Ended(s, id, Released)
    case Renew(id, expiresAt, _) => Renewed(s, id, expiresAt)
    case Reap(now) => Reaped(s, now, |s.order|)
  }

  function Run(s: RateState, steps: seq<RateStep>): RateState
    decreases |steps|
  {
    if steps == [] then s else Run(Next(s, steps[0]), steps[1..])
  }

  /** Checks as `_compile_checks` makes them: one a bucket, with the limits of the bucket's rule. */
  predicate FollowsRules(rules: map<string, Limits>, checks: seq<RateCheck>) {
    && DistinctBuckets(checks)
    && forall i :: 0 <= i < |checks| ==>
         CheckValid(checks[i]) && checks[i].key.rule in rules && rules[checks[i].key.rule] == checks[i].limits
  }

  predicate StepsFollow(rules: map<string, Limits>, steps: seq<RateStep>) {
    forall i :: 0 <= i < |steps| && steps[i].Acquire? ==> FollowsRules(rules, steps[i].checks)
  }

  /** The clock never runs backwards, from `from` on. */
  predicate Chronological(steps: seq<RateStep>, from: Time) {
    && (forall i :: 0 <= i < |steps| ==> from <= steps[i].now)
    && (forall i, j :: 0 <= i < j < |steps| ==> steps[i].now <= steps[j].now)
  }

  // ----- the token bucket bound -------------------------------------------------------------------

  /** The tokens an acquisition asks of one bucket. */
  function Asked(checks: seq<RateCheck>, key: BucketId): real {
    if checks == [] then 0.0
    else
      var c := checks[|checks| - 1];
      Asked(checks[..|checks| - 1], key) + (if c.key == key then c.requests else 0.0)
  }

  /** The tokens that ALLOW decisions of a run hand out of one bucket within [from, to]. */
  function Granted(s: RateState, steps: seq<RateStep>, key: BucketId, from: Time, to: Time): real
    decreases |steps|
  {
    if steps == [] then 0.0
    else
      var step := steps[0];
      (if step.Acquire? && Grants(s, step.checks, step.now) && from <= step.now <= to then Asked(step.checks, key) else 0.0)
      + Granted(Next(s, step), steps[1..], key, from, to)
  }

  /** What a metered bucket would hold at `now`. */
  function Level(s: RateState, key: BucketId, l: Limits, now: Time): real
    requires Metered(l)
  {
    if key in s.buckets then Refilled(s.buckets[key], l, now).tokens else l.burst.value
  }

  /** The bucket is overdrawn by at most the tolerance. */
  predicate Funded(s: RateState, key: BucketId) {
    key in s.buckets ==> s.buckets[key].tokens >= -EPSILON
  }

  /** And it was last written no later than `now`. */
  predicate BucketSound(s: RateState, key: BucketId, now: Time) {
    Funded(s, key) && (key in s.buckets ==> s.buckets[key].lastRefill <= now)
  }

  function Flow(rate: real, duration: Time): real { rate * duration }

  lemma FlowAdds(rate: real, a: Time, b: Time)
    ensures Flow(rate, a) + Flow(rate, b) == Flow(rate, a + b)
    ensures rate > 0.0 && a >= 0.0 ==> Flow(rate, a) >= 0.0
  {
  }

  /** Refilling in two steps is refilling in one: reading a bucket early costs nothing. */
  lemma LazyRefillIsEager(b: TokenBucket, l: Limits, t: Time, u: Time)
    requires LimitsValid(l) && Metered(l) && b.lastRefill <= t <= u
    ensures Refilled(Refilled(b, l, t), l, u) == Refilled(b, l, u)
  {
    var r := l.rps.value;
    assert (t - b.lastRefill) * r + (u - t) * r == (u - b.lastRefill) * r;
    assert (u - t) * r >= 0.0;
  }

  lemma LevelIsFunded(s: RateState, key: BucketId, l: Limits, now: Time)
    requires LimitsValid(l) && Metered(l) && Funded(s, key)
    ensures -EPSILON <= Level(s, key, l, now) <= l.burst.value
  {
    if key in s.buckets {
      FlowAdds(l.rps.value, MaxReal(now - s.buckets[key].lastRefill, 0.0), 0.0);
    }
  }

  /** A level grows at most at the rate. */
  lemma LevelGrowsAtRate(s: RateState, key: BucketId, l: Limits, t: Time, u: Time)
    requires LimitsValid(l) && Metered(l) && BucketSound(s, key, t) && t <= u
    ensures -EPSILON <= Level(s, key, l, t) <= Level(s, key, l, u) <= Level(s, key, l, t) + Flow(l.rps.value, u - t)
    ensures Level(s, key, l, u) <= l.burst.value
  {
    var r := l.rps.value;
    FlowAdds(r, u - t, 0.0);
    if key in s.buckets {
      var b := s.buckets[key];
      FlowAdds(r, t - b.lastRefill, u - t);
      assert (u - b.lastRefill) * r == Flow(r, u - b.lastRefill);
      assert (t - b.lastRefill) * r == Flow(r, t - b.lastRefill);
    }
  }

  lemma {:induction false} AskedOnce(checks: seq<RateCheck>, key: BucketId)
    requires DistinctBuckets(checks)
    ensures (forall i :: 0 <= i < |checks| ==> checks[i].key != key) ==> Asked(checks, key) == 0.0
    ensures forall i :: 0 <= i < |checks| && checks[i].key == key ==> Asked(checks, key) == checks[i].requests
  {
    if checks != [] {
      AskedOnce(checks[..|checks| - 1], key);
    }
  }

  lemma RefillNow(b: TokenBucket, l: Limits, now: Time)
    requires LimitsValid(l) && Metered(l) && b.lastRefill == now && b.tokens <= l.burst.value
    ensures Refilled(b, l, now).tokens == b.tokens
  {
  }

  lemma TakenLevel(s: RateState, c: RateCheck, now: Time)
    requires CheckValid(c) && Metered(c.limits) && Funded(s, c.key) && !OverBurst(c) && !Refuses(s, c, now)
    ensures var b := Taken(Current(s.buckets, c, now), c);
      && b.lastRefill == now && b.tokens == Level(s, c.key, c.limits, now) - c.requests
      && -EPSILON <= b.tokens && Refilled(b, c.limits, now).tokens == b.tokens
  {
    LevelIsFunded(s, c.key, c.limits, now);
    RefillNow(Taken(Current(s.buckets, c, now), c), c.limits, now);
  }

  /** An acquisition takes from the level exactly what it hands out. */
  lemma AcquireSpendsLevel(rules: map<string, Limits>, s: RateState, step: RateStep, key: BucketId)
    requires step.Acquire? && FollowsRules(rules, step.checks) && Grants(s, step.checks, step.now)
    requires key.rule in rules && LimitsValid(rules[key.rule]) && Metered(rules[key.rule]) && Funded(s, key)
    ensures Funded(Next(s, step), key) && (BucketSound(s, key, step.now) ==> BucketSound(Next(s, step), key, step.now))
    ensures Level(Next(s, step), key, rules[key.rule], step.now)
         == Level(s, key, rules[key.rule], step.now) - Asked(step.checks, key)
    ensures Asked(step.checks, key) >= 0.0
  {
    hide Refilled, Written, Taken, Current, Asked, LeaseItems;
    var l, now, checks := rules[key.rule], step.now, step.checks;
    WrittenAt(s.buckets, checks, now, key);
    AskedOnce(checks, key);
    LevelIsFunded(s, key, l, now);
    if i :| 0 <= i < |checks| && checks[i].key == key {
      assert !Refuses(s, checks[i], now) && !OverBurst(checks[i]);
      TakenLevel(s, checks[i], now);
    }
  }

  lemma {:induction false} ReapKeepsTokens(s: RateState, now: Time, upTo: nat, key: BucketId)
    requires upTo <= |s.order|
    ensures var s' := Reaped(s, now, upTo);
      && (key in s'.buckets <==> key in s.buckets)
      && (key in s.buckets ==> s'.buckets[key] == s.buckets[key].(active := s'.buckets[key].active))
  {
    if upTo > 0 {
      ReapKeepsTokens(s, now, upTo - 1, key);
    }
  }

  lemma OtherStepsKeepLevel(s: RateState, step: RateStep, key: BucketId, l: Limits, now: Time)
    requires Metered(l) && (step.Acquire? ==> !Grants(s, step.checks, step.now))
    ensures Level(Next(s, step), key, l, now) == Level(s, key, l, now)
    ensures BucketSound(Next(s, step), key, now) == BucketSound(s, key, now) && Funded(Next(s, step), key) == Funded(s, key)
  {
    hide Refilled, Written, Grants, LeaseItems, Reaped, Slots;
    if step.Reap? {
      ReapKeepsTokens(s, step.now, |s.order|, key);
    }
    if key in s.buckets {
      var slots := Next(s, step).buckets[key].active;
      assert Next(s, step).buckets[key] == s.buckets[key].(active := slots);
      RefillIgnoresSlots(s.buckets[key], slots, l, now);
    }
  }

  lemma RefillIgnoresSlots(b: TokenBucket, slots: int, l: Limits, now: Time)
    ensures Refilled(b.(active := slots), l, now).tokens == Refilled(b, l, now).tokens
  {
  }

  /** From any level, a run up to `to` hands out no more than the level plus the inflow. */
  lemma {:induction false} GrantedWithinLevel(rules: map<string, Limits>, s: RateState, steps: seq<RateStep>, key: BucketId,
                                              from: Time, now: Time, to: Time)
    requires StepsFollow(rules, steps) && Chronological(steps, now) && from <= now <= to
    requires key.rule in rules && LimitsValid(rules[key.rule]) && Metered(rules[key.rule]) && BucketSound(s, key, now)
    ensures Granted(s, steps, key, from, to)
         <= Level(s, key, rules[key.rule], now) + Flow(rules[key.rule].rps.value, to - now) + EPSILON
    decreases |steps|
  {
    var l := rules[key.rule];
    LevelGrowsAtRate(s, key, l, now, now);
    FlowAdds(l.rps.value, to - now, 0.0);
    if steps != [] {
      var step := steps[0];
      var s' := Next(s, step);
      if step.now > to {
        NothingAfter(s, steps, key, from, to);
      } else {
        LevelGrowsAtRate(s, key, l, now, step.now);
        FlowAdds(l.rps.value, step.now - now, to - step.now);
        if step.Acquire? && Grants(s, step.checks, step.now) {
          AcquireSpendsLevel(rules, s, step, key);
        } else {
          OtherStepsKeepLevel(s, step, key, l, step.now);
        }
        GrantedWithinLevel(rules, s', steps[1..], key, from, step.now, to);
      }
    }
  }

  lemma {:induction false} NothingAfter(s: RateState, steps: seq<RateStep>, key: BucketId, from: Time, to: Time)
    requires forall i :: 0 <= i < |steps| ==> steps[i].now > to
    ensures Granted(s, steps, key, from, to) == 0.0
    decreases |steps|
  {
    if steps != [] {
      NothingAfter(Next(s, steps[0]), steps[1..], key, from, to);
    }
  }

  /** In any window a bucket of rate r and burst b hands out at most b + r * length, whatever mix of
      acquisitions over several buckets, refusals, releases, renewals and expiries surrounds it. */
  lemma {:induction false} TokenBucketBound(rules: map<string, Limits>, s: RateState, steps: seq<RateStep>, key: BucketId,
                                            start: Time, from: Time, to: Time)
    requires StepsFollow(rules, steps) && Chronological(steps, start) && from <= to
    requires key.rule in rules && LimitsValid(rules[key.rule]) && Metered(rules[key.rule]) && BucketSound(s, key, start)
    ensures Granted(s, steps, key, from, to)
         <= rules[key.rule].burst.value + Flow(rules[key.rule].rps.value, to - from) + EPSILON
    decreases |steps|
  {
    var l := rules[key.rule];
    FlowAdds(l.rps.value, to - from, 0.0);
    if steps != [] {
      var step, now := steps[0], steps[0].now;
      LevelGrowsAtRate(s, key, l, start, now);
      if now > to {
        NothingAfter(s, steps, key, from, to);
      } else if from <= now {
        GrantedWithinLevel(rules, s, steps, key, from, now, to);
        FlowAdds(l.rps.value, now - from, to - now);
      } else {
        assert BucketSound(s, key, now);
        if step.Acquire? && Grants(s, step.checks, now) {
          AcquireSpendsLevel(rules, s, step, key);
        } else {
          OtherStepsKeepLevel(s, step, key, l, now);
        }
        TokenBucketBound(rules, Next(s, step), steps[1..], key, now, from, to);
      }
    }
  }

  // ----- slots --------------------------------------------------------------------------------------

  predicate WithinWidth(rules: map<string, Limits>, s: RateState) {
    forall key :: key in s.buckets && key.rule in rules && rules[key.rule].maxConcurrency.Some? ==>
      s.buckets[key].active <= rules[key.rule].maxConcurrency.value
  }

  lemma {:induction false} ReapConserves(s: RateState, now: Time, upTo: nat)
    requires SlotsConserved(s) && upTo <= |s.order|
    ensures SlotsConserved(Reaped(s, now, upTo)) && Reaped(s, now, upTo).order == s.order
    ensures forall key :: key in Reaped(s, now, upTo).buckets ==>
      key in s.buckets && Reaped(s, now, upTo).buckets[key].active <= s.buckets[key].active
  {
    if upTo > 0 {
      ReapConserves(s, now, upTo - 1);
      EndConserves(Reaped(s, now, upTo - 1), s.order[upTo - 1], Expired);
    }
  }

  lemma RenewConserves(s: RateState, id: Id, expiresAt: Time)
    requires SlotsConserved(s)
    ensures SlotsConserved(Renewed(s, id, expiresAt))
  {
    forall key
      ensures Held(Renewed(s, id, expiresAt), key) == Held(s, key)
    {
      SumFrame(s.order, s.leases, Renewed(s, id, expiresAt).leases, HeldBy(key));
    }
  }

  lemma AcquireKeepsWidth(rules: map<string, Limits>, s: RateState, step: RateStep)
    requires step.Acquire? && FollowsRules(rules, step.checks) && WithinWidth(rules, s)
    ensures WithinWidth(rules, Next(s, step))
  {
    var s' := Next(s, step);
    if Grants(s, step.checks, step.now) {
      forall key | key in s'.buckets && key.rule in rules && rules[key.rule].maxConcurrency.Some?
        ensures s'.buckets[key].active <= rules[key.rule].maxConcurrency.value
      {
        WrittenAt(s.buckets, step.checks, step.now, key);
        if i :| 0 <= i < |step.checks| && step.checks[i].key == key {
          assert !Refuses(s, step.checks[i], step.now);
        }
      }
    }
  }

  /** Over any run each bucket's counter is what the ACTIVE leases hold in it, and never passes the
      width of its rule. */
  lemma {:induction false} SlotsConservedOverRuns(rules: map<string, Limits>, s: RateState, steps: seq<RateStep>)
    requires StepsFollow(rules, steps) && SlotsConserved(s) && WithinWidth(rules, s)
    ensures SlotsConserved(Run(s, steps)) && WithinWidth(rules, Run(s, steps))
    decreases |steps|
  {
    if steps != [] {
      var step := steps[0];
      match step {
        case Acquire(taskId, checks, leaseFor, now) =>
          AcquireConserves(s, taskId, checks, leaseFor, now);
          AcquireKeepsWidth(rules, s, step);
        case Release(id, _) => EndConserves(s, id, Released);
        case Renew(id, expiresAt, _) => RenewConserves(s, id, expiresAt);
        case Reap(now) => ReapConserves(s, now, |s.order|);
      }
      SlotsConservedOverRuns(rules, Next(s, step), steps[1..]);
    }
  }

  // ----- how exact a waiting time is ------------------------------------------------------------------

  /** Left alone, a check short of tokens now is short at a later time exactly until its reported
      waiting time, give or take what the tolerance is worth at its rate. */
  lemma ShortUntilRetry(s: RateState, c: RateCheck, now: Time, later: Time)
    requires CheckValid(c) && !OverBurst(c) && BucketSound(s, c.key, now) && now <= later
    requires ShortOfTokens(Current(s.buckets, c, now), c)
    ensures ShortOfTokens(Current(s.buckets, c, later), c)
       <==> later < now + TokenRetry(Current(s.buckets, c, now), c) - EPSILON / c.limits.rps.value
  {
    var r, b := c.limits.rps.value, c.limits.burst.value;
    var level := Current(s.buckets, c, now).tokens;
    if c.key in s.buckets {
      LazyRefillIsEager(s.buckets[c.key], c.limits, now, later);
    }
    var missing := c.requests - level;
    assert Current(s.buckets, c, later).tokens == MinReal(b, level + (later - now) * r);
    DivideIff(later - now, missing - EPSILON, r);
    assert (missing - EPSILON) / r == missing / r - EPSILON / r;
  }

  lemma DivideIff(x: real, y: real, r: real)
    requires r > 0.0
    ensures x * r < y <==> x < y / r
  {
    var q := y / r;
    assert q * r == y;
    if x < q {
      TimesStrict(x, q, r);
    } else {
      TimesStrict(q, x, r);
    }
  }

  lemma TimesStrict(a: real, b: real, r: real)
    requires r > 0.0 && a <= b
    ensures a * r <= b * r
    ensures a < b ==> a * r < b * r
  {
  }

  /** A check with tokens enough keeps enough while nobody else takes any. */
  lemma EnoughStaysEnough(s: RateState, c: RateCheck, now: Time, later: Time)
    requires CheckValid(c) && BucketSound(s, c.key, now) && now <= later
    requires !ShortOfTokens(Current(s.buckets, c, now), c)
    ensures !ShortOfTokens(Current(s.buckets, c, later), c) || OverBurst(c)
  {
    if WantsTokens(c) && c.key in s.buckets {
      LevelGrowsAtRate(s, c.key, c.limits, now, later);
    }
  }

  lemma {:induction false} RetryWithinLongest(s: RateState, checks: seq<RateCheck>, now: Time, k: nat)
    requires (forall i :: 0 <= i < |checks| ==> CheckValid(checks[i])) && k < |checks|
    ensures RetryAfter(s, checks[k], now) <= LongestRetry(s, checks, now)
  {
    if k < |checks| - 1 {
      RetryWithinLongest(s, checks[..|checks| - 1], now, k);
    }
  }

  /** After the wait reported for a whole acquisition, no bucket refuses it for tokens; before it,
      some bucket does for as long as its own wait, less the tolerance, is not over. */
  lemma RetryAfterIsExact(s: RateState, checks: seq<RateCheck>, now: Time, later: Time)
    requires forall i :: 0 <= i < |checks| ==> CheckValid(checks[i]) && BucketSound(s, checks[i].key, now)
    requires !Impossible(checks) && now <= later
    ensures later >= now + LongestRetry(s, checks, now) ==>
      forall i :: 0 <= i < |checks| ==> !ShortOfTokens(Current(s.buckets, checks[i], later), checks[i])
    ensures (exists i :: 0 <= i < |checks| && ShortOfTokens(Current(s.buckets, checks[i], later), checks[i]))
       <==> (exists i :: 0 <= i < |checks| && ShortOfTokens(Current(s.buckets, checks[i], now), checks[i])
              && later < now + TokenRetry(Current(s.buckets, checks[i], now), checks[i]) - EPSILON / checks[i].limits.rps.value)
  {
    forall i | 0 <= i < |checks|
      ensures ShortOfTokens(Current(s.buckets, checks[i], later), checks[i])
         <==> (ShortOfTokens(Current(s.buckets, checks[i], now), checks[i])
               && later < now + TokenRetry(Current(s.buckets, checks[i], now), checks[i]) - EPSILON / checks[i].limits.rps.value)
      ensures later >= now + LongestRetry(s, checks, now) ==> !ShortOfTokens(Current(s.buckets, checks[i], later), checks[i])
    {
      RetryWithinLongest(s, checks, now, i);
      assert !OverBurst(checks[i]);
      if ShortOfTokens(Current(s.buckets, checks[i], now), checks[i]) {
        ShortUntilRetry(s, checks[i], now, later);
        assert EPSILON / checks[i].limits.rps.value > 0.0;
      } else {
        EnoughStaysEnough(s, checks[i], now, later);
      }
    }
  }

  // ----- why the clock must not run back ---------------------------------------------------------------

  /** With readings 10, 8, 10 a bucket of rate 1 and burst 2 hands out 3 tokens at instant 10. */
  lemma BackwardClockBreaksBound(key: BucketId)
    ensures var l := Limits(Some(1.0), Some(2.0), None);
      var one, two := RateCheck(key, 1.0, 0, l), RateCheck(key, 2.0, 0, l);
      var steps := [Acquire(0, [one], 1.0, 10.0), Acquire(0, [one], 1.0, 8.0), Acquire(0, [two], 1.0, 10.0)];
      && StepsFollow(map[key.rule := l], steps)
      && Granted(RateState(map[], [], map[], 0), steps, key, 10.0, 10.0) == 3.0
  {
    var l := Limits(Some(1.0), Some(2.0), None);
    var one, two := RateCheck(key, 1.0, 0, l), RateCheck(key, 2.0, 0, l);
    var s0 := RateState(map[], [], map[], 0);
    var s1 := s0.(buckets := map[key := TokenBucket(1.0, 10.0, 0)]);
    var s2 := s0.(buckets := map[key := TokenBucket(0.0, 8.0, 0)]);
    SingleAcquire(s0, one, 10.0);
    SingleAcquire(s1, one, 8.0);
    SingleAcquire(s2, two, 10.0);
    var a, b, c := Acquire(0, [one], 1.0, 10.0), Acquire(0, [one], 1.0, 8.0), Acquire(0, [two], 1.0, 10.0);
    assert [a, b, c][1..] == [b, c] && [b, c][1..] == [c] && [c][1..] == [];
    assert Next(s0, a) == s1 && Next(s1, b) == s2;
    assert Granted(s2, [c], key, 10.0, 10.0) == 2.0;
    assert Granted(s1, [b, c], key, 10.0, 10.0) == 2.0;
  }

  lemma SingleAcquire(s: RateState, c: RateCheck, now: Time)
    requires CheckValid(c) && Metered(c.limits) && !WantsSlots(c)
    requires !OverBurst(c) && !Refuses(s, c, now)
    ensures Grants(s, [c], now) && Asked([c], c.key) == c.requests
    ensures Acquired(s, 0, [c], 1.0, now) == s.(buckets := s.buckets[c.key := Taken(Current(s.buckets, c, now), c)])
  {
    assert [c][..0] == [];
    assert LeaseItems([c]) == [];
    assert Written(s.buckets, [c], now) == s.buckets[c.key := Taken(Current(s.buckets, c, now), c)];
    assert forall i :: 0 <= i < |[c]| ==> [c][i] == c;
  }
}
