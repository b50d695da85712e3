/** The token bucket under any clock: which sequences of readings keep its bound. */
module RateClocks {
  import opened Prelude
  import opened Sums
  import opened RateLimits
  import opened RateRuns

  /** How far the clock runs forward between two readings. */
  function Rise(t: Time, u: Time): Time { MaxReal(u - t, 0.0) }

  /** All the forward movement within a sequence of readings, backward movement not subtracted. */
  function Rises(times: seq<Time>): Time {
    if |times| < 2 then 0.0 else Rise(times[0], times[1]) + Rises(times[1..])
  }

  function Distance(t: Time, u: Time): Time { MaxReal(t - u, u - t) }

  /** Between any two readings the clock never runs forward by more than they are apart. */
  predicate Steady(times: seq<Time>) {
    forall i, j :: 0 <= i < j < |times| ==> Rises(times[i..j + 1]) <= Distance(times[i], times[j])
  }

  predicate ReadAt(steps: seq<RateStep>, times: seq<Time>) {
    |steps| == |times| && forall i :: 0 <= i < |steps| ==> steps[i].now == times[i]
  }

  /** In every window every run with these readings hands out at most burst plus rate times length. */
  ghost predicate BoundHolds(times: seq<Time>) {
    forall rules: map<string, Limits>, s: RateState, steps: seq<RateStep>, key: BucketId, from: Time, to: Time ::
      ReadAt(steps, times) && BucketIn(rules, s, steps, key) && from <= to ==> WithinBound(rules, s, steps, key, from, to)
  }

  predicate BucketIn(rules: map<string, Limits>, s: RateState, steps: seq<RateStep>, key: BucketId) {
    && StepsFollow(rules, steps)
    && key.rule in rules && LimitsValid(rules[key.rule]) && Metered(rules[key.rule]) && Funded(s, key)
  }

  predicate WithinBound(rules: map<string, Limits>, s: RateState, steps: seq<RateStep>, key: BucketId, from: Time, to: Time)
    requires BucketIn(rules, s, steps, key)
  {
    Granted(s, steps, key, from, to) <= rules[key.rule].burst.value + Flow(rules[key.rule].rps.value, to - from) + EPSILON
  }

  /** Readings that only rise are steady, and so are readings that only fall. */
  lemma MonotoneIsSteady(times: seq<Time>)
    requires || (forall i, j :: 0 <= i < j < |times| ==> times[i] <= times[j])
             || (forall i, j :: 0 <= i < j < |times| ==> times[i] >= times[j])
    ensures Steady(times)
  {
    forall i, j | 0 <= i < j < |times|
      ensures Rises(times[i..j + 1]) <= Distance(times[i], times[j])
    {
      MonotoneRises(times[i..j + 1]);
    }
  }

  lemma {:induction false} MonotoneRises(times: seq<Time>)
    requires times != []
    ensures (forall i, j :: 0 <= i < j < |times| ==> times[i] <= times[j]) ==> Rises(times) == times[|times| - 1] - times[0]
    ensures (forall i, j :: 0 <= i < j < |times| ==> times[i] >= times[j]) ==> Rises(times) == 0.0
  {
    if |times| > 1 {
      MonotoneRises(times[1..]);
    }
  }

  // ----- steady readings keep the bound ----------------------------------------------------------

  lemma FlowMonotone(rate: real, a: Time, b: Time)
    requires rate > 0.0 && a <= b
    ensures Flow(rate, a) <= Flow(rate, b)
  {
    FlowAdds(rate, b - a, 0.0);
    FlowAdds(rate, a, b - a);
  }

  /** Under any clock a level grows at most by what the clock runs forward. */
  lemma LevelMoves(s: RateState, key: BucketId, l: Limits, t: Time, u: Time)
    requires LimitsValid(l) && Metered(l) && Funded(s, key)
    ensures Level(s, key, l, u) <= Level(s, key, l, t) + Flow(l.rps.value, Rise(t, u))
  {
    var r := l.rps.value;
    FlowMonotone(r, 0.0, Rise(t, u));
    FlowAdds(r, 0.0, 0.0);
    if key in s.buckets {
      var from := s.buckets[key].lastRefill;
      FlowMonotone(r, Rise(from, u), Rise(from, t) + Rise(t, u));
      FlowAdds(r, Rise(from, t), Rise(t, u));
    }
  }

  /** One step hands out what it takes off the level. */
  lemma StepSpends(rules: map<string, Limits>, s: RateState, steps: seq<RateStep>, key: BucketId)
    requires BucketIn(rules, s, steps, key) && steps != []
    ensures BucketIn(rules, Next(s, steps[0]), steps[1..], key)
    ensures var step, l := steps[0], rules[key.rule];
      var spent := if step.Acquire? && Grants(s, step.checks, step.now) then Asked(step.checks, key) else 0.0;
      && 0.0 <= spent && -EPSILON <= Level(Next(s, step), key, l, step.now)
      && Level(Next(s, step), key, l, step.now) == Level(s, key, l, step.now) - spent
  {
    hide Grants, Asked, Level, Next, FollowsRules;
    var step, l := steps[0], rules[key.rule];
    if step.Acquire? && Grants(s, step.checks, step.now) {
      AcquireSpendsLevel(rules, s, step, key);
    } else {
      OtherStepsKeepLevel(s, step, key, l, step.now);
    }
    LevelIsFunded(Next(s, step), key, l, step.now);
  }

  lemma {:induction false} NothingOutside(s: RateState, steps: seq<RateStep>, key: BucketId, from: Time, to: Time)
    requires forall i :: 0 <= i < |steps| ==> !(from <= steps[i].now <= to)
    ensures Granted(s, steps, key, from, to) == 0.0
    decreases |steps|
  {
    if steps != [] {
      NothingOutside(Next(s, steps[0]), steps[1..], key, from, to);
    }
  }

  /** If reading `j` is the last within the window, the run hands out no more than its first level and
      the inflow of the clock's forward movement up to there. */
  lemma {:induction false} GrantedWithinRises(rules: map<string, Limits>, s: RateState, steps: seq<RateStep>, times: seq<Time>,
                                              key: BucketId, from: Time, to: Time, j: nat)
    requires ReadAt(steps, times) && BucketIn(rules, s, steps, key) && j < |steps|
    requires forall k :: j < k < |steps| ==> !(from <= times[k] <= to)
    ensures Granted(s, steps, key, from, to)
         <= Level(s, key, rules[key.rule], times[0]) + Flow(rules[key.rule].rps.value, Rises(times[..j + 1])) + EPSILON
    decreases j
  {
    hide Next, Level, StepsFollow, Asked, Grants;
    var l, s' := rules[key.rule], Next(s, steps[0]);
    StepSpends(rules, s, steps, key);
    if j == 0 {
      NothingOutside(s', steps[1..], key, from, to);
      FlowAdds(l.rps.value, 0.0, 0.0);
    } else {
      GrantedWithinRises(rules, s', steps[1..], times[1..], key, from, to, j - 1);
      LevelMoves(s', key, l, times[0], times[1]);
      assert times[..j + 1][1..] == times[1..][..j];
      FlowAdds(l.rps.value, Rise(times[0], times[1]), Rises(times[1..][..j]));
    }
  }

  /** The last reading within the window. */
  lemma LastWithin(times: seq<Time>, from: Time, to: Time) returns (j: nat)
    requires times != [] && from <= times[0] <= to
    ensures j < |times| && from <= times[j] <= to && forall k :: j < k < |times| ==> !(from <= times[k] <= to)
  {
    j := |times| - 1;
    while !(from <= times[j] <= to)
      invariant j < |times| && forall k :: j < k < |times| ==> !(from <= times[k] <= to)
      decreases j
    {
      j := j - 1;
    }
  }

  lemma {:induction false} SteadyKeepsBound(rules: map<string, Limits>, s: RateState, steps: seq<RateStep>, times: seq<Time>,
                                            key: BucketId, from: Time, to: Time)
    requires Steady(times) && ReadAt(steps, times) && BucketIn(rules, s, steps, key) && from <= to
    ensures WithinBound(rules, s, steps, key, from, to)
    decreases |steps|
  {
    hide Next, Level, Asked, Grants, StepsFollow;
    var l := rules[key.rule];
    FlowMonotone(l.rps.value, 0.0, to - from);
    FlowAdds(l.rps.value, 0.0, 0.0);
    if steps != [] {
      if from <= times[0] <= to {
        var j := LastWithin(times, from, to);
        GrantedWithinRises(rules, s, steps, times, key, from, to, j);
        LevelIsFunded(s, key, l, times[0]);
        assert times[..j + 1] == times[0..j + 1];
        FlowMonotone(l.rps.value, Rises(times[..j + 1]), to - from);
      } else {
        StepSpends(rules, s, steps, key);
        forall i, j | 0 <= i < j < |times| - 1
          ensures Rises(times[1..][i..j + 1]) <= Distance(times[1..][i], times[1..][j])
        {
          assert times[1..][i..j + 1] == times[i + 1..j + 2];
        }
        SteadyKeepsBound(rules, Next(s, steps[0]), steps[1..], times[1..], key, from, to);
      }
    }
  }

  // ----- any other readings break it -------------------------------------------------------------

  /** A probe takes nothing but has the bucket refilled; the two takes ask for the whole burst. */
  function Probe(key: BucketId, l: Limits, requests: real, now: Time): RateStep {
    Acquire(0, [RateCheck(key, requests, 1, l)], 1.0, now)
  }

  /** Take the burst at reading `i`, probe in between, take it again at reading `j`. */
  function Greedy(times: seq<Time>, i: nat, j: nat, key: BucketId, l: Limits): seq<RateStep>
    requires Metered(l)
  {
    seq(|times|, k requires 0 <= k < |times| =>
      if k == i || k == j then Probe(key, l, l.burst.value, times[k])
      else if i < k < j then Probe(key, l, 0.0, times[k])
      else Reap(times[k]))
  }

  const EMPTY := RateState(map[], [], map[], 0)

  /** The one bucket, with the tokens the clock's forward movement since reading `i` has brought. */
  ghost function Refilling(times: seq<Time>, i: nat, k: nat, key: BucketId, l: Limits): RateState
    requires i < k <= |times| && Metered(l)
  {
    OneBucket(key, Flow(l.rps.value, Rises(times[i..k])), times[k - 1])
  }

  lemma {:induction false} RisesSnoc(times: seq<Time>, u: Time)
    requires times != []
    ensures Rises(times + [u]) == Rises(times) + Rise(times[|times| - 1], u)
  {
    if |times| > 1 {
      assert (times + [u])[1..] == times[1..] + [u];
      RisesSnoc(times[1..], u);
    }
  }

  lemma {:induction false} RisesGrow(times: seq<Time>, n: nat)
    requires 0 < n <= |times|
    ensures 0.0 <= Rises(times[..n]) <= Rises(times)
  {
    if n == |times| {
      assert times[..n] == times;
      if n > 1 {
        RisesGrow(times[1..], n - 1);
        assert times[1..][..n - 1] == times[1..];
      }
    } else {
      var m := |times| - 1;
      RisesGrow(times[..m], n);
      assert times[..m][..n] == times[..n] && times == times[..m] + [times[m]];
      RisesSnoc(times[..m], times[m]);
    }
  }

  lemma {:induction false} GrantedNonNegative(rules: map<string, Limits>, s: RateState, steps: seq<RateStep>, key: BucketId,
                                              from: Time, to: Time)
    requires BucketIn(rules, s, steps, key)
    ensures Granted(s, steps, key, from, to) >= 0.0
    decreases |steps|
  {
    hide Next, Level, StepsFollow, Asked, Grants;
    if steps != [] {
      StepSpends(rules, s, steps, key);
      GrantedNonNegative(rules, Next(s, steps[0]), steps[1..], key, from, to);
    }
  }

  lemma GreedyFollows(times: seq<Time>, i: nat, j: nat, key: BucketId, l: Limits)
    requires LimitsValid(l) && Metered(l)
    ensures ReadAt(Greedy(times, i, j, key, l), times)
    ensures BucketIn(map[key.rule := l], EMPTY, Greedy(times, i, j, key, l), key)
  {
  }

  function OneBucket(key: BucketId, tokens: real, last: Time): RateState {
    EMPTY.(buckets := map[key := TokenBucket(tokens, last, 0)])
  }

  /** A probe of a bucket that holds what it asks for. */
  lemma ProbeTakes(key: BucketId, l: Limits, tokens: real, last: Time, requests: real, now: Time)
    requires LimitsValid(l) && Metered(l) && l.maxConcurrency.None?
    requires 0.0 <= requests <= tokens + Flow(l.rps.value, Rise(last, now)) <= l.burst.value
    ensures var s, probe := OneBucket(key, tokens, last), Probe(key, l, requests, now);
      && Grants(s, probe.checks, now) && Asked(probe.checks, key) == requests
      && Next(s, probe) == OneBucket(key, tokens + Flow(l.rps.value, Rise(last, now)) - requests, now)
      && Funded(Next(s, probe), key)
  {
    var s, c := OneBucket(key, tokens, last), RateCheck(key, requests, 1, l);
    assert Rise(last, now) * l.rps.value == Flow(l.rps.value, Rise(last, now));
    SingleAcquire(s, c, now);
    var taken := Taken(Current(s.buckets, c, now), c);
    assert taken == TokenBucket(tokens + Flow(l.rps.value, Rise(last, now)) - requests, now, 0);
    assert s.buckets[key := taken] == map[key := taken];
  }

  /** What the forward movement up to reading `k` brings is what it brought up to `k - 1` and then. */
  lemma FlowSnoc(times: seq<Time>, i: nat, k: nat, rate: real)
    requires i < k < |times|
    ensures Flow(rate, Rises(times[i..k + 1])) == Flow(rate, Rises(times[i..k])) + Flow(rate, Rise(times[k - 1], times[k]))
  {
    assert times[i..k + 1] == times[i..k] + [times[k]];
    RisesSnoc(times[i..k], times[k]);
    FlowAdds(rate, Rises(times[i..k]), Rise(times[k - 1], times[k]));
  }

  lemma FlowGrows(times: seq<Time>, i: nat, k: nat, j: nat, rate: real)
    requires i < k <= j < |times| && rate > 0.0
    ensures 0.0 <= Flow(rate, Rises(times[i..k + 1])) <= Flow(rate, Rises(times[i..j + 1]))
  {
    RisesGrow(times[i..j + 1], k + 1 - i);
    assert times[i..j + 1][..k + 1 - i] == times[i..k + 1];
    FlowMonotone(rate, Rises(times[i..k + 1]), Rises(times[i..j + 1]));
    FlowAdds(rate, Rises(times[i..k + 1]), 0.0);
  }

  /** From right after the first take on, the second is granted in full. */
  lemma {:induction false} SecondTake(times: seq<Time>, i: nat, j: nat, k: nat, key: BucketId, l: Limits, from: Time, to: Time)
    requires LimitsValid(l) && Metered(l) && l.maxConcurrency.None? && i < k <= j < |times| && from <= times[j] <= to
    requires Flow(l.rps.value, Rises(times[i..j + 1])) == l.burst.value
    ensures Granted(Refilling(times, i, k, key, l), Greedy(times, i, j, key, l)[k..], key, from, to) >= l.burst.value
    decreases j - k
  {
    hide Next, Asked, Grants, Granted, Rises, OneBucket;
    var s, steps := Refilling(times, i, k, key, l), Greedy(times, i, j, key, l);
    var step := steps[k];
    GreedyFollows(times, i, j, key, l);
    assert steps[k..][0] == step && steps[k..][1..] == steps[k + 1..];
    FlowSnoc(times, i, k, l.rps.value);
    FlowGrows(times, i, k, j, l.rps.value);
    ProbeTakes(key, l, Flow(l.rps.value, Rises(times[i..k])), times[k - 1], if k == j then l.burst.value else 0.0, times[k]);
    GrantedStep(s, steps[k..], key, from, to);
    if k == j {
      GreedyTail(times, i, j, k + 1, key, l, Next(s, step));
      GrantedNonNegative(map[key.rule := l], Next(s, step), steps[k + 1..], key, from, to);
    } else {
      SecondTake(times, i, j, k + 1, key, l, from, to);
    }
  }

  lemma GrantedStep(s: RateState, steps: seq<RateStep>, key: BucketId, from: Time, to: Time)
    requires steps != []
    ensures var step := steps[0];
      Granted(s, steps, key, from, to)
      == (if step.Acquire? && Grants(s, step.checks, step.now) && from <= step.now <= to then Asked(step.checks, key) else 0.0)
         + Granted(Next(s, step), steps[1..], key, from, to)
  {
  }

  lemma GreedyTail(times: seq<Time>, i: nat, j: nat, k: nat, key: BucketId, l: Limits, s: RateState)
    requires LimitsValid(l) && Metered(l) && k <= |times| && Funded(s, key)
    ensures BucketIn(map[key.rule := l], s, Greedy(times, i, j, key, l)[k..], key)
  {
  }

  /** The first take finds a new bucket, so a full one; what lies before it changes nothing. */
  lemma {:induction false} FirstTake(times: seq<Time>, i: nat, j: nat, k: nat, key: BucketId, l: Limits, from: Time, to: Time)
    requires LimitsValid(l) && Metered(l) && l.maxConcurrency.None? && k <= i < j < |times|
    requires from <= times[i] <= to && from <= times[j] <= to
    requires Flow(l.rps.value, Rises(times[i..j + 1])) == l.burst.value
    ensures Granted(EMPTY, Greedy(times, i, j, key, l)[k..], key, from, to) >= 2.0 * l.burst.value
    decreases i - k
  {
    hide Next, Asked, Grants, Granted, Rises, Refilling;
    var steps := Greedy(times, i, j, key, l);
    assert steps[k..][0] == steps[k] && steps[k..][1..] == steps[k + 1..];
    GrantedStep(EMPTY, steps[k..], key, from, to);
    if k == i {
      NewBucketTaken(times, i, key, l);
      SecondTake(times, i, j, i + 1, key, l, from, to);
    } else {
      ReapsNothing(times[k]);
      FirstTake(times, i, j, k + 1, key, l, from, to);
    }
  }

  lemma ReapsNothing(now: Time)
    ensures Next(EMPTY, Reap(now)) == EMPTY
  {
  }

  lemma NewBucketTaken(times: seq<Time>, i: nat, key: BucketId, l: Limits)
    requires LimitsValid(l) && Metered(l) && l.maxConcurrency.None? && i < |times|
    ensures var take := Probe(key, l, l.burst.value, times[i]);
      && Grants(EMPTY, take.checks, times[i]) && Asked(take.checks, key) == l.burst.value
      && Next(EMPTY, take) == Refilling(times, i, i + 1, key, l)
  {
    var c := RateCheck(key, l.burst.value, 1, l);
    SingleAcquire(EMPTY, c, times[i]);
    assert times[i..i + 1] == [times[i]];
    FlowAdds(l.rps.value, 0.0, 0.0);
    assert EMPTY.buckets[key := TokenBucket(0.0, times[i], 0)] == map[key := TokenBucket(0.0, times[i], 0)];
  }

  lemma UnsteadyBreaksBound(times: seq<Time>, i: nat, j: nat)
    requires i < j < |times| && Rises(times[i..j + 1]) > Distance(times[i], times[j])
    ensures !BoundHolds(times)
  {
    hide Granted, Rises, StepsFollow, ReadAt;
    var rise, length := Rises(times[i..j + 1]), Distance(times[i], times[j]);
    var r := 2.0 * EPSILON / (rise - length);
    var key, l := BucketId("rule", "bucket"), Limits(Some(r), Some(Flow(r, rise)), None);
    var from, to := MinReal(times[i], times[j]), MaxReal(times[i], times[j]);
    Excess(r, rise, length);
    FirstTake(times, i, j, 0, key, l, from, to);
    GreedyFollows(times, i, j, key, l);
    var steps := Greedy(times, i, j, key, l);
    assert steps[0..] == steps;
    assert !WithinBound(map[key.rule := l], EMPTY, steps, key, from, to);
  }

  lemma Excess(r: real, rise: real, length: real)
    requires rise > length >= 0.0 && r == 2.0 * EPSILON / (rise - length)
    ensures r > 0.0 && Flow(r, rise) == Flow(r, length) + 2.0 * EPSILON && Flow(r, rise) > 0.0
  {
    assert r * (rise - length) == 2.0 * EPSILON;
    FlowAdds(r, rise - length, length);
    FlowAdds(r, length, 0.0);
  }

  /** The token-bucket bound holds of every run with these readings if and only if between any two of
      them the clock runs forward by no more than they are apart. */
  lemma BoundHoldsIff(times: seq<Time>)
    ensures BoundHolds(times) <==> Steady(times)
  {
    hide Granted, Rises, StepsFollow, WithinBound, ReadAt, Distance;
    if Steady(times) {
      forall rules: map<string, Limits>, s: RateState, steps: seq<RateStep>, key: BucketId, from: Time, to: Time
        | ReadAt(steps, times) && BucketIn(rules, s, steps, key) && from <= to
        ensures WithinBound(rules, s, steps, key, from, to)
      {
        SteadyKeepsBound(rules, s, steps, times, key, from, to);
      }
    } else {
      var i, j :| 0 <= i < j < |times| && Rises(times[i..j + 1]) > Distance(times[i], times[j]);
      UnsteadyBreaksBound(times, i, j);
    }
  }
}
