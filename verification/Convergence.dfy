/** The convergence controller: one decision, and what holds of a branch over whole runs of them. */
module Convergence {
  import opened Prelude
  import opened Budgets

  datatype Tier = Micro | Small | Medium | Large | Exhaustive

  function Rank(t: Tier): nat {
    match t
    case Micro => 0
    case Small => 1
    case Medium => 2
    case Large => 3
    case Exhaustive => 4
  }

  function NextTier(t: Tier): Tier {
    match t
    case Micro => Small
    case Small => Medium
    case Medium => Large
    case Large => Exhaustive
    case Exhaustive => Exhaustive
  }

  datatype Action = Continue | AdvanceTier | Cooldown | Close

  datatype Config = Config(
    minimumRecentExecutions: nat,
    productiveHitRate: real,
    productiveNovelRate: real,
    advanceExpectedYield: real,
    advanceProductiveStreak: nat,
    advanceMaxSoftPressure: real,
    lowYieldSignal: real,
    lowInformationGain: real,
    cooldownLowStreak: nat,
    closeLowStreak: nat,
    cooldownBase: Time,
    cooldownMax: Time,
    multiplierMax: real,
    multiplierThreshold: real,
    hardCloseThreshold: real,
    softCooldownThreshold: real)

  predicate ConfigValid(c: Config) {
    && 1 <= c.cooldownLowStreak <= c.closeLowStreak
    && 1 <= c.advanceProductiveStreak
    && 0.0 < c.cooldownBase <= c.cooldownMax
    && 1.0 <= c.multiplierMax
    && 0.0 <= c.multiplierThreshold <= 1.0
  }

  datatype State = State(
    lane: Lane, tier: Tier, multiplier: real, evaluations: nat, lowStreak: nat, productiveStreak: nat,
    cooldownCount: nat, cooldownUntil: Option<Time>, closed: bool, lastAction: Option<Action>, updatedAt: Time)

  /** What the yield model and the budget inspector report at one evaluation. */
  datatype Evidence = Evidence(
    recentExecutions: nat, hitRate: real, novelRate: real, lowMarginalYield: bool, convergenceSignal: real,
    expectedYield: real, uncertainty: real, softPressure: real, hardPressure: real)

  datatype Decision = Decision(
    action: Action, recommendedTier: Tier, multiplier: real, cooldownUntil: Option<Time>, before: State, after: State)

  function Fresh(lane: Lane, tier: Tier, now: Time): State {
    State(lane, tier, 1.0, 0, 0, 0, 0, None, false, None, now)
  }

  // ----- the two pure curves ------------------------------------------------------------------

  function Clamp01(x: real): real { MinReal(1.0, MaxReal(0.0, x)) }

  function ProductiveMultiplier(c: Config, expectedYield: real): (m: real)
    requires ConfigValid(c)
    ensures 1.0 <= m <= c.multiplierMax
  {
    if expectedYield < c.multiplierThreshold || c.multiplierMax <= 1.0 then 1.0
    else
      var progress := (expectedYield - c.multiplierThreshold) / MaxReal(EPSILON, 1.0 - c.multiplierThreshold);
      ProductBounded(Clamp01(progress), c.multiplierMax - 1.0);
      MinReal(c.multiplierMax, 1.0 + Times(Clamp01(progress), c.multiplierMax - 1.0))
  }

  function Times(a: real, b: real): real { a * b }

  lemma ProductBounded(a: real, b: real)
    requires 0.0 <= a <= 1.0 && b >= 0.0
    ensures 0.0 <= Times(a, b) <= b
  {
    ProductMonotone(0.0, a, b);
    ProductMonotone(a, 1.0, b);
  }

  lemma ProductMonotone(a: real, b: real, c: real)
    requires a <= b && c >= 0.0
    ensures Times(a, c) <= Times(b, c)
  {
  }

  lemma DivideMonotone(a: real, b: real, d: real)
    requires a <= b && d > 0.0
    ensures a / d <= b / d
  {
    var k := 1.0 / d;
    assert a / d == Times(a, k) && b / d == Times(b, k);
    ProductMonotone(a, b, k);
  }

  /** More expected yield never earns a smaller multiplier. */
  lemma MultiplierMonotone(c: Config, low: real, high: real)
    requires ConfigValid(c) && low <= high
    ensures ProductiveMultiplier(c, low) <= ProductiveMultiplier(c, high)
  {
    hide Times;
    if low >= c.multiplierThreshold && c.multiplierMax > 1.0 {
      var d := MaxReal(EPSILON, 1.0 - c.multiplierThreshold);
      var p, q := (low - c.multiplierThreshold) / d, (high - c.multiplierThreshold) / d;
      DivideMonotone(low - c.multiplierThreshold, high - c.multiplierThreshold, d);
      ProductMonotone(Clamp01(p), Clamp01(q), c.multiplierMax - 1.0);
    }
  }

  function PowerOfTwo(n: nat): real {
    if n == 0 then 1.0 else 2.0 * PowerOfTwo(n - 1)
  }

  /** The cooldown of the given ordinal: doubled each time, at most twenty times, up to the maximum. */
  function CooldownDuration(c: Config, ordinal: int): Time {
    MinReal(Uncapped(c, Min(Max(1, ordinal) - 1, 20)), c.cooldownMax)
  }

  function Uncapped(c: Config, doublings: nat): Time {
    c.cooldownBase * PowerOfTwo(doublings)
  }

  /** The closed form is the recurrence: start at the base, then double until the maximum. */
  lemma CooldownDoubles(c: Config, ordinal: int)
    requires ConfigValid(c)
    ensures ordinal <= 1 ==> CooldownDuration(c, ordinal) == c.cooldownBase
    ensures 1 <= ordinal <= 20 ==>
      CooldownDuration(c, ordinal + 1) == MinReal(2.0 * CooldownDuration(c, ordinal), c.cooldownMax)
    ensures ordinal >= 21 ==> CooldownDuration(c, ordinal + 1) == CooldownDuration(c, ordinal)
    ensures c.cooldownBase <= CooldownDuration(c, ordinal) <= c.cooldownMax
  {
    hide Uncapped;
    var n := Min(Max(1, ordinal) - 1, 20);
    UncappedDoubles(c, n);
    if n > 0 {
      UncappedDoubles(c, n - 1);
    }
  }

  lemma {:induction false} UncappedDoubles(c: Config, n: nat)
    requires ConfigValid(c)
    ensures Uncapped(c, 0) == c.cooldownBase
    ensures Uncapped(c, n + 1) == 2.0 * Uncapped(c, n)
    ensures c.cooldownBase <= Uncapped(c, n)
  {
    var p := PowerOfTwo(n);
    assert PowerOfTwo(n + 1) == 2.0 * p;
    assert c.cooldownBase * (2.0 * p) == 2.0 * (c.cooldownBase * p);
    if n > 0 {
      UncappedDoubles(c, n - 1);
    }
  }

  // ----- one decision -------------------------------------------------------------------------

  predicate HistoryReady(c: Config, e: Evidence) {
    e.recentExecutions >= c.minimumRecentExecutions
  }

  predicate Productive(c: Config, e: Evidence) {
    && HistoryReady(c, e)
    && (e.hitRate >= c.productiveHitRate || e.novelRate >= c.productiveNovelRate)
    && e.expectedYield >= c.advanceExpectedYield
  }

  predicate LowYield(c: Config, e: Evidence) {
    && HistoryReady(c, e)
    && (e.lowMarginalYield || (e.convergenceSignal >= c.lowYieldSignal && e.uncertainty <= c.lowInformationGain))
  }

  predicate HardExhausted(c: Config, e: Evidence) {
    e.hardPressure >= c.hardCloseThreshold
  }

  predicate CoolingDown(s: State, now: Time) {
    s.cooldownUntil.Some? && now < s.cooldownUntil.value
  }

  function Decide(c: Config, maximum: Tier, prior: State, e: Evidence, now: Time): (d: Decision)
    requires ConfigValid(c)
  {
    var multiplier := ProductiveMultiplier(c, e.expectedYield);
    if prior.closed then
      Decision(Close, prior.tier, 1.0, None, prior,
               prior.(multiplier := 1.0, lastAction := Some(Close), updatedAt := now))
    else if HardExhausted(c, e) then
      Decision(Close, prior.tier, 1.0, None, prior,
               prior.(evaluations := prior.evaluations + 1, multiplier := 1.0, closed := true, cooldownUntil := None,
                      lastAction := Some(Close), updatedAt := now))
    else if CoolingDown(prior, now) then
      Decision(Cooldown, prior.tier, 1.0, prior.cooldownUntil, prior,
               prior.(multiplier := 1.0, lastAction := Some(Cooldown), updatedAt := now))
    else
      var judged := prior.(evaluations := prior.evaluations + 1, updatedAt := now);
      var productive, lowYield := Productive(c, e), LowYield(c, e);
      var lowStreak := if lowYield then prior.lowStreak + 1 else 0;
      var productiveStreak := if productive then prior.productiveStreak + 1 else 0;
      if e.softPressure >= c.softCooldownThreshold then
        Paused(c, prior, judged.(lowStreak := lowStreak, productiveStreak := productiveStreak), now)
      else if !HistoryReady(c, e) then
        Decision(Continue, prior.tier, 1.0, None, prior,
                 judged.(lowStreak := 0, productiveStreak := 0, cooldownUntil := None, multiplier := 1.0,
                         lastAction := Some(Continue)))
      else if productive && productiveStreak >= c.advanceProductiveStreak && Rank(prior.tier) < Rank(maximum)
              && e.softPressure < c.advanceMaxSoftPressure then
        Decision(AdvanceTier, NextTier(prior.tier), multiplier, None, prior,
                 judged.(tier := NextTier(prior.tier), lowStreak := 0, productiveStreak := 0, cooldownUntil := None,
                         multiplier := multiplier, lastAction := Some(AdvanceTier)))
      else if lowYield && lowStreak >= c.cooldownLowStreak then
        if !prior.lane.Exploration? && prior.tier.Exhaustive? && lowStreak >= c.closeLowStreak
           && e.uncertainty <= c.lowInformationGain then
          Decision(Close, prior.tier, 1.0, None, prior,
                   judged.(lowStreak := lowStreak, productiveStreak := 0, closed := true, cooldownUntil := None,
                           lastAction := Some(Close)))
        else
          Paused(c, prior, judged.(lowStreak := lowStreak, productiveStreak := 0), now)
      else
        var kept := if productive then multiplier else 1.0;
        Decision(Continue, prior.tier, kept, None, prior,
                 judged.(lowStreak := lowStreak, productiveStreak := productiveStreak, cooldownUntil := None,
                         multiplier := kept, lastAction := Some(Continue)))
  }

  /** A new cooldown, one ordinal longer than the last. */
  function Paused(c: Config, prior: State, judged: State, now: Time): Decision {
    var until := Some(now + CooldownDuration(c, prior.cooldownCount + 1));
    Decision(Cooldown, prior.tier, 1.0, until, prior,
             judged.(cooldownCount := prior.cooldownCount + 1, cooldownUntil := until, multiplier := 1.0,
                     lastAction := Some(Cooldown)))
  }

  // ----- one evaluation of a stored branch ------------------------------------------------------

  /** An evaluation: the caller's tier, the evidence and the clock. */
  datatype Input = Input(tier: Tier, evidence: Evidence, now: Time)

  /** The state an evaluation starts from: stored, and moved to the caller's tier unless closed. */
  function PriorOf(stored: Option<State>, lane: Lane, tier: Tier, now: Time): State {
    if stored.None? then Fresh(lane, tier, now)
    else if stored.value.tier != tier && !stored.value.closed then stored.value.(tier := tier)
    else stored.value
  }

  /** What an evaluation leaves stored; a tier above the maximum is refused. */
  function Next(c: Config, maximum: Tier, lane: Lane, stored: Option<State>, i: Input): Option<State>
    requires ConfigValid(c)
  {
    if Rank(i.tier) > Rank(maximum) then stored
    else Some(Decide(c, maximum, PriorOf(stored, lane, i.tier, i.now), i.evidence, i.now).after)
  }

  predicate IsClosed(stored: Option<State>) {
    stored.Some? && stored.value.closed
  }

  /** The rank of the stored tier; a branch never seen counts as the lowest. */
  function TierRank(stored: Option<State>): nat {
    if stored.Some? then Rank(stored.value.tier) else 0
  }

  predicate InLane(lane: Lane, stored: Option<State>) {
    stored.Some? ==> stored.value.lane == lane
  }

  predicate StateSound(c: Config, maximum: Tier, lane: Lane, stored: Option<State>) {
    && InLane(lane, stored)
    && (stored.Some? ==> Rank(stored.value.tier) <= Rank(maximum) && 1.0 <= stored.value.multiplier <= c.multiplierMax)
  }

  /** One decision keeps lane and closedness, moves the tier at most one step, and keeps the multiplier's bounds. */
  lemma DecisionStep(c: Config, maximum: Tier, prior: State, e: Evidence, now: Time)
    requires ConfigValid(c)
    ensures var s' := Decide(c, maximum, prior, e, now).after;
      && s'.lane == prior.lane
      && (1.0 <= prior.multiplier <= c.multiplierMax ==> 1.0 <= s'.multiplier <= c.multiplierMax)
      && (prior.closed ==> s'.closed && s'.tier == prior.tier)
      && (s'.tier == prior.tier || (s'.tier == NextTier(prior.tier) && !s'.closed && Rank(prior.tier) < Rank(maximum)))
  {
    hide CooldownDuration;
  }

  /** An evaluation of an open branch leaves the caller's tier or the one above it, never above the
      maximum; of a closed one, everything that matters as it was. */
  lemma EvaluationStep(c: Config, maximum: Tier, lane: Lane, stored: Option<State>, i: Input)
    requires ConfigValid(c)
    ensures InLane(lane, stored) ==> InLane(lane, Next(c, maximum, lane, stored, i))
    ensures StateSound(c, maximum, lane, stored) ==> StateSound(c, maximum, lane, Next(c, maximum, lane, stored, i))
    ensures IsClosed(stored) ==>
      IsClosed(Next(c, maximum, lane, stored, i)) && Next(c, maximum, lane, stored, i).value.tier == stored.value.tier
    ensures !IsClosed(stored) && Rank(i.tier) <= Rank(maximum) ==>
      var s' := Next(c, maximum, lane, stored, i).value;
      s'.tier == i.tier || (s'.tier == NextTier(i.tier) && !s'.closed && Rank(i.tier) < Rank(maximum))
    ensures Rank(i.tier) > Rank(maximum) ==> Next(c, maximum, lane, stored, i) == stored
    ensures Rank(i.tier) <= Rank(maximum) ==> Next(c, maximum, lane, stored, i).Some?
  {
    hide Decide;
    if Rank(i.tier) <= Rank(maximum) {
      DecisionStep(c, maximum, PriorOf(stored, lane, i.tier, i.now), i.evidence, i.now);
    }
  }

  /** Evidence on which no open branch closes or changes tier. */
  function Strained(c: Config): Evidence {
    Evidence(0, 0.0, 0.0, false, 0.0, 0.0, 0.0, c.softCooldownThreshold, c.hardCloseThreshold - 1.0)
  }

  lemma StrainedKeepsOpen(c: Config, maximum: Tier, lane: Lane, stored: Option<State>, tier: Tier, now: Time)
    requires ConfigValid(c) && !IsClosed(stored) && Rank(tier) <= Rank(maximum)
    ensures var next := Next(c, maximum, lane, stored, Input(tier, Strained(c), now));
      next.Some? && !IsClosed(next) && next.value.tier == tier
  {
    hide ProductiveMultiplier, CooldownDuration;
  }

  /** The branch is closed, the evaluation refused, or it starts at the stored tier or above. */
  predicate AtOrAbove(maximum: Tier, stored: Option<State>, tier: Tier) {
    IsClosed(stored) || Rank(tier) > Rank(maximum) || Rank(tier) >= TierRank(stored)
  }

  /** Whatever the evidence turns out to be, the stored tier does not fall, if and only if no open
      branch is evaluated below it. */
  lemma TierHoldsIff(c: Config, maximum: Tier, lane: Lane, stored: Option<State>, tier: Tier, now: Time)
    requires ConfigValid(c)
    ensures (forall e :: TierRank(Next(c, maximum, lane, stored, Input(tier, e, now))) >= TierRank(stored))
       <==> AtOrAbove(maximum, stored, tier)
  {
    hide Next, StateSound;
    forall e | AtOrAbove(maximum, stored, tier)
      ensures TierRank(Next(c, maximum, lane, stored, Input(tier, e, now))) >= TierRank(stored)
    {
      EvaluationStep(c, maximum, lane, stored, Input(tier, e, now));
    }
    if !AtOrAbove(maximum, stored, tier) {
      StrainedKeepsOpen(c, maximum, lane, stored, tier, now);
      assert TierRank(Next(c, maximum, lane, stored, Input(tier, Strained(c), now))) < TierRank(stored);
    }
  }

  // ----- runs ----------------------------------------------------------------------------------

  /** Successive evaluations of one branch, each after the last one has stored its state. */
  function RunStates(c: Config, maximum: Tier, lane: Lane, stored: Option<State>, inputs: seq<Input>): Option<State>
    requires ConfigValid(c)
    decreases |inputs|
  {
    if inputs == [] then stored
    else RunStates(c, maximum, lane, Next(c, maximum, lane, stored, inputs[0]), inputs[1..])
  }

  lemma {:induction false} RunSnoc(c: Config, maximum: Tier, lane: Lane, stored: Option<State>, inputs: seq<Input>, i: Input)
    requires ConfigValid(c)
    ensures RunStates(c, maximum, lane, stored, inputs + [i])
         == Next(c, maximum, lane, RunStates(c, maximum, lane, stored, inputs), i)
    decreases |inputs|
  {
    hide Next;
    if inputs == [] {
      assert (inputs + [i])[1..] == [];
    } else {
      assert (inputs + [i])[1..] == inputs[1..] + [i];
      RunSnoc(c, maximum, lane, Next(c, maximum, lane, stored, inputs[0]), inputs[1..], i);
    }
  }

  lemma RunTo(c: Config, maximum: Tier, lane: Lane, stored: Option<State>, inputs: seq<Input>, k: nat)
    requires ConfigValid(c) && k < |inputs|
    ensures RunStates(c, maximum, lane, stored, inputs[..k + 1])
         == Next(c, maximum, lane, RunStates(c, maximum, lane, stored, inputs[..k]), inputs[k])
  {
    assert inputs[..k + 1] == inputs[..k] + [inputs[k]];
    RunSnoc(c, maximum, lane, stored, inputs[..k], inputs[k]);
  }

  /** Over any run lane, maximum tier and the bounds of the multiplier are kept. */
  lemma {:induction false} RunsStaySound(c: Config, maximum: Tier, lane: Lane, stored: Option<State>, inputs: seq<Input>)
    requires ConfigValid(c)
    ensures InLane(lane, stored) ==> InLane(lane, RunStates(c, maximum, lane, stored, inputs))
    ensures StateSound(c, maximum, lane, stored) ==>
      StateSound(c, maximum, lane, RunStates(c, maximum, lane, stored, inputs))
    decreases |inputs|
  {
    hide Next, StateSound, InLane;
    if inputs != [] {
      EvaluationStep(c, maximum, lane, stored, inputs[0]);
      RunsStaySound(c, maximum, lane, Next(c, maximum, lane, stored, inputs[0]), inputs[1..]);
    }
  }

  /** No open branch is evaluated below its stored tier. */
  predicate NeverBelow(c: Config, maximum: Tier, lane: Lane, stored: Option<State>, inputs: seq<Input>)
    requires ConfigValid(c)
  {
    forall k :: 0 <= k < |inputs| ==> AtOrAbove(maximum, RunStates(c, maximum, lane, stored, inputs[..k]), inputs[k].tier)
  }

  /** No evaluation of the run can lower the stored tier, whatever its evidence had been. */
  ghost predicate TiersHold(c: Config, maximum: Tier, lane: Lane, stored: Option<State>, inputs: seq<Input>)
    requires ConfigValid(c)
  {
    forall k, e :: 0 <= k < |inputs| ==>
      TierRank(Next(c, maximum, lane, RunStates(c, maximum, lane, stored, inputs[..k]), inputs[k].(evidence := e)))
      >= TierRank(RunStates(c, maximum, lane, stored, inputs[..k]))
  }

  /** Tiers never fall if and only if no open branch is evaluated below its stored tier. */
  lemma TiersHoldIff(c: Config, maximum: Tier, lane: Lane, stored: Option<State>, inputs: seq<Input>)
    requires ConfigValid(c)
    ensures TiersHold(c, maximum, lane, stored, inputs) <==> NeverBelow(c, maximum, lane, stored, inputs)
  {
    hide Next, RunStates, AtOrAbove;
    forall k | 0 <= k < |inputs|
      ensures (forall e ::
                 TierRank(Next(c, maximum, lane, RunStates(c, maximum, lane, stored, inputs[..k]), inputs[k].(evidence := e)))
                 >= TierRank(RunStates(c, maximum, lane, stored, inputs[..k])))
         <==> AtOrAbove(maximum, RunStates(c, maximum, lane, stored, inputs[..k]), inputs[k].tier)
    {
      var mid, i := RunStates(c, maximum, lane, stored, inputs[..k]), inputs[k];
      TierHoldsIff(c, maximum, lane, mid, i.tier, i.now);
      assert forall e :: i.(evidence := e) == Input(i.tier, e, i.now);
    }
  }

  /** Evaluated where it stands: an open branch at its stored tier, a new one anywhere. */
  predicate AtStored(stored: Option<State>, tier: Tier) {
    stored.None? || stored.value.closed || tier == stored.value.tier
  }

  ghost predicate AlwaysAtStored(c: Config, maximum: Tier, lane: Lane, stored: Option<State>, inputs: seq<Input>)
    requires ConfigValid(c)
  {
    forall k :: 0 <= k < |inputs| ==> AtStored(RunStates(c, maximum, lane, stored, inputs[..k]), inputs[k].tier)
  }

  lemma AlwaysAtStoredTail(c: Config, maximum: Tier, lane: Lane, stored: Option<State>, inputs: seq<Input>)
    requires ConfigValid(c) && AlwaysAtStored(c, maximum, lane, stored, inputs) && inputs != []
    ensures AtStored(stored, inputs[0].tier)
    ensures AlwaysAtStored(c, maximum, lane, Next(c, maximum, lane, stored, inputs[0]), inputs[1..])
  {
    hide Next;
    assert inputs[..0] == [];
    var next := Next(c, maximum, lane, stored, inputs[0]);
    forall k | 0 <= k < |inputs| - 1
      ensures AtStored(RunStates(c, maximum, lane, next, inputs[1..][..k]), inputs[1..][k].tier)
    {
      assert inputs[..k + 1][1..] == inputs[1..][..k];
      assert RunStates(c, maximum, lane, stored, inputs[..k + 1]) == RunStates(c, maximum, lane, next, inputs[1..][..k]);
    }
  }

  /** Evaluated one after another where it stands, a branch climbs at most one tier an evaluation and
      never falls, and each tier costs a full productive streak. */
  lemma {:induction false} TiersCostStreaks(c: Config, maximum: Tier, lane: Lane, s: State, inputs: seq<Input>)
    requires ConfigValid(c) && AlwaysAtStored(c, maximum, lane, Some(s), inputs)
    ensures RunStates(c, maximum, lane, Some(s), inputs).Some?
    ensures var end := RunStates(c, maximum, lane, Some(s), inputs).value;
      && Rank(s.tier) <= Rank(end.tier) <= Rank(s.tier) + |inputs|
      && (Rank(end.tier) - Rank(s.tier)) * c.advanceProductiveStreak + end.productiveStreak
         <= s.productiveStreak + |inputs|
    decreases |inputs|
  {
    hide Next, ConfigValid, StateSound, AlwaysAtStored;
    if inputs != [] {
      var next := Next(c, maximum, lane, Some(s), inputs[0]);
      AlwaysAtStoredTail(c, maximum, lane, Some(s), inputs);
      EvaluationStep(c, maximum, lane, Some(s), inputs[0]);
      StepCostsStreak(c, maximum, lane, s, inputs[0]);
      TiersCostStreaks(c, maximum, lane, next.value, inputs[1..]);
      var end, k := RunStates(c, maximum, lane, Some(s), inputs).value, c.advanceProductiveStreak;
      if Rank(next.value.tier) != Rank(s.tier) {
        assert (Rank(end.tier) - Rank(s.tier)) * k == (Rank(end.tier) - Rank(next.value.tier)) * k + k;
      }
    }
  }

  /** A tier step spends the streak it needed; any other evaluation adds at most one to it. */
  lemma StepCostsStreak(c: Config, maximum: Tier, lane: Lane, s: State, i: Input)
    requires ConfigValid(c) && AtStored(Some(s), i.tier)
    ensures var next := Next(c, maximum, lane, Some(s), i);
      && next.Some?
      && (|| (Rank(next.value.tier) == Rank(s.tier) && next.value.productiveStreak <= s.productiveStreak + 1)
          || (Rank(next.value.tier) == Rank(s.tier) + 1
              && c.advanceProductiveStreak + next.value.productiveStreak <= s.productiveStreak + 1))
  {
    hide ProductiveMultiplier, CooldownDuration;
  }

  /** The tier the caller read may be out of date: two evaluations made at the same reading, the
      first of which advances, leave the branch at the lower tier again. */
  lemma StaleTierFalls(c: Config, maximum: Tier, lane: Lane, s: State, now: Time)
    requires ConfigValid(c) && !s.closed && !CoolingDown(s, now) && Rank(s.tier) < Rank(maximum)
    requires s.productiveStreak + 1 >= c.advanceProductiveStreak
    requires c.advanceMaxSoftPressure > 0.0 && c.softCooldownThreshold > 0.0
    ensures exists e, f ::
      && TierRank(RunStates(c, maximum, lane, Some(s), [Input(s.tier, e, now)])) == Rank(s.tier) + 1
      && TierRank(RunStates(c, maximum, lane, Some(s), [Input(s.tier, e, now), Input(s.tier, f, now)])) == Rank(s.tier)
  {
    var good := Evidence(c.minimumRecentExecutions, c.productiveHitRate, 0.0, false, 0.0, c.advanceExpectedYield, 0.0, 0.0,
                         c.hardCloseThreshold - 1.0);
    var one, two := Input(s.tier, good, now), Input(s.tier, Strained(c), now);
    RunOne(c, maximum, lane, Some(s), one);
    RunSnoc(c, maximum, lane, Some(s), [one], two);
    assert [one] + [two] == [one, two];
    GoodAdvances(c, maximum, lane, s, now, good);
    hide Next, RunStates;
    StrainedKeepsOpen(c, maximum, lane, Next(c, maximum, lane, Some(s), one), s.tier, now);
  }

  lemma RunOne(c: Config, maximum: Tier, lane: Lane, stored: Option<State>, i: Input)
    requires ConfigValid(c)
    ensures RunStates(c, maximum, lane, stored, [i]) == Next(c, maximum, lane, stored, i)
  {
    hide Next;
    assert [i][1..] == [];
  }

  lemma GoodAdvances(c: Config, maximum: Tier, lane: Lane, s: State, now: Time, good: Evidence)
    requires ConfigValid(c) && !s.closed && !CoolingDown(s, now) && Rank(s.tier) < Rank(maximum)
    requires s.productiveStreak + 1 >= c.advanceProductiveStreak && Productive(c, good) && !HardExhausted(c, good)
    requires good.softPressure < c.advanceMaxSoftPressure && good.softPressure < c.softCooldownThreshold
    ensures var next := Next(c, maximum, lane, Some(s), Input(s.tier, good, now));
      TierRank(next) == Rank(s.tier) + 1 && !IsClosed(next)
  {
    hide ProductiveMultiplier, CooldownDuration;
  }

  /** Once closed, a branch evaluated one evaluation after another answers CLOSE forever. */
  lemma {:induction false} ClosedIsForever(c: Config, maximum: Tier, lane: Lane, stored: Option<State>, inputs: seq<Input>,
                                           e: Evidence, now: Time)
    requires ConfigValid(c) && IsClosed(stored)
    ensures var end := RunStates(c, maximum, lane, stored, inputs);
      && IsClosed(end) && end.value.tier == stored.value.tier
      && forall tier :: Decide(c, maximum, PriorOf(end, lane, tier, now), e, now).action.Close?
    decreases |inputs|
  {
    hide Next, StateSound;
    if inputs != [] {
      EvaluationStep(c, maximum, lane, stored, inputs[0]);
      ClosedIsForever(c, maximum, lane, Next(c, maximum, lane, stored, inputs[0]), inputs[1..], e, now);
    }
  }

  // ----- what closes a branch -------------------------------------------------------------------

  /** The evaluation that closed a branch within a run. */
  predicate ClosesAt(c: Config, maximum: Tier, lane: Lane, stored: Option<State>, inputs: seq<Input>, k: nat)
    requires ConfigValid(c)
  {
    && k < |inputs|
    && !IsClosed(RunStates(c, maximum, lane, stored, inputs[..k]))
    && IsClosed(RunStates(c, maximum, lane, stored, inputs[..k + 1]))
  }

  /** A branch found closed was closed by some evaluation. */
  lemma {:induction false} SomethingClosed(c: Config, maximum: Tier, lane: Lane, stored: Option<State>, inputs: seq<Input>)
    returns (k: nat)
    requires ConfigValid(c) && !IsClosed(stored) && IsClosed(RunStates(c, maximum, lane, stored, inputs))
    ensures ClosesAt(c, maximum, lane, stored, inputs, k)
    decreases |inputs|
  {
    hide Next;
    var n := |inputs| - 1;
    assert inputs[..n + 1] == inputs;
    if IsClosed(RunStates(c, maximum, lane, stored, inputs[..n])) {
      k := SomethingClosed(c, maximum, lane, stored, inputs[..n]);
      assert inputs[..n][..k] == inputs[..k] && inputs[..n][..k + 1] == inputs[..k + 1];
    } else {
      k := n;
    }
  }

  /** The one way to close without hard pressure. */
  lemma LowYieldClose(c: Config, maximum: Tier, lane: Lane, stored: Option<State>, i: Input)
    requires ConfigValid(c) && InLane(lane, stored) && !IsClosed(stored) && !HardExhausted(c, i.evidence)
    requires IsClosed(Next(c, maximum, lane, stored, i))
    ensures stored.Some? || c.closeLowStreak == 1
    ensures var prior := PriorOf(stored, lane, i.tier, i.now);
      && lane.Normal? && i.tier.Exhaustive? && maximum.Exhaustive? && !CoolingDown(prior, i.now)
      && LowYield(c, i.evidence) && prior.lowStreak + 1 >= c.closeLowStreak
      && Next(c, maximum, lane, stored, i).value.lowStreak == prior.lowStreak + 1
  {
    hide ProductiveMultiplier, CooldownDuration;
  }

  /** An EXPLORATION branch is only ever closed by hard budget pressure. */
  lemma ExplorationClosesOnlyHard(c: Config, maximum: Tier, stored: Option<State>, inputs: seq<Input>, k: nat)
    requires ConfigValid(c) && InLane(Exploration, stored)
    requires ClosesAt(c, maximum, Exploration, stored, inputs, k)
    ensures HardExhausted(c, inputs[k].evidence)
  {
    hide Next, RunStates, StateSound, InLane;
    RunTo(c, maximum, Exploration, stored, inputs, k);
    RunsStaySound(c, maximum, Exploration, stored, inputs[..k]);
    if !HardExhausted(c, inputs[k].evidence) {
      LowYieldClose(c, maximum, Exploration, RunStates(c, maximum, Exploration, stored, inputs[..k]), inputs[k]);
    }
  }

  /** An evaluation that neither counts towards nor resets a streak. */
  predicate Skipped(c: Config, maximum: Tier, lane: Lane, stored: Option<State>, i: Input) {
    || Rank(i.tier) > Rank(maximum) || IsClosed(stored) || HardExhausted(c, i.evidence)
    || CoolingDown(PriorOf(stored, lane, i.tier, i.now), i.now)
  }

  function LowStreak(stored: Option<State>): nat {
    if stored.Some? then stored.value.lowStreak else 0
  }

  /** The low-yield evaluations in a row at the end of a run, skipped ones left out; `n` of them
      lie before it. */
  function LowInARow(c: Config, maximum: Tier, lane: Lane, stored: Option<State>, inputs: seq<Input>, n: nat): nat
    requires ConfigValid(c)
    decreases |inputs|
  {
    if inputs == [] then n
    else
      var i := inputs[0];
      var n' := if Skipped(c, maximum, lane, stored, i) then n else if LowYield(c, i.evidence) then n + 1 else 0;
      LowInARow(c, maximum, lane, Next(c, maximum, lane, stored, i), inputs[1..], n')
  }

  /** When the present streak began: the instant of its first low-yield evaluation. */
  function StreakStart(c: Config, maximum: Tier, lane: Lane, stored: Option<State>, inputs: seq<Input>, start: Time): Time
    requires ConfigValid(c)
    decreases |inputs|
  {
    if inputs == [] then start
    else
      var next := Next(c, maximum, lane, stored, inputs[0]);
      StreakStart(c, maximum, lane, next, inputs[1..], StartAfter(c, maximum, lane, stored, inputs[0], start))
  }

  function StartAfter(c: Config, maximum: Tier, lane: Lane, stored: Option<State>, i: Input, start: Time): Time
    requires ConfigValid(c)
  {
    if LowStreak(Next(c, maximum, lane, stored, i)) == 1 && !Skipped(c, maximum, lane, stored, i) then i.now else start
  }

  predicate Chronological(inputs: seq<Input>, from: Time) {
    && (forall i :: 0 <= i < |inputs| ==> from <= inputs[i].now)
    && (forall i, j :: 0 <= i < j < |inputs| ==> inputs[i].now <= inputs[j].now)
  }

  /** What one evaluation does to the low-yield streak and its cooldown. */
  lemma StreakStep(c: Config, maximum: Tier, lane: Lane, stored: Option<State>, i: Input)
    requires ConfigValid(c)
    ensures IsClosed(stored) ==> IsClosed(Next(c, maximum, lane, stored, i))
    ensures var next := Next(c, maximum, lane, stored, i);
      if Skipped(c, maximum, lane, stored, i) then
        && LowStreak(next) == LowStreak(stored)
        && (next.None? || next.value.closed || stored.None? || next.value.cooldownUntil == stored.value.cooldownUntil)
      else
        && next.Some? && (LowStreak(next) == 0 || LowStreak(next) == LowStreak(stored) + 1)
        && (LowStreak(next) > 0 ==> LowYield(c, i.evidence))
        && (LowStreak(next) >= c.cooldownLowStreak && !IsClosed(next) ==>
              exists ordinal :: next.value.cooldownUntil == Some(i.now + CooldownDuration(c, ordinal)))
  {
    hide ProductiveMultiplier, CooldownDuration;
    var prior := PriorOf(stored, lane, i.tier, i.now);
    var next := Next(c, maximum, lane, stored, i);
    if !Skipped(c, maximum, lane, stored, i) && LowStreak(next) >= c.cooldownLowStreak && !IsClosed(next) {
      assert next.value.cooldownUntil == Some(i.now + CooldownDuration(c, prior.cooldownCount + 1));
    }
  }

  /** The stored streak never exceeds the evaluations that were really low in a row. */
  lemma {:induction false} StreakIsEarned(c: Config, maximum: Tier, lane: Lane, stored: Option<State>, inputs: seq<Input>, n: nat)
    requires ConfigValid(c) && LowStreak(stored) <= n
    ensures LowStreak(RunStates(c, maximum, lane, stored, inputs)) <= LowInARow(c, maximum, lane, stored, inputs, n)
    decreases |inputs|
  {
    hide Next, Skipped, LowStreak, LowYield;
    if inputs != [] {
      var i := inputs[0];
      StreakStep(c, maximum, lane, stored, i);
      var n' := if Skipped(c, maximum, lane, stored, i) then n else if LowYield(c, i.evidence) then n + 1 else 0;
      StreakIsEarned(c, maximum, lane, Next(c, maximum, lane, stored, i), inputs[1..], n');
    }
  }

  /** From the second cooldown on, a streak has been kept waiting a base cooldown per evaluation. */
  predicate StreakWaited(c: Config, stored: Option<State>, start: Time) {
    LowStreak(stored) >= c.cooldownLowStreak && !IsClosed(stored) ==>
      && stored.Some? && stored.value.cooldownUntil.Some?
      && start + BaseCooldowns(c, LowStreak(stored) - c.cooldownLowStreak + 1) <= stored.value.cooldownUntil.value
  }

  /** The time that `n` shortest cooldowns take. */
  function BaseCooldowns(c: Config, n: int): Time {
    (n as real) * c.cooldownBase
  }

  lemma BaseCooldownsGrow(c: Config, m: int, n: int)
    requires ConfigValid(c) && m <= n
    ensures BaseCooldowns(c, m) <= BaseCooldowns(c, n)
    ensures BaseCooldowns(c, n + 1) == BaseCooldowns(c, n) + c.cooldownBase
    ensures BaseCooldowns(c, 0) == 0.0
  {
    ProductMonotone(m as real, n as real, c.cooldownBase);
  }

  lemma StreakKeepsWaiting(c: Config, maximum: Tier, lane: Lane, stored: Option<State>, i: Input, start: Time)
    requires ConfigValid(c) && StreakWaited(c, stored, start) && start <= i.now
    ensures StreakWaited(c, Next(c, maximum, lane, stored, i), StartAfter(c, maximum, lane, stored, i, start))
  {
    hide Next, CooldownDuration, BaseCooldowns;
    StreakStep(c, maximum, lane, stored, i);
    var next := Next(c, maximum, lane, stored, i);
    if !Skipped(c, maximum, lane, stored, i) && LowStreak(next) >= c.cooldownLowStreak && !IsClosed(next) {
      var ordinal :| next.value.cooldownUntil == Some(i.now + CooldownDuration(c, ordinal));
      CooldownDoubles(c, ordinal);
      var n := LowStreak(next) - c.cooldownLowStreak;
      BaseCooldownsGrow(c, n, n);
      BaseCooldownsGrow(c, 0, n);
    }
  }

  lemma {:induction false} RunsKeepWaiting(c: Config, maximum: Tier, lane: Lane, stored: Option<State>, inputs: seq<Input>,
                                           start: Time)
    requires ConfigValid(c) && StreakWaited(c, stored, start) && Chronological(inputs, start)
    ensures var start' := StreakStart(c, maximum, lane, stored, inputs, start);
      && StreakWaited(c, RunStates(c, maximum, lane, stored, inputs), start')
      && start <= start' && (inputs == [] ==> start' == start)
      && (inputs != [] ==> start' <= inputs[|inputs| - 1].now)
    decreases |inputs|
  {
    hide Next, StreakWaited;
    if inputs != [] {
      StreakKeepsWaiting(c, maximum, lane, stored, inputs[0], start);
      var start' := StartAfter(c, maximum, lane, stored, inputs[0], start);
      assert Chronological(inputs[1..], start');
      RunsKeepWaiting(c, maximum, lane, Next(c, maximum, lane, stored, inputs[0]), inputs[1..], start');
    }
  }

  /** A branch that is closed without hard pressure is NORMAL, evaluated at EXHAUSTIVE, has just been
      found low-yield at least `closeLowStreak` times in a row, cooldowns not counted, and has waited
      out a base cooldown for each of them beyond the first `cooldownLowStreak`. */
  lemma LowYieldCloseIsSlow(c: Config, maximum: Tier, lane: Lane, inputs: seq<Input>, start: Time, k: nat)
    requires ConfigValid(c) && Chronological(inputs, start)
    requires ClosesAt(c, maximum, lane, None, inputs, k) && !HardExhausted(c, inputs[k].evidence)
    ensures SlowClose(c, maximum, lane, inputs, start, k)
  {
    hide ProductiveMultiplier, CooldownDuration, BaseCooldowns, RunStates, LowInARow, StreakStart, Next;
    var mid := RunStates(c, maximum, lane, None, inputs[..k]);
    RunTo(c, maximum, lane, None, inputs, k);
    RunsStaySound(c, maximum, lane, None, inputs[..k]);
    StreakIsEarned(c, maximum, lane, None, inputs[..k + 1], 0);
    RunsKeepWaiting(c, maximum, lane, None, inputs[..k], start);
    LowYieldClose(c, maximum, lane, mid, inputs[k]);
    BaseCooldownsGrow(c, c.closeLowStreak - c.cooldownLowStreak, LowStreak(mid) - c.cooldownLowStreak + 1);
    BaseCooldownsGrow(c, 0, 0);
  }

  predicate SlowClose(c: Config, maximum: Tier, lane: Lane, inputs: seq<Input>, start: Time, k: nat)
    requires ConfigValid(c) && k < |inputs|
  {
    && lane.Normal? && maximum.Exhaustive? && inputs[k].tier.Exhaustive?
    && LowInARow(c, maximum, lane, None, inputs[..k + 1], 0) >= c.closeLowStreak
    && inputs[k].now >= StreakStart(c, maximum, lane, None, inputs[..k], start)
                        + BaseCooldowns(c, c.closeLowStreak - c.cooldownLowStreak)
  }
}
