/** Which action an evaluation comes to and what it stores, told by the evidence and the state it found. */
module ConvergenceRulings {
  import opened Prelude
  import opened Budgets
  import opened Convergence

  /** The branch is open, its HARD limits are not used up to the threshold, and no cooldown runs. */
  predicate Judged(c: Config, s: State, e: Evidence, now: Time) {
    && !s.closed && e.hardPressure < c.hardCloseThreshold
    && (s.cooldownUntil.None? || s.cooldownUntil.value <= now)
  }

  predicate SoftFull(c: Config, e: Evidence) {
    e.softPressure >= c.softCooldownThreshold
  }

  predicate EnoughHistory(c: Config, e: Evidence) {
    e.recentExecutions >= c.minimumRecentExecutions
  }

  /** Recent work found something, and more is expected. */
  predicate FoundMuch(c: Config, e: Evidence) {
    && EnoughHistory(c, e) && e.expectedYield >= c.advanceExpectedYield
    && !(e.hitRate < c.productiveHitRate && e.novelRate < c.productiveNovelRate)
  }

  /** Recent work found little, by the trend or because the signal is high and little is left to learn. */
  predicate FoundLittle(c: Config, e: Evidence) {
    && EnoughHistory(c, e)
    && (!e.lowMarginalYield ==> e.convergenceSignal >= c.lowYieldSignal && e.uncertainty <= c.lowInformationGain)
  }

  const TIERS := [Micro, Small, Medium, Large, Exhaustive]

  /** The tiers in the order in which a branch climbs them. */
  lemma TiersInOrder(i: nat)
    requires i < 5
    ensures Rank(TIERS[i]) == i && NextTier(TIERS[i]) == TIERS[Min(i + 1, 4)]
    ensures forall t :: t in TIERS
  {
    forall t: Tier
      ensures t in TIERS
    {
      assert TIERS[Rank(t)] == t;
    }
  }

  /** A productive streak just completed, below the maximum tier and without too much soft pressure. */
  predicate Climbs(c: Config, maximum: Tier, s: State, e: Evidence, now: Time) {
    && Judged(c, s, e, now) && !SoftFull(c, e) && FoundMuch(c, e)
    && s.productiveStreak + 1 >= c.advanceProductiveStreak
    && Rank(s.tier) < Rank(maximum) && e.softPressure < c.advanceMaxSoftPressure
  }

  /** A low-yield streak of at least `length`, this evaluation counted. */
  predicate LowFor(c: Config, s: State, e: Evidence, length: nat) {
    FoundLittle(c, e) && s.lowStreak + 1 >= length
  }

  /** A NORMAL branch at EXHAUSTIVE, low for long enough and with little left to learn. */
  predicate RunsDry(c: Config, s: State, e: Evidence, now: Time) {
    && Judged(c, s, e, now) && !SoftFull(c, e) && LowFor(c, s, e, c.closeLowStreak)
    && s.lane == Normal && s.tier == Exhaustive && e.uncertainty <= c.lowInformationGain
  }

  /** A cooldown still runs. */
  predicate StillCooling(c: Config, s: State, e: Evidence, now: Time) {
    !s.closed && e.hardPressure < c.hardCloseThreshold && s.cooldownUntil.Some? && now < s.cooldownUntil.value
  }

  /** A new cooldown is due: the soft limits are full, or the branch has been low for long enough. */
  predicate MustPause(c: Config, maximum: Tier, s: State, e: Evidence, now: Time) {
    && Judged(c, s, e, now)
    && (SoftFull(c, e) || (LowFor(c, s, e, c.cooldownLowStreak) && !Climbs(c, maximum, s, e, now) && !RunsDry(c, s, e, now)))
  }

  /** When an evaluation answers what. */
  lemma ActionIff(c: Config, maximum: Tier, s: State, e: Evidence, now: Time)
    requires ConfigValid(c)
    ensures var action := Decide(c, maximum, s, e, now).action;
      && (action == Close <==> s.closed || e.hardPressure >= c.hardCloseThreshold || RunsDry(c, s, e, now))
      && (action == AdvanceTier <==> Climbs(c, maximum, s, e, now))
      && (action == Action.Cooldown <==> StillCooling(c, s, e, now) || MustPause(c, maximum, s, e, now))
      && (action == Continue <==>
            && Judged(c, s, e, now) && !SoftFull(c, e) && !Climbs(c, maximum, s, e, now)
            && (EnoughHistory(c, e) ==> !LowFor(c, s, e, c.cooldownLowStreak)))
  {
    hide ProductiveMultiplier, CooldownDuration;
  }

  /** What the counters come to when the evidence is weighed. */
  function CountedLow(c: Config, s: State, e: Evidence): nat {
    if FoundLittle(c, e) then s.lowStreak + 1 else 0
  }

  function CountedProductive(c: Config, s: State, e: Evidence): nat {
    if FoundMuch(c, e) then s.productiveStreak + 1 else 0
  }

  /** A closed branch answers CLOSE and keeps its counters; hard pressure and a dry branch close it. */
  lemma CloseStores(c: Config, maximum: Tier, s: State, e: Evidence, now: Time)
    requires ConfigValid(c)
    ensures var d := Decide(c, maximum, s, e, now);
      d.action == Close ==>
        && d.recommendedTier == s.tier && d.multiplier == 1.0 && d.cooldownUntil.None? && d.before == s
        && d.after.closed && d.after.tier == s.tier && d.after.lane == s.lane && d.after.cooldownCount == s.cooldownCount
        && d.after.lastAction == Some(Close) && d.after.updatedAt == now
        && (if s.closed then
              && d.after.evaluations == s.evaluations && d.after.cooldownUntil == s.cooldownUntil && d.after.multiplier == 1.0
              && d.after.lowStreak == s.lowStreak && d.after.productiveStreak == s.productiveStreak
            else
              && d.after.evaluations == s.evaluations + 1 && d.after.cooldownUntil.None?
              && (if e.hardPressure >= c.hardCloseThreshold then
                    && d.after.multiplier == 1.0
                    && d.after.lowStreak == s.lowStreak && d.after.productiveStreak == s.productiveStreak
                  else d.after.lowStreak == s.lowStreak + 1 && d.after.productiveStreak == 0 && d.after.multiplier == s.multiplier))
  {
    hide ProductiveMultiplier, CooldownDuration;
  }

  /** A running cooldown is repeated and nothing is counted. A new one lasts the duration of the next
      ordinal; full soft limits leave both streaks going, low yield ends the productive one. */
  lemma CooldownStores(c: Config, maximum: Tier, s: State, e: Evidence, now: Time)
    requires ConfigValid(c)
    ensures var d := Decide(c, maximum, s, e, now);
      d.action == Action.Cooldown ==>
        && d.recommendedTier == s.tier && d.multiplier == 1.0 && d.before == s && d.cooldownUntil == d.after.cooldownUntil
        && !d.after.closed && d.after.tier == s.tier && d.after.lane == s.lane && d.after.multiplier == 1.0
        && d.after.lastAction == Some(Action.Cooldown) && d.after.updatedAt == now
        && (if StillCooling(c, s, e, now) then
              && d.after.cooldownUntil == s.cooldownUntil && d.after.cooldownCount == s.cooldownCount
              && d.after.evaluations == s.evaluations
              && d.after.lowStreak == s.lowStreak && d.after.productiveStreak == s.productiveStreak
            else
              && d.after.cooldownUntil == Some(now + CooldownDuration(c, s.cooldownCount + 1))
              && d.after.cooldownCount == s.cooldownCount + 1 && d.after.evaluations == s.evaluations + 1
              && d.after.lowStreak == CountedLow(c, s, e)
              && d.after.productiveStreak == if SoftFull(c, e) then CountedProductive(c, s, e) else 0)
  {
    hide ProductiveMultiplier, CooldownDuration;
  }

  /** An advance moves up exactly one tier, at the multiplier the expected yield earns, and starts both
      streaks anew. */
  lemma AdvanceStores(c: Config, maximum: Tier, s: State, e: Evidence, now: Time)
    requires ConfigValid(c)
    ensures var d := Decide(c, maximum, s, e, now);
      d.action == AdvanceTier ==>
        && d.recommendedTier == NextTier(s.tier) && Rank(d.recommendedTier) == Rank(s.tier) + 1 && d.before == s
        && d.multiplier == ProductiveMultiplier(c, e.expectedYield) && d.cooldownUntil.None?
        && d.after == s.(tier := NextTier(s.tier), multiplier := d.multiplier, evaluations := s.evaluations + 1, lowStreak := 0,
                         productiveStreak := 0, cooldownUntil := None, lastAction := Some(AdvanceTier), updatedAt := now)
  {
    hide ProductiveMultiplier, CooldownDuration;
  }

  /** Going on without a decision: no cooldown, the streaks counted, or cleared for want of history; a
      productive branch keeps the multiplier it has earned. */
  lemma ContinueStores(c: Config, maximum: Tier, s: State, e: Evidence, now: Time)
    requires ConfigValid(c)
    ensures var d := Decide(c, maximum, s, e, now);
      d.action == Continue ==>
        && d.recommendedTier == s.tier && d.cooldownUntil.None? && d.before == s
        && d.multiplier == (if FoundMuch(c, e) then ProductiveMultiplier(c, e.expectedYield) else 1.0)
        && d.after == s.(multiplier := d.multiplier, evaluations := s.evaluations + 1, lowStreak := CountedLow(c, s, e),
                         productiveStreak := CountedProductive(c, s, e), cooldownUntil := None,
                         lastAction := Some(Continue), updatedAt := now)
  {
    hide ProductiveMultiplier, CooldownDuration;
  }

  /** The multiplier rises in a straight line from one at the threshold to the maximum at a certain yield. */
  lemma MultiplierInterpolates(c: Config, expected: real)
    requires ConfigValid(c)
    ensures expected <= c.multiplierThreshold ==> ProductiveMultiplier(c, expected) == 1.0
    ensures expected >= 1.0 && c.multiplierThreshold <= 1.0 - EPSILON ==> ProductiveMultiplier(c, expected) == c.multiplierMax
    ensures c.multiplierThreshold <= expected <= 1.0 && c.multiplierThreshold <= 1.0 - EPSILON ==>
      (ProductiveMultiplier(c, expected) - 1.0) * (1.0 - c.multiplierThreshold)
      == (c.multiplierMax - 1.0) * (expected - c.multiplierThreshold)
  {
    hide Times;
    var thr, gain := c.multiplierThreshold, c.multiplierMax - 1.0;
    Quotient(0.0, MaxReal(EPSILON, 1.0 - thr));
    TimesOne(gain);
    if c.multiplierMax > 1.0 && thr <= 1.0 - EPSILON && expected >= thr {
      var d := 1.0 - thr;
      var p := (expected - thr) / d;
      Quotient(expected - thr, d);
      if expected < 1.0 {
        ProductBounded(p, gain);
        Rescaled(p, gain, d, expected - thr);
      }
    }
  }

  lemma Quotient(x: real, d: real)
    requires d > 0.0
    ensures (x / d) * d == x
    ensures x >= 0.0 ==> x / d >= 0.0
    ensures x >= d ==> x / d >= 1.0
    ensures x <= d ==> x / d <= 1.0
    ensures x == 0.0 ==> x / d == 0.0
  {
    var q := x / d;
    assert q * d == x && (q - 1.0) * d == x - d;
  }

  lemma TimesOne(x: real)
    ensures Times(1.0, x) == x && Times(0.0, x) == 0.0
  {
  }

  lemma Rescaled(p: real, gain: real, d: real, rise: real)
    requires p * d == rise
    ensures Times(p, gain) * d == gain * rise
  {
    assert p * gain * d == gain * (p * d);
  }

  /** What an evaluation finds: a new branch at the caller's tier with nothing counted, an open one moved
      to that tier, a closed one as it is. */
  lemma FoundState(stored: Option<State>, lane: Lane, tier: Tier, now: Time)
    ensures var s := PriorOf(stored, lane, tier, now);
      match stored
      case None =>
        && s.lane == lane && s.tier == tier && s.multiplier == 1.0 && !s.closed && s.cooldownUntil.None?
        && s.evaluations == 0 && s.lowStreak == 0 && s.productiveStreak == 0 && s.cooldownCount == 0
      case Some(old_) => if old_.closed then s == old_ else s == old_.(tier := tier)
  {
  }
}
