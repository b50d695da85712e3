/** Evaluation of stored branches: budget pressure in, a decision and the next state out. */
module ConvergenceControllers {
  import opened Prelude
  import opened Sums
  import opened Budgets
  import opened BudgetBooks
  import opened BudgetStores
  import opened BudgetManagers
  import opened BranchInspectors
  import opened Convergence

  datatype BranchKey = BranchKey(target: Option<string>, branch: string, lane: Lane)

  /** The yield model's part of the evidence. */
  datatype Yield = Yield(
    recentExecutions: nat, hitRate: real, novelRate: real, lowMarginalYield: bool, convergenceSignal: real,
    expectedYield: real, uncertainty: real)

  function WithPressure(y: Yield, soft: real, hard: real): Evidence {
    Evidence(y.recentExecutions, y.hitRate, y.novelRate, y.lowMarginalYield, y.convergenceSignal,
             y.expectedYield, y.uncertainty, soft, hard)
  }

  /** `x` is the largest utilization of the branch's limits of one class; 0 if it has none. */
  ghost predicate IsPressure(p: Profile, b: Books, branch: string, cls: BudgetClass, lane: Lane, multiplier: real, x: real) {
    && (forall m :: m in BranchCaps(p, cls) ==> Reported(p, b, branch, cls, lane, multiplier, m).utilization <= x)
    && (|| (x == 0.0 && BranchCaps(p, cls) == map[])
        || exists m :: m in BranchCaps(p, cls) && Reported(p, b, branch, cls, lane, multiplier, m).utilization == x)
  }

  method LargestUtilization(pressures: seq<Pressure>) returns (x: real)
    ensures pressures == [] ==> x == 0.0
    ensures forall p :: p in pressures ==> p.utilization <= x
    ensures pressures != [] ==> exists p :: p in pressures && p.utilization == x
  {
    if pressures == [] {
      return 0.0;
    }
    x := pressures[0].utilization;
    for k := 1 to |pressures|
      invariant forall i :: 0 <= i < k ==> pressures[i].utilization <= x
      invariant exists p :: p in pressures && p.utilization == x
    {
      if pressures[k].utilization > x {
        x := pressures[k].utilization;
        assert pressures[k] in pressures;
      }
    }
  }

  lemma NoPressureNoLimits(p: Profile, b: Books, branch: string, cls: BudgetClass, lane: Lane, multiplier: real,
                           pressures: seq<Pressure>)
    requires Inspected(p, b, branch, cls, lane, multiplier, pressures)
    ensures pressures == [] ==> BranchCaps(p, cls) == map[]
  {
    hide Reported;
    assert BranchCaps(p, cls).Keys <= set x | x in pressures :: x.metric by {
      forall m | m in BranchCaps(p, cls)
        ensures m in set x | x in pressures :: x.metric
      {
        ReportNames(p, b, branch, cls, lane, multiplier, m);
      }
    }
  }

  lemma ReportNames(p: Profile, b: Books, branch: string, cls: BudgetClass, lane: Lane, multiplier: real, m: Metric)
    requires m in BranchCaps(p, cls)
    ensures Reported(p, b, branch, cls, lane, multiplier, m).metric == m
  {
  }

  class ConvergenceController {
    const config: Config
    const maximum: Tier
    const budgets: InMemoryBudgetStore
    const profile: Profile
    var states: map<BranchKey, State>

    constructor (config: Config, maximum: Tier, budgets: InMemoryBudgetStore, profile: Profile)
      ensures this.config == config && this.maximum == maximum && this.budgets == budgets && this.profile == profile
      ensures states == map[]
    {
      this.config, this.maximum, this.budgets, this.profile := config, maximum, budgets, profile;
      states := map[];
    }

    function Stored(key: BranchKey): Option<State>
      reads this
    {
      if key in states then Some(states[key]) else None
    }

    method PressureOf(branch: string, cls: BudgetClass, lane: Lane, multiplier: real) returns (x: real)
      requires budgets.Valid()
      ensures IsPressure(profile, budgets.State(), branch, cls, lane, multiplier, x)
    {
      hide InMemoryBudgetStore.Valid, Reported;
      var pressures := PressuresForCaps(budgets, profile, branch, cls, lane, multiplier);
      x := LargestUtilization(pressures);
      if pressures != [] {
        var p :| p in pressures && p.utilization == x;
        assert p.metric in BranchCaps(profile, cls);
      }
      NoPressureNoLimits(profile, budgets.State(), branch, cls, lane, multiplier, pressures);
    }

    /** Up to the read: the state the evaluation will judge. */
    method Begin(key: BranchKey, currentTier: Tier, now: Time) returns (r: Result<State>)
      ensures r == if Rank(currentTier) > Rank(maximum) then Err(Rejected)
                   else Ok(PriorOf(Stored(key), key.lane, currentTier, now))
    {
      if Rank(currentTier) > Rank(maximum) {
        return Err(Rejected);
      }
      var found := Stored(key);
      var prior := Fresh(key.lane, currentTier, now);
      if found.Some? {
        prior := found.value;
        if prior.tier != currentTier && !prior.closed {
          prior := prior.(tier := currentTier);
        }
      }
      r := Ok(prior);
    }

    /** From the evidence to the put. */
    method Finish(key: BranchKey, prior: State, observed: Yield, now: Time)
      returns (decision: Decision, ghost soft: real, ghost hard: real)
      requires ConfigValid(config) && budgets.Valid()
      modifies this
      ensures IsPressure(profile, budgets.State(), key.branch, Soft, key.lane, prior.multiplier, soft)
      ensures IsPressure(profile, budgets.State(), key.branch, Hard, key.lane, 1.0, hard)
      ensures decision == Decide(config, maximum, prior, WithPressure(observed, soft, hard), now)
      ensures states == old(states)[key := decision.after]
    {
      hide InMemoryBudgetStore.Valid, IsPressure, Decide;
      var softPressure := PressureOf(key.branch, Soft, key.lane, prior.multiplier);
      var hardPressure := PressureOf(key.branch, Hard, key.lane, 1.0);
      soft, hard := softPressure, hardPressure;
      decision := Decide(config, maximum, prior, WithPressure(observed, softPressure, hardPressure), now);
      states := states[key := decision.after];
    }

    /** What other evaluations store while this one waits for its evidence. */
    method Elsewhere(puts: seq<(BranchKey, State)>)
      modifies this
      ensures states == AfterPuts(old(states), puts)
    {
      var k := 0;
      assert puts[0..] == puts;
      while k < |puts|
        invariant 0 <= k <= |puts| && AfterPuts(states, puts[k..]) == AfterPuts(old(states), puts)
      {
        assert puts[k..][1..] == puts[k + 1..];
        states := states[puts[k].0 := puts[k].1];
        k := k + 1;
      }
    }

    /** A whole evaluation, with `puts` made by others between its read and its own put: it judges the
        state it read and overwrites whatever is stored by then. */
    method Evaluate(key: BranchKey, currentTier: Tier, observed: Yield, now: Time, puts: seq<(BranchKey, State)>)
      returns (r: Result<Decision>, ghost soft: real, ghost hard: real)
      requires ConfigValid(config) && budgets.Valid()
      modifies this
      ensures r.Err? <==> Rank(currentTier) > Rank(maximum)
      ensures r.Err? ==> states == old(states)
      ensures r.Ok? ==>
        var found := old(Stored(key));
        var prior := PriorOf(found, key.lane, currentTier, now);
        var i := Input(currentTier, WithPressure(observed, soft, hard), now);
        && IsPressure(profile, budgets.State(), key.branch, Soft, key.lane, prior.multiplier, soft)
        && IsPressure(profile, budgets.State(), key.branch, Hard, key.lane, 1.0, hard)
        && r.value == Decide(config, maximum, prior, i.evidence, now)
        && states == AfterPuts(old(states), puts)[key := r.value.after]
        && Stored(key) == Next(config, maximum, key.lane, found, i)
    {
      hide InMemoryBudgetStore.Valid, IsPressure, Decide, PriorOf;
      soft, hard := 0.0, 0.0;
      var begun := Begin(key, currentTier, now);
      if begun.Err? {
        return Err(Rejected), soft, hard;
      }
      Elsewhere(puts);
      var decision;
      decision, soft, hard := Finish(key, begun.value, observed, now);
      r := Ok(decision);
    }
  }

  function AfterPuts(states: map<BranchKey, State>, puts: seq<(BranchKey, State)>): map<BranchKey, State>
    decreases |puts|
  {
    if puts == [] then states else AfterPuts(states[puts[0].0 := puts[0].1], puts[1..])
  }
}
