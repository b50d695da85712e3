/** Overlapping evaluations of one branch: each reads the stored state, awaits its evidence, and puts
    its result, with other evaluations reading and putting in between. */
module ConvergenceOverlap {
  import opened Prelude
  import opened Budgets
  import opened Convergence

  /** What an evaluation under way has read. `line` is the history of that state: the evaluations
      each of which read what the one before it had put. */
  datatype Reading = Reading(tier: Tier, now: Time, found: Option<State>, line: seq<Input>)

  /** `done` are all evaluations that have put their result, in that order. */
  datatype BranchState = BranchState(stored: Option<State>, line: seq<Input>, active: map<nat, Reading>, done: seq<Input>)

  const NEW_BRANCH := BranchState(None, [], map[], [])

  datatype Step =
    | Get(id: nat, tier: Tier, now: Time)
    | Put(id: nat, evidence: Evidence)

  function Stepped(c: Config, maximum: Tier, lane: Lane, b: BranchState, step: Step): BranchState
    requires ConfigValid(c)
  {
    match step
    case Get(id, tier, now) =>
      if Rank(tier) > Rank(maximum) || id in b.active then b
      else b.(active := b.active[id := Reading(tier, now, b.stored, b.line)])
    case Put(id, evidence) =>
      if id !in b.active then b
      else
        var r := b.active[id];
        var i := Input(r.tier, evidence, r.now);
        BranchState(Next(c, maximum, lane, r.found, i), r.line + [i], b.active - {id}, b.done + [i])
  }

  function Run(c: Config, maximum: Tier, lane: Lane, b: BranchState, steps: seq<Step>): BranchState
    requires ConfigValid(c)
    decreases |steps|
  {
    if steps == [] then b else Run(c, maximum, lane, Stepped(c, maximum, lane, b, steps[0]), steps[1..])
  }

  // ----- every stored state has a line of evaluations of its own -----------------------------------

  /** `line` is made of evaluations of `done`, in their order. */
  ghost predicate PartOf(line: seq<Input>, done: seq<Input>) {
    exists at: seq<nat> :: Places(line, done, at)
  }

  ghost predicate Places(line: seq<Input>, done: seq<Input>, at: seq<nat>) {
    && |at| == |line|
    && (forall j :: 0 <= j < |at| ==> at[j] < |done| && done[at[j]] == line[j])
    && (forall i, j :: 0 <= i < j < |at| ==> at[i] < at[j])
  }

  lemma PartOfLonger(line: seq<Input>, done: seq<Input>, i: Input)
    requires PartOf(line, done)
    ensures PartOf(line, done + [i]) && PartOf(line + [i], done + [i])
  {
    var at: seq<nat> :| Places(line, done, at);
    assert Places(line, done + [i], at);
    assert Places(line + [i], done + [i], at + [|done|]);
  }

  lemma PartOfMembers(line: seq<Input>, done: seq<Input>, k: nat)
    requires PartOf(line, done) && k < |line|
    ensures line[k] in done
  {
    var at: seq<nat> :| Places(line, done, at);
    assert done[at[k]] == line[k];
  }

  /** A state and the line it came by: an undisturbed run of that line alone, from a new branch. */
  ghost predicate Explained(c: Config, maximum: Tier, lane: Lane, s: Option<State>, line: seq<Input>, done: seq<Input>)
    requires ConfigValid(c)
  {
    s == RunStates(c, maximum, lane, None, line) && PartOf(line, done)
  }

  ghost predicate AllExplained(c: Config, maximum: Tier, lane: Lane, b: BranchState)
    requires ConfigValid(c)
  {
    && Explained(c, maximum, lane, b.stored, b.line, b.done)
    && forall id :: id in b.active ==> Explained(c, maximum, lane, b.active[id].found, b.active[id].line, b.done)
  }

  lemma StepExplains(c: Config, maximum: Tier, lane: Lane, b: BranchState, step: Step)
    requires ConfigValid(c) && AllExplained(c, maximum, lane, b)
    ensures AllExplained(c, maximum, lane, Stepped(c, maximum, lane, b, step))
  {
    hide Next, RunStates, PartOf;
    if step.Put? && step.id in b.active {
      var r := b.active[step.id];
      var i := Input(r.tier, step.evidence, r.now);
      RunSnoc(c, maximum, lane, None, r.line, i);
      PartOfLonger(r.line, b.done, i);
      forall id | id in b.active
        ensures PartOf(b.active[id].line, b.done + [i])
      {
        PartOfLonger(b.active[id].line, b.done, i);
      }
    }
  }

  /** However evaluations overlap, whatever is ever stored or read is the result of an undisturbed run
      of some of the evaluations made, in their order. */
  lemma {:induction false} EveryStateHasItsLine(c: Config, maximum: Tier, lane: Lane, b: BranchState, steps: seq<Step>)
    requires ConfigValid(c) && AllExplained(c, maximum, lane, b)
    ensures AllExplained(c, maximum, lane, Run(c, maximum, lane, b, steps))
    decreases |steps|
  {
    hide AllExplained, Stepped;
    if steps != [] {
      StepExplains(c, maximum, lane, b, steps[0]);
      EveryStateHasItsLine(c, maximum, lane, Stepped(c, maximum, lane, b, steps[0]), steps[1..]);
    }
  }

  lemma NewBranchExplained(c: Config, maximum: Tier, lane: Lane)
    requires ConfigValid(c)
    ensures AllExplained(c, maximum, lane, NEW_BRANCH)
  {
    var none: seq<nat> := [];
    assert Places([], [], none);
  }

  // ----- what the line carries over -------------------------------------------------------------------

  /** However evaluations overlap, an EXPLORATION branch is found closed only if some evaluation met
      hard budget pressure. */
  lemma ExplorationNeedsHardPressure(c: Config, maximum: Tier, steps: seq<Step>)
    requires ConfigValid(c) && IsClosed(Run(c, maximum, Exploration, NEW_BRANCH, steps).stored)
    ensures exists i :: i in Run(c, maximum, Exploration, NEW_BRANCH, steps).done && HardExhausted(c, i.evidence)
  {
    hide Run, RunStates, HardExhausted, PartOf;
    var end := Run(c, maximum, Exploration, NEW_BRANCH, steps);
    NewBranchExplained(c, maximum, Exploration);
    EveryStateHasItsLine(c, maximum, Exploration, NEW_BRANCH, steps);
    var k := SomethingClosed(c, maximum, Exploration, None, end.line);
    ExplorationClosesOnlyHard(c, maximum, None, end.line, k);
    PartOfMembers(end.line, end.done, k);
  }

  /** Each evaluation's clock reads no earlier than that of the evaluation whose result it found. */
  predicate ClockForward(c: Config, maximum: Tier, lane: Lane, b: BranchState, steps: seq<Step>)
    requires ConfigValid(c)
    decreases |steps|
  {
    steps == [] ||
    (&& (steps[0].Get? && b.stored.Some? ==> b.stored.value.updatedAt <= steps[0].now)
     && ClockForward(c, maximum, lane, Stepped(c, maximum, lane, b, steps[0]), steps[1..]))
  }

  /** A line in order of time, its last instant being the state's own. */
  ghost predicate Timed(s: Option<State>, line: seq<Input>) {
    && (s.None? <==> line == [])
    && (line != [] ==> s.Some? && s.value.updatedAt == line[|line| - 1].now && Chronological(line, line[0].now))
  }

  ghost predicate AllTimed(maximum: Tier, b: BranchState) {
    && Timed(b.stored, b.line)
    && forall id :: id in b.active ==>
         && Timed(b.active[id].found, b.active[id].line) && Rank(b.active[id].tier) <= Rank(maximum)
         && (b.active[id].found.Some? ==> b.active[id].found.value.updatedAt <= b.active[id].now)
  }

  lemma PutIsTimed(c: Config, maximum: Tier, lane: Lane, r: Reading, i: Input)
    requires ConfigValid(c) && Timed(r.found, r.line) && i.now == r.now && i.tier == r.tier && Rank(r.tier) <= Rank(maximum)
    requires r.found.Some? ==> r.found.value.updatedAt <= r.now
    ensures Timed(Next(c, maximum, lane, r.found, i), r.line + [i])
  {
    hide ProductiveMultiplier, CooldownDuration;
    var line := r.line + [i];
    assert line[|line| - 1] == i;
    assert Next(c, maximum, lane, r.found, i).value.updatedAt == i.now;
    assert forall j :: 0 <= j < |r.line| ==> line[j] == r.line[j] && line[j].now <= r.line[|r.line| - 1].now;
  }

  lemma StepIsTimed(c: Config, maximum: Tier, lane: Lane, b: BranchState, step: Step)
    requires ConfigValid(c) && AllTimed(maximum, b)
    requires step.Get? && b.stored.Some? ==> b.stored.value.updatedAt <= step.now
    ensures AllTimed(maximum, Stepped(c, maximum, lane, b, step))
  {
    hide Next, Timed;
    if step.Put? && step.id in b.active {
      var r := b.active[step.id];
      PutIsTimed(c, maximum, lane, r, Input(r.tier, step.evidence, r.now));
    }
  }

  lemma {:induction false} LinesAreTimed(c: Config, maximum: Tier, lane: Lane, b: BranchState, steps: seq<Step>)
    requires ConfigValid(c) && AllTimed(maximum, b) && ClockForward(c, maximum, lane, b, steps)
    ensures AllTimed(maximum, Run(c, maximum, lane, b, steps))
    decreases |steps|
  {
    hide AllTimed, Stepped;
    if steps != [] {
      StepIsTimed(c, maximum, lane, b, steps[0]);
      LinesAreTimed(c, maximum, lane, Stepped(c, maximum, lane, b, steps[0]), steps[1..]);
    }
  }

  /** However evaluations overlap, a branch found closed was closed, on its own line, by hard pressure
      or slowly: after the low-yield evaluations in a row and the waiting that an undisturbed run needs. */
  lemma ClosesHardOrSlowly(c: Config, maximum: Tier, lane: Lane, steps: seq<Step>)
    requires ConfigValid(c) && ClockForward(c, maximum, lane, NEW_BRANCH, steps)
    requires IsClosed(Run(c, maximum, lane, NEW_BRANCH, steps).stored)
    ensures var end := Run(c, maximum, lane, NEW_BRANCH, steps);
      && PartOf(end.line, end.done) && end.line != []
      && exists k :: 0 <= k < |end.line| && ClosesAt(c, maximum, lane, None, end.line, k)
           && (HardExhausted(c, end.line[k].evidence) || SlowClose(c, maximum, lane, end.line, end.line[0].now, k))
  {
    hide Run, RunStates, HardExhausted, PartOf, SlowClose, ClosesAt;
    var end := Run(c, maximum, lane, NEW_BRANCH, steps);
    NewBranchExplained(c, maximum, lane);
    EveryStateHasItsLine(c, maximum, lane, NEW_BRANCH, steps);
    LinesAreTimed(c, maximum, lane, NEW_BRANCH, steps);
    var k := SomethingClosed(c, maximum, lane, None, end.line);
    ClosesWithin(c, maximum, lane, end.line, k);
    if !HardExhausted(c, end.line[k].evidence) {
      LowYieldCloseIsSlow(c, maximum, lane, end.line, end.line[0].now, k);
    }
  }

  lemma ClosesWithin(c: Config, maximum: Tier, lane: Lane, line: seq<Input>, k: nat)
    requires ConfigValid(c) && ClosesAt(c, maximum, lane, None, line, k)
    ensures k < |line|
  {
  }

  // ----- what overlapping can undo ---------------------------------------------------------------------

  ghost predicate AlwaysClosed(c: Config, maximum: Tier, lane: Lane, b: BranchState)
    requires ConfigValid(c)
  {
    forall steps :: IsClosed(Run(c, maximum, lane, b, steps).stored)
  }

  /** Closed, with no evaluation under way that found the branch open. */
  predicate ClosedForAll(b: BranchState) {
    IsClosed(b.stored) && forall id :: id in b.active ==> IsClosed(b.active[id].found)
  }

  lemma ClosedForAllStays(c: Config, maximum: Tier, lane: Lane, b: BranchState, step: Step)
    requires ConfigValid(c) && ClosedForAll(b)
    ensures ClosedForAll(Stepped(c, maximum, lane, b, step))
  {
    hide ProductiveMultiplier, CooldownDuration;
  }

  lemma {:induction false} ClosedForAllAbsorbs(c: Config, maximum: Tier, lane: Lane, b: BranchState, steps: seq<Step>)
    requires ConfigValid(c) && ClosedForAll(b)
    ensures IsClosed(Run(c, maximum, lane, b, steps).stored)
    decreases |steps|
  {
    if steps != [] {
      ClosedForAllStays(c, maximum, lane, b, steps[0]);
      ClosedForAllAbsorbs(c, maximum, lane, Stepped(c, maximum, lane, b, steps[0]), steps[1..]);
    }
  }

  ghost predicate TiersAccepted(maximum: Tier, b: BranchState) {
    forall id :: id in b.active ==> Rank(b.active[id].tier) <= Rank(maximum)
  }

  /** A closed branch stays closed whatever follows if and only if no evaluation is under way that
      found it open. */
  lemma ClosedIsAbsorbingIff(c: Config, maximum: Tier, lane: Lane, b: BranchState)
    requires ConfigValid(c) && TiersAccepted(maximum, b)
    ensures AlwaysClosed(c, maximum, lane, b) <==> ClosedForAll(b)
  {
    hide Next, IsClosed;
    if ClosedForAll(b) {
      forall steps
        ensures IsClosed(Run(c, maximum, lane, b, steps).stored)
      {
        ClosedForAllAbsorbs(c, maximum, lane, b, steps);
      }
    } else if !IsClosed(b.stored) {
      assert Run(c, maximum, lane, b, []) == b;
    } else {
      var id :| id in b.active && !IsClosed(b.active[id].found);
      var r := b.active[id];
      StrainedKeepsOpen(c, maximum, lane, r.found, r.tier, r.now);
      RunOneStep(c, maximum, lane, b, Put(id, Strained(c)));
      assert !IsClosed(Run(c, maximum, lane, b, [Put(id, Strained(c))]).stored);
    }
  }

  lemma RunOneStep(c: Config, maximum: Tier, lane: Lane, b: BranchState, step: Step)
    requires ConfigValid(c)
    ensures Run(c, maximum, lane, b, [step]) == Stepped(c, maximum, lane, b, step)
  {
    hide Stepped;
    assert [step][1..] == [];
  }

  /** Whatever its evidence, an evaluation's put does not lower the stored tier if and only if the
      state it started from is at the tier now stored or above. */
  lemma PutHoldsTierIff(c: Config, maximum: Tier, lane: Lane, b: BranchState, id: nat)
    requires ConfigValid(c) && id in b.active && TiersAccepted(maximum, b)
    ensures var r := b.active[id];
      (forall e :: TierRank(Stepped(c, maximum, lane, b, Put(id, e)).stored) >= TierRank(b.stored))
      <==> Rank(PriorOf(r.found, lane, r.tier, r.now).tier) >= TierRank(b.stored)
  {
    hide Next, StateSound;
    var r := b.active[id];
    var from := Rank(PriorOf(r.found, lane, r.tier, r.now).tier);
    forall e
      ensures TierRank(Stepped(c, maximum, lane, b, Put(id, e)).stored) >= from
    {
      EvaluationStep(c, maximum, lane, r.found, Input(r.tier, e, r.now));
    }
    if IsClosed(r.found) {
      EvaluationStep(c, maximum, lane, r.found, Input(r.tier, Strained(c), r.now));
    } else {
      StrainedKeepsOpen(c, maximum, lane, r.found, r.tier, r.now);
    }
    assert TierRank(Stepped(c, maximum, lane, b, Put(id, Strained(c))).stored) == from;
  }
}
