/** How far the budget store's running totals can be from its ledger, whatever the demands. */
module BudgetDrift {
  import opened Prelude
  import opened Sums
  import opened Budgets
  import opened BudgetBooks
  import opened BudgetStores
  import opened BudgetManagers
  import opened BudgetRuns

  /** One tolerance for every item on `key`: what taking the items off a total may forget. */
  function Slack(items: seq<Item>, key: Key): real {
    if items == [] then 0.0 else Slack(items[1..], key) + if items[0].key == key then EPSILON else 0.0
  }

  function DustBy(key: Key): (Id, Reservation) -> real {
    (_, r: Reservation) => if r.state.Active? then 0.0 else Slack(r.items, key)
  }

  /** One tolerance for every item of the reservations that have ended. */
  ghost function Dust(l: Ledger, key: Key): real { Sum(l.order, l.entries, DustBy(key)) }

  function RunningTotal(b: Books, key: Key): real {
    Get(b.committed, key) + Get(b.reserved, key)
  }

  /** The committed totals are the ledger's, the reserved ones within the dust of it. */
  ghost predicate Near(b: Books) {
    BooksInv(b) && forall key :: NearOn(b, key)
  }

  ghost predicate NearOn(b: Books, key: Key) {
    && Get(b.committed, key) == CommittedTotal(b.ledger, key)
    && -Dust(b.ledger, key) <= Get(b.reserved, key) - Reserved(b.ledger, key) <= Dust(b.ledger, key)
  }

  /** Closing reservations raises the underflow error. */
  predicate Raises(b: Books, step: BudgetStep) {
    || (step.Committing? && Underflows(b, step.id, Committed))
    || (step.Releasing? && Underflows(b, step.id, Released))
    || (step.Reaping? && !Swept(b, step.now, |b.ledger.order|).ok)
  }

  predicate NeverRaises(p: Profile, b: Books, steps: seq<BudgetStep>)
    decreases |steps|
  {
    steps != [] ==> !Raises(b, steps[0]) && NeverRaises(p, NextBooks(p, b, steps[0]), steps[1..])
  }

  // ----- one operation -------------------------------------------------------------------------

  /** One subtraction forgets, or makes up, at most the tolerance, and never raises a total. */
  lemma SubtractionDrifts(m: Totals, item: Item, key: Key)
    requires Subtracted(m, item.key, item.amount).Some?
    ensures var slack := if item.key == key then EPSILON else 0.0;
      var left := Get(Subtracted(m, item.key, item.amount).value, key);
      && -slack <= left - (Get(m, key) - if item.key == key then item.amount else 0.0) <= slack
      && (Get(m, key) >= 0.0 && item.amount > 0.0 ==> 0.0 <= left <= Get(m, key))
  {
  }

  lemma {:induction false} TakeDrifts(reserved: Totals, committed: Totals, items: seq<Item>, commit: bool, key: Key)
    requires Take(reserved, committed, items, commit).ok
    ensures var t := Take(reserved, committed, items, commit);
      && -Slack(items, key) <= Get(t.reserved, key) - (Get(reserved, key) - Charged(items, key)) <= Slack(items, key)
      && Get(t.committed, key) == Get(committed, key) + Kept(items, key, commit)
    ensures Get(reserved, key) >= 0.0 && Positive(items) ==>
      0.0 <= Get(Take(reserved, committed, items, commit).reserved, key) <= Get(reserved, key)
    decreases |items|
  {
    hide Subtracted;
    if items != [] {
      var item := items[0];
      SubtractionDrifts(reserved, item, key);
      TakeDrifts(Subtracted(reserved, item.key, item.amount).value,
                 if commit && !IsCapacity(item.key.metric) then Raised(committed, item) else committed,
                 items[1..], commit, key);
    }
  }

  lemma {:induction false} SlackNonNegative(items: seq<Item>, key: Key)
    ensures Slack(items, key) >= 0.0
  {
    if items != [] {
      SlackNonNegative(items[1..], key);
    }
  }

  lemma ClosedDust(l: Ledger, id: Id, state: ReservationState, key: Key)
    requires LedgerInv(l) && IsActive(l, id) && !state.Active?
    ensures Dust(Closed(l, id, state), key) == Dust(l, key) + Slack(l.entries[id].items, key)
  {
    SumUpdate(l.order, l.entries, id, l.entries[id].(state := state), DustBy(key));
  }

  /** From `b` to `b'` no usage rises, and a running total by no more than what is forgotten meanwhile. */
  ghost predicate OnlyFrees(b: Books, b': Books, key: Key) {
    && Usage(b'.ledger, key) <= Usage(b.ledger, key)
    && Dust(b.ledger, key) <= Dust(b'.ledger, key)
    && RunningTotal(b', key) <= RunningTotal(b, key) + if IsCapacity(key.metric) then 0.0 else Dust(b'.ledger, key) - Dust(b.ledger, key)
  }

  lemma ClosingOnKey(b: Books, id: Id, state: ReservationState, key: Key)
    requires BooksInv(b) && NearOn(b, key) && !state.Active? && !Underflows(b, id, state)
    ensures NearOn(Closing(b, id, state), key) && OnlyFrees(b, Closing(b, id, state), key)
  {
    hide Reserved, CommittedTotal, Dust, Take;
    if IsActive(b.ledger, id) {
      var items := b.ledger.entries[id].items;
      assert Get(b.reserved, key) >= 0.0;
      TakeDrifts(b.reserved, b.committed, items, state.Committed?, key);
      ClosedUsage(b.ledger, id, state, key);
      ClosedDust(b.ledger, id, state, key);
      SlackNonNegative(items, key);
      ChargedNonNegative(items, key);
    }
  }

  lemma ClosingDrifts(b: Books, id: Id, state: ReservationState)
    requires Near(b) && !state.Active? && !Underflows(b, id, state)
    ensures Near(Closing(b, id, state)) && forall key :: OnlyFrees(b, Closing(b, id, state), key)
  {
    hide OnlyFrees, NearOn, BooksInv, Closing, Underflows;
    ClosingKeepsInv(b, id, state);
    forall key
      ensures NearOn(Closing(b, id, state), key) && OnlyFrees(b, Closing(b, id, state), key)
    {
      ClosingOnKey(b, id, state, key);
    }
  }

  lemma {:induction false} SweptDrifts(b: Books, now: Time, upTo: nat)
    requires Near(b) && upTo <= |b.ledger.order| && Swept(b, now, upTo).ok
    ensures Near(Swept(b, now, upTo).books) && forall key :: OnlyFrees(b, Swept(b, now, upTo).books, key)
  {
    hide Near, Closing, Underflows, OnlyFrees;
    if upTo == 0 {
      forall key
        ensures OnlyFrees(b, b, key)
      {
        FreesNothing(b, key);
      }
    } else {
      SweptDrifts(b, now, upTo - 1);
      var s, id := Swept(b, now, upTo - 1), b.ledger.order[upTo - 1];
      if IsActive(s.books.ledger, id) && s.books.ledger.entries[id].expiresAt <= now {
        ClosingDrifts(s.books, id, Expired);
        forall key
          ensures OnlyFrees(b, Closing(s.books, id, Expired), key)
        {
          FreesTwice(b, s.books, Closing(s.books, id, Expired), key);
        }
      }
    }
  }

  lemma FreesNothing(b: Books, key: Key)
    ensures OnlyFrees(b, b, key)
  {
  }

  lemma FreesTwice(a: Books, b: Books, c: Books, key: Key)
    requires OnlyFrees(a, b, key) && OnlyFrees(b, c, key)
    ensures OnlyFrees(a, c, key)
  {
    hide Usage, Dust, RunningTotal;
  }

  lemma RenewedDrifts(b: Books, id: Id, expiresAt: Time)
    requires Near(b)
    ensures var b' := b.(ledger := Renewed(b.ledger, id, expiresAt));
      Near(b') && forall key :: OnlyFrees(b, b', key)
  {
    hide Reserved, CommittedTotal;
    var l' := Renewed(b.ledger, id, expiresAt);
    RenewedIsExact(b, id, expiresAt);
    forall key
      ensures NearOn(b.(ledger := l'), key) && OnlyFrees(b, b.(ledger := l'), key)
    {
      assert NearOn(b, key);
      RenewedUsage(b.ledger, id, expiresAt, key);
      SumFrame(b.ledger.order, b.ledger.entries, l'.entries, DustBy(key));
    }
  }

  /** What a try adds to a total: its charge, unless it is refused. */
  function Granted(b: Books, checks: seq<Check>, items: seq<Item>, key: Key): real {
    if Violations(b, checks) == [] then Charged(items, key) else 0.0
  }

  /** A refused reservation mints an id and changes no total; an accepted one adds its charges to the
      running totals and to the ledger alike. */
  lemma TriedDrifts(b: Books, r: Reservation, checks: seq<Check>)
    requires Near(b) && Positive(r.items) && r.state.Active?
    ensures var b' := Tried(b.(ledger := Minted(b.ledger)), b.ledger.nextId, r, checks);
      Near(b') && forall key :: Charges(b, b', key, Granted(b, checks, r.items, key))
  {
    hide Violations, NearOn, Charges, Entered, Added, Reserved, CommittedTotal;
    var minted, id := b.(ledger := Minted(b.ledger)), b.ledger.nextId;
    var b' := Tried(minted, id, r, checks);
    MintedIsExact(b);
    TriedKeepsInv(minted, id, r, checks);
    SameTotalsSameViolations(b, checks);
    assert id !in b.ledger.entries;
    forall key
      ensures NearOn(b', key) && Charges(b, b', key, Granted(b, checks, r.items, key))
    {
      assert NearOn(b, key);
      MintingCharges(b, key);
      EnteringCharges(b, r, key);
    }
  }

  ghost predicate Charges(b: Books, b': Books, key: Key, charge: real) {
    && Dust(b'.ledger, key) == Dust(b.ledger, key)
    && Usage(b'.ledger, key) == Usage(b.ledger, key) + charge
    && RunningTotal(b', key) == RunningTotal(b, key) + charge
  }

  lemma MintingCharges(b: Books, key: Key)
    requires NearOn(b, key)
    ensures var b' := b.(ledger := Minted(b.ledger));
      NearOn(b', key) && Charges(b, b', key, 0.0)
  {
  }

  lemma EnteringCharges(b: Books, r: Reservation, key: Key)
    requires LedgerInv(b.ledger) && NearOn(b, key) && r.state.Active?
    ensures var b' := Books(Entered(Minted(b.ledger), b.ledger.nextId, r), Added(b.reserved, r.items), b.committed);
      NearOn(b', key) && Charges(b, b', key, Charged(r.items, key))
  {
    hide Added;
    var id := b.ledger.nextId;
    assert id !in b.ledger.entries && id !in b.ledger.order;
    EnteredUsage(Minted(b.ledger), id, r, key);
    SumAppend(b.ledger.order, b.ledger.entries, id, r, DustBy(key));
    AddedGet(b.reserved, r.items, key);
  }

  // ----- runs ----------------------------------------------------------------------------------

  /** Usage and running total of every limit stay within its ceiling, the tolerance and the dust. */
  ghost predicate WithinDust(p: Profile, widest: real, b: Books) {
    forall key :: Cap(p, key).Some? ==>
      && Usage(b.ledger, key) <= Ceiling(p, widest, key) + EPSILON + Dust(b.ledger, key)
      && RunningTotal(b, key) <= Ceiling(p, widest, key) + EPSILON + if IsCapacity(key.metric) then 0.0 else Dust(b.ledger, key)
  }

  lemma ReserveStaysWithin(p: Profile, widest: real, b: Books, req: Request, checks: seq<Check>, now: Time, leaseFor: Time)
    requires ProfileValid(p) && Near(b) && WithinDust(p, widest, b)
    requires RequestValid(req) && req.branchMultiplier <= widest && Compiled(p, req, checks)
    ensures var b' := StoreReserved(p, b, req, checks, now, leaseFor);
      Near(b') && WithinDust(p, widest, b')
  {
    hide Violations, Tried, Ceiling, Usage, Dust, RunningTotal, Expected, Over, Near;
    var b', r := StoreReserved(p, b, req, checks, now, leaseFor), Opened(req, checks, now, leaseFor);
    CompiledAmounts(p, req, checks);
    TriedDrifts(b, r, checks);
    ViolationsAreReal(b, checks);
    if !TooDeep(p, req) && checks != [] {
      forall key | Cap(p, key).Some?
        ensures Usage(b'.ledger, key) <= Ceiling(p, widest, key) + EPSILON + Dust(b'.ledger, key)
        ensures RunningTotal(b', key) <= Ceiling(p, widest, key) + EPSILON + if IsCapacity(key.metric) then 0.0 else Dust(b'.ledger, key)
      {
        if Violations(b, checks) == [] {
          GrantedFits(p, widest, b, req, checks, key);
        }
        assert Charges(b, b', key, Granted(b, checks, r.items, key));
      }
    }
  }

  /** A granted charge fits on top of the running total, and so, up to the dust, on top of the usage. */
  lemma GrantedFits(p: Profile, widest: real, b: Books, req: Request, checks: seq<Check>, key: Key)
    requires ProfileValid(p) && Near(b) && Cap(p, key).Some?
    requires Usage(b.ledger, key) <= Ceiling(p, widest, key) + EPSILON + Dust(b.ledger, key)
    requires RunningTotal(b, key) <= Ceiling(p, widest, key) + EPSILON + if IsCapacity(key.metric) then 0.0 else Dust(b.ledger, key)
    requires RequestValid(req) && req.branchMultiplier <= widest && Compiled(p, req, checks)
    requires forall i :: 0 <= i < |checks| ==> !Over(b, checks[i])
    ensures var charge := Charged(ItemsOf(checks), key);
      && Usage(b.ledger, key) + charge <= Ceiling(p, widest, key) + EPSILON + Dust(b.ledger, key)
      && RunningTotal(b, key) + charge
         <= Ceiling(p, widest, key) + EPSILON + if IsCapacity(key.metric) then 0.0 else Dust(b.ledger, key)
  {
    hide Expected, Ceiling, Reserved, CommittedTotal, Dust;
    assert NearOn(b, key);
    CompiledCharge(p, req, checks, key);
    DustNonNegative(b.ledger, key);
    if Expected(p, req, key).Some? {
      var c := Expected(p, req, key).value;
      KeyOfExpected(p, req, key);
      CheckBelowCeiling(p, widest, req, c);
      var i :| 0 <= i < |checks| && checks[i] == c;
      assert !Over(b, checks[i]);
    }
  }

  lemma DustNonNegative(l: Ledger, key: Key)
    ensures Dust(l, key) >= 0.0
  {
    forall id | id in l.entries
      ensures Slack(l.entries[id].items, key) >= 0.0
    {
      SlackNonNegative(l.entries[id].items, key);
    }
    SumNonNegative(l.order, l.entries, DustBy(key));
  }

  lemma FreeingStaysWithin(p: Profile, widest: real, b: Books, b': Books)
    requires WithinDust(p, widest, b) && forall key :: OnlyFrees(b, b', key)
    ensures WithinDust(p, widest, b')
  {
    hide Usage, Dust, RunningTotal, Ceiling;
    forall key | Cap(p, key).Some?
      ensures Usage(b'.ledger, key) <= Ceiling(p, widest, key) + EPSILON + Dust(b'.ledger, key)
      ensures RunningTotal(b', key) <= Ceiling(p, widest, key) + EPSILON + if IsCapacity(key.metric) then 0.0 else Dust(b'.ledger, key)
    {
      assert OnlyFrees(b, b', key);
    }
  }

  /** Every step but a reservation only frees, and does to the ledger what it does there. */
  lemma FreeingStep(p: Profile, b: Books, lanes: map<Id, Lane>, step: BudgetStep)
    requires Near(b) && !step.Reserving? && !Raises(b, step)
    ensures Near(NextBooks(p, b, step)) && forall key :: OnlyFrees(b, NextBooks(p, b, step), key)
    ensures NextBooks(p, b, step).ledger == NextHistory(p, History(b.ledger, lanes), step).ledger
  {
    hide NearOn, Closing, Underflows, OnlyFrees, BooksInv, Swept;
    match step
    case Committing(id) => ClosingDrifts(b, id, Committed); ClosingKeepsInv(b, id, Committed);
    case Releasing(id) => ClosingDrifts(b, id, Released); ClosingKeepsInv(b, id, Released);
    case Renewing(id, expiresAt) => RenewedDrifts(b, id, expiresAt);
    case Reaping(now) => SweptDrifts(b, now, |b.ledger.order|); SweepEnds(b, now);
  }

  lemma StepStaysWithin(p: Profile, widest: real, b: Books, step: BudgetStep)
    requires ProfileValid(p) && Near(b) && WithinDust(p, widest, b)
    requires StepMade(p, widest, step) && !Raises(b, step)
    ensures Near(NextBooks(p, b, step)) && WithinDust(p, widest, NextBooks(p, b, step))
  {
    hide Near, Raises, WithinDust, OnlyFrees, Compiled, StoreReserved, Closing, Swept, NextHistory;
    if step.Reserving? {
      ReserveStaysWithin(p, widest, b, step.req, step.checks, step.now, step.leaseFor);
    } else {
      FreeingStep(p, b, map[], step);
      FreeingStaysWithin(p, widest, b, NextBooks(p, b, step));
    }
  }

  lemma {:induction false} RunStaysWithin(p: Profile, widest: real, b: Books, steps: seq<BudgetStep>)
    requires ProfileValid(p) && Near(b) && WithinDust(p, widest, b) && NeverRaises(p, b, steps)
    requires forall i :: 0 <= i < |steps| ==> StepMade(p, widest, steps[i])
    ensures Near(RunBooks(p, b, steps)) && WithinDust(p, widest, RunBooks(p, b, steps))
    decreases |steps|
  {
    hide Near, WithinDust, NextBooks, Raises, StepMade;
    if steps != [] {
      StepStaysWithin(p, widest, b, steps[0]);
      RunStaysWithin(p, widest, NextBooks(p, b, steps[0]), steps[1..]);
    }
  }

  // ----- the exploration reserve ---------------------------------------------------------------

  /** The lanes of the reservations made so far. */
  function LanesAfter(p: Profile, b: Books, lanes: map<Id, Lane>, step: BudgetStep): map<Id, Lane> {
    if step.Reserving? && b.ledger.nextId in NextBooks(p, b, step).ledger.entries then lanes[b.ledger.nextId := step.req.lane]
    else lanes
  }

  function RunLanes(p: Profile, b: Books, lanes: map<Id, Lane>, steps: seq<BudgetStep>): map<Id, Lane>
    decreases |steps|
  {
    if steps == [] then lanes else RunLanes(p, NextBooks(p, b, steps[0]), LanesAfter(p, b, lanes, steps[0]), steps[1..])
  }

  ghost predicate NormalWithinDust(p: Profile, widest: real, b: Books, lanes: map<Id, Lane>) {
    && HistoryInv(History(b.ledger, lanes))
    && forall key :: Cap(p, key).Some? ==>
         NormalUsage(History(b.ledger, lanes), key)
         <= Effective(key.cls, Normal, p.reserveFraction, Ceiling(p, widest, key)) + EPSILON + Dust(b.ledger, key)
  }

  /** Freeing leaves the NORMAL lane within its share. */
  lemma FreeingKeepsReserve(p: Profile, widest: real, b: Books, lanes: map<Id, Lane>, step: BudgetStep)
    requires Near(b) && NormalWithinDust(p, widest, b, lanes) && !step.Reserving? && !Raises(b, step)
    ensures NormalWithinDust(p, widest, NextBooks(p, b, step), lanes)
  {
    hide Near, Raises, Closing, Swept, Ceiling, Effective, Dust, NormalUsage, NextBooks;
    var b' := NextBooks(p, b, step);
    FreeingStep(p, b, lanes, step);
    forall key | Cap(p, key).Some?
      ensures NormalUsage(History(b'.ledger, lanes), key)
           <= Effective(key.cls, Normal, p.reserveFraction, Ceiling(p, widest, key)) + EPSILON + Dust(b'.ledger, key)
    {
      OtherStepsOnlyFree(p, History(b.ledger, lanes), step, key);
      assert OnlyFrees(b, b', key);
    }
  }

  /** A granted NORMAL charge fits into the NORMAL share on top of the running total. */
  lemma GrantedNormalFits(p: Profile, widest: real, b: Books, lanes: map<Id, Lane>, req: Request, checks: seq<Check>, key: Key)
    requires ProfileValid(p) && Near(b) && Cap(p, key).Some? && NormalWithinDust(p, widest, b, lanes)
    requires RequestValid(req) && req.branchMultiplier <= widest && Compiled(p, req, checks)
    requires forall i :: 0 <= i < |checks| ==> !Over(b, checks[i])
    ensures NormalUsage(History(b.ledger, lanes), key) + (if req.lane.Normal? then Charged(ItemsOf(checks), key) else 0.0)
         <= Effective(key.cls, Normal, p.reserveFraction, Ceiling(p, widest, key)) + EPSILON + Dust(b.ledger, key)
  {
    hide Expected, Ceiling, Effective, Reserved, CommittedTotal, Dust, NormalUsage;
    assert NearOn(b, key);
    NormalWithinUsage(History(b.ledger, lanes), key);
    CompiledCharge(p, req, checks, key);
    if Expected(p, req, key).Some? {
      var c := Expected(p, req, key).value;
      KeyOfExpected(p, req, key);
      CheckBelowCeiling(p, widest, req, c);
      var i :| 0 <= i < |checks| && checks[i] == c;
      assert !Over(b, checks[i]);
    }
  }

  lemma EnteringKeepsInv(l: Ledger, r: Reservation)
    requires LedgerInv(l) && Positive(r.items)
    ensures LedgerInv(Entered(Minted(l), l.nextId, r))
  {
    assert l.nextId !in l.order;
  }

  lemma GrantKeepsReserve(p: Profile, widest: real, b: Books, lanes: map<Id, Lane>, req: Request, checks: seq<Check>, r: Reservation)
    requires ProfileValid(p) && Near(b) && NormalWithinDust(p, widest, b, lanes)
    requires RequestValid(req) && req.branchMultiplier <= widest && Compiled(p, req, checks)
    requires Violations(b, checks) == [] && r.state.Active? && r.items == ItemsOf(checks) && Positive(r.items)
    ensures var id := b.ledger.nextId;
      var b' := Books(Entered(Minted(b.ledger), id, r), Added(b.reserved, r.items), b.committed);
      NormalWithinDust(p, widest, b', lanes[id := req.lane])
  {
    hide Expected, Ceiling, Effective, Dust, NormalUsage, Added, Violations, NearOn, Over;
    var id := b.ledger.nextId;
    var b' := Books(Entered(Minted(b.ledger), id, r), Added(b.reserved, r.items), b.committed);
    ViolationsAreReal(b, checks);
    EnteringKeepsInv(b.ledger, r);
    forall key | Cap(p, key).Some?
      ensures NormalUsage(History(b'.ledger, lanes[id := req.lane]), key)
           <= Effective(key.cls, Normal, p.reserveFraction, Ceiling(p, widest, key)) + EPSILON + Dust(b'.ledger, key)
    {
      assert NearOn(b, key);
      NormalEntered(History(b.ledger, lanes), r, req.lane, key);
      EnteringCharges(b, r, key);
      GrantedNormalFits(p, widest, b, lanes, req, checks, key);
    }
  }

  lemma StepKeepsReserve(p: Profile, widest: real, b: Books, lanes: map<Id, Lane>, step: BudgetStep)
    requires ProfileValid(p) && Near(b) && NormalWithinDust(p, widest, b, lanes)
    requires StepMade(p, widest, step) && !Raises(b, step)
    ensures NormalWithinDust(p, widest, NextBooks(p, b, step), LanesAfter(p, b, lanes, step))
  {
    hide Raises, Compiled, Closing, Swept, Ceiling, Effective, NormalBy, NearOn, Violations, Expected, Added;
    if step.Reserving? {
      var r := Opened(step.req, step.checks, step.now, step.leaseFor);
      assert b.ledger.nextId !in b.ledger.entries;
      SameTotalsSameViolations(b, step.checks);
      CompiledAmounts(p, step.req, step.checks);
      if Violations(b, step.checks) == [] {
        GrantKeepsReserve(p, widest, b, lanes, step.req, step.checks, r);
      }
    } else {
      FreeingKeepsReserve(p, widest, b, lanes, step);
    }
  }

  lemma {:induction false} RunKeepsReserve(p: Profile, widest: real, b: Books, lanes: map<Id, Lane>, steps: seq<BudgetStep>)
    requires ProfileValid(p) && Near(b) && WithinDust(p, widest, b) && NeverRaises(p, b, steps)
    requires NormalWithinDust(p, widest, b, lanes) && forall i :: 0 <= i < |steps| ==> StepMade(p, widest, steps[i])
    ensures NormalWithinDust(p, widest, RunBooks(p, b, steps), RunLanes(p, b, lanes, steps))
    decreases |steps|
  {
    hide Near, WithinDust, NormalWithinDust, NextBooks, LanesAfter, Raises, StepMade;
    if steps != [] {
      StepStaysWithin(p, widest, b, steps[0]);
      StepKeepsReserve(p, widest, b, lanes, steps[0]);
      RunKeepsReserve(p, widest, NextBooks(p, b, steps[0]), LanesAfter(p, b, lanes, steps[0]), steps[1..]);
    }
  }

  lemma NothingWithinDust(p: Profile, widest: real)
    requires ProfileValid(p) && widest >= 1.0
    ensures Near(NO_BOOKS) && WithinDust(p, widest, NO_BOOKS) && NormalWithinDust(p, widest, NO_BOOKS, map[])
  {
    hide Ceiling, Effective;
    forall key | Cap(p, key).Some?
      ensures Ceiling(p, widest, key) >= 0.0
      ensures Effective(key.cls, Normal, p.reserveFraction, Ceiling(p, widest, key)) >= 0.0
    {
      CeilingsNonNegative(p, widest, key);
    }
  }

  /** Whatever the demands, as long as nothing underflows: the store's running totals are within the
      dust of its ledger, and no usage and no running total passes its limit by more than the tolerance
      and the dust; a running total of capacity not even by the dust. */
  lemma CapsHoldUpToDust(p: Profile, widest: real, steps: seq<BudgetStep>)
    requires ProfileValid(p) && widest >= 1.0 && NeverRaises(p, NO_BOOKS, steps)
    requires forall i :: 0 <= i < |steps| ==> StepMade(p, widest, steps[i])
    ensures Near(RunBooks(p, NO_BOOKS, steps)) && WithinDust(p, widest, RunBooks(p, NO_BOOKS, steps))
  {
    hide Near, WithinDust, NormalWithinDust, StepMade, RunBooks, NeverRaises;
    NothingWithinDust(p, widest);
    RunStaysWithin(p, widest, NO_BOOKS, steps);
  }

  /** What NORMAL work leaves of a SOFT limit that does not stretch is at least the exploration reserve,
      less the tolerance and the dust. */
  lemma ReserveHoldsUpToDust(p: Profile, widest: real, steps: seq<BudgetStep>, key: Key)
    requires ProfileValid(p) && widest >= 1.0 && NeverRaises(p, NO_BOOKS, steps)
    requires forall i :: 0 <= i < |steps| ==> StepMade(p, widest, steps[i])
    requires Cap(p, key).Some? && key.cls.Soft? && !key.bucket.Branch?
    ensures var h, cap := History(RunBooks(p, NO_BOOKS, steps).ledger, RunLanes(p, NO_BOOKS, map[], steps)), Cap(p, key).value;
      cap - NormalUsage(h, key) >= p.reserveFraction * cap - EPSILON - Dust(h.ledger, key)
  {
    hide Ceiling, Effective, StepMade, RunBooks, RunLanes, NeverRaises;
    NothingWithinDust(p, widest);
    RunKeepsReserve(p, widest, NO_BOOKS, map[], steps);
    NoStretch(p, widest, key);
  }
}
