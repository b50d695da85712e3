/** Budget runs: what holds of usage after any mix of reservations, commits, releases and expiries. */
module BudgetRuns {
  import opened Prelude
  import opened Sums
  import opened Budgets
  import opened BudgetBooks
  import opened BudgetStores
  import opened BudgetManagers

  datatype Outcome = Allow | Defer | Deny

  datatype Decision = Decision(outcome: Outcome, reservation: Option<Id>)

  predicate TooDeep(p: Profile, req: Request) {
    || (p.hardMaxDepth.Some? && req.depth > p.hardMaxDepth.value)
    || (p.softMaxDepth.Some? && req.depth > p.softMaxDepth.value)
  }

  function Opened(req: Request, checks: seq<Check>, now: Time, leaseFor: Time): Reservation {
    Reservation(req.taskId, ItemsOf(checks), now, now + leaseFor, Active)
  }

  /** Some violated limit will never free up by itself. */
  ghost predicate PermanentlyViolated(l: Ledger, checks: seq<Check>) {
    exists c :: c in checks && Violates(l, c) && !IsCapacity(c.key.metric)
  }

  /** DENY when a depth or cumulative limit is passed, DEFER when only capacity is short. */
  ghost function Verdict(p: Profile, l: Ledger, req: Request, checks: seq<Check>): Outcome {
    if TooDeep(p, req) then Deny
    else if Fits(l, checks) then Allow
    else if PermanentlyViolated(l, checks) then Deny
    else Defer
  }

  ghost function AfterReserve(p: Profile, l: Ledger, req: Request, checks: seq<Check>, now: Time, leaseFor: Time): Ledger {
    if TooDeep(p, req) || checks == [] then l
    else if Fits(l, checks) then Entered(Minted(l), l.nextId, Opened(req, checks, now, leaseFor))
    else Minted(l)
  }

  /** Every demand is nothing or exceeds the tolerance of the bookkeeping. */
  predicate CoarseDemand(req: Request) {
    forall m :: m in req.demand ==> Grained(req.demand[m])
  }

  /** The same decision read off the store's running totals. */
  function StoreVerdict(p: Profile, b: Books, req: Request, checks: seq<Check>): Outcome {
    var violations := Violations(b, checks);
    if TooDeep(p, req) then Deny
    else if violations == [] then Allow
    else if exists i :: 0 <= i < |violations| && !IsCapacity(violations[i].check.key.metric) then Deny
    else Defer
  }

  function StoreReserved(p: Profile, b: Books, req: Request, checks: seq<Check>, now: Time, leaseFor: Time): Books {
    if TooDeep(p, req) || checks == [] then b
    else Tried(b.(ledger := Minted(b.ledger)), b.ledger.nextId, Opened(req, checks, now, leaseFor), checks)
  }

  /** `BudgetManager.reserve`: compile, try, and read the verdict off the violations. For demands
      above the tolerance, on exact books, that is the verdict of the ledger itself. */
  method Reserve(store: InMemoryBudgetStore, p: Profile, req: Request, now: Time, leaseFor: Time)
    returns (r: Result<Decision>, ghost checks: seq<Check>)
    requires store.Valid()
    modifies store
    ensures store.Valid() && Compiled(p, req, checks)
    ensures r.Err? <==> leaseFor <= 0.0
    ensures r.Err? ==> store.State() == old(store.State())
    ensures r.Ok? ==>
      && r.value.outcome == StoreVerdict(p, old(store.State()), req, checks)
      && store.State() == StoreReserved(p, old(store.State()), req, checks, now, leaseFor)
      && r.value.reservation == (if r.value.outcome.Allow? && checks != [] then Some(old(store.nextId)) else None)
    ensures old(store.Exact()) && CoarseDemand(req) ==> store.Exact()
    ensures old(store.Exact()) && CoarseDemand(req) && r.Ok? ==>
      && r.value.outcome == Verdict(p, old(store.Book()), req, checks)
      && store.Book() == AfterReserve(p, old(store.Book()), req, checks, now, leaseFor)
  {
    hide InMemoryBudgetStore.Valid, InMemoryBudgetStore.Exact, Verdict, AfterReserve, Violations;
    var compiled := CompileChecks(p, req);
    checks := compiled;
    CompiledAmounts(p, req, compiled);
    if store.Exact() && CoarseDemand(req) {
      LedgerDecides(store, p, req, compiled, now, leaseFor);
    }
    if leaseFor <= 0.0 {
      return Err(Rejected), checks;
    }
    if p.hardMaxDepth.Some? && req.depth > p.hardMaxDepth.value {
      return Ok(Decision(Deny, None)), checks;
    }
    if p.softMaxDepth.Some? && req.depth > p.softMaxDepth.value {
      return Ok(Decision(Deny, None)), checks;
    }
    if compiled == [] {
      NothingChecked(store.State());
      return Ok(Decision(Allow, None)), checks;
    }
    NotYetThere(store);
    ghost var b := store.State();
    var id := store.NewReservationId();
    SameTotalsSameViolations(b, compiled);
    var tried := store.TryReserve(id, Opened(req, compiled, now, leaseFor), compiled);
    var violations := tried.value;
    if violations == [] {
      return Ok(Decision(Allow, Some(id))), checks;
    }
    var permanent := AnyPermanent(violations);
    r := Ok(Decision(if permanent then Deny else Defer, None));
  }

  lemma NothingChecked(b: Books)
    ensures Violations(b, []) == []
  {
  }

  lemma {:induction false} SameTotalsSameViolations(b: Books, checks: seq<Check>)
    ensures Violations(b.(ledger := Minted(b.ledger)), checks) == Violations(b, checks)
  {
    if checks != [] {
      SameTotalsSameViolations(b, checks[..|checks| - 1]);
    }
  }

  lemma NotYetThere(store: InMemoryBudgetStore)
    requires store.Valid()
    ensures store.nextId !in store.reservations
  {
  }

  /** What is reserved is what was demanded: positive, and above the tolerance if the demand was. */
  lemma CompiledAmounts(p: Profile, req: Request, checks: seq<Check>)
    requires Compiled(p, req, checks)
    ensures Positive(ItemsOf(checks))
    ensures CoarseDemand(req) ==> Coarse(ItemsOf(checks))
  {
    forall i | 0 <= i < |checks|
      ensures checks[i].requested > 0.0
      ensures CoarseDemand(req) ==> checks[i].requested > EPSILON
    {
      assert checks[i] in checks;
    }
  }

  lemma LedgerDecides(store: InMemoryBudgetStore, p: Profile, req: Request, checks: seq<Check>, now: Time, leaseFor: Time)
    requires store.Exact() && Compiled(p, req, checks)
    ensures StoreVerdict(p, store.State(), req, checks) == Verdict(p, store.Book(), req, checks)
    ensures StoreReserved(p, store.State(), req, checks, now, leaseFor).ledger
         == AfterReserve(p, store.Book(), req, checks, now, leaseFor)
  {
    VerdictIsLedgers(p, store.State(), req, checks, now, leaseFor);
  }

  /** On exact books the running totals decide as the ledger's own usage would. */
  lemma VerdictIsLedgers(p: Profile, b: Books, req: Request, checks: seq<Check>, now: Time, leaseFor: Time)
    requires BudgetBooks.Exact(b)
    ensures StoreVerdict(p, b, req, checks) == Verdict(p, b.ledger, req, checks)
    ensures StoreReserved(p, b, req, checks, now, leaseFor).ledger == AfterReserve(p, b.ledger, req, checks, now, leaseFor)
  {
    NoViolationsIffFits(b, checks);
    ViolationsAreReal(b, checks);
    SameTotalsSameViolations(b, checks);
    assert b.ledger.nextId !in b.ledger.entries;
    hide Violations, Violates, Over, BudgetBooks.Exact;
    var violations := Violations(b, checks);
    if PermanentlyViolated(b.ledger, checks) {
      var c :| c in checks && Violates(b.ledger, c) && !IsCapacity(c.key.metric);
      var v :| v in violations && v.check == c;
      var i :| 0 <= i < |violations| && violations[i] == v;
    }
    if i :| 0 <= i < |violations| && !IsCapacity(violations[i].check.key.metric) {
      assert violations[i] in violations;
    }
  }

  method AnyPermanent(violations: seq<Violation>) returns (permanent: bool)
    ensures permanent <==> exists i :: 0 <= i < |violations| && !IsCapacity(violations[i].check.key.metric)
  {
    permanent := false;
    for k := 0 to |violations|
      invariant permanent <==> exists i :: 0 <= i < k && !IsCapacity(violations[i].check.key.metric)
    {
      if !IsCapacity(violations[k].check.key.metric) {
        permanent := true;
      }
    }
  }

  // ----- runs ----------------------------------------------------------------------------------

  datatype BudgetStep =
    | Reserving(req: Request, checks: seq<Check>, now: Time, leaseFor: Time)
    | Committing(id: Id)
    | Releasing(id: Id)
    | Renewing(id: Id, expiresAt: Time)
    | Reaping(now: Time)

  /** A ledger with the lane every reservation was made in. */
  datatype History = History(ledger: Ledger, lanes: map<Id, Lane>)

  const NO_HISTORY := History(NO_RESERVATIONS, map[])

  /** A step as the budget manager makes it. */
  ghost predicate StepMade(p: Profile, widest: real, step: BudgetStep) {
    step.Reserving? ==>
      && RequestValid(step.req) && step.req.branchMultiplier <= widest
      && Compiled(p, step.req, step.checks)
  }

  /** With demands above the tolerance, too. */
  ghost predicate StepValid(p: Profile, widest: real, step: BudgetStep) {
    StepMade(p, widest, step) && (step.Reserving? ==> CoarseDemand(step.req))
  }

  ghost function NextHistory(p: Profile, h: History, step: BudgetStep): History {
    match step
    case Reserving(req, checks, now, leaseFor) =>
      var l := AfterReserve(p, h.ledger, req, checks, now, leaseFor);
      History(l, if h.ledger.nextId in l.entries then h.lanes[h.ledger.nextId := req.lane] else h.lanes)
    case Committing(id) => h.(ledger := Closed(h.ledger, id, Committed))
    case Releasing(id) => h.(ledger := Closed(h.ledger, id, Released))
    case Renewing(id, expiresAt) => h.(ledger := Renewed(h.ledger, id, expiresAt))
    case Reaping(now) => h.(ledger := Reaped(h.ledger, now))
  }

  ghost function RunHistory(p: Profile, h: History, steps: seq<BudgetStep>): History
    decreases |steps|
  {
    if steps == [] then h else RunHistory(p, NextHistory(p, h, steps[0]), steps[1..])
  }

  // ----- the store's own runs ------------------------------------------------------------------

  function NextBooks(p: Profile, b: Books, step: BudgetStep): Books {
    match step
    case Reserving(req, checks, now, leaseFor) => StoreReserved(p, b, req, checks, now, leaseFor)
    case Committing(id) => Closing(b, id, Committed)
    case Releasing(id) => Closing(b, id, Released)
    case Renewing(id, expiresAt) => b.(ledger := Renewed(b.ledger, id, expiresAt))
    case Reaping(now) => Swept(b, now, |b.ledger.order|).books
  }

  function RunBooks(p: Profile, b: Books, steps: seq<BudgetStep>): Books
    decreases |steps|
  {
    if steps == [] then b else RunBooks(p, NextBooks(p, b, steps[0]), steps[1..])
  }

  lemma NextBooksIsLedgers(p: Profile, widest: real, b: Books, lanes: map<Id, Lane>, step: BudgetStep)
    requires BudgetBooks.Exact(b) && StepValid(p, widest, step)
    ensures BudgetBooks.Exact(NextBooks(p, b, step))
    ensures NextBooks(p, b, step).ledger == NextHistory(p, History(b.ledger, lanes), step).ledger
  {
    hide BudgetBooks.Exact, Closing, Tried, Violations, Verdict, Compiled, CoarseDemand, Positive, Coarse;
    match step
    case Reserving(req, checks, now, leaseFor) =>
      VerdictIsLedgers(p, b, req, checks, now, leaseFor);
      CompiledAmounts(p, req, checks);
      MintingIsExact(b);
      TriedIsExact(b.(ledger := Minted(b.ledger)), b.ledger.nextId, Opened(req, checks, now, leaseFor), checks);
    case Committing(id) => ClosingIsExact(b, id, Committed);
    case Releasing(id) => ClosingIsExact(b, id, Released);
    case Renewing(id, expiresAt) => RenewingIsExact(b, id, expiresAt);
    case Reaping(now) => SweepingIsExact(b, now);
  }

  lemma MintingIsExact(b: Books)
    requires BudgetBooks.Exact(b)
    ensures BudgetBooks.Exact(b.(ledger := Minted(b.ledger)))
  {
    MintedIsExact(b);
  }

  lemma RenewingIsExact(b: Books, id: Id, expiresAt: Time)
    requires BudgetBooks.Exact(b)
    ensures BudgetBooks.Exact(b.(ledger := Renewed(b.ledger, id, expiresAt)))
  {
    RenewedIsExact(b, id, expiresAt);
  }

  lemma SweepingIsExact(b: Books, now: Time)
    requires BudgetBooks.Exact(b)
    ensures BudgetBooks.Exact(Swept(b, now, |b.ledger.order|).books)
    ensures Swept(b, now, |b.ledger.order|).books.ledger == Reaped(b.ledger, now)
  {
    SweptIsExact(b, now, |b.ledger.order|);
    SweepEnds(b, now);
  }

  /** Over any run with demands above the tolerance the store is the ledger: its totals stay the sums
      over the reservations and it decides every reservation as the sums would. */
  lemma {:induction false} StoreRefinesLedger(p: Profile, widest: real, b: Books, lanes: map<Id, Lane>, steps: seq<BudgetStep>)
    requires BudgetBooks.Exact(b) && forall i :: 0 <= i < |steps| ==> StepValid(p, widest, steps[i])
    ensures BudgetBooks.Exact(RunBooks(p, b, steps))
    ensures RunBooks(p, b, steps).ledger == RunHistory(p, History(b.ledger, lanes), steps).ledger
    decreases |steps|
  {
    hide BudgetBooks.Exact, NextBooks, NextHistory, StepValid;
    if steps != [] {
      var next := NextHistory(p, History(b.ledger, lanes), steps[0]);
      NextBooksIsLedgers(p, widest, b, lanes, steps[0]);
      StoreRefinesLedger(p, widest, NextBooks(p, b, steps[0]), next.lanes, steps[1..]);
    }
  }

  function UsageBy(key: Key): (Id, Reservation) -> real {
    (_: Id, r: Reservation) =>
      if r.state.Active? || (r.state.Committed? && !IsCapacity(key.metric)) then Charged(r.items, key) else 0.0
  }

  function NormalBy(lanes: map<Id, Lane>, key: Key): (Id, Reservation) -> real {
    (id: Id, r: Reservation) => if id in lanes && lanes[id].Normal? then UsageBy(key)(id, r) else 0.0
  }

  /** The usage that reservations made in the NORMAL lane account for. */
  ghost function NormalUsage(h: History, key: Key): real {
    Sum(h.ledger.order, h.ledger.entries, NormalBy(h.lanes, key))
  }

  lemma {:induction false} UsageIsSum(order: seq<Id>, entries: map<Id, Reservation>, key: Key)
    ensures Sum(order, entries, UsageBy(key)) == Sum(order, entries, ReservedBy(key)) + Sum(order, entries, CommittedBy(key))
  {
    if order != [] {
      UsageIsSum(order[..|order| - 1], entries, key);
    }
  }

  lemma NormalWithinUsage(h: History, key: Key)
    requires LedgerInv(h.ledger)
    ensures NormalUsage(h, key) <= Usage(h.ledger, key)
  {
    forall id | id in h.ledger.entries
      ensures Charged(h.ledger.entries[id].items, key) >= 0.0
    {
      ChargedNonNegative(h.ledger.entries[id].items, key);
    }
    SumMonotone(h.ledger.order, h.ledger.entries, NormalBy(h.lanes, key), UsageBy(key));
    UsageIsSum(h.ledger.order, h.ledger.entries, key);
  }

  /** The most that a key's limit can be stretched to; only SOFT branch limits stretch. */
  function Ceiling(p: Profile, widest: real, key: Key): real
    requires Cap(p, key).Some?
  {
    Scaled(Cap(p, key).value, if key.bucket.Branch? && key.cls.Soft? then widest else 1.0)
  }

  /** Total usage stays within the limit and NORMAL usage within what is left of it after the
      exploration reserve. */
  ghost predicate WithinCaps(p: Profile, widest: real, h: History) {
    forall key :: Cap(p, key).Some? ==>
      && Usage(h.ledger, key) <= Ceiling(p, widest, key) + EPSILON
      && NormalUsage(h, key) <= Effective(key.cls, Normal, p.reserveFraction, Ceiling(p, widest, key)) + EPSILON
  }

  ghost predicate HistoryInv(h: History) {
    LedgerInv(h.ledger) && forall id :: id in h.lanes ==> id < h.ledger.nextId
  }

  lemma ProductNonNegative(a: real, b: real)
    requires a >= 0.0 && b >= 0.0
    ensures a * b >= 0.0
  {
  }

  lemma ScaledMonotone(c: real, m: real, n: real)
    requires c >= 0.0 && 1.0 <= m <= n
    ensures 0.0 <= Scaled(c, m) <= Scaled(c, n)
  {
    assert c * n == c * m + c * (n - m);
  }

  lemma EffectiveMonotone(cls: BudgetClass, lane: Lane, f: real, x: real, y: real)
    requires 0.0 <= f < 1.0 && 0.0 <= x <= y
    ensures Effective(cls, lane, f, x) <= Effective(cls, lane, f, y)
    ensures Effective(cls, Normal, f, x) <= Effective(cls, lane, f, x) <= x
  {
    ProductNonNegative(y - x, 1.0 - f);
    ProductNonNegative(x, f);
  }

  /** A compiled check never allows more than the ceiling of its key. */
  lemma CheckBelowCeiling(p: Profile, widest: real, req: Request, c: Check)
    requires ProfileValid(p) && RequestValid(req) && req.branchMultiplier <= widest
    requires Expected(p, req, c.key) == Some(c)
    ensures c.effective <= Ceiling(p, widest, c.key)
    ensures req.lane.Normal? ==> c.effective <= Effective(c.key.cls, Normal, p.reserveFraction, Ceiling(p, widest, c.key))
  {
    hide Scaled, Effective;
    var cap, m := Cap(p, c.key).value, Multiplier(req, c.key.bucket, c.key.cls);
    CapNonNegative(p, c.key);
    ScaledMonotone(cap, m, if c.key.bucket.Branch? && c.key.cls.Soft? then widest else 1.0);
    EffectiveMonotone(c.key.cls, req.lane, p.reserveFraction, Scaled(cap, m), Ceiling(p, widest, c.key));
    EffectiveMonotone(c.key.cls, req.lane, p.reserveFraction, Ceiling(p, widest, c.key), Ceiling(p, widest, c.key));
  }

  lemma CapNonNegative(p: Profile, key: Key)
    requires ProfileValid(p) && Cap(p, key).Some?
    ensures Cap(p, key).value >= 0.0
  {
  }

  /** What a compiled set of checks charges a limited key. */
  lemma CompiledCharge(p: Profile, req: Request, checks: seq<Check>, key: Key)
    requires Compiled(p, req, checks)
    ensures var charge := Charged(ItemsOf(checks), key);
      if Expected(p, req, key).Some? then
        Expected(p, req, key).value in checks && charge == Expected(p, req, key).value.requested
      else charge == 0.0
  {
    hide Expected;
    var items := ItemsOf(checks);
    ChargedOnce(items, key);
    if Expected(p, req, key).Some? {
      var c := Expected(p, req, key).value;
      var i :| 0 <= i < |checks| && checks[i] == c;
      KeyOfExpected(p, req, key);
      assert items[i].key == key;
    } else {
      forall i | 0 <= i < |items|
        ensures items[i].key != key
      {
        assert checks[i] in checks;
      }
    }
  }

  lemma KeyOfExpected(p: Profile, req: Request, key: Key)
    requires Expected(p, req, key).Some?
    ensures Expected(p, req, key).value.key == key
  {
  }

  /** A new reservation adds its charge to the NORMAL usage if it is made in that lane. */
  lemma NormalEntered(h: History, r: Reservation, lane: Lane, key: Key)
    requires HistoryInv(h) && r.state.Active?
    ensures var id := h.ledger.nextId;
      NormalUsage(History(Entered(Minted(h.ledger), id, r), h.lanes[id := lane]), key)
      == NormalUsage(h, key) + if lane.Normal? then Charged(r.items, key) else 0.0
  {
    var l, lanes' := h.ledger, h.lanes[h.ledger.nextId := lane];
    assert l.nextId !in l.order;
    SumAppend(l.order, l.entries, l.nextId, r, NormalBy(lanes', key));
    SameLanesSameSum(l, h.lanes, lanes', key);
    NormalWeight(lanes', key, l.nextId, r);
  }

  lemma ReserveKeepsCaps(p: Profile, widest: real, h: History, req: Request, checks: seq<Check>, now: Time, leaseFor: Time)
    requires ProfileValid(p) && HistoryInv(h) && WithinCaps(p, widest, h)
    requires RequestValid(req) && req.branchMultiplier <= widest && Compiled(p, req, checks)
    requires !TooDeep(p, req) && checks != [] && Fits(h.ledger, checks)
    ensures WithinCaps(p, widest, NextHistory(p, h, Reserving(req, checks, now, leaseFor)))
  {
    hide Expected, Effective, Scaled;
    var l, r := h.ledger, Opened(req, checks, now, leaseFor);
    var id, lanes' := l.nextId, h.lanes[l.nextId := req.lane];
    var h' := NextHistory(p, h, Reserving(req, checks, now, leaseFor));
    assert id !in l.entries;
    assert h' == History(Entered(Minted(l), id, r), lanes');
    forall key | Cap(p, key).Some?
      ensures Usage(h'.ledger, key) <= Ceiling(p, widest, key) + EPSILON
      ensures NormalUsage(h', key) <= Effective(key.cls, Normal, p.reserveFraction, Ceiling(p, widest, key)) + EPSILON
    {
      EnteredUsage(Minted(l), id, r, key);
      NormalEntered(h, r, req.lane, key);
      CompiledCharge(p, req, checks, key);
      NormalWithinUsage(h, key);
      if Expected(p, req, key).Some? {
        var c := Expected(p, req, key).value;
        KeyOfExpected(p, req, key);
        CheckBelowCeiling(p, widest, req, c);
        assert !Violates(l, c);
      }
    }
  }

  lemma NormalWeight(lanes: map<Id, Lane>, key: Key, id: Id, r: Reservation)
    requires id in lanes && r.state.Active?
    ensures NormalBy(lanes, key)(id, r) == if lanes[id].Normal? then Charged(r.items, key) else 0.0
  {
    assert UsageBy(key)(id, r) == Charged(r.items, key);
  }

  lemma SameLanesSameSum(l: Ledger, lanes: map<Id, Lane>, lanes': map<Id, Lane>, key: Key)
    requires forall id :: id in l.order ==> (id in lanes <==> id in lanes') && (id in lanes ==> lanes[id] == lanes'[id])
    ensures Sum(l.order, l.entries, NormalBy(lanes, key)) == Sum(l.order, l.entries, NormalBy(lanes', key))
  {
    SumMonotone(l.order, l.entries, NormalBy(lanes, key), NormalBy(lanes', key));
    SumMonotone(l.order, l.entries, NormalBy(lanes', key), NormalBy(lanes, key));
  }

  /** No step but a reservation raises the usage of anything. */
  lemma OtherStepsOnlyFree(p: Profile, h: History, step: BudgetStep, key: Key)
    requires HistoryInv(h) && !step.Reserving?
    ensures Usage(NextHistory(p, h, step).ledger, key) <= Usage(h.ledger, key)
    ensures NormalUsage(NextHistory(p, h, step), key) <= NormalUsage(h, key)
  {
    var a, b := h.ledger.entries, NextHistory(p, h, step).ledger.entries;
    forall id | id in a
      ensures id in b && UsageBy(key)(id, b[id]) <= UsageBy(key)(id, a[id])
    {
      ChargedNonNegative(a[id].items, key);
    }
    SumPointwise(h.ledger.order, a, b, NormalBy(h.lanes, key));
    SumPointwise(h.ledger.order, a, b, UsageBy(key));
    UsageIsSum(h.ledger.order, a, key);
    UsageIsSum(h.ledger.order, b, key);
  }

  lemma StepKeepsInv(p: Profile, widest: real, h: History, step: BudgetStep)
    requires HistoryInv(h) && StepValid(p, widest, step)
    ensures HistoryInv(NextHistory(p, h, step))
  {
    if step.Reserving? {
      forall i | 0 <= i < |step.checks|
        ensures step.checks[i].requested > 0.0
      {
        assert step.checks[i] in step.checks;
      }
      assert h.ledger.nextId !in h.ledger.order;
    }
  }

  lemma StepKeepsCaps(p: Profile, widest: real, h: History, step: BudgetStep)
    requires ProfileValid(p) && HistoryInv(h) && WithinCaps(p, widest, h) && StepValid(p, widest, step)
    ensures WithinCaps(p, widest, NextHistory(p, h, step))
  {
    hide Expected, Effective, Ceiling;
    var h' := NextHistory(p, h, step);
    if !step.Reserving? {
      forall key | Cap(p, key).Some?
        ensures Usage(h'.ledger, key) <= Ceiling(p, widest, key) + EPSILON
        ensures NormalUsage(h', key) <= Effective(key.cls, Normal, p.reserveFraction, Ceiling(p, widest, key)) + EPSILON
      {
        OtherStepsOnlyFree(p, h, step, key);
      }
    } else if !TooDeep(p, step.req) && step.checks != [] && Fits(h.ledger, step.checks) {
      ReserveKeepsCaps(p, widest, h, step.req, step.checks, step.now, step.leaseFor);
    } else {
      forall key
        ensures Usage(h'.ledger, key) == Usage(h.ledger, key) && NormalUsage(h', key) == NormalUsage(h, key)
      {
        assert h.ledger.nextId !in h.ledger.order;
        SameLanesSameSum(h.ledger, h.lanes, h'.lanes, key);
      }
    }
  }

  /** Over any run, in any mix of lanes and endings: HARD usage never passes its cap, SOFT usage
      never passes its ceiling, and the NORMAL lane never touches the exploration reserve. */
  lemma {:induction false} CapsHoldOverRuns(p: Profile, widest: real, h: History, steps: seq<BudgetStep>)
    requires ProfileValid(p) && HistoryInv(h) && WithinCaps(p, widest, h)
    requires forall i :: 0 <= i < |steps| ==> StepValid(p, widest, steps[i])
    ensures HistoryInv(RunHistory(p, h, steps)) && WithinCaps(p, widest, RunHistory(p, h, steps))
    decreases |steps|
  {
    if steps != [] {
      assert StepValid(p, widest, steps[0]);
      StepKeepsInv(p, widest, h, steps[0]);
      StepKeepsCaps(p, widest, h, steps[0]);
      CapsHoldOverRuns(p, widest, NextHistory(p, h, steps[0]), steps[1..]);
    }
  }

  /** Read from the start, for the limits that do not stretch: what NORMAL work leaves of a SOFT
      limit is always at least the exploration reserve. */
  lemma ExplorationReserveProtected(p: Profile, widest: real, steps: seq<BudgetStep>, key: Key)
    requires ProfileValid(p) && widest >= 1.0
    requires forall i :: 0 <= i < |steps| ==> StepValid(p, widest, steps[i])
    requires Cap(p, key).Some? && !(key.bucket.Branch? && key.cls.Soft?)
    ensures var h, cap := RunHistory(p, NO_HISTORY, steps), Cap(p, key).value;
      && Usage(h.ledger, key) <= cap + EPSILON
      && (key.cls.Soft? ==> cap - NormalUsage(h, key) >= p.reserveFraction * cap - EPSILON)
  {
    hide Ceiling, Effective, Scaled, Compiled;
    forall k | Cap(p, k).Some?
      ensures 0.0 <= Ceiling(p, widest, k) && 0.0 <= Effective(k.cls, Normal, p.reserveFraction, Ceiling(p, widest, k))
    {
      CeilingsNonNegative(p, widest, k);
    }
    assert WithinCaps(p, widest, NO_HISTORY);
    CapsHoldOverRuns(p, widest, NO_HISTORY, steps);
    NoStretch(p, widest, key);
  }

  lemma NoStretch(p: Profile, widest: real, key: Key)
    requires Cap(p, key).Some? && !(key.bucket.Branch? && key.cls.Soft?)
    ensures Ceiling(p, widest, key) == Cap(p, key).value
    ensures key.cls.Soft? ==>
      Effective(key.cls, Normal, p.reserveFraction, Ceiling(p, widest, key))
      == Cap(p, key).value - p.reserveFraction * Cap(p, key).value
  {
  }

  lemma CeilingsNonNegative(p: Profile, widest: real, key: Key)
    requires ProfileValid(p) && widest >= 1.0 && Cap(p, key).Some?
    ensures 0.0 <= Ceiling(p, widest, key)
    ensures 0.0 <= Effective(key.cls, Normal, p.reserveFraction, Ceiling(p, widest, key))
  {
    hide Scaled;
    CapNonNegative(p, key);
    ScaledMonotone(Cap(p, key).value, 1.0, widest);
    ScaledMonotone(Cap(p, key).value, 1.0, 1.0);
    ProductNonNegative(Ceiling(p, widest, key), 1.0 - p.reserveFraction);
  }

  /** The same for the store itself: with demands above the tolerance its reservations never exceed
      a limit that does not stretch. */
  lemma StoreKeepsCaps(p: Profile, widest: real, steps: seq<BudgetStep>, key: Key)
    requires ProfileValid(p) && widest >= 1.0
    requires forall i :: 0 <= i < |steps| ==> StepValid(p, widest, steps[i])
    requires Cap(p, key).Some? && !(key.bucket.Branch? && key.cls.Soft?)
    ensures var b := RunBooks(p, NO_BOOKS, steps);
      && BudgetBooks.Exact(b) && Usage(b.ledger, key) <= Cap(p, key).value + EPSILON
  {
    hide BudgetBooks.Exact, StepValid, NextBooks;
    NoBooksAreExact();
    StoreRefinesLedger(p, widest, NO_BOOKS, map[], steps);
    ExplorationReserveProtected(p, widest, steps, key);
  }
}
