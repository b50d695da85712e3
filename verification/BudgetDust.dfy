/** What the tolerance of the budget store can cost: runs with demands no larger than it. */
module BudgetDust {
  import opened Prelude
  import opened Sums
  import opened Budgets
  import opened BudgetBooks
  import opened BudgetStores
  import opened BudgetManagers
  import opened BudgetRuns
  import opened BudgetDrift

  const COST := Key(Global, Hard, Metric.Cost)

  const NO_LIMITS := ClassLimits(map[], map[], map[], map[])

  /** One HARD limit on the total cost, and nothing else. */
  function OneCap(cap: real): Profile {
    Profile(NO_LIMITS, NO_LIMITS.(globals := map[Metric.Cost := cap]), None, None, 0.0)
  }

  function Asking(amount: real): Request {
    Request(0, "worker", None, {}, 0, Normal, 1.0, map[Metric.Cost := amount])
  }

  function Try(cap: real, amount: real): BudgetStep {
    Reserving(Asking(amount), [Check(COST, amount, cap, cap)], 0.0, 1.0)
  }

  /** Every demand of the run is nothing or at least `least`. */
  ghost predicate RunOf(cap: real, least: real, steps: seq<BudgetStep>) {
    forall i :: 0 <= i < |steps| ==>
      && StepMade(OneCap(cap), 1.0, steps[i])
      && (steps[i].Reserving? ==>
            forall m :: m in steps[i].req.demand ==> steps[i].req.demand[m] == 0.0 || steps[i].req.demand[m] >= least)
  }

  lemma TryIsMade(cap: real, amount: real)
    requires cap >= 0.0 && amount > 0.0
    ensures StepMade(OneCap(cap), 1.0, Try(cap, amount))
  {
    var p, req, check := OneCap(cap), Asking(amount), Check(COST, amount, cap, cap);
    assert Scaled(cap, 1.0) == cap;
    assert Expected(p, req, COST) == Some(check);
    assert forall key :: Expected(p, req, key).Some? ==> key == COST;
  }

  // ----- one cycle: a whole unit and a speck are reserved, the unit is released -------------------

  function Speck(amount: real): seq<Item> { [Item(COST, amount)] }

  lemma SpeckCharges(amount: real)
    ensures Charged(Speck(amount), COST) == amount
    ensures forall m: Totals :: Added(m, Speck(amount)) == Raised(m, Item(COST, amount))
  {
    assert Speck(amount)[1..] == [];
  }

  /** A try that the store's comparison lets through. */
  lemma TryEnters(cap: real, b: Books, amount: real)
    requires BooksInv(b) && amount > 0.0 && Get(b.committed, COST) + Get(b.reserved, COST) + amount <= cap + EPSILON
    ensures var made := Opened(Asking(amount), [Check(COST, amount, cap, cap)], 0.0, 1.0);
      && made.items == Speck(amount) && made.state.Active?
      && NextBooks(OneCap(cap), b, Try(cap, amount))
         == Books(Entered(Minted(b.ledger), b.ledger.nextId, made), Raised(b.reserved, Item(COST, amount)), b.committed)
  {
    var check := Check(COST, amount, cap, cap);
    var minted := b.(ledger := Minted(b.ledger));
    assert b.ledger.nextId !in b.ledger.entries;
    assert [check][..0] == [];
    assert !Over(minted, check);
    assert Violations(minted, []) == [];
    assert Violations(minted, [check]) == [];
    SpeckCharges(amount);
    assert ItemsOf([check]) == Speck(amount);
  }

  /** Freeing a single-item reservation. */
  lemma FreeSubtracts(b: Books, id: Id, amount: real)
    requires IsActive(b.ledger, id) && b.ledger.entries[id].items == Speck(amount)
    ensures var rest := Subtracted(b.reserved, COST, amount);
      && (Underflows(b, id, Released) <==> rest.None?)
      && (rest.Some? ==> Closing(b, id, Released) == Books(Closed(b.ledger, id, Released), rest.value, b.committed))
  {
    var rest := Subtracted(b.reserved, COST, amount);
    assert Speck(amount)[1..] == [];
    if rest.Some? {
      assert Take(rest.value, b.committed, [], false).ok;
    }
  }

  function Times(n: nat, x: real): real { n as real * x }

  lemma TimesStep(n: nat, x: real)
    ensures Times(n + 1, x) == Times(n, x) + x
  {
  }

  /** After `n` cycles the totals know of nothing, while `n` specks are reserved. */
  ghost predicate Dusty(b: Books, n: nat, tiny: real) {
    && BooksInv(b) && COST !in b.reserved && Get(b.committed, COST) == 0.0
    && b.ledger.nextId == 2 * n && Usage(b.ledger, COST) == Times(n, tiny)
    && (forall k :: 0 <= k < n ==> SpeckOpen(b, k, tiny))
  }

  ghost predicate SpeckOpen(b: Books, k: nat, tiny: real) {
    IsActive(b.ledger, 2 * k + 1) && b.ledger.entries[2 * k + 1].items == Speck(tiny)
  }

  function Cycle(cap: real, tiny: real, n: nat): seq<BudgetStep> {
    [Try(cap, cap), Try(cap, tiny), Releasing(2 * n)]
  }

  lemma TwoTries(cap: real, b: Books, n: nat, tiny: real)
    requires Dusty(b, n, tiny) && cap > EPSILON && 0.0 < tiny <= EPSILON
    ensures var b1 := NextBooks(OneCap(cap), b, Try(cap, cap));
      var b2 := NextBooks(OneCap(cap), b1, Try(cap, tiny));
      && BooksInv(b2) && b2.committed == b.committed && b2.reserved == b.reserved[COST := cap + tiny]
      && b2.ledger.nextId == 2 * n + 2 && Usage(b2.ledger, COST) == Times(n, tiny) + cap + tiny
      && SpeckOpen(b2, n, tiny) && (forall k :: 0 <= k < n ==> SpeckOpen(b2, k, tiny))
      && IsActive(b2.ledger, 2 * n) && b2.ledger.entries[2 * n].items == Speck(cap)
  {
    hide BooksInv, Usage, NextBooks, Opened, Try;
    var b1 := OneTry(cap, b, cap);
    var b2 := OneTry(cap, b1, tiny);
    forall k | 0 <= k < n
      ensures SpeckOpen(b2, k, tiny)
    {
      assert SpeckOpen(b, k, tiny);
    }
    assert b2.reserved == b.reserved[COST := cap + tiny];
  }

  lemma OneTry(cap: real, b: Books, amount: real) returns (b': Books)
    requires BooksInv(b) && amount > 0.0 && Get(b.committed, COST) + Get(b.reserved, COST) + amount <= cap + EPSILON
    ensures b' == NextBooks(OneCap(cap), b, Try(cap, amount)) && BooksInv(b')
    ensures b'.committed == b.committed && b'.reserved == b.reserved[COST := Get(b.reserved, COST) + amount]
    ensures b'.ledger.nextId == b.ledger.nextId + 1 && Usage(b'.ledger, COST) == Usage(b.ledger, COST) + amount
    ensures IsActive(b'.ledger, b.ledger.nextId) && b'.ledger.entries[b.ledger.nextId].items == Speck(amount)
    ensures forall id :: id in b.ledger.entries ==>
      id != b.ledger.nextId && id in b'.ledger.entries && b'.ledger.entries[id] == b.ledger.entries[id]
  {
    hide NextBooks, BooksInv, Usage, Opened, Try;
    b' := NextBooks(OneCap(cap), b, Try(cap, amount));
    var made := Opened(Asking(amount), [Check(COST, amount, cap, cap)], 0.0, 1.0);
    TryEnters(cap, b, amount);
    EnteringCharges(b, made, amount);
  }

  lemma EnteringCharges(b: Books, made: Reservation, amount: real)
    requires BooksInv(b) && amount > 0.0 && made.items == Speck(amount) && made.state.Active?
    ensures var b' := Books(Entered(Minted(b.ledger), b.ledger.nextId, made), Raised(b.reserved, Item(COST, amount)), b.committed);
      BooksInv(b') && Usage(b'.ledger, COST) == Usage(b.ledger, COST) + amount
    ensures b.ledger.nextId !in b.ledger.entries
  {
    hide Reserved, CommittedTotal, NonNegative;
    SpeckCharges(amount);
    MintedUsage(b.ledger);
    StepKeepsSigns(b.reserved, Item(COST, amount));
    assert b.ledger.nextId !in b.ledger.order;
    EnteredUsage(Minted(b.ledger), b.ledger.nextId, made, COST);
  }

  lemma CycleForgets(cap: real, b: Books, n: nat, tiny: real)
    requires Dusty(b, n, tiny) && cap > EPSILON && 0.0 < tiny <= EPSILON
    ensures Dusty(RunBooks(OneCap(cap), b, Cycle(cap, tiny, n)), n + 1, tiny)
  {
    hide BooksInv, Usage, NextBooks, RunBooks, Opened, Closing, Try, OneCap;
    var p := OneCap(cap);
    var b1 := NextBooks(p, b, Try(cap, cap));
    var b2 := NextBooks(p, b1, Try(cap, tiny));
    TwoTries(cap, b, n, tiny);
    var b3 := ReleaseUnit(b2, 2 * n, cap, tiny);
    ReleasingCloses(p, b2, 2 * n);
    ThreeSteps(p, b, Try(cap, cap), Try(cap, tiny), Releasing(2 * n));
    TimesStep(n, tiny);
    assert b3 == RunBooks(p, b, Cycle(cap, tiny, n));
    forall k | 0 <= k < n + 1
      ensures SpeckOpen(b3, k, tiny)
    {
      assert SpeckOpen(b2, k, tiny);
    }
  }

  lemma ReleasingCloses(p: Profile, b: Books, id: Id)
    ensures NextBooks(p, b, Releasing(id)) == Closing(b, id, Released)
  {
  }

  lemma ReleaseUnit(b: Books, id: Id, cap: real, tiny: real) returns (b': Books)
    requires BooksInv(b) && IsActive(b.ledger, id) && b.ledger.entries[id].items == Speck(cap)
    requires COST in b.reserved && b.reserved[COST] == cap + tiny && 0.0 < tiny <= EPSILON && cap > EPSILON
    ensures b' == Closing(b, id, Released) && BooksInv(b') && b'.committed == b.committed && COST !in b'.reserved
    ensures b'.ledger == Closed(b.ledger, id, Released) && Usage(b'.ledger, COST) == Usage(b.ledger, COST) - cap
  {
    b' := Closing(b, id, Released);
    FreeSubtracts(b, id, cap);
    ClosingKeepsInv(b, id, Released);
    ClosedUsage(b.ledger, id, Released, COST);
    SpeckCharges(cap);
  }

  lemma ThreeSteps(p: Profile, b: Books, x: BudgetStep, y: BudgetStep, z: BudgetStep)
    ensures RunBooks(p, b, [x, y, z]) == NextBooks(p, NextBooks(p, NextBooks(p, b, x), y), z)
  {
    hide RunBooks, NextBooks;
    assert [x, y, z] == [x] + [y] + [z];
    RunBooksConcat(p, b, [x] + [y], [z]);
    RunBooksConcat(p, b, [x], [y]);
    OneStep(p, b, x);
    OneStep(p, NextBooks(p, b, x), y);
    OneStep(p, NextBooks(p, NextBooks(p, b, x), y), z);
  }

  lemma {:induction false} RunBooksConcat(p: Profile, b: Books, x: seq<BudgetStep>, y: seq<BudgetStep>)
    ensures RunBooks(p, b, x + y) == RunBooks(p, RunBooks(p, b, x), y)
    decreases |x|
  {
    hide NextBooks;
    if x == [] {
      assert x + y == y;
    } else {
      assert (x + y)[1..] == x[1..] + y;
      RunBooksConcat(p, NextBooks(p, b, x[0]), x[1..], y);
    }
  }

  function Cycles(cap: real, tiny: real, n: nat): seq<BudgetStep> {
    if n == 0 then [] else Cycles(cap, tiny, n - 1) + Cycle(cap, tiny, n - 1)
  }

  lemma NothingIsDusty(tiny: real)
    ensures Dusty(NO_BOOKS, 0, tiny)
  {
    NoBooksAreExact();
  }

  lemma {:induction false} CyclesForget(cap: real, n: nat, tiny: real)
    requires cap > EPSILON && 0.0 < tiny <= EPSILON
    ensures Dusty(RunBooks(OneCap(cap), NO_BOOKS, Cycles(cap, tiny, n)), n, tiny)
  {
    hide Dusty, Cycle, NextBooks;
    if n == 0 {
      NothingIsDusty(tiny);
    } else {
      CyclesForget(cap, n - 1, tiny);
      RunBooksConcat(OneCap(cap), NO_BOOKS, Cycles(cap, tiny, n - 1), Cycle(cap, tiny, n - 1));
      CycleForgets(cap, RunBooks(OneCap(cap), NO_BOOKS, Cycles(cap, tiny, n - 1)), n - 1, tiny);
    }
  }

  lemma {:induction false} CyclesAreMade(cap: real, n: nat, tiny: real)
    requires 0.0 < tiny <= cap
    ensures RunOf(cap, tiny, Cycles(cap, tiny, n))
  {
    hide StepMade;
    if n > 0 {
      CyclesAreMade(cap, n - 1, tiny);
      TryIsMade(cap, cap);
      TryIsMade(cap, tiny);
      OthersAreMade(cap, Releasing(2 * (n - 1)));
    }
  }

  lemma OthersAreMade(cap: real, step: BudgetStep)
    requires !step.Reserving?
    ensures StepMade(OneCap(cap), 1.0, step)
  {
  }

  // ----- what it leads to -------------------------------------------------------------------------

  lemma CoarseRun(cap: real, least: real, steps: seq<BudgetStep>)
    requires cap >= 0.0 && least > EPSILON && RunOf(cap, least, steps)
    ensures BudgetBooks.Exact(RunBooks(OneCap(cap), NO_BOOKS, steps))
    ensures Usage(RunBooks(OneCap(cap), NO_BOOKS, steps).ledger, COST) <= cap + EPSILON
  {
    hide StepMade, BudgetBooks.Exact, RunBooks;
    forall i | 0 <= i < |steps|
      ensures StepValid(OneCap(cap), 1.0, steps[i])
    {
    }
    StoreKeepsCaps(OneCap(cap), 1.0, steps, COST);
  }

  /** Whatever the HARD cap, the store lets reservations exceed it if and only if demands as small
      as the tolerance occur. */
  lemma OverrunIffTiny(cap: real, least: real)
    requires cap > EPSILON && 0.0 < least <= cap
    ensures (exists steps :: RunOf(cap, least, steps)
                          && Usage(RunBooks(OneCap(cap), NO_BOOKS, steps).ledger, COST) > cap + EPSILON)
       <==> least <= EPSILON
  {
    hide RunBooks, StepMade, RunOf, Usage;
    if least <= EPSILON {
      var n := Enough(least, cap + EPSILON);
      CyclesForget(cap, n, least);
      CyclesAreMade(cap, n, least);
    }
    forall steps | RunOf(cap, least, steps) && least > EPSILON
      ensures Usage(RunBooks(OneCap(cap), NO_BOOKS, steps).ledger, COST) <= cap + EPSILON
    {
      CoarseRun(cap, least, steps);
    }
  }

  lemma Enough(x: real, bound: real) returns (n: nat)
    requires x > 0.0 && bound > 0.0
    ensures Times(n, x) > bound
  {
    var most := bound / x;
    n := most.Floor + 1;
    assert most * x == bound && (n as real - most) * x == Times(n, x) - bound;
    assert n as real - most > 0.0;
  }

  // ----- the running totals themselves -----------------------------------------------------------

  /** Committing specks the totals have forgotten. */
  function Settles(n: nat): seq<BudgetStep> {
    if n == 0 then [] else Settles(n - 1) + [Committing(2 * (n - 1) + 1)]
  }

  /** The specks before `k` are committed, the rest are still reserved and still forgotten. */
  ghost predicate Settling(b: Books, tiny: real, n: nat, k: nat) {
    && COST !in b.reserved && Get(b.committed, COST) == Times(k, tiny)
    && (forall j :: k <= j < n ==> SpeckOpen(b, j, tiny))
  }

  lemma SettleOne(b: Books, cap: real, tiny: real, n: nat, k: nat)
    requires Settling(b, tiny, n, k) && k < n && 0.0 < tiny <= EPSILON
    ensures Settling(NextBooks(OneCap(cap), b, Committing(2 * k + 1)), tiny, n, k + 1)
  {
    assert SpeckOpen(b, k, tiny);
    CommitForgotten(b, 2 * k + 1, tiny);
    TimesStep(k, tiny);
    var b' := NextBooks(OneCap(cap), b, Committing(2 * k + 1));
    forall j | k + 1 <= j < n
      ensures SpeckOpen(b', j, tiny)
    {
      assert SpeckOpen(b, j, tiny);
    }
  }

  /** Committing a speck that the reserved total knows nothing of adds it to the committed total. */
  lemma CommitForgotten(b: Books, id: Id, tiny: real)
    requires IsActive(b.ledger, id) && b.ledger.entries[id].items == Speck(tiny)
    requires COST !in b.reserved && 0.0 < tiny <= EPSILON
    ensures Closing(b, id, Committed)
         == Books(Closed(b.ledger, id, Committed), b.reserved, Raised(b.committed, Item(COST, tiny)))
  {
    assert Speck(tiny)[1..] == [];
    assert b.reserved - {COST} == b.reserved;
    assert Take(b.reserved, Raised(b.committed, Item(COST, tiny)), [], true).ok;
  }

  lemma {:induction false} SettleAll(b: Books, cap: real, tiny: real, n: nat, k: nat)
    requires Settling(b, tiny, n, 0) && k <= n && 0.0 < tiny <= EPSILON
    ensures Settling(RunBooks(OneCap(cap), b, Settles(k)), tiny, n, k)
  {
    if k > 0 {
      hide NextBooks, Settling;
      SettleAll(b, cap, tiny, n, k - 1);
      RunBooksConcat(OneCap(cap), b, Settles(k - 1), [Committing(2 * (k - 1) + 1)]);
      OneStep(OneCap(cap), RunBooks(OneCap(cap), b, Settles(k - 1)), Committing(2 * (k - 1) + 1));
      SettleOne(RunBooks(OneCap(cap), b, Settles(k - 1)), cap, tiny, n, k - 1);
    }
  }

  lemma {:induction false} SettlesAreMade(cap: real, least: real, n: nat)
    ensures RunOf(cap, least, Settles(n))
  {
    if n > 0 {
      SettlesAreMade(cap, least, n - 1);
    }
  }

  lemma SettledOverruns(cap: real, tiny: real, n: nat)
    requires cap > EPSILON && 0.0 < tiny <= EPSILON && tiny <= cap
    ensures var steps := Cycles(cap, tiny, n) + Settles(n);
      && RunOf(cap, tiny, steps)
      && RunningTotal(RunBooks(OneCap(cap), NO_BOOKS, steps), COST) == Times(n, tiny)
  {
    hide NextBooks, RunBooks, BooksInv, Usage, StepMade;
    CyclesForget(cap, n, tiny);
    CyclesAreMade(cap, n, tiny);
    SettlesAreMade(cap, tiny, n);
    RunBooksConcat(OneCap(cap), NO_BOOKS, Cycles(cap, tiny, n), Settles(n));
    assert Times(0, tiny) == 0.0;
    SettleAll(RunBooks(OneCap(cap), NO_BOOKS, Cycles(cap, tiny, n)), cap, tiny, n, n);
  }

  /** Even by the store's own running totals, a HARD cap is passed if and only if demands as small as the
      tolerance occur: what the reserved total has forgotten a commit adds to the committed one. */
  lemma TotalsOverrunIffTiny(cap: real, least: real)
    requires cap > EPSILON && 0.0 < least <= cap
    ensures (exists steps :: RunOf(cap, least, steps)
                          && RunningTotal(RunBooks(OneCap(cap), NO_BOOKS, steps), COST) > cap + EPSILON)
       <==> least <= EPSILON
  {
    hide RunBooks, StepMade, RunOf, Usage;
    if least <= EPSILON {
      var n := Enough(least, cap + EPSILON);
      SettledOverruns(cap, least, n);
    }
    forall steps | RunOf(cap, least, steps) && least > EPSILON
      ensures RunningTotal(RunBooks(OneCap(cap), NO_BOOKS, steps), COST) <= cap + EPSILON
    {
      CoarseRun(cap, least, steps);
      ExactTotals(RunBooks(OneCap(cap), NO_BOOKS, steps), COST);
    }
  }

  lemma ExactTotals(b: Books, key: Key)
    requires BudgetBooks.Exact(b)
    ensures RunningTotal(b, key) == Usage(b.ledger, key)
  {
  }

  // ----- the underflow error ---------------------------------------------------------------------

  /** Freeing specks the totals have forgotten takes them off what is reserved by then. */
  function Frees(n: nat): seq<BudgetStep> {
    if n == 0 then [] else Frees(n - 1) + [Releasing(2 * (n - 1) + 1)]
  }

  /** The unit `2 * n` and the specks from `k` on are still reserved, the earlier ones released. */
  ghost predicate Draining(b: Books, cap: real, tiny: real, n: nat, k: nat) {
    && COST in b.reserved && b.reserved[COST] == cap - Times(k, tiny)
    && IsActive(b.ledger, 2 * n) && b.ledger.entries[2 * n].items == Speck(cap)
    && (forall j :: k <= j < n ==> SpeckOpen(b, j, tiny))
  }

  lemma DrainOne(b: Books, cap: real, tiny: real, n: nat, k: nat)
    requires Draining(b, cap, tiny, n, k) && k < n && tiny > 0.0 && cap - Times(k + 1, tiny) > EPSILON
    ensures Draining(NextBooks(OneCap(cap), b, Releasing(2 * k + 1)), cap, tiny, n, k + 1)
  {
    assert SpeckOpen(b, k, tiny);
    FreeSubtracts(b, 2 * k + 1, tiny);
    TimesStep(k, tiny);
    var b' := NextBooks(OneCap(cap), b, Releasing(2 * k + 1));
    forall j | k + 1 <= j < n
      ensures SpeckOpen(b', j, tiny)
    {
      assert SpeckOpen(b, j, tiny);
    }
  }

  lemma {:induction false} DrainAll(b: Books, cap: real, tiny: real, n: nat, k: nat)
    requires Draining(b, cap, tiny, n, 0) && k <= n && tiny > 0.0 && cap - Times(n, tiny) > EPSILON
    ensures Draining(RunBooks(OneCap(cap), b, Frees(k)), cap, tiny, n, k)
  {
    if k > 0 {
      hide NextBooks, Draining;
      DrainAll(b, cap, tiny, n, k - 1);
      TimesGrow(k, n, tiny);
      RunBooksConcat(OneCap(cap), b, Frees(k - 1), [Releasing(2 * (k - 1) + 1)]);
      OneStep(OneCap(cap), RunBooks(OneCap(cap), b, Frees(k - 1)), Releasing(2 * (k - 1) + 1));
      DrainOne(RunBooks(OneCap(cap), b, Frees(k - 1)), cap, tiny, n, k - 1);
    }
  }

  lemma TimesGrow(k: nat, n: nat, x: real)
    requires k <= n && x > 0.0
    ensures Times(k, x) <= Times(n, x)
  {
  }

  lemma OneStep(p: Profile, b: Books, step: BudgetStep)
    ensures RunBooks(p, b, [step]) == NextBooks(p, b, step)
  {
    hide NextBooks;
    assert [step][1..] == [];
  }

  /** Enough specks to exceed the tolerance, but not twice it. */
  lemma {:induction false} EnoughDust(tiny: real, k: nat) returns (n: nat)
    requires 0.0 < tiny <= EPSILON && Times(k, tiny) <= EPSILON
    ensures EPSILON < Times(n, tiny) <= 2.0 * EPSILON
    decreases (EPSILON / tiny).Floor - k
  {
    TimesStep(k, tiny);
    if Times(k + 1, tiny) > EPSILON {
      n := k + 1;
    } else {
      FloorBound(k + 1, tiny);
      n := EnoughDust(tiny, k + 1);
    }
  }

  lemma FloorBound(k: nat, tiny: real)
    requires tiny > 0.0 && Times(k, tiny) <= EPSILON
    ensures k <= (EPSILON / tiny).Floor
  {
    var most := EPSILON / tiny;
    assert (k as real - most) * tiny == Times(k, tiny) - EPSILON <= 0.0;
  }

  function DustRun(cap: real, tiny: real, n: nat): seq<BudgetStep> {
    Cycles(cap, tiny, n) + [Try(cap, cap)] + Frees(n)
  }

  lemma {:induction false} FreesAreMade(cap: real, least: real, n: nat)
    ensures RunOf(cap, least, Frees(n))
  {
    if n > 0 {
      FreesAreMade(cap, least, n - 1);
    }
  }

  lemma DustRunIsMade(cap: real, tiny: real, n: nat)
    requires 0.0 < tiny <= cap
    ensures RunOf(cap, tiny, DustRun(cap, tiny, n))
  {
    hide StepMade;
    CyclesAreMade(cap, n, tiny);
    TryIsMade(cap, cap);
    FreesAreMade(cap, tiny, n);
  }

  lemma DustRunRaises(cap: real, tiny: real, n: nat)
    requires 0.0 < tiny <= EPSILON && EPSILON < Times(n, tiny) <= 2.0 * EPSILON && cap > 3.0 * EPSILON
    ensures Raises(RunBooks(OneCap(cap), NO_BOOKS, DustRun(cap, tiny, n)), Releasing(2 * n))
  {
    hide NextBooks, RunBooks, BooksInv, Usage;
    var p := OneCap(cap);
    var b := RunBooks(p, NO_BOOKS, Cycles(cap, tiny, n));
    CyclesForget(cap, n, tiny);
    var b1 := OneTry(cap, b, cap);
    OneStep(p, b, Try(cap, cap));
    RunBooksConcat(p, NO_BOOKS, Cycles(cap, tiny, n), [Try(cap, cap)]);
    RunBooksConcat(p, NO_BOOKS, Cycles(cap, tiny, n) + [Try(cap, cap)], Frees(n));
    forall j | 0 <= j < n
      ensures SpeckOpen(b1, j, tiny)
    {
      assert SpeckOpen(b, j, tiny);
    }
    assert Times(0, tiny) == 0.0;
    DrainAll(b1, cap, tiny, n, n);
    var end := RunBooks(p, b1, Frees(n));
    FreeSubtracts(end, 2 * n, cap);
  }

  /** The store raises its underflow error, on a reservation it holds itself, if and only if demands
      as small as the tolerance occur. */
  lemma UnderflowIffTiny(cap: real, least: real)
    requires cap > 3.0 * EPSILON && 0.0 < least <= cap
    ensures (exists steps, id :: RunOf(cap, least, steps) && Raises(RunBooks(OneCap(cap), NO_BOOKS, steps), Releasing(id)))
       <==> least <= EPSILON
  {
    hide RunBooks, StepMade, RunOf, Raises;
    if least <= EPSILON {
      assert Times(0, least) == 0.0;
      var n := EnoughDust(least, 0);
      DustRunIsMade(cap, least, n);
      DustRunRaises(cap, least, n);
    }
    forall steps, id | RunOf(cap, least, steps) && least > EPSILON
      ensures !Raises(RunBooks(OneCap(cap), NO_BOOKS, steps), Releasing(id))
    {
      CoarseRun(cap, least, steps);
      NothingRaises(RunBooks(OneCap(cap), NO_BOOKS, steps), id);
    }
  }

  lemma NothingRaises(b: Books, id: Id)
    requires BudgetBooks.Exact(b)
    ensures !Raises(b, Releasing(id))
  {
    ClosingIsExact(b, id, Released);
  }
}
