/** Closing a branch for good because a HARD limit is used up, against what the limit will still refuse
    once everything now running has ended. */
module HardCloses {
  import opened Prelude
  import opened Sums
  import opened Budgets
  import opened BudgetBooks
  import opened BudgetManagers
  import opened BranchInspectors
  import opened Convergence
  import opened ConvergenceControllers

  /** An ACTIVE reservation ends COMMITTED, RELEASED or EXPIRED; any other is as it was. */
  predicate EndedAs(r: Reservation, r': Reservation) {
    if r.state.Active? then !r'.state.Active? && r' == r.(state := r'.state) else r' == r
  }

  /** One of the ways in which everything now running can end. */
  ghost predicate Ending(l: Ledger, l': Ledger) {
    && l'.order == l.order && l'.nextId == l.nextId && l'.entries.Keys == l.entries.Keys
    && forall id :: id in l.entries ==> EndedAs(l.entries[id], l'.entries[id])
  }

  /** The ending in which every ACTIVE reservation takes the same state. */
  function AllAs(l: Ledger, state: ReservationState): Ledger {
    l.(entries := map id | id in l.entries ::
      if l.entries[id].state.Active? then l.entries[id].(state := state) else l.entries[id])
  }

  lemma AllAsIsEnding(l: Ledger, state: ReservationState)
    requires !state.Active?
    ensures Ending(l, AllAs(l, state))
  {
  }

  lemma {:induction false} EndingSums(order: seq<Id>, a: map<Id, Reservation>, b: map<Id, Reservation>, key: Key)
    requires forall id :: id in a ==> id in b && EndedAs(a[id], b[id]) && Charged(a[id].items, key) >= 0.0
    requires forall id :: id in order ==> id in a
    ensures Sum(order, b, ReservedBy(key)) == 0.0
    ensures Sum(order, a, CommittedBy(key)) <= Sum(order, b, CommittedBy(key))
    ensures Sum(order, b, CommittedBy(key)) <= Sum(order, a, CommittedBy(key)) + Sum(order, a, ReservedBy(key))
    ensures IsCapacity(key.metric) ==> Sum(order, b, CommittedBy(key)) == 0.0
  {
    if order != [] {
      EndingSums(order[..|order| - 1], a, b, key);
    }
  }

  lemma {:induction false} UniformSums(order: seq<Id>, l: Ledger, key: Key)
    ensures Sum(order, AllAs(l, Released).entries, CommittedBy(key)) == Sum(order, l.entries, CommittedBy(key))
    ensures Sum(order, AllAs(l, Committed).entries, CommittedBy(key))
         == if IsCapacity(key.metric) then 0.0
            else Sum(order, l.entries, ReservedBy(key)) + Sum(order, l.entries, CommittedBy(key))
  {
    if order != [] {
      UniformSums(order[..|order| - 1], l, key);
    }
  }

  /** However the running work ends, nothing stays reserved and what is committed lies between what
      is committed now and, for a cumulative limit, the present usage. */
  lemma EndingTotals(l: Ledger, l': Ledger, key: Key)
    requires LedgerInv(l) && Ending(l, l')
    ensures Reserved(l', key) == 0.0
    ensures CommittedTotal(l, key) <= CommittedTotal(l', key) <= Usage(l, key)
    ensures IsCapacity(key.metric) ==> CommittedTotal(l', key) == 0.0
  {
    forall id | id in l.entries
      ensures Charged(l.entries[id].items, key) >= 0.0
    {
      ChargedNonNegative(l.entries[id].items, key);
    }
    EndingSums(l.order, l.entries, l'.entries, key);
  }

  ghost predicate RefusedForGood(l: Ledger, check: Check) {
    forall l' :: Ending(l, l') ==> Violates(l', check)
  }

  ghost predicate RefusedPerhaps(l: Ledger, check: Check) {
    exists l' :: Ending(l, l') && Violates(l', check)
  }

  /** A limit goes on refusing a demand whatever becomes of the running work if and only if what is
      committed already leaves no room for it; it may do so if and only if committing all of the
      running work would leave none. */
  lemma RefusedForGoodIff(l: Ledger, check: Check)
    requires LedgerInv(l)
    ensures RefusedForGood(l, check) <==> CommittedTotal(l, check.key) + check.requested > check.effective + EPSILON
    ensures RefusedPerhaps(l, check) <==>
      (if IsCapacity(check.key.metric) then 0.0 else Usage(l, check.key)) + check.requested > check.effective + EPSILON
  {
    var released, committed := AllAs(l, Released), AllAs(l, Committed);
    AllAsIsEnding(l, Released);
    AllAsIsEnding(l, Committed);
    UniformSums(l.order, l, check.key);
    EndingTotals(l, released, check.key);
    EndingTotals(l, committed, check.key);
    hide Ending, AllAs, LedgerInv;
    forall l' | Ending(l, l')
      ensures Violates(l', check) <==> CommittedTotal(l', check.key) + check.requested > check.effective + EPSILON
      ensures CommittedTotal(l, check.key) <= CommittedTotal(l', check.key) <= Usage(l, check.key)
      ensures IsCapacity(check.key.metric) ==> CommittedTotal(l', check.key) == 0.0
    {
      EndingTotals(l, l', check.key);
    }
  }

  // ----- the close ----------------------------------------------------------------------------------

  function LimitCheck(p: Profile, branch: string, m: Metric, demand: real): Check
    requires m in BranchCaps(p, Hard)
  {
    Check(Key(Branch(branch), Hard, m), demand, BranchCaps(p, Hard)[m], BranchCaps(p, Hard)[m])
  }

  /** A limit is used up to the given share of what is configured. */
  ghost predicate UsedUpTo(p: Profile, l: Ledger, branch: string, m: Metric, share: real)
    requires m in BranchCaps(p, Hard)
  {
    Usage(l, Key(Branch(branch), Hard, m)) >= Scaled(BranchCaps(p, Hard)[m], share)
  }

  /** A demand that the limit on its own would allow. */
  predicate Askable(p: Profile, m: Metric, demand: real) {
    m in BranchCaps(p, Hard) && 0.0 < demand <= BranchCaps(p, Hard)[m]
  }

  /** An evaluation that meets hard pressure closes an open branch because some HARD limit is used up to
      the threshold. A limit then refuses a demand within it for good, whatever becomes of the running
      work, if and only if it is cumulative and what is committed already leaves no room; it may come
      to refuse it if and only if it is cumulative and the present usage leaves none. */
  lemma HardCloseJustifiedIff(c: Config, maximum: Tier, p: Profile, b: Books, key: BranchKey, prior: State, e: Evidence, now: Time)
    requires ConfigValid(c) && c.hardCloseThreshold > 0.0 && ProfileValid(p) && BudgetBooks.Exact(b) && !prior.closed
    requires IsPressure(p, b, key.branch, Hard, key.lane, 1.0, e.hardPressure) && HardExhausted(c, e)
    ensures var d := Decide(c, maximum, prior, e, now);
      d.action.Close? && d.after.closed
    ensures exists m :: m in BranchCaps(p, Hard) && UsedUpTo(p, b.ledger, key.branch, m, c.hardCloseThreshold)
    ensures forall m, demand :: Askable(p, m, demand) ==>
      var check := LimitCheck(p, key.branch, m, demand);
      && (RefusedForGood(b.ledger, check) <==>
            !IsCapacity(m) && CommittedTotal(b.ledger, check.key) + demand > check.effective + EPSILON)
      && (RefusedPerhaps(b.ledger, check) <==>
            !IsCapacity(m) && Usage(b.ledger, check.key) + demand > check.effective + EPSILON)
  {
    hide RefusedForGood, RefusedPerhaps, Scaled;
    var m :| m in BranchCaps(p, Hard) && Reported(p, b, key.branch, Hard, key.lane, 1.0, m).utilization == e.hardPressure;
    PressureIsUsage(p, b, key.branch, key.lane, m, c.hardCloseThreshold);
    forall n, demand | Askable(p, n, demand)
      ensures var check := LimitCheck(p, key.branch, n, demand);
        && (RefusedForGood(b.ledger, check) <==>
              !IsCapacity(n) && CommittedTotal(b.ledger, check.key) + demand > check.effective + EPSILON)
        && (RefusedPerhaps(b.ledger, check) <==>
              !IsCapacity(n) && Usage(b.ledger, check.key) + demand > check.effective + EPSILON)
    {
      var check := LimitCheck(p, key.branch, n, demand);
      RefusedForGoodIff(b.ledger, check);
      CapacityNeverCommits(b.ledger, check.key);
    }
  }

  lemma CapacityNeverCommits(l: Ledger, key: Key)
    requires LedgerInv(l)
    ensures IsCapacity(key.metric) ==> CommittedTotal(l, key) == 0.0
  {
    if IsCapacity(key.metric) {
      NothingCommitted(l.order, l.entries, key);
    }
  }

  lemma {:induction false} NothingCommitted(order: seq<Id>, entries: map<Id, Reservation>, key: Key)
    requires IsCapacity(key.metric)
    ensures Sum(order, entries, CommittedBy(key)) == 0.0
  {
    if order != [] {
      NothingCommitted(order[..|order| - 1], entries, key);
    }
  }

  lemma PressureIsUsage(p: Profile, b: Books, branch: string, lane: Lane, m: Metric, share: real)
    requires ProfileValid(p) && BudgetBooks.Exact(b) && m in BranchCaps(p, Hard) && share > 0.0
    requires Reported(p, b, branch, Hard, lane, 1.0, m).utilization >= share
    ensures UsedUpTo(p, b.ledger, branch, m, share)
  {
    var key, cap := Key(Branch(branch), Hard, m), BranchCaps(p, Hard)[m];
    assert Get(b.committed, key) == CommittedTotal(b.ledger, key) && Get(b.reserved, key) == Reserved(b.ledger, key);
    UsageNonNegative(b.ledger, key);
    hide BudgetBooks.Exact;
    var total := Get(b.committed, key) + Get(b.reserved, key);
    if cap > 0.0 {
      ShareOfCap(total, cap, share);
    } else {
      assert Scaled(cap, share) == 0.0;
    }
  }

  lemma ShareOfCap(total: real, cap: real, share: real)
    requires cap > 0.0 && total / cap >= share
    ensures total >= Scaled(cap, share)
  {
    var u := total / cap;
    assert u * cap == total;
    ScaleBy(share, u, cap);
  }

  // ----- a close that the lost claim takes back --------------------------------------------------------

  /** The books with one admission's reservation of the whole limit, not yet claimed. */
  function OneHeld(key: Key, cap: real): Books {
    Books(Ledger([0], map[0 := Reservation(0, [Item(key, cap)], 0.0, 1.0, Active)], 1), map[key := cap], map[])
  }

  /** A single reservation of a cumulative limit's whole amount closes its branch for good; when its
      claim is lost and it is released, the same limit grants every demand within it again. */
  lemma LostClaimReopens(c: Config, maximum: Tier, p: Profile, key: BranchKey, m: Metric, cap: real, prior: State, e: Evidence,
                         now: Time, demand: real)
    requires ConfigValid(c) && c.hardCloseThreshold <= 1.0 && !prior.closed && e.hardPressure == 1.0
    requires BranchCaps(p, Hard) == map[m := cap] && !IsCapacity(m) && EPSILON < demand <= cap
    ensures var b, check := OneHeld(Key(Branch(key.branch), Hard, m), cap), LimitCheck(p, key.branch, m, demand);
      && BudgetBooks.Exact(b)
      && IsPressure(p, b, key.branch, Hard, key.lane, 1.0, e.hardPressure)
      && Decide(c, maximum, prior, e, now).after.closed
      && Violates(b.ledger, check)
      && !Violates(Closed(b.ledger, 0, Released), check)
  {
    var k := Key(Branch(key.branch), Hard, m);
    var b, check := OneHeld(k, cap), LimitCheck(p, key.branch, m, demand);
    OneHeldIsExact(k, cap);
    ClosedUsage(b.ledger, 0, Released, k);
    assert b.ledger.entries[0].items[1..] == [];
    assert Charged(b.ledger.entries[0].items, k) == cap;
    assert Get(b.committed, k) == 0.0 && Get(b.reserved, k) == cap;
    assert Reported(p, b, key.branch, Hard, key.lane, 1.0, m).utilization == 1.0 by {
      assert cap / cap == 1.0;
    }
  }

  lemma OneHeldIsExact(key: Key, cap: real)
    requires cap > EPSILON
    ensures BudgetBooks.Exact(OneHeld(key, cap))
  {
    var b := OneHeld(key, cap);
    var r := b.ledger.entries[0];
    var empty := NO_BOOKS.(ledger := Minted(NO_RESERVATIONS));
    NoBooksAreExact();
    MintedIsExact(NO_BOOKS);
    assert [r.items[0]][1..] == [];
    assert Added(empty.reserved, r.items) == map[key := cap];
    assert Tried(empty, 0, r, []) == b;
    TriedIsExact(empty, 0, r, []);
  }
}
