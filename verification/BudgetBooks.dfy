/** The budget store's books as a value: the ledger, and the running totals kept beside it. */
module BudgetBooks {
  import opened Prelude
  import opened Sums
  import opened Budgets

  type Totals = map<Key, real>

  datatype Books = Books(ledger: Ledger, reserved: Totals, committed: Totals)

  const NO_BOOKS := Books(NO_RESERVATIONS, map[], map[])

  function Get(m: Totals, key: Key): real {
    if key in m then m[key] else 0.0
  }

  function Raised(m: Totals, item: Item): Totals {
    m[item.key := Get(m, item.key) + item.amount]
  }

  /** `_subtract_reserved`: dust up to the tolerance is dropped; None is the underflow error. */
  function Subtracted(m: Totals, key: Key, amount: real): Option<Totals> {
    var updated := Get(m, key) - amount;
    if updated < -EPSILON then None
    else if updated <= EPSILON then Some(m - {key})
    else Some(m[key := updated])
  }

  /** Taking `amount` from a total of `amount + rest` leaves `rest` exactly if what remains is
      nothing or more than the tolerance; otherwise the dust is forgotten. */
  lemma SubtractionIsExactIff(m: Totals, key: Key, amount: real, rest: real)
    requires rest >= 0.0 && Get(m, key) == amount + rest
    ensures Subtracted(m, key, amount).Some?
    ensures Get(Subtracted(m, key, amount).value, key) == rest <==> Grained(rest)
    ensures !Grained(rest) ==> Get(Subtracted(m, key, amount).value, key) == 0.0
    ensures forall k :: k != key ==> Get(Subtracted(m, key, amount).value, k) == Get(m, k)
  {
  }

  // ----- the store's operations ----------------------------------------------------------------

  datatype Violation = Violation(check: Check, committed: real, reserved: real)

  /** The comparison the store makes, on its running totals. */
  predicate Over(b: Books, c: Check) {
    Get(b.committed, c.key) + Get(b.reserved, c.key) + c.requested > c.effective + EPSILON
  }

  /** The violated checks, in order, with the totals that violated them. */
  function Violations(b: Books, checks: seq<Check>): seq<Violation> {
    if checks == [] then []
    else
      var n := |checks| - 1;
      var last := checks[n];
      Violations(b, checks[..n]) +
      (if Over(b, last) then [Violation(last, Get(b.committed, last.key), Get(b.reserved, last.key))] else [])
  }

  function Added(m: Totals, items: seq<Item>): Totals
    decreases |items|
  {
    if items == [] then m else Added(Raised(m, items[0]), items[1..])
  }

  function Tried(b: Books, id: Id, r: Reservation, checks: seq<Check>): Books {
    if id in b.ledger.entries || Violations(b, checks) != [] then b
    else Books(Entered(b.ledger, id, r), Added(b.reserved, r.items), b.committed)
  }

  /** The totals after a reservation's items were taken off, or up to the item that underflowed. */
  datatype Taking = Taking(reserved: Totals, committed: Totals, ok: bool)

  function Take(reserved: Totals, committed: Totals, items: seq<Item>, commit: bool): Taking
    decreases |items|
  {
    if items == [] then Taking(reserved, committed, true)
    else
      var item := items[0];
      var rest := Subtracted(reserved, item.key, item.amount);
      if rest.None? then Taking(reserved, committed, false)
      else Take(rest.value, if commit && !IsCapacity(item.key.metric) then Raised(committed, item) else committed,
                items[1..], commit)
  }

  function TakingOf(b: Books, id: Id, state: ReservationState): Taking
    requires IsActive(b.ledger, id)
  {
    Take(b.reserved, b.committed, b.ledger.entries[id].items, state.Committed?)
  }

  /** Closing the reservation raises the underflow error, midway through its items. */
  predicate Underflows(b: Books, id: Id, state: ReservationState) {
    IsActive(b.ledger, id) && !TakingOf(b, id, state).ok
  }

  /** Commit, release and expiry; after an underflow the reservation is still ACTIVE. */
  function Closing(b: Books, id: Id, state: ReservationState): Books {
    if !IsActive(b.ledger, id) then b
    else
      var t := TakingOf(b, id, state);
      Books(if t.ok then Closed(b.ledger, id, state) else b.ledger, t.reserved, t.committed)
  }

  datatype Sweep = Sweep(books: Books, ok: bool)

  /** Expiring the overdue among the first `upTo` reservations, up to the first underflow. */
  function Swept(b: Books, now: Time, upTo: nat): Sweep
    requires upTo <= |b.ledger.order|
  {
    if upTo == 0 then Sweep(b, true)
    else
      var s, id := Swept(b, now, upTo - 1), b.ledger.order[upTo - 1];
      if s.ok && IsActive(s.books.ledger, id) && s.books.ledger.entries[id].expiresAt <= now
      then Sweep(Closing(s.books, id, Expired), !Underflows(s.books, id, Expired))
      else s
  }

  // ----- what always holds ---------------------------------------------------------------------

  ghost predicate NonNegative(m: Totals) {
    forall key :: Get(m, key) >= 0.0
  }

  ghost predicate BooksInv(b: Books) {
    LedgerInv(b.ledger) && NonNegative(b.reserved) && NonNegative(b.committed)
  }

  lemma {:induction false} AddedGet(m: Totals, items: seq<Item>, key: Key)
    ensures Get(Added(m, items), key) == Get(m, key) + Charged(items, key)
    decreases |items|
  {
    if items != [] {
      AddedGet(Raised(m, items[0]), items[1..], key);
    }
  }

  lemma StepKeepsSigns(m: Totals, item: Item)
    requires NonNegative(m) && item.amount > 0.0
    ensures NonNegative(Raised(m, item))
    ensures var rest := Subtracted(m, item.key, item.amount);
      rest.Some? ==> NonNegative(rest.value)
  {
    forall key
      ensures Get(Raised(m, item), key) >= 0.0
      ensures var rest := Subtracted(m, item.key, item.amount);
        rest.Some? ==> Get(rest.value, key) >= 0.0
    {
      assert Get(m, key) >= 0.0;
    }
  }

  lemma {:induction false} TakeKeepsSigns(reserved: Totals, committed: Totals, items: seq<Item>, commit: bool)
    requires NonNegative(reserved) && NonNegative(committed) && Positive(items)
    ensures var t := Take(reserved, committed, items, commit);
      NonNegative(t.reserved) && NonNegative(t.committed) && (!commit ==> t.committed == committed)
    decreases |items|
  {
    hide NonNegative, Subtracted, Raised;
    if items != [] {
      var item := items[0];
      StepKeepsSigns(reserved, item);
      StepKeepsSigns(committed, item);
      var rest := Subtracted(reserved, item.key, item.amount);
      if rest.Some? {
        TakeKeepsSigns(rest.value, if commit && !IsCapacity(item.key.metric) then Raised(committed, item) else committed,
                       items[1..], commit);
      }
    }
  }

  lemma TriedKeepsInv(b: Books, id: Id, r: Reservation, checks: seq<Check>)
    requires BooksInv(b) && id < b.ledger.nextId && Positive(r.items)
    ensures BooksInv(Tried(b, id, r, checks))
  {
    if Tried(b, id, r, checks) != b {
      forall key
        ensures Get(Added(b.reserved, r.items), key) >= 0.0
      {
        AddedGet(b.reserved, r.items, key);
        ChargedNonNegative(r.items, key);
      }
    }
  }

  lemma ClosingKeepsInv(b: Books, id: Id, state: ReservationState)
    requires BooksInv(b)
    ensures BooksInv(Closing(b, id, state))
    ensures Closing(b, id, state).ledger == if Underflows(b, id, state) then b.ledger else Closed(b.ledger, id, state)
  {
    if IsActive(b.ledger, id) {
      TakeKeepsSigns(b.reserved, b.committed, b.ledger.entries[id].items, state.Committed?);
    }
  }

  /** Reaping has dealt with the first `k` reservations of `start`. */
  ghost predicate PartlyReaped(start: Ledger, l: Ledger, k: nat, now: Time)
    requires k <= |start.order|
  {
    && l.order == start.order && l.nextId == start.nextId && l.entries.Keys == start.entries.Keys
    && (forall i :: 0 <= i < |start.order| ==> start.order[i] in l.entries)
    && (forall i :: 0 <= i < k ==> l.entries[l.order[i]] == ReapedEntry(start.entries[l.order[i]], now))
    && (forall i :: k <= i < |l.order| ==> l.entries[l.order[i]] == start.entries[l.order[i]])
  }

  lemma ReapingStep(start: Ledger, l: Ledger, k: nat, now: Time)
    requires LedgerInv(start) && k < |start.order| && PartlyReaped(start, l, k, now)
    ensures var id := start.order[k];
      && id in l.entries && id in start.entries && l.entries[id] == start.entries[id]
      && PartlyReaped(start, if IsActive(l, id) && l.entries[id].expiresAt <= now then Closed(l, id, Expired) else l, k + 1, now)
  {
  }

  lemma AllReaped(start: Ledger, l: Ledger, now: Time)
    requires LedgerInv(start) && PartlyReaped(start, l, |start.order|, now)
    ensures l == Reaped(start, now)
  {
    forall id | id in start.entries
      ensures l.entries[id] == ReapedEntry(start.entries[id], now)
    {
      var i :| 0 <= i < |start.order| && start.order[i] == id;
    }
  }

  lemma {:induction false} SweptKeepsInv(b: Books, now: Time, upTo: nat)
    requires BooksInv(b) && upTo <= |b.ledger.order|
    ensures var s := Swept(b, now, upTo);
      && BooksInv(s.books) && s.books.committed == b.committed
      && (s.ok ==> PartlyReaped(b.ledger, s.books.ledger, upTo, now))
  {
    hide PartlyReaped, LedgerInv, Closing, NonNegative;
    if upTo == 0 {
      NoneReaped(b.ledger, now);
    } else {
      var s, id := Swept(b, now, upTo - 1), b.ledger.order[upTo - 1];
      SweptKeepsInv(b, now, upTo - 1);
      ClosingKeepsInv(s.books, id, Expired);
      ExpiryKeepsCommitted(s.books, id);
      if s.ok {
        ReapingStep(b.ledger, s.books.ledger, upTo - 1, now);
      }
    }
  }

  lemma NoneReaped(l: Ledger, now: Time)
    requires LedgerInv(l)
    ensures PartlyReaped(l, l, 0, now)
  {
  }

  lemma ExpiryKeepsCommitted(b: Books, id: Id)
    requires BooksInv(b)
    ensures Closing(b, id, Expired).committed == b.committed
  {
    if IsActive(b.ledger, id) {
      TakeKeepsSigns(b.reserved, b.committed, b.ledger.entries[id].items, false);
    }
  }

  // ----- when the running totals are the sums of the ledger -----------------------------------------

  /** Every reservation ever made was above the tolerance, and the totals are the ledger's sums. */
  ghost predicate Exact(b: Books) {
    && BooksInv(b) && AllCoarse(b.ledger)
    && (forall key :: Get(b.reserved, key) == Reserved(b.ledger, key))
    && (forall key :: Get(b.committed, key) == CommittedTotal(b.ledger, key))
  }

  lemma NoBooksAreExact()
    ensures Exact(NO_BOOKS)
  {
  }

  lemma {:induction false} ViolationsAreReal(b: Books, checks: seq<Check>)
    ensures Violations(b, checks) == [] <==> forall i :: 0 <= i < |checks| ==> !Over(b, checks[i])
    ensures forall v :: v in Violations(b, checks) ==> v.check in checks && Over(b, v.check)
    ensures forall c :: c in checks && Over(b, c) ==> exists v :: v in Violations(b, checks) && v.check == c
  {
    if checks != [] {
      var n := |checks| - 1;
      ViolationsAreReal(b, checks[..n]);
      assert checks == checks[..n] + [checks[n]];
      forall c | c in checks && Over(b, c)
        ensures exists v :: v in Violations(b, checks) && v.check == c
      {
        if c == checks[n] {
          assert Violation(c, Get(b.committed, c.key), Get(b.reserved, c.key)) in Violations(b, checks);
        } else {
          var v :| v in Violations(b, checks[..n]) && v.check == c;
          assert v in Violations(b, checks);
        }
      }
    }
  }

  /** On exact books the store refuses exactly what the ledger's usage leaves no room for. */
  lemma NoViolationsIffFits(b: Books, checks: seq<Check>)
    requires Exact(b)
    ensures Violations(b, checks) == [] <==> Fits(b.ledger, checks)
    ensures forall c :: Over(b, c) <==> Violates(b.ledger, c)
  {
    hide Reserved, CommittedTotal, BooksInv, AllCoarse;
    ViolationsAreReal(b, checks);
  }

  /** One subtraction while a reservation closes: nothing underflows, no dust is lost. */
  lemma StepIsExact(m: Totals, l: Ledger, items: seq<Item>)
    requires LedgerInv(l) && AllCoarse(l) && Coarse(items) && items != []
    requires forall key :: Get(m, key) == Reserved(l, key) + Charged(items, key)
    ensures Subtracted(m, items[0].key, items[0].amount).Some?
    ensures forall key :: Get(Subtracted(m, items[0].key, items[0].amount).value, key)
                       == Reserved(l, key) + Charged(items[1..], key)
  {
    var key := items[0].key;
    UsageNonNegative(l, key);
    ReservedGrained(l, key);
    ChargedGrained(items[1..], key);
    SubtractionIsExactIff(m, key, items[0].amount, Reserved(l, key) + Charged(items[1..], key));
  }

  /** What a commit keeps of a reservation's charges: all but capacity. */
  function Kept(items: seq<Item>, key: Key, commit: bool): real {
    if !commit || IsCapacity(key.metric) then 0.0 else Charged(items, key)
  }

  /** Closing a reservation whose charges are in the totals takes off exactly those charges. */
  lemma {:induction false} TakeIsExact(reserved: Totals, committed: Totals, l: Ledger, items: seq<Item>, commit: bool)
    requires LedgerInv(l) && AllCoarse(l) && Coarse(items)
    requires forall key :: Get(reserved, key) == Reserved(l, key) + Charged(items, key)
    ensures var t := Take(reserved, committed, items, commit);
      && t.ok
      && (forall key :: Get(t.reserved, key) == Reserved(l, key))
      && (forall key :: Get(t.committed, key) == Get(committed, key) + Kept(items, key, commit))
    decreases |items|
  {
    hide Reserved, LedgerInv, AllCoarse, Subtracted;
    if items != [] {
      var item := items[0];
      StepIsExact(reserved, l, items);
      TakeIsExact(Subtracted(reserved, item.key, item.amount).value,
                  if commit && !IsCapacity(item.key.metric) then Raised(committed, item) else committed, l, items[1..], commit);
    }
  }

  lemma TriedIsExact(b: Books, id: Id, r: Reservation, checks: seq<Check>)
    requires Exact(b) && id < b.ledger.nextId && r.state.Active? && Coarse(r.items)
    ensures Exact(Tried(b, id, r, checks))
  {
    hide Reserved, CommittedTotal, Charged, Added, NonNegative;
    TriedKeepsInv(b, id, r, checks);
    if Tried(b, id, r, checks) != b {
      forall key
        ensures Get(Added(b.reserved, r.items), key) == Reserved(Entered(b.ledger, id, r), key)
        ensures CommittedTotal(Entered(b.ledger, id, r), key) == CommittedTotal(b.ledger, key)
      {
        AddedGet(b.reserved, r.items, key);
        EnteredUsage(b.ledger, id, r, key);
      }
    }
  }

  /** The totals before a reservation is closed, in terms of the totals after. */
  lemma CloseTotals(l: Ledger, id: Id, state: ReservationState)
    requires LedgerInv(l) && AllCoarse(l) && IsActive(l, id) && !state.Active?
    ensures LedgerInv(Closed(l, id, state)) && AllCoarse(Closed(l, id, state))
    ensures forall key :: Reserved(l, key) == Reserved(Closed(l, id, state), key) + Charged(l.entries[id].items, key)
    ensures forall key ::
      CommittedTotal(Closed(l, id, state), key)
      == CommittedTotal(l, key) + Kept(l.entries[id].items, key, state.Committed?)
  {
    forall key
      ensures Reserved(l, key) == Reserved(Closed(l, id, state), key) + Charged(l.entries[id].items, key)
      ensures CommittedTotal(Closed(l, id, state), key)
           == CommittedTotal(l, key) + Kept(l.entries[id].items, key, state.Committed?)
    {
      ClosedUsage(l, id, state, key);
    }
  }

  /** On exact books nothing underflows, and they stay exact. */
  lemma ClosingIsExact(b: Books, id: Id, state: ReservationState)
    requires Exact(b) && !state.Active?
    ensures !Underflows(b, id, state) && Exact(Closing(b, id, state))
    ensures Closing(b, id, state).ledger == Closed(b.ledger, id, state)
  {
    hide Reserved, CommittedTotal, LedgerInv, AllCoarse;
    ClosingKeepsInv(b, id, state);
    if IsActive(b.ledger, id) {
      CloseTotals(b.ledger, id, state);
      ItemsAreCoarse(b.ledger, id);
      TakeIsExact(b.reserved, b.committed, Closed(b.ledger, id, state), b.ledger.entries[id].items, state.Committed?);
    }
  }

  lemma ItemsAreCoarse(l: Ledger, id: Id)
    requires AllCoarse(l) && id in l.entries
    ensures Coarse(l.entries[id].items)
  {
  }

  lemma {:induction false} SweptIsExact(b: Books, now: Time, upTo: nat)
    requires Exact(b) && upTo <= |b.ledger.order|
    ensures Swept(b, now, upTo).ok && Exact(Swept(b, now, upTo).books)
  {
    hide Exact, Closing, Underflows;
    if upTo > 0 {
      SweptIsExact(b, now, upTo - 1);
      ClosingIsExact(Swept(b, now, upTo - 1).books, b.ledger.order[upTo - 1], Expired);
    }
  }

  lemma RenewedIsExact(b: Books, id: Id, expiresAt: Time)
    requires BooksInv(b)
    ensures BooksInv(b.(ledger := Renewed(b.ledger, id, expiresAt)))
    ensures Exact(b) ==> Exact(b.(ledger := Renewed(b.ledger, id, expiresAt)))
  {
    forall key
      ensures Reserved(Renewed(b.ledger, id, expiresAt), key) == Reserved(b.ledger, key)
      ensures CommittedTotal(Renewed(b.ledger, id, expiresAt), key) == CommittedTotal(b.ledger, key)
    {
      RenewedUsage(b.ledger, id, expiresAt, key);
    }
  }

  lemma MintedUsage(l: Ledger)
    ensures LedgerInv(l) ==> LedgerInv(Minted(l))
    ensures forall key :: Reserved(Minted(l), key) == Reserved(l, key)
    ensures forall key :: CommittedTotal(Minted(l), key) == CommittedTotal(l, key)
  {
  }

  lemma MintedIsExact(b: Books)
    requires BooksInv(b)
    ensures BooksInv(b.(ledger := Minted(b.ledger)))
    ensures Exact(b) ==> Exact(b.(ledger := Minted(b.ledger)))
  {
    MintedUsage(b.ledger);
  }
}
