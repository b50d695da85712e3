/** The in-memory budget store as a class over its books. */
module BudgetStores {
  import opened Prelude
  import opened Sums
  import opened Budgets
  import opened BudgetBooks

  class InMemoryBudgetStore {
    var committed: Totals
    var reserved: Totals
    var order: seq<Id>
    var reservations: map<Id, Reservation>
    var nextId: Id

    ghost function Book(): Ledger
      reads this
    {
      Ledger(order, reservations, nextId)
    }

    ghost function State(): Books
      reads this
    {
      Books(Book(), reserved, committed)
    }

    ghost predicate Valid()
      reads this
    {
      BooksInv(State())
    }

    /** All demands so far were above the tolerance, and the running totals are the ledger's sums. */
    ghost predicate Exact()
      reads this
    {
      BudgetBooks.Exact(State())
    }

    constructor ()
      ensures Valid() && Exact() && State() == NO_BOOKS
    {
      committed, reserved := map[], map[];
      order, reservations, nextId := [], map[], 0;
    }

    method NewReservationId() returns (id: Id)
      requires Valid()
      modifies this`nextId
      ensures Valid() && id == old(nextId) && State() == old(State()).(ledger := Minted(old(Book())))
      ensures old(Exact()) ==> Exact()
    {
      MintedIsExact(State());
      id, nextId := nextId, nextId + 1;
    }

    /** All or nothing: the reservation is entered exactly if no check is violated. */
    method TryReserve(id: Id, reservation: Reservation, checks: seq<Check>) returns (r: Result<seq<Violation>>)
      requires Valid() && id < nextId
      requires reservation.state.Active? && Positive(reservation.items)
      modifies this
      ensures Valid() && State() == Tried(old(State()), id, reservation, checks)
      ensures r.Err? <==> id in old(reservations)
      ensures r.Ok? ==> r.value == Violations(old(State()), checks)
      ensures old(Exact()) && Coarse(reservation.items) ==> Exact()
    {
      hide BooksInv, BudgetBooks.Exact;
      ghost var b := State();
      TriedKeepsInv(b, id, reservation, checks);
      if BudgetBooks.Exact(b) && Coarse(reservation.items) {
        TriedIsExact(b, id, reservation, checks);
      }
      if id in reservations {
        return Err(Rejected);
      }
      var violations: seq<Violation> := [];
      for k := 0 to |checks|
        invariant violations == Violations(b, checks[..k]) && State() == b
      {
        var check := checks[k];
        var alreadyCommitted := Get(committed, check.key);
        var alreadyReserved := Get(reserved, check.key);
        if alreadyCommitted + alreadyReserved + check.requested > check.effective + EPSILON {
          violations := violations + [Violation(check, alreadyCommitted, alreadyReserved)];
        }
        assert checks[..k + 1][..k] == checks[..k];
      }
      assert checks[..|checks|] == checks;
      if violations != [] {
        return Ok(violations);
      }
      order, reservations := order + [id], reservations[id := reservation];
      AddItems(reservation.items);
      r := Ok([]);
    }

    method AddItems(items: seq<Item>)
      modifies this`reserved
      ensures reserved == Added(old(reserved), items)
    {
      assert items[0..] == items;
      var k := 0;
      while k < |items|
        invariant 0 <= k <= |items|
        invariant Added(reserved, items[k..]) == Added(old(reserved), items)
      {
        assert items[k..][1..] == items[k + 1..];
        reserved := reserved[items[k].key := Get(reserved, items[k].key) + items[k].amount];
        k := k + 1;
      }
    }

    /** `_subtract_reserved`. */
    method SubtractReserved(key: Key, amount: real) returns (ok: bool)
      modifies this`reserved
      ensures ok <==> Subtracted(old(reserved), key, amount).Some?
      ensures reserved == if ok then Subtracted(old(reserved), key, amount).value else old(reserved)
    {
      var updated := Get(reserved, key) - amount;
      if updated < -EPSILON {
        return false;
      }
      reserved := if updated <= EPSILON then reserved - {key} else reserved[key := updated];
      ok := true;
    }

    /** Takes a reservation's items off the reserved totals one by one, and on a commit puts the
        cumulative ones on the committed. An underflow leaves the work half done. */
    method TakeItems(items: seq<Item>, commit: bool) returns (ok: bool)
      modifies this`reserved, this`committed
      ensures Taking(reserved, committed, ok) == Take(old(reserved), old(committed), items, commit)
    {
      assert items[0..] == items;
      var k := 0;
      while k < |items|
        invariant 0 <= k <= |items|
        invariant Take(reserved, committed, items[k..], commit) == Take(old(reserved), old(committed), items, commit)
      {
        var item := items[k];
        assert items[k..][1..] == items[k + 1..];
        var subtracted := SubtractReserved(item.key, item.amount);
        if !subtracted {
          return false;
        }
        if commit && !IsCapacity(item.key.metric) {
          committed := committed[item.key := Get(committed, item.key) + item.amount];
        }
        k := k + 1;
      }
      ok := true;
    }

    /** The tail that commit, release and expiry share. */
    method Close(id: Id, state: ReservationState) returns (ok: bool)
      requires Valid() && IsActive(Book(), id) && !state.Active?
      modifies this
      ensures Valid() && State() == Closing(old(State()), id, state)
      ensures ok <==> !Underflows(old(State()), id, state)
      ensures ok ==> id in reservations && reservations[id] == old(reservations)[id].(state := state)
      ensures old(Exact()) ==> Exact() && ok
    {
      hide BooksInv, BudgetBooks.Exact;
      ghost var b := State();
      ClosingKeepsInv(b, id, state);
      if BudgetBooks.Exact(b) {
        ClosingIsExact(b, id, state);
      }
      ok := TakeItems(reservations[id].items, state.Committed?);
      if ok {
        reservations := reservations[id := reservations[id].(state := state)];
      }
    }

    /** Cumulative charges move from reserved to committed; capacity charges are freed. */
    method Commit(id: Id) returns (r: Result<Reservation>)
      requires Valid()
      modifies this
      ensures Valid() && State() == Closing(old(State()), id, Committed)
      ensures r == Answered(old(State()), id, Committed)
      ensures old(Exact()) ==> Exact() && Book() == Closed(old(Book()), id, Committed) && r != Err(Broken)
    {
      r := End(id, Committed);
    }

    method Release(id: Id) returns (r: Result<Reservation>)
      requires Valid()
      modifies this
      ensures Valid() && State() == Closing(old(State()), id, Released)
      ensures r == Answered(old(State()), id, Released)
      ensures old(Exact()) ==> Exact() && Book() == Closed(old(Book()), id, Released) && r != Err(Broken)
    {
      r := End(id, Released);
    }

    method End(id: Id, state: ReservationState) returns (r: Result<Reservation>)
      requires Valid() && !state.Active?
      modifies this
      ensures Valid() && State() == Closing(old(State()), id, state)
      ensures r == Answered(old(State()), id, state)
      ensures old(Exact()) ==> Exact() && Book() == Closed(old(Book()), id, state) && r != Err(Broken)
    {
      hide BooksInv, BudgetBooks.Exact;
      if id !in reservations {
        return Err(UnknownId);
      }
      if !reservations[id].state.Active? {
        return Err(Rejected);
      }
      var ok := Close(id, state);
      r := if ok then Ok(reservations[id]) else Err(Broken);
    }

    method Renew(id: Id, expiresAt: Time, now: Time) returns (r: Result<Reservation>)
      requires Valid()
      modifies this
      ensures Valid() && (old(Exact()) ==> Exact())
      ensures r.Ok? <==> IsActive(old(Book()), id) && expiresAt > now
      ensures State() == if r.Ok? then old(State()).(ledger := Renewed(old(Book()), id, expiresAt)) else old(State())
    {
      hide BooksInv, BudgetBooks.Exact;
      if id !in reservations {
        return Err(UnknownId);
      }
      if !reservations[id].state.Active? || expiresAt <= now {
        return Err(Rejected);
      }
      RenewedIsExact(State(), id, expiresAt);
      reservations := reservations[id := reservations[id].(expiresAt := expiresAt)];
      r := Ok(reservations[id]);
    }

    /** Expires every ACTIVE reservation whose lease has run out, in the order they were made; an
        underflow ends the sweep where it happens. */
    method ReapExpired(now: Time) returns (r: Result<seq<Id>>)
      requires Valid()
      modifies this
      ensures Valid() && State() == Swept(old(State()), now, |old(order)|).books
      ensures r == Err(Broken) <==> !Swept(old(State()), now, |old(order)|).ok
      ensures r.Err? ==> r == Err(Broken)
      ensures r.Ok? ==>
        && Book() == Reaped(old(Book()), now)
        && forall id :: id in r.value <==> IsActive(old(Book()), id) && old(reservations)[id].expiresAt <= now
      ensures old(Exact()) ==> Exact() && r.Ok?
    {
      hide BooksInv, BudgetBooks.Exact, Swept, Closing, PartlyReaped, Reaped;
      ghost var b := State();
      var snapshot := order;
      SweepStarts(b, now);
      SweptKeepsInv(b, now, |snapshot|);
      if BudgetBooks.Exact(b) {
        SweptIsExact(b, now, |snapshot|);
      }
      var expired: seq<Id> := [];
      for k := 0 to |snapshot|
        invariant Valid() && Swept(b, now, k) == Sweep(State(), true)
        invariant forall id :: id in expired <==>
          id in snapshot[..k] && IsActive(b.ledger, id) && b.ledger.entries[id].expiresAt <= now
      {
        var id := snapshot[k];
        SweepStep(b, now, k);
        if reservations[id].state.Active? && reservations[id].expiresAt <= now {
          var ok := Close(id, Expired);
          if !ok {
            SweepStuck(b, now, k + 1);
            return Err(Broken);
          }
          expired := expired + [id];
        }
      }
      assert snapshot[..|snapshot|] == snapshot;
      SweepEnds(b, now);
      r := Ok(expired);
    }
  }

  /** How commit and release answer. */
  function Answered(b: Books, id: Id, state: ReservationState): Result<Reservation> {
    if id !in b.ledger.entries then Err(UnknownId)
    else if !b.ledger.entries[id].state.Active? then Err(Rejected)
    else if Underflows(b, id, state) then Err(Broken)
    else Ok(b.ledger.entries[id].(state := state))
  }

  /** An id never made is unknown, a reservation already ended is refused, an underflow is reported as such,
      and everything else ends as asked with nothing but its state changed. */
  lemma AnswersTell(b: Books, id: Id, state: ReservationState)
    ensures Answered(b, id, state) == Err(UnknownId) <==> id !in b.ledger.entries
    ensures Answered(b, id, state) == Err(Rejected) <==> id in b.ledger.entries && b.ledger.entries[id].state != Active
    ensures Answered(b, id, state) == Err(Broken) <==> IsActive(b.ledger, id) && !TakingOf(b, id, state).ok
    ensures Answered(b, id, state).Ok? ==>
      && IsActive(b.ledger, id) && Answered(b, id, state).value == b.ledger.entries[id].(state := state)
      && Closing(b, id, state).ledger.entries == b.ledger.entries[id := Answered(b, id, state).value]
  {
  }

  lemma SweepStarts(b: Books, now: Time)
    ensures Swept(b, now, 0) == Sweep(b, true)
  {
  }

  /** While a sweep goes well its next reservation is as it was at the start. */
  lemma SweepStep(b: Books, now: Time, k: nat)
    requires BooksInv(b) && k < |b.ledger.order| && Swept(b, now, k).ok
    ensures var s, id := Swept(b, now, k), b.ledger.order[k];
      && id in b.ledger.entries && id in s.books.ledger.entries
      && s.books.ledger.entries[id] == b.ledger.entries[id]
      && Swept(b, now, k + 1) ==
         if IsActive(b.ledger, id) && b.ledger.entries[id].expiresAt <= now
         then Sweep(Closing(s.books, id, Expired), !Underflows(s.books, id, Expired)) else s
  {
    hide Closing, Underflows;
    SweptKeepsInv(b, now, k);
    ReapingStep(b.ledger, Swept(b, now, k).books.ledger, k, now);
  }

  /** After an underflow a sweep changes nothing more. */
  lemma {:induction false} SweepStuck(b: Books, now: Time, k: nat)
    requires k <= |b.ledger.order| && !Swept(b, now, k).ok
    ensures Swept(b, now, |b.ledger.order|) == Swept(b, now, k)
    decreases |b.ledger.order| - k
  {
    if k < |b.ledger.order| {
      assert Swept(b, now, k + 1) == Swept(b, now, k);
      SweepStuck(b, now, k + 1);
    }
  }

  lemma SweepEnds(b: Books, now: Time)
    requires BooksInv(b) && Swept(b, now, |b.ledger.order|).ok
    ensures Swept(b, now, |b.ledger.order|).books.ledger == Reaped(b.ledger, now)
    ensures forall id :: id in b.ledger.order <==> id in b.ledger.entries
  {
    SweptKeepsInv(b, now, |b.ledger.order|);
    AllReaped(b.ledger, Swept(b, now, |b.ledger.order|).books.ledger, now);
  }
}
