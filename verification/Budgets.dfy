/** Budgets as a plain ledger of reservations: every total is a sum over them. */
module Budgets {
  import opened Prelude
  import opened Sums

  datatype Metric = Tasks | Cost | Requests | Candidates | RuntimeSeconds | ConcurrentTasks

  predicate IsCapacity(m: Metric) {
    m.ConcurrentTasks?
  }

  datatype BudgetClass = Soft | Hard

  datatype Lane = Normal | Exploration

  datatype ReservationState = Active | Committed | Released | Expired

  /** What a budget is counted against. */
  datatype Bucket = Global | Worker(worker: string) | Branch(branch: string) | Resource(resource: string)

  /** The names by which the source keys its dictionaries. */
  function Name(b: Bucket): string {
    match b
    case Global => "global"
    case Worker(w) => "worker:" + w
    case Branch(id) => "branch:" + id
    case Resource(r) => "resource:" + r
  }

  datatype Key = Key(bucket: Bucket, cls: BudgetClass, metric: Metric)

  datatype Item = Item(key: Key, amount: real)

  datatype Reservation = Reservation(
    taskId: nat, items: seq<Item>, createdAt: Time, expiresAt: Time, state: ReservationState)

  datatype Check = Check(key: Key, requested: real, configured: real, effective: real)

  /** Two buckets share a name only if they are the same bucket. */
  lemma NamesAreInjective(a: Bucket, b: Bucket)
    requires Name(a) == Name(b)
    ensures a == b
  {
    assert Name(a)[0] == Name(b)[0];
    match (a, b)
    case (Worker(x), Worker(y)) => assert x == Name(a)[7..] && y == Name(b)[7..];
    case (Branch(x), Branch(y)) => assert x == Name(a)[7..] && y == Name(b)[7..];
    case (Resource(x), Resource(y)) => assert x == Name(a)[9..] && y == Name(b)[9..];
    case _ =>
  }

  /** What the items charge against `key`. */
  function Charged(items: seq<Item>, key: Key): real {
    if items == [] then 0.0
    else Charged(items[1..], key) + (if items[0].key == key then items[0].amount else 0.0)
  }

  /** The reservations in the order they were made. */
  datatype Ledger = Ledger(order: seq<Id>, entries: map<Id, Reservation>, nextId: Id)

  const NO_RESERVATIONS := Ledger([], map[], 0)

  function ReservedBy(key: Key): (Id, Reservation) -> real {
    (_, r: Reservation) => if r.state.Active? then Charged(r.items, key) else 0.0
  }

  function CommittedBy(key: Key): (Id, Reservation) -> real {
    (_, r: Reservation) => if r.state.Committed? && !IsCapacity(key.metric) then Charged(r.items, key) else 0.0
  }

  ghost function Reserved(l: Ledger, key: Key): real { Sum(l.order, l.entries, ReservedBy(key)) }

  ghost function CommittedTotal(l: Ledger, key: Key): real { Sum(l.order, l.entries, CommittedBy(key)) }

  ghost function Usage(l: Ledger, key: Key): real { Reserved(l, key) + CommittedTotal(l, key) }

  ghost predicate Violates(l: Ledger, c: Check) {
    CommittedTotal(l, c.key) + Reserved(l, c.key) + c.requested > c.effective + EPSILON
  }

  ghost predicate Fits(l: Ledger, checks: seq<Check>) {
    forall i :: 0 <= i < |checks| ==> !Violates(l, checks[i])
  }

  function ItemsOf(checks: seq<Check>): (items: seq<Item>)
    ensures |items| == |checks|
    ensures forall i :: 0 <= i < |items| ==> items[i] == Item(checks[i].key, checks[i].requested)
  {
    seq(|checks|, i requires 0 <= i < |checks| => Item(checks[i].key, checks[i].requested))
  }

  /** All amounts positive, as the record validators demand. */
  predicate Positive(items: seq<Item>) {
    forall i :: 0 <= i < |items| ==> items[i].amount > 0.0
  }

  /** All amounts above the tolerance of the bookkeeping. */
  predicate Coarse(items: seq<Item>) {
    forall i :: 0 <= i < |items| ==> items[i].amount > EPSILON
  }

  // ----- operations on the ledger ------------------------------------------------------------

  function Minted(l: Ledger): Ledger { l.(nextId := l.nextId + 1) }

  function Entered(l: Ledger, id: Id, r: Reservation): Ledger {
    l.(order := l.order + [id], entries := l.entries[id := r])
  }

  predicate IsActive(l: Ledger, id: Id) {
    id in l.entries && l.entries[id].state.Active?
  }

  /** Commit, release and expiry: an ACTIVE reservation takes its final state. */
  function Closed(l: Ledger, id: Id, state: ReservationState): Ledger {
    if IsActive(l, id) then l.(entries := l.entries[id := l.entries[id].(state := state)]) else l
  }

  function Renewed(l: Ledger, id: Id, expiresAt: Time): Ledger {
    if IsActive(l, id) then l.(entries := l.entries[id := l.entries[id].(expiresAt := expiresAt)]) else l
  }

  function ReapedEntry(r: Reservation, now: Time): Reservation {
    if r.state.Active? && r.expiresAt <= now then r.(state := Expired) else r
  }

  function Reaped(l: Ledger, now: Time): Ledger {
    l.(entries := map id | id in l.entries :: ReapedEntry(l.entries[id], now))
  }

  ghost predicate LedgerInv(l: Ledger) {
    && Orders(l.order, l.entries)
    && (forall id :: id in l.entries ==> id < l.nextId && Positive(l.entries[id].items))
  }

  ghost predicate AllCoarse(l: Ledger) {
    forall id :: id in l.entries ==> Coarse(l.entries[id].items)
  }

  lemma {:induction false} ChargedNonNegative(items: seq<Item>, key: Key)
    requires Positive(items)
    ensures Charged(items, key) >= 0.0
  {
    if items != [] {
      ChargedNonNegative(items[1..], key);
    }
  }

  lemma {:induction false} ChargedGrained(items: seq<Item>, key: Key)
    requires Coarse(items)
    ensures Grained(Charged(items, key))
  {
    if items != [] {
      ChargedGrained(items[1..], key);
    }
  }

  /** Items with distinct keys charge a key what its one item says. */
  lemma {:induction false} ChargedOnce(items: seq<Item>, key: Key)
    requires forall i, j :: 0 <= i < j < |items| ==> items[i].key != items[j].key
    ensures (forall i :: 0 <= i < |items| ==> items[i].key != key) ==> Charged(items, key) == 0.0
    ensures forall i :: 0 <= i < |items| && items[i].key == key ==> Charged(items, key) == items[i].amount
  {
    if items != [] {
      var rest := items[1..];
      assert forall i :: 0 <= i < |rest| ==> rest[i] == items[i + 1];
      ChargedOnce(rest, key);
      forall i | 0 <= i < |items| && items[i].key == key
        ensures Charged(items, key) == items[i].amount
      {
        if i > 0 {
          assert rest[i - 1].key == key;
        }
      }
    }
  }

  // ----- what each operation does to the totals ------------------------------------------------

  lemma EnteredUsage(l: Ledger, id: Id, r: Reservation, key: Key)
    requires LedgerInv(l) && r.state.Active? && id !in l.entries
    ensures Reserved(Entered(l, id, r), key) == Reserved(l, key) + Charged(r.items, key)
    ensures CommittedTotal(Entered(l, id, r), key) == CommittedTotal(l, key)
  {
    assert id !in l.order;
    SumAppend(l.order, l.entries, id, r, ReservedBy(key));
    SumAppend(l.order, l.entries, id, r, CommittedBy(key));
  }

  /** A commit moves a cumulative charge from reserved to committed, so the usage is conserved,
      and frees a capacity charge; a release or expiry frees either. */
  lemma ClosedUsage(l: Ledger, id: Id, state: ReservationState, key: Key)
    requires LedgerInv(l) && IsActive(l, id) && !state.Active?
    ensures var charge := Charged(l.entries[id].items, key);
      && Reserved(Closed(l, id, state), key) == Reserved(l, key) - charge
      && CommittedTotal(Closed(l, id, state), key)
         == CommittedTotal(l, key) + (if state.Committed? && !IsCapacity(key.metric) then charge else 0.0)
  {
    var r := l.entries[id].(state := state);
    SumUpdate(l.order, l.entries, id, r, ReservedBy(key));
    SumUpdate(l.order, l.entries, id, r, CommittedBy(key));
  }

  lemma RenewedUsage(l: Ledger, id: Id, expiresAt: Time, key: Key)
    requires LedgerInv(l)
    ensures Reserved(Renewed(l, id, expiresAt), key) == Reserved(l, key)
    ensures CommittedTotal(Renewed(l, id, expiresAt), key) == CommittedTotal(l, key)
  {
    SumFrame(l.order, l.entries, Renewed(l, id, expiresAt).entries, ReservedBy(key));
    SumFrame(l.order, l.entries, Renewed(l, id, expiresAt).entries, CommittedBy(key));
  }

  /** Reaping never touches what is committed. */
  lemma ReapedUsage(l: Ledger, now: Time, key: Key)
    requires LedgerInv(l)
    ensures LedgerInv(Reaped(l, now))
    ensures Reserved(Reaped(l, now), key) <= Reserved(l, key)
    ensures CommittedTotal(Reaped(l, now), key) == CommittedTotal(l, key)
  {
    var after := Reaped(l, now).entries;
    SumFrame(l.order, l.entries, after, CommittedBy(key));
    forall id | id in l.entries
      ensures ReservedBy(key)(id, after[id]) <= ReservedBy(key)(id, l.entries[id])
    {
      ChargedNonNegative(l.entries[id].items, key);
    }
    SumPointwise(l.order, l.entries, after, ReservedBy(key));
  }

  lemma {:induction false} SumPointwise(order: seq<Id>, a: map<Id, Reservation>, b: map<Id, Reservation>,
                                        w: (Id, Reservation) -> real)
    requires forall id :: id in order ==> id in a && id in b && w(id, b[id]) <= w(id, a[id])
    ensures Sum(order, b, w) <= Sum(order, a, w)
  {
    if order != [] {
      SumPointwise(order[..|order| - 1], a, b, w);
    }
  }

  lemma UsageNonNegative(l: Ledger, key: Key)
    requires LedgerInv(l)
    ensures Reserved(l, key) >= 0.0 && CommittedTotal(l, key) >= 0.0
  {
    forall id | id in l.entries
      ensures Charged(l.entries[id].items, key) >= 0.0
    {
      ChargedNonNegative(l.entries[id].items, key);
    }
    SumNonNegative(l.order, l.entries, ReservedBy(key));
    SumNonNegative(l.order, l.entries, CommittedBy(key));
  }

  lemma ReservedGrained(l: Ledger, key: Key)
    requires AllCoarse(l)
    ensures Grained(Reserved(l, key))
  {
    forall id | id in l.entries
      ensures Grained(Charged(l.entries[id].items, key))
    {
      ChargedGrained(l.entries[id].items, key);
    }
    SumGrained(l.order, l.entries, ReservedBy(key));
  }
}
