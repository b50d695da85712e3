/** What the configured limits mean, told by the profile's own fields and the metrics by name: when a
    request is allowed, deferred or denied, what a grant charges, and what is spent for good. */
module BudgetLimits {
  import opened Prelude
  import opened Sums
  import opened Budgets
  import opened BudgetBooks
  import opened BudgetStores
  import opened BudgetManagers
  import opened BudgetRuns

  /** What is used up once committed. */
  const CUMULATIVE: set<Metric> := {Metric.Tasks, Metric.Cost, Metric.Requests, Metric.Candidates, Metric.RuntimeSeconds}

  /** What comes back when an execution ends. */
  const CAPACITY: set<Metric> := {Metric.ConcurrentTasks}

  /** Of the given metrics no limit in `caps`, widened by `width` and cut to `share`, is passed in the
      bucket by the demand on top of the totals. */
  predicate RoomIn(b: Books, bucket: Bucket, cls: BudgetClass, caps: Caps, demand: map<Metric, real>, width: real, share: real,
                   metrics: set<Metric>) {
    forall m :: m in metrics && m in caps && m in demand && demand[m] > 0.0 ==>
      RunningUse(b, bucket, cls, m) + demand[m] <= Stretched(caps[m], width, share) + EPSILON
  }

  function Stretched(cap: real, width: real, share: real): real { cap * width * share }

  function RunningUse(b: Books, bucket: Bucket, cls: BudgetClass, m: Metric): real {
    var key := Key(bucket, cls, m);
    (if key in b.committed then b.committed[key] else 0.0) + (if key in b.reserved then b.reserved[key] else 0.0)
  }

  /** Room under every HARD limit: global, of the worker, of the branch and of each resource. */
  predicate HardRoom(p: Profile, b: Books, req: Request, metrics: set<Metric>) {
    && RoomIn(b, Global, Hard, p.hard.globals, req.demand, 1.0, 1.0, metrics)
    && (req.worker in p.hard.workers ==>
          RoomIn(b, Bucket.Worker(req.worker), Hard, p.hard.workers[req.worker], req.demand, 1.0, 1.0, metrics))
    && (req.branch.Some? ==> RoomIn(b, Branch(req.branch.value), Hard, p.hard.branches, req.demand, 1.0, 1.0, metrics))
    && (forall r :: r in req.resources ==> RoomIn(b, Resource(r), Hard, p.hard.resources, req.demand, 1.0, 1.0, metrics))
  }

  /** Room under every SOFT limit: NORMAL work leaves the exploration reserve, and the branch's own
      limits stretch by its multiplier. */
  predicate SoftRoom(p: Profile, b: Books, req: Request, metrics: set<Metric>) {
    var share := match req.lane case Normal => 1.0 - p.reserveFraction case Exploration => 1.0;
    && RoomIn(b, Global, Soft, p.soft.globals, req.demand, 1.0, share, metrics)
    && (req.worker in p.soft.workers ==>
          RoomIn(b, Bucket.Worker(req.worker), Soft, p.soft.workers[req.worker], req.demand, 1.0, share, metrics))
    && (req.branch.Some? ==>
          RoomIn(b, Branch(req.branch.value), Soft, p.soft.branches, req.demand, req.branchMultiplier, share, metrics))
    && (forall r :: r in req.resources ==> RoomIn(b, Resource(r), Soft, p.soft.resources, req.demand, 1.0, share, metrics))
  }

  predicate HasRoom(p: Profile, b: Books, req: Request, metrics: set<Metric>) {
    HardRoom(p, b, req, metrics) && SoftRoom(p, b, req, metrics)
  }

  /** The same, check by check. */
  ghost predicate ChecksPass(p: Profile, b: Books, req: Request, metrics: set<Metric>) {
    forall key: Key :: key.metric in metrics && Expected(p, req, key).Some? ==> !Over(b, Expected(p, req, key).value)
  }

  ghost predicate BucketPasses(p: Profile, b: Books, req: Request, bucket: Bucket, cls: BudgetClass, metrics: set<Metric>) {
    forall m :: m in metrics && Expected(p, req, Key(bucket, cls, m)).Some? ==> !Over(b, Expected(p, req, Key(bucket, cls, m)).value)
  }

  /** One bucket's checks pass exactly if its limits have room. */
  lemma BucketHasRoom(p: Profile, b: Books, req: Request, bucket: Bucket, cls: BudgetClass, metrics: set<Metric>)
    requires Applies(req, bucket)
    ensures BucketPasses(p, b, req, bucket, cls, metrics) <==>
      RoomIn(b, bucket, cls, CapsFor(p, bucket, cls), req.demand, if bucket.Branch? && cls.Soft? then req.branchMultiplier else 1.0,
             if cls.Soft? && req.lane.Normal? then 1.0 - p.reserveFraction else 1.0, metrics)
  {
    hide Over, RunningUse, Expected, Stretched, CapsFor, Applies;
    forall m | m in CapsFor(p, bucket, cls) && m in req.demand && req.demand[m] > 0.0
      ensures Expected(p, req, Key(bucket, cls, m)).Some? && LimitPasses(p, b, req, Key(bucket, cls, m))
    {
      OneLimit(p, b, req, Key(bucket, cls, m));
    }
    forall m | Expected(p, req, Key(bucket, cls, m)).Some?
      ensures m in CapsFor(p, bucket, cls) && m in req.demand && req.demand[m] > 0.0
    {
      ExpectedIsLimited(p, req, Key(bucket, cls, m));
    }
  }

  lemma ExpectedIsLimited(p: Profile, req: Request, key: Key)
    requires Expected(p, req, key).Some?
    ensures key.metric in CapsFor(p, key.bucket, key.cls) && key.metric in req.demand && req.demand[key.metric] > 0.0
  {
  }

  ghost predicate LimitPasses(p: Profile, b: Books, req: Request, key: Key)
    requires Expected(p, req, key).Some? && key.metric in CapsFor(p, key.bucket, key.cls) && key.metric in req.demand
  {
    Over(b, Expected(p, req, key).value) <==>
      RunningUse(b, key.bucket, key.cls, key.metric) + req.demand[key.metric]
      > Stretched(CapsFor(p, key.bucket, key.cls)[key.metric], if key.bucket.Branch? && key.cls.Soft? then req.branchMultiplier else 1.0,
                  if key.cls.Soft? && req.lane.Normal? then 1.0 - p.reserveFraction else 1.0) + EPSILON
  }

  lemma OneLimit(p: Profile, b: Books, req: Request, key: Key)
    requires Applies(req, key.bucket) && key.metric in CapsFor(p, key.bucket, key.cls)
    requires key.metric in req.demand && req.demand[key.metric] > 0.0
    ensures Expected(p, req, key).Some? && LimitPasses(p, b, req, key)
  {
    hide CapsFor, Applies;
    var cap := CapsFor(p, key.bucket, key.cls)[key.metric];
    assert Cap(p, key) == Some(cap);
  }

  /** The limits of one bucket that concerns the request, as the checks read them. */
  ghost predicate BucketRoom(p: Profile, b: Books, req: Request, bucket: Bucket, cls: BudgetClass, metrics: set<Metric>) {
    RoomIn(b, bucket, cls, CapsFor(p, bucket, cls), req.demand, if bucket.Branch? && cls.Soft? then req.branchMultiplier else 1.0,
           if cls.Soft? && req.lane.Normal? then 1.0 - p.reserveFraction else 1.0, metrics)
  }

  /** The limits by name are the limits of every bucket that concerns the request. */
  lemma RoomByBucket(p: Profile, b: Books, req: Request, metrics: set<Metric>)
    ensures HasRoom(p, b, req, metrics) <==> forall bucket, cls :: Applies(req, bucket) ==> BucketRoom(p, b, req, bucket, cls, metrics)
  {
    if HasRoom(p, b, req, metrics) {
      forall bucket, cls | Applies(req, bucket)
        ensures BucketRoom(p, b, req, bucket, cls, metrics)
      {
        NamedRoom(p, b, req, bucket, cls, metrics);
      }
    }
    if forall bucket, cls :: Applies(req, bucket) ==> BucketRoom(p, b, req, bucket, cls, metrics) {
      RoomNamed(p, b, req, metrics);
    }
  }

  lemma NamedRoom(p: Profile, b: Books, req: Request, bucket: Bucket, cls: BudgetClass, metrics: set<Metric>)
    requires HasRoom(p, b, req, metrics) && Applies(req, bucket)
    ensures BucketRoom(p, b, req, bucket, cls, metrics)
  {
    match bucket
    case Global => hide RoomIn;
    case Worker(w) =>
    case Branch(_) => hide RoomIn;
    case Resource(r) => hide RoomIn; assert r in req.resources;
  }

  lemma RoomNamed(p: Profile, b: Books, req: Request, metrics: set<Metric>)
    requires forall bucket, cls :: Applies(req, bucket) ==> BucketRoom(p, b, req, bucket, cls, metrics)
    ensures HasRoom(p, b, req, metrics)
  {
    hide RoomIn;
    assert BucketRoom(p, b, req, Global, Hard, metrics) && BucketRoom(p, b, req, Global, Soft, metrics);
    assert BucketRoom(p, b, req, Bucket.Worker(req.worker), Hard, metrics);
    assert BucketRoom(p, b, req, Bucket.Worker(req.worker), Soft, metrics);
    if req.branch.Some? {
      assert BucketRoom(p, b, req, Branch(req.branch.value), Hard, metrics);
      assert BucketRoom(p, b, req, Branch(req.branch.value), Soft, metrics);
    }
    forall r | r in req.resources
      ensures BucketRoom(p, b, req, Resource(r), Hard, metrics) && BucketRoom(p, b, req, Resource(r), Soft, metrics)
    {
    }
  }

  lemma RoomIsChecks(p: Profile, b: Books, req: Request, metrics: set<Metric>)
    ensures HasRoom(p, b, req, metrics) <==> ChecksPass(p, b, req, metrics)
  {
    RoomByBucket(p, b, req, metrics);
    forall bucket, cls | Applies(req, bucket)
      ensures BucketRoom(p, b, req, bucket, cls, metrics) <==> BucketPasses(p, b, req, bucket, cls, metrics)
    {
      BucketHasRoom(p, b, req, bucket, cls, metrics);
    }
    hide HasRoom, BucketRoom, Over;
    ChecksByBucket(p, b, req, metrics);
  }

  lemma ChecksByBucket(p: Profile, b: Books, req: Request, metrics: set<Metric>)
    ensures ChecksPass(p, b, req, metrics) <==> forall bucket, cls :: Applies(req, bucket) ==> BucketPasses(p, b, req, bucket, cls, metrics)
  {
    hide Over;
    forall key: Key | key.metric in metrics && Expected(p, req, key).Some?
      ensures Applies(req, key.bucket) && key == Key(key.bucket, key.cls, key.metric)
    {
    }
    if forall bucket, cls :: Applies(req, bucket) ==> BucketPasses(p, b, req, bucket, cls, metrics) {
      forall key: Key | key.metric in metrics && Expected(p, req, key).Some?
        ensures !Over(b, Expected(p, req, key).value)
      {
        assert BucketPasses(p, b, req, key.bucket, key.cls, metrics);
      }
    }
  }

  /** A compiled request is refused for a metric exactly if some limit on it has no room. */
  lemma ViolatedIff(p: Profile, b: Books, req: Request, checks: seq<Check>, metrics: set<Metric>)
    requires Compiled(p, req, checks)
    ensures !HasRoom(p, b, req, metrics) <==> exists v :: v in Violations(b, checks) && v.check.key.metric in metrics
  {
    hide Over, HasRoom, Expected;
    RoomIsChecks(p, b, req, metrics);
    ViolationsAreReal(b, checks);
    if !ChecksPass(p, b, req, metrics) {
      var key: Key :| key.metric in metrics && Expected(p, req, key).Some? && Over(b, Expected(p, req, key).value);
      var c := Expected(p, req, key).value;
      KeyOfExpected(p, req, key);
      var v :| v in Violations(b, checks) && v.check == c;
    }
  }

  /** Depth apart, a request is denied if a limit on something cumulative has no room, deferred if only
      running tasks are too many, and allowed if there is room under every configured limit. */
  lemma VerdictByLimits(p: Profile, b: Books, req: Request, checks: seq<Check>)
    requires Compiled(p, req, checks)
    ensures var deep := (p.hardMaxDepth.Some? && req.depth > p.hardMaxDepth.value)
                     || (p.softMaxDepth.Some? && req.depth > p.softMaxDepth.value);
      match StoreVerdict(p, b, req, checks)
      case Allow => !deep && HasRoom(p, b, req, CUMULATIVE) && HasRoom(p, b, req, CAPACITY)
      case Deny => deep || !HasRoom(p, b, req, CUMULATIVE)
      case Defer => !deep && HasRoom(p, b, req, CUMULATIVE) && !HasRoom(p, b, req, CAPACITY)
  {
    hide HasRoom, Violations;
    ViolatedIff(p, b, req, checks, CUMULATIVE);
    ViolatedIff(p, b, req, checks, CAPACITY);
    var violations := Violations(b, checks);
    forall v | v in violations
      ensures v.check.key.metric in (if IsCapacity(v.check.key.metric) then CAPACITY else CUMULATIVE)
      ensures !IsCapacity(v.check.key.metric) ==> v.check.key.metric !in CAPACITY
      ensures IsCapacity(v.check.key.metric) ==> v.check.key.metric !in CUMULATIVE
    {
    }
    if v :| v in violations && !IsCapacity(v.check.key.metric) {
      var i :| 0 <= i < |violations| && violations[i] == v;
    }
    if violations != [] {
      assert violations[0] in violations;
    }
  }

  // ----- what a grant charges ----------------------------------------------------------------------

  /** The configured limit that a key stands for, if it concerns the request. */
  predicate Concerns(p: Profile, req: Request, key: Key) {
    var limits := match key.cls case Hard => p.hard case Soft => p.soft;
    match key.bucket
    case Global => key.metric in limits.globals
    case Worker(w) => w == req.worker && w in limits.workers && key.metric in limits.workers[w]
    case Branch(b) => req.branch == Some(b) && key.metric in limits.branches
    case Resource(r) => r in req.resources && key.metric in limits.resources
  }

  /** A grant charges every limit that concerns the request its demand, and nothing else. */
  lemma GrantCharges(p: Profile, req: Request, checks: seq<Check>, key: Key)
    requires Compiled(p, req, checks) && RequestValid(req)
    ensures Charged(ItemsOf(checks), key)
         == if Concerns(p, req, key) && key.metric in req.demand then req.demand[key.metric] else 0.0
  {
    hide Compiled;
    CompiledCharge(p, req, checks, key);
  }

  /** A reservation lasts for its lease: a reap at `t` ends it if and only if the lease is over by then,
      as granted or as last renewed. */
  lemma ReservationLasts(l: Ledger, id: Id, until: Time, t: Time)
    requires IsActive(l, id)
    ensures IsActive(Reaped(Budgets.Renewed(l, id, until), t), id) <==> t < until
    ensures l.entries[id].expiresAt == until ==> (IsActive(Reaped(l, t), id) <==> t < until)
    ensures !IsActive(Reaped(l, t), id) ==> Reaped(l, t).entries[id].state == Expired
  {
  }

  lemma GrantLasts(p: Profile, b: Books, req: Request, checks: seq<Check>, now: Time, leaseFor: Time, t: Time)
    requires BooksInv(b) && Compiled(p, req, checks) && checks != [] && StoreVerdict(p, b, req, checks).Allow?
    ensures var l := StoreReserved(p, b, req, checks, now, leaseFor).ledger;
      IsActive(l, b.ledger.nextId) && (IsActive(Reaped(l, t), b.ledger.nextId) <==> t < now + leaseFor)
  {
    hide Compiled, Violations;
    SameTotalsSameViolations(b, checks);
  }

  // ----- what is spent for good --------------------------------------------------------------------

  /** Committing moves what was charged to cumulative metrics to the committed totals and keeps their
      usage; what was charged to running tasks comes back. */
  lemma CommitSpends(b: Books, id: Id, key: Key)
    requires BudgetBooks.Exact(b) && IsActive(b.ledger, id)
    ensures var b', charge := Closing(b, id, Committed), Charged(b.ledger.entries[id].items, key);
      && BudgetBooks.Exact(b') && b'.ledger.entries[id].state == Committed
      && match key.metric
         case ConcurrentTasks =>
           Usage(b'.ledger, key) == Usage(b.ledger, key) - charge && Get(b'.committed, key) == Get(b.committed, key)
         case Tasks => Usage(b'.ledger, key) == Usage(b.ledger, key) && Get(b'.committed, key) == Get(b.committed, key) + charge
         case Cost => Usage(b'.ledger, key) == Usage(b.ledger, key) && Get(b'.committed, key) == Get(b.committed, key) + charge
         case Requests => Usage(b'.ledger, key) == Usage(b.ledger, key) && Get(b'.committed, key) == Get(b.committed, key) + charge
         case Candidates => Usage(b'.ledger, key) == Usage(b.ledger, key) && Get(b'.committed, key) == Get(b.committed, key) + charge
         case RuntimeSeconds =>
           Usage(b'.ledger, key) == Usage(b.ledger, key) && Get(b'.committed, key) == Get(b.committed, key) + charge
  {
    hide Reserved, CommittedTotal, LedgerInv, AllCoarse, Charged;
    ClosingIsExact(b, id, Committed);
    ClosedUsage(b.ledger, id, Committed, key);
  }

  /** A reservation's charge as long as it may still be spent, or has been. */
  function SpentBy(key: Key): (Id, Reservation) -> real {
    (_, r: Reservation) =>
      if r.state == Active || (r.state == Committed && key.metric in CUMULATIVE) then Charged(r.items, key) else 0.0
  }

  ghost function Spent(l: Ledger, key: Key): real { Sum(l.order, l.entries, SpentBy(key)) }

  lemma {:induction false} SpentIsUsage(order: seq<Id>, entries: map<Id, Reservation>, key: Key)
    ensures Sum(order, entries, SpentBy(key)) == Sum(order, entries, ReservedBy(key)) + Sum(order, entries, CommittedBy(key))
  {
    if order != [] {
      SpentIsUsage(order[..|order| - 1], entries, key);
    }
  }

  /** Over any run of the store with demands above the tolerance, all that ACTIVE and COMMITTED
      reservations were ever charged on a cumulative metric stays within its HARD limit, and all that
      ACTIVE ones are charged for running tasks within theirs. */
  lemma SpentWithinLimits(p: Profile, widest: real, steps: seq<BudgetStep>, key: Key)
    requires ProfileValid(p) && widest >= 1.0
    requires forall i :: 0 <= i < |steps| ==> StepValid(p, widest, steps[i])
    requires key.cls == Hard
    ensures var spent := Spent(RunBooks(p, NO_BOOKS, steps).ledger, key);
      match key.bucket
      case Global => key.metric in p.hard.globals ==> spent <= p.hard.globals[key.metric] + EPSILON
      case Worker(w) =>
        w in p.hard.workers && key.metric in p.hard.workers[w] ==> spent <= p.hard.workers[w][key.metric] + EPSILON
      case Branch(_) => key.metric in p.hard.branches ==> spent <= p.hard.branches[key.metric] + EPSILON
      case Resource(_) => key.metric in p.hard.resources ==> spent <= p.hard.resources[key.metric] + EPSILON
  {
    hide StepValid, RunBooks, Spent;
    if Cap(p, key).Some? {
      StoreKeepsCaps(p, widest, steps, key);
    }
    var l := RunBooks(p, NO_BOOKS, steps).ledger;
    SpentTotals(l, key);
  }

  lemma SpentTotals(l: Ledger, key: Key)
    ensures Spent(l, key) == Usage(l, key)
  {
    SpentIsUsage(l.order, l.entries, key);
  }
}
