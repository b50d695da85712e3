/** The convergence controller's view of a branch budget, against the budget manager's own. */
module BranchInspectors {
  import opened Prelude
  import opened Sums
  import opened Budgets
  import opened BudgetBooks
  import opened BudgetStores
  import opened BudgetManagers

  datatype Pressure = Pressure(metric: Metric, cls: BudgetClass, configured: real, effective: real,
                               committed: real, reserved: real, utilization: real)

  predicate Exhausted(p: Pressure) {
    p.utilization >= 1.0 - EPSILON
  }

  function Utilization(total: real, effective: real): real {
    if effective <= 0.0 then 1.0 else MaxReal(0.0, total / effective)
  }

  /** The inspector's own reading of a branch limit: scaled, and for NORMAL work on a SOFT limit
      reduced by the exploration reserve. */
  function InspectedEffective(cls: BudgetClass, lane: Lane, reserveFraction: real, configured: real): real {
    match (cls, lane)
    case (Soft, Normal) => configured * (1.0 - reserveFraction)
    case _ => configured
  }

  function BranchCaps(p: Profile, cls: BudgetClass): Caps {
    match cls
    case Soft => p.soft.branches
    case Hard => p.hard.branches
  }

  /** What the inspector reports of one branch limit. */
  function Reported(p: Profile, b: Books, branch: string, cls: BudgetClass, lane: Lane, multiplier: real,
                    metric: Metric): Pressure
    requires metric in BranchCaps(p, cls)
  {
    var key := Key(Branch(branch), cls, metric);
    var configured := BranchCaps(p, cls)[metric] * multiplier;
    var effective := InspectedEffective(cls, lane, p.reserveFraction, configured);
    Pressure(metric, cls, configured, effective, Get(b.committed, key), Get(b.reserved, key),
             Utilization(Get(b.committed, key) + Get(b.reserved, key), effective))
  }

  /** `pressures` has exactly the report of every limited metric of the branch. */
  predicate Inspected(p: Profile, b: Books, branch: string, cls: BudgetClass, lane: Lane, multiplier: real,
                      pressures: seq<Pressure>) {
    && (forall x :: x in pressures ==>
          x.metric in BranchCaps(p, cls) && x == Reported(p, b, branch, cls, lane, multiplier, x.metric))
    && (forall m :: m in BranchCaps(p, cls) ==> Reported(p, b, branch, cls, lane, multiplier, m) in pressures)
  }

  method PressuresForCaps(store: InMemoryBudgetStore, p: Profile, branch: string, cls: BudgetClass, lane: Lane, multiplier: real)
    returns (result: seq<Pressure>)
    requires store.Valid()
    ensures Inspected(p, store.State(), branch, cls, lane, multiplier, result)
  {
    hide InMemoryBudgetStore.Valid, Reported, Utilization, InspectedEffective;
    var caps := if cls.Soft? then p.soft.branches else p.hard.branches;
    result := [];
    var todo := caps.Keys;
    while todo != {}
      invariant todo <= caps.Keys
      invariant forall x :: x in result ==>
        x.metric in caps && x == Reported(p, store.State(), branch, cls, lane, multiplier, x.metric)
      invariant forall m :: m in caps && m !in todo ==> Reported(p, store.State(), branch, cls, lane, multiplier, m) in result
      decreases todo
    {
      var metric :| metric in todo;
      todo := todo - {metric};
      var key := Key(Branch(branch), cls, metric);
      var committed, reserved := Get(store.committed, key), Get(store.reserved, key);
      var configured := caps[metric] * multiplier;
      var effective := configured;
      if cls.Soft? && lane.Normal? {
        effective := effective * (1.0 - p.reserveFraction);
      }
      var utilization := 1.0;
      if effective > 0.0 {
        utilization := (committed + reserved) / effective;
      }
      var pressure := Pressure(metric, cls, configured, effective, committed, reserved, MaxReal(0.0, utilization));
      ReportedAs(p, store.State(), branch, cls, lane, multiplier, metric, pressure);
      result := result + [pressure];
    }
  }

  lemma ReportedAs(p: Profile, b: Books, branch: string, cls: BudgetClass, lane: Lane, multiplier: real, metric: Metric, x: Pressure)
    requires metric in BranchCaps(p, cls)
    requires var key := Key(Branch(branch), cls, metric);
      && x.metric == metric && x.cls == cls && x.configured == BranchCaps(p, cls)[metric] * multiplier
      && x.effective == (if cls.Soft? && lane.Normal? then x.configured * (1.0 - p.reserveFraction) else x.configured)
      && x.committed == Get(b.committed, key) && x.reserved == Get(b.reserved, key)
      && x.utilization == MaxReal(0.0, if x.effective > 0.0 then (x.committed + x.reserved) / x.effective else 1.0)
    ensures x == Reported(p, b, branch, cls, lane, multiplier, metric)
    ensures x.metric == metric
  {
  }

  /** The multiplier the manager applies to a request's branch limits. */
  function BranchMultiplier(req: Request, cls: BudgetClass): real {
    if cls.Soft? then req.branchMultiplier else 1.0
  }

  /** The checks the manager compiles and the pressures the inspector reports, each by its own
      arithmetic, put the same limits on a branch: every check has its report, every report of a
      demanded metric its check, and a report is exhausted only if its check would be refused. */
  lemma InspectorAgreesWithChecks(p: Profile, b: Books, req: Request, branch: string, cls: BudgetClass,
                                  checks: seq<Check>, pressures: seq<Pressure>)
    requires ProfileValid(p) && RequestValid(req) && BooksInv(b)
    requires req.branch == Some(branch) && Compiled(p, req, checks)
    requires Inspected(p, b, branch, cls, req.lane, BranchMultiplier(req, cls), pressures)
    ensures forall c :: c in checks && c.key.bucket == Branch(branch) && c.key.cls == cls ==>
      exists x :: x in pressures && SameLimit(b, c, x)
    ensures forall x :: x in pressures && x.metric in req.demand && req.demand[x.metric] > 0.0 ==>
      exists c :: c in checks && c.key == Key(Branch(branch), cls, x.metric) && SameLimit(b, c, x)
  {
    hide Utilization, Compiled, Inspected, BooksInv;
    forall m | m in BranchCaps(p, cls)
      ensures LimitsAgree(p, b, req, branch, cls, m)
    {
      OneLimitAgrees(p, b, req, branch, cls, m);
    }
    forall c | c in checks && c.key.bucket == Branch(branch) && c.key.cls == cls
      ensures exists x :: x in pressures && SameLimit(b, c, x)
    {
      CheckIsExpected(p, req, checks, c);
      assert LimitsAgree(p, b, req, branch, cls, c.key.metric);
      ReportIsMade(p, b, branch, cls, req.lane, BranchMultiplier(req, cls), pressures, c.key.metric);
    }
    forall x | x in pressures && x.metric in req.demand && req.demand[x.metric] > 0.0
      ensures exists c :: c in checks && c.key == Key(Branch(branch), cls, x.metric) && SameLimit(b, c, x)
    {
      ReportIsTrue(p, b, branch, cls, req.lane, BranchMultiplier(req, cls), pressures, x);
      assert LimitsAgree(p, b, req, branch, cls, x.metric);
      ExpectedIsCompiled(p, req, checks, Key(Branch(branch), cls, x.metric));
    }
  }

  /** A check and a report put the same limits on the same metric, with the same usage, and agree on
      whether a demand beyond the tolerances is refused. */
  ghost predicate SameLimit(b: Books, c: Check, x: Pressure) {
    && x.metric == c.key.metric && x.cls == c.key.cls
    && x.configured == c.configured && x.effective == c.effective
    && x.committed == Get(b.committed, c.key) && x.reserved == Get(b.reserved, c.key)
    && (Exhausted(x) && c.requested > Slack(c.effective) ==> Over(b, c))
  }

  ghost predicate LimitsAgree(p: Profile, b: Books, req: Request, branch: string, cls: BudgetClass, m: Metric)
    requires m in BranchCaps(p, cls)
  {
    var key := Key(Branch(branch), cls, m);
    m in req.demand && req.demand[m] > 0.0 ==>
      && Expected(p, req, key).Some?
      && SameLimit(b, Expected(p, req, key).value, Reported(p, b, branch, cls, req.lane, BranchMultiplier(req, cls), m))
  }

  lemma OneLimitAgrees(p: Profile, b: Books, req: Request, branch: string, cls: BudgetClass, m: Metric)
    requires ProfileValid(p) && RequestValid(req) && BooksInv(b) && req.branch == Some(branch) && m in BranchCaps(p, cls)
    ensures LimitsAgree(p, b, req, branch, cls, m)
  {
    hide Utilization, Expected, Reported, BooksInv, ProfileValid, RequestValid, Slack;
    var key := Key(Branch(branch), cls, m);
    if m in req.demand && req.demand[m] > 0.0 {
      SameNumbers(p, b, req, branch, cls, m);
      var c := Expected(p, req, key).value;
      ExhaustedIffRefused(b, key, Reported(p, b, branch, cls, req.lane, BranchMultiplier(req, cls), m));
      assert Over(b, c) <==> Over(b, Check(key, c.requested, c.configured, c.effective));
    }
  }

  /** The two pieces of arithmetic give the same numbers. */
  lemma SameNumbers(p: Profile, b: Books, req: Request, branch: string, cls: BudgetClass, m: Metric)
    requires ProfileValid(p) && RequestValid(req) && req.branch == Some(branch) && m in BranchCaps(p, cls)
    requires m in req.demand && req.demand[m] > 0.0
    ensures var key := Key(Branch(branch), cls, m);
      && Expected(p, req, key).Some?
      && var c, x := Expected(p, req, key).value, Reported(p, b, branch, cls, req.lane, BranchMultiplier(req, cls), m);
      && c.key == key && x.metric == m && x.cls == cls
      && x.configured == c.configured && x.effective == c.effective && c.effective >= 0.0
      && x.committed == Get(b.committed, key) && x.reserved == Get(b.reserved, key)
      && x.utilization == Utilization(x.committed + x.reserved, x.effective)
  {
    hide Utilization, Get;
    EffectiveNonNegative(p, req, cls, m);
    var key := Key(Branch(branch), cls, m);
    assert Cap(p, key) == Some(BranchCaps(p, cls)[m]);
    assert Multiplier(req, key.bucket, cls) == BranchMultiplier(req, cls);
  }

  lemma EffectiveNonNegative(p: Profile, req: Request, cls: BudgetClass, m: Metric)
    requires ProfileValid(p) && RequestValid(req) && m in BranchCaps(p, cls)
    ensures var configured := BranchCaps(p, cls)[m] * BranchMultiplier(req, cls);
      Effective(cls, req.lane, p.reserveFraction, configured) >= 0.0
  {
    var cap, k := BranchCaps(p, cls)[m], BranchMultiplier(req, cls);
    ProductSign(cap, k);
    ProductSign(cap * k, 1.0 - p.reserveFraction);
  }

  lemma ProductSign(a: real, b: real)
    requires a >= 0.0 && b >= 0.0
    ensures a * b >= 0.0
  {
  }

  lemma CheckIsExpected(p: Profile, req: Request, checks: seq<Check>, c: Check)
    requires Compiled(p, req, checks) && c in checks
    ensures Expected(p, req, c.key) == Some(c)
    ensures c.key.bucket.Branch? ==> c.key.metric in BranchCaps(p, c.key.cls)
    ensures c.key.metric in req.demand && req.demand[c.key.metric] > 0.0
  {
  }

  lemma ExpectedIsCompiled(p: Profile, req: Request, checks: seq<Check>, key: Key)
    requires Compiled(p, req, checks) && Expected(p, req, key).Some?
    ensures Expected(p, req, key).value in checks && Expected(p, req, key).value.key == key
  {
  }

  lemma ReportIsMade(p: Profile, b: Books, branch: string, cls: BudgetClass, lane: Lane, multiplier: real,
                     pressures: seq<Pressure>, m: Metric)
    requires Inspected(p, b, branch, cls, lane, multiplier, pressures) && m in BranchCaps(p, cls)
    ensures Reported(p, b, branch, cls, lane, multiplier, m) in pressures
  {
  }

  lemma ReportIsTrue(p: Profile, b: Books, branch: string, cls: BudgetClass, lane: Lane, multiplier: real,
                     pressures: seq<Pressure>, x: Pressure)
    requires Inspected(p, b, branch, cls, lane, multiplier, pressures) && x in pressures
    ensures x.metric in BranchCaps(p, cls) && x == Reported(p, b, branch, cls, lane, multiplier, x.metric)
  {
  }

  /** The smallest demand that the two tolerances can disagree about. */
  function Slack(effective: real): real {
    EPSILON + EPSILON * effective
  }

  /** `x` reports the key's running totals against its limit. */
  predicate Reports(b: Books, key: Key, x: Pressure) {
    && x.committed == Get(b.committed, key) && x.reserved == Get(b.reserved, key)
    && x.utilization == Utilization(x.committed + x.reserved, x.effective)
  }

  /** A limit is reported exhausted exactly if every demand beyond the tolerances would be refused. */
  lemma ExhaustedIffRefused(b: Books, key: Key, x: Pressure)
    requires BooksInv(b) && Reports(b, key, x) && x.effective >= 0.0
    ensures Exhausted(x) <==> forall d :: d > Slack(x.effective) ==> Over(b, Check(key, d, x.configured, x.effective))
  {
    var configured, effective := x.configured, x.effective;
    var total := Get(b.committed, key) + Get(b.reserved, key);
    if effective > 0.0 {
      UtilizationScales(total, effective);
      if total < effective - EPSILON * effective {
        var d := effective + EPSILON - total;
        assert d > Slack(effective) && !Over(b, Check(key, d, configured, effective));
      }
    }
  }

  lemma UtilizationScales(total: real, effective: real)
    requires total >= 0.0 && effective > 0.0
    ensures Utilization(total, effective) >= 1.0 - EPSILON <==> total >= effective - EPSILON * effective
  {
    var u := total / effective;
    assert u * effective == total;
    if u >= 1.0 - EPSILON {
      ScaleBy(1.0 - EPSILON, u, effective);
    } else {
      ScaleBy(u, 1.0 - EPSILON, effective);
      assert (1.0 - EPSILON - u) * effective > 0.0;
    }
  }

  lemma ScaleBy(a: real, b: real, c: real)
    requires a <= b && c > 0.0
    ensures a * c <= b * c
    ensures a < b ==> a * c < b * c
  {
  }

  /** Within the tolerance the two do differ: a branch can be reported exhausted while a small
      enough positive demand would still be granted. */
  lemma ExhaustedYetGranted(b: Books, key: Key, x: Pressure)
    requires Reports(b, key, x) && x.effective > 0.0 && x.committed + x.reserved == x.effective
    ensures Exhausted(x) && !Over(b, Check(key, EPSILON, x.configured, x.effective))
  {
    UtilizationScales(x.effective, x.effective);
  }
}
