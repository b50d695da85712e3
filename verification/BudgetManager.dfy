/** Which limits apply to a demand, how they are compiled into checks, and what a reservation decides. */
module BudgetManagers {
  import opened Prelude
  import opened Sums
  import opened Budgets
  import opened BudgetStores

  /** Configured limits by metric; an absent metric is unlimited. */
  type Caps = map<Metric, real>

  datatype ClassLimits = ClassLimits(globals: Caps, branches: Caps, resources: Caps, workers: map<string, Caps>)

  datatype Profile = Profile(
    soft: ClassLimits,
    hard: ClassLimits,
    softMaxDepth: Option<nat>,
    hardMaxDepth: Option<nat>,
    reserveFraction: real)

  /** A task's demand in its context. `branchMultiplier` widens only SOFT branch limits. */
  datatype Request = Request(
    taskId: nat,
    worker: string,
    branch: Option<string>,
    resources: set<string>,
    depth: nat,
    lane: Lane,
    branchMultiplier: real,
    demand: map<Metric, real>)

  predicate CapsValid(caps: Caps) {
    forall m :: m in caps ==> caps[m] >= 0.0
  }

  predicate LimitsValid(limits: ClassLimits) {
    && CapsValid(limits.globals) && CapsValid(limits.branches) && CapsValid(limits.resources)
    && forall w :: w in limits.workers ==> CapsValid(limits.workers[w])
  }

  predicate ProfileValid(p: Profile) {
    LimitsValid(p.soft) && LimitsValid(p.hard) && 0.0 <= p.reserveFraction < 1.0
  }

  predicate RequestValid(r: Request) {
    r.branchMultiplier >= 1.0 && forall m :: m in r.demand ==> r.demand[m] >= 0.0
  }

  function Limits(p: Profile, cls: BudgetClass): ClassLimits {
    if cls.Hard? then p.hard else p.soft
  }

  function CapsFor(p: Profile, bucket: Bucket, cls: BudgetClass): Caps {
    var limits := Limits(p, cls);
    match bucket
    case Global => limits.globals
    case Worker(w) => if w in limits.workers then limits.workers[w] else map[]
    case Branch(_) => limits.branches
    case Resource(_) => limits.resources
  }

  /** The configured limit of a key, if it has one. */
  function Cap(p: Profile, key: Key): Option<real> {
    var caps := CapsFor(p, key.bucket, key.cls);
    if key.metric in caps then Some(caps[key.metric]) else None
  }

  predicate Applies(req: Request, bucket: Bucket) {
    match bucket
    case Global => true
    case Worker(w) => w == req.worker
    case Branch(b) => req.branch == Some(b)
    case Resource(r) => r in req.resources
  }

  /** What a lane may use of a limit: NORMAL leaves the exploration reserve of every SOFT one. */
  function Effective(cls: BudgetClass, lane: Lane, reserveFraction: real, configured: real): real {
    if cls.Soft? && lane.Normal? then configured * (1.0 - reserveFraction) else configured
  }

  function Scaled(cap: real, multiplier: real): real {
    cap * multiplier
  }

  function Multiplier(req: Request, bucket: Bucket, cls: BudgetClass): real {
    if bucket.Branch? && cls.Soft? then req.branchMultiplier else 1.0
  }

  /** The one check a key gets: it applies, it has a limit, and something is demanded. */
  function Expected(p: Profile, req: Request, key: Key): Option<Check> {
    if Applies(req, key.bucket) && Cap(p, key).Some? && key.metric in req.demand && req.demand[key.metric] > 0.0 then
      var configured := Scaled(Cap(p, key).value, Multiplier(req, key.bucket, key.cls));
      Some(Check(key, req.demand[key.metric], configured, Effective(key.cls, req.lane, p.reserveFraction, configured)))
    else
      None
  }

  predicate DistinctKeys(checks: seq<Check>) {
    forall i, j :: 0 <= i < j < |checks| ==> checks[i].key != checks[j].key
  }

  /** `checks` has exactly the expected check of every key, once. */
  ghost predicate Compiled(p: Profile, req: Request, checks: seq<Check>) {
    && DistinctKeys(checks)
    && (forall c :: c in checks ==> Expected(p, req, c.key) == Some(c))
    && (forall key :: Expected(p, req, key).Some? ==> Expected(p, req, key).value in checks)
  }

  // ----- compilation -------------------------------------------------------------------------

  /** `_checks_for_caps`: one bucket's checks, metric by metric. */
  method ChecksForCaps(bucket: Bucket, caps: Caps, amounts: map<Metric, real>, cls: BudgetClass, lane: Lane,
                       reserveFraction: real, multiplier: real)
    returns (checks: seq<Check>)
    ensures DistinctKeys(checks)
    ensures forall c :: c in checks ==> c.key.bucket == bucket && c.key.cls == cls
    ensures forall c :: c in checks ==>
      && c.key.metric in caps && c.key.metric in amounts && c.requested == amounts[c.key.metric]
      && c.configured == Scaled(caps[c.key.metric], multiplier)
      && c.effective == Effective(cls, lane, reserveFraction, c.configured)
    ensures forall m :: m in caps && m in amounts ==> exists c :: c in checks && c.key == Key(bucket, cls, m)
  {
    checks := [];
    var todo := caps.Keys;
    while todo != {}
      invariant todo <= caps.Keys && DistinctKeys(checks)
      invariant forall c :: c in checks ==> c.key.bucket == bucket && c.key.cls == cls && c.key.metric !in todo
      invariant forall c :: c in checks ==>
        && c.key.metric in caps && c.key.metric in amounts && c.requested == amounts[c.key.metric]
        && c.configured == Scaled(caps[c.key.metric], multiplier)
        && c.effective == Effective(cls, lane, reserveFraction, c.configured)
      invariant forall m :: m in caps && m in amounts && m !in todo ==> exists c :: c in checks && c.key == Key(bucket, cls, m)
      decreases todo
    {
      var metric :| metric in todo;
      todo := todo - {metric};
      if metric in amounts {
        var configured := caps[metric] * multiplier;
        var effective := configured;
        if cls.Soft? && lane.Normal? {
          effective := effective * (1.0 - reserveFraction);
        }
        var check := Check(Key(bucket, cls, metric), amounts[metric], configured, effective);
        ghost var before := checks;
        checks := checks + [check];
        assert check in checks && forall c :: c in before ==> c in checks;
      }
    }
  }

  /** The total requested of `key` by a list of checks. */
  ghost function RequestedOf(checks: seq<Check>, key: Key): real {
    if checks == [] then 0.0
    else
      var n := |checks| - 1;
      RequestedOf(checks[..n], key) + (if checks[n].key == key then checks[n].requested else 0.0)
  }

  predicate SameLimits(a: Check, b: Check) {
    a.configured == b.configured && a.effective == b.effective
  }

  ghost predicate Conflicting(checks: seq<Check>) {
    exists i, j :: 0 <= i < j < |checks| && checks[i].key == checks[j].key && !SameLimits(checks[i], checks[j])
  }

  /** `merged` is what the checks so far amount to. */
  ghost predicate MergedUpTo(checks: seq<Check>, merged: map<Key, Check>) {
    && (forall key :: key in merged <==> exists i :: 0 <= i < |checks| && checks[i].key == key)
    && (forall key :: key in merged ==> merged[key].key == key && merged[key].requested == RequestedOf(checks, key))
    && (forall key :: key !in merged ==> RequestedOf(checks, key) == 0.0)
    && (forall i :: 0 <= i < |checks| ==> SameLimits(merged[checks[i].key], checks[i]))
  }

  lemma RequestedSnoc(checks: seq<Check>, check: Check, key: Key)
    ensures RequestedOf(checks + [check], key) == RequestedOf(checks, key) + (if check.key == key then check.requested else 0.0)
  {
    assert (checks + [check])[..|checks|] == checks;
  }

  lemma NothingMerged()
    ensures MergedUpTo([], map[])
  {
  }

  /** Entering a check into what is merged: alone under a new key, added up under an old one. */
  lemma MergedSnoc(checks: seq<Check>, merged: map<Key, Check>, check: Check, entry: Check)
    requires MergedUpTo(checks, merged) && entry.key == check.key && SameLimits(entry, check)
    requires entry.requested == RequestedOf(checks, check.key) + check.requested
    requires check.key in merged ==> SameLimits(merged[check.key], entry)
    ensures MergedUpTo(checks + [check], merged[check.key := entry])
  {
    var all, merged' := checks + [check], merged[check.key := entry];
    forall key
      ensures RequestedOf(all, key) == RequestedOf(checks, key) + (if check.key == key then check.requested else 0.0)
    {
      RequestedSnoc(checks, check, key);
    }
    hide RequestedOf;
    assert all[|checks|] == check && forall i :: 0 <= i < |checks| ==> all[i] == checks[i];
    forall key
      ensures key in merged' <==> exists i :: 0 <= i < |all| && all[i].key == key
    {
      if key in merged {
        var i :| 0 <= i < |checks| && checks[i].key == key;
        assert all[i].key == key;
      }
    }
    forall i | 0 <= i < |all|
      ensures SameLimits(merged'[all[i].key], all[i])
    {
      assert i < |checks| ==> SameLimits(merged[checks[i].key], checks[i]);
    }
  }

  /** `_merge_checks`: one check a key, demands added up; differing limits are an error. */
  method MergeChecks(checks: seq<Check>) returns (r: Result<map<Key, Check>>)
    ensures r.Err? <==> Conflicting(checks)
    ensures r.Ok? ==>
      && (forall key :: key in r.value <==> exists i :: 0 <= i < |checks| && checks[i].key == key)
      && (forall key :: key in r.value ==> r.value[key].key == key && r.value[key].requested == RequestedOf(checks, key))
      && (forall i :: 0 <= i < |checks| ==> SameLimits(r.value[checks[i].key], checks[i]))
  {
    hide RequestedOf;
    var merged: map<Key, Check> := map[];
    NothingMerged();
    assert checks[..0] == [];
    for k := 0 to |checks|
      invariant MergedUpTo(checks[..k], merged)
    {
      var check := checks[k];
      assert checks[..k + 1] == checks[..k] + [check];
      if check.key !in merged {
        MergedSnoc(checks[..k], merged, check, check);
        merged := merged[check.key := check];
      } else {
        var existing := merged[check.key];
        if !SameLimits(existing, check) {
          var i :| 0 <= i < k && checks[..k][i].key == check.key;
          assert !SameLimits(checks[i], checks[k]);
          return Err(Rejected);
        }
        var entry := check.(requested := existing.requested + check.requested);
        MergedSnoc(checks[..k], merged, check, entry);
        merged := merged[check.key := entry];
      }
    }
    assert checks[..|checks|] == checks;
    forall i, j | 0 <= i < j < |checks| && checks[i].key == checks[j].key
      ensures SameLimits(checks[i], checks[j])
    {
      assert SameLimits(merged[checks[i].key], checks[i]) && SameLimits(merged[checks[j].key], checks[j]);
    }
    r := Ok(merged);
  }

  /** `checks` is compiled as far as the (bucket, class) pairs in `pairs` go. */
  ghost predicate Covers(p: Profile, req: Request, checks: seq<Check>, pairs: set<(Bucket, BudgetClass)>) {
    && DistinctKeys(checks)
    && (forall c :: c in checks ==> (c.key.bucket, c.key.cls) in pairs && Expected(p, req, c.key) == Some(c))
    && (forall key: Key :: (key.bucket, key.cls) in pairs && Expected(p, req, key).Some? ==> Expected(p, req, key).value in checks)
  }

  /** The positive demands: what `as_metric_amounts` keeps. */
  function Amounts(demand: map<Metric, real>): map<Metric, real> {
    map m | m in demand && demand[m] > 0.0 :: demand[m]
  }

  lemma BucketCovered(p: Profile, req: Request, bucket: Bucket, cls: BudgetClass, more: seq<Check>)
    requires Applies(req, bucket) && DistinctKeys(more)
    requires forall c :: c in more ==> c.key.bucket == bucket && c.key.cls == cls && Expected(p, req, c.key) == Some(c)
    requires forall m :: m in CapsFor(p, bucket, cls) && m in Amounts(req.demand) ==>
      exists c :: c in more && c.key == Key(bucket, cls, m)
    ensures Covers(p, req, more, {(bucket, cls)})
  {
    forall key: Key | key.bucket == bucket && key.cls == cls && Expected(p, req, key).Some?
      ensures Expected(p, req, key).value in more
    {
      assert key == Key(bucket, cls, key.metric);
    }
  }

  lemma CoversJoin(p: Profile, req: Request, a: seq<Check>, b: seq<Check>,
                   s: set<(Bucket, BudgetClass)>, t: set<(Bucket, BudgetClass)>)
    requires Covers(p, req, a, s) && Covers(p, req, b, t) && s !! t
    ensures Covers(p, req, a + b, s + t)
  {
    hide Expected;
    forall i, j | 0 <= i < j < |a + b|
      ensures (a + b)[i].key != (a + b)[j].key
    {
      if i < |a| <= j {
        assert a[i] in a && b[j - |a|] in b;
      }
    }
  }

  method CompileBucket(p: Profile, req: Request, bucket: Bucket, cls: BudgetClass, checks: seq<Check>,
                       ghost pairs: set<(Bucket, BudgetClass)>)
    returns (more: seq<Check>)
    requires Covers(p, req, checks, pairs) && (bucket, cls) !in pairs && Applies(req, bucket)
    ensures Covers(p, req, more, pairs + {(bucket, cls)})
  {
    hide Effective, Scaled;
    var added := ChecksForCaps(bucket, CapsFor(p, bucket, cls), Amounts(req.demand), cls, req.lane,
                               p.reserveFraction, Multiplier(req, bucket, cls));
    forall c | c in added
      ensures Expected(p, req, c.key) == Some(c)
    {
      assert c.key == Key(bucket, cls, c.key.metric);
      assert Cap(p, c.key) == Some(CapsFor(p, bucket, cls)[c.key.metric]);
    }
    BucketCovered(p, req, bucket, cls, added);
    CoversJoin(p, req, checks, added, pairs, {(bucket, cls)});
    more := checks + added;
  }

  /** The pairs one class contributes, given how many of the task's resources are done. */
  ghost function ClassPairs(req: Request, cls: BudgetClass, resources: set<string>): set<(Bucket, BudgetClass)> {
    {(Global, cls), (Bucket.Worker(req.worker), cls)}
    + (if req.branch.Some? then {(Branch(req.branch.value), cls)} else {})
    + set r | r in resources :: (Resource(r), cls)
  }

  method CompileClass(p: Profile, req: Request, cls: BudgetClass, checks: seq<Check>,
                      ghost pairs: set<(Bucket, BudgetClass)>)
    returns (more: seq<Check>)
    requires Covers(p, req, checks, pairs) && forall b :: (b, cls) !in pairs
    ensures Covers(p, req, more, pairs + ClassPairs(req, cls, req.resources))
  {
    hide Expected, Covers;
    more := CompileBucket(p, req, Global, cls, checks, pairs);
    more := CompileBucket(p, req, Bucket.Worker(req.worker), cls, more, pairs + {(Global, cls)});
    ghost var done := pairs + {(Global, cls)} + {(Bucket.Worker(req.worker), cls)};
    if req.branch.Some? {
      more := CompileBucket(p, req, Branch(req.branch.value), cls, more, done);
      done := done + {(Branch(req.branch.value), cls)};
    }
    ghost var compiled: set<string> := {};
    var todo := req.resources;
    assert done == pairs + ClassPairs(req, cls, compiled);
    while todo != {}
      invariant todo + compiled == req.resources && todo !! compiled
      invariant Covers(p, req, more, pairs + ClassPairs(req, cls, compiled))
      decreases todo
    {
      var r :| r in todo;
      more := CompileBucket(p, req, Resource(r), cls, more, pairs + ClassPairs(req, cls, compiled));
      assert pairs + ClassPairs(req, cls, compiled) + {(Resource(r), cls)} == pairs + ClassPairs(req, cls, compiled + {r});
      todo, compiled := todo - {r}, compiled + {r};
    }
    assert compiled == req.resources;
  }

  lemma PairIsCompiled(req: Request, bucket: Bucket, cls: BudgetClass)
    requires Applies(req, bucket)
    ensures (bucket, cls) in ClassPairs(req, cls, req.resources)
  {
    match bucket
    case Global =>
    case Worker(_) =>
    case Branch(_) =>
    case Resource(r) => assert r in req.resources;
  }

  lemma {:induction false} RequestedOnce(checks: seq<Check>, k: nat)
    requires DistinctKeys(checks) && k < |checks|
    ensures RequestedOf(checks, checks[k].key) == checks[k].requested
  {
    var n := |checks| - 1;
    if k < n {
      RequestedOnce(checks[..n], k);
    } else {
      RequestedAbsent(checks[..n], checks[n].key);
    }
  }

  lemma {:induction false} RequestedAbsent(checks: seq<Check>, key: Key)
    requires forall i :: 0 <= i < |checks| ==> checks[i].key != key
    ensures RequestedOf(checks, key) == 0.0
  {
    if checks != [] {
      RequestedAbsent(checks[..|checks| - 1], key);
    }
  }

  /** `_compile_checks`: every key gets exactly its expected check, and merging never conflicts. */
  method CompileChecks(p: Profile, req: Request) returns (checks: seq<Check>)
    ensures Compiled(p, req, checks)
  {
    var raw := CompileClass(p, req, Hard, [], {});
    raw := CompileClass(p, req, Soft, raw, ClassPairs(req, Hard, req.resources));
    ghost var pairs := ClassPairs(req, Hard, req.resources) + ClassPairs(req, Soft, req.resources);
    assert pairs == {} + ClassPairs(req, Hard, req.resources) + ClassPairs(req, Soft, req.resources);
    forall key: Key | Applies(req, key.bucket)
      ensures (key.bucket, key.cls) in pairs
    {
      PairIsCompiled(req, key.bucket, key.cls);
      assert key.cls == Hard || key.cls == Soft;
    }
    assert Compiled(p, req, raw);
    var merged := MergeChecks(raw);
    forall i | 0 <= i < |raw|
      ensures merged.value[raw[i].key] == raw[i]
    {
      RequestedOnce(raw, i);
    }
    checks := Values(merged.value);
    AllCompiled(p, req, raw, merged.value, checks);
  }

  lemma AllCompiled(p: Profile, req: Request, raw: seq<Check>, merged: map<Key, Check>, checks: seq<Check>)
    requires Compiled(p, req, raw)
    requires forall key :: key in merged <==> exists i :: 0 <= i < |raw| && raw[i].key == key
    requires forall i :: 0 <= i < |raw| ==> merged[raw[i].key] == raw[i]
    requires DistinctKeys(checks) && forall c :: c in checks <==> c.key in merged && merged[c.key] == c
    ensures Compiled(p, req, checks)
  {
    hide Expected;
  }

  /** The merged checks as a tuple; the order, which decides nothing, is left open. */
  method Values(merged: map<Key, Check>) returns (checks: seq<Check>)
    requires forall key :: key in merged ==> merged[key].key == key
    ensures DistinctKeys(checks)
    ensures forall c :: c in checks <==> c.key in merged && merged[c.key] == c
  {
    checks := [];
    var todo := merged.Keys;
    while todo != {}
      invariant todo <= merged.Keys && DistinctKeys(checks)
      invariant forall c :: c in checks <==> c.key in merged && c.key !in todo && merged[c.key] == c
      decreases todo
    {
      var key :| key in todo;
      todo := todo - {key};
      checks := checks + [merged[key]];
    }
  }
}
