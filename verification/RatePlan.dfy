/** The pacing hint given to tools that only know a rate of their own. */
module RatePlans {
  import opened Prelude
  import opened RateLimits

  /** The envelope: the lowest rate, the per-process hint, and the lowest width. */
  datatype Plan = Plan(ceiling: Option<real>, hint: Option<real>, width: Option<nat>)

  /** How many consumers a rule divides its rate by; a rule without a width is not divided. */
  function Consumers(l: Limits): (n: nat)
    requires LimitsValid(l)
    ensures n >= 1
  {
    if l.maxConcurrency.Some? then l.maxConcurrency.value else 1
  }

  function Times(n: nat, rate: real): real {
    n as real * rate
  }

  function Share(l: Limits): real
    requires LimitsValid(l) && l.rps.Some?
  {
    l.rps.value / Consumers(l) as real
  }

  predicate AllValid(rules: seq<Limits>) {
    forall l :: l in rules ==> LimitsValid(l)
  }

  /** `n` processes at `rate` each stay within every matched rate. */
  predicate Within(rules: seq<Limits>, n: nat, rate: real) {
    forall l :: l in rules && l.rps.Some? ==> Times(n, rate) <= l.rps.value
  }

  /** Every rule sees no more than its rate when as many processes run as its own width allows. */
  predicate FitsWidths(rules: seq<Limits>, rate: real)
    requires AllValid(rules)
  {
    forall l :: l in rules && l.rps.Some? ==> Times(Consumers(l), rate) <= l.rps.value
  }

  ghost predicate IsLowest<T(!new)>(rules: seq<Limits>, value: Limits -> Option<T>, atMost: (T, T) -> bool, lowest: Option<T>) {
    && (lowest.None? <==> forall l :: l in rules ==> value(l).None?)
    && (lowest.Some? ==>
          && (exists l :: l in rules && value(l) == lowest)
          && (forall l :: l in rules && value(l).Some? ==> atMost(lowest.value, value(l).value)))
  }

  const RATE := (l: Limits) => l.rps
  const SHARE := (l: Limits) => if LimitsValid(l) && l.rps.Some? then Some(Share(l)) else None
  const WIDTH := (l: Limits) => l.maxConcurrency
  const REALS := (a: real, b: real) => a <= b
  const NATS := (a: nat, b: nat) => a <= b

  ghost predicate IsPlan(rules: seq<Limits>, p: Plan) {
    && IsLowest(rules, RATE, REALS, p.ceiling)
    && IsLowest(rules, SHARE, REALS, p.hint)
    && IsLowest(rules, WIDTH, NATS, p.width)
  }

  lemma LowestSnoc<T(!new)>(rules: seq<Limits>, value: Limits -> Option<T>, atMost: (T, T) -> bool, lowest: Option<T>,
                            next: Limits)
    requires IsLowest(rules, value, atMost, lowest)
    requires forall a: T, b, c :: (atMost(a, b) && atMost(b, c) ==> atMost(a, c)) && (atMost(a, b) || atMost(b, a))
    ensures IsLowest(rules + [next], value, atMost, Lower(lowest, value(next), atMost))
  {
    var all := rules + [next];
    assert next in all;
    assert forall l :: l in all <==> l in rules || l == next;
    if value(next).Some? && lowest.Some? {
      assert atMost(lowest.value, lowest.value) && atMost(value(next).value, value(next).value);
    }
    if value(next).Some? && lowest.None? {
      assert atMost(value(next).value, value(next).value);
    }
  }

  /** The running minimum. */
  function Lower<T>(lowest: Option<T>, next: Option<T>, atMost: (T, T) -> bool): Option<T> {
    if next.None? || (lowest.Some? && atMost(lowest.value, next.value)) then lowest else next
  }

  method MakePlan(rules: seq<Limits>) returns (p: Plan)
    requires AllValid(rules)
    ensures IsPlan(rules, p)
  {
    hide IsLowest, Lower;
    p := Plan(None, None, None);
    NothingLowest(RATE, REALS);
    NothingLowest(SHARE, REALS);
    NothingLowest(WIDTH, NATS);
    assert rules[..0] == [];
    for k := 0 to |rules|
      invariant IsPlan(rules[..k], p)
    {
      var l := rules[k];
      assert rules[..k + 1] == rules[..k] + [l];
      LowestSnoc(rules[..k], RATE, REALS, p.ceiling, l);
      LowestSnoc(rules[..k], SHARE, REALS, p.hint, l);
      LowestSnoc(rules[..k], WIDTH, NATS, p.width, l);
      p := Plan(Lower(p.ceiling, RATE(l), REALS), Lower(p.hint, SHARE(l), REALS), Lower(p.width, WIDTH(l), NATS));
    }
    assert rules[..|rules|] == rules;
  }

  lemma NothingLowest<T(!new)>(value: Limits -> Option<T>, atMost: (T, T) -> bool)
    ensures IsLowest([], value, atMost, None)
  {
  }

  /** A rule's share is the greatest rate its width allows. */
  lemma ShareIsGreatest(l: Limits, rate: real)
    requires LimitsValid(l) && l.rps.Some?
    ensures rate <= Share(l) <==> Times(Consumers(l), rate) <= l.rps.value
  {
    var n := Consumers(l) as real;
    assert Share(l) * n == l.rps.value;
    if rate <= Share(l) {
      assert rate * n <= Share(l) * n;
    } else {
      assert rate * n > Share(l) * n;
    }
  }

  /** The hint divides every shared rate, and wastes nothing: a rate fits all widths exactly up to it. */
  lemma HintIsGreatest(rules: seq<Limits>, p: Plan, rate: real)
    requires AllValid(rules) && IsPlan(rules, p) && p.hint.Some?
    ensures rate <= p.hint.value <==> FitsWidths(rules, rate)
  {
    hide Share, Times;
    forall l | l in rules && l.rps.Some?
      ensures rate <= Share(l) <==> Times(Consumers(l), rate) <= l.rps.value
      ensures p.hint.value <= Share(l)
    {
      ShareIsGreatest(l, rate);
      assert SHARE(l) == Some(Share(l));
    }
    var least :| least in rules && SHARE(least) == p.hint;
    assert least.rps.Some? && Share(least) == p.hint.value;
  }

  lemma FewerFit(n: nat, m: nat, rate: real)
    requires n <= m && rate >= 0.0
    ensures Times(n, rate) <= Times(m, rate)
  {
  }

  /** Processes up to the lowest width, each at the hint, keep within every rate if and only if some
      rule divides its own rate enough: its share, taken as often as the lowest width allows, is at
      most the lowest rate. Both minima are read off the matched rules. */
  lemma HintIsSafeIff(rules: seq<Limits>, p: Plan, width: nat, rate: real)
    requires AllValid(rules) && IsPlan(rules, p)
    requires IsLowest(rules, WIDTH, NATS, Some(width)) && IsLowest(rules, RATE, REALS, Some(rate))
    ensures p.hint.Some?
    ensures (forall n: nat :: n <= width ==> Within(rules, n, p.hint.value))
       <==> exists l :: l in rules && l.rps.Some? && Times(width, l.rps.value) <= Times(Consumers(l), rate)
  {
    hide Times, Share, LimitsValid;
    RatedHasHint(rules, p, rate);
    HintPositive(rules, p);
    var least :| least in rules && SHARE(least) == p.hint;
    ShareSettles(least, width, rate);
    if Times(width, p.hint.value) <= rate {
      forall n: nat | n <= width
        ensures Within(rules, n, p.hint.value)
      {
        FewerFit(n, width, p.hint.value);
        assert forall l :: l in rules && l.rps.Some? ==> RATE(l).Some?;
      }
    } else {
      var lowest :| lowest in rules && RATE(lowest) == Some(rate);
      assert !Within(rules, width, p.hint.value);
      forall l | l in rules && l.rps.Some?
        ensures Times(width, l.rps.value) > Times(Consumers(l), rate)
      {
        assert SHARE(l) == Some(Share(l));
        ShareSettles(l, width, rate);
        FewerAtLess(width, p.hint.value, Share(l));
      }
    }
  }

  lemma RatedHasHint(rules: seq<Limits>, p: Plan, rate: real)
    requires AllValid(rules) && IsPlan(rules, p) && IsLowest(rules, RATE, REALS, Some(rate))
    ensures p.hint.Some? && p.ceiling.Some?
  {
    hide Share;
    var lowest :| lowest in rules && RATE(lowest) == Some(rate);
    assert SHARE(lowest).Some?;
  }

  /** A share taken `width` times is within `rate` just when the rule's own numbers say so. */
  lemma ShareSettles(l: Limits, width: nat, rate: real)
    requires LimitsValid(l) && l.rps.Some?
    ensures Times(width, Share(l)) <= rate <==> Times(width, l.rps.value) <= Times(Consumers(l), rate)
  {
    var n, w := Consumers(l) as real, width as real;
    assert Share(l) * n == l.rps.value;
    assert w * Share(l) * n == w * l.rps.value;
    ScaleUp(w * Share(l), rate, n);
  }

  lemma ScaleUp(a: real, b: real, n: real)
    requires n > 0.0
    ensures a <= b <==> a * n <= n * b
  {
    assert n * b - a * n == (b - a) * n;
    if a <= b {
      assert (b - a) * n >= 0.0;
    } else {
      assert (b - a) * n < 0.0;
    }
  }

  lemma FewerAtLess(n: nat, x: real, y: real)
    requires x <= y
    ensures Times(n, x) <= Times(n, y)
  {
  }

  lemma HintPositive(rules: seq<Limits>, p: Plan)
    requires AllValid(rules) && IsPlan(rules, p) && p.hint.Some?
    ensures p.hint.value > 0.0 && p.ceiling.Some?
  {
    var least :| least in rules && SHARE(least) == p.hint;
    assert RATE(least).Some?;
  }

  /** When every rated rule also has a width, the hint keeps any allowed number within every rate. */
  lemma DividedRatesAreSafe(rules: seq<Limits>, p: Plan, n: nat)
    requires AllValid(rules) && IsPlan(rules, p) && p.hint.Some? && p.width.Some? && n <= p.width.value
    requires forall l :: l in rules && l.rps.Some? ==> l.maxConcurrency.Some?
    ensures Within(rules, n, p.hint.value)
  {
    hide Times, Share;
    HintPositive(rules, p);
    HintIsGreatest(rules, p, p.hint.value);
    forall l | l in rules && l.rps.Some?
      ensures Times(n, p.hint.value) <= l.rps.value
    {
      assert WIDTH(l).Some?;
      FewerFit(n, Consumers(l), p.hint.value);
    }
  }

  /** A rate without a width of its own is not divided, even where another rule admits several
      processes: two of them at the hint exceed it. */
  lemma UndividedRateIsExceeded()
    ensures var rules := [Limits(Some(10.0), Some(10.0), None), Limits(None, None, Some(2))];
      exists p :: IsPlan(rules, p) && p.hint.Some? && p.width == Some(2) && !Within(rules, 2, p.hint.value)
  {
    var rated, wide := Limits(Some(10.0), Some(10.0), None), Limits(None, None, Some(2));
    var rules, p := [rated, wide], Plan(Some(10.0), Some(10.0), Some(2));
    assert rated in rules && wide in rules;
    assert forall l :: l in rules <==> l == rated || l == wide;
    assert SHARE(rated) == Some(10.0) && RATE(rated) == Some(10.0) && WIDTH(wide) == Some(2);
    assert IsPlan(rules, p) && Times(2, 10.0) == 20.0;
  }

  /** `tool_integer_rps_hint`: rounded down, and none below one. */
  function IntegerHint(hint: Option<real>): (r: Option<int>)
    ensures r.None? <==> hint.None? || hint.value < 1.0
    ensures r.Some? ==> r.value >= 1 && r.value as real <= hint.value < r.value as real + 1.0
  {
    if hint.Some? && hint.value.Floor >= 1 then Some(hint.value.Floor) else None
  }
}
