/**
  Layered budgets (`BudgetLimits`, `ResolvedBudget`, `BudgetRemaining` of budget.rs).

  Absence in a layer means no opinion. Resolution intersects the layers into one
  finite budget; evaluation subtracts usage from it.
 */
module Budgets {
  import opened Prelude
  import opened Costs
  import opened Usage

  const MAX_BUDGET_LAYERS := 16

  type Timestamp = int

  predicate IsOptionalCounts(s: seq<Option<int>>) {
    |s| == DIMENSIONS && forall d :: 0 <= d < DIMENSIONS && s[d].Some? ==> IsU64(s[d].value)
  }

  type OptionalCounts = s: seq<Option<int>> | IsOptionalCounts(s) witness seq(DIMENSIONS, _ => None)

  datatype BudgetLimits = BudgetLimits(deadline: Option<Timestamp>, limits: OptionalCounts, costs: Option<CostTable>)

  datatype ResolvedBudget = ResolvedBudget(deadline: Timestamp, limits: Counts, costs: CostTable)

  datatype BudgetRemaining = BudgetRemaining(deadline: Timestamp, left: Counts, costs: CostTable)

  /** What `validate` demands of every resolved budget. */
  predicate Valid(b: ResolvedBudget) {
    SubsetsHold(b.limits)
  }

  function NoLimits(): BudgetLimits {
    BudgetLimits(None, seq(DIMENSIONS, _ => None), None)
  }

  predicate IsEmpty(l: BudgetLimits) {
    l.deadline.None? && l.costs.None? && forall d :: 0 <= d < DIMENSIONS ==> l.limits[d].None?
  }

  // ----- intersection ---------------------------------------------------------

  function MinOption(x: Option<int>, y: Option<int>): Option<int> {
    if x.Some? && y.Some? then Some(Min(x.value, y.value))
    else if x.Some? then x
    else y
  }

  function RestrictOption(x: Option<CostTable>, y: Option<CostTable>): Option<CostTable> {
    if x.Some? && y.Some? then RestrictTable(x.value, y.value); Some(Restrict(x.value, y.value))
    else if x.Some? then x
    else y
  }

  function MostRestrictive(x: BudgetLimits, y: BudgetLimits): BudgetLimits {
    BudgetLimits(
      MinOption(x.deadline, y.deadline),
      seq(DIMENSIONS, d requires 0 <= d < DIMENSIONS => MinOption(x.limits[d], y.limits[d])),
      RestrictOption(x.costs, y.costs))
  }

  function Effective(layers: seq<BudgetLimits>): BudgetLimits {
    if layers == [] then NoLimits()
    else MostRestrictive(Effective(layers[..|layers| - 1]), layers[|layers| - 1])
  }

  /** Every dimension is stated. */
  predicate Complete(l: BudgetLimits) {
    l.deadline.Some? && l.costs.Some? && forall d :: 0 <= d < DIMENSIONS ==> l.limits[d].Some?
  }

  /** The inclusive dimension of a subset dimension, otherwise itself. */
  function Inclusive(d: int): int {
    if d == CACHED_INPUT_TOKENS then INPUT_TOKENS
    else if d == REASONING_TOKENS then OUTPUT_TOKENS
    else if d == WRITE_CALLS then TOOL_CALLS
    else d
  }

  /** The finite budget of a complete layer: subset limits are clamped. */
  function Clamped(l: BudgetLimits): (b: ResolvedBudget)
    requires Complete(l)
    ensures Valid(b)
  {
    ResolvedBudget(
      l.deadline.value,
      seq(DIMENSIONS, d requires 0 <= d < DIMENSIONS => Min(l.limits[d].value, l.limits[Inclusive(d)].value)),
      l.costs.value)
  }

  function Resolve(layers: seq<BudgetLimits>): Option<ResolvedBudget> {
    if 1 <= |layers| <= MAX_BUDGET_LAYERS && Complete(Effective(layers))
    then Some(Clamped(Effective(layers)))
    else None
  }

  /** `ResolvedBudget::resolve`: folds the layers into `effective`. */
  method ResolveLayers(layers: seq<BudgetLimits>) returns (r: Option<ResolvedBudget>)
    ensures r == Resolve(layers)
  {
    if |layers| == 0 || |layers| > MAX_BUDGET_LAYERS {
      return None;
    }
    var effective := NoLimits();
    for k := 0 to |layers|
      invariant effective == Effective(layers[..k])
    {
      assert layers[..k + 1][..k] == layers[..k];
      effective := MostRestrictive(effective, layers[k]);
    }
    assert layers[..|layers|] == layers;
    r := if Complete(effective) then Some(Clamped(effective)) else None;
  }

  // ----- the resolved budget is the greatest lower bound ----------------------

  /** A budget stays within everything a layer states. */
  ghost predicate Within(b: ResolvedBudget, l: BudgetLimits) {
    && (l.deadline.Some? ==> b.deadline <= l.deadline.value)
    && (forall d :: 0 <= d < DIMENSIONS && l.limits[d].Some? ==> b.limits[d] <= l.limits[d].value)
    && (l.costs.Some? ==> WithinCosts(b.costs, l.costs.value))
  }

  lemma RestrictWithin(s: CostTable, x: CostTable, y: CostTable)
    ensures WithinCosts(s, Restrict(x, y)) <==> WithinCosts(s, x) && WithinCosts(s, y)
  {
    if WithinCosts(s, Restrict(x, y)) {
      forall c ensures && (Has(s, c) ==> Has(x, c) && Has(y, c))
                       && Amount(s, c) <= Amount(x, c) && Amount(s, c) <= Amount(y, c) {
        RestrictAmount(x, y, c);
        NoAmount(s, c);
        AmountRange(x, c);
        AmountRange(y, c);
      }
    }
    if WithinCosts(s, x) && WithinCosts(s, y) {
      forall c ensures (Has(s, c) ==> Has(Restrict(x, y), c)) && Amount(s, c) <= Amount(Restrict(x, y), c) {
        RestrictAmount(x, y, c);
        NoAmount(s, c);
        NoAmount(Restrict(x, y), c);
      }
    }
  }

  lemma NoAmount(s: seq<Money>, c: Currency)
    ensures !Has(s, c) ==> Amount(s, c) == 0
  {}

  lemma RestrictiveWithin(b: ResolvedBudget, x: BudgetLimits, y: BudgetLimits)
    ensures Within(b, MostRestrictive(x, y)) <==> Within(b, x) && Within(b, y)
  {
    var z := MostRestrictive(x, y);
    if x.costs.Some? && y.costs.Some? { RestrictWithin(b.costs, x.costs.value, y.costs.value); }
    assert forall d :: 0 <= d < DIMENSIONS ==> z.limits[d] == MinOption(x.limits[d], y.limits[d]);
  }

  ghost predicate WithinAll(b: ResolvedBudget, layers: seq<BudgetLimits>) {
    forall i :: 0 <= i < |layers| ==> Within(b, layers[i])
  }

  lemma {:induction false} EffectiveWithin(b: ResolvedBudget, layers: seq<BudgetLimits>)
    ensures Within(b, Effective(layers)) <==> WithinAll(b, layers)
  {
    if layers != [] {
      var n := |layers| - 1;
      EffectiveWithin(b, layers[..n]);
      RestrictiveWithin(b, Effective(layers[..n]), layers[n]);
      if WithinAll(b, layers[..n]) && Within(b, layers[n]) {
        forall i | 0 <= i < |layers| ensures Within(b, layers[i]) {
          if i < n { assert layers[..n][i] == layers[i]; }
        }
      }
      if WithinAll(b, layers) {
        forall i | 0 <= i < n ensures Within(b, layers[..n][i]) { assert layers[..n][i] == layers[i]; }
      }
    }
  }

  // Which dimension some layer states.
  datatype Component = Deadline | Scalar(d: nat) | Monetary

  predicate States(l: BudgetLimits, part: Component) {
    match part
    case Deadline => l.deadline.Some?
    case Scalar(d) => d < DIMENSIONS && l.limits[d].Some?
    case Monetary => l.costs.Some?
  }

  ghost predicate SomeStates(layers: seq<BudgetLimits>, part: Component) {
    exists i :: 0 <= i < |layers| && States(layers[i], part)
  }

  lemma {:induction false} EffectiveStates(layers: seq<BudgetLimits>, part: Component)
    ensures States(Effective(layers), part) <==> SomeStates(layers, part)
  {
    if layers != [] {
      var n := |layers| - 1;
      EffectiveStates(layers[..n], part);
      if SomeStates(layers[..n], part) {
        var i :| 0 <= i < n && States(layers[..n][i], part);
        assert States(layers[i], part);
      }
      if SomeStates(layers, part) {
        var i :| 0 <= i < |layers| && States(layers[i], part);
        if i < n { assert States(layers[..n][i], part); }
      }
    }
  }

  ghost predicate AllStated(layers: seq<BudgetLimits>) {
    && SomeStates(layers, Deadline) && SomeStates(layers, Monetary)
    && forall d :: 0 <= d < DIMENSIONS ==> SomeStates(layers, Scalar(d))
  }

  /** Resolution succeeds exactly for one to sixteen layers that together state
      every dimension. */
  lemma ResolveDefined(layers: seq<BudgetLimits>)
    ensures Resolve(layers).Some? <==> 1 <= |layers| <= MAX_BUDGET_LAYERS && AllStated(layers)
  {
    EffectiveStates(layers, Deadline);
    EffectiveStates(layers, Monetary);
    forall d | 0 <= d < DIMENSIONS
      ensures Effective(layers).limits[d].Some? <==> SomeStates(layers, Scalar(d)) {
      EffectiveStates(layers, Scalar(d));
    }
  }

  /** `validate_narrowing`: no ceiling of the parent is widened. */
  predicate Narrows(child: ResolvedBudget, parent: ResolvedBudget) {
    && child.deadline <= parent.deadline
    && (forall d :: 0 <= d < DIMENSIONS ==> child.limits[d] <= parent.limits[d])
    && Affordable(parent.costs, child.costs)
  }

  /** The resolved budget is valid, and the valid budgets that narrow it are
      exactly those within every layer: it is their greatest lower bound. */
  lemma ResolveGreatest(layers: seq<BudgetLimits>, b: ResolvedBudget)
    requires Resolve(layers).Some? && Valid(b)
    ensures Valid(Resolve(layers).value)
    ensures Narrows(b, Resolve(layers).value) <==> WithinAll(b, layers)
  {
    var effective, r := Effective(layers), Resolve(layers).value;
    EffectiveWithin(b, layers);
    AffordableExact(r.costs, b.costs);
    if Within(b, effective) {
      forall d | 0 <= d < DIMENSIONS ensures b.limits[d] <= r.limits[d] {
        assert b.limits[d] <= b.limits[Inclusive(d)] <= effective.limits[Inclusive(d)].value;
      }
    }
    if Narrows(b, r) {
      forall d | 0 <= d < DIMENSIONS ensures b.limits[d] <= effective.limits[d].value {
        assert b.limits[d] <= r.limits[d];
      }
    }
  }

  lemma NarrowsReflexive(b: ResolvedBudget)
    ensures Narrows(b, b)
  {
    AffordableExact(b.costs, b.costs);
  }

  lemma NarrowsTransitive(a: ResolvedBudget, b: ResolvedBudget, c: ResolvedBudget)
    requires Narrows(a, b) && Narrows(b, c)
    ensures Narrows(a, c)
  {
    AffordableExact(b.costs, a.costs);
    AffordableExact(c.costs, b.costs);
    AffordableExact(c.costs, a.costs);
    forall x ensures (Has(a.costs, x) ==> Has(c.costs, x)) && Amount(a.costs, x) <= Amount(c.costs, x) {
      assert Has(a.costs, x) ==> Has(b.costs, x);
      assert Amount(a.costs, x) <= Amount(b.costs, x) <= Amount(c.costs, x);
    }
  }

  /** Two budgets that narrow each other are the same value: the ordered cost
      array leaves no second representation. */
  lemma NarrowsAntisymmetric(a: ResolvedBudget, b: ResolvedBudget)
    requires Narrows(a, b) && Narrows(b, a)
    ensures a == b
  {
    AffordableExact(b.costs, a.costs);
    AffordableExact(a.costs, b.costs);
    forall c ensures Has(a.costs, c) == Has(b.costs, c) && Amount(a.costs, c) == Amount(b.costs, c) {
      assert Amount(a.costs, c) <= Amount(b.costs, c) <= Amount(a.costs, c);
      assert Has(a.costs, c) ==> Has(b.costs, c);
      assert Has(b.costs, c) ==> Has(a.costs, c);
    }
    Canonical(a.costs, b.costs);
    assert a.limits == b.limits;
  }

  /** The result depends only on which layers there are, not on their order or
      on repetitions. */
  lemma ResolveOrderIrrelevant(x: seq<BudgetLimits>, y: seq<BudgetLimits>)
    requires forall l :: l in x <==> l in y
    requires |x| <= MAX_BUDGET_LAYERS && |y| <= MAX_BUDGET_LAYERS
    ensures Resolve(x) == Resolve(y)
  {
    ResolveDefined(x);
    ResolveDefined(y);
    if AllStated(x) { StatedCarries(x, y); }
    if AllStated(y) { StatedCarries(y, x); }
    if Resolve(x).Some? && Resolve(y).Some? {
      LowerBoundCarries(x, y);
      LowerBoundCarries(y, x);
      NarrowsAntisymmetric(Resolve(x).value, Resolve(y).value);
    }
  }

  lemma StatedCarries(x: seq<BudgetLimits>, y: seq<BudgetLimits>)
    requires AllStated(x) && forall l :: l in x ==> l in y
    ensures AllStated(y) && |y| >= 1
  {
    ComponentCarries(x, y, Deadline);
    ComponentCarries(x, y, Monetary);
    forall d | 0 <= d < DIMENSIONS ensures SomeStates(y, Scalar(d)) { ComponentCarries(x, y, Scalar(d)); }
  }

  lemma ComponentCarries(x: seq<BudgetLimits>, y: seq<BudgetLimits>, part: Component)
    requires SomeStates(x, part) && forall l :: l in x ==> l in y
    ensures SomeStates(y, part)
  {
    var i :| 0 <= i < |x| && States(x[i], part);
    assert x[i] in y;
    var j :| 0 <= j < |y| && y[j] == x[i];
    assert States(y[j], part);
  }

  lemma LowerBoundCarries(x: seq<BudgetLimits>, y: seq<BudgetLimits>)
    requires Resolve(x).Some? && Resolve(y).Some? && forall l :: l in y ==> l in x
    ensures Narrows(Resolve(x).value, Resolve(y).value)
  {
    var b := Resolve(x).value;
    ResolveGreatest(x, b);
    NarrowsReflexive(b);
    forall j | 0 <= j < |y| ensures Within(b, y[j]) {
      assert y[j] in x;
    }
    ResolveGreatest(y, b);
  }

  /** One more layer never fails a resolution that fits, and only narrows it. */
  lemma LayerNarrows(layers: seq<BudgetLimits>, extra: BudgetLimits)
    requires Resolve(layers).Some? && |layers| < MAX_BUDGET_LAYERS
    ensures Resolve(layers + [extra]).Some?
    ensures Narrows(Resolve(layers + [extra]).value, Resolve(layers).value)
  {
    ResolveDefined(layers);
    ResolveDefined(layers + [extra]);
    StatedCarries(layers, layers + [extra]);
    LowerBoundCarries(layers + [extra], layers);
  }

  // ----- evaluation -----------------------------------------------------------

  /** `remaining_costs`: every recorded currency is budgeted and affordable,
      and nothing is unpriced. */
  function RemainingCosts(limits: CostTable, u: BudgetUsage): Option<CostTable> {
    if Affordable(limits, u.costs) && u.unpriced == 0 then
      AffordableExact(limits, u.costs);
      DeductTable(limits, u.costs);
      Some(Deduct(limits, u.costs))
    else None
  }

  predicate WithinCounts(used: Counts, limits: Counts) {
    forall d :: 0 <= d < DIMENSIONS ==> used[d] <= limits[d]
  }

  function Difference(limits: Counts, used: Counts): Counts
    requires WithinCounts(used, limits)
  {
    seq(DIMENSIONS, d requires 0 <= d < DIMENSIONS => limits[d] - used[d])
  }

  /** `ResolvedBudget::remaining`, at a supplied clock observation. */
  function Remaining(b: ResolvedBudget, u: BudgetUsage, observedAt: Timestamp): Option<BudgetRemaining> {
    if observedAt >= b.deadline || !WithinCounts(u.counts, b.limits) then None
    else
      var costs := RemainingCosts(b.costs, u);
      if costs.None? then None
      else Some(BudgetRemaining(b.deadline, Difference(b.limits, u.counts), costs.value))
  }

  /** `BudgetRemaining::deduct_cumulative`: peaks and deadline are unchanged. */
  function DeductCumulative(m: BudgetRemaining, u: BudgetUsage): Option<BudgetRemaining> {
    var costs := RemainingCosts(m.costs, u);
    if costs.None? || exists d :: 0 <= d < DIMENSIONS && !IsPeak(d) && m.left[d] < u.counts[d] then None
    else Some(BudgetRemaining(m.deadline, SubtractCounts(m.left, u.counts), costs.value))
  }

  /** Usage and what it leaves make up the budget again: every dimension and
      every budgeted currency, and nothing else is used. */
  ghost predicate Conserves(b: ResolvedBudget, u: BudgetUsage, m: BudgetRemaining) {
    && m.deadline == b.deadline
    && (forall d :: 0 <= d < DIMENSIONS ==> u.counts[d] + m.left[d] == b.limits[d])
    && IsSum(b.costs, m.costs, u.costs)
    && CurrenciesWithin(b.costs, m.costs)
    && u.unpriced == 0
  }

  lemma DeductConserves(limits: CostTable, costs: CostTable)
    requires Affordable(limits, costs)
    ensures IsSum(limits, Deduct(limits, costs), costs) && CurrenciesWithin(limits, Deduct(limits, costs))
  {
    AffordableExact(limits, costs);
    RestoredCosts(limits, costs);
    forall c ensures Has(limits, c) ==> Has(Deduct(limits, costs), c) { DeductAmount(limits, costs, c); }
  }

  lemma SumAffordable(total: CostTable, rest: CostTable, part: CostTable)
    requires IsSum(total, rest, part)
    ensures Affordable(total, part)
  {
    forall c ensures (Has(part, c) ==> Has(total, c)) && Amount(part, c) <= Amount(total, c) {
      AmountRange(rest, c);
    }
    AffordableExact(total, part);
  }

  lemma SameRest(total: CostTable, rest: CostTable, part: CostTable)
    requires IsSum(total, rest, part) && CurrenciesWithin(total, rest)
    ensures IsTable(Deduct(total, part)) && rest == Deduct(total, part)
  {
    SumAffordable(total, rest, part);
    AffordableExact(total, part);
    DeductTable(total, part);
    var r := Deduct(total, part);
    forall c ensures Has(rest, c) == Has(r, c) && Amount(rest, c) == Amount(r, c) {
      DeductAmount(total, part, c);
      NoAmount(rest, c);
      NoAmount(r, c);
      assert Has(total, c) == (Has(rest, c) || Has(part, c));
    }
    Canonical(rest, r);
  }

  /** Evaluation succeeds before the deadline exactly when some remainder
      completes the usage to the budget, and that remainder is its value. */
  lemma RemainingExact(b: ResolvedBudget, u: BudgetUsage, t: Timestamp, m: BudgetRemaining)
    ensures Remaining(b, u, t) == Some(m) <==> t < b.deadline && Conserves(b, u, m)
  {
    if Remaining(b, u, t) == Some(m) {
      DeductConserves(b.costs, u.costs);
    }
    if t < b.deadline && Conserves(b, u, m) {
      SumAffordable(b.costs, m.costs, u.costs);
      SameRest(b.costs, m.costs, u.costs);
      assert forall d :: 0 <= d < DIMENSIONS ==> u.counts[d] + m.left[d] == b.limits[d];
      assert Difference(b.limits, u.counts) == m.left;
    }
  }

  /** Nothing used always fits before the deadline. */
  lemma ZeroFits(b: ResolvedBudget, t: Timestamp)
    ensures Remaining(b, Zero(), t).Some? <==> t < b.deadline
  {
    assert forall d :: 0 <= d < DIMENSIONS ==> Zero().counts[d] == 0 <= b.limits[d];
  }

  // ----- a narrower budget is simulated by its parent -------------------------

  /** At least as much is left, in every dimension and currency. */
  ghost predicate LeavesAtLeast(more: BudgetRemaining, less: BudgetRemaining) {
    && less.deadline <= more.deadline
    && WithinCounts(less.left, more.left)
    && WithinCosts(less.costs, more.costs)
  }

  /** What a narrowed budget accepts, the wider one accepts with no less left. */
  lemma NarrowerSimulated(child: ResolvedBudget, parent: ResolvedBudget, u: BudgetUsage, t: Timestamp)
    requires Narrows(child, parent) && Remaining(child, u, t).Some?
    ensures Remaining(parent, u, t).Some?
    ensures LeavesAtLeast(Remaining(parent, u, t).value, Remaining(child, u, t).value)
  {
    AffordableExact(parent.costs, child.costs);
    AffordableExact(child.costs, u.costs);
    AffordableExact(parent.costs, u.costs);
    forall c ensures (Has(u.costs, c) ==> Has(parent.costs, c)) && Amount(u.costs, c) <= Amount(parent.costs, c) {
      assert Amount(u.costs, c) <= Amount(child.costs, c) <= Amount(parent.costs, c);
      assert Has(u.costs, c) ==> Has(child.costs, c);
    }
    DeductWithin(child.costs, parent.costs, u.costs);
    assert forall d :: 0 <= d < DIMENSIONS ==> u.counts[d] <= child.limits[d] <= parent.limits[d];
  }

  lemma DeductWithin(less: CostTable, more: CostTable, costs: CostTable)
    requires WithinCosts(less, more) && WithinCosts(costs, less)
    ensures WithinCosts(Deduct(less, costs), Deduct(more, costs))
  {
    var l, m := Deduct(less, costs), Deduct(more, costs);
    forall c ensures (Has(l, c) ==> Has(m, c)) && Amount(l, c) <= Amount(m, c) {
      DeductAmount(less, costs, c);
      DeductAmount(more, costs, c);
      NoAmount(l, c);
      NoAmount(m, c);
      assert Amount(less, c) <= Amount(more, c);
      assert Amount(costs, c) <= Amount(less, c);
    }
  }

  // ----- evaluating a total at once or in two steps ---------------------------

  /** Charging twice costs what charging the sum costs. */
  lemma CostsCompose(limits: CostTable, a: CostTable, b: CostTable)
    requires Affordable(limits, a) && IsTable(Deduct(limits, a))
    ensures Affordable(Deduct(limits, a), b) <==>
            AccumulateCosts(a, b).Some? && Affordable(limits, AccumulateCosts(a, b).value)
    ensures Affordable(Deduct(limits, a), b) ==>
            Deduct(Deduct(limits, a), b) == Deduct(limits, AccumulateCosts(a, b).value)
  {
    var m: CostTable := Deduct(limits, a);
    DeductConserves(limits, a);
    if Affordable(m, b) {
      ChargedTwice(limits, m, a, b);
      SumCharged(limits, a, b);
    }
    if AccumulateCosts(a, b).Some? && Affordable(limits, AccumulateCosts(a, b).value) {
      ChargedOnce(limits, m, a, b);
    }
  }

  lemma ChargedTwice(limits: CostTable, m: CostTable, a: CostTable, b: CostTable)
    requires IsSum(limits, m, a) && Affordable(m, b)
    ensures AccumulateCosts(a, b).Some? && Affordable(limits, AccumulateCosts(a, b).value)
  {
    AffordableExact(m, b);
    forall c ensures (Has(a, c) || Has(b, c) ==> Has(limits, c)) && Amount(a, c) + Amount(b, c) <= Amount(limits, c) {
      assert Has(b, c) ==> Has(m, c);
      assert Has(limits, c) == (Has(m, c) || Has(a, c));
      assert Amount(b, c) <= Amount(m, c);
    }
    AccumulateWithin(a, b, limits);
    AccumulateStored(a, b);
    AffordableExact(limits, AccumulateCosts(a, b).value);
  }

  lemma ChargedOnce(limits: CostTable, m: CostTable, a: CostTable, b: CostTable)
    requires IsSum(limits, m, a) && CurrenciesWithin(limits, m)
    requires AccumulateCosts(a, b).Some? && Affordable(limits, AccumulateCosts(a, b).value)
    ensures Affordable(m, b)
  {
    var total := AccumulateCosts(a, b).value;
    AccumulateStored(a, b);
    AffordableExact(limits, total);
    forall c ensures (Has(b, c) ==> Has(m, c)) && Amount(b, c) <= Amount(m, c) {
      assert Has(total, c) ==> Has(limits, c);
      assert Has(limits, c) ==> Has(m, c);
      assert Amount(total, c) <= Amount(limits, c);
    }
    AffordableExact(m, b);
  }

  lemma SumCharged(limits: CostTable, a: CostTable, b: CostTable)
    requires AccumulateCosts(a, b).Some?
    ensures Deduct(Deduct(limits, a), b) == Deduct(limits, AccumulateCosts(a, b).value)
  {
    var total := AccumulateCosts(a, b).value;
    AccumulateStored(a, b);
    forall i | 0 <= i < |limits|
      ensures Amount(a, limits[i].currency) + Amount(b, limits[i].currency) == Amount(total, limits[i].currency) {}
  }

  lemma CountsCompose(limits: Counts, a: Counts, b: Counts)
    requires WithinCounts(a, limits)
    ensures var only := CumulativeOnly(BudgetUsage(b, [], 0)).counts;
            var total, left := AddCounts(a, only), Difference(limits, a);
            && ((forall d :: 0 <= d < DIMENSIONS && !IsPeak(d) ==> b[d] <= left[d]) <==>
                IsCounts(total) && WithinCounts(total, limits))
            && (IsCounts(total) && WithinCounts(total, limits) ==>
                SubtractCounts(left, b) == Difference(limits, total))
  {}

  /** Deducting further cumulative work from what is left is evaluating the
      accumulated total: same success, same remainder. */
  lemma DeductComposes(budget: ResolvedBudget, a: BudgetUsage, b: BudgetUsage, t: Timestamp)
    requires Remaining(budget, a, t).Some?
    ensures DeductCumulative(Remaining(budget, a, t).value, b) ==
            var total := Accumulate(a, CumulativeOnly(b));
            if total.Some? then Remaining(budget, total.value, t) else None
  {
    CountsCompose(budget.limits, a.counts, b.counts);
    assert CumulativeOnly(b).counts == CumulativeOnly(BudgetUsage(b.counts, [], 0)).counts;
    CostsCompose(budget.costs, a.costs, b.costs);
  }
}
