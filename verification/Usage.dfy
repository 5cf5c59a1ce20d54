/**
  Recorded run usage (`BudgetUsage` of budget.rs).

  The nineteen scalar dimensions are positions in one array, in the order the
  source declares them. Three are high-water marks, the rest are cumulative.
 */
module Usage {
  import opened Prelude
  import opened Costs

  const GRAPH_DEPTH := 0
  const GRAPH_STEPS := 1
  const MODEL_ATTEMPTS := 2
  const MODEL_TURNS := 3
  const INPUT_TOKENS := 4
  const CACHED_INPUT_TOKENS := 5
  const REASONING_TOKENS := 6
  const OUTPUT_TOKENS := 7
  const TOOL_CALLS := 8
  const WRITE_CALLS := 9
  const REMOTE_AGENT_DELEGATIONS := 10
  const RETRIES := 11
  const CONCURRENT_BRANCHES := 12
  const FAN_OUT := 13
  const INPUT_BYTES := 14
  const OUTPUT_BYTES := 15
  const EVENT_BYTES := 16
  const CHECKPOINT_BYTES := 17
  const ARTIFACT_BYTES := 18
  const DIMENSIONS := 19

  /** High-water dimensions take a maximum where cumulative ones add. */
  predicate IsPeak(d: int) {
    d == GRAPH_DEPTH || d == CONCURRENT_BRANCHES || d == FAN_OUT
  }

  predicate IsCounts(s: seq<int>) {
    |s| == DIMENSIONS && forall d :: 0 <= d < DIMENSIONS ==> IsU64(s[d])
  }

  type Counts = s: seq<int> | IsCounts(s) witness seq(DIMENSIONS, _ => 0)

  datatype BudgetUsage = BudgetUsage(counts: Counts, costs: CostTable, unpriced: U64)

  /** Each subset dimension is within the one that includes it. */
  predicate SubsetsHold(s: seq<int>)
    requires |s| == DIMENSIONS
  {
    && s[CACHED_INPUT_TOKENS] <= s[INPUT_TOKENS]
    && s[REASONING_TOKENS] <= s[OUTPUT_TOKENS]
    && s[WRITE_CALLS] <= s[TOOL_CALLS]
  }

  /** What every constructor of the source guarantees. */
  predicate Consistent(u: BudgetUsage) {
    SubsetsHold(u.counts)
  }

  function Zero(): BudgetUsage {
    BudgetUsage(seq(DIMENSIONS, _ => 0), [], 0)
  }

  /** `cumulative_only`: the additive part, without the three peaks. */
  function CumulativeOnly(u: BudgetUsage): BudgetUsage {
    u.(counts := seq(DIMENSIONS, d requires 0 <= d < DIMENSIONS => if IsPeak(d) then 0 else u.counts[d]))
  }

  // ----- accumulation ---------------------------------------------------------

  function Max(x: int, y: int): int {
    if x >= y then x else y
  }

  function AddCounts(a: Counts, b: Counts): seq<int> {
    seq(DIMENSIONS, d requires 0 <= d < DIMENSIONS =>
      if IsPeak(d) then Max(a[d], b[d]) else a[d] + b[d])
  }

  /** `checked_accumulate`: refused on any overflow or too many currencies. */
  function Accumulate(a: BudgetUsage, b: BudgetUsage): Option<BudgetUsage> {
    var counts, costs := AddCounts(a.counts, b.counts), AccumulateCosts(a.costs, b.costs);
    if IsCounts(counts) && costs.Some? && a.unpriced + b.unpriced <= U64_MAX
    then Some(BudgetUsage(counts, costs.value, a.unpriced + b.unpriced))
    else None
  }

  /** One set of counts combines two: cumulative counts add up, a peak is the
      higher one. */
  predicate CombinesCounts(s: Counts, a: Counts, b: Counts) {
    forall d :: 0 <= d < DIMENSIONS ==>
      if IsPeak(d) then a[d] <= s[d] && b[d] <= s[d] && (s[d] == a[d] || s[d] == b[d]) else s[d] == a[d] + b[d]
  }

  lemma AddCountsCombines(s: Counts, a: Counts, b: Counts)
    ensures AddCounts(a, b) == s <==> CombinesCounts(s, a, b)
  {
    var sum := AddCounts(a, b);
    if CombinesCounts(s, a, b) {
      forall d | 0 <= d < DIMENSIONS ensures sum[d] == s[d] {}
    }
  }

  /** Accumulation returns exactly the usage in which counts combine and amounts
      add up, and is refused exactly when no storable usage is that. */
  lemma AccumulateCombines(a: BudgetUsage, b: BudgetUsage, s: BudgetUsage)
    ensures Accumulate(a, b) == Some(s) <==>
            && CombinesCounts(s.counts, a.counts, b.counts) && IsSum(s.costs, a.costs, b.costs)
            && s.unpriced == a.unpriced + b.unpriced
  {
    AddCountsCombines(s.counts, a.counts, b.counts);
    AccumulateStored(a.costs, b.costs);
    if IsSum(s.costs, a.costs, b.costs) { SumIsAccumulate(a.costs, b.costs, s.costs); }
  }

  lemma AccumulateZero(u: BudgetUsage)
    ensures Accumulate(u, Zero()) == Some(u) == Accumulate(Zero(), u)
  {
    AccumulateEmpty(u.costs);
    assert AddCounts(u.counts, Zero().counts) == u.counts;
    assert AddCounts(Zero().counts, u.counts) == u.counts;
  }

  lemma AccumulateCommutative(a: BudgetUsage, b: BudgetUsage)
    ensures Accumulate(a, b) == Accumulate(b, a)
  {
    AccumulateCommutes(a.costs, b.costs);
    assert AddCounts(a.counts, b.counts) == AddCounts(b.counts, a.counts);
  }

  /** Accumulation of partial results: undefined once an operand is. */
  function Join(a: Option<BudgetUsage>, b: Option<BudgetUsage>): Option<BudgetUsage> {
    if a.Some? && b.Some? then Accumulate(a.value, b.value) else None
  }

  lemma AccumulateRegroup(a: BudgetUsage, b: BudgetUsage, c: BudgetUsage)
    requires Join(Accumulate(a, b), Some(c)).Some?
    ensures Join(Some(a), Accumulate(b, c)) == Join(Accumulate(a, b), Some(c))
  {
    AccumulateRegroups(a.costs, b.costs, c.costs);
    var ab, bc := AddCounts(a.counts, b.counts), AddCounts(b.counts, c.counts);
    var abc := AddCounts(ab, c.counts);
    assert forall d :: 0 <= d < DIMENSIONS ==> 0 <= bc[d] <= abc[d];
    assert IsCounts(bc);
    assert AddCounts(a.counts, bc) == abc;
  }

  /** Associativity, in definedness and in value. */
  lemma AccumulateAssociative(a: BudgetUsage, b: BudgetUsage, c: BudgetUsage)
    ensures Join(Accumulate(a, b), Some(c)) == Join(Some(a), Accumulate(b, c))
  {
    if Join(Accumulate(a, b), Some(c)).Some? {
      AccumulateRegroup(a, b, c);
    } else if Join(Some(a), Accumulate(b, c)).Some? {
      var bc := Accumulate(b, c).value;
      AccumulateCommutative(b, c);
      AccumulateCommutative(a, bc);
      AccumulateRegroup(c, b, a);
      AccumulateCommutative(b, a);
      AccumulateCommutative(c, Accumulate(a, b).value);
    }
  }

  // ----- monotonicity ---------------------------------------------------------

  /** `validate_monotonic_after`: no recorded work of `previous` is erased. */
  predicate MonotonicAfter(u: BudgetUsage, previous: BudgetUsage) {
    && (forall d :: 0 <= d < DIMENSIONS ==> previous.counts[d] <= u.counts[d])
    && previous.unpriced <= u.unpriced
    && (forall i :: 0 <= i < |previous.costs| ==>
          previous.costs[i].microUnits <= Amount(u.costs, previous.costs[i].currency))
  }

  ghost predicate AmountsAtMost(s: seq<Money>, t: seq<Money>) {
    forall c :: Amount(s, c) <= Amount(t, c)
  }

  /** The entry-by-entry cost check bounds every currency, recorded or not. */
  lemma MonotonicExact(u: BudgetUsage, previous: BudgetUsage)
    ensures MonotonicAfter(u, previous) <==>
            && (forall d :: 0 <= d < DIMENSIONS ==> previous.counts[d] <= u.counts[d])
            && previous.unpriced <= u.unpriced
            && AmountsAtMost(previous.costs, u.costs)
  {
    var costs := previous.costs;
    if MonotonicAfter(u, previous) {
      forall c ensures Amount(costs, c) <= Amount(u.costs, c) {
        HasIndex(costs, c);
        AmountRange(u.costs, c);
        if Has(costs, c) {
          var i :| 0 <= i < |costs| && costs[i].currency == c;
          AmountAt(costs, i);
        }
      }
    }
    if AmountsAtMost(costs, u.costs) {
      forall i | 0 <= i < |costs| ensures costs[i].microUnits <= Amount(u.costs, costs[i].currency) {
        AmountAt(costs, i);
      }
    }
  }

  lemma MonotonicTransitive(a: BudgetUsage, b: BudgetUsage, c: BudgetUsage)
    requires MonotonicAfter(b, a) && MonotonicAfter(c, b)
    ensures MonotonicAfter(c, a)
  {
    MonotonicExact(b, a);
    MonotonicExact(c, b);
    MonotonicExact(c, a);
    forall x ensures Amount(a.costs, x) <= Amount(c.costs, x) {
      assert Amount(a.costs, x) <= Amount(b.costs, x) <= Amount(c.costs, x);
    }
  }

  /** A sum keeps the subset relations and erases neither operand. */
  lemma AccumulateMonotonic(a: BudgetUsage, b: BudgetUsage)
    requires Accumulate(a, b).Some?
    ensures MonotonicAfter(Accumulate(a, b).value, a) && MonotonicAfter(Accumulate(a, b).value, b)
    ensures Consistent(a) && Consistent(b) ==> Consistent(Accumulate(a, b).value)
  {
    var r := Accumulate(a, b).value;
    AccumulateStored(a.costs, b.costs);
    forall c ensures Amount(a.costs, c) <= Amount(r.costs, c) && Amount(b.costs, c) <= Amount(r.costs, c) {
      AmountRange(a.costs, c);
      AmountRange(b.costs, c);
    }
    MonotonicExact(r, a);
    MonotonicExact(r, b);
  }

  /** Folding observations into a running total. */
  function AccumulateAll(start: BudgetUsage, us: seq<BudgetUsage>): Option<BudgetUsage> {
    if us == [] then Some(start)
    else Join(AccumulateAll(start, us[..|us| - 1]), Some(us[|us| - 1]))
  }

  /** Along any sequence of accumulations usage never regresses. */
  lemma {:induction false} NeverRegresses(start: BudgetUsage, us: seq<BudgetUsage>, k: nat)
    requires k <= |us| && AccumulateAll(start, us).Some?
    ensures AccumulateAll(start, us[..k]).Some?
    ensures MonotonicAfter(AccumulateAll(start, us).value, AccumulateAll(start, us[..k]).value)
  {
    if k == |us| {
      assert us[..k] == us;
      MonotonicExact(AccumulateAll(start, us).value, AccumulateAll(start, us).value);
    } else {
      var n := |us| - 1;
      assert us[..n][..k] == us[..k];
      NeverRegresses(start, us[..n], k);
      AccumulateMonotonic(AccumulateAll(start, us[..n]).value, us[n]);
      MonotonicTransitive(AccumulateAll(start, us[..k]).value, AccumulateAll(start, us[..n]).value,
                          AccumulateAll(start, us).value);
    }
  }

  // ----- subtraction ----------------------------------------------------------

  /** What remains of a total when a contribution's cumulative work is removed;
      the peaks of the total stay. */
  function SubtractCounts(total: Counts, part: Counts): seq<int> {
    seq(DIMENSIONS, d requires 0 <= d < DIMENSIONS => if IsPeak(d) then total[d] else total[d] - part[d])
  }

  /** The exact condition under which a contribution can be removed. */
  predicate Removable(total: BudgetUsage, part: BudgetUsage) {
    MonotonicAfter(total, CumulativeOnly(part)) && SubsetsHold(SubtractCounts(total.counts, part.counts))
  }

  function Subtract(total: BudgetUsage, part: BudgetUsage): (r: BudgetUsage)
    requires Removable(total, part)
  {
    RemovableFits(total, part);
    BudgetUsage(SubtractCounts(total.counts, part.counts), Deduct(total.costs, part.costs),
                total.unpriced - part.unpriced)
  }

  lemma RemovableFits(total: BudgetUsage, part: BudgetUsage)
    requires MonotonicAfter(total, CumulativeOnly(part))
    ensures IsCounts(SubtractCounts(total.counts, part.counts))
    ensures IsTable(Deduct(total.costs, part.costs))
    ensures AmountsAtMost(part.costs, total.costs)
  {
    MonotonicExact(total, CumulativeOnly(part));
    var only := CumulativeOnly(part).counts;
    assert forall d :: 0 <= d < DIMENSIONS && !IsPeak(d) ==> only[d] == part.counts[d];
    DeductTable(total.costs, part.costs);
  }

  /** `checked_subtract_cumulative`: overwrites the cumulative fields of a copy.
      The unchecked currency subtraction in it never goes below zero. */
  method CheckedSubtractCumulative(total: BudgetUsage, part: BudgetUsage) returns (r: Option<BudgetUsage>)
    ensures r.Some? <==> Removable(total, part)
    ensures r.Some? ==> r.value == Subtract(total, part)
  {
    if !MonotonicAfter(total, CumulativeOnly(part)) {
      return None;
    }
    RemovableFits(total, part);
    var counts: seq<int> := total.counts;
    for d := 0 to DIMENSIONS
      invariant |counts| == DIMENSIONS
      invariant forall e :: 0 <= e < d ==> counts[e] == SubtractCounts(total.counts, part.counts)[e]
      invariant forall e :: d <= e < DIMENSIONS ==> counts[e] == total.counts[e]
    {
      if !IsPeak(d) {
        if total.counts[d] < part.counts[d] {
          return None;
        }
        counts := counts[d := total.counts[d] - part.counts[d]];
      }
    }
    assert counts == SubtractCounts(total.counts, part.counts);
    var costs: seq<Money> := [];
    for i := 0 to |total.costs|
      invariant costs == Deduct(total.costs, part.costs)[..i]
    {
      var money := total.costs[i];
      var spent := Get(part.costs, money.currency);
      HasIndex(part.costs, money.currency);
      var amount := if spent.Some? then spent.value.microUnits else 0;
      AmountAt(total.costs, i);
      assert amount <= money.microUnits;
      costs := costs + [Money(money.currency, money.microUnits - amount)];
    }
    if !SubsetsHold(counts) {
      return None;
    }
    r := Some(BudgetUsage(counts, costs, total.unpriced - part.unpriced));
  }

  // ----- round trips ----------------------------------------------------------

  ghost predicate CurrenciesWithin(s: seq<Money>, t: seq<Money>) {
    forall c :: Has(s, c) ==> Has(t, c)
  }

  /** The amounts of `s`, with zero entries for the other currencies of `t`. */
  ghost predicate PaddedCosts(r: seq<Money>, s: seq<Money>, t: seq<Money>) {
    forall c :: Has(r, c) == (Has(s, c) || Has(t, c)) && Amount(r, c) == Amount(s, c)
  }

  lemma AddThenSubtractCounts(d: BudgetUsage, part: BudgetUsage)
    requires Accumulate(d, CumulativeOnly(part)).Some?
    ensures var total := Accumulate(d, CumulativeOnly(part)).value;
            && SubtractCounts(total.counts, part.counts) == d.counts
            && MonotonicAfter(total, CumulativeOnly(part))
  {
    var only := CumulativeOnly(part);
    AccumulateMonotonic(d, only);
    var total := Accumulate(d, only).value;
    assert forall e :: 0 <= e < DIMENSIONS ==>
      only.counts[e] == (if IsPeak(e) then 0 else part.counts[e]);
    assert SubtractCounts(total.counts, part.counts) == d.counts;
  }

  lemma AddThenSubtractCosts(d: CostTable, part: CostTable)
    requires AccumulateCosts(d, part).Some?
    ensures PaddedCosts(Deduct(AccumulateCosts(d, part).value, part), d, part)
  {
    var total := AccumulateCosts(d, part).value;
    AccumulateStored(d, part);
    forall c ensures && Has(Deduct(total, part), c) == (Has(d, c) || Has(part, c))
                     && Amount(Deduct(total, part), c) == Amount(d, c) {
      DeductAmount(total, part, c);
      HasIndex(Deduct(total, part), c);
      HasIndex(d, c);
    }
  }

  /** Removing what was just added always succeeds and gives back the original,
      except that currencies only the contribution named stay as zero entries;
      it is the original itself exactly when there are none. */
  lemma SubtractUndoesAccumulate(d: BudgetUsage, part: BudgetUsage)
    requires Consistent(d) && Accumulate(d, CumulativeOnly(part)).Some?
    ensures var total := Accumulate(d, CumulativeOnly(part)).value;
            && Removable(total, part)
            && var r := Subtract(total, part);
               && r.counts == d.counts && r.unpriced == d.unpriced
               && PaddedCosts(r.costs, d.costs, part.costs)
               && (r == d <==> CurrenciesWithin(part.costs, d.costs))
  {
    AddThenSubtractCounts(d, part);
    AddThenSubtractCosts(d.costs, part.costs);
    var total := Accumulate(d, CumulativeOnly(part)).value;
    RemovableFits(total, part);
    var costs := Deduct(total.costs, part.costs);
    if CurrenciesWithin(part.costs, d.costs) {
      assert SameCosts(costs, d.costs);
      Canonical(costs, d.costs);
    } else {
      var c :| Has(part.costs, c) && !Has(d.costs, c);
      assert Has(costs, c);
    }
  }

  /** Adding back what was removed restores the total exactly when every
      currency the contribution names, even at zero, was in the total. */
  lemma AccumulateUndoesSubtract(total: BudgetUsage, part: BudgetUsage)
    requires Removable(total, part)
    ensures Accumulate(Subtract(total, part), CumulativeOnly(part)) == Some(total) <==>
            CurrenciesWithin(part.costs, total.costs)
  {
    var rest := Subtract(total, part);
    RemovableFits(total, part);
    var only := CumulativeOnly(part);
    assert forall e :: 0 <= e < DIMENSIONS ==>
      only.counts[e] == (if IsPeak(e) then 0 else part.counts[e]);
    assert AddCounts(rest.counts, only.counts) == total.counts;
    if CurrenciesWithin(part.costs, total.costs) {
      RestoredCosts(total.costs, part.costs);
      SumIsAccumulate(rest.costs, part.costs, total.costs);
    } else if Accumulate(rest, only).Some? {
      AccumulateStored(rest.costs, part.costs);
      var c :| Has(part.costs, c) && !Has(total.costs, c);
      assert Has(Accumulate(rest, only).value.costs, c);
    }
  }

  /** Zero usage with a contribution that names one currency at nothing. */
  lemma RoundTripFails() returns (d: BudgetUsage, part: BudgetUsage)
    ensures Consistent(d) && Accumulate(d, CumulativeOnly(part)).Some?
    ensures var total := Accumulate(d, CumulativeOnly(part)).value; Removable(total, part) && Subtract(total, part) != d
  {
    d, part := Zero(), Zero().(costs := [Money(0, 0)]);
    AccumulateZero(CumulativeOnly(part));
    SubtractUndoesAccumulate(d, part);
    assert Has(part.costs, 0) && !Has(d.costs, 0);
  }

  lemma RestorationFails() returns (total: BudgetUsage, part: BudgetUsage)
    ensures Removable(total, part) && Accumulate(Subtract(total, part), CumulativeOnly(part)) != Some(total)
  {
    total, part := Zero(), Zero().(costs := [Money(0, 0)]);
    assert Has(part.costs, 0) && !Has(total.costs, 0);
    AccumulateUndoesSubtract(total, part);
  }

  lemma RestoredCosts(total: CostTable, part: CostTable)
    requires AmountsAtMost(part, total) && CurrenciesWithin(part, total)
    ensures IsSum(total, Deduct(total, part), part)
  {
    forall c ensures && Has(total, c) == (Has(Deduct(total, part), c) || Has(part, c))
                     && Amount(total, c) == Amount(Deduct(total, part), c) + Amount(part, c) {
      DeductAmount(total, part, c);
      HasIndex(total, c);
      HasIndex(part, c);
      HasIndex(Deduct(total, part), c);
    }
  }
}
