/**
  Cumulative reservations (budget_reservation.rs).

  A reservation is a ceiling on cumulative work, written as usage with no peaks
  and nothing unpriced. A capacity check folds every outstanding reservation
  into the accounted usage with overflow-checked addition; `CapacityExact` shows
  that this is plain arithmetic on unbounded numbers.
 */
module Reservations {
  import opened Prelude
  import opened Costs
  import opened Usage
  import opened Budgets

  const MAX_RESERVATIONS := 256

  predicate IsReservation(u: BudgetUsage) {
    Consistent(u) && u.unpriced == 0 && forall d :: 0 <= d < DIMENSIONS && IsPeak(d) ==> u.counts[d] == 0
  }

  type Reservation = u: BudgetUsage | IsReservation(u) witness Zero()

  /** `CumulativeBudgetReservation::new`: scans the high-water dimensions. */
  method NewReservation(amount: BudgetUsage) returns (r: Option<Reservation>)
    requires Consistent(amount)
    ensures r.Some? <==> IsReservation(amount)
    ensures r.Some? ==> r.value == amount
  {
    var peaks := [GRAPH_DEPTH, CONCURRENT_BRANCHES, FAN_OUT];
    for k := 0 to |peaks|
      invariant forall j :: 0 <= j < k ==> amount.counts[peaks[j]] == 0
    {
      if amount.counts[peaks[k]] != 0 {
        return None;
      }
    }
    assert peaks[0] == GRAPH_DEPTH && peaks[1] == CONCURRENT_BRANCHES && peaks[2] == FAN_OUT;
    r := if amount.unpriced != 0 then None else Some(amount);
  }

  /** Every cumulative ceiling of a budget. */
  function Ceiling(b: ResolvedBudget): BudgetUsage {
    CumulativeOnly(BudgetUsage(b.limits, b.costs, 0))
  }

  /** `from_budget`: a finite budget can always be reserved in full. */
  method FromBudget(b: ResolvedBudget) returns (r: Option<Reservation>)
    requires Valid(b)
    ensures r.Some? && r.value == Ceiling(b)
  {
    var costs := CollectCosts(b.costs);
    Canonical(costs.value, b.costs);
    r := NewReservation(Ceiling(b).(costs := costs.value));
  }

  // ----- coverage -------------------------------------------------------------

  /** A reservation covers usage whose cumulative work stays within it. */
  predicate Covers(r: Reservation, u: BudgetUsage) {
    WithinCounts(CumulativeOnly(u).counts, r.counts) && Affordable(r.costs, u.costs) && u.unpriced == 0
  }

  /** Whatever usage a budget accepts, its own reservation covers. */
  lemma AcceptedIsCovered(b: ResolvedBudget, u: BudgetUsage, t: Timestamp)
    requires Valid(b) && Remaining(b, u, t).Some?
    ensures IsReservation(Ceiling(b)) && Covers(Ceiling(b), u)
  {}

  // ----- capacity -------------------------------------------------------------

  /** Accounted usage and outstanding reservations, against the parent. */
  function Capacity(parent: ResolvedBudget, accounted: BudgetUsage, outstanding: seq<Reservation>,
                    observedAt: Timestamp): Option<BudgetRemaining> {
    var projected := AccumulateAll(accounted, outstanding);
    if |outstanding| <= MAX_RESERVATIONS && projected.Some?
    then Remaining(parent, projected.value, observedAt)
    else None
  }

  /** `check_capacity`: folds the reservations into `projected`. */
  method CheckCapacity(parent: ResolvedBudget, accounted: BudgetUsage, outstanding: seq<Reservation>,
                       observedAt: Timestamp) returns (r: Option<BudgetRemaining>)
    ensures r == Capacity(parent, accounted, outstanding, observedAt)
  {
    if |outstanding| > MAX_RESERVATIONS {
      return None;
    }
    var projected := accounted;
    for k := 0 to |outstanding|
      invariant AccumulateAll(accounted, outstanding[..k]) == Some(projected)
    {
      FoldStep(accounted, outstanding, k);
      var next := Accumulate(projected, outstanding[k]);
      if next.None? {
        return None;
      }
      projected := next.value;
    }
    assert outstanding[..|outstanding|] == outstanding;
    r := Remaining(parent, projected, observedAt);
  }

  lemma FoldStep(start: BudgetUsage, us: seq<BudgetUsage>, k: nat)
    requires k < |us|
    ensures AccumulateAll(start, us[..k + 1]) == Join(AccumulateAll(start, us[..k]), Some(us[k]))
    ensures AccumulateAll(start, us[..k + 1]).None? ==> AccumulateAll(start, us).None?
  {
    assert us[..k + 1][..k] == us[..k];
    if AccumulateAll(start, us).Some? { NeverRegresses(start, us, k + 1); }
  }

  // ----- refinement of unbounded arithmetic -----------------------------------

  /** One thing that is counted: a scalar dimension or a currency. */
  datatype Measure = Count(d: int) | Cash(c: Currency)

  predicate IsMeasure(m: Measure) {
    m.Count? ==> 0 <= m.d < DIMENSIONS
  }

  function Quantity(u: BudgetUsage, m: Measure): int
    requires IsMeasure(m)
  {
    match m
    case Count(d) => u.counts[d]
    case Cash(c) => Amount(u.costs, c)
  }

  function Sum(us: seq<BudgetUsage>, m: Measure): int
    requires IsMeasure(m)
  {
    if us == [] then 0 else Sum(us[..|us| - 1], m) + Quantity(us[|us| - 1], m)
  }

  predicate AnyHas(us: seq<BudgetUsage>, c: Currency) {
    us != [] && (AnyHas(us[..|us| - 1], c) || Has(us[|us| - 1].costs, c))
  }

  /** The unbounded sum of everything counted. */
  function Total(start: BudgetUsage, us: seq<BudgetUsage>, m: Measure): int
    requires IsMeasure(m)
  {
    Quantity(start, m) + Sum(us, m)
  }

  predicate Mentions(start: BudgetUsage, us: seq<BudgetUsage>, c: Currency) {
    Has(start.costs, c) || AnyHas(us, c)
  }

  /** One value holds the unbounded totals. */
  ghost predicate Holds(total: BudgetUsage, start: BudgetUsage, us: seq<BudgetUsage>) {
    && (forall m :: IsMeasure(m) ==> Quantity(total, m) == Total(start, us, m))
    && (forall c :: Has(total.costs, c) == Mentions(start, us, c))
    && total.unpriced == start.unpriced
  }

  /** A checked fold that succeeds holds the unbounded totals. */
  lemma {:induction false} FoldTotals(start: BudgetUsage, us: seq<Reservation>)
    requires AccumulateAll(start, us).Some?
    ensures Holds(AccumulateAll(start, us).value, start, us)
  {
    if us != [] {
      var n := |us| - 1;
      FoldTotals(start, us[..n]);
      AccumulateHolds(AccumulateAll(start, us[..n]).value, us[n]);
      var before, total := AccumulateAll(start, us[..n]).value, AccumulateAll(start, us).value;
      forall m | IsMeasure(m) ensures Quantity(total, m) == Total(start, us, m) {
        assert Quantity(before, m) == Total(start, us[..n], m);
      }
      forall c ensures Has(total.costs, c) == Mentions(start, us, c) {
        assert Has(before.costs, c) == Mentions(start, us[..n], c);
      }
    }
  }

  lemma AccumulateHolds(u: BudgetUsage, r: Reservation)
    requires Accumulate(u, r).Some?
    ensures var total := Accumulate(u, r).value;
            && (forall m :: IsMeasure(m) ==> Quantity(total, m) == Quantity(u, m) + Quantity(r, m))
            && (forall c :: Has(total.costs, c) == (Has(u.costs, c) || Has(r.costs, c)))
            && total.unpriced == u.unpriced
  {
    AccumulateStored(u.costs, r.costs);
    var total := Accumulate(u, r).value;
    assert IsSum(total.costs, u.costs, r.costs);
  }

  function Limit(b: ResolvedBudget, m: Measure): int
    requires IsMeasure(m)
  {
    match m
    case Count(d) => b.limits[d]
    case Cash(c) => Amount(b.costs, c)
  }

  /** The totals fit a budget in every dimension and currency, by arithmetic
      that cannot overflow. */
  ghost predicate Fits(b: ResolvedBudget, start: BudgetUsage, us: seq<BudgetUsage>) {
    && (forall m :: IsMeasure(m) ==> Total(start, us, m) <= Limit(b, m))
    && (forall c :: Mentions(start, us, c) ==> Has(b.costs, c))
    && start.unpriced == 0
  }

  lemma QuantityNatural(u: BudgetUsage, m: Measure)
    requires IsMeasure(m)
    ensures 0 <= Quantity(u, m)
  {
    if m.Cash? { AmountRange(u.costs, m.c); }
  }

  /** Fewer reservations need no more. */
  lemma PrefixFits(b: ResolvedBudget, start: BudgetUsage, us: seq<BudgetUsage>)
    requires us != [] && Fits(b, start, us)
    ensures Fits(b, start, us[..|us| - 1])
  {
    var n := |us| - 1;
    forall m | IsMeasure(m) ensures Total(start, us[..n], m) <= Limit(b, m) {
      QuantityNatural(us[n], m);
      assert Total(start, us, m) <= Limit(b, m);
    }
    forall c | Mentions(start, us[..n], c) ensures Has(b.costs, c) { assert Mentions(start, us, c); }
  }

  /** Totals that fit never overflow on the way, in any dimension, currency or
      number of currencies. */
  lemma {:induction false} FittingFolds(b: ResolvedBudget, start: BudgetUsage, us: seq<Reservation>)
    requires Fits(b, start, us)
    ensures AccumulateAll(start, us).Some?
  {
    if us != [] {
      var n := |us| - 1;
      PrefixFits(b, start, us);
      FittingFolds(b, start, us[..n]);
      FoldTotals(start, us[..n]);
      FittingAdds(b, start, us, AccumulateAll(start, us[..n]).value);
    }
  }

  lemma FittingAdds(b: ResolvedBudget, start: BudgetUsage, us: seq<Reservation>, before: BudgetUsage)
    requires us != [] && Fits(b, start, us) && Holds(before, start, us[..|us| - 1])
    ensures Accumulate(before, us[|us| - 1]).Some?
  {
    var n := |us| - 1;
    forall d | 0 <= d < DIMENSIONS ensures before.counts[d] + us[n].counts[d] <= b.limits[d] {
      var m := Count(d);
      assert Quantity(before, m) == Total(start, us[..n], m);
      assert Total(start, us, m) <= Limit(b, m);
    }
    forall c ensures && (Has(before.costs, c) || Has(us[n].costs, c) ==> Has(b.costs, c))
                     && Amount(before.costs, c) + Amount(us[n].costs, c) <= Amount(b.costs, c) {
      var m := Cash(c);
      assert Quantity(before, m) == Total(start, us[..n], m);
      assert Total(start, us, m) <= Limit(b, m);
      assert Has(before.costs, c) == Mentions(start, us[..n], c);
      assert Mentions(start, us, c) ==> Has(b.costs, c);
    }
    AccumulateWithin(before.costs, us[n].costs, b.costs);
  }

  /** Evaluating a value that holds the totals is the arithmetic comparison. */
  lemma HeldFits(b: ResolvedBudget, total: BudgetUsage, start: BudgetUsage, us: seq<BudgetUsage>, t: Timestamp)
    requires Holds(total, start, us)
    ensures Remaining(b, total, t).Some? <==> t < b.deadline && Fits(b, start, us)
  {
    AffordableExact(b.costs, total.costs);
    if Remaining(b, total, t).Some? {
      forall m | IsMeasure(m) ensures Total(start, us, m) <= Limit(b, m) {
        assert Quantity(total, m) == Total(start, us, m);
        if m.Count? { assert total.counts[m.d] <= b.limits[m.d]; }
      }
      forall c | Mentions(start, us, c) ensures Has(b.costs, c) { assert Has(total.costs, c); }
    }
    if t < b.deadline && Fits(b, start, us) {
      forall d | 0 <= d < DIMENSIONS ensures total.counts[d] <= b.limits[d] {
        assert Quantity(total, Count(d)) == Total(start, us, Count(d)) <= Limit(b, Count(d));
      }
      forall c ensures (Has(total.costs, c) ==> Has(b.costs, c)) && Amount(total.costs, c) <= Amount(b.costs, c) {
        assert Quantity(total, Cash(c)) == Total(start, us, Cash(c)) <= Limit(b, Cash(c));
        assert Has(total.costs, c) == Mentions(start, us, c);
      }
    }
  }

  /** What is left is the budget less the totals. */
  ghost predicate LeftOver(left: BudgetRemaining, b: ResolvedBudget, start: BudgetUsage, us: seq<BudgetUsage>) {
    && left.deadline == b.deadline
    && (forall d :: 0 <= d < DIMENSIONS ==> left.left[d] == b.limits[d] - Total(start, us, Count(d)))
    && |left.costs| == |b.costs|
    && (forall i :: 0 <= i < |b.costs| ==>
          var c := b.costs[i].currency;
          left.costs[i] == Money(c, b.costs[i].microUnits - Total(start, us, Cash(c))))
  }

  /** A capacity check is plain arithmetic: it succeeds exactly when there are
      at most 256 reservations, the deadline is ahead, every unbounded total is
      within its limit, every mentioned currency is budgeted and nothing is
      unpriced; and it returns the budget less those totals. */
  lemma CapacityExact(parent: ResolvedBudget, accounted: BudgetUsage, outstanding: seq<Reservation>, t: Timestamp)
    ensures Capacity(parent, accounted, outstanding, t).Some? <==>
            |outstanding| <= MAX_RESERVATIONS && t < parent.deadline && Fits(parent, accounted, outstanding)
    ensures Capacity(parent, accounted, outstanding, t).Some? ==>
            LeftOver(Capacity(parent, accounted, outstanding, t).value, parent, accounted, outstanding)
  {
    if Fits(parent, accounted, outstanding) { FittingFolds(parent, accounted, outstanding); }
    if AccumulateAll(accounted, outstanding).Some? {
      var total := AccumulateAll(accounted, outstanding).value;
      FoldTotals(accounted, outstanding);
      HeldFits(parent, total, accounted, outstanding, t);
      assert forall d :: 0 <= d < DIMENSIONS ==>
        Quantity(total, Count(d)) == Total(accounted, outstanding, Count(d));
      assert forall c :: Quantity(total, Cash(c)) == Total(accounted, outstanding, Cash(c));
    }
  }

  // ----- order of reservations ------------------------------------------------

  lemma {:induction false} SumWithout(us: seq<BudgetUsage>, i: nat, m: Measure)
    requires i < |us| && IsMeasure(m)
    ensures Sum(us, m) == Sum(Without(us, i), m) + Quantity(us[i], m)
  {
    var n := |us| - 1;
    if i < n {
      assert Without(us, i)[..n - 1] == Without(us[..n], i);
      SumWithout(us[..n], i, m);
    } else {
      assert Without(us, i) == us[..n];
    }
  }

  lemma {:induction false} AnyHasWithout(us: seq<BudgetUsage>, i: nat, c: Currency)
    requires i < |us|
    ensures AnyHas(us, c) <==> AnyHas(Without(us, i), c) || Has(us[i].costs, c)
  {
    var n := |us| - 1;
    if i < n {
      assert Without(us, i)[..n - 1] == Without(us[..n], i);
      AnyHasWithout(us[..n], i, c);
    } else {
      assert Without(us, i) == us[..n];
    }
  }

  lemma {:induction false} SumPermuted(s: seq<BudgetUsage>, t: seq<BudgetUsage>, m: Measure)
    requires multiset(s) == multiset(t) && IsMeasure(m)
    ensures Sum(s, m) == Sum(t, m)
    decreases |s|
  {
    if s == [] {
      assert |multiset(t)| == 0;
    } else {
      var last := s[|s| - 1];
      assert last in multiset(t);
      var j :| 0 <= j < |t| && t[j] == last;
      MultisetWithout(s, t, j);
      SumPermuted(s[..|s| - 1], Without(t, j), m);
      SumWithout(t, j, m);
    }
  }

  lemma {:induction false} AnyHasPermuted(s: seq<BudgetUsage>, t: seq<BudgetUsage>, c: Currency)
    requires multiset(s) == multiset(t)
    ensures AnyHas(s, c) <==> AnyHas(t, c)
    decreases |s|
  {
    if s == [] {
      assert |multiset(t)| == 0;
    } else {
      var last := s[|s| - 1];
      assert last in multiset(t);
      var j :| 0 <= j < |t| && t[j] == last;
      MultisetWithout(s, t, j);
      AnyHasPermuted(s[..|s| - 1], Without(t, j), c);
      AnyHasWithout(t, j, c);
    }
  }

  /** Whether the reservations fit does not depend on their order. */
  lemma FitsPermuted(b: ResolvedBudget, start: BudgetUsage, s: seq<BudgetUsage>, t: seq<BudgetUsage>)
    requires multiset(s) == multiset(t) && Fits(b, start, s)
    ensures Fits(b, start, t)
  {
    forall m | IsMeasure(m) ensures Total(start, t, m) <= Limit(b, m) {
      SumPermuted(s, t, m);
      assert Total(start, s, m) <= Limit(b, m);
    }
    forall c | Mentions(start, t, c) ensures Has(b.costs, c) { AnyHasPermuted(s, t, c); }
  }

  /** Reordering the reservations changes neither success nor value. */
  lemma CapacityOrderIrrelevant(b: ResolvedBudget, accounted: BudgetUsage,
                                s: seq<Reservation>, t: seq<Reservation>, at: Timestamp)
    requires multiset(s) == multiset(t)
    ensures Capacity(b, accounted, s, at) == Capacity(b, accounted, t, at)
  {
    SameLength(s, t);
    CapacityExact(b, accounted, s, at);
    CapacityExact(b, accounted, t, at);
    if Capacity(b, accounted, s, at).Some? {
      FitsPermuted(b, accounted, s, t);
      SameLeftOver(b, accounted, s, t, Capacity(b, accounted, s, at).value, Capacity(b, accounted, t, at).value);
    } else if Capacity(b, accounted, t, at).Some? {
      FitsPermuted(b, accounted, t, s);
    }
  }

  lemma SameLeftOver(b: ResolvedBudget, accounted: BudgetUsage, s: seq<BudgetUsage>, t: seq<BudgetUsage>,
                     x: BudgetRemaining, y: BudgetRemaining)
    requires multiset(s) == multiset(t) && LeftOver(x, b, accounted, s) && LeftOver(y, b, accounted, t)
    ensures x == y
  {
    forall m | IsMeasure(m) ensures Total(accounted, s, m) == Total(accounted, t, m) {
      SumPermuted(s, t, m);
    }
    assert x.left == y.left;
    assert x.costs == y.costs;
  }
}
