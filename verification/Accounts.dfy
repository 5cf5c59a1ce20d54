/**
  The budget account of a parent run (child_run_budget.rs).

  The account keeps the parent's direct usage, the settled usage of its children
  and the ceilings of those still outstanding. Every transition returns a new
  snapshot or refuses. Checksums are terms over what they bind.
 */
module Accounts {
  import opened Prelude
  import opened Costs
  import opened Usage
  import opened Budgets
  import opened Reservations
  import opened Checkpoints
  import opened Admission
  import opened Delegation

  const MAX_ACCOUNT_CHILDREN := 256

  /** Terminal evidence of one child subtree. */
  datatype Settlement = Settlement(
    child: Provenance, intentDigest: AdmissionIntent, admissionDigest: AdmissionDigest, admittedAt: Timestamp,
    terminal: JournalHead, isTerminal: bool, outcome: int, usage: BudgetUsage)

  datatype ChildEntry = ChildEntry(
    key: ChildRunKey, spawnDigest: SpawnDigest, child: Provenance, intentDigest: AdmissionIntent,
    reservation: Reservation, settlement: Option<Settlement>)

  datatype Account = Account(
    parent: Provenance, parentDigest: AdmissionDigest, parentAdmittedAt: Timestamp, graph: GraphReference,
    budget: ResolvedBudget, maximumChildren: int, directHead: JournalHead, directUsage: BudgetUsage,
    children: seq<ChildEntry>)

  // ----- what each child is charged -------------------------------------------

  /** Settled usage without its peaks, or the ceiling while outstanding. */
  function Claim(e: ChildEntry): BudgetUsage {
    if e.settlement.Some? then CumulativeOnly(e.settlement.value.usage) else e.reservation
  }

  function Claims(es: seq<ChildEntry>): seq<BudgetUsage> {
    seq(|es|, i requires 0 <= i < |es| => Claim(es[i]))
  }

  function Settled(es: seq<ChildEntry>): seq<BudgetUsage> {
    if es == [] then []
    else
      var last := es[|es| - 1];
      Settled(es[..|es| - 1]) + if last.settlement.Some? then [Claim(last)] else []
  }

  function Outstanding(es: seq<ChildEntry>): seq<BudgetUsage> {
    if es == [] then []
    else
      var last := es[|es| - 1];
      Outstanding(es[..|es| - 1]) + if last.settlement.Some? then [] else [Claim(last)]
  }

  /** Every charge is cumulative and priced. */
  predicate Claimable(es: seq<ChildEntry>) {
    forall i :: 0 <= i < |es| ==> IsReservation(Claim(es[i]))
  }

  lemma {:induction false} SplitSnoc(es: seq<ChildEntry>)
    requires es != []
    ensures var init, last := es[..|es| - 1], es[|es| - 1];
            if last.settlement.Some?
            then Settled(es) == Settled(init) + [Claim(last)] && Outstanding(es) == Outstanding(init)
            else Settled(es) == Settled(init) && Outstanding(es) == Outstanding(init) + [Claim(last)]
  {}

  predicate AllReservations(us: seq<BudgetUsage>) {
    forall i :: 0 <= i < |us| ==> IsReservation(us[i])
  }

  lemma {:induction false} SplitReservations(es: seq<ChildEntry>)
    requires Claimable(es)
    ensures AllReservations(Settled(es)) && AllReservations(Outstanding(es))
    ensures |Settled(es)| + |Outstanding(es)| == |es|
  {
    if es != [] {
      var n := |es| - 1;
      ClaimableInit(es);
      SplitReservations(es[..n]);
      SplitSnoc(es);
      if es[n].settlement.Some? {
        ReservationsSnoc(Settled(es[..n]), Claim(es[n]));
      } else {
        ReservationsSnoc(Outstanding(es[..n]), Claim(es[n]));
      }
    }
  }

  lemma {:induction false} ClaimableInit(es: seq<ChildEntry>)
    requires Claimable(es) && es != []
    ensures Claimable(es[..|es| - 1])
  {}

  lemma ReservationsSnoc(us: seq<BudgetUsage>, u: BudgetUsage)
    requires AllReservations(us) && IsReservation(u)
    ensures AllReservations(us + [u])
  {}

  lemma {:induction false} ClaimsSnoc(es: seq<ChildEntry>)
    requires es != []
    ensures Claims(es) == Claims(es[..|es| - 1]) + [Claim(es[|es| - 1])]
  {}

  lemma SumSnoc(us: seq<BudgetUsage>, u: BudgetUsage, m: Measure)
    requires IsMeasure(m)
    ensures Sum(us + [u], m) == Sum(us, m) + Quantity(u, m)
  {}

  lemma AnyHasSnoc(us: seq<BudgetUsage>, u: BudgetUsage, c: Currency)
    ensures AnyHas(us + [u], c) <==> AnyHas(us, c) || Has(u.costs, c)
  {}

  lemma {:induction false} SumConcat(us: seq<BudgetUsage>, vs: seq<BudgetUsage>, m: Measure)
    requires IsMeasure(m)
    ensures Sum(us + vs, m) == Sum(us, m) + Sum(vs, m)
  {
    if vs == [] {
      assert us + vs == us;
    } else {
      var n := |vs| - 1;
      SumConcat(us, vs[..n], m);
      assert us + vs == (us + vs[..n]) + [vs[n]];
      SumSnoc(us + vs[..n], vs[n], m);
    }
  }

  lemma {:induction false} AnyHasConcat(us: seq<BudgetUsage>, vs: seq<BudgetUsage>, c: Currency)
    ensures AnyHas(us + vs, c) <==> AnyHas(us, c) || AnyHas(vs, c)
  {
    if vs == [] {
      assert us + vs == us;
    } else {
      var n := |vs| - 1;
      AnyHasConcat(us, vs[..n], c);
      assert us + vs == (us + vs[..n]) + [vs[n]];
      AnyHasSnoc(us + vs[..n], vs[n], c);
    }
  }

  /** Splitting the charges into settled and outstanding loses nothing. */
  lemma {:induction false} SplitSum(es: seq<ChildEntry>, m: Measure)
    requires IsMeasure(m)
    ensures Sum(Settled(es), m) + Sum(Outstanding(es), m) == Sum(Claims(es), m)
  {
    if es != [] {
      var n := |es| - 1;
      SplitSum(es[..n], m);
      ClaimsSnoc(es);
      SplitSnoc(es);
      SumSnoc(Claims(es[..n]), Claim(es[n]), m);
      if es[n].settlement.Some? {
        SumSnoc(Settled(es[..n]), Claim(es[n]), m);
      } else {
        SumSnoc(Outstanding(es[..n]), Claim(es[n]), m);
      }
    }
  }

  lemma {:induction false} SplitAnyHas(es: seq<ChildEntry>, c: Currency)
    ensures AnyHas(Settled(es), c) || AnyHas(Outstanding(es), c) <==> AnyHas(Claims(es), c)
  {
    if es != [] {
      var n := |es| - 1;
      SplitAnyHas(es[..n], c);
      ClaimsSnoc(es);
      SplitSnoc(es);
      AnyHasSnoc(Claims(es[..n]), Claim(es[n]), c);
      if es[n].settlement.Some? {
        AnyHasSnoc(Settled(es[..n]), Claim(es[n]), c);
      } else {
        AnyHasSnoc(Outstanding(es[..n]), Claim(es[n]), c);
      }
    }
  }

  // ----- accounted usage and remaining capacity -------------------------------

  /** The settled usage of all children, undefined on overflow. */
  function Delegated(es: seq<ChildEntry>): Option<BudgetUsage> {
    AccumulateAll(Zero(), Settled(es))
  }

  /** Direct plus settled delegated usage. */
  function AccountedUsage(a: Account): Option<BudgetUsage> {
    Join(Some(a.directUsage), Delegated(a.children))
  }

  lemma {:induction false} SettledStep(es: seq<ChildEntry>, k: nat)
    requires k < |es|
    ensures Delegated(es[..k + 1]) ==
            if es[k].settlement.Some? then Join(Delegated(es[..k]), Some(Claim(es[k]))) else Delegated(es[..k])
  {
    var longer, before := es[..k + 1], Settled(es[..k]);
    assert longer[..k] == es[..k];
    SplitSnoc(longer);
    assert (before + [Claim(es[k])])[..|before|] == before;
  }

  lemma {:induction false} SettledPrefix(es: seq<ChildEntry>, k: nat)
    requires k <= |es| && Delegated(es[..k]).None?
    ensures Delegated(es).None?
    decreases |es| - k
  {
    if k == |es| {
      assert es[..k] == es;
    } else {
      SettledStep(es, k);
      SettledPrefix(es, k + 1);
    }
  }

  /** `delegated_usage`: folds the settlements in storage order. */
  method DelegatedUsage(a: Account) returns (r: Option<BudgetUsage>)
    ensures r == Delegated(a.children)
  {
    var total := Zero();
    assert Delegated([]) == Some(Zero());
    for k := 0 to |a.children|
      invariant Delegated(a.children[..k]) == Some(total)
    {
      SettledStep(a.children, k);
      var settlement := a.children[k].settlement;
      if settlement.Some? {
        var next := Accumulate(total, CumulativeOnly(settlement.value.usage));
        if next.None? {
          SettledPrefix(a.children, k + 1);
          return None;
        }
        total := next.value;
      }
    }
    assert a.children[..|a.children|] == a.children;
    r := Some(total);
  }

  /** The clock is not older than the evidence kept. */
  predicate ClockCurrent(a: Account, t: Timestamp) {
    && a.directHead.recordedAt <= t
    && forall i :: 0 <= i < |a.children| && a.children[i].settlement.Some? ==>
         a.children[i].settlement.value.terminal.recordedAt <= t
  }

  /** The capacity check beside outstanding ceilings, refused when the accounted
      usage itself overflowed. */
  function Check(b: ResolvedBudget, accounted: Option<BudgetUsage>, outstanding: seq<BudgetUsage>,
                 t: Timestamp): Option<BudgetRemaining>
    requires AllReservations(outstanding)
  {
    if accounted.None? then None else Capacity(b, accounted.value, outstanding, t)
  }

  /** `ChildRunBudgetAccount::remaining`. */
  function RemainingOf(a: Account, t: Timestamp): Option<BudgetRemaining>
    requires Claimable(a.children)
  {
    SplitReservations(a.children);
    if !ClockCurrent(a, t) then None else Check(a.budget, AccountedUsage(a), Outstanding(a.children), t)
  }

  lemma {:induction false} FoldShift(start: BudgetUsage, us: seq<BudgetUsage>)
    ensures Join(Some(start), AccumulateAll(Zero(), us)) == AccumulateAll(start, us)
  {
    if us == [] {
      AccumulateZero(start);
    } else {
      var n := |us| - 1;
      FoldShift(start, us[..n]);
      var before := AccumulateAll(Zero(), us[..n]);
      if before.Some? { AccumulateAssociative(start, before.value, us[n]); }
    }
  }

  lemma {:induction false} FoldConcat(start: BudgetUsage, us: seq<BudgetUsage>, vs: seq<BudgetUsage>)
    ensures AccumulateAll(start, us + vs) ==
            var first := AccumulateAll(start, us); if first.Some? then AccumulateAll(first.value, vs) else None
  {
    if vs == [] {
      assert us + vs == us;
    } else {
      var n := |vs| - 1;
      assert (us + vs)[..|us + vs| - 1] == us + vs[..n];
      FoldConcat(start, us, vs[..n]);
    }
  }

  /** Direct usage and every child's charge fit the budget, by unbounded
      arithmetic: nothing is ever spent or promised beyond it. */
  ghost predicate Covered(a: Account) {
    Fits(a.budget, a.directUsage, Claims(a.children))
  }

  lemma {:induction false} CoveredSplit(a: Account)
    ensures Covered(a) <==> Fits(a.budget, a.directUsage, Settled(a.children) + Outstanding(a.children))
  {
    var us, cs := Settled(a.children) + Outstanding(a.children), Claims(a.children);
    forall m | IsMeasure(m) ensures Total(a.directUsage, us, m) == Total(a.directUsage, cs, m) {
      SplitSum(a.children, m);
      SumConcat(Settled(a.children), Outstanding(a.children), m);
    }
    forall c ensures Mentions(a.directUsage, us, c) == Mentions(a.directUsage, cs, c) {
      SplitAnyHas(a.children, c);
      AnyHasConcat(Settled(a.children), Outstanding(a.children), c);
    }
    SameFits(a.budget, a.directUsage, us, cs);
    SameFits(a.budget, a.directUsage, cs, us);
  }

  lemma SameFits(b: ResolvedBudget, start: BudgetUsage, us: seq<BudgetUsage>, vs: seq<BudgetUsage>)
    requires forall m :: IsMeasure(m) ==> Total(start, us, m) == Total(start, vs, m)
    requires forall c :: Mentions(start, us, c) == Mentions(start, vs, c)
    ensures Fits(b, start, us) ==> Fits(b, start, vs)
  {}

  /** Joining direct usage with folded settlements and checking the ceilings is
      plain arithmetic on all of them. */
  lemma {:induction false} CheckExact(b: ResolvedBudget, direct: BudgetUsage, settled: seq<BudgetUsage>,
                                      outstanding: seq<BudgetUsage>, t: Timestamp)
    requires AllReservations(settled) && AllReservations(outstanding)
    requires |settled| + |outstanding| <= MAX_ACCOUNT_CHILDREN
    ensures var left := Check(b, Join(Some(direct), AccumulateAll(Zero(), settled)), outstanding, t);
            && (left.Some? <==> t < b.deadline && Fits(b, direct, settled + outstanding))
            && (left.Some? ==> LeftOver(left.value, b, direct, settled + outstanding))
  {
    FoldShift(direct, settled);
    FoldConcat(direct, settled, outstanding);
    CapacityExact(b, direct, settled + outstanding, t);
  }

  /** What is left beside settled usage and outstanding ceilings is what is left
      beside every child's claim. */
  lemma {:induction false} LeftOverSplit(a: Account, left: BudgetRemaining)
    requires LeftOver(left, a.budget, a.directUsage, Settled(a.children) + Outstanding(a.children))
    ensures LeftOver(left, a.budget, a.directUsage, Claims(a.children))
  {
    forall m | IsMeasure(m) ensures
        Sum(Settled(a.children) + Outstanding(a.children), m) == Sum(Claims(a.children), m) {
      SplitSum(a.children, m);
      SumConcat(Settled(a.children), Outstanding(a.children), m);
    }
  }

  /** The account has capacity left exactly when its clock is current, the deadline
      is ahead and it is covered; and what is left is then the budget less direct
      usage, settled usage and outstanding ceilings, in every dimension and
      currency. */
  lemma {:induction false} RemainingCovered(a: Account, t: Timestamp)
    requires Claimable(a.children) && |a.children| <= MAX_ACCOUNT_CHILDREN
    ensures RemainingOf(a, t).Some? <==> ClockCurrent(a, t) && t < a.budget.deadline && Covered(a)
    ensures RemainingOf(a, t).Some? ==>
            LeftOver(RemainingOf(a, t).value, a.budget, a.directUsage, Claims(a.children))
  {
    SplitReservations(a.children);
    CheckExact(a.budget, a.directUsage, Settled(a.children), Outstanding(a.children), t);
    CoveredSplit(a);
    if RemainingOf(a, t).Some? { LeftOverSplit(a, RemainingOf(a, t).value); }
  }

  // ----- sealing --------------------------------------------------------------

  /** `ChildRunBudgetSettlement::validate`: terminal evidence of that child,
      fully priced. */
  predicate SettlementValid(s: Settlement) {
    && s.isTerminal
    && s.child.tenant == s.terminal.tenant && s.child.run == s.terminal.run
    && s.admittedAt <= s.terminal.recordedAt && s.terminal.sequence > 1
    && s.usage.unpriced == 0 && Consistent(s.usage)
  }

  predicate EntryValid(a: Account, e: ChildEntry) {
    && e.key.parent.base.tenant == e.child.tenant == a.parent.tenant
    && e.key.parent.base.run == a.parent.run != e.child.run
    && e.key.parent.base.graph == a.graph
    && (e.settlement.Some? ==>
          && SettlementValid(e.settlement.value)
          && e.settlement.value.child == e.child && e.settlement.value.intentDigest == e.intentDigest
          && a.parentAdmittedAt <= e.settlement.value.admittedAt)
  }

  predicate DistinctChildren(es: seq<ChildEntry>) {
    forall i, j :: 0 <= i < j < |es| ==>
      es[i].key.digest != es[j].key.digest && es[i].child.run != es[j].child.run
  }

  /** The account's own fields, whatever its children. */
  predicate HeaderValid(a: Account) {
    && 1 <= a.maximumChildren <= MAX_ACCOUNT_CHILDREN
    && a.directHead.tenant == a.parent.tenant && a.directHead.run == a.parent.run
    && a.parentAdmittedAt <= a.directHead.recordedAt
  }

  predicate EntriesValid(a: Account) {
    forall i :: 0 <= i < |a.children| ==> EntryValid(a, a.children[i])
  }

  /** What `seal` demands of a snapshot. */
  predicate ValidAccount(a: Account) {
    && HeaderValid(a) && |a.children| <= a.maximumChildren
    && EntriesValid(a) && DistinctChildren(a.children) && DigestOrder(a.children)
    && AccountedUsage(a).Some?
  }

  function PlaceEntry(es: seq<ChildEntry>, e: ChildEntry): seq<ChildEntry> {
    if es == [] || es[|es| - 1].key.digest <= e.key.digest then es + [e]
    else PlaceEntry(es[..|es| - 1], e) + [es[|es| - 1]]
  }

  /** The stable sort by key checksum. */
  function SortEntries(es: seq<ChildEntry>): seq<ChildEntry> {
    if es == [] then [] else PlaceEntry(SortEntries(es[..|es| - 1]), es[|es| - 1])
  }

  function Seal(a: Account): Option<Account> {
    var next := a.(children := SortEntries(a.children));
    if ValidAccount(next) then Some(next) else None
  }

  lemma {:induction false} PlaceKeeps(es: seq<ChildEntry>, e: ChildEntry)
    ensures multiset(PlaceEntry(es, e)) == multiset(es) + multiset{e}
  {
    if es != [] {
      assert es == es[..|es| - 1] + [es[|es| - 1]];
      PlaceKeeps(es[..|es| - 1], e);
    }
  }

  lemma {:induction false} SortKeeps(es: seq<ChildEntry>)
    ensures multiset(SortEntries(es)) == multiset(es)
  {
    if es != [] {
      assert es == es[..|es| - 1] + [es[|es| - 1]];
      SortKeeps(es[..|es| - 1]);
      PlaceKeeps(SortEntries(es[..|es| - 1]), es[|es| - 1]);
    }
  }

  predicate DigestOrder(es: seq<ChildEntry>) {
    forall i, j :: 0 <= i < j < |es| ==> es[i].key.digest <= es[j].key.digest
  }

  lemma {:induction false} PlaceBounded(es: seq<ChildEntry>, e: ChildEntry, bound: int)
    requires e.key.digest <= bound && forall i :: 0 <= i < |es| ==> es[i].key.digest <= bound
    ensures forall i :: 0 <= i < |PlaceEntry(es, e)| ==> PlaceEntry(es, e)[i].key.digest <= bound
  {
    if es != [] { PlaceBounded(es[..|es| - 1], e, bound); }
  }

  lemma {:induction false} PlaceOrders(es: seq<ChildEntry>, e: ChildEntry)
    requires DigestOrder(es)
    ensures DigestOrder(PlaceEntry(es, e))
  {
    if es != [] && es[|es| - 1].key.digest > e.key.digest {
      PlaceOrders(es[..|es| - 1], e);
      PlaceBounded(es[..|es| - 1], e, es[|es| - 1].key.digest);
    }
  }

  lemma {:induction false} SortOrders(es: seq<ChildEntry>)
    ensures DigestOrder(SortEntries(es))
  {
    if es != [] {
      SortOrders(es[..|es| - 1]);
      PlaceOrders(SortEntries(es[..|es| - 1]), es[|es| - 1]);
    }
  }

  lemma {:induction false} SortFixed(es: seq<ChildEntry>)
    requires DigestOrder(es)
    ensures SortEntries(es) == es
  {
    if es != [] {
      assert es == es[..|es| - 1] + [es[|es| - 1]];
      SortFixed(es[..|es| - 1]);
    }
  }

  lemma {:induction false} ClaimsPermuted(x: seq<ChildEntry>, y: seq<ChildEntry>)
    requires multiset(x) == multiset(y)
    ensures multiset(Claims(x)) == multiset(Claims(y))
    decreases |x|
  {
    SameLength(x, y);
    if x != [] {
      var n := |x| - 1;
      assert x[n] in multiset(y);
      var j :| 0 <= j < |y| && y[j] == x[n];
      MultisetWithout(x, y, j);
      ClaimsPermuted(x[..n], Without(y, j));
      ClaimsSnoc(x);
      assert Claims(y) == Claims(y)[..j] + [Claim(y[j])] + Claims(y)[j + 1..];
      assert Claims(Without(y, j)) == Claims(y)[..j] + Claims(y)[j + 1..];
    }
  }

  /** Sealing keeps the accounting: same entries, in canonical order. */
  lemma {:induction false} SealKeeps(a: Account)
    requires Seal(a).Some?
    ensures var b := Seal(a).value;
            && b == a.(children := b.children) && multiset(b.children) == multiset(a.children)
            && ValidAccount(b) && (Covered(a) <==> Covered(b))
  {
    var b := Seal(a).value;
    SortKeeps(a.children);
    ClaimsPermuted(a.children, b.children);
    if Covered(a) { FitsPermuted(a.budget, a.directUsage, Claims(a.children), Claims(b.children)); }
    if Covered(b) { FitsPermuted(a.budget, a.directUsage, Claims(b.children), Claims(a.children)); }
  }

  lemma {:induction false} ValidClaimable(a: Account)
    requires EntriesValid(a)
    ensures Claimable(a.children)
  {}

  lemma {:induction false} CoveredAccounted(a: Account)
    requires Claimable(a.children) && Covered(a)
    ensures AccountedUsage(a).Some?
  {
    var settled, outstanding := Settled(a.children), Outstanding(a.children);
    SplitReservations(a.children);
    CoveredSplit(a);
    FittingFolds(a.budget, a.directUsage, settled + outstanding);
    FoldConcat(a.directUsage, settled, outstanding);
    FoldShift(a.directUsage, settled);
  }

  // ----- transitions ----------------------------------------------------------

  /** The first entry under a key, or -1. */
  function IndexOf(es: seq<ChildEntry>, key: ChildRunKey): (i: int)
    ensures -1 <= i < |es|
    ensures i >= 0 ==> es[i].key == key
    ensures i < 0 ==> forall j :: 0 <= j < |es| ==> es[j].key != key
  {
    if es == [] then -1
    else
      var i := IndexOf(es[..|es| - 1], key);
      if i >= 0 then i
      else
        assert forall j :: 0 <= j < |es| - 1 ==> es[j] == es[..|es| - 1][j];
        if es[|es| - 1].key == key then |es| - 1 else -1
  }

  lemma CeilingReserves(b: ResolvedBudget)
    requires Valid(b)
    ensures IsReservation(Ceiling(b))
  {}

  function NewEntry(c: ChildIntent): ChildEntry
    requires Valid(c.child.budget)
  {
    CeilingReserves(c.child.budget);
    ChildEntry(c.key, c.spawnDigest, c.child.provenance, c.child, Ceiling(c.child.budget), None)
  }

  function Enlarged(a: Account, c: ChildIntent): Account
    requires Valid(c.child.budget)
  {
    a.(children := a.children + [NewEntry(c)])
  }

  lemma {:induction false} EnlargedClaimable(a: Account, c: ChildIntent)
    requires EntriesValid(a) && Valid(c.child.budget)
    ensures Claimable(Enlarged(a, c).children)
  {}

  predicate OwnsIntent(a: Account, c: ChildIntent, g: CompiledGraph) {
    && c.parentDigest == a.parentDigest
    && c.key.parent.base.tenant == a.parent.tenant
    && c.key.parent.base.run == a.parent.run
    && c.key.parent.base.graph == a.graph == g.reference
    && DeclarationValid(c, g)
    && Narrows(c.child.budget, a.budget)
  }

  /** `reserve`: a matching retry returns the account unchanged; a new child
      needs capacity for its whole ceiling. */
  function Reserve(a: Account, c: ChildIntent, g: CompiledGraph, t: Timestamp): Option<Account>
    requires EntriesValid(a) && Valid(c.child.budget)
  {
    if !OwnsIntent(a, c, g) then None
    else
      var i := IndexOf(a.children, c.key);
      if i >= 0 then if a.children[i].spawnDigest == c.spawnDigest then Some(a) else None
      else if |a.children| >= a.maximumChildren then None
      else
        EnlargedClaimable(a, c);
        if RemainingOf(Enlarged(a, c), t).None? then None else Seal(Enlarged(a, c))
  }

  predicate Settles(a: Account, e: ChildEntry, s: Settlement) {
    && SettlementValid(s)
    && e.child == s.child && e.intentDigest == s.intentDigest
    && a.parentAdmittedAt <= s.admittedAt
  }

  function WithSettlement(a: Account, i: nat, s: Settlement): Account
    requires i < |a.children|
  {
    a.(children := a.children[i := a.children[i].(settlement := Some(s))])
  }

  /** `settle`: replaces an outstanding ceiling by exact terminal usage, once. */
  function Settle(a: Account, key: ChildRunKey, s: Settlement): Option<Account> {
    var i := IndexOf(a.children, key);
    if i < 0 || !Settles(a, a.children[i], s) then None
    else if a.children[i].settlement.Some? then if a.children[i].settlement.value == s then Some(a) else None
    else Seal(WithSettlement(a, i, s))
  }

  /** `observe_direct`: an absolute, later, non-regressing observation. */
  function Observe(a: Account, head: JournalHead, usage: BudgetUsage): Option<Account> {
    if head == a.directHead && usage == a.directUsage then Some(a)
    else if || head.tenant != a.parent.tenant || head.run != a.parent.run
            || head.sequence <= a.directHead.sequence || head.recordedAt < a.directHead.recordedAt
            || !MonotonicAfter(usage, a.directUsage)
    then None
    else Seal(a.(directHead := head, directUsage := usage))
  }

  // ----- each transition keeps the account covered ----------------------------

  /** The ceiling is that of the child's own budget, which narrows the parent's,
      and the spawn checksum binds that budget, the key and the parent. */
  predicate FundedEntry(a: Account, e: ChildEntry) {
    && Valid(e.intentDigest.budget) && e.reservation == Ceiling(e.intentDigest.budget)
    && Narrows(e.intentDigest.budget, a.budget)
    && e.spawnDigest.key == e.key && e.spawnDigest.parent == a.parentDigest
    && e.spawnDigest.budget == e.intentDigest.budget
  }

  predicate Funded(a: Account) {
    forall i :: 0 <= i < |a.children| ==> FundedEntry(a, a.children[i])
  }

  /** No more of anything, and no other currency. */
  ghost predicate NoMore(v: BudgetUsage, u: BudgetUsage) {
    && (forall m :: IsMeasure(m) ==> Quantity(v, m) <= Quantity(u, m))
    && (forall c :: Has(v.costs, c) ==> Has(u.costs, c))
  }

  lemma {:induction false} CoversNoMore(r: Reservation, u: BudgetUsage)
    requires Covers(r, u)
    ensures NoMore(CumulativeOnly(u), r)
  {
    AffordableExact(r.costs, u.costs);
    var only := CumulativeOnly(u);
    forall m | IsMeasure(m) ensures Quantity(only, m) <= Quantity(r, m) {
      if m.Count? { assert only.counts[m.d] <= r.counts[m.d]; }
    }
  }

  lemma {:induction false} ReplaceFits(b: ResolvedBudget, start: BudgetUsage, us: seq<BudgetUsage>,
                                       i: nat, v: BudgetUsage)
    requires Fits(b, start, us) && i < |us| && NoMore(v, us[i])
    ensures Fits(b, start, us[i := v])
  {
    var vs := us[i := v];
    assert Without(vs, i) == Without(us, i);
    forall m | IsMeasure(m) ensures Total(start, vs, m) <= Limit(b, m) {
      SumWithout(us, i, m);
      SumWithout(vs, i, m);
      assert Quantity(v, m) <= Quantity(us[i], m);
      assert Total(start, us, m) <= Limit(b, m);
    }
    forall c | Mentions(start, vs, c) ensures Has(b.costs, c) {
      AnyHasWithout(us, i, c);
      AnyHasWithout(vs, i, c);
      assert Mentions(start, us, c);
    }
  }

  lemma {:induction false} SettlementCovered(a: Account, i: nat, s: Settlement)
    requires Covered(a) && i < |a.children| && a.children[i].settlement.None?
    requires Covers(a.children[i].reservation, s.usage)
    ensures Covered(WithSettlement(a, i, s))
  {
    var only := CumulativeOnly(s.usage);
    CoversNoMore(a.children[i].reservation, s.usage);
    ReplaceFits(a.budget, a.directUsage, Claims(a.children), i, only);
    assert Claims(WithSettlement(a, i, s).children) == Claims(a.children)[i := only];
  }
}
