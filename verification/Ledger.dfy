/**
  Runs of a child-run budget account (child_run_budget.rs).

  A run is any sequence of reservations, settlements and direct observations; a
  refused one leaves the account as it was.
 */
module Ledger {
  import opened Prelude
  import opened Usage
  import Costs
  import opened Budgets
  import opened Reservations
  import opened Checkpoints
  import opened Admission
  import opened Delegation
  import opened Accounts

  // ----- single transitions ---------------------------------------------------

  /** `ChildRunBudgetAccount::new`: opens an account without children. */
  function Open(parent: AgentAdmission, g: CompiledGraph, head: JournalHead, usage: BudgetUsage): Option<Account> {
    if g.childRuns.None? || head.recordedAt < parent.admittedAt || g.reference != parent.intent.graph then None
    else Seal(Account(
      parent.intent.provenance, parent.digest, parent.admittedAt, g.reference, parent.intent.budget,
      g.childRuns.value.limits.children, head, usage, []))
  }

  /** A new account is valid and holds no child; it starts covered exactly when
      the parent's own budget accepts the direct usage. */
  lemma {:induction false} OpenSound(parent: AgentAdmission, g: CompiledGraph, head: JournalHead, usage: BudgetUsage,
                                     t: Timestamp)
    requires Open(parent, g, head, usage).Some? && t < parent.intent.budget.deadline
    ensures var a := Open(parent, g, head, usage).value;
            && ValidAccount(a) && Funded(a) && a.children == [] && a.budget == parent.intent.budget
            && (Covered(a) <==> Remaining(a.budget, usage, t).Some?)
  {
    var a := Open(parent, g, head, usage).value;
    SealKeeps(a.(children := []));
    assert Claims([]) == [];
    CapacityExact(a.budget, usage, [], t);
  }

  /** A fresh reservation succeeds only if everything promised still fits. */
  lemma {:induction false} ReserveCovers(a: Account, c: ChildIntent, g: CompiledGraph, t: Timestamp)
    requires ValidAccount(a) && Valid(c.child.budget) && Reserve(a, c, g, t).Some?
    requires IndexOf(a.children, c.key) < 0
    ensures Covered(Enlarged(a, c)) && Covered(Reserve(a, c, g, t).value)
    ensures Reserve(a, c, g, t) == Seal(Enlarged(a, c))
  {
    EnlargedClaimable(a, c);
    RemainingCovered(Enlarged(a, c), t);
    SealKeeps(Enlarged(a, c));
  }

  lemma {:induction false} DistinctPermuted(x: seq<ChildEntry>, y: seq<ChildEntry>)
    requires multiset(x) == multiset(y) && DistinctChildren(x)
    ensures DistinctChildren(y)
  {
    forall i, j | 0 <= i < j < |y| ensures
        y[i].key.digest != y[j].key.digest && y[i].child.run != y[j].child.run {
      var p := SameElement(y, x, i);
      var q := SameElement(y, x, j);
      OnceEach(x, y, i, j);
      assert p < q || q < p;
    }
  }

  lemma {:induction false} EntriesPermuted(a: Account, b: Account)
    requires b == a.(children := b.children) && multiset(a.children) == multiset(b.children) && EntriesValid(a)
    ensures EntriesValid(b)
  {
    forall j | 0 <= j < |b.children| ensures EntryValid(b, b.children[j]) {
      var i := SameElement(b.children, a.children, j);
      assert EntryValid(a, a.children[i]);
    }
  }

  /** The child is of this tenant and repeats no identity of the account. */
  predicate NewIdentity(a: Account, c: ChildIntent) {
    && c.child.provenance.tenant == a.parent.tenant && c.child.provenance.run != a.parent.run
    && forall i :: 0 <= i < |a.children| ==>
         a.children[i].key.digest != c.key.digest && a.children[i].child.run != c.child.provenance.run
  }

  lemma {:induction false} NewIdentityValid(a: Account, c: ChildIntent, g: CompiledGraph)
    requires EntriesValid(a) && Valid(c.child.budget) && OwnsIntent(a, c, g) && NewIdentity(a, c)
    ensures EntriesValid(Enlarged(a, c))
  {
    var b := Enlarged(a, c);
    forall j | 0 <= j < |b.children| ensures EntryValid(b, b.children[j]) {
      if j < |a.children| { assert EntryValid(a, a.children[j]); }
    }
  }

  lemma {:induction false} NewIdentityDistinct(a: Account, c: ChildIntent)
    requires DistinctChildren(a.children) && Valid(c.child.budget) && NewIdentity(a, c)
    ensures DistinctChildren(Enlarged(a, c).children)
  {
    var es, fs := a.children, Enlarged(a, c).children;
    forall i, j | 0 <= i < j < |fs| ensures
        fs[i].key.digest != fs[j].key.digest && fs[i].child.run != fs[j].child.run {
      assert fs[i] == es[i];
      if j < |es| { assert fs[j] == es[j]; }
    }
  }

  lemma {:induction false} ShapeNewIdentity(a: Account, c: ChildIntent)
    requires Valid(c.child.budget) && EntriesValid(Enlarged(a, c)) && DistinctChildren(Enlarged(a, c).children)
    ensures NewIdentity(a, c)
  {
    var b := Enlarged(a, c);
    var n := |a.children|;
    assert EntryValid(b, b.children[n]);
    forall i | 0 <= i < n ensures
        a.children[i].key.digest != c.key.digest && a.children[i].child.run != c.child.provenance.run {
      assert b.children[i] == a.children[i];
    }
  }

  lemma {:induction false} SealSucceeds(x: Account)
    requires HeaderValid(x) && |x.children| <= x.maximumChildren
    requires EntriesValid(x) && DistinctChildren(x.children) && Covered(x)
    ensures Seal(x).Some?
  {
    var b := x.(children := SortEntries(x.children));
    SortKeeps(x.children);
    SortOrders(x.children);
    SameLength(x.children, b.children);
    EntriesPermuted(x, b);
    DistinctPermuted(x.children, b.children);
    CoveredSorted(x);
    ValidClaimable(b);
    CoveredAccounted(b);
  }

  lemma {:induction false} SealShape(x: Account)
    requires Seal(x).Some?
    ensures EntriesValid(x) && DistinctChildren(x.children)
  {
    var b := x.(children := SortEntries(x.children));
    SortKeeps(x.children);
    EntriesPermuted(b, x);
    DistinctPermuted(b.children, x.children);
  }

  lemma {:induction false} CoveredSorted(a: Account)
    requires Covered(a)
    ensures Covered(a.(children := SortEntries(a.children)))
  {
    SortKeeps(a.children);
    ClaimsPermuted(a.children, SortEntries(a.children));
    FitsPermuted(a.budget, a.directUsage, Claims(a.children), Claims(SortEntries(a.children)));
  }

  /** A new child is admitted exactly when the account owns the declared, no
      wider intent, has a place and no record of its identities, its clock is
      current before the deadline, and everything fits with the whole ceiling. */
  lemma {:induction false} ReserveExact(a: Account, c: ChildIntent, g: CompiledGraph, t: Timestamp)
    requires ValidAccount(a) && Valid(c.child.budget) && IndexOf(a.children, c.key) < 0
    ensures Reserve(a, c, g, t).Some? <==>
            && OwnsIntent(a, c, g) && NewIdentity(a, c) && |a.children| < a.maximumChildren
            && ClockCurrent(a, t) && t < a.budget.deadline && Covered(Enlarged(a, c))
  {
    if OwnsIntent(a, c, g) && |a.children| < a.maximumChildren {
      EnlargedClaimable(a, c);
      RemainingCovered(Enlarged(a, c), t);
      EnlargedClock(a, c, t);
      if Covered(Enlarged(a, c)) { EnlargedSeals(a, c, g); }
    }
  }

  lemma {:induction false} EnlargedSeals(a: Account, c: ChildIntent, g: CompiledGraph)
    requires ValidAccount(a) && Valid(c.child.budget) && OwnsIntent(a, c, g)
    requires |a.children| < a.maximumChildren && Covered(Enlarged(a, c))
    ensures Seal(Enlarged(a, c)).Some? <==> NewIdentity(a, c)
  {
    if NewIdentity(a, c) {
      NewIdentityValid(a, c, g);
      NewIdentityDistinct(a, c);
      SealSucceeds(Enlarged(a, c));
    }
    if Seal(Enlarged(a, c)).Some? {
      SealShape(Enlarged(a, c));
      ShapeNewIdentity(a, c);
    }
  }

  lemma {:induction false} EnlargedClock(a: Account, c: ChildIntent, t: Timestamp)
    requires Valid(c.child.budget)
    ensures ClockCurrent(Enlarged(a, c), t) <==> ClockCurrent(a, t)
  {
    var b := Enlarged(a, c);
    assert forall i :: 0 <= i < |a.children| ==> b.children[i] == a.children[i];
  }

  /** An account that is not covered admits no new child. */
  lemma {:induction false} OverrunBlocks(a: Account, c: ChildIntent, g: CompiledGraph, t: Timestamp)
    requires ValidAccount(a) && Valid(c.child.budget) && !Covered(a) && IndexOf(a.children, c.key) < 0
    ensures Reserve(a, c, g, t).None?
  {
    if Reserve(a, c, g, t).Some? {
      ReserveCovers(a, c, g, t);
      CoveredBefore(a, c);
    }
  }

  lemma {:induction false} CoveredBefore(a: Account, c: ChildIntent)
    requires Valid(c.child.budget) && Covered(Enlarged(a, c))
    ensures Covered(a)
  {
    var es := Enlarged(a, c).children;
    assert es[..|es| - 1] == a.children;
    ClaimsSnoc(es);
    assert Claims(es)[..|es| - 1] == Claims(a.children);
    PrefixFits(a.budget, a.directUsage, Claims(es));
  }

  lemma {:induction false} SealFixed(a: Account)
    requires HeaderValid(a) && |a.children| <= a.maximumChildren
    requires EntriesValid(a) && DistinctChildren(a.children) && DigestOrder(a.children) && Covered(a)
    ensures Seal(a) == Some(a)
  {
    SortFixed(a.children);
    ValidClaimable(a);
    CoveredAccounted(a);
  }

  lemma {:induction false} SettlementShape(a: Account, i: nat, s: Settlement)
    requires ValidAccount(a) && i < |a.children| && Settles(a, a.children[i], s)
    ensures var b := WithSettlement(a, i, s);
            HeaderValid(b) && EntriesValid(b) && DistinctChildren(b.children) && DigestOrder(b.children)
  {
    var b := WithSettlement(a, i, s);
    forall j | 0 <= j < |b.children| ensures EntryValid(b, b.children[j]) {
      assert EntryValid(a, a.children[j]);
    }
  }

  /** A child that stayed within its own budget can always be settled: nothing
      overflows, the account is exactly the old one with that settlement, and
      everything still fits. */
  lemma {:induction false} SettleAccepted(a: Account, key: ChildRunKey, s: Settlement, at: Timestamp)
    requires ValidAccount(a) && Funded(a) && Covered(a)
    requires var i := IndexOf(a.children, key);
             i >= 0 && a.children[i].settlement.None? && Settles(a, a.children[i], s)
    requires Remaining(s.intentDigest.budget, s.usage, at).Some?
    ensures var b := WithSettlement(a, IndexOf(a.children, key), s);
            Settle(a, key, s) == Some(b) && Covered(b)
  {
    var i := IndexOf(a.children, key);
    assert FundedEntry(a, a.children[i]);
    AcceptedIsCovered(s.intentDigest.budget, s.usage, at);
    SettlementCovered(a, i, s);
    SettlementShape(a, i, s);
    SealFixed(WithSettlement(a, i, s));
  }

  /** A later observation that still fits is recorded as it is. */
  lemma {:induction false} ObserveAccepted(a: Account, head: JournalHead, usage: BudgetUsage)
    requires ValidAccount(a)
    requires head.tenant == a.parent.tenant && head.run == a.parent.run
    requires a.directHead.sequence < head.sequence && a.directHead.recordedAt <= head.recordedAt
    requires MonotonicAfter(usage, a.directUsage) && Fits(a.budget, usage, Claims(a.children))
    ensures var b := a.(directHead := head, directUsage := usage);
            Observe(a, head, usage) == Some(b) && Covered(b)
  {
    ObserveSeals(a, head, usage);
    ObservedSealed(a, head, usage);
  }

  lemma {:induction false} ObserveSeals(a: Account, head: JournalHead, usage: BudgetUsage)
    requires head.tenant == a.parent.tenant && head.run == a.parent.run
    requires a.directHead.sequence < head.sequence && a.directHead.recordedAt <= head.recordedAt
    requires MonotonicAfter(usage, a.directUsage)
    ensures Observe(a, head, usage) == Seal(a.(directHead := head, directUsage := usage))
  {}

  lemma {:induction false} ObservedSealed(a: Account, head: JournalHead, usage: BudgetUsage)
    requires ValidAccount(a) && Fits(a.budget, usage, Claims(a.children))
    requires head.tenant == a.parent.tenant && head.run == a.parent.run && a.directHead.recordedAt <= head.recordedAt
    ensures var b := a.(directHead := head, directUsage := usage); Seal(b) == Some(b) && Covered(b)
  {
    var b := a.(directHead := head, directUsage := usage);
    SameEntries(a, b);
    SealFixed(b);
  }

  lemma {:induction false} SameEntries(a: Account, b: Account)
    requires EntriesValid(a) && b == a.(directHead := b.directHead, directUsage := b.directUsage)
    ensures EntriesValid(b)
  {}

  // ----- what every transition keeps ------------------------------------------

  /** The same record, whose settlement may have been added but not changed. */
  predicate Grew(e: ChildEntry, f: ChildEntry) {
    f == e.(settlement := f.settlement) && (e.settlement.Some? ==> f.settlement == e.settlement)
  }

  predicate KeptIn(e: ChildEntry, es: seq<ChildEntry>) {
    exists j :: 0 <= j < |es| && Grew(e, es[j])
  }

  /** No record is removed, replaced or refunded, and direct usage only grows. */
  predicate Retains(a: Account, b: Account) {
    && b == a.(directHead := b.directHead, directUsage := b.directUsage, children := b.children)
    && MonotonicAfter(b.directUsage, a.directUsage)
    && forall i :: 0 <= i < |a.children| ==> KeptIn(a.children[i], b.children)
  }

  lemma MonotonicReflexive(u: BudgetUsage)
    ensures MonotonicAfter(u, u)
  {
    MonotonicExact(u, u);
  }

  lemma {:induction false} RetainsReflexive(a: Account)
    ensures Retains(a, a)
  {
    MonotonicReflexive(a.directUsage);
    forall i | 0 <= i < |a.children| ensures KeptIn(a.children[i], a.children) {
      assert Grew(a.children[i], a.children[i]);
    }
  }

  lemma {:induction false} RetainsTransitive(a: Account, b: Account, c: Account)
    requires Retains(a, b) && Retains(b, c)
    ensures Retains(a, c)
  {
    MonotonicTransitive(a.directUsage, b.directUsage, c.directUsage);
    forall i | 0 <= i < |a.children| ensures KeptIn(a.children[i], c.children) {
      assert KeptIn(a.children[i], b.children);
      var j :| 0 <= j < |b.children| && Grew(a.children[i], b.children[j]);
      assert KeptIn(b.children[j], c.children);
      var k :| 0 <= k < |c.children| && Grew(b.children[j], c.children[k]);
      assert Grew(a.children[i], c.children[k]);
    }
  }

  lemma {:induction false} SealIndex(a: Account, i: nat) returns (j: nat)
    requires Seal(a).Some? && i < |a.children|
    ensures j < |Seal(a).value.children| && Seal(a).value.children[j] == a.children[i]
  {
    SealKeeps(a);
    j := SameElement(a.children, Seal(a).value.children, i);
  }

  lemma {:induction false} SealFunded(a: Account)
    requires Seal(a).Some? && Funded(a)
    ensures Funded(Seal(a).value)
  {
    var b := Seal(a).value;
    assert multiset(b.children) == multiset(a.children) && b == a.(children := b.children) by { SealKeeps(a); }
    forall j | 0 <= j < |b.children| ensures FundedEntry(b, b.children[j]) {
      var i := SameElement(b.children, a.children, j);
      assert FundedEntry(a, a.children[i]);
    }
  }

  lemma {:induction false} SealRetains(a: Account, x: Account)
    requires Seal(x).Some? && Retains(a, x)
    ensures Retains(a, Seal(x).value)
  {
    var b := Seal(x).value;
    SealKeeps(x);
    forall i | 0 <= i < |a.children| ensures KeptIn(a.children[i], b.children) {
      assert KeptIn(a.children[i], x.children);
      var j :| 0 <= j < |x.children| && Grew(a.children[i], x.children[j]);
      var k := SealIndex(x, j);
      assert Grew(a.children[i], b.children[k]);
    }
  }

  /** What holds of an account after a transition, besides being covered. */
  ghost predicate Continues(a: Account, b: Account) {
    ValidAccount(b) && Retains(a, b) && (Funded(a) ==> Funded(b))
  }

  lemma {:induction false} SealContinues(a: Account, x: Account)
    requires Seal(x).Some? && Retains(a, x) && (Funded(a) ==> Funded(x))
    ensures Continues(a, Seal(x).value)
  {
    SealKeeps(x);
    SealRetains(a, x);
    if Funded(a) { SealFunded(x); }
  }

  lemma {:induction false} EnlargedRetains(a: Account, c: ChildIntent, g: CompiledGraph)
    requires Valid(c.child.budget) && Built(c) && OwnsIntent(a, c, g)
    ensures Retains(a, Enlarged(a, c)) && (Funded(a) ==> Funded(Enlarged(a, c)))
  {
    var b := Enlarged(a, c);
    MonotonicReflexive(a.directUsage);
    if Funded(a) {
      forall j | 0 <= j < |b.children| ensures FundedEntry(b, b.children[j]) {
        if j < |a.children| { assert FundedEntry(a, a.children[j]); }
      }
    }
    forall i | 0 <= i < |a.children| ensures KeptIn(a.children[i], b.children) {
      assert b.children[i] == a.children[i];
      assert Grew(a.children[i], b.children[i]);
    }
  }

  lemma {:induction false} SettlementRetains(a: Account, i: nat, s: Settlement)
    requires i < |a.children| && a.children[i].settlement.None?
    ensures Retains(a, WithSettlement(a, i, s)) && (Funded(a) ==> Funded(WithSettlement(a, i, s)))
  {
    var b := WithSettlement(a, i, s);
    MonotonicReflexive(a.directUsage);
    forall j | 0 <= j < |a.children| ensures KeptIn(a.children[j], b.children) {
      assert Grew(a.children[j], b.children[j]);
    }
    if Funded(a) {
      forall j | 0 <= j < |b.children| ensures FundedEntry(b, b.children[j]) { assert FundedEntry(a, a.children[j]); }
    }
  }

  lemma {:induction false} ObservedRetains(a: Account, head: JournalHead, usage: BudgetUsage)
    requires MonotonicAfter(usage, a.directUsage)
    ensures var b := a.(directHead := head, directUsage := usage); Retains(a, b) && (Funded(a) ==> Funded(b))
  {}

  // ----- steps ----------------------------------------------------------------

  datatype Step =
    | Reserving(c: ChildIntent, g: CompiledGraph, t: Timestamp)
    | Settling(key: ChildRunKey, s: Settlement)
    | Observing(head: JournalHead, usage: BudgetUsage)

  /** Child intents as the source's type admits them. */
  predicate StepTyped(step: Step) {
    step.Reserving? ==> Built(step.c) && Valid(step.c.child.budget)
  }

  function Apply(a: Account, step: Step): Option<Account>
    requires ValidAccount(a) && StepTyped(step)
  {
    match step
    case Reserving(c, g, t) => Reserve(a, c, g, t)
    case Settling(key, s) => Settle(a, key, s)
    case Observing(head, usage) => Observe(a, head, usage)
  }

  /** A refusal leaves the account unchanged. */
  ghost predicate Moves(a: Account, step: Step, b: Account) {
    ValidAccount(a) && StepTyped(step) && b == match Apply(a, step) case Some(c) => c case None => a
  }

  lemma {:induction false} StepContinues(a: Account, step: Step, b: Account)
    requires Moves(a, step, b)
    ensures Continues(a, b)
  {
    if a == b {
      RetainsReflexive(a);
    } else {
      match step
      case Reserving(c, g, t) =>
        ReserveCovers(a, c, g, t);
        EnlargedRetains(a, c, g);
        SealContinues(a, Enlarged(a, c));
      case Settling(key, s) =>
        var i := IndexOf(a.children, key);
        SettlementRetains(a, i, s);
        SealContinues(a, WithSettlement(a, i, s));
      case Observing(head, usage) =>
        ObservedRetains(a, head, usage);
        SealContinues(a, a.(directHead := head, directUsage := usage));
    }
  }

  // ----- when a step keeps the account covered --------------------------------

  lemma {:induction false} WithoutClaimable(es: seq<ChildEntry>, i: nat)
    requires Claimable(es) && i < |es|
    ensures Claimable(Without(es, i))
  {
    var rest := Without(es, i);
    forall j | 0 <= j < |rest| ensures IsReservation(Claim(rest[j])) {
      assert rest[j] == if j < i then es[j] else es[j + 1];
    }
  }

  /** The check a caller can make before recording direct usage: that usage with
      what was delegated, beside the outstanding ceilings. */
  predicate ObserveGuard(a: Account, usage: BudgetUsage, t: Timestamp)
    requires Claimable(a.children)
  {
    SplitReservations(a.children);
    Check(a.budget, Join(Some(usage), Delegated(a.children)), Outstanding(a.children), t).Some?
  }

  /** The check a caller can make before settling a child: accounted usage with
      the child's, beside the ceilings of the other outstanding children. */
  predicate SettleGuard(a: Account, i: nat, s: Settlement, t: Timestamp)
    requires Claimable(a.children) && i < |a.children|
  {
    WithoutClaimable(a.children, i);
    SplitReservations(Without(a.children, i));
    var accounted := Join(AccountedUsage(a), Some(CumulativeOnly(s.usage)));
    Check(a.budget, accounted, Outstanding(Without(a.children, i)), t).Some?
  }

  /** A reservation needs none, since it makes its own; neither does the retry of
      a settlement. */
  predicate Guard(a: Account, step: Step, t: Timestamp)
    requires Claimable(a.children)
  {
    match step
    case Reserving(_, _, _) => true
    case Settling(key, s) =>
      var i := IndexOf(a.children, key); i >= 0 && a.children[i].settlement.None? ==> SettleGuard(a, i, s, t)
    case Observing(_, usage) => ObserveGuard(a, usage, t)
  }

  lemma {:induction false} ObserveGuardExact(a: Account, usage: BudgetUsage, t: Timestamp)
    requires Claimable(a.children) && |a.children| <= MAX_ACCOUNT_CHILDREN && t < a.budget.deadline
    ensures Fits(a.budget, usage, Claims(a.children)) <==> ObserveGuard(a, usage, t)
  {
    SplitReservations(a.children);
    CoveredSplit(a.(directUsage := usage));
    CheckExact(a.budget, usage, Settled(a.children), Outstanding(a.children), t);
  }

  lemma {:induction false} ObservedCovered(a: Account, head: JournalHead, usage: BudgetUsage)
    requires Observe(a, head, usage).Some?
    ensures Covered(Observe(a, head, usage).value) <==> Fits(a.budget, usage, Claims(a.children))
  {
    var x := a.(directHead := head, directUsage := usage);
    if Observe(a, head, usage) == Seal(x) { SealKeeps(x); }
  }

  lemma {:induction false} SettledWithout(es: seq<ChildEntry>, i: nat)
    requires i < |es| && es[i].settlement.None?
    ensures Settled(Without(es, i)) == Settled(es)
  {
    var n := |es| - 1;
    if i < n {
      assert Without(es, i)[..n - 1] == Without(es[..n], i) && Without(es, i)[n - 1] == es[n];
      SettledWithout(es[..n], i);
    } else {
      assert Without(es, i) == es[..n];
      SplitSnoc(es);
    }
  }

  /** Everything claimed once a child is settled. */
  lemma {:induction false} SettlementSplit(a: Account, i: nat, s: Settlement)
    requires i < |a.children| && a.children[i].settlement.None?
    ensures var rest := Without(a.children, i);
            var all := Settled(rest) + [CumulativeOnly(s.usage)] + Outstanding(rest);
            Covered(WithSettlement(a, i, s)) <==> Fits(a.budget, a.directUsage, all)
  {
    var rest, only := Without(a.children, i), CumulativeOnly(s.usage);
    var cs := Claims(WithSettlement(a, i, s).children);
    var all := Settled(rest) + [only] + Outstanding(rest);
    assert Without(cs, i) == Claims(rest) && cs[i] == only;
    forall m | IsMeasure(m) ensures Total(a.directUsage, cs, m) == Total(a.directUsage, all, m) {
      SumWithout(cs, i, m);
      SplitSum(rest, m);
      SumSnoc(Settled(rest), only, m);
      SumConcat(Settled(rest) + [only], Outstanding(rest), m);
    }
    forall c ensures Mentions(a.directUsage, cs, c) == Mentions(a.directUsage, all, c) {
      AnyHasWithout(cs, i, c);
      SplitAnyHas(rest, c);
      AnyHasSnoc(Settled(rest), only, c);
      AnyHasConcat(Settled(rest) + [only], Outstanding(rest), c);
    }
    SameFits(a.budget, a.directUsage, cs, all);
    SameFits(a.budget, a.directUsage, all, cs);
  }

  lemma {:induction false} SettleGuardExact(a: Account, i: nat, s: Settlement, t: Timestamp)
    requires Claimable(a.children) && |a.children| <= MAX_ACCOUNT_CHILDREN && t < a.budget.deadline
    requires i < |a.children| && a.children[i].settlement.None? && IsReservation(CumulativeOnly(s.usage))
    ensures Covered(WithSettlement(a, i, s)) <==> SettleGuard(a, i, s, t)
  {
    var rest, only := Without(a.children, i), CumulativeOnly(s.usage);
    SettlementSplit(a, i, s);
    SettledWithout(a.children, i);
    WithoutClaimable(a.children, i);
    SplitReservations(rest);
    ReservationsSnoc(Settled(rest), only);
    CheckExact(a.budget, a.directUsage, Settled(rest) + [only], Outstanding(rest), t);
    JoinSnoc(a.directUsage, Settled(rest), only);
  }

  lemma {:induction false} JoinSnoc(start: BudgetUsage, us: seq<BudgetUsage>, u: BudgetUsage)
    ensures Join(Some(start), AccumulateAll(Zero(), us + [u])) ==
            Join(Join(Some(start), AccumulateAll(Zero(), us)), Some(u))
  {
    FoldShift(start, us);
    FoldShift(start, us + [u]);
    assert (us + [u])[..|us|] == us;
  }

  lemma {:induction false} SettledCovered(a: Account, key: ChildRunKey, s: Settlement)
    requires Settle(a, key, s).Some?
    ensures var i := IndexOf(a.children, key);
            if a.children[i].settlement.Some? then Settle(a, key, s) == Some(a)
            else Covered(Settle(a, key, s).value) <==> Covered(WithSettlement(a, i, s))
    ensures IsReservation(CumulativeOnly(s.usage))
  {
    var i := IndexOf(a.children, key);
    if a.children[i].settlement.None? { SealKeeps(WithSettlement(a, i, s)); }
  }

  lemma {:induction false} SettleExact(a: Account, key: ChildRunKey, s: Settlement, t: Timestamp)
    requires Claimable(a.children) && |a.children| <= MAX_ACCOUNT_CHILDREN && t < a.budget.deadline
    requires Settle(a, key, s).Some?
    ensures var i := IndexOf(a.children, key);
            && i >= 0
            && if a.children[i].settlement.Some? then Settle(a, key, s) == Some(a)
               else Covered(Settle(a, key, s).value) <==> SettleGuard(a, i, s, t)
  {
    SettledCovered(a, key, s);
    var i := IndexOf(a.children, key);
    if a.children[i].settlement.None? { SettleGuardExact(a, i, s, t); }
  }

  /** An accepted step keeps a covered account covered exactly when its guard, a
      capacity check on values the caller has before the call, succeeds. */
  lemma {:induction false} StepCovered(a: Account, step: Step, b: Account, t: Timestamp)
    requires ValidAccount(a) && StepTyped(step) && Covered(a) && t < a.budget.deadline
    requires Apply(a, step) == Some(b)
    ensures Claimable(a.children) && (Covered(b) <==> Guard(a, step, t))
  {
    ValidClaimable(a);
    match step
    case Reserving(c, g, _) => if IndexOf(a.children, c.key) < 0 { ReserveCovers(a, c, g, step.t); }
    case Settling(key, s) => SettleExact(a, key, s, t);
    case Observing(head, usage) =>
      ObservedCovered(a, head, usage);
      ObserveGuardExact(a, usage, t);
  }

  // ----- safety over whole runs -----------------------------------------------

  ghost predicate IsAccountRun(states: seq<Account>, steps: seq<Step>) {
    && |states| == |steps| + 1
    && ValidAccount(states[0])
    && forall i :: 0 <= i < |steps| ==> Moves(states[i], steps[i], states[i + 1])
  }

  lemma {:induction false} ContinuesTransitive(a: Account, b: Account, c: Account)
    ensures Continues(a, b) && Continues(b, c) ==> Continues(a, c)
  {
    if Continues(a, b) && Continues(b, c) { RetainsTransitive(a, b, c); }
  }

  lemma {:induction false} RunStep(states: seq<Account>, steps: seq<Step>, k: nat)
    requires IsAccountRun(states, steps) && 0 < k < |states|
    ensures Continues(states[k - 1], states[k])
  {
    StepContinues(states[k - 1], steps[k - 1], states[k]);
  }

  lemma {:induction false} RunValid(states: seq<Account>, steps: seq<Step>, i: nat)
    requires IsAccountRun(states, steps) && i < |states|
    ensures ValidAccount(states[i])
  {
    if i > 0 { RunStep(states, steps, i); }
  }

  /** Along every run, whatever was refused: records are only added, settlements
      only once, and direct usage never regresses. */
  lemma {:induction false} RunRetains(states: seq<Account>, steps: seq<Step>, i: nat, j: nat)
    requires IsAccountRun(states, steps) && i <= j < |states|
    ensures Continues(states[i], states[j])
  {
    var r := (a: Account, b: Account) => Continues(a, b);
    RunValid(states, steps, i);
    RetainsReflexive(states[i]);
    forall a, b, c ensures r(a, b) && r(b, c) ==> r(a, c) { ContinuesTransitive(a, b, c); }
    forall k | 0 < k < |states| ensures r(states[k - 1], states[k]) { RunStep(states, steps, k); }
    Related(r, states, i, j);
  }

  /** Everything that is true of an account whose promises are kept. */
  ghost predicate Sound(a: Account) {
    ValidAccount(a) && Funded(a) && Covered(a)
  }

  /** The guard holds whenever the step is accepted. */
  ghost predicate Passes(a: Account, step: Step, t: Timestamp) {
    && ValidAccount(a) && StepTyped(step) && Claimable(a.children) && t < a.budget.deadline
    && (Apply(a, step).Some? ==> Guard(a, step, t))
  }

  ghost predicate AllCovered(states: seq<Account>) {
    forall i :: 0 <= i < |states| ==> Covered(states[i])
  }

  /** One clock per step, before the deadline. */
  ghost predicate Clocked(states: seq<Account>, clocks: seq<Timestamp>) {
    |states| == |clocks| + 1 && forall k :: 0 <= k < |clocks| ==> clocks[k] < states[k].budget.deadline
  }

  ghost predicate AllPass(states: seq<Account>, steps: seq<Step>, clocks: seq<Timestamp>) {
    && |states| == |steps| + 1 == |clocks| + 1
    && forall k :: 0 <= k < |steps| ==> Passes(states[k], steps[k], clocks[k])
  }

  lemma {:induction false} PassingStep(a: Account, step: Step, b: Account, t: Timestamp)
    requires Moves(a, step, b) && Covered(a) && t < a.budget.deadline
    ensures Covered(b) <==> Passes(a, step, t)
  {
    ValidClaimable(a);
    if Apply(a, step).Some? { StepCovered(a, step, b, t); }
  }

  /** In every run from a covered account, direct usage, settled usage and all
      outstanding ceilings fit the parent's budget in every state exactly when
      every accepted step passed its guard. */
  lemma {:induction false} RunCovered(states: seq<Account>, steps: seq<Step>, clocks: seq<Timestamp>)
    requires IsAccountRun(states, steps) && Clocked(states, clocks) && Covered(states[0])
    ensures AllCovered(states) <==> AllPass(states, steps, clocks)
  {
    if AllCovered(states) {
      forall k | 0 <= k < |steps| ensures Passes(states[k], steps[k], clocks[k]) {
        PassingStep(states[k], steps[k], states[k + 1], clocks[k]);
      }
    }
    if AllPass(states, steps, clocks) {
      var p := (a: Account) => Covered(a);
      forall k | 0 < k < |states| && p(states[k - 1]) ensures p(states[k]) {
        PassingStep(states[k - 1], steps[k - 1], states[k], clocks[k - 1]);
      }
      forall i | 0 <= i < |states| ensures Covered(states[i]) { Invariant(p, states, i); }
    }
  }

  /** A settlement the child's own budget accepts passes its guard. */
  lemma {:induction false} OwnBudgetPasses(a: Account, key: ChildRunKey, s: Settlement, at: Timestamp, t: Timestamp)
    requires Sound(a) && t < a.budget.deadline && Remaining(s.intentDigest.budget, s.usage, at).Some?
    ensures Passes(a, Settling(key, s), t)
  {
    ValidClaimable(a);
    var i := IndexOf(a.children, key);
    if Settle(a, key, s).Some? && a.children[i].settlement.None? {
      SettleAccepted(a, key, s, at);
      SettleExact(a, key, s, t);
    }
  }

  /** Settlements are accepted by the child's own budget, and direct usage passes
      the capacity check. */
  ghost predicate Disciplined(a: Account, step: Step, t: Timestamp) {
    match step
    case Reserving(_, _, _) => true
    case Settling(_, s) => exists at: Timestamp :: Remaining(s.intentDigest.budget, s.usage, at).Some?
    case Observing(_, usage) => Claimable(a.children) && ObserveGuard(a, usage, t)
  }

  ghost predicate RunDisciplined(states: seq<Account>, steps: seq<Step>, clocks: seq<Timestamp>) {
    && |states| == |steps| + 1 == |clocks| + 1
    && forall k :: 0 <= k < |steps| ==> Disciplined(states[k], steps[k], clocks[k])
  }

  lemma {:induction false} DisciplinedPasses(a: Account, step: Step, t: Timestamp)
    requires Sound(a) && StepTyped(step) && t < a.budget.deadline && Disciplined(a, step, t)
    ensures Passes(a, step, t)
  {
    ValidClaimable(a);
    if step.Settling? {
      var at: Timestamp :| Remaining(step.s.intentDigest.budget, step.s.usage, at).Some?;
      OwnBudgetPasses(a, step.key, step.s, at, t);
    }
  }

  lemma {:induction false} SoundStep(a: Account, step: Step, b: Account, t: Timestamp)
    requires Moves(a, step, b) && Disciplined(a, step, t) && t < a.budget.deadline && Sound(a)
    ensures Sound(b)
  {
    StepContinues(a, step, b);
    DisciplinedPasses(a, step, t);
    PassingStep(a, step, b, t);
  }

  /** So a parent whose children stay within their own budgets, and which checks
      capacity before it spends, is never over its budget in any run. */
  lemma {:induction false} RunSound(states: seq<Account>, steps: seq<Step>, clocks: seq<Timestamp>, i: nat)
    requires IsAccountRun(states, steps) && Clocked(states, clocks) && RunDisciplined(states, steps, clocks)
    requires Sound(states[0]) && i < |states|
    ensures Sound(states[i])
  {
    var p := (a: Account) => Sound(a);
    forall k | 0 < k < |states| && p(states[k - 1]) ensures p(states[k]) {
      SoundStep(states[k - 1], steps[k - 1], states[k], clocks[k - 1]);
    }
    Invariant(p, states, i);
  }

  /** A sound account reports capacity at every current clock before the
      deadline: what is left is the budget less everything charged. */
  lemma {:induction false} SoundHasCapacity(a: Account, t: Timestamp)
    requires Sound(a) && ClockCurrent(a, t) && t < a.budget.deadline
    ensures Claimable(a.children) && RemainingOf(a, t).Some?
    ensures LeftOver(RemainingOf(a, t).value, a.budget, a.directUsage, Claims(a.children))
  {
    ValidClaimable(a);
    RemainingCovered(a, t);
  }

  // ----- accounted usage ------------------------------------------------------

  /** The settled part of an entry's charge. */
  function SettledQuantity(e: ChildEntry, m: Measure): int
    requires IsMeasure(m)
  {
    if e.settlement.Some? then Quantity(Claim(e), m) else 0
  }

  function SettledSum(es: seq<ChildEntry>, m: Measure): int
    requires IsMeasure(m)
  {
    if es == [] then 0 else SettledSum(es[..|es| - 1], m) + SettledQuantity(es[|es| - 1], m)
  }

  lemma {:induction false} SettledSumExact(es: seq<ChildEntry>, m: Measure)
    requires IsMeasure(m)
    ensures Sum(Settled(es), m) == SettledSum(es, m)
  {
    if es != [] {
      var n := |es| - 1;
      SettledSumExact(es[..n], m);
      SplitSnoc(es);
      SumSnoc(Settled(es[..n]), Claim(es[n]), m);
    }
  }

  lemma {:induction false} SettledSumWithout(es: seq<ChildEntry>, i: nat, m: Measure)
    requires IsMeasure(m) && i < |es|
    ensures SettledSum(es, m) == SettledSum(Without(es, i), m) + SettledQuantity(es[i], m)
  {
    var n := |es| - 1;
    if i < n {
      assert Without(es, i)[..n - 1] == Without(es[..n], i);
      SettledSumWithout(es[..n], i, m);
    } else {
      assert Without(es, i) == es[..n];
    }
  }

  lemma {:induction false} SettledSumPermuted(x: seq<ChildEntry>, y: seq<ChildEntry>, m: Measure)
    requires IsMeasure(m) && multiset(x) == multiset(y)
    ensures SettledSum(x, m) == SettledSum(y, m)
    decreases |x|
  {
    SameLength(x, y);
    if x != [] {
      var n := |x| - 1;
      var j := SameElement(x, y, n);
      MultisetWithout(x, y, j);
      SettledSumPermuted(x[..n], Without(y, j), m);
      SettledSumWithout(y, j, m);
    }
  }

  /** No less settled or directly used of anything. */
  ghost predicate AccountsForAtLeast(b: Account, a: Account) {
    forall m :: IsMeasure(m) ==>
      Quantity(a.directUsage, m) + SettledSum(a.children, m) <= Quantity(b.directUsage, m) + SettledSum(b.children, m)
  }

  lemma {:induction false} SealAccounts(a: Account, x: Account)
    requires Seal(x).Some? && AccountsForAtLeast(x, a)
    ensures AccountsForAtLeast(Seal(x).value, a)
  {
    var b := Seal(x).value;
    SealKeeps(x);
    forall m | IsMeasure(m) ensures SettledSum(b.children, m) == SettledSum(x.children, m) {
      SettledSumPermuted(x.children, b.children, m);
    }
  }

  lemma {:induction false} EnlargedAccounts(a: Account, c: ChildIntent)
    requires Valid(c.child.budget)
    ensures AccountsForAtLeast(Enlarged(a, c), a)
  {}

  lemma {:induction false} SettlementAccounts(a: Account, i: nat, s: Settlement)
    requires i < |a.children| && a.children[i].settlement.None?
    ensures AccountsForAtLeast(WithSettlement(a, i, s), a)
  {
    var es, fs := a.children, WithSettlement(a, i, s).children;
    assert Without(fs, i) == Without(es, i);
    forall m | IsMeasure(m) ensures SettledSum(es, m) <= SettledSum(fs, m) {
      SettledSumWithout(es, i, m);
      SettledSumWithout(fs, i, m);
      QuantityNatural(Claim(fs[i]), m);
    }
  }

  lemma {:induction false} ObservedAccounts(a: Account, head: JournalHead, usage: BudgetUsage)
    requires MonotonicAfter(usage, a.directUsage)
    ensures AccountsForAtLeast(a.(directHead := head, directUsage := usage), a)
  {
    MonotonicExact(usage, a.directUsage);
    forall m | IsMeasure(m) ensures Quantity(a.directUsage, m) <= Quantity(usage, m) {
      if m.Count? { assert a.directUsage.counts[m.d] <= usage.counts[m.d]; }
    }
  }

  lemma {:induction false} StepAccounts(a: Account, step: Step, b: Account)
    requires Moves(a, step, b)
    ensures AccountsForAtLeast(b, a)
  {
    if a != b {
      match step
      case Reserving(c, g, t) =>
        ReserveCovers(a, c, g, t);
        EnlargedAccounts(a, c);
        SealAccounts(a, Enlarged(a, c));
      case Settling(key, s) =>
        var i := IndexOf(a.children, key);
        SettlementAccounts(a, i, s);
        SealAccounts(a, WithSettlement(a, i, s));
      case Observing(head, usage) =>
        ObservedAccounts(a, head, usage);
        SealAccounts(a, a.(directHead := head, directUsage := usage));
    }
  }

  lemma {:induction false} AccountedHolds(a: Account, m: Measure)
    requires ValidAccount(a) && IsMeasure(m)
    ensures Quantity(AccountedUsage(a).value, m) == Quantity(a.directUsage, m) + SettledSum(a.children, m)
    ensures AccountedUsage(a).value.unpriced == a.directUsage.unpriced
  {
    ValidClaimable(a);
    SplitReservations(a.children);
    FoldShift(a.directUsage, Settled(a.children));
    FoldTotals(a.directUsage, Settled(a.children));
    SettledSumExact(a.children, m);
  }

  lemma {:induction false} AccountedMonotonic(a: Account, b: Account)
    requires ValidAccount(a) && ValidAccount(b) && AccountsForAtLeast(b, a)
    requires MonotonicAfter(b.directUsage, a.directUsage)
    ensures MonotonicAfter(AccountedUsage(b).value, AccountedUsage(a).value)
  {
    var u, v := AccountedUsage(a).value, AccountedUsage(b).value;
    forall m | IsMeasure(m) ensures Quantity(u, m) <= Quantity(v, m) {
      AccountedHolds(a, m);
      AccountedHolds(b, m);
    }
    AccountedHolds(a, Count(0));
    AccountedHolds(b, Count(0));
    forall d | 0 <= d < DIMENSIONS ensures u.counts[d] <= v.counts[d] {
      assert Quantity(u, Count(d)) <= Quantity(v, Count(d));
    }
    forall c ensures Costs.Amount(u.costs, c) <= Costs.Amount(v.costs, c) {
      assert Quantity(u, Cash(c)) <= Quantity(v, Cash(c));
    }
    MonotonicExact(v, u);
  }

  /** Accounted usage, direct and settled, never regresses along any run. */
  lemma {:induction false} RunAccounted(states: seq<Account>, steps: seq<Step>, i: nat, j: nat)
    requires IsAccountRun(states, steps) && i <= j < |states|
    ensures AccountedUsage(states[i]).Some? && AccountedUsage(states[j]).Some?
    ensures MonotonicAfter(AccountedUsage(states[j]).value, AccountedUsage(states[i]).value)
  {
    var r := (a: Account, b: Account) => AccountsForAtLeast(b, a);
    forall a, b, c ensures r(a, b) && r(b, c) ==> r(a, c) { AccountsTransitive(a, b, c); }
    forall k | 0 < k < |states| ensures r(states[k - 1], states[k]) {
      StepAccounts(states[k - 1], steps[k - 1], states[k]);
    }
    Related(r, states, i, j);
    RunRetains(states, steps, i, j);
    RunValid(states, steps, i);
    AccountedMonotonic(states[i], states[j]);
  }

  lemma {:induction false} AccountsTransitive(a: Account, b: Account, c: Account)
    ensures AccountsForAtLeast(b, a) && AccountsForAtLeast(c, b) ==> AccountsForAtLeast(c, a)
  {}

  lemma {:induction false} SumNatural(us: seq<BudgetUsage>, m: Measure)
    requires IsMeasure(m)
    ensures 0 <= Sum(us, m)
  {
    if us != [] {
      SumNatural(us[..|us| - 1], m);
      QuantityNatural(us[|us| - 1], m);
    }
  }

  lemma {:induction false} SettledFits(a: Account)
    requires Covered(a)
    ensures Fits(a.budget, a.directUsage, Settled(a.children))
  {
    var settled, outstanding := Settled(a.children), Outstanding(a.children);
    var all := settled + outstanding;
    CoveredSplit(a);
    forall m | IsMeasure(m) ensures Total(a.directUsage, settled, m) <= Limit(a.budget, m) {
      SumConcat(settled, outstanding, m);
      SumNatural(outstanding, m);
      assert Total(a.directUsage, all, m) <= Limit(a.budget, m);
    }
    forall c | Mentions(a.directUsage, settled, c) ensures Costs.Has(a.budget.costs, c) {
      AnyHasConcat(settled, outstanding, c);
      assert Mentions(a.directUsage, all, c);
    }
  }

  /** What a sound account reports as used, its own budget accepts: a child that
      keeps such an account can be settled in its parent's. */
  lemma {:induction false} SoundUsageAccepted(a: Account, t: Timestamp)
    requires Sound(a) && t < a.budget.deadline
    ensures AccountedUsage(a).Some? && Remaining(a.budget, AccountedUsage(a).value, t).Some?
  {
    var settled := Settled(a.children);
    ValidClaimable(a);
    SplitReservations(a.children);
    SettledFits(a);
    FoldShift(a.directUsage, settled);
    FoldTotals(a.directUsage, settled);
    HeldFits(a.budget, AccountedUsage(a).value, a.directUsage, settled, t);
  }

  // ----- overruns -------------------------------------------------------------

  /** Accounted usage is over some limit, or something in it is unpriced. */
  ghost predicate Exceeds(a: Account) {
    && AccountedUsage(a).Some?
    && var u := AccountedUsage(a).value;
       u.unpriced > 0 || exists m :: IsMeasure(m) && Limit(a.budget, m) < Quantity(u, m)
  }

  lemma {:induction false} ExceedsUncovered(a: Account)
    requires ValidAccount(a) && Exceeds(a)
    ensures !Covered(a)
  {
    if Covered(a) {
      SettledFits(a);
      forall m | IsMeasure(m) ensures Quantity(AccountedUsage(a).value, m) <= Limit(a.budget, m) {
        AccountedHolds(a, m);
        SettledSumExact(a.children, m);
        assert Total(a.directUsage, Settled(a.children), m) <= Limit(a.budget, m);
      }
      AccountedHolds(a, Count(0));
    }
  }

  lemma {:induction false} ExceedsKept(a: Account, b: Account)
    requires Exceeds(a) && AccountedUsage(b).Some? && b.budget == a.budget
    requires MonotonicAfter(AccountedUsage(b).value, AccountedUsage(a).value)
    ensures Exceeds(b)
  {
    var u, v := AccountedUsage(a).value, AccountedUsage(b).value;
    MonotonicExact(v, u);
    if u.unpriced == 0 {
      var m :| IsMeasure(m) && Limit(a.budget, m) < Quantity(u, m);
      if m.Count? { assert u.counts[m.d] <= v.counts[m.d]; }
      assert Quantity(u, m) <= Quantity(v, m);
    }
  }

  /** Once accounted usage exceeds the budget, no new child is admitted in that
      state or in any later one, whatever happens in between. */
  lemma {:induction false} OverrunBlocksForever(states: seq<Account>, steps: seq<Step>, i: nat, j: nat,
                                                c: ChildIntent, g: CompiledGraph, t: Timestamp)
    requires IsAccountRun(states, steps) && i <= j < |states| && Exceeds(states[i])
    requires ValidAccount(states[j]) && Valid(c.child.budget) && IndexOf(states[j].children, c.key) < 0
    ensures Reserve(states[j], c, g, t).None?
  {
    RunAccounted(states, steps, i, j);
    RunRetains(states, steps, i, j);
    ExceedsKept(states[i], states[j]);
    ExceedsUncovered(states[j]);
    OverrunBlocks(states[j], c, g, t);
  }

  // ----- retries --------------------------------------------------------------

  lemma {:induction false} UniqueKey(a: Account, i: nat)
    requires ValidAccount(a) && i < |a.children|
    ensures IndexOf(a.children, a.children[i].key) == i
  {}

  /** Once a child was reserved, its exact retry returns any later account
      unchanged at any clock, and every other spawn under its key is refused. */
  lemma {:induction false} ReserveRetried(a: Account, c: ChildIntent, g: CompiledGraph, t: Timestamp,
                                          later: Account, d: ChildIntent, t2: Timestamp)
    requires ValidAccount(a) && Valid(c.child.budget) && Reserve(a, c, g, t).Some?
    requires ValidAccount(later) && Retains(Reserve(a, c, g, t).value, later)
    requires Valid(d.child.budget) && d.key == c.key
    ensures Reserve(later, c, g, t2) == Some(later)
    ensures d.spawnDigest != c.spawnDigest ==> Reserve(later, d, g, t2).None?
  {
    var i := ReservedIndex(a, c, g, t);
    var j := KeptIndex(Reserve(a, c, g, t).value, i, later);
    ReserveHeld(later, j, c, g, t2);
    ReserveHeld(later, j, d, g, t2);
  }

  lemma {:induction false} KeptIndex(b: Account, i: nat, later: Account) returns (j: nat)
    requires Retains(b, later) && i < |b.children|
    ensures j < |later.children| && Grew(b.children[i], later.children[j])
  {
    assert KeptIn(b.children[i], later.children);
    j :| 0 <= j < |later.children| && Grew(b.children[i], later.children[j]);
  }

  /** A spawn under a key already held is decided by its checksum alone. */
  lemma {:induction false} ReserveHeld(a: Account, i: nat, c: ChildIntent, g: CompiledGraph, t: Timestamp)
    requires ValidAccount(a) && Valid(c.child.budget) && i < |a.children| && a.children[i].key == c.key
    ensures Reserve(a, c, g, t) ==
            if OwnsIntent(a, c, g) && a.children[i].spawnDigest == c.spawnDigest then Some(a) else None
  {
    UniqueKey(a, i);
  }

  lemma {:induction false} ReservedIndex(a: Account, c: ChildIntent, g: CompiledGraph, t: Timestamp) returns (i: nat)
    requires ValidAccount(a) && Valid(c.child.budget) && Reserve(a, c, g, t).Some?
    ensures var b := Reserve(a, c, g, t).value;
            && i < |b.children| && b.children[i].key == c.key && b.children[i].spawnDigest == c.spawnDigest
            && OwnsIntent(b, c, g)
  {
    var k := IndexOf(a.children, c.key);
    if k >= 0 {
      i := k;
    } else {
      ReserveCovers(a, c, g, t);
      SealKeeps(Enlarged(a, c));
      i := SealIndex(Enlarged(a, c), |a.children|);
    }
  }

  /** Once a child was settled, the same evidence is accepted again and any
      other evidence is refused, in every later account. */
  lemma {:induction false} SettleRetried(a: Account, key: ChildRunKey, s: Settlement, later: Account, s2: Settlement)
    requires ValidAccount(a) && Settle(a, key, s).Some?
    requires ValidAccount(later) && Retains(Settle(a, key, s).value, later)
    ensures Settle(later, key, s) == Some(later)
    ensures s2 != s ==> Settle(later, key, s2).None?
  {
    var i := SettledIndex(a, key, s);
    var j := KeptIndex(Settle(a, key, s).value, i, later);
    SettleHeld(later, j, s);
    SettleHeld(later, j, s2);
  }

  /** Evidence for a child already settled is decided by comparison alone. */
  lemma {:induction false} SettleHeld(a: Account, i: nat, s: Settlement)
    requires ValidAccount(a) && i < |a.children| && a.children[i].settlement.Some?
    ensures Settle(a, a.children[i].key, s) ==
            if Settles(a, a.children[i], s) && a.children[i].settlement.value == s then Some(a) else None
  {
    UniqueKey(a, i);
  }

  lemma {:induction false} SettledIndex(a: Account, key: ChildRunKey, s: Settlement) returns (i: nat)
    requires ValidAccount(a) && Settle(a, key, s).Some?
    ensures var b := Settle(a, key, s).value;
            && i < |b.children| && b.children[i].key == key && b.children[i].settlement == Some(s)
            && Settles(b, b.children[i], s)
  {
    var k := IndexOf(a.children, key);
    if a.children[k].settlement.Some? {
      i := k;
    } else {
      SealKeeps(WithSettlement(a, k, s));
      i := SealIndex(WithSettlement(a, k, s), k);
    }
  }
}
