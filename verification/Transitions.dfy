/**
  When each account transition is accepted, and what it leaves
  (child_run_budget.rs).

  The conditions are on the fields of the account and of what is presented to it;
  every transition is decided by its own, whole.
 */
module Transitions {
  import opened Prelude
  import opened Usage
  import opened Budgets
  import opened Reservations
  import opened Checkpoints
  import opened Admission
  import opened Delegation
  import opened Accounts
  import opened Ledger

  // ----- capacity -------------------------------------------------------------

  /** No evidence on the account is from after the clock. */
  predicate EvidenceUntil(a: Account, t: Timestamp) {
    && a.directHead.recordedAt <= t
    && forall e :: e in a.children && e.settlement.Some? ==> e.settlement.value.terminal.recordedAt <= t
  }

  lemma {:induction false} ClockExact(a: Account, t: Timestamp)
    ensures ClockCurrent(a, t) <==> EvidenceUntil(a, t)
  {
    if ClockCurrent(a, t) {
      forall e | e in a.children && e.settlement.Some? ensures e.settlement.value.terminal.recordedAt <= t {
        var i :| 0 <= i < |a.children| && a.children[i] == e;
      }
    }
  }

  /** An account reports what is left exactly when no evidence is from after the
      clock, the deadline is ahead and everything fits; and it is the budget less
      direct usage and every child's settled usage or ceiling. */
  lemma {:induction false} RemainingDecided(a: Account, t: Timestamp)
    requires Claimable(a.children) && |a.children| <= MAX_ACCOUNT_CHILDREN
    ensures var left := RemainingOf(a, t);
            && (left.Some? <==>
                EvidenceUntil(a, t) && t < a.budget.deadline && Fits(a.budget, a.directUsage, Claims(a.children)))
            && (left.Some? ==> LeftOver(left.value, a.budget, a.directUsage, Claims(a.children)))
  {
    RemainingCovered(a, t);
    ClockExact(a, t);
  }

  // ----- opening --------------------------------------------------------------

  lemma {:induction false} ChildlessSealed(a: Account)
    requires a.children == []
    ensures Seal(a) == if HeaderValid(a) then Some(a) else None
  {
    AccumulateZero(a.directUsage);
  }

  /** An account opens exactly on the parent's graph, which delegates, at a journal
      head of the parent's run no earlier than its admission, and starts with
      everything the parent and the graph say and no child. */
  lemma {:induction false} OpenExact(parent: AgentAdmission, g: CompiledGraph, head: JournalHead, usage: BudgetUsage)
    requires ValidGraph(g)
    ensures var p := parent.intent.provenance;
            Open(parent, g, head, usage) ==
            if && g.childRuns.Some? && g.reference == parent.intent.graph
               && head.tenant == p.tenant && head.run == p.run && parent.admittedAt <= head.recordedAt
            then Some(Account(p, parent.digest, parent.admittedAt, parent.intent.graph, parent.intent.budget,
                              g.childRuns.value.limits.children, head, usage, []))
            else None
  {
    if g.childRuns.Some? {
      ChildlessSealed(Account(parent.intent.provenance, parent.digest, parent.admittedAt, g.reference,
                              parent.intent.budget, g.childRuns.value.limits.children, head, usage, []));
    }
  }

  // ----- reserving ------------------------------------------------------------

  /** Presented to the parent that owns the account, on its graph. */
  predicate OwnedBy(c: ChildIntent, a: Account, g: CompiledGraph) {
    && c.parentDigest == a.parentDigest
    && c.key.parent.base.tenant == a.parent.tenant && c.key.parent.base.run == a.parent.run
    && c.key.parent.base.graph == a.graph && g.reference == a.graph
  }

  /** The child, of the same tenant, is not the parent and not yet on the account. */
  predicate Unrecorded(c: ChildIntent, a: Account) {
    && c.child.provenance.tenant == a.parent.tenant && c.child.provenance.run != a.parent.run
    && forall e :: e in a.children ==> e.key.digest != c.key.digest && e.child.run != c.child.provenance.run
  }

  lemma {:induction false} NewIdentityExact(a: Account, c: ChildIntent)
    ensures NewIdentity(a, c) <==> Unrecorded(c, a)
  {
    if NewIdentity(a, c) {
      forall e | e in a.children ensures e.key.digest != c.key.digest && e.child.run != c.child.provenance.run {
        var i :| 0 <= i < |a.children| && a.children[i] == e;
      }
    }
  }

  lemma {:induction false} OwnsExact(a: Account, c: ChildIntent, g: CompiledGraph)
    requires ValidGraph(g)
    ensures OwnsIntent(a, c, g) <==> OwnedBy(c, a, g) && DeclaredBy(c, g) && Narrows(c.child.budget, a.budget)
  {
    DeclarationExact(c, g);
  }

  /** What a new child is entered with: its whole cumulative ceiling, unsettled. */
  ghost predicate Records(e: ChildEntry, c: ChildIntent) {
    && e.key == c.key && e.spawnDigest == c.spawnDigest && e.child == c.child.provenance && e.intentDigest == c.child
    && e.reservation == Ceiling(c.child.budget) && e.settlement.None?
  }

  /** A child under a new key is admitted exactly when the parent owns and declares
      it, its budget narrows the parent's, it is not recorded, there is a place, no
      evidence is from after the clock, the deadline is ahead, and direct usage,
      every claim and the child's whole ceiling fit the budget together. The account
      is then the old one with one more entry, in canonical order. */
  lemma {:induction false} ReserveDecided(a: Account, c: ChildIntent, g: CompiledGraph, t: Timestamp)
    requires ValidAccount(a) && ValidGraph(g) && Valid(c.child.budget) && IndexOf(a.children, c.key) < 0
    ensures Reserve(a, c, g, t).Some? <==>
            && OwnedBy(c, a, g) && DeclaredBy(c, g) && Narrows(c.child.budget, a.budget)
            && Unrecorded(c, a) && |a.children| < a.maximumChildren
            && EvidenceUntil(a, t) && t < a.budget.deadline
            && Fits(a.budget, a.directUsage, Claims(a.children) + [Ceiling(c.child.budget)])
    ensures Reserve(a, c, g, t).Some? ==>
            exists e :: Records(e, c) && EnteredIn(a, e, Reserve(a, c, g, t).value)
  {
    ReserveExact(a, c, g, t);
    OwnsExact(a, c, g);
    NewIdentityExact(a, c);
    ClockExact(a, t);
    EnlargedClaims(a, c);
    if Reserve(a, c, g, t).Some? {
      ReserveCovers(a, c, g, t);
      SealKeeps(Enlarged(a, c));
      assert Records(NewEntry(c), c) && EnteredIn(a, NewEntry(c), Reserve(a, c, g, t).value);
    }
  }

  ghost predicate EnteredIn(a: Account, e: ChildEntry, b: Account) {
    && b == a.(children := b.children)
    && multiset(b.children) == multiset(a.children) + multiset{e} && DigestOrder(b.children)
  }

  lemma {:induction false} EnlargedClaims(a: Account, c: ChildIntent)
    requires Valid(c.child.budget)
    ensures Claims(Enlarged(a, c).children) == Claims(a.children) + [Ceiling(c.child.budget)]
  {}

  // ----- settling -------------------------------------------------------------

  /** A running total with one more entry, which counts only once it is settled. */
  function Added(x: Option<BudgetUsage>, e: ChildEntry): Option<BudgetUsage> {
    if e.settlement.Some? then Join(x, Some(Claim(e))) else x
  }

  lemma AddedSwap(x: Option<BudgetUsage>, e: ChildEntry, f: ChildEntry)
    ensures Added(Added(x, e), f) == Added(Added(x, f), e)
  {
    if x.Some? {
      AccumulateAssociative(x.value, Claim(e), Claim(f));
      AccumulateAssociative(x.value, Claim(f), Claim(e));
      AccumulateCommutative(Claim(e), Claim(f));
    }
  }

  lemma {:induction false} DelegatedSnoc(es: seq<ChildEntry>, init: seq<ChildEntry>, last: ChildEntry)
    requires es == init + [last]
    ensures Delegated(es) == Added(Delegated(init), last)
  {
    assert es[..|init|] == init && es[..|init| + 1] == es;
    SettledStep(es, |init|);
  }

  lemma {:induction false} WithoutSnoc(es: seq<ChildEntry>, i: nat)
    requires i < |es| - 1
    ensures Without(es, i) == Without(es[..|es| - 1], i) + [es[|es| - 1]]
  {}

  /** A settlement counts the same wherever it stands in the account. */
  lemma {:induction false} DelegatedWithout(es: seq<ChildEntry>, i: nat)
    requires i < |es|
    ensures Delegated(es) == Added(Delegated(Without(es, i)), es[i])
  {
    var n := |es| - 1;
    var init, last := es[..n], es[n];
    assert es == init + [last];
    if i < n {
      calc {
        Delegated(es);
        { DelegatedSnoc(es, init, last); }
        Added(Delegated(init), last);
        { DelegatedWithout(init, i); }
        Added(Added(Delegated(Without(init, i)), es[i]), last);
        { AddedSwap(Delegated(Without(init, i)), es[i], last); }
        Added(Added(Delegated(Without(init, i)), last), es[i]);
        { WithoutSnoc(es, i); DelegatedSnoc(Without(es, i), Without(init, i), last); }
        Added(Delegated(Without(es, i)), es[i]);
      }
    } else {
      assert Without(es, i) == init;
      DelegatedSnoc(es, init, last);
    }
  }

  lemma {:induction false} DelegatedPermuted(x: seq<ChildEntry>, y: seq<ChildEntry>)
    requires multiset(x) == multiset(y)
    ensures Delegated(x) == Delegated(y)
    decreases |x|
  {
    SameLength(x, y);
    if x != [] {
      var n := |x| - 1;
      var j := SameElement(x, y, n);
      MultisetWithout(x, y, j);
      DelegatedPermuted(x[..n], Without(y, j));
      DelegatedWithout(y, j);
      assert x == x[..n] + [x[n]];
      DelegatedSnoc(x, x[..n], x[n]);
    } else {
      assert y == [];
    }
  }

  lemma JoinRight(u: BudgetUsage, x: Option<BudgetUsage>, z: BudgetUsage)
    ensures Join(Some(u), Join(x, Some(z))) == Join(Join(Some(u), x), Some(z))
  {
    if x.Some? { AccumulateAssociative(u, x.value, z); }
  }

  /** Settling adds the child's cumulative usage to what is accounted for. */
  lemma {:induction false} SettledAccounts(a: Account, i: nat, s: Settlement)
    requires i < |a.children| && a.children[i].settlement.None?
    ensures AccountedUsage(WithSettlement(a, i, s)) == Join(AccountedUsage(a), Some(CumulativeOnly(s.usage)))
  {
    var es, fs := a.children, WithSettlement(a, i, s).children;
    assert Without(fs, i) == Without(es, i);
    DelegatedWithout(fs, i);
    SettledWithout(es, i);
    JoinRight(a.directUsage, Delegated(es), CumulativeOnly(s.usage));
  }

  /** Terminal, fully priced evidence of exactly this child, admitted no earlier
      than the parent, from its own journal. */
  predicate TerminalEvidence(a: Account, e: ChildEntry, s: Settlement) {
    && s.isTerminal && s.child == e.child && s.intentDigest == e.intentDigest
    && s.terminal.tenant == s.child.tenant && s.terminal.run == s.child.run && s.terminal.sequence > 1
    && a.parentAdmittedAt <= s.admittedAt <= s.terminal.recordedAt
    && s.usage.unpriced == 0 && Consistent(s.usage)
  }

  lemma {:induction false} SealOrdered(a: Account)
    requires HeaderValid(a) && |a.children| <= a.maximumChildren
    requires EntriesValid(a) && DistinctChildren(a.children) && DigestOrder(a.children)
    ensures Seal(a) == if AccountedUsage(a).Some? then Some(a) else None
  {
    SortFixed(a.children);
  }

  /** A settlement is accepted exactly for a recorded child with terminal evidence of
      it: again for the evidence already kept, and for the first one whenever
      accounted usage stays representable with it. Only that entry changes. */
  lemma {:induction false} SettleDecided(a: Account, key: ChildRunKey, s: Settlement)
    requires ValidAccount(a)
    ensures var i := IndexOf(a.children, key);
            Settle(a, key, s) ==
            if && i >= 0 && TerminalEvidence(a, a.children[i], s)
               && (if a.children[i].settlement.Some? then a.children[i].settlement.value == s
                   else Join(AccountedUsage(a), Some(CumulativeOnly(s.usage))).Some?)
            then Some(a.(children := a.children[i := a.children[i].(settlement := Some(s))]))
            else None
  {
    var i := IndexOf(a.children, key);
    if i >= 0 && Settles(a, a.children[i], s) {
      if a.children[i].settlement.None? {
        SettlementShape(a, i, s);
        SealOrdered(WithSettlement(a, i, s));
        SettledAccounts(a, i, s);
      } else if a.children[i].settlement.value == s {
        assert a.children[i := a.children[i].(settlement := Some(s))] == a.children;
      }
    }
  }

  // ----- sealing --------------------------------------------------------------

  /** An entry of this parent's run and graph for a child of the same tenant, with
      terminal evidence of that child if it is settled. */
  predicate OwnEntry(a: Account, e: ChildEntry) {
    && e.key.parent.base.tenant == a.parent.tenant && e.key.parent.base.run == a.parent.run
    && e.key.parent.base.graph == a.graph
    && e.child.tenant == a.parent.tenant && e.child.run != a.parent.run
    && (e.settlement.Some? ==> TerminalEvidence(a, e, e.settlement.value))
  }

  /** What a snapshot is, in any order of its entries. */
  ghost predicate Sealable(a: Account) {
    && 1 <= a.maximumChildren <= 256 && |a.children| <= a.maximumChildren
    && a.directHead.tenant == a.parent.tenant && a.directHead.run == a.parent.run
    && a.parentAdmittedAt <= a.directHead.recordedAt
    && (forall e :: e in a.children ==> OwnEntry(a, e))
    && (forall i, j :: 0 <= i < j < |a.children| ==>
          a.children[i].key.digest != a.children[j].key.digest && a.children[i].child.run != a.children[j].child.run)
    && AccountedUsage(a).Some?
  }

  lemma {:induction false} OwnEntries(a: Account)
    ensures EntriesValid(a) <==> forall e :: e in a.children ==> OwnEntry(a, e)
  {
    if EntriesValid(a) {
      forall e | e in a.children ensures OwnEntry(a, e) {
        var i :| 0 <= i < |a.children| && a.children[i] == e;
        assert EntryValid(a, a.children[i]);
      }
    }
    if forall e :: e in a.children ==> OwnEntry(a, e) {
      forall i | 0 <= i < |a.children| ensures EntryValid(a, a.children[i]) { assert OwnEntry(a, a.children[i]); }
    }
  }

  /** Validity but for the order of the entries. */
  ghost predicate Unordered(a: Account) {
    && HeaderValid(a) && |a.children| <= a.maximumChildren
    && EntriesValid(a) && DistinctChildren(a.children) && AccountedUsage(a).Some?
  }

  lemma {:induction false} SealableUnordered(a: Account)
    ensures Sealable(a) <==> Unordered(a)
  {
    OwnEntries(a);
  }

  lemma {:induction false} UnorderedPermuted(a: Account, b: Account)
    requires b == a.(children := b.children) && multiset(a.children) == multiset(b.children) && Unordered(a)
    ensures Unordered(b)
  {
    SameLength(a.children, b.children);
    EntriesPermuted(a, b);
    DistinctPermuted(a.children, b.children);
    DelegatedPermuted(a.children, b.children);
  }

  /** A snapshot seals exactly when it is one, whatever the order of its entries, and
      then holds the same entries ordered by key checksum and nothing else new. */
  lemma {:induction false} SealExact(a: Account)
    ensures Seal(a).Some? <==> Sealable(a)
    ensures Seal(a).Some? ==> EnteredAs(a, Seal(a).value)
  {
    var b := a.(children := SortEntries(a.children));
    SortKeeps(a.children);
    SortOrders(a.children);
    SealableUnordered(a);
    if Unordered(a) { UnorderedPermuted(a, b); }
    if Unordered(b) { UnorderedPermuted(b, a); }
  }

  ghost predicate EnteredAs(a: Account, b: Account) {
    && b == a.(children := b.children)
    && multiset(b.children) == multiset(a.children) && DigestOrder(b.children)
  }

  // ----- observing ------------------------------------------------------------

  /** A later journal head of this run, whose usage erases nothing and stays
      representable beside what was delegated. */
  predicate LaterObservation(a: Account, head: JournalHead, usage: BudgetUsage) {
    && head.tenant == a.parent.tenant && head.run == a.parent.run
    && a.directHead.sequence < head.sequence && a.directHead.recordedAt <= head.recordedAt
    && MonotonicAfter(usage, a.directUsage) && Join(Some(usage), Delegated(a.children)).Some?
  }

  /** An observation is accepted exactly when it repeats the last one or is a later
      one, and only the head and the usage change. */
  lemma {:induction false} ObserveExact(a: Account, head: JournalHead, usage: BudgetUsage)
    requires ValidAccount(a)
    ensures Observe(a, head, usage) ==
            if (head == a.directHead && usage == a.directUsage) || LaterObservation(a, head, usage)
            then Some(a.(directHead := head, directUsage := usage))
            else None
  {
    var b := a.(directHead := head, directUsage := usage);
    SameEntries(a, b);
    if HeaderValid(b) { SealOrdered(b); }
  }

  // ----- journal heads over whole runs ----------------------------------------

  /** The direct observation never goes back, and one position has one observation. */
  ghost predicate HeadKept(a: Account, b: Account) {
    && a.directHead.sequence <= b.directHead.sequence
    && a.directHead.recordedAt <= b.directHead.recordedAt
    && (a.directHead.sequence == b.directHead.sequence ==>
          b.directHead == a.directHead && b.directUsage == a.directUsage)
  }

  lemma {:induction false} StepHead(a: Account, step: Step, b: Account)
    requires Moves(a, step, b)
    ensures HeadKept(a, b)
  {
    if a != b {
      match step
      case Reserving(c, g, t) =>
        ReserveCovers(a, c, g, t);
        SealKeeps(Enlarged(a, c));
      case Settling(key, s) => SettleDecided(a, key, s);
      case Observing(head, usage) => ObserveExact(a, head, usage);
    }
  }

  /** Along every run the direct head only advances; at one journal position the
      account never holds two observations. */
  lemma {:induction false} RunHeads(states: seq<Account>, steps: seq<Step>, i: nat, j: nat)
    requires IsAccountRun(states, steps) && i <= j < |states|
    ensures HeadKept(states[i], states[j])
  {
    var r := (a: Account, b: Account) => HeadKept(a, b);
    forall k | 0 < k < |states| ensures r(states[k - 1], states[k]) {
      StepHead(states[k - 1], steps[k - 1], states[k]);
    }
    Related(r, states, i, j);
  }

  lemma {:induction false} EvidenceKept(a: Account, b: Account, t: Timestamp)
    requires Retains(a, b) && HeadKept(a, b) && EvidenceUntil(b, t)
    ensures EvidenceUntil(a, t)
  {
    forall e | e in a.children && e.settlement.Some? ensures e.settlement.value.terminal.recordedAt <= t {
      var i :| 0 <= i < |a.children| && a.children[i] == e;
      var j := KeptIndex(a, i, b);
      assert b.children[j] in b.children;
    }
  }

  /** No child is ever admitted at a clock behind evidence the account had at any
      earlier point of its run. */
  lemma {:induction false} RunClock(states: seq<Account>, steps: seq<Step>, i: nat, j: nat,
                                    c: ChildIntent, g: CompiledGraph, t: Timestamp)
    requires IsAccountRun(states, steps) && i <= j < |states|
    requires ValidAccount(states[j]) && Valid(c.child.budget) && IndexOf(states[j].children, c.key) < 0
    requires Reserve(states[j], c, g, t).Some?
    ensures EvidenceUntil(states[i], t)
  {
    ReserveExact(states[j], c, g, t);
    ClockExact(states[j], t);
    RunRetains(states, steps, i, j);
    RunHeads(states, steps, i, j);
    EvidenceKept(states[i], states[j], t);
  }
}
