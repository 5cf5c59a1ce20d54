/**
  Trees of runs (child_run_budget.rs).

  Every run keeps an account of its own, whose entries are its children. A child
  is settled with what its own account reports, once its own children are
  settled.
 */
module Trees {
  import opened Prelude
  import opened Usage
  import opened Budgets
  import opened Reservations
  import opened Accounts
  import opened Ledger
  import Costs

  /** The account of a run, and the tree of each of its children. */
  datatype RunTree = RunTree(account: Account, subtrees: seq<RunTree>)

  predicate AllSettled(es: seq<ChildEntry>) {
    forall i :: 0 <= i < |es| ==> es[i].settlement.Some?
  }

  /** The child's account is under the budget it was admitted with, and when it is
      settled it is with the usage that account reports. */
  predicate Attached(e: ChildEntry, t: RunTree) {
    && t.account.budget == e.intentDigest.budget
    && (e.settlement.Some? ==>
          AllSettled(t.account.children) && AccountedUsage(t.account) == Some(e.settlement.value.usage))
  }

  ghost predicate SoundTree(t: RunTree)
    decreases t
  {
    && Sound(t.account)
    && |t.subtrees| == |t.account.children|
    && forall i :: 0 <= i < |t.subtrees| ==> Attached(t.account.children[i], t.subtrees[i]) && SoundTree(t.subtrees[i])
  }

  /** Direct usage of every run in the tree, each counted once. */
  function TreeTotal(t: RunTree, m: Measure): int
    requires IsMeasure(m)
    decreases t
  {
    Quantity(t.account.directUsage, m) + ForestTotal(t.subtrees, m)
  }

  function ForestTotal(ts: seq<RunTree>, m: Measure): int
    requires IsMeasure(m)
    decreases ts
  {
    if ts == [] then 0 else ForestTotal(ts[..|ts| - 1], m) + TreeTotal(ts[|ts| - 1], m)
  }

  predicate Names(t: RunTree, c: Costs.Currency)
    decreases t
  {
    || Costs.Has(t.account.directUsage.costs, c)
    || exists i :: 0 <= i < |t.subtrees| && Names(t.subtrees[i], c)
  }

  /** A quantity that adds up over runs: a currency or a cumulative dimension. */
  predicate IsCumulative(m: Measure) {
    IsMeasure(m) && (m.Count? ==> !IsPeak(m.d))
  }

  lemma {:induction false} ForestSettled(ts: seq<RunTree>, es: seq<ChildEntry>, m: Measure)
    requires |ts| == |es| && IsMeasure(m)
    requires forall i :: 0 <= i < |ts| ==> TreeTotal(ts[i], m) == SettledQuantity(es[i], m)
    ensures ForestTotal(ts, m) == SettledSum(es, m)
  {
    if ts != [] {
      var n := |ts| - 1;
      forall i | 0 <= i < n ensures TreeTotal(ts[..n][i], m) == SettledQuantity(es[..n][i], m) {
        assert ts[..n][i] == ts[i] && es[..n][i] == es[i];
      }
      ForestSettled(ts[..n], es[..n], m);
    }
  }

  lemma {:induction false} ForestClaimed(ts: seq<RunTree>, es: seq<ChildEntry>, m: Measure)
    requires |ts| == |es| && IsMeasure(m)
    requires forall i :: 0 <= i < |ts| ==> TreeTotal(ts[i], m) <= Quantity(Claim(es[i]), m)
    ensures ForestTotal(ts, m) <= Sum(Claims(es), m)
  {
    if ts != [] {
      var n := |ts| - 1;
      forall i | 0 <= i < n ensures TreeTotal(ts[..n][i], m) <= Quantity(Claim(es[..n][i]), m) {
        assert ts[..n][i] == ts[i] && es[..n][i] == es[i];
      }
      ForestClaimed(ts[..n], es[..n], m);
      ClaimsSnoc(es);
      SumSnoc(Claims(es[..n]), Claim(es[n]), m);
    }
  }

  lemma CumulativeQuantity(u: BudgetUsage, m: Measure)
    requires IsCumulative(m)
    ensures Quantity(CumulativeOnly(u), m) == Quantity(u, m)
  {}

  lemma {:induction false} Subtree(t: RunTree, i: nat)
    requires SoundTree(t) && i < |t.subtrees|
    ensures |t.subtrees| == |t.account.children| && FundedEntry(t.account, t.account.children[i])
    ensures Attached(t.account.children[i], t.subtrees[i]) && SoundTree(t.subtrees[i])
  {}

  // ----- a settled tree -------------------------------------------------------

  /** Once all runs below are settled, the root accounts for exactly the direct
      usage of every run in the tree: nothing is lost and nothing counted twice. */
  lemma {:induction false} SettledTreeConserves(t: RunTree, m: Measure)
    requires SoundTree(t) && AllSettled(t.account.children) && IsCumulative(m)
    ensures AccountedUsage(t.account).Some?
    ensures TreeTotal(t, m) == Quantity(AccountedUsage(t.account).value, m)
    decreases t, 2
  {
    SettledSubtrees(t, m);
    AccountedHolds(t.account, m);
  }

  lemma {:induction false} SettledSubtrees(t: RunTree, m: Measure)
    requires SoundTree(t) && AllSettled(t.account.children) && IsCumulative(m)
    ensures ForestTotal(t.subtrees, m) == SettledSum(t.account.children, m)
    decreases t, 1
  {
    forall i | 0 <= i < |t.subtrees| ensures
        TreeTotal(t.subtrees[i], m) == SettledQuantity(t.account.children[i], m) {
      SettledSubtree(t, i, m);
    }
    ForestSettled(t.subtrees, t.account.children, m);
  }

  lemma {:induction false} SettledSubtree(t: RunTree, i: nat, m: Measure)
    requires SoundTree(t) && IsCumulative(m) && i < |t.subtrees| && t.account.children[i].settlement.Some?
    ensures TreeTotal(t.subtrees[i], m) == Quantity(Claim(t.account.children[i]), m)
    decreases t, 0
  {
    Subtree(t, i);
    SettledTreeConserves(t.subtrees[i], m);
    CumulativeQuantity(t.account.children[i].settlement.value.usage, m);
  }

  // ----- any tree -------------------------------------------------------------

  /** Whatever is settled and whatever still runs, all direct usage in a tree of
      sound accounts is within the root's budget, in every cumulative dimension
      and every currency. */
  lemma {:induction false} TreeBounded(t: RunTree, m: Measure)
    requires SoundTree(t) && IsCumulative(m)
    ensures TreeTotal(t, m) <= Limit(t.account.budget, m)
    decreases t, 2
  {
    SubtreesBounded(t, m);
    SoundTotal(t.account, m);
  }

  lemma {:induction false} SoundTotal(a: Account, m: Measure)
    requires Sound(a) && IsMeasure(m)
    ensures Quantity(a.directUsage, m) + Sum(Claims(a.children), m) <= Limit(a.budget, m)
  {
    assert Total(a.directUsage, Claims(a.children), m) <= Limit(a.budget, m);
  }

  lemma {:induction false} SubtreesBounded(t: RunTree, m: Measure)
    requires SoundTree(t) && IsCumulative(m)
    ensures ForestTotal(t.subtrees, m) <= Sum(Claims(t.account.children), m)
    decreases t, 1
  {
    forall i | 0 <= i < |t.subtrees| ensures
        TreeTotal(t.subtrees[i], m) <= Quantity(Claim(t.account.children[i]), m) {
      SubtreeBounded(t, i, m);
    }
    ForestClaimed(t.subtrees, t.account.children, m);
  }

  lemma {:induction false} SubtreeBounded(t: RunTree, i: nat, m: Measure)
    requires SoundTree(t) && IsCumulative(m) && i < |t.subtrees|
    ensures TreeTotal(t.subtrees[i], m) <= Quantity(Claim(t.account.children[i]), m)
    decreases t, 0
  {
    var e, sub := t.account.children[i], t.subtrees[i];
    if e.settlement.Some? {
      SettledSubtree(t, i, m);
    } else {
      Subtree(t, i);
      TreeBounded(sub, m);
      CumulativeQuantity(BudgetUsage(sub.account.budget.limits, sub.account.budget.costs, 0), m);
    }
  }

  /** Every currency any run of the tree used is one the root was budgeted. */
  lemma {:induction false} TreeCurrencies(t: RunTree, c: Costs.Currency)
    requires SoundTree(t) && Names(t, c)
    ensures Costs.Has(t.account.budget.costs, c)
    decreases t
  {
    if Costs.Has(t.account.directUsage.costs, c) {
      assert Mentions(t.account.directUsage, Claims(t.account.children), c);
    } else {
      var i :| 0 <= i < |t.subtrees| && Names(t.subtrees[i], c);
      Subtree(t, i);
      TreeCurrencies(t.subtrees[i], c);
      Costs.AffordableExact(t.account.budget.costs, t.subtrees[i].account.budget.costs);
    }
  }
}
