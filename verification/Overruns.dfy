/**
  Two accounts that end up over budget (child_run_budget.rs).

  Recording direct usage and settling a child do not check capacity, so each can
  leave a covered account uncovered. A budget of ten in every dimension is
  overrun by twenty, once by an observation and once by a settlement.
 */
module Overruns {
  import opened Prelude
  import opened Usage
  import opened Budgets
  import opened Reservations
  import opened Checkpoints
  import opened Admission
  import opened Delegation
  import opened Accounts
  import opened Ledger

  function Flat(n: int): Counts
    requires IsU64(n)
  {
    seq(DIMENSIONS, _ => n)
  }

  /** The same amount of everything, without costs. */
  function Spent(n: int): (u: BudgetUsage)
    requires IsU64(n)
    ensures Usage.Consistent(u)
  {
    BudgetUsage(Flat(n), [], 0)
  }

  function Allowance(n: int): (b: ResolvedBudget)
    requires IsU64(n)
    ensures Valid(b)
  {
    ResolvedBudget(100, Flat(n), [])
  }

  const NONE := OtherDigest(0)
  const CEILINGS := TopologyLimits(1, 1, 1)
  const CHILD_GRAPH := CompiledGraph(GraphReference(1, DefinitionDigest(None, 1), 0), 0, 0, [], None)

  function Agent(): Descriptor {
    Descriptor(0, false, {}, 0, 0, NoLimits())
  }

  /** One node may delegate to the agent, one level deep. */
  function ParentGraph(): CompiledGraph {
    var declaration := Declaration(0, 0, AgentReference(0, Agent()), CHILD_GRAPH.reference, 0, 0);
    CompiledGraph(GraphReference(0, DefinitionDigest(Some(CEILINGS), 0), 0), 0, 0, [0],
                  Some(Policy(CEILINGS, [declaration])))
  }

  function Admitted(run: int, budget: ResolvedBudget, graph: GraphReference): AdmissionIntent {
    AdmissionIntent(Provenance(1, run, 0, 0, 0), Agent(), Admission.Request(0, 0, NoLimits()), [], budget, graph,
                    Authority(0, {}))
  }

  function Parent(): AgentAdmission {
    var intent := Admitted(1, Allowance(10), ParentGraph().reference);
    AgentAdmission(intent, 0, AdmissionDigest(intent, 0))
  }

  function Anchor(run: int, sequence: int): JournalHead {
    JournalHead(1, run, sequence, 0, 0, NONE)
  }

  /** The parent's account before it spent or delegated anything. */
  function Fresh(): Option<Account> {
    Open(Parent(), ParentGraph(), Anchor(1, 1), Zero())
  }

  lemma {:induction false} ChildlessSeals(a: Account)
    requires a.children == [] && HeaderValid(a)
    ensures Seal(a) == Some(a)
  {
    AccumulateZero(a.directUsage);
  }

  lemma {:induction false} FreshSound()
    ensures Fresh().Some? && Sound(Fresh().value)
    ensures var a := Fresh().value;
            a == Account(Parent().intent.provenance, Parent().digest, 0, ParentGraph().reference, Allowance(10), 1,
                         Anchor(1, 1), Zero(), [])
  {
    ChildlessSeals(Account(Parent().intent.provenance, Parent().digest, 0, ParentGraph().reference, Allowance(10), 1,
                           Anchor(1, 1), Zero(), []));
    OpenSound(Parent(), ParentGraph(), Anchor(1, 1), Zero(), 0);
    ZeroFits(Allowance(10), 0);
  }

  lemma {:induction false} ChildlessObserves(a: Account, head: JournalHead, usage: BudgetUsage)
    requires ValidAccount(a) && a.children == [] && head.tenant == a.parent.tenant && head.run == a.parent.run
    requires a.directHead.sequence < head.sequence && a.directHead.recordedAt <= head.recordedAt
    requires MonotonicAfter(usage, a.directUsage)
    ensures Observe(a, head, usage).Some?
  {
    ObserveSeals(a, head, usage);
    AccumulateZero(usage);
  }

  lemma {:induction false} TwentyObserved()
    ensures !Fits(Allowance(10), Spent(20), [])
  {
    assert Total(Spent(20), [], Count(0)) == 20 > Limit(Allowance(10), Count(0));
  }

  /** An observation of twenty is recorded and leaves the account uncovered. */
  lemma {:induction false} ObservationOverruns() returns (a: Account, head: JournalHead, usage: BudgetUsage)
    ensures Sound(a) && Observe(a, head, usage).Some? && !Covered(Observe(a, head, usage).value)
  {
    FreshSound();
    a, head, usage := Fresh().value, Anchor(1, 2), Spent(20);
    ChildlessObserves(a, head, usage);
    ObservedCovered(a, head, usage);
    assert Claims([]) == [];
    TwentyObserved();
  }

  // ----- a child that overran its ceiling -------------------------------------

  function Key(): ChildRunKey {
    var base := CheckpointHead(1, 1, 0, 0, ParentGraph().reference, Anchor(1, 1), NONE);
    ChildRunKey(NodeActivation(base, [], 0, NONE), 0, 0)
  }

  /** A child with a ceiling of five. */
  function Child(): ChildIntent {
    var child, state := Admitted(2, Allowance(5), CHILD_GRAPH.reference), CheckpointState(0, Json(0, Some([])), NONE);
    BuildChild(Key(), Parent().digest, child, CHILD_GRAPH, state).value
  }

  function Overspent(): Settlement {
    Settlement(Child().child.provenance, Child().child, AdmissionDigest(Child().child, 0), 0, Anchor(2, 2), true, 0,
               Spent(20))
  }

  lemma {:induction false} ChildOwned(a: Account)
    requires Fresh() == Some(a)
    ensures Built(Child()) && OwnsIntent(a, Child(), ParentGraph()) && NewIdentity(a, Child())
    ensures Child().child.budget == Allowance(5) && Child().key == Key()
  {
    FreshSound();
    var ds := ParentGraph().childRuns.value.declarations;
    assert Find(ds, 0, 0) == Some(ds[0]);
  }

  lemma {:induction false} ChildCovered(a: Account)
    requires Fresh() == Some(a)
    ensures Covered(Enlarged(a, Child()))
  {
    FreshSound();
    ChildOwned(a);
    var b := Enlarged(a, Child());
    var five := Ceiling(Allowance(5));
    assert Claims(b.children) == [five];
    forall m | IsMeasure(m) ensures Total(Zero(), [five], m) <= Limit(b.budget, m) {
      SumSnoc([], five, m);
      assert [] + [five] == [five];
    }
    forall c ensures !Mentions(Zero(), [five], c) {
      AnyHasSnoc([], five, c);
      assert [] + [five] == [five];
    }
  }

  lemma {:induction false} ChildReserved(a: Account)
    requires Fresh() == Some(a)
    ensures var b := Enlarged(a, Child());
            Reserve(a, Child(), ParentGraph(), 0) == Some(b) && Sound(b)
  {
    FreshSound();
    ChildOwned(a);
    ChildCovered(a);
    var b := Enlarged(a, Child());
    ReserveExact(a, Child(), ParentGraph(), 0);
    ReserveCovers(a, Child(), ParentGraph(), 0);
    SealKeeps(b);
    SortFixed(b.children);
    EnlargedRetains(a, Child(), ParentGraph());
  }

  /** The account after that settlement. */
  function Overrun(a: Account): Account
    requires |a.children| == 1
  {
    WithSettlement(a, 0, Overspent())
  }

  lemma {:induction false} OneSettled(e: ChildEntry)
    requires e.settlement.Some?
    ensures Settled([e]) == [Claim(e)] == Claims([e])
  {
    assert [e][..0] == [];
    SplitSnoc([e]);
  }

  lemma {:induction false} OneAccounted(u: BudgetUsage)
    ensures Join(Some(Zero()), AccumulateAll(Zero(), [u])) == Some(u)
  {
    assert [u][..0] == [];
    AccumulateZero(u);
  }

  lemma {:induction false} TwentyTooMany()
    ensures !Fits(Allowance(10), Zero(), [CumulativeOnly(Spent(20))])
  {
    var u, m := CumulativeOnly(Spent(20)), Count(GRAPH_STEPS);
    assert [] + [u] == [u];
    SumSnoc([], u, m);
    assert Total(Zero(), [u], m) == 20 > Limit(Allowance(10), m);
  }

  lemma {:induction false} OverrunAccounted(a: Account)
    requires |a.children| == 1 && a.directUsage == Zero() && a.budget == Allowance(10)
    ensures AccountedUsage(Overrun(a)).Some? && !Covered(Overrun(a))
  {
    var e := Overrun(a).children[0];
    assert Overrun(a).children == [e];
    OneSettled(e);
    OneAccounted(Claim(e));
    TwentyTooMany();
  }

  lemma {:induction false} OverspentValid()
    ensures SettlementValid(Overspent()) && Overspent().admittedAt == 0
    ensures Overspent().child == Child().child.provenance && Overspent().intentDigest == Child().child
  {}

  lemma {:induction false} OverspentSettles(a: Account)
    requires Fresh().Some? && a == Enlarged(Fresh().value, Child()) && ValidAccount(a)
    ensures |a.children| == 1 && Settle(a, Key(), Overspent()) == Seal(Overrun(a))
    ensures Settles(a, a.children[0], Overspent()) && a.directUsage == Zero() && a.budget == Allowance(10)
  {
    FreshSound();
    ChildOwned(Fresh().value);
    OverspentValid();
    UniqueKey(a, 0);
  }

  /** Settling the child with twenty is accepted and leaves the account uncovered,
      without any observation. */
  lemma {:induction false} SettlementOverruns() returns (a: Account, key: ChildRunKey, s: Settlement)
    ensures Sound(a) && Settle(a, key, s).Some? && !Covered(Settle(a, key, s).value)
  {
    FreshSound();
    ChildReserved(Fresh().value);
    a, key, s := Enlarged(Fresh().value, Child()), Key(), Overspent();
    OverspentSettles(a);
    OverrunAccounted(a);
    SettlementShape(a, 0, s);
    SortFixed(Overrun(a).children);
    SealKeeps(Overrun(a));
  }
}
