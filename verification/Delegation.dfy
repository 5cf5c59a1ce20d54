/**
  Delegation to child runs (child_run_policy.rs, child_run_admission.rs).

  A parent graph declares which agents its nodes may delegate to and how deep;
  a child admission narrows the authority and budget of its parent. Chains of
  delegations are the sequences in which every step passes both checks.
 */
module Delegation {
  import opened Prelude
  import opened Usage
  import opened Budgets
  import opened Checkpoints
  import opened Admission

  const MAX_DEPTH := 32
  const MAX_CHILDREN := 256
  const MAX_DECLARATIONS := 256
  const MAX_SLOTS_PER_NODE := 64

  /** A named slot of a node, as its position in byte order. */
  type Slot = int

  /** Pins a complete agent definition: the checksum is a term over it. */
  datatype AgentReference = AgentReference(agent: int, definition: Descriptor)

  datatype Declaration = Declaration(
    node: NodeId, slot: Slot, agent: AgentReference, graph: GraphReference,
    inputSchema: SchemaReference, outputSchema: SchemaReference)

  datatype Policy = Policy(limits: TopologyLimits, declarations: seq<Declaration>)

  datatype CompiledGraph = CompiledGraph(
    reference: GraphReference, inputSchema: SchemaReference, outputSchema: SchemaReference,
    entryNodes: seq<NodeId>, childRuns: Option<Policy>)

  /** What `ChildRunTopologyLimits::new` admits. */
  predicate WithinCeilings(l: TopologyLimits) {
    1 <= l.depth <= MAX_DEPTH && 1 <= l.children <= MAX_CHILDREN && 1 <= l.active <= MAX_CHILDREN
  }

  // ----- declarations ---------------------------------------------------------

  predicate Before(a: Declaration, b: Declaration) {
    a.node < b.node || (a.node == b.node && a.slot < b.slot)
  }

  predicate SameKey(a: Declaration, b: Declaration) {
    a.node == b.node && a.slot == b.slot
  }

  predicate KeyOrder(ds: seq<Declaration>) {
    forall i, j :: 0 <= i < j < |ds| ==> Before(ds[i], ds[j])
  }

  predicate DistinctKeys(ds: seq<Declaration>) {
    forall i, j :: 0 <= i < j < |ds| ==> ds[i].node != ds[j].node || ds[i].slot != ds[j].slot
  }

  function SlotsOf(ds: seq<Declaration>, node: NodeId): nat {
    if ds == [] then 0 else SlotsOf(ds[..|ds| - 1], node) + if ds[|ds| - 1].node == node then 1 else 0
  }

  lemma {:induction false} SlotsPrefix(ds: seq<Declaration>, k: nat, node: NodeId)
    requires k <= |ds|
    ensures SlotsOf(ds[..k], node) <= SlotsOf(ds, node)
  {
    if k == |ds| {
      assert ds[..k] == ds;
    } else {
      assert ds[..|ds| - 1][..k] == ds[..k];
      SlotsPrefix(ds[..|ds| - 1], k, node);
    }
  }

  /** Insertion into a map ordered by node and slot, for a key it does not hold. */
  function InsertDeclaration(ds: seq<Declaration>, d: Declaration): seq<Declaration> {
    if ds == [] || Before(ds[|ds| - 1], d) then ds + [d]
    else InsertDeclaration(ds[..|ds| - 1], d) + [ds[|ds| - 1]]
  }

  lemma {:induction false} InsertKeeps(ds: seq<Declaration>, d: Declaration)
    ensures |InsertDeclaration(ds, d)| == |ds| + 1
    ensures forall x :: x in InsertDeclaration(ds, d) <==> x == d || x in ds
  {
    if ds != [] {
      assert ds == ds[..|ds| - 1] + [ds[|ds| - 1]];
      InsertKeeps(ds[..|ds| - 1], d);
    }
  }

  lemma {:induction false} InsertOrders(ds: seq<Declaration>, d: Declaration)
    requires KeyOrder(ds) && forall x :: x in ds ==> !SameKey(x, d)
    ensures KeyOrder(InsertDeclaration(ds, d))
  {
    if ds != [] {
      var init, last := ds[..|ds| - 1], ds[|ds| - 1];
      assert last in ds;
      if !Before(last, d) {
        InsertOrders(init, d);
        InsertKeeps(init, d);
        var r := InsertDeclaration(init, d);
        forall i | 0 <= i < |r| ensures Before(r[i], last) {
          assert r[i] in r;
          assert r[i] == d || r[i] in init;
        }
      }
    }
  }

  /** The running count of every node, absent at zero. */
  ghost predicate Counted(perNode: map<NodeId, int>, ds: seq<Declaration>) {
    forall node :: SlotsOf(ds, node) == if node in perNode then perNode[node] else 0
  }

  ghost predicate SlotsBounded(ds: seq<Declaration>) {
    forall node :: SlotsOf(ds, node) <= MAX_SLOTS_PER_NODE
  }

  lemma {:induction false} CountedStep(perNode: map<NodeId, int>, ds: seq<Declaration>, k: nat)
    requires k < |ds| && Counted(perNode, ds[..k]) && SlotsBounded(ds[..k])
    ensures var node := ds[k].node;
            var count := (if node in perNode then perNode[node] else 0) + 1;
            && Counted(perNode[node := count], ds[..k + 1])
            && (count <= MAX_SLOTS_PER_NODE ==> SlotsBounded(ds[..k + 1]))
            && (count > MAX_SLOTS_PER_NODE ==> !SlotsBounded(ds))
  {
    assert ds[..k + 1][..k] == ds[..k];
    assert forall node :: SlotsOf(ds[..k + 1], node) == SlotsOf(ds[..k], node) + if ds[k].node == node then 1 else 0;
    SlotsPrefix(ds, k + 1, ds[k].node);
  }

  /** One to 256 declarations under distinct keys, at most 64 on one node. */
  ghost predicate PolicyShape(ds: seq<Declaration>) {
    && 1 <= |ds| <= MAX_DECLARATIONS
    && DistinctKeys(ds)
    && SlotsBounded(ds)
  }

  /** What every policy of the source satisfies. */
  predicate ValidPolicy(p: Policy) {
    WithinCeilings(p.limits) && KeyOrder(p.declarations) && 1 <= |p.declarations| <= MAX_DECLARATIONS
  }

  /** `GraphChildRunPolicy::new`, over limits that `ChildRunTopologyLimits::new`
      admits: counts slots per node while it orders the declarations. */
  method NewPolicy(limits: TopologyLimits, ds: seq<Declaration>) returns (r: Option<Policy>)
    ensures r.Some? <==>
            && 1 <= limits.depth <= 32 && 1 <= limits.children <= 256 && 1 <= limits.active <= 256
            && PolicyShape(ds)
    ensures r.Some? ==> && ValidPolicy(r.value) && r.value.limits == limits
                        && |r.value.declarations| == |ds|
                        && forall d :: d in r.value.declarations <==> d in ds
  {
    if !WithinCeilings(limits) {
      return None;
    }
    var ordered: seq<Declaration> := [];
    var perNode: map<NodeId, int> := map[];
    for k := 0 to |ds|
      invariant KeyOrder(ordered) && |ordered| == k <= MAX_DECLARATIONS
      invariant forall d :: d in ordered <==> d in ds[..k]
      invariant Counted(perNode, ds[..k]) && SlotsBounded(ds[..k])
      invariant DistinctKeys(ds[..k])
    {
      var d := ds[k];
      assert ds[..k + 1] == ds[..k] + [d];
      CountedStep(perNode, ds, k);
      if |ordered| == MAX_DECLARATIONS {
        return None;
      }
      var count := (if d.node in perNode then perNode[d.node] else 0) + 1;
      perNode := perNode[d.node := count];
      if count > MAX_SLOTS_PER_NODE {
        return None;
      }
      if exists i :: 0 <= i < |ordered| && SameKey(ordered[i], d) {
        RepeatedKey(ds, k, ordered);
        return None;
      }
      FreshKey(ds, k, ordered);
      InsertOrders(ordered, d);
      InsertKeeps(ordered, d);
      ordered := InsertDeclaration(ordered, d);
    }
    assert ds[..|ds|] == ds;
    if ordered == [] {
      return None;
    }
    r := Some(Policy(limits, ordered));
  }

  lemma {:induction false} RepeatedKey(ds: seq<Declaration>, k: nat, ordered: seq<Declaration>)
    requires k < |ds| && forall d :: d in ordered <==> d in ds[..k]
    requires exists i :: 0 <= i < |ordered| && SameKey(ordered[i], ds[k])
    ensures !DistinctKeys(ds)
  {
    var i :| 0 <= i < |ordered| && SameKey(ordered[i], ds[k]);
    assert ordered[i] in ordered;
    assert ordered[i] in ds[..k];
    var j :| 0 <= j < k && ds[..k][j] == ordered[i];
    assert SameKey(ds[j], ds[k]);
  }

  lemma {:induction false} FreshKey(ds: seq<Declaration>, k: nat, ordered: seq<Declaration>)
    requires k < |ds| && (forall d :: d in ordered <==> d in ds[..k]) && DistinctKeys(ds[..k])
    requires forall i :: 0 <= i < |ordered| ==> !SameKey(ordered[i], ds[k])
    ensures DistinctKeys(ds[..k + 1])
    ensures forall x :: x in ordered ==> !SameKey(x, ds[k])
  {
    var longer := ds[..k + 1];
    forall i, j | 0 <= i < j < |longer| ensures !SameKey(longer[i], longer[j]) {
      assert ds[..k][i] == longer[i];
      if j < k { assert ds[..k][j] == longer[j]; } else { assert longer[i] in ds[..k]; assert longer[i] in ordered; }
    }
  }

  function Find(ds: seq<Declaration>, node: NodeId, slot: Slot): Option<Declaration> {
    if ds == [] then None
    else if ds[|ds| - 1].node == node && ds[|ds| - 1].slot == slot then Some(ds[|ds| - 1])
    else Find(ds[..|ds| - 1], node, slot)
  }

  lemma {:induction false} FindIndex(ds: seq<Declaration>, node: NodeId, slot: Slot)
    ensures Find(ds, node, slot).None? <==> forall i :: 0 <= i < |ds| ==> ds[i].node != node || ds[i].slot != slot
    ensures Find(ds, node, slot).Some? ==>
            var d := Find(ds, node, slot).value; d in ds && d.node == node && d.slot == slot
  {
    if ds != [] {
      var init := ds[..|ds| - 1];
      FindIndex(init, node, slot);
      assert forall i :: 0 <= i < |init| ==> init[i] == ds[i];
    }
  }

  /** `GraphChildRunPolicy::declaration`: binary search by node and slot. */
  method Lookup(p: Policy, node: NodeId, slot: Slot) returns (r: Option<Declaration>)
    requires ValidPolicy(p)
    ensures r == Find(p.declarations, node, slot)
  {
    var ds := p.declarations;
    FindIndex(ds, node, slot);
    var lo, hi := 0, |ds|;
    while lo < hi
      invariant 0 <= lo <= hi <= |ds|
      invariant forall i :: 0 <= i < lo ==> ds[i].node < node || (ds[i].node == node && ds[i].slot < slot)
      invariant forall i :: hi <= i < |ds| ==> node < ds[i].node || (ds[i].node == node && slot < ds[i].slot)
    {
      var mid := (lo + hi) / 2;
      if ds[mid].node == node && ds[mid].slot == slot {
        FoundKey(ds, mid);
        return Some(ds[mid]);
      } else if ds[mid].node < node || (ds[mid].node == node && ds[mid].slot < slot) {
        lo := mid + 1;
      } else {
        hi := mid;
      }
    }
    r := None;
  }

  lemma {:induction false} FoundKey(ds: seq<Declaration>, i: nat)
    requires KeyOrder(ds) && i < |ds|
    ensures Find(ds, ds[i].node, ds[i].slot) == Some(ds[i])
  {
    FindIndex(ds, ds[i].node, ds[i].slot);
    var found := Find(ds, ds[i].node, ds[i].slot);
    assert found.Some? ==> exists j :: 0 <= j < |ds| && ds[j] == found.value;
  }

  // ----- targets --------------------------------------------------------------

  function Depth(g: CompiledGraph): int {
    if g.childRuns.Some? then g.childRuns.value.limits.depth else 0
  }

  /** The policy is valid and the definition checksum binds its ceilings. */
  predicate ValidGraph(g: CompiledGraph) {
    && (g.childRuns.Some? ==> ValidPolicy(g.childRuns.value))
    && g.reference.definition.DefinitionDigest?
    && g.reference.definition.limits == if g.childRuns.Some? then Some(g.childRuns.value.limits) else None
  }

  /** `validate_target`: the pinned graph and schemas, at a smaller depth. */
  predicate TargetValid(d: Declaration, target: CompiledGraph, limits: TopologyLimits) {
    && target.reference == d.graph
    && target.inputSchema == d.inputSchema && target.outputSchema == d.outputSchema
    && Depth(target) < limits.depth
  }

  // ----- child admissions -----------------------------------------------------

  /** The logical owner of a child run; `digest` is the rank of its checksum. */
  datatype ChildRunKey = ChildRunKey(parent: NodeActivation, slot: Slot, digest: int)

  /** The checksum of a spawn binds everything but the child's candidate identities. */
  datatype SpawnDigest = SpawnDigest(
    key: ChildRunKey, parent: AdmissionDigest, tenant: int, descriptor: Descriptor, request: Request,
    layers: seq<PolicyLayer>, budget: ResolvedBudget, graph: GraphReference, authority: Authority,
    initialState: Digest, entryNodes: seq<NodeId>)

  datatype ChildIntent = ChildIntent(
    key: ChildRunKey, parentDigest: AdmissionDigest, child: AdmissionIntent, childGraph: CompiledGraph,
    initialState: CheckpointState, spawnDigest: SpawnDigest)

  /** `ChildRunAdmissionIntent::build`. */
  function BuildChild(key: ChildRunKey, parentDigest: AdmissionDigest, child: AdmissionIntent,
                      childGraph: CompiledGraph, initialState: CheckpointState): Option<ChildIntent> {
    if || key.parent.base.tenant != child.provenance.tenant
       || key.parent.base.run == child.provenance.run
       || key.parent.namespace != []
       || child.graph != childGraph.reference
       || child.descriptor.inputSchema != childGraph.inputSchema
       || child.descriptor.outputSchema != childGraph.outputSchema
       || initialState.schema != childGraph.reference.stateSchema
    then None
    else Some(ChildIntent(
      key, parentDigest, child, childGraph, initialState,
      SpawnDigest(key, parentDigest, child.provenance.tenant, child.descriptor, child.request, child.layers,
                  child.budget, child.graph, child.authority, initialState.digest, childGraph.entryNodes)))
  }

  /** What every intent of the source is: built from an admission intent, whose
      provenance names its own agent. */
  predicate Built(c: ChildIntent) {
    && c.child.provenance.agent == c.child.descriptor.agent
    && BuildChild(c.key, c.parentDigest, c.child, c.childGraph, c.initialState) == Some(c)
  }

  /** A child intent can be built exactly for a root activation of another run of
      the same tenant, when the child was admitted for this graph by an agent with
      the graph's schemas and starts with state of the graph's schema. It keeps its
      parts, and its checksum binds all of them but the candidate identities. */
  lemma {:induction false} ChildExact(key: ChildRunKey, parentDigest: AdmissionDigest, child: AdmissionIntent,
                                      childGraph: CompiledGraph, initialState: CheckpointState)
    ensures var r := BuildChild(key, parentDigest, child, childGraph, initialState);
            && (r.Some? <==>
                && key.parent.namespace == [] && key.parent.base.tenant == child.provenance.tenant
                && key.parent.base.run != child.provenance.run && child.graph == childGraph.reference
                && child.descriptor.inputSchema == childGraph.inputSchema
                && child.descriptor.outputSchema == childGraph.outputSchema
                && initialState.schema == childGraph.reference.stateSchema)
            && (r.Some? ==>
                var c, s := r.value, r.value.spawnDigest;
                && c == ChildIntent(key, parentDigest, child, childGraph, initialState, s)
                && s.key == key && s.parent == parentDigest && s.tenant == child.provenance.tenant
                && child == AdmissionIntent(child.provenance, s.descriptor, s.request, s.layers, s.budget, s.graph,
                                            s.authority)
                && s.initialState == initialState.digest && s.entryNodes == childGraph.entryNodes)
  {}

  /** `validate_parent`: same principal, no wider scopes, no wider budget. */
  predicate ParentValid(c: ChildIntent, parent: AgentAdmission) {
    && c.parentDigest == parent.digest
    && c.key.parent.base.tenant == parent.intent.provenance.tenant
    && c.key.parent.base.run == parent.intent.provenance.run
    && c.key.parent.base.graph == parent.intent.graph
    && parent.admittedAt <= c.key.parent.base.journalHead.recordedAt
    && c.child.authority.principal == parent.intent.authority.principal
    && c.child.authority.scopes <= parent.intent.authority.scopes
    && Narrows(c.child.budget, parent.intent.budget)
  }

  /** `validate_declaration`: the target is the one its parent graph declares. */
  predicate DeclarationValid(c: ChildIntent, parent: CompiledGraph) {
    && c.key.parent.base.graph == parent.reference
    && parent.childRuns.Some?
    && var d := Find(parent.childRuns.value.declarations, c.key.parent.node, c.key.slot);
       && d.Some?
       && TargetValid(d.value, c.childGraph, parent.childRuns.value.limits)
       && d.value.agent == AgentReference(c.child.descriptor.agent, c.child.descriptor)
  }

  /** The parent graph declares the child's agent and graph for the node and slot
      of its key, at a smaller depth. */
  ghost predicate DeclaredBy(c: ChildIntent, g: CompiledGraph) {
    && g.childRuns.Some?
    && exists d :: && d in g.childRuns.value.declarations
                   && d.node == c.key.parent.node && d.slot == c.key.slot
                   && d.agent.agent == c.child.descriptor.agent && d.agent.definition == c.child.descriptor
                   && d.graph == c.childGraph.reference
                   && d.inputSchema == c.childGraph.inputSchema && d.outputSchema == c.childGraph.outputSchema
                   && Depth(c.childGraph) < g.childRuns.value.limits.depth
  }

  lemma {:induction false} DeclarationExact(c: ChildIntent, g: CompiledGraph)
    requires ValidGraph(g)
    ensures DeclarationValid(c, g) <==> c.key.parent.base.graph == g.reference && DeclaredBy(c, g)
  {
    if g.childRuns.Some? {
      var ds := g.childRuns.value.declarations;
      FindIndex(ds, c.key.parent.node, c.key.slot);
      if d :| d in ds && d.node == c.key.parent.node && d.slot == c.key.slot {
        var i :| 0 <= i < |ds| && ds[i] == d;
        FoundKey(ds, i);
      }
    }
  }

  /** One node and slot of a parent graph always reach the same target. */
  lemma {:induction false} SlotReachesOneTarget(g: CompiledGraph, c: ChildIntent, d: ChildIntent)
    requires DeclarationValid(c, g) && DeclarationValid(d, g)
    requires c.key.parent.node == d.key.parent.node && c.key.slot == d.key.slot
    ensures c.childGraph.reference == d.childGraph.reference && c.child.descriptor == d.child.descriptor
  {}

  /** Two spawns have one checksum exactly when they agree in everything but the
      candidate run, thread and invocation of the child. */
  lemma {:induction false} SpawnExact(c: ChildIntent, d: ChildIntent)
    requires Built(c) && Built(d)
    ensures c.spawnDigest == d.spawnDigest <==>
            var p := c.child.provenance;
            && c.key == d.key && c.parentDigest == d.parentDigest && c.initialState.digest == d.initialState.digest
            && c.childGraph.entryNodes == d.childGraph.entryNodes
            && c.child == d.child.(provenance :=
                 d.child.provenance.(run := p.run, thread := p.thread, invocation := p.invocation))
  {
    assert c.child.provenance.tenant == c.key.parent.base.tenant;
    assert d.child.provenance.tenant == d.key.parent.base.tenant;
  }

  /** The activation of a ready node in the root graph. */
  function ReadyActivation(c: Checkpoint, node: NodeId): Option<NodeActivation> {
    if node in c.ready then Some(NodeActivation(Head(c), [], node, ReadyInputDigest(c.digest, [], node))) else None
  }

  /** `validate_for`, without the JSON schemas: the parent checks, a ready node of
      the parent's current checkpoint, and a clock between that checkpoint and
      both deadlines. */
  predicate FreshFor(c: ChildIntent, parent: AgentAdmission, checkpoint: Checkpoint, observedAt: Timestamp) {
    && ParentValid(c, parent)
    && c.key.parent.base == Head(checkpoint)
    && ReadyActivation(checkpoint, c.key.parent.node) == Some(c.key.parent)
    && checkpoint.journalHead.recordedAt <= observedAt
    && observedAt < c.child.budget.deadline && observedAt < parent.intent.budget.deadline
  }

  /** Where a child is spawned: the activation of a ready node on the parent's
      current checkpoint, in the parent's own run and graph. */
  predicate SpawnedAt(key: ChildRunKey, c: Checkpoint, parent: AgentAdmission) {
    && key.parent.node in c.ready
    && key.parent == NodeActivation(Head(c), [], key.parent.node, ReadyInputDigest(c.digest, [], key.parent.node))
    && c.tenant == parent.intent.provenance.tenant && c.run == parent.intent.provenance.run
    && c.graph == parent.intent.graph
  }

  /** What the child may do is no more than its parent may. */
  predicate NoWider(child: AdmissionIntent, parent: AdmissionIntent) {
    && child.provenance.tenant == parent.provenance.tenant && child.provenance.run != parent.provenance.run
    && child.authority.principal == parent.authority.principal && child.authority.scopes <= parent.authority.scopes
    && Narrows(child.budget, parent.budget)
  }

  /** A built child is fresh for its parent exactly when it is spawned at a ready node
      of the parent's current checkpoint, names the parent's admission, may do no
      more than its parent, and the clock is between the checkpoint, itself no
      earlier than the parent's admission, and the child's deadline. */
  lemma {:induction false} FreshExact(c: ChildIntent, parent: AgentAdmission, checkpoint: Checkpoint,
                                      observedAt: Timestamp)
    requires Built(c)
    ensures FreshFor(c, parent, checkpoint, observedAt) <==>
            && c.parentDigest == parent.digest && SpawnedAt(c.key, checkpoint, parent)
            && NoWider(c.child, parent.intent)
            && parent.admittedAt <= checkpoint.journalHead.recordedAt <= observedAt < c.child.budget.deadline
  {}

  // ----- chains of delegations ------------------------------------------------

  /** A run with the graph it executes. */
  datatype Run = Run(admission: AgentAdmission, graph: CompiledGraph)

  /** What a delegation is decided on. */
  datatype Spawn = Spawn(intent: ChildIntent, checkpoint: Checkpoint, observedAt: Timestamp)

  /** One delegation: the child was built, passed both checks and then committed. */
  predicate Delegates(parent: Run, s: Spawn, child: Run) {
    && Built(s.intent)
    && FreshFor(s.intent, parent.admission, s.checkpoint, s.observedAt)
    && DeclarationValid(s.intent, parent.graph)
    && s.observedAt <= child.admission.admittedAt
    && CommitIntent(s.intent.child, child.admission.admittedAt) == Some(child.admission)
    && child.graph == s.intent.childGraph
  }

  /** A delegation takes place exactly when a built child is spawned at a ready node
      of its parent's current checkpoint, is declared there, may do no more than its
      parent, and the admission of the parent, the checkpoint, the check and the
      child's own admission follow each other before both deadlines. */
  lemma {:induction false} DelegatesExact(parent: Run, s: Spawn, child: Run)
    requires ValidGraph(parent.graph)
    ensures Delegates(parent, s, child) <==>
            var c, admittedAt := s.intent, child.admission.admittedAt;
            && Built(c) && SpawnedAt(c.key, s.checkpoint, parent.admission)
            && parent.graph.reference == parent.admission.intent.graph && DeclaredBy(c, parent.graph)
            && NoWider(c.child, parent.admission.intent) && c.parentDigest == parent.admission.digest
            && parent.admission.admittedAt <= s.checkpoint.journalHead.recordedAt <= s.observedAt <= admittedAt
            && admittedAt < c.child.budget.deadline
            && child == Run(AgentAdmission(c.child, admittedAt, AdmissionDigest(c.child, admittedAt)), c.childGraph)
  {
    DeclarationExact(s.intent, parent.graph);
    if Built(s.intent) { FreshExact(s.intent, parent.admission, s.checkpoint, s.observedAt); }
    ZeroFits(s.intent.child.budget, child.admission.admittedAt);
  }

  ghost predicate IsDelegation(runs: seq<Run>, spawns: seq<Spawn>) {
    && |runs| == |spawns| + 1
    && (forall i :: 0 <= i < |runs| ==> ValidGraph(runs[i].graph))
    && forall i :: 0 <= i < |spawns| ==> Delegates(runs[i], spawns[i], runs[i + 1])
  }

  /** A descendant holds no authority and no budget its ancestor did not hold. */
  ghost predicate Contained(descendant: AgentAdmission, ancestor: AgentAdmission) {
    && descendant.intent.provenance.tenant == ancestor.intent.provenance.tenant
    && descendant.intent.authority.principal == ancestor.intent.authority.principal
    && descendant.intent.authority.scopes <= ancestor.intent.authority.scopes
    && Narrows(descendant.intent.budget, ancestor.intent.budget)
  }

  lemma {:induction false} DelegationContained(runs: seq<Run>, spawns: seq<Spawn>, i: nat, j: nat)
    requires IsDelegation(runs, spawns) && i <= j < |runs|
    ensures Contained(runs[j].admission, runs[i].admission)
  {
    if i == j {
      NarrowsReflexive(runs[i].admission.intent.budget);
    } else {
      DelegationContained(runs, spawns, i, j - 1);
      assert Delegates(runs[j - 1], spawns[j - 1], runs[j]);
      NarrowsTransitive(runs[j].admission.intent.budget, runs[j - 1].admission.intent.budget,
                        runs[i].admission.intent.budget);
    }
  }

  /** Every descendant is admitted no earlier than its ancestor and within the
      deadline of both: lifetimes nest along a chain. */
  lemma {:induction false} DelegationNested(runs: seq<Run>, spawns: seq<Spawn>, i: nat, j: nat)
    requires IsDelegation(runs, spawns) && i < j < |runs|
    ensures var ancestor, descendant := runs[i].admission, runs[j].admission;
            && ancestor.admittedAt <= descendant.admittedAt
            && descendant.admittedAt < descendant.intent.budget.deadline <= ancestor.intent.budget.deadline
  {
    assert Delegates(runs[j - 1], spawns[j - 1], runs[j]);
    ZeroFits(runs[j].admission.intent.budget, runs[j].admission.admittedAt);
    DelegationContained(runs, spawns, i, j);
    if i < j - 1 { DelegationNested(runs, spawns, i, j - 1); }
  }

  lemma {:induction false} DepthDecreases(runs: seq<Run>, spawns: seq<Spawn>, i: nat, j: nat)
    requires IsDelegation(runs, spawns) && i <= j < |runs|
    ensures Depth(runs[j].graph) + (j - i) <= Depth(runs[i].graph)
  {
    if i < j {
      DepthDecreases(runs, spawns, i, j - 1);
      assert Delegates(runs[j - 1], spawns[j - 1], runs[j]);
    }
  }

  /** Delegation terminates: a chain has no more edges than its root's declared
      depth, at most 32, and no two of its runs execute the same graph reference. */
  lemma {:induction false} DelegationTerminates(runs: seq<Run>, spawns: seq<Spawn>)
    requires IsDelegation(runs, spawns)
    ensures |spawns| <= Depth(runs[0].graph) <= MAX_DEPTH
    ensures forall i, j :: 0 <= i < j < |runs| ==> runs[i].graph.reference != runs[j].graph.reference
  {
    DepthDecreases(runs, spawns, 0, |spawns|);
    assert ValidGraph(runs[0].graph) && ValidGraph(runs[|spawns|].graph);
    forall i, j | 0 <= i < j < |runs| ensures runs[i].graph.reference != runs[j].graph.reference {
      DepthDecreases(runs, spawns, i, j);
      assert ValidGraph(runs[i].graph) && ValidGraph(runs[j].graph);
    }
  }

  /** A result accepted for a descendant would be accepted against the budget of
      every ancestor, which would have at least as much left. */
  lemma {:induction false} DescendantUsageAccepted(runs: seq<Run>, spawns: seq<Spawn>, i: nat, j: nat,
                                                   result: AgentResult)
    requires IsDelegation(runs, spawns) && i <= j < |runs|
    requires var a := runs[j].admission.intent;
             ResultAccepted(result, a.provenance, a.request, a.descriptor, a.budget)
    ensures var outer := Remaining(runs[i].admission.intent.budget, result.usage, result.completedAt);
            var inner := Remaining(runs[j].admission.intent.budget, result.usage, result.completedAt);
            outer.Some? && inner.Some? && LeavesAtLeast(outer.value, inner.value)
  {
    DelegationContained(runs, spawns, i, j);
    NarrowerSimulated(runs[j].admission.intent.budget, runs[i].admission.intent.budget,
                      result.usage, result.completedAt);
  }
}
