/**
  Agent admission (agent_admission.rs, agent_runtime.rs).

  Two paths derive the budget of a run: `resolve_for` keeps the caller's layer
  order, while an admission intent sorts its policy layers by source before a
  commit rechecks the deadline. `PathsAgree` shows that they accept the same
  requests with the same budget.
 */
module Admission {
  import opened Prelude
  import opened Usage
  import opened Budgets
  import opened Checkpoints
  import Costs

  type Scope = int

  /** A policy layer under the identity of its source, as a rank. */
  datatype PolicyLayer = PolicyLayer(source: int, limits: BudgetLimits)

  datatype Provenance = Provenance(tenant: int, run: int, thread: int, invocation: int, agent: int)

  datatype Descriptor = Descriptor(
    agent: int, retired: bool, requiredScopes: set<Scope>,
    inputSchema: SchemaReference, outputSchema: SchemaReference, limits: BudgetLimits)

  datatype Request = Request(inputSchema: SchemaReference, inputBytes: U64, limits: BudgetLimits)

  datatype Authority = Authority(principal: int, scopes: set<Scope>)

  datatype AdmissionIntent = AdmissionIntent(
    provenance: Provenance, descriptor: Descriptor, request: Request, layers: seq<PolicyLayer>,
    budget: ResolvedBudget, graph: GraphReference, authority: Authority)

  /** A committed admission; its checksum is a term over the intent and the time. */
  datatype AdmissionDigest = AdmissionDigest(intent: AdmissionIntent, admittedAt: Timestamp)

  datatype AgentAdmission = AgentAdmission(intent: AdmissionIntent, admittedAt: Timestamp, digest: AdmissionDigest)

  // ----- layers ---------------------------------------------------------------

  function OwnLayers(d: Descriptor, r: Request): seq<BudgetLimits> {
    (if IsEmpty(d.limits) then [] else [d.limits]) + (if IsEmpty(r.limits) then [] else [r.limits])
  }

  function Limits(layers: seq<PolicyLayer>): seq<BudgetLimits> {
    seq(|layers|, i requires 0 <= i < |layers| => layers[i].limits)
  }

  /** Pushes the agent's and the request's limits, where they state any. */
  method PushOwn(base: seq<BudgetLimits>, d: Descriptor, r: Request) returns (layers: seq<BudgetLimits>)
    ensures layers == base + OwnLayers(d, r)
  {
    layers := base;
    if !IsEmpty(d.limits) {
      layers := layers + [d.limits];
    }
    if !IsEmpty(r.limits) {
      layers := layers + [r.limits];
    }
  }

  predicate InputFits(d: Descriptor, r: Request, b: ResolvedBudget) {
    r.inputSchema == d.inputSchema && r.inputBytes <= b.limits[INPUT_BYTES]
  }

  /** The budget of a request over base layers in the caller's order. */
  function Resolved(d: Descriptor, r: Request, base: seq<BudgetLimits>, t: Timestamp): Option<ResolvedBudget> {
    var b := Resolve(base + OwnLayers(d, r));
    if d.retired || b.None? || Remaining(b.value, Zero(), t).None? || !InputFits(d, r, b.value) then None else b
  }

  /** `AgentRequest::resolve_for`: extends the base layers by the nonempty own ones. */
  method ResolveFor(d: Descriptor, r: Request, base: seq<BudgetLimits>, t: Timestamp)
    returns (b: Option<ResolvedBudget>)
    ensures b == Resolved(d, r, base, t)
  {
    if d.retired || r.inputSchema != d.inputSchema {
      return None;
    }
    var additional := (if IsEmpty(d.limits) then 0 else 1) + (if IsEmpty(r.limits) then 0 else 1);
    if |base| + additional > MAX_BUDGET_LAYERS {
      return None;
    }
    var layers := PushOwn(base, d, r);
    b := ResolveLayers(layers);
    if b.None? || Remaining(b.value, Zero(), t).None? || !InputFits(d, r, b.value) {
      return None;
    }
  }

  /** A layer that states anything at all. */
  function Stated(l: BudgetLimits): seq<BudgetLimits> {
    if l == NoLimits() then [] else [l]
  }

  lemma OwnStated(d: Descriptor, r: Request)
    ensures OwnLayers(d, r) == Stated(d.limits) + Stated(r.limits)
  {
    EmptyStates(d.limits);
    EmptyStates(r.limits);
  }

  lemma EmptyStates(l: BudgetLimits)
    ensures IsEmpty(l) <==> l == NoLimits()
  {
    if IsEmpty(l) { assert l.limits == NoLimits().limits; }
  }

  /** A budget is returned exactly for a live agent whose input schema the request
      names, when the layers resolve to it, its deadline is ahead and the input is
      no larger than its limit. */
  lemma ResolvedExact(d: Descriptor, r: Request, base: seq<BudgetLimits>, t: Timestamp, b: ResolvedBudget)
    ensures Resolved(d, r, base, t) == Some(b) <==>
            && !d.retired && r.inputSchema == d.inputSchema
            && Resolve(base + (Stated(d.limits) + Stated(r.limits))) == Some(b)
            && t < b.deadline && r.inputBytes <= b.limits[INPUT_BYTES]
  {
    OwnStated(d, r);
    ZeroFits(b, t);
  }

  // ----- the layers of an intent ----------------------------------------------

  predicate SourceOrder(s: seq<PolicyLayer>) {
    forall i, j :: 0 <= i < j < |s| ==> s[i].source < s[j].source
  }

  predicate DistinctSources(s: seq<PolicyLayer>) {
    forall i, j :: 0 <= i < j < |s| ==> s[i].source != s[j].source
  }

  predicate HasSource(s: seq<PolicyLayer>, source: int) {
    exists i :: 0 <= i < |s| && s[i].source == source
  }

  /** Insertion into a map ordered by source, for a source it does not hold. */
  function InsertLayer(s: seq<PolicyLayer>, l: PolicyLayer): seq<PolicyLayer> {
    if s == [] || s[|s| - 1].source < l.source then s + [l]
    else InsertLayer(s[..|s| - 1], l) + [s[|s| - 1]]
  }

  function Sorted(s: seq<PolicyLayer>): seq<PolicyLayer> {
    if s == [] then [] else InsertLayer(Sorted(s[..|s| - 1]), s[|s| - 1])
  }

  lemma {:induction false} InsertContents(s: seq<PolicyLayer>, l: PolicyLayer)
    ensures |InsertLayer(s, l)| == |s| + 1
    ensures forall x :: x in InsertLayer(s, l) <==> x == l || x in s
  {
    if s != [] {
      assert s == s[..|s| - 1] + [s[|s| - 1]];
      InsertContents(s[..|s| - 1], l);
    }
  }

  lemma {:induction false} SortedContents(s: seq<PolicyLayer>)
    ensures |Sorted(s)| == |s|
    ensures forall x :: x in Sorted(s) <==> x in s
  {
    if s != [] {
      assert s == s[..|s| - 1] + [s[|s| - 1]];
      SortedContents(s[..|s| - 1]);
      InsertContents(Sorted(s[..|s| - 1]), s[|s| - 1]);
    }
  }

  lemma {:induction false} InsertOrder(s: seq<PolicyLayer>, l: PolicyLayer)
    requires SourceOrder(s) && !HasSource(s, l.source)
    ensures SourceOrder(InsertLayer(s, l))
  {
    if s != [] && s[|s| - 1].source > l.source {
      var init, last := s[..|s| - 1], s[|s| - 1];
      InsertOrder(init, l);
      InsertContents(init, l);
      var r := InsertLayer(init, l);
      forall i | 0 <= i < |r| ensures r[i].source < last.source {
        assert r[i] in r;
        assert r[i] == l || r[i] in init;
      }
    }
  }

  lemma {:induction false} SortedOrder(s: seq<PolicyLayer>)
    requires DistinctSources(s)
    ensures SourceOrder(Sorted(s))
  {
    if s != [] {
      var n := |s| - 1;
      SortedOrder(s[..n]);
      SameSources(s[..n], s[n].source);
      InsertOrder(Sorted(s[..n]), s[n]);
    }
  }

  lemma {:induction false} SameSources(s: seq<PolicyLayer>, source: int)
    ensures HasSource(Sorted(s), source) <==> HasSource(s, source)
  {
    SortedContents(s);
    if HasSource(s, source) {
      var i :| 0 <= i < |s| && s[i].source == source;
      assert s[i] in Sorted(s);
    }
    if HasSource(Sorted(s), source) {
      var i :| 0 <= i < |Sorted(s)| && Sorted(s)[i].source == source;
      assert Sorted(s)[i] in s;
    }
  }

  lemma {:induction false} RepeatedSource(layers: seq<PolicyLayer>, k: nat)
    requires k < |layers| && DistinctSources(layers[..k])
    ensures if HasSource(layers[..k], layers[k].source) then !DistinctSources(layers)
            else DistinctSources(layers[..k + 1])
  {
    var before, longer := layers[..k], layers[..k + 1];
    if HasSource(before, layers[k].source) {
      var i :| 0 <= i < k && before[i].source == layers[k].source;
      assert layers[i].source == layers[k].source;
    } else {
      forall i, j | 0 <= i < j < |longer| ensures longer[i].source != longer[j].source {
        assert before[i] == longer[i];
        if j < k { assert before[j] == longer[j]; }
      }
    }
  }

  /** Fills the ordered map layer by layer: refused exactly for a repeated
      source or more layers than fit beside the own ones. */
  method CollectLayers(layers: seq<PolicyLayer>, maximum: nat) returns (r: Option<seq<PolicyLayer>>)
    ensures r.Some? <==> DistinctSources(layers) && |layers| <= maximum
    ensures r.Some? ==> r.value == Sorted(layers)
  {
    var ordered: seq<PolicyLayer> := [];
    for k := 0 to |layers|
      invariant ordered == Sorted(layers[..k]) && |ordered| == k <= maximum
      invariant DistinctSources(layers[..k])
    {
      if |ordered| == maximum {
        return None;
      }
      var layer := layers[k];
      SameSources(layers[..k], layer.source);
      RepeatedSource(layers, k);
      if HasSource(ordered, layer.source) {
        return None;
      }
      assert layers[..k + 1][..k] == layers[..k];
      InsertContents(ordered, layer);
      ordered := InsertLayer(ordered, layer);
    }
    assert layers[..|layers|] == layers;
    r := Some(ordered);
  }

  // ----- intents and commits --------------------------------------------------

  function Intent(p: Provenance, d: Descriptor, r: Request, layers: seq<PolicyLayer>, graph: GraphReference,
                  authority: Authority): Option<AdmissionIntent> {
    if d.retired || p.agent != d.agent || !(d.requiredScopes <= authority.scopes) || !DistinctSources(layers) then None
    else
      var b := Resolve(Limits(Sorted(layers)) + OwnLayers(d, r));
      if b.None? || !InputFits(d, r, b.value) then None
      else Some(AdmissionIntent(p, d, r, Sorted(layers), b.value, graph, authority))
  }

  /** `AgentAdmissionIntent::build`, from caller-supplied fields. */
  method BuildIntent(p: Provenance, d: Descriptor, r: Request, layers: seq<PolicyLayer>, graph: GraphReference,
                     authority: Authority) returns (intent: Option<AdmissionIntent>)
    ensures intent == Intent(p, d, r, layers, graph, authority)
  {
    if d.retired || p.agent != d.agent || !(d.requiredScopes <= authority.scopes) {
      return None;
    }
    var additional := (if IsEmpty(d.limits) then 0 else 1) + (if IsEmpty(r.limits) then 0 else 1);
    assert additional == |OwnLayers(d, r)|;
    SortedContents(layers);
    var ordered := CollectLayers(layers, MAX_BUDGET_LAYERS - additional);
    if ordered.None? {
      return None;
    }
    var limits := PushOwn(Limits(ordered.value), d, r);
    var b := ResolveLayers(limits);
    if b.None? || !InputFits(d, r, b.value) {
      return None;
    }
    intent := Some(AdmissionIntent(p, d, r, ordered.value, b.value, graph, authority));
  }

  /** `AgentAdmission::commit`, at the durable clock observation. */
  function CommitIntent(intent: AdmissionIntent, admittedAt: Timestamp): Option<AgentAdmission> {
    if Remaining(intent.budget, Zero(), admittedAt).None? then None
    else Some(AgentAdmission(intent, admittedAt, AdmissionDigest(intent, admittedAt)))
  }

  function Admit(p: Provenance, d: Descriptor, r: Request, layers: seq<PolicyLayer>, graph: GraphReference,
                 authority: Authority, t: Timestamp): Option<AgentAdmission> {
    var intent := Intent(p, d, r, layers, graph, authority);
    if intent.None? then None else CommitIntent(intent.value, t)
  }

  lemma {:induction false} SortedResolves(layers: seq<PolicyLayer>, own: seq<BudgetLimits>)
    ensures Resolve(Limits(Sorted(layers)) + own) == Resolve(Limits(layers) + own)
  {
    SortedContents(layers);
    var x, y := Limits(Sorted(layers)) + own, Limits(layers) + own;
    if |x| <= MAX_BUDGET_LAYERS {
      forall l ensures l in x <==> l in y {
        LimitsMember(layers, l);
        LimitsMember(Sorted(layers), l);
      }
      ResolveOrderIrrelevant(x, y);
    }
  }

  lemma {:induction false} LimitsMember(layers: seq<PolicyLayer>, l: BudgetLimits)
    ensures l in Limits(layers) <==> exists x :: x in layers && x.limits == l
  {
    if l in Limits(layers) {
      var i :| 0 <= i < |layers| && Limits(layers)[i] == l;
      assert layers[i] in layers;
    }
    if x :| x in layers && x.limits == l {
      var i :| 0 <= i < |layers| && layers[i] == x;
      assert Limits(layers)[i] == l;
    }
  }

  /** Building and committing an intent succeeds exactly when its identity,
      scopes and distinct sources pass and `resolve_for` succeeds at the commit
      time, and it admits the budget `resolve_for` returns. */
  lemma PathsAgree(p: Provenance, d: Descriptor, r: Request, layers: seq<PolicyLayer>, graph: GraphReference,
                   authority: Authority, t: Timestamp)
    ensures var direct := Resolved(d, r, Limits(layers), t);
            var admitted := Admit(p, d, r, layers, graph, authority, t);
            && (admitted.Some? <==>
                direct.Some? && p.agent == d.agent && d.requiredScopes <= authority.scopes && DistinctSources(layers))
            && (admitted.Some? ==> admitted.value.intent.budget == direct.value)
  {
    SortedResolves(layers, OwnLayers(d, r));
  }

  /** A run is admitted exactly when the agent is live and named by the provenance,
      its scopes are granted, no policy source repeats, the layers in any order
      resolve to a budget whose deadline is ahead, and the input has the agent's
      schema and fits. The admission is then the given parts, the layers in
      source order. */
  lemma {:induction false} AdmitExact(p: Provenance, d: Descriptor, r: Request, layers: seq<PolicyLayer>,
                                      graph: GraphReference, authority: Authority, t: Timestamp, a: AgentAdmission)
    ensures Admit(p, d, r, layers, graph, authority, t) == Some(a) <==>
            var b := a.intent.budget;
            && !d.retired && p.agent == d.agent && d.requiredScopes <= authority.scopes && DistinctSources(layers)
            && Resolve(Limits(layers) + (Stated(d.limits) + Stated(r.limits))) == Some(b)
            && t < b.deadline && r.inputSchema == d.inputSchema && r.inputBytes <= b.limits[INPUT_BYTES]
            && a.intent == AdmissionIntent(p, d, r, Sorted(layers), b, graph, authority)
            && a.admittedAt == t && a.digest == AdmissionDigest(a.intent, t)
  {
    OwnStated(d, r);
    SortedResolves(layers, OwnLayers(d, r));
    ZeroFits(a.intent.budget, t);
  }

  /** An admitted run has a live agent whose scopes were granted, an open
      deadline and an input that fits; its budget is within every policy layer,
      the agent's limits and the request's. */
  lemma {:induction false} AdmittedWithin(p: Provenance, d: Descriptor, r: Request, layers: seq<PolicyLayer>,
                                          graph: GraphReference, authority: Authority, t: Timestamp)
    requires Admit(p, d, r, layers, graph, authority, t).Some?
    ensures var a := Admit(p, d, r, layers, graph, authority, t).value;
            var b := a.intent.budget;
            && !d.retired && p.agent == d.agent && d.requiredScopes <= a.intent.authority.scopes
            && r.inputSchema == d.inputSchema && r.inputBytes <= b.limits[INPUT_BYTES] && t < b.deadline
            && Valid(b) && WithinAll(b, Limits(layers)) && Within(b, d.limits) && Within(b, r.limits)
            && a.admittedAt == t && a.intent.graph == graph && a.intent.provenance == p
  {
    var b := Admit(p, d, r, layers, graph, authority, t).value.intent.budget;
    SortedResolves(layers, OwnLayers(d, r));
    ZeroFits(b, t);
    WithinOwn(d, r, Limits(layers), b);
  }

  lemma {:induction false} WithinOwn(d: Descriptor, r: Request, base: seq<BudgetLimits>, b: ResolvedBudget)
    requires Resolve(base + OwnLayers(d, r)) == Some(b)
    ensures Valid(b) && WithinAll(b, base) && Within(b, d.limits) && Within(b, r.limits)
  {
    var all := base + OwnLayers(d, r);
    NarrowsReflexive(b);
    ResolveGreatest(all, b);
    forall i | 0 <= i < |base| ensures Within(b, base[i]) { assert all[i] == base[i]; }
    if !IsEmpty(d.limits) { assert all[|base|] == d.limits; }
    if !IsEmpty(r.limits) { assert all[|all| - 1] == r.limits; }
  }

  // ----- one intent per set of layers -----------------------------------------

  function Sources(s: seq<PolicyLayer>): seq<int> {
    seq(|s|, i requires 0 <= i < |s| => s[i].source)
  }

  lemma {:induction false} SourcesMember(s: seq<PolicyLayer>, source: int)
    ensures source in Sources(s) <==> HasSource(s, source)
  {
    if source in Sources(s) {
      var i :| 0 <= i < |Sources(s)| && Sources(s)[i] == source;
      assert s[i].source == source;
    }
    if HasSource(s, source) {
      var i :| 0 <= i < |s| && s[i].source == source;
      assert Sources(s)[i] == source;
    }
  }

  lemma {:induction false} OrderUnique(x: seq<PolicyLayer>, y: seq<PolicyLayer>)
    requires SourceOrder(x) && SourceOrder(y) && forall l :: l in x <==> l in y
    ensures x == y
  {
    forall source ensures source in Sources(x) <==> source in Sources(y) {
      SourcesMember(x, source);
      SourcesMember(y, source);
      SourceCarries(x, y, source);
      SourceCarries(y, x, source);
    }
    AscendingUnique(Sources(x), Sources(y));
    assert |Sources(x)| == |x| && |Sources(y)| == |y|;
    forall i | 0 <= i < |x| ensures x[i] == y[i] {
      assert x[i] in y;
      var j :| 0 <= j < |y| && y[j] == x[i];
      assert Sources(x)[i] == Sources(y)[i] == Sources(y)[j];
    }
  }

  lemma {:induction false} SourceCarries(x: seq<PolicyLayer>, y: seq<PolicyLayer>, source: int)
    requires forall l :: l in x ==> l in y
    ensures HasSource(x, source) ==> HasSource(y, source)
  {
    if HasSource(x, source) {
      var i :| 0 <= i < |x| && x[i].source == source;
      assert x[i] in y;
    }
  }

  /** Policy layers given in another order make the same intent, whole. */
  lemma IntentOrderIrrelevant(p: Provenance, d: Descriptor, r: Request, x: seq<PolicyLayer>, y: seq<PolicyLayer>,
                              graph: GraphReference, authority: Authority)
    requires DistinctSources(x) && DistinctSources(y) && forall l :: l in x <==> l in y
    ensures Intent(p, d, r, x, graph, authority) == Intent(p, d, r, y, graph, authority)
  {
    SortedOrder(x);
    SortedOrder(y);
    SortedContents(x);
    SortedContents(y);
    OrderUnique(Sorted(x), Sorted(y));
  }

  /** Restoring a stored intent rebuilds it from its own fields and compares the
      budget and the checksum, a term over the whole. */
  function RestoreIntent(i: AdmissionIntent): Option<AdmissionIntent> {
    var rebuilt := Intent(i.provenance, i.descriptor, i.request, i.layers, i.graph, i.authority);
    if rebuilt.Some? && rebuilt.value.budget == i.budget && rebuilt.value == i then rebuilt else None
  }

  /** Restoring returns the stored intent or nothing, and returns it exactly when it
      was built from its own parts, whatever the order of the layers was. */
  lemma RestoreIntentExact(i: AdmissionIntent, layers: seq<PolicyLayer>)
    requires DistinctSources(layers) && forall l :: l in layers <==> l in i.layers
    ensures RestoreIntent(i) ==
            if DistinctSources(i.layers)
               && Intent(i.provenance, i.descriptor, i.request, layers, i.graph, i.authority) == Some(i)
            then Some(i) else None
  {
    if DistinctSources(i.layers) {
      IntentOrderIrrelevant(i.provenance, i.descriptor, i.request, layers, i.layers, i.graph, i.authority);
    }
  }

  /** Every intent that was built restores to itself. */
  lemma IntentRestores(p: Provenance, d: Descriptor, r: Request, layers: seq<PolicyLayer>, graph: GraphReference,
                       authority: Authority)
    requires Intent(p, d, r, layers, graph, authority).Some?
    ensures var i := Intent(p, d, r, layers, graph, authority); RestoreIntent(i.value) == i
  {
    SortedOrder(layers);
    SortedContents(layers);
    IntentOrderIrrelevant(p, d, r, layers, Sorted(layers), graph, authority);
  }

  // ----- terminal results -----------------------------------------------------

  datatype AgentResult = AgentResult(
    provenance: Provenance, outputSchema: SchemaReference, usage: BudgetUsage, completedAt: Timestamp)

  /** `AgentResult::validate_for`: the result of exactly this run, fully
      accounted and within its budget when it completed. */
  predicate ResultAccepted(result: AgentResult, expected: Provenance, r: Request, d: Descriptor, b: ResolvedBudget) {
    && expected.agent == d.agent
    && result.provenance == expected
    && InputFits(d, r, b)
    && r.inputBytes <= result.usage.counts[INPUT_BYTES]
    && result.outputSchema == d.outputSchema
    && Remaining(b, result.usage, result.completedAt).Some?
  }

  /** A result is accepted exactly when it is of the expected run and agent, the
      request is still one of that agent within the budget, its input is accounted
      for, and its usage is within every limit of the budget before the deadline. */
  lemma ResultExact(result: AgentResult, expected: Provenance, r: Request, d: Descriptor, b: ResolvedBudget)
    ensures ResultAccepted(result, expected, r, d, b) <==>
            && result.provenance == expected && expected.agent == d.agent
            && r.inputSchema == d.inputSchema && result.outputSchema == d.outputSchema
            && r.inputBytes <= b.limits[INPUT_BYTES] && r.inputBytes <= result.usage.counts[INPUT_BYTES]
            && result.completedAt < b.deadline && result.usage.unpriced == 0
            && (forall k :: 0 <= k < DIMENSIONS ==> result.usage.counts[k] <= b.limits[k])
            && Costs.WithinCosts(result.usage.costs, b.costs)
  {
    Costs.AffordableExact(b.costs, result.usage.costs);
  }

  /** For an admitted run that is: its own identity, the agent's output schema, its
      whole input accounted for, and usage within the admitted budget. */
  lemma {:induction false} AdmittedResult(p: Provenance, d: Descriptor, r: Request, layers: seq<PolicyLayer>,
                                          graph: GraphReference, authority: Authority, t: Timestamp,
                                          a: AgentAdmission, result: AgentResult)
    requires Admit(p, d, r, layers, graph, authority, t) == Some(a)
    ensures ResultAccepted(result, a.intent.provenance, r, d, a.intent.budget) <==>
            && result.provenance == p && result.outputSchema == d.outputSchema
            && r.inputBytes <= result.usage.counts[INPUT_BYTES]
            && Remaining(a.intent.budget, result.usage, result.completedAt).Some?
  {
    AdmitExact(p, d, r, layers, graph, authority, t, a);
  }
}
