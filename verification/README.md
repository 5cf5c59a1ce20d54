# StateKnot in Dafny

StateKnot is a runtime for durable agent runs. This project models the parts of it
that carry unbounded obligations and proves them for all inputs, all runs and all
interleavings.

- **Budgets.** `Costs`, `Usage` and `Budgets` model the algebra: layered limits
  intersected into a finite budget, usage with sixteen additive and three
  high-water dimensions, checked 64-bit addition, and currency amounts in arrays
  of at most sixteen entries. `Reservations` models ceilings reserved for
  children, `Accounts` and `Ledger` the account of a parent run over any sequence
  of reservations, settlements and direct observations, `Transitions` states when
  each of these is accepted, `Overruns` gives two accounts that end over budget,
  and `Trees` models the accounts of a whole tree of runs.
- **Admission and delegation.** `Admission` models the two ways the budget of a
  request is derived, `Delegation` the declared targets, the narrowing of a child
  and chains of delegations.
- **Checkpoints.** `Checkpoints` models construction and the streaming reverse
  verifier, `Barriers` the step that consumes one result per ready node.
- **Artifacts.** `Staging` models the multipart writer and the verified reads,
  `Publication` the protocol that stages, copies if absent, verifies and
  registers, `Registration` the bytes that identify a registration.
- **Counters.** `Decimal` models their canonical text.

How things are represented:

- A cost collection is a strictly ascending sequence, as the source stores it, so
  that binary search and equality of representations are part of the proofs. A
  currency code, a node identity, a slot and a policy source are integers: their
  position in the byte order the source compares them by. A `BTreeMap` or
  `BTreeSet` filled in a loop is a sequence kept in that order by insertion.
- The nineteen scalar dimensions are positions of one array, in declaration order.
- A checksum is a term over the value it binds, so that two are equal exactly when
  their preimages are. JSON appears with the canonical bytes of section 3.2 of
  RFC 8785, absent where it has none; the SHA-256 of content is a term over the
  bytes. Clocks, identifiers and object versions are parameters.
- `None` stands for every refusal. Which error is reported is modelled only in
  `Decimal`.
- A call to the object store or the registry may take effect without being
  acknowledged, or late. In `Staging` this is nondeterminism inside the store's
  methods, which a faultless store does not have; in `Publication` it is a step of
  its own, and staged objects may change or vanish at any step. Success is stated
  for every environment, and completeness, that nothing possible is refused, for a
  faultless store and for an ingestion that nothing disturbs.
- Loops and objects that the source updates in place are methods and classes, each
  proved against a function of its inputs or of its old state.

Preconditions such as `Valid`, `Consistent`, `ValidCheckpoint` or `IsReadySet`
state what the source's own constructors guarantee of a value of that type.

Two properties hold only under a condition, which is stated exactly and for which a
failing input is given. Accumulating and subtracting undo each other exactly when
the contribution names no currency the other side lacks
(`Usage.SubtractUndoesAccumulate`, `Usage.AccumulateUndoesSubtract`; failing inputs
`Usage.RoundTripFails`, `Usage.RestorationFails`). An account stays covered exactly
when each recorded observation and each settlement passes the capacity check that
`observe_direct` and `settle` themselves do not make (`Ledger.StepCovered`,
`Ledger.RunCovered`; failing inputs `Overruns.ObservationOverruns`,
`Overruns.SettlementOverruns`); `Ledger.OverrunBlocksForever` shows what follows
when one does not.

## Model

| member | source | states |
|---|---|---|
| Costs.Canonical | crates/stateknot-core/src/budget.rs:20-60 | two cost arrays that record the same currencies at the same amounts are the same array |
| Costs.Get | crates/stateknot-core/src/budget.rs:63-68 | binary search returns the entry of a currency exactly when there is one |
| Costs.CollectCosts | crates/stateknot-core/src/budget.rs:358-383 | any order of distinct currencies, at most sixteen, becomes the ascending array with the same amounts; every other input is refused |
| Costs.CheckedAccumulateCosts | crates/stateknot-core/src/budget.rs:235-259 | the map-filling loop computes the tally of both arrays or refuses |
| Costs.AccumulateExact | crates/stateknot-core/src/budget.rs:235-259 | a sum exists exactly when no amount overflows 64 bits and the currencies of both operands together are at most sixteen; it records every one of them at the sum of its amounts |
| Costs.SumIsAccumulate | crates/stateknot-core/src/budget.rs:235-259 | any array with the summed amounts is the result: the sum is unique and nothing is refused that could be stored |
| Costs.AccumulateRegroups | crates/stateknot-core/src/budget.rs:235-259 | adding three arrays does not depend on the grouping, in definedness or in value |
| Costs.RestrictAmount | crates/stateknot-core/src/budget.rs:70-81 | the intersection of two ceilings keeps the common currencies at the smaller amount |
| Costs.DeductTable | crates/stateknot-core/src/budget.rs:2116-2127 | the unchecked currency subtraction never goes below zero on amounts that passed the comparison before it |
| Costs.AffordableExact | crates/stateknot-core/src/budget.rs:2099-2110 | the entry-by-entry comparison bounds every currency, listed or not |
| Usage.AccumulateCombines | crates/stateknot-core/src/budget.rs:1530-1621 | accumulation returns exactly the usage in which cumulative counts, amounts and unpriced events add up and each peak is the higher one, and is refused exactly when no storable usage is that |
| Usage.AccumulateZero | crates/stateknot-core/src/budget.rs:1530-1621 | zero usage is the identity of accumulation on both sides |
| Usage.AccumulateCommutative | crates/stateknot-core/src/budget.rs:1530-1621 | accumulation is commutative, in definedness and in value |
| Usage.AccumulateAssociative | crates/stateknot-core/src/budget.rs:1530-1621 | accumulation is associative, in definedness and in value, with sums, maxima, overflow and the currency cap |
| Usage.MonotonicExact | crates/stateknot-core/src/budget.rs:1395-1440 | the monotonicity check compares every dimension and every currency |
| Usage.MonotonicTransitive | crates/stateknot-core/src/budget.rs:1395-1440 | monotonic observations chain |
| Usage.AccumulateMonotonic | crates/stateknot-core/src/budget.rs:1530-1621 | a sum is monotonic after both operands and keeps the three subset relations |
| Usage.NeverRegresses | crates/stateknot-core/src/budget.rs:1395-1440 | along any sequence of accumulations no prefix total exceeds a later one |
| Usage.CheckedSubtractCumulative | crates/stateknot-core/src/budget.rs:1237-1374 | subtraction succeeds exactly when the contribution is within the total and the subset relations survive, and returns total minus contribution with the peaks kept |
| Usage.RemovableFits | crates/stateknot-core/src/budget.rs:1330-1374 | every difference it computes is a 64-bit count, so none of its unchecked subtractions underflows |
| Usage.SubtractUndoesAccumulate | crates/stateknot-core/src/budget.rs:1237-1374 | subtracting what was just accumulated succeeds and gives back the original up to zero entries; it is the original exactly when the contribution named no new currency |
| Usage.AccumulateUndoesSubtract | crates/stateknot-core/src/budget.rs:1237-1374 | accumulating what was subtracted restores the total exactly when the total listed every currency the contribution names |
| Usage.RoundTripFails | crates/stateknot-core/src/budget.rs:1237-1374 | a contribution naming a new currency at nothing is not undone to the original |
| Usage.RestorationFails | crates/stateknot-core/src/budget.rs:1237-1374 | a contribution naming a currency the total lacks does not restore the total |
| Budgets.ResolveLayers | crates/stateknot-core/src/budget.rs:868-932 | the folding loop computes the intersection of the layers, clamped, or refuses |
| Budgets.Clamped | crates/stateknot-core/src/budget.rs:963-983 | a resolved budget satisfies the three subset relations |
| Budgets.ResolveDefined | crates/stateknot-core/src/budget.rs:868-932 | resolution succeeds exactly for one to sixteen layers that together state the deadline, the costs and every dimension |
| Budgets.EffectiveWithin | crates/stateknot-core/src/budget.rs:716-759 | a budget is within the intersection exactly when it is within every layer |
| Budgets.ResolveGreatest | crates/stateknot-core/src/budget.rs:868-932 | the resolved budget is the greatest lower bound: the valid budgets that narrow it are exactly those within every layer |
| Budgets.ResolveOrderIrrelevant | crates/stateknot-core/src/budget.rs:868-932 | layers in another order, or repeated, resolve to the same budget |
| Budgets.LayerNarrows | crates/stateknot-core/src/budget.rs:716-759 | one more layer always resolves, to a budget that passes the narrowing check against the old one |
| Budgets.NarrowsReflexive | crates/stateknot-core/src/budget.rs:812-857 | narrowing is reflexive |
| Budgets.NarrowsTransitive | crates/stateknot-core/src/budget.rs:812-857 | narrowing is transitive |
| Budgets.NarrowsAntisymmetric | crates/stateknot-core/src/budget.rs:812-857 | budgets that narrow each other are equal, because cost arrays are canonical |
| Budgets.RemainingExact | crates/stateknot-core/src/budget.rs:1813-1916 | evaluation returns a remainder exactly when the deadline is ahead and usage plus that remainder is the budget, in every dimension and currency, with nothing unpriced |
| Budgets.NarrowerSimulated | crates/stateknot-core/src/budget.rs:812-857 | usage a narrower budget accepts is accepted by the wider one, which has at least as much left |
| Budgets.CostsCompose | crates/stateknot-core/src/budget.rs:2095-2128 | charging two cost arrays one after the other succeeds exactly when charging their sum does, with the same rest |
| Budgets.DeductComposes | crates/stateknot-core/src/budget.rs:1935-2016 | deducting cumulative usage from a remainder is evaluating the accumulated total: same success, same remainder |
| Reservations.NewReservation | crates/stateknot-core/src/budget_reservation.rs:61-78 | a reservation is accepted exactly without peaks and without unpriced activity, and is the amount given |
| Reservations.FromBudget | crates/stateknot-core/src/budget_reservation.rs:84-108 | every valid budget can be reserved, as its cumulative ceilings |
| Reservations.AcceptedIsCovered | crates/stateknot-core/src/budget_reservation.rs:84-108 | whatever usage a budget accepts, its own reservation covers |
| Reservations.CheckCapacity | crates/stateknot-core/src/budget_reservation.rs:127-141 | the folding loop computes the projected usage and evaluates it, or refuses |
| Reservations.FoldTotals | crates/stateknot-core/src/budget_reservation.rs:127-141 | a checked fold that succeeds holds the unbounded sums of every dimension and currency |
| Reservations.FittingFolds | crates/stateknot-core/src/budget_reservation.rs:127-141 | sums that fit the budget never overflow on the way, in any dimension, currency or number of currencies |
| Reservations.CapacityExact | crates/stateknot-core/src/budget_reservation.rs:127-141 | a capacity check is plain arithmetic: it succeeds exactly for at most 256 reservations before the deadline whose unbounded sums fit, with every mentioned currency budgeted and nothing unpriced, and returns the budget less the sums |
| Reservations.CapacityOrderIrrelevant | crates/stateknot-core/src/budget_reservation.rs:127-141 | reordering the reservations changes neither success nor value |
| Checkpoints.NewReadyNodes | crates/stateknot-core/src/checkpoint.rs:398-413 | any order of at most 1024 distinct nodes becomes their ascending set; duplicates and more are refused |
| Checkpoints.BuiltValid | crates/stateknot-core/src/checkpoint.rs:1289-1333 | a committed or restored checkpoint is valid and holds the write intent and journal head it was built from |
| Checkpoints.RestoreExact | crates/stateknot-core/src/checkpoint.rs:1281-1333 | restoring from a write, a journal head and a stored checksum returns a checkpoint exactly when it is the valid one with those parts and that checksum; a corrupt one is never repaired |
| Checkpoints.RestoreWriteExact | crates/stateknot-core/src/checkpoint.rs:991-1061 | a stored write restores to itself exactly when it is valid, checksum included, and to nothing else |
| Checkpoints.CheckpointLineageVerifier.VerifyNext | crates/stateknot-core/src/checkpoint.rs:1599-1609 | accepts exactly the checkpoint the expected head names and then expects its parent; a rejection changes nothing |
| Checkpoints.VerifyPage | crates/stateknot-store-postgres/src/store.rs:5298-5311 | one page of a reverse read yields the cursor the verifier reached, exactly when it is the head of the row read ahead, or none without one |
| Checkpoints.PageExact | crates/stateknot-store-postgres/src/store.rs:5298-5311 | a page is accepted exactly when it is linked from the tip on into the row read ahead, or, without one, ends at a root; the cursor is that row's head |
| Checkpoints.PagesVerify | crates/stateknot-store-postgres/src/store.rs:5217-5324 | however a lineage is cut into pages, each read from the last cursor with the next page's first row ahead, reading them all ends without a cursor when the verifier completes on the whole, and is refused otherwise |
| Checkpoints.VerifyLinked | crates/stateknot-core/src/checkpoint.rs:1599-1609 | the verifier accepts exactly the sequences that start at the tip and in which each checkpoint names the next as its parent |
| Checkpoints.CompleteIsLineage | crates/stateknot-core/src/checkpoint.rs:1559-1609 | valid checkpoints complete the verifier exactly when they are the tip's superstep plus one checkpoints down to zero, of one tenant, run, graph and schema, with exact parents, decreasing journal positions and no later time |
| Checkpoints.HeadDetermines | crates/stateknot-core/src/checkpoint.rs:1641-1702 | a head determines its checkpoint up to the canonical bytes of its state |
| Checkpoints.LineageUnique | crates/stateknot-core/src/checkpoint.rs:1566-1609 | two sequences that complete from one tip agree in every field, states up to canonical bytes |
| Checkpoints.StartExact | crates/stateknot-core/src/checkpoint.rs:927-947 | a run starts exactly with canonical state of the graph's schema at a journal position of its own tenant and run, and its root keeps identity, state, ready set and position |
| Checkpoints.AppendExact | crates/stateknot-core/src/checkpoint.rs:958-979 | a successor can be committed exactly with canonical state of the graph's schema, a new identity, a later journal position of the same run and no earlier time, below the last superstep |
| Checkpoints.GrowChain | crates/stateknot-core/src/checkpoint.rs:927-1061 | everything built by an initial checkpoint and successors is a chain of valid checkpoints with exact parents |
| Checkpoints.GrownHolds | crates/stateknot-core/src/checkpoint.rs:927-1061 | a committed run holds what each entry supplied, one superstep after the other, in its tenant, run and graph |
| Checkpoints.GrownVerifies | crates/stateknot-core/src/checkpoint.rs:1268-1333 | every run so built is accepted newest first, incomplete before its root and complete at it |
| Barriers.NewResultHeads | crates/stateknot-core/src/barrier.rs:51-100 | accepts exactly one to 1024 root results of distinct nodes on one base, and returns them in node order |
| Barriers.ValidateBarrierShape | crates/stateknot-core/src/barrier.rs:470-503 | the two loops decide exactly that the ready set is not empty, the successor names the base, and the results are on it and cover it |
| Barriers.NewBarrier | crates/stateknot-core/src/barrier.rs:262-283 | construction collects the results, checks the shape and seals the barrier, or refuses |
| Barriers.CoverOrder | crates/stateknot-core/src/barrier.rs:91-98 | results that cover a ready set exactly, once ordered, are in the order of the ready set |
| Barriers.BarrierExact | crates/stateknot-core/src/barrier.rs:306-335 | a barrier exists exactly when every ready node has one root result on the base and no other node has any; it stores them in ready-set order under the digest of all parts |
| Barriers.ArrivalOrderIrrelevant | crates/stateknot-core/src/barrier.rs:51-100 | the whole barrier, digest included, is the same for every arrival order |
| Barriers.RestoreBarrierExact | crates/stateknot-core/src/barrier.rs:290-335 | a stored barrier restores to itself exactly when its results cover its ready set on its base, its successor names that base and its checksum is that of its parts, and to nothing else |
| Barriers.BarrierRestores | crates/stateknot-core/src/barrier.rs:290-304 | a stored barrier restores when its parts would build exactly it, and is refused otherwise |
| Barriers.BarrierRun | crates/stateknot-core/src/barrier.rs:470-503 | along every run of barrier steps each state is a lineage the verifier completes, each superstep consumed one result per ready node, and a state without ready nodes is the last |
| Admission.ResolveFor | crates/stateknot-core/src/agent_runtime.rs:111-154 | appends the own layers to the base layers and evaluates the resolved budget |
| Admission.ResolvedExact | crates/stateknot-core/src/agent_runtime.rs:111-180 | a budget is returned exactly for a live agent whose input schema the request names, when the layers resolve to it, its deadline is ahead and the input is no larger than its limit |
| Admission.CollectLayers | crates/stateknot-core/src/agent_admission.rs:326-345 | layers are kept sorted by source; refused exactly for a repeated source or too many |
| Admission.BuildIntent | crates/stateknot-core/src/agent_admission.rs:301-384 | an intent exists exactly for a live, matching, sufficiently authorized agent whose sorted layers resolve and fit the input |
| Admission.SortedOrder | crates/stateknot-core/src/agent_admission.rs:331-345 | the kept layers are in strictly ascending source order |
| Admission.AdmitExact | crates/stateknot-core/src/agent_admission.rs:301-384 | a run is admitted exactly when the agent is live and named, its scopes are granted, no source repeats, the layers resolve to a budget with an open deadline, and the input has the schema and fits; the admission is exactly the given parts |
| Admission.PathsAgree | crates/stateknot-core/src/agent_admission.rs:627-634 | building and committing an intent succeeds exactly when identity, scopes and distinct sources pass and the other path resolves at that time, with the same budget |
| Admission.AdmittedWithin | crates/stateknot-core/src/agent_admission.rs:314-366 | an admitted run has a live agent, granted scopes, an open deadline and a fitting input, and its budget is within every policy layer, the agent's limits and the request's |
| Admission.IntentOrderIrrelevant | crates/stateknot-core/src/agent_admission.rs:331-361 | policy layers given in another order make the same intent, whole |
| Admission.RestoreIntentExact | crates/stateknot-core/src/agent_admission.rs:354-378 | restoring returns the stored intent or nothing, and returns it exactly when its own parts build it, whatever the order of the layers was |
| Admission.IntentRestores | crates/stateknot-core/src/agent_admission.rs:354-378 | every intent that was built passes the budget and checksum comparisons of its own restoration |
| Admission.ResultExact | crates/stateknot-core/src/agent_runtime.rs:791-855 | a result is accepted exactly when it is of the expected run and agent with both schemas, its input fits and is accounted for, and its usage is within every limit and currency before the deadline with nothing unpriced |
| Admission.AdmittedResult | crates/stateknot-core/src/agent_runtime.rs:791-855 | for an admitted run only identity, output schema, accounted input and the budget are left to decide |
| Delegation.NewPolicy | crates/stateknot-core/src/child_run_policy.rs:226-333 | accepts exactly limits of 1 to 32, 256 and 256 with one to 256 declarations under distinct node and slot pairs, at most 64 on one node, and keeps them all in that order |
| Delegation.Lookup | crates/stateknot-core/src/child_run_policy.rs:349-354 | binary search finds the declaration of a node and slot exactly when there is one |
| Delegation.DeclarationExact | crates/stateknot-core/src/child_run_policy.rs:424-440 | a child is declared exactly when its parent's policy holds a declaration of its node and slot that pins its agent definition, graph and schemas, at a smaller depth |
| Delegation.ChildExact | crates/stateknot-core/src/child_run_admission.rs:66-99 | a child intent is built exactly for a root activation of another run of the same tenant, admitted for the given graph with its schemas; its checksum binds every part but the candidate identities |
| Delegation.FreshExact | crates/stateknot-core/src/child_run_admission.rs:101-183 | a built child is fresh exactly when it is spawned at a ready node of its parent's current checkpoint, names its admission, may do no more, and the clock is between the checkpoint and the child's deadline |
| Delegation.DelegatesExact | crates/stateknot-core/src/child_run_admission.rs:101-183 | a delegation takes place exactly when a built child is spawned at a ready node of its parent's current checkpoint, is declared there, may do no more than its parent, and parent admission, checkpoint, check and child admission follow each other before both deadlines |
| Delegation.DelegationContained | crates/stateknot-core/src/child_run_admission.rs:101-132 | in any chain of delegations a descendant has its ancestor's tenant and principal, no wider scopes and a budget that narrows it |
| Delegation.DelegationNested | crates/stateknot-core/src/child_run_admission.rs:144-183 | along any chain a descendant is admitted no earlier than its ancestor and within both deadlines |
| Delegation.DepthDecreases | crates/stateknot-core/src/child_run_policy.rs:177-197 | every edge of a chain uses up declared depth |
| Delegation.DelegationTerminates | crates/stateknot-core/src/child_run_policy.rs:177-239 | a chain has at most its root's declared depth of edges, at most 32, and no two of its runs execute the same graph reference |
| Delegation.SlotReachesOneTarget | crates/stateknot-core/src/child_run_policy.rs:424-440 | one node and slot of a parent graph always reach the same graph and agent definition |
| Delegation.SpawnExact | crates/stateknot-core/src/child_run_admission.rs:185-210 | two spawns have one checksum exactly when they agree in everything but the child's candidate run, thread and invocation |
| Delegation.DescendantUsageAccepted | crates/stateknot-core/src/agent_runtime.rs:791-855 | a result accepted for a descendant would be accepted against every ancestor's budget with at least as much left |
| Accounts.DelegatedUsage | crates/stateknot-core/src/child_run_budget.rs:470-478 | the loop folds the settled usage of the children without their peaks |
| Accounts.RemainingCovered | crates/stateknot-core/src/child_run_budget.rs:489-515 | an account has capacity left exactly when its clock is current, the deadline is ahead, and direct usage, settled usage and outstanding ceilings fit by unbounded arithmetic; what is left is the budget less all of them, in every dimension and currency |
| Accounts.SealKeeps | crates/stateknot-core/src/child_run_budget.rs:556-603 | sealing keeps the entries, orders them by key checksum, and changes nothing about what is charged |
| Accounts.SettlementCovered | crates/stateknot-core/src/child_run_budget.rs:412-440 | replacing a ceiling by usage it covers keeps everything within the budget |
| Accounts.CoveredAccounted | crates/stateknot-core/src/child_run_budget.rs:481-485 | an account whose charges fit has a defined accounted usage: nothing overflows |
| Ledger.OpenSound | crates/stateknot-core/src/child_run_budget.rs:310-338 | a new account is valid, without children, and covered exactly when the parent's budget accepts the direct usage |
| Ledger.ReserveCovers | crates/stateknot-core/src/child_run_budget.rs:369-407 | a fresh reservation succeeds only if everything promised still fits |
| Ledger.ReserveExact | crates/stateknot-core/src/child_run_budget.rs:369-407 | a new child is admitted exactly when the declared, no wider intent belongs to the account, its identities are new, there is a place, the clock is current before the deadline, and everything fits with its whole ceiling |
| Ledger.OverrunBlocks | crates/stateknot-core/src/child_run_budget.rs:369-407 | an account that is not covered admits no new child |
| Ledger.OverrunBlocksForever | crates/stateknot-core/src/child_run_budget.rs:409-411 | once accounted usage exceeds a limit or is unpriced, no new child is admitted in that state or any later one of any run |
| Ledger.SettleAccepted | crates/stateknot-core/src/child_run_budget.rs:412-440 | usage the child's own budget accepted can always be settled: nothing overflows, the account is the old one with exactly that settlement, and everything still fits |
| Ledger.SettledIndex | crates/stateknot-core/src/child_run_budget.rs:412-440 | a settlement is retained exactly as given, overrun included |
| Ledger.ObserveAccepted | crates/stateknot-core/src/child_run_budget.rs:446-466 | a later, non-regressing observation that fits is recorded as it is and keeps the account covered |
| Ledger.StepContinues | crates/stateknot-core/src/child_run_budget.rs:369-466 | every transition, refused or not, leaves a valid account that retains every record |
| Ledger.StepCovered | crates/stateknot-core/src/child_run_budget.rs:369-466 | an accepted step keeps a covered account covered exactly when a capacity check on values known before the call succeeds: usage with delegated usage for an observation, accounted with settled usage beside the other ceilings for a settlement, nothing for a reservation |
| Ledger.RunRetains | crates/stateknot-core/src/child_run_budget.rs:253-259 | along any run no record is removed or replaced, a settlement is added once and never changed, and direct usage never regresses |
| Ledger.RunCovered | crates/stateknot-core/src/child_run_budget.rs:369-515 | in any run from a covered account, direct usage, settled usage and all outstanding ceilings fit the parent's budget in every state exactly when every accepted step passed that check |
| Ledger.OwnBudgetPasses | crates/stateknot-core/src/child_run_budget.rs:412-440 | a settlement the child's own budget accepts always passes its check |
| Ledger.RunSound | crates/stateknot-core/src/child_run_budget.rs:369-515 | when children stay within their own budgets and direct usage passes the capacity check, no state of any run is over the budget |
| Ledger.SoundHasCapacity | crates/stateknot-core/src/child_run_budget.rs:489-515 | such a state reports capacity at every current clock before the deadline: the budget less everything charged |
| Ledger.SoundUsageAccepted | crates/stateknot-core/src/child_run_budget.rs:481-515 | what such an account reports as used, its own budget accepts |
| Ledger.RunAccounted | crates/stateknot-core/src/child_run_budget.rs:470-485 | accounted usage, direct and settled, never regresses along any run |
| Ledger.ReserveRetried | crates/stateknot-core/src/child_run_budget.rs:385-391 | once reserved, the exact retry returns any later account unchanged at any clock, and every other spawn under the key is refused |
| Ledger.SettleRetried | crates/stateknot-core/src/child_run_budget.rs:430-436 | once settled, the same evidence is accepted again and any other is refused, in every later account |
| Transitions.RemainingDecided | crates/stateknot-core/src/child_run_budget.rs:489-515 | an account reports what is left exactly when no evidence is from after the clock, the deadline is ahead and everything fits, and it is the budget less direct usage and each child's settled usage or ceiling |
| Transitions.OpenExact | crates/stateknot-core/src/child_run_budget.rs:310-362 | an account opens exactly on the parent's graph, which delegates, at a journal head of the parent's run no earlier than its admission, and starts with everything the parent and the graph's child limit say and no child |
| Transitions.ReserveDecided | crates/stateknot-core/src/child_run_budget.rs:369-407 | a new child is admitted exactly when the parent owns and declares it, its budget narrows the parent's, it is unrecorded, there is a place, no evidence is from after the clock, the deadline is ahead, and direct usage, every claim and its whole ceiling fit; the account is the old one with its entry |
| Transitions.SettledAccounts | crates/stateknot-core/src/child_run_budget.rs:470-485 | settling a child, wherever its entry stands, adds exactly its cumulative usage to what is accounted for |
| Transitions.SettleDecided | crates/stateknot-core/src/child_run_budget.rs:412-440 | a settlement is accepted exactly for a recorded child with terminal, priced evidence of it: again for the evidence kept, and first whenever accounted usage stays representable; only that entry changes |
| Transitions.SealExact | crates/stateknot-core/src/child_run_budget.rs:556-603 | a snapshot seals exactly when its limits, head, entries, distinct identities and accounted usage are valid, whatever the order of its entries, and holds the same entries ordered by key checksum |
| Transitions.ObserveExact | crates/stateknot-core/src/child_run_budget.rs:446-466 | an observation is accepted exactly when it repeats the last one, or is at a later head of this run and no earlier time, erases nothing and stays representable; only head and usage change |
| Transitions.RunHeads | crates/stateknot-core/src/child_run_budget.rs:446-466 | along any run the direct head never goes back in position or time, and one journal position never has two observations |
| Transitions.RunClock | crates/stateknot-core/src/child_run_budget.rs:489-500 | no child is ever admitted at a clock behind evidence the account had at any earlier point of its run |
| Overruns.ObservationOverruns | crates/stateknot-core/src/child_run_budget.rs:446-466 | a recorded observation of twenty against a budget of ten leaves a sound account uncovered |
| Overruns.SettlementOverruns | crates/stateknot-core/src/child_run_budget.rs:412-440 | a child with a ceiling of five settled with twenty against a budget of ten leaves a sound account uncovered, without any observation |
| Trees.SettledTreeConserves | crates/stateknot-core/src/child_run_budget.rs:20-26 | once all runs below are settled, the root accounts for exactly the direct usage of every run of its tree, each counted once |
| Trees.TreeBounded | crates/stateknot-core/src/child_run_budget.rs:253-259 | whatever is settled and whatever still runs, all direct usage in a tree of sound accounts is within the root's budget in every cumulative dimension and currency |
| Trees.TreeCurrencies | crates/stateknot-core/src/child_run_budget.rs:253-259 | every currency any run of such a tree used is budgeted at the root |
| Staging.StagingWriter.constructor | crates/stateknot-artifact-store/src/store.rs:940-958 | a new writer has received nothing and holds no upload |
| Staging.StagingWriter.SendPart | crates/stateknot-artifact-store/src/store.rs:979-1012 | a filled buffer goes out as one part and is emptied; a failure discards the upload or is counted; a faultless store takes every part |
| Staging.StagingWriter.Push | crates/stateknot-artifact-store/src/store.rs:964-1015 | after a successful push of any fragment full parts and buffer together are the bytes received; after a failed one the upload holds only received bytes in order, none unless that was counted; only overflow fails on a faultless store; the loop terminates |
| Staging.StagingWriter.Finish | crates/stateknot-artifact-store/src/store.rs:1017-1073 | success leaves exactly the bytes received, with their length and digest; parts are full but for a shorter, nonempty last one; less than one part means a single create-only put; no other object changes; a failure leaves nothing new unless it was counted; a faultless store fails only a put to a taken location |
| Staging.Receive | crates/stateknot-artifact-store/src/store.rs:540-558 | a fragment is pushed within the limit; a missing or oversized one gives the upload up |
| Staging.Feed | crates/stateknot-artifact-store/src/store.rs:539-559 | a completed receiving loop has handed the writer exactly the bytes of the whole stream, within the limit; on a faultless store it completes exactly then; otherwise nothing stays uploaded unless that was counted |
| Staging.StageRemote | crates/stateknot-artifact-store/src/store.rs:507-585 | for any fragmentation of a stream, success stores exactly its bytes within the limit and of the announced length, and nothing else in the store changes; on a faultless store it succeeds exactly when that is possible and a refused stream leaves nothing |
| Staging.VerifyObject | crates/stateknot-artifact-store/src/store.rs:677-720 | succeeds exactly when the whole stream arrived with the expected length and digest |
| Staging.ReadVerified | crates/stateknot-artifact-store/src/store.rs:722-774 | returns exactly the streamed bytes, and only when length, digest and limit hold |
| Publication.RegistersExact | crates/stateknot-store-postgres/src/store.rs:3337-3428 | a registration succeeds exactly when the registry holds that record or none with its tenant and artifact, its tenant and key, or its locator; it adds at most that record |
| Publication.KeyIdentity | crates/stateknot-artifact-store/src/store.rs:1096-1114 | two requests have one registration key exactly when their identities, tenant included, are equal |
| Publication.AnythingMayHappen | crates/stateknot-artifact-store/src/store.rs:200-342 | any change to a staged object is a step of the model, and any running ingestion may stop where it is |
| Publication.StepKeeps | crates/stateknot-artifact-store/src/store.rs:654-675 | no step of any ingestion changes or removes a final object, a record, evidence an ingestion has, or anything of an ended one |
| Publication.StepConsistent | crates/stateknot-artifact-store/src/store.rs:200-342 | every step keeps every record and every verified ingestion describing the bytes at its final key, and records apart |
| Publication.HistoryKeeps | crates/stateknot-artifact-store/src/store.rs:835-843 | in every interleaving final objects, records and returned results are permanent |
| Publication.HistoryConsistent | crates/stateknot-artifact-store/src/store.rs:200-342 | every reachable state is consistent, whatever calls were lost, late or repeated |
| Publication.RecordsDescribe | crates/stateknot-artifact-store/src/store.rs:677-720 | every record describes exactly the bytes at its locator, from the state it appears in on |
| Publication.OneArtifactPerKey | crates/stateknot-artifact-store/src/store.rs:324-341 | any two ingestions of one registration key that returned, at whatever points of whatever run, returned the same reference |
| Publication.ReturnedResolves | crates/stateknot-artifact-store/src/store.rs:354-413 | a returned reference resolves, then and in every later state, to bytes of its length and digest |
| Publication.ResolveExact | crates/stateknot-artifact-store/src/store.rs:354-413 | whatever happened to the objects, a reference resolves to bytes exactly when they are within the limit and held, in the registered version, under a record of that very reference; an unregistered, altered or replaced artifact resolves to nothing |
| Publication.ResolveReachable | crates/stateknot-artifact-store/src/store.rs:354-413 | in every reachable state a reference resolves exactly when it is registered and within the limit, to the bytes at its locator |
| Publication.AttemptExact | crates/stateknot-artifact-store/src/store.rs:200-342 | an ingestion nothing disturbs returns exactly when the final key is free or holds the same bytes and the registry holds that record or nothing that clashes; otherwise it stops; no final object is overwritten |
| Publication.RetryAgrees | crates/stateknot-artifact-store/src/store.rs:194-199 | retrying the exact request with the same content returns what was returned |
| Publication.ArtifactStore.PublishAndVerify | crates/stateknot-artifact-store/src/store.rs:654-675 | success means the final object was read in full and has the staged length and digest; undisturbed it succeeds exactly when what is at the final key then does |
| Publication.ArtifactStore.RegisterVerified | crates/stateknot-artifact-store/src/store.rs:324-341 | success means the registry holds exactly this ingestion's record; acknowledged it succeeds exactly when the registry accepts it |
| Publication.ArtifactStore.IngestContent | crates/stateknot-artifact-store/src/store.rs:200-342 | whatever interferes between its calls, what it returns is registered and resolves to exactly the content; undisturbed it returns exactly when the content is within the limit and publishable |
| Registration.UpdateBoundedField | crates/stateknot-artifact-store/src/store.rs:1151-1157 | appends the 32-bit big-endian length and the field, refusing longer fields |
| Registration.RegistrationPreimage | crates/stateknot-artifact-store/src/store.rs:1096-1114 | feeds the eight fields in order and both indices after the domain |
| Registration.DecodesEncoded | crates/stateknot-artifact-store/src/store.rs:1096-1114 | a decoder recovers every field and both indices |
| Registration.EncodesDecoded | crates/stateknot-artifact-store/src/store.rs:1096-1114 | every decodable preimage is the encoding of what it decodes to |
| Registration.PreimageInjective | crates/stateknot-artifact-store/src/store.rs:1096-1114 | two requests share a preimage exactly when all identity fields are equal |
| Decimal.DecimalDigits | crates/stateknot-core/src/decimal.rs:70-77 | the loop counts exactly the digits the number prints |
| Decimal.PrintCanonical | crates/stateknot-core/src/decimal.rs:41-68 | printed text is canonical and denotes the number printed |
| Decimal.CanonicalPrints | crates/stateknot-core/src/decimal.rs:41-68 | canonical text is what its number prints |
| Decimal.ParseU64 | crates/stateknot-core/src/decimal.rs:60-63 | digits are read exactly, refused only above 64 bits |
| Decimal.ParseBoundedU64 | crates/stateknot-core/src/decimal.rs:41-68 | accepts exactly the printed text of a number within the maximum and returns that number; empty, too long, not digits (at the first position), a leading zero and overflow are reported in that order |

## Left out

- Accounts.SealKeeps: leaves out the account's own checksum, its version field and the 8 MiB bound on its serialized form, which needs the JSON encoder.
- Staging.StageRemote: leaves out the media type of the response and the re-read of text and JSON content.
- Publication.ArtifactStore.IngestContent: starts from content whose media type and presentation were accepted; its staging is the outcome of the writer in `Staging`, not a call to it.
- Admission.BuildIntent: leaves out the serialized-size bound; the comparisons on restore are in `Admission.RestoreIntent`.
- Delegation.DelegationNested: leaves out the JSON Schema validation of the fresh-admission check.
- Delegation.DelegationTerminates: represents the definition checksum as a term over the topology limits and an opaque rest, not over the whole graph.
- HTTP fetching, redirects, origin policy, credentials and the S3 backend: network plumbing over libraries.
- SHA-256, the RFC 8785 encoder, serde and JSON Schema: represented by terms and canonical bytes.
- Whether the evidence an account is given is authentic and complete: the storage adapter's duty.
- The artifact identifier cut from the registration key: a truncation of a hash; identifiers that collide are covered, since the registry decides.
- Media types, names, descriptions, retention classes and lifecycle metadata: single scans or single branches.
- Journal, leases, fences and the PostgreSQL store beyond the artifact registry and the lineage page.
- Timeouts and fairness: a timeout is a reported failure of a call that may have taken effect.
- Which error is reported when several apply: it depends on the order of checks only.
