/**
  Checkpoints and their lineage (checkpoint.rs).

  A checksum is a symbolic term over its domain and preimage, so that two
  checksums are equal exactly when their preimages are. JSON state appears with
  the canonical bytes RFC 8785 gives it, absent when it has none; distinct
  documents may share them.
 */
module Checkpoints {
  import opened Prelude

  const MAX_DATABASE_ORDINAL: int := 0x7fff_ffff_ffff_ffff
  const MAX_READY_NODES := 1024

  type SchemaReference = int

  /** A node identity, as its position among all identities in byte order. */
  type NodeId = int

  datatype Digest =
    | OtherDigest(id: int)
    | JsonDigest(canonical: Bytes)
    | StateDigest(schema: SchemaReference, data: Digest)
    | IntentDigest(wire: IntentWire)
    | CheckpointDigest(intent: Digest, journalHead: JournalHead)
    | DefinitionDigest(limits: Option<TopologyLimits>, rest: int)
    | ReadyInputDigest(checkpoint: Digest, namespace: seq<NodeId>, node: NodeId)
    | BarrierDigest(base: CheckpointHead, ready: seq<NodeId>, results: seq<ResultHead>, successor: Digest)

  /** The ceilings of a graph's delegation policy, which its definition binds. */
  datatype TopologyLimits = TopologyLimits(depth: int, children: int, active: int)

  datatype IntentWire = IntentWire(
    tenant: int, run: int, id: int, superstep: int, graph: GraphReference,
    state: Digest, ready: seq<NodeId>, parent: Option<CheckpointHead>)

  datatype GraphReference = GraphReference(identity: int, definition: Digest, stateSchema: SchemaReference)

  datatype JournalHead = JournalHead(tenant: int, run: int, sequence: int, event: int, recordedAt: int, digest: Digest)

  datatype CheckpointHead = CheckpointHead(
    tenant: int, run: int, id: int, superstep: int, graph: GraphReference, journalHead: JournalHead, digest: Digest)

  /** One activation of a node on a base checkpoint; the root namespace is empty. */
  datatype NodeActivation = NodeActivation(base: CheckpointHead, namespace: seq<NodeId>, node: NodeId, input: Digest)

  datatype ResultHead = ResultHead(
    activation: NodeActivation, intent: Digest, fence: int, journalHead: JournalHead, digest: Digest)

  datatype Json = Json(document: int, canonical: Option<Bytes>)

  datatype CheckpointState = CheckpointState(schema: SchemaReference, data: Json, digest: Digest)

  datatype CheckpointWrite = CheckpointWrite(
    tenant: int, run: int, id: int, superstep: int, graph: GraphReference,
    state: CheckpointState, ready: seq<NodeId>, parent: Option<CheckpointHead>, intent: Digest)

  datatype Checkpoint = Checkpoint(
    tenant: int, run: int, id: int, superstep: int, graph: GraphReference,
    state: CheckpointState, ready: seq<NodeId>, parent: Option<CheckpointHead>, intent: Digest,
    journalHead: JournalHead, digest: Digest)

  // ----- ready sets -----------------------------------------------------------

  predicate AscendingNodes(s: seq<NodeId>) {
    forall i, j :: 0 <= i < j < |s| ==> s[i] < s[j]
  }

  /** `ReadyNodes`: a set in its serialized order. */
  predicate IsReadySet(s: seq<NodeId>) {
    AscendingNodes(s) && |s| <= MAX_READY_NODES
  }

  function Insert(s: seq<NodeId>, x: NodeId): seq<NodeId> {
    if s == [] || s[|s| - 1] < x then s + [x]
    else if s[|s| - 1] == x then s
    else Insert(s[..|s| - 1], x) + [s[|s| - 1]]
  }

  lemma {:induction false} InsertAscending(s: seq<NodeId>, x: NodeId)
    requires AscendingNodes(s)
    ensures AscendingNodes(Insert(s, x))
    ensures forall y :: y in Insert(s, x) <==> y == x || y in s
    ensures |Insert(s, x)| == if x in s then |s| else |s| + 1
  {
    if s != [] && s[|s| - 1] >= x {
      var last, init := s[|s| - 1], s[..|s| - 1];
      assert s == init + [last];
      InsertAscending(init, x);
      if last > x {
        forall i | 0 <= i < |Insert(init, x)| ensures Insert(init, x)[i] < last {
          assert Insert(init, x)[i] in Insert(init, x);
        }
      }
    }
  }

  predicate DistinctNodes(s: seq<NodeId>) {
    forall i, j :: 0 <= i < j < |s| ==> s[i] != s[j]
  }

  /** `ReadyNodes::try_new`: the nodes in ascending order, whatever their
      arrival order; refused exactly for duplicates or more than 1024 nodes. */
  method NewReadyNodes(nodes: seq<NodeId>) returns (r: Option<seq<NodeId>>)
    ensures r.Some? <==> DistinctNodes(nodes) && |nodes| <= MAX_READY_NODES
    ensures r.Some? ==> IsReadySet(r.value) && |r.value| == |nodes| && forall x :: x in r.value <==> x in nodes
  {
    var values: seq<NodeId> := [];
    for k := 0 to |nodes|
      invariant IsReadySet(values) && |values| == k && DistinctNodes(nodes[..k])
      invariant forall x :: x in values <==> x in nodes[..k]
    {
      var node := nodes[k];
      if node in values {
        assert node in nodes[..k];
        return None;
      }
      if |values| == MAX_READY_NODES {
        return None;
      }
      InsertAscending(values, node);
      values := Insert(values, node);
      assert nodes[..k + 1] == nodes[..k] + [nodes[k]];
    }
    assert nodes[..|nodes|] == nodes;
    r := Some(values);
  }

  lemma {:induction false} AscendingUnique(s: seq<NodeId>, t: seq<NodeId>)
    requires AscendingNodes(s) && AscendingNodes(t) && forall x :: x in s <==> x in t
    ensures s == t
  {
    assert |s| > 0 ==> var x := s[0]; x in s && x in t;
    assert |t| > 0 ==> var y := t[0]; y in t && y in s;
    if |s| > 0 && |t| > 0 {
      var n, m := |s| - 1, |t| - 1;
      var x, y := s[n], t[m];
      assert x in s && y in t;
      assert x in t && y in s;
      assert x == y;
      assert s == s[..n] + [x] && t == t[..m] + [y];
      forall z ensures z in s[..n] <==> z in t[..m] {
        assert z in s <==> z in s[..n] || z == x;
        assert z in t <==> z in t[..m] || z == x;
        assert x !in s[..n] && x !in t[..m];
      }
      AscendingUnique(s[..n], t[..m]);
    }
  }

  // ----- construction ---------------------------------------------------------

  predicate ValidState(s: CheckpointState) {
    s.data.canonical.Some? && s.digest == StateDigest(s.schema, JsonDigest(s.data.canonical.value))
  }

  /** `CheckpointState::new`: refused without canonical bytes. */
  function NewState(schema: SchemaReference, data: Json): Option<CheckpointState> {
    if data.canonical.None? then None
    else Some(CheckpointState(schema, data, StateDigest(schema, JsonDigest(data.canonical.value))))
  }

  function CheckedNext(superstep: int): Option<int> {
    if superstep == MAX_DATABASE_ORDINAL then None else Some(superstep + 1)
  }

  /** `validate_write_shape`. */
  predicate WriteShape(tenant: int, run: int, id: int, superstep: int, graph: GraphReference,
                       state: CheckpointState, parent: Option<CheckpointHead>) {
    && state.schema == graph.stateSchema
    && if parent.None? then superstep == 0
       else
         && superstep != 0
         && parent.value.tenant == tenant
         && parent.value.run == run
         && parent.value.id != id
         && CheckedNext(parent.value.superstep) == Some(superstep)
         && parent.value.graph == graph
  }

  predicate Unlike(supplied: Option<Digest>, actual: Digest) {
    supplied.Some? && supplied.value != actual
  }

  function BuildWrite(tenant: int, run: int, id: int, superstep: int, graph: GraphReference,
                      state: CheckpointState, ready: seq<NodeId>, parent: Option<CheckpointHead>,
                      supplied: Option<Digest>): Option<CheckpointWrite> {
    var intent := IntentDigest(IntentWire(tenant, run, id, superstep, graph, state.digest, ready, parent));
    if !WriteShape(tenant, run, id, superstep, graph, state, parent) || Unlike(supplied, intent) then None
    else Some(CheckpointWrite(tenant, run, id, superstep, graph, state, ready, parent, intent))
  }

  function Initial(tenant: int, run: int, id: int, graph: GraphReference,
                   state: CheckpointState, ready: seq<NodeId>): Option<CheckpointWrite> {
    BuildWrite(tenant, run, id, 0, graph, state, ready, None, None)
  }

  function Successor(id: int, parent: Checkpoint, state: CheckpointState, ready: seq<NodeId>): Option<CheckpointWrite> {
    var next := CheckedNext(parent.superstep);
    if next.None? then None
    else BuildWrite(parent.tenant, parent.run, id, next.value, parent.graph, state, ready, Some(Head(parent)), None)
  }

  function RestoreWrite(w: CheckpointWrite): Option<CheckpointWrite> {
    BuildWrite(w.tenant, w.run, w.id, w.superstep, w.graph, w.state, w.ready, w.parent, Some(w.intent))
  }

  predicate InScope(tenant: int, run: int, h: JournalHead) {
    h.tenant == tenant && h.run == run
  }

  /** The anchoring event follows the predecessor's, and the clock did not regress. */
  predicate Follows(h: JournalHead, parent: Option<CheckpointHead>) {
    parent.Some? ==>
      parent.value.journalHead.sequence < h.sequence && parent.value.journalHead.recordedAt <= h.recordedAt
  }

  function BuildCheckpoint(w: CheckpointWrite, h: JournalHead, supplied: Option<Digest>): Option<Checkpoint> {
    var digest := CheckpointDigest(w.intent, h);
    if !InScope(w.tenant, w.run, h) || !Follows(h, w.parent) || Unlike(supplied, digest) then None
    else Some(Checkpoint(w.tenant, w.run, w.id, w.superstep, w.graph, w.state, w.ready, w.parent, w.intent, h, digest))
  }

  function Commit(w: CheckpointWrite, h: JournalHead): Option<Checkpoint> {
    BuildCheckpoint(w, h, None)
  }

  function Restore(w: CheckpointWrite, h: JournalHead, digest: Digest): Option<Checkpoint> {
    BuildCheckpoint(w, h, Some(digest))
  }

  function Head(c: Checkpoint): CheckpointHead {
    CheckpointHead(c.tenant, c.run, c.id, c.superstep, c.graph, c.journalHead, c.digest)
  }

  function WriteIntent(c: Checkpoint): CheckpointWrite {
    CheckpointWrite(c.tenant, c.run, c.id, c.superstep, c.graph, c.state, c.ready, c.parent, c.intent)
  }

  /** What a committed or restored checkpoint satisfies. */
  predicate ValidWrite(w: CheckpointWrite) {
    && ValidState(w.state) && IsReadySet(w.ready)
    && 0 <= w.superstep <= MAX_DATABASE_ORDINAL
    && WriteShape(w.tenant, w.run, w.id, w.superstep, w.graph, w.state, w.parent)
    && var wire := IntentWire(w.tenant, w.run, w.id, w.superstep, w.graph, w.state.digest, w.ready, w.parent);
       w.intent == IntentDigest(wire)
  }

  predicate ValidCheckpoint(c: Checkpoint) {
    && ValidWrite(WriteIntent(c))
    && InScope(c.tenant, c.run, c.journalHead) && Follows(c.journalHead, c.parent)
    && c.digest == CheckpointDigest(c.intent, c.journalHead)
  }

  /** Committing or restoring yields only valid checkpoints. */
  lemma {:induction false} BuiltValid(w: CheckpointWrite, h: JournalHead, supplied: Option<Digest>)
    requires ValidWrite(w) && BuildCheckpoint(w, h, supplied).Some?
    ensures var c := BuildCheckpoint(w, h, supplied).value;
            ValidCheckpoint(c) && WriteIntent(c) == w && c.journalHead == h
  {}

  /** Restoring from stored parts returns the valid checkpoint that has them, the
      stored checksum included, and otherwise nothing: no value is repaired. */
  lemma {:induction false} RestoreExact(w: CheckpointWrite, h: JournalHead, digest: Digest, c: Checkpoint)
    requires ValidWrite(w)
    ensures Restore(w, h, digest) == Some(c) <==>
            ValidCheckpoint(c) && WriteIntent(c) == w && c.journalHead == h && c.digest == digest
  {}

  /** The values the source's types admit for a stored write. */
  predicate WriteTyped(w: CheckpointWrite) {
    && ValidState(w.state) && IsReadySet(w.ready) && 0 <= w.superstep <= MAX_DATABASE_ORDINAL
    && (w.parent.Some? ==> 0 <= w.parent.value.superstep <= MAX_DATABASE_ORDINAL)
  }

  /** A stored write restores to itself exactly when it is valid, and to nothing
      else. */
  lemma {:induction false} RestoreWriteExact(w: CheckpointWrite)
    requires WriteTyped(w)
    ensures RestoreWrite(w) == if ValidWrite(w) then Some(w) else None
  {}

  // ----- reverse verification -------------------------------------------------

  /** The head expected after accepting `cs`, newest first; undefined once one is
      rejected. */
  function Verify(expected: Option<CheckpointHead>, cs: seq<Checkpoint>): Option<Option<CheckpointHead>> {
    if cs == [] then Some(expected)
    else
      var before := Verify(expected, cs[..|cs| - 1]);
      var c := cs[|cs| - 1];
      if before.Some? && before.value == Some(Head(c)) then Some(c.parent) else None
  }

  /** The streaming verifier: it keeps one compact head. */
  class CheckpointLineageVerifier {
    var expected: Option<CheckpointHead>

    constructor (tip: CheckpointHead)
      ensures expected == Some(tip)
    {
      expected := Some(tip);
    }

    predicate IsComplete()
      reads this
    {
      expected.None?
    }

    /** Accepts exactly the checkpoint the expected head names; a rejection
        leaves the verifier unchanged. */
    method VerifyNext(c: Checkpoint) returns (ok: bool)
      modifies this
      ensures Verify(old(expected), [c]) == if ok then Some(expected) else None
      ensures !ok ==> expected == old(expected)
    {
      assert [c][..0] == [];
      if expected.None? {
        return false;
      }
      if Head(c) != expected.value {
        return false;
      }
      expected := c.parent;
      ok := true;
    }
  }

  function HeadOf(c: Option<Checkpoint>): Option<CheckpointHead> {
    if c.Some? then Some(Head(c.value)) else None
  }

  /** One page of a reverse read: the cursor it leaves, when the rows are accepted
      from the tip on and the head expected next is the row read ahead, or none. */
  function Page(tip: CheckpointHead, cs: seq<Checkpoint>, ahead: Option<Checkpoint>): Option<Option<CheckpointHead>> {
    if Verify(Some(tip), cs) == Some(HeadOf(ahead)) then Some(HeadOf(ahead)) else None
  }

  /** The page loop of the store, over a fresh verifier. */
  method VerifyPage(tip: CheckpointHead, cs: seq<Checkpoint>, ahead: Option<Checkpoint>)
    returns (cursor: Option<Option<CheckpointHead>>)
    ensures cursor == Page(tip, cs, ahead)
  {
    var verifier := new CheckpointLineageVerifier(tip);
    for k := 0 to |cs|
      invariant Verify(Some(tip), cs[..k]) == Some(verifier.expected)
    {
      VerifyStep(Some(tip), cs, k);
      var accepted := verifier.VerifyNext(cs[k]);
      if !accepted {
        return None;
      }
    }
    assert cs[..|cs|] == cs;
    if verifier.IsComplete() {
      return if ahead.None? then Some(None) else None;
    }
    cursor := if ahead.Some? && Head(ahead.value) == verifier.expected.value then Some(verifier.expected) else None;
  }

  lemma {:induction false} VerifyConcat(expected: Option<CheckpointHead>, a: seq<Checkpoint>, b: seq<Checkpoint>)
    ensures Verify(expected, a + b) ==
            var first := Verify(expected, a); if first.Some? then Verify(first.value, b) else None
  {
    if b == [] {
      assert a + b == a;
    } else {
      var n := |b| - 1;
      assert (a + b)[..|a + b| - 1] == a + b[..n];
      VerifyConcat(expected, a, b[..n]);
    }
  }

  /** Pages of at least one row each. */
  predicate ArePages(pages: seq<seq<Checkpoint>>) {
    pages != [] && forall i :: 0 <= i < |pages| ==> pages[i] != []
  }

  function Joined(pages: seq<seq<Checkpoint>>): seq<Checkpoint> {
    if pages == [] then [] else pages[0] + Joined(pages[1..])
  }

  /** Pages read one after the other, each from the cursor the last one left and
      with the next one's first row read ahead. */
  function ReadPages(tip: CheckpointHead, pages: seq<seq<Checkpoint>>): Option<Option<CheckpointHead>>
    requires ArePages(pages)
    decreases |pages|
  {
    if |pages| == 1 then Page(tip, pages[0], None)
    else
      var cursor := Page(tip, pages[0], Some(pages[1][0]));
      if cursor.None? || cursor.value.None? then None else ReadPages(cursor.value.value, pages[1..])
  }

  lemma {:induction false} FirstExpected(expected: Option<CheckpointHead>, cs: seq<Checkpoint>)
    requires cs != [] && Verify(expected, cs).Some?
    ensures expected == Some(Head(cs[0]))
  {
    VerifyPrefix(expected, cs, 1);
    assert cs[..1][..0] == [];
  }

  /** However a lineage is cut into pages, reading them all succeeds exactly when
      the verifier completes on the whole of it. */
  lemma {:induction false} PagesVerify(tip: CheckpointHead, pages: seq<seq<Checkpoint>>)
    requires ArePages(pages)
    ensures ReadPages(tip, pages) == if Verify(Some(tip), Joined(pages)) == Some(None) then Some(None) else None
    decreases |pages|
  {
    var rest := pages[1..];
    VerifyConcat(Some(tip), pages[0], Joined(rest));
    if |pages| == 1 {
      assert Joined(rest) == [];
    } else {
      var next := pages[1][0];
      assert rest[0] == pages[1] && Joined(rest)[0] == next;
      PagesVerify(Head(next), rest);
      var first := Verify(Some(tip), pages[0]);
      if first.Some? && Verify(first.value, Joined(rest)).Some? { FirstExpected(first.value, Joined(rest)); }
    }
  }

  lemma {:induction false} VerifyStep(expected: Option<CheckpointHead>, cs: seq<Checkpoint>, k: nat)
    requires k < |cs| && Verify(expected, cs[..k]).Some?
    ensures Verify(expected, cs[..k + 1]) == Verify(Verify(expected, cs[..k]).value, [cs[k]])
    ensures Verify(expected, cs[..k + 1]).None? ==> Verify(expected, cs).None?
  {
    assert cs[..k + 1][..k] == cs[..k];
    assert [cs[k]][..0] == [];
    if Verify(expected, cs).Some? { VerifyPrefix(expected, cs, k + 1); }
  }

  lemma {:induction false} VerifyPrefix(expected: Option<CheckpointHead>, cs: seq<Checkpoint>, k: nat)
    requires k <= |cs| && Verify(expected, cs).Some?
    ensures Verify(expected, cs[..k]).Some?
  {
    if k == |cs| {
      assert cs[..k] == cs;
    } else {
      var n := |cs| - 1;
      assert cs[..n][..k] == cs[..k];
      VerifyPrefix(expected, cs[..n], k);
    }
  }

  // ----- what acceptance means ------------------------------------------------

  /** Each checkpoint names the next as its exact parent, the first is the tip. */
  ghost predicate Linked(tip: CheckpointHead, cs: seq<Checkpoint>) {
    && (cs != [] ==> Head(cs[0]) == tip)
    && forall i :: 0 < i < |cs| ==> cs[i - 1].parent == Some(Head(cs[i]))
  }

  /** Verification accepts exactly the linked sequences, and then expects the
      last one's parent. */
  lemma {:induction false} VerifyLinked(tip: CheckpointHead, cs: seq<Checkpoint>)
    ensures Verify(Some(tip), cs).Some? <==> Linked(tip, cs)
    ensures Linked(tip, cs) ==>
            Verify(Some(tip), cs).value == if cs == [] then Some(tip) else cs[|cs| - 1].parent
  {
    if cs != [] {
      var n := |cs| - 1;
      var init := cs[..n];
      VerifyLinked(tip, init);
      assert n > 0 ==> init[0] == cs[0] && init[n - 1] == cs[n - 1];
      if Linked(tip, init) && Verify(Some(tip), init).value == Some(Head(cs[n])) {
        forall i | 0 < i < |cs| ensures cs[i - 1].parent == Some(Head(cs[i])) {
          if i < n { assert init[i - 1].parent == Some(Head(init[i])); }
        }
      }
      if Linked(tip, cs) {
        forall i | 0 < i < n ensures init[i - 1].parent == Some(Head(init[i])) {
          assert cs[i - 1].parent == Some(Head(cs[i]));
        }
      }
    }
  }

  /** A page is accepted exactly when it is linked from the tip and goes on with the
      row read ahead, or, with none, ends at a root. It leaves that row's head. */
  lemma {:induction false} PageExact(tip: CheckpointHead, cs: seq<Checkpoint>, ahead: Option<Checkpoint>)
    ensures Page(tip, cs, ahead).Some? <==>
            && Linked(tip, cs)
            && if ahead.Some? then Linked(tip, cs + [ahead.value]) else cs != [] && cs[|cs| - 1].parent.None?
    ensures Page(tip, cs, ahead).Some? ==> Page(tip, cs, ahead).value == HeadOf(ahead)
  {
    VerifyLinked(tip, cs);
    if ahead.Some? {
      var longer := cs + [ahead.value];
      VerifyLinked(tip, longer);
      assert longer[..|cs|] == cs;
    }
  }

  ghost predicate AllValid(cs: seq<Checkpoint>) {
    forall i :: 0 <= i < |cs| ==> ValidCheckpoint(cs[i])
  }

  lemma {:induction false} Position(tip: CheckpointHead, cs: seq<Checkpoint>, i: nat)
    requires AllValid(cs) && Linked(tip, cs) && i < |cs|
    ensures cs[i].superstep == tip.superstep - i
    ensures cs[i].tenant == tip.tenant && cs[i].run == tip.run && cs[i].graph == tip.graph
    ensures cs[i].state.schema == tip.graph.stateSchema
  {
    assert ValidCheckpoint(cs[i]);
    if i > 0 {
      Position(tip, cs, i - 1);
      assert cs[i - 1].parent == Some(Head(cs[i]));
      assert ValidCheckpoint(cs[i - 1]);
    }
  }

  lemma {:induction false} Chronology(tip: CheckpointHead, cs: seq<Checkpoint>, i: nat, j: nat)
    requires AllValid(cs) && Linked(tip, cs) && i < j < |cs|
    ensures cs[j].journalHead.sequence < cs[i].journalHead.sequence
    ensures cs[j].journalHead.recordedAt <= cs[i].journalHead.recordedAt
  {
    assert cs[j - 1].parent == Some(Head(cs[j]));
    assert ValidCheckpoint(cs[j - 1]);
    if i < j - 1 { Chronology(tip, cs, i, j - 1); }
  }

  /** A complete lineage of a tip: contiguous supersteps down to zero, one
      tenant, run, graph and state schema, exact parents under new identities,
      journal positions strictly decreasing and times never increasing. */
  ghost predicate Lineage(tip: CheckpointHead, cs: seq<Checkpoint>) {
    && 0 < |cs| == tip.superstep + 1
    && Linked(tip, cs)
    && cs[|cs| - 1].parent.None?
    && (forall i :: 0 <= i < |cs| ==>
          && cs[i].superstep == tip.superstep - i
          && cs[i].tenant == tip.tenant && cs[i].run == tip.run && cs[i].graph == tip.graph
          && cs[i].state.schema == tip.graph.stateSchema)
    && (forall i :: 0 < i < |cs| ==> cs[i - 1].id != cs[i].id)
    && (forall i, j :: 0 <= i < j < |cs| ==>
          && cs[j].journalHead.sequence < cs[i].journalHead.sequence
          && cs[j].journalHead.recordedAt <= cs[i].journalHead.recordedAt)
  }

  /** Restored checkpoints complete the verifier exactly when they are the
      lineage of its tip. */
  lemma {:induction false} CompleteIsLineage(tip: CheckpointHead, cs: seq<Checkpoint>)
    requires AllValid(cs)
    ensures Verify(Some(tip), cs) == Some(None) <==> Lineage(tip, cs)
  {
    VerifyLinked(tip, cs);
    if Verify(Some(tip), cs) == Some(None) {
      forall i | 0 <= i < |cs| ensures
          && cs[i].superstep == tip.superstep - i
          && cs[i].tenant == tip.tenant && cs[i].run == tip.run && cs[i].graph == tip.graph
          && cs[i].state.schema == tip.graph.stateSchema {
        Position(tip, cs, i);
      }
      forall i | 0 < i < |cs| ensures cs[i - 1].id != cs[i].id {
        assert cs[i - 1].parent == Some(Head(cs[i]));
        assert ValidCheckpoint(cs[i - 1]);
      }
      forall i, j | 0 <= i < j < |cs| ensures
          && cs[j].journalHead.sequence < cs[i].journalHead.sequence
          && cs[j].journalHead.recordedAt <= cs[i].journalHead.recordedAt {
        Chronology(tip, cs, i, j);
      }
      assert ValidCheckpoint(cs[|cs| - 1]);
    }
  }

  // ----- uniqueness -----------------------------------------------------------

  /** Equal in every field, the state up to its canonical bytes. */
  predicate SameCheckpoint(a: Checkpoint, b: Checkpoint) {
    && a == b.(state := a.state)
    && a.state == b.state.(data := a.state.data)
    && a.state.data.canonical == b.state.data.canonical
  }

  /** A head determines its checkpoint. */
  lemma {:induction false} HeadDetermines(a: Checkpoint, b: Checkpoint)
    requires ValidCheckpoint(a) && ValidCheckpoint(b) && Head(a) == Head(b)
    ensures SameCheckpoint(a, b)
  {}

  lemma {:induction false} LineageAgrees(tip: CheckpointHead, a: seq<Checkpoint>, b: seq<Checkpoint>, k: nat)
    requires AllValid(a) && AllValid(b) && Linked(tip, a) && Linked(tip, b) && k < |a| && k < |b|
    ensures SameCheckpoint(a[k], b[k])
  {
    if k > 0 {
      LineageAgrees(tip, a, b, k - 1);
      assert a[k - 1].parent == Some(Head(a[k])) && b[k - 1].parent == Some(Head(b[k]));
    }
    HeadDetermines(a[k], b[k]);
  }

  /** Any two lineages that complete from one tip are the same, up to the
      canonical bytes of their states. */
  lemma {:induction false} LineageUnique(tip: CheckpointHead, a: seq<Checkpoint>, b: seq<Checkpoint>)
    requires AllValid(a) && AllValid(b)
    requires Verify(Some(tip), a) == Some(None) && Verify(Some(tip), b) == Some(None)
    ensures |a| == |b| && forall k :: 0 <= k < |a| ==> SameCheckpoint(a[k], b[k])
  {
    CompleteIsLineage(tip, a);
    CompleteIsLineage(tip, b);
    forall k | 0 <= k < |a| ensures SameCheckpoint(a[k], b[k]) { LineageAgrees(tip, a, b, k); }
  }

  // ----- forward construction -------------------------------------------------

  /** What a run supplies for one checkpoint. */
  datatype Entry = Entry(id: int, schema: SchemaReference, data: Json, ready: seq<NodeId>, journalHead: JournalHead)

  /** Commits one more checkpoint in front of a chain. */
  function Append(chain: seq<Checkpoint>, e: Entry): Option<seq<Checkpoint>>
    requires chain != []
  {
    var state := NewState(e.schema, e.data);
    if state.None? then None
    else
      var write := Successor(e.id, chain[0], state.value, e.ready);
      if write.None? then None
      else
        var c := Commit(write.value, e.journalHead);
        if c.None? then None else Some([c.value] + chain)
  }

  function Start(tenant: int, run: int, graph: GraphReference, e: Entry): Option<seq<Checkpoint>> {
    var state := NewState(e.schema, e.data);
    if state.None? then None
    else
      var write := Initial(tenant, run, e.id, graph, state.value, e.ready);
      if write.None? then None
      else
        var c := Commit(write.value, e.journalHead);
        if c.None? then None else Some([c.value])
  }

  /** A whole run, newest first: the root, then one successor per entry. */
  function Grow(tenant: int, run: int, graph: GraphReference, root: Entry, es: seq<Entry>): (r: Option<seq<Checkpoint>>)
    ensures r.Some? ==> |r.value| == |es| + 1
  {
    if es == [] then Start(tenant, run, graph, root)
    else
      var chain := Grow(tenant, run, graph, root, es[..|es| - 1]);
      if chain.None? then None else Append(chain.value, es[|es| - 1])
  }

  /** Entries as the source's types admit them. */
  predicate WellFormed(e: Entry) {
    IsReadySet(e.ready)
  }

  ghost predicate IsChain(cs: seq<Checkpoint>) {
    cs != [] && AllValid(cs) && Linked(Head(cs[0]), cs) && cs[|cs| - 1].parent.None?
  }

  /** A run can be continued exactly with canonical state of the graph's schema,
      a new identity, and a later journal position of its own run. */
  lemma {:induction false} AppendExact(chain: seq<Checkpoint>, e: Entry)
    requires IsChain(chain)
    ensures Append(chain, e).Some? <==>
            var tip := chain[0];
            && e.data.canonical.Some? && e.schema == tip.graph.stateSchema
            && tip.superstep < MAX_DATABASE_ORDINAL && e.id != tip.id
            && e.journalHead.tenant == tip.tenant && e.journalHead.run == tip.run
            && tip.journalHead.sequence < e.journalHead.sequence
            && tip.journalHead.recordedAt <= e.journalHead.recordedAt
    ensures Append(chain, e).Some? ==>
            var c, tip := Append(chain, e).value[0], chain[0];
            && Append(chain, e).value == [c] + chain
            && c.id == e.id && c.superstep == tip.superstep + 1
            && c.state.data == e.data && c.ready == e.ready && c.journalHead == e.journalHead
            && c.parent == Some(CheckpointHead(tip.tenant, tip.run, tip.id, tip.superstep, tip.graph, tip.journalHead,
                                               CheckpointDigest(tip.intent, tip.journalHead)))
  {}

  /** A run starts exactly with canonical state of the graph's schema at a journal
      position of its own, and its root keeps what it was given. */
  lemma {:induction false} StartExact(tenant: int, run: int, graph: GraphReference, e: Entry)
    ensures Start(tenant, run, graph, e).Some? <==>
            && e.data.canonical.Some? && e.schema == graph.stateSchema
            && e.journalHead.tenant == tenant && e.journalHead.run == run
    ensures Start(tenant, run, graph, e).Some? ==>
            var c := Start(tenant, run, graph, e).value[0];
            && Start(tenant, run, graph, e).value == [c]
            && c.tenant == tenant && c.run == run && c.id == e.id && c.superstep == 0 && c.graph == graph
            && c.state.data == e.data && c.ready == e.ready && c.parent.None? && c.journalHead == e.journalHead
  {}

  /** A valid successor in front of a chain is a longer chain. */
  lemma {:induction false} Extend(chain: seq<Checkpoint>, c: Checkpoint)
    requires IsChain(chain) && ValidCheckpoint(c) && c.parent == Some(Head(chain[0]))
    ensures IsChain([c] + chain)
  {}

  lemma {:induction false} AppendChain(chain: seq<Checkpoint>, e: Entry)
    requires IsChain(chain) && WellFormed(e) && Append(chain, e).Some?
    ensures IsChain(Append(chain, e).value)
  {
    assert ValidCheckpoint(chain[0]);
    Extend(chain, Append(chain, e).value[0]);
  }

  lemma {:induction false} GrowChain(tenant: int, run: int, graph: GraphReference, root: Entry, es: seq<Entry>)
    requires WellFormed(root) && forall i :: 0 <= i < |es| ==> WellFormed(es[i])
    requires Grow(tenant, run, graph, root, es).Some?
    ensures IsChain(Grow(tenant, run, graph, root, es).value)
  {
    if es != [] {
      var n := |es| - 1;
      GrowChain(tenant, run, graph, root, es[..n]);
      AppendChain(Grow(tenant, run, graph, root, es[..n]).value, es[n]);
    }
  }

  /** The checkpoint holds what the entry supplied. */
  predicate HoldsEntry(c: Checkpoint, e: Entry) {
    c.id == e.id && c.state.data == e.data && c.ready == e.ready && c.journalHead == e.journalHead
  }

  /** A committed run holds its entries, newest first, one superstep after the
      other, on the root of its tenant, run and graph. */
  lemma {:induction false} GrownHolds(tenant: int, run: int, graph: GraphReference, root: Entry, es: seq<Entry>,
                                      i: nat)
    requires Grow(tenant, run, graph, root, es).Some? && i <= |es|
    ensures var c := Grow(tenant, run, graph, root, es).value[|es| - i];
            && c.tenant == tenant && c.run == run && c.graph == graph && c.superstep == i
            && HoldsEntry(c, if i == 0 then root else es[i - 1])
  {
    if es != [] {
      var n := |es| - 1;
      var before := Grow(tenant, run, graph, root, es[..n]).value;
      GrownHolds(tenant, run, graph, root, es[..n], if i <= n then i else n);
      assert i <= n ==> Grow(tenant, run, graph, root, es).value[|es| - i] == before[n - i];
    }
  }

  /** Every run that was committed is accepted newest first, is incomplete
      before its root and complete at it. */
  lemma {:induction false} GrownVerifies(tenant: int, run: int, graph: GraphReference, root: Entry, es: seq<Entry>,
                                         k: nat)
    requires WellFormed(root) && forall i :: 0 <= i < |es| ==> WellFormed(es[i])
    requires Grow(tenant, run, graph, root, es).Some? && k <= |es| + 1
    ensures var cs := Grow(tenant, run, graph, root, es).value;
            var seen := Verify(Some(Head(cs[0])), cs[..k]);
            seen.Some? && (seen.value.None? <==> k == |cs|)
  {
    GrowChain(tenant, run, graph, root, es);
    ChainVerifies(Grow(tenant, run, graph, root, es).value, k);
  }

  lemma {:induction false} ChainVerifies(cs: seq<Checkpoint>, k: nat)
    requires IsChain(cs) && k <= |cs|
    ensures var seen := Verify(Some(Head(cs[0])), cs[..k]);
            seen.Some? && (seen.value.None? <==> k == |cs|)
  {
    var tip := Head(cs[0]);
    LinkedPrefix(tip, cs, k);
    VerifyLinked(tip, cs[..k]);
    assert 0 < k < |cs| ==> cs[k - 1].parent == Some(Head(cs[k]));
  }

  lemma {:induction false} LinkedPrefix(tip: CheckpointHead, cs: seq<Checkpoint>, k: nat)
    requires Linked(tip, cs) && k <= |cs|
    ensures Linked(tip, cs[..k])
  {}
}
