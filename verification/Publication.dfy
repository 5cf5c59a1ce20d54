/**
  Publication of ingested artifacts (store.rs of the artifact store).

  Any number of ingestions share one object store and one registry. Each stages
  bytes under its own key, copies them to a deterministic final key if that key
  is free, verifies the final object and registers it. Steps interleave freely;
  a call may take effect late or without being acknowledged, staged objects may
  change or vanish at any time, and an ingestion may stop anywhere.
 */
module Publication {
  import opened Prelude
  import opened Staging
  import Registration

  datatype Path = StagingPath(ingest: int) | FinalPath(tenant: Bytes, artifact: int)

  /** Object bytes under the version and entity tag of their creation. */
  datatype StoredObject = StoredObject(bytes: Bytes, tag: int)

  /** A part to ingest, under the identity its registration key hashes. */
  datatype RequestFields = Request(
    identity: Registration.Identity, artifact: int, presentation: int, provenance: int)

  predicate IsRequest(r: RequestFields) {
    Registration.IsIdentity(r.identity) && Registration.Bounded(Registration.FieldsOf(r.identity))
  }

  type Request = r: RequestFields | IsRequest(r)
    witness Request(Registration.Identity([], [], [], [], [], [], [], [], 0, 0), 0, 0, 0)

  function RegistrationKey(r: Request): ContentDigest {
    Sha256(Registration.Preimage(r.identity))
  }

  /** One key belongs to one identity, its tenant included. */
  lemma KeyIdentity(x: Request, y: Request)
    ensures RegistrationKey(x) == RegistrationKey(y) <==> x.identity == y.identity
  {
    Registration.PreimageInjective(x.identity, y.identity);
  }

  datatype ArtifactRef = ArtifactRef(
    tenant: Bytes, artifact: int, presentation: int, provenance: int, mediaType: int, length: int,
    digest: ContentDigest)

  /** A registration: its idempotency key, the public reference and the locator. */
  datatype Record = Record(key: ContentDigest, artifact: ArtifactRef, locator: Path, tag: int)

  datatype Staged = Staged(length: int, digest: ContentDigest, mediaType: int)

  datatype Outcome = Running | Returned(artifact: ArtifactRef) | Stopped

  datatype Ingest = Ingest(request: Request, staged: Option<Staged>, copied: bool, tag: Option<int>, outcome: Outcome)

  datatype World = World(objects: map<Path, StoredObject>, registry: seq<Record>, ingests: map<int, Ingest>)

  function Final(r: Request): Path {
    FinalPath(r.identity.tenant, r.artifact)
  }

  function Reference(r: Request, s: Staged): ArtifactRef {
    ArtifactRef(r.identity.tenant, r.artifact, r.presentation, r.provenance, s.mediaType, s.length, s.digest)
  }

  // ----- the registry ---------------------------------------------------------

  predicate SameIdentity(x: Record, y: Record) {
    x.artifact.tenant == y.artifact.tenant && x.artifact.artifact == y.artifact.artifact
  }

  /** Records that one of the three uniqueness constraints keeps apart. */
  predicate Clash(x: Record, y: Record) {
    || SameIdentity(x, y)
    || (x.artifact.tenant == y.artifact.tenant && x.key == y.key)
    || x.locator == y.locator
  }

  predicate Admits(registry: seq<Record>, x: Record) {
    forall i :: 0 <= i < |registry| ==> !Clash(registry[i], x)
  }

  /** Inserts unless a constraint forbids it. */
  function Inserted(registry: seq<Record>, x: Record): seq<Record> {
    if Admits(registry, x) then registry + [x] else registry
  }

  function Lookup(registry: seq<Record>, tenant: Bytes, artifact: int): Option<Record> {
    if registry == [] then None
    else
      var last := registry[|registry| - 1];
      if last.artifact.tenant == tenant && last.artifact.artifact == artifact then Some(last)
      else Lookup(registry[..|registry| - 1], tenant, artifact)
  }

  /** Registration succeeds when the record under that identity is the given one. */
  predicate Registers(registry: seq<Record>, x: Record) {
    Lookup(Inserted(registry, x), x.artifact.tenant, x.artifact.artifact) == Some(x)
  }

  /** A failed registration is rolled back. */
  function Registered(registry: seq<Record>, x: Record): seq<Record> {
    if Registers(registry, x) then Inserted(registry, x) else registry
  }

  // ----- steps ----------------------------------------------------------------

  datatype Step =
    | Begin(id: int, request: Request)
    /** Anything that happens to a staged object: late writes, deletion, expiry. */
    | Disturb(id: int, content: Option<StoredObject>)
    | Stage(id: int, bytes: Bytes, mediaType: int)
    | Copy(id: int, tag: int, acknowledged: bool)
    | Verify(id: int)
    | Register(id: int, acknowledged: bool)
    | Stop(id: int)

  /** The object store after a create-if-absent copy. */
  function CopyIfAbsent(objects: map<Path, StoredObject>, from: Path, to: Path, tag: int): map<Path, StoredObject> {
    if from in objects && to !in objects then objects[to := StoredObject(objects[from].bytes, tag)] else objects
  }

  predicate Describes(o: StoredObject, length: int, digest: ContentDigest) {
    |o.bytes| == length && Sha256(o.bytes) == digest
  }

  function RecordOf(x: Ingest): Record
    requires x.staged.Some? && x.tag.Some?
  {
    Record(RegistrationKey(x.request), Reference(x.request, x.staged.value), Final(x.request), x.tag.value)
  }

  function DoStage(w: World, id: int, x: Ingest, bytes: Bytes, mediaType: int): World {
    if x.outcome != Running || x.staged.Some? then w
    else w.(objects := w.objects[StagingPath(id) := StoredObject(bytes, 0)],
            ingests := w.ingests[id := x.(staged := Some(Staged(|bytes|, Sha256(bytes), mediaType)))])
  }

  function DoCopy(w: World, id: int, x: Ingest, tag: int, acknowledged: bool): World {
    var objects := CopyIfAbsent(w.objects, StagingPath(id), Final(x.request), tag);
    var done := acknowledged && x.outcome == Running && x.staged.Some? && Final(x.request) in objects;
    w.(objects := objects, ingests := if done then w.ingests[id := x.(copied := true)] else w.ingests)
  }

  function DoVerify(w: World, id: int, x: Ingest): World {
    if x.outcome != Running || !x.copied || x.staged.None? || x.tag.Some? then w
    else if Final(x.request) in w.objects
            && Describes(w.objects[Final(x.request)], x.staged.value.length, x.staged.value.digest)
    then w.(ingests := w.ingests[id := x.(tag := Some(w.objects[Final(x.request)].tag))])
    else w.(ingests := w.ingests[id := x.(outcome := Stopped)])
  }

  function DoRegister(w: World, id: int, x: Ingest, acknowledged: bool): World {
    if x.staged.None? || x.tag.None? then w
    else
      var record := RecordOf(x);
      var outcome := if Registers(w.registry, record) then Returned(record.artifact) else Stopped;
      w.(registry := Registered(w.registry, record),
         ingests := if acknowledged && x.outcome == Running then w.ingests[id := x.(outcome := outcome)] else w.ingests)
  }

  function Next(w: World, step: Step): World {
    match step
    case Begin(id, request) =>
      if id in w.ingests then w else w.(ingests := w.ingests[id := Ingest(request, None, false, None, Running)])
    case Disturb(id, content) =>
      var path := StagingPath(id);
      w.(objects := if content.Some? then w.objects[path := content.value] else w.objects - {path})
    case Stage(id, bytes, mediaType) =>
      if id in w.ingests then DoStage(w, id, w.ingests[id], bytes, mediaType) else w
    case Copy(id, tag, acknowledged) =>
      if id in w.ingests then DoCopy(w, id, w.ingests[id], tag, acknowledged) else w
    case Verify(id) =>
      if id in w.ingests then DoVerify(w, id, w.ingests[id]) else w
    case Register(id, acknowledged) =>
      if id in w.ingests then DoRegister(w, id, w.ingests[id], acknowledged) else w
    case Stop(id) =>
      if id in w.ingests && w.ingests[id].outcome == Running
      then w.(ingests := w.ingests[id := w.ingests[id].(outcome := Stopped)])
      else w
  }

  /** Two worlds that differ at most in one staged object. */
  ghost predicate StagedDiffers(w: World, v: World, id: int) {
    && v == w.(objects := v.objects)
    && forall p :: p != StagingPath(id) ==>
         (p in w.objects <==> p in v.objects) && (p in w.objects ==> v.objects[p] == w.objects[p])
  }

  /** The steps leave nothing out that may happen outside an ingestion: a staged
      object may become or lose anything at any time, and any running ingestion may
      stop where it is. */
  lemma {:induction false} AnythingMayHappen(w: World, v: World, id: int)
    ensures StagedDiffers(w, v, id) ==> exists step: Step :: Unobserved(step, id) && Next(w, step) == v
    ensures id in w.ingests && w.ingests[id].outcome == Running ==>
            Next(w, Stop(id)) == w.(ingests := w.ingests[id := w.ingests[id].(outcome := Stopped)])
  {
    if StagedDiffers(w, v, id) {
      var path := StagingPath(id);
      var step := Disturb(id, if path in v.objects then Some(v.objects[path]) else None);
      assert Next(w, step).objects == v.objects;
      assert Next(w, step) == v;
    }
  }

  // ----- what never changes ---------------------------------------------------

  /** Final objects are never changed or removed. */
  ghost predicate FinalsKept(w: World, v: World) {
    forall p: Path :: p.FinalPath? && p in w.objects ==> p in v.objects && v.objects[p] == w.objects[p]
  }

  /** Records are never changed or removed. */
  predicate RecordsKept(w: World, v: World) {
    w.registry <= v.registry
  }

  /** An ingestion keeps its request and the evidence it has; once it ended, nothing
      about it changes. */
  predicate IngestKept(x: Ingest, y: Ingest) {
    && y.request == x.request
    && (x.staged.Some? ==> y.staged == x.staged) && (x.copied ==> y.copied) && (x.tag.Some? ==> y.tag == x.tag)
    && (x.outcome != Running ==> y == x)
  }

  ghost predicate ResultsKept(w: World, v: World) {
    forall id :: id in w.ingests ==> id in v.ingests && IngestKept(w.ingests[id], v.ingests[id])
  }

  ghost predicate Kept(w: World, v: World) {
    FinalsKept(w, v) && RecordsKept(w, v) && ResultsKept(w, v)
  }

  lemma {:induction false} StepFinals(w: World, step: Step)
    ensures FinalsKept(w, Next(w, step))
  {}

  lemma {:induction false} StepRecords(w: World, step: Step)
    ensures RecordsKept(w, Next(w, step))
  {}

  lemma {:induction false} StepResults(w: World, step: Step)
    ensures ResultsKept(w, Next(w, step))
  {}

  lemma {:induction false} StepKeeps(w: World, step: Step)
    ensures Kept(w, Next(w, step))
  {
    StepFinals(w, step);
    StepRecords(w, step);
    StepResults(w, step);
  }

  lemma KeptTransitive(a: World, b: World, c: World)
    ensures Kept(a, b) && Kept(b, c) ==> Kept(a, c)
  {}

  // ----- invariant ------------------------------------------------------------

  /** A location holds exactly what a length and a digest describe. */
  predicate Holds(w: World, p: Path, length: int, digest: ContentDigest, tag: int) {
    p in w.objects && Describes(w.objects[p], length, digest) && w.objects[p].tag == tag
  }

  predicate RecordTrue(w: World, r: Record) {
    && r.locator == FinalPath(r.artifact.tenant, r.artifact.artifact)
    && Holds(w, r.locator, r.artifact.length, r.artifact.digest, r.tag)
  }

  predicate IngestTrue(w: World, x: Ingest) {
    && (x.copied ==> x.staged.Some? && Final(x.request) in w.objects)
    && (x.tag.Some? ==>
          && x.copied && x.staged.Some?
          && Holds(w, Final(x.request), x.staged.value.length, x.staged.value.digest, x.tag.value))
    && (x.outcome.Returned? ==>
          && x.staged.Some? && x.tag.Some?
          && RecordOf(x) in w.registry && x.outcome.artifact == RecordOf(x).artifact)
  }

  ghost predicate RecordsTrue(w: World) {
    forall i :: 0 <= i < |w.registry| ==> RecordTrue(w, w.registry[i])
  }

  predicate RecordsApart(registry: seq<Record>) {
    forall i, j :: 0 <= i < j < |registry| ==> !Clash(registry[i], registry[j])
  }

  ghost predicate IngestsTrue(w: World) {
    forall id :: id in w.ingests ==> IngestTrue(w, w.ingests[id])
  }

  ghost predicate Consistent(w: World) {
    RecordsTrue(w) && RecordsApart(w.registry) && IngestsTrue(w)
  }

  /** What held of final objects and records still holds when they are kept. */
  lemma TruthKept(w: World, v: World, x: Ingest)
    requires FinalsKept(w, v) && RecordsKept(w, v) && IngestTrue(w, x)
    ensures IngestTrue(v, x)
  {}

  lemma {:induction false} LookupMember(registry: seq<Record>, tenant: Bytes, artifact: int)
    ensures var found := Lookup(registry, tenant, artifact);
            if found.Some?
            then && found.value in registry
                 && found.value.artifact.tenant == tenant && found.value.artifact.artifact == artifact
            else forall i :: 0 <= i < |registry| ==>
                   registry[i].artifact.tenant != tenant || registry[i].artifact.artifact != artifact
  {
    if registry != [] {
      var init := registry[..|registry| - 1];
      LookupMember(init, tenant, artifact);
      assert forall i :: 0 <= i < |init| ==> init[i] == registry[i];
    }
  }

  lemma {:induction false} LookupUnique(registry: seq<Record>, r: Record)
    requires RecordsApart(registry) && r in registry
    ensures Lookup(registry, r.artifact.tenant, r.artifact.artifact) == Some(r)
  {
    LookupMember(registry, r.artifact.tenant, r.artifact.artifact);
    var i :| 0 <= i < |registry| && registry[i] == r;
    var found := Lookup(registry, r.artifact.tenant, r.artifact.artifact);
    assert found.Some?;
    var j :| 0 <= j < |registry| && registry[j] == found.value;
    assert Clash(registry[i], registry[j]) && Clash(registry[j], registry[i]);
  }

  // ----- every step keeps the world consistent --------------------------------

  lemma {:induction false} RegisteredApart(registry: seq<Record>, r: Record)
    requires RecordsApart(registry)
    ensures RecordsApart(Registered(registry, r))
    ensures Registers(registry, r) <==> r in Registered(registry, r)
    ensures forall i :: |registry| <= i < |Registered(registry, r)| ==> Registered(registry, r)[i] == r
  {
    var after := Registered(registry, r);
    LookupMember(Inserted(registry, r), r.artifact.tenant, r.artifact.artifact);
    if r in after { LookupUnique(after, r); }
    if r in registry { LookupUnique(registry, r); }
  }

  lemma {:induction false} RegisterConsistent(w: World, id: int, acknowledged: bool)
    requires Consistent(w) && id in w.ingests
    ensures Consistent(DoRegister(w, id, w.ingests[id], acknowledged))
  {
    var x := w.ingests[id];
    if x.staged.Some? && x.tag.Some? {
      var v, r := DoRegister(w, id, x, acknowledged), RecordOf(x);
      RegisteredApart(w.registry, r);
      assert IngestTrue(w, x);
      forall i | 0 <= i < |v.registry| ensures RecordTrue(v, v.registry[i]) {
        if i < |w.registry| { assert v.registry[i] == w.registry[i]; }
      }
      forall k | k in v.ingests ensures IngestTrue(v, v.ingests[k]) { TruthKept(w, v, w.ingests[k]); }
    }
  }

  lemma {:induction false} SameRegistry(w: World, v: World)
    requires RecordsTrue(w) && FinalsKept(w, v) && v.registry == w.registry
    ensures RecordsTrue(v)
  {}

  lemma {:induction false} StepConsistent(w: World, step: Step)
    requires Consistent(w)
    ensures Consistent(Next(w, step))
  {
    StepKeeps(w, step);
    var v := Next(w, step);
    if step.Register? {
      if step.id in w.ingests { RegisterConsistent(w, step.id, step.acknowledged); }
    } else {
      SameRegistry(w, v);
      forall k | k in v.ingests ensures IngestTrue(v, v.ingests[k]) {
        if k in w.ingests { TruthKept(w, v, w.ingests[k]); }
      }
    }
  }

  // ----- whole runs -----------------------------------------------------------

  const EMPTY := World(map[], [], map[])

  ghost predicate IsHistory(states: seq<World>, steps: seq<Step>) {
    && |states| == |steps| + 1
    && states[0] == EMPTY
    && forall k :: 0 < k < |states| ==> states[k] == Next(states[k - 1], steps[k - 1])
  }

  lemma {:induction false} HistoryConsistent(states: seq<World>, steps: seq<Step>, i: nat)
    requires IsHistory(states, steps) && i < |states|
    ensures Consistent(states[i])
  {
    var p := (w: World) => Consistent(w);
    forall k | 0 < k < |states| && p(states[k - 1]) ensures p(states[k]) {
      StepConsistent(states[k - 1], steps[k - 1]);
    }
    Invariant(p, states, i);
  }

  /** In every interleaving, final objects, records and returned results are
      permanent. */
  lemma {:induction false} HistoryKeeps(states: seq<World>, steps: seq<Step>, i: nat, j: nat)
    requires IsHistory(states, steps) && i <= j < |states|
    ensures Kept(states[i], states[j])
  {
    var r := (w: World, v: World) => Kept(w, v);
    forall a, b, c ensures r(a, b) && r(b, c) ==> r(a, c) { KeptTransitive(a, b, c); }
    forall k | 0 < k < |states| ensures r(states[k - 1], states[k]) { StepKeeps(states[k - 1], steps[k - 1]); }
    Related(r, states, i, j);
  }

  /** Every record describes exactly the bytes at its locator, from the state it
      appears in on. */
  lemma {:induction false} RecordsDescribe(states: seq<World>, steps: seq<Step>, i: nat, j: nat, n: nat)
    requires IsHistory(states, steps) && i <= j < |states| && n < |states[i].registry|
    ensures n < |states[j].registry| && states[j].registry[n] == states[i].registry[n]
    ensures RecordTrue(states[j], states[i].registry[n])
  {
    HistoryConsistent(states, steps, j);
    HistoryKeeps(states, steps, i, j);
  }

  /** What an ingestion returned, if it has. */
  ghost predicate ReturnedBy(w: World, id: int, key: ContentDigest, a: ArtifactRef) {
    id in w.ingests && RegistrationKey(w.ingests[id].request) == key && w.ingests[id].outcome == Returned(a)
  }

  lemma {:induction false} ReturnedRecord(w: World, id: int, key: ContentDigest, a: ArtifactRef) returns (n: nat)
    requires Consistent(w) && ReturnedBy(w, id, key, a)
    ensures n < |w.registry| && w.registry[n].key == key && w.registry[n].artifact == a
  {
    var x := w.ingests[id];
    assert IngestTrue(w, x);
    n :| 0 <= n < |w.registry| && w.registry[n] == RecordOf(x);
  }

  /** Any two ingestions of one registration key that returned, at whatever
      points of whatever run, returned the same reference. */
  lemma {:induction false} OneArtifactPerKey(states: seq<World>, steps: seq<Step>, i: nat, j: nat,
                                             id: int, other: int, key: ContentDigest,
                                             a: ArtifactRef, b: ArtifactRef)
    requires IsHistory(states, steps) && i <= j < |states|
    requires ReturnedBy(states[i], id, key, a) && ReturnedBy(states[j], other, key, b)
    ensures a == b
  {
    HistoryConsistent(states, steps, j);
    HistoryKeeps(states, steps, i, j);
    var w := states[j];
    var m := ReturnedRecord(w, id, key, a);
    var n := ReturnedRecord(w, other, key, b);
    assert IngestTrue(w, w.ingests[id]) && IngestTrue(w, w.ingests[other]);
    KeyIdentity(w.ingests[id].request, w.ingests[other].request);
    assert Clash(w.registry[m], w.registry[n]) && Clash(w.registry[n], w.registry[m]);
  }

  // ----- reading back ---------------------------------------------------------

  /** `resolve` for an authorized reader: the registered reference, its object
      under the registered version, verified before it is returned. */
  function ResolveArtifact(w: World, a: ArtifactRef, maximum: int): Option<Bytes> {
    var stored := Lookup(w.registry, a.tenant, a.artifact);
    if stored.None? || stored.value.artifact != a || a.length > maximum then None
    else if stored.value.locator !in w.objects then None
    else
      var o := w.objects[stored.value.locator];
      if o.tag == stored.value.tag && Describes(o, a.length, a.digest) then Some(o.bytes) else None
  }

  /** A returned reference resolves, then and in every later state, to exactly
      the bytes it describes. */
  lemma {:induction false} ReturnedResolves(states: seq<World>, steps: seq<Step>, i: nat, j: nat,
                                            id: int, key: ContentDigest, a: ArtifactRef, maximum: int)
    requires IsHistory(states, steps) && i <= j < |states|
    requires ReturnedBy(states[i], id, key, a) && a.length <= maximum
    ensures var r := ResolveArtifact(states[j], a, maximum);
            r.Some? && |r.value| == a.length && Sha256(r.value) == a.digest
  {
    HistoryConsistent(states, steps, j);
    HistoryKeeps(states, steps, i, j);
    var n := ReturnedRecord(states[j], id, key, a);
    LookupUnique(states[j].registry, states[j].registry[n]);
    assert RecordTrue(states[j], states[j].registry[n]);
  }

  /** Bytes registered under exactly this reference, held at the locator in the
      registered version and described by the reference. */
  ghost predicate HeldUnder(w: World, r: Record, a: ArtifactRef, bytes: Bytes) {
    && r.artifact == a && r.locator in w.objects
    && w.objects[r.locator] == StoredObject(bytes, r.tag)
    && |bytes| == a.length && Sha256(bytes) == a.digest
  }

  /** Whatever happened to the objects, a reference resolves to bytes exactly when
      they are within the limit and held under a record of that very reference. An
      unregistered, altered or replaced artifact resolves to nothing. */
  lemma {:induction false} ResolveExact(w: World, a: ArtifactRef, maximum: int, bytes: Bytes)
    requires RecordsApart(w.registry)
    ensures ResolveArtifact(w, a, maximum) == Some(bytes) <==>
            a.length <= maximum && exists r :: r in w.registry && HeldUnder(w, r, a, bytes)
  {
    LookupMember(w.registry, a.tenant, a.artifact);
    if ResolveArtifact(w, a, maximum) == Some(bytes) {
      assert HeldUnder(w, Lookup(w.registry, a.tenant, a.artifact).value, a, bytes);
    }
    if r :| r in w.registry && HeldUnder(w, r, a, bytes) {
      LookupUnique(w.registry, r);
    }
  }

  /** In every reachable state that is: the reference is registered, within the
      limit, and these are the bytes at its locator. */
  lemma {:induction false} ResolveReachable(states: seq<World>, steps: seq<Step>, i: nat, a: ArtifactRef,
                                            maximum: int, bytes: Bytes)
    requires IsHistory(states, steps) && i < |states|
    ensures var w := states[i];
            ResolveArtifact(w, a, maximum) == Some(bytes) <==>
            && a.length <= maximum
            && exists n :: && 0 <= n < |w.registry| && w.registry[n].artifact == a
                           && w.registry[n].locator in w.objects && w.objects[w.registry[n].locator].bytes == bytes
  {
    var w := states[i];
    HistoryConsistent(states, steps, i);
    ResolveExact(w, a, maximum, bytes);
    if r :| r in w.registry && HeldUnder(w, r, a, bytes) {
      var n :| 0 <= n < |w.registry| && w.registry[n] == r;
    }
    if n :| && 0 <= n < |w.registry| && w.registry[n].artifact == a
            && w.registry[n].locator in w.objects && w.objects[w.registry[n].locator].bytes == bytes {
      assert RecordTrue(w, w.registry[n]);
      assert HeldUnder(w, w.registry[n], a, bytes);
    }
  }

  // ----- an undisturbed attempt -----------------------------------------------

  function Publish(w: World, id: int, request: Request, bytes: Bytes, mediaType: int, tag: int): World {
    Next(Next(Next(w, Begin(id, request)), Stage(id, bytes, mediaType)), Copy(id, tag, true))
  }

  function Conclude(w: World, id: int): World {
    Next(Next(w, Verify(id)), Register(id, true))
  }

  /** A whole ingestion, from staging to registration, with no other step between. */
  function Attempt(w: World, id: int, request: Request, bytes: Bytes, mediaType: int, tag: int): World {
    Conclude(Publish(w, id, request, bytes, mediaType, tag), id)
  }

  function FinalObject(w: World, request: Request, bytes: Bytes, tag: int): StoredObject {
    if Final(request) in w.objects then w.objects[Final(request)] else StoredObject(bytes, tag)
  }

  lemma {:induction false} Published(w: World, id: int, request: Request, bytes: Bytes, mediaType: int, tag: int)
    requires id !in w.ingests
    ensures var v := Publish(w, id, request, bytes, mediaType, tag);
            && v.registry == w.registry && id in v.ingests
            && v.ingests[id] == Ingest(request, Some(Staged(|bytes|, Sha256(bytes), mediaType)), true, None, Running)
            && Final(request) in v.objects && v.objects[Final(request)] == FinalObject(w, request, bytes, tag)
            && FinalsKept(w, v)
  {}

  /** What a copied ingestion would register. */
  function Offered(w: World, x: Ingest): Record
    requires x.staged.Some? && Final(x.request) in w.objects
  {
    RecordOf(x.(tag := Some(w.objects[Final(x.request)].tag)))
  }

  predicate ReadyToVerify(w: World, id: int) {
    && id in w.ingests
    && var x := w.ingests[id];
       x.outcome == Running && x.copied && x.staged.Some? && x.tag.None? && Final(x.request) in w.objects
  }

  lemma {:induction false} Concluded(w: World, id: int)
    requires RecordsApart(w.registry) && ReadyToVerify(w, id)
    ensures var x := w.ingests[id];
            var r := Offered(w, x);
            && id in Conclude(w, id).ingests
            && Conclude(w, id).ingests[id].outcome ==
               (if && Describes(w.objects[Final(x.request)], x.staged.value.length, x.staged.value.digest)
                   && (r in w.registry || Admits(w.registry, r))
                then Returned(r.artifact) else Stopped)
            && FinalsKept(w, Conclude(w, id))
  {
    RegistersIf(w.registry, Offered(w, w.ingests[id]));
  }

  lemma {:induction false} RegistersIf(registry: seq<Record>, r: Record)
    requires RecordsApart(registry)
    ensures Registers(registry, r) <==> r in registry || Admits(registry, r)
  {
    RegisteredApart(registry, r);
  }

  /** A registration succeeds exactly when the registry holds that record, or no
      record with its tenant and artifact, its tenant and key, or its locator. It
      adds at most that record, and a failed one changes nothing. */
  lemma {:induction false} RegistersExact(registry: seq<Record>, r: Record)
    requires RecordsApart(registry)
    ensures Registers(registry, r) <==>
            || r in registry
            || forall x :: x in registry ==>
                 && !(x.artifact.tenant == r.artifact.tenant && x.artifact.artifact == r.artifact.artifact)
                 && !(x.artifact.tenant == r.artifact.tenant && x.key == r.key)
                 && x.locator != r.locator
    ensures Registered(registry, r) == if Registers(registry, r) && r !in registry then registry + [r] else registry
  {
    RegistersIf(registry, r);
    if Admits(registry, r) {
      forall x | x in registry ensures !Clash(x, r) {
        var i :| 0 <= i < |registry| && registry[i] == x;
      }
    }
    if r in registry {
      var i :| 0 <= i < |registry| && registry[i] == r;
      assert Clash(registry[i], r);
    }
  }

  /** The final key is free or holds these bytes, and the registry holds the record
      of this request or nothing that clashes with it. */
  ghost predicate Publishable(w: World, request: Request, bytes: Bytes, mediaType: int, tag: int) {
    var o := FinalObject(w, request, bytes, tag);
    var a := Reference(request, Staged(|bytes|, Sha256(bytes), mediaType));
    var r := Record(RegistrationKey(request), a, Final(request), o.tag);
    o.bytes == bytes && (r in w.registry || Admits(w.registry, r))
  }

  /** An ingestion that nothing disturbs returns exactly when the final key is
      free or holds the same bytes and the registry holds that record or nothing
      that clashes with it. Otherwise it stops. No final object is overwritten. */
  lemma {:induction false} AttemptExact(w: World, id: int, request: Request, bytes: Bytes, mediaType: int, tag: int)
    requires Consistent(w) && id !in w.ingests
    ensures var v := Attempt(w, id, request, bytes, mediaType, tag);
            var a := ArtifactRef(request.identity.tenant, request.artifact, request.presentation, request.provenance,
                                 mediaType, |bytes|, Sha256(bytes));
            && id in v.ingests
            && v.ingests[id].outcome ==
               (if Publishable(w, request, bytes, mediaType, tag) then Returned(a) else Stopped)
            && FinalsKept(w, v)
  {
    Published(w, id, request, bytes, mediaType, tag);
    Concluded(Publish(w, id, request, bytes, mediaType, tag), id);
  }

  /** Retrying the exact request with the same content returns what was returned. */
  lemma {:induction false} RetryAgrees(w: World, earlier: int, id: int, a: ArtifactRef,
                                       bytes: Bytes, mediaType: int, tag: int)
    requires Consistent(w) && id !in w.ingests && earlier in w.ingests
    requires w.ingests[earlier].outcome == Returned(a)
    requires a == Reference(w.ingests[earlier].request, Staged(|bytes|, Sha256(bytes), mediaType))
    ensures var v := Attempt(w, id, w.ingests[earlier].request, bytes, mediaType, tag);
            id in v.ingests && v.ingests[id].outcome == Returned(a)
  {
    var x := w.ingests[earlier];
    assert IngestTrue(w, x);
    AttemptExact(w, id, x.request, bytes, mediaType, tag);
  }

  // ----- the ingestion itself -------------------------------------------------

  /** A step that an ingestion does not itself observe: another's step, a change
      of its staged object, or a late effect of one of its own calls. */
  predicate Unobserved(step: Step, id: int) {
    step.id != id || step.Disturb? || (step.Copy? && !step.acknowledged) || (step.Register? && !step.acknowledged)
  }

  lemma {:induction false} UnobservedKeeps(w: World, step: Step, id: int)
    requires Unobserved(step, id)
    ensures id in w.ingests <==> id in Next(w, step).ingests
    ensures id in w.ingests ==> Next(w, step).ingests[id] == w.ingests[id]
  {}

  lemma {:induction false} ReturnedContent(w: World, id: int, a: ArtifactRef, bytes: Bytes, maximum: int)
    requires Consistent(w) && id in w.ingests && w.ingests[id].outcome == Returned(a)
    requires a.length == |bytes| <= maximum && a.digest == Sha256(bytes)
    ensures ResolveArtifact(w, a, maximum) == Some(bytes)
  {
    var n := ReturnedRecord(w, id, RegistrationKey(w.ingests[id].request), a);
    LookupUnique(w.registry, w.registry[n]);
    assert RecordTrue(w, w.registry[n]);
  }

  /** What is at the final key after a copy of the staged object. */
  function Landed(w: World, id: int, tag: int): StoredObject
    requires id in w.ingests && StagingPath(id) in w.objects
  {
    var to := Final(w.ingests[id].request);
    if to in w.objects then w.objects[to] else StoredObject(w.objects[StagingPath(id)].bytes, tag)
  }

  class ArtifactStore {
    var world: World

    ghost predicate Valid()
      reads this
    {
      Consistent(world)
    }

    constructor ()
      ensures Valid() && world == EMPTY
    {
      world := EMPTY;
    }

    /** One step; what `start` had is still kept. */
    method Take(step: Step, ghost start: World)
      requires Valid() && Kept(start, world)
      modifies this
      ensures Valid() && Kept(start, world) && world == Next(old(world), step)
    {
      StepKeeps(world, step);
      StepConsistent(world, step);
      KeptTransitive(start, world, Next(world, step));
      world := Next(world, step);
    }

    /** Any number of steps an ingestion does not observe, between two of its own. */
    method Interfere(id: int, quiet: bool, ghost start: World)
      requires Valid() && Kept(start, world)
      modifies this
      ensures quiet ==> world == old(world)
      ensures Valid() && Kept(start, world)
      ensures id in world.ingests <==> id in old(world).ingests
      ensures id in world.ingests ==> world.ingests[id] == old(world).ingests[id]
    {
      var n: int := *;
      if quiet {
        n := 0;
      }
      while n > 0
        invariant Valid() && Kept(start, world) && (quiet ==> n <= 0 && world == old(world))
        invariant id in world.ingests <==> id in old(world).ingests
        invariant id in world.ingests ==> world.ingests[id] == old(world).ingests[id]
      {
        var step: Step := *;
        if Unobserved(step, id) {
          UnobservedKeeps(world, step, id);
          Take(step, start);
        }
        n := n - 1;
      }
    }

    /** Opens an ingestion and stages its content, which may fail. */
    method StageContent(id: int, request: Request, bytes: Bytes, mediaType: int, ghost tag: int, quiet: bool,
                        ghost start: World) returns (ok: bool)
      requires Valid() && world == start && id !in world.ingests
      modifies this
      ensures Valid() && Kept(start, world) && id in world.ingests
      ensures ok ==>
              var staged := Staged(|bytes|, Sha256(bytes), mediaType);
              world.ingests[id] == Ingest(request, Some(staged), false, None, Running)
      ensures quiet ==> && ok && world.registry == start.registry && StagingPath(id) in world.objects
                        && Landed(world, id, tag) == FinalObject(start, request, bytes, tag)
    {
      Take(Begin(id, request), start);
      ok := *;
      ok := quiet || ok;
      if ok {
        Take(Stage(id, bytes, mediaType), start);
        Interfere(id, quiet, start);
      }
    }

    /** `publish_and_verify`: a copy that reports success or an existing target is
        followed by a full check of the final object. Undisturbed, it succeeds exactly
        when what is then at the final key is the staged content. */
    method PublishAndVerify(id: int, tag: int, quiet: bool, ghost start: World) returns (ok: bool)
      requires Valid() && Kept(start, world) && id in world.ingests
      requires var x := world.ingests[id]; x.outcome == Running && x.staged.Some? && !x.copied && x.tag.None?
      modifies this
      ensures Valid() && Kept(start, world) && id in world.ingests
      ensures ok ==> var x := world.ingests[id];
                     x == old(world).ingests[id].(copied := true, tag := x.tag) && x.tag.Some?
      ensures quiet ==> world.registry == old(world).registry
      ensures quiet && StagingPath(id) in old(world).objects ==>
              var x, o := old(world).ingests[id], Landed(old(world), id, tag);
              && (ok <==> Describes(o, x.staged.value.length, x.staged.value.digest))
              && (ok ==> world.ingests[id].tag == Some(o.tag))
    {
      var acknowledged: bool := *;
      acknowledged := quiet || acknowledged;
      Take(Copy(id, tag, acknowledged), start);
      if !acknowledged || !world.ingests[id].copied {
        return false;
      }
      Interfere(id, quiet, start);
      Take(Verify(id), start);
      ok := world.ingests[id].tag.Some?;
    }

    /** Registration, whose acknowledgement may be lost. */
    method RegisterVerified(id: int, quiet: bool, ghost start: World) returns (r: Option<ArtifactRef>)
      requires Valid() && Kept(start, world) && id in world.ingests
      requires var x := world.ingests[id]; x.outcome == Running && x.staged.Some? && x.tag.Some?
      modifies this
      ensures Valid() && Kept(start, world) && id in world.ingests
      ensures world.ingests[id].request == old(world).ingests[id].request
      ensures r.Some? ==> && world.ingests[id].outcome == Returned(r.value)
                          && r.value == Reference(old(world).ingests[id].request, old(world).ingests[id].staged.value)
      ensures world.objects == old(world).objects
      ensures quiet ==> (r.Some? <==> Registers(old(world).registry, RecordOf(old(world).ingests[id])))
    {
      var acknowledged: bool := *;
      acknowledged := quiet || acknowledged;
      Take(Register(id, acknowledged), start);
      r := if world.ingests[id].outcome.Returned? then Some(world.ingests[id].outcome.artifact) else None;
    }

    /** `ingest_a2a`, from content that passed the media checks: what it returns
        is registered and resolves to exactly that content, whatever other
        ingestions and late effects run between its calls. When none do and every
        call is acknowledged, it returns exactly when the content is within the
        limit and publishable. */
    method IngestContent(id: int, request: Request, bytes: Bytes, mediaType: int, maximum: int, tag: int, quiet: bool)
      returns (r: Option<ArtifactRef>)
      requires Valid() && id !in world.ingests
      modifies this
      ensures Valid() && Kept(old(world), world)
      ensures r.Some? ==> && |bytes| <= maximum
                          && r.value == ArtifactRef(request.identity.tenant, request.artifact, request.presentation,
                                                    request.provenance, mediaType, |bytes|, Sha256(bytes))
                          && ReturnedBy(world, id, RegistrationKey(request), r.value)
                          && ResolveArtifact(world, r.value, maximum) == Some(bytes)
      ensures quiet ==>
              (r.Some? <==> |bytes| <= maximum && Publishable(old(world), request, bytes, mediaType, tag))
      ensures quiet && |bytes| <= maximum ==> StagingPath(id) !in world.objects
    {
      ghost var start := world;
      if |bytes| > maximum {
        return None;
      }
      var staged := StageContent(id, request, bytes, mediaType, tag, quiet, start);
      if !staged {
        Take(Disturb(id, None), start);
        return None;
      }
      var published := PublishAndVerify(id, tag, quiet, start);
      Take(Disturb(id, None), start);
      if !published {
        return None;
      }
      Interfere(id, quiet, start);
      RegistersIf(world.registry, RecordOf(world.ingests[id]));
      r := RegisterVerified(id, quiet, start);
      if r.Some? {
        ReturnedContent(world, id, r.value, bytes, maximum);
      }
    }
  }
}
