/**
  Checkpoint barriers (barrier.rs).

  A barrier consumes exactly one result of every ready node of its base
  checkpoint and names the successor that follows.
 */
module Barriers {
  import opened Prelude
  import opened Checkpoints

  datatype CheckpointBarrier = CheckpointBarrier(
    base: CheckpointHead, ready: seq<NodeId>, results: seq<ResultHead>, successor: CheckpointWrite, intent: Digest)

  // ----- how often a node has a result ----------------------------------------

  function Count(s: seq<ResultHead>, n: NodeId): nat {
    if s == [] then 0 else Count(s[..|s| - 1], n) + if s[|s| - 1].activation.node == n then 1 else 0
  }

  lemma {:induction false} CountIndex(s: seq<ResultHead>, n: NodeId)
    ensures Count(s, n) > 0 <==> exists i :: 0 <= i < |s| && s[i].activation.node == n
  {
    if s != [] {
      var init := s[..|s| - 1];
      CountIndex(init, n);
      if Count(init, n) > 0 {
        var i :| 0 <= i < |init| && init[i].activation.node == n;
        assert s[i].activation.node == n;
      }
      if i :| 0 <= i < |s| && s[i].activation.node == n {
        assert i < |init| ==> init[i].activation.node == n;
      }
    }
  }

  lemma {:induction false} CountWithout(s: seq<ResultHead>, i: nat, n: NodeId)
    requires i < |s|
    ensures Count(s, n) == Count(Without(s, i), n) + if s[i].activation.node == n then 1 else 0
  {
    var m := |s| - 1;
    if i < m {
      assert Without(s, i)[..m - 1] == Without(s[..m], i);
      CountWithout(s[..m], i, n);
    } else {
      assert Without(s, i) == s[..m];
    }
  }

  lemma {:induction false} CountPermuted(s: seq<ResultHead>, t: seq<ResultHead>, n: NodeId)
    requires multiset(s) == multiset(t)
    ensures Count(s, n) == Count(t, n)
    decreases |s|
  {
    if s == [] {
      assert |multiset(t)| == 0;
    } else {
      var last := s[|s| - 1];
      assert last in multiset(t);
      var j :| 0 <= j < |t| && t[j] == last;
      MultisetWithout(s, t, j);
      CountPermuted(s[..|s| - 1], Without(t, j), n);
      CountWithout(t, j, n);
    }
  }

  predicate DistinctResults(s: seq<ResultHead>) {
    forall i, j :: 0 <= i < j < |s| ==> s[i].activation.node != s[j].activation.node
  }

  ghost predicate AtMostOnce(s: seq<ResultHead>) {
    forall n :: Count(s, n) <= 1
  }

  lemma {:induction false} DistinctCount(s: seq<ResultHead>)
    ensures DistinctResults(s) <==> AtMostOnce(s)
  {
    if s != [] {
      var m := |s| - 1;
      var init, x := s[..m], s[m].activation.node;
      DistinctCount(init);
      CountIndex(init, x);
      if DistinctResults(s) {
        assert DistinctResults(init);
        assert forall n :: Count(s, n) == Count(init, n) + if x == n then 1 else 0;
      }
      if AtMostOnce(s) {
        forall n ensures Count(init, n) <= 1 { assert Count(s, n) <= 1; }
        assert Count(s, x) <= 1;
        forall i, j | 0 <= i < j < |s| ensures s[i].activation.node != s[j].activation.node {
          assert init[i] == s[i];
          if j < m { assert init[j] == s[j]; }
        }
      }
    }
  }

  // ----- canonical result order -----------------------------------------------

  function Place(s: seq<ResultHead>, x: ResultHead): seq<ResultHead> {
    if s == [] || s[|s| - 1].activation.node <= x.activation.node then s + [x]
    else Place(s[..|s| - 1], x) + [s[|s| - 1]]
  }

  /** The results in ascending node order. */
  function Arrange(s: seq<ResultHead>): seq<ResultHead> {
    if s == [] then [] else Place(Arrange(s[..|s| - 1]), s[|s| - 1])
  }

  lemma {:induction false} PlaceMultiset(s: seq<ResultHead>, x: ResultHead)
    ensures multiset(Place(s, x)) == multiset(s) + multiset{x}
  {
    if s != [] {
      assert s == s[..|s| - 1] + [s[|s| - 1]];
      PlaceMultiset(s[..|s| - 1], x);
    }
  }

  lemma {:induction false} ArrangeMultiset(s: seq<ResultHead>)
    ensures multiset(Arrange(s)) == multiset(s)
  {
    if s != [] {
      assert s == s[..|s| - 1] + [s[|s| - 1]];
      ArrangeMultiset(s[..|s| - 1]);
      PlaceMultiset(Arrange(s[..|s| - 1]), s[|s| - 1]);
    }
  }

  function Nodes(s: seq<ResultHead>): seq<NodeId> {
    seq(|s|, i requires 0 <= i < |s| => s[i].activation.node)
  }

  predicate Ordered(s: seq<ResultHead>) {
    forall i, j :: 0 <= i < j < |s| ==> s[i].activation.node < s[j].activation.node
  }

  lemma {:induction false} PlaceBelow(s: seq<ResultHead>, x: ResultHead, bound: NodeId)
    requires x.activation.node < bound && forall i :: 0 <= i < |s| ==> s[i].activation.node < bound
    ensures forall i :: 0 <= i < |Place(s, x)| ==> Place(s, x)[i].activation.node < bound
  {
    if s != [] { PlaceBelow(s[..|s| - 1], x, bound); }
  }

  lemma {:induction false} PlaceOrdered(s: seq<ResultHead>, x: ResultHead)
    requires Ordered(s) && forall i :: 0 <= i < |s| ==> s[i].activation.node != x.activation.node
    ensures Ordered(Place(s, x))
  {
    if s != [] && s[|s| - 1].activation.node > x.activation.node {
      PlaceOrdered(s[..|s| - 1], x);
      PlaceBelow(s[..|s| - 1], x, s[|s| - 1].activation.node);
    }
  }

  lemma {:induction false} ArrangeOrdered(s: seq<ResultHead>)
    requires DistinctResults(s)
    ensures Ordered(Arrange(s))
  {
    if s != [] {
      var m := |s| - 1;
      ArrangeOrdered(s[..m]);
      ArrangeMultiset(s[..m]);
      var rest := Arrange(s[..m]);
      forall i | 0 <= i < |rest| ensures rest[i].activation.node != s[m].activation.node {
        assert rest[i] in multiset(rest);
        assert rest[i] in s[..m];
      }
      PlaceOrdered(rest, s[m]);
    }
  }

  /** Ordered results with the same contents are the same sequence. */
  lemma {:induction false} OrderedUnique(s: seq<ResultHead>, t: seq<ResultHead>)
    requires Ordered(s) && Ordered(t) && multiset(s) == multiset(t)
    ensures s == t
  {
    SameNodes(s, t);
    forall i | 0 <= i < |s| ensures s[i] == t[i] {
      assert s[i] in multiset(t);
      var j :| 0 <= j < |t| && t[j] == s[i];
      assert Nodes(s)[i] == Nodes(t)[j];
      assert Nodes(t)[i] == Nodes(t)[j];
    }
  }

  lemma {:induction false} SameNodes(s: seq<ResultHead>, t: seq<ResultHead>)
    requires Ordered(s) && Ordered(t) && multiset(s) == multiset(t)
    ensures |s| == |t| && Nodes(s) == Nodes(t)
  {
    forall n ensures n in Nodes(s) <==> n in Nodes(t) {
      CountPermuted(s, t, n);
      NodesCount(s, n);
      NodesCount(t, n);
    }
    AscendingUnique(Nodes(s), Nodes(t));
    assert |Nodes(s)| == |Nodes(t)|;
  }

  lemma {:induction false} NodesCount(s: seq<ResultHead>, n: NodeId)
    ensures n in Nodes(s) <==> Count(s, n) > 0
  {
    CountIndex(s, n);
    if n in Nodes(s) {
      var i :| 0 <= i < |Nodes(s)| && Nodes(s)[i] == n;
      assert s[i].activation.node == n;
    }
    if i :| 0 <= i < |s| && s[i].activation.node == n {
      assert Nodes(s)[i] == n;
    }
  }

  // ----- result sets ----------------------------------------------------------

  /** One to 1024 root results of distinct nodes on one base checkpoint. */
  predicate IsResultSet(values: seq<ResultHead>) {
    && 1 <= |values| <= MAX_READY_NODES
    && (forall i :: 0 <= i < |values| ==>
          values[i].activation.namespace == [] && values[i].activation.base == values[0].activation.base)
    && DistinctResults(values)
  }

  /** `BarrierResultHeads::try_new`: refuses a bad result where it appears, then
      sorts what it collected. */
  method NewResultHeads(values: seq<ResultHead>) returns (r: Option<seq<ResultHead>>)
    ensures r == if IsResultSet(values) then Some(Arrange(values)) else None
  {
    var collected: seq<ResultHead> := [];
    var identities: set<NodeId> := {};
    var base: Option<CheckpointHead> := None;
    for k := 0 to |values|
      invariant collected == values[..k] && k <= MAX_READY_NODES
      invariant forall i :: 0 <= i < k ==> values[i].activation.namespace == []
      invariant base == if k == 0 then None else Some(values[0].activation.base)
      invariant forall i :: 0 <= i < k ==> values[i].activation.base == values[0].activation.base
      invariant DistinctResults(values[..k])
      invariant forall n :: n in identities <==> exists i :: 0 <= i < k && values[i].activation.node == n
    {
      if |collected| == MAX_READY_NODES {
        return None;
      }
      var activation := values[k].activation;
      if activation.namespace != [] {
        return None;
      }
      if base.Some? {
        if activation.base != base.value {
          return None;
        }
      } else {
        base := Some(activation.base);
      }
      if activation.node in identities {
        return None;
      }
      identities := identities + {activation.node};
      collected := collected + [values[k]];
    }
    assert values[..|values|] == values;
    if collected == [] {
      return None;
    }
    r := Some(Arrange(collected));
  }

  // ----- barriers -------------------------------------------------------------

  predicate BarrierShape(base: CheckpointHead, ready: seq<NodeId>, results: seq<ResultHead>,
                         successor: CheckpointWrite) {
    && ready != []
    && successor.parent == Some(base)
    && (forall i :: 0 <= i < |results| ==> results[i].activation.base == base && results[i].activation.node in ready)
    && (forall i :: 0 <= i < |ready| ==> ready[i] in Nodes(results))
  }

  /** `validate_barrier_shape`: collects the observed nodes, then looks for each
      ready one among them. */
  method ValidateBarrierShape(base: CheckpointHead, ready: seq<NodeId>, results: seq<ResultHead>,
                              successor: CheckpointWrite) returns (ok: bool)
    ensures ok <==> BarrierShape(base, ready, results, successor)
  {
    if ready == [] || successor.parent != Some(base) {
      return false;
    }
    var observed: set<NodeId> := {};
    for k := 0 to |results|
      invariant forall i :: 0 <= i < k ==> results[i].activation.base == base && results[i].activation.node in ready
      invariant forall n :: n in observed <==> n in Nodes(results)[..k]
    {
      var activation := results[k].activation;
      if activation.base != base || activation.node !in ready {
        return false;
      }
      assert Nodes(results)[..k + 1] == Nodes(results)[..k] + [activation.node];
      observed := observed + {activation.node};
    }
    assert Nodes(results)[..|results|] == Nodes(results);
    for k := 0 to |ready|
      invariant forall i :: 0 <= i < k ==> ready[i] in Nodes(results)
    {
      var node := ready[k];
      if node !in observed {
        return false;
      }
    }
    ok := true;
  }

  function Build(base: CheckpointHead, ready: seq<NodeId>, results: seq<ResultHead>, successor: CheckpointWrite,
                 supplied: Option<Digest>): Option<CheckpointBarrier> {
    var intent := BarrierDigest(base, ready, results, successor.intent);
    if !BarrierShape(base, ready, results, successor) || Unlike(supplied, intent) then None
    else Some(CheckpointBarrier(base, ready, results, successor, intent))
  }

  function Barrier(base: Checkpoint, successor: CheckpointWrite, values: seq<ResultHead>): Option<CheckpointBarrier> {
    if !IsResultSet(values) then None
    else Build(Head(base), base.ready, Arrange(values), successor, None)
  }

  function RestoreBarrier(b: CheckpointBarrier): Option<CheckpointBarrier> {
    Build(b.base, b.ready, b.results, b.successor, Some(b.intent))
  }

  method NewBarrier(base: Checkpoint, successor: CheckpointWrite, values: seq<ResultHead>)
    returns (r: Option<CheckpointBarrier>)
    ensures r == Barrier(base, successor, values)
  {
    var results := NewResultHeads(values);
    if results.None? {
      return None;
    }
    var ok := ValidateBarrierShape(Head(base), base.ready, results.value, successor);
    if !ok {
      return None;
    }
    r := Some(CheckpointBarrier(Head(base), base.ready, results.value, successor,
                                BarrierDigest(Head(base), base.ready, results.value, successor.intent)));
  }

  // ----- exact cover ----------------------------------------------------------

  /** Every ready node has exactly one result, no other node has any. */
  ghost predicate ExactCover(values: seq<ResultHead>, ready: seq<NodeId>) {
    forall n :: Count(values, n) == if n in ready then 1 else 0
  }

  ghost predicate OnBase(values: seq<ResultHead>, base: CheckpointHead) {
    forall i :: 0 <= i < |values| ==> values[i].activation.namespace == [] && values[i].activation.base == base
  }

  /** Results that cover a ready set exactly, once arranged, are in its order. */
  lemma {:induction false} CoverOrder(values: seq<ResultHead>, ready: seq<NodeId>)
    requires AscendingNodes(ready) && ExactCover(values, ready)
    ensures DistinctResults(values) && |values| == |ready| && Nodes(Arrange(values)) == ready
  {
    forall n ensures Count(values, n) <= 1 {}
    DistinctCount(values);
    var arranged := Arrange(values);
    ArrangeOrdered(values);
    ArrangeMultiset(values);
    SameLength(arranged, values);
    forall n ensures n in Nodes(arranged) <==> n in ready {
      CountPermuted(arranged, values, n);
      NodesCount(arranged, n);
    }
    AscendingUnique(Nodes(arranged), ready);
    assert |Nodes(arranged)| == |arranged|;
  }

  lemma {:induction false} ShapeCovers(values: seq<ResultHead>, base: CheckpointHead, ready: seq<NodeId>,
                                       successor: CheckpointWrite)
    requires DistinctResults(values) && BarrierShape(base, ready, Arrange(values), successor)
    ensures ExactCover(values, ready)
  {
    var arranged := Arrange(values);
    ArrangeMultiset(values);
    DistinctCount(values);
    forall n ensures Count(values, n) == if n in ready then 1 else 0 {
      CountPermuted(arranged, values, n);
      NodesCount(arranged, n);
      CountIndex(arranged, n);
      assert Count(values, n) <= 1;
      if n in ready {
        var i :| 0 <= i < |ready| && ready[i] == n;
        assert ready[i] in Nodes(arranged);
      }
    }
  }

  lemma {:induction false} ArrangeOnBase(values: seq<ResultHead>, base: CheckpointHead)
    ensures OnBase(Arrange(values), base) <==> OnBase(values, base)
  {
    var arranged := Arrange(values);
    ArrangeMultiset(values);
    if OnBase(values, base) {
      forall i | 0 <= i < |arranged| ensures
          arranged[i].activation.namespace == [] && arranged[i].activation.base == base {
        assert arranged[i] in multiset(values);
        assert arranged[i] in values;
      }
    }
    if OnBase(arranged, base) {
      forall i | 0 <= i < |values| ensures
          values[i].activation.namespace == [] && values[i].activation.base == base {
        assert values[i] in multiset(arranged);
        assert values[i] in arranged;
      }
    }
  }

  /** A barrier exists exactly when the base has ready nodes, the successor names
      that base, and the root results on it cover the ready set exactly once
      each. It stores the results in the order of the ready set. */
  lemma {:induction false} BarrierExact(base: Checkpoint, successor: CheckpointWrite, values: seq<ResultHead>)
    requires IsReadySet(base.ready)
    ensures Barrier(base, successor, values).Some? <==>
            && base.ready != [] && successor.parent == Some(Head(base))
            && OnBase(values, Head(base)) && ExactCover(values, base.ready)
    ensures Barrier(base, successor, values).Some? ==>
            var b := Barrier(base, successor, values).value;
            && b.base == Head(base) && b.ready == base.ready && b.successor == successor
            && Nodes(b.results) == base.ready && multiset(b.results) == multiset(values)
            && b.intent == BarrierDigest(b.base, b.ready, b.results, successor.intent)
  {
    var head, arranged := Head(base), Arrange(values);
    ArrangeMultiset(values);
    ArrangeOnBase(values, head);
    if Barrier(base, successor, values).Some? {
      ShapeCovers(values, head, base.ready, successor);
      CoverOrder(values, base.ready);
      SomeOnBase(values, head, base.ready, successor);
    }
    if && base.ready != [] && successor.parent == Some(head)
       && OnBase(values, head) && ExactCover(values, base.ready) {
      CoverOrder(values, base.ready);
      forall i | 0 <= i < |arranged| ensures arranged[i].activation.node in base.ready {
        assert Nodes(arranged)[i] == base.ready[i];
      }
    }
  }

  lemma {:induction false} SomeOnBase(values: seq<ResultHead>, base: CheckpointHead, ready: seq<NodeId>,
                                      successor: CheckpointWrite)
    requires IsResultSet(values) && BarrierShape(base, ready, Arrange(values), successor)
    ensures OnBase(values, base)
  {
    ArrangeMultiset(values);
    assert values[0] in multiset(Arrange(values));
    var j :| 0 <= j < |Arrange(values)| && Arrange(values)[j] == values[0];
  }

  /** The whole barrier, digest included, is the same for every arrival order. */
  lemma {:induction false} ArrivalOrderIrrelevant(base: Checkpoint, successor: CheckpointWrite,
                                                  x: seq<ResultHead>, y: seq<ResultHead>)
    requires IsReadySet(base.ready) && multiset(x) == multiset(y)
    ensures Barrier(base, successor, x) == Barrier(base, successor, y)
  {
    SameLength(x, y);
    PermutedSet(x, y);
    PermutedSet(y, x);
    if IsResultSet(x) && IsResultSet(y) {
      ArrangeMultiset(x);
      ArrangeMultiset(y);
      ArrangeOrdered(x);
      ArrangeOrdered(y);
      OrderedUnique(Arrange(x), Arrange(y));
    }
  }

  lemma {:induction false} PermutedSet(x: seq<ResultHead>, y: seq<ResultHead>)
    requires multiset(x) == multiset(y)
    ensures IsResultSet(x) ==> IsResultSet(y)
  {
    SameLength(x, y);
    DistinctCount(x);
    DistinctCount(y);
    if IsResultSet(x) {
      forall n ensures Count(y, n) <= 1 { CountPermuted(x, y, n); assert Count(x, n) <= 1; }
      forall i | 0 <= i < |y| ensures y[i].activation.namespace == [] && y[i].activation.base == x[0].activation.base {
        assert y[i] in multiset(x);
        assert y[i] in x;
      }
    }
  }

  /** A stored barrier restores exactly as the one its parts would build. */
  lemma {:induction false} BarrierRestores(base: Checkpoint, b: CheckpointBarrier)
    requires IsReadySet(base.ready) && b.base == Head(base) && b.ready == base.ready
    requires IsResultSet(b.results) && Ordered(b.results)
    ensures RestoreBarrier(b) == if Barrier(base, b.successor, b.results) == Some(b) then Some(b) else None
  {
    ArrangeFixed(b.results);
  }

  /** A stored barrier restores to itself exactly when its ordered results cover its
      ready set, its successor names its base and its checksum is that of its
      parts, and to nothing else. */
  lemma {:induction false} RestoreBarrierExact(b: CheckpointBarrier, c: CheckpointBarrier)
    requires AscendingNodes(b.ready) && IsResultSet(b.results) && Ordered(b.results)
    ensures RestoreBarrier(b) == Some(c) <==>
            && c == b && b.ready != [] && b.successor.parent == Some(b.base)
            && OnBase(b.results, b.base) && ExactCover(b.results, b.ready)
            && b.intent == BarrierDigest(b.base, b.ready, b.results, b.successor.intent)
  {
    ArrangeFixed(b.results);
    if BarrierShape(b.base, b.ready, b.results, b.successor) {
      ShapeCovers(b.results, b.base, b.ready, b.successor);
    }
    if ExactCover(b.results, b.ready) {
      CoverOrder(b.results, b.ready);
      forall i | 0 <= i < |b.results| ensures b.results[i].activation.node in b.ready {
        assert Nodes(b.results)[i] == b.ready[i];
      }
    }
  }

  lemma {:induction false} ArrangeFixed(s: seq<ResultHead>)
    requires DistinctResults(s) && Ordered(s)
    ensures Arrange(s) == s
  {
    ArrangeMultiset(s);
    ArrangeOrdered(s);
    OrderedUnique(Arrange(s), s);
  }

  // ----- runs of barriers -----------------------------------------------------

  /** What one superstep supplies: the successor, the results and the journal anchor. */
  datatype Superstep = Superstep(successor: CheckpointWrite, results: seq<ResultHead>, journalHead: JournalHead)

  function Advance(chain: seq<Checkpoint>, s: Superstep): Option<seq<Checkpoint>>
    requires chain != []
  {
    var barrier := Barrier(chain[0], s.successor, s.results);
    if barrier.None? then None
    else
      var c := Commit(barrier.value.successor, s.journalHead);
      if c.None? then None else Some([c.value] + chain)
  }

  /** One superstep from a chain to a longer one. */
  ghost predicate Advances(chain: seq<Checkpoint>, s: Superstep, longer: seq<Checkpoint>) {
    chain != [] && ValidWrite(s.successor) && Advance(chain, s) == Some(longer)
  }

  lemma {:induction false} AdvanceChain(chain: seq<Checkpoint>, s: Superstep, longer: seq<Checkpoint>)
    requires IsChain(chain) && Advances(chain, s, longer)
    ensures IsChain(longer) && chain[0].ready != [] && ExactCover(s.results, chain[0].ready)
  {
    assert ValidCheckpoint(chain[0]);
    BarrierExact(chain[0], s.successor, s.results);
    Extend(chain, longer[0]);
  }

  /** A run: each superstep advances one state of the chain to the next. */
  ghost predicate IsRun(states: seq<seq<Checkpoint>>, ss: seq<Superstep>) {
    && |states| == |ss| + 1
    && IsChain(states[0])
    && forall i :: 0 <= i < |ss| ==> Advances(states[i], ss[i], states[i + 1])
  }

  lemma {:induction false} RunChain(states: seq<seq<Checkpoint>>, ss: seq<Superstep>, i: nat)
    requires IsRun(states, ss) && i < |states|
    ensures IsChain(states[i])
  {
    if i > 0 {
      RunChain(states, ss, i - 1);
      AdvanceChain(states[i - 1], ss[i - 1], states[i]);
    }
  }

  /** In every run of barrier steps each state is a lineage that the reverse
      verifier completes, and each superstep consumed a nonempty ready set, one
      result per node. A state whose ready set is empty is therefore the last. */
  lemma {:induction false} BarrierRun(states: seq<seq<Checkpoint>>, ss: seq<Superstep>, i: nat)
    requires IsRun(states, ss) && i < |states|
    ensures var cs := states[i];
            && IsChain(cs) && Verify(Some(Head(cs[0])), cs) == Some(None)
            && (i < |ss| ==> ExactCover(ss[i].results, cs[0].ready))
            && (cs[0].ready == [] ==> i == |ss|)
  {
    RunChain(states, ss, i);
    WholeVerifies(states[i]);
    if i < |ss| { AdvanceChain(states[i], ss[i], states[i + 1]); }
  }

  lemma {:induction false} WholeVerifies(cs: seq<Checkpoint>)
    requires IsChain(cs)
    ensures Verify(Some(Head(cs[0])), cs) == Some(None)
  {
    ChainVerifies(cs, |cs|);
    assert cs[..|cs|] == cs;
  }
}
