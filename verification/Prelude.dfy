/** Shared vocabulary: optional results, bytes and the source's 64-bit counters. */
module Prelude {

  /** The largest value of an unsigned 64-bit counter. */
  const U64_MAX: nat := 0xFFFF_FFFF_FFFF_FFFF

  predicate IsU64(n: int) {
    0 <= n <= U64_MAX
  }

  type U64 = n: int | IsU64(n)

  type Bytes = seq<int>

  /** A fallible result. Error kinds are kept only where a module says so;
      otherwise `None` stands for every refusal. */
  datatype Option<+T> = None | Some(value: T)

  // ----- sequences as multisets -----------------------------------------------

  function Without<T>(s: seq<T>, i: nat): seq<T>
    requires i < |s|
  {
    s[..i] + s[i + 1..]
  }

  lemma WithoutMultiset<T>(s: seq<T>, i: nat)
    requires i < |s|
    ensures multiset(s) == multiset(Without(s, i)) + multiset{s[i]}
  {
    assert s == s[..i] + [s[i]] + s[i + 1..];
  }

  lemma MultisetWithout<T>(s: seq<T>, t: seq<T>, j: nat)
    requires multiset(s) == multiset(t) && s != [] && j < |t| && t[j] == s[|s| - 1]
    ensures multiset(s[..|s| - 1]) == multiset(Without(t, j))
  {
    var n := |s| - 1;
    WithoutMultiset(s, n);
    WithoutMultiset(t, j);
    assert Without(s, n) == s[..n];
    Cancels(multiset(s[..n]), multiset(Without(t, j)), multiset{t[j]});
  }

  lemma Cancels<T>(a: multiset<T>, b: multiset<T>, x: multiset<T>)
    requires a + x == b + x
    ensures a == b
  {
    assert a == (a + x) - x && b == (b + x) - x;
  }

  lemma SameLength<T>(s: seq<T>, t: seq<T>)
    requires multiset(s) == multiset(t)
    ensures |s| == |t|
  {
    assert |multiset(s)| == |multiset(t)|;
  }

  lemma SameElement<T>(x: seq<T>, y: seq<T>, i: nat) returns (j: nat)
    requires multiset(x) == multiset(y) && i < |x|
    ensures j < |y| && y[j] == x[i]
  {
    assert x[i] in multiset(y);
    j :| 0 <= j < |y| && y[j] == x[i];
  }

  /** A permutation repeats no element the original does not. */
  lemma OnceEach<T>(x: seq<T>, y: seq<T>, i: nat, j: nat)
    requires multiset(x) == multiset(y) && forall p, q :: 0 <= p < q < |x| ==> x[p] != x[q]
    requires i < j < |y|
    ensures y[i] != y[j]
  {
    var v := y[j];
    var k := SameElement(y, x, j);
    var front := y[..j];
    assert y == front + [v] + y[j + 1..];
    assert x == x[..k] + [v] + x[k + 1..];
    assert multiset(x)[v] == multiset(x[..k])[v] + 1 + multiset(x[k + 1..])[v];
    assert v !in x[..k] && v !in x[k + 1..];
    assert front[i] == y[i];
    assert y[i] in multiset(front);
  }

  // ----- runs -----------------------------------------------------------------

  /** What holds at the start of a run and is kept by each step holds throughout. */
  lemma {:induction false} Invariant<T(!new)>(p: T -> bool, states: seq<T>, i: nat)
    requires i < |states| && p(states[0])
    requires forall k :: 0 < k < |states| && p(states[k - 1]) ==> p(states[k])
    ensures p(states[i])
  {
    if i > 0 { Invariant(p, states, i - 1); }
  }

  /** A transitive relation between consecutive states relates any two. */
  lemma {:induction false} Related<T(!new)>(r: (T, T) -> bool, states: seq<T>, i: nat, j: nat)
    requires i <= j < |states| && r(states[i], states[i])
    requires forall a, b, c :: r(a, b) && r(b, c) ==> r(a, c)
    requires forall k :: 0 < k < |states| ==> r(states[k - 1], states[k])
    ensures r(states[i], states[j])
  {
    if i < j {
      Related(r, states, i, j - 1);
      assert r(states[j - 1], states[j]);
    }
  }
}
