/** Singly linked free lists threaded through an array of next links: the slab's and the virtqueue's. */
module FreeChain {
  import opened Sequences

  /** What follows chain[k]. */
  ghost function After(chain: seq<int>, k: nat, end: int): int {
    if k + 1 < |chain| then chain[k + 1] else end
  }

  /** Following `next` from `head` visits exactly `chain`, without repeats, and stops at `end`. */
  ghost predicate Chain(next: seq<int>, head: int, end: int, chain: seq<int>) {
    && !(0 <= end < |next|)
    && NoDup(chain)
    && head == (if chain == [] then end else chain[0])
    && forall k :: 0 <= k < |chain| ==> 0 <= chain[k] < |next| && next[chain[k]] == After(chain, k, end)
  }

  lemma ChainPop(next: seq<int>, head: int, end: int, chain: seq<int>)
    requires Chain(next, head, end, chain) && chain != []
    ensures head == chain[0] && 0 <= head < |next| && head !in chain[1..] && Chain(next, next[head], end, chain[1..])
  {
    var rest := chain[1..];
    assert forall k :: 0 <= k < |rest| ==> rest[k] == chain[k + 1];
  }

  lemma ChainPush(next: seq<int>, head: int, end: int, chain: seq<int>, i: int)
    requires Chain(next, head, end, chain) && 0 <= i < |next| && i !in chain
    ensures Chain(next[i := head], i, end, [i] + chain)
  {
    var all := [i] + chain;
    assert forall k :: 0 < k < |all| ==> all[k] == chain[k - 1];
  }

  /** Links outside the chain may change freely. */
  lemma ChainFrame(next: seq<int>, next': seq<int>, head: int, end: int, chain: seq<int>)
    requires Chain(next, head, end, chain) && |next'| == |next|
    requires forall i :: i in chain ==> next'[i] == next[i]
    ensures Chain(next', head, end, chain)
  {
  }

  /** The chain is determined by the links: there is no second way to read it. */
  lemma {:induction false} ChainUnique(next: seq<int>, head: int, end: int, a: seq<int>, b: seq<int>)
    requires Chain(next, head, end, a) && Chain(next, head, end, b)
    ensures a == b
    decreases |a|
  {
    if a != [] {
      ChainPop(next, head, end, a);
      assert b != [];
      ChainPop(next, head, end, b);
      ChainUnique(next, next[head], end, a[1..], b[1..]);
      assert a == [head] + a[1..] && b == [head] + b[1..];
    } else {
      assert b == [];
    }
  }

  /** 0, 1, ..., n - 1. */
  ghost function Count(n: nat): seq<int> {
    seq(n, i => i)
  }

  /** A chain and the indices outside it add up to all indices. */
  lemma ChainPartition(n: nat, chain: seq<int>, live: set<nat>)
    requires NoDup(chain) && forall i: nat :: i < n ==> (i in live <==> i !in chain)
    requires (forall i :: i in chain ==> 0 <= i < n) && forall i :: i in live ==> i < n
    ensures |live| + |chain| == n
  {
    NoDupCard(chain);
    BelowCard(n);
    var c := set i: nat | i in chain;
    assert c == Elems(chain);
    assert live !! c && live + c == Below(n);
  }
}
