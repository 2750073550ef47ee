/**
 Frequencies are kept in 16-bit counters. They do not overflow: no node of a tree weighs
 more than all its leaves together.
 */
module CounterWidth {
  import opened Sums
  import opened MergeOrder
  import opened TreeBuilder

  /** Merging conserves the total weight of the nodes in the queue. */
  lemma {:induction false} WeightConserved(rem: seq<nat>, f: seq<nat>, elems: nat, n: nat, leaves: set<nat>, k: nat)
    requires Ordered(rem, elems, n, leaves) && Greedy(rem, f, elems, n) && k <= n - 1
    requires |f| >= elems + n - 1 && forall j :: 0 <= j < |rem| ==> rem[j] < |f|
    ensures AliveSum(rem, elems, f, k) == AliveSum(rem, elems, f, 0)
  {
    hide AliveSum, Ordered;
    if k > 0 {
      WeightConserved(rem, f, elems, n, leaves, k - 1);
      AliveStep(rem, elems, n, leaves, f, k - 1);
      assert Pair(rem, f, elems, k - 1);
    }
  }

  /** No internal node weighs more than all leaves together, and the root weighs just that. */
  lemma {:induction false} NodeWeight(rem: seq<nat>, f: seq<nat>, elems: nat, n: nat, leaves: set<nat>, k: nat)
    requires Ordered(rem, elems, n, leaves) && Greedy(rem, f, elems, n) && k < n - 1
    requires |f| >= elems + n - 1
    ensures f[elems + k] <= Sum(LeafTerms(leaves, f, elems)) == f[elems + n - 2]
  {
    hide AliveSum, Greedy;
    AllBelow(rem, elems, n, leaves);
    WeightConserved(rem, f, elems, n, leaves, k + 1);
    WeightConserved(rem, f, elems, n, leaves, n - 1);
    var q := PlaceOf(rem, elems, n, leaves, k);
    AliveAtLeast(rem, elems, f, k + 1, q);
    AliveRoot(rem, elems, n, leaves, f);
    LeafSum(rem, elems, n, leaves, f);
  }

  // ----- the counters of a tree -----

  /** All entries fit into 16 bits. */
  ghost predicate Narrow(f: seq<nat>)
  {
    forall x :: 0 <= x < |f| ==> f[x] < 65536
  }

  /** The number of symbols counted. */
  function Total(f: seq<nat>, n: nat): int
    requires n <= |f|
  {
    Sum(f[..n])
  }

  function Ones(n: nat): (s: seq<int>)
    ensures |s| == n
  {
    seq(n, _ => 1)
  }

  lemma {:induction false} TotalIsCharges(f: seq<nat>, n: nat)
    requires n <= |f|
    ensures Sum(Charges(f, Ones(n), n)) == Total(f, n)
  {
    assert Charges(f, Ones(n), n) == f[..n];
  }

  lemma {:induction false} LeafTotal(f: seq<nat>, g: seq<nat>, leaves: set<nat>, elems: nat)
    requires elems <= |f| && elems <= |g| && leaves == Used(g, elems) && SameSymbols(g, f, elems, {})
    ensures Sum(LeafTerms(leaves, f, elems)) == Total(g, elems)
  {
    assert LeafTerms(leaves, f, elems) == g[..elems];
  }

  lemma {:induction false} ForcedCount(forced: seq<nat>, n: nat)
    requires forall i :: 0 <= i < |forced| ==> forced[i] < n
    ensures ForcedCharge(Ones(n), forced) == |forced|
  {
    if forced != [] {
      ForcedCount(forced[..|forced| - 1], n);
    }
  }

  lemma {:induction false} ForcedTotal(f: seq<nat>, forced: seq<nat>, n: nat)
    requires 3 <= n <= |f| && Forced(f, forced)
    ensures Total(SetOnes(f, forced), n) == Total(f, n) + |forced|
  {
    hide Charges, SetOnes, Total;
    ForcedAdds(f, forced, Ones(n), n);
    ForcedCount(forced, n);
    TotalIsCharges(f, n);
    TotalIsCharges(SetOnes(f, forced), n);
  }

  lemma {:induction false} ForcedNarrow(f: seq<nat>, forced: seq<nat>)
    requires Narrow(f) && forall i :: 0 <= i < |forced| ==> forced[i] < |f|
    ensures Narrow(SetOnes(f, forced))
  {
    if forced != [] {
      ForcedNarrow(f, forced[..|forced| - 1]);
    }
  }

  /** What build_tree does to the frequencies f0: some symbols are forced and the weights of
      the internal nodes are added, in the order rem. */
  ghost predicate Merged(f0: seq<nat>, elems: nat, forced: seq<nat>, rem: seq<nat>, f: seq<nat>, n: nat, leaves: set<nat>)
  {
    && 3 <= elems <= |f0| && Forced(f0, forced) && |forced| <= 2 && |f| >= elems + n - 1
    && leaves == Used(SetOnes(f0, forced), elems) && SameSymbols(SetOnes(f0, forced), f, elems, {})
    && SameOutside(SetOnes(f0, forced), f, elems, elems + n - 1)
    && Ordered(rem, elems, n, leaves) && Greedy(rem, f, elems, n)
  }

  /** The root weighs as much as all symbols counted and forced. */
  lemma {:induction false} RootWeight(f0: seq<nat>, elems: nat, forced: seq<nat>, rem: seq<nat>, f: seq<nat>, n: nat, leaves: set<nat>)
    requires Merged(f0, elems, forced, rem, f, n, leaves)
    ensures n >= 2 && f[elems + n - 2] == Total(f0, elems) + |forced|
    ensures forall x :: elems <= x < elems + n - 1 ==> f[x] <= f[elems + n - 2]
  {
    hide Total, Used, Greedy, SetOnes, LeafTerms, SameSymbols;
    SameSize(SetOnes(f0, forced), f, elems);
    LeafTotal(f, SetOnes(f0, forced), leaves, elems);
    ForcedTotal(f0, forced, elems);
    forall x | elems <= x < elems + n - 1 ensures f[x] <= f[elems + n - 2] {
      NodeWeight(rem, f, elems, n, leaves, x - elems);
    }
    NodeWeight(rem, f, elems, n, leaves, 0);
  }

  lemma {:induction false} SameSize(a: seq<nat>, b: seq<nat>, elems: nat)
    requires SameSymbols(a, b, elems, {})
    ensures |a| == |b| && elems <= |a|
  {
  }

  /** If fewer than 65534 symbols were counted, no counter of the tree overflows. */
  lemma {:induction false} CountersFit(f0: seq<nat>, elems: nat, forced: seq<nat>, rem: seq<nat>, f: seq<nat>, n: nat, leaves: set<nat>)
    requires Merged(f0, elems, forced, rem, f, n, leaves) && Narrow(f0) && Total(f0, elems) + 2 < 65536
    ensures Narrow(f)
  {
    hide Total, Used, Ordered, Greedy, SetOnes;
    RootWeight(f0, elems, forced, rem, f, n, leaves);
    ForcedNarrow(f0, forced);
    var g := SetOnes(f0, forced);
    forall x | 0 <= x < |f| ensures f[x] < 65536 {
      if !(elems <= x < elems + n - 1) {
        assert f[x] == g[x];
      }
    }
  }
}
