/**
 The Huffman tree as the compressor leaves it in its heap array. Counted from the top,
 the array holds the nodes in the order of their removal from the priority queue,
 rem[0], rem[1], ...; the pair rem[2k], rem[2k+1] became the sons of the internal node
 elems + k, and the root is rem[2n-2] for n leaves.

 Before merge k the nodes in the queue (the "alive" ones) are the rem[j] with j >= 2k
 that exist already, rem[j] < elems + k. Sums over the alive nodes change by one merge
 at a time, which yields the Kraft sum of the clipped depths, their cost, and the
 optimality of that cost.
 */
module MergeOrder {
  import opened Sums

  /** The k internal nodes made so far. */
  function Internal(elems: nat, k: nat): (s: set<nat>)
    ensures forall x :: x in s <==> elems <= x < elems + k
  {
    if k == 0 then {} else Internal(elems, k - 1) + {elems + k - 1}
  }

  ghost predicate Ordered(rem: seq<nat>, elems: nat, n: nat, leaves: set<nat>)
  {
    && n >= 2 && |rem| == 2 * n - 1
    && (forall x :: x in leaves ==> x < elems)
    && multiset(rem) == multiset(leaves + Internal(elems, n - 1))
    && rem[2 * n - 2] == elems + n - 2
    && forall j :: 0 <= j < 2 * n - 2 ==> rem[j] < elems + j / 2
  }

  /** Merge k took two nodes that existed, the lightest in the queue, and added their weights. */
  ghost predicate Pair(rem: seq<nat>, f: seq<nat>, elems: nat, k: nat)
  {
    && 2 * k + 1 < |rem| && elems + k < |f|
    && rem[2 * k] < elems + k && rem[2 * k + 1] < elems + k
    && f[elems + k] == f[rem[2 * k]] + f[rem[2 * k + 1]]
    && f[rem[2 * k]] <= f[rem[2 * k + 1]]
    && forall j :: 2 * k + 1 <= j < |rem| && rem[j] < elems + k ==> f[rem[2 * k + 1]] <= f[rem[j]]
  }

  /** Each merge takes the two lightest alive nodes and adds their weights. */
  ghost predicate Greedy(rem: seq<nat>, f: seq<nat>, elems: nat, n: nat)
  {
    forall k :: 0 <= k < n - 1 ==> Pair(rem, f, elems, k)
  }

  lemma {:induction false} Membership(rem: seq<nat>, elems: nat, n: nat, leaves: set<nat>, x: nat)
    requires Ordered(rem, elems, n, leaves)
    ensures x in rem <==> x in leaves || elems <= x < elems + n - 1
  {
    assert x in rem <==> x in multiset(rem);
    assert x in multiset(leaves + Internal(elems, n - 1)) <==> x in leaves + Internal(elems, n - 1);
  }

  lemma {:induction false} AllBelow(rem: seq<nat>, elems: nat, n: nat, leaves: set<nat>)
    requires Ordered(rem, elems, n, leaves)
    ensures forall j :: 0 <= j < |rem| ==> rem[j] < elems + n - 1
  {
    forall j | 0 <= j < |rem| ensures rem[j] < elems + n - 1 {
      Membership(rem, elems, n, leaves, rem[j]);
    }
  }

  lemma {:induction false} DistinctEntries(rem: seq<nat>, elems: nat, n: nat, leaves: set<nat>, i: nat, j: nat)
    requires Ordered(rem, elems, n, leaves)
    requires i < j < |rem|
    ensures rem[i] != rem[j]
  {
    var x := rem[i];
    assert rem == rem[..j] + rem[j..];
    assert rem[i] in rem[..j] && rem[j] in rem[j..] by {
      assert rem[..j][i] == rem[i] && rem[j..][0] == rem[j];
    }
    assert multiset(rem)[x] == multiset(rem[..j])[x] + multiset(rem[j..])[x];
    assert multiset(leaves + Internal(elems, n - 1))[x] <= 1;
  }

  /** The place of an internal node in the order: after both of its sons. */
  lemma {:induction false} PlaceOf(rem: seq<nat>, elems: nat, n: nat, leaves: set<nat>, k: nat) returns (q: nat)
    requires Ordered(rem, elems, n, leaves)
    requires k < n - 1
    ensures 2 * k + 2 <= q < |rem| && rem[q] == elems + k
  {
    Membership(rem, elems, n, leaves, elems + k);
    q :| 0 <= q < |rem| && rem[q] == elems + k;
  }

  // ----- sums over the alive nodes -----

  predicate Alive(rem: seq<nat>, elems: nat, k: nat, j: nat)
    requires j < |rem|
  {
    2 * k <= j && rem[j] < elems + k
  }

  function AliveTerms(rem: seq<nat>, elems: nat, g: seq<int>, k: nat): (t: seq<int>)
    requires forall j :: 0 <= j < |rem| ==> rem[j] < |g|
    ensures |t| == |rem|
  {
    seq(|rem|, j requires 0 <= j < |rem| => if Alive(rem, elems, k, j) then g[rem[j]] else 0)
  }

  function AliveSum(rem: seq<nat>, elems: nat, g: seq<int>, k: nat): int
    requires forall j :: 0 <= j < |rem| ==> rem[j] < |g|
  {
    Sum(AliveTerms(rem, elems, g, k))
  }

  /** Undoing merge k replaces the node elems + k by its two sons. */
  lemma {:induction false} AliveStep(rem: seq<nat>, elems: nat, n: nat, leaves: set<nat>, g: seq<int>, k: nat)
    requires Ordered(rem, elems, n, leaves) && k < n - 1
    requires |g| >= elems + n - 1 && forall j :: 0 <= j < |rem| ==> rem[j] < |g|
    ensures AliveSum(rem, elems, g, k)
            == AliveSum(rem, elems, g, k + 1) - g[elems + k] + g[rem[2 * k]] + g[rem[2 * k + 1]]
  {
    hide Sum;
    var q := PlaceOf(rem, elems, n, leaves, k);
    var a, b := 2 * k, 2 * k + 1;
    var t := AliveTerms(rem, elems, g, k + 1);
    var t1 := t[q := 0];
    var t2 := t1[a := g[rem[a]]];
    var t3 := t2[b := g[rem[b]]];
    forall j | 0 <= j < |rem| && j != q ensures rem[j] != elems + k {
      if j < q {
        DistinctEntries(rem, elems, n, leaves, j, q);
      } else {
        DistinctEntries(rem, elems, n, leaves, q, j);
      }
    }
    assert AliveTerms(rem, elems, g, k) == t3;
    SumUpdate(t, q, 0);
    SumUpdate(t1, a, g[rem[a]]);
    SumUpdate(t2, b, g[rem[b]]);
  }

  /** After the last merge only the root is alive. */
  lemma {:induction false} AliveRoot(rem: seq<nat>, elems: nat, n: nat, leaves: set<nat>, g: seq<int>)
    requires Ordered(rem, elems, n, leaves)
    requires |g| >= elems + n - 1 && forall j :: 0 <= j < |rem| ==> rem[j] < |g|
    ensures AliveSum(rem, elems, g, n - 1) == g[elems + n - 2]
  {
    var z := seq(|rem|, j => 0);
    SumZero(z);
    SumUpdate(z, 2 * n - 2, g[elems + n - 2]);
    assert AliveTerms(rem, elems, g, n - 1) == z[2 * n - 2 := g[elems + n - 2]];
  }

  /** Changing the value of one alive node changes the sum by the difference. */
  lemma {:induction false} AliveUpdate(rem: seq<nat>, elems: nat, n: nat, leaves: set<nat>, g: seq<int>, k: nat, p: nat, v: int)
    requires Ordered(rem, elems, n, leaves) && p < |rem| && Alive(rem, elems, k, p)
    requires forall j :: 0 <= j < |rem| ==> rem[j] < |g|
    ensures AliveSum(rem, elems, g[rem[p] := v], k) == AliveSum(rem, elems, g, k) - g[rem[p]] + v
  {
    forall j | 0 <= j < |rem| && j != p ensures rem[j] != rem[p] {
      if j < p {
        DistinctEntries(rem, elems, n, leaves, j, p);
      } else {
        DistinctEntries(rem, elems, n, leaves, p, j);
      }
    }
    SumUpdate(AliveTerms(rem, elems, g, k), p, v);
    assert AliveTerms(rem, elems, g[rem[p] := v], k) == AliveTerms(rem, elems, g, k)[p := v];
  }

  lemma {:induction false} AliveAtLeast(rem: seq<nat>, elems: nat, g: seq<int>, k: nat, p: nat)
    requires p < |rem| && Alive(rem, elems, k, p)
    requires forall j :: 0 <= j < |rem| ==> rem[j] < |g| && g[rem[j]] >= 0
    ensures g[rem[p]] <= AliveSum(rem, elems, g, k)
  {
    SumAtLeast(AliveTerms(rem, elems, g, k), p);
  }

  // ----- the leaves in symbol order -----

  function LeafTerms(leaves: set<nat>, g: seq<int>, elems: nat): (t: seq<int>)
    requires elems <= |g|
    ensures |t| == elems
  {
    seq(elems, x requires 0 <= x < elems => if x in leaves then g[x] else 0)
  }

  function Seen(leaves: set<nat>, s: seq<nat>): set<nat>
  {
    set x | x in leaves && x in s
  }

  /** Summing the leaves in order of removal or in order of their symbols is the same. */
  lemma {:induction false} LeafSum(rem: seq<nat>, elems: nat, n: nat, leaves: set<nat>, g: seq<int>)
    requires Ordered(rem, elems, n, leaves)
    requires elems <= |g| && forall j :: 0 <= j < |rem| ==> rem[j] < |g|
    ensures AliveSum(rem, elems, g, 0) == Sum(LeafTerms(leaves, g, elems))
  {
    LeafSumPrefix(rem, elems, n, leaves, g, |rem|);
    assert AliveTerms(rem, elems, g, 0)[..|rem|] == AliveTerms(rem, elems, g, 0);
    var some := Seen(leaves, rem[..|rem|]);
    forall x | x in leaves ensures x in rem[..|rem|] {
      Membership(rem, elems, n, leaves, x);
      assert rem[..|rem|] == rem;
    }
    assert some == leaves;
  }

  lemma {:induction false} LeafSumPrefix(rem: seq<nat>, elems: nat, n: nat, leaves: set<nat>, g: seq<int>, i: nat)
    requires Ordered(rem, elems, n, leaves) && i <= |rem|
    requires elems <= |g| && forall j :: 0 <= j < |rem| ==> rem[j] < |g|
    ensures Sum(AliveTerms(rem, elems, g, 0)[..i]) == Sum(LeafTerms(Seen(leaves, rem[..i]), g, elems))
  {
    var t := AliveTerms(rem, elems, g, 0);
    if i == 0 {
      SumZero(LeafTerms(Seen(leaves, rem[..0]), g, elems));
    } else {
      LeafSumPrefix(rem, elems, n, leaves, g, i - 1);
      var x := rem[i - 1];
      Membership(rem, elems, n, leaves, x);
      SeenNext(rem, elems, n, leaves, i);
      assert t[..i][..i - 1] == t[..i - 1];
      hide Seen, Ordered;
      if x < elems {
        LeafTermsAdd(Seen(leaves, rem[..i - 1]), x, g, elems);
      }
    }
  }

  lemma {:induction false} SeenNext(rem: seq<nat>, elems: nat, n: nat, leaves: set<nat>, i: nat)
    requires Ordered(rem, elems, n, leaves) && 0 < i <= |rem|
    ensures rem[i - 1] !in Seen(leaves, rem[..i - 1])
    ensures Seen(leaves, rem[..i])
            == if rem[i - 1] < elems then Seen(leaves, rem[..i - 1]) + {rem[i - 1]} else Seen(leaves, rem[..i - 1])
  {
    var x := rem[i - 1];
    assert rem[..i] == rem[..i - 1] + [x];
    Membership(rem, elems, n, leaves, x);
    forall j | 0 <= j < i - 1 ensures rem[j] != x {
      DistinctEntries(rem, elems, n, leaves, j, i - 1);
    }
  }

  lemma {:induction false} LeafTermsAdd(s: set<nat>, x: nat, g: seq<int>, elems: nat)
    requires x < elems <= |g| && x !in s
    ensures Sum(LeafTerms(s + {x}, g, elems)) == Sum(LeafTerms(s, g, elems)) + g[x]
  {
    SumUpdate(LeafTerms(s, g, elems), x, g[x]);
    assert LeafTerms(s + {x}, g, elems) == LeafTerms(s, g, elems)[x := g[x]];
  }
}
