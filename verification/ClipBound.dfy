/**
 When gen_bitlen has to clip lengths: the tree is then deeper than the limit, and a Huffman
 tree of depth d weighs at least the Fibonacci number d + 2. So for fewer symbols no length
 is clipped and the code is optimal.
 */
module ClipBound {
  import opened Sums
  import opened MergeOrder
  import opened Huffman

  function Fib(n: nat): nat
  {
    if n <= 1 then n else Fib(n - 1) + Fib(n - 2)
  }

  lemma {:induction false} FibMonotone(a: nat, b: nat)
    requires a <= b
    ensures Fib(a) <= Fib(b)
    decreases b
  {
    if a < b {
      FibMonotone(a, b - 1);
      if b >= 2 {
        assert Fib(b) == Fib(b - 1) + Fib(b - 2);
      }
    }
  }

  lemma {:induction false} FibSum(n: nat)
    requires n >= 2
    ensures Fib(n) == Fib(n - 1) + Fib(n - 2)
  {
  }

  /** A node that is not a leaf is placed after both of its sons. */
  lemma {:induction false} NodeAt(rem: seq<nat>, elems: nat, n: nat, leaves: set<nat>, j: nat)
    requires Ordered(rem, elems, n, leaves) && j < |rem| && rem[j] >= elems
    ensures rem[j] - elems < n - 1 && 2 * (rem[j] - elems) + 2 <= j
  {
    Membership(rem, elems, n, leaves, rem[j]);
  }

  /** Nodes are taken from the queue in the order of their weights. */
  lemma {:induction false} OrderedByWeight(rem: seq<nat>, f: seq<nat>, elems: nat, n: nat, leaves: set<nat>, k: nat, j: nat)
    requires Ordered(rem, elems, n, leaves) && Greedy(rem, f, elems, n) && k < n - 1 && 2 * k + 1 <= j < |rem|
    requires forall i :: 0 <= i < |rem| ==> rem[i] < |f|
    ensures 2 * k + 1 < |rem| && f[rem[2 * k + 1]] <= f[rem[j]]
    decreases j
  {
    hide Ordered;
    assert Pair(rem, f, elems, k);
    if rem[j] >= elems + k {
      var m := rem[j] - elems;
      NodeAt(rem, elems, n, leaves, j);
      assert Pair(rem, f, elems, m);
      OrderedByWeight(rem, f, elems, n, leaves, k, 2 * m + 1);
    }
  }

  // ----- heights -----

  /** The sons of a node come before it. */
  ghost predicate SonsBelow(rem: seq<nat>, elems: nat, n: nat)
  {
    n >= 2 && |rem| == 2 * n - 1 && forall j :: 0 <= j < 2 * n - 2 ==> rem[j] < elems + j / 2
  }

  ghost function Height(rem: seq<nat>, elems: nat, n: nat, x: nat): nat
    requires SonsBelow(rem, elems, n) && x < elems + n - 1
    decreases x
  {
    if x < elems then 0
    else
      var j := 2 * (x - elems);
      assert rem[j] < elems + j / 2 && rem[j + 1] < elems + (j + 1) / 2;
      1 + Max(Height(rem, elems, n, rem[j]), Height(rem, elems, n, rem[j + 1]))
  }

  /** Leaves weigh at least one. */
  ghost predicate Weighty(f: seq<nat>, leaves: set<nat>)
  {
    forall x :: x in leaves ==> x < |f| && f[x] >= 1
  }

  lemma {:induction false} SonsAreBelow(rem: seq<nat>, elems: nat, n: nat, leaves: set<nat>)
    requires Ordered(rem, elems, n, leaves)
    ensures SonsBelow(rem, elems, n)
  {
  }

  lemma {:induction false} Sons(rem: seq<nat>, elems: nat, n: nat, leaves: set<nat>, k: nat)
    requires Ordered(rem, elems, n, leaves) && SonsBelow(rem, elems, n) && k < n - 1
    ensures 2 * k + 1 < |rem| && rem[2 * k] < elems + k && rem[2 * k + 1] < elems + k
    ensures rem[2 * k] in leaves || rem[2 * k] >= elems
    ensures rem[2 * k + 1] in leaves || rem[2 * k + 1] >= elems
    ensures Height(rem, elems, n, elems + k) == 1 + Max(Height(rem, elems, n, rem[2 * k]), Height(rem, elems, n, rem[2 * k + 1]))
  {
    hide Height;
    Membership(rem, elems, n, leaves, rem[2 * k]);
    Membership(rem, elems, n, leaves, rem[2 * k + 1]);
    HeightUnfold(rem, elems, n, k);
  }

  lemma {:induction false} HeightUnfold(rem: seq<nat>, elems: nat, n: nat, k: nat)
    requires SonsBelow(rem, elems, n) && k < n - 1
    ensures 2 * k + 1 < |rem| && rem[2 * k] < elems + k && rem[2 * k + 1] < elems + k
    ensures Height(rem, elems, n, elems + k) == 1 + Max(Height(rem, elems, n, rem[2 * k]), Height(rem, elems, n, rem[2 * k + 1]))
  {
    assert rem[2 * k] < elems + (2 * k) / 2 && rem[2 * k + 1] < elems + (2 * k + 1) / 2;
  }

  lemma {:induction false} LeafHeight(rem: seq<nat>, elems: nat, n: nat, x: nat)
    requires SonsBelow(rem, elems, n) && x < elems
    ensures Height(rem, elems, n, x) == 0
  {
  }

  /** A node of height h weighs at least Fib(h + 2). */
  lemma {:induction false} HeightWeight(rem: seq<nat>, f: seq<nat>, elems: nat, n: nat, leaves: set<nat>, x: nat)
    requires Ordered(rem, elems, n, leaves) && SonsBelow(rem, elems, n) && Greedy(rem, f, elems, n) && Weighty(f, leaves)
    requires forall i :: 0 <= i < |rem| ==> rem[i] < |f|
    requires x < elems + n - 1 && x < |f| && (x in leaves || x >= elems)
    ensures f[x] >= Fib(Height(rem, elems, n, x) + 2)
    decreases x, 1
  {
    hide Height, Ordered;
    if x < elems {
      LeafHeight(rem, elems, n, x);
      assert Fib(2) == 1;
    } else {
      var k := x - elems;
      Sons(rem, elems, n, leaves, k);
      assert Pair(rem, f, elems, k);
      var a, b := Height(rem, elems, n, rem[2 * k]), Height(rem, elems, n, rem[2 * k + 1]);
      if a >= b {
        TallerSon(rem, f, elems, n, leaves, k, 2 * k, 2 * k + 1);
      } else {
        TallerSon(rem, f, elems, n, leaves, k, 2 * k + 1, 2 * k);
      }
    }
  }

  /** The taller son at place c and its brother at place s, which is no lighter than the sons
      of the taller one. */
  lemma {:induction false} TallerSon(rem: seq<nat>, f: seq<nat>, elems: nat, n: nat, leaves: set<nat>, k: nat, c: nat, s: nat)
    requires Ordered(rem, elems, n, leaves) && SonsBelow(rem, elems, n) && Greedy(rem, f, elems, n) && Weighty(f, leaves)
    requires forall i :: 0 <= i < |rem| ==> rem[i] < |f|
    requires k < n - 1 && {c, s} == {2 * k, 2 * k + 1} && c != s && c < |rem| && s < |rem| && rem[c] < elems + k && rem[s] < elems + k
    requires rem[c] in leaves || rem[c] >= elems
    requires rem[s] in leaves || rem[s] >= elems
    ensures f[rem[c]] + f[rem[s]] >= Fib(Height(rem, elems, n, rem[c]) + 3)
    decreases elems + k, 0
  {
    hide Height, Ordered;
    var x, h := rem[c], Height(rem, elems, n, rem[c]);
    HeightWeight(rem, f, elems, n, leaves, x);
    FibSum(h + 3);
    if x < elems {
      LeafHeight(rem, elems, n, x);
      HeightWeight(rem, f, elems, n, leaves, rem[s]);
      FibMonotone(2, Height(rem, elems, n, rem[s]) + 2);
      assert Fib(1) == 1 && Fib(2) == 1 && Fib(3) == 2;
    } else {
      var m := x - elems;
      Sons(rem, elems, n, leaves, m);
      assert Pair(rem, f, elems, m);
      NodeAt(rem, elems, n, leaves, c);
      OrderedByWeight(rem, f, elems, n, leaves, m, s);
      HeightWeight(rem, f, elems, n, leaves, rem[2 * m]);
      HeightWeight(rem, f, elems, n, leaves, rem[2 * m + 1]);
    }
  }

  // ----- clipping -----

  /** An internal node at (clipped) depth d makes the tree that much higher. */
  lemma {:induction false} DepthHeight(rem: seq<nat>, elems: nat, n: nat, leaves: set<nat>, lens: seq<nat>, limit: nat, k: nat)
    requires Ordered(rem, elems, n, leaves) && SonsBelow(rem, elems, n) && |lens| >= elems + n - 1 && Depths(rem, elems, n, lens, limit) && k < n - 1
    ensures Height(rem, elems, n, elems + n - 2) >= lens[elems + k] + Height(rem, elems, n, elems + k)
    decreases n - k
  {
    hide Height;
    if k < n - 2 {
      var q := PlaceOf(rem, elems, n, leaves, k);
      assert q < 2 * n - 2;
      var m := q / 2;
      HeightUnfold(rem, elems, n, m);
      assert q == 2 * m || q == 2 * m + 1;
      DepthHeight(rem, elems, n, leaves, lens, limit, m);
    }
  }

  lemma {:induction false} ClippedNode(lens: seq<nat>, elems: nat, k: nat, n: nat, limit: nat) returns (m: nat)
    requires n >= 1 && k <= n - 1 && |lens| >= elems + n - 1 && Clipped(lens, elems, k, n, limit) > 0
    ensures k <= m < n - 1 && lens[elems + m] == limit
    decreases n - k
  {
    if lens[elems + k] == limit {
      m := k;
    } else {
      m := ClippedNode(lens, elems, k + 1, n, limit);
    }
  }

  /** If a length is clipped at the limit, the tree weighs at least Fib(limit + 3). */
  lemma {:induction false} ClippedIsHeavy(rem: seq<nat>, f: seq<nat>, elems: nat, n: nat, leaves: set<nat>, lens: seq<nat>, limit: nat)
    requires Ordered(rem, elems, n, leaves) && Greedy(rem, f, elems, n) && Weighty(f, leaves) && |f| >= elems + n - 1
    requires |lens| >= elems + n - 1 && Depths(rem, elems, n, lens, limit) && Clipped(lens, elems, 0, n, limit) > 0
    ensures f[elems + n - 2] >= Fib(limit + 3)
  {
    hide Height, Clipped;
    AllBelow(rem, elems, n, leaves);
    SonsAreBelow(rem, elems, n, leaves);
    var k := ClippedNode(lens, elems, 0, n, limit);
    DepthHeight(rem, elems, n, leaves, lens, limit, k);
    HeightUnfold(rem, elems, n, k);
    HeightWeight(rem, f, elems, n, leaves, elems + n - 2);
    FibMonotone(limit + 3, Height(rem, elems, n, elems + n - 2) + 2);
  }
}
