/**
 What the merge order means for the code lengths: the Kraft sum of the clipped depths,
 the cost of the unclipped ones, and the optimality of that cost among all binary
 prefix codes on the same symbols.
 */
module Huffman {
  import opened Sums
  import opened MergeOrder

  /** Lengths as the first pass of gen_bitlen assigns them: the root has length 0, and a
      son is one longer than its father unless that exceeds the limit. */
  ghost predicate Depths(rem: seq<nat>, elems: nat, n: nat, lens: seq<nat>, limit: nat)
    requires n >= 2 && |rem| == 2 * n - 1
  {
    && limit >= 1 && |lens| >= elems + n - 1
    && (forall j :: 0 <= j < |rem| ==> rem[j] < |lens| && lens[rem[j]] <= limit)
    && lens[elems + n - 2] == 0
    && forall j :: 0 <= j < 2 * n - 2 ==> lens[rem[j]] == Min(lens[elems + j / 2] + 1, limit)
  }

  /** How many of the internal nodes elems + k, ... sit at the limit already. */
  function Clipped(lens: seq<nat>, elems: nat, k: nat, n: nat, limit: nat): nat
    requires n >= 1 && k <= n - 1 && |lens| >= elems + n - 1
    decreases n - k
  {
    if k == n - 1 then 0
    else (if lens[elems + k] == limit then 1 else 0) + Clipped(lens, elems, k + 1, n, limit)
  }

  function KraftTerms(lens: seq<nat>, limit: nat): (g: seq<int>)
    ensures |g| == |lens|
  {
    seq(|lens|, x requires 0 <= x < |lens| => if lens[x] <= limit then Pow2(limit - lens[x]) else 0)
  }

  function AtLimit(lens: seq<nat>, limit: nat): (g: seq<int>)
    ensures |g| == |lens|
  {
    seq(|lens|, x requires 0 <= x < |lens| => if lens[x] == limit then 1 else 0)
  }

  /** In units of 2^-limit the Kraft sum exceeds one by the number of nodes whose sons
      were clipped. */
  lemma {:induction false} KraftOfDepths(rem: seq<nat>, elems: nat, n: nat, leaves: set<nat>, lens: seq<nat>, limit: nat, k: nat)
    requires Ordered(rem, elems, n, leaves) && Depths(rem, elems, n, lens, limit)
    requires k <= n - 1
    ensures AliveSum(rem, elems, KraftTerms(lens, limit), k) == Pow2(limit) + Clipped(lens, elems, k, n, limit)
    decreases n - k
  {
    hide AliveSum, Sum;
    var g := KraftTerms(lens, limit);
    if k == n - 1 {
      AliveRoot(rem, elems, n, leaves, g);
    } else {
      KraftOfDepths(rem, elems, n, leaves, lens, limit, k + 1);
      AliveStep(rem, elems, n, leaves, g, k);
      assert lens[rem[2 * k]] == lens[rem[2 * k + 1]] == Min(lens[elems + k] + 1, limit);
      assert lens[elems + k] <= limit by {
        var q := PlaceOf(rem, elems, n, leaves, k);
      }
    }
  }

  /** If anything was clipped, more leaves sit at the limit than must be moved. */
  lemma {:induction false} LimitIsPopulated(rem: seq<nat>, elems: nat, n: nat, leaves: set<nat>, lens: seq<nat>, limit: nat, k: nat)
    requires Ordered(rem, elems, n, leaves) && Depths(rem, elems, n, lens, limit)
    requires k <= n - 1
    ensures var c := AliveSum(rem, elems, AtLimit(lens, limit), k);
            var e := Clipped(lens, elems, k, n, limit);
            c >= e && (c > 0 ==> c > e)
    decreases n - k
  {
    var g := AtLimit(lens, limit);
    if k == n - 1 {
      AliveRoot(rem, elems, n, leaves, g);
    } else {
      LimitIsPopulated(rem, elems, n, leaves, lens, limit, k + 1);
      AliveStep(rem, elems, n, leaves, g, k);
      assert lens[rem[2 * k]] == lens[rem[2 * k + 1]] == Min(lens[elems + k] + 1, limit);
      var q := PlaceOf(rem, elems, n, leaves, k);
      AliveAtLeast(rem, elems, g, k + 1, q);
    }
  }

  // ----- cost -----

  /** The weights of the internal nodes elems + k, ...: what each merge from k on adds. */
  function MergeCost(f: seq<nat>, elems: nat, k: nat, n: nat): nat
    requires n >= 1 && k <= n - 1 && |f| >= elems + n - 1
    decreases n - k
  {
    if k == n - 1 then 0 else f[elems + k] + MergeCost(f, elems, k + 1, n)
  }

  function CostTerms(f: seq<nat>, lens: seq<nat>): (g: seq<int>)
    requires |f| == |lens|
    ensures |g| == |f|
  {
    seq(|f|, x requires 0 <= x < |f| => f[x] * lens[x])
  }

  /** Without clipping, frequency times length summed over the leaves is the merge cost. */
  lemma {:induction false} CostOfDepths(rem: seq<nat>, elems: nat, n: nat, leaves: set<nat>, f: seq<nat>, lens: seq<nat>, limit: nat, k: nat)
    requires Ordered(rem, elems, n, leaves) && Depths(rem, elems, n, lens, limit) && |f| == |lens|
    requires Greedy(rem, f, elems, n)
    requires k <= n - 1 && Clipped(lens, elems, k, n, limit) == 0
    ensures AliveSum(rem, elems, CostTerms(f, lens), k) == MergeCost(f, elems, k, n)
    decreases n - k
  {
    var g := CostTerms(f, lens);
    if k == n - 1 {
      AliveRoot(rem, elems, n, leaves, g);
    } else {
      CostOfDepths(rem, elems, n, leaves, f, lens, limit, k + 1);
      AliveStep(rem, elems, n, leaves, g, k);
      var a, b := rem[2 * k], rem[2 * k + 1];
      var q := PlaceOf(rem, elems, n, leaves, k);
      var l := lens[elems + k];
      assert lens[a] == l + 1 && lens[b] == l + 1;
      assert Pair(rem, f, elems, k);
      SonsCost(f[a], f[b], l);
    }
  }

  lemma {:induction false} SonsCost(a: nat, b: nat, l: nat)
    ensures a * (l + 1) + b * (l + 1) == (a + b) * l + (a + b)
  {
  }

  // ----- optimality -----

  /** Lengths l are feasible on the nodes alive at k: their Kraft sum is at most one. */
  ghost predicate Feasible(rem: seq<nat>, elems: nat, l: seq<nat>, limit: nat, k: nat)
  {
    && (forall j :: 0 <= j < |rem| ==> rem[j] < |l| && l[rem[j]] <= limit)
    && AliveSum(rem, elems, KraftTerms(l, limit), k) <= Pow2(limit)
  }

  /** An alive node of greatest length, other than the one at `skip`. */
  lemma {:induction false} LongestAlive(rem: seq<nat>, elems: nat, l: seq<nat>, k: nat, skip: int, first: nat, upto: nat) returns (p: nat)
    requires forall j :: 0 <= j < |rem| ==> rem[j] < |l|
    requires first < upto <= |rem| && Alive(rem, elems, k, first) && first != skip
    ensures p < upto && Alive(rem, elems, k, p) && p != skip
    ensures forall j :: 0 <= j < upto && j != skip && Alive(rem, elems, k, j) ==> l[rem[j]] <= l[rem[p]]
    decreases upto
  {
    p := first;
    for i := 0 to upto
      invariant p < upto && Alive(rem, elems, k, p) && p != skip
      invariant forall j :: 0 <= j < i && j != skip && Alive(rem, elems, k, j) ==> l[rem[j]] <= l[rem[p]]
    {
      if i != skip && Alive(rem, elems, k, i) && l[rem[i]] > l[rem[p]] {
        p := i;
      }
    }
  }

  /** Setting the length of one alive node. */
  lemma {:induction false} SetLength(rem: seq<nat>, elems: nat, n: nat, leaves: set<nat>, f: seq<nat>, l: seq<nat>, limit: nat, k: nat, p: nat, v: nat)
    requires Ordered(rem, elems, n, leaves) && |f| == |l| && v <= limit
    requires forall j :: 0 <= j < |rem| ==> rem[j] < |l| && l[rem[j]] <= limit
    requires p < |rem| && Alive(rem, elems, k, p)
    ensures AliveSum(rem, elems, KraftTerms(l[rem[p] := v], limit), k)
            == AliveSum(rem, elems, KraftTerms(l, limit), k) - Pow2(limit - l[rem[p]]) + Pow2(limit - v)
    ensures AliveSum(rem, elems, CostTerms(f, l[rem[p] := v]), k)
            == AliveSum(rem, elems, CostTerms(f, l), k) - CostTerms(f, l)[rem[p]] + CostTerms(f, l[rem[p] := v])[rem[p]]
  {
    hide Pow2, AliveTerms, AliveSum, Ordered;
    AliveUpdate(rem, elems, n, leaves, KraftTerms(l, limit), k, p, Pow2(limit - v));
    AliveUpdate(rem, elems, n, leaves, CostTerms(f, l), k, p, f[rem[p]] * v);
    assert KraftTerms(l[rem[p] := v], limit) == KraftTerms(l, limit)[rem[p] := Pow2(limit - v)];
    assert CostTerms(f, l[rem[p] := v]) == CostTerms(f, l)[rem[p] := f[rem[p]] * v];
  }

  /** Giving the longer of two lengths to the lighter of two nodes never costs more. */
  lemma {:induction false} SwapLengths(rem: seq<nat>, elems: nat, n: nat, leaves: set<nat>, f: seq<nat>, l: seq<nat>, limit: nat, k: nat, p: nat, q: nat)
    returns (m: seq<nat>)
    requires Ordered(rem, elems, n, leaves) && |f| == |l| && Feasible(rem, elems, l, limit, k)
    requires p < |rem| && q < |rem| && Alive(rem, elems, k, p) && Alive(rem, elems, k, q)
    requires f[rem[p]] <= f[rem[q]] && l[rem[p]] <= l[rem[q]]
    ensures |m| == |l| && Feasible(rem, elems, m, limit, k)
    ensures m == l[rem[p] := l[rem[q]]][rem[q] := l[rem[p]]]
    ensures AliveSum(rem, elems, CostTerms(f, m), k) <= AliveSum(rem, elems, CostTerms(f, l), k)
  {
    hide Pow2, AliveTerms, AliveSum, KraftTerms, CostTerms, Ordered;
    var a, b := l[rem[p]], l[rem[q]];
    if p == q {
      m := l;
      assert l[rem[p] := b][rem[q] := a] == l;
    } else {
      var l1 := l[rem[p] := b];
      assert rem[p] != rem[q] by {
        if p < q {
          DistinctEntries(rem, elems, n, leaves, p, q);
        } else {
          DistinctEntries(rem, elems, n, leaves, q, p);
        }
      }
      SetLength(rem, elems, n, leaves, f, l, limit, k, p, b);
      SetLength(rem, elems, n, leaves, f, l1, limit, k, q, a);
      m := l1[rem[q] := a];
      Rearrange(f[rem[p]], f[rem[q]], a, b);
      CostAt(f, l, rem[p]);
      CostAt(f, l1, rem[p]);
      CostAt(f, l1, rem[q]);
      CostAt(f, m, rem[q]);
    }
  }

  lemma {:induction false} CostAt(f: seq<nat>, l: seq<nat>, x: nat)
    requires |f| == |l| && x < |f|
    ensures CostTerms(f, l)[x] == f[x] * l[x]
  {
  }

  lemma {:induction false} Rearrange(x: nat, y: nat, a: nat, b: nat)
    requires x <= y && a <= b
    ensures x * b + y * a <= x * a + y * b
  {
    MulMonotone(x, y, b - a);
    assert x * (b - a) == x * b - x * a && y * (b - a) == y * b - y * a;
  }

  lemma {:induction false} SumScale(s: seq<int>, t: seq<int>, u: int)
    requires |s| == |t| && forall i :: 0 <= i < |s| ==> s[i] == u * t[i]
    ensures Sum(s) == u * Sum(t)
  {
    if s != [] {
      SumScale(s[..|s| - 1], t[..|t| - 1], u);
    }
  }

  /** If one node is strictly longest, its length may be cut to that of the next: all the
      other Kraft weights are multiples of the next one's. */
  lemma {:induction false} ShortenLongest(rem: seq<nat>, elems: nat, n: nat, leaves: set<nat>, l: seq<nat>, limit: nat, k: nat, p: nat, v: nat)
    requires Ordered(rem, elems, n, leaves) && Feasible(rem, elems, l, limit, k)
    requires p < |rem| && Alive(rem, elems, k, p) && v <= l[rem[p]]
    requires forall j :: 0 <= j < |rem| && j != p && Alive(rem, elems, k, j) ==> l[rem[j]] <= v
    ensures AliveSum(rem, elems, KraftTerms(l, limit), k) - Pow2(limit - l[rem[p]]) + Pow2(limit - v) <= Pow2(limit)
  {
    hide Pow2, Sum, Ordered;
    var t := AliveTerms(rem, elems, KraftTerms(l, limit), k);
    var rest := t[p := 0];
    SumUpdate(t, p, 0);
    var u := Pow2(limit - v);
    var quot := seq(|rem|, j requires 0 <= j < |rem| => if j != p && Alive(rem, elems, k, j) then Pow2(v - l[rem[j]]) else 0);
    forall j | 0 <= j < |rem| ensures rest[j] == u * quot[j] {
      if j != p && Alive(rem, elems, k, j) {
        Pow2Add(limit - v, v - l[rem[j]]);
      }
    }
    SumScale(rest, quot, u);
    Pow2Add(limit - v, v);
    RoundDown(u, Sum(quot), Pow2(v));
  }

  lemma {:induction false} CutLength(rem: seq<nat>, elems: nat, n: nat, leaves: set<nat>, f: seq<nat>, l: seq<nat>, limit: nat, k: nat, p: nat, v: nat)
    requires Ordered(rem, elems, n, leaves) && |f| == |l| && Feasible(rem, elems, l, limit, k)
    requires p < |rem| && Alive(rem, elems, k, p) && v <= l[rem[p]]
    requires forall j :: 0 <= j < |rem| && j != p && Alive(rem, elems, k, j) ==> l[rem[j]] <= v
    ensures Feasible(rem, elems, l[rem[p] := v], limit, k)
    ensures AliveSum(rem, elems, CostTerms(f, l[rem[p] := v]), k) <= AliveSum(rem, elems, CostTerms(f, l), k)
  {
    hide Pow2, AliveTerms, AliveSum, KraftTerms, CostTerms, Ordered;
    ShortenLongest(rem, elems, n, leaves, l, limit, k, p, v);
    SetLength(rem, elems, n, leaves, f, l, limit, k, p, v);
    CostAt(f, l, rem[p]);
    CostAt(f, l[rem[p] := v], rem[p]);
    MulMonotone(v, l[rem[p]], f[rem[p]]);
  }

  lemma {:induction false} RoundDown(u: int, t: int, q: int)
    requires u > 0 && u * t < u * q
    ensures u * t + u <= u * q
  {
    assert t < q by {
      if t >= q {
        MulMonotone(q, t, u);
      }
    }
    MulMonotone(t + 1, q, u);
  }

  /** Feasible lengths can be changed, at no greater cost, so that the two lightest alive
      nodes have the same positive length. */
  lemma {:induction false} MakeSiblings(rem: seq<nat>, elems: nat, n: nat, leaves: set<nat>, f: seq<nat>, l: seq<nat>, limit: nat, k: nat)
    returns (m: seq<nat>)
    requires Ordered(rem, elems, n, leaves) && |f| == |l| && |f| >= elems + n - 1
    requires forall j :: 0 <= j < |rem| ==> rem[j] < |f|
    requires Greedy(rem, f, elems, n)
    requires k < n - 1 && Feasible(rem, elems, l, limit, k)
    ensures |m| == |l| && Feasible(rem, elems, m, limit, k)
    ensures m[rem[2 * k]] == m[rem[2 * k + 1]] >= 1
    ensures AliveSum(rem, elems, CostTerms(f, m), k) <= AliveSum(rem, elems, CostTerms(f, l), k)
  {
    hide Pow2, AliveTerms, AliveSum, KraftTerms, CostTerms;
    var a, b := 2 * k, 2 * k + 1;
    DistinctEntries(rem, elems, n, leaves, a, b);
    assert Pair(rem, f, elems, k);
    var p := LongestAlive(rem, elems, l, k, -1, a, |rem|);
    var l1 := SwapLengths(rem, elems, n, leaves, f, l, limit, k, a, p);
    assert forall j :: 0 <= j < |rem| && Alive(rem, elems, k, j) ==> l1[rem[j]] <= l1[rem[a]];
    var q := LongestAlive(rem, elems, l1, k, a, b, |rem|);
    DistinctEntries(rem, elems, n, leaves, a, q);
    var l2 := SwapLengths(rem, elems, n, leaves, f, l1, limit, k, b, q);
    var v := l2[rem[b]];
    assert forall j :: 0 <= j < |rem| && j != a && Alive(rem, elems, k, j) ==> l2[rem[j]] <= v by {
      forall j | 0 <= j < |rem| && j != a && Alive(rem, elems, k, j) ensures l2[rem[j]] <= v {
        assert l1[rem[j]] <= l1[rem[q]];
      }
    }
    CutLength(rem, elems, n, leaves, f, l2, limit, k, a, v);
    m := l2[rem[a] := v];
    PairIsPositive(rem, elems, n, leaves, m, limit, k);
  }

  lemma {:induction false} PairIsPositive(rem: seq<nat>, elems: nat, n: nat, leaves: set<nat>, m: seq<nat>, limit: nat, k: nat)
    requires Ordered(rem, elems, n, leaves) && k < n - 1 && |m| >= elems + n - 1
    requires Feasible(rem, elems, m, limit, k)
    requires m[rem[2 * k]] == m[rem[2 * k + 1]]
    ensures m[rem[2 * k]] >= 1
  {
    var g := KraftTerms(m, limit);
    AliveStep(rem, elems, n, leaves, g, k);
    var q := PlaceOf(rem, elems, n, leaves, k);
    AliveAtLeast(rem, elems, g, k + 1, q);
  }

  /** No feasible lengths cost less than the merges that are left. */
  lemma {:induction false} MergesAreOptimal(rem: seq<nat>, elems: nat, n: nat, leaves: set<nat>, f: seq<nat>, l: seq<nat>, limit: nat, k: nat)
    requires Ordered(rem, elems, n, leaves) && |f| == |l| && |f| >= elems + n - 1
    requires forall j :: 0 <= j < |rem| ==> rem[j] < |f|
    requires Greedy(rem, f, elems, n)
    requires k <= n - 1 && Feasible(rem, elems, l, limit, k)
    ensures MergeCost(f, elems, k, n) <= AliveSum(rem, elems, CostTerms(f, l), k)
    decreases n - k
  {
    assert n >= 2;
    hide AliveTerms, AliveSum, KraftTerms, CostTerms, Feasible, Greedy, Ordered;
    if k == n - 1 {
      AliveRoot(rem, elems, n, leaves, CostTerms(f, l));
      CostIsNatural(f, l, elems + n - 2);
    } else {
      var m := MakeSiblings(rem, elems, n, leaves, f, l, limit, k);
      var m' := MergeSiblings(rem, elems, n, leaves, f, m, limit, k);
      MergesAreOptimal(rem, elems, n, leaves, f, m', limit, k + 1);
    }
  }

  lemma {:induction false} CostIsNatural(f: seq<nat>, l: seq<nat>, x: nat)
    requires |f| == |l| && x < |f|
    ensures CostTerms(f, l)[x] >= 0
  {
  }

  /** Two siblings of equal length make a father one shorter: feasibility is kept and the
      cost drops by the father's weight. */
  lemma {:induction false} MergeSiblings(rem: seq<nat>, elems: nat, n: nat, leaves: set<nat>, f: seq<nat>, m: seq<nat>, limit: nat, k: nat)
    returns (m': seq<nat>)
    requires Ordered(rem, elems, n, leaves) && |f| == |m| && |f| >= elems + n - 1
    requires forall j :: 0 <= j < |rem| ==> rem[j] < |f|
    requires Greedy(rem, f, elems, n)
    requires k < n - 1 && Feasible(rem, elems, m, limit, k)
    requires m[rem[2 * k]] == m[rem[2 * k + 1]] >= 1
    ensures |m'| == |m| && Feasible(rem, elems, m', limit, k + 1)
    ensures AliveSum(rem, elems, CostTerms(f, m'), k + 1) + f[elems + k] == AliveSum(rem, elems, CostTerms(f, m), k)
  {
    hide Pow2, Sums.Sum, AliveTerms, AliveSum, KraftTerms, CostTerms;
    var a, b, v := rem[2 * k], rem[2 * k + 1], m[rem[2 * k]];
    m' := m[elems + k := v - 1];
    assert a < elems + k && b < elems + k;
    assert Pair(rem, f, elems, k);
    NotAliveYet(rem, elems, n, leaves, f, m, limit, k, v - 1);
    FatherTerms(f, m, limit, a, b, elems + k, v);
    AliveStep(rem, elems, n, leaves, KraftTerms(m', limit), k);
    AliveStep(rem, elems, n, leaves, CostTerms(f, m'), k);
  }

  lemma {:induction false} FatherTerms(f: seq<nat>, m: seq<nat>, limit: nat, a: nat, b: nat, x: nat, v: nat)
    requires |f| == |m| && a < x && b < x < |m| && m[a] == v && m[b] == v && 1 <= v <= limit
    requires f[x] == f[a] + f[b]
    ensures var g := KraftTerms(m[x := v - 1], limit); g[a] + g[b] == g[x]
    ensures var g := CostTerms(f, m[x := v - 1]); g[a] + g[b] == g[x] + f[x]
  {
    SonsCost(f[a], f[b], v - 1);
  }

  /** The father does not exist before the merge, so its length is free. */
  lemma {:induction false} NotAliveYet(rem: seq<nat>, elems: nat, n: nat, leaves: set<nat>, f: seq<nat>, m: seq<nat>, limit: nat, k: nat, v: nat)
    requires Ordered(rem, elems, n, leaves) && k < n - 1 && |f| == |m| >= elems + n - 1
    requires forall j :: 0 <= j < |rem| ==> rem[j] < |m|
    ensures AliveSum(rem, elems, KraftTerms(m[elems + k := v], limit), k) == AliveSum(rem, elems, KraftTerms(m, limit), k)
    ensures AliveSum(rem, elems, CostTerms(f, m[elems + k := v]), k) == AliveSum(rem, elems, CostTerms(f, m), k)
  {
    var m' := m[elems + k := v];
    assert AliveTerms(rem, elems, KraftTerms(m', limit), k) == AliveTerms(rem, elems, KraftTerms(m, limit), k);
    assert AliveTerms(rem, elems, CostTerms(f, m'), k) == AliveTerms(rem, elems, CostTerms(f, m), k);
  }
}
