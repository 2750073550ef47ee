/**
 The priority queue inside the heap array: heap[1..len] with the sons of heap[i] at
 heap[2i] and heap[2i+1], ordered by frequency and, among equals, by depth.
 */
module Heap {

  /** SMALLER: node n goes before node m. */
  predicate Smaller(f: seq<nat>, d: seq<nat>, n: nat, m: nat)
    requires n < |f| && n < |d| && m < |f| && m < |d|
  {
    f[n] < f[m] || (f[n] == f[m] && d[n] <= d[m])
  }

  /** The nodes in the queue are numbers of the tables f and d. */
  ghost predicate Nodes(h: seq<nat>, len: nat, f: seq<nat>, d: seq<nat>)
  {
    len < |h| && forall i :: 1 <= i <= len ==> h[i] < |f| && h[i] < |d|
  }

  /** The heap property for all fathers from k on. */
  ghost predicate HeapFrom(h: seq<nat>, len: nat, f: seq<nat>, d: seq<nat>, k: nat)
    requires Nodes(h, len, f, d)
  {
    forall i :: 2 <= i <= len && k <= i / 2 ==> Smaller(f, d, h[i / 2], h[i])
  }

  lemma {:induction false} RootIsSmallest(h: seq<nat>, len: nat, f: seq<nat>, d: seq<nat>, i: nat)
    requires Nodes(h, len, f, d) && HeapFrom(h, len, f, d, 1) && 1 <= i <= len
    ensures Smaller(f, d, h[1], h[i])
  {
    if i >= 2 {
      RootIsSmallest(h, len, f, d, i / 2);
    }
  }

  /** Moving the hole from k to j and refilling it keeps the nodes. */
  lemma {:induction false} HoleMoves(s: seq<nat>, k: nat, j: nat, v: nat)
    requires k < |s| && j < |s| && k != j
    ensures multiset(s[k := s[j]][j := v]) == multiset(s[k := v])
  {
    var u := s[k := s[j]];
    assert multiset(u) == multiset(s) - multiset{s[k]} + multiset{s[j]};
    assert u[j] == s[j];
  }

  /** Nothing changed outside k0 .. len. */
  ghost predicate Outside(h0: seq<nat>, h: seq<nat>, k0: nat, len: nat)
  {
    |h0| == |h| && forall i :: 0 <= i < |h| && (i < k0 || i > len) ==> h[i] == h0[i]
  }

  /** pqdownheap: sift the node at k down until the heap property holds from k on. */
  method PqDownHeap(heap: array<nat>, len: nat, tree: array<nat>, depth: array<nat>, k0: nat)
    requires heap != tree && heap != depth
    requires 1 <= k0 <= len < heap.Length && Nodes(heap[..], len, tree[..], depth[..])
    requires HeapFrom(heap[..], len, tree[..], depth[..], k0 + 1)
    modifies heap
    ensures tree[..] == old(tree[..]) && depth[..] == old(depth[..])
    ensures Nodes(heap[..], len, tree[..], depth[..])
    ensures HeapFrom(heap[..], len, tree[..], depth[..], k0)
    ensures multiset(heap[..]) == multiset(old(heap[..]))
    ensures Outside(old(heap[..]), heap[..], k0, len)
  {
    hide HeapFrom, SiftState, Smaller, Nodes;
    ghost var f, d, h0 := tree[..], depth[..], heap[..];
    SiftStart(h0, len, f, d, k0);
    var k := k0;
    var v: nat := heap[k];
    var j := 2 * k;
    ghost var h := h0;
    while j <= len
      invariant k0 <= k <= len && j == 2 * k
      invariant heap[..] == h && |h| == heap.Length && tree[..] == f && depth[..] == d
      invariant SiftState(h, h0, len, f, d, k0, k, v)
      decreases len - k
    {
      SiftNodes(h, h0, len, f, d, k0, k, v, j);
      if j < len {
        SiftNodes(h, h0, len, f, d, k0, k, v, j + 1);
        var right := IsSmaller(tree, depth, heap[j + 1], heap[j]);
        if right {
          j := j + 1;
        }
      }
      SmallestSon(h, len, f, d, k, j);
      var done := IsSmaller(tree, depth, v, heap[j]);
      if done {
        VSmaller(h, len, f, d, k, j, v);
        break;
      }
      SiftStep(h, h0, len, f, d, k0, k, v, j);
      heap[k] := heap[j];
      h := h[k := h[j]];
      k := j;
      j := 2 * j;
    }
    SiftEnd(h, h0, len, f, d, k0, k, v);
    heap[k] := v;
    assert heap[..] == h[k := v];
  }

  /** The SMALLER comparison. */
  method IsSmaller(tree: array<nat>, depth: array<nat>, n: nat, m: nat) returns (r: bool)
    requires n < tree.Length && n < depth.Length && m < tree.Length && m < depth.Length
    ensures r == Smaller(tree[..], depth[..], n, m)
  {
    r := tree[n] < tree[m] || (tree[n] == tree[m] && depth[n] <= depth[m]);
  }

  /** The son that the comparison of the two sons selects. */
  lemma {:induction false} SmallestSon(h: seq<nat>, len: nat, f: seq<nat>, d: seq<nat>, k: nat, j: nat)
    requires Nodes(h, len, f, d) && 1 <= k && 2 * k <= len && 2 * k <= j <= 2 * k + 1 && j <= len
    requires 2 * k + 1 <= len ==> (Smaller(f, d, h[2 * k + 1], h[2 * k]) <==> j == 2 * k + 1)
    ensures Smaller(f, d, h[j], h[2 * k]) && (2 * k + 1 <= len ==> Smaller(f, d, h[j], h[2 * k + 1]))
  {
  }

  lemma {:induction false} VSmaller(h: seq<nat>, len: nat, f: seq<nat>, d: seq<nat>, k: nat, j: nat, v: nat)
    requires Nodes(h, len, f, d) && 1 <= k && 2 * k <= len && j <= len && 1 <= j && v < |f| && v < |d|
    requires Smaller(f, d, h[j], h[2 * k]) && (2 * k + 1 <= len ==> Smaller(f, d, h[j], h[2 * k + 1])) && Smaller(f, d, v, h[j])
    ensures Smaller(f, d, v, h[2 * k]) && (2 * k + 1 <= len ==> Smaller(f, d, v, h[2 * k + 1]))
  {
  }

  /** With v in the hand and a hole at k: all other father-son pairs from k0 on are in
      order, and the father of the hole goes before v and before the hole's sons. */
  ghost predicate SiftInv(h: seq<nat>, len: nat, f: seq<nat>, d: seq<nat>, k0: nat, k: nat, v: nat)
    requires Nodes(h, len, f, d) && 1 <= k0 <= k <= len && v < |f| && v < |d|
  {
    && (forall i :: 2 <= i <= len && k0 <= i / 2 && i / 2 != k && i != k ==> Smaller(f, d, h[i / 2], h[i]))
    && (k > k0 ==> k / 2 >= k0 && Smaller(f, d, h[k / 2], v))
    && (k > k0 ==> forall i :: 2 <= i <= len && i / 2 == k ==> Smaller(f, d, h[k / 2], h[i]))
  }

  /** The state of the sift loop. */
  ghost predicate SiftState(h: seq<nat>, h0: seq<nat>, len: nat, f: seq<nat>, d: seq<nat>, k0: nat, k: nat, v: nat)
  {
    && 1 <= k0 <= k <= len && v < |f| && v < |d| && Nodes(h, len, f, d) && |h| == |h0|
    && multiset(h[k := v]) == multiset(h0) && Outside(h0, h, k0, len)
    && SiftInv(h, len, f, d, k0, k, v)
  }

  lemma {:induction false} SiftStart(h: seq<nat>, len: nat, f: seq<nat>, d: seq<nat>, k: nat)
    requires Nodes(h, len, f, d) && 1 <= k <= len && HeapFrom(h, len, f, d, k + 1)
    ensures SiftState(h, h, len, f, d, k, k, h[k])
  {
    assert h[k := h[k]] == h;
  }

  lemma {:induction false} SiftNodes(h: seq<nat>, h0: seq<nat>, len: nat, f: seq<nat>, d: seq<nat>, k0: nat, k: nat, v: nat, j: nat)
    requires SiftState(h, h0, len, f, d, k0, k, v) && 1 <= j <= len
    ensures Nodes(h, len, f, d) && j < |h| && h[j] < |f| && h[j] < |d| && v < |f| && v < |d|
  {
  }

  lemma {:induction false} SiftStep(h: seq<nat>, h0: seq<nat>, len: nat, f: seq<nat>, d: seq<nat>, k0: nat, k: nat, v: nat, j: nat)
    requires SiftState(h, h0, len, f, d, k0, k, v) && 2 * k <= j <= 2 * k + 1 && j <= len
    requires !Smaller(f, d, v, h[j])
    requires (2 * k <= len ==> Smaller(f, d, h[j], h[2 * k])) && (2 * k + 1 <= len ==> Smaller(f, d, h[j], h[2 * k + 1]))
    ensures SiftState(h[k := h[j]], h0, len, f, d, k0, j, v)
  {
    HoleMoves(h, k, j, v);
    SiftInvStep(h, len, f, d, k0, k, v, j);
  }

  lemma {:induction false} SiftInvStep(h: seq<nat>, len: nat, f: seq<nat>, d: seq<nat>, k0: nat, k: nat, v: nat, j: nat)
    requires Nodes(h, len, f, d) && 1 <= k0 <= k <= len && v < |f| && v < |d|
    requires SiftInv(h, len, f, d, k0, k, v)
    requires 2 * k <= j <= 2 * k + 1 && j <= len && !Smaller(f, d, v, h[j])
    requires (2 * k <= len ==> Smaller(f, d, h[j], h[2 * k])) && (2 * k + 1 <= len ==> Smaller(f, d, h[j], h[2 * k + 1]))
    ensures Nodes(h[k := h[j]], len, f, d)
    ensures SiftInv(h[k := h[j]], len, f, d, k0, j, v)
  {
    var h' := h[k := h[j]];
    forall i | 2 <= i <= len && k0 <= i / 2 && i / 2 != j && i != j ensures Smaller(f, d, h'[i / 2], h'[i]) {
      assert i / 2 == k ==> i == 2 * k || i == 2 * k + 1;
    }
    forall i | 2 <= i <= len && i / 2 == j ensures Smaller(f, d, h'[k], h'[i]) {
      assert i != k && j != k;
    }
  }

  lemma {:induction false} SiftEnd(h: seq<nat>, h0: seq<nat>, len: nat, f: seq<nat>, d: seq<nat>, k0: nat, k: nat, v: nat)
    requires SiftState(h, h0, len, f, d, k0, k, v)
    requires (2 * k <= len ==> Smaller(f, d, v, h[2 * k])) && (2 * k + 1 <= len ==> Smaller(f, d, v, h[2 * k + 1]))
    ensures Nodes(h[k := v], len, f, d) && HeapFrom(h[k := v], len, f, d, k0)
    ensures multiset(h[k := v]) == multiset(h0) && Outside(h0, h[k := v], k0, len)
  {
    var h' := h[k := v];
    forall i | 2 <= i <= len && k0 <= i / 2 ensures Smaller(f, d, h'[i / 2], h'[i]) {
      assert i / 2 == k ==> i == 2 * k || i == 2 * k + 1;
    }
  }
}
