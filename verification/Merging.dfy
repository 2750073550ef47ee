/**
 The loop invariant of the merge loop in build_tree, on values: `region` are the nodes in
 the queue, `rem` the nodes removed so far.
 */
module Merging {
  import opened MergeOrder
  import opened Heap

  /** The nodes in the queue. */
  function Region(h: seq<nat>, len: nat): (r: seq<nat>)
    requires len < |h|
    ensures |r| == len
  {
    h[1..len + 1]
  }

  /** The removed nodes, read from the top of the array down. */
  function Removed(h: seq<nat>, count: nat): (r: seq<nat>)
    requires count <= |h|
    ensures |r| == count
  {
    seq(count, j requires 0 <= j < count => h[|h| - 1 - j])
  }

  lemma {:induction false} SplitMultiset(h: seq<nat>, len: nat)
    requires len < |h|
    ensures multiset(h) == multiset(h[..1]) + multiset(Region(h, len)) + multiset(h[len + 1..])
  {
    assert h == (h[..1] + Region(h, len)) + h[len + 1..];
  }

  /** Rearranging the array inside the queue rearranges the queue. */
  lemma {:induction false} RegionMultiset(h: seq<nat>, h': seq<nat>, len: nat)
    requires |h| == |h'| && len < |h| && multiset(h) == multiset(h')
    requires h[0] == h'[0] && forall i :: len < i < |h| ==> h[i] == h'[i]
    ensures multiset(Region(h, len)) == multiset(Region(h', len))
  {
    SplitMultiset(h, len);
    SplitMultiset(h', len);
    assert h[..1] == h'[..1] && h[len + 1..] == h'[len + 1..];
    MultisetCancel(multiset(h[..1]), multiset(Region(h, len)), multiset(Region(h', len)), multiset(h[len + 1..]));
  }

  lemma {:induction false} MultisetCancel(a: multiset<nat>, b: multiset<nat>, c: multiset<nat>, d: multiset<nat>)
    requires a + b + d == a + c + d
    ensures b == c
  {
    forall x ensures b[x] == c[x] {
      assert (a + b + d)[x] == (a + c + d)[x];
    }
  }

  lemma {:induction false} RegionMember(h: seq<nat>, len: nat, i: nat)
    requires 1 <= i <= len < |h|
    ensures h[i] in multiset(Region(h, len))
  {
    assert Region(h, len)[i - 1] == h[i];
  }

  /** Everything in the region that is numbered below `bound` weighs at least w. */
  ghost predicate NoLighter(region: multiset<nat>, f: seq<nat>, w: nat, bound: nat)
    requires bound <= |f|
  {
    forall x :: x in region && x < bound ==> w <= f[x]
  }

  /** Merge i was greedy and still is with respect to the nodes in the queue. */
  ghost predicate KeptPair(region: multiset<nat>, rem: seq<nat>, f: seq<nat>, elems: nat, i: nat)
  {
    Pair(rem, f, elems, i) && NoLighter(region, f, f[rem[2 * i + 1]], elems + i)
  }

  ghost predicate Partial(region: multiset<nat>, rem: seq<nat>, f: seq<nat>, elems: nat, k: nat, leaves: set<nat>)
  {
    && |rem| == 2 * k && elems + k <= |f|
    && (forall x :: x in leaves ==> x < elems)
    && region + multiset(rem) == multiset(leaves + Internal(elems, k))
    && forall i :: 0 <= i < k ==> KeptPair(region, rem, f, elems, i)
  }

  lemma {:induction false} PartialMembers(region: multiset<nat>, rem: seq<nat>, f: seq<nat>, elems: nat, k: nat, leaves: set<nat>, x: nat)
    requires region + multiset(rem) == multiset(leaves + Internal(elems, k))
    requires forall x :: x in leaves ==> x < elems
    ensures x in region ==> x < elems + k && x !in rem && region[x] == 1 && (x in leaves || x >= elems)
    ensures x in rem ==> x < elems + k
    ensures x in leaves || elems <= x < elems + k ==> x in region || x in rem
  {
    var all: set<nat> := leaves + Internal(elems, k);
    assert multiset(all)[x] <= 1;
    assert (region + multiset(rem))[x] == region[x] + multiset(rem)[x];
    assert x in rem <==> x in multiset(rem);
    assert x in multiset(all) <==> x in all;
  }

  lemma {:induction false} StepMultiset(region: multiset<nat>, rem: seq<nat>, elems: nat, k: nat, leaves: set<nat>, n: nat, m: nat)
    requires multiset{n, m} <= region
    requires region + multiset(rem) == multiset(leaves + Internal(elems, k))
    requires forall x :: x in leaves ==> x < elems
    ensures (region - multiset{n, m} + multiset{elems + k}) + multiset(rem + [n, m]) == multiset(leaves + Internal(elems, k + 1))
  {
    var father: multiset<nat> := multiset{elems + k};
    assert multiset(rem + [n, m]) == multiset(rem) + multiset{n, m};
    assert leaves + Internal(elems, k + 1) == (leaves + Internal(elems, k)) + {elems + k};
    assert elems + k !in leaves + Internal(elems, k);
    assert multiset(leaves + Internal(elems, k + 1)) == multiset(leaves + Internal(elems, k)) + father;
  }

  /** An earlier merge stays greedy when two more nodes leave the queue. */
  lemma {:induction false} PairKept(region: multiset<nat>, rem: seq<nat>, f: seq<nat>, elems: nat, k: nat, n: nat, m: nat, i: nat)
    requires i < k && |rem| == 2 * k && elems + k < |f| && n in region && m in region && n < |f| && m < |f|
    requires KeptPair(region, rem, f, elems, i)
    ensures KeptPair(region - multiset{n, m} + multiset{elems + k}, rem + [n, m], f[elems + k := f[n] + f[m]], elems, i)
  {
  }

  /** One merge of the two lightest nodes n and m into elems + k. */
  lemma {:induction false} PartialStep(region: multiset<nat>, rem: seq<nat>, f: seq<nat>, elems: nat, k: nat, leaves: set<nat>, n: nat, m: nat)
    requires Partial(region, rem, f, elems, k, leaves)
    requires multiset{n, m} <= region && elems + k < |f|
    requires n < |f| && m < |f| && f[n] <= f[m]
    requires forall x :: x in region && x < |f| && x != n ==> f[m] <= f[x]
    ensures Partial(region - multiset{n, m} + multiset{elems + k}, rem + [n, m], f[elems + k := f[n] + f[m]],
                    elems, k + 1, leaves)
  {
    hide KeptPair;
    PartialMembers(region, rem, f, elems, k, leaves, n);
    PartialMembers(region, rem, f, elems, k, leaves, m);
    assert n != m by {
      assert multiset{n, m}[n] <= region[n];
    }
    StepMultiset(region, rem, elems, k, leaves, n, m);
    var region': multiset<nat> := region - multiset{n, m} + multiset{elems + k};
    var rem': seq<nat>, f': seq<nat> := rem + [n, m], f[elems + k := f[n] + f[m]];
    forall i | 0 <= i < k ensures KeptPair(region', rem', f', elems, i) {
      PairKept(region, rem, f, elems, k, n, m, i);
    }
    NewPair(region, rem, f, elems, k, n, m);
  }

  lemma {:induction false} NewPair(region: multiset<nat>, rem: seq<nat>, f: seq<nat>, elems: nat, k: nat, n: nat, m: nat)
    requires |rem| == 2 * k && elems + k < |f| && region[n] == 1 && m in region && n != m
    requires n < elems + k && m < elems + k && f[n] <= f[m]
    requires forall x :: x in region && x < |f| && x != n ==> f[m] <= f[x]
    ensures KeptPair(region - multiset{n, m} + multiset{elems + k}, rem + [n, m], f[elems + k := f[n] + f[m]], elems, k)
  {
  }

  /** When one node is left in the queue, the removal order is complete. */
  lemma {:induction false} PartialDone(root: nat, rem: seq<nat>, f: seq<nat>, elems: nat, n: nat, leaves: set<nat>)
    requires n >= 2 && Partial(multiset{root}, rem, f, elems, n - 1, leaves)
    ensures root == elems + n - 2
    ensures Ordered(rem + [root], elems, n, leaves)
    ensures (forall j :: 0 <= j < |rem| + 1 ==> (rem + [root])[j] < |f|) && Greedy(rem + [root], f, elems, n)
  {
    var r: seq<nat> := rem + [root];
    RootIsLast(root, rem, f, elems, n, leaves);
    assert multiset(r) == multiset(rem) + multiset{root};
    forall j | 0 <= j < |rem| ensures r[j] < elems + j / 2 {
      assert KeptPair(multiset{root}, rem, f, elems, j / 2);
    }
    forall k | 0 <= k < n - 1 ensures Pair(r, f, elems, k) {
      assert KeptPair(multiset{root}, rem, f, elems, k);
    }
  }

  lemma {:induction false} RootIsLast(root: nat, rem: seq<nat>, f: seq<nat>, elems: nat, n: nat, leaves: set<nat>)
    requires n >= 2 && Partial(multiset{root}, rem, f, elems, n - 1, leaves)
    ensures root == elems + n - 2
  {
    PartialMembers(multiset{root}, rem, f, elems, n - 1, leaves, elems + n - 2);
    forall j | 0 <= j < |rem| ensures rem[j] != elems + n - 2 {
      assert KeptPair(multiset{root}, rem, f, elems, j / 2);
    }
  }

  // ----- the queue as an array -----

  ghost predicate Queue(h: seq<nat>, len: nat, f: seq<nat>, d: seq<nat>)
  {
    Nodes(h, len, f, d) && HeapFrom(h, len, f, d, 1)
  }

  lemma {:induction false} ShrinkRegion(h: seq<nat>, len: nat)
    requires 1 <= len < |h|
    ensures multiset(Region(h, len)) == multiset(Region(h, len - 1)) + multiset{h[len]}
  {
    assert Region(h, len) == Region(h, len - 1) + [h[len]];
  }

  lemma {:induction false} ReplaceRoot(h: seq<nat>, len: nat, x: nat)
    requires 1 <= len < |h|
    ensures multiset(Region(h[1 := x], len)) == multiset(Region(h, len)) - multiset{h[1]} + multiset{x}
  {
    assert Region(h[1 := x], len) == Region(h, len)[0 := x];
  }

  /** Moving the last node to the root removes the root from the queue. */
  lemma {:induction false} RemoveRoot(h: seq<nat>, len: nat, f: seq<nat>, d: seq<nat>)
    requires Queue(h, len, f, d) && len >= 2
    ensures RootOpen(h[1 := h[len]], len - 1, f, d)
    ensures multiset(Region(h, len)) == multiset(Region(h[1 := h[len]], len - 1)) + multiset{h[1]}
  {
    ShrinkRegion(h, len);
    ReplaceRoot(h, len - 1, h[len]);
    RegionMember(h, len - 1, 1);
  }

  lemma {:induction false} QueueMinimum(h: seq<nat>, len: nat, f: seq<nat>, d: seq<nat>, x: nat)
    requires Queue(h, len, f, d) && 1 <= len && x in multiset(Region(h, len))
    ensures x < |f| && f[h[1]] <= f[x]
  {
    var r := Region(h, len);
    assert x in r;
    var i :| 0 <= i < |r| && r[i] == x;
    RootIsSmallest(h, len, f, d, i + 1);
  }

  /** h1 is the queue h without its root, rearranged; the array above the queue is kept. */
  ghost predicate Popped(h: seq<nat>, h1: seq<nat>, len: nat, f: seq<nat>, d: seq<nat>)
  {
    && 2 <= len < |h| == |h1| && Queue(h1, len - 1, f, d)
    && multiset(Region(h, len)) == multiset(Region(h1, len - 1)) + multiset{h[1]}
    && forall i :: len < i < |h| ==> h1[i] == h[i]
  }

  /** The heap property may fail at the root only. */
  ghost predicate RootOpen(h: seq<nat>, len: nat, f: seq<nat>, d: seq<nat>)
  {
    1 <= len && Nodes(h, len, f, d) && HeapFrom(h, len, f, d, 2)
  }

  /** h3 is the queue h2 put in order; the array above the queue is kept. */
  ghost predicate Sifted(h2: seq<nat>, h3: seq<nat>, len: nat, f: seq<nat>, d: seq<nat>)
  {
    && len < |h2| == |h3| && Queue(h3, len, f, d)
    && multiset(Region(h3, len)) == multiset(Region(h2, len))
    && forall i :: len < i < |h2| ==> h3[i] == h2[i]
  }

  lemma {:induction false} PoppedQueue(h: seq<nat>, h1: seq<nat>, len: nat, f: seq<nat>, d: seq<nat>)
    requires Popped(h, h1, len, f, d)
    ensures Queue(h1, len - 1, f, d)
  {
  }

  lemma {:induction false} PoppedByMove(h: seq<nat>, h2: seq<nat>, h1: seq<nat>, len: nat, f: seq<nat>, d: seq<nat>)
    requires 2 <= len < |h| && h2 == h[1 := h[len]] && Sifted(h2, h1, len - 1, f, d)
    requires multiset(Region(h, len)) == multiset(Region(h2, len - 1)) + multiset{h[1]}
    ensures Popped(h, h1, len, f, d)
  {
  }

  /** The sons record their father. */
  ghost predicate Dads(rem: seq<nat>, dl: seq<nat>, elems: nat)
  {
    forall j :: 0 <= j < |rem| ==> rem[j] < |dl| && dl[rem[j]] == elems + j / 2
  }

  /** The invariant of the merge loop after k merges. */
  ghost predicate MergeInv(h: seq<nat>, len: nat, f: seq<nat>, d: seq<nat>, dl: seq<nat>, elems: nat, n: nat, k: nat, leaves: set<nat>)
  {
    && k + len == n <= elems && 1 <= len && 2 * elems < |h| && |f| == |dl| == 2 * elems + 1 <= |d|
    && Queue(h, len, f, d)
    && Partial(multiset(Region(h, len)), Removed(h, 2 * k), f, elems, k, leaves)
    && Dads(Removed(h, 2 * k), dl, elems)
  }

  lemma {:induction false} MergeBounds(h: seq<nat>, len: nat, f: seq<nat>, d: seq<nat>, dl: seq<nat>, elems: nat, n: nat, k: nat, leaves: set<nat>)
    requires MergeInv(h, len, f, d, dl, elems, n, k, leaves)
    ensures k + len == n <= elems && 1 <= len && 2 * elems < |h| && |f| == |dl| == 2 * elems + 1 <= |d|
    ensures Queue(h, len, f, d)
  {
  }

  lemma {:induction false} MergeStart(h: seq<nat>, len: nat, f: seq<nat>, d: seq<nat>, dl: seq<nat>, elems: nat, leaves: set<nat>)
    requires 1 <= len <= elems && 2 * elems < |h| && |f| == |dl| == 2 * elems + 1 <= |d|
    requires Queue(h, len, f, d) && multiset(Region(h, len)) == multiset(leaves)
    requires forall x :: x in leaves ==> x < elems
    ensures MergeInv(h, len, f, d, dl, elems, len, 0, leaves)
  {
    assert Removed(h, 0) == [];
    assert leaves + Internal(elems, 0) == leaves;
    assert multiset(Region(h, len)) + multiset(Removed(h, 0)) == multiset(leaves);
  }

  /** The array after the two removed nodes are recorded at the top and the new node is put
      at the root. The node is not in the queue yet, so its weight and depth may be written. */
  lemma {:induction false} NewRoot(h: seq<nat>, len: nat, f: seq<nat>, d: seq<nat>, node: nat, w: nat, dep: nat, top: nat, x: nat, h2: seq<nat>)
    requires Queue(h, len, f, d) && 1 <= len && node < |f| && node < |d|
    requires node !in multiset(Region(h, len))
    requires len < top - 1 && top < |h| && h2 == h[top := x][top - 1 := h[1]][1 := node]
    ensures RootOpen(h2, len, f[node := w], d[node := dep])
    ensures multiset(Region(h2, len)) == multiset(Region(h, len)) - multiset{h[1]} + multiset{node}
  {
    forall i | 1 <= i <= len ensures h[i] != node {
      RegionMember(h, len, i);
    }
    ReplaceRoot(h, len, node);
    assert Region(h2, len) == Region(h[1 := node], len);
  }

  /** One turn of the merge loop, from the state h before it over the queue h1 without the
      lightest node x to the final state h3. */
  lemma {:induction false} MergeStep(h: seq<nat>, len: nat, f: seq<nat>, d: seq<nat>, dl: seq<nat>, elems: nat, n: nat, k: nat, leaves: set<nat>,
                  h1: seq<nat>, dep: nat, w: nat, h2: seq<nat>, h3: seq<nat>, x: nat, y: nat, node: nat)
    requires MergeInv(h, len, f, d, dl, elems, n, k, leaves) && len >= 2
    requires |h1| == |h| == |h3| && x == h[1] && y == h1[1] && node == elems + k
    requires Popped(h, h1, len, f, d)
    requires x < node && y < node && node !in multiset(Region(h1, len - 1))
    requires h2 == h1[|h| - 1 - 2 * k := x][|h| - 2 - 2 * k := y][1 := node]
    requires w == f[x] + f[y] && Sifted(h2, h3, len - 1, f[node := w], d[node := dep])
    ensures MergeInv(h3, len - 1, f[node := w], d[node := dep], dl[x := node][y := node], elems, n, k + 1, leaves)
  {
    hide Queue, Partial, Region, Removed, Dads, Popped, Sifted;
    MergeFacts(h, len, f, d, dl, elems, n, k, leaves, h1);
    StepRegion(h, h1, h2, h3, len, f, d, node, w, dep, |h| - 1 - 2 * k, x, y);
    StepRemoved(h, h1, h2, h3, len, f, d, f[node := w], d[node := dep], k, x, y, node);
    DadsKept(Removed(h, 2 * k), dl, elems, k, x, y);
    assert Removed(h3, 2 * (k + 1)) == Removed(h, 2 * k) + [x, y];
  }

  lemma {:induction false} StepRegion(h: seq<nat>, h1: seq<nat>, h2: seq<nat>, h3: seq<nat>, len: nat, f: seq<nat>, d: seq<nat>,
                   node: nat, w: nat, dep: nat, top: nat, x: nat, y: nat)
    requires Popped(h, h1, len, f, d) && node < |f| && node < |d| && node !in multiset(Region(h1, len - 1))
    requires len < top < |h| && y == h1[1] && h2 == h1[top := x][top - 1 := y][1 := node]
    requires Sifted(h2, h3, len - 1, f[node := w], d[node := dep])
    ensures multiset(Region(h3, len - 1)) == multiset(Region(h1, len - 1)) - multiset{y} + multiset{node}
    ensures Queue(h3, len - 1, f[node := w], d[node := dep])
  {
    hide Queue, Region;
    NewRoot(h1, len - 1, f, d, node, w, dep, top, x, h2);
  }

  lemma {:induction false} StepRemoved(h: seq<nat>, h1: seq<nat>, h2: seq<nat>, h3: seq<nat>, len: nat, f: seq<nat>, d: seq<nat>,
                    f': seq<nat>, d': seq<nat>, k: nat, x: nat, y: nat, node: nat)
    requires Popped(h, h1, len, f, d) && Sifted(h2, h3, len - 1, f', d') && len + 2 * k + 2 <= |h|
    requires h2 == h1[|h| - 1 - 2 * k := x][|h| - 2 - 2 * k := y][1 := node]
    ensures Removed(h3, 2 * k + 2) == Removed(h, 2 * k) + [x, y]
  {
    hide Queue, Region;
    RemovedGrows(h, h3, len, k, x, y);
  }

  lemma {:induction false} RemovedGrows(h: seq<nat>, h3: seq<nat>, len: nat, k: nat, x: nat, y: nat)
    requires |h3| == |h| && len + 2 * k + 2 <= |h|
    requires h3[|h| - 1 - 2 * k] == x && h3[|h| - 2 - 2 * k] == y
    requires forall i :: |h| - 2 * k <= i < |h| ==> h3[i] == h[i]
    ensures Removed(h3, 2 * k + 2) == Removed(h, 2 * k) + [x, y]
  {
  }

  lemma {:induction false} DadsKept(rem: seq<nat>, dl: seq<nat>, elems: nat, k: nat, x: nat, y: nat)
    requires |rem| == 2 * k && x !in rem && y !in rem && x < |dl| && y < |dl|
    requires Dads(rem, dl, elems)
    ensures Dads(rem + [x, y], dl[x := elems + k][y := elems + k], elems)
  {
  }

  lemma {:induction false} TakeTwo(region: multiset<nat>, region1: multiset<nat>, x: nat, y: nat)
    requires region == region1 + multiset{x} && y in region1
    ensures multiset{x, y} <= region && region - multiset{x, y} == region1 - multiset{y}
  {
  }

  /** The two lightest nodes of the queue. */
  lemma {:induction false} LightestTwo(h: seq<nat>, len: nat, f: seq<nat>, d: seq<nat>, h1: seq<nat>)
    requires Queue(h, len, f, d) && len >= 2
    requires |h1| == |h| && Queue(h1, len - 1, f, d)
    requires multiset(Region(h, len)) == multiset(Region(h1, len - 1)) + multiset{h[1]}
    ensures h[1] < |f| && h1[1] < |f| && h1[1] in multiset(Region(h1, len - 1)) && f[h[1]] <= f[h1[1]]
    ensures forall z :: z in multiset(Region(h, len)) && z < |f| && z != h[1] ==> f[h1[1]] <= f[z]
  {
    RegionMember(h1, len - 1, 1);
    QueueMinimum(h, len, f, d, h1[1]);
    forall z | z in multiset(Region(h, len)) && z < |f| && z != h[1] ensures f[h1[1]] <= f[z] {
      assert z in multiset(Region(h1, len - 1));
      QueueMinimum(h1, len - 1, f, d, z);
    }
  }

  lemma {:induction false} MergeFacts(h: seq<nat>, len: nat, f: seq<nat>, d: seq<nat>, dl: seq<nat>, elems: nat, n: nat, k: nat, leaves: set<nat>, h1: seq<nat>)
    requires MergeInv(h, len, f, d, dl, elems, n, k, leaves) && Popped(h, h1, len, f, d)
    ensures var x: nat, y: nat, node: nat := h[1], h1[1], elems + k;
            && x < elems + k && y < elems + k
            && (x in leaves || x >= elems) && (y in leaves || y >= elems)
            && multiset(Region(h, len)) - multiset{x, y} == multiset(Region(h1, len - 1)) - multiset{y}
            && x !in Removed(h, 2 * k) && y !in Removed(h, 2 * k)
            && node !in multiset(Region(h1, len - 1))
            && Partial(multiset(Region(h, len)) - multiset{x, y} + multiset{node}, Removed(h, 2 * k) + [x, y],
                       f[node := f[x] + f[y]], elems, k + 1, leaves)
  {
    hide Queue, Region, Removed, Dads, Partial;
    var x: nat, y: nat, node: nat := h[1], h1[1], elems + k;
    var region: multiset<nat>, region1: multiset<nat> := multiset(Region(h, len)), multiset(Region(h1, len - 1));
    LightestTwo(h, len, f, d, h1);
    TakeTwo(region, region1, x, y);
    PartialNodes(region, Removed(h, 2 * k), f, elems, k, leaves, x, y);
    PartialStep(region, Removed(h, 2 * k), f, elems, k, leaves, x, y);
  }

  lemma {:induction false} PartialNodes(region: multiset<nat>, rem: seq<nat>, f: seq<nat>, elems: nat, k: nat, leaves: set<nat>, x: nat, y: nat)
    requires Partial(region, rem, f, elems, k, leaves) && x in region && y in region
    ensures x < elems + k && y < elems + k && x !in rem && y !in rem && elems + k !in region
    ensures (x in leaves || x >= elems) && (y in leaves || y >= elems)
  {
    PartialMembers(region, rem, f, elems, k, leaves, x);
    PartialMembers(region, rem, f, elems, k, leaves, y);
    PartialMembers(region, rem, f, elems, k, leaves, elems + k);
  }

  /** What build_tree leaves for gen_bitlen: the removal order of a greedy merge and, in dl,
      the father of every node but the root and a zero for every unused symbol. */
  ghost predicate Built(h: seq<nat>, f: seq<nat>, dl: seq<nat>, elems: nat, n: nat, leaves: set<nat>)
  {
    && 2 <= n <= elems && 2 * elems < |h| && |f| == |dl| == 2 * elems + 1
    && Ordered(Removed(h, 2 * n - 1), elems, n, leaves)
    && Greedy(Removed(h, 2 * n - 1), f, elems, n)
    && Dads(Removed(h, 2 * n - 2), dl, elems)
    && forall x :: 0 <= x < elems && x !in leaves ==> dl[x] == 0
  }

  lemma {:induction false} MergeEnd(h: seq<nat>, f: seq<nat>, d: seq<nat>, dl: seq<nat>, elems: nat, n: nat, leaves: set<nat>)
    requires n >= 2 && MergeInv(h, 1, f, d, dl, elems, n, n - 1, leaves)
    requires forall x :: 0 <= x < elems && x !in leaves ==> dl[x] == 0
    ensures Built(h[|h| - (2 * n - 1) := h[1]], f, dl, elems, n, leaves)
  {
    var root, h' := h[1], h[|h| - (2 * n - 1) := h[1]];
    assert Region(h, 1) == [root];
    assert Removed(h', 2 * n - 1) == Removed(h, 2 * (n - 1)) + [root];
    assert Removed(h', 2 * n - 2) == Removed(h, 2 * (n - 1));
    PartialDone(root, Removed(h, 2 * (n - 1)), f, elems, n, leaves);
  }
}
