/**
 build_tree as a whole: for every frequency table the tree gets a complete canonical code
 within its length limit in which every symbol that occurs has a code, and the two block
 lengths grow by exactly what the occurrences cost.
 */
module HuffmanTree {
  import opened Sums
  import opened MergeOrder
  import opened Huffman
  import opened PrefixCodes
  import opened Merging
  import opened LengthCounts
  import opened TreeBuilder
  import opened BitLengths
  import opened Reassign
  import opened LengthAssignment
  import opened CounterWidth
  import opened ClipBound
  import CodeAssignment

  // ----- cutting the table after the last code -----

  lemma {:induction false} CountTrim(lens: seq<nat>, k: nat, b: nat)
    requires k <= |lens| && b > 0 && forall x :: k <= x < |lens| ==> lens[x] == 0
    ensures Inflate.Count(lens[..k], b) == Inflate.Count(lens, b)
  {
    if k == |lens| {
      assert lens[..k] == lens;
    } else {
      var init := lens[..|lens| - 1];
      CountTrim(init, k, b);
      assert init[..k] == lens[..k];
    }
  }

  lemma {:induction false} KraftTrim(lens: seq<nat>, k: nat)
    requires k <= |lens| && forall x :: k <= x < |lens| ==> lens[x] == 0
    ensures Inflate.Kraft(lens[..k]) == Inflate.Kraft(lens)
  {
    if k == |lens| {
      assert lens[..k] == lens;
    } else {
      var init := lens[..|lens| - 1];
      KraftTrim(init, k);
      assert init[..k] == lens[..k];
    }
  }

  // ----- forced symbols cost one bit each -----

  lemma {:induction false} PairLengths(rem: seq<nat>, dl: seq<nat>, elems: nat, leaves: set<nat>, limit: nat)
    requires Ordered(rem, elems, 2, leaves) && |dl| >= elems + 1 && Depths(rem, elems, 2, dl, limit)
    ensures forall x :: x in leaves ==> dl[x] == 1
  {
    forall x | x in leaves ensures dl[x] == 1 {
      Membership(rem, elems, 2, leaves, x);
      var j :| 0 <= j < |rem| && rem[j] == x;
      assert elems + j / 2 == elems;
    }
  }

  lemma {:induction false} ForcedBits(c: seq<int>, d: seq<int>, forced: seq<nat>)
    requires forall i :: 0 <= i < |forced| ==> forced[i] < |c| && forced[i] < |d| && c[forced[i]] == d[forced[i]]
    ensures ForcedCharge(c, forced) == ForcedCharge(d, forced)
  {
    if forced != [] {
      ForcedBits(c, d, forced[..|forced| - 1]);
    }
  }

  lemma {:induction false} ForcedOnes(c: seq<int>, forced: seq<nat>)
    requires forall i :: 0 <= i < |forced| ==> forced[i] < |c| && c[forced[i]] == 1
    ensures ForcedCharge(c, forced) == |forced|
  {
    if forced != [] {
      ForcedOnes(c, forced[..|forced| - 1]);
    }
  }

  lemma {:induction false} ForcedAreUsed(f: seq<nat>, forced: seq<nat>, n: nat)
    requires 3 <= n <= |f| && Forced(f, forced)
    ensures forall i :: 0 <= i < |forced| ==> forced[i] in Used(SetOnes(f, forced), n)
    ensures forall x :: 0 <= x < n && f[x] != 0 ==> x in Used(SetOnes(f, forced), n)
  {
    if forced != [] {
      var init := forced[..|forced| - 1];
      assert forall i :: 0 <= i < |init| ==> init[..i] == forced[..i];
      assert Forced(f, init) by {
        forall i | 0 <= i < |init| ensures init[i] < 3 && init[i] < |f| && SetOnesBefore(f, init, i) == 0 {
          assert SetOnesBefore(f, forced, i) == 0;
        }
      }
      ForcedAreUsed(f, init, n);
    }
  }

  lemma {:induction false} SymbolCost(f: seq<nat>, g: seq<nat>, lens: seq<nat>, base: seq<nat>, extra: seq<nat>)
    requires |base| >= |lens| && |extra| >= |lens| && SameSymbols(f, g, |lens|, {})
    ensures BlockCost(f, lens, base, extra) == BlockCost(g, lens, base, extra)
  {
    var c := WithExtra(lens, base, extra);
    assert Charges(f, c, |lens|) == Charges(g, c, |lens|);
  }

  /** The bits taken off in advance for the forced symbols are exactly what they add. */
  lemma {:induction false} ForcedCost(f0: seq<nat>, forced: seq<nat>, f: seq<nat>, lens: seq<nat>, stat: seq<nat>, extra: seq<nat>)
    requires 3 <= |lens| <= |f0| && |extra| == |lens| <= |stat| && Forced(f0, forced)
    requires SameSymbols(SetOnes(f0, forced), f, |lens|, {})
    requires forall x :: 0 <= x < 3 ==> extra[x] == 0
    requires forall i :: 0 <= i < |forced| ==> forced[i] < |lens| && lens[forced[i]] == 1
    ensures BlockCost(f, lens, lens, extra) - |forced| == BlockCost(f0, lens, lens, extra)
    ensures BlockCost(f, lens, stat, extra) - ForcedCharge(stat, forced) == BlockCost(f0, lens, stat, extra)
  {
    var c, d := WithExtra(lens, lens, extra), WithExtra(lens, stat, extra);
    SymbolCost(SetOnes(f0, forced), f, lens, lens, extra);
    SymbolCost(SetOnes(f0, forced), f, lens, stat, extra);
    ForcedAdds(f0, forced, c, |lens|);
    ForcedAdds(f0, forced, d, |lens|);
    ForcedOnes(c, forced);
    ForcedBits(d, stat, forced);
  }

  // ----- the result -----

  /** A tree as the rest of the program uses it: the table up to the last code is a complete
      code within the limit, the codes are set, and nothing follows. */
  ghost predicate CodedTree(fc: seq<nat>, dl: seq<nat>, elems: nat, maxCode: int, limit: nat)
  {
    && 0 <= maxCode < elems < |dl| && elems < |fc|
    && Inflate.Complete(dl[..maxCode + 1])
    && (forall x :: 0 <= x < elems ==> dl[x] <= limit)
    && (forall x :: maxCode < x < elems ==> dl[x] == 0)
    && dl[maxCode] > 0
    && CodeAssignment.CodesSet(fc, dl[..maxCode + 1])
  }

  /** No prefix code on the symbols that occur costs less. */
  ghost predicate Optimal(f: seq<nat>, lens: seq<nat>)
    requires |lens| <= |f|
  {
    forall words: seq<Word> :: |words| == |lens| && PrefixCode(words, Used(f, |lens|)) ==>
      Sum(Charges(f, lens, |lens|)) <= Sum(Charges(f, WordLengths(words, |lens|), |lens|))
  }

  lemma {:induction false} LeafCharges(f: seq<nat>, g: seq<nat>, l: seq<nat>, l': seq<nat>, n: nat, leaves: set<nat>)
    requires n <= |g| == |l| && n <= |f| && n <= |l'| && leaves == Used(f, n)
    requires forall x :: 0 <= x < n ==> f[x] == g[x] && l[x] == l'[x]
    ensures LeafTerms(leaves, CostTerms(g, l), n) == Charges(f, l', n)
  {
  }

  lemma {:induction false} DepthsOptimal(rem: seq<nat>, f: seq<nat>, g: seq<nat>, dl: seq<nat>, elems: nat, n: nat, leaves: set<nat>, limit: nat)
    requires Ordered(rem, elems, n, leaves) && |dl| >= elems + n - 1 && Depths(rem, elems, n, dl, limit)
    requires |g| == |dl| && Greedy(rem, g, elems, n) && Clipped(dl, elems, 0, n, limit) == 0
    requires elems <= |f| && elems <= |dl| && leaves == Used(f, elems) && SameSymbols(f, g, elems, {})
    ensures Optimal(f, dl[..elems])
  {
    var lens := dl[..elems];
    forall words: seq<Word> | |words| == elems && PrefixCode(words, leaves)
      ensures Sum(Charges(f, lens, elems)) <= Sum(Charges(f, WordLengths(words, elems), elems))
    {
      LengthsAreOptimal(rem, elems, n, leaves, g, dl, limit, words);
      LeafCharges(f, g, dl, lens, elems, leaves);
      LeafCharges(f, g, WordLengths(words, |g|), WordLengths(words, elems), elems, leaves);
    }
  }

  /** The table up to the last code. */
  lemma {:induction false} TrimmedTable(lens: seq<nat>, leaves: set<nat>, limit: nat, maxCode: int, bl: seq<nat>)
    requires LengthsFor(lens, leaves, limit) && IsMaxCode(maxCode, leaves) && 0 <= maxCode < |lens|
    requires limit <= MAX_BITS && Counts(bl, lens) && Inflate.Kraft(lens) == Pow2(MAX_BITS)
    ensures Inflate.Complete(lens[..maxCode + 1]) && Counts(bl, lens[..maxCode + 1])
    ensures (forall x :: maxCode < x < |lens| ==> lens[x] == 0) && lens[maxCode] > 0
  {
    KraftTrim(lens, maxCode + 1);
    forall b | 1 <= b <= MAX_BITS ensures bl[b] == Inflate.Count(lens[..maxCode + 1], b) {
      CountTrim(lens, maxCode + 1, b);
    }
  }

  lemma {:induction false} MaxCodeExists(leaves: set<nat>, maxCode: int, rem: seq<nat>, elems: nat, n: nat)
    requires IsMaxCode(maxCode, leaves) && Ordered(rem, elems, n, leaves)
    ensures 0 <= maxCode < elems
  {
    Membership(rem, elems, n, leaves, rem[0]);
  }

  lemma {:induction false} UsedHaveLengths(lens: seq<nat>, leaves: set<nat>, limit: nat, f0: seq<nat>, forced: seq<nat>)
    requires LengthsFor(lens, leaves, limit) && 3 <= |lens| <= |f0| && Forced(f0, forced)
    requires leaves == Used(SetOnes(f0, forced), |lens|)
    ensures forall x :: 0 <= x < |lens| && f0[x] != 0 ==> lens[x] > 0
  {
    ForcedAreUsed(f0, forced, |lens|);
  }

  /** The tree that build_tree makes, as a record of the run: the order in which the nodes were
      merged, their weights, and the depths that the first pass of gen_bitlen assigns. */
  datatype MergeTree = MergeTree(n: nat, leaves: set<nat>, rem: seq<nat>, weights: seq<nat>, first: seq<nat>)

  ghost predicate TreeOf(m: MergeTree, f0: seq<nat>, elems: nat, forced: seq<nat>, limit: nat)
  {
    && Merged(f0, elems, forced, m.rem, m.weights, m.n, m.leaves)
    && |m.first| >= elems + m.n - 1 && |m.first| == |m.weights| && Depths(m.rem, elems, m.n, m.first, limit)
  }

  /** The first pass had to clip a length. */
  ghost predicate WasClipped(m: MergeTree, elems: nat, limit: nat)
    requires m.n >= 1 && |m.first| >= elems + m.n - 1
  {
    Clipped(m.first, elems, 0, m.n, limit) > 0
  }

  /** The lengths are the depths in the tree and no prefix code is cheaper, unless the first
      pass clipped. Then at least Fib(limit + 3) symbols were counted. */
  ghost predicate Measured(m: MergeTree, f0: seq<nat>, elems: nat, forced: seq<nat>, limit: nat, lens: seq<nat>)
  {
    && TreeOf(m, f0, elems, forced, limit) && m.n >= 2 && |lens| == elems <= |f0|
    && (forall i :: 0 <= i < |forced| ==> forced[i] < |f0|) && (forced != [] ==> |Used(f0, elems)| < 2)
    && if WasClipped(m, elems, limit) then
         forced == [] && limit in lens && Total(f0, elems) >= Fib(limit + 3) && Shortened(m.rem, m.first, elems, m.n, limit, lens)
       else lens == m.first[..elems] && Optimal(SetOnes(f0, forced), lens)
  }

  lemma {:induction false} RemovedByWeight(rem: seq<nat>, f: seq<nat>, elems: nat, n: nat, leaves: set<nat>, i: nat, j: nat)
    requires Ordered(rem, elems, n, leaves) && Greedy(rem, f, elems, n) && i < j < |rem| && |f| >= elems + n - 1
    ensures rem[i] < |f| && rem[j] < |f| && f[rem[i]] <= f[rem[j]]
  {
    hide Greedy;
    AllBelow(rem, elems, n, leaves);
    var k := i / 2;
    assert Pair(rem, f, elems, k) by {
      GreedyAt(rem, f, elems, n, k);
    }
    if j > 2 * k + 1 || i == 2 * k + 1 {
      OrderedByWeight(rem, f, elems, n, leaves, k, j);
    }
  }

  lemma {:induction false} GreedyAt(rem: seq<nat>, f: seq<nat>, elems: nat, n: nat, k: nat)
    requires Greedy(rem, f, elems, n) && k < n - 1
    ensures Pair(rem, f, elems, k)
  {
  }

  /** After clipping, too, no symbol has a longer code than a rarer one. */
  lemma {:induction false} RareIsLonger(m: MergeTree, f0: seq<nat>, elems: nat, forced: seq<nat>, limit: nat, lens: seq<nat>, x: nat, y: nat)
    requires Measured(m, f0, elems, forced, limit, lens) && m.n >= 1 && |m.first| >= elems + m.n - 1 && WasClipped(m, elems, limit)
    requires x < elems && y < elems && 0 < f0[x] < f0[y]
    ensures lens[x] >= lens[y]
  {
    hide Falling, Repairs, Depths, Clipped, Greedy, Fib, Total, Counts;
    assert forced == [] && x in m.leaves && y in m.leaves && m.weights[x] == f0[x] && m.weights[y] == f0[y];
    hide Ordered;
    Membership(m.rem, elems, m.n, m.leaves, x);
    Membership(m.rem, elems, m.n, m.leaves, y);
    var i :| 0 <= i < |m.rem| && m.rem[i] == x;
    var j :| 0 <= j < |m.rem| && m.rem[j] == y;
    if j < i {
      RemovedByWeight(m.rem, m.weights, elems, m.n, m.leaves, j, i);
    } else {
      FallingAt(m.rem, lens, elems, i, j);
    }
  }

  lemma {:induction false} FallingAt(rem: seq<nat>, lens: seq<nat>, elems: nat, i: nat, j: nat)
    requires Falling(rem, lens, elems, |rem|, 0) && i <= j < |rem| && rem[i] < elems && rem[j] < elems
    ensures lens[rem[i]] >= lens[rem[j]]
  {
  }

  lemma {:induction false} TreeMade(h: seq<nat>, f: seq<nat>, dl: seq<nat>, elems: nat, n: nat, leaves: set<nat>, f0: seq<nat>, forced: seq<nat>, first: seq<nat>, limit: nat)
    requires Built(h, f, dl, elems, n, leaves) && 3 <= elems <= |f0| && Forced(f0, forced) && |forced| <= 2
    requires leaves == Used(SetOnes(f0, forced), elems) && SameSymbols(SetOnes(f0, forced), f, elems, {})
    requires SameOutside(SetOnes(f0, forced), f, elems, elems + n - 1)
    requires |first| == |f| && Depths(Removed(h, 2 * n - 1), elems, n, first, limit)
    ensures TreeOf(MergeTree(n, leaves, Removed(h, 2 * n - 1), f, first), f0, elems, forced, limit)
  {
    hide Ordered, Greedy, SetOnes, SameSymbols, SameOutside, Used, Depths, Dads;
  }

  /** The accounts in terms of the frequencies on entry. */
  lemma {:induction false} Accounted(t: Tree, m: MergeTree, f0: seq<nat>, forced: seq<nat>, lens: seq<nat>)
    requires t.Shape() && |f0| == 2 * t.elems + 1 && |lens| == t.elems && TreeOf(m, f0, t.elems, forced, t.maxLength)
    requires forced != [] ==> m.n == 2 && lens == m.first[..t.elems]
    ensures BlockCost(m.weights, lens, lens, t.Extras()) - |forced| == BlockCost(f0, lens, lens, t.Extras())
    ensures t.staticLens.Some? ==>
              BlockCost(m.weights, lens, t.Statics(), t.Extras()) - ForcedCharge(t.staticLens.value, forced)
              == BlockCost(f0, lens, t.Statics(), t.Extras())
  {
    if forced != [] {
      PairLengths(m.rem, m.first, t.elems, m.leaves, t.maxLength);
    }
    ForcedAreUsed(f0, forced, t.elems);
    hide BlockCost, Depths, Ordered, Greedy, SetOnes;
    ForcedCost(f0, forced, m.weights, lens, t.Statics(), t.Extras());
  }

  /** If the first pass clips, at least Fib(limit + 3) symbols were counted. */
  lemma {:induction false} ClippedCount(m: MergeTree, f0: seq<nat>, elems: nat, forced: seq<nat>, limit: nat)
    requires TreeOf(m, f0, elems, forced, limit) && (forced != [] ==> m.n == 2) && WasClipped(m, elems, limit)
    ensures forced == [] && Total(f0, elems) >= Fib(limit + 3)
  {
    hide Ordered, Greedy, Depths, Clipped, Fib, Total;
    assert Weighty(m.weights, m.leaves) by {
      LeavesWeigh(m.weights, SetOnes(f0, forced), m.leaves, elems);
    }
    hide SetOnes, SameSymbols, SameOutside;
    RootWeight(f0, elems, forced, m.rem, m.weights, m.n, m.leaves);
    ClippedIsHeavy(m.rem, m.weights, elems, m.n, m.leaves, m.first, limit);
    RemSize(m.rem, elems, m.n, m.leaves);
    PairNeverClipped(m.rem, m.first, elems, m.n, limit);
  }

  lemma {:induction false} RemSize(rem: seq<nat>, elems: nat, n: nat, leaves: set<nat>)
    requires Ordered(rem, elems, n, leaves)
    ensures n >= 2 && |rem| == 2 * n - 1
  {
  }

  lemma {:induction false} LeavesWeigh(f: seq<nat>, g: seq<nat>, leaves: set<nat>, elems: nat)
    requires elems <= |g| && leaves == Used(g, elems) && SameSymbols(g, f, elems, {})
    ensures Weighty(f, leaves)
  {
  }

  /** Without clipping no prefix code is cheaper. */
  lemma {:induction false} UnclippedIsOptimal(m: MergeTree, f0: seq<nat>, elems: nat, forced: seq<nat>, limit: nat)
    requires TreeOf(m, f0, elems, forced, limit) && !WasClipped(m, elems, limit)
    ensures elems <= |SetOnes(f0, forced)| && Optimal(SetOnes(f0, forced), m.first[..elems])
  {
    hide Ordered, Greedy, Depths, Clipped, SetOnes, Optimal, Used;
    SameSize(SetOnes(f0, forced), m.weights, elems);
    DepthsOptimal(m.rem, SetOnes(f0, forced), m.weights, m.first, elems, m.n, m.leaves, limit);
  }

  /** What the length table of a tree looks like before its codes are set. */
  ghost predicate SizedTree(dl: seq<nat>, bl: seq<nat>, elems: nat, maxCode: int, limit: nat)
  {
    && 0 <= maxCode < elems < |dl|
    && Inflate.Complete(dl[..maxCode + 1]) && Counts(bl, dl[..maxCode + 1])
    && (forall x :: 0 <= x < elems ==> dl[x] <= limit)
    && (forall x :: maxCode < x < elems ==> dl[x] == 0)
    && dl[maxCode] > 0
  }

  lemma {:induction false} Sized(dl: seq<nat>, bl: seq<nat>, elems: nat, maxCode: int, limit: nat, leaves: set<nat>, rem: seq<nat>, n: nat)
    requires elems < |dl| && LengthsFor(dl[..elems], leaves, limit) && limit <= MAX_BITS
    requires Counts(bl, dl[..elems]) && Inflate.Kraft(dl[..elems]) == Pow2(MAX_BITS)
    requires IsMaxCode(maxCode, leaves) && Ordered(rem, elems, n, leaves)
    ensures SizedTree(dl, bl, elems, maxCode, limit)
  {
    var lens := dl[..elems];
    MaxCodeExists(leaves, maxCode, rem, elems, n);
    TrimmedTable(lens, leaves, limit, maxCode, bl);
    assert lens[..maxCode + 1] == dl[..maxCode + 1];
    assert forall x :: 0 <= x < elems ==> lens[x] == dl[x];
  }

  lemma {:induction false} AreMeasured(m: MergeTree, f0: seq<nat>, elems: nat, forced: seq<nat>, limit: nat, dl: seq<nat>, lens: seq<nat>)
    requires TreeOf(m, f0, elems, forced, limit) && (forced != [] ==> m.n == 2 && |Used(f0, elems)| < 2)
    requires m.n >= 2 && elems <= |dl| && lens == dl[..elems]
    requires if WasClipped(m, elems, limit) then limit in lens && Shortened(m.rem, m.first, elems, m.n, limit, lens) else dl == m.first
    ensures Measured(m, f0, elems, forced, limit, lens) && (forced != [] ==> dl == m.first)
  {
    hide Clipped, Merged, Depths, Optimal, Used, SetOnes, Fib, Total, TreeOf;
    TreeShape(m, f0, elems, forced, limit);
    if WasClipped(m, elems, limit) {
      ClippedCount(m, f0, elems, forced, limit);
    } else {
      UnclippedIsOptimal(m, f0, elems, forced, limit);
    }
  }

  /** What is known of the finished lengths. */
  lemma {:induction false} LengthsSet(t: Tree, m: MergeTree, f0: seq<nat>, forced: seq<nat>, dl: seq<nat>, bl: seq<nat>, maxCode: int)
    requires t.Shape() && |f0| == |dl| == 2 * t.elems + 1 && TreeOf(m, f0, t.elems, forced, t.maxLength)
    requires (forced != [] ==> m.n == 2 && |Used(f0, t.elems)| < 2) && IsMaxCode(maxCode, m.leaves)
    requires LengthsFor(dl[..t.elems], m.leaves, t.maxLength) && Counts(bl, dl[..t.elems]) && Inflate.Kraft(dl[..t.elems]) == Pow2(MAX_BITS)
    requires if WasClipped(m, t.elems, t.maxLength) then t.maxLength in dl[..t.elems] && Shortened(m.rem, m.first, t.elems, m.n, t.maxLength, dl[..t.elems])
             else dl == m.first
    ensures SizedTree(dl, bl, t.elems, maxCode, t.maxLength)
    ensures forall x :: 0 <= x < t.elems && f0[x] != 0 ==> dl[x] > 0
    ensures var lens := dl[..t.elems];
            && BlockCost(m.weights, lens, lens, t.Extras()) - |forced| == BlockCost(f0, lens, lens, t.Extras())
            && (t.staticLens.Some? ==>
                  BlockCost(m.weights, lens, t.Statics(), t.Extras()) - ForcedCharge(t.staticLens.value, forced)
                  == BlockCost(f0, lens, t.Statics(), t.Extras()))
    ensures Measured(m, f0, t.elems, forced, t.maxLength, dl[..t.elems])
  {
    hide BlockCost, Forced, SetOnes, SameSymbols, SameOutside, LengthsFor, Counts, Depths, Clipped, Inflate.Kraft, Optimal, Ordered, Greedy, IsMaxCode, Used,
         SizedTree, Measured;
    var lens := dl[..t.elems];
    TreeShape(m, f0, t.elems, forced, t.maxLength);
    Sized(dl, bl, t.elems, maxCode, t.maxLength, m.leaves, m.rem, m.n);
    UsedHaveLengths(lens, m.leaves, t.maxLength, f0, forced);
    AreMeasured(m, f0, t.elems, forced, t.maxLength, dl, lens);
    Accounted(t, m, f0, forced, lens);
  }

  /** gen_bitlen, in terms of the frequencies f0 before any symbol was forced. */
  method AssignLengths(b: Builder, t: Tree, ghost f0: seq<nat>, ghost forced: seq<nat>, ghost h: seq<nat>, ghost f: seq<nat>, ghost n: nat, ghost leaves: set<nat>)
    returns (ghost m: MergeTree)
    requires b.Shape() && t.Shape() && b.Apart(t) && |f0| == 2 * t.elems + 1
    requires b.heap[..] == h && t.fc[..] == f && Built(h, f, t.dl[..], t.elems, n, leaves)
    requires b.heapMax == HEAP_SIZE - (2 * n - 1) && IsMaxCode(t.maxCode, leaves)
    requires Forced(f0, forced) && |forced| <= 2 && (forced != [] ==> n == 2 && |Used(f0, t.elems)| < 2)
    requires leaves == Used(SetOnes(f0, forced), t.elems) && SameSymbols(SetOnes(f0, forced), f, t.elems, {})
    requires SameOutside(SetOnes(f0, forced), f, t.elems, t.elems + n - 1)
    modifies b`optLen, b`staticLen, b.blCount, t.dl
    ensures t.fc[..] == f == m.weights
    ensures SizedTree(t.dl[..], b.blCount[..], t.elems, t.maxCode, t.maxLength)
    ensures forall x :: 0 <= x < t.elems && f0[x] != 0 ==> t.dl[x] > 0
    ensures b.optLen == old(b.optLen) + |forced| + BlockCost(f0, Lengths(t), Lengths(t), t.Extras())
    ensures b.staticLen == old(b.staticLen)
                           + (if t.staticLens.Some? then ForcedCharge(t.staticLens.value, forced) + BlockCost(f0, Lengths(t), t.Statics(), t.Extras()) else 0)
    ensures Measured(m, f0, t.elems, forced, t.maxLength, Lengths(t))
  {
    hide Built, BlockCost, Forced, SetOnes, SameSymbols, SameOutside, LengthsFor, Counts, Depths, Clipped, Inflate.Kraft, Optimal,
         Removed, Ordered, Greedy, IsMaxCode, Used, SizedTree, Measured, TreeOf;
    ghost var dads := t.dl[..];
    BuiltShape(h, f, dads, t.elems, n, leaves);
    ghost var first := GenBitlen(b, t, h, f, n, leaves);
    m := MergeTree(n, leaves, Removed(h, 2 * n - 1), f, first);
    TreeMade(h, f, dads, t.elems, n, leaves, f0, forced, first, t.maxLength);
    LengthsSet(t, m, f0, forced, t.dl[..], b.blCount[..], t.maxCode);
  }

  /** build_tree without the codes. */
  method SetLengths(b: Builder, t: Tree) returns (ghost forced: seq<nat>, ghost m: MergeTree)
    requires b.Shape() && t.Shape() && b.Apart(t)
    modifies b, b.heap, b.depth, b.blCount, t.fc, t.dl, t`maxCode
    ensures t.fc[..] == m.weights
    ensures SizedTree(t.dl[..], b.blCount[..], t.elems, t.maxCode, t.maxLength)
    ensures forall x :: 0 <= x < t.elems && old(t.fc[x]) != 0 ==> t.dl[x] > 0
    ensures b.optLen == old(b.optLen) + BlockCost(old(t.fc[..]), Lengths(t), Lengths(t), t.Extras())
    ensures b.staticLen == old(b.staticLen)
                           + (if t.staticLens.Some? then BlockCost(old(t.fc[..]), Lengths(t), t.Statics(), t.Extras()) else 0)
    ensures Measured(m, old(t.fc[..]), t.elems, forced, t.maxLength, Lengths(t))
  {
    hide Built, BlockCost, SetOnes, SameSymbols, SameOutside, IsMaxCode, Used, SizedTree, Measured;
    ghost var f0 := t.fc[..];
    ghost var n, leaves;
    n, leaves, forced := b.BuildOrder(t);
    m := AssignLengths(b, t, f0, forced, b.heap[..], t.fc[..], n, leaves);
  }

  /** Setting the codes keeps the 16-bit entries. */
  lemma {:induction false} CodesNarrow(f: seq<nat>, f': seq<nat>, lens: seq<nat>)
    requires Narrow(f) && |f| == |f'| && CodeAssignment.CodesSet(f', lens) && |lens| <= |f| && Inflate.ValidLengths(lens)
    requires forall x :: 0 <= x < |f| && (x >= |lens| || lens[x] == 0) ==> f'[x] == f[x]
    ensures Narrow(f')
  {
    forall x | 0 <= x < |f'| ensures f'[x] < 65536 {
      if x < |lens| && lens[x] > 0 {
        assert CodeAssignment.CodeSet(f', lens, x);
        Pow2Monotone(lens[x], MAX_BITS);
        Pow2Table();
      } else {
        assert f'[x] == f[x];
      }
    }
  }

  /** build_tree. */
  method BuildTree(b: Builder, t: Tree) returns (ghost forced: seq<nat>, ghost m: MergeTree)
    requires b.Shape() && t.Shape() && b.Apart(t)
    modifies b, b.heap, b.depth, b.blCount, t.fc, t.dl, t`maxCode
    ensures CodedTree(t.fc[..], t.dl[..], t.elems, t.maxCode, t.maxLength)
    ensures forall x :: 0 <= x < t.elems && old(t.fc[x]) != 0 ==> t.dl[x] > 0
    ensures b.optLen == old(b.optLen) + BlockCost(old(t.fc[..]), Lengths(t), Lengths(t), t.Extras())
    ensures b.staticLen == old(b.staticLen)
                           + (if t.staticLens.Some? then BlockCost(old(t.fc[..]), Lengths(t), t.Statics(), t.Extras()) else 0)
    ensures Measured(m, old(t.fc[..]), t.elems, forced, t.maxLength, Lengths(t))
    ensures Narrow(old(t.fc[..])) && Total(old(t.fc[..]), t.elems) + 2 < 65536 ==> Narrow(m.weights) && Narrow(t.fc[..])
  {
    hide BlockCost, Counts, Optimal, Used, CodeAssignment.CodesSet, Inflate.Kraft, TreeOf, Measured, Narrow, Total;
    ghost var f0 := t.fc[..];
    forced, m := SetLengths(b, t);
    ghost var dl := t.dl[..];
    CodeAssignment.GenCodes(t.fc, t.dl, b.blCount, t.maxCode, dl[..t.maxCode + 1]);
    if Narrow(f0) && Total(f0, t.elems) + 2 < 65536 {
      MeasuredTree(m, f0, t.elems, forced, t.maxLength, Lengths(t));
      WeightsFit(m, f0, t.elems, forced, t.maxLength);
      CodesNarrow(m.weights, t.fc[..], dl[..t.maxCode + 1]);
    }
  }

  lemma {:induction false} TreeShape(m: MergeTree, f0: seq<nat>, elems: nat, forced: seq<nat>, limit: nat)
    requires TreeOf(m, f0, elems, forced, limit)
    ensures m.n >= 2 && elems <= |f0| && |m.first| >= elems + m.n - 1 && forall i :: 0 <= i < |forced| ==> forced[i] < |f0|
  {
  }

  lemma {:induction false} MeasuredTree(m: MergeTree, f0: seq<nat>, elems: nat, forced: seq<nat>, limit: nat, lens: seq<nat>)
    requires Measured(m, f0, elems, forced, limit, lens)
    ensures TreeOf(m, f0, elems, forced, limit)
  {
  }

  lemma {:induction false} WeightsFit(m: MergeTree, f0: seq<nat>, elems: nat, forced: seq<nat>, limit: nat)
    requires TreeOf(m, f0, elems, forced, limit) && Narrow(f0) && elems <= |f0| && Total(f0, elems) + 2 < 65536
    ensures Narrow(m.weights)
  {
    hide Depths, Merged, Narrow, Total;
    CountersFit(f0, elems, forced, m.rem, m.weights, m.n, m.leaves);
  }
}
