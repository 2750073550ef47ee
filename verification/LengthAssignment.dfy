/**
 gen_bitlen as a whole: whatever the frequencies, the lengths it assigns are within the
 limit and form a complete code, and the block lengths account for them exactly.
 */
module LengthAssignment {
  import opened Sums
  import opened MergeOrder
  import opened Huffman
  import opened Merging
  import opened LengthCounts
  import opened TreeBuilder
  import opened BitLengths
  import opened Reassign

  /** Exactly the symbols in use have lengths, within the limit. */
  ghost predicate LengthsFor(lens: seq<nat>, leaves: set<nat>, limit: nat)
  {
    forall x :: 0 <= x < |lens| ==> if x in leaves then 1 <= lens[x] <= limit else lens[x] == 0
  }

  lemma {:induction false} DepthsDone(rem: seq<nat>, dl: seq<nat>, lens: seq<nat>, bl: seq<nat>, elems: nat, n: nat, leaves: set<nat>, limit: nat, overflow: nat)
    requires Ordered(rem, elems, n, leaves) && PassState(rem, dl, lens, bl, elems, n, leaves, limit, 0, overflow)
    ensures |dl| >= elems + n - 1 && Depths(rem, elems, n, dl, limit)
    ensures lens == dl[..elems] && LengthsFor(lens, leaves, limit) && |lens| == elems
    ensures overflow == 2 * Clipped(dl, elems, 0, n, limit)
  {
    forall x | 0 <= x < elems ensures lens[x] == dl[x] && if x in leaves then 1 <= lens[x] <= limit else lens[x] == 0 {
      if x in leaves {
        Membership(rem, elems, n, leaves, x);
        var j :| 0 <= j < |rem| && rem[j] == x;
      }
    }
    OverIsTwiceClipped(dl, elems, 0, n, limit);
  }

  /** After the first pass the counts exceed a complete code by the number of clipped nodes. */
  lemma {:induction false} DepthsExcess(rem: seq<nat>, dl: seq<nat>, lens: seq<nat>, bl: seq<nat>, elems: nat, n: nat, leaves: set<nat>, limit: nat)
    requires Ordered(rem, elems, n, leaves) && |dl| >= elems + n - 1 && Depths(rem, elems, n, dl, limit)
    requires lens == dl[..elems] && LengthsFor(lens, leaves, limit) && Counts(bl, lens)
    requires limit <= MAX_BITS
    ensures Sum(CountTerms(bl, limit)) == Pow2(limit) + Clipped(dl, elems, 0, n, limit)
    ensures Sum(LimitTerms(lens, limit)) == Sum(CountTerms(bl, limit))
  {
    var g := KraftTerms(dl, limit);
    KraftOfDepths(rem, elems, n, leaves, dl, limit, 0);
    LeafSum(rem, elems, n, leaves, g);
    assert LeafTerms(leaves, g, elems) == LimitTerms(lens, limit);
    KraftOfTable(lens, limit);
    CountsAreTable(bl, lens);
  }

  lemma {:induction false} ManyAtLimit(rem: seq<nat>, dl: seq<nat>, lens: seq<nat>, elems: nat, n: nat, leaves: set<nat>, limit: nat)
    requires Ordered(rem, elems, n, leaves) && |dl| >= elems + n - 1 && Depths(rem, elems, n, dl, limit)
    requires lens == dl[..elems] && LengthsFor(lens, leaves, limit)
    requires Clipped(dl, elems, 0, n, limit) > 0
    ensures Inflate.Count(lens, limit) >= Clipped(dl, elems, 0, n, limit) + 1
  {
    var g := AtLimit(dl, limit);
    LimitIsPopulated(rem, elems, n, leaves, dl, limit, 0);
    LeafSum(rem, elems, n, leaves, g);
    CountIsSum(lens, limit, LeafTerms(leaves, g, elems));
  }

  /** What the repair loop starts from. */
  lemma {:induction false} ClippedExcess(rem: seq<nat>, dl: seq<nat>, lens: seq<nat>, bl: seq<nat>, elems: nat, n: nat, leaves: set<nat>, limit: nat, m: nat)
    requires Ordered(rem, elems, n, leaves) && |dl| >= elems + n - 1 && Depths(rem, elems, n, dl, limit)
    requires lens == dl[..elems] && LengthsFor(lens, leaves, limit) && Counts(bl, lens)
    requires Clipped(dl, elems, 0, n, limit) > 0 && Sum(TotalTerms(bl, limit)) == m
    requires limit <= MAX_BITS && 3 <= elems <= Pow2(limit)
    ensures Excess(bl, limit, m, Clipped(dl, elems, 0, n, limit)) && m <= Pow2(limit)
  {
    DepthsExcess(rem, dl, lens, bl, elems, n, leaves, limit);
    ManyAtLimit(rem, dl, lens, elems, n, leaves, limit);
    TotalOfTable(lens, limit);
    CountsAreTable(bl, lens);
    forall c | limit < c <= MAX_BITS ensures bl[c] == 0 {
      CountNone(lens, c);
    }
    assert limit >= 2;
  }

  /** Counts without excess belong to a complete code within the limit. */
  lemma {:induction false} CompleteLengths(lens: seq<nat>, bl: seq<nat>, limit: nat, leaves: set<nat>)
    requires Counts(bl, lens) && limit <= MAX_BITS
    requires Sum(CountTerms(bl, limit)) == Pow2(limit) && forall c :: limit < c <= MAX_BITS ==> bl[c] == 0
    requires LengthsFor(lens, leaves, MAX_BITS)
    ensures LengthsFor(lens, leaves, limit) && Inflate.Kraft(lens) == Pow2(MAX_BITS)
  {
    forall x | 0 <= x < |lens| ensures lens[x] <= limit {
      CountMember(lens, x);
    }
    KraftOfTable(lens, limit);
    CountsAreTable(bl, lens);
    LimitKraftIsKraft(lens, limit);
    Pow2Add(limit, MAX_BITS - limit);
  }

  lemma {:induction false} PassCounts(rem: seq<nat>, dl: seq<nat>, lens: seq<nat>, bl: seq<nat>, elems: nat, n: nat, leaves: set<nat>, limit: nat, cur: nat, overflow: nat)
    requires PassState(rem, dl, lens, bl, elems, n, leaves, limit, cur, overflow)
    ensures Counts(bl, lens) && Sum(TotalTerms(bl, limit)) == LeafCount(rem, elems, cur)
  {
  }

  lemma {:induction false} LengthsBounded(lens: seq<nat>, leaves: set<nat>, limit: nat)
    requires LengthsFor(lens, leaves, limit)
    ensures forall x :: 0 <= x < |lens| ==> lens[x] <= limit
  {
  }

  lemma {:induction false} Unclipped(rem: seq<nat>, dl: seq<nat>, lens: seq<nat>, bl: seq<nat>, elems: nat, n: nat, leaves: set<nat>, limit: nat)
    requires Ordered(rem, elems, n, leaves) && |dl| >= elems + n - 1 && Depths(rem, elems, n, dl, limit)
    requires lens == dl[..elems] && LengthsFor(lens, leaves, limit) && Counts(bl, lens) && limit <= MAX_BITS
    requires Clipped(dl, elems, 0, n, limit) == 0
    ensures Inflate.Kraft(lens) == Pow2(MAX_BITS)
  {
    hide Ordered, Depths, LengthsFor, Counts, Clipped, Inflate.Kraft, LimitTerms, CountTerms, Sum, Pow2;
    LengthsBounded(lens, leaves, limit);
    DepthsExcess(rem, dl, lens, bl, elems, n, leaves, limit);
    LimitKraftIsKraft(lens, limit);
    Pow2Add(limit, MAX_BITS - limit);
  }

  lemma {:induction false} PairNeverClipped(rem: seq<nat>, dl: seq<nat>, elems: nat, n: nat, limit: nat)
    requires n >= 2 && |rem| == 2 * n - 1 && |dl| >= elems + n - 1 && Depths(rem, elems, n, dl, limit)
    ensures Clipped(dl, elems, 0, n, limit) > 0 ==> n > 2
  {
  }

  lemma {:induction false} SameCost(f: seq<nat>, lens: seq<nat>, lens': seq<nat>, base: seq<nat>, extra: seq<nat>, leaves: set<nat>, limit: nat)
    requires |lens| == |lens'| && LengthsFor(lens, leaves, limit) && LengthsFor(lens', leaves, limit)
    requires |f| >= |lens| && |base| >= |lens| && |extra| >= |lens|
    ensures BlockCost(f, lens, base, extra) == BlockCost(f, lens', base, extra)
  {
    assert WithExtra(lens, base, extra) == WithExtra(lens', base, extra);
  }

  /** The lengths in symbol order. */
  ghost function Lengths(t: Tree): seq<nat>
    requires t.elems <= t.dl.Length
    reads t.dl
  {
    t.dl[..t.elems]
  }

  lemma {:induction false} HandBegin(rem: seq<nat>, dl: seq<nat>, bl: seq<nat>, elems: nat, leaves: set<nat>, limit: nat, m: nat)
    requires Excess(bl, limit, m, 0) && LeafCount(rem, elems, 0) == m && elems <= |dl|
    requires LengthsFor(dl[..elems], leaves, limit)
    ensures |bl| == MAX_BITS + 1 && bl[0] == 0
    ensures Handing(rem, dl, Inflate.Repeat(0, elems), bl, elems, leaves, 0, limit, bl[limit])
  {
    assert forall x :: 0 <= x < elems ==> dl[..elems][x] == dl[x];
    HandStart(rem, dl, bl, elems, leaves, limit, m);
  }

  /** Repairs the counts and hands the lengths out again. */
  method FixOverflow(b: Builder, t: Tree, overflow: nat, ghost h: seq<nat>, ghost f: seq<nat>, ghost n: nat, ghost leaves: set<nat>, ghost e: nat)
    requires b.Shape() && t.Shape() && b.Apart(t) && n >= 2 && 2 * n - 1 <= HEAP_SIZE
    requires b.heap[..] == h && t.fc[..] == f && Ordered(Removed(h, 2 * n - 1), t.elems, n, leaves) && IsMaxCode(t.maxCode, leaves)
    requires overflow == 2 * e && e > 0
    requires Excess(b.blCount[..], t.maxLength, LeafCount(Removed(h, 2 * n - 1), t.elems, 0), e)
    requires LeafCount(Removed(h, 2 * n - 1), t.elems, 0) <= Pow2(t.maxLength)
    requires LengthsFor(Lengths(t), leaves, t.maxLength) && forall x :: x in leaves ==> x < t.elems
    modifies b`optLen, b.blCount, t.dl
    ensures b.heap[..] == h && t.fc[..] == f
    ensures LengthsFor(Lengths(t), leaves, t.maxLength) && Counts(b.blCount[..], Lengths(t))
    ensures Inflate.Kraft(Lengths(t)) == Pow2(MAX_BITS) && t.maxLength in Lengths(t)
    ensures Repairs(old(b.blCount[..]), t.maxLength, e, b.blCount[..])
    ensures Falling(Removed(h, 2 * n - 1), Lengths(t), t.elems, 2 * n - 1, 0)
    ensures b.optLen - BlockCost(f, Lengths(t), Lengths(t), t.Extras())
            == old(b.optLen) - BlockCost(f, old(Lengths(t)), old(Lengths(t)), t.Extras())
  {
    hide BlockCost, Handing, Falling, Repairs, Ordered, Excess, LengthsFor, LeafCount, Removed, Counts, Inflate.Kraft, IsMaxCode;
    ghost var rem := Removed(h, 2 * n - 1);
    ghost var m := LeafCount(rem, t.elems, 0);
    ghost var dl0 := t.dl[..];
    ghost var start := b.optLen - BlockCost(f, Lengths(t), Lengths(t), t.Extras());
    Repair(b, t.maxLength, overflow, m, e);
    ghost var bl := b.blCount[..];
    assert b.heap[..] == h && t.fc[..] == f && t.dl[..] == dl0;
    HandBegin(rem, dl0, bl, t.elems, leaves, t.maxLength, m);
    ghost var lens := Inflate.Repeat(0, t.elems);
    FallingStart(rem, t.elems, t.maxLength);
    var i := HEAP_SIZE;
    var bits := t.maxLength;
    while bits != 0
      invariant b.heap[..] == h && t.fc[..] == f && b.blCount[..] == bl && 0 <= i <= HEAP_SIZE && 0 <= bits <= t.maxLength
      invariant Handing(rem, t.dl[..], lens, bl, t.elems, leaves, HEAP_SIZE - i, bits, bl[bits])
      invariant Falling(rem, lens, t.elems, HEAP_SIZE - i, bits)
      invariant b.optLen - BlockCost(f, Lengths(t), Lengths(t), t.Extras()) == start
      decreases bits
    {
      i, lens := HandOut(b, t, i, bits, h, f, bl, n, leaves, lens);
      HandNext(rem, t.dl[..], lens, bl, t.elems, leaves, HEAP_SIZE - i, bits);
      FallingNext(rem, lens, t.elems, HEAP_SIZE - i, bits);
      bits := bits - 1;
    }
    FallingEnd(rem, t.dl[..], lens, bl, t.elems, leaves, HEAP_SIZE - i);
    HandEnd(rem, t.dl[..], lens, bl, t.elems, n, leaves, HEAP_SIZE - i);
    FixedLengths(Lengths(t), bl, t.maxLength, leaves, m);
  }

  lemma {:induction false} FixedLengths(lens: seq<nat>, bl: seq<nat>, limit: nat, leaves: set<nat>, m: nat)
    requires Excess(bl, limit, m, 0) && Counts(bl, lens)
    requires forall x :: 0 <= x < |lens| ==> (if x in leaves then 1 <= lens[x] <= MAX_BITS else lens[x] == 0)
    ensures LengthsFor(lens, leaves, limit) && Inflate.Kraft(lens) == Pow2(MAX_BITS) && limit in lens
  {
    CompleteLengths(lens, bl, limit, leaves);
    var x := CountPositive(lens, limit);
  }

  /** After the first pass: a complete code, or something to repair. */
  lemma {:induction false} FirstPassDone(rem: seq<nat>, dl: seq<nat>, lens: seq<nat>, bl: seq<nat>, elems: nat, n: nat, leaves: set<nat>, limit: nat, overflow: nat)
    requires n >= 2 && |rem| == 2 * n - 1 && Ordered(rem, elems, n, leaves) && PassState(rem, dl, lens, bl, elems, n, leaves, limit, 0, overflow)
    requires limit <= MAX_BITS && 3 <= elems <= Pow2(limit)
    ensures |dl| >= elems + n - 1 && Depths(rem, elems, n, dl, limit)
    ensures lens == dl[..elems] && |lens| == elems && LengthsFor(lens, leaves, limit) && Counts(bl, lens)
    ensures overflow == 2 * Clipped(dl, elems, 0, n, limit)
    ensures overflow == 0 ==> Inflate.Kraft(lens) == Pow2(MAX_BITS)
    ensures overflow != 0 ==> && n > 2 && Excess(bl, limit, LeafCount(rem, elems, 0), Clipped(dl, elems, 0, n, limit))
                              && LeafCount(rem, elems, 0) <= Pow2(limit)
  {
    hide PassState, Ordered, Excess, LengthsFor, Depths, Counts, Clipped, Inflate.Kraft, LeafCount;
    DepthsDone(rem, dl, lens, bl, elems, n, leaves, limit, overflow);
    PassCounts(rem, dl, lens, bl, elems, n, leaves, limit, 0, overflow);
    if overflow == 0 {
      Unclipped(rem, dl, lens, bl, elems, n, leaves, limit);
    } else {
      ClippedExcess(rem, dl, lens, bl, elems, n, leaves, limit, LeafCount(rem, elems, 0));
      PairNeverClipped(rem, dl, elems, n, limit);
    }
  }

  /** What becomes of the lengths of the first pass if some were clipped: their counts are
      repaired, moving the longest code below the limit each time, and the new lengths fall along
      the order in which the leaves were removed from the heap. This determines them. */
  ghost predicate Shortened(rem: seq<nat>, first: seq<nat>, elems: nat, n: nat, limit: nat, lens: seq<nat>)
    requires n >= 1 && |first| >= elems + n - 1
  {
    && Falling(rem, lens, elems, |rem|, 0)
    && exists bl, bl' :: Counts(bl, first[..elems]) && Repairs(bl, limit, Clipped(first, elems, 0, n, limit), bl') && Counts(bl', lens)
  }

  /** gen_bitlen. The lengths of exactly the symbols in use are set, within the limit and
      with Kraft sum one; bl_count counts them; the block lengths grow by frequency times
      length plus extra bits. Unless lengths were clipped in the first pass, they are the depths in the tree. */
  method GenBitlen(b: Builder, t: Tree, ghost h: seq<nat>, ghost f: seq<nat>, ghost n: nat, ghost leaves: set<nat>)
    returns (ghost first: seq<nat>)
    requires b.Shape() && t.Shape() && b.Apart(t)
    requires b.heap[..] == h && t.fc[..] == f && Built(h, f, t.dl[..], t.elems, n, leaves)
    requires b.heapMax == HEAP_SIZE - (2 * n - 1) && IsMaxCode(t.maxCode, leaves)
    modifies b`optLen, b`staticLen, b.blCount, t.dl
    ensures b.heap[..] == h && t.fc[..] == f
    ensures LengthsFor(Lengths(t), leaves, t.maxLength) && Counts(b.blCount[..], Lengths(t))
    ensures Inflate.Kraft(Lengths(t)) == Pow2(MAX_BITS)
    ensures b.optLen == old(b.optLen) + BlockCost(f, Lengths(t), Lengths(t), t.Extras())
    ensures b.staticLen == old(b.staticLen)
                           + (if t.staticLens.Some? then BlockCost(f, Lengths(t), t.Statics(), t.Extras()) else 0)
    ensures n >= 2 && |first| == t.dl.Length >= t.elems + n - 1 && Depths(Removed(h, 2 * n - 1), t.elems, n, first, t.maxLength)
    ensures Clipped(first, t.elems, 0, n, t.maxLength) == 0 ==> t.dl[..] == first
    ensures Clipped(first, t.elems, 0, n, t.maxLength) > 0 ==> n > 2 && t.maxLength in Lengths(t)
    ensures Clipped(first, t.elems, 0, n, t.maxLength) > 0 ==> Shortened(Removed(h, 2 * n - 1), first, t.elems, n, t.maxLength, Lengths(t))
  {
    hide BlockCost, PassState, Falling, Repairs, Ordered, Excess, LengthsFor, Depths, Counts, Greedy, Clipped, Removed, Inflate.Kraft, LeafCount, IsMaxCode, Built, Pow2, Tree.Extras;
    var overflow;
    ghost var lens;
    BuiltShape(h, f, t.dl[..], t.elems, n, leaves);
    overflow, lens := AssignDepths(b, t, h, f, n, leaves);
    ghost var rem, dl, bl := Removed(h, 2 * n - 1), t.dl[..], b.blCount[..];
    FirstPassDone(rem, dl, lens, bl, t.elems, n, leaves, t.maxLength, overflow);
    first := dl;
    if overflow == 0 {
      return;
    }
    ghost var e := Clipped(dl, t.elems, 0, n, t.maxLength);
    assert Counts(bl, first[..t.elems]);
    FixOverflow(b, t, overflow, h, f, n, leaves, e);
    SameCost(f, lens, Lengths(t), t.Statics(), t.Extras(), leaves, t.maxLength);
    assert Repairs(bl, t.maxLength, e, b.blCount[..]) && Counts(b.blCount[..], Lengths(t));
  }
}
