/**
 gen_bitlen: the first pass from the root down, the repair of the counts when lengths were
 clipped, and the reassignment of the lengths.
 */
module BitLengths {
  import opened Sums
  import opened MergeOrder
  import opened Huffman
  import opened Merging
  import opened LengthCounts
  import opened TreeBuilder

  // ----- what a block costs -----

  /** The charge per occurrence of each symbol that has a length: a number of bits, taken
      from base, plus its extra bits. */
  function WithExtra(lens: seq<nat>, base: seq<nat>, extra: seq<nat>): (c: seq<int>)
    requires |base| >= |lens| && |extra| >= |lens|
    ensures |c| == |lens|
  {
    seq(|lens|, x requires 0 <= x < |lens| => if lens[x] > 0 then base[x] + extra[x] else 0)
  }

  /** Frequency times charge over all symbols that have a length. */
  function BlockCost(f: seq<nat>, lens: seq<nat>, base: seq<nat>, extra: seq<nat>): int
    requires |f| >= |lens| && |base| >= |lens| && |extra| >= |lens|
  {
    Sum(Charges(f, WithExtra(lens, base, extra), |lens|))
  }

  /** A symbol gets its first length. */
  lemma {:induction false} CostStep(f: seq<nat>, lens: seq<nat>, extra: seq<nat>, stat: seq<nat>, x: nat, bits: nat)
    requires |f| >= |lens| && |extra| >= |lens| && |stat| >= |lens| && x < |lens| && lens[x] == 0 && bits > 0
    ensures BlockCost(f, lens[x := bits], lens[x := bits], extra) == BlockCost(f, lens, lens, extra) + f[x] * (bits + extra[x])
    ensures BlockCost(f, lens[x := bits], stat, extra) == BlockCost(f, lens, stat, extra) + f[x] * (stat[x] + extra[x])
  {
    var lens' := lens[x := bits];
    hide Charges;
    ChargesUpdate(f, WithExtra(lens, lens, extra), |lens|, x, f[x], bits + extra[x]);
    ChargesUpdate(f, WithExtra(lens, stat, extra), |lens|, x, f[x], stat[x] + extra[x]);
    assert WithExtra(lens', lens', extra) == WithExtra(lens, lens, extra)[x := bits + extra[x]];
    assert WithExtra(lens', stat, extra) == WithExtra(lens, stat, extra)[x := stat[x] + extra[x]];
  }

  lemma {:induction false} CostOfNothing(f: seq<nat>, lens: seq<nat>, base: seq<nat>, extra: seq<nat>)
    requires |f| >= |lens| && |base| >= |lens| && |extra| >= |lens|
    requires forall x :: 0 <= x < |lens| ==> lens[x] == 0
    ensures BlockCost(f, lens, base, extra) == 0
  {
    SumZero(Charges(f, WithExtra(lens, base, extra), |lens|));
  }

  // ----- the first pass -----

  /** How many nodes from position j of the removal order on were clipped. */
  function Over(dl: seq<nat>, elems: nat, j: nat, n: nat, limit: nat): nat
    requires n >= 2 && |dl| >= elems + n - 1
    decreases 2 * n - j
  {
    if j >= 2 * n - 2 then 0
    else (if dl[elems + j / 2] == limit then 1 else 0) + Over(dl, elems, j + 1, n, limit)
  }

  lemma {:induction false} OverIsTwiceClipped(dl: seq<nat>, elems: nat, k: nat, n: nat, limit: nat)
    requires n >= 2 && |dl| >= elems + n - 1 && k <= n - 1
    ensures Over(dl, elems, 2 * k, n, limit) == 2 * Clipped(dl, elems, k, n, limit)
    decreases n - k
  {
    if k < n - 1 {
      OverIsTwiceClipped(dl, elems, k + 1, n, limit);
      assert (2 * k) / 2 == k && (2 * k + 1) / 2 == k;
      assert Over(dl, elems, 2 * k, n, limit)
             == (if dl[elems + k] == limit then 1 else 0) + Over(dl, elems, 2 * k + 1, n, limit);
    }
  }

  lemma {:induction false} OverFrame(dl: seq<nat>, elems: nat, j: nat, n: nat, limit: nat, x: nat, v: nat)
    requires n >= 2 && |dl| >= elems + n - 1 && x < |dl|
    requires forall i :: j <= i < 2 * n - 2 ==> elems + i / 2 != x
    ensures Over(dl[x := v], elems, j, n, limit) == Over(dl, elems, j, n, limit)
    decreases 2 * n - j
  {
    if j < 2 * n - 2 {
      OverFrame(dl, elems, j + 1, n, limit, x, v);
    }
  }

  /** How many leaves stand from position j on. */
  function LeafCount(rem: seq<nat>, elems: nat, j: nat): nat
    decreases |rem| - j
  {
    if j >= |rem| then 0 else (if rem[j] < elems then 1 else 0) + LeafCount(rem, elems, j + 1)
  }

  /** Positions cur, cur + 1, ... have been visited (from the end): dl holds their lengths,
      and still the fathers of the others. */
  ghost predicate FirstPass(rem: seq<nat>, dl: seq<nat>, elems: nat, n: nat, limit: nat, cur: nat)
  {
    && n >= 2 && |rem| == 2 * n - 1 && cur <= 2 * n - 2 && |dl| >= elems + n - 1 && limit >= 1
    && (forall j :: 0 <= j < |rem| ==> rem[j] < |dl|)
    && (forall j :: 0 <= j < cur ==> dl[rem[j]] == elems + j / 2)
    && dl[elems + n - 2] == 0
    && (forall j :: cur <= j < 2 * n - 2 ==> dl[rem[j]] == Min(dl[elems + j / 2] + 1, limit))
    && (forall j :: cur <= j < |rem| ==> dl[rem[j]] <= limit)
  }

  /** lens holds the lengths of the visited leaves. */
  ghost predicate Collects(rem: seq<nat>, dl: seq<nat>, lens: seq<nat>, elems: nat, leaves: set<nat>, cur: nat)
  {
    && |lens| == elems && (forall j :: 0 <= j < |rem| ==> rem[j] < |dl|)
    && (forall j :: 0 <= j < cur <= |rem| && rem[j] < elems ==> lens[rem[j]] == 0)
    && (forall j :: cur <= j < |rem| && rem[j] < elems ==> lens[rem[j]] == dl[rem[j]])
    && elems <= |dl| && (forall x :: 0 <= x < elems && x !in leaves ==> lens[x] == 0 && dl[x] == 0)
  }

  lemma {:induction false} OnlyPlace(rem: seq<nat>, elems: nat, n: nat, leaves: set<nat>, c: nat)
    requires Ordered(rem, elems, n, leaves) && c < |rem|
    ensures forall j :: 0 <= j < |rem| && j != c ==> rem[j] != rem[c]
    ensures rem[c] < elems ==> rem[c] in leaves
  {
    forall j | 0 <= j < |rem| && j != c ensures rem[j] != rem[c] {
      if j < c {
        DistinctEntries(rem, elems, n, leaves, j, c);
      } else {
        DistinctEntries(rem, elems, n, leaves, c, j);
      }
    }
    Membership(rem, elems, n, leaves, rem[c]);
  }

  lemma {:induction false} CollectStep(rem: seq<nat>, dl: seq<nat>, lens: seq<nat>, elems: nat, n: nat, leaves: set<nat>, cur: nat, bits: nat)
    requires Ordered(rem, elems, n, leaves) && Collects(rem, dl, lens, elems, leaves, cur) && 0 < cur <= |rem|
    ensures var x := rem[cur - 1];
            && Collects(rem, dl[x := bits], if x < elems then lens[x := bits] else lens, elems, leaves, cur - 1)
            && (x < elems ==> lens[x] == 0)
  {
    OnlyPlace(rem, elems, n, leaves, cur - 1);
  }

  lemma {:induction false} FatherIsLater(rem: seq<nat>, elems: nat, n: nat, leaves: set<nat>, i: nat, j: nat)
    requires Ordered(rem, elems, n, leaves) && j <= i < 2 * n - 2
    ensures elems + i / 2 != rem[j]
    ensures elems + i / 2 < elems + n - 1
  {
    var q := PlaceOf(rem, elems, n, leaves, i / 2);
    DistinctEntries(rem, elems, n, leaves, j, q);
  }

  /** The father of the node at position j stands at a visited position. */
  lemma {:induction false} FatherVisited(rem: seq<nat>, dl: seq<nat>, elems: nat, n: nat, leaves: set<nat>, limit: nat, cur: nat)
    requires Ordered(rem, elems, n, leaves) && FirstPass(rem, dl, elems, n, limit, cur) && cur > 0
    ensures dl[rem[cur - 1]] == elems + (cur - 1) / 2 < elems + n - 1
    ensures dl[elems + (cur - 1) / 2] <= limit
  {
    var q := PlaceOf(rem, elems, n, leaves, (cur - 1) / 2);
  }

  lemma {:induction false} FirstPassStep(rem: seq<nat>, dl: seq<nat>, elems: nat, n: nat, leaves: set<nat>, limit: nat, cur: nat, bits: nat)
    requires Ordered(rem, elems, n, leaves) && FirstPass(rem, dl, elems, n, limit, cur) && cur > 0
    requires bits == Min(dl[elems + (cur - 1) / 2] + 1, limit)
    ensures var x := rem[cur - 1];
            && x < |dl|
            && FirstPass(rem, dl[x := bits], elems, n, limit, cur - 1)
            && Over(dl[x := bits], elems, cur - 1, n, limit)
               == Over(dl, elems, cur, n, limit) + (if dl[elems + (cur - 1) / 2] == limit then 1 else 0)
  {
    var c := cur - 1;
    var x := rem[c];
    OnlyPlace(rem, elems, n, leaves, c);
    forall i | c <= i < 2 * n - 2 ensures elems + i / 2 != x {
      FatherIsLater(rem, elems, n, leaves, i, c);
    }
    OverFrame(dl, elems, cur, n, limit, x, bits);
  }

  lemma {:induction false} LeafCountStep(rem: seq<nat>, elems: nat, j: nat)
    requires j < |rem|
    ensures LeafCount(rem, elems, j) == (if rem[j] < elems then 1 else 0) + LeafCount(rem, elems, j + 1)
  {
  }

  /** One leaf of the first pass: count its length and charge its occurrences. */
  method TallyLeaf(b: Builder, t: Tree, x: nat, bits: nat, ghost f: seq<nat>, ghost lens: seq<nat>, ghost bl: seq<nat>)
    requires b.Shape() && t.Shape() && b.Apart(t)
    requires b.blCount[..] == bl && t.fc[..] == f && |lens| == t.elems
    requires x < t.elems && lens[x] == 0 && 1 <= bits <= t.maxLength && Counts(bl, lens)
    modifies b`optLen, b`staticLen, b.blCount
    ensures b.blCount[..] == bl[bits := bl[bits] + 1] && Counts(bl[bits := bl[bits] + 1], lens[x := bits])
    ensures Sum(TotalTerms(b.blCount[..], t.maxLength)) == Sum(TotalTerms(bl, t.maxLength)) + 1
    ensures b.optLen - BlockCost(f, lens[x := bits], lens[x := bits], t.Extras()) == old(b.optLen) - BlockCost(f, lens, lens, t.Extras())
    ensures t.staticLens.None? ==> b.staticLen == old(b.staticLen)
    ensures t.staticLens.Some? ==> b.staticLen - BlockCost(f, lens[x := bits], t.Statics(), t.Extras())
                                   == old(b.staticLen) - BlockCost(f, lens, t.Statics(), t.Extras())
  {
    hide BlockCost, Counts, TotalTerms, CountTerms;
    CountsStep(bl, lens, x, bits);
    CountTermsUpdate(bl, t.maxLength, bits, bl[bits] + 1);
    CostStep(f, lens, t.Extras(), t.Statics(), x, bits);
    b.blCount[bits] := b.blCount[bits] + 1;
    var xbits := 0;
    if x >= t.extraBase {
      xbits := t.extraBits[x - t.extraBase];
    }
    assert xbits == t.Extras()[x];
    var freq := t.fc[x];
    b.optLen := b.optLen + freq * (bits + xbits);
    if t.staticLens.Some? {
      b.staticLen := b.staticLen + freq * (t.staticLens.value[x] + xbits);
    }
  }

  /** The state of the first pass in front of position cur. */
  ghost predicate PassState(rem: seq<nat>, dl: seq<nat>, lens: seq<nat>, bl: seq<nat>, elems: nat, n: nat, leaves: set<nat>,
                            limit: nat, cur: nat, overflow: nat)
  {
    && FirstPass(rem, dl, elems, n, limit, cur) && Collects(rem, dl, lens, elems, leaves, cur)
    && overflow == Over(dl, elems, cur, n, limit)
    && Counts(bl, lens) && Sum(TotalTerms(bl, limit)) == LeafCount(rem, elems, cur)
  }

  lemma {:induction false} PassStart(h: seq<nat>, f: seq<nat>, dl: seq<nat>, elems: nat, n: nat, leaves: set<nat>, limit: nat)
    requires Built(h, f, dl, elems, n, leaves) && limit >= 1
    ensures PassState(Removed(h, 2 * n - 1), dl[elems + n - 2 := 0], Inflate.Repeat(0, elems), Inflate.Repeat(0, MAX_BITS + 1),
                      elems, n, leaves, limit, 2 * n - 2, 0)
  {
    var rem, root, zeros := Removed(h, 2 * n - 1), elems + n - 2, Inflate.Repeat(0, elems);
    AllBelow(rem, elems, n, leaves);
    OnlyPlace(rem, elems, n, leaves, 2 * n - 2);
    var bl := Inflate.Repeat(0, MAX_BITS + 1);
    SumZero(TotalTerms(bl, limit));
    LeafCountStep(rem, elems, 2 * n - 2);
    forall b | 1 <= b <= MAX_BITS ensures bl[b] == Inflate.Count(zeros, b) {
      CountZeros(zeros, b);
    }
    assert Dads(Removed(h, 2 * n - 2), dl, elems);
    assert forall j :: 0 <= j < 2 * n - 2 ==> Removed(h, 2 * n - 2)[j] == rem[j];
  }

  lemma {:induction false} PassStep(rem: seq<nat>, dl: seq<nat>, lens: seq<nat>, bl: seq<nat>, elems: nat, n: nat, leaves: set<nat>,
                 limit: nat, cur: nat, overflow: nat, bits: nat, x: nat)
    requires Ordered(rem, elems, n, leaves) && PassState(rem, dl, lens, bl, elems, n, leaves, limit, cur, overflow)
    requires 0 < cur <= |rem| && x == rem[cur - 1] && elems + (cur - 1) / 2 < |dl| && x < |dl|
    requires bits == Min(dl[elems + (cur - 1) / 2] + 1, limit)
    ensures var clip := if dl[elems + (cur - 1) / 2] == limit then 1 else 0;
            && (x >= elems ==> PassState(rem, dl[x := bits], lens, bl, elems, n, leaves, limit, cur - 1, overflow + clip))
            && (x < elems ==>
                  && x < |lens| && lens[x] == 0
                  && forall bl' :: Counts(bl', lens[x := bits]) && Sum(TotalTerms(bl', limit)) == Sum(TotalTerms(bl, limit)) + 1
                       ==> PassState(rem, dl[x := bits], lens[x := bits], bl', elems, n, leaves, limit, cur - 1, overflow + clip))
  {
    hide Counts, TotalTerms, Ordered, FirstPass, Collects;
    FirstPassStep(rem, dl, elems, n, leaves, limit, cur, bits);
    CollectStep(rem, dl, lens, elems, n, leaves, cur, bits);
    LeafCountStep(rem, elems, cur - 1);
    CollectsShape(rem, dl, lens, elems, leaves, cur);
  }

  lemma {:induction false} CollectsShape(rem: seq<nat>, dl: seq<nat>, lens: seq<nat>, elems: nat, leaves: set<nat>, cur: nat)
    requires Collects(rem, dl, lens, elems, leaves, cur)
    ensures |lens| == elems
  {
  }

  lemma {:induction false} PassNode(rem: seq<nat>, dl: seq<nat>, lens: seq<nat>, bl: seq<nat>, elems: nat, n: nat, leaves: set<nat>,
                 limit: nat, cur: nat, overflow: nat)
    requires Ordered(rem, elems, n, leaves) && PassState(rem, dl, lens, bl, elems, n, leaves, limit, cur, overflow) && cur > 0
    ensures cur <= 2 * n - 2 < |rem| && rem[cur - 1] < |dl| && |lens| == elems && Counts(bl, lens)
    ensures dl[rem[cur - 1]] == elems + (cur - 1) / 2 < |dl| && dl[elems + (cur - 1) / 2] <= limit
    ensures rem[cur - 1] < elems ==> rem[cur - 1] in leaves
  {
    FatherVisited(rem, dl, elems, n, leaves, limit, cur);
    OnlyPlace(rem, elems, n, leaves, cur - 1);
  }

  method ClearCounts(b: Builder, t: Tree, ghost h: seq<nat>, ghost f: seq<nat>, ghost dl: seq<nat>)
    requires b.Shape() && b.Apart(t) && b.heap[..] == h && t.fc[..] == f && t.dl[..] == dl
    modifies b.blCount
    ensures b.blCount[..] == Inflate.Repeat(0, MAX_BITS + 1)
    ensures b.heap[..] == h && t.fc[..] == f && t.dl[..] == dl
  {
    for i := 0 to MAX_BITS + 1
      invariant forall c :: 0 <= c < i ==> b.blCount[c] == 0
    {
      b.blCount[i] := 0;
    }
  }

  /** One turn of the first pass: the node in heap[i] gets its length. */
  method VisitNode(b: Builder, t: Tree, i: nat, overflow0: nat, ghost h: seq<nat>, ghost f: seq<nat>, ghost dl: seq<nat>,
                   ghost bl: seq<nat>, ghost lens0: seq<nat>, ghost n: nat, ghost leaves: set<nat>)
    returns (overflow: nat, ghost lens: seq<nat>)
    requires b.Shape() && t.Shape() && b.Apart(t)
    requires b.heap[..] == h && t.fc[..] == f && t.dl[..] == dl && b.blCount[..] == bl
    requires HEAP_SIZE - (2 * n - 1) < i < HEAP_SIZE && 2 * n - 1 <= HEAP_SIZE && n >= 1 && IsMaxCode(t.maxCode, leaves)
    requires forall x :: x in leaves ==> x < t.elems
    requires Ordered(Removed(h, 2 * n - 1), t.elems, n, leaves) && |lens0| == t.elems
    requires PassState(Removed(h, 2 * n - 1), dl, lens0, bl, t.elems, n, leaves, t.maxLength, HEAP_SIZE - i, overflow0)
    modifies b`optLen, b`staticLen, b.blCount, t.dl
    ensures b.heap[..] == h && t.fc[..] == f && |lens| == t.elems
    ensures PassState(Removed(h, 2 * n - 1), t.dl[..], lens, b.blCount[..], t.elems, n, leaves, t.maxLength, HEAP_SIZE - i - 1, overflow)
    ensures b.optLen - BlockCost(f, lens, lens, t.Extras()) == old(b.optLen) - BlockCost(f, lens0, lens0, t.Extras())
    ensures t.staticLens.None? ==> b.staticLen == old(b.staticLen)
    ensures t.staticLens.Some? ==> b.staticLen - BlockCost(f, lens, t.Statics(), t.Extras())
                                   == old(b.staticLen) - BlockCost(f, lens0, t.Statics(), t.Extras())
  {
    hide BlockCost, Counts, TotalTerms, PassState, Ordered;
    ghost var rem, cur := Removed(h, 2 * n - 1), HEAP_SIZE - i;
    overflow, lens := overflow0, lens0;
    PassNode(rem, dl, lens, bl, t.elems, n, leaves, t.maxLength, cur, overflow);
    var x := b.heap[i];
    assert x == rem[cur - 1];
    var bits := t.dl[t.dl[x]] + 1;
    PassStep(rem, dl, lens, bl, t.elems, n, leaves, t.maxLength, cur, overflow, Min(bits, t.maxLength), x);
    if bits > t.maxLength {
      bits := t.maxLength;
      overflow := overflow + 1;
    }
    t.dl[x] := bits;
    if x > t.maxCode {
      return;
    }
    TallyLeaf(b, t, x, bits, f, lens, bl);
    lens := lens[x := bits];
    assert t.dl[..] == dl[x := bits];
  }

  /** The first pass of gen_bitlen: lengths from the root down, clipped at the limit. */
  method AssignDepths(b: Builder, t: Tree, ghost h: seq<nat>, ghost f: seq<nat>, ghost n: nat, ghost leaves: set<nat>)
    returns (overflow: nat, ghost lens: seq<nat>)
    requires b.Shape() && t.Shape() && b.Apart(t)
    requires b.heap[..] == h && t.fc[..] == f && Built(h, f, t.dl[..], t.elems, n, leaves)
    requires b.heapMax == HEAP_SIZE - (2 * n - 1) && IsMaxCode(t.maxCode, leaves)
    modifies b`optLen, b`staticLen, b.blCount, t.dl
    ensures b.heap[..] == h && t.fc[..] == f && |lens| == t.elems
    ensures PassState(Removed(h, 2 * n - 1), t.dl[..], lens, b.blCount[..], t.elems, n, leaves, t.maxLength, 0, overflow)
    ensures b.optLen == old(b.optLen) + BlockCost(f, lens, lens, t.Extras())
    ensures b.staticLen == old(b.staticLen) + (if t.staticLens.Some? then BlockCost(f, lens, t.Statics(), t.Extras()) else 0)
  {
    hide BlockCost, Counts, TotalTerms, PassState, Ordered, Greedy, Dads;
    ghost var rem := Removed(h, 2 * n - 1);
    PassStart(h, f, t.dl[..], t.elems, n, leaves, t.maxLength);
    BuiltShape(h, f, t.dl[..], t.elems, n, leaves);
    ghost var dl0 := t.dl[..];
    ClearCounts(b, t, h, f, dl0);
    t.dl[b.heap[b.heapMax]] := 0;
    assert t.dl[..] == dl0[t.elems + n - 2 := 0];
    lens := Inflate.Repeat(0, t.elems);
    CostOfNothing(f, lens, lens, t.Extras());
    CostOfNothing(f, lens, t.Statics(), t.Extras());
    overflow := 0;
    for i := b.heapMax + 1 to HEAP_SIZE
      invariant b.heap[..] == h && t.fc[..] == f && |lens| == t.elems
      invariant PassState(rem, t.dl[..], lens, b.blCount[..], t.elems, n, leaves, t.maxLength, HEAP_SIZE - i, overflow)
      invariant b.optLen == old(b.optLen) + BlockCost(f, lens, lens, t.Extras())
      invariant b.staticLen == old(b.staticLen) + (if t.staticLens.Some? then BlockCost(f, lens, t.Statics(), t.Extras()) else 0)
    {
      overflow, lens := VisitNode(b, t, i, overflow, h, f, t.dl[..], b.blCount[..], lens, n, leaves);
    }
  }

  lemma {:induction false} BuiltShape(h: seq<nat>, f: seq<nat>, dl: seq<nat>, elems: nat, n: nat, leaves: set<nat>)
    requires Built(h, f, dl, elems, n, leaves)
    ensures Ordered(Removed(h, 2 * n - 1), elems, n, leaves) && 2 <= n <= elems && Greedy(Removed(h, 2 * n - 1), f, elems, n)
    ensures h[|h| - (2 * n - 1)] == elems + n - 2 < |dl|
    ensures forall x :: x in leaves ==> x < elems
  {
    assert Removed(h, 2 * n - 1)[2 * n - 2] == h[|h| - (2 * n - 1)];
  }

  // ----- the repair loop -----

  /** Brings the counts back to a complete code; overflow is twice the excess. */
  method Repair(b: Builder, limit: nat, overflow0: nat, ghost n: nat, ghost e0: nat)
    requires b.Shape() && overflow0 == 2 * e0 && e0 > 0
    requires Excess(b.blCount[..], limit, n, e0) && n <= Pow2(limit)
    modifies b.blCount
    ensures Excess(b.blCount[..], limit, n, 0) && Repairs(old(b.blCount[..]), limit, e0, b.blCount[..])
  {
    hide Excess, Repairs;
    var overflow := overflow0;
    ghost var e, bl := e0, b.blCount[..];
    ghost var bl0 := bl;
    ExcessShape(bl, limit, n, e);
    while true
      invariant overflow == 2 * e && e > 0 && 2 <= limit <= MAX_BITS
      invariant b.blCount[..] == bl && Excess(bl, limit, n, e)
      invariant forall r :: Repairs(bl, limit, e, r) ==> Repairs(bl0, limit, e0, r)
      decreases e
    {
      ghost var some := ShorterExists(bl, limit, n, e);
      var bits := limit - 1;
      while b.blCount[bits] == 0
        invariant some <= bits < limit && forall c :: bits < c < limit ==> bl[c] == 0
        decreases bits
      {
        bits := bits - 1;
      }
      RepairStep(bl, limit, n, e, bits);
      b.blCount[bits] := b.blCount[bits] - 1;
      b.blCount[bits + 1] := b.blCount[bits + 1] + 2;
      b.blCount[limit] := b.blCount[limit] - 1;
      RepairsStep(bl, bits, limit, b.blCount[..], e);
      bl := b.blCount[..];
      overflow := overflow - 2;
      e := e - 1;
      if !(overflow > 0) {
        break;
      }
    }
    NoRepairs(bl, limit);
  }

  lemma {:induction false} ExcessShape(bl: seq<nat>, limit: nat, n: nat, e: nat)
    requires Excess(bl, limit, n, e)
    ensures |bl| == MAX_BITS + 1 && 2 <= limit <= MAX_BITS
  {
  }
}
