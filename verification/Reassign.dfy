/**
 The last loop of gen_bitlen: after a repair the lengths are handed out again, the longest
 to the nodes removed first.
 */
module Reassign {
  import opened Sums
  import opened MergeOrder
  import opened Merging
  import opened LengthCounts
  import opened TreeBuilder
  import opened BitLengths

  /** The codes still to be handed out below the current length. */
  function Pending(bl: seq<nat>, bits: nat): int
  {
    if bits == 0 then 0 else Sum(TotalTerms(bl, bits - 1))
  }

  lemma {:induction false} PendingStep(bl: seq<nat>, bits: nat)
    requires bits < |bl| && (bits == 0 ==> bl[0] == 0)
    ensures Sum(TotalTerms(bl, bits)) == Pending(bl, bits) + bl[bits]
  {
    if bits == 0 {
      SumZero(TotalTerms(bl, 0));
    } else {
      var t := TotalTerms(bl, bits - 1);
      SumUpdate(t, bits, bl[bits]);
      assert TotalTerms(bl, bits) == t[bits := bl[bits]];
    }
  }

  /** Positions 0 .. j - 1 have been visited; lens holds the new lengths of the leaves among
      them, which dl has too. */
  ghost predicate Handed(rem: seq<nat>, dl: seq<nat>, lens: seq<nat>, elems: nat, leaves: set<nat>, j: nat)
  {
    && |lens| == elems <= |dl| && j <= |rem|
    && (forall i :: 0 <= i < j && rem[i] < elems ==> lens[rem[i]] == dl[rem[i]])
    && (forall i :: j <= i < |rem| && rem[i] < elems ==> lens[rem[i]] == 0)
    && (forall x :: 0 <= x < elems && x !in leaves ==> lens[x] == 0 && dl[x] == 0)
    && (forall x :: 0 <= x < elems && x in leaves ==> dl[x] >= 1)
    && (forall x :: 0 <= x < elems ==> lens[x] <= MAX_BITS)
  }

  /** All codes longer than bits are handed out, and all but `left` of length bits. */
  ghost predicate HandedCounts(bl: seq<nat>, lens: seq<nat>, bits: nat, left: nat)
  {
    && |bl| == MAX_BITS + 1 && bits <= MAX_BITS && left <= bl[bits]
    && (forall c :: 1 <= c <= MAX_BITS ==>
          Inflate.Count(lens, c) == if c > bits then bl[c] else if c == bits then bl[c] - left else 0)
  }

  ghost predicate Handing(rem: seq<nat>, dl: seq<nat>, lens: seq<nat>, bl: seq<nat>, elems: nat, leaves: set<nat>, j: nat, bits: nat, left: nat)
  {
    && Handed(rem, dl, lens, elems, leaves, j)
    && HandedCounts(bl, lens, bits, left)
    && LeafCount(rem, elems, j) == Pending(bl, bits) + left
  }

  /** Along the removal order the lengths handed out so far fall, none below bits. */
  ghost predicate Falling(rem: seq<nat>, lens: seq<nat>, elems: nat, j: nat, bits: nat)
  {
    && |lens| == elems && j <= |rem|
    && (forall i :: 0 <= i < j && rem[i] < elems ==> lens[rem[i]] >= bits)
    && (forall i, k :: 0 <= i < k < j && rem[i] < elems && rem[k] < elems ==> lens[rem[i]] >= lens[rem[k]])
  }

  lemma {:induction false} FallingTake(rem: seq<nat>, lens: seq<nat>, elems: nat, n: nat, leaves: set<nat>, j: nat, bits: nat)
    requires Ordered(rem, elems, n, leaves) && Falling(rem, lens, elems, j, bits) && j < |rem| && rem[j] < elems
    ensures Falling(rem, lens[rem[j] := bits], elems, j + 1, bits)
  {
    OnlyPlace(rem, elems, n, leaves, j);
  }

  lemma {:induction false} FallingSkip(rem: seq<nat>, lens: seq<nat>, elems: nat, j: nat, bits: nat)
    requires Falling(rem, lens, elems, j, bits) && j < |rem| && rem[j] >= elems
    ensures Falling(rem, lens, elems, j + 1, bits)
  {
  }

  lemma {:induction false} FallingNext(rem: seq<nat>, lens: seq<nat>, elems: nat, j: nat, bits: nat)
    requires Falling(rem, lens, elems, j, bits) && bits >= 1
    ensures Falling(rem, lens, elems, j, bits - 1)
  {
  }

  lemma {:induction false} FallingStart(rem: seq<nat>, elems: nat, bits: nat)
    ensures Falling(rem, Inflate.Repeat(0, elems), elems, 0, bits)
  {
  }

  /** At the end all leaves have been visited. */
  lemma {:induction false} FallingEnd(rem: seq<nat>, dl: seq<nat>, lens: seq<nat>, bl: seq<nat>, elems: nat, leaves: set<nat>, j: nat)
    requires Falling(rem, lens, elems, j, 0) && Handing(rem, dl, lens, bl, elems, leaves, j, 0, 0)
    ensures Falling(rem, lens, elems, |rem|, 0)
  {
    LeafAhead(rem, elems, j);
  }

  lemma {:induction false} HandNext(rem: seq<nat>, dl: seq<nat>, lens: seq<nat>, bl: seq<nat>, elems: nat, leaves: set<nat>, j: nat, bits: nat)
    requires Handing(rem, dl, lens, bl, elems, leaves, j, bits, 0) && bits >= 1 && bl[0] == 0
    ensures Handing(rem, dl, lens, bl, elems, leaves, j, bits - 1, bl[bits - 1])
  {
    PendingStep(bl, bits - 1);
  }

  lemma {:induction false} LeafAhead(rem: seq<nat>, elems: nat, j: nat)
    ensures LeafCount(rem, elems, j) == 0 ==> forall i :: j <= i < |rem| ==> rem[i] >= elems
    decreases |rem| - j
  {
    if j < |rem| {
      LeafAhead(rem, elems, j + 1);
    }
  }

  lemma {:induction false} PendingIsNatural(bl: seq<nat>, bits: nat)
    ensures Pending(bl, bits) >= 0
  {
    if bits > 0 {
      var t := TotalTerms(bl, bits - 1);
      SumZero(seq(|t|, _ => 0));
      SumMonotone(seq(|t|, _ => 0), t);
    }
  }

  /** While codes are left, some node is left to take one. */
  lemma {:induction false} NodeAhead(rem: seq<nat>, dl: seq<nat>, lens: seq<nat>, bl: seq<nat>, elems: nat, leaves: set<nat>, j: nat, bits: nat, left: nat)
    requires Handing(rem, dl, lens, bl, elems, leaves, j, bits, left) && left > 0
    ensures j < |rem|
  {
    PendingIsNatural(bl, bits);
  }

  lemma {:induction false} HandSkip(rem: seq<nat>, dl: seq<nat>, lens: seq<nat>, bl: seq<nat>, elems: nat, leaves: set<nat>, j: nat, bits: nat, left: nat)
    requires Handing(rem, dl, lens, bl, elems, leaves, j, bits, left) && j < |rem| && rem[j] >= elems
    ensures Handing(rem, dl, lens, bl, elems, leaves, j + 1, bits, left)
  {
    LeafCountStep(rem, elems, j);
  }

  lemma {:induction false} HandTake(rem: seq<nat>, dl: seq<nat>, lens: seq<nat>, bl: seq<nat>, elems: nat, n: nat, leaves: set<nat>, j: nat, bits: nat, left: nat)
    requires Ordered(rem, elems, n, leaves)
    requires Handing(rem, dl, lens, bl, elems, leaves, j, bits, left) && j < |rem| && rem[j] < elems && left > 0 && bits >= 1
    ensures Handing(rem, dl[rem[j] := bits], lens[rem[j] := bits], bl, elems, leaves, j + 1, bits, left - 1)
  {
    OnlyPlace(rem, elems, n, leaves, j);
    LeafCountStep(rem, elems, j);
    var x := rem[j];
    var lens' := lens[x := bits];
    forall c | 1 <= c <= MAX_BITS
      ensures Inflate.Count(lens', c) == if c > bits then bl[c] else if c == bits then bl[c] - (left - 1) else 0
    {
      CountUpdate(lens, x, bits, c);
    }
  }

  lemma {:induction false} HandStart(rem: seq<nat>, dl: seq<nat>, bl: seq<nat>, elems: nat, leaves: set<nat>, limit: nat, n: nat)
    requires Excess(bl, limit, n, 0) && LeafCount(rem, elems, 0) == n && elems <= |dl|
    requires forall x :: 0 <= x < elems && x !in leaves ==> dl[x] == 0
    requires forall x :: 0 <= x < elems && x in leaves ==> dl[x] >= 1
    ensures Handing(rem, dl, Inflate.Repeat(0, elems), bl, elems, leaves, 0, limit, bl[limit])
  {
    var zeros := Inflate.Repeat(0, elems);
    forall c | 1 <= c <= MAX_BITS ensures Inflate.Count(zeros, c) == 0 {
      CountZeros(zeros, c);
    }
    PendingStep(bl, limit);
  }

  lemma {:induction false} HandEnd(rem: seq<nat>, dl: seq<nat>, lens: seq<nat>, bl: seq<nat>, elems: nat, n: nat, leaves: set<nat>, j: nat)
    requires Ordered(rem, elems, n, leaves)
    requires Handing(rem, dl, lens, bl, elems, leaves, j, 0, 0) && bl[0] == 0
    ensures lens == dl[..elems] && Counts(bl, dl[..elems])
    ensures forall x :: 0 <= x < elems ==> (if x in leaves then 1 <= dl[x] <= MAX_BITS else dl[x] == 0)
  {
    LeafAhead(rem, elems, j);
    forall x | 0 <= x < elems ensures lens[x] == dl[x] {
      if x in leaves {
        Membership(rem, elems, n, leaves, x);
      }
    }
  }

  /** Replacing a length changes the cost by frequency times the difference. */
  lemma {:induction false} CostChange(f: seq<nat>, lens: seq<nat>, extra: seq<nat>, x: nat, bits: nat)
    requires |f| >= |lens| && |extra| >= |lens| && x < |lens| && lens[x] > 0 && bits > 0
    ensures BlockCost(f, lens[x := bits], lens[x := bits], extra) == BlockCost(f, lens, lens, extra) + (bits - lens[x]) * f[x]
  {
    var lens' := lens[x := bits];
    hide Charges;
    ChargesUpdate(f, WithExtra(lens, lens, extra), |lens|, x, f[x], bits + extra[x]);
    assert WithExtra(lens', lens', extra) == WithExtra(lens, lens, extra)[x := bits + extra[x]];
    ChargeDifference(f[x], lens[x], bits, extra[x]);
  }

  lemma {:induction false} ChargeDifference(f: nat, old_: nat, bits: nat, x: nat)
    ensures f * (bits + x) - f * (old_ + x) == (bits - old_) * f
  {
  }

  /** Hands the codes of one length to the next leaves of the removal order. */
  method HandOut(b: Builder, t: Tree, h0: nat, bits: nat, ghost h: seq<nat>, ghost f: seq<nat>, ghost bl: seq<nat>, ghost n: nat,
                 ghost leaves: set<nat>, ghost lens0: seq<nat>)
    returns (i: nat, ghost lens: seq<nat>)
    requires b.Shape() && t.Shape() && b.Apart(t) && n >= 2 && 2 * n - 1 <= HEAP_SIZE
    requires b.heap[..] == h && t.fc[..] == f && b.blCount[..] == bl
    requires Ordered(Removed(h, 2 * n - 1), t.elems, n, leaves) && IsMaxCode(t.maxCode, leaves)
    requires forall x :: x in leaves ==> x < t.elems
    requires h0 <= HEAP_SIZE && 1 <= bits <= MAX_BITS
    requires Handing(Removed(h, 2 * n - 1), t.dl[..], lens0, bl, t.elems, leaves, HEAP_SIZE - h0, bits, bl[bits])
    requires Falling(Removed(h, 2 * n - 1), lens0, t.elems, HEAP_SIZE - h0, bits)
    modifies b`optLen, t.dl
    ensures b.heap[..] == h && t.fc[..] == f && b.blCount[..] == bl && i <= HEAP_SIZE
    ensures Handing(Removed(h, 2 * n - 1), t.dl[..], lens, bl, t.elems, leaves, HEAP_SIZE - i, bits, 0)
    ensures Falling(Removed(h, 2 * n - 1), lens, t.elems, HEAP_SIZE - i, bits)
    ensures b.optLen - BlockCost(f, t.dl[..t.elems], t.dl[..t.elems], t.Extras())
            == old(b.optLen) - BlockCost(f, old(t.dl[..t.elems]), old(t.dl[..t.elems]), t.Extras())
  {
    hide BlockCost, Handing, Falling, Ordered;
    ghost var rem := Removed(h, 2 * n - 1);
    i := h0;
    lens := lens0;
    ghost var start := b.optLen - BlockCost(f, t.dl[..t.elems], t.dl[..t.elems], t.Extras());
    var left := b.blCount[bits];
    while left != 0
      invariant b.heap[..] == h && t.fc[..] == f && b.blCount[..] == bl && i <= HEAP_SIZE && left >= 0
      invariant Handing(rem, t.dl[..], lens, bl, t.elems, leaves, HEAP_SIZE - i, bits, left)
      invariant Falling(rem, lens, t.elems, HEAP_SIZE - i, bits)
      invariant b.optLen - BlockCost(f, t.dl[..t.elems], t.dl[..t.elems], t.Extras()) == start
      decreases i
    {
      ghost var j, dl := HEAP_SIZE - i, t.dl[..];
      NodeAhead(rem, dl, lens, bl, t.elems, leaves, j, bits, left);
      i := i - 1;
      var m := b.heap[i];
      assert m == rem[j];
      OnlyPlace(rem, t.elems, n, leaves, j);
      if m > t.maxCode {
        HandSkip(rem, dl, lens, bl, t.elems, leaves, j, bits, left);
        FallingSkip(rem, lens, t.elems, j, bits);
        continue;
      }
      HandTake(rem, dl, lens, bl, t.elems, n, leaves, j, bits, left);
      FallingTake(rem, lens, t.elems, n, leaves, j, bits);
      HandedLength(rem, dl, lens, bl, t.elems, leaves, j, bits, left, m);
      CostChange(f, t.dl[..t.elems], t.Extras(), m, bits);
      if t.dl[m] != bits {
        b.optLen := b.optLen + (bits - t.dl[m]) * t.fc[m];
        t.dl[m] := bits;
      }
      assert t.dl[..] == dl[m := bits];
      assert t.dl[..t.elems] == dl[..t.elems][m := bits];
      lens := lens[m := bits];
      left := left - 1;
    }
  }

  lemma {:induction false} HandedLength(rem: seq<nat>, dl: seq<nat>, lens: seq<nat>, bl: seq<nat>, elems: nat, leaves: set<nat>, j: nat, bits: nat, left: nat, m: nat)
    requires Handing(rem, dl, lens, bl, elems, leaves, j, bits, left) && m in leaves && m < elems
    ensures dl[m] >= 1 && |lens| == elems
  {
  }
}
