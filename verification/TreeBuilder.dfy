/**
 build_tree up to the bit lengths: the two initial loops, the forced codes, the heap and
 the merge loop. The unions of ct_data are kept as they are: fc holds a frequency and
 later the code, dl holds the father and later the length.
 */
module TreeBuilder {
  import opened Sums
  import opened Heap
  import opened Merging

  const L_CODES := 286
  const HEAP_SIZE := 2 * L_CODES + 1
  const SMALLEST := 1

  /** The symbols below n that occur. */
  function Used(f: seq<nat>, n: nat): (s: set<nat>)
    requires n <= |f|
    ensures forall x :: x in s <==> 0 <= x < n && f[x] != 0
  {
    if n == 0 then {} else Used(f, n - 1) + (if f[n - 1] != 0 then {n - 1} else {})
  }

  /** maxCode is the largest symbol in use, -1 when there is none. */
  ghost predicate IsMaxCode(maxCode: int, used: set<nat>)
  {
    && (forall x :: x in used ==> x <= maxCode)
    && (maxCode >= 0 ==> maxCode in used)
    && maxCode >= -1
  }

  /** The queue holds the symbols below n that occur, each once. */
  ghost predicate Collected(h: seq<nat>, len: nat, f: seq<nat>, n: nat, maxCode: int)
  {
    && len < |h| && n <= |f|
    && multiset(Region(h, len)) == multiset(Used(f, n))
    && |Used(f, n)| == len <= n
    && IsMaxCode(maxCode, Used(f, n))
  }

  lemma {:induction false} CollectNone(h: seq<nat>, f: seq<nat>)
    requires |h| > 0
    ensures Collected(h, 0, f, 0, -1)
  {
  }

  lemma {:induction false} CollectNext(h: seq<nat>, len: nat, f: seq<nat>, n: nat, maxCode: int)
    requires Collected(h, len, f, n, maxCode) && n < |f| && len + 1 < |h|
    ensures f[n] == 0 ==> Collected(h, len, f, n + 1, maxCode)
    ensures f[n] != 0 ==> Collected(h[len + 1 := n], len + 1, f, n + 1, n)
  {
    if f[n] == 0 {
      assert Used(f, n + 1) == Used(f, n);
    } else {
      var h' := h[len + 1 := n];
      assert Region(h', len + 1) == Region(h, len) + [n];
      assert n !in Used(f, n);
    }
  }

  /** The symbol that build_tree forces when fewer than two occur. */
  function ForcedSymbol(maxCode: int): nat
    requires maxCode >= -1
  {
    if maxCode < 2 then maxCode + 1 else 0
  }

  lemma {:induction false} ForceNext(h: seq<nat>, len: nat, f: seq<nat>, n: nat, maxCode: int)
    requires Collected(h, len, f, n, maxCode) && len < 2 < n && len + 1 < |h|
    ensures maxCode >= -1
    ensures var sym := ForcedSymbol(maxCode);
            && sym < 3 && f[sym] == 0
            && Collected(h[len + 1 := sym], len + 1, f[sym := 1], n, if maxCode < 2 then sym else maxCode)
  {
    var used, sym := Used(f, n), ForcedSymbol(maxCode);
    ForcedIsUnused(used, maxCode);
    CollectedGrows(h, len, f, n, maxCode, sym, f[sym := 1], if maxCode < 2 then sym else maxCode);
  }

  lemma {:induction false} CollectedGrows(h: seq<nat>, len: nat, f: seq<nat>, n: nat, maxCode: int, sym: nat, f': seq<nat>, maxCode': int)
    requires Collected(h, len, f, n, maxCode) && len + 1 < |h| && len < n && sym < n && sym !in Used(f, n) && f' == f[sym := 1]
    requires IsMaxCode(maxCode', Used(f, n) + {sym})
    ensures Collected(h[len + 1 := sym], len + 1, f', n, maxCode')
  {
    hide Used, IsMaxCode;
    UsedAfterForcing(f, n, sym);
    assert Region(h[len + 1 := sym], len + 1) == Region(h, len) + [sym];
    hide Region;
    OneMore(Region(h, len), Used(f, n), sym);
  }

  lemma {:induction false} OneMore(r: seq<nat>, used: set<nat>, x: nat)
    requires multiset(r) == multiset(used) && x !in used
    ensures multiset(r + [x]) == multiset(used + {x}) && |used + {x}| == |used| + 1
  {
    assert multiset(r + [x]) == multiset(r) + multiset{x};
  }

  lemma {:induction false} ForcedIsUnused(used: set<nat>, maxCode: int)
    requires IsMaxCode(maxCode, used) && |used| < 2
    ensures ForcedSymbol(maxCode) !in used
  {
    if maxCode >= 2 {
      assert |used - {maxCode}| == 0;
      assert used == {maxCode};
    }
  }

  lemma {:induction false} UsedAfterForcing(f: seq<nat>, n: nat, sym: nat)
    requires sym < n <= |f|
    ensures Used(f[sym := 1], n) == Used(f, n) + {sym}
  {
  }

  /** The symbols forced so far and the largest symbol in use after them. */
  ghost predicate ForcedSoFar(maxCode0: int, forced: seq<nat>, maxCode: int)
    requires maxCode0 >= -1
  {
    || (forced == [] && maxCode == maxCode0)
    || (forced == [ForcedSymbol(maxCode0)] && maxCode == if maxCode0 < 2 then maxCode0 + 1 else maxCode0)
    || (forced == [0, 1] && maxCode0 == -1)
  }

  /** With no symbol in use 0 and 1 are forced, with one symbol in use one more. */
  lemma {:induction false} ForcedSoFarStep(h: seq<nat>, len: nat, f: seq<nat>, n: nat, maxCode0: int, forced: seq<nat>, maxCode: int)
    requires Collected(h, len, f, n, maxCode0) && maxCode0 >= -1 && maxCode >= -1 && ForcedSoFar(maxCode0, forced, maxCode) && len + |forced| < 2
    ensures ForcedSoFar(maxCode0, forced + [ForcedSymbol(maxCode)], if maxCode < 2 then ForcedSymbol(maxCode) else maxCode)
  {
    if |forced| == 1 {
      assert Used(f, n) == {};
    }
  }

  /** The third symbol is forced exactly when the second is the only one in use. */
  lemma {:induction false} ThirdIsForced(h: seq<nat>, len: nat, f: seq<nat>, n: nat, maxCode0: int, forced: seq<nat>, maxCode: int)
    requires Collected(h, len, f, n, maxCode0) && maxCode0 >= -1 && ForcedSoFar(maxCode0, forced, maxCode)
    requires len + |forced| >= 2 && (forced != [] ==> len + |forced| == 2)
    ensures 2 in forced <==> Used(f, n) == {1}
  {
    var used := Used(f, n);
    if len == 1 {
      assert |used - {maxCode0}| == 0;
      assert used == {maxCode0};
    } else if len == 0 {
      assert used == {};
    }
  }

  /** One such table: only symbol 1 occurs, and symbol 2 is forced. */
  lemma {:induction false} ThirdForcedInstance(h: seq<nat>, maxCode: int, forced: seq<nat>, maxCode': int)
    requires maxCode >= -1 && Collected(h, 1, [0, 7, 0, 0], 4, maxCode) && |forced| == 1 && ForcedSoFar(maxCode, forced, maxCode')
    ensures forced == [2]
  {
    ThirdIsForced(h, 1, [0, 7, 0, 0], 4, maxCode, forced, maxCode');
    assert Used([0, 7, 0, 0], 4) == {1};
  }

  /** The frequencies with the forced symbols set to one. */
  function SetOnes(f: seq<nat>, forced: seq<nat>): (r: seq<nat>)
    requires forall i :: 0 <= i < |forced| ==> forced[i] < |f|
    ensures |r| == |f|
  {
    if forced == [] then f else SetOnes(f, forced[..|forced| - 1])[forced[|forced| - 1] := 1]
  }

  /** Some symbols that did not occur are forced, each once. */
  ghost predicate Forced(f: seq<nat>, forced: seq<nat>)
  {
    forall i :: 0 <= i < |forced| ==> forced[i] < 3 && forced[i] < |f| && SetOnesBefore(f, forced, i) == 0
  }

  ghost function SetOnesBefore(f: seq<nat>, forced: seq<nat>, i: nat): nat
    requires i < |forced|
  {
    if forall k :: 0 <= k <= i ==> forced[k] < |f| then SetOnes(f, forced[..i])[forced[i]] else 1
  }

  lemma {:induction false} ForceStep(f: seq<nat>, forced: seq<nat>, sym: nat)
    requires Forced(f, forced) && sym < 3 && sym < |f| && SetOnes(f, forced)[sym] == 0
    ensures Forced(f, forced + [sym]) && ForcedInRange(f, forced + [sym]) && SetOnes(f, forced + [sym]) == SetOnes(f, forced)[sym := 1]
  {
    var g: seq<nat> := forced + [sym];
    assert g[..|forced|] == forced;
    forall i | 0 <= i < |g| ensures g[i] < 3 && g[i] < |f| && SetOnesBefore(f, g, i) == 0 {
      assert g[..i] == forced[..i];
      if i < |forced| {
        assert forced[i] < |f| && SetOnesBefore(f, forced, i) == 0;
      }
    }
  }

  /** The forced symbols are among the first three. */
  ghost predicate ForcedInRange(f: seq<nat>, forced: seq<nat>)
  {
    forall i :: 0 <= i < |forced| ==> forced[i] < 3 && forced[i] < |f|
  }

  lemma {:induction false} ForcedNothing(maxCode: int)
    requires maxCode >= -1
    ensures ForcedSoFar(maxCode, [], maxCode)
  {
  }

  lemma {:induction false} CollectedMax(h: seq<nat>, len: nat, f: seq<nat>, n: nat, maxCode: int)
    requires Collected(h, len, f, n, maxCode)
    ensures maxCode >= -1
  {
  }

  lemma {:induction false} ForceNone(f: seq<nat>)
    ensures Forced(f, []) && SetOnes(f, []) == f
  {
  }

  /** What c charges for the forced symbols. */
  function ForcedCharge(c: seq<int>, forced: seq<nat>): int
    requires forall i :: 0 <= i < |forced| ==> forced[i] < |c|
  {
    if forced == [] then 0 else ForcedCharge(c, forced[..|forced| - 1]) + c[forced[|forced| - 1]]
  }

  lemma {:induction false} ChargeStep(c: seq<int>, forced: seq<nat>, sym: nat)
    requires (forall i :: 0 <= i < |forced| ==> forced[i] < |c|) && sym < |c|
    ensures ForcedCharge(c, forced + [sym]) == ForcedCharge(c, forced) + c[sym]
  {
    assert (forced + [sym])[..|forced|] == forced;
  }

  /** Frequency times charge over the first n symbols. */
  function Charges(f: seq<nat>, c: seq<int>, n: nat): (t: seq<int>)
    requires n <= |f| && n <= |c|
    ensures |t| == n
  {
    seq(n, x requires 0 <= x < n => f[x] * c[x])
  }

  /** Forcing symbols adds exactly what the charges say. */
  lemma {:induction false} ForcedAdds(f: seq<nat>, forced: seq<nat>, c: seq<int>, n: nat)
    requires 3 <= n <= |f| && n <= |c| && Forced(f, forced)
    ensures Sum(Charges(SetOnes(f, forced), c, n)) == Sum(Charges(f, c, n)) + ForcedCharge(c, forced)
  {
    hide Charges;
    if forced != [] {
      var init, sym := forced[..|forced| - 1], forced[|forced| - 1];
      assert SetOnesBefore(f, forced, |init|) == 0;
      assert Forced(f, init) by {
        forall i | 0 <= i < |init| ensures init[i] < 3 && init[i] < |f| && SetOnesBefore(f, init, i) == 0 {
          assert init[..i] == forced[..i];
          assert SetOnesBefore(f, forced, i) == 0;
        }
      }
      ForcedAdds(f, init, c, n);
      var g := SetOnes(f, init);
      assert g[sym] == 0;
      ChargesUpdate(g, c, n, sym, 1, c[sym]);
    }
  }

  /** One symbol gets another frequency or another charge. */
  lemma {:induction false} ChargesUpdate(f: seq<nat>, c: seq<int>, n: nat, x: nat, v: nat, w: int)
    requires x < n <= |f| && n <= |c|
    ensures Sum(Charges(f[x := v], c[x := w], n)) == Sum(Charges(f, c, n)) - f[x] * c[x] + v * w
    ensures v == f[x] ==> f[x := v] == f
    ensures w == c[x] ==> c[x := w] == c
  {
    SumUpdate(Charges(f, c, n), x, v * w);
    assert Charges(f[x := v], c[x := w], n) == Charges(f, c, n)[x := v * w];
  }

  lemma {:induction false} LeavesAreHeaps(h: seq<nat>, len: nat, f: seq<nat>, d: seq<nat>)
    requires Nodes(h, len, f, d)
    ensures HeapFrom(h, len, f, d, len / 2 + 1)
  {
  }

  /** The entries of the symbols outside s are the same. */
  ghost predicate SameSymbols(a: seq<nat>, b: seq<nat>, elems: nat, s: set<nat>)
  {
    |a| == |b| && elems <= |a| && forall x :: 0 <= x < elems && x !in s ==> a[x] == b[x]
  }

  /** The entries outside lo .. hi - 1 are the same. */
  ghost predicate SameOutside(a: seq<nat>, b: seq<nat>, lo: nat, hi: nat)
  {
    |a| == |b| && forall x :: 0 <= x < |a| && !(lo <= x < hi) ==> a[x] == b[x]
  }

  lemma {:induction false} OutsideGrows(a: seq<nat>, b: seq<nat>, c: seq<nat>, lo: nat, hi: nat)
    requires SameOutside(a, b, lo, hi) && SameOutside(b, c, hi, hi + 1) && lo <= hi
    ensures SameOutside(a, c, lo, hi + 1)
  {
  }

  lemma {:induction false} OutsideNothing(a: seq<nat>, lo: nat)
    ensures SameOutside(a, a, lo, lo)
  {
  }

  lemma {:induction false} OutsideOne(f: seq<nat>, node: nat, w: nat)
    requires node < |f|
    ensures SameOutside(f, f[node := w], node, node + 1)
  {
  }

  lemma {:induction false} SymbolsKept(f: seq<nat>, dl: seq<nat>, elems: nat, leaves: set<nat>, x: nat, y: nat, node: nat, w: nat)
    requires elems <= node < |f| == |dl| && x < |dl| && y < |dl|
    requires (x in leaves || x >= elems) && (y in leaves || y >= elems)
    ensures SameSymbols(f, f[node := w], elems, {})
    ensures SameSymbols(dl, dl[x := node][y := node], elems, leaves)
  {
  }

  lemma {:induction false} SameSelf(a: seq<nat>, elems: nat, s: set<nat>)
    requires elems <= |a|
    ensures SameSymbols(a, a, elems, s)
  {
  }

  lemma {:induction false} SameTransitive(a: seq<nat>, b: seq<nat>, c: seq<nat>, elems: nat, s: set<nat>)
    requires SameSymbols(a, b, elems, s) && SameSymbols(b, c, elems, s)
    ensures SameSymbols(a, c, elems, s)
  {
  }

  lemma {:induction false} ZeroesKept(a: seq<nat>, b: seq<nat>, elems: nat, s: set<nat>)
    requires SameSymbols(a, b, elems, s)
    requires forall x :: 0 <= x < elems && x !in s ==> a[x] == 0
    ensures forall x :: 0 <= x < elems && x !in s ==> b[x] == 0
  {
  }

  lemma {:induction false} ForcedOnlyAdds(f: seq<nat>, forced: seq<nat>, n: nat)
    requires n <= |f| && Forced(f, forced)
    ensures forall x :: 0 <= x < n && x !in Used(SetOnes(f, forced), n) ==> f[x] == 0
  {
    if forced != [] {
      var init := forced[..|forced| - 1];
      assert forall i :: 0 <= i < |init| ==> init[i] == forced[i] && init[..i] == forced[..i];
      assert Forced(f, init) by {
        forall i | 0 <= i < |init| ensures init[i] < 3 && init[i] < |f| && SetOnesBefore(f, init, i) == 0 {
          assert SetOnesBefore(f, forced, i) == 0;
        }
      }
      ForcedOnlyAdds(f, init, n);
    }
  }

  /** The collected symbols are nodes of the tables. */
  lemma {:induction false} CollectedNodes(h: seq<nat>, len: nat, f: seq<nat>, n: nat, maxCode: int, d: seq<nat>)
    requires Collected(h, len, f, n, maxCode) && n <= |d|
    ensures Nodes(h, len, f, d) && len <= n
  {
    forall i | 1 <= i <= len ensures h[i] < n {
      RegionMember(h, len, i);
      assert h[i] in multiset(Used(f, n)) ==> h[i] in Used(f, n);
    }
  }

  /** tree_desc together with the tree it describes. */
  class Tree {
    const fc: array<nat>
    const dl: array<nat>
    const elems: nat
    const maxLength: nat
    const extraBits: seq<nat>
    const extraBase: nat
    const staticLens: Option<seq<nat>>  // lengths of the static tree, if there is one
    var maxCode: int

    ghost predicate Shape()
    {
      && fc != dl && fc.Length == dl.Length == 2 * elems + 1
      && 3 <= elems <= L_CODES && 1 <= maxLength <= MAX_BITS && elems <= Pow2(maxLength)
      && extraBase <= elems && |extraBits| == elems - extraBase
      && (extraBase < 3 ==> extraBase == 0 && extraBits[0] == extraBits[1] == extraBits[2] == 0)
      && (staticLens.Some? ==> |staticLens.value| >= elems)
    }

    function Extra(n: nat): (x: nat)
      requires |extraBits| == elems - extraBase && n < elems
    {
      if n >= extraBase then extraBits[n - extraBase] else 0
    }

    /** The extra bits of every symbol. */
    ghost function Extras(): (s: seq<nat>)
      requires |extraBits| == elems - extraBase
      ensures |s| == elems
    {
      seq(elems, n requires 0 <= n < elems => Extra(n))
    }

    /** The lengths in the static tree, all zero when there is none. */
    ghost function Statics(): (s: seq<nat>)
      ensures |s| >= elems || staticLens.Some?
    {
      if staticLens.Some? then staticLens.value else seq(elems, n => 0)
    }

    constructor (elems: nat, maxLength: nat, extraBits: seq<nat>, extraBase: nat, staticLens: Option<seq<nat>>)
      requires 3 <= elems <= L_CODES && 1 <= maxLength <= MAX_BITS && elems <= Pow2(maxLength)
      requires extraBase <= elems && |extraBits| == elems - extraBase
      requires extraBase < 3 ==> extraBase == 0 && extraBits[0] == extraBits[1] == extraBits[2] == 0
      requires staticLens.Some? ==> |staticLens.value| >= elems
      ensures Shape() && fresh(fc) && fresh(dl)
      ensures this.elems == elems && this.maxLength == maxLength && this.extraBits == extraBits
      ensures this.extraBase == extraBase && this.staticLens == staticLens
      ensures forall x :: 0 <= x < fc.Length ==> fc[x] == 0
    {
      this.elems, this.maxLength, this.extraBits, this.extraBase, this.staticLens :=
        elems, maxLength, extraBits, extraBase, staticLens;
      fc := new nat[2 * elems + 1](_ => 0);
      dl := new nat[2 * elems + 1](_ => 0);
      maxCode := 0;
    }
  }

  class Builder {
    const heap: array<nat>
    const depth: array<nat>
    const blCount: array<nat>
    var heapLen: nat
    var heapMax: nat
    var optLen: int
    var staticLen: int

    ghost predicate Shape()
    {
      && heap.Length == HEAP_SIZE && depth.Length == HEAP_SIZE && blCount.Length == MAX_BITS + 1
      && heap != depth && heap != blCount && depth != blCount
    }

    ghost predicate Apart(t: Tree)
    {
      && t.fc != heap && t.fc != depth && t.fc != blCount
      && t.dl != heap && t.dl != depth && t.dl != blCount
    }

    constructor ()
      ensures Shape() && fresh(heap) && fresh(depth) && fresh(blCount)
      ensures optLen == 0 && staticLen == 0
    {
      heap := new nat[HEAP_SIZE](_ => 0);
      depth := new nat[HEAP_SIZE](_ => 0);
      blCount := new nat[MAX_BITS + 1](_ => 0);
      heapLen, heapMax, optLen, staticLen := 0, 0, 0, 0;
    }

    /** Collects the symbols that occur; the others get length zero. */
    method InitHeap(t: Tree) returns (maxCode: int)
      requires Shape() && t.Shape() && Apart(t)
      modifies this`heapLen, this`heapMax, heap, depth, t.dl
      ensures heapMax == HEAP_SIZE && heapLen <= t.elems
      ensures Collected(heap[..], heapLen, t.fc[..], t.elems, maxCode)
      ensures forall x :: 0 <= x < t.elems && t.fc[x] == 0 ==> t.dl[x] == 0
    {
      hide Collected, Used;
      maxCode := -1;
      heapLen := 0;
      heapMax := HEAP_SIZE;
      ghost var f, h, e := t.fc[..], heap[..], t.elems;
      CollectNone(h, f);
      for n := 0 to t.elems
        invariant heapMax == HEAP_SIZE && heapLen <= n
        invariant heap[..] == h
        invariant Collected(h, heapLen, f, n, maxCode)
        invariant forall x :: 0 <= x < n && f[x] == 0 ==> t.dl[x] == 0
      {
        CollectNext(h, heapLen, f, n, maxCode);
        if t.fc[n] != 0 {
          heapLen := heapLen + 1;
          heap[heapLen] := n;
          h := h[heapLen := n];
          maxCode := n;
          depth[n] := 0;
        } else {
          t.dl[n] := 0;
        }
      }
    }

    /** Adds one symbol that does not occur. */
    method ForceSymbol(t: Tree, sym: nat, ghost h: seq<nat>, ghost f: seq<nat>)
      requires Shape() && t.Shape() && Apart(t) && sym < 3 && heapLen + 1 < HEAP_SIZE && heap[..] == h && t.fc[..] == f
      modifies this`heapLen, this`optLen, this`staticLen, heap, depth, t.fc
      ensures heapLen == old(heapLen) + 1 && heap[..] == h[heapLen := sym] && t.fc[..] == f[sym := 1]
      ensures optLen == old(optLen) - 1
      ensures staticLen == old(staticLen) - (if t.staticLens.Some? then t.staticLens.value[sym] else 0)
    {
      heapLen := heapLen + 1;
      heap[heapLen] := sym;
      t.fc[sym] := 1;
      depth[sym] := 0;
      optLen := optLen - 1;
      if t.staticLens.Some? {
        staticLen := staticLen - t.staticLens.value[sym];
      }
    }

    /** At least two symbols must have codes: symbols that do not occur are given frequency
        one, and their one bit is taken off the block lengths in advance. */
    method ForceTwo(t: Tree, maxCode0: int) returns (maxCode: int, ghost forced: seq<nat>)
      requires Shape() && t.Shape() && Apart(t)
      requires Collected(heap[..], heapLen, t.fc[..], t.elems, maxCode0)
      modifies this`heapLen, this`optLen, this`staticLen, heap, depth, t.fc
      ensures 2 in forced <==> Used(old(t.fc[..]), t.elems) == {1}
      ensures 2 <= heapLen && |forced| <= 2 && (forced != [] ==> heapLen == 2 && old(heapLen) < 2)
      ensures Collected(heap[..], heapLen, t.fc[..], t.elems, maxCode)
      ensures Forced(old(t.fc[..]), forced) && t.fc[..] == SetOnes(old(t.fc[..]), forced)
      ensures optLen == old(optLen) - |forced|
      ensures staticLen == old(staticLen) - (if t.staticLens.Some? then ForcedCharge(t.staticLens.value, forced) else 0)
    {
      hide Collected, Used, Forced, SetOnes, ForcedSoFar;
      maxCode := maxCode0;
      forced := [];
      ghost var f0, f, h := t.fc[..], t.fc[..], heap[..];
      ghost var h0, len0 := heap[..], heapLen;
      ForceNone(f0);
      CollectedMax(h0, len0, f0, t.elems, maxCode0);
      ForcedNothing(maxCode0);
      while heapLen < 2
        invariant t.fc[..] == f && heap[..] == h && |f| == |f0|
        invariant Collected(h, heapLen, f, t.elems, maxCode)
        invariant Forced(f0, forced) && ForcedInRange(f0, forced) && f == SetOnes(f0, forced) && ForcedSoFar(maxCode0, forced, maxCode)
        invariant (forced != [] ==> heapLen <= 2 && old(heapLen) < 2) && |forced| == heapLen - old(heapLen)
        invariant optLen == old(optLen) - |forced|
        invariant staticLen == old(staticLen) - (if t.staticLens.Some? then ForcedCharge(t.staticLens.value, forced) else 0)
        decreases 2 - heapLen
      {
        ForceNext(h, heapLen, f, t.elems, maxCode);
        var sym := ForcedSymbol(maxCode);
        ForceStep(f0, forced, sym);
        ForcedSoFarStep(h0, len0, f0, t.elems, maxCode0, forced, maxCode);
        maxCode := if maxCode < 2 then sym else maxCode;
        ForceSymbol(t, sym, h, f);
        h := h[heapLen := sym];
        f := f[sym := 1];
        if t.staticLens.Some? {
          ChargeStep(t.staticLens.value, forced, sym);
        }
        forced := forced + [sym];
      }
      ThirdIsForced(h0, len0, f0, t.elems, maxCode0, forced, maxCode);
    }

    /** Establishes the heap property over sub-heaps of increasing size. */
    method Heapify(t: Tree)
      requires Shape() && t.Shape() && Apart(t)
      requires 2 <= heapLen < HEAP_SIZE && Nodes(heap[..], heapLen, t.fc[..], depth[..])
      modifies heap
      ensures Queue(heap[..], heapLen, t.fc[..], depth[..])
      ensures multiset(Region(heap[..], heapLen)) == multiset(old(Region(heap[..], heapLen)))
    {
      hide HeapFrom;
      ghost var h0 := heap[..];
      var n := heapLen / 2;
      LeavesAreHeaps(h0, heapLen, t.fc[..], depth[..]);
      while n >= 1
        invariant 0 <= n <= heapLen / 2
        invariant Nodes(heap[..], heapLen, t.fc[..], depth[..])
        invariant HeapFrom(heap[..], heapLen, t.fc[..], depth[..], n + 1)
        invariant multiset(Region(heap[..], heapLen)) == multiset(Region(h0, heapLen))
        decreases n
      {
        ghost var h := heap[..];
        PqDownHeap(heap, heapLen, t.fc, depth, n);
        RegionMultiset(h, heap[..], heapLen);
        n := n - 1;
      }
    }

    /** pqdownheap at the root, seen from the queue. */
    method SiftRoot(t: Tree, ghost h: seq<nat>, ghost f: seq<nat>, ghost d: seq<nat>, ghost dl: seq<nat>)
      requires Shape() && t.Shape() && Apart(t)
      requires heap[..] == h && t.fc[..] == f && depth[..] == d && t.dl[..] == dl
      requires heapLen < HEAP_SIZE && RootOpen(h, heapLen, f, d)
      modifies heap
      ensures t.fc[..] == f && depth[..] == d && t.dl[..] == dl
      ensures Sifted(h, heap[..], heapLen, f, d)
    {
      hide HeapFrom;
      PqDownHeap(heap, heapLen, t.fc, depth, SMALLEST);
      RegionMultiset(h, heap[..], heapLen);
    }

    /** PQREMOVE: takes the lightest node out of the queue. */
    method PqRemove(t: Tree, ghost h: seq<nat>, ghost f: seq<nat>, ghost d: seq<nat>, ghost dl: seq<nat>) returns (top: nat)
      requires Shape() && t.Shape() && Apart(t)
      requires heap[..] == h && t.fc[..] == f && depth[..] == d && t.dl[..] == dl
      requires 2 <= heapLen && Queue(h, heapLen, f, d)
      modifies this`heapLen, heap
      ensures heapLen == old(heapLen) - 1 && top == h[1]
      ensures t.fc[..] == f && depth[..] == d && t.dl[..] == dl
      ensures Popped(h, heap[..], heapLen + 1, f, d)
    {
      hide HeapFrom, RootOpen, Sifted, Popped;
      RemoveRoot(h, heapLen, f, d);
      top := heap[SMALLEST];
      heap[SMALLEST] := heap[heapLen];
      heapLen := heapLen - 1;
      SiftRoot(t, h[1 := h[heapLen + 1]], f, d, dl);
      PoppedByMove(h, h[1 := h[heapLen + 1]], heap[..], heapLen + 1, f, d);
    }

    /** Records the removed node x and the lightest node y that is left at the top of the
        array, makes their father and puts it in the place of y. */
    method JoinNodes(t: Tree, x: nat, y: nat, node: nat, ghost h: seq<nat>, ghost f: seq<nat>, ghost d: seq<nat>, ghost dl: seq<nat>)
      requires Shape() && t.Shape() && Apart(t)
      requires heap[..] == h && t.fc[..] == f && depth[..] == d && t.dl[..] == dl
      requires x < node && y < node < t.fc.Length && heapLen + 2 < heapMax <= HEAP_SIZE
      modifies this`heapMax, heap, depth, t.fc, t.dl
      ensures heapMax == old(heapMax) - 2
      ensures heap[..] == h[heapMax + 1 := x][heapMax := y][1 := node]
      ensures t.fc[..] == f[node := f[x] + f[y]]
      ensures depth[..] == d[node := depth[node]]
      ensures t.dl[..] == dl[x := node][y := node]
    {
      heapMax := heapMax - 1;
      heap[heapMax] := x;
      heapMax := heapMax - 1;
      heap[heapMax] := y;
      t.fc[node] := t.fc[x] + t.fc[y];
      depth[node] := (Max(depth[x], depth[y]) + 1) % 256;
      t.dl[x] := node;
      t.dl[y] := node;
      heap[SMALLEST] := node;
    }

    /** One turn of the merge loop: the two lightest nodes get a common father. */
    method MergeTwo(t: Tree, node: nat, ghost n: nat, ghost k: nat, ghost leaves: set<nat>)
      requires Shape() && t.Shape() && Apart(t)
      requires MergeInv(heap[..], heapLen, t.fc[..], depth[..], t.dl[..], t.elems, n, k, leaves)
      requires heapLen >= 2 && node == t.elems + k && heapMax == HEAP_SIZE - 2 * k
      modifies this`heapLen, this`heapMax, heap, depth, t.fc, t.dl
      ensures heapLen == old(heapLen) - 1 && heapMax == old(heapMax) - 2
      ensures MergeInv(heap[..], heapLen, t.fc[..], depth[..], t.dl[..], t.elems, n, k + 1, leaves)
      ensures SameSymbols(old(t.fc[..]), t.fc[..], t.elems, {}) && SameSymbols(old(t.dl[..]), t.dl[..], t.elems, leaves)
      ensures SameOutside(old(t.fc[..]), t.fc[..], node, node + 1)
    {
      hide Queue, Partial, Region, Removed, Dads, HeapFrom, Nodes, SameSymbols, SameOutside, MergeInv, Popped, Sifted, RootOpen;
      ghost var h: seq<nat>, f: seq<nat>, d: seq<nat>, dl: seq<nat> := heap[..], t.fc[..], depth[..], t.dl[..];
      ghost var len := heapLen;
      MergeBounds(h, len, f, d, dl, t.elems, n, k, leaves);
      var x := PqRemove(t, h, f, d, dl);
      ghost var h1: seq<nat> := heap[..];
      var y: nat := heap[SMALLEST];
      assert x < node && y < node && node !in multiset(Region(h1, heapLen))
             && (x in leaves || x >= t.elems) && (y in leaves || y >= t.elems) by {
        MergeFacts(h, len, f, d, dl, t.elems, n, k, leaves, h1);
      }
      JoinNodes(t, x, y, node, h1, f, d, dl);
      ghost var dep: nat, h2: seq<nat> := depth[node], heap[..];
      ghost var w: nat := f[x] + f[y];
      ghost var f': seq<nat>, d': seq<nat>, dl': seq<nat> := f[node := w], d[node := dep], dl[x := node][y := node];
      assert RootOpen(h2, heapLen, f', d') by {
        PoppedQueue(h, h1, len, f, d);
        NewRoot(h1, heapLen, f, d, node, w, dep, heapMax + 1, x, h2);
      }
      SiftRoot(t, h2, f', d', dl');
      SymbolsKept(f, dl, t.elems, leaves, x, y, node, w);
      OutsideOne(f, node, w);
      ghost var h3: seq<nat> := heap[..];
      MergeStep(h, len, f, d, dl, t.elems, n, k, leaves, h1, dep, w, h2, h3, x, y, node);
    }

    /** The merge loop: one father at a time until a single tree is left. */
    method MergeAll(t: Tree, ghost leaves: set<nat>) returns (ghost n: nat)
      requires Shape() && t.Shape() && Apart(t)
      requires 2 <= heapLen <= t.elems && heapMax == HEAP_SIZE
      requires Queue(heap[..], heapLen, t.fc[..], depth[..])
      requires multiset(Region(heap[..], heapLen)) == multiset(leaves)
      requires forall x :: x in leaves ==> x < t.elems
      requires forall x :: 0 <= x < t.elems && x !in leaves ==> t.dl[x] == 0
      modifies this`heapLen, this`heapMax, heap, depth, t.fc, t.dl
      ensures n == old(heapLen) && heapMax == HEAP_SIZE - (2 * n - 1)
      ensures Built(heap[..], t.fc[..], t.dl[..], t.elems, n, leaves)
      ensures SameSymbols(old(t.fc[..]), t.fc[..], t.elems, {})
      ensures SameOutside(old(t.fc[..]), t.fc[..], t.elems, t.elems + n - 1)
    {
      hide Queue, Region, MergeInv, SameSymbols, SameOutside, Built;
      n := heapLen;
      ghost var k := 0;
      var node := t.elems;
      ghost var f0, dl0 := t.fc[..], t.dl[..];
      MergeStart(heap[..], heapLen, f0, depth[..], dl0, t.elems, leaves);
      SameSelf(f0, t.elems, {});
      SameSelf(dl0, t.elems, leaves);
      OutsideNothing(f0, t.elems);
      while heapLen >= 2
        invariant heapLen + k == n && heapLen >= 1 && node == t.elems + k && heapMax == HEAP_SIZE - 2 * k
        invariant MergeInv(heap[..], heapLen, t.fc[..], depth[..], t.dl[..], t.elems, n, k, leaves)
        invariant SameSymbols(f0, t.fc[..], t.elems, {}) && SameSymbols(dl0, t.dl[..], t.elems, leaves)
        invariant SameOutside(f0, t.fc[..], t.elems, node)
        decreases heapLen
      {
        ghost var f, dl := t.fc[..], t.dl[..];
        MergeTwo(t, node, n, k, leaves);
        SameTransitive(f0, f, t.fc[..], t.elems, {});
        SameTransitive(dl0, dl, t.dl[..], t.elems, leaves);
        OutsideGrows(f0, f, t.fc[..], t.elems, node);
        node := node + 1;
        k := k + 1;
      }
      ghost var h, f, d, dl := heap[..], t.fc[..], depth[..], t.dl[..];
      ZeroesKept(dl0, dl, t.elems, leaves);
      MergeEnd(h, f, d, dl, t.elems, n, leaves);
      heapMax := heapMax - 1;
      heap[heapMax] := heap[SMALLEST];
      assert heap[..] == h[heapMax := h[1]] && t.fc[..] == f && t.dl[..] == dl;
    }

    /** build_tree up to gen_bitlen. */
    method BuildOrder(t: Tree) returns (ghost n: nat, ghost leaves: set<nat>, ghost forced: seq<nat>)
      requires Shape() && t.Shape() && Apart(t)
      modifies this`heapLen, this`heapMax, this`optLen, this`staticLen, heap, depth, t.fc, t.dl, t`maxCode
      ensures 2 in forced <==> Used(old(t.fc[..]), t.elems) == {1}
      ensures Forced(old(t.fc[..]), forced) && |forced| <= 2 && (forced != [] ==> n == 2 && |Used(old(t.fc[..]), t.elems)| < 2)
      ensures heapMax == HEAP_SIZE - (2 * n - 1) && Built(heap[..], t.fc[..], t.dl[..], t.elems, n, leaves)
      ensures SameSymbols(SetOnes(old(t.fc[..]), forced), t.fc[..], t.elems, {})
      ensures SameOutside(SetOnes(old(t.fc[..]), forced), t.fc[..], t.elems, t.elems + n - 1)
      ensures leaves == Used(SetOnes(old(t.fc[..]), forced), t.elems) && IsMaxCode(t.maxCode, leaves)
      ensures optLen == old(optLen) - |forced|
      ensures staticLen == old(staticLen) - (if t.staticLens.Some? then ForcedCharge(t.staticLens.value, forced) else 0)
    {
      hide Queue, Region, SameSymbols, SameOutside, Built, Forced, SetOnes;
      var m := InitHeap(t);
      ghost var f0, dl0 := t.fc[..], t.dl[..];
      m, forced := ForceTwo(t, m);
      t.maxCode := m;
      ghost var f := t.fc[..];
      leaves := Used(f, t.elems);
      ForcedOnlyAdds(f0, forced, t.elems);
      CollectedNodes(heap[..], heapLen, f, t.elems, m, depth[..]);
      Heapify(t);
      n := MergeAll(t, leaves);
    }
  }
}
