/**
 build_bl_tree and send_all_trees: the code for the two length tables of a dynamic block,
 what it adds to opt_len, and the block's table section as it is sent.
 */
module BlockTables {
  import opened Sums
  import opened Inflate
  import opened Canonical
  import opened RunLength
  import opened TreeCoding
  import opened TreeBuilder
  import opened BitLengths
  import opened CodeAssignment
  import opened HuffmanTree
  import opened Accounting
  import opened CounterWidth
  import opened BlockFormat
  import opened BitWriter

  const BL_CODES := 19

  // ----- unused symbols at the end of a table do not change its codes -----

  lemma {:induction false} FirstCodeTrim(lens: seq<nat>, k: nat, b: nat)
    requires k <= |lens| && forall x :: k <= x < |lens| ==> lens[x] == 0
    ensures FirstCode(lens[..k], b) == FirstCode(lens, b)
  {
    if b > 1 {
      FirstCodeTrim(lens, k, b - 1);
      CountTrim(lens, k, b - 1);
    }
  }

  lemma {:induction false} CodeTrim(lens: seq<nat>, k: nat, n: nat)
    requires n < k <= |lens| && forall x :: k <= x < |lens| ==> lens[x] == 0
    ensures CodeBits(lens[..k], n) == CodeBits(lens, n)
  {
    FirstCodeTrim(lens, k, lens[n]);
    assert lens[..k][..n] == lens[..n];
  }

  lemma {:induction false} CodesTrim(fc: seq<nat>, lens: seq<nat>, k: nat)
    requires k <= |lens| <= |fc| && CodesSet(fc, lens[..k]) && forall x :: k <= x < |lens| ==> lens[x] == 0
    ensures CodesSet(fc, lens)
  {
    hide CodeBits, BitsLsb, Pow2;
    forall n | 0 <= n < |lens| ensures CodeSet(fc, lens, n) {
      if n < k {
        assert CodeSet(fc, lens[..k], n);
        CodeTrim(lens, k, n);
      }
    }
  }

  /** The whole table of the code length code, as it is sent. */
  lemma {:induction false} ClTreeBuilt(fc: seq<nat>, dl: seq<nat>, maxCode: int, cl: seq<nat>)
    requires CodedTree(fc, dl, BL_CODES, maxCode, 7) && cl == dl[..BL_CODES]
    ensures ClTree(fc, dl, cl) && Complete(cl) && ShortLengths(cl)
  {
    hide CodesSet, Kraft, Pow2;
    assert cl[..maxCode + 1] == dl[..maxCode + 1];
    CodesTrim(fc, cl, maxCode + 1);
    KraftTrim(cl, maxCode + 1);
  }

  // ----- counting the items -----

  function Symbols(items: seq<Item>): (s: seq<nat>)
    ensures |s| == |items|
  {
    if items == [] then [] else Symbols(items[..|items| - 1]) + [items[|items| - 1].sym]
  }

  lemma {:induction false} SymbolAt(items: seq<Item>, k: nat)
    requires k < |items|
    ensures Symbols(items)[k] == items[k].sym
  {
    if k < |items| - 1 {
      SymbolAt(items[..|items| - 1], k);
    }
  }

  predicate AllValid(items: seq<Item>)
  {
    forall k :: 0 <= k < |items| ==> ValidItem(items[k])
  }

  /** scan_tree counts what send_tree sends. */
  lemma {:induction false} ItemFrequencies(f: seq<nat>, items: seq<Item>)
    requires |f| >= BL_CODES && AllValid(items) && forall s :: 0 <= s < BL_CODES ==> f[s] == 0
    ensures Frequencies(AddItems(f, items), Symbols(items), BL_CODES)
  {
    if items != [] {
      var init, it := items[..|items| - 1], items[|items| - 1];
      assert items == init + [it] && ValidItem(it);
      ItemFrequencies(f, init);
      AddItemsSnoc(f, init, it);
      FrequencyStep(AddItems(f, init), Symbols(init), BL_CODES, it.sym);
    }
  }

  /** A table of lengths never takes more items than it has entries. */
  lemma {:induction false} ItemsCount(lens: seq<nat>, i: nat, prev: int)
    requires i <= |lens|
    ensures |Items(lens, i, prev)| <= |lens| - i
    decreases |lens| - i
  {
    hide RunAt;
    if i < |lens| {
      var c := RunCount(lens, i, prev);
      ItemsCount(lens, i + c, lens[i]);
      assert |RunItems(lens[i], prev, c)| <= c;
    }
  }

  lemma {:induction false} AddItemsBound(f: seq<nat>, items: seq<Item>)
    requires |f| >= BL_CODES && AllValid(items)
    ensures forall x :: 0 <= x < |f| ==> AddItems(f, items)[x] <= if x < BL_CODES then f[x] + |items| else f[x]
  {
    if items != [] {
      var init, it := items[..|items| - 1], items[|items| - 1];
      assert items == init + [it] && ValidItem(it);
      AddItemsBound(f, init);
    }
  }

  /** The counters of the code length alphabet do not overflow. */
  lemma {:induction false} ItemCounters(f: seq<nat>, items: seq<Item>, ll: seq<nat>, dd: seq<nat>)
    requires |f| >= BL_CODES && AllValid(items) && items == Items(ll, 0, -1) + Items(dd, 0, -1) && |ll| + |dd| <= 316
    requires Narrow(f) && forall s :: 0 <= s < BL_CODES ==> f[s] == 0
    ensures Narrow(AddItems(f, items)) && Total(AddItems(f, items), BL_CODES) <= 316
  {
    hide Total, AddItems, Items, ValidItem;
    ItemsCount(ll, 0, -1);
    ItemsCount(dd, 0, -1);
    AddItemsBound(f, items);
    ItemFrequencies(f, items);
    TotalOfString(AddItems(f, items), Symbols(items), BL_CODES);
  }

  /** Every item counted has a code. */
  lemma {:induction false} CountedItemsFit(f: seq<nat>, items: seq<Item>, cl: seq<nat>)
    requires Frequencies(f, Symbols(items), BL_CODES) && AllValid(items) && |cl| == BL_CODES && ShortLengths(cl)
    requires forall x :: 0 <= x < BL_CODES && f[x] != 0 ==> cl[x] > 0
    ensures ItemsFit(cl, items)
  {
    hide Frequencies, ValidItem;
    forall k | 0 <= k < |items| ensures ItemFits(cl, items[k]) {
      SymbolAt(items, k);
      ItemSymbol(items[k]);
      Occurs(f, Symbols(items), BL_CODES, k);
    }
  }

  lemma {:induction false} ItemSymbol(it: Item)
    requires ValidItem(it)
    ensures it.sym < BL_CODES && it.bits == EXTRA_BLBITS[it.sym]
  {
  }

  /** The bits of all items are the charges of their symbols. */
  lemma {:induction false} ItemsPrice(items: seq<Item>, cl: seq<nat>, c: seq<int>)
    requires ItemsFit(cl, items) && |cl| == BL_CODES == |c|
    requires forall x :: 0 <= x < BL_CODES && cl[x] > 0 ==> c[x] == cl[x] + EXTRA_BLBITS[x]
    ensures forall k :: 0 <= k < |items| ==> Symbols(items)[k] < BL_CODES
    ensures |ItemsBits(cl, items)| == WeightOf(Symbols(items), c)
  {
    hide ValidItem, BitsLsb, CodeBits, ItemsBits, WeightOf, ItemFits, ItemBits;
    SymbolsRange(items, cl);
    if items == [] {
      NoItems(cl);
      WeightNothing(c);
    } else {
      var init, it := items[..|items| - 1], items[|items| - 1];
      assert items == init + [it] && ItemFits(cl, it);
      ItemsPrice(init, cl, c);
      ItemPrice(it, cl, c);
      ItemsBitsOne(cl, it);
      ItemsBitsConcat(cl, init, [it]);
      WeightSnoc(Symbols(init), it.sym, c);
    }
  }

  lemma {:induction false} SymbolsRange(items: seq<Item>, cl: seq<nat>)
    requires ItemsFit(cl, items)
    ensures forall k :: 0 <= k < |items| ==> Symbols(items)[k] < BL_CODES
  {
    hide ValidItem, Symbols;
    forall k | 0 <= k < |items| ensures Symbols(items)[k] < BL_CODES {
      SymbolAt(items, k);
      assert ItemFits(cl, items[k]);
      ItemSymbol(items[k]);
    }
  }

  lemma {:induction false} ItemPrice(it: Item, cl: seq<nat>, c: seq<int>)
    requires ItemFits(cl, it) && |cl| == BL_CODES == |c|
    requires forall x :: 0 <= x < BL_CODES && cl[x] > 0 ==> c[x] == cl[x] + EXTRA_BLBITS[x]
    ensures it.sym < BL_CODES && |ItemBits(cl, it)| == c[it.sym]
  {
    hide BitsLsb, CodeBits;
    ItemSymbol(it);
  }

  lemma {:induction false} ItemsBound(cl: seq<nat>, items: seq<Item>)
    requires ItemsFit(cl, items)
    ensures |ItemsBits(cl, items)| <= 22 * |items|
  {
    hide ValidItem, BitsLsb, CodeBits;
    if items != [] {
      ItemsBound(cl, items[1..]);
      assert ItemFits(cl, items[0]);
      ItemSymbol(items[0]);
      FieldBits(items[0].sym);
    }
  }

  lemma {:induction false} FieldBits(s: nat)
    requires s < BL_CODES
    ensures EXTRA_BLBITS[s] <= 7
  {
  }

  /** The tree section of a block is short. */
  lemma {:induction false} TableBound(cl: seq<nat>, bl: nat, ll: seq<nat>, dd: seq<nat>)
    requires DynTables(cl, bl, ll, dd)
    ensures |TableBits(cl, bl, ll, dd)| <= 71 + 22 * 316
  {
    hide ItemsBits, Items, ItemsFit, ClBits, CountBits, Complete, ShortLengths, Unsent;
    ItemsBound(cl, Items(ll, 0, -1));
    ItemsBound(cl, Items(dd, 0, -1));
    ItemsCount(ll, 0, -1);
    ItemsCount(dd, 0, -1);
  }

  // ----- at least four lengths are sent -----

  /** A table with a non-zero length has an item that is such a length. */
  lemma {:induction false} LengthItem(lens: seq<nat>, i: nat, prev: int, k: nat) returns (j: nat)
    requires i <= k < |lens| && lens[k] != 0 && prev <= 0
    ensures j < |Items(lens, i, prev)| && Items(lens, i, prev)[j].sym in lens && Items(lens, i, prev)[j].sym != 0
    decreases |lens| - i
  {
    hide RunAt, RunCount;
    var c := RunCount(lens, i, prev);
    assert Items(lens, i, prev) == RunItems(lens[i], prev, c) + Items(lens, i + c, lens[i]);
    if lens[i] != 0 {
      j := 0;
      assert RunItems(lens[i], prev, c)[0] == Item(lens[i], 0, 0);
    } else {
      ZeroRun(lens, i, prev, k);
      j := LengthItem(lens, i + c, 0, k);
      var run := RunItems(lens[i], prev, c);
      j := j + |run|;
    }
  }

  lemma {:induction false} ZeroRun(lens: seq<nat>, i: nat, prev: int, k: nat)
    requires i <= k < |lens| && lens[i] == 0 && lens[k] != 0
    ensures i + RunCount(lens, i, prev) <= k
  {
    hide RunAt;
    if k < i + RunCount(lens, i, prev) {
      RunIsEqual(lens, i, k);
    }
  }

  /** Some length from rank 3 on is not zero. */
  lemma {:induction false} FourLengths(ll: seq<nat>, cl: seq<nat>) returns (r: nat)
    requires ValidLengths(ll) && END_OF_BLOCK < |ll| && ll[END_OF_BLOCK] > 0
    requires |cl| == BL_CODES && ItemsFit(cl, Items(ll, 0, -1))
    ensures 3 <= r < BL_CODES && cl[CL_ORDER[r]] != 0
  {
    hide Items, ValidItem;
    var j := LengthItem(ll, 0, -1, END_OF_BLOCK);
    var s := Items(ll, 0, -1)[j].sym;
    assert ItemFits(cl, Items(ll, 0, -1)[j]);
    RankInverts(s);
    r := CL_RANK[s];
  }

  /** The loop over max_blindex. */
  method LastLength(dl: array<nat>, ghost cl: seq<nat>, ghost r: nat) returns (max: nat)
    requires dl.Length >= BL_CODES && cl == dl[..BL_CODES] && 3 <= r < BL_CODES && cl[CL_ORDER[r]] != 0
    ensures 3 <= max < BL_CODES && Unsent(cl, max + 1) && cl[CL_ORDER[max]] != 0
  {
    var k: int := BL_CODES - 1;
    while k >= 3
      invariant r <= k < BL_CODES
      invariant Unsent(cl, k + 1)
    {
      if dl[CL_ORDER[k]] != 0 {
        break;
      }
      k := k - 1;
    }
    max := k;
  }

  // ----- build_bl_tree -----

  /** The descriptor bl_desc. */
  ghost predicate BlDesc(t: Tree)
  {
    t.Shape() && t.elems == BL_CODES && t.maxLength == 7 && t.extraBits == EXTRA_BLBITS && t.extraBase == 0 && t.staticLens.None?
  }

  lemma {:induction false} TableItems(ll: seq<nat>, dd: seq<nat>)
    requires Complete(ll) && Complete(dd)
    ensures AllValid(Items(ll, 0, -1) + Items(dd, 0, -1))
  {
    ItemsValid(ll, 0, -1);
    ItemsValid(dd, 0, -1);
  }

  lemma {:induction false} SplitFit(cl: seq<nat>, a: seq<Item>, b: seq<Item>)
    requires ItemsFit(cl, a + b)
    ensures ItemsFit(cl, a) && ItemsFit(cl, b) && |ItemsBits(cl, a + b)| == |ItemsBits(cl, a)| + |ItemsBits(cl, b)|
  {
    hide ItemFits, ItemsBits;
    assert forall k :: 0 <= k < |a| ==> a[k] == (a + b)[k];
    assert forall k :: 0 <= k < |b| ==> b[k] == (a + b)[|a| + k];
    ItemsBitsConcat(cl, a, b);
  }

  /** What build_tree adds to opt_len for the code length code are the bits of all items. */
  lemma {:induction false} TablesPrice(f: seq<nat>, items: seq<Item>, cl: seq<nat>)
    requires |f| >= BL_CODES && Frequencies(f, Symbols(items), BL_CODES) && |cl| == BL_CODES && ItemsFit(cl, items)
    ensures BlockCost(f, cl, cl, EXTRA_BLBITS) == |ItemsBits(cl, items)|
  {
    hide ItemsFit, ItemsBits, Frequencies;
    var c := WithExtra(cl, cl, EXTRA_BLBITS);
    ItemsPrice(items, cl, c);
    FrequencyCost(f, Symbols(items), c, BL_CODES);
  }

  method ScanBoth(lt: Tree, dt: Tree, bt: Tree, ghost ll: seq<nat>, ghost dd: seq<nat>, ghost f: seq<nat>)
    requires 0 <= lt.maxCode && lt.maxCode + 1 < lt.dl.Length && ll == lt.dl[..lt.maxCode + 1] && ValidLengths(ll)
    requires 0 <= dt.maxCode && dt.maxCode + 1 < dt.dl.Length && dd == dt.dl[..dt.maxCode + 1] && ValidLengths(dd)
    requires bt.fc[..] == f && bt.fc.Length >= BL_CODES
    requires lt.dl != dt.dl && lt.dl != bt.fc && dt.dl != bt.fc
    modifies lt.dl, dt.dl, bt.fc
    ensures Guarded(lt.dl[..], ll) && Guarded(dt.dl[..], dd)
    ensures bt.fc[..] == AddItems(f, Items(ll, 0, -1) + Items(dd, 0, -1))
  {
    hide AddItems, Items, Guarded, ValidLengths;
    ghost var before := dt.dl[..];
    ScanTree(lt.dl, lt.maxCode, bt.fc, ll, f);
    ghost var after := lt.dl[..];
    AddItemsConcat(f, Items(ll, 0, -1), Items(dd, 0, -1));
    assert dt.dl[..] == before;
    ScanTree(dt.dl, dt.maxCode, bt.fc, dd, AddItems(f, Items(ll, 0, -1)));
    assert lt.dl[..] == after;
  }

  lemma {:induction false} BlExtras(t: Tree)
    requires BlDesc(t)
    ensures t.Extras() == EXTRA_BLBITS
  {
  }

  /** The facts about the finished code length code. */
  lemma {:induction false} ClFinished(fc: seq<nat>, dl: seq<nat>, maxCode: int, cl: seq<nat>, f: seq<nat>, ll: seq<nat>, dd: seq<nat>)
    requires CodedTree(fc, dl, BL_CODES, maxCode, 7) && cl == dl[..BL_CODES]
    requires Complete(ll) && Complete(dd) && |f| >= BL_CODES
    requires Frequencies(f, Symbols(Items(ll, 0, -1) + Items(dd, 0, -1)), BL_CODES)
    requires forall x :: 0 <= x < BL_CODES && f[x] != 0 ==> dl[x] > 0
    ensures ClTree(fc, dl, cl) && Complete(cl) && ShortLengths(cl)
    ensures ItemsFit(cl, Items(ll, 0, -1)) && ItemsFit(cl, Items(dd, 0, -1))
    ensures BlockCost(f, cl, cl, EXTRA_BLBITS) == |ItemsBits(cl, Items(ll, 0, -1))| + |ItemsBits(cl, Items(dd, 0, -1))|
  {
    var all := Items(ll, 0, -1) + Items(dd, 0, -1);
    assert forall x :: 0 <= x < BL_CODES ==> cl[x] == dl[x];
    hide CodedTree, ClTree, Complete, Frequencies, Items, BlockCost, ItemsBits, ItemsFit, Symbols;
    ClTreeBuilt(fc, dl, maxCode, cl);
    TableItems(ll, dd);
    CountedItemsFit(f, all, cl);
    TablesPrice(f, all, cl);
    SplitFit(cl, Items(ll, 0, -1), Items(dd, 0, -1));
  }

  /** build_bl_tree: opt_len grows by exactly the bits that send_all_trees will send. */
  method BuildBlTree(b: Builder, lt: Tree, dt: Tree, bt: Tree, ghost ll: seq<nat>, ghost dd: seq<nat>) returns (maxBlindex: nat)
    requires b.Shape() && BlDesc(bt) && b.Apart(bt)
    requires 0 <= lt.maxCode && lt.maxCode + 1 < lt.dl.Length && ll == lt.dl[..lt.maxCode + 1] && Complete(ll)
    requires 0 <= dt.maxCode && dt.maxCode + 1 < dt.dl.Length && dd == dt.dl[..dt.maxCode + 1] && Complete(dd)
    requires 257 <= |ll| <= 286 && ll[END_OF_BLOCK] > 0 && |dd| <= 30
    requires lt.dl != dt.dl && lt != bt && dt != bt
    requires b.Apart(lt) && b.Apart(dt) && bt.fc != lt.dl && bt.fc != dt.dl && bt.dl != lt.dl && bt.dl != dt.dl
    requires Narrow(bt.fc[..]) && forall x :: 0 <= x < BL_CODES ==> bt.fc[x] == 0
    modifies b, b.heap, b.depth, b.blCount, bt.fc, bt.dl, bt`maxCode, lt.dl, dt.dl
    ensures Guarded(lt.dl[..], ll) && Guarded(dt.dl[..], dd) && ClTree(bt.fc[..], bt.dl[..], bt.dl[..BL_CODES])
    ensures DynTables(bt.dl[..BL_CODES], maxBlindex + 1, ll, dd)
    ensures b.optLen == old(b.optLen) + |TableBits(bt.dl[..BL_CODES], maxBlindex + 1, ll, dd)|
    ensures b.staticLen == old(b.staticLen) && Narrow(bt.fc[..])
  {
    hide Narrow, Measured, Guarded, ClTree, Items, AddItems, Complete, CodedTree, BlockCost, Optimal, Forced, SetOnes, ItemsFit, ItemsBits, Frequencies, Used;
    ghost var f0 := bt.fc[..];
    assert Complete(ll) ==> ValidLengths(ll) by {
      CompleteIsValid(ll);
    }
    CompleteIsValid(dd);
    ScanBoth(lt, dt, bt, ll, dd, f0);
    ghost var f, gl, gd := bt.fc[..], lt.dl[..], dt.dl[..];
    TableItems(ll, dd);
    ItemFrequencies(f0, Items(ll, 0, -1) + Items(dd, 0, -1));
    ItemCounters(f0, Items(ll, 0, -1) + Items(dd, 0, -1), ll, dd);
    ghost var forced, merge := BuildTree(b, bt);
    ghost var cl := bt.dl[..BL_CODES];
    BlExtras(bt);
    ClFinished(bt.fc[..], bt.dl[..], bt.maxCode, cl, f, ll, dd);
    ghost var r := FourLengths(ll, cl);
    maxBlindex := LastLength(bt.dl, cl, r);
    b.optLen := b.optLen + 3 * (maxBlindex + 1) + 5 + 5 + 4;
    assert lt.dl[..] == gl && dt.dl[..] == gd;
  }

  lemma {:induction false} CompleteIsValid(lens: seq<nat>)
    requires Complete(lens)
    ensures ValidLengths(lens)
  {
  }

  // ----- send_all_trees -----

  method SendCounts(w: Writer, lcodes: nat, dcodes: nat, blcodes: nat)
    requires w.Valid() && 257 <= lcodes <= 286 && 1 <= dcodes <= 30 && 4 <= blcodes <= 19
    modifies w, w.outbuf
    ensures w.Valid() && w.Bits() == old(w.Bits()) + CountBits(lcodes, dcodes, blcodes)
  {
    hide Writer.Bits, Writer.Valid, BitsLsb, Pow2;
    ghost var before := w.Bits();
    Pow2Table();
    w.SendBits(lcodes - 257, 5);
    w.SendBits(dcodes - 1, 5);
    w.SendBits(blcodes - 4, 4);
    ghost var a, b, c := BitsLsb(lcodes - 257, 5), BitsLsb(dcodes - 1, 5), BitsLsb(blcodes - 4, 4);
    assert ((before + a) + b) + c == before + (a + b + c);
  }

  method SendClLengths(w: Writer, dl: array<nat>, blcodes: nat, ghost cl: seq<nat>)
    requires w.Valid() && dl.Length >= BL_CODES && cl == dl[..BL_CODES] && ShortLengths(cl) && blcodes <= BL_CODES
    modifies w, w.outbuf
    ensures w.Valid() && w.Bits() == old(w.Bits()) + ClBits(cl, blcodes)
  {
    hide Writer.Bits, Writer.Valid, BitsLsb, Pow2, ClBits;
    ghost var before := w.Bits();
    Pow2Table();
    ClNone(cl, before);
    for rank := 0 to blcodes
      invariant w.Valid() && cl == dl[..BL_CODES]
      invariant w.Bits() == before + ClBits(cl, rank)
    {
      ClNext(cl, rank, before);
      w.SendBits(dl[CL_ORDER[rank]], 3);
    }
  }

  lemma {:induction false} ClNone(cl: seq<nat>, before: seq<bool>)
    requires |cl| == BL_CODES
    ensures before + ClBits(cl, 0) == before
  {
  }

  lemma {:induction false} ClNext(cl: seq<nat>, n: nat, before: seq<bool>)
    requires |cl| == BL_CODES && n < BL_CODES
    ensures (before + ClBits(cl, n)) + BitsLsb(cl[CL_ORDER[n]], 3) == before + ClBits(cl, n + 1)
  {
    hide BitsLsb;
    assert ClBits(cl, n + 1) == ClBits(cl, n) + BitsLsb(cl[CL_ORDER[n]], 3);
  }

  /** send_all_trees: the counts, the lengths of the code length code, and both tables. */
  method SendAllTrees(w: Writer, lt: Tree, dt: Tree, bt: Tree, lcodes: nat, dcodes: nat, blcodes: nat,
                      ghost ll: seq<nat>, ghost dd: seq<nat>, ghost cl: seq<nat>)
    requires w.Valid() && |ll| == lcodes && |dd| == dcodes && DynTables(cl, blcodes, ll, dd)
    requires Guarded(lt.dl[..], ll) && Guarded(dt.dl[..], dd) && bt.dl.Length >= BL_CODES
    requires ClTree(bt.fc[..], bt.dl[..], cl)
    modifies w, w.outbuf
    ensures w.Valid() && w.Bits() == old(w.Bits()) + TableBits(cl, blcodes, ll, dd)
  {
    ClIsTable(bt.fc[..], bt.dl[..], cl);
    hide Writer.Bits, Writer.Valid, BitsLsb, Pow2, ClBits, CountBits, Items, ItemsBits, ItemsFit, Guarded, ClTree, Complete;
    ghost var before := w.Bits();
    ghost var gl, gd, bf, bd := lt.dl[..], dt.dl[..], bt.fc[..], bt.dl[..];
    SendCounts(w, lcodes, dcodes, blcodes);
    assert bt.dl[..] == bd;
    SendClLengths(w, bt.dl, blcodes, cl);
    assert lt.dl[..] == gl && bt.fc[..] == bf && bt.dl[..] == bd;
    SendTree(w, lt.dl, lcodes - 1, bt.fc, bt.dl, ll, cl);
    assert dt.dl[..] == gd && bt.fc[..] == bf && bt.dl[..] == bd;
    SendTree(w, dt.dl, dcodes - 1, bt.fc, bt.dl, dd, cl);
    Concat4(before, CountBits(lcodes, dcodes, blcodes), ClBits(cl, blcodes), ItemsBits(cl, Items(ll, 0, -1)), ItemsBits(cl, Items(dd, 0, -1)));
  }

  lemma {:induction false} ClIsTable(fc: seq<nat>, dl: seq<nat>, cl: seq<nat>)
    requires ClTree(fc, dl, cl)
    ensures |dl| >= BL_CODES && cl == dl[..BL_CODES]
  {
  }

  lemma {:induction false} Concat4(s: seq<bool>, a: seq<bool>, b: seq<bool>, c: seq<bool>, d: seq<bool>)
    ensures (((s + a) + b) + c) + d == s + (a + (b + (c + d)))
  {
  }
}
