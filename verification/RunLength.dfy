/**
 The run-length form in which code length tables are sent (section 3.2.7 of RFC 1951):
 what scan_tree counts and send_tree sends, and that a reader gets the table back.
 */
module RunLength {
  import opened Sums
  import opened Inflate
  import opened Canonical

  /** One symbol of the code length alphabet with its extra bits. */
  datatype Item = Item(sym: nat, extra: nat, bits: nat)

  const REP_3_6 := 16
  const REPZ_3_10 := 17
  const REPZ_11_138 := 18

  /** The length of the run of equal lengths that starts at i. */
  function RunAt(lens: seq<nat>, i: nat): (r: nat)
    requires i < |lens|
    ensures 1 <= r <= |lens| - i
    decreases |lens| - i
  {
    if i + 1 < |lens| && lens[i + 1] == lens[i] then 1 + RunAt(lens, i + 1) else 1
  }

  /** max_count and min_count for a run of cur after a run of prev (-1 at the start). */
  function MaxCount(cur: nat, prev: int): (m: nat)
    ensures m >= 6
  {
    if cur == 0 then 138 else if cur == prev then 6 else 7
  }

  function MinCount(cur: nat, prev: int): nat
  {
    if cur == 0 || cur == prev then 3 else 4
  }

  /** What is sent for c equal lengths. */
  function RunItems(cur: nat, prev: int, c: nat): seq<Item>
    requires c >= 1
  {
    if c < MinCount(cur, prev) then seq(c, _ => Item(cur, 0, 0))
    else if cur != 0 then
      if cur != prev then [Item(cur, 0, 0)] + [Item(REP_3_6, c - 4, 2)] else [Item(REP_3_6, c - 3, 2)]
    else if c <= 10 then [Item(REPZ_3_10, c - 3, 3)]
    else [Item(REPZ_11_138, c - 11, 7)]
  }

  function RunCount(lens: seq<nat>, i: nat, prev: int): (c: nat)
    requires i < |lens|
    ensures 1 <= c <= |lens| - i && c <= MaxCount(lens[i], prev)
  {
    Min(RunAt(lens, i), MaxCount(lens[i], prev))
  }

  /** Everything sent from index i on. */
  function Items(lens: seq<nat>, i: nat, prev: int): seq<Item>
    decreases |lens| - i
  {
    if i >= |lens| then []
    else
      var c := RunCount(lens, i, prev);
      RunItems(lens[i], prev, c) + Items(lens, i + c, lens[i])
  }

  /** A run is as long as one item can express: 3 to 6 repetitions with 2 bits, behind the length
      itself if that is new, and 11 to 138 zeros with 7 bits; and a run that is long enough for an
      item is never sent length by length. */
  lemma {:induction false} LongestRuns(cur: nat, prev: int, c: nat)
    requires 1 <= c <= MaxCount(cur, prev)
    ensures MaxCount(cur, prev) == if cur == 0 then 11 + Pow2(7) - 1 else if cur == prev then 3 + Pow2(2) - 1 else 1 + 3 + Pow2(2) - 1
    ensures |RunItems(cur, prev, c)| == if cur != 0 && cur != prev then (if c < 4 then c else 2) else (if c < 3 then c else 1)
  {
    Pow2Table();
  }

  lemma {:induction false} RunAtLeast(lens: seq<nat>, i: nat, c: nat)
    requires i + c <= |lens| && c >= 1 && forall k :: i <= k < i + c ==> lens[k] == lens[i]
    ensures RunAt(lens, i) >= c
    ensures i + c == |lens| || lens[i + c] != lens[i] ==> RunAt(lens, i) == c
    decreases c
  {
    if c > 1 {
      assert lens[i + 1] == lens[i];
      RunAtLeast(lens, i + 1, c - 1);
    }
  }

  lemma {:induction false} RunIsEqual(lens: seq<nat>, i: nat, k: nat)
    requires i < |lens| && i <= k < i + RunAt(lens, i)
    ensures lens[k] == lens[i]
    decreases k - i
  {
    if k > i {
      RunIsEqual(lens, i + 1, k);
    }
  }

  /** A finished run of c lengths is what Items takes next. */
  lemma {:induction false} RunFinished(lens: seq<nat>, i: nat, c: nat, prev: int)
    requires 1 <= c && i + c <= |lens| && forall k :: i <= k < i + c ==> lens[k] == lens[i]
    requires c == MaxCount(lens[i], prev) || (c < MaxCount(lens[i], prev) && (i + c == |lens| || lens[i + c] != lens[i]))
    ensures Items(lens, i, prev) == RunItems(lens[i], prev, c) + Items(lens, i + c, lens[i])
  {
    hide RunItems, RunAt;
    RunAtLeast(lens, i, c);
    assert RunCount(lens, i, prev) == c;
  }

  // ----- the items are well formed -----

  const EXTRA_BLBITS: seq<nat> := [0, 0, 0, 0, 0, 0, 0, 0, 0, 0, 0, 0, 0, 0, 0, 0, 2, 3, 7]

  predicate ValidItem(it: Item)
  {
    it.sym < 19 && it.bits == EXTRA_BLBITS[it.sym] && it.extra < Pow2(it.bits)
  }

  lemma {:induction false} RunItemsValid(cur: nat, prev: int, c: nat)
    requires 1 <= c <= MaxCount(cur, prev) && cur <= MAX_BITS
    ensures forall k :: 0 <= k < |RunItems(cur, prev, c)| ==> ValidItem(RunItems(cur, prev, c)[k])
  {
    hide ValidItem;
    if cur < 16 {
      PlainItem(cur);
    }
    if 3 <= c <= 6 {
      RepeatItem(REP_3_6, c - 3);
    }
    if 4 <= c <= 7 {
      RepeatItem(REP_3_6, c - 4);
    }
    if 3 <= c <= 10 {
      RepeatItem(REPZ_3_10, c - 3);
    }
    if 11 <= c <= 138 {
      RepeatItem(REPZ_11_138, c - 11);
    }
  }

  lemma {:induction false} PlainItem(cur: nat)
    requires cur < 16
    ensures ValidItem(Item(cur, 0, 0))
  {
  }

  lemma {:induction false} RepeatItem(sym: nat, extra: nat)
    requires (sym == REP_3_6 && extra < 4) || (sym == REPZ_3_10 && extra < 8) || (sym == REPZ_11_138 && extra < 128)
    ensures ValidItem(Item(sym, extra, if sym == REP_3_6 then 2 else if sym == REPZ_3_10 then 3 else 7))
  {
    Pow2Table();
  }

  lemma {:induction false} ItemsValid(lens: seq<nat>, i: nat, prev: int)
    requires ValidLengths(lens)
    ensures forall k :: 0 <= k < |Items(lens, i, prev)| ==> ValidItem(Items(lens, i, prev)[k])
    decreases |lens| - i
  {
    if i < |lens| {
      var c := RunCount(lens, i, prev);
      RunItemsValid(lens[i], prev, c);
      ItemsValid(lens, i + c, lens[i]);
    }
  }

  // ----- items as bits, and back -----

  function ItemBits(cl: seq<nat>, it: Item): seq<bool>
    requires it.sym < |cl|
  {
    CodeBits(cl, it.sym) + BitsLsb(it.extra, it.bits)
  }

  /** The item is well formed and its symbol has a code. */
  predicate ItemFits(cl: seq<nat>, it: Item)
  {
    |cl| == 19 && ValidItem(it) && 1 <= cl[it.sym] <= MAX_BITS
  }

  predicate ItemsFit(cl: seq<nat>, items: seq<Item>)
  {
    forall k :: 0 <= k < |items| ==> ItemFits(cl, items[k])
  }

  function ItemsBits(cl: seq<nat>, items: seq<Item>): seq<bool>
    requires ItemsFit(cl, items)
  {
    if items == [] then [] else ItemBits(cl, items[0]) + ItemsBits(cl, items[1..])
  }

  lemma {:induction false} ItemsBitsConcat(cl: seq<nat>, a: seq<Item>, b: seq<Item>)
    requires ItemsFit(cl, a) && ItemsFit(cl, b)
    ensures ItemsFit(cl, a + b)
    ensures ItemsBits(cl, a + b) == ItemsBits(cl, a) + ItemsBits(cl, b)
  {
    hide ItemFits, ItemBits;
    if a == [] {
      assert a + b == b;
    } else {
      ItemsBitsConcat(cl, a[1..], b);
      assert (a + b)[1..] == a[1..] + b;
    }
  }

  /** The lengths an item stands for, after the lengths acc. */
  function ItemLengths(it: Item, acc: seq<nat>): seq<nat>
    requires it.sym == REP_3_6 ==> acc != []
  {
    if it.sym < 16 then [it.sym]
    else if it.sym == REP_3_6 then Repeat(acc[|acc| - 1], 3 + it.extra)
    else if it.sym == REPZ_3_10 then Repeat(0, 3 + it.extra)
    else Repeat(0, 11 + it.extra)
  }

  lemma {:induction false} ReadItem(cl: seq<nat>, it: Item, bits: seq<bool>, pos: nat, total: nat, acc: seq<nat>)
    requires Complete(cl) && ItemFits(cl, it) && (it.sym == REP_3_6 ==> acc != [])
    requires At(bits, pos, ItemBits(cl, it)) && |acc| < total
    ensures ReadLengths(cl, bits, pos, total, acc)
            == ReadLengths(cl, bits, pos + |ItemBits(cl, it)|, total, acc + ItemLengths(it, acc))
  {
    hide CodeBits, BitsLsb, Kraft, CanonicalCode, DecodeSymbol, At, ReadBits, Pow2;
    AtSplit(bits, pos, CodeBits(cl, it.sym), BitsLsb(it.extra, it.bits));
    DecodeCode(cl, it.sym, bits, pos);
    ReadBitsAt(bits, pos + cl[it.sym], it.extra, it.bits);
  }

  lemma {:induction false} ReadCopies(cl: seq<nat>, cur: nat, c: nat, bits: seq<bool>, pos: nat, total: nat, acc: seq<nat>)
    requires Complete(cl) && cur < 16 && ItemFits(cl, Item(cur, 0, 0))
    requires At(bits, pos, ItemsBits(cl, seq(c, _ => Item(cur, 0, 0)))) && |acc| + c <= total
    ensures ReadLengths(cl, bits, pos, total, acc)
            == ReadLengths(cl, bits, pos + |ItemsBits(cl, seq(c, _ => Item(cur, 0, 0)))|, total, acc + Repeat(cur, c))
    decreases c
  {
    hide ReadLengths, ItemBits;
    if c == 0 {
      assert acc + Repeat(cur, 0) == acc;
    } else {
      var it := Item(cur, 0, 0);
      var items := seq(c, _ => it);
      var rest := seq(c - 1, _ => it);
      assert items[1..] == rest && items[0] == it;
      AtSplit(bits, pos, ItemBits(cl, it), ItemsBits(cl, rest));
      ReadItem(cl, it, bits, pos, total, acc);
      ReadCopies(cl, cur, c - 1, bits, pos + |ItemBits(cl, it)|, total, acc + [cur]);
      assert acc + Repeat(cur, c) == (acc + [cur]) + Repeat(cur, c - 1);
    }
  }

  /** The reader gets a run of c lengths back from what is sent for it. */
  lemma {:induction false} ReadRun(cl: seq<nat>, cur: nat, prev: int, c: nat, bits: seq<bool>, pos: nat, total: nat, acc: seq<nat>)
    requires Complete(cl) && cur <= MAX_BITS && 1 <= c <= MaxCount(cur, prev) && |acc| + c <= total
    requires ItemsFit(cl, RunItems(cur, prev, c))
    requires cur == prev ==> acc != [] && acc[|acc| - 1] == cur
    requires At(bits, pos, ItemsBits(cl, RunItems(cur, prev, c)))
    ensures ReadLengths(cl, bits, pos, total, acc)
            == ReadLengths(cl, bits, pos + |ItemsBits(cl, RunItems(cur, prev, c))|, total, acc + Repeat(cur, c))
  {
    hide ReadLengths, ItemBits, Complete, ItemsBits, At, ItemFits;
    if c < MinCount(cur, prev) {
      assert RunItems(cur, prev, c)[0] == Item(cur, 0, 0);
      FitSize(cl, Item(cur, 0, 0));
      ReadCopies(cl, cur, c, bits, pos, total, acc);
    } else if cur != 0 && cur != prev {
      ReadPair(cl, cur, c, bits, pos, total, acc);
    } else {
      var it := RunItems(cur, prev, c)[0];
      assert ItemFits(cl, it);
      assert RunItems(cur, prev, c) == [it];
      ReadSingle(cl, it, cur, c, bits, pos, total, acc);
    }
  }

  lemma {:induction false} FitSize(cl: seq<nat>, it: Item)
    requires ItemFits(cl, it)
    ensures |cl| == 19 && it.sym < 19
  {
  }

  lemma {:induction false} ReadSingle(cl: seq<nat>, it: Item, cur: nat, c: nat, bits: seq<bool>, pos: nat, total: nat, acc: seq<nat>)
    requires Complete(cl) && ItemFits(cl, it) && (it.sym == REP_3_6 ==> acc != [])
    requires At(bits, pos, ItemsBits(cl, [it])) && |acc| < total
    requires ItemLengths(it, acc) == Repeat(cur, c)
    ensures ReadLengths(cl, bits, pos, total, acc)
            == ReadLengths(cl, bits, pos + |ItemsBits(cl, [it])|, total, acc + Repeat(cur, c))
  {
    hide ReadLengths, ItemBits, Complete, ItemsBits;
    ItemsBitsOne(cl, it);
    ReadItem(cl, it, bits, pos, total, acc);
  }

  /** A length followed by its repetition. */
  lemma {:induction false} ReadPair(cl: seq<nat>, cur: nat, c: nat, bits: seq<bool>, pos: nat, total: nat, acc: seq<nat>)
    requires Complete(cl) && 1 <= cur <= MAX_BITS && 4 <= c <= 7 && |acc| + c <= total
    requires ItemsFit(cl, [Item(cur, 0, 0)] + [Item(REP_3_6, c - 4, 2)])
    requires At(bits, pos, ItemsBits(cl, [Item(cur, 0, 0)] + [Item(REP_3_6, c - 4, 2)]))
    ensures ReadLengths(cl, bits, pos, total, acc)
            == ReadLengths(cl, bits, pos + |ItemsBits(cl, [Item(cur, 0, 0)] + [Item(REP_3_6, c - 4, 2)])|, total, acc + Repeat(cur, c))
  {
    hide ReadLengths, ItemBits, Complete, ItemsBits, ItemFits, At;
    var a, b := Item(cur, 0, 0), Item(REP_3_6, c - 4, 2);
    SplitItems(cl, [a], [b], bits, pos);
    assert [a][0] == a && [b][0] == b;
    FitSize(cl, a);
    FitSize(cl, b);
    ItemsBitsOne(cl, a);
    ItemsBitsOne(cl, b);
    ReadItem(cl, a, bits, pos, total, acc);
    ReadItem(cl, b, bits, pos + |ItemBits(cl, a)|, total, acc + [cur]);
    assert acc + Repeat(cur, c) == (acc + [cur]) + Repeat(cur, c - 1);
  }

  /** Expanding what send_tree emits for a table gives the table back. */
  lemma {:induction false} ReadTable(cl: seq<nat>, lens: seq<nat>, i: nat, prev: int, bits: seq<bool>, pos: nat, total: nat, base: seq<nat>)
    requires Complete(cl) && ValidLengths(lens) && i <= |lens| && |base| + |lens| <= total
    requires ItemsFit(cl, Items(lens, i, prev))
    requires (i == 0 && prev == -1) || (i > 0 && prev == lens[i - 1])
    requires At(bits, pos, ItemsBits(cl, Items(lens, i, prev)))
    ensures ReadLengths(cl, bits, pos, total, base + lens[..i])
            == ReadLengths(cl, bits, pos + |ItemsBits(cl, Items(lens, i, prev))|, total, base + lens)
    decreases |lens| - i
  {
    hide ReadLengths, ItemBits, Complete, RunItems, ItemFits, ItemsFit, ItemsBits, At;
    if i == |lens| {
      assert lens[..i] == lens;
      NoItems(cl);
    } else {
      var cur, c := lens[i], RunCount(lens, i, prev);
      var run, rest := RunItems(cur, prev, c), Items(lens, i + c, cur);
      assert Items(lens, i, prev) == run + rest;
      SplitItems(cl, run, rest, bits, pos);
      ReadRun(cl, cur, prev, c, bits, pos, total, base + lens[..i]);
      RunExtends(lens, i, c, base);
      ReadTable(cl, lens, i + c, cur, bits, pos + |ItemsBits(cl, run)|, total, base);
    }
  }

  lemma {:induction false} ItemsBitsOne(cl: seq<nat>, it: Item)
    requires ItemFits(cl, it)
    ensures ItemsFit(cl, [it]) && ItemsBits(cl, [it]) == ItemBits(cl, it)
  {
    hide ItemBits, ItemFits;
    var one := [it];
    assert one[1..] == [] && one[0] == it;
  }

  lemma {:induction false} NoItems(cl: seq<nat>)
    ensures ItemsFit(cl, []) && ItemsBits(cl, []) == []
  {
  }

  lemma {:induction false} SplitItems(cl: seq<nat>, a: seq<Item>, b: seq<Item>, bits: seq<bool>, pos: nat)
    requires ItemsFit(cl, a + b) && At(bits, pos, ItemsBits(cl, a + b))
    ensures ItemsFit(cl, a) && ItemsFit(cl, b)
    ensures At(bits, pos, ItemsBits(cl, a)) && At(bits, pos + |ItemsBits(cl, a)|, ItemsBits(cl, b))
    ensures |ItemsBits(cl, a + b)| == |ItemsBits(cl, a)| + |ItemsBits(cl, b)|
  {
    hide ItemFits, ItemsBits, At;
    assert forall k :: 0 <= k < |a| ==> a[k] == (a + b)[k];
    assert forall k :: 0 <= k < |b| ==> b[k] == (a + b)[|a| + k];
    ItemsBitsConcat(cl, a, b);
    AtSplit(bits, pos, ItemsBits(cl, a), ItemsBits(cl, b));
  }

  lemma {:induction false} RunExtends(lens: seq<nat>, i: nat, c: nat, base: seq<nat>)
    requires i < |lens| && 1 <= c <= RunAt(lens, i)
    ensures i + c <= |lens| && lens[i + c - 1] == lens[i]
    ensures (base + lens[..i]) + Repeat(lens[i], c) == base + lens[..i + c]
  {
    forall k | i <= k < i + c ensures lens[k] == lens[i] {
      RunIsEqual(lens, i, k);
    }
  }
}
