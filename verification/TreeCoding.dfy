/**
 scan_tree and send_tree: one loop over a length table, used once to count the symbols of
 the code length alphabet and once to send them.
 */
module TreeCoding {
  import opened Sums
  import opened Inflate
  import opened Canonical
  import opened RunLength
  import opened CodeAssignment
  import opened BitWriter

  const GUARD := 0xffff

  // ----- counting symbols -----

  /** The frequencies after counting every item once. */
  function AddItems(f: seq<nat>, items: seq<Item>): (r: seq<nat>)
    ensures |r| == |f|
  {
    if items == [] then f
    else
      var g, s := AddItems(f, items[..|items| - 1]), items[|items| - 1].sym;
      if s < |g| then g[s := g[s] + 1] else g
  }

  lemma {:induction false} AddItemsSnoc(f: seq<nat>, items: seq<Item>, it: Item)
    requires it.sym < |f|
    ensures var g := AddItems(f, items); AddItems(f, items + [it]) == g[it.sym := g[it.sym] + 1]
  {
    assert (items + [it])[..|items|] == items;
  }

  lemma {:induction false} AddItemsConcat(f: seq<nat>, a: seq<Item>, b: seq<Item>)
    ensures AddItems(f, a + b) == AddItems(AddItems(f, a), b)
  {
    if b == [] {
      assert a + b == a;
    } else {
      var init := b[..|b| - 1];
      AddItemsConcat(f, a, init);
      assert (a + b)[..|a + b| - 1] == a + init;
    }
  }

  lemma {:induction false} AddCopies(f: seq<nat>, s: nat, c: nat)
    requires s < |f|
    ensures AddItems(f, seq(c, _ => Item(s, 0, 0))) == f[s := f[s] + c]
  {
    if c > 0 {
      AddCopies(f, s, c - 1);
      var it := Item(s, 0, 0);
      assert seq(c, _ => it) == seq(c - 1, _ => it) + [it];
      AddItemsSnoc(f, seq(c - 1, _ => it), it);
    } else {
      assert f[s := f[s] + 0] == f;
    }
  }

  lemma {:induction false} AddOne(f: seq<nat>, it: Item)
    requires it.sym < |f|
    ensures AddItems(f, [it]) == f[it.sym := f[it.sym] + 1]
  {
    assert [it][..0] == [];
  }

  lemma {:induction false} AddTwo(f: seq<nat>, a: Item, b: Item)
    requires a.sym < |f| && b.sym < |f| && a.sym != b.sym
    ensures AddItems(f, [a] + [b]) == f[a.sym := f[a.sym] + 1][b.sym := f[b.sym] + 1]
  {
    hide AddItems;
    AddOne(f, a);
    AddItemsSnoc(f, [a], b);
  }

  // ----- the common loop -----

  /** In front of index n: the last count lengths are equal and not yet dealt with, and
      everything before them has been turned into the items done. */
  ghost predicate RunInv(lens: seq<nat>, n: nat, count: nat, prev: int, done: seq<Item>)
  {
    && count <= n <= |lens| && (n == |lens| ==> count == 0)
    && (forall k :: n - count <= k < n ==> lens[k] == lens[n])
    && (n < |lens| ==> count < MaxCount(lens[n], prev))
    && (if n - count == 0 then prev == -1 else prev == lens[n - count - 1])
    && done + Items(lens, n - count, prev) == Items(lens, 0, -1)
  }

  lemma {:induction false} RunStart(lens: seq<nat>)
    ensures RunInv(lens, 0, 0, -1, [])
  {
    assert [] + Items(lens, 0, -1) == Items(lens, 0, -1);
  }

  lemma {:induction false} RunGoesOn(lens: seq<nat>, n: nat, count: nat, prev: int, done: seq<Item>)
    requires RunInv(lens, n, count, prev, done) && n + 1 < |lens|
    requires lens[n + 1] == lens[n] && count + 1 < MaxCount(lens[n], prev)
    ensures RunInv(lens, n + 1, count + 1, prev, done)
  {
  }

  lemma {:induction false} RunEnds(lens: seq<nat>, n: nat, count: nat, prev: int, done: seq<Item>)
    requires RunInv(lens, n, count, prev, done) && n < |lens|
    requires count + 1 == MaxCount(lens[n], prev) || n + 1 == |lens| || lens[n + 1] != lens[n]
    ensures RunInv(lens, n + 1, 0, lens[n], done + RunItems(lens[n], prev, count + 1))
  {
    hide RunItems, Items;
    var i, c := n - count, count + 1;
    assert lens[i] == lens[n];
    RunFinished(lens, i, c, prev);
    Associate(done, RunItems(lens[i], prev, c), Items(lens, i + c, lens[i]));
  }

  lemma {:induction false} Associate(a: seq<Item>, b: seq<Item>, c: seq<Item>)
    ensures a + (b + c) == (a + b) + c
  {
  }

  /** The length after index n, a guard at the end. */
  function NextLength(lens: seq<nat>, n: nat): nat
  {
    if n < |lens| then lens[n] else GUARD
  }

  /** The lengths in the array, followed by the guard. */
  ghost predicate Guarded(dl: seq<nat>, lens: seq<nat>)
  {
    |lens| < |dl| && dl[..|lens|] == lens && dl[|lens|] == GUARD && ValidLengths(lens)
  }

  lemma {:induction false} GuardedAt(dl: seq<nat>, lens: seq<nat>, n: nat)
    requires Guarded(dl, lens) && n <= |lens|
    ensures n < |dl| && dl[n] == NextLength(lens, n) && (n < |lens| ==> dl[n] <= MAX_BITS)
  {
    if n < |lens| {
      assert dl[..|lens|][n] == dl[n];
    }
  }

  // ----- scan_tree -----

  /** Counts the symbols of one finished run. */
  method CountRun(freq: array<nat>, cur: nat, prev: int, count: nat, ghost f: seq<nat>)
    requires freq[..] == f && freq.Length >= 19 && cur <= MAX_BITS && 1 <= count
    modifies freq
    ensures freq[..] == AddItems(f, RunItems(cur, prev, count))
  {
    hide AddItems;
    var minCount := MinCount(cur, prev);
    if count < minCount {
      AddCopies(f, cur, count);
      freq[cur] := freq[cur] + count;
    } else if cur != 0 {
      if cur != prev {
        AddTwo(f, Item(cur, 0, 0), Item(REP_3_6, count - 4, 2));
        freq[cur] := freq[cur] + 1;
      } else {
        AddOne(f, Item(REP_3_6, count - 3, 2));
      }
      freq[REP_3_6] := freq[REP_3_6] + 1;
    } else if count <= 10 {
      AddOne(f, Item(REPZ_3_10, count - 3, 3));
      freq[REPZ_3_10] := freq[REPZ_3_10] + 1;
    } else {
      AddOne(f, Item(REPZ_11_138, count - 11, 7));
      freq[REPZ_11_138] := freq[REPZ_11_138] + 1;
    }
  }

  /** scan_tree: the guard is set and every item that send_tree will send is counted. */
  method ScanTree(dl: array<nat>, maxCode: nat, freq: array<nat>, ghost lens: seq<nat>, ghost f: seq<nat>)
    requires dl != freq && maxCode + 1 < dl.Length && lens == dl[..maxCode + 1] && ValidLengths(lens)
    requires freq[..] == f && freq.Length >= 19
    modifies dl, freq
    ensures dl[..] == old(dl[..])[maxCode + 1 := GUARD] && Guarded(dl[..], lens)
    ensures freq[..] == AddItems(f, Items(lens, 0, -1))
  {
    hide RunInv, RunItems, Guarded, AddItems;
    var prevlen: int, count: nat := -1, 0;
    var nextlen: nat := dl[0];
    var maxCount := if nextlen == 0 then 138 else 7;
    dl[maxCode + 1] := GUARD;
    ghost var d := dl[..];
    SetGuard(d, lens);
    GuardedAt(d, lens, 0);
    ghost var done := [];
    RunStart(lens);
    NothingAdded(f);
    for n := 0 to maxCode + 1
      invariant dl[..] == d && nextlen == NextLength(lens, n) && prevlen >= -1 && count >= 0
      invariant RunInv(lens, n, count, prevlen, done) && maxCount == MaxCount(nextlen, prevlen)
      invariant freq[..] == AddItems(f, done)
    {
      var curlen := nextlen;
      GuardedAt(d, lens, n);
      GuardedAt(d, lens, n + 1);
      nextlen := dl[n + 1];
      count := count + 1;
      if count < maxCount && curlen == nextlen {
        RunGoesOn(lens, n, count - 1, prevlen, done);
        continue;
      }
      RunBounded(lens, n, count - 1, prevlen, done);
      RunEnds(lens, n, count - 1, prevlen, done);
      AddItemsConcat(f, done, RunItems(curlen, prevlen, count));
      CountRun(freq, curlen, prevlen, count, AddItems(f, done));
      done := done + RunItems(curlen, prevlen, count);
      count := 0;
      prevlen := curlen;
      maxCount := if nextlen == 0 then 138 else if curlen == nextlen then 6 else 7;
    }
    RunAllDone(lens, count, prevlen, done);
  }

  lemma {:induction false} SetGuard(d: seq<nat>, lens: seq<nat>)
    requires |lens| < |d| && d[|lens|] == GUARD && ValidLengths(lens)
    requires forall k :: 0 <= k < |lens| ==> d[k] == lens[k]
    ensures Guarded(d, lens)
  {
  }

  lemma {:induction false} NothingAdded(f: seq<nat>)
    ensures AddItems(f, []) == f
  {
  }

  lemma {:induction false} RunBounded(lens: seq<nat>, n: nat, count: nat, prev: int, done: seq<Item>)
    requires RunInv(lens, n, count, prev, done) && n < |lens|
    ensures count + 1 <= MaxCount(lens[n], prev)
  {
  }

  lemma {:induction false} RunAllDone(lens: seq<nat>, count: nat, prev: int, done: seq<Item>)
    requires RunInv(lens, |lens|, count, prev, done)
    ensures done == Items(lens, 0, -1)
  {
  }

  // ----- send_tree -----

  /** SEND_CODE. */
  method SendCode(w: Writer, fc: array<nat>, dl: array<nat>, c: nat, ghost lens: seq<nat>)
    requires w.Valid() && c < |lens| && c < fc.Length && c < dl.Length && dl[c] == lens[c]
    requires 1 <= lens[c] <= MAX_BITS && CodeSet(fc[..], lens, c)
    modifies w, w.outbuf
    ensures w.Valid() && w.Bits() == old(w.Bits()) + CodeBits(lens, c)
  {
    w.SendBits(fc[c], dl[c]);
  }

  /** The tables of the code length code. */
  ghost predicate ClTree(fc: seq<nat>, dl: seq<nat>, cl: seq<nat>)
  {
    |cl| == 19 && |fc| >= 19 && |dl| >= 19 && dl[..19] == cl && CodesSet(fc, cl)
  }

  /** Sends one item: its code and its extra bits. */
  method SendItem(w: Writer, fc: array<nat>, dl: array<nat>, it: Item, ghost cl: seq<nat>)
    requires w.Valid() && ClTree(fc[..], dl[..], cl) && ItemFits(cl, it)
    modifies w, w.outbuf
    ensures w.Valid() && w.Bits() == old(w.Bits()) + ItemBits(cl, it)
  {
    hide Pow2, BitsLsb, CodeBits, Writer.Bits, Writer.Valid;
    assert dl[..19][it.sym] == dl[it.sym];
    ghost var before := w.Bits();
    SendCode(w, fc, dl, it.sym, cl);
    if it.bits > 0 {
      w.SendBits(it.extra, it.bits);
    }
    Regroup(before, ItemBits(cl, it), [], CodeBits(cl, it.sym), BitsLsb(it.extra, it.bits));
  }

  /** Sends what stands for one finished run. */
  method SendRun(w: Writer, fc: array<nat>, dl: array<nat>, cur: nat, prev: int, count0: nat, ghost cl: seq<nat>)
    requires w.Valid() && ClTree(fc[..], dl[..], cl) && 1 <= count0
    requires ItemsFit(cl, RunItems(cur, prev, count0))
    modifies w, w.outbuf
    ensures w.Valid() && w.Bits() == old(w.Bits()) + ItemsBits(cl, RunItems(cur, prev, count0))
  {
    hide ItemFits, ItemBits, ClTree, Writer.Bits, Writer.Valid;
    ghost var items, before := RunItems(cur, prev, count0), w.Bits();
    var count := count0;
    var minCount := MinCount(cur, prev);
    if count < minCount {
      assert items[0] == Item(cur, 0, 0) && ItemFits(cl, items[0]);
      while count > 0
        invariant 0 <= count <= count0 && w.Valid()
        invariant ItemsFit(cl, items[..count0 - count])
        invariant w.Bits() == before + ItemsBits(cl, items[..count0 - count])
      {
        ItemsBitsSnoc(cl, items, count0 - count, before);
        SendItem(w, fc, dl, Item(cur, 0, 0), cl);
        count := count - 1;
      }
      assert items[..count0] == items;
    } else if cur != 0 {
      if cur != prev {
        ItemsBitsTwo(cl, Item(cur, 0, 0), Item(REP_3_6, count - 4, 2), before);
        SendItem(w, fc, dl, Item(cur, 0, 0), cl);
        count := count - 1;
      } else {
        assert ItemFits(cl, items[0]);
        ItemsBitsOne(cl, Item(REP_3_6, count - 3, 2));
      }
      SendItem(w, fc, dl, Item(REP_3_6, count - 3, 2), cl);
    } else {
      assert ItemFits(cl, items[0]);
      ItemsBitsOne(cl, items[0]);
      if count <= 10 {
        SendItem(w, fc, dl, Item(REPZ_3_10, count - 3, 3), cl);
      } else {
        SendItem(w, fc, dl, Item(REPZ_11_138, count - 11, 7), cl);
      }
    }
  }

  lemma {:induction false} ItemsBitsSnoc(cl: seq<nat>, items: seq<Item>, k: nat, before: seq<bool>)
    requires k < |items| && ItemsFit(cl, items)
    ensures ItemsFit(cl, items[..k]) && ItemsFit(cl, items[..k + 1]) && items[k].sym < |cl|
    ensures (before + ItemsBits(cl, items[..k])) + ItemBits(cl, items[k]) == before + ItemsBits(cl, items[..k + 1])
  {
    hide ItemBits, ItemsBits, ItemFits;
    var init, one := items[..k], [items[k]];
    FitSize(cl, items[k]);
    ItemsBitsOne(cl, items[k]);
    ItemsBitsConcat(cl, init, one);
    assert init + one == items[..k + 1];
    Regroup(before, ItemsBits(cl, init) + ItemsBits(cl, one), [], ItemsBits(cl, init), ItemsBits(cl, one));
  }

  lemma {:induction false} ItemsBitsTwo(cl: seq<nat>, x: Item, y: Item, before: seq<bool>)
    requires ItemsFit(cl, [x] + [y])
    ensures ItemFits(cl, x) && ItemFits(cl, y) && x.sym < |cl| && y.sym < |cl|
    ensures (before + ItemBits(cl, x)) + ItemBits(cl, y) == before + ItemsBits(cl, [x] + [y])
  {
    hide ItemBits, ItemsBits, ItemFits;
    var items := [x] + [y];
    assert ItemFits(cl, items[0]) && ItemFits(cl, items[1]);
    FitSize(cl, x);
    FitSize(cl, y);
    ItemsBitsOne(cl, x);
    ItemsBitsOne(cl, y);
    ItemsBitsConcat(cl, [x], [y]);
    Regroup(before, ItemBits(cl, x) + ItemBits(cl, y), [], ItemBits(cl, x), ItemBits(cl, y));
  }

  /** send_tree: sends exactly the items of the table. */
  method SendTree(w: Writer, dl: array<nat>, maxCode: nat, fcBl: array<nat>, dlBl: array<nat>, ghost lens: seq<nat>, ghost cl: seq<nat>)
    requires w.Valid() && |lens| == maxCode + 1 && Guarded(dl[..], lens) && ClTree(fcBl[..], dlBl[..], cl)
    requires ItemsFit(cl, Items(lens, 0, -1))
    modifies w, w.outbuf
    ensures w.Valid() && w.Bits() == old(w.Bits()) + ItemsBits(cl, Items(lens, 0, -1))
  {
    hide RunInv, RunItems, Guarded, ClTree, ItemsFit, ItemsBits, Items, Writer.Bits, Writer.Valid;
    var prevlen: int, count: nat := -1, 0;
    ghost var d, fb, db, before := dl[..], fcBl[..], dlBl[..], w.Bits();
    GuardedAt(d, lens, 0);
    var nextlen: nat := dl[0];
    var maxCount := if nextlen == 0 then 138 else 7;
    ghost var done := [];
    RunStart(lens);
    NoItems(cl);
    for n := 0 to maxCode + 1
      invariant w.Valid() && dl[..] == d && fcBl[..] == fb && dlBl[..] == db
      invariant nextlen == NextLength(lens, n) && prevlen >= -1
      invariant RunInv(lens, n, count, prevlen, done) && maxCount == MaxCount(nextlen, prevlen)
      invariant ItemsFit(cl, done) && w.Bits() == before + ItemsBits(cl, done)
    {
      var curlen := nextlen;
      GuardedAt(d, lens, n);
      GuardedAt(d, lens, n + 1);
      nextlen := dl[n + 1];
      count := count + 1;
      if count < maxCount && curlen == nextlen {
        RunGoesOn(lens, n, count - 1, prevlen, done);
        continue;
      }
      RunBounded(lens, n, count - 1, prevlen, done);
      RunEnds(lens, n, count - 1, prevlen, done);
      ghost var run := RunItems(curlen, prevlen, count);
      RunFits(lens, n + 1, curlen, done + run, cl, done, run);
      ItemsBitsConcat(cl, done, run);
      SendRun(w, fcBl, dlBl, curlen, prevlen, count, cl);
      Regroup(before, ItemsBits(cl, done) + ItemsBits(cl, run), [], ItemsBits(cl, done), ItemsBits(cl, run));
      done := done + run;
      count := 0;
      prevlen := curlen;
      maxCount := if nextlen == 0 then 138 else if curlen == nextlen then 6 else 7;
    }
    RunAllDone(lens, count, prevlen, done);
  }

  lemma {:induction false} RunFits(lens: seq<nat>, n: nat, prev: int, sent: seq<Item>, cl: seq<nat>, done: seq<Item>, run: seq<Item>)
    requires RunInv(lens, n, 0, prev, sent) && sent == done + run && ItemsFit(cl, Items(lens, 0, -1))
    ensures ItemsFit(cl, done) && ItemsFit(cl, run)
  {
    hide ItemFits, Items;
    var all := Items(lens, 0, -1);
    var rest := Items(lens, n, prev);
    assert all == (done + run) + rest;
    assert forall k :: 0 <= k < |done| ==> done[k] == all[k];
    assert forall k :: 0 <= k < |run| ==> run[k] == all[|done| + k];
  }
}
