/**
 flush_block: the trees are built, the cheapest form of the block is chosen and sent, and
 the counters are reset for the next block.
 */
module FlushBlock {
  import opened Sums
  import opened Inflate
  import opened Canonical
  import opened SymbolTables
  import opened TokenCoding
  import opened Accounting
  import opened CounterWidth
  import opened TreeBuilder
  import opened BitLengths
  import opened LengthAssignment
  import opened CodeAssignment
  import opened HuffmanTree
  import opened RunLength
  import opened TreeCoding
  import opened Tally
  import opened CtInit
  import opened CompressBlock
  import opened BlockFormat
  import opened BlockTables
  import opened BlockChoice
  import opened BitWriter

  /** The trees are built: the tables to send, and codes for every token. */
  ghost predicate Ready(m: Maps, ts: seq<Token>, fl: seq<nat>, dl: seq<nat>, fd: seq<nat>, ddl: seq<nat>, fb: seq<nat>, bdl: seq<nat>, k: Coding)
  {
    && k.DynamicCode? && DynTables(k.cl, k.bl, k.ll, k.dd) && Codes(m, k.ll, k.dd, ts)
    && Guarded(dl, k.ll) && Guarded(ddl, k.dd) && ClTree(fb, bdl, k.cl)
    && CodesSet(fl, k.ll) && CodesSet(fd, k.dd) && Within(m, |k.ll|, |k.dd|, ts)
  }

  lemma {:induction false} GuardedCodes(fc: seq<nat>, dl: seq<nat>, lens: seq<nat>)
    requires Guarded(dl, lens) && CodesSet(fc, lens)
    ensures CodeArrays(fc, dl, lens, |lens|)
  {
    forall s | 0 <= s < |lens| ensures dl[s] == lens[s] {
      assert dl[..|lens|][s] == dl[s];
    }
  }

  lemma {:induction false} StaticArrays(fcL: seq<nat>, dlL: seq<nat>, fcD: seq<nat>, dlD: seq<nat>)
    requires StaticTrees(fcL, dlL, fcD, dlD)
    ensures CodeArrays(fcL, dlL, FixedLiteralLengths(), 288) && CodeArrays(fcD, dlD, FixedDistanceLengths(), D_CODES)
  {
    hide CodeSet;
  }

  /** What build_tree leaves behind for one tree, in terms of its length table. */
  lemma {:induction false} CodedTable(fc: seq<nat>, dl: seq<nat>, elems: nat, maxCode: int, limit: nat, f: seq<nat>)
    requires CodedTree(fc, dl, elems, maxCode, limit) && elems <= |f|
    requires forall x :: 0 <= x < elems && f[x] != 0 ==> dl[x] > 0
    ensures 0 <= maxCode < elems < |dl| && Covers(f, dl[..elems]) && ZeroFrom(dl[..elems], maxCode + 1)
    ensures dl[..elems][..maxCode + 1] == dl[..maxCode + 1] && Complete(dl[..maxCode + 1]) && CodesSet(fc, dl[..maxCode + 1])
  {
  }

  /** The lengths, with zeros behind the last, are those of the Huffman tree of f, so no prefix
      code is cheaper unless one was clipped. */
  ghost predicate HuffmanCode(f: seq<nat>, n: nat, lens: seq<nat>)
  {
    |lens| <= n && var all := lens + Repeat(0, n - |lens|);
    exists t: MergeTree, forced: seq<nat> :: Measured(t, f, n, forced, MAX_BITS, all)
  }

  lemma {:induction false} IsHuffmanCode(f: seq<nat>, n: nat, lens: seq<nat>, k: nat, t: MergeTree, forced: seq<nat>)
    requires Measured(t, f, n, forced, MAX_BITS, lens) && |lens| == n && ZeroFrom(lens, k)
    ensures HuffmanCode(f, n, lens[..k])
  {
    hide Measured;
    assert lens[..k] + Repeat(0, n - k) == lens;
  }

  /** The tables are Huffman codes for the symbols of the tokens. */
  ghost predicate Fitted(m: Maps, ts: seq<Token>, k: Coding)
  {
    k.DynamicCode? && exists fl, fd :: Tallied(fl, fd, m, ts) && HuffmanCode(fl, 286, k.ll) && HuffmanCode(fd, D_CODES, k.dd)
  }

  /** The number of bytes of a block from the number of its bits after the header. */
  lemma {:induction false} BytesOfBlock(m: Maps, ts: seq<Token>, dyn: Coding)
    requires dyn.DynamicCode? && ValidCoding(m, ts, [], dyn) && ValidCoding(m, ts, [], FixedCode)
    ensures BlockBytes(m, ts, dyn) == (|TableBits(dyn.cl, dyn.bl, dyn.ll, dyn.dd)| + |BodyBits(m, dyn.ll, dyn.dd, ts)| + 10) / 8
    ensures BlockBytes(m, ts, FixedCode) == (|BodyBits(m, FixedLiteralLengths(), FixedDistanceLengths(), ts)| + 10) / 8
  {
    hide TableBits, BodyBits, DynTables, Codes, BitsLsb, FixedLiteralLengths, FixedDistanceLengths;
  }

  ghost predicate TreesApart(s: Tree, t: Tree)
  {
    s != t && s.fc != t.fc && s.fc != t.dl && s.dl != t.fc && s.dl != t.dl
  }

  /** The three descriptors as they are set up statically. */
  method NewTrees() returns (lt: Tree, dt: Tree, bt: Tree)
    ensures LDesc(lt) && DDesc(dt) && BlDesc(bt)
    ensures TreesApart(lt, dt) && TreesApart(lt, bt) && TreesApart(dt, bt)
    ensures fresh({lt, lt.fc, lt.dl, dt, dt.fc, dt.dl, bt, bt.fc, bt.dl})
    ensures Narrow(lt.fc[..]) && Narrow(dt.fc[..]) && Narrow(bt.fc[..])
  {
    hide FixedLiteralLengths, FixedDistanceLengths, Pow2;
    Pow2Table();
    lt := new Tree(286, MAX_BITS, LENGTH_EXTRA, 257, Some(FixedLiteralLengths()));
    dt := new Tree(D_CODES, MAX_BITS, DIST_EXTRA, 0, Some(FixedDistanceLengths()));
    bt := new Tree(BL_CODES, 7, EXTRA_BLBITS, 0, None);
  }

  /** The coding part of the compressor's state. */
  class Coder {
    const w: Writer
    const b: Builder
    const lt: Tree
    const dt: Tree
    const bt: Tree
    const tb: TokenBuffer
    const tab: Tables
    ghost const repr: set<object>

    /** repr holds the objects that coding may change. */
    ghost predicate Linked()
    {
      repr == Repr()
    }

    /** The three trees, the builder and the buffers share no array. */
    ghost predicate Shape()
    {
      && LDesc(lt) && DDesc(dt) && BlDesc(bt) && b.Shape() && tb.Shape()
      && b.Apart(lt) && b.Apart(dt) && b.Apart(bt)
      && TreesApart(lt, dt) && TreesApart(lt, bt) && TreesApart(dt, bt)
      && tb.dBuf != lt.fc && tb.dBuf != lt.dl && tb.dBuf != dt.fc && tb.dBuf != dt.dl && tb.dBuf != bt.fc && tb.dBuf != bt.dl
      && tb.dBuf != b.heap && tb.dBuf != b.depth && tb.dBuf != b.blCount
      && {lt.fc, lt.dl, dt.fc, dt.dl, bt.fc, bt.dl, b.heap, b.depth, b.blCount, tb.dBuf} !! tab.Repr()
      && w.outbuf != tb.lBuf && w.outbuf != tb.flagBuf
    }

    /** In front of a token: everything tallied so far is accounted for. */
    ghost predicate Valid()
      reads w, w.outbuf, tb, tb.lBuf, tb.dBuf, tb.flagBuf, tab.Repr(), lt.fc, dt.fc, bt.fc, b
    {
      && Shape() && w.Valid() && tb.Valid() && tab.Valid()
      && Tallied(lt.fc[..], dt.fc[..], tab.M(), tb.tokens) && NoneCounted(bt.fc[..]) && Narrow(lt.fc[..]) && Narrow(dt.fc[..]) && Narrow(bt.fc[..])
      && b.optLen == 0 && b.staticLen == 0
    }

    constructor (w: Writer, tab: Tables)
      requires w.Valid() && tab.Valid()
      ensures Shape() && Narrow(lt.fc[..]) && Narrow(dt.fc[..]) && Narrow(bt.fc[..]) && this.w == w && this.tab == tab && Linked() && fresh(repr - {w, w.outbuf})
    {
      hide ValidMaps, StaticTrees, Writer.Valid, Tallied, TokenBuffer.Valid, FixedLiteralLengths, FixedDistanceLengths, Pow2, NoneCounted, LDesc, DDesc, BlDesc, TreesApart;
      this.w, this.tab := w, tab;
      var l, d, c := NewTrees();
      lt, dt, bt := l, d, c;
      var t := new TokenBuffer();
      tb := t;
      var u := new Builder();
      b := u;
      repr := {w, w.outbuf, u, u.heap, u.depth, u.blCount, l, l.fc, l.dl, d, d.fc, d.dl, c, c.fc, c.dl, t, t.lBuf, t.dBuf, t.flagBuf};
    }

    /** The end of ct_init: the first block starts. */
    method Start()
      requires Linked() && Shape() && w.Valid() && tab.Valid() && Narrow(lt.fc[..]) && Narrow(dt.fc[..]) && Narrow(bt.fc[..])
      modifies repr
      ensures Valid() && w.biValid == old(w.biValid) && tb.tokens == [] && w.Bits() == old(w.Bits()) && w.Bytes() == old(w.Bytes())
    {
      hide Narrow, ValidMaps, StaticTrees, Writer.Valid, Writer.Bits, Tallied, TokenBuffer.Valid, NoneCounted;
      ghost var m := tab.M();
      InitBlock(m);
      assert tab.M() == m;
    }

    /** The objects that coding may change. */
    ghost function Repr(): set<object>
    {
      {w, w.outbuf, b, b.heap, b.depth, b.blCount, lt, lt.fc, lt.dl, dt, dt.fc, dt.dl, bt, bt.fc, bt.dl, tb, tb.lBuf, tb.dBuf, tb.flagBuf}
    }

    /** init_block. */
    method InitBlock(ghost m: Maps)
      requires Shape() && ValidMaps(m) && Narrow(lt.fc[..]) && Narrow(dt.fc[..]) && Narrow(bt.fc[..])
      modifies lt.fc, dt.fc, bt.fc, b`optLen, b`staticLen, tb
      ensures tb.Valid() && tb.tokens == []
      ensures Tallied(lt.fc[..], dt.fc[..], m, []) && NoneCounted(bt.fc[..]) && b.optLen == 0 && b.staticLen == 0
      ensures Narrow(lt.fc[..]) && Narrow(dt.fc[..]) && Narrow(bt.fc[..])
    {
      hide ValidMaps, Tallied, FixedLiteralLengths, FixedDistanceLengths;
      ClearFrequencies(lt.fc, 286);
      ClearFrequencies(dt.fc, D_CODES);
      ClearFrequencies(bt.fc, BL_CODES);
      lt.fc[END_OF_BLOCK] := 1;
      b.optLen, b.staticLen := 0, 0;
      tb.Reset();
      EmptyBlock(lt.fc[..], dt.fc[..], m);
    }

    /** The literal and distance trees, and what they cost with either code. */
    method BuildLitDist(ghost m: Maps, ghost ts: seq<Token>, ghost fl: seq<nat>, ghost fd: seq<nat>)
      returns (ghost ll: seq<nat>, ghost dd: seq<nat>)
      requires Shape() && fl == lt.fc[..] && fd == dt.fc[..] && Tallied(fl, fd, m, ts) && b.optLen == 0 && b.staticLen == 0
      requires |ts| < LIT_BUFSIZE && Narrow(fl) && Narrow(fd)
      modifies b, b.heap, b.depth, b.blCount, lt.fc, lt.dl, lt`maxCode, dt.fc, dt.dl, dt`maxCode
      ensures 0 <= lt.maxCode < 286 && ll == lt.dl[..lt.maxCode + 1] && CodesSet(lt.fc[..], ll) && Complete(ll)
      ensures 0 <= dt.maxCode < D_CODES && dd == dt.dl[..dt.maxCode + 1] && CodesSet(dt.fc[..], dd) && Complete(dd)
      ensures |ll| >= 257 && ll[END_OF_BLOCK] > 0 && Codes(m, ll, dd, ts) && Within(m, |ll|, |dd|, ts)
      ensures Codes(m, FixedLiteralLengths(), FixedDistanceLengths(), ts)
      ensures b.optLen == |BodyBits(m, ll, dd, ts)|
      ensures b.staticLen == |BodyBits(m, FixedLiteralLengths(), FixedDistanceLengths(), ts)|
      ensures Narrow(lt.fc[..]) && Narrow(dt.fc[..])
      ensures HuffmanCode(fl, 286, ll) && HuffmanCode(fd, D_CODES, dd)
    {
      hide HuffmanCode, ValidMaps, BlockCost, Narrow, Measured, Total, Optimal, Forced, SetOnes, CodedTree, CodesSet, Complete, Codes, BodyBits, FixedLiteralLengths, FixedDistanceLengths,
           Frequencies, Used, Covers, ZeroFrom;
      TalliedBound(fl, fd, m, ts);
      ghost var forced, merge := BuildTree(b, lt);
      ghost var lensL, flc := Lengths(lt), lt.fc[..];
      CodedTable(lt.fc[..], lt.dl[..], 286, lt.maxCode, MAX_BITS, fl);
      ll := lt.dl[..lt.maxCode + 1];
      IsHuffmanCode(fl, 286, lensL, lt.maxCode + 1, merge, forced);
      forced, merge := BuildTree(b, dt);
      CodedTable(dt.fc[..], dt.dl[..], D_CODES, dt.maxCode, MAX_BITS, fd);
      ghost var lensD := Lengths(dt);
      dd := dt.dl[..dt.maxCode + 1];
      IsHuffmanCode(fd, D_CODES, lensD, dt.maxCode + 1, merge, forced);
      assert lt.fc[..] == flc && Lengths(lt) == lensL && ll == lt.dl[..lt.maxCode + 1];
      DynamicCodes(fl, fd, m, ts, lensL, lensD, lt.maxCode + 1, dt.maxCode + 1);
      FixedCodes(m, ts);
      DynamicCost(lt, dt, fl, fd, m, ts, lensL, lensD, lt.maxCode + 1, dt.maxCode + 1);
      StaticCost(lt, dt, fl, fd, m, ts, lensL, lensD);
      assert ll[END_OF_BLOCK] == lensL[END_OF_BLOCK];
    }

    /** All three trees: opt_len and static_len are the exact sizes of the block in the two
        compressed forms, without its header. */
    method BuildTrees(ghost m: Maps, ghost ts: seq<Token>) returns (maxBlindex: nat, ghost dyn: Coding)
      requires Shape() && Tallied(lt.fc[..], dt.fc[..], m, ts) && NoneCounted(bt.fc[..]) && b.optLen == 0 && b.staticLen == 0
      requires |ts| < LIT_BUFSIZE && Narrow(lt.fc[..]) && Narrow(dt.fc[..]) && Narrow(bt.fc[..])
      modifies b, b.heap, b.depth, b.blCount, lt.fc, lt.dl, lt`maxCode, dt.fc, dt.dl, dt`maxCode, bt.fc, bt.dl, bt`maxCode
      ensures Ready(m, ts, lt.fc[..], lt.dl[..], dt.fc[..], dt.dl[..], bt.fc[..], bt.dl[..], dyn)
      ensures lt.maxCode + 1 == |dyn.ll| && dt.maxCode + 1 == |dyn.dd| && maxBlindex + 1 == dyn.bl
      ensures Codes(m, FixedLiteralLengths(), FixedDistanceLengths(), ts)
      ensures b.optLen == |TableBits(dyn.cl, dyn.bl, dyn.ll, dyn.dd)| + |BodyBits(m, dyn.ll, dyn.dd, ts)|
      ensures b.staticLen == |BodyBits(m, FixedLiteralLengths(), FixedDistanceLengths(), ts)|
      ensures Narrow(lt.fc[..]) && Narrow(dt.fc[..]) && Narrow(bt.fc[..])
      ensures b.optLen < TWO_32 && b.staticLen <= 48 * LIT_BUFSIZE && Fitted(m, ts, dyn)
    {
      hide HuffmanCode, Narrow, ValidMaps, CodesSet, Complete, Codes, BodyBits, FixedLiteralLengths, FixedDistanceLengths, Tallied, Guarded, ClTree, DynTables, TableBits, Within;
      ghost var fl0, fd0 := lt.fc[..], dt.fc[..];
      ghost var ll, dd := BuildLitDist(m, ts, fl0, fd0);
      ghost var fl, fd := lt.fc[..], dt.fc[..];
      maxBlindex := BuildBlTree(b, lt, dt, bt, ll, dd);
      dyn := DynamicCode(bt.dl[..BL_CODES], maxBlindex + 1, ll, dd);
      assert lt.fc[..] == fl && dt.fc[..] == fd;
      assert Tallied(fl0, fd0, m, ts) && HuffmanCode(fl0, 286, dyn.ll) && HuffmanCode(fd0, D_CODES, dyn.dd);
      TableBound(dyn.cl, dyn.bl, ll, dd);
      BodyBound(m, ll, dd, ts);
      BodyBound(m, FixedLiteralLengths(), FixedDistanceLengths(), ts);
    }

    method SendHeader(kind: nat, eof: bool)
      requires w.Valid() && kind < 3
      modifies w, w.outbuf
      ensures w.Valid() && w.Bits() == old(w.Bits()) + HeaderBits(kind, eof)
    {
      hide Writer.Bits, Writer.Valid, BitsLsb, Pow2;
      Pow2Table();
      w.SendBits(2 * kind + (if eof then 1 else 0), 3);
    }

    method SendStored(buf: seq<byte>, eof: bool)
      requires w.Valid() && |buf| < 65536
      modifies w, w.outbuf
      ensures w.Valid() && w.Bits() == old(w.Bits()) + StoredBits(old(w.Bits()), eof, buf)
    {
      hide Writer.Bits, Writer.Valid, BitsLsb, BytesBits, HeaderBits, Padding;
      ghost var before := w.Bits();
      SendHeader(0, eof);
      w.CopyBlock(buf);
      StoredParts(before, HeaderBits(0, eof), Padding(before + HeaderBits(0, eof)), BitsLsb(|buf|, 16), BitsLsb(65535 - |buf|, 16), BytesBits(buf));
    }

    method SendFixed(eof: bool, ghost m: Maps)
      requires Shape() && w.Valid() && tab.Valid() && tb.Valid() && tab.M() == m
      requires tb.lastFlags < tb.flagBuf.Length && tb.flagBuf[tb.lastFlags] == tb.flags
      requires Codes(m, FixedLiteralLengths(), FixedDistanceLengths(), tb.tokens)
      modifies w, w.outbuf
      ensures w.Valid() && tab.Valid() && tab.M() == m && w.Bits() == old(w.Bits()) + FixedBits(m, eof, tb.tokens)
    {
      hide Writer.Bits, Writer.Valid, HeaderBits, StaticTrees, ValidMaps, CodeArrays, TokensBits, CodeBits, AllCoded, Within, TokenBuffer.Valid, FixedLiteralLengths, FixedDistanceLengths;
      ghost var before, ts := w.Bits(), tb.tokens;
      StaticArrays(tab.fcL[..], tab.dlL[..], tab.fcD[..], tab.dlD[..]);
      ghost var a, b, c, d := tab.fcL[..], tab.dlL[..], tab.fcD[..], tab.dlD[..];
      TokensAreValid(m, FixedLiteralLengths(), FixedDistanceLengths(), ts);
      FixedCodes(m, ts);
      SendHeader(1, eof);
      assert tab.M() == m && tab.fcL[..] == a && tab.dlL[..] == b && tab.fcD[..] == c && tab.dlD[..] == d;
      CompressBlock.CompressBlock(w, tab.fcL, tab.dlL, tab.fcD, tab.dlD, tab, tb, FixedLiteralLengths(), 288, FixedDistanceLengths(), D_CODES);
      Regroup(before, HeaderBits(1, eof) + BodyBits(m, FixedLiteralLengths(), FixedDistanceLengths(), ts), [],
              HeaderBits(1, eof), BodyBits(m, FixedLiteralLengths(), FixedDistanceLengths(), ts));
    }

    method SendDynamic(maxBlindex: nat, eof: bool, ghost m: Maps, ghost dyn: Coding)
      requires Shape() && w.Valid() && tab.Valid() && tb.Valid() && tab.M() == m
      requires tb.lastFlags < tb.flagBuf.Length && tb.flagBuf[tb.lastFlags] == tb.flags
      requires Ready(m, tb.tokens, lt.fc[..], lt.dl[..], dt.fc[..], dt.dl[..], bt.fc[..], bt.dl[..], dyn)
      requires lt.maxCode + 1 == |dyn.ll| && dt.maxCode + 1 == |dyn.dd| && maxBlindex + 1 == dyn.bl
      modifies w, w.outbuf
      ensures w.Valid() && tab.Valid() && tab.M() == m
      ensures w.Bits() == old(w.Bits()) + DynamicBits(m, eof, dyn.cl, dyn.bl, dyn.ll, dyn.dd, tb.tokens)
    {
      hide Writer.Bits, Writer.Valid, HeaderBits, StaticTrees, ValidMaps, CodeArrays, TokensBits, CodeBits, AllCoded, Within, TokenBuffer.Valid,
           CodesSet, Guarded, ClTree, DynTables, TableBits;
      ghost var before, ts := w.Bits(), tb.tokens;
      GuardedCodes(lt.fc[..], lt.dl[..], dyn.ll);
      GuardedCodes(dt.fc[..], dt.dl[..], dyn.dd);
      ghost var a, b, c, d := lt.fc[..], lt.dl[..], dt.fc[..], dt.dl[..];
      ghost var e, f := bt.fc[..], bt.dl[..];
      SendHeader(2, eof);
      assert lt.dl[..] == b && dt.dl[..] == d && bt.fc[..] == e && bt.dl[..] == f;
      ClIsTable(e, f, dyn.cl);
      SendAllTrees(w, lt, dt, bt, lt.maxCode + 1, dt.maxCode + 1, maxBlindex + 1, dyn.ll, dyn.dd, dyn.cl);
      assert tab.M() == m && lt.fc[..] == a && lt.dl[..] == b && dt.fc[..] == c && dt.dl[..] == d;
      CompressBlock.CompressBlock(w, lt.fc, lt.dl, dt.fc, dt.dl, tab, tb, dyn.ll, |dyn.ll|, dyn.dd, |dyn.dd|);
      Concat3(before, HeaderBits(2, eof), TableBits(dyn.cl, dyn.bl, dyn.ll, dyn.dd), BodyBits(m, dyn.ll, dyn.dd, ts));
    }

    /** The part of flush_block that sends the block in the form that its exact sizes call for. */
    method SendBlock(buf: Option<seq<byte>>, storedLen: nat, eof: bool, ghost data: seq<byte>, ghost m: Maps, ghost ts: seq<Token>)
      returns (ghost k: Coding, ghost dyn: Coding)
      requires Shape() && w.Valid() && tb.Valid() && tab.Valid() && tab.M() == m && tb.tokens == ts
      requires Tallied(lt.fc[..], dt.fc[..], m, ts) && NoneCounted(bt.fc[..]) && b.optLen == 0 && b.staticLen == 0
      requires Narrow(lt.fc[..]) && Narrow(dt.fc[..]) && Narrow(bt.fc[..])
      requires |data| == storedLen && (buf.Some? ==> buf.value == data)
      modifies w, w.outbuf, tb.flagBuf, b, b.heap, b.depth, b.blCount, lt.fc, lt.dl, lt`maxCode, dt.fc, dt.dl, dt`maxCode, bt.fc, bt.dl, bt`maxCode
      ensures w.Valid() && tab.Valid() && tab.M() == m && ValidCoding(m, ts, data, k)
      ensures dyn.DynamicCode? && ValidCoding(m, ts, data, dyn) && ValidCoding(m, ts, data, FixedCode) && Chosen(m, ts, data, buf.Some?, dyn, k)
      ensures w.Bits() == old(w.Bits()) + BlockBits(old(w.Bits()), m, eof, ts, data, k)
      ensures Narrow(lt.fc[..]) && Narrow(dt.fc[..]) && Narrow(bt.fc[..]) && Fitted(m, ts, dyn)
    {
      hide Fitted, Narrow, Writer.Bits, Writer.Valid, ValidMaps, StaticTrees, Tallied, NoneCounted, Ready, Codes, DynTables, BodyBits, TableBits,
           FixedLiteralLengths, FixedDistanceLengths, FixedBits, DynamicBits, StoredBits, TokenBuffer.Valid, BlockBytes;
      var maxBlindex: nat;
      SaveFlags();
      maxBlindex, dyn := BuildTrees(m, ts);
      var optLenb, staticLenb := (b.optLen + 3 + 7) / 8, (b.staticLen + 3 + 7) / 8;
      ReadyCoding(m, ts, lt.fc[..], lt.dl[..], dt.fc[..], dt.dl[..], bt.fc[..], bt.dl[..], dyn, data);
      BytesOfBlock(m, ts, dyn);
      if staticLenb <= optLenb {
        optLenb := staticLenb;
      }
      var kind := if storedLen + 4 <= optLenb && buf.Some? then 0 else if staticLenb == optLenb then 1 else 2;
      k := SendForm(kind, buf, maxBlindex, eof, m, ts, data, dyn);
    }

    /** Sends the block in the given form. */
    method SendForm(kind: nat, buf: Option<seq<byte>>, maxBlindex: nat, eof: bool, ghost m: Maps, ghost ts: seq<Token>, ghost data: seq<byte>, ghost dyn: Coding)
      returns (ghost k: Coding)
      requires Shape() && w.Valid() && tb.Valid() && tab.Valid() && tab.M() == m && tb.tokens == ts && kind < 3
      requires tb.lastFlags < tb.flagBuf.Length && tb.flagBuf[tb.lastFlags] == tb.flags
      requires Ready(m, ts, lt.fc[..], lt.dl[..], dt.fc[..], dt.dl[..], bt.fc[..], bt.dl[..], dyn)
      requires lt.maxCode + 1 == |dyn.ll| && dt.maxCode + 1 == |dyn.dd| && maxBlindex + 1 == dyn.bl
      requires ValidCoding(m, ts, data, FixedCode) && (kind == 0 ==> buf == Some(data) && |data| < 65536)
      modifies w, w.outbuf
      ensures k == if kind == 0 then StoredData else if kind == 1 then FixedCode else dyn
      ensures w.Valid() && tab.Valid() && ValidCoding(m, ts, data, k)
      ensures w.Bits() == old(w.Bits()) + BlockBits(old(w.Bits()), m, eof, ts, data, k)
    {
      hide Writer.Bits, Writer.Valid, ValidMaps, StaticTrees, Ready, Codes, DynTables, BodyBits, TableBits,
           FixedLiteralLengths, FixedDistanceLengths, FixedBits, DynamicBits, StoredBits, TokenBuffer.Valid;
      ReadyCoding(m, ts, lt.fc[..], lt.dl[..], dt.fc[..], dt.dl[..], bt.fc[..], bt.dl[..], dyn, data);
      if kind == 0 {
        k := StoredData;
        SendStored(buf.value, eof);
      } else if kind == 1 {
        k := FixedCode;
        SendFixed(eof, m);
      } else {
        k := dyn;
        SendDynamic(maxBlindex, eof, m, dyn);
      }
    }

    /** flush_block: the block is sent, and a new block starts. */
    method FlushBlock(buf: Option<seq<byte>>, storedLen: nat, eof: bool, ghost data: seq<byte>) returns (ghost k: Coding, ghost dyn: Coding)
      requires Valid() && |data| == storedLen && (buf.Some? ==> buf.value == data)
      modifies Repr()
      ensures Valid() && tb.tokens == []
      ensures ValidCoding(tab.M(), old(tb.tokens), data, k)
      ensures dyn.DynamicCode? && ValidCoding(tab.M(), old(tb.tokens), data, dyn) && ValidCoding(tab.M(), old(tb.tokens), data, FixedCode)
      ensures Chosen(tab.M(), old(tb.tokens), data, buf.Some?, dyn, k) && Fitted(tab.M(), old(tb.tokens), dyn)
      ensures var bits := old(w.Bits()) + BlockBits(old(w.Bits()), tab.M(), eof, old(tb.tokens), data, k);
              w.Bits() == if eof then bits + Padding(bits) else bits
      ensures eof ==> w.biValid == 0 && w.biBuf == 0
    {
      hide Fitted, Narrow, Writer.Bits, Writer.Valid, ValidMaps, StaticTrees, Tallied, NoneCounted, ValidCoding, BlockBits, Chosen, Padding, TokenBuffer.Valid;
      ghost var before, ts := w.Bits(), tb.tokens;
      k, dyn := SendBlock(buf, storedLen, eof, data, tab.M(), ts);
      EndBlock(eof, before + BlockBits(before, tab.M(), eof, ts, data, k));
    }

    /** The end of flush_block: a new block starts, and the last byte is completed at the end. */
    method EndBlock(eof: bool, ghost bits: seq<bool>)
      requires Shape() && w.Valid() && tab.Valid() && w.Bits() == bits && Narrow(lt.fc[..]) && Narrow(dt.fc[..]) && Narrow(bt.fc[..])
      modifies w, w.outbuf, lt.fc, dt.fc, bt.fc, b`optLen, b`staticLen, tb
      ensures Valid() && tb.tokens == [] && w.Bits() == if eof then bits + Padding(bits) else bits
      ensures eof ==> w.biValid == 0 && w.biBuf == 0
    {
      hide Narrow, Writer.Bits, Writer.Valid, ValidMaps, StaticTrees, Tallied, NoneCounted, Padding, TokenBuffer.Valid, LDesc, DDesc, BlDesc;
      ghost var m := tab.M();
      InitBlock(m);
      if eof {
        w.BiWindup();
      }
    }

    /** Saves the flags of the last tokens. */
    method SaveFlags()
      requires tb.Valid()
      modifies tb.flagBuf
      ensures tb.Valid() && tb.lastFlags < tb.flagBuf.Length && tb.flagBuf[tb.lastFlags] == tb.flags && |tb.tokens| < LIT_BUFSIZE
    {
      hide BytesOf, DistsOf, KindsOf, BitsLsb, BytesBits, Pow2;
      FlagsSmall(tb.flagBuf[..], tb.flags, tb.lastLit, KindsOf(tb.tokens));
      ghost var fb, lb := tb.flagBuf[..], tb.lBuf[..];
      tb.flagBuf[tb.lastFlags] := tb.flags;
      assert tb.flagBuf[..tb.lastFlags] == fb[..tb.lastFlags];
      assert tb.lBuf[..] == lb && tb.lBuf[..tb.lastLit] == lb[..tb.lastLit];
    }
  }

  lemma {:induction false} FlagsSmall(fb: seq<byte>, flags: nat, n: nat, kinds: seq<bool>)
    requires Flags(fb, flags, n, kinds)
    ensures flags < 256
  {
    Pow2Monotone(n % 8, 8);
    Pow2Eight();
  }

  lemma {:induction false} ReadyCoding(m: Maps, ts: seq<Token>, fl: seq<nat>, dl: seq<nat>, fd: seq<nat>, ddl: seq<nat>, fb: seq<nat>, bdl: seq<nat>, k: Coding, data: seq<byte>)
    requires Ready(m, ts, fl, dl, fd, ddl, fb, bdl, k)
    ensures k.DynamicCode? && ValidCoding(m, ts, data, k) && ValidCoding(m, ts, [], k)
  {
    hide DynTables, Codes;
  }

  lemma {:induction false} TokensAreValid(m: Maps, ll: seq<nat>, dd: seq<nat>, ts: seq<Token>)
    requires Codes(m, ll, dd, ts)
    ensures ValidMaps(m) && ValidTokens(ts)
  {
  }

  lemma {:induction false} StoredParts(s: seq<bool>, h: seq<bool>, p: seq<bool>, a: seq<bool>, b: seq<bool>, c: seq<bool>)
    ensures ((((s + h) + p) + a) + b) + c == s + ((h + p) + ((a + b) + c))
  {
  }

  /** One of the loops of init_block. */
  method ClearFrequencies(fc: array<nat>, elems: nat)
    requires elems <= fc.Length && Narrow(fc[..])
    modifies fc
    ensures Narrow(fc[..]) && forall x :: 0 <= x < elems ==> fc[x] == 0
  {
    for n := 0 to elems
      invariant Narrow(fc[..]) && forall x :: 0 <= x < n ==> fc[x] == 0
    {
      fc[n] := 0;
    }
  }

  /** An empty block counts only its end. */
  lemma {:induction false} EmptyBlock(fl: seq<nat>, fd: seq<nat>, m: Maps)
    requires ValidMaps(m) && |fl| >= 286 && |fd| >= D_CODES
    requires forall x :: 0 <= x < 286 ==> fl[x] == if x == END_OF_BLOCK then 1 else 0
    requires forall x :: 0 <= x < D_CODES ==> fd[x] == 0
    ensures Tallied(fl, fd, m, [])
  {
    hide ValidMaps;
    var syms := LitSymbols(m, []);
    assert syms == [END_OF_BLOCK];
    forall x | 0 <= x < 286 ensures fl[x] == Count(syms, x) {
      assert syms[..0] == [];
    }
  }

  /** No symbol of the code length alphabet has been counted. */
  ghost predicate NoneCounted(f: seq<nat>)
  {
    |f| >= BL_CODES && forall x :: 0 <= x < BL_CODES ==> f[x] == 0
  }
}
