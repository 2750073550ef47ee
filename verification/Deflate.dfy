/**
 deflate: the main loop with lazy matching, and what comes out of it: the bits sent are
 read back as exactly the input.
 */
module Deflate {
  import opened Sums
  import opened Inflate
  import opened TokenCoding
  import opened HashChains
  import opened MatchSearch
  import opened Window
  import opened Tally
  import opened CompressBlock
  import opened BlockChoice
  import opened FlushBlock
  import opened Stream
  import opened LazyRule
  import opened BitWriter

  /** A match in the window, cut to the lookahead, is a repetition in the input. */
  lemma {:induction false} FoundMatch(w: seq<byte>, input: seq<byte>, base: nat, s: nat, from: nat, len: nat, cut: nat)
    requires Filled(w, input, base) && Candidate(w, s, from) && |w| == WINDOW_SIZE + MAX_MATCH && s < WINDOW_SIZE
    requires len == Lcp(w, s, from, 0) && cut <= len && base + s + cut <= |input|
    ensures Repeats(input, base + s, s - from, cut) && 1 <= s - from <= MAX_DIST
  {
    hide Lcp, Filled, Candidate;
    CandidateBounds(w, s, from);
    FilledSize(w, input, base);
    var at, d := base + s, s - from;
    forall i | 0 <= i < cut ensures SameByte(input, at, d, i) {
      LcpEqual(w, s, from, 0, i);
      FilledAt(w, input, base, s + i);
      FilledAt(w, input, base, from + i);
    }
  }

  lemma {:induction false} SmallSub(a: nat, b: nat)
    requires b <= a < TWO_32
    ensures Sub32(a, b) == a - b
  {
  }

  /** A string with the same key, not too far away. */
  lemma {:induction false} HeadIsCandidate(w: seq<byte>, q: nat, s: nat)
    requires LinkOk(w, q, s) && q != 0 && s - q <= MAX_DIST && s + 2 < |w|
    ensures Candidate(w, s, q)
  {
    hide KeyAt;
  }

  /** INSERT_STRING at strstart and the search for a match there, p. All reads lie inside the
      window unless the end of the input is known and close. */
  method FindMatch(win: Window, prevLength: nat, ghost input: seq<byte>) returns (matchLength: nat, ghost p: Probe)
    requires win.Valid(win.strstart) && win.Ahead() && win.lookahead > 0 && prevLength >= 1
    requires (win.lookahead >= MIN_LOOKAHEAD || win.eofile) && win.Reads(input)
    requires Rolling(win.insH, win.window[..], win.strstart)
    modifies win`insH, win`matchStart, win.prev, win.head
    ensures win.Valid(win.strstart + 1) && Rolling(win.insH, win.window[..], win.strstart + 1)
    ensures 1 <= matchLength <= MAX_MATCH && win.strstart < WINDOW_SIZE
    ensures p == Probe(win.window[..], win.prev[..], win.strstart, prevLength, old(win.matchStart), win.lookahead) && Shaped(p)
    ensures Searched(input, win.base + win.strstart, p) && Lookup(p).length == matchLength && Lookup(p).start == win.matchStart
    ensures !win.eofile || win.strstart < WINDOW_SIZE - MAX_MATCH ==> Lookup(p).top < WINDOW_SIZE
    ensures matchLength > prevLength && matchLength >= MIN_MATCH ==>
              && DistOf(p) <= MAX_DIST && Repeats(win.consumed, win.base + win.strstart, DistOf(p), matchLength)
  {
    hide Rolling, Filled, Summed, Crc32.CrcTable, Heads, Repeats, Lcp, Candidate, Search, LinkOk, Sub32, Link, NoneLonger, Chain, Searched;
    ghost var w: seq<byte>, start0 := win.window[..], win.matchStart;
    FilledSize(w, win.consumed, win.base);
    var s := win.strstart;
    var hashHead := win.InsertString(s, w);
    p := Probe(w, win.prev[..], s, prevLength, start0, win.lookahead);
    SearchedHere(input, win.consumed, win.base, p);
    matchLength := MIN_MATCH - 1;
    LinkBelow(w, hashHead, s);
    if hashHead != 0 && prevLength < MAX_LAZY && s - hashHead <= MAX_DIST {
      HeadIsCandidate(w, hashHead, s);
      var len, from;
      ghost var reach;
      len, from, reach := LongestMatch(win.window, win.prev, s, hashHead, prevLength, win.matchStart, w, win.prev[..]);
      win.matchStart := from;
      matchLength := len;
      if matchLength > win.lookahead {
        matchLength := win.lookahead;
      }
      if len > prevLength {
        FoundMatch(w, win.consumed, win.base, s, from, len, matchLength);
        CandidateBounds(w, s, from);
        SmallSub(s, from);
      }
      if matchLength == MIN_MATCH && Sub32(s, win.matchStart) > TOO_FAR {
        matchLength := matchLength - 1;
      }
    }
  }

  lemma {:induction false} SearchedHere(input: seq<byte>, consumed: seq<byte>, base: nat, p: Probe)
    requires Shaped(p) && p.ahead > 0 && base + p.s + p.ahead == |consumed| && consumed <= input && (base == 0 || p.s >= MAX_DIST)
    requires p.ahead >= MIN_LOOKAHEAD || consumed == input
    requires Filled(p.w, consumed, base) && Links(p.w, p.prev, p.s + 1)
    ensures Searched(input, base + p.s, p)
  {
    hide Filled, Links;
    assert input[..|consumed|] == consumed;
  }

  lemma {:induction false} LinkBelow(w: seq<byte>, q: nat, p: nat)
    requires LinkOk(w, q, p)
    ensures q <= p
  {
  }

  /** Inserts the strings inside a match; the first two have been inserted already. */
  method InsertRest(win: Window, prevLength: nat, ghost w: seq<byte>)
    requires win.Valid(win.strstart + 1) && win.window[..] == w && Rolling(win.insH, w, win.strstart + 1)
    requires prevLength >= 1 && win.strstart + prevLength + 2 < WINDOW_SIZE
    modifies win`insH, win`strstart, win.prev, win.head
    ensures win.strstart == old(win.strstart) + prevLength
    ensures win.Valid(win.strstart + 1) && Rolling(win.insH, w, win.strstart + 1) && win.window[..] == w
  {
    hide Rolling, Filled, Summed, Crc32.CrcTable, Chains;
    var left := prevLength;
    while true
      invariant 1 <= left <= prevLength && win.strstart == old(win.strstart) + (prevLength - left)
      invariant win.Valid(win.strstart + 1) && Rolling(win.insH, w, win.strstart + 1) && win.window[..] == w
      decreases left
    {
      win.strstart := win.strstart + 1;
      var hashHead := win.InsertString(win.strstart, w);
      left := left - 1;
      if left == 0 {
        break;
      }
    }
  }

  /** The coder and the window share no array. */
  ghost predicate Apart(c: Coder, win: Window)
  {
    && win !in c.repr && win.window !in c.repr && win.prev !in c.repr && win.head !in c.repr
    && win !in c.tab.Repr() && win.window !in c.tab.Repr() && win.prev !in c.tab.Repr() && win.head !in c.tab.Repr()
  }

  /** What has been sent so far are these blocks. */
  ghost predicate Sending(c: Coder, header: seq<bool>, blocks: seq<Sent>)
    reads c.repr, c.tab.Repr()
  {
    && c.Linked() && c.Valid()
    && ValidBlocks(c.tab.M(), blocks, false) && c.w.Bits() == Assemble(header, c.tab.M(), blocks, false)
  }

  /** What has been sent is a whole stream of these blocks, which ends in the last byte. */
  ghost predicate Finished(c: Coder, header: seq<bool>, blocks: seq<Sent>)
    reads c.w, c.w.outbuf
  {
    && c.w.Valid() && c.w.biValid == 0 && c.w.biBuf == 0 && ValidBlocks(c.tab.M(), blocks, true)
    && var bits := Assemble(header, c.tab.M(), blocks, true); c.w.Bits() == bits + Padding(bits)
  }

  /** The block that ends with the tokens may end there. */
  ghost predicate MayEnd(m: Maps, ts: seq<Token>, eof: bool)
  {
    if eof then ts == [] || Open(m, ts[..|ts| - 1]) else JustFull(m, ts)
  }

  /** flush_block in terms of the stream: a block with the given data is added. */
  method SendData(c: Coder, buf: Option<seq<byte>>, storedLen: nat, eof: bool, ghost header: seq<bool>, ghost blocks: seq<Sent>, ghost data: seq<byte>)
    returns (ghost b: Sent)
    requires Sending(c, header, blocks) && Expand(DataOf(blocks), c.tb.tokens) == Some(DataOf(blocks) + data)
    requires |data| == storedLen && (buf.Some? ==> buf.value == data) && MayEnd(c.tab.M(), c.tb.tokens, eof)
    modifies c.repr
    ensures c.tb.tokens == [] && b.tokens == old(c.tb.tokens) && b.data == data && b.buffered == buf.Some?
    ensures !eof ==> Sending(c, header, blocks + [b])
    ensures eof ==> Finished(c, header, blocks + [b])
  {
    hide Writer.Bits, Writer.Valid, ValidCoding, Chosen, Fitted, BlockBits, TokenBuffer.Valid, Expand, Coder.Shape, ValidBlocks, Assemble, DataOf,
         Tallied, NoneCounted, ValidMaps, SymbolTables.StaticTrees, Padding, CounterWidth.Narrow, JustFull, Open;
    ghost var ts := c.tb.tokens;
    ghost var k, dyn := c.FlushBlock(buf, storedLen, eof, data);
    b := Sent(ts, data, buf.Some?, dyn, k);
    OneMoreBlock(header, c.tab.M(), blocks, b, eof);
  }

  /** FLUSH_BLOCK: the block covers exactly the input from block_start to strstart. */
  method Flush(c: Coder, win: Window, eof: bool, ghost header: seq<bool>, ghost blocks: seq<Sent>, ghost n: nat, ghost w: seq<byte>) returns (ghost b: Sent)
    requires Apart(c, win) && Sending(c, header, blocks) && win.Valid(n) && win.window[..] == w
    requires win.base + win.blockStart == |DataOf(blocks)| && Covered(DataOf(blocks), c.tb.tokens, win.consumed, win.base + win.strstart)
    requires MayEnd(c.tab.M(), c.tb.tokens, eof)
    modifies c.repr
    ensures c.tb.tokens == [] && win.Valid(n) && win.window[..] == w
    ensures b.tokens == old(c.tb.tokens) && b.buffered == (win.blockStart >= 0)
    ensures DataOf(blocks + [b]) == win.consumed[..win.base + win.strstart]
    ensures !eof ==> Sending(c, header, blocks + [b])
    ensures eof ==> Finished(c, header, blocks + [b])
  {
    hide Coder.Valid, Sending, Finished, Covered, Chains, Filled, Summed, Crc32.CrcTable, Expand, MayEnd, DataOf;
    ghost var pos, done := win.base + win.strstart, DataOf(blocks);
    CoveredData(done, c.tb.tokens, win.consumed, pos);
    CoveredExpand(done, c.tb.tokens, win.consumed, pos);
    ghost var data := win.consumed[|done|..pos];
    var buf: Option<seq<byte>> := None;
    if win.blockStart >= 0 {
      FilledSize(w, win.consumed, win.base);
      FilledSlice(w, win.consumed, win.base, win.blockStart, win.strstart);
      buf := Some(win.window[win.blockStart..win.strstart]);
    }
    ghost var h, p := win.head[..], win.prev[..];
    b := SendData(c, buf, win.strstart - win.blockStart, eof, header, blocks, data);
    DataSnoc(blocks, b);
    assert win.window[..] == w && win.head[..] == h && win.prev[..] == p;
  }

  lemma {:induction false} DataSnoc(blocks: seq<Sent>, b: Sent)
    ensures DataOf(blocks + [b]) == DataOf(blocks) + b.data && TokensOf(blocks + [b]) == TokensOf(blocks) + b.tokens
  {
    assert (blocks + [b])[..|blocks|] == blocks;
  }

  lemma {:induction false} CoveredExpand(done: seq<byte>, ts: seq<Token>, input: seq<byte>, upto: nat)
    requires Covered(done, ts, input, upto)
    ensures upto <= |input| && Expand(done, ts) == Some(input[..upto]) && upto == |done| + Size(ts)
  {
    hide Expand;
    ExpandSize(done, ts);
  }

  /** ct_tally on the whole coding state: nothing is sent. */
  method TallyToken(c: Coder, dist: nat, lc: byte, inLength: int, ghost header: seq<bool>, ghost blocks: seq<Sent>) returns (flush: bool)
    requires Sending(c, header, blocks) && |c.tb.tokens| < LIT_BUFSIZE - 1 && dist <= 32768 && inLength == Size(c.tb.tokens) + 1
    modifies c.repr
    ensures Sending(c, header, blocks)
    ensures c.tb.tokens == old(c.tb.tokens) + [if dist == 0 then Literal(lc) else Match(lc + MIN_MATCH, dist)]
    ensures flush <==> Full(c.tab.M(), c.tb.tokens)
  {
    hide ValidMaps, SymbolTables.StaticTrees, Writer.Bits, Writer.Valid, DistsOf, BytesOf, KindsOf, Flags, CounterWidth.Narrow,
         ValidBlocks, Assemble, Size, Accounting.Frequencies, Due;
    ghost var ts := c.tb.tokens;
    flush := CtTally(c.tb, c.lt, c.dt, c.tab, dist, lc, inLength);
    assert c.tb.tokens[..|ts|] == ts;
  }

  /** All strings before n are in the dictionary and the running key is ready for n. */
  ghost predicate Primed(win: Window, n: nat)
    reads win, win.window, win.prev, win.head
  {
    win.Valid(n) && Rolling(win.insH, win.window[..], n)
  }

  /** The tokens of the blocks sent and of the current one. */
  ghost function History(blocks: seq<Sent>, ts: seq<Token>): seq<Token>
  {
    TokensOf(blocks) + ts
  }

  lemma {:induction false} NotFull(m: Maps, ts: seq<Token>)
    requires ValidMaps(m) && ValidTokens(ts) && !Full(m, ts) && |ts| <= LIT_BUFSIZE - 1
    ensures |ts| < LIT_BUFSIZE - 1
  {
    hide ValidMaps;
  }

  lemma {:induction false} SendingTokens(c: Coder, header: seq<bool>, blocks: seq<Sent>)
    requires Sending(c, header, blocks)
    ensures c.tb in c.repr && ValidMaps(c.tab.M()) && ValidTokens(c.tb.tokens)
  {
    hide ValidMaps, Accounting.Frequencies, ValidBlocks, Assemble, TokenBuffer.Valid, Writer.Valid, SymbolTables.StaticTrees;
  }

  /** Flushes exactly if the last token fills the block; the rest of the input starts a new one. */
  method FlushIf(c: Coder, win: Window, flush: bool, ghost header: seq<bool>, ghost blocks: seq<Sent>, ghost n: nat, ghost w: seq<byte>) returns (ghost blocks': seq<Sent>)
    requires Apart(c, win) && Sending(c, header, blocks) && Primed(win, n) && win.window[..] == w
    requires win.base + win.blockStart == |DataOf(blocks)| && Covered(DataOf(blocks), c.tb.tokens, win.consumed, win.base + win.strstart)
    requires 1 <= |c.tb.tokens| <= LIT_BUFSIZE - 1 && Open(c.tab.M(), c.tb.tokens[..|c.tb.tokens| - 1]) && flush == Full(c.tab.M(), c.tb.tokens)
    modifies c.repr, win`blockStart
    ensures Sending(c, header, blocks') && |c.tb.tokens| < LIT_BUFSIZE - 1 && Primed(win, n) && win.window[..] == w
    ensures win.base + win.blockStart == |DataOf(blocks')| && Covered(DataOf(blocks'), c.tb.tokens, win.consumed, win.base + win.strstart)
    ensures Open(c.tab.M(), c.tb.tokens) && History(blocks', c.tb.tokens) == History(blocks, old(c.tb.tokens))
  {
    hide Coder.Valid, Sending, Finished, Covered, Chains, Filled, Summed, Crc32.CrcTable, Rolling, Full, DataOf;
    blocks' := blocks;
    ghost var ts := c.tb.tokens;
    SendingTokens(c, header, blocks);
    if flush {
      CoveredExpand(DataOf(blocks), ts, win.consumed, win.base + win.strstart);
      ghost var b := Flush(c, win, false, header, blocks, n, w);
      blocks' := blocks + [b];
      DataSnoc(blocks, b);
      CoverNothing(win.consumed, win.base + win.strstart);
      win.blockStart := win.strstart;
    } else {
      NotFull(c.tab.M(), ts);
    }
  }

  /** The previous match is taken: it is tallied and its strings are inserted. */
  method EmitMatch(c: Coder, win: Window, prevMatch: nat, prevLength: nat, ghost header: seq<bool>, ghost blocks: seq<Sent>, ghost at: nat) returns (ghost blocks': seq<Sent>)
    requires Apart(c, win) && Sending(c, header, blocks) && |c.tb.tokens| < LIT_BUFSIZE - 1 && Open(c.tab.M(), c.tb.tokens)
    requires Primed(win, win.strstart + 1) && win.Ahead() && win.base + win.blockStart == |DataOf(blocks)|
    requires win.lookahead >= MIN_LOOKAHEAD || win.eofile
    requires win.base + win.strstart == at + 1 && Covered(DataOf(blocks), c.tb.tokens, win.consumed, at) && MIN_MATCH <= prevLength <= MAX_MATCH
    requires Sub32(win.strstart - 1, prevMatch) <= MAX_DIST && Repeats(win.consumed, at, Sub32(win.strstart - 1, prevMatch), prevLength)
    modifies c.repr, win`strstart, win`lookahead, win`insH, win`blockStart, win.prev, win.head
    ensures Sending(c, header, blocks') && |c.tb.tokens| < LIT_BUFSIZE - 1 && Primed(win, win.strstart) && win.Ahead() && Open(c.tab.M(), c.tb.tokens)
    ensures win.base + win.blockStart == |DataOf(blocks')| && Covered(DataOf(blocks'), c.tb.tokens, win.consumed, win.base + win.strstart)
    ensures win.strstart == old(win.strstart) + prevLength - 1
    ensures History(blocks', c.tb.tokens) == History(blocks, old(c.tb.tokens)) + [Match(prevLength, Sub32(old(win.strstart) - 1, prevMatch))]
  {
    hide Coder.Valid, Sending, Finished, Covered, Chains, Filled, Summed, Crc32.CrcTable, Rolling, Sub32, Repeats, DataOf, Open, Full, TokensOf;
    ghost var w, ts, d := win.window[..], c.tb.tokens, Sub32(win.strstart - 1, prevMatch);
    RepeatsBounds(win.consumed, at, d, prevLength);
    FilledSize(w, win.consumed, win.base);
    CoveredExpand(DataOf(blocks), ts, win.consumed, at);
    CoverMatch(DataOf(blocks), ts, win.consumed, at, d, prevLength);
    var flush := TallyToken(c, Sub32(win.strstart - 1, prevMatch), prevLength - MIN_MATCH, win.strstart - win.blockStart, header, blocks);
    ghost var ts' := ts + [Match(prevLength, d)];
    assert c.tb.tokens == ts' && ts'[..|ts|] == ts;
    win.lookahead := win.lookahead - (prevLength - 1);
    assert Sending(c, header, blocks);
    InsertRest(win, prevLength - 2, w);
    assert Sending(c, header, blocks);
    win.strstart := win.strstart + 1;
    assert Sending(c, header, blocks);
    assert c.tb.tokens == ts' && win.base + win.strstart == at + prevLength;
    HistorySnoc(blocks, ts, Match(prevLength, d));
    blocks' := FlushIf(c, win, flush, header, blocks, win.strstart, w);
  }

  lemma {:induction false} HistorySnoc(blocks: seq<Sent>, ts: seq<Token>, t: Token)
    ensures History(blocks, ts + [t]) == History(blocks, ts) + [t]
  {
    hide TokensOf;
  }

  /** The byte before strstart is tallied as a literal. */
  method EmitLiteral(c: Coder, win: Window, ghost header: seq<bool>, ghost blocks: seq<Sent>, ghost at: nat) returns (ghost blocks': seq<Sent>)
    requires Apart(c, win) && Sending(c, header, blocks) && |c.tb.tokens| < LIT_BUFSIZE - 1 && Open(c.tab.M(), c.tb.tokens)
    requires Primed(win, win.strstart + 1) && win.Ahead() && win.lookahead > 0 && win.base + win.blockStart == |DataOf(blocks)|
    requires win.base + win.strstart == at + 1 && win.strstart >= 1 && Covered(DataOf(blocks), c.tb.tokens, win.consumed, at)
    modifies c.repr, win`strstart, win`lookahead, win`blockStart
    ensures Sending(c, header, blocks') && |c.tb.tokens| < LIT_BUFSIZE - 1 && Primed(win, win.strstart) && win.Ahead() && Open(c.tab.M(), c.tb.tokens)
    ensures win.base + win.blockStart == |DataOf(blocks')| && Covered(DataOf(blocks'), c.tb.tokens, win.consumed, at + 1)
    ensures win.strstart == old(win.strstart) + 1 && win.lookahead == old(win.lookahead) - 1
    ensures at < |win.consumed| && History(blocks', c.tb.tokens) == History(blocks, old(c.tb.tokens)) + [Literal(win.consumed[at])]
  {
    hide Coder.Valid, Sending, Finished, Covered, Chains, Filled, Summed, Crc32.CrcTable, Rolling, DataOf, Open, Full, TokensOf;
    ghost var w, ts := win.window[..], c.tb.tokens;
    FilledSize(w, win.consumed, win.base);
    FilledAt(w, win.consumed, win.base, win.strstart - 1);
    CoveredExpand(DataOf(blocks), ts, win.consumed, at);
    CoverLiteral(DataOf(blocks), ts, win.consumed, at);
    HistorySnoc(blocks, ts, Literal(win.consumed[at]));
    var flush := TallyToken(c, 0, win.window[win.strstart - 1], win.strstart - win.blockStart, header, blocks);
    ghost var ts' := ts + [Literal(win.consumed[at])];
    assert c.tb.tokens == ts' && ts'[..|ts|] == ts;
    blocks' := FlushIf(c, win, flush, header, blocks, win.strstart + 1, w);
    win.strstart := win.strstart + 1;
    win.lookahead := win.lookahead - 1;
  }

  /** Goes on to the next byte. */
  method Advance(win: Window)
    requires Primed(win, win.strstart + 1) && win.Ahead() && win.lookahead > 0
    modifies win`strstart, win`lookahead
    ensures Primed(win, win.strstart) && win.Ahead() && win.strstart == old(win.strstart) + 1 && win.lookahead == old(win.lookahead) - 1
  {
    hide Chains, Filled, Summed, Crc32.CrcTable, Rolling;
    win.strstart := win.strstart + 1;
    win.lookahead := win.lookahead - 1;
  }

  /** The match kept from the last position, if it is one: it starts one byte back. */
  ghost predicate Kept(win: Window, available: bool, matchLength: nat)
    reads win
  {
    && 1 <= matchLength <= MAX_MATCH && (available ==> win.strstart >= 1)
    && (matchLength >= MIN_MATCH ==>
          && available && Sub32(win.strstart - 1, win.matchStart) <= MAX_DIST
          && Repeats(win.consumed, win.base + win.strstart - 1, Sub32(win.strstart - 1, win.matchStart), matchLength))
  }

  /** In front of every turn of the main loop: the tokens cover the input up to strstart,
      or up to one byte before it while the decision on that byte is pending. */
  ghost predicate Turn(c: Coder, win: Window, header: seq<bool>, blocks: seq<Sent>, available: bool, matchLength: nat)
    reads c.repr, c.tab.Repr(), win, win.window, win.prev, win.head
  {
    && Apart(c, win) && Sending(c, header, blocks) && c.tb in c.repr && |c.tb.tokens| < LIT_BUFSIZE - 1 && Open(c.tab.M(), c.tb.tokens)
    && win.Valid(win.strstart) && win.Ahead() && (win.lookahead > 0 ==> Rolling(win.insH, win.window[..], win.strstart))
    && win.base + win.blockStart == |DataOf(blocks)| && Kept(win, available, matchLength)
    && Covered(DataOf(blocks), c.tb.tokens, win.consumed, win.base + win.strstart - (if available then 1 else 0))
    && -0x8000_0000 <= win.blockStart
  }

  lemma {:induction false} CloseTurn(c: Coder, win: Window, header: seq<bool>, blocks: seq<Sent>, available: bool, matchLength: nat)
    requires Apart(c, win) && Sending(c, header, blocks) && |c.tb.tokens| < LIT_BUFSIZE - 1 && Open(c.tab.M(), c.tb.tokens)
    requires win.Valid(win.strstart) && win.Ahead() && (win.lookahead > 0 ==> Rolling(win.insH, win.window[..], win.strstart))
    requires win.base + win.blockStart == |DataOf(blocks)| && Kept(win, available, matchLength)
    requires Covered(DataOf(blocks), c.tb.tokens, win.consumed, win.base + win.strstart - (if available then 1 else 0))
    ensures Turn(c, win, header, blocks, available, matchLength)
  {
    hide Sending, Covered, Chains, Filled, Summed, Crc32.CrcTable, Rolling, Sub32, Repeats, DataOf, Open;
    SendingTokens(c, header, blocks);
    StartFits(DataOf(blocks), c.tb.tokens, win.consumed, win.base, win.strstart, win.blockStart, available);
  }

  lemma {:induction false} OpenTurn(c: Coder, win: Window, header: seq<bool>, blocks: seq<Sent>, available: bool, matchLength: nat)
    requires Turn(c, win, header, blocks, available, matchLength)
    ensures Apart(c, win) && Sending(c, header, blocks) && c.tb in c.repr && |c.tb.tokens| < LIT_BUFSIZE - 1 && Open(c.tab.M(), c.tb.tokens)
    ensures win.Valid(win.strstart) && win.Ahead() && (win.lookahead > 0 ==> Rolling(win.insH, win.window[..], win.strstart))
    ensures win.base + win.blockStart == |DataOf(blocks)| && Kept(win, available, matchLength)
    ensures Covered(DataOf(blocks), c.tb.tokens, win.consumed, win.base + win.strstart - (if available then 1 else 0))
  {
    hide Sending, Covered, Chains, Filled, Summed, Crc32.CrcTable, Rolling, Sub32, Repeats, DataOf, Open;
  }

  /** The tokens so far are the choices of the log, and what the next turn depends on is the
      last search: the pending one, with matchLength and the distance to matchStart. */
  ghost predicate Logged(c: Coder, win: Window, blocks: seq<Sent>, input: seq<byte>, log: seq<Choice>, pending: Option<Probe>, available: bool, matchLength: nat)
    reads win, c.tb
  {
    var at := win.base + win.strstart;
    && (available <==> pending.Some?) && win.Reads(input)
    && Waiting(input, log, at, pending, matchLength, if available then Sub32(win.strstart - 1, win.matchStart) else 0)
    && Told(input, log, ChosenTo(at, pending), History(blocks, c.tb.tokens))
  }

  /** The tokens are those that the log has chosen. */
  ghost predicate Told(input: seq<byte>, log: seq<Choice>, upto: int, ts: seq<Token>)
  {
    upto >= 0 && Lazy(input, log, upto) && Picks(input, log, upto) == ts
  }

  lemma {:induction false} TellMore(input: seq<byte>, log: seq<Choice>, upto: nat, ts: seq<Token>, log': seq<Choice>, upto': nat, t: Token)
    requires Told(input, log, upto, ts) && Extended(input, log, upto, log', upto', t)
    ensures Told(input, log', upto', ts + [t])
  {
    hide Lazy, Picks;
  }

  /** The pending match enters the log. */
  lemma {:induction false} LogMatch(input: seq<byte>, log: seq<Choice>, here: nat, pending: Option<Probe>, length: nat, dist: nat, p: Probe, ts: seq<Token>)
    returns (log': seq<Choice>)
    requires Waiting(input, log, here, pending, length, dist) && pending.Some? && Told(input, log, here - 1, ts)
    requires Searched(input, here, p) && Shaped(p) && p.prevLength == length && length >= MIN_MATCH && Lookup(p).length <= length
    ensures here >= 1 && log <= log' && Waiting(input, log', here - 1 + length, None, MIN_MATCH - 1, 0)
    ensures Told(input, log', here - 1 + length, ts + [Match(length, dist)])
  {
    hide *;
    PendingSearch(input, log, here, pending, length, dist);
    TakeMatch(input, log, here, pending, length, dist, p);
    log' := log + [Choice(here - 1, pending.value, Some(p))];
    TellMore(input, log, here - 1, ts, log', here - 1 + length, Match(length, dist));
  }

  /** The byte of the pending search enters the log as a literal. */
  lemma {:induction false} LogLiteral(input: seq<byte>, log: seq<Choice>, here: nat, pending: Option<Probe>, length: nat, dist: nat, p: Probe, ts: seq<Token>)
    returns (log': seq<Choice>)
    requires Waiting(input, log, here, pending, length, dist) && pending.Some? && Told(input, log, here - 1, ts) && here <= |input|
    requires Searched(input, here, p) && Shaped(p) && p.prevLength == length && !(length >= MIN_MATCH && Lookup(p).length <= length)
    ensures here >= 1 && log <= log' && Waiting(input, log', here + 1, Some(p), Lookup(p).length, DistOf(p))
    ensures Told(input, log', here, ts + [Literal(input[here - 1])])
  {
    hide *;
    PendingSearch(input, log, here, pending, length, dist);
    TakeLiteral(input, log, here, pending, length, dist, p);
    log' := log + [Choice(here - 1, pending.value, Some(p))];
    TellMore(input, log, here - 1, ts, log', here, Literal(input[here - 1]));
  }

  /** block_start fits a signed 32-bit number. */
  lemma {:induction false} StartFits(done: seq<byte>, ts: seq<Token>, input: seq<byte>, base: nat, strstart: nat, blockStart: int, available: bool)
    requires base + blockStart == |done| && |ts| < LIT_BUFSIZE && (available ==> strstart >= 1)
    requires Covered(done, ts, input, base + strstart - (if available then 1 else 0))
    ensures -0x8000_0000 <= blockStart
  {
    hide Covered;
    CoverBound(done, ts, input, base + strstart - (if available then 1 else 0));
  }

  /** One turn of the main loop, without filling the window. The log grows by the choice made
      in it, if any, and the search made in it is the next one pending, unless a match has been
      taken. */
  method TakeTurn(c: Coder, win: Window, available: bool, matchLength: nat, ghost header: seq<bool>, ghost blocks: seq<Sent>,
                  ghost input: seq<byte>, ghost log: seq<Choice>, ghost pending: Option<Probe>)
    returns (available': bool, matchLength': nat, ghost blocks': seq<Sent>, ghost log': seq<Choice>, ghost pending': Option<Probe>)
    requires Turn(c, win, header, blocks, available, matchLength) && win.lookahead > 0
    requires (win.lookahead >= MIN_LOOKAHEAD || win.eofile) && Logged(c, win, blocks, input, log, pending, available, matchLength)
    modifies c.repr, win, win.prev, win.head
    ensures Turn(c, win, header, blocks', available', matchLength') && Rolling(win.insH, win.window[..], win.strstart)
    ensures Logged(c, win, blocks', input, log', pending', available', matchLength') && log <= log'
    ensures win.consumed == old(win.consumed) && win.eofile == old(win.eofile) && win.base == old(win.base)
    ensures win.strstart > old(win.strstart) && win.lookahead + MAX_MATCH > old(win.lookahead)
  {
    hide Window.Valid, Turn, Sending, Covered, Chains, Filled, Summed, Crc32.CrcTable, Rolling, Sub32, Repeats, Lookup, Searched, Waiting, Told, History, DataOf, Open, DistOf, Full, Coder.Valid;
    OpenTurn(c, win, header, blocks, available, matchLength);
    blocks', log', pending' := blocks, log, None;
    ghost var here, ts := win.base + win.strstart, History(blocks, c.tb.tokens);
    ghost var at := here - 1;
    var prevLength, prevMatch := matchLength, win.matchStart;
    ghost var dist := if available then Sub32(win.strstart - 1, prevMatch) else 0;
    ghost var p;
    matchLength', p := FindMatch(win, prevLength, input);
    assert Waiting(input, log, here, pending, prevLength, dist) && Told(input, log, ChosenTo(here, pending), ts);
    if prevLength >= MIN_MATCH && matchLength' <= prevLength {
      log' := LogMatch(input, log, here, pending, prevLength, dist, p, ts);
      blocks' := EmitMatch(c, win, prevMatch, prevLength, header, blocks, at);
      available' := false;
      matchLength' := MIN_MATCH - 1;
    } else if available {
      log' := LogLiteral(input, log, here, pending, prevLength, dist, p, ts);
      pending' := Some(p);
      blocks' := EmitLiteral(c, win, header, blocks, at);
      available' := true;
    } else {
      WaitOn(input, log, here, prevLength, dist, p);
      pending' := Some(p);
      available' := true;
      Advance(win);
    }
    DistIs(p, win.matchStart);
    CloseTurn(c, win, header, blocks', available', matchLength');
  }

  lemma {:induction false} DistIs(p: Probe, start: nat)
    requires Shaped(p)
    ensures DistOf(p) == Sub32(p.s, Lookup(p).start)
  {
  }

  lemma {:induction false} Sub32Pred(a: int, b: int, a': int, b': int)
    requires Sub32(a, b) == Sub32(a', b')
    ensures Sub32(a - 1, b) == Sub32(a' - 1, b')
  {
    var q, q' := (a - b) / TWO_32, (a' - b') / TWO_32;
    assert a - 1 - b == (a' - 1 - b') + (q - q') * TWO_32;
    ModShift(a' - 1 - b', q - q');
  }

  /** A turn leaves what the next one needs, also after the window has been filled. */
  method TopUp(c: Coder, win: Window, inp: Input, available: bool, matchLength: nat, ghost header: seq<bool>, ghost blocks: seq<Sent>,
               ghost input: seq<byte>, ghost log: seq<Choice>, ghost pending: Option<Probe>)
    requires Turn(c, win, header, blocks, available, matchLength) && Rolling(win.insH, win.window[..], win.strstart)
    requires inp !in c.repr && inp !in c.tab.Repr() && (win.eofile ==> inp.rest == []) && (!win.eofile ==> win.lookahead >= 2)
    requires win.consumed + inp.rest == input && Logged(c, win, blocks, input, log, pending, available, matchLength)
    modifies win, win.window, win.prev, win.head, inp
    ensures Turn(c, win, header, blocks, available, matchLength) && Logged(c, win, blocks, input, log, pending, available, matchLength)
    ensures (win.eofile ==> inp.rest == []) && (win.lookahead >= MIN_LOOKAHEAD || win.eofile)
    ensures win.consumed + inp.rest == input && win.base + win.strstart == old(win.base + win.strstart)
  {
    hide Sending, Covered, Chains, Filled, Summed, Crc32.CrcTable, Rolling, Sub32, Repeats, Waiting, Told, History, DataOf, Open;
    ghost var s, f, known, at := win.strstart, win.matchStart, win.consumed, win.base + win.strstart;
    win.FillWindowIfNeeded(inp);
    Sub32Pred(s, f, win.strstart, win.matchStart);
    CoverMore(DataOf(blocks), c.tb.tokens, known, win.consumed, at - (if available then 1 else 0));
    if matchLength >= MIN_MATCH {
      RepeatsLonger(known, win.consumed, at - 1, Sub32(s - 1, f), matchLength);
    }
    StartFits(DataOf(blocks), c.tb.tokens, win.consumed, win.base, win.strstart, win.blockStart, available);
  }

  /** deflate: for every input and every way in which it is read, what has been sent in the
      end is a stream of blocks that stand for the input, and its tokens are the choices that
      the lazy rule makes from the start of the input to its end. */
  method Deflate(c: Coder, win: Window, inp: Input, ghost header: seq<bool>, ghost input: seq<byte>) returns (ghost blocks: seq<Sent>, ghost log: seq<Choice>)
    requires Apart(c, win) && inp !in c.repr && inp !in c.tab.Repr() && Sending(c, header, []) && c.tb.tokens == []
    requires win.Valid(0) && win.Ahead() && win.base == 0 && win.strstart == 0 && win.blockStart == 0
    requires (win.lookahead > 0 ==> Rolling(win.insH, win.window[..], 0)) && (win.lookahead >= MIN_LOOKAHEAD || win.eofile)
    requires (win.eofile ==> inp.rest == []) && win.consumed + inp.rest == input
    modifies c.repr, win, win.window, win.prev, win.head, inp
    ensures Finished(c, header, blocks) && DataOf(blocks) == input && Summed(win.crc, win.isize, input)
    ensures Lazy(input, log, |input|) && Picks(input, log, |input|) == TokensOf(blocks)
  {
    hide Sending, Finished, Covered, Chains, Filled, Summed, Crc32.CrcTable, Rolling, Sub32, Repeats, Waiting, Told, History, Open, Lazy, Picks;
    var available, matchLength: nat := false, MIN_MATCH - 1;
    ghost var pending: Option<Probe> := None;
    blocks, log := [], [];
    CoverNothing(win.consumed, 0);
    assert win.consumed[..0] == [];
    SendingTokens(c, header, blocks);
    NothingTold(input);
    while win.lookahead != 0
      invariant Turn(c, win, header, blocks, available, matchLength) && Logged(c, win, blocks, input, log, pending, available, matchLength)
      invariant (win.eofile ==> inp.rest == []) && (win.lookahead >= MIN_LOOKAHEAD || win.eofile)
      invariant win.consumed + inp.rest == input
      decreases |input| - (win.base + win.strstart)
    {
      available, matchLength, blocks, log, pending := TakeTurn(c, win, available, matchLength, header, blocks, input, log, pending);
      TopUp(c, win, inp, available, matchLength, header, blocks, input, log, pending);
    }
    assert win.consumed == input;
    blocks, log := FinishUp(c, win, available, matchLength, header, blocks, log, pending);
  }

  lemma {:induction false} NothingTold(input: seq<byte>)
    ensures Waiting(input, [], 0, None, MIN_MATCH - 1, 0) && Told(input, [], 0, History([], [])) && Open(Maps([], [], [], []), [])
    ensures forall m :: Open(m, [])
  {
    NothingChosen(input);
  }

  /** The end of deflate: a pending literal and the last block. */
  method FinishUp(c: Coder, win: Window, available: bool, ghost matchLength: nat, ghost header: seq<bool>, ghost blocks: seq<Sent>,
                  ghost log: seq<Choice>, ghost pending: Option<Probe>)
    returns (ghost blocks': seq<Sent>, ghost log': seq<Choice>)
    requires Turn(c, win, header, blocks, available, matchLength) && win.lookahead == 0
    requires Logged(c, win, blocks, win.consumed, log, pending, available, matchLength)
    modifies c.repr
    ensures Finished(c, header, blocks') && DataOf(blocks') == win.consumed
    ensures var n := |win.consumed|; Lazy(win.consumed, log', n) && Picks(win.consumed, log', n) == TokensOf(blocks')
  {
    hide Turn, Coder.Valid, Sending, Finished, Covered, Chains, Filled, Summed, Crc32.CrcTable, Rolling, Sub32, Repeats, Waiting, Told, DataOf, TokensOf,
         History, Open, Lazy, Picks;
    OpenTurn(c, win, header, blocks, available, matchLength);
    ghost var w, ts, pos, input := win.window[..], c.tb.tokens, win.base + win.strstart, win.consumed;
    log' := log;
    if available {
      FilledSize(w, input, win.base);
      FilledAt(w, input, win.base, win.strstart - 1);
      CoveredExpand(DataOf(blocks), ts, input, pos - 1);
      CoverLiteral(DataOf(blocks), ts, input, pos - 1);
      TakeLast(input, log, pending, matchLength, Sub32(win.strstart - 1, win.matchStart));
      log' := log + [Choice(pos - 1, pending.value, None)];
      TellMore(input, log, pos - 1, History(blocks, ts), log', pos, Literal(input[pos - 1]));
      HistorySnoc(blocks, ts, Literal(input[pos - 1]));
      var flush := TallyToken(c, 0, win.window[win.strstart - 1], win.strstart - win.blockStart, header, blocks);
      assert (ts + [Literal(input[pos - 1])])[..|ts|] == ts;
    } else {
      OpenInit(c.tab.M(), ts);
    }
    ghost var all := c.tb.tokens;
    ghost var b := Flush(c, win, true, header, blocks, win.strstart, w);
    blocks' := blocks + [b];
    DataSnoc(blocks, b);
    assert win.consumed[..pos] == win.consumed;
    ToldAll(input, log', blocks, all);
  }

  lemma {:induction false} ToldAll(input: seq<byte>, log: seq<Choice>, blocks: seq<Sent>, ts: seq<Token>)
    requires Told(input, log, |input|, History(blocks, ts))
    ensures Lazy(input, log, |input|) && Picks(input, log, |input|) == TokensOf(blocks) + ts
  {
    hide Lazy, Picks, TokensOf;
  }

  lemma {:induction false} OpenInit(m: Maps, ts: seq<Token>)
    requires Open(m, ts)
    ensures ts == [] || Open(m, ts[..|ts| - 1])
  {
    hide Full;
  }
}
