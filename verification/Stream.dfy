/**
 What the tokens and blocks of a stream stand for: the input up to some offset.
 */
module Stream {
  import opened Sums
  import opened Inflate
  import opened Canonical
  import opened TokenCoding
  import opened HashChains
  import opened CompressBlock
  import opened BlockChoice
  import opened FlushBlock

  // ----- tokens -----

  ghost predicate SameByte(s: seq<byte>, at: nat, d: nat, i: nat)
  {
    d <= at && at + i < |s| && s[at + i] == s[at - d + i]
  }

  /** The len bytes of s from offset at on are those d earlier. */
  ghost predicate Repeats(s: seq<byte>, at: nat, d: nat, len: nat)
  {
    1 <= d <= at && at + len <= |s| && forall i :: 0 <= i < len ==> SameByte(s, at, d, i)
  }

  lemma {:induction false} RepeatsLonger(s: seq<byte>, s': seq<byte>, at: nat, d: nat, len: nat)
    requires Repeats(s, at, d, len) && s <= s'
    ensures Repeats(s', at, d, len)
  {
    forall i | 0 <= i < len ensures SameByte(s', at, d, i) {
      assert SameByte(s, at, d, i);
    }
  }

  lemma {:induction false} CopyRepeats(s: seq<byte>, at: nat, d: nat, len: nat, k: nat)
    requires Repeats(s, at, d, len) && k <= len
    ensures CopyMatch(s[..at + k], len - k, d) == s[..at + len]
    decreases len - k
  {
    if k < len {
      assert SameByte(s, at, d, k);
      assert s[..at + k] + [s[at + k - d]] == s[..at + k + 1];
      CopyRepeats(s, at, d, len, k + 1);
    }
  }

  ghost predicate Near(t: Token)
  {
    t.Match? ==> t.dist <= MAX_DIST && MIN_MATCH <= t.length <= MAX_MATCH
  }

  /** After the bytes done, the tokens stand for the input up to offset upto, with matches
      of the lengths and distances that are allowed. */
  ghost predicate Covered(done: seq<byte>, ts: seq<Token>, input: seq<byte>, upto: nat)
  {
    && upto <= |input| && Expand(done, ts) == Some(input[..upto])
    && forall i :: 0 <= i < |ts| ==> Near(ts[i])
  }

  lemma {:induction false} ExpandSnoc(done: seq<byte>, ts: seq<Token>, t: Token)
    ensures Expand(done, ts + [t]) == match Expand(done, ts) case None => None case Some(o) => Apply(o, t)
  {
    assert (ts + [t])[..|ts|] == ts;
  }

  lemma {:induction false} CoverLiteral(done: seq<byte>, ts: seq<Token>, input: seq<byte>, upto: nat)
    requires Covered(done, ts, input, upto) && upto < |input|
    ensures Covered(done, ts + [Literal(input[upto])], input, upto + 1)
  {
    hide Expand;
    ExpandSnoc(done, ts, Literal(input[upto]));
    assert input[..upto] + [input[upto]] == input[..upto + 1];
  }

  lemma {:induction false} CoverMatch(done: seq<byte>, ts: seq<Token>, input: seq<byte>, upto: nat, d: nat, len: nat)
    requires Covered(done, ts, input, upto) && Repeats(input, upto, d, len) && d <= MAX_DIST && MIN_MATCH <= len <= MAX_MATCH
    ensures Covered(done, ts + [Match(len, d)], input, upto + len)
  {
    hide Expand, Repeats, CopyMatch;
    RepeatsBounds(input, upto, d, len);
    ExpandSnoc(done, ts, Match(len, d));
    CopyRepeats(input, upto, d, len, 0);
  }

  lemma {:induction false} RepeatsBounds(s: seq<byte>, at: nat, d: nat, len: nat)
    requires Repeats(s, at, d, len)
    ensures 1 <= d <= at && at + len <= |s|
  {
  }

  lemma {:induction false} CoverMore(done: seq<byte>, ts: seq<Token>, input: seq<byte>, input': seq<byte>, upto: nat)
    requires Covered(done, ts, input, upto) && input <= input'
    ensures Covered(done, ts, input', upto)
  {
    hide Expand;
    assert input'[..upto] == input[..upto];
  }

  lemma {:induction false} CoverNothing(input: seq<byte>, upto: nat)
    requires upto <= |input|
    ensures Covered(input[..upto], [], input, upto)
  {
  }

  /** The data of a block are the input bytes that its tokens stand for. */
  lemma {:induction false} CoveredData(done: seq<byte>, ts: seq<Token>, input: seq<byte>, upto: nat)
    requires Covered(done, ts, input, upto)
    ensures |done| <= upto <= |input| && done + input[|done|..upto] == input[..upto]
  {
    hide Expand;
    var o := input[..upto];
    assert Expand(done, ts).value == o;
    assert o == o[..|done|] + o[|done|..];
  }

  /** No token stands for more than MAX_MATCH bytes, so a block never exceeds 8191 * 258
      bytes and block_start stays far within 32 bits. */
  lemma {:induction false} CoverBound(done: seq<byte>, ts: seq<Token>, input: seq<byte>, upto: nat)
    requires Covered(done, ts, input, upto)
    ensures upto <= |done| + MAX_MATCH * |ts|
  {
    hide CopyMatch;
    if ts != [] {
      var init, t := ts[..|ts| - 1], ts[|ts| - 1];
      var o := Expand(done, init).value;
      assert Near(t);
      assert o == input[..|o|];
      CoverBound(done, init, input, |o|);
    } else {
      assert |Expand(done, ts).value| == upto;
    }
  }

  // ----- blocks -----

  /** A reader that starts after the header arrives after these bits with output done,
      whatever follows. */
  ghost predicate Continues(bits: seq<bool>, header: seq<bool>, done: seq<byte>)
  {
    && header <= bits
    && forall full: seq<bool> :: bits <= full ==> Inflate.Inflate(full, |header|, []) == Inflate.Inflate(full, |bits|, done)
  }

  /** A reader that starts after the header finds the whole stream in these bits. */
  ghost predicate Ends(bits: seq<bool>, header: seq<bool>, out: seq<byte>, end: nat)
  {
    && header <= bits
    && forall full: seq<bool> :: bits <= full ==> Inflate.Inflate(full, |header|, []) == Some((out, end))
  }

  lemma {:induction false} AtAfter(bits: seq<bool>, more: seq<bool>, full: seq<bool>)
    requires bits + more <= full
    ensures bits <= full && At(full, |bits|, more)
  {
    assert full[..|bits + more|] == bits + more;
    assert full[..|bits|] == full[..|bits + more|][..|bits|] == bits;
    assert full[|bits|..|bits| + |more|] == full[..|bits + more|][|bits|..] == more;
  }

  lemma {:induction false} InflateStep(full: seq<bool>, pos: nat, out: seq<byte>, b: Block)
    requires ReadBlock(full, pos, out) == Some(b)
    ensures b.final ==> Inflate.Inflate(full, pos, out) == Some((b.out, b.pos))
    ensures !b.final && b.pos <= |full| ==> Inflate.Inflate(full, pos, out) == Inflate.Inflate(full, b.pos, b.out)
  {
    hide ReadBlock;
  }

  /** One more block, which is not the last. */
  lemma {:induction false} BlockContinues(bits: seq<bool>, header: seq<bool>, done: seq<byte>, m: Maps, ts: seq<Token>, data: seq<byte>, k: Coding)
    requires Continues(bits, header, done) && ValidCoding(m, ts, data, k) && Expand(done, ts) == Some(done + data)
    ensures Continues(bits + BlockBits(bits, m, false, ts, data, k), header, done + data)
  {
    hide ValidCoding, BlockBits, Expand, At, ReadBlock, Inflate.Inflate;
    var bits' := bits + BlockBits(bits, m, false, ts, data, k);
    forall full: seq<bool> | bits' <= full
      ensures Inflate.Inflate(full, |header|, []) == Inflate.Inflate(full, |bits'|, done + data)
    {
      AtAfter(bits, BlockBits(bits, m, false, ts, data, k), full);
      BlockReads(bits, full, m, false, ts, data, k, done);
      InflateStep(full, |bits|, done, Block(false, |bits'|, done + data));
    }
  }

  /** The last block. */
  lemma {:induction false} BlockEnds(bits: seq<bool>, header: seq<bool>, done: seq<byte>, m: Maps, ts: seq<Token>, data: seq<byte>, k: Coding, pad: seq<bool>)
    requires Continues(bits, header, done) && ValidCoding(m, ts, data, k) && Expand(done, ts) == Some(done + data)
    ensures var bits' := bits + BlockBits(bits, m, true, ts, data, k); Ends(bits' + pad, header, done + data, |bits'|)
  {
    hide ValidCoding, BlockBits, Expand, At, ReadBlock, Inflate.Inflate;
    var bits' := bits + BlockBits(bits, m, true, ts, data, k);
    forall full: seq<bool> | bits' + pad <= full ensures Inflate.Inflate(full, |header|, []) == Some((done + data, |bits'|)) {
      AtAfter(bits', pad, full);
      AtAfter(bits, BlockBits(bits, m, true, ts, data, k), full);
      BlockReads(bits, full, m, true, ts, data, k, done);
      InflateStep(full, |bits|, done, Block(true, |bits'|, done + data));
    }
  }

  // ----- the blocks of a stream -----

  /** The number of bytes that a token stands for. */
  function TokenSize(t: Token): nat
  {
    if t.Literal? then 1 else t.length
  }

  function Size(ts: seq<Token>): nat
  {
    if ts == [] then 0 else Size(ts[..|ts| - 1]) + TokenSize(ts[|ts| - 1])
  }

  lemma {:induction false} ExpandSize(done: seq<byte>, ts: seq<Token>)
    requires Expand(done, ts).Some?
    ensures |Expand(done, ts).value| == |done| + Size(ts)
  {
    hide CopyMatch;
    if ts != [] {
      ExpandSize(done, ts[..|ts| - 1]);
    }
  }

  /** After its last token ct_tally asks for a new block. */
  ghost predicate Full(m: Maps, ts: seq<Token>)
  {
    ValidMaps(m) && ValidTokens(ts) && ts != [] && Due(m, ts, Size(ts[..|ts| - 1]) + 1)
  }

  /** After none of its tokens does ct_tally ask for a new block. */
  ghost predicate Open(m: Maps, ts: seq<Token>)
  {
    ts == [] || (!Full(m, ts) && Open(m, ts[..|ts| - 1]))
  }

  /** Whether the first token that fills the block is its last. */
  ghost predicate JustFull(m: Maps, ts: seq<Token>)
  {
    Full(m, ts) && Open(m, ts[..|ts| - 1])
  }

  /** One block: its tokens, the bytes they stand for, whether these were still in the window,
      the dynamic code that was built for it, and the form that it was sent in. */
  datatype Sent = Sent(tokens: seq<Token>, data: seq<byte>, buffered: bool, dyn: Coding, form: Coding)

  /** The dynamic code is the Huffman code of the tokens, and the form is the one that the rule
      of flush_block chooses. */
  ghost predicate ValidSent(m: Maps, b: Sent)
  {
    && b.dyn.DynamicCode? && ValidCoding(m, b.tokens, b.data, b.dyn) && ValidCoding(m, b.tokens, b.data, FixedCode)
    && ValidCoding(m, b.tokens, b.data, b.form) && Chosen(m, b.tokens, b.data, b.buffered, b.dyn, b.form) && Fitted(m, b.tokens, b.dyn)
  }

  /** The bytes that the blocks stand for. */
  ghost function DataOf(blocks: seq<Sent>): seq<byte>
  {
    if blocks == [] then [] else DataOf(blocks[..|blocks| - 1]) + blocks[|blocks| - 1].data
  }

  ghost function TokensOf(blocks: seq<Sent>): seq<Token>
  {
    if blocks == [] then [] else TokensOf(blocks[..|blocks| - 1]) + blocks[|blocks| - 1].tokens
  }

  /** Every block is in the form chosen for it, its tokens expand to its data, and it ends where
      ct_tally asks for a new block; the last one, if it is closed, ends with the input. */
  ghost predicate ValidBlocks(m: Maps, blocks: seq<Sent>, closed: bool)
  {
    if blocks == [] then !closed
    else
      var init, b := blocks[..|blocks| - 1], blocks[|blocks| - 1];
      && ValidBlocks(m, init, false) && ValidSent(m, b) && Expand(DataOf(init), b.tokens) == Some(DataOf(init) + b.data)
      && (if closed then b.tokens == [] || Open(m, b.tokens[..|b.tokens| - 1]) else JustFull(m, b.tokens))
  }

  /** The bits of the blocks, one after the other. */
  ghost function Assemble(header: seq<bool>, m: Maps, blocks: seq<Sent>, closed: bool): seq<bool>
    requires ValidBlocks(m, blocks, closed)
  {
    if blocks == [] then header
    else
      var init, b := blocks[..|blocks| - 1], blocks[|blocks| - 1];
      var before := Assemble(header, m, init, false);
      before + BlockBits(before, m, closed, b.tokens, b.data, b.form)
  }

  lemma {:induction false} OneMoreBlock(header: seq<bool>, m: Maps, blocks: seq<Sent>, b: Sent, closed: bool)
    requires ValidBlocks(m, blocks, false) && ValidSent(m, b) && Expand(DataOf(blocks), b.tokens) == Some(DataOf(blocks) + b.data)
    requires if closed then b.tokens == [] || Open(m, b.tokens[..|b.tokens| - 1]) else JustFull(m, b.tokens)
    ensures DataOf(blocks + [b]) == DataOf(blocks) + b.data && TokensOf(blocks + [b]) == TokensOf(blocks) + b.tokens
    ensures ValidBlocks(m, blocks + [b], closed)
    ensures var before := Assemble(header, m, blocks, false);
            Assemble(header, m, blocks + [b], closed) == before + BlockBits(before, m, closed, b.tokens, b.data, b.form)
  {
    hide ValidSent, Expand, JustFull, Open, BlockBits;
    assert (blocks + [b])[..|blocks|] == blocks;
  }

  /** A reader gets through all blocks with the data so far. */
  lemma {:induction false} BlocksContinue(header: seq<bool>, m: Maps, blocks: seq<Sent>)
    requires ValidBlocks(m, blocks, false)
    ensures Continues(Assemble(header, m, blocks, false), header, DataOf(blocks))
  {
    hide Expand, JustFull, Open, BlockBits, ValidCoding, Chosen, Fitted, Inflate.Inflate;
    if blocks != [] {
      var init, b := blocks[..|blocks| - 1], blocks[|blocks| - 1];
      BlocksContinue(header, m, init);
      BlockContinues(Assemble(header, m, init, false), header, DataOf(init), m, b.tokens, b.data, b.form);
    }
  }

  /** A closed stream is read as the data of its blocks, whatever follows. */
  lemma {:induction false} StreamReads(header: seq<bool>, m: Maps, blocks: seq<Sent>, pad: seq<bool>)
    requires ValidBlocks(m, blocks, true)
    ensures var bits := Assemble(header, m, blocks, true); Ends(bits + pad, header, DataOf(blocks), |bits|)
  {
    hide Expand, JustFull, Open, BlockBits, ValidCoding, Chosen, Fitted, Inflate.Inflate, Continues;
    var init, b := blocks[..|blocks| - 1], blocks[|blocks| - 1];
    BlocksContinue(header, m, init);
    BlockEnds(Assemble(header, m, init, false), header, DataOf(init), m, b.tokens, b.data, b.form, pad);
  }
}
