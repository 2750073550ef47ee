/**
 ct_tally and compress_block: tokens go into the packed buffers and come out as bits.
 */
module CompressBlock {
  import opened Sums
  import opened Inflate
  import opened Canonical
  import opened SymbolTables
  import opened TokenCoding
  import opened Accounting
  import opened CounterWidth
  import opened TreeBuilder
  import opened CodeAssignment
  import opened TreeCoding
  import opened Tally
  import opened CtInit
  import opened BitWriter

  // ----- ct_tally -----

  /** The frequencies counted so far are those of the block's symbols. */
  ghost predicate Tallied(fl: seq<nat>, fd: seq<nat>, m: Maps, ts: seq<Token>)
  {
    && ValidMaps(m) && ValidTokens(ts)
    && Frequencies(fl, LitSymbols(m, ts), 286) && Frequencies(fd, DistSymbols(m, ts), D_CODES)
  }

  lemma {:induction false} TalliedStep(fl: seq<nat>, fd: seq<nat>, m: Maps, ts: seq<Token>, t: Token)
    requires Tallied(fl, fd, m, ts) && ValidToken(t)
    ensures var s := LitSymbol(m, t);
            && s < |fl|
            && (t.Literal? ==> Tallied(fl[s := fl[s] + 1], fd, m, ts + [t]))
            && (t.Match? ==> var d := DistCode(m, t.dist);
                             d < |fd| && Tallied(fl[s := fl[s] + 1], fd[d := fd[d] + 1], m, ts + [t]))
  {
    hide ValidMaps, Frequencies;
    var s := LitSymbol(m, t);
    assert (ts + [t])[..|ts|] == ts;
    FrequencyShape(fl, LitSymbols(m, ts), 286);
    FrequencyShape(fd, DistSymbols(m, ts), D_CODES);
    FrequencyStep(fl, LitSymbols(m, ts), 286, s);
    if t.Match? {
      FrequencyStep(fd, DistSymbols(m, ts), D_CODES, DistCode(m, t.dist));
    } else {
      assert DistSymbols(m, ts) + [] == DistSymbols(m, ts);
    }
  }

  /** No symbol occurs more often than there are symbols in the block. */
  lemma {:induction false} TalliedBound(fl: seq<nat>, fd: seq<nat>, m: Maps, ts: seq<Token>)
    requires Tallied(fl, fd, m, ts)
    ensures |fl| >= 286 && |fd| >= D_CODES
    ensures (forall s :: 0 <= s < 286 ==> fl[s] <= |ts| + 1) && (forall s :: 0 <= s < D_CODES ==> fd[s] <= |ts|)
    ensures Total(fl, 286) == |ts| + 1 && Total(fd, D_CODES) <= |ts|
  {
    hide ValidMaps, Total;
    LitSymbolsSize(m, ts);
    DistSymbolsSize(m, ts);
    forall s | 0 <= s < 286 ensures fl[s] <= |ts| + 1 {
      CountAtMost(LitSymbols(m, ts), s);
    }
    forall s | 0 <= s < D_CODES ensures fd[s] <= |ts| {
      CountAtMost(DistSymbols(m, ts), s);
    }
    TotalOfString(fl, LitSymbols(m, ts), 286);
    TotalOfString(fd, DistSymbols(m, ts), D_CODES);
  }

  lemma {:induction false} LitSymbolsSize(m: Maps, ts: seq<Token>)
    requires ValidMaps(m) && ValidTokens(ts)
    ensures |LitSymbols(m, ts)| == |ts| + 1 && LitSymbols(m, ts)[0] == END_OF_BLOCK
  {
    hide ValidMaps;
    if ts != [] {
      LitSymbolsSize(m, ts[..|ts| - 1]);
    }
  }

  lemma {:induction false} DistSymbolsSize(m: Maps, ts: seq<Token>)
    requires ValidMaps(m) && ValidTokens(ts)
    ensures |DistSymbols(m, ts)| <= |ts|
  {
    hide ValidMaps;
    if ts != [] {
      DistSymbolsSize(m, ts[..|ts| - 1]);
    }
  }

  lemma {:induction false} FrequencyShape(f: seq<nat>, syms: seq<nat>, n: nat)
    requires Frequencies(f, syms, n)
    ensures n <= |f|
  {
  }

  /** What ct_tally guesses the compressed size in bytes to be: 8 bits per token, and 5 plus
      the extra bits per distance. */
  ghost function GuessedLength(lastLit: nat, fd: seq<nat>): int
    requires |fd| >= D_CODES
  {
    (8 * lastLit + Sum(Charges(fd, DistBits(), D_CODES))) / 8
  }

  /** The guess in terms of the tokens. */
  ghost function Guess(m: Maps, ts: seq<Token>): int
    requires ValidMaps(m) && ValidTokens(ts)
  {
    (8 * |ts| + WeightOf(DistSymbols(m, ts), DistBits())) / 8
  }

  lemma {:induction false} GuessIs(fl: seq<nat>, fd: seq<nat>, m: Maps, ts: seq<Token>)
    requires Tallied(fl, fd, m, ts)
    ensures |fd| >= D_CODES && GuessedLength(|ts|, fd) == Guess(m, ts)
  {
    hide ValidMaps;
    FrequencyCost(fd, DistSymbols(m, ts), DistBits(), D_CODES);
  }

  /** ct_tally asks for a new block: a buffer is full, or, looked at every 4096 tokens, less
      than half of them are matches and the block seems to be compressed to less than half. */
  ghost predicate Due(m: Maps, ts: seq<Token>, inLength: int)
    requires ValidMaps(m) && ValidTokens(ts)
  {
    || |ts| == LIT_BUFSIZE - 1 || |DistsOf(ts)| == DIST_BUFSIZE
    || (|ts| % 0x1000 == 0 && |DistsOf(ts)| < |ts| / 2 && Guess(m, ts) < inLength / 2)
  }

  ghost function DistBits(): (c: seq<int>)
    ensures |c| == D_CODES
  {
    seq(D_CODES, i requires 0 <= i < D_CODES => 5 + DIST_EXTRA[i])
  }

  lemma {:induction false} ChargesSnoc(f: seq<nat>, c: seq<int>, n: nat)
    requires n < |f| && n < |c|
    ensures Sum(Charges(f, c, n + 1)) == Sum(Charges(f, c, n)) + f[n] * c[n]
  {
    assert Charges(f, c, n + 1)[..n] == Charges(f, c, n);
  }

  lemma {:induction false} NoCharges(f: seq<nat>, c: seq<int>)
    ensures Sum(Charges(f, c, 0)) == 0
  {
  }

  method GuessLength(fd: array<nat>, lastLit: nat) returns (out: int)
    requires fd.Length >= D_CODES
    ensures out == GuessedLength(lastLit, fd[..])
  {
    hide Charges;
    out := lastLit * 8;
    NoCharges(fd[..], DistBits());
    for dcode := 0 to D_CODES
      invariant out == lastLit * 8 + Sum(Charges(fd[..], DistBits(), dcode))
    {
      ChargesSnoc(fd[..], DistBits(), dcode);
      out := out + fd[dcode] * (5 + EXTRA_DBITS[dcode]);
    }
    out := out / 8;
  }

  /** Counts the symbols of one token. */
  method CountSymbols(fl: array<nat>, fd: array<nat>, tab: Tables, dist: nat, lc: byte, ghost m: Maps, ghost ts: seq<Token>, ghost t: Token)
    requires tab.Valid() && tab.M() == m && dist <= 32768 && fl != fd && {fl, fd} !! tab.Repr()
    requires t == if dist == 0 then Literal(lc) else Match(lc + MIN_MATCH, dist)
    requires Tallied(fl[..], fd[..], m, ts)
    modifies fl, fd
    ensures tab.Valid() && tab.M() == m && Tallied(fl[..], fd[..], m, ts + [t])
    ensures |ts| < LIT_BUFSIZE && Narrow(old(fl[..])) && Narrow(old(fd[..])) ==> Narrow(fl[..]) && Narrow(fd[..])
  {
    hide ValidMaps, Tallied, StaticTrees;
    MapShape(m);
    ghost var l0, d0 := fl[..], fd[..];
    TalliedStep(l0, d0, m, ts, t);
    TalliedBound(l0, d0, m, ts);
    if dist == 0 {
      fl[lc] := fl[lc] + 1;
      assert fl[..] == l0[lc := l0[lc] + 1] && fd[..] == d0;
    } else {
      var c := tab.lengthCode[lc] + LITERALS + 1;
      assert c == LitSymbol(m, t);
      var d := if dist - 1 < 256 then tab.distCode[dist - 1] else tab.distCode[256 + (dist - 1) / 128];
      assert d == DistCode(m, dist);
      fl[c] := fl[c] + 1;
      fd[d] := fd[d] + 1;
      assert fl[..] == l0[c := l0[c] + 1] && fd[..] == d0[d := d0[d] + 1];
    }
    assert tab.M() == m;
  }

  /** ct_tally: the token is stored and counted. The block must be flushed when the buffer
      is full, and may be when every 4096 tokens it looks profitable. */
  method CtTally(tb: TokenBuffer, lt: Tree, dt: Tree, tab: Tables, dist: nat, lc: byte, inLength: int) returns (flush: bool)
    requires tb.Valid() && tb.lastLit < LIT_BUFSIZE - 1 && tab.Valid() && dist <= 32768
    requires lt.fc != dt.fc && tb.dBuf != lt.fc && tb.dBuf != dt.fc && dt.fc.Length >= D_CODES
    requires {lt.fc, dt.fc, tb.dBuf} !! tab.Repr()
    requires Tallied(lt.fc[..], dt.fc[..], tab.M(), tb.tokens)
    modifies tb, tb.lBuf, tb.dBuf, tb.flagBuf, lt.fc, dt.fc
    ensures tb.Valid() && tab.Valid()
    ensures tb.tokens == old(tb.tokens) + [if dist == 0 then Literal(lc) else Match(lc + MIN_MATCH, dist)]
    ensures Tallied(lt.fc[..], dt.fc[..], tab.M(), tb.tokens)
    ensures Narrow(old(lt.fc[..])) && Narrow(old(dt.fc[..])) ==> Narrow(lt.fc[..]) && Narrow(dt.fc[..])
    ensures flush <==> Due(tab.M(), tb.tokens, inLength)
  {
    hide ValidMaps, Tallied, StaticTrees, BytesOf, KindsOf, Flags, GuessedLength, Guess, DistsOf, Narrow;
    ghost var m, ts, fl, fd := tab.M(), tb.tokens, lt.fc[..], dt.fc[..];
    ghost var t := if dist == 0 then Literal(lc) else Match(lc + MIN_MATCH, dist);
    tb.Store(dist, lc, t);
    assert tab.M() == m && lt.fc[..] == fl && dt.fc[..] == fd;
    CountSymbols(lt.fc, dt.fc, tab, dist, lc, m, ts, t);
    GuessIs(lt.fc[..], dt.fc[..], m, tb.tokens);
    if tb.lastLit % 0x1000 == 0 {
      var outLength := GuessLength(dt.fc, tb.lastLit);
      if tb.lastDist < tb.lastLit / 2 && outLength < inLength / 2 {
        return true;
      }
    }
    flush := tb.lastLit == LIT_BUFSIZE - 1 || tb.lastDist == DIST_BUFSIZE;
  }

  lemma {:induction false} MapShape(m: Maps)
    requires ValidMaps(m)
    ensures |m.lengthCode| == 256 && |m.distCode| == 512 && |m.baseLength| == LENGTH_CODES && |m.baseDist| == D_CODES
  {
  }

  // ----- reading the buffers back -----

  lemma {:induction false} ByteAt(ts: seq<Token>, i: nat)
    requires ValidTokens(ts) && i < |ts|
    ensures BytesOf(ts)[i] == ByteOf(ts[i]) && KindsOf(ts)[i] == ts[i].Match?
  {
    if i < |ts| - 1 {
      ByteAt(ts[..|ts| - 1], i);
    }
  }

  /** The distance of a match stands after those of the matches before it. */
  lemma {:induction false} DistAt(ts: seq<Token>, i: nat)
    requires ValidTokens(ts) && i < |ts|
    ensures ValidTokens(ts[..i]) && ValidTokens(ts[..i + 1])
    ensures |DistsOf(ts[..i + 1])| == |DistsOf(ts[..i])| + (if ts[i].Match? then 1 else 0)
    ensures ts[i].Match? ==> |DistsOf(ts[..i])| < |DistsOf(ts)| && DistsOf(ts)[|DistsOf(ts[..i])|] == ts[i].dist - 1
  {
    assert ts[..i + 1][..i] == ts[..i];
    if i == |ts| - 1 {
      assert ts[..i + 1] == ts;
    } else {
      var init := ts[..|ts| - 1];
      DistAt(init, i);
      assert init[..i] == ts[..i];
    }
  }

  lemma {:induction false} LsbAt(v: nat, n: nat, k: nat)
    requires k < n
    ensures BitsLsb(v, n)[k] == (ShiftRight(v, k) % 2 == 1)
  {
    if k > 0 {
      LsbAt(v / 2, n - 1, k - 1);
      ShiftShift(v, k);
    }
  }

  lemma {:induction false} ByteBitAt(s: seq<byte>, i: nat, k: nat)
    requires i < |s| && k < 8
    ensures BytesBits(s)[8 * i + k] == (ShiftRight(s[i], k) % 2 == 1)
  {
    hide BitsLsb;
    if i == |s| - 1 {
      LsbAt(s[i], 8, k);
    } else {
      ByteBitAt(s[..|s| - 1], i, k);
    }
  }

  /** flush_block has saved the flags of the last tokens, so bit i % 8 of byte i / 8 tells
      literals from matches. */
  lemma {:induction false} FlagAt(fb: seq<byte>, flags: nat, n: nat, kinds: seq<bool>, i: nat)
    requires Flags(fb, flags, n, kinds) && n / 8 < |fb| && fb[n / 8] == flags && i < n == |kinds|
    ensures i / 8 < |fb| && kinds[i] == (ShiftRight(fb[i / 8], i % 8) % 2 == 1)
  {
    if i / 8 < n / 8 {
      ByteBitAt(fb[..n / 8], i / 8, i % 8);
    } else {
      LsbAt(flags, n % 8, i % 8);
    }
  }

  // ----- compress_block -----

  /** The codes and lengths of the symbols below n are those of the table lens. */
  ghost predicate CodeArrays(fc: seq<nat>, dl: seq<nat>, lens: seq<nat>, n: nat)
  {
    n <= |lens| && n <= |fc| && n <= |dl| && forall s :: 0 <= s < n ==> dl[s] == lens[s] && CodeSet(fc, lens, s)
  }

  /** Sends the extra bits of a value in the range that starts at base, if there are any. */
  method SendExtra(w: Writer, value: nat, base: nat, bits: nat, ghost x: nat)
    requires w.Valid() && bits <= 16 && x < Pow2(bits) && (bits > 0 ==> value == base + x)
    modifies w, w.outbuf
    ensures w.Valid() && w.Bits() == old(w.Bits()) + BitsLsb(x, bits)
  {
    hide Writer.Bits, Writer.Valid, BitsLsb, Pow2;
    if bits != 0 {
      w.SendBits(value - base, bits);
    } else {
      EmptyBits(x);
    }
  }

  lemma {:induction false} ExtraBitsSmall(c: nat)
    ensures c < 29 ==> LENGTH_EXTRA[c] <= 5
    ensures c < 30 ==> DIST_EXTRA[c] <= 13
  {
  }

  /** Sends the part of a match after its length symbol. */
  method SendMatch(w: Writer, fcD: array<nat>, dlD: array<nat>, tab: Tables, lc: nat, dist: nat, ghost m: Maps, ghost dd: seq<nat>,
                   ghost nd: nat, ghost t: Token)
    requires w.Valid() && tab.Valid() && tab.M() == m
    requires lc < 256 && dist < 32768 && t == Match(lc + MIN_MATCH, dist + 1)
    requires CodeArrays(fcD[..], dlD[..], dd, nd) && DistCode(m, t.dist) < nd && 1 <= dd[DistCode(m, t.dist)] <= MAX_BITS
    modifies w, w.outbuf
    ensures w.Valid() && w.Bits() == old(w.Bits()) + MatchBits(m, dd, t)
  {
    hide ValidMaps, StaticTrees, BitsLsb, CodeBits, Pow2, CodeSet, Writer.Bits, Writer.Valid, LengthCode, DistCode, LengthExtra, DistExtra;
    MapShape(m);
    MatchEntries(m, t);
    ghost var before := w.Bits();
    var code := tab.lengthCode[lc];
    ExtraBitsSmall(code);
    SendExtra(w, lc, tab.baseLength[code], EXTRA_LBITS[code], LengthExtra(m, t.length));
    ghost var mid := w.Bits();
    var dcode := if dist < 256 then tab.distCode[dist] else tab.distCode[256 + dist / 128];
    ExtraBitsSmall(dcode);
    SendCode(w, fcD, dlD, dcode, dd);
    ghost var coded := w.Bits();
    SendExtra(w, dist, tab.baseDist[dcode], EXTRA_DBITS[dcode], DistExtra(m, t.dist));
    ghost var a, b, c := BitsLsb(LengthExtra(m, t.length), EXTRA_LBITS[code]), CodeBits(dd, dcode), BitsLsb(DistExtra(m, t.dist), EXTRA_DBITS[dcode]);
    Concat3(before, a, b, c);
  }

  lemma {:induction false} Concat3(s: seq<bool>, a: seq<bool>, b: seq<bool>, c: seq<bool>)
    ensures ((s + a) + b) + c == s + (a + (b + c))
  {
  }

  lemma {:induction false} MatchEntries(m: Maps, t: Token)
    requires ValidMaps(m) && ValidToken(t) && t.Match?
    ensures |m.lengthCode| == 256 && |m.distCode| == 512 && |m.baseLength| == LENGTH_CODES && |m.baseDist| == D_CODES
    ensures LengthCode(m, t.length) == m.lengthCode[t.length - MIN_MATCH] && DistCode(m, t.dist) == DCode(m.distCode, t.dist - 1)
    ensures var c := LengthCode(m, t.length);
            LENGTH_EXTRA[c] > 0 ==> m.baseLength[c] <= t.length - MIN_MATCH && LengthExtra(m, t.length) == t.length - MIN_MATCH - m.baseLength[c]
    ensures var d := DistCode(m, t.dist);
            m.baseDist[d] <= t.dist - 1 && DistExtra(m, t.dist) == t.dist - 1 - m.baseDist[d]
  {
    hide ValidMaps, LengthCode, DistCode, LengthExtra, DistExtra;
    MapShape(m);
    LengthFacts(m, t.length);
    DistFacts(m, t.dist);
  }

  lemma {:induction false} LengthFacts(m: Maps, length: nat)
    requires ValidMaps(m) && MIN_MATCH <= length <= MAX_MATCH && |m.lengthCode| == 256 && |m.baseLength| == LENGTH_CODES
    ensures LengthCode(m, length) == m.lengthCode[length - MIN_MATCH]
    ensures var c := LengthCode(m, length);
            LENGTH_EXTRA[c] > 0 ==> m.baseLength[c] <= length - MIN_MATCH && LengthExtra(m, length) == length - MIN_MATCH - m.baseLength[c]
  {
    hide Pow2, DistsDone;
    assert LengthEntry(m.lengthCode, m.baseLength, length - MIN_MATCH);
  }

  lemma {:induction false} DistFacts(m: Maps, dist: nat)
    requires ValidMaps(m) && 1 <= dist <= 32768 && |m.distCode| == 512 && |m.baseDist| == D_CODES
    ensures DistCode(m, dist) == DCode(m.distCode, dist - 1)
    ensures var d := DistCode(m, dist); m.baseDist[d] <= dist - 1 && DistExtra(m, dist) == dist - 1 - m.baseDist[d]
  {
    hide Pow2, LengthsDone;
    assert DistEntry(DCode(m.distCode, dist - 1), m.baseDist, dist - 1);
  }

  /** Sends one token. */
  method SendToken(w: Writer, fcL: array<nat>, dlL: array<nat>, fcD: array<nat>, dlD: array<nat>, tab: Tables, isMatch: bool, lc: nat, dist: nat,
                   ghost m: Maps, ghost ll: seq<nat>, ghost nl: nat, ghost dd: seq<nat>, ghost nd: nat, ghost t: Token)
    requires w.Valid() && tab.Valid() && tab.M() == m && lc < 256 && (isMatch ==> dist < 32768)
    requires t == if isMatch then Match(lc + MIN_MATCH, dist + 1) else Literal(lc)
    requires CodeArrays(fcL[..], dlL[..], ll, nl) && CodeArrays(fcD[..], dlD[..], dd, nd)
    requires Coded(m, ll, dd, t) && LitSymbol(m, t) < nl && (t.Match? ==> DistCode(m, t.dist) < nd)
    modifies w, w.outbuf
    ensures w.Valid() && w.Bits() == old(w.Bits()) + TokenBits(m, ll, dd, t)
  {
    hide ValidMaps, StaticTrees, BitsLsb, CodeBits, Pow2, CodeSet, MatchBits, Writer.Bits, Writer.Valid;
    ghost var before, fd, ddl := w.Bits(), fcD[..], dlD[..];
    MapShape(m);
    if !isMatch {
      SendCode(w, fcL, dlL, lc, ll);
      assert before + (CodeBits(ll, lc) + []) == before + CodeBits(ll, lc);
    } else {
      var code := tab.lengthCode[lc] + LITERALS + 1;
      assert code == LitSymbol(m, t);
      SendCode(w, fcL, dlL, code, ll);
      assert tab.M() == m && fcD[..] == fd && dlD[..] == ddl;
      SendMatch(w, fcD, dlD, tab, lc, dist, m, dd, nd, t);
      Regroup(before, CodeBits(ll, code) + MatchBits(m, dd, t), [], CodeBits(ll, code), MatchBits(m, dd, t));
    }
  }

  /** The symbols of the tokens are among those whose codes are in the arrays. */
  ghost predicate Within(m: Maps, nl: nat, nd: nat, ts: seq<Token>)
    requires ValidMaps(m) && ValidTokens(ts)
  {
    forall i :: 0 <= i < |ts| ==> LitSymbol(m, ts[i]) < nl && (ts[i].Match? ==> DistCode(m, ts[i].dist) < nd)
  }

  /** compress_block: all tokens of the buffer and the end-of-block symbol. */
  method CompressBlock(w: Writer, fcL: array<nat>, dlL: array<nat>, fcD: array<nat>, dlD: array<nat>, tab: Tables, tb: TokenBuffer,
                       ghost ll: seq<nat>, ghost nl: nat, ghost dd: seq<nat>, ghost nd: nat)
    requires w.Valid() && tab.Valid() && tb.Valid() && w.outbuf != tb.lBuf && w.outbuf != tb.flagBuf
    requires tb.lastFlags < tb.flagBuf.Length && tb.flagBuf[tb.lastFlags] == tb.flags
    requires CodeArrays(fcL[..], dlL[..], ll, nl) && CodeArrays(fcD[..], dlD[..], dd, nd)
    requires AllCoded(tab.M(), ll, dd, tb.tokens) && Within(tab.M(), nl, nd, tb.tokens)
    requires END_OF_BLOCK < nl && 1 <= ll[END_OF_BLOCK] <= MAX_BITS
    modifies w, w.outbuf
    ensures w.Valid() && tb.Valid()
    ensures w.Bits() == old(w.Bits()) + (TokensBits(tab.M(), ll, dd, tb.tokens) + CodeBits(ll, END_OF_BLOCK))
  {
    hide ValidMaps, StaticTrees, CodeArrays, TokensBits, TokenBits, DistsOf, BytesOf, KindsOf, Flags, CodeBits, AllCoded, Within, Writer.Bits, Writer.Valid, ShiftRight;
    ghost var m, ts, before := tab.M(), tb.tokens, w.Bits();
    ghost var fl, dl, fd, ddl := fcL[..], dlL[..], fcD[..], dlD[..];
    ghost var lb, db, fb := tb.lBuf[..], tb.dBuf[..], tb.flagBuf[..];
    var lx, dx, fx, flag := 0, 0, 0, 0;
    NoTokens(m, ll, dd, ts);
    while lx < tb.lastLit
      invariant 0 <= lx <= |ts| && w.Valid() && tb.Valid() && tb.tokens == ts && tab.M() == m
      invariant fcL[..] == fl && dlL[..] == dl && fcD[..] == fd && dlD[..] == ddl
      invariant tb.lBuf[..] == lb && tb.dBuf[..] == db && tb.flagBuf[..] == fb
      invariant fx == (lx + 7) / 8 && ValidTokens(ts[..lx]) && dx == |DistsOf(ts[..lx])|
      invariant lx % 8 != 0 ==> lx / 8 < |fb| && flag == ShiftRight(fb[lx / 8], lx % 8)
      invariant AllCoded(m, ll, dd, ts[..lx]) && w.Bits() == before + TokensBits(m, ll, dd, ts[..lx])
    {
      ghost var i, t := lx, ts[lx];
      DivEight(i);
      TokenInBuffers(lb, db, fb, tb.flags, ts, i);
      if lx % 8 == 0 {
        flag := tb.flagBuf[fx];
        fx := fx + 1;
      }
      var lc := tb.lBuf[lx];
      lx := lx + 1;
      var isMatch := flag % 2 != 0;
      var dist := 0;
      if isMatch {
        dist := tb.dBuf[dx];
        dx := dx + 1;
      }
      TokenCoded(m, ll, dd, nl, nd, ts, i);
      SendToken(w, fcL, dlL, fcD, dlD, tab, isMatch, lc, dist, m, ll, nl, dd, nd, t);
      MoreTokens(m, ll, dd, ts, i, before);
      assert w.Bits() == before + TokensBits(m, ll, dd, ts[..i + 1]);
      flag := flag / 2;
      assert tab.M() == m && fcL[..] == fl && dlL[..] == dl && fcD[..] == fd && dlD[..] == ddl;
    }
    assert ts[..|ts|] == ts;
    EndCode(fl, dl, ll, nl);
    SendCode(w, fcL, dlL, END_OF_BLOCK, ll);
    Regroup(before, TokensBits(m, ll, dd, ts) + CodeBits(ll, END_OF_BLOCK), [], TokensBits(m, ll, dd, ts), CodeBits(ll, END_OF_BLOCK));
  }

  lemma {:induction false} NoTokens(m: Maps, ll: seq<nat>, dd: seq<nat>, ts: seq<Token>)
    requires AllCoded(m, ll, dd, ts)
    ensures ts[..0] == [] && AllCoded(m, ll, dd, []) && TokensBits(m, ll, dd, []) == [] && DistsOf([]) == []
  {
  }

  lemma {:induction false} MoreTokens(m: Maps, ll: seq<nat>, dd: seq<nat>, ts: seq<Token>, i: nat, before: seq<bool>)
    requires AllCoded(m, ll, dd, ts) && i < |ts|
    ensures AllCoded(m, ll, dd, ts[..i]) && AllCoded(m, ll, dd, ts[..i + 1])
    ensures (before + TokensBits(m, ll, dd, ts[..i])) + TokenBits(m, ll, dd, ts[i]) == before + TokensBits(m, ll, dd, ts[..i + 1])
  {
    hide ValidMaps, TokenBits, Coded;
    var a, b := ts[..i], ts[..i + 1];
    assert b[..i] == a && b[i] == ts[i];
    Regroup(before, TokensBits(m, ll, dd, b), [], TokensBits(m, ll, dd, a), TokenBits(m, ll, dd, ts[i]));
  }

  lemma {:induction false} TokenCoded(m: Maps, ll: seq<nat>, dd: seq<nat>, nl: nat, nd: nat, ts: seq<Token>, i: nat)
    requires AllCoded(m, ll, dd, ts) && Within(m, nl, nd, ts) && i < |ts|
    ensures ValidToken(ts[i]) && Coded(m, ll, dd, ts[i]) && LitSymbol(m, ts[i]) < nl
    ensures ts[i].Match? ==> DistCode(m, ts[i].dist) < nd
  {
  }

  lemma {:induction false} EndCode(fc: seq<nat>, dl: seq<nat>, ll: seq<nat>, nl: nat)
    requires CodeArrays(fc, dl, ll, nl) && END_OF_BLOCK < nl
    ensures END_OF_BLOCK < |fc| && END_OF_BLOCK < |dl| && END_OF_BLOCK < |ll|
    ensures dl[END_OF_BLOCK] == ll[END_OF_BLOCK] && CodeSet(fc, ll, END_OF_BLOCK)
  {
  }

  lemma {:induction false} DivEight(i: nat)
    ensures (i + 8) / 8 == i / 8 + 1 && (i % 8 == 0 ==> (i + 7) / 8 == i / 8) && (i % 8 != 0 ==> (i + 7) / 8 == i / 8 + 1)
    ensures (i + 1) % 8 != 0 ==> (i + 1) / 8 == i / 8 && (i + 1) % 8 == i % 8 + 1
  {
  }

  /** Token i as the three buffers hold it. */
  lemma {:induction false} TokenInBuffers(lb: seq<byte>, db: seq<nat>, fb: seq<byte>, flags: nat, ts: seq<Token>, i: nat)
    requires ValidTokens(ts) && i < |ts| <= |lb| && |DistsOf(ts)| <= |db|
    requires lb[..|ts|] == BytesOf(ts) && db[..|DistsOf(ts)|] == DistsOf(ts)
    requires Flags(fb, flags, |ts|, KindsOf(ts)) && |ts| / 8 < |fb| && fb[|ts| / 8] == flags
    ensures i / 8 < |fb| && (ShiftRight(fb[i / 8], i % 8) % 2 == 1 <==> ts[i].Match?) && lb[i] == ByteOf(ts[i])
    ensures ShiftRight(fb[i / 8], 0) == fb[i / 8] && ShiftRight(fb[i / 8], i % 8 + 1) == ShiftRight(fb[i / 8], i % 8) / 2
    ensures ValidTokens(ts[..i]) && ValidTokens(ts[..i + 1])
    ensures |DistsOf(ts[..i + 1])| == |DistsOf(ts[..i])| + (if ts[i].Match? then 1 else 0)
    ensures ts[i].Match? ==> |DistsOf(ts[..i])| < |db| && db[|DistsOf(ts[..i])|] == ts[i].dist - 1
  {
    hide Flags, DistsOf, BytesOf, KindsOf;
    ByteAt(ts, i);
    DistAt(ts, i);
    FlagAt(fb, flags, |ts|, KindsOf(ts), i);
    assert lb[..|ts|][i] == lb[i];
    var k := |DistsOf(ts[..i])|;
    if ts[i].Match? {
      assert db[..|DistsOf(ts)|][k] == db[k];
    }
  }
}
