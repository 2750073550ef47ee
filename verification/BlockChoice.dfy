/**
 What a block costs in each of its forms: opt_len and static_len, as build_tree and
 build_bl_tree add them up, are the exact numbers of bits after the block header.
 */
module BlockChoice {
  import opened Sums
  import opened Inflate
  import opened Canonical
  import opened SymbolTables
  import opened TokenCoding
  import opened Accounting
  import opened TreeBuilder
  import opened BitLengths
  import opened CompressBlock
  import opened BlockFormat
  import opened Tally
  import opened BitWriter

  // ----- every symbol that occurs has a code -----

  lemma {:induction false} LitSymbolAt(m: Maps, ts: seq<Token>, i: nat)
    requires ValidMaps(m) && ValidTokens(ts) && i < |ts|
    ensures |LitSymbols(m, ts)| == |ts| + 1 && LitSymbols(m, ts)[i + 1] == LitSymbol(m, ts[i])
  {
    hide ValidMaps;
    LitSymbolsSize(m, ts);
    if i < |ts| - 1 {
      LitSymbolAt(m, ts[..|ts| - 1], i);
    } else {
      LitSymbolsSize(m, ts[..|ts| - 1]);
    }
  }

  lemma {:induction false} DistSymbolAt(m: Maps, ts: seq<Token>, i: nat) returns (k: nat)
    requires ValidMaps(m) && ValidTokens(ts) && i < |ts| && ts[i].Match?
    ensures k < |DistSymbols(m, ts)| && DistSymbols(m, ts)[k] == DistCode(m, ts[i].dist)
  {
    hide ValidMaps;
    var init := ts[..|ts| - 1];
    if i < |ts| - 1 {
      k := DistSymbolAt(m, init, i);
    } else {
      k := |DistSymbols(m, init)|;
    }
  }

  /** Every symbol that was counted has a length. */
  ghost predicate Covers(f: seq<nat>, lens: seq<nat>)
  {
    |lens| <= |f| && forall x :: 0 <= x < |lens| && f[x] != 0 ==> lens[x] > 0
  }

  /** The lengths from n on are zero. */
  ghost predicate ZeroFrom(lens: seq<nat>, n: nat)
  {
    n <= |lens| && forall x :: n <= x < |lens| ==> lens[x] == 0
  }

  lemma {:induction false} SymbolCoded(f: seq<nat>, syms: seq<nat>, lens: seq<nat>, n: nat, i: nat)
    requires Frequencies(f, syms, |lens|) && Covers(f, lens) && ZeroFrom(lens, n) && ValidLengths(lens[..n]) && i < |syms|
    ensures syms[i] < n && 1 <= lens[..n][syms[i]] <= MAX_BITS
  {
    Occurs(f, syms, |lens|, i);
    assert lens[..n][syms[i]] == lens[syms[i]];
  }

  lemma {:induction false} DynamicCodes(fl: seq<nat>, fd: seq<nat>, m: Maps, ts: seq<Token>, lensL: seq<nat>, lensD: seq<nat>, nl: nat, nd: nat)
    requires Tallied(fl, fd, m, ts) && |lensL| == 286 && |lensD| == D_CODES
    requires Covers(fl, lensL) && Covers(fd, lensD) && ZeroFrom(lensL, nl) && ZeroFrom(lensD, nd)
    requires nl <= 286 && nd <= D_CODES && Complete(lensL[..nl]) && Complete(lensD[..nd])
    ensures Codes(m, lensL[..nl], lensD[..nd], ts) && Within(m, nl, nd, ts)
    ensures END_OF_BLOCK < nl && lensL[END_OF_BLOCK] > 0
  {
    hide ValidMaps, Covers, ZeroFrom, Frequencies, Kraft, Pow2;
    var ll, dd := lensL[..nl], lensD[..nd];
    forall i | 0 <= i < |ts|
      ensures Coded(m, ll, dd, ts[i]) && LitSymbol(m, ts[i]) < nl && (ts[i].Match? ==> DistCode(m, ts[i].dist) < nd)
    {
      LitSymbolAt(m, ts, i);
      SymbolCoded(fl, LitSymbols(m, ts), lensL, nl, i + 1);
      if ts[i].Match? {
        var k := DistSymbolAt(m, ts, i);
        SymbolCoded(fd, DistSymbols(m, ts), lensD, nd, k);
      }
    }
    LitSymbolsSize(m, ts);
    SymbolCoded(fl, LitSymbols(m, ts), lensL, nl, 0);
  }

  lemma {:induction false} FixedCodes(m: Maps, ts: seq<Token>)
    requires ValidMaps(m) && ValidTokens(ts)
    ensures Codes(m, FixedLiteralLengths(), FixedDistanceLengths(), ts) && Within(m, 288, D_CODES, ts)
  {
    hide ValidMaps, Kraft, Pow2, FixedLiteralLengths, FixedDistanceLengths;
    FixedKraft();
    FixedShort();
    var ll, dd := FixedLiteralLengths(), FixedDistanceLengths();
    forall i | 0 <= i < |ts| ensures Coded(m, ll, dd, ts[i]) {
    }
  }

  lemma {:induction false} FixedKraft()
    ensures Kraft(FixedLiteralLengths()) == Pow2(MAX_BITS) == Kraft(FixedDistanceLengths())
  {
    var bl: seq<nat> := [0, 0, 0, 0, 0, 0, 0, 24, 152, 112, 0, 0, 0, 0, 0, 0];
    FixedLiteralCode(bl);
    FixedDistanceCode(0);
  }

  lemma {:induction false} FixedShort()
    ensures forall x :: 0 <= x < 288 ==> 1 <= FixedLiteralLengths()[x] <= 9
    ensures forall x :: 0 <= x < 32 ==> FixedDistanceLengths()[x] == 5
  {
  }

  // ----- the price of the body -----

  lemma {:induction false} BodyCost(fl: seq<nat>, fd: seq<nat>, m: Maps, ts: seq<Token>, ll: seq<nat>, dd: seq<nat>, cl: seq<int>, cd: seq<int>)
    requires Tallied(fl, fd, m, ts) && Codes(m, ll, dd, ts) && LitCharges(cl, ll) && DistCharges(cd, dd)
    ensures |fl| >= 286 == |cl| && |fd| >= D_CODES == |cd|
    ensures |BodyBits(m, ll, dd, ts)| == Sum(Charges(fl, cl, 286)) + Sum(Charges(fd, cd, D_CODES))
  {
    hide ValidMaps, AllCoded, Frequencies, TokensBits, CodeBits, Kraft, Pow2, LitCharges, DistCharges, Charges;
    ChargesShape(cl, ll, cd, dd);
    FrequencyShape(fl, LitSymbols(m, ts), 286);
    FrequencyShape(fd, DistSymbols(m, ts), D_CODES);
    BodyPrice(m, ll, dd, ts, cl, cd);
    FrequencyCost(fl, LitSymbols(m, ts), cl, 286);
    FrequencyCost(fd, DistSymbols(m, ts), cd, D_CODES);
  }

  /** The descriptors l_desc and d_desc. */
  ghost predicate LDesc(t: Tree)
  {
    && t.Shape() && t.elems == 286 && t.maxLength == MAX_BITS && t.extraBits == LENGTH_EXTRA && t.extraBase == 257
    && t.staticLens == Some(FixedLiteralLengths())
  }

  ghost predicate DDesc(t: Tree)
  {
    && t.Shape() && t.elems == D_CODES && t.maxLength == MAX_BITS && t.extraBits == DIST_EXTRA && t.extraBase == 0
    && t.staticLens == Some(FixedDistanceLengths())
  }

  /** Base length plus extra bits for all symbols. */
  ghost function FullCharges(base: seq<nat>, extra: seq<nat>): (c: seq<int>)
    requires |base| >= |extra|
    ensures |c| == |extra|
  {
    seq(|extra|, x requires 0 <= x < |extra| => base[x] + extra[x])
  }

  /** Symbols without a length do not occur, so charging them changes nothing. */
  lemma {:induction false} ChargeAll(f: seq<nat>, lens: seq<nat>, base: seq<nat>, extra: seq<nat>)
    requires Covers(f, lens) && |base| >= |lens| == |extra|
    ensures BlockCost(f, lens, base, extra) == Sum(Charges(f, FullCharges(base, extra), |lens|))
  {
    var c, d := WithExtra(lens, base, extra), FullCharges(base, extra);
    forall x | 0 <= x < |lens| ensures Charges(f, c, |lens|)[x] == Charges(f, d, |lens|)[x] {
      if f[x] == 0 {
        NoTimes(c[x]);
        NoTimes(d[x]);
      }
    }
    assert Charges(f, c, |lens|) == Charges(f, d, |lens|);
  }

  lemma {:induction false} NoTimes(c: int)
    ensures 0 * c == 0
  {
  }

  lemma {:induction false} DynamicCost(lt: Tree, dt: Tree, fl: seq<nat>, fd: seq<nat>, m: Maps, ts: seq<Token>, lensL: seq<nat>, lensD: seq<nat>, nl: nat, nd: nat)
    requires LDesc(lt) && DDesc(dt) && Tallied(fl, fd, m, ts) && |lensL| == 286 && |lensD| == D_CODES
    requires nl <= 286 && nd <= D_CODES && Codes(m, lensL[..nl], lensD[..nd], ts)
    ensures |fl| >= 286 && |fd| >= D_CODES
    ensures BlockCost(fl, lensL, lensL, lt.Extras()) + BlockCost(fd, lensD, lensD, dt.Extras())
            == |BodyBits(m, lensL[..nl], lensD[..nd], ts)|
  {
    hide Codes, Tallied, BodyBits;
    var cl, cd := WithExtra(lensL, lensL, lt.Extras()), WithExtra(lensD, lensD, dt.Extras());
    assert LitCharges(cl, lensL[..nl]) && DistCharges(cd, lensD[..nd]);
    BodyCost(fl, fd, m, ts, lensL[..nl], lensD[..nd], cl, cd);
  }

  lemma {:induction false} StaticCost(lt: Tree, dt: Tree, fl: seq<nat>, fd: seq<nat>, m: Maps, ts: seq<Token>, lensL: seq<nat>, lensD: seq<nat>)
    requires LDesc(lt) && DDesc(dt) && Tallied(fl, fd, m, ts) && |lensL| == 286 && |lensD| == D_CODES
    requires Covers(fl, lensL) && Covers(fd, lensD)
    requires Codes(m, FixedLiteralLengths(), FixedDistanceLengths(), ts)
    ensures BlockCost(fl, lensL, lt.Statics(), lt.Extras()) + BlockCost(fd, lensD, dt.Statics(), dt.Extras())
            == |BodyBits(m, FixedLiteralLengths(), FixedDistanceLengths(), ts)|
  {
    hide Codes, Tallied, BodyBits, FixedLiteralLengths, FixedDistanceLengths, BlockCost, Covers;
    var ll, dd := FixedLiteralLengths(), FixedDistanceLengths();
    var cl, cd := FullCharges(ll, lt.Extras()), FullCharges(dd, dt.Extras());
    assert LitCharges(cl, ll) && DistCharges(cd, dd);
    BodyCost(fl, fd, m, ts, ll, dd, cl, cd);
    ChargeAll(fl, lensL, ll, lt.Extras());
    ChargeAll(fd, lensD, dd, dt.Extras());
  }

  /** No token takes more than 48 bits. */
  lemma {:induction false} TokensBound(m: Maps, ll: seq<nat>, dd: seq<nat>, ts: seq<Token>)
    requires AllCoded(m, ll, dd, ts)
    ensures |TokensBits(m, ll, dd, ts)| <= 48 * |ts|
  {
    hide ValidMaps, TokenBits, Coded;
    if ts != [] {
      TokensBound(m, ll, dd, ts[..|ts| - 1]);
      TokenBound(m, ll, dd, ts[|ts| - 1]);
    }
  }

  lemma {:induction false} TokenBound(m: Maps, ll: seq<nat>, dd: seq<nat>, t: Token)
    requires ValidMaps(m) && ValidToken(t) && Coded(m, ll, dd, t)
    ensures |TokenBits(m, ll, dd, t)| <= 48
  {
    hide ValidMaps, BitsLsb, CodeBits, LengthCode, DistCode, LengthExtra, DistExtra;
    if t.Match? {
      ExtraBitsSmall(LengthCode(m, t.length));
      ExtraBitsSmall(DistCode(m, t.dist));
    }
  }

  /** So the body of a block stays below 49153 bytes. */
  lemma {:induction false} BodyBound(m: Maps, ll: seq<nat>, dd: seq<nat>, ts: seq<Token>)
    requires Codes(m, ll, dd, ts) && |ts| < LIT_BUFSIZE
    ensures |BodyBits(m, ll, dd, ts)| <= 48 * LIT_BUFSIZE
  {
    hide AllCoded, TokensBits, Kraft, Pow2;
    TokensBound(m, ll, dd, ts);
  }

  // ----- the three forms of a block -----

  datatype Coding = StoredData | FixedCode | DynamicCode(cl: seq<nat>, bl: nat, ll: seq<nat>, dd: seq<nat>)

  ghost predicate ValidCoding(m: Maps, ts: seq<Token>, data: seq<byte>, k: Coding)
  {
    match k
    case StoredData => |data| < 65536
    case FixedCode => Codes(m, FixedLiteralLengths(), FixedDistanceLengths(), ts)
    case DynamicCode(cl, bl, ll, dd) => DynTables(cl, bl, ll, dd) && Codes(m, ll, dd, ts)
  }

  /** A block that starts after `before`. */
  ghost function BlockBits(before: seq<bool>, m: Maps, final: bool, ts: seq<Token>, data: seq<byte>, k: Coding): seq<bool>
    requires ValidCoding(m, ts, data, k)
  {
    match k
    case StoredData => StoredBits(before, final, data)
    case FixedCode => FixedBits(m, final, ts)
    case DynamicCode(cl, bl, ll, dd) => DynamicBits(m, final, cl, bl, ll, dd, ts)
  }

  /** Whatever the form, the reader gets the data back. */
  lemma {:induction false} BlockReads(before: seq<bool>, full: seq<bool>, m: Maps, final: bool, ts: seq<Token>, data: seq<byte>, k: Coding, history: seq<byte>)
    requires ValidCoding(m, ts, data, k) && At(full, |before|, BlockBits(before, m, final, ts, data, k))
    requires Expand(history, ts) == Some(history + data)
    ensures ReadBlock(full, |before|, history)
            == Some(Block(final, |before| + |BlockBits(before, m, final, ts, data, k)|, history + data))
  {
    hide StoredBits, FixedBits, DynamicBits, At, Expand, ReadBlock, DynTables, Codes, FixedLiteralLengths, FixedDistanceLengths;
    match k
    case StoredData => StoredReads(before, full, final, data, history);
    case FixedCode => FixedReads(m, final, ts, full, |before|, history, history + data);
    case DynamicCode(cl, bl, ll, dd) => DynamicReads(m, final, cl, bl, ll, dd, ts, full, |before|, history, history + data);
  }

  /** The number of bytes that the bits of a block in a compressed form reach into. */
  ghost function BlockBytes(m: Maps, ts: seq<Token>, k: Coding): nat
    requires !k.StoredData? && ValidCoding(m, ts, [], k)
  {
    (|BlockBits([], m, false, ts, [], k)| + 7) / 8
  }

  /** The rule of flush_block. */
  ghost predicate Chosen(m: Maps, ts: seq<Token>, data: seq<byte>, available: bool, dyn: Coding, k: Coding)
    requires dyn.DynamicCode? && ValidCoding(m, ts, data, dyn) && ValidCoding(m, ts, data, FixedCode)
  {
    var d, f := BlockBytes(m, ts, dyn), BlockBytes(m, ts, FixedCode);
    if available && |data| + 4 <= d && |data| + 4 <= f then k == StoredData
    else if f <= d then k == FixedCode
    else k == dyn
  }

  /** The chosen form takes no more bytes than either of the two compressed forms. */
  lemma {:induction false} ChosenIsShortest(m: Maps, ts: seq<Token>, data: seq<byte>, available: bool, dyn: Coding, k: Coding, before: seq<bool>, final: bool)
    requires dyn.DynamicCode? && ValidCoding(m, ts, data, dyn) && ValidCoding(m, ts, data, FixedCode)
    requires Chosen(m, ts, data, available, dyn, k) && ValidCoding(m, ts, data, k)
    ensures var n := (|BlockBits(before, m, final, ts, data, k)| + 7) / 8;
            if k.StoredData? then n <= BlockBytes(m, ts, dyn) + 2 && n <= BlockBytes(m, ts, FixedCode) + 2
            else n <= BlockBytes(m, ts, dyn) && n <= BlockBytes(m, ts, FixedCode)
  {
    hide BodyBits, TableBits, DynTables, Codes, BitsLsb, BytesBits;
    if k.StoredData? {
      var pad := Padding(before + HeaderBits(0, final));
      assert |BlockBits(before, m, final, ts, data, k)| == 3 + |pad| + 32 + 8 * |data|;
    }
  }
}
