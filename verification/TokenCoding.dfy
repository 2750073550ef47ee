/**
 Tokens as symbols and bits: what compress_block sends for a token, what a reader of
 section 3.2.5 of RFC 1951 makes of it, and what it costs.
 */
module TokenCoding {
  import opened Sums
  import opened Inflate
  import opened Canonical
  import opened SymbolTables

  const MIN_MATCH := 3
  const MAX_MATCH := 258
  const LITERALS := 256

  /** The tables that ct_init sets up. */
  datatype Maps = Maps(lengthCode: seq<nat>, baseLength: seq<nat>, distCode: seq<nat>, baseDist: seq<nat>)

  ghost predicate ValidMaps(m: Maps)
  {
    LengthsDone(m.lengthCode, m.baseLength) && DistsDone(m.distCode, m.baseDist)
  }

  predicate ValidToken(t: Token)
  {
    t.Match? ==> MIN_MATCH <= t.length <= MAX_MATCH && 1 <= t.dist <= 32768
  }

  predicate ValidTokens(ts: seq<Token>)
  {
    forall i :: 0 <= i < |ts| ==> ValidToken(ts[i])
  }

  // ----- symbols -----

  ghost function LengthCode(m: Maps, length: nat): (c: nat)
    requires ValidMaps(m) && MIN_MATCH <= length <= MAX_MATCH
    ensures c < LENGTH_CODES
  {
    assert LengthEntry(m.lengthCode, m.baseLength, length - MIN_MATCH);
    m.lengthCode[length - MIN_MATCH]
  }

  ghost function DistCode(m: Maps, dist: nat): (c: nat)
    requires ValidMaps(m) && 1 <= dist <= 32768
    ensures c < D_CODES
  {
    assert DistEntry(DCode(m.distCode, dist - 1), m.baseDist, dist - 1);
    DCode(m.distCode, dist - 1)
  }

  /** The symbol of the literal and length alphabet. */
  ghost function LitSymbol(m: Maps, t: Token): (s: nat)
    requires ValidMaps(m) && ValidToken(t)
    ensures s < 286 && s != END_OF_BLOCK && (s < 256 <==> t.Literal?)
  {
    if t.Literal? then t.value else LITERALS + 1 + LengthCode(m, t.length)
  }

  ghost function LengthExtra(m: Maps, length: nat): (x: nat)
    requires ValidMaps(m) && MIN_MATCH <= length <= MAX_MATCH
    ensures var c := LengthCode(m, length); x < Pow2(LENGTH_EXTRA[c]) && LENGTH_BASE[c] + x == length
  {
    assert LengthEntry(m.lengthCode, m.baseLength, length - MIN_MATCH);
    var c := LengthCode(m, length);
    if LENGTH_EXTRA[c] == 0 then 0 else length - MIN_MATCH - m.baseLength[c]
  }

  ghost function DistExtra(m: Maps, dist: nat): (x: nat)
    requires ValidMaps(m) && 1 <= dist <= 32768
    ensures var c := DistCode(m, dist); x < Pow2(DIST_EXTRA[c]) && DIST_BASE[c] + x == dist
  {
    assert DistEntry(DCode(m.distCode, dist - 1), m.baseDist, dist - 1);
    dist - 1 - m.baseDist[DistCode(m, dist)]
  }

  // ----- bits -----

  /** Both symbols of the token have codes. */
  ghost predicate Coded(m: Maps, ll: seq<nat>, dd: seq<nat>, t: Token)
    requires ValidMaps(m) && ValidToken(t)
  {
    && LitSymbol(m, t) < |ll| && 1 <= ll[LitSymbol(m, t)] <= MAX_BITS
    && (t.Match? ==> DistCode(m, t.dist) < |dd| && 1 <= dd[DistCode(m, t.dist)] <= MAX_BITS)
  }

  ghost predicate AllCoded(m: Maps, ll: seq<nat>, dd: seq<nat>, ts: seq<Token>)
  {
    ValidMaps(m) && ValidTokens(ts) && forall i :: 0 <= i < |ts| ==> Coded(m, ll, dd, ts[i])
  }

  ghost function MatchBits(m: Maps, dd: seq<nat>, t: Token): seq<bool>
    requires ValidMaps(m) && ValidToken(t) && t.Match? && DistCode(m, t.dist) < |dd|
  {
    BitsLsb(LengthExtra(m, t.length), LENGTH_EXTRA[LengthCode(m, t.length)])
    + (CodeBits(dd, DistCode(m, t.dist)) + BitsLsb(DistExtra(m, t.dist), DIST_EXTRA[DistCode(m, t.dist)]))
  }

  ghost function TokenBits(m: Maps, ll: seq<nat>, dd: seq<nat>, t: Token): seq<bool>
    requires ValidMaps(m) && ValidToken(t) && Coded(m, ll, dd, t)
  {
    CodeBits(ll, LitSymbol(m, t)) + (if t.Match? then MatchBits(m, dd, t) else [])
  }

  ghost function TokensBits(m: Maps, ll: seq<nat>, dd: seq<nat>, ts: seq<Token>): seq<bool>
    requires AllCoded(m, ll, dd, ts)
  {
    if ts == [] then [] else TokensBits(m, ll, dd, ts[..|ts| - 1]) + TokenBits(m, ll, dd, ts[|ts| - 1])
  }

  // ----- reading back -----

  lemma {:induction false} ReadMatchBack(m: Maps, dd: seq<nat>, t: Token, bits: seq<bool>, pos: nat)
    requires ValidMaps(m) && ValidToken(t) && t.Match?
    requires DistCode(m, t.dist) < |dd| && 1 <= dd[DistCode(m, t.dist)] <= MAX_BITS && Kraft(dd) <= Pow2(MAX_BITS)
    requires At(bits, pos, MatchBits(m, dd, t))
    ensures ReadMatch(dd, LengthCode(m, t.length), bits, pos) == Some((t, pos + |MatchBits(m, dd, t)|))
  {
    hide BitsLsb, CodeBits, DecodeSymbol, Kraft, Pow2, ValidMaps, At, ReadBits, LengthCode, LengthExtra, DistCode, DistExtra;
    var c, x := LengthCode(m, t.length), LengthExtra(m, t.length);
    var d, y := DistCode(m, t.dist), DistExtra(m, t.dist);
    var p := pos + LENGTH_EXTRA[c];
    AtSplit(bits, pos, BitsLsb(x, LENGTH_EXTRA[c]), CodeBits(dd, d) + BitsLsb(y, DIST_EXTRA[d]));
    AtSplit(bits, p, CodeBits(dd, d), BitsLsb(y, DIST_EXTRA[d]));
    ReadBitsAt(bits, pos, x, LENGTH_EXTRA[c]);
    DecodeCode(dd, d, bits, p);
    ReadBitsAt(bits, p + dd[d], y, DIST_EXTRA[d]);
  }

  /** A reader standing in front of a token's bits reads that token. */
  lemma {:induction false} ReadToken(m: Maps, ll: seq<nat>, dd: seq<nat>, t: Token, bits: seq<bool>, pos: nat, acc: seq<Token>)
    requires ValidMaps(m) && ValidToken(t) && Coded(m, ll, dd, t)
    requires Kraft(ll) <= Pow2(MAX_BITS) && Kraft(dd) <= Pow2(MAX_BITS)
    requires At(bits, pos, TokenBits(m, ll, dd, t))
    ensures ReadTokens(ll, dd, bits, pos, acc)
            == ReadTokens(ll, dd, bits, pos + |TokenBits(m, ll, dd, t)|, acc + [t])
  {
    hide BitsLsb, CodeBits, DecodeSymbol, Kraft, Pow2, ValidMaps, ReadMatch, MatchBits;
    var s := LitSymbol(m, t);
    AtSplit(bits, pos, CodeBits(ll, s), if t.Match? then MatchBits(m, dd, t) else []);
    DecodeCode(ll, s, bits, pos);
    if t.Match? {
      ReadMatchBack(m, dd, t, bits, pos + ll[s]);
    }
  }

  /** The reader recovers the tallied tokens, up to the end-of-block symbol. */
  lemma {:induction false} ReadBack(m: Maps, ll: seq<nat>, dd: seq<nat>, ts: seq<Token>, bits: seq<bool>, pos: nat, acc: seq<Token>)
    requires AllCoded(m, ll, dd, ts) && Kraft(ll) <= Pow2(MAX_BITS) && Kraft(dd) <= Pow2(MAX_BITS)
    requires At(bits, pos, TokensBits(m, ll, dd, ts))
    ensures ReadTokens(ll, dd, bits, pos, acc) == ReadTokens(ll, dd, bits, pos + |TokensBits(m, ll, dd, ts)|, acc + ts)
  {
    hide Kraft, TokenBits, ReadTokens, At, Pow2, Coded;
    if ts == [] {
      assert acc + ts == acc;
    } else {
      var init, t := ts[..|ts| - 1], ts[|ts| - 1];
      AtSplit(bits, pos, TokensBits(m, ll, dd, init), TokenBits(m, ll, dd, t));
      ReadBack(m, ll, dd, init, bits, pos, acc);
      ReadToken(m, ll, dd, t, bits, pos + |TokensBits(m, ll, dd, init)|, acc + init);
      assert acc + ts == (acc + init) + [t];
    }
  }

  /** A whole compressed block body: the tokens and the end-of-block symbol. */
  lemma {:induction false} ReadBody(m: Maps, ll: seq<nat>, dd: seq<nat>, ts: seq<Token>, bits: seq<bool>, pos: nat)
    requires AllCoded(m, ll, dd, ts) && Kraft(ll) <= Pow2(MAX_BITS) && Kraft(dd) <= Pow2(MAX_BITS)
    requires |ll| > END_OF_BLOCK && 1 <= ll[END_OF_BLOCK] <= MAX_BITS
    requires At(bits, pos, TokensBits(m, ll, dd, ts) + CodeBits(ll, END_OF_BLOCK))
    ensures ReadTokens(ll, dd, bits, pos, []) == Some((ts, pos + |TokensBits(m, ll, dd, ts)| + ll[END_OF_BLOCK]))
  {
    hide Kraft, TokensBits, CodeBits, At, Pow2, AllCoded, DecodeSymbol;
    var p := pos + |TokensBits(m, ll, dd, ts)|;
    AtSplit(bits, pos, TokensBits(m, ll, dd, ts), CodeBits(ll, END_OF_BLOCK));
    ReadBack(m, ll, dd, ts, bits, pos, []);
    DecodeCode(ll, END_OF_BLOCK, bits, p);
    assert [] + ts == ts;
  }
}
