/**
 The three kinds of block as bit strings, and that the reference reader gets back from
 each what was put in.
 */
module BlockFormat {
  import opened Sums
  import opened Inflate
  import opened Canonical
  import opened TokenCoding
  import opened RunLength
  import opened BitWriter

  function HeaderBits(kind: nat, final: bool): seq<bool>
    requires kind < 3
  {
    BitsLsb(2 * kind + (if final then 1 else 0), 3)
  }

  lemma {:induction false} HeaderReads(full: seq<bool>, pos: nat, kind: nat, final: bool)
    requires kind < 3 && At(full, pos, HeaderBits(kind, final))
    ensures ReadBits(full, pos, 1) == Some(if final then 1 else 0) && ReadBits(full, pos + 1, 2) == Some(kind)
  {
    var f := if final then 1 else 0;
    assert Pow2(1) == 2 && Pow2(2) == 4;
    BitsLsbSplit(f, 1, kind, 2);
    AtSplit(full, pos, BitsLsb(f, 1), BitsLsb(kind, 2));
    ReadBitsAt(full, pos, f, 1);
    ReadBitsAt(full, pos + 1, kind, 2);
  }

  // ----- stored blocks -----

  lemma {:induction false} BytesBitsFirst(s: seq<byte>)
    requires s != []
    ensures BytesBits(s) == BitsLsb(s[0], 8) + BytesBits(s[1..])
  {
    hide BitsLsb;
    var one := [s[0]];
    assert s == one + s[1..];
    BytesBitsConcat(one, s[1..]);
    BytesBitsSnoc([], s[0]);
    assert [] + one == one;
  }

  lemma {:induction false} ReadBytesBack(full: seq<bool>, pos: nat, data: seq<byte>)
    requires At(full, pos, BytesBits(data))
    ensures ReadBytes(full, pos, |data|) == data
    decreases |data|
  {
    if data != [] {
      BytesBitsFirst(data);
      AtSplit(full, pos, BitsLsb(data[0], 8), BytesBits(data[1..]));
      assert Pow2(8) == 256;
      ValueOfBitsLsb(data[0], 8);
      ReadBytesBack(full, pos + 8, data[1..]);
    }
  }

  /** A stored block that starts after `before`. */
  function StoredBits(before: seq<bool>, final: bool, data: seq<byte>): seq<bool>
    requires |data| < 65536
  {
    HeaderBits(0, final) + Padding(before + HeaderBits(0, final))
    + (BitsLsb(|data|, 16) + BitsLsb(65535 - |data|, 16) + BytesBits(data))
  }

  lemma {:induction false} AlignedBy(n: nat, z: nat)
    requires z < 8 && (n + z) % 8 == 0
    ensures ByteAlign(n) == n + z
  {
  }

  lemma {:induction false} StoredBodyReads(full: seq<bool>, pos: nat, z: nat, data: seq<byte>, history: seq<byte>)
    requires |data| < 65536 && z < 8 && (pos + z) % 8 == 0
    requires At(full, pos + z, BitsLsb(|data|, 16) + BitsLsb(65535 - |data|, 16) + BytesBits(data))
    ensures ReadStored(full, pos, history) == Some((pos + z + 32 + 8 * |data|, history + data))
  {
    hide BitsLsb, BytesBits, At, ReadBits, Pow2;
    var a, b, c := BitsLsb(|data|, 16), BitsLsb(65535 - |data|, 16), BytesBits(data);
    var p := pos + z;
    AlignedBy(pos, z);
    AtSplit(full, p, a + b, c);
    AtSplit(full, p, a, b);
    assert |data| < Pow2(16) && 65535 - |data| < Pow2(16) by {
      Pow2Table();
    }
    ReadBitsAt(full, p, |data|, 16);
    ReadBitsAt(full, p + 16, 65535 - |data|, 16);
    AtEnd(full, p + 32, c);
    ReadBytesBack(full, p + 32, data);
  }

  lemma {:induction false} AtEnd(full: seq<bool>, pos: nat, w: seq<bool>)
    requires At(full, pos, w)
    ensures pos + |w| <= |full|
  {
  }

  lemma {:induction false} StoredReads(before: seq<bool>, full: seq<bool>, final: bool, data: seq<byte>, history: seq<byte>)
    requires |data| < 65536 && At(full, |before|, StoredBits(before, final, data))
    ensures ReadBlock(full, |before|, history)
            == Some(Block(final, |before| + |StoredBits(before, final, data)|, history + data))
  {
    hide BitsLsb, BytesBits, At, ReadStored, ReadBits, Pow2;
    var pos := |before|;
    var h, pad := HeaderBits(0, final), Padding(before + HeaderBits(0, final));
    var body := BitsLsb(|data|, 16) + BitsLsb(65535 - |data|, 16) + BytesBits(data);
    AtSplit(full, pos, h + pad, body);
    AtSplit(full, pos, h, pad);
    HeaderReads(full, pos, 0, final);
    StoredBodyReads(full, pos + 3, |pad|, data, history);
  }

  // ----- compressed blocks -----

  ghost function BodyBits(m: Maps, ll: seq<nat>, dd: seq<nat>, ts: seq<Token>): seq<bool>
    requires Codes(m, ll, dd, ts)
  {
    TokensBits(m, ll, dd, ts) + CodeBits(ll, END_OF_BLOCK)
  }

  /** The two tables code all tokens and the end of the block. */
  ghost predicate Codes(m: Maps, ll: seq<nat>, dd: seq<nat>, ts: seq<Token>)
  {
    && AllCoded(m, ll, dd, ts) && Kraft(ll) <= Pow2(MAX_BITS) && Kraft(dd) <= Pow2(MAX_BITS)
    && END_OF_BLOCK < |ll| && 1 <= ll[END_OF_BLOCK] <= MAX_BITS
  }

  lemma {:induction false} BodyReads(m: Maps, ll: seq<nat>, dd: seq<nat>, ts: seq<Token>, full: seq<bool>, pos: nat, history: seq<byte>, result: seq<byte>)
    requires Codes(m, ll, dd, ts) && At(full, pos, BodyBits(m, ll, dd, ts)) && Expand(history, ts) == Some(result)
    ensures ReadCompressed(ll, dd, full, pos, history) == Some((pos + |BodyBits(m, ll, dd, ts)|, result))
  {
    hide Kraft, TokensBits, CodeBits, AllCoded, At, ReadTokens, Expand, Pow2;
    ReadBody(m, ll, dd, ts, full, pos);
  }

  ghost function FixedBits(m: Maps, final: bool, ts: seq<Token>): seq<bool>
    requires Codes(m, FixedLiteralLengths(), FixedDistanceLengths(), ts)
  {
    HeaderBits(1, final) + BodyBits(m, FixedLiteralLengths(), FixedDistanceLengths(), ts)
  }

  lemma {:induction false} FixedReads(m: Maps, final: bool, ts: seq<Token>, full: seq<bool>, pos: nat, history: seq<byte>, result: seq<byte>)
    requires Codes(m, FixedLiteralLengths(), FixedDistanceLengths(), ts)
    requires At(full, pos, FixedBits(m, final, ts)) && Expand(history, ts) == Some(result)
    ensures ReadBlock(full, pos, history) == Some(Block(final, pos + |FixedBits(m, final, ts)|, result))
  {
    hide Codes, BodyBits, At, Expand, ReadCompressed, FixedLiteralLengths, FixedDistanceLengths;
    AtSplit(full, pos, HeaderBits(1, final), BodyBits(m, FixedLiteralLengths(), FixedDistanceLengths(), ts));
    HeaderReads(full, pos, 1, final);
    BodyReads(m, FixedLiteralLengths(), FixedDistanceLengths(), ts, full, pos + 3, history, result);
  }

  // ----- dynamic blocks -----

  /** The lengths of the code length code, three bits each, in the prescribed order. */
  function ClBits(cl: seq<nat>, n: nat): (b: seq<bool>)
    requires |cl| == 19 && n <= 19
    ensures |b| == 3 * n
  {
    if n == 0 then [] else ClBits(cl, n - 1) + BitsLsb(cl[CL_ORDER[n - 1]], 3)
  }

  /** Where each symbol stands in CL_ORDER. */
  const CL_RANK: seq<nat> := [3, 17, 15, 13, 11, 9, 7, 5, 4, 6, 8, 10, 12, 14, 16, 18, 0, 1, 2]

  lemma {:induction false} RankInverts(x: nat)
    requires x < 19
    ensures CL_RANK[x] < 19 && CL_ORDER[CL_RANK[x]] == x && CL_RANK[CL_ORDER[x]] == x
  {
  }

  /** Every length fits three bits. */
  ghost predicate ShortLengths(cl: seq<nat>)
  {
    forall x :: 0 <= x < |cl| ==> cl[x] < 8
  }

  /** The lengths after the first n in the prescribed order are zero. */
  ghost predicate Unsent(cl: seq<nat>, n: nat)
  {
    |cl| == 19 && forall r :: n <= r < 19 ==> cl[CL_ORDER[r]] == 0
  }

  /** The table after the first n lengths have been read. */
  ghost predicate ClRead(lens: seq<nat>, cl: seq<nat>, n: nat)
  {
    && |lens| == 19 == |cl| && forall x :: 0 <= x < 19 ==> lens[x] == if CL_RANK[x] < n then cl[x] else 0
  }

  lemma {:induction false} ClReadStep(lens: seq<nat>, cl: seq<nat>, n: nat)
    requires ClRead(lens, cl, n) && n < 19
    ensures ClRead(lens[CL_ORDER[n] := cl[CL_ORDER[n]]], cl, n + 1)
  {
    var x := CL_ORDER[n];
    RankInverts(n);
    forall y | 0 <= y < 19 ensures lens[x := cl[x]][y] == if CL_RANK[y] < n + 1 then cl[y] else 0 {
      RankInverts(y);
    }
  }

  lemma {:induction false} ClBitsAt(cl: seq<nat>, n: nat, full: seq<bool>, pos: nat, r: nat)
    requires |cl| == 19 && r < n <= 19 && At(full, pos, ClBits(cl, n))
    ensures At(full, pos + 3 * r, BitsLsb(cl[CL_ORDER[r]], 3))
    decreases n
  {
    AtSplit(full, pos, ClBits(cl, n - 1), BitsLsb(cl[CL_ORDER[n - 1]], 3));
    if r < n - 1 {
      ClBitsAt(cl, n - 1, full, pos, r);
    }
  }

  lemma {:induction false} ClReads(cl: seq<nat>, n: nat, count: nat, full: seq<bool>, start: nat, lens: seq<nat>)
    requires |cl| == 19 == |lens| && n <= count <= 19 && ClRead(lens, cl, n)
    requires ShortLengths(cl)
    requires At(full, start, ClBits(cl, count))
    ensures var r := ReadClLengths(full, start + 3 * n, n, count, lens); r.Some? && ClRead(r.value, cl, count)
    decreases count - n
  {
    hide At, BitsLsb, ClRead, ClBits;
    if n < count {
      var v := cl[CL_ORDER[n]];
      ClBitsAt(cl, count, full, start, n);
      assert v < Pow2(3) by {
        Pow2Table();
      }
      ReadBitsAt(full, start + 3 * n, v, 3);
      ClReadStep(lens, cl, n);
      ClReads(cl, n + 1, count, full, start, lens[CL_ORDER[n] := v]);
    }
  }

  /** All lengths that are not sent are zero, so the reader has the whole table. */
  lemma {:induction false} ClReadsAll(cl: seq<nat>, n: nat, full: seq<bool>, pos: nat)
    requires |cl| == 19 && n <= 19 && At(full, pos, ClBits(cl, n))
    requires ShortLengths(cl) && Unsent(cl, n)
    ensures ReadClLengths(full, pos, 0, n, Repeat(0, 19)) == Some(cl)
  {
    hide ReadClLengths, BitsLsb, At, ClBits;
    ClReads(cl, 0, n, full, pos, Repeat(0, 19));
    var lens := ReadClLengths(full, pos, 0, n, Repeat(0, 19)).value;
    forall x | 0 <= x < 19 ensures lens[x] == cl[x] {
      RankInverts(x);
    }
    assert lens == cl;
  }

  /** The tables of a dynamic block and the code length code they are sent with. */
  ghost predicate DynTables(cl: seq<nat>, bl: nat, ll: seq<nat>, dd: seq<nat>)
  {
    && 257 <= |ll| <= 286 && 1 <= |dd| <= 30 && 4 <= bl <= 19 == |cl|
    && Complete(ll) && Complete(dd) && Complete(cl)
    && ShortLengths(cl) && Unsent(cl, bl)
    && ItemsFit(cl, Items(ll, 0, -1)) && ItemsFit(cl, Items(dd, 0, -1))
  }

  /** What send_all_trees sends. */
  ghost function TableBits(cl: seq<nat>, bl: nat, ll: seq<nat>, dd: seq<nat>): seq<bool>
    requires DynTables(cl, bl, ll, dd)
  {
    CountBits(|ll|, |dd|, bl) + (ClBits(cl, bl) + (ItemsBits(cl, Items(ll, 0, -1)) + ItemsBits(cl, Items(dd, 0, -1))))
  }

  function CountBits(lcodes: nat, dcodes: nat, blcodes: nat): (b: seq<bool>)
    requires lcodes >= 257 && dcodes >= 1 && blcodes >= 4
    ensures |b| == 14
  {
    BitsLsb(lcodes - 257, 5) + BitsLsb(dcodes - 1, 5) + BitsLsb(blcodes - 4, 4)
  }

  lemma {:induction false} CountsRead(full: seq<bool>, pos: nat, lcodes: nat, dcodes: nat, blcodes: nat)
    requires 257 <= lcodes <= 286 && 1 <= dcodes <= 30 && 4 <= blcodes <= 19
    requires At(full, pos, CountBits(lcodes, dcodes, blcodes))
    ensures ReadBits(full, pos, 5) == Some(lcodes - 257)
    ensures ReadBits(full, pos + 5, 5) == Some(dcodes - 1)
    ensures ReadBits(full, pos + 10, 4) == Some(blcodes - 4)
  {
    hide BitsLsb, At, ReadBits;
    var a, b, c := BitsLsb(lcodes - 257, 5), BitsLsb(dcodes - 1, 5), BitsLsb(blcodes - 4, 4);
    AtSplit(full, pos, a + b, c);
    AtSplit(full, pos, a, b);
    Pow2Table();
    ReadBitsAt(full, pos, lcodes - 257, 5);
    ReadBitsAt(full, pos + 5, dcodes - 1, 5);
    ReadBitsAt(full, pos + 10, blcodes - 4, 4);
  }

  lemma {:induction false} LengthsRead(full: seq<bool>, pos: nat, cl: seq<nat>, ll: seq<nat>, dd: seq<nat>)
    requires Complete(cl) && ValidLengths(ll) && ValidLengths(dd)
    requires ItemsFit(cl, Items(ll, 0, -1)) && ItemsFit(cl, Items(dd, 0, -1))
    requires At(full, pos, ItemsBits(cl, Items(ll, 0, -1)) + ItemsBits(cl, Items(dd, 0, -1)))
    ensures ReadLengths(cl, full, pos, |ll| + |dd|, [])
            == Some((ll + dd, pos + |ItemsBits(cl, Items(ll, 0, -1))| + |ItemsBits(cl, Items(dd, 0, -1))|))
  {
    hide ItemsBits, Items, At, Complete, ItemsFit, ReadLengths;
    var a, b := ItemsBits(cl, Items(ll, 0, -1)), ItemsBits(cl, Items(dd, 0, -1));
    AtSplit(full, pos, a, b);
    ReadTable(cl, ll, 0, -1, full, pos, |ll| + |dd|, []);
    ReadTable(cl, dd, 0, -1, full, pos + |a|, |ll| + |dd|, ll);
    assert [] + ll[..0] == [] && [] + ll == ll && ll + dd[..0] == ll;
    LengthsComplete(cl, full, pos + |a| + |b|, ll + dd);
  }

  lemma {:induction false} LengthsComplete(cl: seq<nat>, full: seq<bool>, pos: nat, acc: seq<nat>)
    ensures ReadLengths(cl, full, pos, |acc|, acc) == Some((acc, pos))
  {
  }

  lemma {:induction false} TablesRead(full: seq<bool>, pos: nat, cl: seq<nat>, bl: nat, ll: seq<nat>, dd: seq<nat>)
    requires DynTables(cl, bl, ll, dd) && At(full, pos, TableBits(cl, bl, ll, dd))
    ensures ReadTables(full, pos) == Some((ll, dd, pos + |TableBits(cl, bl, ll, dd)|))
  {
    hide ItemsBits, Items, At, ItemsFit, ClBits, CountBits, ReadClLengths, ReadLengths, ReadBits;
    var items := ItemsBits(cl, Items(ll, 0, -1)) + ItemsBits(cl, Items(dd, 0, -1));
    AtSplit(full, pos, CountBits(|ll|, |dd|, bl), ClBits(cl, bl) + items);
    AtSplit(full, pos + 14, ClBits(cl, bl), items);
    CountsRead(full, pos, |ll|, |dd|, bl);
    ClReadsAll(cl, bl, full, pos + 14);
    LengthsRead(full, pos + 14 + 3 * bl, cl, ll, dd);
    assert (ll + dd)[..|ll|] == ll && (ll + dd)[|ll|..] == dd;
  }

  ghost function DynamicBits(m: Maps, final: bool, cl: seq<nat>, bl: nat, ll: seq<nat>, dd: seq<nat>, ts: seq<Token>): seq<bool>
    requires DynTables(cl, bl, ll, dd) && Codes(m, ll, dd, ts)
  {
    HeaderBits(2, final) + (TableBits(cl, bl, ll, dd) + BodyBits(m, ll, dd, ts))
  }

  lemma {:induction false} DynamicReads(m: Maps, final: bool, cl: seq<nat>, bl: nat, ll: seq<nat>, dd: seq<nat>, ts: seq<Token>,
                                        full: seq<bool>, pos: nat, history: seq<byte>, result: seq<byte>)
    requires DynTables(cl, bl, ll, dd) && Codes(m, ll, dd, ts)
    requires At(full, pos, DynamicBits(m, final, cl, bl, ll, dd, ts)) && Expand(history, ts) == Some(result)
    ensures ReadBlock(full, pos, history) == Some(Block(final, pos + |DynamicBits(m, final, cl, bl, ll, dd, ts)|, result))
  {
    hide Codes, BodyBits, TableBits, At, Expand, ReadCompressed, ReadTables, DynTables;
    var t, b := TableBits(cl, bl, ll, dd), BodyBits(m, ll, dd, ts);
    AtSplit(full, pos, HeaderBits(2, final), t + b);
    AtSplit(full, pos + 3, t, b);
    HeaderReads(full, pos, 2, final);
    TablesRead(full, pos + 3, cl, bl, ll, dd);
    BodyReads(m, ll, dd, ts, full, pos + 3 + |t|, history, result);
  }
}
