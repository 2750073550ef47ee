/**
 ct_tally: the buffers l_buf, d_buf and flag_buf in which a block's tokens wait, and the
 frequencies counted on the way. The flags are one bit per token, packed eight to a byte.
 */
module Tally {
  import opened Sums
  import opened Inflate
  import opened TokenCoding
  import opened BitWriter

  const LIT_BUFSIZE := 0x2000
  const DIST_BUFSIZE := 0x2000

  // ----- what the buffers hold -----

  function ByteOf(t: Token): byte
    requires ValidToken(t)
  {
    if t.Literal? then t.value else t.length - MIN_MATCH
  }

  function BytesOf(ts: seq<Token>): (s: seq<byte>)
    requires ValidTokens(ts)
    ensures |s| == |ts|
  {
    if ts == [] then [] else BytesOf(ts[..|ts| - 1]) + [ByteOf(ts[|ts| - 1])]
  }

  function DistsOf(ts: seq<Token>): (s: seq<nat>)
    requires ValidTokens(ts)
    ensures |s| <= |ts| && forall i :: 0 <= i < |s| ==> s[i] < 32768
  {
    if ts == [] then []
    else DistsOf(ts[..|ts| - 1]) + (if ts[|ts| - 1].Match? then [ts[|ts| - 1].dist - 1] else [])
  }

  function KindsOf(ts: seq<Token>): (s: seq<bool>)
    ensures |s| == |ts|
  {
    if ts == [] then [] else KindsOf(ts[..|ts| - 1]) + [ts[|ts| - 1].Match?]
  }

  lemma {:induction false} TokensSnoc(ts: seq<Token>, t: Token)
    requires ValidTokens(ts) && ValidToken(t)
    ensures ValidTokens(ts + [t]) && BytesOf(ts + [t]) == BytesOf(ts) + [ByteOf(t)]
    ensures DistsOf(ts + [t]) == DistsOf(ts) + (if t.Match? then [t.dist - 1] else [])
    ensures KindsOf(ts + [t]) == KindsOf(ts) + [t.Match?]
  {
    assert (ts + [t])[..|ts|] == ts;
  }

  /** The flags of n tokens: full bytes in the buffer and the rest in the current byte. */
  ghost predicate Flags(flagBuf: seq<byte>, flags: nat, n: nat, kinds: seq<bool>)
  {
    && n / 8 <= |flagBuf| && flags < Pow2(n % 8)
    && BytesBits(flagBuf[..n / 8]) + BitsLsb(flags, n % 8) == kinds
  }

  /** One more flag, kept in the current byte. */
  lemma {:induction false} FlagsStep(flagBuf: seq<byte>, flags: nat, n: nat, kinds: seq<bool>, kind: bool, flags': nat)
    requires Flags(flagBuf, flags, n, kinds) && flags' == BitOr(flags, if kind then Pow2(n % 8) else 0)
    ensures flags' < Pow2(n % 8 + 1) && flags' < 256
    ensures BytesBits(flagBuf[..n / 8]) + BitsLsb(flags', n % 8 + 1) == kinds + [kind]
    ensures n % 8 < 7 ==> Flags(flagBuf, flags', n + 1, kinds + [kind])
    ensures n % 8 == 7 && n / 8 < |flagBuf| ==> Flags(flagBuf[n / 8 := flags'], 0, n + 1, kinds + [kind])
  {
    var k, bit := n % 8, if kind then 1 else 0;
    FlagBits(flags, k, kind, flags');
    Regroup(BytesBits(flagBuf[..n / 8]), BitsLsb(flags', k + 1), [], BitsLsb(flags, k), [kind]);
    if k < 7 {
      assert (n + 1) / 8 == n / 8 && (n + 1) % 8 == k + 1;
    } else if n / 8 < |flagBuf| {
      assert (n + 1) / 8 == n / 8 + 1 && (n + 1) % 8 == 0;
      var fb := flagBuf[n / 8 := flags'];
      assert fb[..n / 8 + 1] == flagBuf[..n / 8] + [flags'];
      BytesBitsSnoc(flagBuf[..n / 8], flags');
      EmptyBits(0);
      assert Pow2(0) == 1;
    }
  }

  lemma {:induction false} FlagBits(flags: nat, k: nat, kind: bool, flags': nat)
    requires k < 8 && flags < Pow2(k) && flags' == BitOr(flags, if kind then Pow2(k) else 0)
    ensures flags' < Pow2(k + 1) && flags' < 256 && BitsLsb(flags', k + 1) == BitsLsb(flags, k) + [kind]
  {
    hide BitsLsb;
    var bit := if kind then 1 else 0;
    assert flags' == flags + Pow2(k) * bit by {
      BitOrDisjoint(flags, k, bit);
      assert BitOr(flags, 0) == flags;
    }
    BitsLsbSplit(flags, k, bit, 1);
    UnfoldLsb(bit, 1);
    EmptyBits(bit / 2);
    Pow2Monotone(k + 1, 8);
    Pow2Eight();
  }

  class TokenBuffer {
    const lBuf: array<byte>
    const dBuf: array<nat>
    const flagBuf: array<byte>
    var lastLit: nat
    var lastDist: nat
    var lastFlags: nat
    var flags: nat
    var flagBit: nat
    ghost var tokens: seq<Token>

    ghost predicate Shape()
    {
      lBuf.Length == LIT_BUFSIZE && dBuf.Length == DIST_BUFSIZE && flagBuf.Length == LIT_BUFSIZE / 8 && lBuf != flagBuf
    }

    ghost predicate Valid()
      reads this, lBuf, dBuf, flagBuf
    {
      && Shape() && ValidTokens(tokens)
      && lastLit == |tokens| < LIT_BUFSIZE && lastDist == |DistsOf(tokens)|
      && lastFlags == lastLit / 8 && flagBit == Pow2(lastLit % 8)
      && lBuf[..lastLit] == BytesOf(tokens) && dBuf[..lastDist] == DistsOf(tokens)
      && Flags(flagBuf[..], flags, lastLit, KindsOf(tokens))
    }

    constructor ()
      ensures Valid() && tokens == [] && fresh(lBuf) && fresh(dBuf) && fresh(flagBuf)
    {
      lBuf := new byte[LIT_BUFSIZE](_ => 0);
      dBuf := new nat[DIST_BUFSIZE](_ => 0);
      flagBuf := new byte[LIT_BUFSIZE / 8](_ => 0);
      lastLit, lastDist, lastFlags, flags, flagBit := 0, 0, 0, 0, 1;
      tokens := [];
    }

    /** init_block, for the buffers. */
    method Reset()
      requires Shape()
      modifies this
      ensures Valid() && tokens == []
    {
      lastLit, lastDist, lastFlags, flags, flagBit := 0, 0, 0, 0, 1;
      tokens := [];
    }

    /** Adds the flag of token number n, which has just been stored. */
    method StoreFlag(isMatch: bool, ghost n: nat, ghost kinds: seq<bool>)
      requires Shape() && n < LIT_BUFSIZE - 1 && lastLit == n + 1 && lastFlags == n / 8 && flagBit == Pow2(n % 8)
      requires Flags(flagBuf[..], flags, n, kinds)
      modifies this`flags, this`flagBit, this`lastFlags, flagBuf
      ensures lastFlags == lastLit / 8 && flagBit == Pow2(lastLit % 8)
      ensures Flags(flagBuf[..], flags, lastLit, kinds + [isMatch])
    {
      hide Flags, Pow2, BitOr;
      ghost var fb := flagBuf[..];
      FlagsStep(fb, flags, n, kinds, isMatch, BitOr(flags, if isMatch then Pow2(n % 8) else 0));
      NextFlagBit(n);
      OrZero(flags);
      if isMatch {
        flags := BitOr(flags, flagBit);
      }
      flagBit := flagBit * 2 % 256;
      if lastLit % 8 == 0 {
        flagBuf[lastFlags] := flags;
        lastFlags := lastFlags + 1;
        flags := 0;
        flagBit := 1;
      }
    }

    /** Stores one token: a literal (dist 0) or a match of length lc + 3. */
    method Store(dist: nat, lc: byte, ghost t: Token)
      requires Valid() && lastLit < LIT_BUFSIZE - 1 && dist <= 32768
      requires t == if dist == 0 then Literal(lc) else Match(lc + MIN_MATCH, dist)
      modifies this, lBuf, dBuf, flagBuf
      ensures Valid() && tokens == old(tokens) + [t]
    {
      hide BytesOf, DistsOf, KindsOf, Flags, Pow2, BitOr;
      ghost var n, lb := lastLit, lBuf[..];
      TokensSnoc(tokens, t);
      lBuf[lastLit] := lc;
      lastLit := lastLit + 1;
      assert lBuf[..lastLit] == lb[..n] + [lc];
      if dist != 0 {
        dBuf[lastDist] := dist - 1;
        lastDist := lastDist + 1;
      }
      StoreFlag(dist != 0, n, KindsOf(tokens));
      tokens := tokens + [t];
    }
  }

  lemma {:induction false} OrZero(a: nat)
    ensures BitOr(a, 0) == a
  {
  }

  lemma {:induction false} NextFlagBit(n: nat)
    ensures (n + 1) % 8 != 0 ==> Pow2(n % 8) * 2 % 256 == Pow2((n + 1) % 8)
    ensures (n + 1) % 8 == 0 ==> Pow2((n + 1) % 8) == 1 && n % 8 == 7 && (n + 1) / 8 == n / 8 + 1
    ensures (n + 1) % 8 != 0 ==> n % 8 < 7 && (n + 1) / 8 == n / 8
  {
    Pow2Table();
    if (n + 1) % 8 != 0 {
      assert (n + 1) % 8 == n % 8 + 1;
      Pow2Monotone(n % 8 + 1, 7);
    }
  }
}
