/**
 The output side of the compressor: the 32-bit accumulator bi_buf/bi_valid in front of
 the byte buffer outbuf, which is emptied into the output file when it fills up.
 The abstract value is the whole bit string produced so far, `Bits()`.
 */
module BitWriter {
  import opened Sums

  const OUTBUFSIZ := 8192
  const BUF_SIZE := 32

  /** The bit string of a byte string: each byte contributes its bits from the lowest up. */
  function BytesBits(s: seq<byte>): (b: seq<bool>)
    ensures |b| == 8 * |s|
  {
    if s == [] then [] else BytesBits(s[..|s| - 1]) + BitsLsb(s[|s| - 1], 8)
  }

  lemma {:induction false} BytesBitsSnoc(s: seq<byte>, x: byte)
    ensures BytesBits(s + [x]) == BytesBits(s) + BitsLsb(x, 8)
  {
    hide BitsLsb;
    assert (s + [x])[..|s|] == s;
  }

  lemma {:induction false} BytesBitsConcat(s: seq<byte>, t: seq<byte>)
    ensures BytesBits(s + t) == BytesBits(s) + BytesBits(t)
  {
    hide BitsLsb, BytesBits;
    if t == [] {
      assert s + t == s;
      NoBytes();
    } else {
      var u, x := t[..|t| - 1], t[|t| - 1];
      BytesBitsConcat(s, u);
      assert t == u + [x] && s + t == (s + u) + [x];
      BytesBitsSnoc(u, x);
      BytesBitsSnoc(s + u, x);
    }
  }

  lemma {:induction false} NoBytes()
    ensures BytesBits([]) == []
  {
  }

  function Zeros(n: nat): (z: seq<bool>)
    ensures |z| == n
  {
    seq(n, _ => false)
  }

  /** The padding that brings a bit string to a byte boundary. */
  function Padding(bits: seq<bool>): (z: seq<bool>)
    ensures |z| < 8 && (|bits| + |z|) % 8 == 0
  {
    Zeros((8 - |bits| % 8) % 8)
  }

  lemma {:induction false} PaddedBy(done: seq<bool>, before: seq<bool>, z: nat)
    requires |done| % 8 == 0 && z < 8 && done == before + Zeros(z)
    ensures done == before + Padding(before)
  {
    assert z == (8 - |before| % 8) % 8;
  }

  /** Bitwise or, as in the C operator. */
  function BitOr(a: nat, b: nat): nat
    decreases a + b
  {
    if a == 0 then b
    else if b == 0 then a
    else (if a % 2 == 1 || b % 2 == 1 then 1 else 0) + 2 * BitOr(a / 2, b / 2)
  }

  /** Or-ing in a value shifted above the bits in use adds it. */
  lemma {:induction false} BitOrDisjoint(lo: nat, i: nat, hi: nat)
    requires lo < Pow2(i)
    ensures BitOr(lo, Pow2(i) * hi) == lo + Pow2(i) * hi
  {
    if i > 0 && lo > 0 && Pow2(i) * hi > 0 {
      var b := Pow2(i) * hi;
      assert b == 2 * (Pow2(i - 1) * hi);
      BitOrDisjoint(lo / 2, i - 1, hi);
    }
  }

  /** A product, reduced modulo a multiple of one factor, drops the high part. */
  lemma {:induction false} ProductTruncates(v: nat, p: nat, m: nat, t: nat)
    requires p >= 1 && m >= 1 && p * m == t
    ensures (v * p) % t == p * (v % m) && p * (v % m) <= t - p
  {
    var q, r := v / m, v % m;
    assert v * p == t * q + p * r by {
      assert v == m * q + r;
      assert (m * q + r) * p == (p * m) * q + p * r;
    }
    assert p * r <= p * (m - 1);
    RemainderOf(t, q, p * r);
  }

  lemma {:induction false} BitsOfZero(n: nat)
    ensures BitsLsb(0, n) == Zeros(n)
  {
    if n > 0 {
      BitsOfZero(n - 1);
    }
  }

  lemma {:induction false} WordBits(s: seq<byte>, w: nat, b0: byte, b1: byte)
    requires w == b0 + 256 * b1
    ensures BytesBits(s + [b0, b1]) == BytesBits(s) + BitsLsb(w, 16)
  {
    hide BitsLsb, BytesBits, Pow2;
    Pow2Eight();
    BitsLsbSplit(b0, 8, b1, 8);
    assert s + [b0, b1] == (s + [b0]) + [b1];
    BytesBitsSnoc(s, b0);
    BytesBitsSnoc(s + [b0], b1);
  }

  lemma {:induction false} DoubleWordBits(s: seq<byte>, n: nat, lo: nat, hi: nat)
    requires lo < 65536 && hi < 65536 && n == lo + 65536 * hi
    ensures BytesBits(s + [lo % 256, lo / 256] + [hi % 256, hi / 256]) == BytesBits(s) + BitsLsb(n, 32)
  {
    hide BitsLsb, BytesBits, Pow2;
    WordBits(s, lo, lo % 256, lo / 256);
    WordBits(s + [lo % 256, lo / 256], hi, hi % 256, hi / 256);
    assert BitsLsb(n, 32) == BitsLsb(lo, 16) + BitsLsb(hi, 16) by {
      Pow2Table();
      BitsLsbSplit(lo, 16, hi, 16);
    }
    Regroup(BytesBits(s), BitsLsb(lo, 16), BitsLsb(hi, 16), BitsLsb(n, 32), []);
  }

  class Writer {
    const outbuf: array<byte>
    var outcnt: nat
    var written: seq<byte>  // what has been passed to xwrite
    var biBuf: nat
    var biValid: nat

    ghost predicate Valid()
      reads this, outbuf
    {
      && outbuf.Length == OUTBUFSIZ && outcnt < OUTBUFSIZ
      && biValid < BUF_SIZE && biBuf < Pow2(biValid)
    }

    /** Every byte completed so far, written out or still buffered. */
    ghost function Bytes(): seq<byte>
      requires Valid()
      reads this, outbuf
    {
      written + outbuf[..outcnt]
    }

    /** Every bit sent so far. */
    ghost function Bits(): seq<bool>
      requires Valid()
      reads this, outbuf
    {
      BytesBits(Bytes()) + BitsLsb(biBuf, biValid)
    }

    constructor ()
      ensures Valid() && fresh(this) && fresh(outbuf)
      ensures Bytes() == [] && Bits() == []
    {
      outbuf := new byte[OUTBUFSIZ];
      outcnt, written, biBuf, biValid := 0, [], 0, 0;
    }

    method FlushOutbuf()
      requires outbuf.Length == OUTBUFSIZ && outcnt <= OUTBUFSIZ
      modifies this`written, this`outcnt
      ensures outcnt == 0
      ensures written == old(written + outbuf[..outcnt])
    {
      written := written + outbuf[..outcnt];
      outcnt := 0;
    }

    method Put8(c: byte)
      requires Valid()
      modifies this`written, this`outcnt, outbuf
      ensures Valid()
      ensures Bytes() == old(Bytes()) + [c]
    {
      outbuf[outcnt] := c;
      outcnt := outcnt + 1;
      assert outbuf[..outcnt] == old(outbuf[..outcnt]) + [c];
      if outcnt == OUTBUFSIZ {
        FlushOutbuf();
      }
    }

    /** Low byte first; the fast path stores both bytes without looking for a full buffer. */
    method Put16(w: nat)
      requires Valid()
      requires w < 65536
      modifies this`written, this`outcnt, outbuf
      ensures Valid()
      ensures Bytes() == old(Bytes()) + [w % 256, w / 256]
    {
      outbuf[outcnt] := w % 256;
      if outcnt < OUTBUFSIZ - 2 {
        outbuf[outcnt + 1] := w / 256;
        outcnt := outcnt + 2;
        assert outbuf[..outcnt] == old(outbuf[..outcnt]) + [w % 256, w / 256];
        return;
      }
      outcnt := outcnt + 1;
      assert outbuf[..outcnt] == old(outbuf[..outcnt]) + [w % 256];
      if outcnt == OUTBUFSIZ {
        FlushOutbuf();
      }
      Put8(w / 256);
    }

    method Put32(n: nat)
      requires Valid()
      requires n < TWO_32
      modifies this`written, this`outcnt, outbuf
      ensures Valid()
      ensures BytesBits(Bytes()) == old(BytesBits(Bytes())) + BitsLsb(n, 32)
      ensures |Bytes()| == old(|Bytes()|) + 4
    {
      hide BitsLsb, BytesBits, Pow2;
      var lo, hi := n % 65536, n / 65536;
      DoubleWordBits(Bytes(), n, lo, hi);
      Put16(lo);
      Put16(hi);
    }

    /** Appends exactly the `length` low bits of value, whatever the fill of the
        accumulator and of the byte buffer. */
    method SendBits(value: nat, length: nat)
      requires Valid()
      requires length <= 16 && value < Pow2(length)
      modifies this, outbuf
      ensures Valid()
      ensures Bits() == old(Bits()) + BitsLsb(value, length)
    {
      hide BitsLsb, BytesBits, Pow2, BitOr;
      var newBuf := BitOr(biBuf, (value * Pow2(biValid)) % TWO_32);
      var total := length + biValid;
      ghost var done, held, sent := BytesBits(Bytes()), BitsLsb(biBuf, biValid), BitsLsb(value, length);
      if total >= BUF_SIZE {
        FullAccumulator(biBuf, biValid, value, length);
        var rest := value / Pow2(BUF_SIZE - biValid);
        Regroup(done, BitsLsb(newBuf, 32), BitsLsb(rest, total - BUF_SIZE), held, sent);
        Put32(newBuf);
        newBuf := rest;
        total := total - BUF_SIZE;
      } else {
        RoomLeft(biBuf, biValid, value, length);
        Regroup(done, BitsLsb(newBuf, total), [], held, sent);
      }
      biBuf := newBuf;
      biValid := total;
    }

    /** Writes out the partly filled bytes, padded with zero bits. */
    method BiWindup()
      requires Valid()
      modifies this, outbuf
      ensures Valid() && biValid == 0 && biBuf == 0
      ensures Bits() == old(Bits()) + Padding(old(Bits()))
    {
      hide BytesBits;
      var bits, cnt: int := biBuf, biValid;
      ghost var before := Bits();
      while cnt > 0
        invariant Valid() && -8 < cnt <= 31 && bits >= 0
        invariant cnt >= 0 ==> bits < Pow2(cnt) && BytesBits(Bytes()) + BitsLsb(bits, cnt) == before
        invariant cnt < 0 ==> BytesBits(Bytes()) == before + Zeros(-cnt)
      {
        DivSplit(bits, 256);
        WindupStep(Bytes(), bits, cnt, bits % 256, bits / 256);
        Put8(bits % 256);
        bits := bits / 256;
        cnt := cnt - 8;
      }
      biBuf, biValid := 0, 0;
      PaddedBy(BytesBits(Bytes()), before, if cnt < 0 then -cnt else 0);
    }

    /** A stored block body: padding to a byte boundary, the length and its one's
        complement, then the bytes. */
    method CopyBlock(buf: seq<byte>)
      requires Valid()
      modifies this, outbuf
      ensures Valid()
      ensures Bits() == old(Bits()) + Padding(old(Bits()))
                        + BitsLsb(|buf| % 65536, 16) + BitsLsb(65535 - |buf| % 65536, 16) + BytesBits(buf)
    {
      hide BitsLsb, BytesBits, Pow2;
      BiWindup();
      var len := |buf| % 65536;
      var v := BitOr(len, 65536 * (65535 - len));
      StoredHeader(len);
      Put32(v);
      ghost var start := Bytes();
      for i := 0 to |buf|
        invariant Valid() && biValid == 0 && biBuf == 0
        invariant Bytes() == start + buf[..i]
      {
        Put8(buf[i]);
      }
      assert buf[..|buf|] == buf;
      BytesBitsConcat(start, buf);
    }
  }

  lemma {:induction false} StoredHeader(len: nat)
    requires len < 65536
    ensures BitOr(len, 65536 * (65535 - len)) < TWO_32
    ensures BitsLsb(BitOr(len, 65536 * (65535 - len)), 32) == BitsLsb(len, 16) + BitsLsb(65535 - len, 16)
  {
    Pow2Table();
    BitOrDisjoint(len, 16, 65535 - len);
    BitsLsbSplit(len, 16, 65535 - len, 16);
  }

  lemma {:induction false} Regroup(b: seq<bool>, x: seq<bool>, r: seq<bool>, a: seq<bool>, v: seq<bool>)
    requires x + r == a + v
    ensures (b + x) + r == (b + a) + v
  {
    assert (b + x) + r == b + (x + r);
  }

  /** What send_bits computes when the accumulator overflows. */
  lemma {:induction false} FullAccumulator(biBuf: nat, biValid: nat, value: nat, length: nat)
    requires biValid < 32 && biBuf < Pow2(biValid)
    requires length <= 16 && value < Pow2(length) && length + biValid >= 32
    ensures BitOr(biBuf, (value * Pow2(biValid)) % TWO_32) < TWO_32
    ensures 0 <= value / Pow2(32 - biValid) < Pow2(length + biValid - 32)
    ensures BitsLsb(BitOr(biBuf, (value * Pow2(biValid)) % TWO_32), 32)
            + BitsLsb(value / Pow2(32 - biValid), length + biValid - 32)
            == BitsLsb(biBuf, biValid) + BitsLsb(value, length)
  {
    hide BitsLsb, Pow2, BitOr;
    var m := Pow2(32 - biValid);
    DivSplit(value, m);
    var lo, hi := value % m, value / m;
    OrIsSum(biBuf, biValid, value, lo);
    SendSplit(biBuf, biValid, value, length, lo, hi);
  }

  /** What send_bits computes when the value fits in the accumulator. */
  lemma {:induction false} RoomLeft(biBuf: nat, biValid: nat, value: nat, length: nat)
    requires biValid < 32 && biBuf < Pow2(biValid)
    requires value < Pow2(length) && length + biValid < 32
    ensures BitOr(biBuf, (value * Pow2(biValid)) % TWO_32) < Pow2(length + biValid)
    ensures BitsLsb(BitOr(biBuf, (value * Pow2(biValid)) % TWO_32), length + biValid)
            == BitsLsb(biBuf, biValid) + BitsLsb(value, length)
  {
    SendFits(biBuf, biValid, value, length);
    SmallRemainder(value, Pow2(32 - biValid));
    OrIsSum(biBuf, biValid, value, value);
  }

  lemma {:induction false} OrIsSum(biBuf: nat, biValid: nat, value: nat, lo: nat)
    requires biValid < 32 && biBuf < Pow2(biValid)
    requires lo == value % Pow2(32 - biValid)
    ensures BitOr(biBuf, (value * Pow2(biValid)) % TWO_32) == biBuf + Pow2(biValid) * lo < TWO_32
  {
    Pow2Word(biValid);
    ProductTruncates(value, Pow2(biValid), Pow2(32 - biValid), TWO_32);
    BitOrDisjoint(biBuf, biValid, lo);
  }

  lemma {:induction false} Pow2Word(i: nat)
    requires i <= 32
    ensures Pow2(i) * Pow2(32 - i) == TWO_32
  {
    Pow2Add(i, 32 - i);
    Pow2Table();
  }

  /** The full accumulator and what is left of the value together hold all bits. */
  lemma {:induction false} SendSplit(biBuf: nat, biValid: nat, value: nat, length: nat, lo: nat, hi: nat)
    requires biValid < 32 && biBuf < Pow2(biValid)
    requires length <= 16 && value < Pow2(length) && length + biValid >= 32
    requires lo < Pow2(32 - biValid) && value == lo + Pow2(32 - biValid) * hi
    ensures hi < Pow2(length + biValid - 32)
    ensures BitsLsb(biBuf + Pow2(biValid) * lo, 32) + BitsLsb(hi, length + biValid - 32)
            == BitsLsb(biBuf, biValid) + BitsLsb(value, length)
  {
    hide BitsLsb, Pow2;
    var room := 32 - biValid;
    var rest := length - room;
    Pow2Add(room, rest);
    FactorBound(Pow2(room), hi, Pow2(rest));
    BitsLsbSplit(lo, room, hi, rest);
    BitsLsbSplit(biBuf, biValid, lo, room);
  }

  lemma {:induction false} FactorBound(m: nat, q: nat, k: nat)
    requires m * q < m * k
    ensures q < k
  {
  }

  lemma {:induction false} DivSplit(v: nat, m: nat)
    requires m >= 1
    ensures v == v % m + m * (v / m) && 0 <= v / m && v % m < m
  {
  }

  lemma {:induction false} SendFits(biBuf: nat, biValid: nat, value: nat, length: nat)
    requires biValid < 32 && biBuf < Pow2(biValid)
    requires value < Pow2(length) && length + biValid < 32
    ensures value < Pow2(32 - biValid)
    ensures biBuf + Pow2(biValid) * value < Pow2(length + biValid)
    ensures BitsLsb(biBuf + Pow2(biValid) * value, length + biValid)
            == BitsLsb(biBuf, biValid) + BitsLsb(value, length)
  {
    hide BitsLsb, Pow2;
    Pow2Monotone(length, 32 - biValid);
    Pow2Add(biValid, length);
    PairBound(biBuf, Pow2(biValid), value, Pow2(length));
    BitsLsbSplit(biBuf, biValid, value, length);
  }

  lemma {:induction false} PairBound(lo: nat, p: nat, hi: nat, q: nat)
    requires lo < p && hi < q
    ensures lo + p * hi < p * q
  {
    assert p * hi <= p * (q - 1);
  }

  lemma {:induction false} WindupStep(s: seq<byte>, bits: nat, cnt: nat, lo: byte, hi: nat)
    requires 0 < cnt <= 31 && bits < Pow2(cnt)
    requires bits == lo + 256 * hi
    ensures cnt >= 8 ==> && hi < Pow2(cnt - 8)
                         && BytesBits(s + [lo]) + BitsLsb(hi, cnt - 8) == BytesBits(s) + BitsLsb(bits, cnt)
    ensures cnt < 8 ==> BytesBits(s + [lo]) == BytesBits(s) + BitsLsb(bits, cnt) + Zeros(8 - cnt)
  {
    hide BitsLsb, BytesBits, Pow2;
    BytesBitsSnoc(s, lo);
    Pow2Eight();
    if cnt >= 8 {
      Pow2Add(8, cnt - 8);
      FactorBound(256, hi, Pow2(cnt - 8));
      BitsLsbSplit(lo, 8, hi, cnt - 8);
    } else {
      Pow2Monotone(cnt, 8);
      BitsLsbSplit(bits, cnt, 0, 8 - cnt);
      BitsOfZero(8 - cnt);
    }
  }

  lemma {:induction false} Pow2Eight()
    ensures Pow2(8) == 256
  {
    Pow2Table();
  }

  // ----- bi_reverse -----

  /** bi_reverse: sending the result from its lowest bit up sends the code from its
      highest bit down, as Huffman codes are sent. */
  method BiReverse(code: nat, len: nat) returns (res: nat)
    requires len >= 1
    ensures res < Pow2(len)
    ensures BitsLsb(res, len) == BitsMsb(code, len)
  {
    hide BitsLsb, BitsMsb, BitsTail, BitOr, Pow2;
    res := 0;
    var c, n := code, len;
    ReverseStart(code);
    while true
      invariant 1 <= n <= len
      invariant res % 2 == 0
      invariant res / 2 < Pow2(len - n)
      invariant BitsLsb(res / 2, len - n) == BitsTail(code, len - n)
      invariant c == ShiftRight(code, len - n)
      decreases n
    {
      ReverseStep(res, c, code, len - n);
      res := BitOr(res, c % 2);
      n := n - 1;
      if n <= 0 {
        TailIsAll(code, len);
        return;
      }
      c := c / 2;
      res := res * 2;
      assert res % 2 == 0 && res / 2 * 2 == res;
    }
  }

  /** The k low bits of code, highest of them first. */
  function BitsTail(code: nat, k: nat): seq<bool>
  {
    if k == 0 then [] else [ShiftRight(code, k - 1) % 2 == 1] + BitsTail(code, k - 1)
  }

  lemma {:induction false} ReverseStart(code: nat)
    ensures BitsLsb(0, 0) == BitsTail(code, 0) && 0 < Pow2(0) && ShiftRight(code, 0) == code
  {
  }

  lemma {:induction false} ReverseStep(res: nat, c: nat, code: nat, k: nat)
    requires res % 2 == 0 && res / 2 < Pow2(k)
    requires BitsLsb(res / 2, k) == BitsTail(code, k)
    requires c == ShiftRight(code, k)
    ensures var r := BitOr(res, c % 2);
            r < Pow2(k + 1) && BitsLsb(r, k + 1) == BitsTail(code, k + 1)
  {
    OrLowBit(res, c % 2);
  }

  lemma {:induction false} OrLowBit(a: nat, b: nat)
    requires a % 2 == 0 && b < 2
    ensures BitOr(a, b) == a + b
  {
    if a > 0 && b > 0 {
      assert BitOr(a / 2, b / 2) == a / 2;
    }
  }

  lemma {:induction false} TailIsAll(code: nat, len: nat)
    ensures BitsTail(code, len) == BitsMsb(code, len)
  {
    if len > 0 {
      TailIsAll(code / 2, len - 1);
      TailSnoc(code, len);
    }
  }

  lemma {:induction false} TailSnoc(code: nat, len: nat)
    requires len > 0
    ensures BitsTail(code, len) == BitsTail(code / 2, len - 1) + [code % 2 == 1]
  {
    if len > 1 {
      TailSnoc(code, len - 1);
      ShiftShift(code, len - 1);
    }
  }
}
