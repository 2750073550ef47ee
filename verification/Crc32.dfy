/**
 The checksum of the container (section 8 of RFC 1952): the table-driven form that the
 program uses against the polynomial division bit by bit.
 */
module Crc32 {
  import opened Sums
  import opened Hashing

  const POLYNOMIAL := 0xedb88320

  // ----- the reference: one bit at a time -----

  function CrcBit(c: nat): nat
  {
    if c % 2 == 1 then Xor(c / 2, POLYNOMIAL) else c / 2
  }

  function CrcBits(c: nat, k: nat): nat
    decreases k
  {
    if k == 0 then c else CrcBits(CrcBit(c), k - 1)
  }

  /** The register after the bytes of data. */
  function CrcFrom(c: nat, data: seq<byte>): nat
  {
    if data == [] then c else CrcBits(Xor(CrcFrom(c, data[..|data| - 1]), data[|data| - 1]), 8)
  }

  lemma {:induction false} CrcSnoc(c: nat, data: seq<byte>, b: byte)
    ensures CrcFrom(c, data + [b]) == CrcBits(Xor(CrcFrom(c, data), b), 8)
  {
    hide CrcBits;
    assert (data + [b])[..|data|] == data;
  }

  /** Checksumming in pieces is checksumming the whole. */
  lemma {:induction false} CrcConcat(c: nat, s: seq<byte>, t: seq<byte>)
    ensures CrcFrom(c, s + t) == CrcFrom(CrcFrom(c, s), t)
  {
    hide CrcBits;
    if t == [] {
      assert s + t == s;
    } else {
      CrcConcat(c, s, t[..|t| - 1]);
      assert (s + t)[..|s + t| - 1] == s + t[..|t| - 1];
    }
  }

  // ----- exclusive or -----

  lemma {:induction false} XorCommutes(a: nat, b: nat)
    ensures Xor(a, b) == Xor(b, a)
    decreases a + b
  {
    if a > 0 && b > 0 {
      XorCommutes(a / 2, b / 2);
    }
  }

  lemma {:induction false} XorHalves(a: nat, b: nat)
    ensures Xor(a, b) % 2 == (a % 2 + b % 2) % 2 && Xor(a, b) / 2 == Xor(a / 2, b / 2)
  {
    hide Xor;
    XorUnfold(a, b);
  }

  lemma {:induction false} XorAssociates(a: nat, b: nat, c: nat)
    ensures Xor(Xor(a, b), c) == Xor(a, Xor(b, c))
    decreases a + b + c
  {
    hide Xor;
    if a + b + c == 0 {
      XorZero(0);
    } else {
      XorAssociates(a / 2, b / 2, c / 2);
      XorHalves(a, b);
      XorHalves(b, c);
      XorHalves(Xor(a, b), c);
      XorHalves(a, Xor(b, c));
    }
  }

  lemma {:induction false} XorSelf(a: nat)
    ensures Xor(a, a) == 0
  {
    if a > 0 {
      XorSelf(a / 2);
    }
  }

  lemma {:induction false} XorSwap(a: nat, b: nat, c: nat)
    ensures Xor(Xor(a, b), c) == Xor(Xor(a, c), b)
  {
    hide Xor;
    XorAssociates(a, b, c);
    XorCommutes(b, c);
    XorAssociates(a, c, b);
  }

  lemma {:induction false} XorPairs(a: nat, b: nat, c: nat, d: nat)
    ensures Xor(Xor(a, b), Xor(c, d)) == Xor(Xor(a, c), Xor(b, d))
  {
    hide Xor;
    XorAssociates(Xor(a, b), c, d);
    XorSwap(a, b, c);
    XorAssociates(Xor(a, c), b, d);
  }

  lemma {:induction false} XorBound(a: nat, b: nat, k: nat)
    requires a < Pow2(k) && b < Pow2(k)
    ensures Xor(a, b) < Pow2(k)
  {
    hide Xor;
    XorMod(a, b, k);
    SmallRemainder(a, Pow2(k));
    SmallRemainder(b, Pow2(k));
  }

  // ----- linearity -----

  /** What the low bit of c adds to the shifted register. */
  function Feedback(c: nat): nat
  {
    if c % 2 == 1 then POLYNOMIAL else 0
  }

  lemma {:induction false} CrcBitIsXor(c: nat)
    ensures CrcBit(c) == Xor(c / 2, Feedback(c))
  {
    XorZero(c / 2);
  }

  lemma {:induction false} FeedbackLinear(a: nat, b: nat)
    ensures Feedback(Xor(a, b)) == Xor(Feedback(a), Feedback(b))
  {
    hide Xor;
    XorHalves(a, b);
    XorSelf(POLYNOMIAL);
    XorZero(POLYNOMIAL);
    XorZero(0);
  }

  lemma {:induction false} CrcBitLinear(a: nat, b: nat)
    ensures CrcBit(Xor(a, b)) == Xor(CrcBit(a), CrcBit(b))
  {
    hide Xor, CrcBit, Feedback;
    CrcBitIsXor(a);
    CrcBitIsXor(b);
    CrcBitIsXor(Xor(a, b));
    FeedbackLinear(a, b);
    XorHalves(a, b);
    XorPairs(a / 2, b / 2, Feedback(a), Feedback(b));
  }

  lemma {:induction false} CrcLinear(a: nat, b: nat, k: nat)
    ensures CrcBits(Xor(a, b), k) == Xor(CrcBits(a, k), CrcBits(b, k))
    decreases k
  {
    hide Xor, CrcBit;
    if k > 0 {
      CrcBitLinear(a, b);
      CrcLinear(CrcBit(a), CrcBit(b), k - 1);
    }
  }

  /** k steps act on the low k bits only; the others are just shifted down. */
  lemma {:induction false} CrcSplit(x: nat, k: nat)
    ensures 0 <= x / Pow2(k) && CrcBits(x, k) == Xor(CrcBits(x % Pow2(k), k), x / Pow2(k))
    decreases k
  {
    hide Xor, CrcBit, Feedback, CrcBits;
    if k == 0 {
      CrcNone(x);
      CrcNone(0);
      XorZero(x);
    } else {
      var p, y := Pow2(k - 1), x % Pow2(k);
      CrcSplit(x / 2, k - 1);
      HalfMod(x, p);
      HalfDiv(x, p);
      CrcStep(x, k);
      CrcStep(y, k);
      XorSwap(CrcBits((x / 2) % p, k - 1), (x / 2) / p, CrcBits(Feedback(x), k - 1));
      FeedbackLow(x, y);
    }
  }

  lemma {:induction false} FeedbackLow(x: nat, y: nat)
    requires x % 2 == y % 2
    ensures Feedback(x) == Feedback(y)
  {
  }

  lemma {:induction false} CrcNone(x: nat)
    ensures CrcBits(x, 0) == x
  {
  }

  lemma {:induction false} CrcStep(x: nat, k: nat)
    requires k > 0
    ensures CrcBits(x, k) == Xor(CrcBits(x / 2, k - 1), CrcBits(Feedback(x), k - 1))
  {
    hide Xor, CrcBit, Feedback;
    CrcBitIsXor(x);
    CrcLinear(x / 2, Feedback(x), k - 1);
  }

  lemma {:induction false} HalfDiv(x: nat, p: nat)
    requires p > 0
    ensures x / (2 * p) == (x / 2) / p
  {
    var q, r := x / (2 * p), x % (2 * p);
    assert x == 2 * (p * q) + r;
    HalfMod(x, p);
    var h := x / 2;
    assert h == p * q + h % p;
    var e := h / p - q;
    assert p * e == 0;
    if e >= 1 {
      MulMonotone(1, e, p);
    } else if e <= -1 {
      MulMonotone(e, -1, p);
    }
  }

  /** One byte through the table. */
  lemma {:induction false} TableStep(val: nat, b: byte)
    ensures CrcBits(Xor(val, b), 8) == Xor(CrcBits(Xor(val % 256, b), 8), val / 256)
  {
    hide Xor, CrcBits;
    Pow2Table();
    CrcSplit(Xor(val, b), 8);
    XorMod(val, b, 8);
    XorHigh(val, b);
  }

  lemma {:induction false} XorHigh(val: nat, b: byte)
    ensures Xor(val, b) / 256 == val / 256
  {
    hide Xor;
    Pow2Table();
    XorDiv(val, b, 8);
    XorZero(val / 256);
  }

  lemma {:induction false} XorDiv(a: nat, b: nat, k: nat)
    ensures 0 <= a / Pow2(k) && 0 <= b / Pow2(k) && Xor(a, b) / Pow2(k) == Xor(a / Pow2(k), b / Pow2(k))
  {
    hide Xor;
    if k > 0 {
      XorHalves(a, b);
      XorDiv(a / 2, b / 2, k - 1);
      HalfDiv(a, Pow2(k - 1));
      HalfDiv(b, Pow2(k - 1));
      HalfDiv(Xor(a, b), Pow2(k - 1));
    }
  }

  lemma {:induction false} CrcBitsBound(c: nat, k: nat)
    requires c < TWO_32
    ensures CrcBits(c, k) < TWO_32
    decreases k
  {
    hide Xor;
    if k > 0 {
      Pow2Table();
      XorBound(c / 2, POLYNOMIAL, 32);
      CrcBitsBound(CrcBit(c), k - 1);
    }
  }

  lemma {:induction false} CrcBound(c: nat, data: seq<byte>)
    requires c < TWO_32
    ensures CrcFrom(c, data) < TWO_32
  {
    hide Xor, CrcBits;
    if data != [] {
      var b := data[|data| - 1];
      CrcBound(c, data[..|data| - 1]);
      Pow2Table();
      XorBound(CrcFrom(c, data[..|data| - 1]), b, 32);
      CrcBitsBound(Xor(CrcFrom(c, data[..|data| - 1]), b), 8);
    }
  }

  // ----- the program -----

  ghost predicate CrcTable(table: seq<nat>)
  {
    |table| == 256 && forall i :: 0 <= i < 256 ==> table[i] == CrcBits(i, 8)
  }

  /** crc32_filltable, little-endian. */
  method FillTable() returns (table: seq<nat>)
    ensures CrcTable(table)
  {
    hide CrcBits;
    var t := new nat[256](_ => 0);
    for i := 0 to 256
      invariant forall k :: 0 <= k < i ==> t[k] == CrcBits(k, 8)
    {
      var c, j := i, 8;
      while j > 0
        invariant forall k :: 0 <= k < i ==> t[k] == CrcBits(k, 8)
        invariant 0 <= j <= 8 && c >= 0 && CrcBits(c, j) == CrcBits(i, 8)
      {
        CrcUnfold(c, j);
        c := if c % 2 == 1 then Xor(c / 2, POLYNOMIAL) else c / 2;
        j := j - 1;
      }
      CrcNone(c);
      t[i] := c;
    }
    table := t[..];
  }

  lemma {:induction false} CrcUnfold(c: nat, k: nat)
    requires k > 0
    ensures CrcBits(c, k) == CrcBits(CrcBit(c), k - 1)
  {
  }

  /** crc32_block_endian0. */
  method CrcBlock(val: nat, buf: seq<byte>, table: seq<nat>) returns (crc: nat)
    requires CrcTable(table)
    ensures crc == CrcFrom(val, buf)
  {
    hide CrcBits, Xor;
    crc := val;
    for i := 0 to |buf|
      invariant crc == CrcFrom(val, buf[..i])
    {
      TableIndex(crc % 256, buf[i]);
      TableStep(crc, buf[i]);
      CrcSnoc(val, buf[..i], buf[i]);
      assert buf[..i + 1] == buf[..i] + [buf[i]];
      crc := Xor(table[Xor(crc % 256, buf[i])], crc / 256);
    }
    assert buf[..|buf|] == buf;
  }

  lemma {:induction false} TableIndex(a: nat, b: byte)
    requires a < 256
    ensures Xor(a, b) < 256
  {
    Pow2Table();
    XorBound(a, b, 8);
  }
}
