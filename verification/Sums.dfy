/**
 Powers of two, finite sums over sequences and the bit-string view of numbers.
 Everything the compressor counts (frequencies, code lengths, Kraft weights, bits
 sent) is a sum over a sequence, and every step of the program changes such a
 sequence at one place, so `SumUpdate` carries most of the arithmetic.
 */
module Sums {

  type byte = x: int | 0 <= x < 256

  const TWO_32 := 0x1_0000_0000

  /** The longest code of DEFLATE. */
  const MAX_BITS := 15

  datatype Option<+T> = None | Some(value: T)

  function Min(a: int, b: int): int { if a <= b then a else b }

  function Max(a: int, b: int): int { if a >= b then a else b }

  // ----- powers of two -----

  function Pow2(n: nat): (p: nat)
    ensures p >= 1
  {
    if n == 0 then 1 else 2 * Pow2(n - 1)
  }

  lemma {:induction false} Pow2Add(a: nat, b: nat)
    ensures Pow2(a + b) == Pow2(a) * Pow2(b)
  {
    if a > 0 {
      Pow2Add(a - 1, b);
      DoubleProduct(Pow2(a - 1), Pow2(b));
    }
  }

  lemma {:induction false} Pow2Monotone(a: nat, b: nat)
    requires a <= b
    ensures Pow2(a) <= Pow2(b)
    decreases b
  {
    if a < b {
      Pow2Monotone(a, b - 1);
    }
  }

  lemma {:induction false} Pow2Table()
    ensures Pow2(1) == 2 && Pow2(2) == 4 && Pow2(3) == 8 && Pow2(4) == 16 && Pow2(5) == 32
    ensures Pow2(6) == 64 && Pow2(7) == 128 && Pow2(8) == 256 && Pow2(9) == 512
    ensures Pow2(10) == 1024 && Pow2(11) == 2048 && Pow2(12) == 4096 && Pow2(13) == 8192
    ensures Pow2(14) == 16384 && Pow2(15) == 32768 && Pow2(16) == 65536
    ensures Pow2(32) == 0x1_0000_0000
  {
    assert Pow2(4) == 16;
    assert Pow2(8) == 256;
    assert Pow2(12) == 4096;
    assert Pow2(16) == 65536;
    Pow2Add(16, 16);
  }

  // ----- products, in the shapes the solver needs them -----

  lemma {:induction false} Distribute(a: int, b: int, w: int)
    ensures (a + b) * w == a * w + b * w
  {
  }

  lemma {:induction false} MulMonotone(a: int, b: int, w: int)
    requires a <= b && 0 <= w
    ensures a * w <= b * w
  {
  }

  lemma {:induction false} MulCancel(a: int, b: int, w: int)
    requires a * w <= b * w && 0 < w
    ensures a <= b
  {
    if a > b {
      MulMonotone(b + 1, a, w);
      Distribute(b, 1, w);
    }
  }

  // ----- quotients and remainders -----

  lemma {:induction false} RemainderOf(d: nat, q: nat, r: nat)
    requires r < d
    ensures (d * q + r) % d == r && (d * q + r) / d == q
  {
    var x := d * q + r;
    var e := x / d - q;
    assert d * e == r - x % d;
    MultipleInRange(d, e);
  }

  lemma {:induction false} MultipleInRange(d: int, e: int)
    requires -d < d * e < d
    ensures e == 0
  {
  }

  lemma {:induction false} SmallRemainder(v: nat, m: nat)
    requires v < m
    ensures v % m == v
  {
  }

  lemma {:induction false} AddOnce(x: nat, p: nat)
    requires p > 0
    ensures (x + p) % p == x % p
  {
    assert x + p == p * (x / p + 1) + x % p;
    RemainderOf(p, x / p + 1, x % p);
  }

  // ----- sums -----

  function Sum(s: seq<int>): int
  {
    if s == [] then 0 else Sum(s[..|s| - 1]) + s[|s| - 1]
  }

  /** Changing one entry changes the sum by the difference. */
  lemma {:induction false} SumUpdate(s: seq<int>, i: nat, v: int)
    requires i < |s|
    ensures Sum(s[i := v]) == Sum(s) - s[i] + v
  {
    if i == |s| - 1 {
      assert s[i := v][..|s| - 1] == s[..|s| - 1];
    } else {
      SumUpdate(s[..|s| - 1], i, v);
      assert s[i := v][..|s| - 1] == s[..|s| - 1][i := v];
    }
  }

  lemma {:induction false} SumZero(s: seq<int>)
    requires forall i :: 0 <= i < |s| ==> s[i] == 0
    ensures Sum(s) == 0
  {
    if s != [] {
      SumZero(s[..|s| - 1]);
    }
  }

  lemma {:induction false} SumMonotone(s: seq<int>, t: seq<int>)
    requires |s| == |t|
    requires forall i :: 0 <= i < |s| ==> s[i] <= t[i]
    ensures Sum(s) <= Sum(t)
  {
    if s != [] {
      SumMonotone(s[..|s| - 1], t[..|t| - 1]);
    }
  }

  /** A sum of non-negative entries is at least any two of them. */
  lemma {:induction false} SumAtLeast(s: seq<int>, i: nat)
    requires i < |s|
    requires forall k :: 0 <= k < |s| ==> s[k] >= 0
    ensures s[i] <= Sum(s)
  {
    var z := seq(|s|, k => 0);
    SumZero(z);
    SumUpdate(z, i, s[i]);
    SumMonotone(z[i := s[i]], s);
  }

  // ----- numbers as bit strings -----

  /** The n low bits of v, least significant first: the order in which DEFLATE packs
      everything except Huffman codes. */
  function BitsLsb(v: nat, n: nat): (b: seq<bool>)
    ensures |b| == n
  {
    if n == 0 then [] else [v % 2 == 1] + BitsLsb(v / 2, n - 1)
  }

  /** The n low bits of v, most significant first: the order of a Huffman code. */
  function BitsMsb(v: nat, n: nat): (b: seq<bool>)
    ensures |b| == n
  {
    if n == 0 then [] else BitsMsb(v / 2, n - 1) + [v % 2 == 1]
  }

  function ValueLsb(b: seq<bool>): (v: nat)
    ensures v < Pow2(|b|)
  {
    if b == [] then 0 else (if b[0] then 1 else 0) + 2 * ValueLsb(b[1..])
  }

  lemma {:induction false} ValueOfBitsLsb(v: nat, n: nat)
    requires v < Pow2(n)
    ensures ValueLsb(BitsLsb(v, n)) == v
  {
    if n > 0 {
      ValueOfBitsLsb(v / 2, n - 1);
      assert BitsLsb(v, n)[1..] == BitsLsb(v / 2, n - 1);
    }
  }

  /** Bits i and above of a number below 2^i are zero, so they may be cut or added. */
  lemma {:induction false} BitsLsbSplit(lo: nat, i: nat, hi: nat, j: nat)
    requires lo < Pow2(i)
    ensures BitsLsb(lo + Pow2(i) * hi, i + j) == BitsLsb(lo, i) + BitsLsb(hi, j)
  {
    hide BitsLsb;
    if i == 0 {
      EmptyBits(lo);
      assert lo + Pow2(0) * hi == hi;
    } else {
      DoubleProduct(Pow2(i - 1), hi);
      BitsLsbSplit(lo / 2, i - 1, hi, j);
      HalfSplit(lo, Pow2(i - 1) * hi);
      UnfoldLsb(lo, i);
      UnfoldLsb(lo + Pow2(i) * hi, i + j);
    }
  }

  lemma {:induction false} EmptyBits(v: nat)
    ensures BitsLsb(v, 0) == []
  {
  }

  lemma {:induction false} UnfoldLsb(v: nat, n: nat)
    requires n > 0
    ensures BitsLsb(v, n) == [v % 2 == 1] + BitsLsb(v / 2, n - 1)
  {
  }

  lemma {:induction false} DoubleProduct(p: nat, h: nat)
    ensures (2 * p) * h == 2 * (p * h)
  {
  }

  lemma {:induction false} HalfSplit(lo: nat, t: nat)
    ensures (lo + 2 * t) % 2 == lo % 2 && (lo + 2 * t) / 2 == lo / 2 + t
  {
  }

  function ShiftRight(code: nat, k: nat): nat
  {
    if k == 0 then code else ShiftRight(code, k - 1) / 2
  }

  lemma {:induction false} ShiftShift(code: nat, k: nat)
    requires k > 0
    ensures ShiftRight(code, k) == ShiftRight(code / 2, k - 1)
  {
    if k > 1 {
      ShiftShift(code, k - 1);
    }
  }
}
