/**
 The Adler-32 checksum of lzop.c (section 2.2 of RFC 1950): the program reduces its two sums
 only after every 5552 bytes, which is as long as they are sure to fit 32 bits.
 */
module Adler32 {
  import opened Sums
  import opened Primes

  const LZO_BASE := 65521
  const LZO_NMAX := 5552

  // ----- the reference: reduced after every byte -----

  datatype Sums2 = Sums2(s1: nat, s2: nat)

  function Step(s: Sums2, b: byte): Sums2
  {
    var s1 := (s.s1 + b) % LZO_BASE;
    Sums2(s1, (s.s2 + s1) % LZO_BASE)
  }

  function Sum2(s: Sums2, data: seq<byte>): Sums2
  {
    if data == [] then s else Step(Sum2(s, data[..|data| - 1]), data[|data| - 1])
  }

  lemma {:induction false} Sum2Snoc(s: Sums2, data: seq<byte>, b: byte)
    ensures Sum2(s, data + [b]) == Step(Sum2(s, data), b)
  {
    assert (data + [b])[..|data|] == data;
  }

  /** Checksumming in pieces is checksumming the whole. */
  lemma {:induction false} Sum2Concat(s: Sums2, a: seq<byte>, b: seq<byte>)
    ensures Sum2(s, a + b) == Sum2(Sum2(s, a), b)
  {
    if b == [] {
      assert a + b == a;
    } else {
      Sum2Concat(s, a, b[..|b| - 1]);
      assert (a + b)[..|a + b| - 1] == a + b[..|b| - 1];
    }
  }

  predicate Reduced(s: Sums2)
  {
    s.s1 < LZO_BASE && s.s2 < LZO_BASE
  }

  function Pack(s: Sums2): nat
  {
    65536 * s.s2 + s.s1
  }

  function Unpack(adler: nat): Sums2
  {
    Sums2(adler % 65536, adler / 65536 % 65536)
  }

  lemma {:induction false} PackRoundTrip(s: Sums2)
    requires Reduced(s)
    ensures Unpack(Pack(s)) == s && Pack(s) < TWO_32
  {
  }

  // ----- what it is -----

  /** The modulus is the largest prime below 65536. */
  lemma {:induction false} BaseIsLargestPrime(p: nat)
    ensures Prime(LZO_BASE) && LZO_BASE < 65536
    ensures LZO_BASE < p < 65536 ==> !Prime(p)
  {
    forall d | 2 <= d < 256 ensures !Divides(d, LZO_BASE) {
      NoDivisor(d);
    }
    PrimeBySqrt(LZO_BASE, 255);
    if LZO_BASE < p < 65536 {
      if p % 2 == 0 {
        Composite(p, 2);
      } else if p % 3 == 0 {
        Composite(p, 3);
      } else if p == 65525 {
        Composite(p, 5);
      } else if p == 65527 {
        Composite(p, 7);
      } else if p == 65531 {
        Composite(p, 19);
      } else {
        Composite(p, 13);
      }
    }
  }

  lemma {:induction false} Composite(p: nat, d: nat)
    requires 2 <= d < p && p % d == 0
    ensures !Prime(p)
  {
    assert Divides(d, p);
  }

  lemma {:induction false} NoDivisor(d: nat)
    requires 2 <= d < 256
    ensures LZO_BASE % d != 0
  {
  }

  /** The bytes, and the bytes each taken as often as there are bytes from it on. */
  function Bytes(data: seq<byte>): (s: seq<int>)
    ensures |s| == |data|
  {
    seq(|data|, i requires 0 <= i < |data| => data[i] as int)
  }

  function WeightedBytes(data: seq<byte>): (s: seq<int>)
    ensures |s| == |data|
  {
    seq(|data|, i requires 0 <= i < |data| => (|data| - i) * data[i])
  }

  lemma {:induction false} SumsSnoc(data: seq<byte>, b: byte)
    ensures Sum(Bytes(data + [b])) == Sum(Bytes(data)) + b
    ensures Sum(WeightedBytes(data + [b])) == Sum(WeightedBytes(data)) + Sum(Bytes(data)) + b
  {
    var d := data + [b];
    assert Bytes(d)[..|data|] == Bytes(data);
    var w := WeightedBytes(d)[..|data|];
    forall i | 0 <= i < |data| ensures w[i] == WeightedBytes(data)[i] + Bytes(data)[i] {
      Distribute(|data| - i, 1, data[i]);
    }
    SumAdds(w, WeightedBytes(data), Bytes(data));
    assert WeightedBytes(d)[|data|] == b;
  }

  lemma {:induction false} SumAdds(w: seq<int>, a: seq<int>, b: seq<int>)
    requires |w| == |a| == |b| && forall i :: 0 <= i < |w| ==> w[i] == a[i] + b[i]
    ensures Sum(w) == Sum(a) + Sum(b)
  {
    if w != [] {
      var n := |w| - 1;
      SumAdds(w[..n], a[..n], b[..n]);
    }
  }

  lemma {:induction false} SumsPositive(data: seq<byte>)
    ensures Sum(Bytes(data)) >= 0 && Sum(WeightedBytes(data)) >= 0
  {
    hide Bytes, WeightedBytes;
    if data == [] {
      NoBytes();
    } else {
      var init, b := data[..|data| - 1], data[|data| - 1];
      SumsPositive(init);
      SumsSnoc(init, b);
      assert init + [b] == data;
    }
  }

  lemma {:induction false} NoBytes()
    ensures Sum(Bytes([])) == 0 && Sum(WeightedBytes([])) == 0
  {
  }

  /** The two sums in closed form, as section 9 of RFC 1950 gives them: s1 is the sum of all
      bytes, and s2 takes the byte i places from the end i times; both start from s. */
  lemma {:induction false} ClosedForm(s: Sums2, data: seq<byte>)
    requires Reduced(s)
    ensures Sum2(s, data).s1 == (s.s1 + Sum(Bytes(data))) % LZO_BASE
    ensures Sum2(s, data).s2 == (s.s2 + |data| * s.s1 + Sum(WeightedBytes(data))) % LZO_BASE
  {
    hide Bytes, WeightedBytes;
    if data == [] {
      NoBytes();
      SmallRemainder(s.s1, LZO_BASE);
      SmallRemainder(s.s2, LZO_BASE);
    } else {
      var init, b := data[..|data| - 1], data[|data| - 1];
      ClosedForm(s, init);
      SumsSnoc(init, b);
      SumsPositive(init);
      assert init + [b] == data;
      var x: nat, y: nat := s.s1 + Sum(Bytes(init)), s.s2 + |init| * s.s1 + Sum(WeightedBytes(init));
      AddMod(x, b);
      AddMod(x + b, y % LZO_BASE);
      AddMod(y, x + b);
      Distribute(|init|, 1, s.s1);
    }
  }

  // ----- deferred reduction -----

  /** After i bytes without reduction the sums are congruent to the reference and bounded. */
  ghost predicate Deferred(s1: nat, s2: nat, i: nat, r: Sums2)
  {
    && s1 % LZO_BASE == r.s1 && s2 % LZO_BASE == r.s2
    && s1 <= 65520 + 255 * i && s2 <= Limit(i)
  }

  /** 255 i (i + 1) / 2 + (i + 1) (LZO_BASE - 1). */
  function Limit(i: nat): nat
  {
    if i == 0 then 65520 else Limit(i - 1) + 65520 + 255 * i
  }

  lemma {:induction false} LimitFormula(i: nat)
    ensures 2 * Limit(i) == 255 * i * (i + 1) + 2 * 65520 * (i + 1)
  {
    if i > 0 {
      LimitFormula(i - 1);
      assert 255 * i * (i + 1) == 255 * (i - 1) * i + 510 * i;
    }
  }

  /** 5552 is the largest number of bytes for which the sums are sure to fit. */
  lemma {:induction false} LimitFits(i: nat)
    ensures i <= LZO_NMAX ==> Limit(i) < TWO_32
    ensures i > LZO_NMAX ==> Limit(i) >= TWO_32
  {
    LimitFormula(LZO_NMAX);
    LimitFormula(LZO_NMAX + 1);
    if i <= LZO_NMAX {
      LimitMonotone(i, LZO_NMAX);
    } else {
      LimitMonotone(LZO_NMAX + 1, i);
    }
  }

  lemma {:induction false} LimitMonotone(a: nat, b: nat)
    requires a <= b
    ensures Limit(a) <= Limit(b)
    decreases b
  {
    if a < b {
      LimitMonotone(a, b - 1);
    }
  }

  lemma {:induction false} DeferredStep(s1: nat, s2: nat, i: nat, r: Sums2, b: byte)
    requires Deferred(s1, s2, i, r) && i < LZO_NMAX
    ensures Deferred(s1 + b, s2 + (s1 + b), i + 1, Step(r, b))
    ensures s1 + b < TWO_32 && s2 + (s1 + b) < TWO_32
  {
    LimitFits(i + 1);
    AddMod(s1, b);
    AddMod(s2, s1 + b);
    AddMod(s1 + b, s2 % LZO_BASE);
  }

  lemma {:induction false} AddMod(x: nat, y: nat)
    ensures (x + y) % LZO_BASE == (x % LZO_BASE + y) % LZO_BASE
  {
    var q := x / LZO_BASE;
    assert x + y == LZO_BASE * q + (x % LZO_BASE + y);
    ModMultiple(q, x % LZO_BASE + y);
  }

  lemma {:induction false} ModMultiple(q: nat, z: nat)
    ensures (LZO_BASE * q + z) % LZO_BASE == z % LZO_BASE
  {
    var p, r := z / LZO_BASE, z % LZO_BASE;
    assert LZO_BASE * q + z == LZO_BASE * (q + p) + r;
    RemainderOf(LZO_BASE, q + p, r);
  }

  /** The inner loop: k bytes without reduction, in 32-bit arithmetic. */
  method Accumulate(buf: seq<byte>, from: nat, k0: nat, a: nat, b: nat, ghost start: Sums2) returns (s1: nat, s2: nat)
    requires from + k0 <= |buf| && k0 <= LZO_NMAX && a < LZO_BASE && b < LZO_BASE && Sums2(a, b) == Sum2(start, buf[..from])
    ensures s1 % LZO_BASE == Sum2(start, buf[..from + k0]).s1 && s2 % LZO_BASE == Sum2(start, buf[..from + k0]).s2
  {
    hide Sum2, Step, Limit, Deferred;
    s1, s2 := a, b;
    var pos: nat, k: nat := from, k0;
    DeferredStart(s1, s2);
    while k > 0
      invariant from <= pos && pos + k == from + k0
      invariant Deferred(s1, s2, pos - from, Sum2(start, buf[..pos]))
      decreases k
    {
      DeferredStep(s1, s2, pos - from, Sum2(start, buf[..pos]), buf[pos]);
      NextByte(buf, pos, start);
      s1 := (s1 + buf[pos]) % TWO_32;
      s2 := (s2 + s1) % TWO_32;
      pos := pos + 1;
      k := k - 1;
    }
    DeferredEnd(s1, s2, k0, Sum2(start, buf[..from + k0]));
  }

  lemma {:induction false} NextByte(buf: seq<byte>, pos: nat, start: Sums2)
    requires pos < |buf|
    ensures Sum2(start, buf[..pos + 1]) == Step(Sum2(start, buf[..pos]), buf[pos])
  {
    hide Step;
    Sum2Snoc(start, buf[..pos], buf[pos]);
    assert buf[..pos + 1] == buf[..pos] + [buf[pos]];
  }

  lemma {:induction false} DeferredEnd(s1: nat, s2: nat, i: nat, r: Sums2)
    requires Deferred(s1, s2, i, r)
    ensures s1 % LZO_BASE == r.s1 && s2 % LZO_BASE == r.s2
  {
  }

  /** lzo_adler32: for every byte string and every reduced starting value the result is the
      checksum of the reference; no 32-bit sum overflows on the way. */
  method LzoAdler32(adler: nat, buf: seq<byte>) returns (r: nat)
    requires adler < TWO_32 && Reduced(Unpack(adler))
    ensures r == Pack(Sum2(Unpack(adler), buf)) && r < TWO_32 && Reduced(Unpack(r))
  {
    hide Sum2;
    ghost var start := Unpack(adler);
    var s1: nat, s2: nat, pos: nat := adler % 65536, adler / 65536 % 65536, 0;
    NothingSummed(start);
    while pos < |buf|
      invariant 0 <= pos <= |buf| && Sums2(s1, s2) == Sum2(start, buf[..pos]) && s1 < LZO_BASE && s2 < LZO_BASE
      decreases |buf| - pos
    {
      var k := if |buf| - pos < LZO_NMAX then |buf| - pos else LZO_NMAX;
      s1, s2 := Accumulate(buf, pos, k, s1, s2, start);
      pos := pos + k;
      s1 := s1 % LZO_BASE;
      s2 := s2 % LZO_BASE;
    }
    assert buf[..|buf|] == buf;
    PackRoundTrip(Sums2(s1, s2));
    r := s2 * 65536 + s1;
  }

  lemma {:induction false} NothingSummed(s: Sums2)
    ensures Sum2(s, []) == s
  {
  }

  lemma {:induction false} DeferredStart(s1: nat, s2: nat)
    requires s1 < LZO_BASE && s2 < LZO_BASE
    ensures Deferred(s1, s2, 0, Sums2(s1, s2))
  {
  }
}
