/**
 What the checksum is: the remainder of the message, as a polynomial over the two-element
 field, by the generator of section 8.1.1.6.2 of ITU-T recommendation V.42, to which section
 8 of RFC 1952 refers. Polynomials are the sets of their exponents.
 */
module CrcPolynomial {
  import opened Sums
  import opened Hashing
  import opened BitWriter
  import opened Crc32

  type Poly = set<nat>

  const GENERATOR: Poly := {32, 26, 23, 22, 16, 12, 11, 10, 8, 7, 5, 4, 2, 1, 0}

  ghost function Add(p: Poly, q: Poly): Poly
  {
    (p - q) + (q - p)
  }

  /** p times the power k of the variable. */
  ghost function Shift(p: Poly, k: nat): Poly
  {
    set e | e in p :: e + k
  }

  /** The polynomial of a bit string, highest exponent first: the order of transmission. */
  ghost function PolyOf(bits: seq<bool>): Poly
  {
    if bits == [] then {} else Add(if bits[0] then {|bits| - 1} else {}, PolyOf(bits[1..]))
  }

  /** The generator times the polynomial of q. */
  ghost function Multiple(q: seq<bool>): Poly
  {
    if q == [] then {} else Add(if q[0] then Shift(GENERATOR, |q| - 1) else {}, Multiple(q[1..]))
  }

  /** Bit k of x. */
  predicate Bit(x: nat, k: nat)
  {
    if k == 0 then x % 2 == 1 else Bit(x / 2, k - 1)
  }

  /** The register holds a polynomial of degree below 32, its highest exponent in the low bit. */
  ghost function OfRegister(c: nat): Poly
  {
    set k: nat | k < 32 && Bit(c, k) :: 31 - k
  }

  // ----- bits -----

  lemma {:induction false} BitXor(a: nat, b: nat, k: nat)
    ensures Bit(Xor(a, b), k) <==> Bit(a, k) != Bit(b, k)
    decreases k
  {
    hide Xor;
    XorHalves(a, b);
    if k > 0 {
      BitXor(a / 2, b / 2, k - 1);
    }
  }

  lemma {:induction false} BitBelow(c: nat, k: nat)
    requires c < Pow2(k)
    ensures !Bit(c, k)
  {
    if k > 0 {
      BitBelow(c / 2, k - 1);
    }
  }

  /** The constant of the program is the generator without its highest exponent. */
  lemma {:induction false} GeneratorBits(i: nat)
    requires i < 32
    ensures Bit(POLYNOMIAL, 31 - i) <==> i in GENERATOR
  {
    if i < 8 {
      GeneratorByte3(i);
    } else if i < 16 {
      GeneratorByte2(i);
    } else if i < 24 {
      GeneratorByte1(i);
    } else {
      GeneratorByte0(i);
    }
  }

  lemma {:induction false} SkipByte(x: nat, k: nat)
    ensures Bit(x, k + 8) == Bit(x / 256, k)
  {
    assert Bit(x, k + 8) == Bit(x / 2, k + 7) == Bit(x / 4, k + 6) == Bit(x / 8, k + 5) == Bit(x / 16, k + 4);
    assert Bit(x / 16, k + 4) == Bit(x / 32, k + 3) == Bit(x / 64, k + 2) == Bit(x / 128, k + 1) == Bit(x / 256, k);
  }

  lemma {:induction false} GeneratorByte0(i: nat)
    requires 24 <= i < 32
    ensures Bit(POLYNOMIAL, 31 - i) <==> i in GENERATOR
  {
    assert !Bit(0xedb88320, 0) && !Bit(0xedb88320, 1) && !Bit(0xedb88320, 2) && !Bit(0xedb88320, 3) && !Bit(0xedb88320, 4) && Bit(0xedb88320, 5) && !Bit(0xedb88320, 6) && !Bit(0xedb88320, 7);
  }

  lemma {:induction false} GeneratorByte1(i: nat)
    requires 16 <= i < 24
    ensures Bit(POLYNOMIAL, 31 - i) <==> i in GENERATOR
  {
    SkipByte(0xedb88320, 23 - i);
    assert Bit(0xedb883, 0) && Bit(0xedb883, 1) && !Bit(0xedb883, 2) && !Bit(0xedb883, 3) && !Bit(0xedb883, 4) && !Bit(0xedb883, 5) && !Bit(0xedb883, 6) && Bit(0xedb883, 7);
  }

  lemma {:induction false} GeneratorByte2(i: nat)
    requires 8 <= i < 16
    ensures Bit(POLYNOMIAL, 31 - i) <==> i in GENERATOR
  {
    SkipByte(0xedb88320, 23 - i);
    SkipByte(0xedb883, 15 - i);
    assert !Bit(0xedb8, 0) && !Bit(0xedb8, 1) && !Bit(0xedb8, 2) && Bit(0xedb8, 3) && Bit(0xedb8, 4) && Bit(0xedb8, 5) && !Bit(0xedb8, 6) && Bit(0xedb8, 7);
  }

  lemma {:induction false} GeneratorByte3(i: nat)
    requires 0 <= i < 8
    ensures Bit(POLYNOMIAL, 31 - i) <==> i in GENERATOR
  {
    SkipByte(0xedb88320, 23 - i);
    SkipByte(0xedb883, 15 - i);
    SkipByte(0xedb8, 7 - i);
    assert Bit(0xed, 0) && !Bit(0xed, 1) && Bit(0xed, 2) && Bit(0xed, 3) && !Bit(0xed, 4) && Bit(0xed, 5) && Bit(0xed, 6) && Bit(0xed, 7);
  }

  // ----- one bit at a time -----

  /** The register after one more bit of the message. */
  function Fed(c: nat, b: bool): nat
  {
    if (c % 2 == 1) != b then Xor(c / 2, POLYNOMIAL) else c / 2
  }

  function Feed(c: nat, bits: seq<bool>): nat
    decreases |bits|
  {
    if bits == [] then c else Feed(Fed(c, bits[0]), bits[1..])
  }

  lemma {:induction false} FeedConcat(c: nat, s: seq<bool>, t: seq<bool>)
    ensures Feed(c, s + t) == Feed(Feed(c, s), t)
    decreases |s|
  {
    hide Fed;
    if s == [] {
      assert s + t == t;
    } else {
      FeedConcat(Fed(c, s[0]), s[1..], t);
      assert (s + t)[1..] == s[1..] + t;
    }
  }

  lemma {:induction false} FedIsStep(c: nat, x: nat)
    ensures CrcBit(Xor(c, x)) == Xor(Fed(c, x % 2 == 1), x / 2)
  {
    hide Xor;
    XorHalves(c, x);
    XorSwap(c / 2, x / 2, POLYNOMIAL);
  }

  /** The low k bits of x, all added to the register at first, are as good as one bit a step. */
  lemma {:induction false} FeedIsSteps(c: nat, x: nat, k: nat)
    requires x < Pow2(k)
    ensures CrcBits(Xor(c, x), k) == Feed(c, BitsLsb(x, k))
    decreases k
  {
    hide Xor, CrcBit, Fed;
    if k == 0 {
      XorZero(c);
    } else {
      var b := x % 2 == 1;
      FedIsStep(c, x);
      CrcUnfold(Xor(c, x), k);
      FeedIsSteps(Fed(c, b), x / 2, k - 1);
      UnfoldLsb(x, k);
      assert ([b] + BitsLsb(x / 2, k - 1))[1..] == BitsLsb(x / 2, k - 1);
    }
  }

  /** The checksum register is fed with the bits of the data, low bits first. */
  lemma {:induction false} CrcIsFeed(c: nat, data: seq<byte>)
    ensures CrcFrom(c, data) == Feed(c, BytesBits(data))
  {
    hide Xor, CrcBits, Feed, BitsLsb;
    if data == [] {
      FeedNothing(c);
    } else {
      var init, b := data[..|data| - 1], data[|data| - 1];
      CrcIsFeed(c, init);
      Pow2Table();
      FeedIsSteps(CrcFrom(c, init), b, 8);
      FeedConcat(c, BytesBits(init), BitsLsb(b, 8));
    }
  }

  lemma {:induction false} FeedNothing(c: nat)
    ensures Feed(c, []) == c
  {
  }

  // ----- the algebra of polynomials -----

  lemma {:induction false} AddIn(p: Poly, q: Poly, e: nat)
    ensures e in Add(p, q) <==> (e in p) != (e in q)
  {
  }

  lemma {:induction false} ShiftIn(p: Poly, k: nat, e: nat)
    ensures e in Shift(p, k) <==> e >= k && e - k in p
  {
    if e >= k && e - k in p {
      assert (e - k) + k in Shift(p, k);
    }
  }

  lemma {:induction false} ShiftAdd(p: Poly, q: Poly, k: nat)
    ensures Shift(Add(p, q), k) == Add(Shift(p, k), Shift(q, k))
  {
    hide Add, Shift;
    forall e: nat ensures e in Shift(Add(p, q), k) <==> e in Add(Shift(p, k), Shift(q, k)) {
      ShiftIn(Add(p, q), k, e);
      ShiftIn(p, k, e);
      ShiftIn(q, k, e);
      AddIn(Shift(p, k), Shift(q, k), e);
      if e >= k {
        AddIn(p, q, e - k);
      }
    }
  }

  lemma {:induction false} ShiftShift(p: Poly, j: nat, k: nat)
    ensures Shift(Shift(p, j), k) == Shift(p, j + k)
  {
    hide Shift;
    forall e: nat ensures e in Shift(Shift(p, j), k) <==> e in Shift(p, j + k) {
      ShiftIn(Shift(p, j), k, e);
      ShiftIn(p, j + k, e);
      if e >= k {
        ShiftIn(p, j, e - k);
      }
    }
  }

  lemma {:induction false} AddAssociates(p: Poly, q: Poly, r: Poly)
    ensures Add(Add(p, q), r) == Add(p, Add(q, r)) && Add(p, q) == Add(q, p)
  {
  }

  // ----- the remainder -----

  lemma {:induction false} RegisterIn(c: nat, e: nat)
    ensures e in OfRegister(c) <==> e < 32 && Bit(c, 31 - e)
  {
    hide Bit;
    if e < 32 && Bit(c, 31 - e) {
      assert 31 - (31 - e) in OfRegister(c);
    }
  }

  /** What the next register holds. */
  lemma {:induction false} FedIn(c: nat, b: bool, e: nat)
    requires c < TWO_32
    ensures var f := Bit(c, 0) != b;
            e in OfRegister(Fed(c, b)) <==> e < 32 && ((e > 0 && e - 1 in OfRegister(c)) != (f && e in GENERATOR))
  {
    hide Xor, Bit, OfRegister, Pow2;
    BitUnfold(c, 0);
    RegisterIn(Fed(c, b), e);
    if e < 32 {
      BitXor(c / 2, POLYNOMIAL, 31 - e);
      BitUnfold(c, 32 - e);
      GeneratorBits(e);
      if e > 0 {
        RegisterIn(c, e - 1);
      } else {
        Pow2Table();
        BitBelow(c, 32);
      }
    }
  }

  lemma {:induction false} BitUnfold(x: nat, k: nat)
    ensures Bit(x, 0) <==> x % 2 == 1
    ensures k > 0 ==> Bit(x, k) == Bit(x / 2, k - 1)
  {
  }

  /** One step: the register times the variable, plus the bit, is the new register up to the
      generator. */
  lemma {:induction false} FedStep(c: nat, b: bool)
    requires c < TWO_32
    ensures Add(Shift(OfRegister(c), 1), if b then {32} else {})
            == Add(if Bit(c, 0) != b then GENERATOR else {}, OfRegister(Fed(c, b)))
  {
    hide Add, Shift, OfRegister, Fed, Bit;
    var f := Bit(c, 0) != b;
    var p: Poly, g: Poly := if b then {32} else {}, if f then GENERATOR else {};
    forall e: nat ensures e in Add(Shift(OfRegister(c), 1), p) <==> e in Add(g, OfRegister(Fed(c, b))) {
      AddIn(Shift(OfRegister(c), 1), p, e);
      AddIn(g, OfRegister(Fed(c, b)), e);
      ShiftIn(OfRegister(c), 1, e);
      FedIn(c, b, e);
      if e >= 1 {
        RegisterIn(c, e - 1);
      }
      GeneratorDegree(e);
    }
  }

  lemma {:induction false} GeneratorDegree(e: nat)
    ensures e in GENERATOR ==> e <= 32
    ensures 32 in GENERATOR
  {
  }

  lemma {:induction false} FedBound(c: nat, b: bool)
    requires c < TWO_32
    ensures Fed(c, b) < TWO_32
  {
    hide Xor;
    Pow2Table();
    XorBound(c / 2, POLYNOMIAL, 32);
  }

  /** Feeding n bits divides: the register times the power n, plus the message times the power
      32, is a multiple of the generator plus the new register. */
  lemma {:induction false} FeedDivides(c: nat, bits: seq<bool>) returns (q: seq<bool>)
    requires c < TWO_32
    ensures |q| == |bits| && Feed(c, bits) < TWO_32
    ensures Add(Shift(OfRegister(c), |bits|), Shift(PolyOf(bits), 32)) == Add(Multiple(q), OfRegister(Feed(c, bits)))
    decreases |bits|
  {
    hide OfRegister, Fed, Add, Shift, PolyOf, Multiple;
    if bits == [] {
      q := [];
      NothingFed(c);
    } else {
      var b, rest, c' := bits[0], bits[1..], Fed(c, bits[0]);
      var n := |rest|;
      FedBound(c, b);
      var q' := FeedDivides(c', rest);
      var f := Bit(c, 0) != b;
      q := [f] + q';
      FedStep(c, b);
      var r: Poly, g: Poly, u: Poly := OfRegister(c), if f then GENERATOR else {}, if b then {32} else {};
      StepUp(r, u, g, OfRegister(c'), n);
      MultipleFirst(f, q');
      PolyFirst(bits);
      Combine(Shift(r, n + 1), Shift(u, n), Shift(g, n), Shift(OfRegister(c'), n), Shift(PolyOf(rest), 32), Multiple(q'), OfRegister(Feed(c', rest)));
    }
  }

  lemma {:induction false} NothingFed(c: nat)
    ensures Add(Shift(OfRegister(c), 0), Shift(PolyOf([]), 32)) == Add(Multiple([]), OfRegister(c))
  {
    hide OfRegister;
    ShiftIn(OfRegister(c), 0, 0);
    assert Shift(OfRegister(c), 0) == OfRegister(c);
  }

  lemma {:induction false} StepUp(r: Poly, u: Poly, g: Poly, s: Poly, n: nat)
    requires Add(Shift(r, 1), u) == Add(g, s)
    ensures Add(Shift(r, n + 1), Shift(u, n)) == Add(Shift(g, n), Shift(s, n))
  {
    hide Add, Shift;
    ShiftAdd(Shift(r, 1), u, n);
    ShiftAdd(g, s, n);
    ShiftShift(r, 1, n);
  }

  lemma {:induction false} MultipleFirst(f: bool, q: seq<bool>)
    ensures Multiple([f] + q) == Add(Shift(if f then GENERATOR else {}, |q|), Multiple(q))
  {
    assert ([f] + q)[1..] == q;
  }

  lemma {:induction false} PolyFirst(bits: seq<bool>)
    requires bits != []
    ensures Shift(PolyOf(bits), 32) == Add(Shift(if bits[0] then {32} else {}, |bits| - 1), Shift(PolyOf(bits[1..]), 32))
  {
    hide Add, Shift;
    var p: Poly, u: Poly := if bits[0] then {|bits| - 1} else {}, if bits[0] then {32} else {};
    ShiftAdd(p, PolyOf(bits[1..]), 32);
    forall e: nat ensures e in Shift(p, 32) <==> e in Shift(u, |bits| - 1) {
      ShiftIn(p, 32, e);
      ShiftIn(u, |bits| - 1, e);
    }
    assert Shift(p, 32) == Shift(u, |bits| - 1);
  }

  lemma {:induction false} Combine(r: Poly, u: Poly, g: Poly, s: Poly, m: Poly, k: Poly, t: Poly)
    requires Add(r, u) == Add(g, s) && Add(s, m) == Add(k, t)
    ensures Add(r, Add(u, m)) == Add(Add(g, k), t)
  {
    hide Add;
    AddAssociates(r, u, m);
    AddAssociates(g, s, m);
    AddAssociates(g, k, t);
  }

  /** The checksum register after the data is the remainder: the start value in front of the
      message, times the power 32, minus the register is a multiple of the generator. */
  lemma {:induction false} CrcIsRemainder(c: nat, data: seq<byte>) returns (q: seq<bool>)
    requires c < TWO_32
    ensures |q| == 8 * |data|
    ensures Add(Shift(OfRegister(c), 8 * |data|), Shift(PolyOf(BytesBits(data)), 32)) == Add(Multiple(q), OfRegister(CrcFrom(c, data)))
  {
    hide OfRegister, Add, Shift, PolyOf, Multiple, Feed, CrcFrom;
    CrcIsFeed(c, data);
    q := FeedDivides(c, BytesBits(data));
  }

  // ----- the remainder is the only one -----

  lemma {:induction false} MultipleDegree(q: seq<bool>, e: nat)
    ensures e in Multiple(q) ==> e < 32 + |q|
  {
    hide Add, Shift;
    if q != [] {
      MultipleDegree(q[1..], e);
      AddIn(if q[0] then Shift(GENERATOR, |q| - 1) else {}, Multiple(q[1..]), e);
      ShiftIn(GENERATOR, |q| - 1, e);
      if e >= |q| - 1 {
        GeneratorDegree(e - (|q| - 1));
      }
    }
  }

  /** A multiple of the generator of degree below 32 is zero. */
  lemma {:induction false} SmallMultiple(q: seq<bool>)
    requires forall e :: e in Multiple(q) ==> e < 32
    ensures Multiple(q) == {}
  {
    hide Add, Shift;
    if q != [] {
      var g: Poly := if q[0] then Shift(GENERATOR, |q| - 1) else {};
      if q[0] {
        var e := 31 + |q|;
        MultipleDegree(q[1..], e);
        AddIn(g, Multiple(q[1..]), e);
        ShiftIn(GENERATOR, |q| - 1, e);
        GeneratorDegree(32);
        assert e in Multiple(q);
      } else {
        AddNothing(Multiple(q[1..]));
        assert Multiple(q) == Multiple(q[1..]);
        SmallMultiple(q[1..]);
      }
    }
  }

  lemma {:induction false} AddNothing(p: Poly)
    ensures Add({}, p) == p && Add(p, p) == {}
  {
  }

  function Both(q: seq<bool>, q': seq<bool>): (r: seq<bool>)
    requires |q| == |q'|
    ensures |r| == |q|
  {
    seq(|q|, i requires 0 <= i < |q| => q[i] != q'[i])
  }

  lemma {:induction false} MultipleAdds(q: seq<bool>, q': seq<bool>)
    requires |q| == |q'|
    ensures Multiple(Both(q, q')) == Add(Multiple(q), Multiple(q'))
  {
    hide Shift;
    if q != [] {
      MultipleAdds(q[1..], q'[1..]);
      assert Both(q, q')[1..] == Both(q[1..], q'[1..]);
    }
  }

  /** Two numbers below two to the 32 that are both remainders of the same polynomial are equal
      as polynomials. */
  lemma {:induction false} RemainderUnique(q: seq<bool>, q': seq<bool>, c: nat, c': nat)
    requires |q| == |q'| && Add(Multiple(q), OfRegister(c)) == Add(Multiple(q'), OfRegister(c'))
    ensures OfRegister(c) == OfRegister(c')
  {
    hide Add, OfRegister, Multiple;
    var m, m', r, r' := Multiple(q), Multiple(q'), OfRegister(c), OfRegister(c');
    MultipleAdds(q, q');
    Exchange(m, m', r, r');
    forall e | e in Add(m, m') ensures e < 32 {
      AddIn(r, r', e);
      RegisterIn(c, e);
      RegisterIn(c', e);
    }
    SmallMultiple(Both(q, q'));
    SameIfZero(r, r');
  }

  lemma {:induction false} Exchange(m: Poly, m': Poly, r: Poly, r': Poly)
    requires Add(m, r) == Add(m', r')
    ensures Add(m, m') == Add(r, r')
  {
    hide Add;
    forall e: nat ensures e in Add(m, m') <==> e in Add(r, r') {
      AddIn(m, r, e);
      AddIn(m', r', e);
      AddIn(m, m', e);
      AddIn(r, r', e);
    }
  }

  lemma {:induction false} SameIfZero(r: Poly, r': Poly)
    requires Add(r, r') == {}
    ensures r == r'
  {
    hide Add;
    forall e: nat ensures e in r <==> e in r' {
      AddIn(r, r', e);
    }
  }

  /** And so are the numbers. */
  lemma {:induction false} RegisterUnique(c: nat, c': nat, k: nat)
    requires c < Pow2(k) && c' < Pow2(k) && forall i: nat :: i < k ==> Bit(c, i) == Bit(c', i)
    ensures c == c'
    decreases k
  {
    if k > 0 {
      assert Bit(c, 0) == Bit(c', 0);
      forall i: nat | i < k - 1 ensures Bit(c / 2, i) == Bit(c' / 2, i) {
        assert Bit(c, i + 1) == Bit(c', i + 1);
      }
      RegisterUnique(c / 2, c' / 2, k - 1);
    }
  }

  /** So a register that satisfies the equation of CrcIsRemainder is the checksum register. */
  lemma {:induction false} OnlyTheCrc(c: nat, data: seq<byte>, q: seq<bool>, r: nat)
    requires c < TWO_32 && r < TWO_32 && |q| == 8 * |data|
    requires Add(Shift(OfRegister(c), 8 * |data|), Shift(PolyOf(BytesBits(data)), 32)) == Add(Multiple(q), OfRegister(r))
    ensures r == CrcFrom(c, data)
  {
    hide OfRegister, Add, Shift, PolyOf, Multiple, CrcFrom, Bit, Pow2;
    var s := CrcFrom(c, data);
    var q' := CrcIsRemainder(c, data);
    RemainderUnique(q, q', r, s);
    CrcBound(c, data);
    Pow2Table();
    forall i: nat | i < 32 ensures Bit(r, i) == Bit(s, i) {
      RegisterIn(r, 31 - i);
      RegisterIn(s, 31 - i);
    }
    RegisterUnique(r, s, 32);
  }

  // ----- the usual check value -----

  /** The bits of x are those of c. */
  ghost predicate Holds(x: bv32, c: nat)
  {
    && (x & 0x1 != 0 <==> Bit(c, 0)) && (x & 0x2 != 0 <==> Bit(c, 1)) && (x & 0x4 != 0 <==> Bit(c, 2)) && (x & 0x8 != 0 <==> Bit(c, 3))
    && (x & 0x10 != 0 <==> Bit(c, 4)) && (x & 0x20 != 0 <==> Bit(c, 5)) && (x & 0x40 != 0 <==> Bit(c, 6)) && (x & 0x80 != 0 <==> Bit(c, 7))
    && (x & 0x100 != 0 <==> Bit(c, 8)) && (x & 0x200 != 0 <==> Bit(c, 9)) && (x & 0x400 != 0 <==> Bit(c, 10)) && (x & 0x800 != 0 <==> Bit(c, 11))
    && (x & 0x1000 != 0 <==> Bit(c, 12)) && (x & 0x2000 != 0 <==> Bit(c, 13)) && (x & 0x4000 != 0 <==> Bit(c, 14)) && (x & 0x8000 != 0 <==> Bit(c, 15))
    && (x & 0x10000 != 0 <==> Bit(c, 16)) && (x & 0x20000 != 0 <==> Bit(c, 17)) && (x & 0x40000 != 0 <==> Bit(c, 18)) && (x & 0x80000 != 0 <==> Bit(c, 19))
    && (x & 0x100000 != 0 <==> Bit(c, 20)) && (x & 0x200000 != 0 <==> Bit(c, 21)) && (x & 0x400000 != 0 <==> Bit(c, 22)) && (x & 0x800000 != 0 <==> Bit(c, 23))
    && (x & 0x1000000 != 0 <==> Bit(c, 24)) && (x & 0x2000000 != 0 <==> Bit(c, 25)) && (x & 0x4000000 != 0 <==> Bit(c, 26)) && (x & 0x8000000 != 0 <==> Bit(c, 27))
    && (x & 0x10000000 != 0 <==> Bit(c, 28)) && (x & 0x20000000 != 0 <==> Bit(c, 29)) && (x & 0x40000000 != 0 <==> Bit(c, 30)) && (x & 0x80000000 != 0 <==> Bit(c, 31))
  }

  /** Fed on a machine word. */
  function FedWord(x: bv32, b: bool): bv32
  {
    if (x & 1 != 0) != b then (x >> 1) ^ 0xedb88320 else x >> 1
  }

  function FedByte(x: bv32, s: seq<bool>): bv32
    requires |s| == 8
  {
    FedWord(FedWord(FedWord(FedWord(FedWord(FedWord(FedWord(FedWord(x, s[0]), s[1]), s[2]), s[3]), s[4]), s[5]), s[6]), s[7])
  }

  lemma {:induction false} HalfHolds(x: bv32, c: nat)
    requires Holds(x, c) && c < TWO_32
    ensures Holds(x >> 1, c / 2)
  {
    hide Bit;
    Pow2Table();
    BitBelow(c, 32);
    forall k: nat ensures Bit(c, k + 1) == Bit(c / 2, k) {
      BitUnfold(c, k + 1);
    }
    assert Bit(c, 31 + 1) == Bit(c / 2, 31);
  }

  lemma {:induction false} XorHolds(x: bv32, c: nat, y: bv32, d: nat)
    requires Holds(x, c) && Holds(y, d)
    ensures Holds(x ^ y, Xor(c, d))
  {
    hide Bit, Xor;
    forall k: nat ensures Bit(Xor(c, d), k) <==> Bit(c, k) != Bit(d, k) {
      BitXor(c, d, k);
    }
  }

  lemma {:induction false} LowBits(x: nat, n: nat, k: nat)
    requires k < n
    ensures Bit(x, k) == Bit(x % Pow2(n), k)
    decreases k
  {
    HalfMod(x, Pow2(n - 1));
    if k > 0 {
      LowBits(x / 2, n - 1, k - 1);
    }
  }

  function One(b: bool): nat
  {
    if b then 1 else 0
  }

  lemma {:induction false} BitCons(b: bool, r: nat, k: nat)
    ensures Bit(One(b) + 2 * r, 0) == b && Bit(One(b) + 2 * r, k + 1) == Bit(r, k)
  {
    assert (One(b) + 2 * r) / 2 == r;
  }

  lemma {:induction false} FourBits(b0: bool, b1: bool, b2: bool, b3: bool, r: nat)
    ensures var v := One(b0) + 2 * (One(b1) + 2 * (One(b2) + 2 * (One(b3) + 2 * r)));
            && Bit(v, 0) == b0 && Bit(v, 1) == b1 && Bit(v, 2) == b2 && Bit(v, 3) == b3
            && Bit(v, 4) == Bit(r, 0) && Bit(v, 5) == Bit(r, 1) && Bit(v, 6) == Bit(r, 2) && Bit(v, 7) == Bit(r, 3)
  {
    hide Bit, One;
    var v3 := One(b3) + 2 * r;
    var v2 := One(b2) + 2 * v3;
    var v1 := One(b1) + 2 * v2;
    BitCons(b3, r, 0); BitCons(b3, r, 1); BitCons(b3, r, 2); BitCons(b3, r, 3);
    BitCons(b2, v3, 0); BitCons(b2, v3, 1); BitCons(b2, v3, 2); BitCons(b2, v3, 3); BitCons(b2, v3, 4);
    BitCons(b1, v2, 0); BitCons(b1, v2, 1); BitCons(b1, v2, 2); BitCons(b1, v2, 3); BitCons(b1, v2, 4); BitCons(b1, v2, 5);
    BitCons(b0, v1, 0); BitCons(b0, v1, 1); BitCons(b0, v1, 2); BitCons(b0, v1, 3); BitCons(b0, v1, 4); BitCons(b0, v1, 5); BitCons(b0, v1, 6);
  }

  lemma {:induction false} EightBits(v: nat, b0: bool, b1: bool, b2: bool, b3: bool, b4: bool, b5: bool, b6: bool, b7: bool)
    requires v == One(b0) + 2 * (One(b1) + 2 * (One(b2) + 2 * (One(b3) + 2 * (One(b4) + 2 * (One(b5) + 2 * (One(b6) + 2 * (One(b7))))))))
    ensures Bit(v, 0) == b0 && Bit(v, 1) == b1 && Bit(v, 2) == b2 && Bit(v, 3) == b3
    ensures Bit(v, 4) == b4 && Bit(v, 5) == b5 && Bit(v, 6) == b6 && Bit(v, 7) == b7
  {
    hide Bit, One;
    FourBits(b4, b5, b6, b7, 0);
    FourBits(b0, b1, b2, b3, One(b4) + 2 * (One(b5) + 2 * (One(b6) + 2 * (One(b7) + 2 * 0))));
  }

  /** Byte n of a word is v, whose bits are given. */
  lemma {:induction false} ByteIs(c: nat, n: nat, v: nat, b0: bool, b1: bool, b2: bool, b3: bool, b4: bool, b5: bool, b6: bool, b7: bool)
    requires v == One(b0) + 2 * (One(b1) + 2 * (One(b2) + 2 * (One(b3) + 2 * (One(b4) + 2 * (One(b5) + 2 * (One(b6) + 2 * (One(b7)))))))) && Shifted(c, n) % 256 == v
    ensures Bit(c, 8 * n) == b0 && Bit(c, 8 * n + 1) == b1 && Bit(c, 8 * n + 2) == b2 && Bit(c, 8 * n + 3) == b3
    ensures Bit(c, 8 * n + 4) == b4 && Bit(c, 8 * n + 5) == b5 && Bit(c, 8 * n + 6) == b6 && Bit(c, 8 * n + 7) == b7
    decreases n
  {
    hide Bit;
    if n == 0 {
      Pow2Table();
      forall k: nat | k < 8 ensures Bit(c, k) == Bit(v, k) {
        LowBits(c, 8, k);
      }
      EightBits(v, b0, b1, b2, b3, b4, b5, b6, b7);
    } else {
      var m := 8 * (n - 1);
      SkipByte(c, m);
      SkipByte(c, m + 1);
      SkipByte(c, m + 2);
      SkipByte(c, m + 3);
      SkipByte(c, m + 4);
      SkipByte(c, m + 5);
      SkipByte(c, m + 6);
      SkipByte(c, m + 7);
      ByteIs(c / 256, n - 1, v, b0, b1, b2, b3, b4, b5, b6, b7);
    }
  }

  function Shifted(c: nat, n: nat): nat
    decreases n
  {
    if n == 0 then c else Shifted(c / 256, n - 1)
  }

  lemma {:induction false} PolynomialHolds()
    ensures Holds(0xedb88320, POLYNOMIAL)
  {
    hide Bit;
    ByteIs(0xedb88320, 0, 0x20, false, false, false, false, false, true, false, false);
    ByteIs(0xedb88320, 1, 0x83, true, true, false, false, false, false, false, true);
    ByteIs(0xedb88320, 2, 0xb8, false, false, false, true, true, true, false, true);
    ByteIs(0xedb88320, 3, 0xed, true, false, true, true, false, true, true, true);
  }

  lemma {:induction false} FedHolds(x: bv32, c: nat, b: bool)
    requires Holds(x, c) && c < TWO_32
    ensures Holds(FedWord(x, b), Fed(c, b)) && Fed(c, b) < TWO_32
  {
    hide Bit, Xor, Holds;
    FedBound(c, b);
    LowBit(x, c);
    if (c % 2 == 1) != b {
      OddHolds(x, c);
    } else {
      HalfHolds(x, c);
    }
  }

  lemma {:induction false} OddHolds(x: bv32, c: nat)
    requires Holds(x, c) && c < TWO_32
    ensures Holds((x >> 1) ^ 0xedb88320, Xor(c / 2, POLYNOMIAL))
  {
    hide Bit, Xor, Holds;
    HalfHolds(x, c);
    PolynomialHolds();
    XorHolds(x >> 1, c / 2, 0xedb88320, POLYNOMIAL);
  }

  lemma {:induction false} LowBit(x: bv32, c: nat)
    requires Holds(x, c)
    ensures x & 1 != 0 <==> c % 2 == 1
  {
  }

  lemma {:induction false} FeedNext(c: nat, s: seq<bool>, k: nat)
    requires k < |s|
    ensures Feed(c, s[k..]) == Feed(Fed(c, s[k]), s[k + 1..])
  {
    hide Fed;
    assert s[k..][1..] == s[k + 1..];
  }

  /** One byte of the message on a machine word. */
  lemma {:induction false} ByteHolds(x: bv32, c: nat, b: byte, s: seq<bool>)
    requires Holds(x, c) && c < TWO_32 && s == BitsLsb(b, 8)
    ensures var r := CrcBits(Xor(c, b), 8); r < TWO_32 && Holds(FedByte(x, s), r)
  {
    hide Bit, Xor, Holds, Fed, FedWord, BitsLsb, CrcBits, Feed;
    Pow2Table();
    FeedIsSteps(c, b, 8);
    assert s[0..] == s && s[8..] == [];
    var x0, c0 := x, c;
    FeedNext(c0, s, 0);
    FedHolds(x0, c0, s[0]);
    var x1, c1 := FedWord(x0, s[0]), Fed(c0, s[0]);
    FeedNext(c1, s, 1);
    FedHolds(x1, c1, s[1]);
    var x2, c2 := FedWord(x1, s[1]), Fed(c1, s[1]);
    FeedNext(c2, s, 2);
    FedHolds(x2, c2, s[2]);
    var x3, c3 := FedWord(x2, s[2]), Fed(c2, s[2]);
    FeedNext(c3, s, 3);
    FedHolds(x3, c3, s[3]);
    var x4, c4 := FedWord(x3, s[3]), Fed(c3, s[3]);
    FeedNext(c4, s, 4);
    FedHolds(x4, c4, s[4]);
    var x5, c5 := FedWord(x4, s[4]), Fed(c4, s[4]);
    FeedNext(c5, s, 5);
    FedHolds(x5, c5, s[5]);
    var x6, c6 := FedWord(x5, s[5]), Fed(c5, s[5]);
    FeedNext(c6, s, 6);
    FedHolds(x6, c6, s[6]);
    var x7, c7 := FedWord(x6, s[6]), Fed(c6, s[6]);
    FeedNext(c7, s, 7);
    FedHolds(x7, c7, s[7]);
    var x8, c8 := FedWord(x7, s[7]), Fed(c7, s[7]);
    FeedNothing(c8);
  }

  lemma {:induction false} CheckHolds()
    ensures Holds(0x340bc6d9, 0x340bc6d9)
  {
    hide Bit;
    ByteIs(0x340bc6d9, 0, 0xd9, true, false, false, true, true, false, true, true);
    ByteIs(0x340bc6d9, 1, 0xc6, false, true, true, false, false, false, true, true);
    ByteIs(0x340bc6d9, 2, 0xb, true, true, false, true, false, false, false, false);
    ByteIs(0x340bc6d9, 3, 0x34, false, false, true, false, true, true, false, false);
  }

  lemma {:induction false} OnesHold()
    ensures Holds(0xffffffff, 0xffffffff)
  {
    hide Bit;
    ByteIs(0xffffffff, 0, 0xff, true, true, true, true, true, true, true, true);
    ByteIs(0xffffffff, 1, 0xff, true, true, true, true, true, true, true, true);
    ByteIs(0xffffffff, 2, 0xff, true, true, true, true, true, true, true, true);
    ByteIs(0xffffffff, 3, 0xff, true, true, true, true, true, true, true, true);
  }

  lemma {:induction false} SameHolds(x: bv32, c: nat, d: nat)
    requires Holds(x, c) && Holds(x, d) && c < TWO_32 && d < TWO_32
    ensures c == d
  {
    hide Bit, Holds;
    SameBits(x, c, d);
    SameWord(c, d);
  }

  lemma {:induction false} SameWord(c: nat, d: nat)
    requires c < TWO_32 && d < TWO_32
    requires Bit(c, 0) == Bit(d, 0) && Bit(c, 1) == Bit(d, 1) && Bit(c, 2) == Bit(d, 2) && Bit(c, 3) == Bit(d, 3)
    requires Bit(c, 4) == Bit(d, 4) && Bit(c, 5) == Bit(d, 5) && Bit(c, 6) == Bit(d, 6) && Bit(c, 7) == Bit(d, 7)
    requires Bit(c, 8) == Bit(d, 8) && Bit(c, 9) == Bit(d, 9) && Bit(c, 10) == Bit(d, 10) && Bit(c, 11) == Bit(d, 11)
    requires Bit(c, 12) == Bit(d, 12) && Bit(c, 13) == Bit(d, 13) && Bit(c, 14) == Bit(d, 14) && Bit(c, 15) == Bit(d, 15)
    requires Bit(c, 16) == Bit(d, 16) && Bit(c, 17) == Bit(d, 17) && Bit(c, 18) == Bit(d, 18) && Bit(c, 19) == Bit(d, 19)
    requires Bit(c, 20) == Bit(d, 20) && Bit(c, 21) == Bit(d, 21) && Bit(c, 22) == Bit(d, 22) && Bit(c, 23) == Bit(d, 23)
    requires Bit(c, 24) == Bit(d, 24) && Bit(c, 25) == Bit(d, 25) && Bit(c, 26) == Bit(d, 26) && Bit(c, 27) == Bit(d, 27)
    requires Bit(c, 28) == Bit(d, 28) && Bit(c, 29) == Bit(d, 29) && Bit(c, 30) == Bit(d, 30) && Bit(c, 31) == Bit(d, 31)
    ensures c == d
  {
    hide Bit;
    Pow2Table();
    forall k: nat | k < 32 ensures Bit(c, k) == Bit(d, k) {
      if k < 8 {
        assert k == 0 || k == 1 || k == 2 || k == 3 || k == 4 || k == 5 || k == 6 || k == 7;
      } else if k < 16 {
        assert k == 8 || k == 9 || k == 10 || k == 11 || k == 12 || k == 13 || k == 14 || k == 15;
      } else if k < 24 {
        assert k == 16 || k == 17 || k == 18 || k == 19 || k == 20 || k == 21 || k == 22 || k == 23;
      } else {
        assert k == 24 || k == 25 || k == 26 || k == 27 || k == 28 || k == 29 || k == 30 || k == 31;
      }
    }
    RegisterUnique(c, d, 32);
  }

  lemma {:induction false} SameBits(x: bv32, c: nat, d: nat)
    requires Holds(x, c) && Holds(x, d)
    ensures Bit(c, 0) == Bit(d, 0) && Bit(c, 1) == Bit(d, 1) && Bit(c, 2) == Bit(d, 2) && Bit(c, 3) == Bit(d, 3)
    ensures Bit(c, 4) == Bit(d, 4) && Bit(c, 5) == Bit(d, 5) && Bit(c, 6) == Bit(d, 6) && Bit(c, 7) == Bit(d, 7)
    ensures Bit(c, 8) == Bit(d, 8) && Bit(c, 9) == Bit(d, 9) && Bit(c, 10) == Bit(d, 10) && Bit(c, 11) == Bit(d, 11)
    ensures Bit(c, 12) == Bit(d, 12) && Bit(c, 13) == Bit(d, 13) && Bit(c, 14) == Bit(d, 14) && Bit(c, 15) == Bit(d, 15)
    ensures Bit(c, 16) == Bit(d, 16) && Bit(c, 17) == Bit(d, 17) && Bit(c, 18) == Bit(d, 18) && Bit(c, 19) == Bit(d, 19)
    ensures Bit(c, 20) == Bit(d, 20) && Bit(c, 21) == Bit(d, 21) && Bit(c, 22) == Bit(d, 22) && Bit(c, 23) == Bit(d, 23)
    ensures Bit(c, 24) == Bit(d, 24) && Bit(c, 25) == Bit(d, 25) && Bit(c, 26) == Bit(d, 26) && Bit(c, 27) == Bit(d, 27)
    ensures Bit(c, 28) == Bit(d, 28) && Bit(c, 29) == Bit(d, 29) && Bit(c, 30) == Bit(d, 30) && Bit(c, 31) == Bit(d, 31)
  {
    hide Bit;
  }

  /** The register after the digits 1 to n. */
  function Digits(n: nat): (s: seq<byte>)
    requires n <= 9
    ensures |s| == n
  {
    seq(n, i requires 0 <= i < n => 0x31 + i)
  }

  lemma {:induction false} LsbCons(b: bool, r: nat, n: nat)
    ensures BitsLsb(One(b) + 2 * r, n + 1) == [b] + BitsLsb(r, n)
  {
    UnfoldLsb(One(b) + 2 * r, n + 1);
  }

  lemma {:induction false} FourLsb(b0: bool, b1: bool, b2: bool, b3: bool, r: nat, n: nat)
    ensures BitsLsb(One(b0) + 2 * (One(b1) + 2 * (One(b2) + 2 * (One(b3) + 2 * r))), n + 4) == [b0, b1, b2, b3] + BitsLsb(r, n)
  {
    hide BitsLsb, One;
    var v3 := One(b3) + 2 * r;
    var v2 := One(b2) + 2 * v3;
    var v1 := One(b1) + 2 * v2;
    LsbCons(b3, r, n);
    LsbCons(b2, v3, n + 1);
    LsbCons(b1, v2, n + 2);
    LsbCons(b0, v1, n + 3);
  }

  lemma {:induction false} BitsOf(v: nat, b0: bool, b1: bool, b2: bool, b3: bool, b4: bool, b5: bool, b6: bool, b7: bool)
    requires v == One(b0) + 2 * (One(b1) + 2 * (One(b2) + 2 * (One(b3) + 2 * (One(b4) + 2 * (One(b5) + 2 * (One(b6) + 2 * (One(b7))))))))
    ensures BitsLsb(v, 8) == [b0, b1, b2, b3, b4, b5, b6, b7]
  {
    hide BitsLsb, One;
    FourLsb(b4, b5, b6, b7, 0, 0);
    FourLsb(b0, b1, b2, b3, One(b4) + 2 * (One(b5) + 2 * (One(b6) + 2 * (One(b7) + 2 * 0))), 4);
    EmptyBits(0);
    assert [b0, b1, b2, b3] + ([b4, b5, b6, b7] + []) == [b0, b1, b2, b3, b4, b5, b6, b7];
  }

  lemma {:induction false} NextDigit(x: bv32, n: nat, b0: bool, b1: bool, b2: bool, b3: bool, b4: bool, b5: bool, b6: bool, b7: bool, y: bv32)
    requires n < 9 && CrcFrom(0xffffffff, Digits(n)) < TWO_32 && Holds(x, CrcFrom(0xffffffff, Digits(n)))
    requires 0x31 + n == One(b0) + 2 * (One(b1) + 2 * (One(b2) + 2 * (One(b3) + 2 * (One(b4) + 2 * (One(b5) + 2 * (One(b6) + 2 * (One(b7))))))))
    requires y == FedByte(x, [b0, b1, b2, b3, b4, b5, b6, b7])
    ensures CrcFrom(0xffffffff, Digits(n + 1)) < TWO_32 && Holds(y, CrcFrom(0xffffffff, Digits(n + 1)))
  {
    hide Bit, Xor, Holds, CrcBits, CrcFrom, FedByte, BitsLsb;
    BitsOf(0x31 + n, b0, b1, b2, b3, b4, b5, b6, b7);
    ByteHolds(x, CrcFrom(0xffffffff, Digits(n)), 0x31 + n, [b0, b1, b2, b3, b4, b5, b6, b7]);
    CrcSnoc(0xffffffff, Digits(n), 0x31 + n);
    assert Digits(n + 1) == Digits(n) + [0x31 + n];
  }

  /** Machine words only. */
  lemma {:induction false} DigitWords()
    ensures FedByte(0xffffffff, [true, false, false, false, true, true, false, false]) == 0x7c231048
    ensures FedByte(0x7c231048, [false, true, false, false, true, true, false, false]) == 0xb0acbb32
    ensures FedByte(0xb0acbb32, [true, true, false, false, true, true, false, false]) == 0x77b79c2d
    ensures FedByte(0x77b79c2d, [false, false, true, false, true, true, false, false]) == 0x641c1f5c
    ensures FedByte(0x641c1f5c, [true, false, true, false, true, true, false, false]) == 0x340ac5e3
    ensures FedByte(0x340ac5e3, [false, true, true, false, true, true, false, false]) == 0xf68d2c9e
    ensures FedByte(0xf68d2c9e, [true, true, true, false, true, true, false, false]) == 0xaffc9660
    ensures FedByte(0xaffc9660, [false, false, false, true, true, true, false, false]) == 0x651f2550
    ensures FedByte(0x651f2550, [true, false, false, true, true, true, false, false]) == 0x340bc6d9
  {
  }

  lemma {:induction false} FirstDigits()
    ensures CrcFrom(0xffffffff, Digits(4)) < TWO_32 && Holds(0x641c1f5c, CrcFrom(0xffffffff, Digits(4)))
  {
    hide Bit, Xor, Holds, CrcBits, CrcFrom, Fed, FedByte, Digits;
    DigitWords();
    OnesHold();
    NoDigits(0xffffffff);
    NextDigit(0xffffffff, 0, true, false, false, false, true, true, false, false, 0x7c231048);
    NextDigit(0x7c231048, 1, false, true, false, false, true, true, false, false, 0xb0acbb32);
    NextDigit(0xb0acbb32, 2, true, true, false, false, true, true, false, false, 0x77b79c2d);
    NextDigit(0x77b79c2d, 3, false, false, true, false, true, true, false, false, 0x641c1f5c);
  }

  /** The digits 1 to 9 have the checksum 0xcbf43926. */
  lemma {:induction false} CheckValue()
    ensures Digits(9) == [0x31, 0x32, 0x33, 0x34, 0x35, 0x36, 0x37, 0x38, 0x39]
    ensures 0xffff_ffff - CrcFrom(0xffff_ffff, Digits(9)) == 0xcbf43926
  {
    hide Bit, Xor, Holds, CrcBits, CrcFrom, Fed, FedByte, Digits;
    DigitBytes();
    DigitWords();
    FirstDigits();
    NextDigit(0x641c1f5c, 4, true, false, true, false, true, true, false, false, 0x340ac5e3);
    NextDigit(0x340ac5e3, 5, false, true, true, false, true, true, false, false, 0xf68d2c9e);
    NextDigit(0xf68d2c9e, 6, true, true, true, false, true, true, false, false, 0xaffc9660);
    NextDigit(0xaffc9660, 7, false, false, false, true, true, true, false, false, 0x651f2550);
    NextDigit(0x651f2550, 8, true, false, false, true, true, true, false, false, 0x340bc6d9);
    CheckHolds();
    SameHolds(0x340bc6d9, 0x340bc6d9, CrcFrom(0xffffffff, Digits(9)));
  }

  lemma {:induction false} NoDigits(c: nat)
    ensures CrcFrom(c, Digits(0)) == c
  {
  }

  lemma {:induction false} DigitBytes()
    ensures Digits(9) == [0x31, 0x32, 0x33, 0x34, 0x35, 0x36, 0x37, 0x38, 0x39]
  {
  }
}
