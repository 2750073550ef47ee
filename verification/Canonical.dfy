/**
 Canonical Huffman codes (section 3.2.2 of RFC 1951): for every set of code lengths whose
 Kraft sum does not exceed one, the codes fit their lengths, no code is a prefix of
 another, and the bit-by-bit reader recovers every symbol.
 */
module Canonical {
  import opened Sums
  import opened Inflate

  /** The Kraft weight of all codes shorter than b. */
  function KraftBelow(lens: seq<nat>, b: nat): nat
  {
    if lens == [] then 0
    else KraftBelow(lens[..|lens| - 1], b) + (if lens[|lens| - 1] < b then Weight(lens[|lens| - 1]) else 0)
  }

  lemma {:induction false} KraftBelowStep(lens: seq<nat>, b: nat)
    ensures KraftBelow(lens, b + 1) == KraftBelow(lens, b) + Count(lens, b) * Weight(b)
  {
    hide Weight;
    if lens != [] {
      var init := lens[..|lens| - 1];
      KraftBelowStep(init, b);
      Distribute(Count(init, b), 1, Weight(b));
    }
  }

  lemma {:induction false} KraftBelowMonotone(lens: seq<nat>, a: nat, b: nat)
    requires a <= b
    ensures KraftBelow(lens, a) <= KraftBelow(lens, b) <= Kraft(lens)
  {
    if lens != [] {
      KraftBelowMonotone(lens[..|lens| - 1], a, b);
    }
  }

  lemma {:induction false} KraftBelowOne(lens: seq<nat>)
    ensures KraftBelow(lens, 1) == 0
  {
    if lens != [] {
      KraftBelowOne(lens[..|lens| - 1]);
    }
  }

  lemma {:induction false} DoubleSplit(f: nat, c: nat, w: nat)
    ensures (2 * (f + c)) * w == f * (2 * w) + c * (2 * w)
  {
    Distribute(f, c, 2 * w);
  }

  /** Left-justified, the first code of length b is the weight of all shorter codes. */
  lemma {:induction false} FirstCodeIsKraft(lens: seq<nat>, b: nat)
    requires 1 <= b <= MAX_BITS
    ensures FirstCode(lens, b) * Weight(b) == KraftBelow(lens, b)
  {
    if b == 1 {
      KraftBelowOne(lens);
    } else {
      FirstCodeIsKraft(lens, b - 1);
      KraftBelowStep(lens, b - 1);
      var f, c, w := FirstCode(lens, b - 1), Count(lens, b - 1), Weight(b);
      assert Weight(b - 1) == 2 * w;
      DoubleSplit(f, c, w);
    }
  }

  lemma {:induction false} CountGrows(lens: seq<nat>, m: nat, n: nat)
    requires m < n <= |lens|
    ensures Count(lens[..m], lens[m]) + 1 <= Count(lens[..n], lens[m])
    decreases n
  {
    if n == m + 1 {
      assert lens[..n][..m] == lens[..m];
    } else {
      CountGrows(lens, m, n - 1);
      assert lens[..n][..n - 1] == lens[..n - 1];
    }
  }

  /** The left-justified code space [code, code + 1) of a symbol ends inside the weight of
      the codes up to its length. */
  lemma {:induction false} CodeSpace(lens: seq<nat>, n: nat)
    requires n < |lens| && 1 <= lens[n] <= MAX_BITS
    ensures KraftBelow(lens, lens[n]) <= CanonicalCode(lens, n) * Weight(lens[n])
    ensures (CanonicalCode(lens, n) + 1) * Weight(lens[n]) <= KraftBelow(lens, lens[n] + 1)
  {
    var l, w := lens[n], Weight(lens[n]);
    var f, r, c := FirstCode(lens, l), Count(lens[..n], l), Count(lens, l);
    FirstCodeIsKraft(lens, l);
    KraftBelowStep(lens, l);
    CountGrows(lens, n, |lens|);
    assert lens[..|lens|] == lens;
    Distribute(f, r + 1, w);
    MulMonotone(f, f + r, w);
    MulMonotone(r + 1, c, w);
  }

  /** Every code fits the length it was given. */
  lemma {:induction false} CodeFits(lens: seq<nat>, n: nat)
    requires n < |lens| && 1 <= lens[n] <= MAX_BITS
    requires Kraft(lens) <= Pow2(MAX_BITS)
    ensures CanonicalCode(lens, n) < Pow2(lens[n])
  {
    hide CanonicalCode, Kraft, KraftBelow;
    CodeSpace(lens, n);
    KraftBelowMonotone(lens, lens[n], lens[n] + 1);
    Pow2Add(lens[n], MAX_BITS - lens[n]);
    var c, w, p := CanonicalCode(lens, n), Weight(lens[n]), Pow2(lens[n]);
    MulCancel(c + 1, p, w);
  }

  lemma {:induction false} HalfBounds(s: nat, p: nat)
    ensures (s / 2) * (2 * p) <= s * p && (s + 1) * p <= (s / 2 + 1) * (2 * p)
  {
    var h := s / 2;
    assert h * (2 * p) == (2 * h) * p && (h + 1) * (2 * p) == (2 * h + 2) * p;
    MulMonotone(2 * h, s, p);
    MulMonotone(s + 1, 2 * h + 2, p);
  }

  lemma {:induction false} ShiftBounds(c: nat, k: nat)
    ensures ShiftRight(c, k) * Pow2(k) <= c < (ShiftRight(c, k) + 1) * Pow2(k)
  {
    if k > 0 {
      ShiftBounds(c, k - 1);
      HalfBounds(ShiftRight(c, k - 1), Pow2(k - 1));
    }
  }

  /** No code is a prefix of another: the top bits of a longer or equal code are never the
      code of a different symbol. */
  lemma {:induction false} PrefixFree(lens: seq<nat>, m: nat, n: nat)
    requires m < |lens| && n < |lens| && m != n
    requires 1 <= lens[m] <= lens[n] <= MAX_BITS
    ensures ShiftRight(CanonicalCode(lens, n), lens[n] - lens[m]) != CanonicalCode(lens, m)
  {
    if lens[m] == lens[n] {
      if m < n {
        CountGrows(lens, m, n);
      } else {
        CountGrows(lens, n, m);
      }
    } else {
      var k := lens[n] - lens[m];
      var a, b := CanonicalCode(lens, m), CanonicalCode(lens, n);
      CodeSpace(lens, m);
      CodeSpace(lens, n);
      KraftBelowMonotone(lens, lens[m] + 1, lens[n]);
      Pow2Add(k, MAX_BITS - lens[n]);
      assert Weight(lens[m]) == Pow2(k) * Weight(lens[n]);
      ShiftBounds(b, k);
      FarApart(a, b, Pow2(k), Weight(lens[n]));
    }
  }

  lemma {:induction false} FarApart(a: nat, b: nat, p: nat, w: nat)
    requires w >= 1 && (a + 1) * (p * w) <= b * w
    ensures (a + 1) * p <= b
  {
    assert (a + 1) * (p * w) == ((a + 1) * p) * w;
    MulCancel((a + 1) * p, b, w);
  }

  // ----- reading a code back -----

  /** The string w stands in bits at pos. */
  ghost predicate At(bits: seq<bool>, pos: nat, w: seq<bool>)
  {
    pos + |w| <= |bits| && bits[pos..pos + |w|] == w
  }

  lemma {:induction false} AtSplit(bits: seq<bool>, pos: nat, v: seq<bool>, w: seq<bool>)
    requires At(bits, pos, v + w)
    ensures At(bits, pos, v) && At(bits, pos + |v|, w)
  {
    var x := bits[pos..pos + |v + w|];
    assert bits[pos..pos + |v|] == x[..|v|] == v;
    assert bits[pos + |v|..pos + |v| + |w|] == x[|v|..] == w;
  }

  lemma {:induction false} ReadBitsAt(bits: seq<bool>, pos: nat, v: nat, n: nat)
    requires v < Pow2(n) && At(bits, pos, BitsLsb(v, n))
    ensures ReadBits(bits, pos, n) == Some(v)
  {
    ValueOfBitsLsb(v, n);
  }

  /** The code of a symbol as it appears in the stream. */
  function CodeBits(lens: seq<nat>, n: nat): (b: seq<bool>)
    requires n < |lens|
    ensures |b| == lens[n]
  {
    BitsMsb(CanonicalCode(lens, n), lens[n])
  }

  lemma {:induction false} BitOfMsb(c: nat, len: nat, l: nat)
    requires l < len
    ensures BitsMsb(c, len)[l] == (ShiftRight(c, len - 1 - l) % 2 == 1)
  {
    if l < len - 1 {
      BitOfMsb(c / 2, len - 1, l);
      ShiftShift(c, len - 1 - l);
    }
  }

  lemma {:induction false} FindSymbolFinds(lens: seq<nat>, n: nat, i: nat)
    requires i <= n < |lens|
    ensures FindSymbol(lens, lens[n], CanonicalCode(lens, n), i).Some?
    decreases n - i
  {
    if i < n {
      FindSymbolFinds(lens, n, i + 1);
    }
  }

  lemma {:induction false} DecodeFromCode(lens: seq<nat>, n: nat, bits: seq<bool>, pos: nat, l: nat)
    requires n < |lens| && 0 <= l < lens[n] <= MAX_BITS
    requires At(bits, pos, CodeBits(lens, n))
    ensures DecodeFrom(lens, bits, pos, l, ShiftRight(CanonicalCode(lens, n), lens[n] - l)) == Some((n, pos + lens[n]))
    decreases lens[n] - l
  {
    hide CanonicalCode, FindSymbol, BitsMsb;
    var c, len := CanonicalCode(lens, n), lens[n];
    var v := ShiftRight(c, len - l);
    BitOfMsb(c, len, l);
    assert bits[pos + l] == CodeBits(lens, n)[l];
    var v' := 2 * v + (if bits[pos + l] then 1 else 0);
    assert v' == ShiftRight(c, len - l - 1);
    var f := FindSymbol(lens, l + 1, v', 0);
    if f.Some? && f.value != n {
      PrefixFree(lens, f.value, n);
    }
    if l + 1 == len {
      FindSymbolFinds(lens, n, 0);
    } else {
      DecodeFromCode(lens, n, bits, pos, l + 1);
    }
  }

  lemma {:induction false} ShiftOut(c: nat, k: nat)
    requires c < Pow2(k)
    ensures ShiftRight(c, k) == 0
  {
    ShiftBounds(c, k);
    if ShiftRight(c, k) >= 1 {
      MulMonotone(1, ShiftRight(c, k), Pow2(k));
    }
  }

  /** Where the code of a symbol stands, the reader finds that symbol and consumes exactly
      its code. */
  lemma {:induction false} DecodeCode(lens: seq<nat>, n: nat, bits: seq<bool>, pos: nat)
    requires n < |lens| && 1 <= lens[n] <= MAX_BITS
    requires Kraft(lens) <= Pow2(MAX_BITS)
    requires At(bits, pos, CodeBits(lens, n))
    ensures DecodeSymbol(lens, bits, pos) == Some((n, pos + lens[n]))
  {
    hide CanonicalCode, Kraft, DecodeFrom, CodeBits, Pow2;
    CodeFits(lens, n);
    ShiftOut(CanonicalCode(lens, n), lens[n]);
    DecodeFromCode(lens, n, bits, pos, 0);
  }
}
