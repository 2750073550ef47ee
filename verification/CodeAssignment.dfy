/**
 gen_codes: canonical codes from the length counts, stored bit-reversed.
 */
module CodeAssignment {
  import opened Sums
  import opened Inflate
  import opened Canonical
  import opened LengthCounts
  import BitWriter

  /** The stored code of symbol n, sent from its lowest bit up, is its canonical code sent
      from its highest bit down. */
  ghost predicate CodeSet(fc: seq<nat>, lens: seq<nat>, n: nat)
  {
    n < |fc| && n < |lens| &&
    (lens[n] > 0 ==> fc[n] < Pow2(lens[n]) && BitsLsb(fc[n], lens[n]) == CodeBits(lens, n))
  }

  /** All codes of a length table are set. */
  ghost predicate CodesSet(fc: seq<nat>, lens: seq<nat>)
  {
    |lens| <= |fc| && forall n :: 0 <= n < |lens| ==> CodeSet(fc, lens, n)
  }

  /** The next code of each length, in front of symbol n. */
  ghost predicate NextCodes(next: seq<nat>, lens: seq<nat>, n: nat)
  {
    && |next| == MAX_BITS + 1 && n <= |lens|
    && forall b :: 1 <= b <= MAX_BITS ==> next[b] == FirstCode(lens, b) + Count(lens[..n], b)
  }

  lemma {:induction false} NextCodesStep(next: seq<nat>, lens: seq<nat>, n: nat)
    requires NextCodes(next, lens, n) && n < |lens| && lens[n] <= MAX_BITS
    ensures lens[n] == 0 ==> NextCodes(next, lens, n + 1)
    ensures lens[n] > 0 ==> && next[lens[n]] == CanonicalCode(lens, n)
                            && NextCodes(next[lens[n] := next[lens[n]] + 1], lens, n + 1)
  {
    assert lens[..n + 1] == lens[..n] + [lens[n]];
    forall b | 1 <= b <= MAX_BITS
      ensures Count(lens[..n + 1], b) == Count(lens[..n], b) + (if lens[n] == b then 1 else 0)
    {
      CountSnoc(lens[..n], lens[n], b);
    }
  }

  /** The first loop: the smallest code of every length. */
  method FirstCodes(blCount: array<nat>, ghost lens: seq<nat>) returns (next: array<nat>)
    requires blCount.Length == MAX_BITS + 1 && Counts(blCount[..], lens)
    ensures fresh(next) && NextCodes(next[..], lens, 0)
  {
    hide FirstCode, Counts, NextCodes;
    next := new nat[MAX_BITS + 1](_ => 0);
    var code := 0;
    ghost var bl := blCount[..];
    FirstOfAll(lens);
    for bits := 1 to MAX_BITS + 1
      invariant code == FirstCode(lens, bits - 1)
      invariant forall b :: 1 <= b < bits ==> next[b] == FirstCode(lens, b)
      invariant blCount[..] == bl
    {
      FirstOfNext(bl, lens, bits);
      code := (code + blCount[bits - 1]) * 2;
      next[bits] := code;
    }
    NextAtStart(next[..], lens);
  }

  lemma {:induction false} FirstOfAll(lens: seq<nat>)
    ensures FirstCode(lens, 0) == 0
  {
  }

  lemma {:induction false} FirstOfNext(bl: seq<nat>, lens: seq<nat>, bits: nat)
    requires Counts(bl, lens) && 1 <= bits <= MAX_BITS
    ensures FirstCode(lens, bits) == (FirstCode(lens, bits - 1) + bl[bits - 1]) * 2
  {
  }

  lemma {:induction false} NextAtStart(next: seq<nat>, lens: seq<nat>)
    requires |next| == MAX_BITS + 1 && forall b :: 1 <= b <= MAX_BITS ==> next[b] == FirstCode(lens, b)
    ensures NextCodes(next, lens, 0)
  {
    assert lens[..0] == [];
  }

  /** gen_codes for the symbols 0 .. maxCode with lengths lens. */
  method GenCodes(fc: array<nat>, dl: array<nat>, blCount: array<nat>, maxCode: int, ghost lens: seq<nat>)
    requires fc != dl && fc != blCount
    requires 0 <= maxCode < fc.Length && maxCode < dl.Length && lens == dl[..maxCode + 1] && ValidLengths(lens)
    requires blCount.Length == MAX_BITS + 1 && Counts(blCount[..], lens)
    modifies fc
    ensures dl[..] == old(dl[..]) && blCount[..] == old(blCount[..])
    ensures CodesSet(fc[..], lens)
    ensures forall n :: 0 <= n < fc.Length && (n > maxCode || lens[n] == 0) ==> fc[n] == old(fc[n])
  {
    hide CodeSet, NextCodes, Kraft, CanonicalCode, BitsLsb, BitsMsb, Pow2, Counts;
    var next := FirstCodes(blCount, lens);
    ghost var dl0, bl0 := dl[..], blCount[..];
    NextShape(next[..], lens, 0);
    for n := 0 to maxCode + 1
      invariant dl[..] == dl0 && blCount[..] == bl0 && next.Length == MAX_BITS + 1
      invariant NextCodes(next[..], lens, n)
      invariant forall k :: 0 <= k < n ==> CodeSet(fc[..], lens, k)
      invariant forall k :: 0 <= k < fc.Length && (k >= n || lens[k] == 0) ==> fc[k] == old(fc[k])
    {
      var len := dl[n];
      assert len == lens[n];
      ghost var nx, fs := next[..], fc[..];
      NextCodesStep(nx, lens, n);
      if len == 0 {
        CodeNone(fs, lens, n);
        continue;
      }
      fc[n] := BitWriter.BiReverse(next[len], len);
      next[len] := next[len] + 1;
      assert next[..] == nx[len := nx[len] + 1];
      CodeStored(fs, fc[..], lens, n);
    }
  }

  lemma {:induction false} NextShape(next: seq<nat>, lens: seq<nat>, n: nat)
    requires NextCodes(next, lens, n)
    ensures |next| == MAX_BITS + 1
  {
  }

  lemma {:induction false} CodeNone(fc: seq<nat>, lens: seq<nat>, n: nat)
    requires n < |fc| && n < |lens| && lens[n] == 0
    ensures CodeSet(fc, lens, n)
  {
  }

  lemma {:induction false} CodeStored(fs: seq<nat>, fc: seq<nat>, lens: seq<nat>, n: nat)
    requires |fs| == |fc| && n < |fc| && n < |lens| && lens[n] > 0
    requires fc[n] < Pow2(lens[n]) && BitsLsb(fc[n], lens[n]) == BitsMsb(CanonicalCode(lens, n), lens[n])
    requires forall k :: 0 <= k < n ==> CodeSet(fs, lens, k) && fc[k] == fs[k]
    ensures forall k :: 0 <= k <= n ==> CodeSet(fc, lens, k)
  {
    hide BitsLsb, BitsMsb, CanonicalCode;
  }
}
