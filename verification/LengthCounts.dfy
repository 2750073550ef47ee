/**
 Code lengths and how often each occurs: the table bl_count, its Kraft sum, and the
 repair loop of gen_bitlen on it.
 */
module LengthCounts {
  import opened Sums
  import opened Inflate

  // ----- counting -----

  lemma {:induction false} CountSnoc(lens: seq<nat>, l: nat, b: nat)
    ensures Count(lens + [l], b) == Count(lens, b) + (if l == b then 1 else 0)
  {
    assert (lens + [l])[..|lens|] == lens;
  }

  /** Changing one length moves one count. */
  lemma {:induction false} CountUpdate(lens: seq<nat>, x: nat, v: nat, b: nat)
    requires x < |lens|
    ensures Count(lens[x := v], b) == Count(lens, b) - (if lens[x] == b then 1 else 0) + (if v == b then 1 else 0)
  {
    var init, last := lens[..|lens| - 1], lens[|lens| - 1];
    if x == |lens| - 1 {
      assert lens[x := v] == init + [v];
      CountSnoc(init, v, b);
    } else {
      CountUpdate(init, x, v, b);
      assert lens[x := v] == init[x := v] + [last];
      CountSnoc(init[x := v], last, b);
    }
  }

  lemma {:induction false} CountZeros(lens: seq<nat>, b: nat)
    requires b > 0 && forall x :: 0 <= x < |lens| ==> lens[x] == 0
    ensures Count(lens, b) == 0
  {
    if lens != [] {
      CountZeros(lens[..|lens| - 1], b);
    }
  }

  lemma {:induction false} CountPositive(lens: seq<nat>, b: nat) returns (x: nat)
    requires Count(lens, b) > 0
    ensures x < |lens| && lens[x] == b
  {
    if lens[|lens| - 1] == b {
      x := |lens| - 1;
    } else {
      x := CountPositive(lens[..|lens| - 1], b);
    }
  }

  lemma {:induction false} CountNone(lens: seq<nat>, b: nat)
    requires forall x :: 0 <= x < |lens| ==> lens[x] != b
    ensures Count(lens, b) == 0
  {
    if lens != [] {
      CountNone(lens[..|lens| - 1], b);
    }
  }

  lemma {:induction false} CountMember(lens: seq<nat>, x: nat)
    requires x < |lens|
    ensures Count(lens, lens[x]) > 0
  {
    if x < |lens| - 1 {
      CountMember(lens[..|lens| - 1], x);
    }
  }

  lemma {:induction false} CountIsSum(lens: seq<nat>, b: nat, t: seq<int>)
    requires |t| == |lens| && forall x :: 0 <= x < |lens| ==> t[x] == (if lens[x] == b then 1 else 0)
    ensures Count(lens, b) == Sum(t)
  {
    if lens != [] {
      CountIsSum(lens[..|lens| - 1], b, t[..|t| - 1]);
    }
  }

  // ----- Kraft sums in units of 2^-limit -----

  function LimitWeight(l: nat, limit: nat): nat
  {
    if 1 <= l <= limit then Pow2(limit - l) else 0
  }

  function LimitTerms(lens: seq<nat>, limit: nat): (t: seq<int>)
    ensures |t| == |lens|
  {
    seq(|lens|, x requires 0 <= x < |lens| => LimitWeight(lens[x], limit))
  }

  /** With all lengths at most limit <= 15, the sum in units of 2^-limit is the sum in
      units of 2^-15, scaled. */
  lemma {:induction false} LimitKraftIsKraft(lens: seq<nat>, limit: nat)
    requires limit <= MAX_BITS && forall x :: 0 <= x < |lens| ==> lens[x] <= limit
    ensures Kraft(lens) == Sum(LimitTerms(lens, limit)) * Pow2(MAX_BITS - limit)
  {
    if lens != [] {
      var init, l := lens[..|lens| - 1], lens[|lens| - 1];
      LimitKraftIsKraft(init, limit);
      assert LimitTerms(lens, limit)[..|init|] == LimitTerms(init, limit);
      var p := Pow2(MAX_BITS - limit);
      assert Weight(l) == LimitWeight(l, limit) * p by {
        if l >= 1 {
          Pow2Add(limit - l, MAX_BITS - limit);
        }
      }
      Distribute(Sum(LimitTerms(init, limit)), LimitWeight(l, limit), p);
    }
  }

  /** The same sum taken over a table of counts. */
  function CountTerms(bl: seq<nat>, limit: nat): (t: seq<int>)
    ensures |t| == |bl|
  {
    seq(|bl|, b requires 0 <= b < |bl| => bl[b] * LimitWeight(b, limit))
  }

  /** How many symbols have codes. */
  function TotalTerms(bl: seq<nat>, limit: nat): (t: seq<int>)
    ensures |t| == |bl|
  {
    seq(|bl|, b requires 0 <= b < |bl| => if 1 <= b <= limit then bl[b] else 0)
  }

  lemma {:induction false} CountTermsUpdate(bl: seq<nat>, limit: nat, b: nat, v: nat)
    requires b < |bl|
    ensures Sum(CountTerms(bl[b := v], limit))
            == Sum(CountTerms(bl, limit)) - bl[b] * LimitWeight(b, limit) + v * LimitWeight(b, limit)
    ensures 1 <= b <= limit ==> Sum(TotalTerms(bl[b := v], limit)) == Sum(TotalTerms(bl, limit)) - bl[b] + v
  {
    SumUpdate(CountTerms(bl, limit), b, v * LimitWeight(b, limit));
    assert CountTerms(bl[b := v], limit) == CountTerms(bl, limit)[b := v * LimitWeight(b, limit)];
    if 1 <= b <= limit {
      SumUpdate(TotalTerms(bl, limit), b, v);
      assert TotalTerms(bl[b := v], limit) == TotalTerms(bl, limit)[b := v];
    }
  }

  /** bl counts the lengths from 1 on. */
  ghost predicate Counts(bl: seq<nat>, lens: seq<nat>)
  {
    |bl| == MAX_BITS + 1 && bl[0] == 0 && forall b :: 1 <= b <= MAX_BITS ==> bl[b] == Count(lens, b)
  }

  /** Giving a length to a symbol that had none. */
  lemma {:induction false} CountsStep(bl: seq<nat>, lens: seq<nat>, x: nat, b: nat)
    requires Counts(bl, lens) && x < |lens| && lens[x] == 0 && 1 <= b <= MAX_BITS
    ensures Counts(bl[b := bl[b] + 1], lens[x := b])
  {
    var bl' := bl[b := bl[b] + 1];
    forall c | 1 <= c <= MAX_BITS ensures bl'[c] == Count(lens[x := b], c) {
      CountUpdate(lens, x, b, c);
    }
  }

  function CountTable(lens: seq<nat>): (bl: seq<nat>)
    ensures |bl| == MAX_BITS + 1
  {
    seq(MAX_BITS + 1, b requires 0 <= b => if b == 0 then 0 else Count(lens, b))
  }

  lemma {:induction false} CountsAreTable(bl: seq<nat>, lens: seq<nat>)
    requires Counts(bl, lens)
    ensures bl == CountTable(lens)
  {
  }

  /** The Kraft sum over the symbols is the Kraft sum over the counts. */
  lemma {:induction false} KraftOfTable(lens: seq<nat>, limit: nat)
    requires limit <= MAX_BITS && forall x :: 0 <= x < |lens| ==> lens[x] <= limit
    ensures Sum(LimitTerms(lens, limit)) == Sum(CountTerms(CountTable(lens), limit))
  {
    var bl := CountTable(lens);
    if lens == [] {
      SumZero(CountTerms(bl, limit));
    } else {
      var init, l := lens[..|lens| - 1], lens[|lens| - 1];
      KraftOfTable(init, limit);
      assert LimitTerms(lens, limit)[..|init|] == LimitTerms(init, limit);
      var bi := CountTable(init);
      if l == 0 {
        assert bl == bi;
      } else {
        CountTermsUpdate(bi, limit, l, bi[l] + 1);
        assert bl == bi[l := bi[l] + 1];
        Distribute(bi[l], 1, LimitWeight(l, limit));
      }
    }
  }

  lemma {:induction false} TotalOfTable(lens: seq<nat>, limit: nat)
    requires limit <= MAX_BITS && forall x :: 0 <= x < |lens| ==> lens[x] <= limit
    ensures Sum(TotalTerms(CountTable(lens), limit)) <= |lens|
  {
    var bl := CountTable(lens);
    if lens == [] {
      SumZero(TotalTerms(bl, limit));
    } else {
      var init, l := lens[..|lens| - 1], lens[|lens| - 1];
      TotalOfTable(init, limit);
      var bi := CountTable(init);
      if l == 0 {
        assert bl == bi;
      } else {
        CountTermsUpdate(bi, limit, l, bi[l] + 1);
        assert bl == bi[l := bi[l] + 1];
      }
    }
  }

  // ----- the repair loop -----

  /** n codes whose Kraft sum exceeds one by e units of 2^-limit, with more than e of them at
      the limit. */
  ghost predicate Excess(bl: seq<nat>, limit: nat, n: nat, e: nat)
  {
    && |bl| == MAX_BITS + 1 && 2 <= limit <= MAX_BITS
    && bl[0] == 0 && (forall b :: limit < b <= MAX_BITS ==> bl[b] == 0)
    && Sum(CountTerms(bl, limit)) == Pow2(limit) + e
    && Sum(TotalTerms(bl, limit)) == n
    && bl[limit] >= e + 1
  }

  /** Moving one code of length b down and taking one code from the limit as its brother
      lowers the excess by exactly one. */
  lemma {:induction false} RepairStep(bl: seq<nat>, limit: nat, n: nat, e: nat, b: nat)
    requires Excess(bl, limit, n, e) && e > 0 && 1 <= b < limit && bl[b] > 0
    ensures var bl1 := bl[b := bl[b] - 1];
            var bl2 := bl1[b + 1 := bl1[b + 1] + 2];
            bl2[limit] >= 1 && Excess(bl2[limit := bl2[limit] - 1], limit, n, e - 1)
  {
    hide CountTerms, TotalTerms;
    var bl1: seq<nat> := bl[b := bl[b] - 1];
    var bl2: seq<nat> := bl1[b + 1 := bl1[b + 1] + 2];
    CountTermsUpdate(bl, limit, b, bl[b] - 1);
    CountTermsUpdate(bl1, limit, b + 1, bl1[b + 1] + 2);
    CountTermsUpdate(bl2, limit, limit, bl2[limit] - 1);
    var w := LimitWeight(b + 1, limit);
    assert LimitWeight(b, limit) == 2 * w && LimitWeight(limit, limit) == 1;
    Distribute(bl[b], -1, 2 * w);
    Distribute(bl1[b + 1], 2, w);
  }

  /** b is the longest length below the limit that is in use. */
  ghost predicate Deepest(bl: seq<nat>, b: nat, limit: nat)
  {
    1 <= b < limit < |bl| && bl[b] > 0 && forall c :: b < c < limit ==> bl[c] == 0
  }

  /** One code of length b has become two that are one bit longer, one of which was a code at
      the limit before. */
  ghost predicate Moved(bl: seq<nat>, b: nat, limit: nat, next: seq<nat>)
  {
    && 1 <= b < limit < |bl| == |next|
    && forall c :: 0 <= c < |bl| ==>
         next[c] + (if c == b then 1 else 0) + (if c == limit then 1 else 0) == bl[c] + (if c == b + 1 then 2 else 0)
  }

  /** r are the counts after e such repairs. */
  ghost predicate Repairs(bl: seq<nat>, limit: nat, e: nat, r: seq<nat>)
    decreases e
  {
    if e == 0 then r == bl
    else exists b, next :: Deepest(bl, b, limit) && Moved(bl, b, limit, next) && Repairs(next, limit, e - 1, r)
  }

  lemma {:induction false} RepairsStep(bl: seq<nat>, b: nat, limit: nat, next: seq<nat>, e: nat)
    requires e > 0 && Deepest(bl, b, limit) && Moved(bl, b, limit, next)
    ensures forall r :: Repairs(next, limit, e - 1, r) ==> Repairs(bl, limit, e, r)
  {
    hide Deepest, Moved;
  }

  lemma {:induction false} NoRepairs(bl: seq<nat>, limit: nat)
    ensures Repairs(bl, limit, 0, bl)
  {
  }

  /** While there is an excess, some code is shorter than the limit: that many codes at the
      limit alone could not exceed one. */
  lemma {:induction false} ShorterExists(bl: seq<nat>, limit: nat, n: nat, e: nat) returns (b: nat)
    requires Excess(bl, limit, n, e) && e > 0 && n <= Pow2(limit)
    ensures 1 <= b < limit && bl[b] > 0
  {
    if forall c :: 1 <= c < limit ==> bl[c] == 0 {
      AllAtLimit(bl, limit);
    }
    b :| 1 <= b < limit && bl[b] > 0;
  }

  lemma {:induction false} AllAtLimit(bl: seq<nat>, limit: nat)
    requires limit < |bl| && forall c :: 1 <= c < limit ==> bl[c] == 0
    ensures Sum(CountTerms(bl, limit)) == Sum(TotalTerms(bl, limit))
  {
    assert CountTerms(bl, limit) == TotalTerms(bl, limit);
  }
}
