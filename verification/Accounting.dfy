/**
 The price of a block: the frequencies counted by ct_tally, multiplied with the bits per
 symbol, give exactly the number of bits that compress_block sends.
 */
module Accounting {
  import opened Sums
  import opened Inflate
  import opened Canonical
  import opened SymbolTables
  import opened TokenCoding
  import opened TreeBuilder
  import opened LengthCounts
  import opened CounterWidth

  // ----- symbol strings and their frequencies -----

  function WeightOf(syms: seq<nat>, c: seq<int>): int
    requires forall i :: 0 <= i < |syms| ==> syms[i] < |c|
  {
    if syms == [] then 0 else WeightOf(syms[..|syms| - 1], c) + c[syms[|syms| - 1]]
  }

  ghost predicate Frequencies(f: seq<nat>, syms: seq<nat>, n: nat)
  {
    && n <= |f| && (forall i :: 0 <= i < |syms| ==> syms[i] < n)
    && forall s :: 0 <= s < n ==> f[s] == Count(syms, s)
  }

  /** Frequency times charge, summed over the alphabet, is the charge summed over the string. */
  lemma {:induction false} FrequencyCost(f: seq<nat>, syms: seq<nat>, c: seq<int>, n: nat)
    requires Frequencies(f, syms, n) && n <= |c|
    ensures Sum(Charges(f, c, n)) == WeightOf(syms, c)
    decreases syms
  {
    if syms == [] {
      SumZero(Charges(f, c, n));
    } else {
      var init, x := syms[..|syms| - 1], syms[|syms| - 1];
      var g: seq<nat> := f[x := f[x] - 1];
      assert syms == init + [x];
      forall s | 0 <= s < n ensures g[s] == Count(init, s) {
        CountSnoc(init, x, s);
      }
      CountSnoc(init, x, x);
      FrequencyCost(g, init, c, n);
      ChargesUpdate(g, c, n, x, f[x], c[x]);
      assert g[x := f[x]] == f;
      Distribute(g[x], 1, c[x]);
    }
  }

  lemma {:induction false} FrequencyStep(f: seq<nat>, syms: seq<nat>, n: nat, x: nat)
    requires Frequencies(f, syms, n) && x < n
    ensures Frequencies(f[x := f[x] + 1], syms + [x], n)
  {
    forall s | 0 <= s < n ensures f[x := f[x] + 1][s] == Count(syms + [x], s) {
      CountSnoc(syms, x, s);
    }
  }

  lemma {:induction false} WeightSnoc(syms: seq<nat>, x: nat, c: seq<int>)
    requires (forall i :: 0 <= i < |syms| ==> syms[i] < |c|) && x < |c|
    ensures WeightOf(syms + [x], c) == WeightOf(syms, c) + c[x]
  {
    assert (syms + [x])[..|syms|] == syms;
  }

  // ----- the symbols of a block -----

  /** End-of-block and the literal and length symbols of the tokens. */
  ghost function LitSymbols(m: Maps, ts: seq<Token>): (s: seq<nat>)
    requires ValidMaps(m) && ValidTokens(ts)
    ensures forall i :: 0 <= i < |s| ==> s[i] < 286
  {
    if ts == [] then [END_OF_BLOCK] else LitSymbols(m, ts[..|ts| - 1]) + [LitSymbol(m, ts[|ts| - 1])]
  }

  /** The distance symbols of the matches. */
  ghost function DistSymbols(m: Maps, ts: seq<Token>): (s: seq<nat>)
    requires ValidMaps(m) && ValidTokens(ts)
    ensures forall i :: 0 <= i < |s| ==> s[i] < D_CODES
  {
    if ts == [] then []
    else
      DistSymbols(m, ts[..|ts| - 1]) + (if ts[|ts| - 1].Match? then [DistCode(m, ts[|ts| - 1].dist)] else [])
  }

  /** c charges every symbol that has a code its length and its extra bits. */
  ghost predicate LitCharges(c: seq<int>, ll: seq<nat>)
  {
    |c| == 286 && forall s :: 0 <= s < 286 && s < |ll| && ll[s] > 0 ==> c[s] == ll[s] + (if s < 257 then 0 else LENGTH_EXTRA[s - 257])
  }

  ghost predicate DistCharges(c: seq<int>, dd: seq<nat>)
  {
    |c| == D_CODES && forall s :: 0 <= s < D_CODES && s < |dd| && dd[s] > 0 ==> c[s] == dd[s] + DIST_EXTRA[s]
  }

  lemma {:induction false} TokenPrice(m: Maps, ll: seq<nat>, dd: seq<nat>, t: Token, cl: seq<int>, cd: seq<int>)
    requires ValidMaps(m) && ValidToken(t) && Coded(m, ll, dd, t) && LitCharges(cl, ll) && DistCharges(cd, dd)
    ensures |TokenBits(m, ll, dd, t)| == cl[LitSymbol(m, t)] + (if t.Match? then cd[DistCode(m, t.dist)] else 0)
  {
    hide ValidMaps, BitsLsb, CodeBits, LengthCode, DistCode, LengthExtra, DistExtra, LitCharges, DistCharges;
    ChargesShape(cl, ll, cd, dd);
    LitCharge(cl, ll, LitSymbol(m, t));
    if t.Match? {
      DistCharge(cd, dd, DistCode(m, t.dist));
    }
  }

  lemma {:induction false} LitCharge(c: seq<int>, ll: seq<nat>, s: nat)
    requires LitCharges(c, ll) && s < 286 && s < |ll| && ll[s] > 0
    ensures |c| == 286 && c[s] == ll[s] + (if s < 257 then 0 else LENGTH_EXTRA[s - 257])
  {
  }

  lemma {:induction false} DistCharge(c: seq<int>, dd: seq<nat>, s: nat)
    requires DistCharges(c, dd) && s < D_CODES && s < |dd| && dd[s] > 0
    ensures |c| == D_CODES && c[s] == dd[s] + DIST_EXTRA[s]
  {
  }

  /** The bits of a block body are the charges of its symbols. */
  lemma {:induction false} BodyPrice(m: Maps, ll: seq<nat>, dd: seq<nat>, ts: seq<Token>, cl: seq<int>, cd: seq<int>)
    requires AllCoded(m, ll, dd, ts) && LitCharges(cl, ll) && DistCharges(cd, dd)
    requires |ll| > END_OF_BLOCK && ll[END_OF_BLOCK] > 0
    ensures |TokensBits(m, ll, dd, ts)| + ll[END_OF_BLOCK] == WeightOf(LitSymbols(m, ts), cl) + WeightOf(DistSymbols(m, ts), cd)
  {
    hide ValidMaps, TokenBits, Coded, LitCharges, DistCharges, WeightOf;
    ChargesShape(cl, ll, cd, dd);
    if ts == [] {
      assert [] + [END_OF_BLOCK] == [END_OF_BLOCK];
      WeightNothing(cl);
      WeightNothing(cd);
      WeightSnoc([], END_OF_BLOCK, cl);
    } else {
      var init, t := ts[..|ts| - 1], ts[|ts| - 1];
      BodyPrice(m, ll, dd, init, cl, cd);
      TokenPrice(m, ll, dd, t, cl, cd);
      WeightSnoc(LitSymbols(m, init), LitSymbol(m, t), cl);
      if t.Match? {
        WeightSnoc(DistSymbols(m, init), DistCode(m, t.dist), cd);
      } else {
        assert DistSymbols(m, init) + [] == DistSymbols(m, init);
      }
    }
  }

  lemma {:induction false} ChargesShape(cl: seq<int>, ll: seq<nat>, cd: seq<int>, dd: seq<nat>)
    requires LitCharges(cl, ll) && DistCharges(cd, dd)
    ensures |cl| == 286 && |cd| == D_CODES
    ensures |ll| > END_OF_BLOCK && ll[END_OF_BLOCK] > 0 ==> cl[END_OF_BLOCK] == ll[END_OF_BLOCK]
  {
  }

  lemma {:induction false} WeightNothing(c: seq<int>)
    ensures WeightOf([], c) == 0
  {
  }

  lemma {:induction false} CountAtMost(syms: seq<nat>, s: nat)
    ensures Count(syms, s) <= |syms|
  {
    if syms != [] {
      CountAtMost(syms[..|syms| - 1], s);
    }
  }

  lemma {:induction false} WeightOfOnes(syms: seq<nat>, n: nat)
    requires forall i :: 0 <= i < |syms| ==> syms[i] < n
    ensures WeightOf(syms, Ones(n)) == |syms|
  {
    if syms != [] {
      WeightOfOnes(syms[..|syms| - 1], n);
    }
  }

  /** The frequencies of a string add up to its length. */
  lemma {:induction false} TotalOfString(f: seq<nat>, syms: seq<nat>, n: nat)
    requires Frequencies(f, syms, n)
    ensures n <= |f| && Total(f, n) == |syms|
  {
    hide Total;
    FrequencyCost(f, syms, Ones(n), n);
    WeightOfOnes(syms, n);
    TotalIsCharges(f, n);
  }

  /** A symbol that occurs has a positive frequency. */
  lemma {:induction false} Occurs(f: seq<nat>, syms: seq<nat>, n: nat, i: nat)
    requires Frequencies(f, syms, n) && i < |syms|
    ensures f[syms[i]] > 0
  {
    CountMember(syms, i);
  }
}
