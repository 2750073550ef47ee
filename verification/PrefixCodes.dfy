/**
 Arbitrary binary prefix codes: Kraft's inequality, and the optimality of the
 compressor's code lengths against every prefix code on the same symbols.
 */
module PrefixCodes {
  import opened Sums
  import opened MergeOrder
  import opened Huffman

  type Word = seq<bool>

  predicate Comparable(u: Word, v: Word)
  {
    u <= v || v <= u
  }

  /** No word of the list is a prefix of another. */
  ghost predicate PrefixFreeList(ws: seq<Word>)
  {
    ws == [] ||
    (var init, last := ws[..|ws| - 1], ws[|ws| - 1];
     PrefixFreeList(init) && forall v :: v in init ==> !Comparable(v, last))
  }

  function KraftList(ws: seq<Word>, m: nat): nat
  {
    if ws == [] then 0
    else KraftList(ws[..|ws| - 1], m) + (var l := |ws[|ws| - 1]|; if l <= m then Pow2(m - l) else 0)
  }

  /** The words that start with the given bit, without it. */
  function Tails(ws: seq<Word>, b: bool): seq<Word>
  {
    if ws == [] then []
    else
      var w := ws[|ws| - 1];
      Tails(ws[..|ws| - 1], b) + (if w != [] && w[0] == b then [w[1..]] else [])
  }

  lemma {:induction false} TailsMember(ws: seq<Word>, b: bool, t: Word)
    requires t in Tails(ws, b)
    ensures [b] + t in ws
  {
    var init, w := ws[..|ws| - 1], ws[|ws| - 1];
    if t in Tails(init, b) {
      TailsMember(init, b, t);
    } else {
      assert t == w[1..] && w == [b] + t;
    }
  }

  lemma {:induction false} TailsPrefixFree(ws: seq<Word>, b: bool)
    requires PrefixFreeList(ws)
    ensures PrefixFreeList(Tails(ws, b))
  {
    if ws != [] {
      var init, w := ws[..|ws| - 1], ws[|ws| - 1];
      TailsPrefixFree(init, b);
      if w != [] && w[0] == b {
        var t := Tails(init, b);
        assert Tails(ws, b) == t + [w[1..]] && (t + [w[1..]])[..|t|] == t;
        forall v | v in t ensures !Comparable(v, w[1..]) {
          TailsMember(init, b, v);
          assert w == [b] + w[1..];
          assert !Comparable([b] + v, w);
          StripFirst(b, v, w[1..]);
        }
      } else {
        assert Tails(ws, b) == Tails(init, b);
      }
    }
  }

  lemma {:induction false} StripFirst(b: bool, v: Word, t: Word)
    ensures Comparable(v, t) ==> Comparable([b] + v, [b] + t)
  {
  }

  lemma {:induction false} KraftSnoc(ws: seq<Word>, w: Word, m: nat)
    ensures KraftList(ws + [w], m) == KraftList(ws, m) + (if |w| <= m then Pow2(m - |w|) else 0)
  {
    assert (ws + [w])[..|ws|] == ws;
  }

  lemma {:induction false} TailsKraft(ws: seq<Word>, m: nat)
    requires m >= 1 && forall i :: 0 <= i < |ws| ==> 1 <= |ws[i]| <= m
    ensures KraftList(ws, m) == KraftList(Tails(ws, false), m - 1) + KraftList(Tails(ws, true), m - 1)
  {
    if ws != [] {
      var init, w := ws[..|ws| - 1], ws[|ws| - 1];
      TailsKraft(init, m);
      assert ws == init + [w];
      TailsKraftStep(init, w, m);
    }
  }

  lemma {:induction false} TailsKraftStep(init: seq<Word>, w: Word, m: nat)
    requires m >= 1 && 1 <= |w| <= m
    requires KraftList(init, m) == KraftList(Tails(init, false), m - 1) + KraftList(Tails(init, true), m - 1)
    ensures KraftList(init + [w], m)
            == KraftList(Tails(init + [w], false), m - 1) + KraftList(Tails(init + [w], true), m - 1)
  {
    hide Tails, KraftList, Pow2;
    var t := w[1..];
    KraftSnoc(init, w, m);
    TailsSnoc(init, w, false);
    TailsSnoc(init, w, true);
    KraftSnoc(Tails(init, w[0]), t, m - 1);
  }

  lemma {:induction false} TailsSnoc(ws: seq<Word>, w: Word, b: bool)
    ensures Tails(ws + [w], b) == if w != [] && w[0] == b then Tails(ws, b) + [w[1..]] else Tails(ws, b)
  {
    assert (ws + [w])[..|ws|] == ws;
  }

  lemma {:induction false} TailsShort(ws: seq<Word>, b: bool, m: nat)
    requires m >= 1 && forall w :: w in ws ==> |w| <= m
    ensures forall t :: t in Tails(ws, b) ==> |t| <= m - 1
  {
    forall t | t in Tails(ws, b) ensures |t| <= m - 1 {
      TailsMember(ws, b, t);
    }
  }

  /** Kraft's inequality for lists of words of at most m bits. */
  lemma {:induction false} KraftInequality(ws: seq<Word>, m: nat)
    requires PrefixFreeList(ws) && forall w :: w in ws ==> |w| <= m
    ensures KraftList(ws, m) <= Pow2(m)
    decreases m
  {
    hide Tails, Comparable;
    if ws == [] {
    } else if [] in ws {
      EmptyWordAlone(ws);
      assert ws == [[]];
      assert ws[..0] == [];
    } else {
      assert ws[0] in ws;
      TailsKraft(ws, m);
      TailsPrefixFree(ws, false);
      TailsPrefixFree(ws, true);
      TailsShort(ws, false, m);
      TailsShort(ws, true, m);
      KraftInequality(Tails(ws, false), m - 1);
      KraftInequality(Tails(ws, true), m - 1);
    }
  }

  lemma {:induction false} EmptyWordAlone(ws: seq<Word>)
    requires PrefixFreeList(ws) && [] in ws
    ensures |ws| == 1
  {
    var init, last := ws[..|ws| - 1], ws[|ws| - 1];
    if [] in init {
      assert Comparable([], last);
    } else {
      assert last == [];
      if init != [] {
        assert init[0] in init && Comparable(init[0], last);
      }
    }
  }

  // ----- codes on the symbols of a table -----

  /** words[x] is the code of symbol x; only the symbols in use matter. */
  ghost predicate PrefixCode(words: seq<Word>, leaves: set<nat>)
  {
    && (forall x :: x in leaves ==> x < |words|)
    && forall x, y :: x in leaves && y in leaves && x != y ==> !(words[x] <= words[y])
  }

  function WordsBelow(words: seq<Word>, leaves: set<nat>, x: nat): seq<Word>
    requires x <= |words|
  {
    if x == 0 then []
    else WordsBelow(words, leaves, x - 1) + (if x - 1 in leaves then [words[x - 1]] else [])
  }

  /** The lengths of the code words, extended to the numbers of the internal nodes. */
  function WordLengths(words: seq<Word>, size: nat): (l: seq<nat>)
    ensures |l| == size
  {
    seq(size, x requires 0 <= x < size => if x < |words| then |words[x]| else 0)
  }

  lemma {:induction false} WordsBelowMember(words: seq<Word>, leaves: set<nat>, x: nat, w: Word)
    requires x <= |words| && w in WordsBelow(words, leaves, x)
    ensures exists y :: 0 <= y < x && y in leaves && words[y] == w
  {
    if w in WordsBelow(words, leaves, x - 1) {
      WordsBelowMember(words, leaves, x - 1, w);
    }
  }

  lemma {:induction false} WordsBelowPrefixFree(words: seq<Word>, leaves: set<nat>, x: nat)
    requires x <= |words| && PrefixCode(words, leaves)
    ensures PrefixFreeList(WordsBelow(words, leaves, x))
  {
    if x > 0 {
      WordsBelowPrefixFree(words, leaves, x - 1);
      var before := WordsBelow(words, leaves, x - 1);
      if x - 1 in leaves {
        var w := words[x - 1];
        assert (before + [w])[..|before|] == before;
        forall v | v in before ensures !Comparable(v, w) {
          WordsBelowMember(words, leaves, x - 1, v);
        }
      } else {
        assert WordsBelow(words, leaves, x) == before;
      }
    }
  }

  lemma {:induction false} WordsBelowKraft(words: seq<Word>, leaves: set<nat>, size: nat, m: nat, x: nat)
    requires x <= |words| <= size
    ensures KraftList(WordsBelow(words, leaves, x), m)
            == Sum(LeafTerms(leaves, KraftTerms(WordLengths(words, size), m), x))
  {
    if x > 0 {
      WordsBelowKraft(words, leaves, size, m, x - 1);
      var g := KraftTerms(WordLengths(words, size), m);
      var before := WordsBelow(words, leaves, x - 1);
      assert LeafTerms(leaves, g, x)[..x - 1] == LeafTerms(leaves, g, x - 1);
      if x - 1 in leaves {
        KraftSnoc(before, words[x - 1], m);
      } else {
        assert WordsBelow(words, leaves, x) == before;
      }
    }
  }

  function LongestWord(words: seq<Word>): (m: nat)
    ensures forall w :: w in words ==> |w| <= m
  {
    if words == [] then 0
    else
      var init, last := words[..|words| - 1], words[|words| - 1];
      assert words == init + [last];
      Max(LongestWord(init), |last|)
  }

  /** The lengths that the tree gives to the symbols cost no more than those of any
      prefix code on the same symbols, provided no length was clipped. */
  lemma {:induction false} LengthsAreOptimal(rem: seq<nat>, elems: nat, n: nat, leaves: set<nat>, f: seq<nat>, lens: seq<nat>, limit: nat, words: seq<Word>)
    requires Ordered(rem, elems, n, leaves) && Depths(rem, elems, n, lens, limit) && |f| == |lens|
    requires Greedy(rem, f, elems, n)
    requires Clipped(lens, elems, 0, n, limit) == 0
    requires |words| == elems && PrefixCode(words, leaves)
    ensures Sum(LeafTerms(leaves, CostTerms(f, lens), elems))
            <= Sum(LeafTerms(leaves, CostTerms(f, WordLengths(words, |f|)), elems))
  {
    var l, m := WordLengths(words, |f|), LongestWord(words);
    var ws := WordsBelow(words, leaves, elems);
    WordsBelowPrefixFree(words, leaves, elems);
    forall w | w in ws ensures |w| <= m {
      WordsBelowMember(words, leaves, elems, w);
    }
    KraftInequality(ws, m);
    WordsBelowKraft(words, leaves, |f|, m, elems);
    LeafSum(rem, elems, n, leaves, KraftTerms(l, m));
    forall x | 0 <= x < |l| ensures l[x] <= m {
      if x < elems {
        assert words[x] in words;
      }
    }
    MergesAreOptimal(rem, elems, n, leaves, f, l, m, 0);
    CostOfDepths(rem, elems, n, leaves, f, lens, limit, 0);
    LeafSum(rem, elems, n, leaves, CostTerms(f, l));
    LeafSum(rem, elems, n, leaves, CostTerms(f, lens));
  }
}
