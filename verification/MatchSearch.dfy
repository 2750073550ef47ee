/**
 longest_match against a plain search: the tests that skip a candidate early and the
 uncompared third byte change nothing.
 */
module MatchSearch {
  import opened Sums
  import opened Hashing
  import opened TokenCoding
  import opened HashChains

  const MAX_CHAIN := 128
  const GOOD_MATCH := 8

  /** How many bytes from i on agree at a and b, up to MAX_MATCH in all. */
  function Lcp(w: seq<byte>, a: nat, b: nat, i: nat): (r: nat)
    requires a + MAX_MATCH <= |w| && b + MAX_MATCH <= |w| && i <= MAX_MATCH
    ensures i <= r <= MAX_MATCH
    decreases MAX_MATCH - i
  {
    if i == MAX_MATCH || w[a + i] != w[b + i] then i else Lcp(w, a, b, i + 1)
  }

  /** Byte i of the strings at a and b is the same. */
  ghost predicate Agree(w: seq<byte>, a: nat, b: nat, i: nat)
  {
    a + i < |w| && b + i < |w| && w[a + i] == w[b + i]
  }

  lemma {:induction false} LcpEqual(w: seq<byte>, a: nat, b: nat, i: nat, k: nat)
    requires a + MAX_MATCH <= |w| && b + MAX_MATCH <= |w| && i <= k < MAX_MATCH && k < Lcp(w, a, b, i)
    ensures w[a + k] == w[b + k]
    decreases MAX_MATCH - i
  {
    if i < k {
      LcpEqual(w, a, b, i + 1, k);
    }
  }

  /** Bytes i to k agree, so the count may start at k. */
  lemma {:induction false} LcpFrom(w: seq<byte>, a: nat, b: nat, i: nat, k: nat)
    requires a + MAX_MATCH <= |w| && b + MAX_MATCH <= |w| && i <= k <= MAX_MATCH
    requires forall j :: i <= j < k ==> Agree(w, a, b, j)
    ensures Lcp(w, a, b, i) == Lcp(w, a, b, k)
    decreases k - i
  {
    if i < k {
      assert Agree(w, a, b, i);
      LcpFrom(w, a, b, i + 1, k);
    }
  }

  /** A candidate that differs at byte k cannot agree in more than k bytes. */
  lemma {:induction false} LcpAtMost(w: seq<byte>, a: nat, b: nat, k: nat)
    requires a + MAX_MATCH <= |w| && b + MAX_MATCH <= |w| && a + k < |w| && b + k < |w| && w[a + k] != w[b + k]
    ensures Lcp(w, a, b, 0) <= k
  {
    if Lcp(w, a, b, 0) > k {
      LcpEqual(w, a, b, 0, k);
    }
  }

  /** The plain search: every candidate is measured in full. */
  function Search(w: seq<byte>, prev: seq<Pos>, s: nat, cur: nat, limit: nat, k: nat, best: nat, start: nat): (nat, nat)
    requires |prev| == WSIZE && s + MAX_MATCH <= |w| && WINDOW_SIZE + MAX_MATCH <= |w| && cur < WINDOW_SIZE && k >= 1
    decreases k
  {
    var len := Lcp(w, s, cur, 0);
    if len > best && len >= NICE_MATCH then (len, cur)
    else
      var (best', start') := if len > best then (len, cur) else (best, start);
      if Link(prev, cur) > limit && k > 1 then Search(w, prev, s, Link(prev, cur), limit, k - 1, best', start')
      else (best', start')
  }

  /** The search takes the longest agreement on the chain, the nearest one among equals,
      unless it stops at one of at least NICE_MATCH bytes. */
  lemma {:induction false} SearchFinds(w: seq<byte>, prev: seq<Pos>, s: nat, cur: nat, limit: nat, k: nat, best: nat, start: nat)
    requires |prev| == WSIZE && s + MAX_MATCH <= |w| && WINDOW_SIZE + MAX_MATCH <= |w| && cur < WINDOW_SIZE && k >= 1
    ensures var (len, from) := Search(w, prev, s, cur, limit, k, best, start);
            && best <= len && (len == best ==> from == start) && (len > best ==> FirstBest(w, prev, s, cur, limit, k, len, from))
            && (len < NICE_MATCH ==> NoneLonger(w, s, Chain(prev, cur, limit, k), len))
    decreases k
  {
    hide Lcp;
    var len := Lcp(w, s, cur, 0);
    var next := Link(prev, cur);
    var best', start' := if len > best then len else best, if len > best then cur else start;
    if next > limit && k > 1 && !(len > best && len >= NICE_MATCH) {
      SearchFinds(w, prev, s, next, limit, k - 1, best', start');
      var r := Search(w, prev, s, next, limit, k - 1, best', start');
      if r.0 > best' {
        FirstBestLater(w, prev, s, cur, limit, k, r.0, r.1);
      }
    }
  }

  /** No candidate agrees in more than len bytes. */
  ghost predicate NoneLonger(w: seq<byte>, s: nat, c: seq<nat>, len: nat)
  {
    forall i :: 0 <= i < |c| ==> c[i] + MAX_MATCH <= |w| && s + MAX_MATCH <= |w| && Lcp(w, s, c[i], 0) <= len
  }

  /** from is the first candidate that agrees in len bytes. */
  ghost predicate FirstBest(w: seq<byte>, prev: seq<Pos>, s: nat, cur: nat, limit: nat, k: nat, len: nat, from: nat)
    requires |prev| == WSIZE && s + MAX_MATCH <= |w| && WINDOW_SIZE + MAX_MATCH <= |w| && cur < WINDOW_SIZE && k >= 1
    decreases k
  {
    if Lcp(w, s, cur, 0) >= len then Lcp(w, s, cur, 0) == len && from == cur
    else Link(prev, cur) > limit && k > 1 && FirstBest(w, prev, s, Link(prev, cur), limit, k - 1, len, from)
  }

  lemma {:induction false} FirstBestLater(w: seq<byte>, prev: seq<Pos>, s: nat, cur: nat, limit: nat, k: nat, len: nat, from: nat)
    requires |prev| == WSIZE && s + MAX_MATCH <= |w| && WINDOW_SIZE + MAX_MATCH <= |w| && cur < WINDOW_SIZE && k > 1
    requires Lcp(w, s, cur, 0) < len && Link(prev, cur) > limit && FirstBest(w, prev, s, Link(prev, cur), limit, k - 1, len, from)
    ensures FirstBest(w, prev, s, cur, limit, k, len, from)
  {
  }

  /** The match found lies on the chain. */
  lemma {:induction false} FirstBestOnChain(w: seq<byte>, prev: seq<Pos>, s: nat, cur: nat, limit: nat, k: nat, len: nat, from: nat)
    requires |prev| == WSIZE && s + MAX_MATCH <= |w| && WINDOW_SIZE + MAX_MATCH <= |w| && cur < WINDOW_SIZE && k >= 1
    requires FirstBest(w, prev, s, cur, limit, k, len, from)
    ensures from in Chain(prev, cur, limit, k) && from < WINDOW_SIZE && Lcp(w, s, from, 0) == len
    decreases k
  {
    hide Lcp;
    if Lcp(w, s, cur, 0) < len {
      FirstBestOnChain(w, prev, s, Link(prev, cur), limit, k - 1, len, from);
    }
  }

  // ----- the early tests -----

  /** A candidate that fails one of the four tests cannot beat the best so far. */
  lemma {:induction false} SkipIsSound(w: seq<byte>, s: nat, cur: nat, best: nat)
    requires s + MAX_MATCH <= |w| && cur + MAX_MATCH <= |w| && 1 <= best < MAX_MATCH
    requires w[cur + best] != w[s + best] || w[cur + best - 1] != w[s + best - 1] || w[cur] != w[s] || w[cur + 1] != w[s + 1]
    ensures Lcp(w, s, cur, 0) <= best
  {
    hide Lcp;
    if w[cur + best] != w[s + best] {
      LcpAtMost(w, s, cur, best);
    } else if w[cur + best - 1] != w[s + best - 1] {
      LcpAtMost(w, s, cur, best - 1);
    } else if w[cur] != w[s] {
      LcpAtMost(w, s, cur, 0);
    } else {
      LcpAtMost(w, s, cur, 1);
    }
  }

  /** The third byte of a candidate that agrees in two bytes agrees too. */
  lemma {:induction false} ThirdAgrees(w: seq<byte>, s: nat, cur: nat)
    requires Candidate(w, s, cur) && w[cur] == w[s] && w[cur + 1] == w[s + 1]
    ensures w[cur + 2] == w[s + 2]
  {
    hide Key;
    ThirdByte(w[s], w[s + 1], w[cur + 2], w[s + 2]);
  }

  /** The comparison loop, which looks for the end only at every eighth byte; top is the
      highest index it reads. */
  method Measure(window: array<byte>, s: nat, cur: nat, ghost w: seq<byte>) returns (len: nat, ghost top: nat)
    requires window[..] == w && s + MAX_MATCH < |w| && cur < s
    requires w[cur] == w[s] && w[cur + 1] == w[s + 1] && w[cur + 2] == w[s + 2]
    ensures len == Lcp(w, s, cur, 0) && top == s + len
  {
    hide Lcp;
    var i := 2;
    top := 0;
    while true
      invariant 2 <= i < MAX_MATCH && top <= s + i
      invariant forall j :: 0 <= j <= i ==> Agree(w, s, cur, j)
      decreases MAX_MATCH - i
    {
      i := i + 1;
      top := Max(top, Max(s + i, cur + i));
      if window[s + i] != window[cur + i] {
        break;
      }
      if (i - 2) % 8 == 0 && !(i < MAX_MATCH) {
        break;
      }
      BeforeTheEnd(i);
    }
    LcpFrom(w, s, cur, 0, i);
    LcpEnds(w, s, cur, i);
    len := MAX_MATCH - (MAX_MATCH - i);
  }

  lemma {:induction false} BeforeTheEnd(i: nat)
    requires i <= MAX_MATCH && !((i - 2) % 8 == 0 && i >= MAX_MATCH)
    ensures i < MAX_MATCH
  {
  }

  lemma {:induction false} LcpEnds(w: seq<byte>, a: nat, b: nat, i: nat)
    requires a + MAX_MATCH <= |w| && b + MAX_MATCH <= |w| && i <= MAX_MATCH
    requires i < MAX_MATCH ==> w[a + i] != w[b + i]
    ensures Lcp(w, a, b, i) == i
  {
  }

  /** How many candidates are looked at. */
  function ChainLength(prevLength: nat): (k: nat)
    ensures k >= 1
  {
    if prevLength >= GOOD_MATCH then MAX_CHAIN / 4 else MAX_CHAIN
  }

  /** longest_match is the plain search, so it returns the longest agreement on the chain
      unless it stops early. The highest index it reads, top, is that of the first byte
      behind the match. */
  method LongestMatch(window: array<byte>, prev: array<Pos>, s: nat, hashHead: nat, prevLength: nat, matchStart0: nat,
                      ghost w: seq<byte>, ghost p: seq<Pos>) returns (bestLen: nat, matchStart: nat, ghost top: nat)
    requires window[..] == w && prev[..] == p && |p| == WSIZE && |w| == WINDOW_SIZE + MAX_MATCH && s < WINDOW_SIZE
    requires Links(w, p, s + 1) && Candidate(w, s, hashHead) && 1 <= prevLength < NICE_MATCH
    ensures (bestLen, matchStart) == Search(w, p, s, hashHead, Limit(s), ChainLength(prevLength), prevLength, matchStart0)
    ensures prevLength <= bestLen <= MAX_MATCH && top == s + bestLen
    ensures bestLen > prevLength ==> matchStart in Chain(p, hashHead, Limit(s), ChainLength(prevLength))
    ensures bestLen < NICE_MATCH ==> NoneLonger(w, s, Chain(p, hashHead, Limit(s), ChainLength(prevLength)), bestLen)
    ensures bestLen > prevLength ==> Candidate(w, s, matchStart) && bestLen == Lcp(w, s, matchStart, 0)
  {
    hide Lcp, Links, Candidate, Search, Link, Chain, NoneLonger, FirstBest;
    var chainLength, limit, cur := MAX_CHAIN, Limit(s), hashHead;
    bestLen, matchStart := prevLength, matchStart0;
    CandidateBounds(w, s, cur);
    var scanEnd1, scanEnd := window[s + bestLen - 1], window[s + bestLen];
    top := s + bestLen;
    if prevLength >= GOOD_MATCH {
      chainLength := chainLength / 4;
    }
    ghost var k0 := chainLength;
    while true
      invariant 1 <= chainLength && window[..] == w && prev[..] == p && 1 <= bestLen < NICE_MATCH && 0 < cur < s
      invariant scanEnd1 == w[s + bestLen - 1] && scanEnd == w[s + bestLen]
      invariant Candidate(w, s, cur) && (bestLen > prevLength ==> Candidate(w, s, matchStart) && matchStart < s && bestLen == Lcp(w, s, matchStart, 0))
      invariant bestLen >= prevLength && top == s + bestLen
      invariant Search(w, p, s, cur, limit, chainLength, bestLen, matchStart) == Search(w, p, s, hashHead, limit, k0, prevLength, matchStart0)
      decreases chainLength
    {
      SearchStep(w, p, s, cur, limit, chainLength, bestLen, matchStart);
      top := Max(top, Max(cur + bestLen, s + 1));
      if window[cur + bestLen] != scanEnd || window[cur + bestLen - 1] != scanEnd1 || window[cur] != window[s] || window[cur + 1] != window[s + 1] {
        SkipIsSound(w, s, cur, bestLen);
      } else {
        ThirdAgrees(w, s, cur);
        ghost var reach;
        var len: nat;
        len, reach := Measure(window, s, cur, w);
        top := Max(top, reach);
        if len > bestLen {
          matchStart := cur;
          bestLen := len;
          if len >= NICE_MATCH {
            break;
          }
          scanEnd1 := window[s + bestLen - 1];
          scanEnd := window[s + bestLen];
        }
      }
      NextCandidate(w, p, s, cur);
      LinkOf(p, cur);
      cur := prev[cur % WSIZE];
      if !(cur > limit) {
        break;
      }
      chainLength := chainLength - 1;
      if chainLength == 0 {
        break;
      }
      CandidateBounds(w, s, cur);
    }
    SearchOutcome(w, p, s, hashHead, limit, k0, prevLength, matchStart0);
  }

  lemma {:induction false} SearchOutcome(w: seq<byte>, prev: seq<Pos>, s: nat, cur: nat, limit: nat, k: nat, best: nat, start: nat)
    requires |prev| == WSIZE && s + MAX_MATCH <= |w| && WINDOW_SIZE + MAX_MATCH <= |w| && cur < WINDOW_SIZE && k >= 1
    ensures var (len, from) := Search(w, prev, s, cur, limit, k, best, start);
            && (len > best ==> from in Chain(prev, cur, limit, k))
            && (len < NICE_MATCH ==> NoneLonger(w, s, Chain(prev, cur, limit, k), len))
  {
    hide Search, FirstBest, NoneLonger, Chain;
    SearchFinds(w, prev, s, cur, limit, k, best, start);
    var r := Search(w, prev, s, cur, limit, k, best, start);
    if r.0 > best {
      FirstBestOnChain(w, prev, s, cur, limit, k, r.0, r.1);
    }
  }

  lemma {:induction false} LinkOf(prev: seq<Pos>, p: nat)
    requires |prev| == WSIZE
    ensures Link(prev, p) == prev[p % WSIZE]
  {
  }

  lemma {:induction false} SearchStep(w: seq<byte>, prev: seq<Pos>, s: nat, cur: nat, limit: nat, k: nat, best: nat, start: nat)
    requires |prev| == WSIZE && s + MAX_MATCH <= |w| && WINDOW_SIZE + MAX_MATCH <= |w| && cur < WINDOW_SIZE && k >= 1
    ensures var len := Lcp(w, s, cur, 0);
            var best', start' := if len > best then len else best, if len > best then cur else start;
            Search(w, prev, s, cur, limit, k, best, start)
            == if len > best && len >= NICE_MATCH then (len, cur)
               else if Link(prev, cur) > limit && k > 1 then Search(w, prev, s, Link(prev, cur), limit, k - 1, best', start')
               else (best', start')
  {
    hide Lcp;
  }
}
