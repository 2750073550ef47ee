/**
 The dictionary of the compressor: head holds the last position of every key, prev links a
 position to the last one before it with the same key. Position 0 means "none". Nothing is
 missed: a chain visits all strings with the key of the current one, as far as it goes.
 */
module HashChains {
  import opened Sums
  import opened Hashing
  import opened TokenCoding

  const WSIZE := 32768
  const WINDOW_SIZE := 2 * WSIZE
  const MIN_LOOKAHEAD := MAX_MATCH + MIN_MATCH + 1
  const MAX_DIST := WSIZE - MIN_LOOKAHEAD
  const NICE_MATCH := 128

  /** An index in the window. */
  type Pos = x: int | 0 <= x < 65536

  function KeyAt(w: seq<byte>, p: nat): nat
    requires p + 2 < |w|
  {
    Key(w[p], w[p + 1], w[p + 2])
  }

  /** No string between q and n has the key h. */
  ghost predicate Absent(w: seq<byte>, h: nat, q: nat, n: nat)
  {
    forall r :: q < r < n && r + 2 < |w| ==> KeyAt(w, r) != h
  }

  /** q is the last position before n with the key h, 0 if there is none. */
  ghost predicate HeadOk(w: seq<byte>, q: nat, h: nat, n: nat)
  {
    (q == 0 || (q < n && q + 2 < |w| && KeyAt(w, q) == h)) && Absent(w, h, q, n)
  }

  /** q is the last position before p with the key of p, 0 if there is none. */
  ghost predicate LinkOk(w: seq<byte>, q: nat, p: nat)
  {
    p + 2 < |w| && HeadOk(w, q, KeyAt(w, p), p)
  }

  /** Link of position p. */
  function Link(prev: seq<Pos>, p: nat): Pos
    requires |prev| == WSIZE
  {
    prev[p % WSIZE]
  }

  /** The positions below n have been inserted: every head is the last one with its key, ... */
  ghost predicate Heads(w: seq<byte>, head: seq<Pos>, n: nat)
  {
    |head| == HASH_SIZE && forall h :: 0 <= h < HASH_SIZE ==> HeadOk(w, head[h], h, n)
  }

  /** ... and the links of the last WSIZE positions lead back to the last position before with
      the same key. */
  ghost predicate Links(w: seq<byte>, prev: seq<Pos>, n: nat)
  {
    |prev| == WSIZE && forall p: nat :: n - WSIZE <= p < n ==> LinkOk(w, Link(prev, p), p)
  }

  ghost predicate Chains(w: seq<byte>, head: seq<Pos>, prev: seq<Pos>, n: nat)
  {
    Heads(w, head, n) && Links(w, prev, n)
  }

  lemma {:induction false} OtherSlot(p: nat, n: nat)
    requires n + 1 - WSIZE <= p < n
    ensures p % WSIZE != n % WSIZE
  {
  }

  /** INSERT_STRING keeps the chains. */
  lemma {:induction false} InsertKeeps(w: seq<byte>, head: seq<Pos>, prev: seq<Pos>, n: Pos, h: nat)
    requires Chains(w, head, prev, n) && n + 2 < |w| && h == KeyAt(w, n)
    ensures h < HASH_SIZE && head[h] < WINDOW_SIZE
    ensures Chains(w, head[h := n], prev[n % WSIZE := head[h]], n + 1)
  {
    hide KeyAt;
    KeySmall(w, n);
    var head', prev', m := head[h := n], prev[n % WSIZE := head[h]], n + 1;
    forall k | 0 <= k < HASH_SIZE ensures HeadOk(w, head'[k], k, m) {
      assert HeadOk(w, head[k], k, n);
      assert Absent(w, k, head'[k], m);
    }
    forall p: nat | m - WSIZE <= p < m ensures LinkOk(w, Link(prev', p), p) {
      if p < n {
        OtherSlot(p, n);
        assert LinkOk(w, Link(prev, p), p);
      } else {
        assert HeadOk(w, head[h], h, n);
      }
    }
  }

  lemma {:induction false} KeySmall(w: seq<byte>, p: nat)
    requires p + 2 < |w|
    ensures KeyAt(w, p) < HASH_SIZE
  {
  }

  /** The string at p has kept its key, moved down by d. */
  ghost predicate KeyKept(w: seq<byte>, w': seq<byte>, p: nat, d: nat)
  {
    d <= p && p + 2 < |w| && p - d + 2 < |w'| && KeyAt(w', p - d) == KeyAt(w, p)
  }

  /** The strings between q and n have kept their keys. */
  lemma {:induction false} AbsentKept(w: seq<byte>, w': seq<byte>, h: nat, q: nat, n: nat, d: nat)
    requires Absent(w, h, q, n) && d <= n
    requires forall p: nat :: d <= p && q <= p < n ==> KeyKept(w, w', p, d)
    ensures Absent(w', h, if q >= d then q - d else 0, n - d)
  {
    hide KeyAt;
    forall r | (if q >= d then q - d else 0) < r < n - d && r + 2 < |w'| ensures KeyAt(w', r) != h {
      assert KeyKept(w, w', r + d, d);
    }
  }

  /** Reading input behind the strings inserted so far keeps the chains. */
  lemma {:induction false} ReadKeeps(w: seq<byte>, w': seq<byte>, head: seq<Pos>, prev: seq<Pos>, n: nat)
    requires Chains(w, head, prev, n) && |w'| == |w|
    requires n > 0 ==> n + 2 <= |w| && w'[..n + 2] == w[..n + 2]
    ensures Chains(w', head, prev, n)
  {
    forall p: nat | p < n ensures KeyKept(w, w', p, 0) {
      assert w'[..n + 2][p] == w[..n + 2][p] && w'[..n + 2][p + 1] == w[..n + 2][p + 1] && w'[..n + 2][p + 2] == w[..n + 2][p + 2];
    }
    hide KeyAt;
    forall k | 0 <= k < HASH_SIZE ensures HeadOk(w', head[k], k, n) {
      assert HeadOk(w, head[k], k, n);
      AbsentKept(w, w', k, head[k], n, 0);
      assert head[k] != 0 ==> KeyKept(w, w', head[k], 0);
    }
    forall p: nat | n - WSIZE <= p < n ensures LinkOk(w', Link(prev, p), p) {
      assert LinkOk(w, Link(prev, p), p) && KeyKept(w, w', p, 0);
      AbsentKept(w, w', KeyAt(w, p), Link(prev, p), p, 0);
      assert Link(prev, p) != 0 ==> KeyKept(w, w', Link(prev, p), 0);
    }
  }

  /** What the slide makes of a position. */
  function Slid(q: Pos): Pos
  {
    if q >= WSIZE then q - WSIZE else 0
  }

  /** The upper half of the window has been copied to the lower half. */
  ghost predicate HalfMoved(w: seq<byte>, w': seq<byte>)
  {
    |w| == |w'| >= WINDOW_SIZE && forall i :: 0 <= i < WSIZE ==> w'[i] == w[i + WSIZE]
  }

  ghost predicate AllSlid(s: seq<Pos>, s': seq<Pos>)
  {
    |s| == |s'| && forall i :: 0 <= i < |s| ==> s'[i] == Slid(s[i])
  }

  lemma {:induction false} SlidKey(w: seq<byte>, w': seq<byte>, p: nat)
    requires HalfMoved(w, w') && WSIZE <= p && p + 2 < WINDOW_SIZE
    ensures KeyAt(w', p - WSIZE) == KeyAt(w, p)
  {
    assert w'[p - WSIZE] == w[p - WSIZE + WSIZE] && w'[p - WSIZE + 1] == w[p - WSIZE + 1 + WSIZE] && w'[p - WSIZE + 2] == w[p - WSIZE + 2 + WSIZE];
  }

  lemma {:induction false} SameSlot(p: nat)
    ensures (p + WSIZE) % WSIZE == p % WSIZE
  {
  }

  /** The slide by half a window keeps the chains. */
  lemma {:induction false} SlideKeeps(w: seq<byte>, w': seq<byte>, head: seq<Pos>, head': seq<Pos>, prev: seq<Pos>, prev': seq<Pos>, n: nat)
    requires Chains(w, head, prev, n) && WSIZE <= n && n + 2 <= WINDOW_SIZE
    requires HalfMoved(w, w') && AllSlid(head, head') && AllSlid(prev, prev')
    ensures Chains(w', head', prev', n - WSIZE)
  {
    hide KeyAt, HalfMoved;
    MovedSize(w, w');
    var m := n - WSIZE;
    forall p: nat | WSIZE <= p < n ensures KeyKept(w, w', p, WSIZE) {
      SlidKey(w, w', p);
    }
    forall k | 0 <= k < HASH_SIZE ensures HeadOk(w', head'[k], k, m) {
      var q := head[k];
      assert HeadOk(w, q, k, n) && head'[k] == Slid(q);
      AbsentKept(w, w', k, q, n, WSIZE);
      assert q >= WSIZE ==> KeyKept(w, w', q, WSIZE);
    }
    forall p: nat | m - WSIZE <= p < m ensures LinkOk(w', Link(prev', p), p) {
      var q := Link(prev, p + WSIZE);
      assert LinkOk(w, q, p + WSIZE);
      SameSlot(p);
      assert Link(prev', p) == Slid(q) && KeyKept(w, w', p + WSIZE, WSIZE);
      AbsentKept(w, w', KeyAt(w, p + WSIZE), q, p + WSIZE, WSIZE);
      assert q >= WSIZE ==> KeyKept(w, w', q, WSIZE);
    }
  }

  lemma {:induction false} MovedSize(w: seq<byte>, w': seq<byte>)
    requires HalfMoved(w, w')
    ensures |w| == |w'| >= WINDOW_SIZE
  {
  }

  /** An empty dictionary. */
  lemma {:induction false} NoChains(w: seq<byte>, head: seq<Pos>, prev: seq<Pos>)
    requires |head| == HASH_SIZE && |prev| == WSIZE && forall h :: 0 <= h < HASH_SIZE ==> head[h] == 0
    ensures Chains(w, head, prev, 0)
  {
  }

  // ----- walking a chain -----

  /** The positions visited from cur on: cur itself and then, as long as they exceed limit,
      the ones linked to it, k in all at most. */
  function Chain(prev: seq<Pos>, cur: nat, limit: nat, k: nat): (c: seq<nat>)
    requires |prev| == WSIZE && k >= 1
    ensures 1 <= |c| <= k
    decreases k
  {
    [cur] + if k > 1 && Link(prev, cur) > limit then Chain(prev, Link(prev, cur), limit, k - 1) else []
  }

  /** s has just been inserted and cur is a candidate for it. */
  ghost predicate Candidate(w: seq<byte>, s: nat, cur: nat)
  {
    0 < cur < s && s + 2 < |w| && s - cur <= MAX_DIST && KeyAt(w, cur) == KeyAt(w, s)
  }

  /** The link of a candidate is a smaller candidate, unless it is too far away. */
  lemma {:induction false} NextCandidate(w: seq<byte>, prev: seq<Pos>, s: nat, cur: nat)
    requires Links(w, prev, s + 1) && Candidate(w, s, cur)
    ensures Link(prev, cur) < cur
    ensures Link(prev, cur) > 0 && s - Link(prev, cur) <= MAX_DIST ==> Candidate(w, s, Link(prev, cur))
  {
    hide KeyAt;
    assert LinkOk(w, Link(prev, cur), cur);
  }

  /** Following prev from a head visits strictly decreasing positions, all with the key of
      the string at s and all within MAX_DIST. */
  lemma {:induction false} ChainVisits(w: seq<byte>, prev: seq<Pos>, s: nat, cur: nat, limit: nat, k: nat)
    requires |prev| == WSIZE && Links(w, prev, s + 1) && Candidate(w, s, cur) && limit == Limit(s) && k >= 1
    ensures AllCandidates(w, s, Chain(prev, cur, limit, k)) && Decreasing(Chain(prev, cur, limit, k))
    decreases k
  {
    hide Links, Candidate;
    NextCandidate(w, prev, s, cur);
    var next := Link(prev, cur);
    if k > 1 && next > limit {
      ChainVisits(w, prev, s, next, limit, k - 1);
      DecreasingStep(cur, Chain(prev, next, limit, k - 1));
    }
  }

  /** A chain misses nothing: a string with the key of s is visited, if it lies above the limit
      and not k others lie between. */
  lemma {:induction false} ChainComplete(w: seq<byte>, prev: seq<Pos>, s: nat, cur: nat, limit: nat, k: nat, q: nat)
    requires |prev| == WSIZE && Links(w, prev, s + 1) && Candidate(w, s, cur) && limit == Limit(s) && k >= 1
    requires limit < q <= cur && q + 2 < |w| && KeyAt(w, q) == KeyAt(w, s)
    ensures q in Chain(prev, cur, limit, k) || |Chain(prev, cur, limit, k)| == k
    decreases k
  {
    hide KeyAt;
    var next := Link(prev, cur);
    NextCandidate(w, prev, s, cur);
    if q < cur {
      assert LinkOk(w, next, cur);
      assert q <= next;
      if k > 1 {
        ChainComplete(w, prev, s, next, limit, k - 1, q);
      }
    }
  }

  ghost predicate AllCandidates(w: seq<byte>, s: nat, c: seq<nat>)
  {
    forall i :: 0 <= i < |c| ==> Candidate(w, s, c[i])
  }

  ghost predicate Decreasing(c: seq<nat>)
  {
    forall i, j :: 0 <= i < j < |c| ==> c[j] < c[i]
  }

  lemma {:induction false} DecreasingStep(x: nat, c: seq<nat>)
    requires Decreasing(c) && (c != [] ==> c[0] < x)
    ensures Decreasing([x] + c)
  {
  }

  lemma {:induction false} CandidateBounds(w: seq<byte>, s: nat, cur: nat)
    requires Candidate(w, s, cur)
    ensures 0 < cur < s && s - cur <= MAX_DIST
  {
  }

  /** Candidates at or below this position are not looked at. */
  function Limit(s: nat): nat
  {
    if s > MAX_DIST then s - MAX_DIST else 0
  }
}
