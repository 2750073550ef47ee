/**
 How far longest_match reads. Its own assertion that strstart is at most WINDOW_SIZE -
 MIN_LOOKAHEAD does not hold once the end of the input is known, and near the end of the
 window it then reads behind the window's last byte. This is the exact condition.
 */
module OverRead {
  import opened Sums
  import opened Hashing
  import opened TokenCoding
  import opened HashChains
  import opened MatchSearch
  import opened Window

  /** longest_match may be called like this: s has been inserted, its link is a candidate. */
  ghost predicate Callable(w: seq<byte>, prev: seq<Pos>, s: nat, prevLength: nat)
  {
    && |prev| == WSIZE && |w| == WINDOW_SIZE + MAX_MATCH && s < WINDOW_SIZE
    && Links(w, prev, s + 1) && Candidate(w, s, Link(prev, s)) && 1 <= prevLength < NICE_MATCH
  }

  /** The highest index that LongestMatch reads in such a call. */
  ghost function TopRead(w: seq<byte>, prev: seq<Pos>, s: nat, prevLength: nat): nat
    requires Callable(w, prev, s, prevLength)
  {
    s + Search(w, prev, s, Link(prev, s), Limit(s), ChainLength(prevLength), prevLength, 0).0
  }

  /** Every call for a position before e stays inside the window. */
  ghost predicate StaysInside(e: nat)
  {
    forall w, prev, s: nat, prevLength: nat :: Callable(w, prev, s, prevLength) && s < e ==> TopRead(w, prev, s, prevLength) < WINDOW_SIZE
  }

  lemma {:induction false} SearchAtMost(w: seq<byte>, prev: seq<Pos>, s: nat, cur: nat, limit: nat, k: nat, best: nat, start: nat)
    requires |prev| == WSIZE && s + MAX_MATCH <= |w| && WINDOW_SIZE + MAX_MATCH <= |w| && cur < WINDOW_SIZE && k >= 1 && best <= MAX_MATCH
    ensures Search(w, prev, s, cur, limit, k, best, start).0 <= MAX_MATCH
    decreases k
  {
    hide Lcp, Link;
    var len := Lcp(w, s, cur, 0);
    if Link(prev, cur) > limit && k > 1 && !(len > best && len >= NICE_MATCH) {
      SearchAtMost(w, prev, s, Link(prev, cur), limit, k - 1, if len > best then len else best, if len > best then cur else start);
    }
  }

  // ----- a window of zeros -----

  function Blank(): (w: seq<byte>)
    ensures |w| == WINDOW_SIZE + MAX_MATCH
  {
    seq(WINDOW_SIZE + MAX_MATCH, _ => 0)
  }

  /** The position whose link stands in slot i when all before n have been inserted. */
  function Owner(n: nat, i: nat): int
  {
    n - 1 - (n - 1 - i) % WSIZE
  }

  /** The links when all positions before n have been inserted: each leads to the one before. */
  function Linked(n: nat): (prev: seq<Pos>)
    requires n <= WINDOW_SIZE
    ensures |prev| == WSIZE
  {
    seq(WSIZE, i requires 0 <= i < WSIZE => Max(0, Owner(n, i) - 1))
  }

  lemma {:induction false} BlankLinks(n: nat)
    requires n <= WINDOW_SIZE
    ensures Links(Blank(), Linked(n), n)
  {
    hide KeyAt, Blank;
    forall p: nat | n - WSIZE <= p < n ensures LinkOk(Blank(), Link(Linked(n), p), p) {
      RemainderOf(WSIZE, p / WSIZE, n - 1 - p);
      assert Link(Linked(n), p) == Max(0, p - 1);
      BlankKey(p);
      if p > 0 {
        BlankKey(p - 1);
      }
    }
  }

  lemma {:induction false} BlankKey(p: nat)
    requires p < WINDOW_SIZE
    ensures p + 2 < |Blank()| && KeyAt(Blank(), p) == 0
  {
    assert Xor(0, 0) == 0;
  }

  lemma {:induction false} BlankCallable(prev: seq<Pos>, s: Pos)
    requires s >= 2 && Links(Blank(), prev, s + 1)
    ensures Callable(Blank(), prev, s, 2) && Link(prev, s) == s - 1
  {
    hide KeyAt, Blank;
    BlankKey(s);
    BlankKey(s - 1);
    assert LinkOk(Blank(), Link(prev, s), s);
  }

  lemma {:induction false} BlankLcp(s: Pos)
    requires s >= 1
    ensures Lcp(Blank(), s, s - 1, 0) == MAX_MATCH
  {
    var w, t := Blank(), s - 1;
    forall j | 0 <= j < MAX_MATCH ensures Agree(w, s, t, j) {
    }
    LcpFrom(w, s, t, 0, MAX_MATCH);
  }

  lemma {:induction false} BlankTop(prev: seq<Pos>, s: Pos)
    requires s >= 2 && Links(Blank(), prev, s + 1)
    ensures Callable(Blank(), prev, s, 2) && TopRead(Blank(), prev, s, 2) == s + MAX_MATCH
  {
    hide Lcp, Callable, Blank, Links;
    BlankCallable(prev, s);
    BlankLcp(s);
  }

  /** Every call before offset e of the window stays inside it exactly when at least
      MAX_MATCH bytes are free behind e. */
  lemma {:induction false} InsideExactly(e: nat)
    requires e <= WINDOW_SIZE
    ensures StaysInside(e) <==> e <= WINDOW_SIZE - MAX_MATCH
  {
    hide Callable, Search, Blank, Linked, Links;
    if e <= WINDOW_SIZE - MAX_MATCH {
      forall w, prev, s: nat, prevLength: nat | Callable(w, prev, s, prevLength) && s < e ensures TopRead(w, prev, s, prevLength) < WINDOW_SIZE {
        CallBound(w, prev, s, prevLength);
      }
    } else {
      BlankLinks(e);
      BlankTop(Linked(e), e - 1);
      assert TopRead(Blank(), Linked(e), e - 1, 2) >= WINDOW_SIZE;
    }
  }

  lemma {:induction false} CallBound(w: seq<byte>, prev: seq<Pos>, s: nat, prevLength: nat)
    requires Callable(w, prev, s, prevLength)
    ensures TopRead(w, prev, s, prevLength) <= s + MAX_MATCH
  {
    hide Search, Links, Candidate;
    SearchAtMost(w, prev, s, Link(prev, s), Limit(s), ChainLength(prevLength), prevLength, 0);
  }

  /** A state that meets every invariant of the compressor, with the end of the input known
      at offset 65534, in which index 65791 of the 65536 bytes is read. */
  lemma {:induction false} OverReadState()
    ensures var w, s, prev := Blank(), 65533, Linked(65533);
            var head: seq<Pos> := seq(HASH_SIZE, _ => 0)[0 := 65532];
            var prev': seq<Pos> := prev[s % WSIZE := 65532];
            && Chains(w, head, prev, s) && Filled(w, seq(65534, _ => 0), 0) && Rolling(0, w, s)
            && Chains(w, head[0 := 65533], prev', s + 1)
            && Callable(w, prev', s, 2) && TopRead(w, prev', s, 2) == 65791 >= WINDOW_SIZE
  {
    hide Callable, TopRead, Links, Heads, Linked, Blank, KeyAt;
    var w, s, prev := Blank(), 65533, Linked(65533);
    var head: seq<Pos> := seq(HASH_SIZE, _ => 0)[0 := 65532];
    BlankHeads(head);
    BlankLinks(s);
    BlankRest(w, s);
    BlankKey(s);
    InsertKeeps(w, head, prev, s, 0);
    BlankTop(prev[s % WSIZE := 65532], s);
  }

  lemma {:induction false} BlankHeads(head: seq<Pos>)
    requires head == seq(HASH_SIZE, _ => 0)[0 := 65532]
    ensures Heads(Blank(), head, 65533)
  {
    hide KeyAt, Blank;
    BlankKey(65532);
    forall r: nat | r < 65533 ensures r + 2 < |Blank()| && KeyAt(Blank(), r) == 0 {
      BlankKey(r);
    }
    forall h | 0 <= h < HASH_SIZE ensures HeadOk(Blank(), head[h], h, 65533) {
    }
  }

  lemma {:induction false} BlankRest(w: seq<byte>, s: nat)
    requires w == Blank() && s < WINDOW_SIZE
    ensures Filled(w, seq(65534, _ => 0), 0) && Rolling(0, w, s)
  {
    assert w[..65534] == seq(65534, _ => 0);
    assert Xor(0, 0) == 0;
  }
}
