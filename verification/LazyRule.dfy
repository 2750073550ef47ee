/**
 The choice that deflate makes at every position: what its search finds there, and the rule
 by which a match is taken or put off. A log of all choices determines every token.
 */
module LazyRule {
  import opened Sums
  import opened Inflate
  import opened TokenCoding
  import opened Hashing
  import opened HashChains
  import opened MatchSearch
  import opened Window
  import opened Stream

  const MAX_LAZY := 16
  const TOO_FAR := 4096

  /** The sizes of the format and the tuning of the search. */
  lemma {:induction false} Settings()
    ensures MIN_MATCH == 3 && MAX_MATCH == 258 && WSIZE == 32768 && MIN_LOOKAHEAD == 262 && MAX_DIST == 32506 && HASH_SIZE == 8192
    ensures MAX_LAZY == 16 && TOO_FAR == 4096 && GOOD_MATCH == 8 && NICE_MATCH == 128 && ChainLength(2) == 128 && ChainLength(8) == 32
  {
  }

  // ----- one search -----

  /** What deflate makes of a match of length len: it is cut to the lookahead, and one of
      length 3 that is too far away is given up. */
  function Trim(len: nat, ahead: nat, dist: nat): nat
  {
    var l := if len > ahead then ahead else len;
    if l == MIN_MATCH && dist > TOO_FAR then l - 1 else l
  }

  /** The state in which deflate searches at index s of the window: the links include s. */
  datatype Probe = Probe(w: seq<byte>, prev: seq<Pos>, s: nat, prevLength: nat, start0: nat, ahead: nat)

  /** The length kept, match_start, and the highest index read. */
  datatype Hit = Hit(length: nat, start: nat, top: nat)

  ghost predicate Shaped(p: Probe)
  {
    |p.prev| == WSIZE && |p.w| == WINDOW_SIZE + MAX_MATCH && p.s < WINDOW_SIZE
  }

  ghost function Lookup(p: Probe): Hit
    requires Shaped(p)
  {
    var q := Link(p.prev, p.s);
    if q != 0 && p.prevLength < MAX_LAZY && p.s - q <= MAX_DIST then
      var (len, from) := Search(p.w, p.prev, p.s, q, Limit(p.s), ChainLength(p.prevLength), p.prevLength, p.start0);
      Hit(Trim(len, p.ahead, Sub32(p.s, from)), from, Max(p.s + 2, p.s + len))
    else Hit(MIN_MATCH - 1, p.start0, p.s + 2)
  }

  ghost function DistOf(p: Probe): nat
    requires Shaped(p)
  {
    Sub32(p.s, Lookup(p).start)
  }

  /** The search at offset at of the input: the window holds the input from MAX_DIST bytes
      before, or from its start, up to the end of the lookahead, which is large or ends with the
      input, and nothing is missing in the links. */
  ghost predicate Searched(input: seq<byte>, at: nat, p: Probe)
  {
    && Shaped(p) && p.s <= at && (p.s == at || p.s >= MAX_DIST) && p.ahead > 0 && at + p.ahead <= |input| && (p.ahead >= MIN_LOOKAHEAD || at + p.ahead == |input|)
    && Filled(p.w, input[..at + p.ahead], at - p.s) && Links(p.w, p.prev, p.s + 1)
  }

  // ----- the log -----

  /** What was decided at offset at: by the search there, and the one at the next byte, if any. */
  datatype Choice = Choice(at: nat, here: Probe, next: Option<Probe>)

  /** The second search only looks for something longer. */
  ghost predicate Decided(input: seq<byte>, c: Choice)
  {
    && c.at < |input| && Searched(input, c.at, c.here)
    && match c.next
       case None => c.at + 1 == |input|
       case Some(n) => Searched(input, c.at + 1, n) && n.prevLength == Lookup(c.here).length
  }

  /** The lazy rule: the match is taken if there is one and the next byte has no longer one. */
  ghost function Picked(input: seq<byte>, c: Choice): (t: Token)
    requires Decided(input, c)
    ensures TokenSize(t) > 0
  {
    if c.next.Some? && Lookup(c.here).length >= MIN_MATCH && Lookup(c.next.value).length <= Lookup(c.here).length
    then Match(Lookup(c.here).length, DistOf(c.here))
    else Literal(input[c.at])
  }

  /** p can be the next search after the log: after a literal it has been made already, and
      otherwise it starts without a match. */
  ghost predicate Resumes(input: seq<byte>, log: seq<Choice>, p: Probe)
    requires log != [] ==> Decided(input, log[|log| - 1])
  {
    if log == [] || Picked(input, log[|log| - 1]).Match? then p.prevLength == MIN_MATCH - 1
    else log[|log| - 1].next == Some(p)
  }

  /** The choices of the log follow each other from the start of the input up to upto. */
  ghost predicate Lazy(input: seq<byte>, log: seq<Choice>, upto: nat): (r: bool)
    ensures r && log != [] ==> Decided(input, log[|log| - 1])
  {
    if log == [] then upto == 0
    else
      var init, c := log[..|log| - 1], log[|log| - 1];
      Decided(input, c) && Lazy(input, init, c.at) && Resumes(input, init, c.here) && upto == c.at + TokenSize(Picked(input, c))
  }

  /** The tokens chosen. */
  ghost function Picks(input: seq<byte>, log: seq<Choice>, upto: nat): (ts: seq<Token>)
    requires Lazy(input, log, upto)
    ensures |ts| == |log|
  {
    if log == [] then []
    else
      var init, c := log[..|log| - 1], log[|log| - 1];
      Picks(input, init, c.at) + [Picked(input, c)]
  }

  /** The longer log has one token more. */
  ghost predicate Extended(input: seq<byte>, log: seq<Choice>, upto: nat, log': seq<Choice>, upto': nat, t: Token)
  {
    Lazy(input, log, upto) && Lazy(input, log', upto') && Picks(input, log', upto') == Picks(input, log, upto) + [t]
  }

  /** One more choice. */
  lemma {:induction false} Choose(input: seq<byte>, log: seq<Choice>, c: Choice)
    requires Lazy(input, log, c.at) && Decided(input, c) && Resumes(input, log, c.here)
    ensures Extended(input, log, c.at, log + [c], c.at + TokenSize(Picked(input, c)), Picked(input, c))
  {
    hide Decided, Picked, Resumes;
    assert (log + [c])[..|log|] == log;
  }

  // ----- between two turns -----

  /** In front of a turn at offset at: either the search at the byte before has found length
      and dist and the choice there is pending, or the last choice was a match. */
  ghost predicate Waiting(input: seq<byte>, log: seq<Choice>, at: nat, pending: Option<Probe>, length: nat, dist: nat)
  {
    if pending.Some? then
      && at >= 1 && Lazy(input, log, at - 1) && Searched(input, at - 1, pending.value) && Resumes(input, log, pending.value)
      && Lookup(pending.value).length == length && DistOf(pending.value) == dist
    else
      Lazy(input, log, at) && length == MIN_MATCH - 1 && (log != [] ==> Picked(input, log[|log| - 1]).Match?)
  }

  /** The offset up to which the choices have been made. */
  function ChosenTo(at: nat, pending: Option<Probe>): int
  {
    if pending.Some? then at - 1 else at
  }

  /** What the pending search says. */
  lemma {:induction false} PendingSearch(input: seq<byte>, log: seq<Choice>, at: nat, pending: Option<Probe>, length: nat, dist: nat)
    requires Waiting(input, log, at, pending, length, dist) && pending.Some?
    ensures at >= 1 && Lazy(input, log, at - 1) && Searched(input, at - 1, pending.value) && Resumes(input, log, pending.value)
    ensures Shaped(pending.value) && Lookup(pending.value).length == length && DistOf(pending.value) == dist
  {
    hide Lazy, Lookup, DistOf, Resumes;
  }

  /** A turn that takes the pending match. */
  lemma {:induction false} TakeMatch(input: seq<byte>, log: seq<Choice>, at: nat, pending: Option<Probe>, length: nat, dist: nat, p: Probe)
    requires at >= 1 && Waiting(input, log, at, pending, length, dist) && pending.Some?
    requires Searched(input, at, p) && Shaped(p) && p.prevLength == length && length >= MIN_MATCH && Lookup(p).length <= length
    ensures var log' := log + [Choice(at - 1, pending.value, Some(p))];
            && Waiting(input, log', at - 1 + length, None, MIN_MATCH - 1, 0)
            && Extended(input, log, at - 1, log', at - 1 + length, Match(length, dist))
  {
    hide *;
    PendingSearch(input, log, at, pending, length, dist);
    var c := Choice(at - 1, pending.value, Some(p));
    DecidedBy(input, c, p);
    PickedMatch(input, c, p);
    Choose(input, log, c);
    NonePending(input, log, c, at - 1 + length);
  }

  lemma {:induction false} NonePending(input: seq<byte>, log: seq<Choice>, c: Choice, upto: nat)
    requires Decided(input, c) && Picked(input, c).Match? && Extended(input, log, c.at, log + [c], upto, Picked(input, c))
    ensures Waiting(input, log + [c], upto, None, MIN_MATCH - 1, 0)
  {
    hide Lazy, Picks, Picked, Decided;
    assert (log + [c])[|log + [c]| - 1] == c;
  }

  lemma {:induction false} PickedMatch(input: seq<byte>, c: Choice, p: Probe)
    requires Decided(input, c) && c.next == Some(p) && Lookup(c.here).length >= MIN_MATCH && Lookup(p).length <= Lookup(c.here).length
    ensures Picked(input, c) == Match(Lookup(c.here).length, DistOf(c.here)) && TokenSize(Picked(input, c)) == Lookup(c.here).length
  {
    hide Lookup, DistOf, Searched;
  }

  /** The second search follows the first. */
  lemma {:induction false} DecidedBy(input: seq<byte>, c: Choice, p: Probe)
    requires Searched(input, c.at, c.here) && Searched(input, c.at + 1, p) && c.next == Some(p)
    requires p.prevLength == Lookup(c.here).length
    ensures Decided(input, c) && c.at < |input|
  {
    hide Lookup;
  }

  /** A turn that sends the byte before as a literal. */
  lemma {:induction false} TakeLiteral(input: seq<byte>, log: seq<Choice>, at: nat, pending: Option<Probe>, length: nat, dist: nat, p: Probe)
    requires 1 <= at <= |input| && Waiting(input, log, at, pending, length, dist) && pending.Some?
    requires Searched(input, at, p) && Shaped(p) && p.prevLength == length && !(length >= MIN_MATCH && Lookup(p).length <= length)
    ensures var log' := log + [Choice(at - 1, pending.value, Some(p))];
            && Waiting(input, log', at + 1, Some(p), Lookup(p).length, DistOf(p))
            && Extended(input, log, at - 1, log', at, Literal(input[at - 1]))
  {
    hide *;
    PendingSearch(input, log, at, pending, length, dist);
    var c := Choice(at - 1, pending.value, Some(p));
    DecidedBy(input, c, p);
    PickedLiteral(input, c);
    Choose(input, log, c);
    OnePending(input, log, c, p, at);
  }

  lemma {:induction false} PickedLiteral(input: seq<byte>, c: Choice)
    requires Decided(input, c)
    requires c.next.Some? ==> !(Lookup(c.here).length >= MIN_MATCH && Lookup(c.next.value).length <= Lookup(c.here).length)
    ensures Picked(input, c) == Literal(input[c.at]) && TokenSize(Picked(input, c)) == 1
  {
    hide Lookup, DistOf, Searched;
  }

  lemma {:induction false} OnePending(input: seq<byte>, log: seq<Choice>, c: Choice, p: Probe, at: nat)
    requires Decided(input, c) && Picked(input, c).Literal? && c.next == Some(p) && Extended(input, log, c.at, log + [c], at, Picked(input, c))
    requires Searched(input, at, p) && Shaped(p)
    ensures Waiting(input, log + [c], at + 1, Some(p), Lookup(p).length, DistOf(p))
  {
    hide Lazy, Picks, Picked, Decided, Searched, Lookup, DistOf;
    assert (log + [c])[|log + [c]| - 1] == c;
  }

  /** A turn that only searches. */
  lemma {:induction false} WaitOn(input: seq<byte>, log: seq<Choice>, at: nat, length: nat, dist: nat, p: Probe)
    requires Waiting(input, log, at, None, length, dist) && Searched(input, at, p) && Shaped(p) && p.prevLength == length
    ensures Waiting(input, log, at + 1, Some(p), Lookup(p).length, DistOf(p))
  {
    hide Searched, Lazy, Lookup, DistOf;
  }

  /** At the end of the input a pending byte is sent as a literal. */
  lemma {:induction false} TakeLast(input: seq<byte>, log: seq<Choice>, pending: Option<Probe>, length: nat, dist: nat)
    requires input != [] && Waiting(input, log, |input|, pending, length, dist) && pending.Some?
    ensures var n := |input|; Extended(input, log, n - 1, log + [Choice(n - 1, pending.value, None)], n, Literal(input[n - 1]))
  {
    hide *;
    var n := |input|;
    PendingSearch(input, log, n, pending, length, dist);
    var c := Choice(n - 1, pending.value, None);
    DecidedLast(input, c);
    PickedLiteral(input, c);
    Choose(input, log, c);
  }

  lemma {:induction false} DecidedLast(input: seq<byte>, c: Choice)
    requires Searched(input, c.at, c.here) && c.at + 1 == |input| && c.next == None
    ensures Decided(input, c)
  {
  }

  lemma {:induction false} NothingChosen(input: seq<byte>)
    ensures Waiting(input, [], 0, None, MIN_MATCH - 1, 0) && Lazy(input, [], 0) && Picks(input, [], 0) == []
  {
  }

  // ----- what the log says -----

  /** Token i of the stream stands for the input from at on. A match there is what the search
      at this byte keeps, and the search at the next byte has kept nothing longer; at a literal
      the search has kept no match, or the one at the next byte a longer one. */
  lemma {:induction false} LazyChoice(input: seq<byte>, log: seq<Choice>, upto: nat, i: nat)
    requires Lazy(input, log, upto) && i < |log|
    ensures var c, t := log[i], Picks(input, log, upto)[i];
            && Decided(input, c) && c.at == Size(Picks(input, log, upto)[..i])
            && (t.Match? ==> && t.length == Lookup(c.here).length >= MIN_MATCH && t.dist == DistOf(c.here)
                             && c.next.Some? && Lookup(c.next.value).length <= t.length)
            && (t.Literal? ==> && t.value == input[c.at]
                               && (Lookup(c.here).length < MIN_MATCH || (c.next.Some? && Lookup(c.next.value).length > Lookup(c.here).length)))
  {
    hide Lookup, Resumes, DistOf, Searched;
    var init, last := log[..|log| - 1], log[|log| - 1];
    var ts := Picks(input, log, upto);
    assert ts[..|init|] == Picks(input, init, last.at);
    if i < |init| {
      LazyChoice(input, init, last.at, i);
      assert ts[..i] == Picks(input, init, last.at)[..i];
    } else {
      SizeOfPicks(input, init, last.at);
      if last.next.None? {
        LastIsShort(input, last);
      }
    }
  }

  lemma {:induction false} SizeOfPicks(input: seq<byte>, log: seq<Choice>, upto: nat)
    requires Lazy(input, log, upto)
    ensures Size(Picks(input, log, upto)) == upto
  {
    hide Decided, Picked, Resumes;
    if log != [] {
      var init, c := log[..|log| - 1], log[|log| - 1];
      SizeOfPicks(input, init, c.at);
      assert Picks(input, log, upto)[..|init|] == Picks(input, init, c.at);
    }
  }

  /** The last byte of the input never starts a match. */
  lemma {:induction false} LastIsShort(input: seq<byte>, c: Choice)
    requires Decided(input, c) && c.next.None?
    ensures Lookup(c.here).length < MIN_MATCH
  {
    hide Search, Link, Filled, Links;
  }

  // ----- how good the search is -----

  /** Equal bytes of the input are equal bytes of the window. */
  lemma {:induction false} RepeatsAgree(input: seq<byte>, at: nat, p: Probe, d: nat, n: nat)
    requires Searched(input, at, p) && Repeats(input, at, d, n) && d <= p.s && n <= p.ahead && n <= MAX_MATCH
    ensures p.s + MAX_MATCH <= |p.w| && Lcp(p.w, p.s, p.s - d, 0) >= n
  {
    hide Lcp, Links, Filled;
    var w, s, t, base, known := p.w, p.s, p.s - d, at - p.s, input[..at + p.ahead];
    FilledSize(w, known, base);
    forall j | 0 <= j < n ensures Agree(w, s, t, j) {
      FilledAt(w, known, base, s + j);
      FilledAt(w, known, base, t + j);
      assert SameByte(input, at, d, j);
    }
    LcpFrom(w, s, t, 0, n);
  }

  /** The search finds the longest match: if the n bytes at offset at (at least 3, of which the
      key is made) occurred d bytes before, it keeps a match as long, unless it has stopped at
      a long one, or a match of 3 bytes is too far away, or too many strings with the same key
      lie between. */
  lemma {:induction false} FindsLongest(input: seq<byte>, at: nat, p: Probe, d: nat, n: nat)
    requires Searched(input, at, p) && Repeats(input, at, d, n) && MIN_MATCH <= n <= MAX_MATCH && n <= p.ahead
    requires d < at && d < MAX_DIST && p.prevLength < MAX_LAZY
    ensures var q := Link(p.prev, p.s);
            && d <= p.s && p.s - d <= q < p.s
            && (|Chain(p.prev, q, Limit(p.s), ChainLength(p.prevLength))| < ChainLength(p.prevLength) ==>
                  || Lookup(p).length >= Min(n, NICE_MATCH)
                  || (n == MIN_MATCH && Lookup(p).length == MIN_MATCH - 1 && DistOf(p) > TOO_FAR))
  {
    hide Lcp, Search, Filled, Links, Chain, KeyAt, ChainLength, NoneLonger, Sub32;
    var w, s, c := p.w, p.s, p.s - d;
    var q, k := Link(p.prev, s), ChainLength(p.prevLength);
    RepeatsAgree(input, at, p, d, n);
    SameKey(w, s, c, n);
    LastBefore(w, p.prev, s, c);
    SearchOutcome(w, p.prev, s, q, Limit(s), k, p.prevLength, p.start0);
    ChainComplete(w, p.prev, s, q, Limit(s), k, c);
    var r := Search(w, p.prev, s, q, Limit(s), k, p.prevLength, p.start0);
    if c in Chain(p.prev, q, Limit(s), k) && r.0 < NICE_MATCH {
      AtMost(w, s, Chain(p.prev, q, Limit(s), k), r.0, c);
    }
  }

  lemma {:induction false} AtMost(w: seq<byte>, s: nat, c: seq<nat>, len: nat, q: nat)
    requires NoneLonger(w, s, c, len) && q in c && s + MAX_MATCH <= |w| && q + MAX_MATCH <= |w|
    ensures Lcp(w, s, q, 0) <= len
  {
    hide Lcp;
  }

  lemma {:induction false} SameKey(w: seq<byte>, s: nat, c: nat, n: nat)
    requires c < s && s + MAX_MATCH <= |w| && Lcp(w, s, c, 0) >= n >= MIN_MATCH
    ensures KeyAt(w, c) == KeyAt(w, s)
  {
    LcpEqual(w, s, c, 0, 0);
    LcpEqual(w, s, c, 0, 1);
    LcpEqual(w, s, c, 0, 2);
  }

  /** The link of s is no earlier than any string with the same key. */
  lemma {:induction false} LastBefore(w: seq<byte>, prev: seq<Pos>, s: nat, c: nat)
    requires |prev| == WSIZE && Links(w, prev, s + 1) && 0 < c < s && s + 2 < |w| && KeyAt(w, c) == KeyAt(w, s) && s - c <= MAX_DIST
    ensures c <= Link(prev, s) < s && Candidate(w, s, Link(prev, s))
  {
    hide KeyAt;
    assert LinkOk(w, Link(prev, s), s);
  }
}
