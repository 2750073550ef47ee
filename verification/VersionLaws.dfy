/**
 The order of versions as section 5.6.12 of the Debian Policy Manual describes it: what comes
 before what, in terms of the characters of the version strings.
 */
module VersionLaws {
  import opened Sums
  import opened Ascii
  import opened VersionOrder

  const TILDE := 126

  /** The order of two version strings. */
  function OrderOf(s: seq<Char>, t: seq<Char>): (r: int)
    ensures -1 <= r <= 1
  {
    CompareVersions(Parse(s), Parse(t))
  }

  predicate Letter(c: int)
  {
    'A' as int <= c <= 'Z' as int || 'a' as int <= c <= 'z' as int
  }

  predicate Digit(c: int)
  {
    '0' as int <= c <= '9' as int
  }

  /** An upstream version: neither epoch nor revision. */
  predicate Bare(s: seq<Char>)
  {
    forall i :: 0 <= i < |s| ==> s[i] != ':' as int && s[i] != '-' as int
  }

  lemma {:induction false} ParseBare(s: seq<Char>)
    requires Bare(s)
    ensures Parse(s) == Version(0, s, [])
  {
    var d := Last(s, DASH, |s|);
    assert d == 0;
  }

  // ----- strings with a common start -----

  /** u does not continue a number at the end of the string before it. */
  predicate NoDigit(u: seq<Char>)
  {
    u == [] || !IsDigit(u[0])
  }

  lemma {:induction false} DigitsStop(s: seq<Char>, u: seq<Char>, i: nat)
    requires i <= |s| && NoDigit(u)
    ensures DigitsEnd(s + u, i) == DigitsEnd(s, i) <= |s|
    decreases |s| - i
  {
    if i < |s| {
      assert (s + u)[i] == s[i];
      if IsDigit(s[i]) {
        DigitsStop(s, u, i + 1);
      }
    } else if u != [] {
      assert (s + u)[i] == u[0];
    }
  }

  lemma {:induction false} ValueSame(s: seq<Char>, u: seq<Char>, i: nat, e: nat)
    requires Digits(s, i, e)
    ensures Digits(s + u, i, e) && Value(s + u, i, e) == Value(s, i, e)
    decreases e - i
  {
    if i < e {
      ValueSame(s, u, i, e - 1);
      assert (s + u)[e - 1] == s[e - 1];
    }
  }

  /** What s + u and s + v have in common does not count. */
  lemma {:induction false} CommonStart(s: seq<Char>, u: seq<Char>, v: seq<Char>, i: nat)
    requires i <= |s| && NoDigit(u) && NoDigit(v)
    ensures Compare(Key(s + u, i), Key(s + v, i)) == Compare(Key(s + u, |s|), Key(s + v, |s|))
    decreases |s| - i
  {
    hide Compare, Value, DigitsEnd, Digits;
    var a, b := s + u, s + v;
    if i < |s| {
      assert a[i] == s[i] == b[i];
      KeyHead(a, i);
      KeyHead(b, i);
      if !IsDigit(s[i]) {
        CompareSame(Order(s[i]), Key(a, i + 1), Key(b, i + 1));
        CommonStart(s, u, v, i + 1);
      } else {
        CommonNumber(s, u, v, i);
        CompareSame(0, NumberKey(a, i), NumberKey(b, i));
        CommonStart(s, u, v, DigitsEnd(s, i));
      }
    }
  }

  lemma {:induction false} CommonNumber(s: seq<Char>, u: seq<Char>, v: seq<Char>, i: nat)
    requires i < |s| && NoDigit(u) && NoDigit(v) && IsDigit(s[i]) && (s + u)[i] == s[i] == (s + v)[i]
    ensures var e := DigitsEnd(s, i);
            i < e <= |s| && Compare(NumberKey(s + u, i), NumberKey(s + v, i)) == Compare(Key(s + u, e), Key(s + v, e))
  {
    hide Compare, Value, Key;
    var a, b, e := s + u, s + v, DigitsEnd(s, i);
    DigitsStop(s, u, i);
    DigitsStop(s, v, i);
    ValueSame(s, u, i, e);
    ValueSame(s, v, i, e);
    NumbersCompare(a, i, b, i);
    RestIsKey(a, e, b, e);
  }

  /** So two upstream versions with a common start are compared by what comes first behind it. */
  lemma {:induction false} Behind(s: seq<Char>, u: seq<Char>, v: seq<Char>)
    requires Bare(s + u) && Bare(s + v) && NoDigit(u) && NoDigit(v) && Order(At(s + u, |s|)) != Order(At(s + v, |s|))
    ensures OrderOf(s + u, s + v) == Sign(Order(At(s + u, |s|)) - Order(At(s + v, |s|)))
  {
    hide Compare, Key, Order, Parse, Rest;
    var a, b := s + u, s + v;
    ParseBare(a);
    ParseBare(b);
    RestIsKey(a, 0, b, 0);
    CommonStart(s, u, v, 0);
    KeyHead(a, |s|);
    KeyHead(b, |s|);
    DifferentHeads(Key(a, |s|), Key(b, |s|));
    assert OrderOf(a, b) == Compare(Rest(a, 0), Rest(b, 0));
  }

  /** A tilde comes before the end of the version. */
  lemma {:induction false} TildeIsEarlier(s: seq<Char>, t: seq<Char>)
    requires Bare(s) && Bare(s + [TILDE] + t)
    ensures OrderOf(s + [TILDE] + t, s) < 0
  {
    assert s + [TILDE] + t == s + ([TILDE] + t) && s == s + [];
    Behind(s, [TILDE] + t, []);
  }

  /** The end of the version comes before everything else that is not a number. */
  lemma {:induction false} LongerIsLater(s: seq<Char>, c: Char, t: seq<Char>)
    requires Bare(s) && Bare(s + [c] + t) && !Digit(c) && c != TILDE
    ensures OrderOf(s + [c] + t, s) > 0
  {
    assert s + [c] + t == s + ([c] + t) && s == s + [];
    Behind(s, [c] + t, []);
  }

  /** Letters come before other characters. */
  lemma {:induction false} LettersFirst(s: seq<Char>, c: Char, t: seq<Char>, d: Char, t': seq<Char>)
    requires Bare(s + [c] + t) && Bare(s + [d] + t') && Letter(c) && !Letter(d) && !Digit(d) && d != TILDE
    ensures OrderOf(s + [c] + t, s + [d] + t') < 0
  {
    assert s + [c] + t == s + ([c] + t) && s + [d] + t' == s + ([d] + t');
    Behind(s, [c] + t, [d] + t');
  }

  /** Two letters, or two other characters, are compared by their codes. */
  lemma {:induction false} ByCode(s: seq<Char>, c: Char, t: seq<Char>, d: Char, t': seq<Char>)
    requires Bare(s + [c] + t) && Bare(s + [d] + t') && c < d && (Letter(c) <==> Letter(d))
    requires !Digit(c) && c != TILDE && !Digit(d) && d != TILDE
    ensures OrderOf(s + [c] + t, s + [d] + t') < 0
  {
    assert s + [c] + t == s + ([c] + t) && s + [d] + t' == s + ([d] + t');
    Behind(s, [c] + t, [d] + t');
  }

  /** A tilde comes before every other character, too. */
  lemma {:induction false} TildeFirst(s: seq<Char>, t: seq<Char>, d: Char, t': seq<Char>)
    requires Bare(s + [TILDE] + t) && Bare(s + [d] + t') && !Digit(d) && d != TILDE
    ensures OrderOf(s + [TILDE] + t, s + [d] + t') < 0
  {
    assert s + [TILDE] + t == s + ([TILDE] + t) && s + [d] + t' == s + ([d] + t');
    Behind(s, [TILDE] + t, [d] + t');
  }

  // ----- numbers -----

  predicate AllDigits(s: seq<Char>)
  {
    forall i :: 0 <= i < |s| ==> Digit(s[i])
  }

  /** The number that a string of digits stands for. */
  function Number(s: seq<Char>): (n: nat)
    requires AllDigits(s)
  {
    if s == [] then 0 else 10 * Number(s[..|s| - 1]) + (s[|s| - 1] as int - '0' as int)
  }

  lemma {:induction false} NumberIsValue(s: seq<Char>, t: seq<Char>, i: nat, n: nat)
    requires AllDigits(t) && n <= |t| && i + |t| <= |s| && forall k :: 0 <= k < |t| ==> s[i + k] == t[k]
    ensures Digits(s, i, i + n) && Value(s, i, i + n) == Number(t[..n])
  {
    assert forall k :: i <= k < i + n ==> s[k] == t[k - i];
    if n > 0 {
      NumberIsValue(s, t, i, n - 1);
      assert t[..n][..n - 1] == t[..n - 1];
    }
  }

  lemma {:induction false} DigitsRun(s: seq<Char>, i: nat, e: nat)
    requires Digits(s, i, e) && (e == |s| || !IsDigit(s[e]))
    ensures DigitsEnd(s, i) == e
    decreases e - i
  {
    if i < e {
      DigitsRun(s, i + 1, e);
    }
  }

  /** Numbers are compared by their values, whatever zeros stand in front of them: here numbers
      that stand behind the same text. */
  lemma {:induction false} ByNumber(s: seq<Char>, a: seq<Char>, b: seq<Char>, t: seq<Char>, t': seq<Char>)
    requires Bare(s + a + t) && Bare(s + b + t') && AllDigits(a) && AllDigits(b) && a != [] && b != []
    requires (s == [] || !Digit(s[|s| - 1])) && NoDigit(t) && NoDigit(t') && Number(a) != Number(b)
    ensures OrderOf(s + a + t, s + b + t') == Sign(Number(a) - Number(b))
  {
    hide Compare, Key, NumberKey, Rest, Value, Parse, Number, DigitsEnd, Digits;
    var x, y, n := s + a + t, s + b + t', |s|;
    ParseBare(x);
    ParseBare(y);
    RestIsKey(x, 0, y, 0);
    NumberHere(s, a, t);
    NumberHere(s, b, t');
    TextStart(s, a + t, b + t', 0);
    assert x == s + (a + t) && y == s + (b + t');
    NumbersCompare(x, n, y, n);
    assert OrderOf(x, y) == Compare(Rest(x, 0), Rest(y, 0));
  }

  lemma {:induction false} FirstIsDigit(a: seq<Char>)
    requires AllDigits(a) && a != []
    ensures IsDigit(a[0])
  {
  }

  lemma {:induction false} NumberHere(s: seq<Char>, a: seq<Char>, t: seq<Char>)
    requires AllDigits(a) && a != [] && NoDigit(t)
    ensures var x := s + a + t;
            && DigitsEnd(x, |s|) == |s| + |a| && Value(x, |s|, DigitsEnd(x, |s|)) == Number(a) && IsDigit(x[|s|])
  {
    hide Value, Number, DigitsEnd, Digits, AllDigits;
    var x := s + a + t;
    assert a[..|a|] == a && x[|s|] == a[0];
    FirstIsDigit(a);
    NumberIsValue(x, a, |s|, |a|);
    if t != [] {
      assert x[|s| + |a|] == t[0];
    }
    DigitsRun(x, |s|, |s| + |a|);
  }

  /** A common text in front of two numbers does not count. */
  lemma {:induction false} TextStart(s: seq<Char>, u: seq<Char>, v: seq<Char>, i: nat)
    requires i <= |s| && (s == [] || !Digit(s[|s| - 1])) && u != [] && v != [] && IsDigit(u[0]) && IsDigit(v[0])
    ensures Compare(Key(s + u, i), Key(s + v, i)) == Compare(NumberKey(s + u, |s|), NumberKey(s + v, |s|))
    decreases |s| - i
  {
    hide Compare, Value;
    var a, b := s + u, s + v;
    KeyHead(a, i);
    KeyHead(b, i);
    assert a[|s|] == u[0] && b[|s|] == v[0];
    if i == |s| {
      CompareSame(0, NumberKey(a, i), NumberKey(b, i));
    } else {
      assert a[i] == s[i] == b[i];
      if !IsDigit(s[i]) {
        CompareSame(Order(s[i]), Key(a, i + 1), Key(b, i + 1));
        TextStart(s, u, v, i + 1);
      } else {
        InnerNumber(s, u, i);
        InnerNumber(s, v, i);
        CompareSame(0, NumberKey(a, i), NumberKey(b, i));
        var e := DigitsEnd(s, i);
        ValueSame(s, u, i, e);
        ValueSame(s, v, i, e);
        NumbersCompare(a, i, b, i);
        RestIsKey(a, e, b, e);
        TextStart(s, u, v, e);
      }
    }
  }

  lemma {:induction false} InnerNumber(s: seq<Char>, u: seq<Char>, i: nat)
    requires i < |s| && IsDigit(s[i]) && !Digit(s[|s| - 1])
    ensures i < DigitsEnd(s, i) < |s| && DigitsEnd(s + u, i) == DigitsEnd(s, i) && (s + u)[i] == s[i]
  {
    InsideDigits(s, u, i);
  }

  lemma {:induction false} InsideDigits(s: seq<Char>, u: seq<Char>, i: nat)
    requires i < |s| && !Digit(s[|s| - 1])
    ensures DigitsEnd(s, i) < |s| && DigitsEnd(s + u, i) == DigitsEnd(s, i)
    decreases |s| - i
  {
    assert (s + u)[i] == s[i];
    if IsDigit(s[i]) {
      InsideDigits(s, u, i + 1);
    }
  }

  // ----- epoch and revision -----

  /** epoch:upstream-revision is split into these parts; the upstream version may contain
      further colons and dashes. */
  lemma {:induction false} ParseFull(e: seq<Char>, u: seq<Char>, r: seq<Char>)
    requires e != [] && AllDigits(e) && forall i :: 0 <= i < |r| ==> r[i] != '-' as int
    ensures Parse(e + [COLON] + u + [DASH] + r) == Version(Number(e) % TWO_32, u, r)
  {
    var body := u + [DASH] + r;
    var s := e + [COLON] + body;
    assert e + [COLON] + u + [DASH] + r == s;
    FirstColon(e, body);
    LastDash(u, r);
    EpochNumber(e, [COLON] + body);
    assert s == e + ([COLON] + body);
    assert Body(s) == body;
  }

  lemma {:induction false} FirstColon(e: seq<Char>, body: seq<Char>)
    requires AllDigits(e)
    ensures First(e + [COLON] + body, COLON, 0) == |e|
  {
    var s := e + [COLON] + body;
    var k := First(s, COLON, 0);
    assert s[|e|] == COLON;
    assert forall n :: 0 <= n < |e| ==> s[n] == e[n];
  }

  lemma {:induction false} LastDash(u: seq<Char>, r: seq<Char>)
    requires forall i :: 0 <= i < |r| ==> r[i] != '-' as int
    ensures Upstream(u + [DASH] + r) == u && Revision(u + [DASH] + r) == r
  {
    var s := u + [DASH] + r;
    var k := Last(s, DASH, |s|);
    assert s[|u|] == DASH;
    assert forall n :: |u| < n < |s| ==> s[n] == r[n - |u| - 1];
    assert k == |u| + 1;
    assert s[..|u|] == u && s[|u| + 1..] == r;
  }

  lemma {:induction false} EpochNumber(e: seq<Char>, t: seq<Char>)
    requires e != [] && AllDigits(e) && NoDigit(t)
    ensures Atoi(e + t, 0) == Number(e)
  {
    hide Value, Number;
    assert [] + e + t == e + t && (e + t)[0] == e[0];
    NumberHere([], e, t);
  }

  /** Epochs count first, then upstream versions, then revisions. */
  lemma {:induction false} PartsInOrder(e: seq<Char>, u: seq<Char>, r: seq<Char>, e': seq<Char>, u': seq<Char>, r': seq<Char>)
    requires e != [] && AllDigits(e) && Number(e) < TWO_32 && e' != [] && AllDigits(e') && Number(e') < TWO_32
    requires Bare(u) && Bare(r) && Bare(u') && Bare(r')
    ensures OrderOf(e + [COLON] + u + [DASH] + r, e' + [COLON] + u' + [DASH] + r')
            == if Number(e) != Number(e') then Sign(Number(e) - Number(e'))
               else if OrderOf(u, u') != 0 then OrderOf(u, u')
               else OrderOf(r, r')
  {
    hide Compare, Rest, Number, Parse;
    ParseFull(e, u, r);
    ParseFull(e', u', r');
    SmallRemainder(Number(e), TWO_32);
    SmallRemainder(Number(e'), TWO_32);
    ParseBare(u);
    ParseBare(u');
    ParseBare(r);
    ParseBare(r');
    EmptyEqual();
  }

  lemma {:induction false} EmptyEqual()
    ensures Compare(Rest([], 0), Rest([], 0)) == 0
  {
  }

  /** Without an epoch it is 0, and without a revision it is empty. */
  lemma {:induction false} EmptyRevision(u: seq<Char>)
    requires Bare(u)
    ensures OrderOf(u, ['0' as int] + [COLON] + u + [DASH] + []) == 0
  {
    hide Compare, Rest, Parse;
    ParseFull(['0' as int], u, []);
    ParseBare(u);
    VersionsAntisymmetric(Version(0, u, []), Version(0, u, []));
    assert Number(['0' as int]) == 0;
  }
}
