/**
 The order of Debian version strings in dpkg.c (section 5.6.12 of the Debian Policy Manual).
 The program walks two strings in step. Here every string has a key, a sequence of integers,
 and comparing two strings is comparing their keys, the shorter one filled up with zeros.
 */
module VersionOrder {
  import opened Sums
  import opened Ascii

  predicate IsDigit(c: int)
  {
    48 <= c <= 57
  }

  predicate IsAlpha(c: int)
  {
    65 <= c <= 90 || 97 <= c <= 122
  }

  /** order(): a tilde sorts before the end, letters before everything else. */
  function Order(c: int): int
  {
    if c == 126 then -1
    else if c == 0 then 0
    else if IsDigit(c) then 0
    else if IsAlpha(c) then c
    else c + 256
  }

  /** Only digits and the end have order zero, and all others have an order of their own. */
  lemma {:induction false} OrderDistinguishes(c: int, d: int)
    requires 0 <= c < 128 && 0 <= d < 128
    ensures Order(c) == 0 <==> c == 0 || IsDigit(c)
    ensures Order(c) == Order(d) && Order(c) != 0 ==> c == d
  {
  }

  // ----- numbers -----

  /** Where the digits from i on end. */
  function DigitsEnd(s: seq<Char>, i: nat): (e: nat)
    ensures i <= e && (i <= |s| ==> e <= |s|) && !IsDigit(At(s, e))
    ensures forall k :: i <= k < e ==> k < |s| && IsDigit(s[k])
    decreases |s| - i
  {
    if IsDigit(At(s, i)) then DigitsEnd(s, i + 1) else i
  }

  predicate Digits(s: seq<Char>, i: nat, e: nat)
  {
    i <= e <= |s| && forall k :: i <= k < e ==> IsDigit(s[k])
  }

  /** The number that the digits from i up to e stand for. */
  function Value(s: seq<Char>, i: nat, e: nat): (v: nat)
    requires Digits(s, i, e)
    decreases e - i
  {
    if i == e then 0 else 10 * Value(s, i, e - 1) + (s[e - 1] as int - 48)
  }

  function Pow10(k: nat): (p: nat)
    ensures p >= 1
  {
    if k == 0 then 1 else 10 * Pow10(k - 1)
  }

  lemma {:induction false} Pow10Monotone(a: nat, b: nat)
    requires a <= b
    ensures Pow10(a) <= Pow10(b)
    decreases b
  {
    if a < b {
      Pow10Monotone(a, b - 1);
    }
  }

  lemma {:induction false} ValueBelow(s: seq<Char>, i: nat, e: nat)
    requires Digits(s, i, e)
    ensures Value(s, i, e) < Pow10(e - i)
    decreases e - i
  {
    if i < e {
      ValueBelow(s, i, e - 1);
      assert IsDigit(s[e - 1]);
    }
  }

  /** A number that does not start with a zero has as many digits as it seems. */
  lemma {:induction false} ValueAtLeast(s: seq<Char>, i: nat, e: nat)
    requires Digits(s, i, e) && i < e && s[i] != 48
    ensures Value(s, i, e) >= Pow10(e - i - 1)
    decreases e - i
  {
    assert IsDigit(s[i]) && IsDigit(s[e - 1]);
    if i < e - 1 {
      ValueAtLeast(s, i, e - 1);
    } else {
      assert Value(s, i, e - 1) == 0;
    }
  }

  /** Leading zeros do not count. */
  lemma {:induction false} SkipZero(s: seq<Char>, i: nat, e: nat)
    requires Digits(s, i, e) && i < e && s[i] == 48
    ensures Value(s, i, e) == Value(s, i + 1, e)
    decreases e - i
  {
    if i < e - 1 {
      SkipZero(s, i, e - 1);
    } else {
      assert Value(s, i, e - 1) == 0;
    }
  }

  // ----- keys -----

  /** The orders of the text from i on, a zero for its end, and then the number after it. */
  function Key(s: seq<Char>, i: nat): (k: seq<int>)
    requires i <= |s|
    ensures k != []
    decreases |s| - i, 1
  {
    if i < |s| && !IsDigit(s[i]) then [Order(s[i])] + Key(s, i + 1) else [0] + NumberKey(s, i)
  }

  /** The value of the digits from i on and the key of what is left. */
  function NumberKey(s: seq<Char>, i: nat): (k: seq<int>)
    requires i <= |s| && (i < |s| ==> IsDigit(s[i]))
    ensures k != []
    decreases |s| - i, 0
  {
    var e := DigitsEnd(s, i);
    [Value(s, i, e)] + if i == |s| then [] else Rest(s, e)
  }

  /** The key of what is left, nothing at the end of the string. */
  function Rest(s: seq<Char>, i: nat): seq<int>
    requires i <= |s|
    decreases |s| - i, 2
  {
    if i == |s| then [] else Key(s, i)
  }

  // ----- comparing keys -----

  function Sign(x: int): int
  {
    if x < 0 then -1 else if x > 0 then 1 else 0
  }

  function Head(a: seq<int>): int
  {
    if a == [] then 0 else a[0]
  }

  function Tail(a: seq<int>): (t: seq<int>)
    ensures |t| <= |a| && (a != [] ==> |t| < |a|)
  {
    if a == [] then [] else a[1..]
  }

  /** The first difference decides; a key that has ended goes on with zeros. */
  function Compare(a: seq<int>, b: seq<int>): (r: int)
    ensures -1 <= r <= 1
    decreases |a| + |b|
  {
    if a == [] && b == [] then 0
    else if Head(a) != Head(b) then Sign(Head(a) - Head(b))
    else Compare(Tail(a), Tail(b))
  }

  lemma {:induction false} CompareSame(x: int, a: seq<int>, b: seq<int>)
    ensures Compare([x] + a, [x] + b) == Compare(a, b)
  {
    assert ([x] + a)[1..] == a && ([x] + b)[1..] == b;
  }

  lemma {:induction false} CompareFirst(x: int, a: seq<int>, y: int, b: seq<int>)
    requires x != y
    ensures Compare([x] + a, [y] + b) == Sign(x - y)
  {
  }

  /** Zeros at the end do not count. */
  lemma {:induction false} FillUp(b: seq<int>)
    ensures Compare([], b) == Compare([0], b) == Compare([0, 0], b)
    ensures Compare(b, []) == Compare(b, [0]) == Compare(b, [0, 0])
  {
    FillOne(b);
    FillOne(Tail(b));
    assert [0][1..] == [] && [0, 0][1..] == [0];
  }

  lemma {:induction false} FillOne(b: seq<int>)
    ensures Compare([], b) == Compare([0], b) && Compare(b, []) == Compare(b, [0])
  {
    assert [0][1..] == [];
  }

  // ----- the order of keys -----

  lemma {:induction false} CompareAntisymmetric(a: seq<int>, b: seq<int>)
    ensures Compare(a, b) == -Compare(b, a)
    decreases |a| + |b|
  {
    if a != [] || b != [] {
      CompareAntisymmetric(Tail(a), Tail(b));
    }
  }

  lemma {:induction false} CompareTransitive(a: seq<int>, b: seq<int>, c: seq<int>)
    requires Compare(a, b) <= 0 && Compare(b, c) <= 0
    ensures Compare(a, c) <= 0 && (Compare(a, b) < 0 || Compare(b, c) < 0 ==> Compare(a, c) < 0)
    decreases |a| + |b| + |c|
  {
    if a != [] || b != [] || c != [] {
      if Head(a) == Head(b) == Head(c) {
        ShiftCompare(a, b);
        ShiftCompare(b, c);
        ShiftCompare(a, c);
        CompareTransitive(Tail(a), Tail(b), Tail(c));
      }
    }
  }

  lemma {:induction false} ShiftCompare(a: seq<int>, b: seq<int>)
    requires Head(a) == Head(b)
    ensures Compare(a, b) == Compare(Tail(a), Tail(b))
  {
  }

  /** The entry at n, zero behind the end. */
  function Entry(a: seq<int>, n: nat): int
  {
    if n < |a| then a[n] else 0
  }

  /** Two keys agree everywhere. */
  ghost predicate Agree(a: seq<int>, b: seq<int>)
  {
    forall n: nat :: Entry(a, n) == Entry(b, n)
  }

  /** Keys compare equal exactly when they agree everywhere. */
  lemma {:induction false} CompareEqual(a: seq<int>, b: seq<int>)
    ensures Compare(a, b) == 0 <==> Agree(a, b)
    decreases |a| + |b|
  {
    if a != [] || b != [] {
      CompareEqual(Tail(a), Tail(b));
      assert Entry(a, 0) == Head(a) && Entry(b, 0) == Head(b);
      if Head(a) == Head(b) {
        forall n: nat ensures Entry(Tail(a), n) == Entry(a, n + 1) && Entry(Tail(b), n) == Entry(b, n + 1) {
        }
        if forall n: nat :: Entry(Tail(a), n) == Entry(Tail(b), n) {
          forall n: nat ensures Entry(a, n) == Entry(b, n) {
            if n > 0 {
              assert Entry(Tail(a), n - 1) == Entry(Tail(b), n - 1);
            }
          }
        } else {
          var n: nat :| Entry(Tail(a), n) != Entry(Tail(b), n);
          assert Entry(a, n + 1) != Entry(b, n + 1);
        }
      }
    }
  }

  // ----- version_compare_part -----

  lemma {:induction false} DigitsFrom(s: seq<Char>, i: nat, k: nat)
    requires i <= k <= DigitsEnd(s, i) && i <= |s|
    ensures DigitsEnd(s, k) == DigitsEnd(s, i) && Digits(s, k, DigitsEnd(s, i))
    decreases k - i
  {
    if i < k {
      DigitsFrom(s, i + 1, k);
    }
  }

  lemma {:induction false} StillDigit(s: seq<Char>, i: nat, k: nat)
    requires i <= k <= DigitsEnd(s, i) && i <= |s|
    ensures IsDigit(At(s, k)) <==> k < DigitsEnd(s, i)
  {
  }

  /** while (*val == '0') val++. */
  method SkipZeros(s: seq<Char>, i0: nat) returns (i: nat)
    requires i0 <= |s|
    ensures i0 <= i <= DigitsEnd(s, i0) && At(s, i) != 48 && DigitsEnd(s, i) == DigitsEnd(s, i0)
    ensures Digits(s, i, DigitsEnd(s, i0)) && Value(s, i, DigitsEnd(s, i0)) == Value(s, i0, DigitsEnd(s, i0))
  {
    ghost var e := DigitsEnd(s, i0);
    i := i0;
    while At(s, i) == 48
      invariant i0 <= i <= e && Digits(s, i, e) && Value(s, i, e) == Value(s, i0, e)
      decreases e - i
    {
      StillDigit(s, i0, i);
      SkipZero(s, i, e);
      i := i + 1;
    }
    DigitsFrom(s, i0, i);
  }

  /** One more digit on either side keeps the sign of the first difference. */
  lemma {:induction false} NextDigits(v: nat, w: nat, a: int, b: int, first: int)
    requires 0 <= a <= 9 && 0 <= b <= 9 && Sign(first) == Sign(v - w)
    ensures Sign(if first == 0 then a - b else first) == Sign((10 * v + a) - (10 * w + b))
  {
  }

  /** The numbers at i0 and j0: leading zeros are skipped, more digits win, and otherwise the
      first difference decides. */
  method CompareNumbers(val: seq<Char>, i0: nat, ref: seq<Char>, j0: nat) returns (r: int, i: nat, j: nat)
    requires i0 <= |val| && j0 <= |ref|
    ensures Sign(r) == Sign(Value(val, i0, DigitsEnd(val, i0)) - Value(ref, j0, DigitsEnd(ref, j0)))
    ensures r == 0 ==> i == DigitsEnd(val, i0) && j == DigitsEnd(ref, j0)
  {
    hide DigitsEnd, Digits, Pow10;
    i := SkipZeros(val, i0);
    j := SkipZeros(ref, j0);
    ghost var e, f, si, sj := DigitsEnd(val, i0), DigitsEnd(ref, j0), i, j;
    var first := 0;
    PrefixDigits(val, si, i, e);
    PrefixDigits(ref, sj, j, f);
    while IsDigit(At(val, i)) && IsDigit(At(ref, j))
      invariant si <= i <= e && sj <= j <= f && i - si == j - sj
      invariant Digits(val, si, i) && Digits(ref, sj, j) && Sign(first) == Sign(Value(val, si, i) - Value(ref, sj, j))
      decreases e - i
    {
      StillDigit(val, si, i);
      StillDigit(ref, sj, j);
      NextDigits(Value(val, si, i), Value(ref, sj, j), val[i] as int - 48, ref[j] as int - 48, first);
      if first == 0 {
        first := At(val, i) - At(ref, j);
      }
      PrefixDigits(val, si, i + 1, e);
      PrefixDigits(ref, sj, j + 1, f);
      i := i + 1;
      j := j + 1;
    }
    StillDigit(val, si, i);
    StillDigit(ref, sj, j);
    if IsDigit(At(val, i)) {
      MoreDigits(val, si, e, ref, sj, f);
      return 1, i, j;
    }
    if IsDigit(At(ref, j)) {
      MoreDigits(ref, sj, f, val, si, e);
      return -1, i, j;
    }
    r := first;
  }

  lemma {:induction false} PrefixDigits(s: seq<Char>, i: nat, k: nat, e: nat)
    requires Digits(s, i, e) && i <= k <= e
    ensures Digits(s, i, k) && k <= |s|
  {
  }

  lemma {:induction false} MoreDigits(s: seq<Char>, i: nat, e: nat, t: seq<Char>, j: nat, f: nat)
    requires Digits(s, i, e) && Digits(t, j, f) && f - j < e - i && s[i] != 48
    ensures Value(s, i, e) > Value(t, j, f)
  {
    ValueAtLeast(s, i, e);
    ValueBelow(t, j, f);
    Pow10Monotone(f - j, e - i - 1);
  }

  lemma {:induction false} KeyHead(s: seq<Char>, i: nat)
    requires i <= |s|
    ensures Head(Key(s, i)) == Order(At(s, i))
    ensures i < |s| && !IsDigit(s[i]) ==> Key(s, i) == [Order(s[i])] + Key(s, i + 1)
    ensures i == |s| || IsDigit(s[i]) ==> Key(s, i) == [0] + NumberKey(s, i)
  {
  }

  /** At the end of a string its key is all zeros. */
  lemma {:induction false} RestIsKey(a: seq<Char>, i: nat, b: seq<Char>, j: nat)
    requires i <= |a| && j <= |b|
    ensures Compare(Rest(a, i), Rest(b, j)) == Compare(Key(a, i), Key(b, j))
  {
    hide Compare;
    FillUp(Rest(a, i));
    FillUp(Key(b, j));
    EndKey(a);
    EndKey(b);
  }

  lemma {:induction false} EndKey(s: seq<Char>)
    ensures Key(s, |s|) == [0, 0]
  {
    assert NumberKey(s, |s|) == [0];
  }

  lemma {:induction false} DifferentHeads(a: seq<int>, b: seq<int>)
    requires Head(a) != Head(b)
    ensures Compare(a, b) == Sign(Head(a) - Head(b))
  {
  }

  /** The text at i0 and j0, up to a difference or to the next numbers. */
  method CompareTexts(val: seq<Char>, i0: nat, ref: seq<Char>, j0: nat) returns (r: int, i: nat, j: nat)
    requires i0 <= |val| && j0 <= |ref|
    ensures i0 <= i <= |val| && j0 <= j <= |ref|
    ensures r != 0 ==> Sign(r) == Compare(Key(val, i0), Key(ref, j0))
    ensures r == 0 ==> && (i < |val| ==> IsDigit(val[i])) && (j < |ref| ==> IsDigit(ref[j]))
                       && Compare(NumberKey(val, i), NumberKey(ref, j)) == Compare(Key(val, i0), Key(ref, j0))
  {
    hide Compare, Key, NumberKey, Order;
    r, i, j := 0, i0, j0;
    while (At(val, i) != 0 && !IsDigit(At(val, i))) || (At(ref, j) != 0 && !IsDigit(At(ref, j)))
      invariant i0 <= i <= |val| && j0 <= j <= |ref|
      invariant Compare(Key(val, i), Key(ref, j)) == Compare(Key(val, i0), Key(ref, j0))
      decreases |val| - i
    {
      var vc, rc := Order(At(val, i)), Order(At(ref, j));
      KeyHead(val, i);
      KeyHead(ref, j);
      if vc != rc {
        DifferentHeads(Key(val, i), Key(ref, j));
        r := vc - rc;
        return;
      }
      OrderDistinguishes(At(val, i), At(ref, j));
      OrderDistinguishes(At(ref, j), At(val, i));
      CompareSame(vc, Key(val, i + 1), Key(ref, j + 1));
      i := i + 1;
      j := j + 1;
    }
    KeyHead(val, i);
    KeyHead(ref, j);
    CompareSame(0, NumberKey(val, i), NumberKey(ref, j));
  }

  lemma {:induction false} NumbersCompare(a: seq<Char>, i: nat, b: seq<Char>, j: nat)
    requires i <= |a| && j <= |b| && (i < |a| ==> IsDigit(a[i])) && (j < |b| ==> IsDigit(b[j]))
    ensures var v, w := Value(a, i, DigitsEnd(a, i)), Value(b, j, DigitsEnd(b, j));
            Compare(NumberKey(a, i), NumberKey(b, j))
            == if v == w then Compare(Rest(a, DigitsEnd(a, i)), Rest(b, DigitsEnd(b, j))) else Sign(v - w)
  {
    hide Compare, Key, Value;
    var v, w := Value(a, i, DigitsEnd(a, i)), Value(b, j, DigitsEnd(b, j));
    var x, y := Rest(a, DigitsEnd(a, i)), Rest(b, DigitsEnd(b, j));
    assert NumberKey(a, i) == [v] + x && NumberKey(b, j) == [w] + y;
    if v == w {
      CompareSame(v, x, y);
    } else {
      CompareFirst(v, x, w, y);
    }
  }

  /** version_compare_part: the sign of the result is that of the comparison of the keys. Every
      turn advances in at least one string, and neither is left behind its end. */
  method ComparePart(val: seq<Char>, ref: seq<Char>) returns (r: int)
    ensures Sign(r) == Compare(Rest(val, 0), Rest(ref, 0))
  {
    hide Compare, Key, NumberKey, Value, Rest;
    var i, j := 0, 0;
    while At(val, i) != 0 || At(ref, j) != 0
      invariant 0 <= i <= |val| && 0 <= j <= |ref|
      invariant Compare(Rest(val, i), Rest(ref, j)) == Compare(Rest(val, 0), Rest(ref, 0))
      decreases (|val| - i) + (|ref| - j)
    {
      RestIsKey(val, i, ref, j);
      ghost var i0, j0 := i, j;
      r, i, j := CompareTexts(val, i, ref, j);
      if r != 0 {
        return;
      }
      NumbersCompare(val, i, ref, j);
      r, i, j := CompareNumbers(val, i, ref, j);
      if r != 0 {
        return;
      }
    }
    BothEnded(val, ref);
    r := 0;
  }

  lemma {:induction false} BothEnded(a: seq<Char>, b: seq<Char>)
    ensures Compare(Rest(a, |a|), Rest(b, |b|)) == 0
  {
  }

  // ----- version_compare -----

  const COLON := 58
  const DASH := 45

  /** The first place of c from i on, the length if there is none (strchr). */
  function First(s: seq<Char>, c: int, i: nat): (k: nat)
    requires i <= |s|
    ensures i <= k <= |s| && (k < |s| ==> s[k] == c) && forall n :: i <= n < k ==> s[n] != c
    decreases |s| - i
  {
    if i == |s| || s[i] == c then i else First(s, c, i + 1)
  }

  /** One more than the last place of c below n, 0 if there is none (strrchr). */
  function Last(s: seq<Char>, c: int, n: nat): (k: nat)
    requires n <= |s|
    ensures k <= n && (k > 0 ==> s[k - 1] == c) && forall m :: k <= m < n ==> s[m] != c
  {
    if n == 0 || s[n - 1] == c then n else Last(s, c, n - 1)
  }

  predicate IsSpace(c: int)
  {
    c == 32 || 9 <= c <= 13
  }

  /** atoi of the string from i on. */
  function Atoi(s: seq<Char>, i: nat): int
    requires i <= |s|
    decreases |s| - i
  {
    if IsSpace(At(s, i)) then Atoi(s, i + 1)
    else
      var start := if At(s, i) == 43 || At(s, i) == 45 then i + 1 else i;
      var v: int := Value(s, start, DigitsEnd(s, start));
      if At(s, i) == 45 then -v else v
  }

  /** The three parts of a version: the epoch, an unsigned number, and two strings. */
  datatype Version = Version(epoch: nat, upstream: seq<Char>, revision: seq<Char>)

  /** What stands before the first colon, as a number; 0 without a colon. */
  function Epoch(s: seq<Char>): (e: nat)
    ensures e < TWO_32
  {
    if First(s, COLON, 0) < |s| then Unsigned(Atoi(s, 0)) else 0
  }

  /** An int stored into an unsigned variable. */
  function Unsigned(x: int): (u: nat)
    ensures u < TWO_32
  {
    x % TWO_32
  }

  /** What stands after the first colon. */
  function Body(s: seq<Char>): seq<Char>
  {
    var c := First(s, COLON, 0);
    if c < |s| then s[c + 1..] else s
  }

  function Upstream(body: seq<Char>): seq<Char>
  {
    var d := Last(body, DASH, |body|);
    if d > 0 then body[..d - 1] else body
  }

  function Revision(body: seq<Char>): seq<Char>
  {
    var d := Last(body, DASH, |body|);
    if d > 0 then body[d..] else []
  }

  function Parse(s: seq<Char>): Version
  {
    Version(Epoch(s), Upstream(Body(s)), Revision(Body(s)))
  }

  /** Epochs first, then upstream versions, then revisions. */
  function CompareVersions(v: Version, w: Version): (r: int)
    ensures -1 <= r <= 1
  {
    if v.epoch != w.epoch then Sign(v.epoch - w.epoch)
    else if Compare(Rest(v.upstream, 0), Rest(w.upstream, 0)) != 0 then Compare(Rest(v.upstream, 0), Rest(w.upstream, 0))
    else Compare(Rest(v.revision, 0), Rest(w.revision, 0))
  }

  /** version_compare. */
  method VersionCompare(ver1: seq<Char>, ver2: seq<Char>) returns (result: int)
    ensures Sign(result) == CompareVersions(Parse(ver1), Parse(ver2))
  {
    hide Compare, Rest, Atoi, Upstream, Revision, First;
    var epoch1, ch1 := SplitEpoch(ver1);
    var epoch2, ch2 := SplitEpoch(ver2);
    if epoch1 < epoch2 {
      return -1;
    }
    if epoch1 > epoch2 {
      return 1;
    }
    var up1, deb1 := SplitRevision(ch1);
    var up2, deb2 := SplitRevision(ch2);
    result := ComparePart(up1, up2);
    if result == 0 {
      result := ComparePart(deb1, deb2);
    }
  }

  method SplitEpoch(ver: seq<Char>) returns (epoch: nat, rest: seq<Char>)
    ensures epoch == Epoch(ver) && rest == Body(ver)
  {
    epoch, rest := 0, ver;
    var colon := First(ver, COLON, 0);
    if colon < |ver| {
      epoch := Unsigned(Atoi(ver, 0));
      rest := ver[colon + 1..];
    }
  }

  /** Chops off the revision; a missing one counts as an empty string. */
  method SplitRevision(body: seq<Char>) returns (upstream: seq<Char>, revision: seq<Char>)
    ensures upstream == Upstream(body) && revision == Revision(body)
  {
    var d := Last(body, DASH, |body|);
    upstream, revision := body, [];
    if d > 0 {
      upstream, revision := body[..d - 1], body[d..];
    }
  }

  /** version_compare is a total preorder: the sign turns around when the arguments do, ... */
  lemma {:induction false} VersionsAntisymmetric(v: Version, w: Version)
    ensures CompareVersions(v, w) == -CompareVersions(w, v) && CompareVersions(v, v) == 0
  {
    CompareAntisymmetric(Rest(v.upstream, 0), Rest(w.upstream, 0));
    CompareAntisymmetric(Rest(v.revision, 0), Rest(w.revision, 0));
    CompareAntisymmetric(Rest(v.upstream, 0), Rest(v.upstream, 0));
    CompareAntisymmetric(Rest(v.revision, 0), Rest(v.revision, 0));
  }

  /** ... and "not later than" carries over, strictly if one of the two steps is strict. */
  lemma {:induction false} VersionsTransitive(u: Version, v: Version, w: Version)
    requires CompareVersions(u, v) <= 0 && CompareVersions(v, w) <= 0
    ensures CompareVersions(u, w) <= 0
    ensures CompareVersions(u, v) < 0 || CompareVersions(v, w) < 0 ==> CompareVersions(u, w) < 0
  {
    hide Compare, Rest;
    var a, b, c := Rest(u.upstream, 0), Rest(v.upstream, 0), Rest(w.upstream, 0);
    var x, y, z := Rest(u.revision, 0), Rest(v.revision, 0), Rest(w.revision, 0);
    if u.epoch == v.epoch == w.epoch {
      CompareTransitive(a, b, c);
      CompareAntisymmetric(a, b);
      CompareAntisymmetric(b, c);
      CompareAntisymmetric(a, c);
      if Compare(a, c) == 0 {
        CompareTransitive(x, y, z);
      }
    }
  }

  /** Versions compare equal exactly when the epochs are equal and both parts agree in text and
      numbers, a missing number counting as zero. */
  lemma {:induction false} VersionsEqual(v: Version, w: Version)
    ensures CompareVersions(v, w) == 0 <==>
              && v.epoch == w.epoch
              && Agree(Rest(v.upstream, 0), Rest(w.upstream, 0)) && Agree(Rest(v.revision, 0), Rest(w.revision, 0))
  {
    hide Compare, Rest, Agree;
    CompareEqual(Rest(v.upstream, 0), Rest(w.upstream, 0));
    CompareEqual(Rest(v.revision, 0), Rest(w.revision, 0));
  }

  /** So "1." and "1.0" are equal although they differ in more than leading zeros. */
  lemma {:induction false} MissingNumber()
    ensures Compare(Rest([49, 46], 0), Rest([49, 46, 48], 0)) == 0
  {
    var s: seq<Char>, t: seq<Char> := [49, 46], [49, 46, 48];
    assert DigitsEnd(s, 0) == 1 && DigitsEnd(t, 0) == 1 && DigitsEnd(s, 2) == 2 && DigitsEnd(t, 2) == 3;
    assert Value(s, 0, 1) == Value(t, 0, 1) && Value(t, 2, 3) == 0;
    EndKey(s);
    assert Key(t, 2) == [0] + ([0] + []);
    assert Key(s, 1) == [Order(46)] + [0, 0];
    assert Key(t, 1) == [Order(46)] + Key(t, 2);
    assert Rest(s, 0) == Rest(t, 0);
    CompareAntisymmetric(Rest(s, 0), Rest(s, 0));
  }

  // ----- test_version -----

  datatype Operator = Null | Equal | Less | LessEqual | More | MoreEqual | Any

  /** test_version: whether version1 stands in the given relation to version2. */
  method TestVersion(version1: seq<Char>, version2: seq<Char>, op: Operator) returns (ok: bool)
    ensures ok <==> Holds(op, CompareVersions(Parse(version1), Parse(version2)))
  {
    hide CompareVersions, Parse;
    var result := VersionCompare(version1, version2);
    match op
    case Any => return true;
    case Equal => return result == 0;
    case Less => return result < 0;
    case LessEqual => return result <= 0;
    case More => return result > 0;
    case MoreEqual => return result >= 0;
    case Null => return false;
  }

  predicate Holds(op: Operator, sign: int)
  {
    match op
    case Any => true
    case Equal => sign == 0
    case Less => sign < 0
    case LessEqual => sign <= 0
    case More => sign > 0
    case MoreEqual => sign >= 0
    case Null => false
  }
}
