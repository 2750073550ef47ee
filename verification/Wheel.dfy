/**
 The trial division wheel of factor.c: 480 increments packed into 3-bit fields, unpacked into
 a table of bytes. Starting from 13 it visits every number that is not divisible by 2, 3, 5,
 7 or 11.
 */
module Wheel {
  import opened Sums

  const ROWS := 24
  const WHEEL_START := 5
  const WHEEL_SIZE := 5 + 24 * 20
  const TURN := 2310

  /** The 20 increments of one 64-bit word. */
  datatype Row = P(a: nat, b: nat, c: nat, d: nat, e: nat, f: nat, g: nat, h: nat, i: nat, j: nat, k: nat, l: nat, m: nat, n: nat, o: nat, p: nat, q: nat, r: nat, s: nat, t: nat)

  /** packed_wheel, before packing. */
  function RowAt(k: nat): Row
    requires k < ROWS
  {
    match k
    case 0 => P(4, 2, 4, 6, 2, 6, 4, 2, 4, 6, 6, 2, 6, 4, 2, 6, 4, 6, 8, 4)
    case 1 => P(2, 4, 2, 4, 14, 4, 6, 2, 10, 2, 6, 6, 4, 2, 4, 6, 2, 10, 2, 4)
    case 2 => P(2, 12, 10, 2, 4, 2, 4, 6, 2, 6, 4, 6, 6, 6, 2, 6, 4, 2, 6, 4)
    case 3 => P(6, 8, 4, 2, 4, 6, 8, 6, 10, 2, 4, 6, 2, 6, 6, 4, 2, 4, 6, 2)
    case 4 => P(6, 4, 2, 6, 10, 2, 10, 2, 4, 2, 4, 6, 8, 4, 2, 4, 12, 2, 6, 4)
    case 5 => P(2, 6, 4, 6, 12, 2, 4, 2, 4, 8, 6, 4, 6, 2, 4, 6, 2, 6, 10, 2)
    case 6 => P(4, 6, 2, 6, 4, 2, 4, 2, 10, 2, 10, 2, 4, 6, 6, 2, 6, 6, 4, 6)
    case 7 => P(6, 2, 6, 4, 2, 6, 4, 6, 8, 4, 2, 6, 4, 8, 6, 4, 6, 2, 4, 6)
    case 8 => P(8, 6, 4, 2, 10, 2, 6, 4, 2, 4, 2, 10, 2, 10, 2, 4, 2, 4, 8, 6)
    case 9 => P(4, 2, 4, 6, 6, 2, 6, 4, 8, 4, 6, 8, 4, 2, 4, 2, 4, 8, 6, 4)
    case 10 => P(6, 6, 6, 2, 6, 6, 4, 2, 4, 6, 2, 6, 4, 2, 4, 2, 10, 2, 10, 2)
    case 11 => P(6, 4, 6, 2, 6, 4, 2, 4, 6, 6, 8, 4, 2, 6, 10, 8, 4, 2, 4, 2)
    case 12 => P(4, 8, 10, 6, 2, 4, 8, 6, 6, 4, 2, 4, 6, 2, 6, 4, 6, 2, 10, 2)
    case 13 => P(10, 2, 4, 2, 4, 6, 2, 6, 4, 2, 4, 6, 6, 2, 6, 6, 6, 4, 6, 8)
    case 14 => P(4, 2, 4, 2, 4, 8, 6, 4, 8, 4, 6, 2, 6, 6, 4, 2, 4, 6, 8, 4)
    case 15 => P(2, 4, 2, 10, 2, 10, 2, 4, 2, 4, 6, 2, 10, 2, 4, 6, 8, 6, 4, 2)
    case 16 => P(6, 4, 6, 8, 4, 6, 2, 4, 8, 6, 4, 6, 2, 4, 6, 2, 6, 6, 4, 6)
    case 17 => P(6, 2, 6, 6, 4, 2, 10, 2, 10, 2, 4, 2, 4, 6, 2, 6, 4, 2, 10, 6)
    case 18 => P(2, 6, 4, 2, 6, 4, 6, 8, 4, 2, 4, 2, 12, 6, 4, 6, 2, 4, 6, 2)
    case 19 => P(12, 4, 2, 4, 8, 6, 4, 2, 4, 2, 10, 2, 10, 6, 2, 4, 6, 2, 6, 4)
    case 20 => P(2, 4, 6, 6, 2, 6, 4, 2, 10, 6, 8, 6, 4, 2, 4, 8, 6, 4, 6, 2)
    case 21 => P(4, 6, 2, 6, 6, 6, 4, 6, 2, 6, 4, 2, 4, 2, 10, 12, 2, 4, 2, 10)
    case 22 => P(2, 6, 4, 2, 4, 6, 6, 2, 10, 2, 6, 4, 14, 4, 2, 4, 2, 4, 8, 6)
    case _ => P(4, 6, 2, 4, 6, 2, 6, 6, 4, 2, 4, 6, 2, 6, 4, 2, 4, 12, 2, 12)
  }

  /** Where each row starts on the first turn, and where the turn ends. */
  function StartAt(k: nat): nat
    requires k <= ROWS
  {
    match k
    case 0 => 13
    case 1 => 101
    case 2 => 197
    case 3 => 293
    case 4 => 391
    case 5 => 491
    case 6 => 589
    case 7 => 683
    case 8 => 779
    case 9 => 877
    case 10 => 971
    case 11 => 1063
    case 12 => 1159
    case 13 => 1261
    case 14 => 1357
    case 15 => 1451
    case 16 => 1543
    case 17 => 1643
    case 18 => 1739
    case 19 => 1831
    case 20 => 1931
    case 21 => 2029
    case 22 => 2129
    case 23 => 2227
    case _ => 2323
  }

  // ----- what a row skips -----

  /** d has one of the first five primes as a divisor. */
  predicate Smooth(d: nat)
  {
    d % 2 == 0 || d % 3 == 0 || d % 5 == 0 || d % 7 == 0 || d % 11 == 0
  }

  /** The increment is an even number that fits a field, and the odd numbers it skips after
      v are all smooth. */
  predicate Clear(v: nat, inc: nat)
  {
    && v % 2 == 1 && 2 <= inc <= 14 && inc % 2 == 0
    && (inc > 2 ==> Smooth(v + 2)) && (inc > 4 ==> Smooth(v + 4)) && (inc > 6 ==> Smooth(v + 6))
    && (inc > 8 ==> Smooth(v + 8)) && (inc > 10 ==> Smooth(v + 10)) && (inc > 12 ==> Smooth(v + 12))
  }

  /** Five increments from v lead to end and skip nothing else. */
  predicate Five(v: nat, a: nat, b: nat, c: nat, d: nat, e: nat, end: nat)
  {
    && Clear(v, a) && Clear(v + a, b) && Clear(v + a + b, c) && Clear(v + a + b + c, d) && Clear(v + a + b + c + d, e)
    && v + a + b + c + d + e == end
  }

  /** So do the 20 increments of a row, which pass through x, y and z. */
  predicate Clears(v: nat, r: Row, x: nat, y: nat, z: nat, end: nat)
  {
    && Five(v, r.a, r.b, r.c, r.d, r.e, x) && Five(x, r.f, r.g, r.h, r.i, r.j, y)
    && Five(y, r.k, r.l, r.m, r.n, r.o, z) && Five(z, r.p, r.q, r.r, r.s, r.t, end)
  }

  lemma {:induction false} Row01()
    ensures Five(13, 4, 2, 4, 6, 2, 31) && Five(31, 6, 4, 2, 4, 6, 53)
    ensures Five(53, 6, 2, 6, 4, 2, 73) && Five(73, 6, 4, 6, 8, 4, 101)
  {
  }

  lemma {:induction false} Row02()
    ensures Five(101, 2, 4, 2, 4, 14, 127) && Five(127, 4, 6, 2, 10, 2, 151)
    ensures Five(151, 6, 6, 4, 2, 4, 173) && Five(173, 6, 2, 10, 2, 4, 197)
  {
  }

  lemma {:induction false} Row03()
    ensures Five(197, 2, 12, 10, 2, 4, 227) && Five(227, 2, 4, 6, 2, 6, 247)
    ensures Five(247, 4, 6, 6, 6, 2, 271) && Five(271, 6, 4, 2, 6, 4, 293)
  {
  }

  lemma {:induction false} Row04()
    ensures Five(293, 6, 8, 4, 2, 4, 317) && Five(317, 6, 8, 6, 10, 2, 349)
    ensures Five(349, 4, 6, 2, 6, 6, 373) && Five(373, 4, 2, 4, 6, 2, 391)
  {
  }

  lemma {:induction false} Row05()
    ensures Five(391, 6, 4, 2, 6, 10, 419) && Five(419, 2, 10, 2, 4, 2, 439)
    ensures Five(439, 4, 6, 8, 4, 2, 463) && Five(463, 4, 12, 2, 6, 4, 491)
  {
  }

  lemma {:induction false} Row06()
    ensures Five(491, 2, 6, 4, 6, 12, 521) && Five(521, 2, 4, 2, 4, 8, 541)
    ensures Five(541, 6, 4, 6, 2, 4, 563) && Five(563, 6, 2, 6, 10, 2, 589)
  {
  }

  lemma {:induction false} Row07()
    ensures Five(589, 4, 6, 2, 6, 4, 611) && Five(611, 2, 4, 2, 10, 2, 631)
    ensures Five(631, 10, 2, 4, 6, 6, 659) && Five(659, 2, 6, 6, 4, 6, 683)
  {
  }

  lemma {:induction false} Row08()
    ensures Five(683, 6, 2, 6, 4, 2, 703) && Five(703, 6, 4, 6, 8, 4, 731)
    ensures Five(731, 2, 6, 4, 8, 6, 757) && Five(757, 4, 6, 2, 4, 6, 779)
  {
  }

  lemma {:induction false} Row09()
    ensures Five(779, 8, 6, 4, 2, 10, 809) && Five(809, 2, 6, 4, 2, 4, 827)
    ensures Five(827, 2, 10, 2, 10, 2, 853) && Five(853, 4, 2, 4, 8, 6, 877)
  {
  }

  lemma {:induction false} Row10()
    ensures Five(877, 4, 2, 4, 6, 6, 899) && Five(899, 2, 6, 4, 8, 4, 923)
    ensures Five(923, 6, 8, 4, 2, 4, 947) && Five(947, 2, 4, 8, 6, 4, 971)
  {
  }

  lemma {:induction false} Row11()
    ensures Five(971, 6, 6, 6, 2, 6, 997) && Five(997, 6, 4, 2, 4, 6, 1019)
    ensures Five(1019, 2, 6, 4, 2, 4, 1037) && Five(1037, 2, 10, 2, 10, 2, 1063)
  {
  }

  lemma {:induction false} Row12()
    ensures Five(1063, 6, 4, 6, 2, 6, 1087) && Five(1087, 4, 2, 4, 6, 6, 1109)
    ensures Five(1109, 8, 4, 2, 6, 10, 1139) && Five(1139, 8, 4, 2, 4, 2, 1159)
  {
  }

  lemma {:induction false} Row13()
    ensures Five(1159, 4, 8, 10, 6, 2, 1189) && Five(1189, 4, 8, 6, 6, 4, 1217)
    ensures Five(1217, 2, 4, 6, 2, 6, 1237) && Five(1237, 4, 6, 2, 10, 2, 1261)
  {
  }

  lemma {:induction false} Row14()
    ensures Five(1261, 10, 2, 4, 2, 4, 1283) && Five(1283, 6, 2, 6, 4, 2, 1303)
    ensures Five(1303, 4, 6, 6, 2, 6, 1327) && Five(1327, 6, 6, 4, 6, 8, 1357)
  {
  }

  lemma {:induction false} Row15()
    ensures Five(1357, 4, 2, 4, 2, 4, 1373) && Five(1373, 8, 6, 4, 8, 4, 1403)
    ensures Five(1403, 6, 2, 6, 6, 4, 1427) && Five(1427, 2, 4, 6, 8, 4, 1451)
  {
  }

  lemma {:induction false} Row16()
    ensures Five(1451, 2, 4, 2, 10, 2, 1471) && Five(1471, 10, 2, 4, 2, 4, 1493)
    ensures Five(1493, 6, 2, 10, 2, 4, 1517) && Five(1517, 6, 8, 6, 4, 2, 1543)
  {
  }

  lemma {:induction false} Row17()
    ensures Five(1543, 6, 4, 6, 8, 4, 1571) && Five(1571, 6, 2, 4, 8, 6, 1597)
    ensures Five(1597, 4, 6, 2, 4, 6, 1619) && Five(1619, 2, 6, 6, 4, 6, 1643)
  {
  }

  lemma {:induction false} Row18()
    ensures Five(1643, 6, 2, 6, 6, 4, 1667) && Five(1667, 2, 10, 2, 10, 2, 1693)
    ensures Five(1693, 4, 2, 4, 6, 2, 1711) && Five(1711, 6, 4, 2, 10, 6, 1739)
  {
  }

  lemma {:induction false} Row19()
    ensures Five(1739, 2, 6, 4, 2, 6, 1759) && Five(1759, 4, 6, 8, 4, 2, 1783)
    ensures Five(1783, 4, 2, 12, 6, 4, 1811) && Five(1811, 6, 2, 4, 6, 2, 1831)
  {
  }

  lemma {:induction false} Row20()
    ensures Five(1831, 12, 4, 2, 4, 8, 1861) && Five(1861, 6, 4, 2, 4, 2, 1879)
    ensures Five(1879, 10, 2, 10, 6, 2, 1909) && Five(1909, 4, 6, 2, 6, 4, 1931)
  {
  }

  lemma {:induction false} Row21()
    ensures Five(1931, 2, 4, 6, 6, 2, 1951) && Five(1951, 6, 4, 2, 10, 6, 1979)
    ensures Five(1979, 8, 6, 4, 2, 4, 2003) && Five(2003, 8, 6, 4, 6, 2, 2029)
  {
  }

  lemma {:induction false} Row22()
    ensures Five(2029, 4, 6, 2, 6, 6, 2053) && Five(2053, 6, 4, 6, 2, 6, 2077)
    ensures Five(2077, 4, 2, 4, 2, 10, 2099) && Five(2099, 12, 2, 4, 2, 10, 2129)
  {
  }

  lemma {:induction false} Row23()
    ensures Five(2129, 2, 6, 4, 2, 4, 2147) && Five(2147, 6, 6, 2, 10, 2, 2173)
    ensures Five(2173, 6, 4, 14, 4, 2, 2203) && Five(2203, 4, 2, 4, 8, 6, 2227)
  {
  }

  lemma {:induction false} Row24()
    ensures Five(2227, 4, 6, 2, 4, 6, 2249) && Five(2249, 2, 6, 6, 4, 2, 2269)
    ensures Five(2269, 4, 6, 2, 6, 4, 2291) && Five(2291, 2, 4, 12, 2, 12, 2323)
  {
  }

  lemma {:induction false} RowClears(k: nat) returns (x: nat, y: nat, z: nat)
    requires k < ROWS
    ensures Clears(StartAt(k), RowAt(k), x, y, z, StartAt(k + 1))
  {
    hide Five;
    match k
    case 0 => Row01(); x, y, z := 31, 53, 73;
    case 1 => Row02(); x, y, z := 127, 151, 173;
    case 2 => Row03(); x, y, z := 227, 247, 271;
    case 3 => Row04(); x, y, z := 317, 349, 373;
    case 4 => Row05(); x, y, z := 419, 439, 463;
    case 5 => Row06(); x, y, z := 521, 541, 563;
    case 6 => Row07(); x, y, z := 611, 631, 659;
    case 7 => Row08(); x, y, z := 703, 731, 757;
    case 8 => Row09(); x, y, z := 809, 827, 853;
    case 9 => Row10(); x, y, z := 899, 923, 947;
    case 10 => Row11(); x, y, z := 997, 1019, 1037;
    case 11 => Row12(); x, y, z := 1087, 1109, 1139;
    case 12 => Row13(); x, y, z := 1189, 1217, 1237;
    case 13 => Row14(); x, y, z := 1283, 1303, 1327;
    case 14 => Row15(); x, y, z := 1373, 1403, 1427;
    case 15 => Row16(); x, y, z := 1471, 1493, 1517;
    case 16 => Row17(); x, y, z := 1571, 1597, 1619;
    case 17 => Row18(); x, y, z := 1667, 1693, 1711;
    case 18 => Row19(); x, y, z := 1759, 1783, 1811;
    case 19 => Row20(); x, y, z := 1861, 1879, 1909;
    case 20 => Row21(); x, y, z := 1951, 1979, 2003;
    case 21 => Row22(); x, y, z := 2053, 2077, 2099;
    case 22 => Row23(); x, y, z := 2147, 2173, 2203;
    case _ => Row24(); x, y, z := 2249, 2269, 2291;
  }

  // ----- rows as sequences -----

  function Cells(r: Row): (s: seq<nat>)
    ensures |s| == 20
  {
    [r.a, r.b, r.c, r.d, r.e, r.f, r.g, r.h, r.i, r.j, r.k, r.l, r.m, r.n, r.o, r.p, r.q, r.r, r.s, r.t]
  }

  /** The number reached from v after i increments. */
  function Reach(v: nat, s: seq<nat>, i: nat): nat
    requires i <= |s|
  {
    if i == 0 then v else Reach(v, s, i - 1) + s[i - 1]
  }

  lemma {:induction false} FiveSteps(v: nat, s: seq<nat>, i: nat, end: nat)
    requires i + 5 <= |s| && Five(Reach(v, s, i), s[i], s[i + 1], s[i + 2], s[i + 3], s[i + 4], end)
    ensures Reach(v, s, i + 5) == end
    ensures forall j :: i <= j < i + 5 ==> Clear(Reach(v, s, j), s[j])
  {
    hide Clear;
    var x := Reach(v, s, i);
    assert Reach(v, s, i + 1) == x + s[i];
    assert Reach(v, s, i + 2) == x + s[i] + s[i + 1];
    assert Reach(v, s, i + 3) == x + s[i] + s[i + 1] + s[i + 2];
    assert Reach(v, s, i + 4) == x + s[i] + s[i + 1] + s[i + 2] + s[i + 3];
  }

  lemma {:induction false} RowSteps(k: nat)
    requires k < ROWS
    ensures var s := Cells(RowAt(k));
            && Reach(StartAt(k), s, 20) == StartAt(k + 1)
            && forall j :: 0 <= j < 20 ==> Clear(Reach(StartAt(k), s, j), s[j])
  {
    hide Clear, Five, RowAt, StartAt, Reach;
    var x, y, z := RowClears(k);
    var v, s := StartAt(k), Cells(RowAt(k));
    ReachNone(v, s);
    FiveSteps(v, s, 0, x);
    FiveSteps(v, s, 5, y);
    FiveSteps(v, s, 10, z);
    FiveSteps(v, s, 15, StartAt(k + 1));
  }

  lemma {:induction false} ReachNone(v: nat, s: seq<nat>)
    ensures Reach(v, s, 0) == v
  {
  }

  // ----- the table -----

  /** The table holds the five first increments and then the rows. */
  ghost predicate WheelTab(tab: seq<nat>)
  {
    && |tab| == WHEEL_SIZE && tab[..5] == [1, 2, 2, 4, 2]
    && forall k :: 0 <= k < ROWS ==> RowCopied(tab, k)
  }

  ghost predicate RowCopied(tab: seq<nat>, k: nat)
    requires k < ROWS
  {
    25 + 20 * k <= |tab| && tab[5 + 20 * k..25 + 20 * k] == Cells(RowAt(k))
  }

  /** The number before increment w on the first turn. */
  function Spot(w: nat): nat
    requires WHEEL_START <= w < WHEEL_SIZE
  {
    Reach(StartAt((w - 5) / 20), Cells(RowAt((w - 5) / 20)), (w - 5) % 20)
  }

  /** The increment after the last one is the one at WHEEL_START. */
  function Next(w: nat): nat
  {
    if w + 1 < WHEEL_SIZE then w + 1 else WHEEL_START
  }

  lemma {:induction false} SpotStep(tab: seq<nat>, w: nat)
    requires WheelTab(tab) && WHEEL_START <= w < WHEEL_SIZE
    ensures Clear(Spot(w), tab[w])
    ensures Spot(w) + tab[w] == if w + 1 < WHEEL_SIZE then Spot(w + 1) else 13 + TURN
  {
    hide Clear, RowAt, StartAt, Cells, Reach;
    var k, j := (w - 5) / 20, (w - 5) % 20;
    assert RowCopied(tab, k);
    assert tab[w] == tab[5 + 20 * k..25 + 20 * k][j];
    RowSteps(k);
    var s := Cells(RowAt(k));
    ReachNext(StartAt(k), s, j);
    if j == 19 {
      TurnEnds(k + 1);
      if w + 1 < WHEEL_SIZE {
        assert (w + 1 - 5) / 20 == k + 1 && (w + 1 - 5) % 20 == 0;
        ReachNone(StartAt(k + 1), Cells(RowAt(k + 1)));
      }
    } else {
      assert (w + 1 - 5) / 20 == k && (w + 1 - 5) % 20 == j + 1;
    }
  }

  lemma {:induction false} ReachNext(v: nat, s: seq<nat>, i: nat)
    requires i < |s|
    ensures Reach(v, s, i + 1) == Reach(v, s, i) + s[i]
  {
  }

  lemma {:induction false} TurnEnds(k: nat)
    requires k <= ROWS
    ensures StartAt(0) == 13 && (k == ROWS ==> StartAt(k) == 13 + TURN) && StartAt(k) >= 13
  {
  }

  lemma {:induction false} SpotBounds(w: nat)
    requires WHEEL_START <= w < WHEEL_SIZE
    ensures Spot(w) >= 13 && Spot(WHEEL_START) == 13
  {
    hide RowAt, StartAt, Cells;
    var k := (w - 5) / 20;
    TurnEnds(k);
    ReachGrows(StartAt(k), Cells(RowAt(k)), (w - 5) % 20);
  }

  lemma {:induction false} ReachGrows(v: nat, s: seq<nat>, i: nat)
    requires i <= |s|
    ensures Reach(v, s, i) >= v
  {
    if i > 0 {
      ReachGrows(v, s, i - 1);
    }
  }

  // ----- trial divisors -----

  /** d has a divisor among the first five primes that is at most f. */
  predicate Caught(d: nat, f: nat)
  {
    || (f >= 2 && d % 2 == 0) || (f >= 3 && d % 3 == 0) || (f >= 5 && d % 5 == 0) || (f >= 7 && d % 7 == 0)
    || (f >= 11 && d % 11 == 0)
  }

  /** factor is a number that the wheel visits before increment w. */
  ghost predicate Position(factor: nat, w: nat)
  {
    && w < WHEEL_SIZE
    && if w < WHEEL_START then factor == [2, 3, 5, 7, 11][w]
       else Spot(w) <= factor && (factor - Spot(w)) % TURN == 0
  }

  lemma {:induction false} GapIsSmooth(v: nat, inc: nat, d: nat)
    requires Clear(v, inc) && v < d < v + inc
    ensures Smooth(d)
  {
    hide Smooth;
    var e := d - v;
    if e % 2 == 1 {
      EvenIsSmooth(d);
    } else {
      assert e == 2 || e == 4 || e == 6 || e == 8 || e == 10 || e == 12;
    }
  }

  lemma {:induction false} EvenIsSmooth(d: nat)
    requires d % 2 == 0
    ensures Smooth(d)
  {
  }

  lemma {:induction false} Shift(d: nat, p: nat, m: nat)
    requires p > 0
    ensures (d + p * m) % p == d % p
    decreases m
  {
    if m > 0 {
      Shift(d, p, m - 1);
      assert d + p * m == (d + p * (m - 1)) + p;
      AddOnce(d + p * (m - 1), p);
    }
  }

  lemma {:induction false} SmoothTurns(d: nat, c: nat)
    requires Smooth(d)
    ensures Smooth(d + TURN * c)
  {
    Shift(d, 2, 1155 * c);
    Shift(d, 3, 770 * c);
    Shift(d, 5, 462 * c);
    Shift(d, 7, 330 * c);
    Shift(d, 11, 210 * c);
  }

  /** The wheel goes on to the next number and skips only multiples of smaller primes. */
  lemma {:induction false} Advance(tab: seq<nat>, factor: nat, w: nat)
    requires WheelTab(tab) && Position(factor, w)
    ensures 1 <= tab[w] <= 14 && Position(factor + tab[w], Next(w)) && factor >= 2
    ensures forall d :: factor < d < factor + tab[w] ==> Caught(d, factor)
  {
    if w < WHEEL_START {
      FirstSteps(tab, factor, w);
    } else {
      hide Clear, Spot, WheelTab, Caught, Smooth;
      SpotBounds(w);
      SpotStep(tab, w);
      ClearBounds(Spot(w), tab[w]);
      var c := (factor - Spot(w)) / TURN;
      assert factor == Spot(w) + TURN * c;
      forall d | factor < d < factor + tab[w] ensures Caught(d, factor) {
        GapIsSmooth(Spot(w), tab[w], d - TURN * c);
        SmoothTurns(d - TURN * c, c);
        SmoothIsCaught(d, factor);
      }
      if w + 1 == WHEEL_SIZE {
        WholeTurns(factor + tab[w] - 13, c + 1);
      }
    }
  }

  lemma {:induction false} WholeTurns(x: int, c: nat)
    requires x == TURN * c
    ensures x % TURN == 0
  {
  }

  lemma {:induction false} SmoothIsCaught(d: nat, f: nat)
    requires Smooth(d) && f >= 11
    ensures Caught(d, f)
  {
  }

  /** 2, 3, 5, 7, 11 and 13. */
  lemma {:induction false} FirstSteps(tab: seq<nat>, factor: nat, w: nat)
    requires WheelTab(tab) && Position(factor, w) && w < WHEEL_START
    ensures 1 <= tab[w] <= 14 && Position(factor + tab[w], Next(w)) && factor >= 2
    ensures forall d :: factor < d < factor + tab[w] ==> Caught(d, factor)
  {
    hide Spot;
    SpotBounds(WHEEL_START);
    assert tab[w] == tab[..5][w];
  }

  lemma {:induction false} ClearBounds(v: nat, inc: nat)
    requires Clear(v, inc)
    ensures 2 <= inc <= 14 && inc % 2 == 0
  {
  }

  // ----- unpack_wheel -----

  /** The fields from index i on, three bits each, the lowest first. */
  function Fields(s: seq<nat>, i: nat): nat
    decreases |s| - i
  {
    if i >= |s| then 0 else s[i] / 2 + 8 * Fields(s, i + 1)
  }

  /** The word that the macros P and R make: the fields start at bit 1. */
  function Packed(r: Row): nat
  {
    2 * Fields(Cells(r), 0)
  }

  /** v holds the fields from index i on, and possibly a bit left over from the one before. */
  ghost predicate Unpacking(v: nat, s: seq<nat>, i: nat)
  {
    i <= |s| && 2 * Fields(s, i) <= v <= 2 * Fields(s, i) + 1
  }

  lemma {:induction false} UnpackStep(v: nat, s: seq<nat>, i: nat)
    requires Unpacking(v, s, i) && forall j :: 0 <= j < |s| ==> 2 <= s[j] <= 14 && s[j] % 2 == 0
    ensures i < |s| ==> v % 16 / 2 * 2 == s[i] && Unpacking(v / 8, s, i + 1)
    ensures i == |s| ==> v % 16 / 2 * 2 == 0
  {
    if i < |s| {
      assert Fields(s, i) == s[i] / 2 + 8 * Fields(s, i + 1);
      FieldAt(v, v - 2 * Fields(s, i), s[i], Fields(s, i + 1));
    } else {
      assert v <= 1;
    }
  }

  /** The lowest field of a word and what a shift by three bits leaves. */
  lemma {:induction false} FieldAt(v: nat, low: nat, c: nat, x: nat)
    requires low <= 1 && 2 <= c <= 14 && c % 2 == 0 && v == (low + c) + 16 * x
    ensures v % 16 == low + c && v / 8 == (low + c) / 8 + 2 * x
    ensures v % 16 / 2 * 2 == c
    ensures 2 * x <= v / 8 <= 2 * x + 1
  {
  }

  lemma {:induction false} RowFields(k: nat)
    requires k < ROWS
    ensures forall j :: 0 <= j < 20 ==> 2 <= Cells(RowAt(k))[j] <= 14 && Cells(RowAt(k))[j] % 2 == 0
  {
    hide Clear, RowAt, StartAt, Cells;
    RowSteps(k);
    var s := Cells(RowAt(k));
    forall j | 0 <= j < 20 ensures 2 <= s[j] <= 14 && s[j] % 2 == 0 {
      ClearBounds(Reach(StartAt(k), s, j), s[j]);
    }
  }

  /** unpack_wheel. */
  method UnpackWheel(tab: array<nat>)
    requires tab.Length == WHEEL_SIZE
    modifies tab
    ensures WheelTab(tab[..])
  {
    hide RowAt, Cells, Fields, RowCopied;
    tab[0], tab[1], tab[2], tab[3], tab[4] := 1, 2, 2, 4, 2;
    var p := 5;
    for i := 0 to ROWS
      invariant p == 5 + 20 * i && tab[..5] == [1, 2, 2, 4, 2]
      invariant forall k :: 0 <= k < i ==> RowCopied(tab[..], k)
    {
      ghost var before: seq<nat> := tab[..];
      p := UnpackRow(tab, p, RowAt(i), i);
      forall k | 0 <= k < i ensures RowCopied(tab[..], k) {
        RowKept(before, tab[..], k, 5 + 20 * i);
      }
      FirstKept(before, tab[..], 5 + 20 * i);
    }
  }

  lemma {:induction false} FirstKept(s: seq<nat>, t: seq<nat>, n: nat)
    requires 5 <= n <= |s| == |t| && s[..n] == t[..n]
    ensures s[..5] == t[..5]
  {
    assert s[..n][..5] == s[..5] && t[..n][..5] == t[..5];
  }

  lemma {:induction false} RowKept(s: seq<nat>, t: seq<nat>, k: nat, n: nat)
    requires k < ROWS && 25 + 20 * k <= n <= |s| == |t| && s[..n] == t[..n] && RowCopied(s, k)
    ensures RowCopied(t, k)
  {
    var a, b := 5 + 20 * k, 25 + 20 * k;
    assert s[..n][a..b] == s[a..b] && t[..n][a..b] == t[a..b];
  }

  /** The fields of one word, up to the first that is zero. */
  method UnpackRow(tab: array<nat>, start: nat, r: Row, ghost k: nat) returns (p: nat)
    requires k < ROWS && r == RowAt(k) && start == 5 + 20 * k && tab.Length == WHEEL_SIZE
    modifies tab
    ensures p == start + 20 && tab[..start] == old(tab[..start]) && RowCopied(tab[..], k)
  {
    hide RowAt, Cells, Fields, Unpacking;
    ghost var s, before := Cells(r), tab[..start];
    RowFields(k);
    var v := Packed(r);
    p := start;
    UnpackStart(r);
    UnpackStep(v, s, 0);
    while v % 16 / 2 * 2 != 0
      invariant start <= p <= start + 20 && v >= 0 && Unpacking(v, s, p - start)
      invariant v % 16 / 2 * 2 == 0 <==> p == start + 20
      invariant p < start + 20 ==> v % 16 / 2 * 2 == s[p - start]
      invariant tab[..start] == before && tab[start..p] == s[..p - start]
      decreases start + 20 - p
    {
      UnpackStep(v, s, p - start);
      tab[p] := v % 16 / 2 * 2;
      assert tab[start..p + 1] == tab[start..p] + [tab[p]];
      p := p + 1;
      v := v / 8;
      UnpackStep(v, s, p - start);
    }
    assert s[..20] == s;
  }

  lemma {:induction false} UnpackStart(r: Row)
    ensures Unpacking(Packed(r), Cells(r), 0)
  {
  }
}
