/**
 ct_init: the tables that map match lengths and distances to symbols, and the static
 trees. They are computed from the numbers of extra bits alone and turn out to be the
 inverse of the tables of section 3.2.5 of RFC 1951.
 */
module SymbolTables {
  import opened Sums
  import opened Inflate
  import opened LengthCounts
  import opened CodeAssignment

  const LENGTH_CODES := 29
  const D_CODES := 30
  const EXTRA_LBITS: seq<nat> := LENGTH_EXTRA
  const EXTRA_DBITS: seq<nat> := DIST_EXTRA

  // ----- the reader's tables are consecutive ranges -----

  lemma {:induction false} LengthRange(c: nat)
    requires c < 28
    ensures LENGTH_BASE[c] >= 3
    ensures LENGTH_BASE[c] + Pow2(LENGTH_EXTRA[c]) == if c < 27 then LENGTH_BASE[c + 1] else 259
  {
    Pow2Table();
  }

  lemma {:induction false} DistRange(c: nat)
    requires c < 30
    ensures DIST_BASE[c] >= 1
    ensures DIST_BASE[c] + Pow2(DIST_EXTRA[c]) == if c < 29 then DIST_BASE[c + 1] else 32769
  {
    if c < 10 {
      DistRangeLow(c);
    } else if c < 20 {
      DistRangeMiddle(c);
    } else {
      DistRangeHigh(c);
    }
  }

  lemma {:induction false} DistRangeLow(c: nat)
    requires c < 10
    ensures DIST_BASE[c] >= 1 && DIST_BASE[c] + Pow2(DIST_EXTRA[c]) == DIST_BASE[c + 1]
  {
    Pow2Table();
  }

  lemma {:induction false} DistRangeMiddle(c: nat)
    requires 10 <= c < 20
    ensures DIST_BASE[c] >= 1 && DIST_BASE[c] + Pow2(DIST_EXTRA[c]) == DIST_BASE[c + 1]
  {
    Pow2Table();
  }

  lemma {:induction false} DistRangeHigh(c: nat)
    requires 20 <= c < 30
    ensures DIST_BASE[c] >= 1 && DIST_BASE[c] + Pow2(DIST_EXTRA[c]) == if c < 29 then DIST_BASE[c + 1] else 32769
  {
    Pow2Table();
  }

  /** From symbol 16 on the ranges are multiples of 128. */
  lemma {:induction false} CoarseRange(c: nat)
    requires 16 <= c < 30
    ensures DIST_EXTRA[c] >= 7 && Pow2(DIST_EXTRA[c]) == 128 * Pow2(DIST_EXTRA[c] - 7)
  {
    Pow2Add(7, DIST_EXTRA[c] - 7);
    Pow2Table();
  }

  // ----- what the tables must say -----

  /** Symbol c with the extra value l - base[c] stands for the match length l + 3. */
  ghost predicate LengthEntry(lengthCode: seq<nat>, baseLength: seq<nat>, l: nat)
  {
    && l < |lengthCode| && lengthCode[l] < LENGTH_CODES <= |baseLength|
    && var c := lengthCode[l];
       if LENGTH_EXTRA[c] == 0 then LENGTH_BASE[c] == l + 3
       else && baseLength[c] <= l < baseLength[c] + Pow2(LENGTH_EXTRA[c])
            && LENGTH_BASE[c] == baseLength[c] + 3
  }

  /** Symbol c with the extra value d - base[c] stands for the distance d + 1. */
  ghost predicate DistEntry(c: nat, baseDist: seq<nat>, d: nat)
  {
    && c < D_CODES <= |baseDist|
    && baseDist[c] <= d < baseDist[c] + Pow2(DIST_EXTRA[c])
    && DIST_BASE[c] == baseDist[c] + 1
  }

  ghost predicate LengthsDone(lengthCode: seq<nat>, baseLength: seq<nat>)
  {
    |lengthCode| == 256 && |baseLength| == LENGTH_CODES && forall l :: 0 <= l < 256 ==> LengthEntry(lengthCode, baseLength, l)
  }

  /** D_CODE. */
  function DCode(distCode: seq<nat>, d: nat): nat
    requires |distCode| == 512 && d < 32768
  {
    if d < 256 then distCode[d] else distCode[256 + d / 128]
  }

  ghost predicate DistsDone(distCode: seq<nat>, baseDist: seq<nat>)
  {
    |distCode| == 512 && |baseDist| == D_CODES && forall d :: 0 <= d < 32768 ==> DistEntry(DCode(distCode, d), baseDist, d)
  }

  /** Fills length_code and base_length. */
  method InitLengths(lengthCode: array<nat>, baseLength: array<nat>)
    requires lengthCode.Length == 256 && baseLength.Length == LENGTH_CODES && lengthCode != baseLength
    modifies lengthCode, baseLength
    ensures LengthsDone(lengthCode[..], baseLength[..])
  {
    hide Pow2, LengthsUpto;
    var length: nat := 0;
    NoLengths(lengthCode[..], baseLength[..]);
    for code := 0 to LENGTH_CODES - 1
      invariant 0 <= length <= 256 && length == (if code < 28 then LENGTH_BASE[code] - 3 else 256)
      invariant LengthsUpto(lengthCode[..], baseLength[..], code, length)
    {
      LengthRange(code);
      LengthLimit(code);
      LengthKept(lengthCode[..], baseLength[..], code, length, length);
      ghost var start: nat, base: seq<nat> := length, baseLength[..][code := length];
      baseLength[code] := length;
      for n := 0 to Pow2(EXTRA_LBITS[code])
        invariant length == start + n && baseLength[..] == base
        invariant LengthsUpto(lengthCode[..], base, code + 1, length)
      {
        LengthNext(lengthCode[..], base, code, length);
        ghost var lc: seq<nat> := lengthCode[..];
        lengthCode[length] := code;
        assert lengthCode[..] == lc[length := code];
        length := length + 1;
      }
    }
    LengthsFilled(lengthCode[..], baseLength[..]);
    lengthCode[length - 1] := LENGTH_CODES - 1;
  }

  ghost predicate LengthsUpto(lengthCode: seq<nat>, baseLength: seq<nat>, codes: nat, upto: nat)
  {
    upto <= |lengthCode| && forall l :: 0 <= l < upto ==> LengthFilled(lengthCode[l], baseLength, codes, l)
  }

  lemma {:induction false} LengthLimit(c: nat)
    requires c < 28
    ensures c < 27 ==> LENGTH_BASE[c + 1] <= 258
  {
  }

  lemma {:induction false} NoLengths(lengthCode: seq<nat>, baseLength: seq<nat>)
    ensures LengthsUpto(lengthCode, baseLength, 0, 0)
  {
  }

  lemma {:induction false} LengthKept(lengthCode: seq<nat>, baseLength: seq<nat>, code: nat, v: nat, upto: nat)
    requires LengthsUpto(lengthCode, baseLength, code, upto) && code < 28 <= |baseLength|
    ensures LengthsUpto(lengthCode, baseLength[code := v], code + 1, upto)
  {
    hide Pow2;
    var base, codes := baseLength[code := v], code + 1;
    forall l | 0 <= l < upto ensures LengthFilled(lengthCode[l], base, codes, l) {
      assert LengthFilled(lengthCode[l], baseLength, code, l);
    }
  }

  lemma {:induction false} LengthNext(lengthCode: seq<nat>, baseLength: seq<nat>, code: nat, length: nat)
    requires LengthsUpto(lengthCode, baseLength, code + 1, length) && length < |lengthCode| && code < 28 <= |baseLength|
    requires LENGTH_BASE[code] == baseLength[code] + 3 && baseLength[code] <= length < baseLength[code] + Pow2(LENGTH_EXTRA[code])
    ensures LengthsUpto(lengthCode[length := code], baseLength, code + 1, length + 1)
  {
    hide Pow2;
    var lc, codes := lengthCode[length := code], code + 1;
    forall l | 0 <= l < length + 1 ensures LengthFilled(lc[l], baseLength, codes, l) {
      if l < length {
        assert LengthFilled(lengthCode[l], baseLength, codes, l);
      }
    }
  }

  /** Length l belongs to a symbol c below `codes` whose range is recorded. */
  ghost predicate LengthFilled(c: nat, baseLength: seq<nat>, codes: nat, l: nat)
  {
    && c < codes <= 28 <= |baseLength|
    && LENGTH_BASE[c] == baseLength[c] + 3 && baseLength[c] <= l < baseLength[c] + Pow2(LENGTH_EXTRA[c])
  }

  /** The last length gets a symbol of its own. */
  lemma {:induction false} LengthsFilled(lengthCode: seq<nat>, baseLength: seq<nat>)
    requires |lengthCode| == 256 && |baseLength| == LENGTH_CODES && LengthsUpto(lengthCode, baseLength, 28, 256)
    ensures LengthsDone(lengthCode[255 := 28], baseLength)
  {
    var lc := lengthCode[255 := 28];
    forall l | 0 <= l < 256 ensures LengthEntry(lc, baseLength, l) {
      if l < 255 {
        assert LengthFilled(lengthCode[l], baseLength, 28, l);
        assert Pow2(0) == 1;
      }
    }
  }

  /** Distance d belongs to a symbol c below `codes` whose range is recorded. */
  ghost predicate DistFilled(c: nat, baseDist: seq<nat>, codes: nat, d: nat)
  {
    c < codes <= D_CODES && DistEntry(c, baseDist, d)
  }

  /** Fills the fine part of dist_code, for distances below 256. */
  method InitNearDists(distCode: array<nat>, baseDist: array<nat>)
    requires distCode.Length == 512 && baseDist.Length == D_CODES && distCode != baseDist
    modifies distCode, baseDist
    ensures forall d :: 0 <= d < 256 ==> DistFilled(distCode[d], baseDist[..], 16, d)
  {
    hide Pow2, NearUpto;
    var dist: nat := 0;
    NoDists(distCode[..], baseDist[..]);
    for code := 0 to 16
      invariant 0 <= dist <= 256 && dist == DIST_BASE[code] - 1
      invariant NearUpto(distCode[..], baseDist[..], code, dist)
    {
      DistRange(code);
      NearLimit(code);
      DistKept(distCode[..], baseDist[..], code, dist, dist);
      ghost var start: nat, base: seq<nat> := dist, baseDist[..][code := dist];
      baseDist[code] := dist;
      for n := 0 to Pow2(EXTRA_DBITS[code])
        invariant dist == start + n && baseDist[..] == base
        invariant NearUpto(distCode[..], base, code + 1, dist)
      {
        DistNext(distCode[..], base, code, dist);
        ghost var dc: seq<nat> := distCode[..];
        distCode[dist] := code;
        assert distCode[..] == dc[dist := code];
        dist := dist + 1;
      }
    }
    NearDone(distCode[..], baseDist[..]);
  }

  ghost predicate NearUpto(distCode: seq<nat>, baseDist: seq<nat>, codes: nat, upto: nat)
  {
    upto <= |distCode| && forall d :: 0 <= d < upto ==> DistFilled(distCode[d], baseDist, codes, d)
  }

  lemma {:induction false} NoDists(distCode: seq<nat>, baseDist: seq<nat>)
    ensures NearUpto(distCode, baseDist, 0, 0)
  {
  }

  lemma {:induction false} NearDone(distCode: seq<nat>, baseDist: seq<nat>)
    requires |distCode| == 512 && NearUpto(distCode, baseDist, 16, 256)
    ensures forall d :: 0 <= d < 256 ==> DistFilled(distCode[d], baseDist, 16, d)
  {
  }

  lemma {:induction false} DistKept(distCode: seq<nat>, baseDist: seq<nat>, code: nat, v: nat, upto: nat)
    requires NearUpto(distCode, baseDist, code, upto) && code < D_CODES <= |baseDist|
    ensures NearUpto(distCode, baseDist[code := v], code + 1, upto)
  {
    hide Pow2;
    var base, codes := baseDist[code := v], code + 1;
    forall d | 0 <= d < upto ensures DistFilled(distCode[d], base, codes, d) {
      assert DistFilled(distCode[d], baseDist, code, d);
    }
  }

  lemma {:induction false} DistNext(distCode: seq<nat>, baseDist: seq<nat>, code: nat, dist: nat)
    requires NearUpto(distCode, baseDist, code + 1, dist) && dist < |distCode| && code < D_CODES <= |baseDist|
    requires DIST_BASE[code] == baseDist[code] + 1 && baseDist[code] <= dist < baseDist[code] + Pow2(DIST_EXTRA[code])
    ensures NearUpto(distCode[dist := code], baseDist, code + 1, dist + 1)
  {
    hide Pow2;
    var dc, codes := distCode[dist := code], code + 1;
    forall d | 0 <= d < dist + 1 ensures DistFilled(dc[d], baseDist, codes, d) {
      if d < dist {
        assert DistFilled(distCode[d], baseDist, codes, d);
      }
    }
  }

  lemma {:induction false} NearLimit(c: nat)
    requires c < 16
    ensures DIST_BASE[c + 1] <= 257
  {
  }

  /** The 128 distances 128k .. 128k + 127 all belong to symbol c. */
  ghost predicate FarFilled(distCode: seq<nat>, baseDist: seq<nat>, codes: nat, k: nat)
  {
    && 256 + k < |distCode| && distCode[256 + k] < codes <= D_CODES == |baseDist|
    && var c := distCode[256 + k];
       && DIST_BASE[c] == baseDist[c] + 1
       && baseDist[c] <= 128 * k && 128 * k + 128 <= baseDist[c] + Pow2(DIST_EXTRA[c])
  }

  ghost predicate FarAll(distCode: seq<nat>, baseDist: seq<nat>, codes: nat, upto: nat)
  {
    forall k :: 2 <= k < upto ==> FarFilled(distCode, baseDist, codes, k)
  }

  lemma {:induction false} FarNext(d: seq<nat>, d': seq<nat>, base: seq<nat>, code: nat, dist: nat)
    requires |d| == |d'| == 512 && 2 <= dist < 256 && d' == d[256 + dist := code]
    requires FarAll(d, base, code + 1, dist)
    requires |base| == D_CODES && code < D_CODES && DIST_BASE[code] == base[code] + 1
    requires base[code] <= 128 * dist && 128 * dist + 128 <= base[code] + Pow2(DIST_EXTRA[code])
    ensures FarAll(d', base, code + 1, dist + 1)
  {
    var codes := code + 1;
    forall k | 2 <= k < dist + 1 ensures FarFilled(d', base, codes, k) {
      if k < dist {
        assert FarFilled(d, base, code + 1, k);
      }
    }
  }

  lemma {:induction false} FarKept(d: seq<nat>, base: seq<nat>, code: nat, v: nat, dist: nat)
    requires |base| == D_CODES && code < D_CODES && dist <= 256
    requires FarAll(d, base, code, dist)
    ensures FarAll(d, base[code := v], code + 1, dist)
  {
    var base', codes := base[code := v], code + 1;
    forall k | 2 <= k < dist ensures FarFilled(d, base', codes, k) {
      assert FarFilled(d, base, code, k);
    }
  }

  /** Fills the coarse part of dist_code, one entry for 128 distances. */
  method InitFarDists(distCode: array<nat>, baseDist: array<nat>)
    requires distCode.Length == 512 && baseDist.Length == D_CODES && distCode != baseDist
    requires forall d :: 0 <= d < 256 ==> DistFilled(distCode[d], baseDist[..], 16, d)
    modifies distCode, baseDist
    ensures DistsDone(distCode[..], baseDist[..])
  {
    hide Pow2, DistEntry, FarFilled, DistFilled;
    var dist := 2;
    ghost var near := distCode[..256];
    for code := 16 to D_CODES
      invariant 2 <= dist <= 256 && 128 * dist == (if code < 30 then DIST_BASE[code] - 1 else 32768)
      invariant distCode[..256] == near
      invariant forall d :: 0 <= d < 256 ==> DistFilled(near[d], baseDist[..], 16, d)
      invariant FarAll(distCode[..], baseDist[..], code, dist)
    {
      DistRange(code);
      CoarseRange(code);
      FarLimit(code);
      ghost var before := baseDist[..];
      FarKept(distCode[..], before, code, dist * 128, dist);
      baseDist[code] := dist * 128;
      ghost var start, base := dist, before[code := dist * 128];
      assert baseDist[..] == base;
      NearKept(near, before, base, code);
      for n := 0 to Pow2(EXTRA_DBITS[code] - 7)
        invariant dist == start + n && baseDist[..] == base && distCode[..256] == near
        invariant FarAll(distCode[..], base, code + 1, dist)
      {
        ghost var d := distCode[..];
        distCode[256 + dist] := code;
        FarNext(d, distCode[..], base, code, dist);
        dist := dist + 1;
      }
    }
    DistsFilled(distCode[..], baseDist[..], near);
  }

  lemma {:induction false} FarLimit(c: nat)
    requires 16 <= c < 30
    ensures c < 29 ==> DIST_BASE[c + 1] <= 32768
  {
  }

  lemma {:induction false} NearKept(near: seq<nat>, base: seq<nat>, base': seq<nat>, code: nat)
    requires |near| == 256 && 16 <= code < D_CODES == |base| == |base'| && forall c :: 0 <= c < 16 ==> base'[c] == base[c]
    requires forall d :: 0 <= d < 256 ==> DistFilled(near[d], base, 16, d)
    ensures forall d :: 0 <= d < 256 ==> DistFilled(near[d], base', 16, d)
  {
    forall d | 0 <= d < 256 ensures DistFilled(near[d], base', 16, d) {
      assert DistFilled(near[d], base, 16, d);
    }
  }

  lemma {:induction false} DistsFilled(distCode: seq<nat>, baseDist: seq<nat>, near: seq<nat>)
    requires |distCode| == 512 && |baseDist| == D_CODES && distCode[..256] == near
    requires forall d :: 0 <= d < 256 ==> DistFilled(near[d], baseDist, 16, d)
    requires FarAll(distCode, baseDist, D_CODES, 256)
    ensures DistsDone(distCode, baseDist)
  {
    forall d | 0 <= d < 32768 ensures DistEntry(DCode(distCode, d), baseDist, d) {
      if d < 256 {
        assert DistFilled(near[d], baseDist, 16, d) && near[d] == distCode[d];
      } else {
        assert FarFilled(distCode, baseDist, D_CODES, d / 128);
      }
    }
  }

  // ----- the static trees -----

  function Clamp(k: int, most: nat): nat
  {
    if k < 0 then 0 else if k > most then most else k
  }

  /** How many of the first k symbols have length b in the fixed code. */
  function FixedCount(k: nat, b: nat): nat
  {
    if b == 8 then Clamp(k, 144) + Clamp(k - 280, 8)
    else if b == 9 then Clamp(k - 144, 112)
    else if b == 7 then Clamp(k - 256, 24)
    else 0
  }

  lemma {:induction false} FixedPrefix(k: nat, b: nat)
    requires k <= 288 && b > 0
    ensures Count(FixedLiteralLengths()[..k], b) == FixedCount(k, b)
    ensures Kraft(FixedLiteralLengths()[..k]) == 128 * FixedCount(k, 8) + 64 * FixedCount(k, 9) + 256 * FixedCount(k, 7)
  {
    var s := FixedLiteralLengths();
    if k > 0 {
      FixedPrefix(k - 1, b);
      assert s[..k][..k - 1] == s[..k - 1] && s[..k][k - 1] == s[k - 1];
      assert Weight(7) == 256 && Weight(8) == 128 && Weight(9) == 64 by {
        Pow2Table();
      }
    }
  }

  /** The counts that ct_init writes into bl_count. */
  lemma {:induction false} FixedLiteralCode(bl: seq<nat>)
    requires |bl| == MAX_BITS + 1 && bl[7] == 279 - 255 && bl[8] == (143 + 1) + (287 - 279) && bl[9] == 255 - 143
    requires forall b :: 0 <= b <= MAX_BITS && b != 7 && b != 8 && b != 9 ==> bl[b] == 0
    ensures Counts(bl, FixedLiteralLengths()) && ValidLengths(FixedLiteralLengths())
    ensures Kraft(FixedLiteralLengths()) == Pow2(MAX_BITS)
  {
    var s := FixedLiteralLengths();
    assert s[..288] == s;
    forall b | 1 <= b <= MAX_BITS ensures bl[b] == Count(s, b) {
      FixedPrefix(288, b);
    }
    FixedPrefix(288, 1);
    Pow2Table();
  }

  lemma {:induction false} FixedDistPrefix(k: nat, b: nat)
    requires k <= 32
    ensures Count(FixedDistanceLengths()[..k], b) == if b == 5 then k else 0
    ensures Kraft(FixedDistanceLengths()[..k]) == 1024 * k
  {
    var s := FixedDistanceLengths();
    if k > 0 {
      FixedDistPrefix(k - 1, b);
      assert s[..k][..k - 1] == s[..k - 1] && s[..k][k - 1] == 5;
      assert Weight(5) == 1024 by {
        Pow2Table();
      }
    }
  }

  lemma {:induction false} FixedFirst(b: nat)
    requires b <= 5
    ensures FirstCode(FixedDistanceLengths(), b) == 0
  {
    if b > 0 {
      FixedFirst(b - 1);
      FixedDistPrefix(32, b - 1);
      assert FixedDistanceLengths()[..32] == FixedDistanceLengths();
    }
  }

  /** In the fixed distance code the code of a symbol is its number. */
  lemma {:induction false} FixedDistanceCode(n: nat)
    requires n < 32
    ensures CanonicalCode(FixedDistanceLengths(), n) == n
    ensures Kraft(FixedDistanceLengths()) == Pow2(MAX_BITS)
  {
    FixedFirst(5);
    FixedDistPrefix(n, 5);
    FixedDistPrefix(32, 5);
    assert FixedDistanceLengths()[..32] == FixedDistanceLengths();
    Pow2Table();
  }

  /** The static trees as arrays of codes and lengths. */
  ghost predicate StaticTrees(fcL: seq<nat>, dlL: seq<nat>, fcD: seq<nat>, dlD: seq<nat>)
  {
    && |fcL| == |dlL| == 288 && |fcD| == |dlD| == D_CODES
    && dlL == FixedLiteralLengths() && CodesSet(fcL, FixedLiteralLengths())
    && forall n :: 0 <= n < D_CODES ==> dlD[n] == 5 && CodeSet(fcD, FixedDistanceLengths(), n)
  }

  /** The four loops that set the lengths of the static literal tree. */
  method SetFixedLengths(dl: array<nat>)
    requires dl.Length == 288
    modifies dl
    ensures dl[..] == FixedLiteralLengths()
  {
    var n := 0;
    while n <= 143
      invariant 0 <= n <= 144 && forall x :: 0 <= x < n ==> dl[x] == FixedLiteralLengths()[x]
    {
      dl[n] := 8;
      n := n + 1;
    }
    while n <= 255
      invariant 144 <= n <= 256 && forall x :: 0 <= x < n ==> dl[x] == FixedLiteralLengths()[x]
    {
      dl[n] := 9;
      n := n + 1;
    }
    while n <= 279
      invariant 256 <= n <= 280 && forall x :: 0 <= x < n ==> dl[x] == FixedLiteralLengths()[x]
    {
      dl[n] := 7;
      n := n + 1;
    }
    while n <= 287
      invariant 280 <= n <= 288 && forall x :: 0 <= x < n ==> dl[x] == FixedLiteralLengths()[x]
    {
      dl[n] := 8;
      n := n + 1;
    }
  }

  method InitStaticLiterals(fc: array<nat>, dl: array<nat>, blCount: array<nat>)
    requires fc.Length == dl.Length == 288 && blCount.Length == MAX_BITS + 1
    requires fc != dl && fc != blCount && dl != blCount && forall b :: 0 <= b <= MAX_BITS ==> blCount[b] == 0
    modifies fc, dl, blCount
    ensures dl[..] == FixedLiteralLengths() && CodesSet(fc[..], FixedLiteralLengths())
  {
    hide CodesSet, FixedLiteralLengths, Counts, Kraft;
    SetFixedLengths(dl);
    blCount[7] := 279 - 255;
    blCount[8] := (143 + 1) + (287 - 279);
    blCount[9] := 255 - 143;
    FixedLiteralCode(blCount[..]);
    assert dl[..287 + 1] == dl[..] == FixedLiteralLengths();
    GenCodes(fc, dl, blCount, 287, FixedLiteralLengths());
  }

  method InitStaticDists(fc: array<nat>, dl: array<nat>)
    requires fc.Length == dl.Length == D_CODES && fc != dl
    modifies fc, dl
    ensures forall n :: 0 <= n < D_CODES ==> dl[n] == 5 && CodeSet(fc[..], FixedDistanceLengths(), n)
  {
    hide Pow2, BitsLsb, BitsMsb, CanonicalCode;
    for n := 0 to D_CODES
      invariant forall k :: 0 <= k < n ==> dl[k] == 5 && fc[k] < Pow2(5) && BitsLsb(fc[k], 5) == BitsMsb(k, 5)
    {
      dl[n] := 5;
      fc[n] := BitWriter.BiReverse(n, 5);
    }
    forall n | 0 <= n < D_CODES ensures CodeSet(fc[..], FixedDistanceLengths(), n) {
      FixedDistanceCode(n);
    }
  }
}
