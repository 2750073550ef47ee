/**
 The sliding window: fill_window, INSERT_STRING and lm_init. Two halves of WSIZE bytes hold
 the end of the input read so far; when the upper half is used up it moves down and all
 positions move with it. What the window holds is stated in offsets into the whole input.
 */
module Window {
  import opened Sums
  import opened Hashing
  import opened TokenCoding
  import opened HashChains
  import opened Crc32


  /** Subtraction of 32-bit unsigned numbers. */
  function Sub32(a: int, b: int): (r: nat)
    ensures r < TWO_32
  {
    (a - b) % TWO_32
  }

  lemma {:induction false} Sub32Shift(a: int, b: int, d: int)
    ensures Sub32(a - d, Sub32(b, d)) == Sub32(a, b)
  {
    var m, r := (b - d) / TWO_32, (b - d) % TWO_32;
    assert a - d - r == (a - b) + m * TWO_32;
    ModShift(a - b, m);
  }

  lemma {:induction false} ModShift(x: int, m: int)
    ensures (x + m * TWO_32) % TWO_32 == x % TWO_32
  {
  }

  /** The input file: the bytes not read yet, and how many bytes (at least one) the next
      reads return when there are that many. */
  class Input {
    var rest: seq<byte>
    var sizes: seq<nat>

    constructor (data: seq<byte>, sizes: seq<nat>)
      ensures rest == data
    {
      rest, this.sizes := data, sizes;
    }

    /** read: some of the bytes left, at least one unless there are none. */
    method Read(size: nat) returns (chunk: seq<byte>)
      modifies this
      ensures |chunk| <= size && old(rest) == chunk + rest
      ensures chunk == [] ==> size == 0 || old(rest) == []
    {
      var n := Min(size, |rest|);
      if sizes != [] {
        n := Min(n, 1 + sizes[0]);
        sizes := sizes[1..];
      }
      chunk := rest[..n];
      rest := rest[n..];
    }
  }

  /** The window holds the input from offset base on. */
  ghost predicate Filled(w: seq<byte>, consumed: seq<byte>, base: nat)
  {
    && base <= |consumed| && |consumed| - base <= WINDOW_SIZE <= |w|
    && w[..|consumed| - base] == consumed[base..]
  }

  lemma {:induction false} FilledAt(w: seq<byte>, consumed: seq<byte>, base: nat, i: nat)
    requires Filled(w, consumed, base) && i < |consumed| - base
    ensures w[i] == consumed[base + i]
  {
    assert w[..|consumed| - base][i] == consumed[base..][i];
  }

  lemma {:induction false} FilledSlice(w: seq<byte>, consumed: seq<byte>, base: nat, i: nat, j: nat)
    requires Filled(w, consumed, base) && i <= j <= |consumed| - base
    ensures w[i..j] == consumed[base + i..base + j]
  {
    assert w[..|consumed| - base][i..j] == w[i..j];
    assert consumed[base..][i..j] == consumed[base + i..base + j];
  }

  /** The running key is ready for the third byte of the string at n. */
  ghost predicate Rolling(insH: nat, w: seq<byte>, n: nat)
  {
    n + 1 < |w| && insH % 256 == PairKey(w[n], w[n + 1])
  }

  lemma {:induction false} RollOn(insH: nat, w: seq<byte>, n: nat)
    requires Rolling(insH, w, n) && n + 2 < |w|
    ensures UpdateHash(insH, w[n + 2]) == KeyAt(w, n) && Rolling(UpdateHash(insH, w[n + 2]), w, n + 1)
  {
    hide PairKey, UpdateHash, Key;
    KeyRolls(insH, w[n], w[n + 1], w[n + 2]);
  }

  lemma {:induction false} RollingKept(insH: nat, w: seq<byte>, n: nat, w': seq<byte>, n': nat)
    requires Rolling(insH, w, n) && n' + 1 < |w'| && w'[n'] == w[n] && w'[n' + 1] == w[n + 1]
    ensures Rolling(insH, w', n')
  {
  }

  lemma {:induction false} FilledSlides(w: seq<byte>, w': seq<byte>, consumed: seq<byte>, base: nat)
    requires Filled(w, consumed, base) && HalfMoved(w, w') && |consumed| - base >= WSIZE
    ensures Filled(w', consumed, base + WSIZE)
  {
    var k := |consumed| - base - WSIZE;
    forall i | 0 <= i < k ensures w'[..k][i] == consumed[base + WSIZE..][i] {
      assert w'[i] == w[i + WSIZE];
      FilledAt(w, consumed, base, i + WSIZE);
    }
    assert w'[..k] == consumed[base + WSIZE..];
  }

  lemma {:induction false} FilledReads(w: seq<byte>, w': seq<byte>, consumed: seq<byte>, base: nat, chunk: seq<byte>)
    requires Filled(w, consumed, base) && |w'| == |w| && |consumed| - base + |chunk| <= WINDOW_SIZE
    requires w'[..|consumed| - base] == w[..|consumed| - base]
    requires w'[|consumed| - base..|consumed| - base + |chunk|] == chunk
    ensures Filled(w', consumed + chunk, base)
  {
    var k, m := |consumed| - base, |consumed| - base + |chunk|;
    assert w'[..m] == w'[..k] + w'[k..m];
    assert (consumed + chunk)[base..] == consumed[base..] + chunk;
  }

  /** The part of the compressor's state that deals with the input. */
  class Window {
    const window: array<byte>
    const prev: array<Pos>
    const head: array<Pos>
    const crcTable: seq<nat>
    var crc: nat
    var isize: nat
    var strstart: nat
    var lookahead: nat
    var insH: nat
    var matchStart: nat
    var blockStart: int
    var eofile: bool
    ghost var consumed: seq<byte>
    ghost var base: nat

    ghost predicate Shape()
    {
      window.Length == WINDOW_SIZE + MAX_MATCH && prev.Length == WSIZE && head.Length == HASH_SIZE && prev != head && CrcTable(crcTable)
    }

    /** All strings before n have been inserted, and the window holds what was read. Once the
        end of the input is known, its last two bytes are free. */
    ghost predicate Valid(n: nat)
      reads this, window, prev, head
    {
      && Shape() && Chains(window[..], head[..], prev[..], n) && Filled(window[..], consumed, base) && Summed(crc, isize, consumed)
      && (eofile ==> |consumed| - base <= WINDOW_SIZE - 2)
    }

    /** lookahead bytes are left from strstart on, and everything less than MAX_DIST before it
        is still in the window. */
    ghost predicate Ahead()
      reads this
    {
      base + strstart + lookahead == |consumed| && (base == 0 || strstart >= MAX_DIST)
    }

    /** What has been read is the start of the input, and all of it at its end. */
    ghost predicate Reads(input: seq<byte>)
      reads this
    {
      consumed <= input && (eofile ==> consumed == input)
    }

    constructor (crcTable: seq<nat>)
      requires CrcTable(crcTable)
      ensures Shape() && Summed(crc, isize, []) && fresh(window) && fresh(prev) && fresh(head)
      ensures strstart == 0 && lookahead == 0 && insH == 0 && blockStart == 0 && !eofile && consumed == [] && base == 0 && matchStart == 0
    {
      window := new byte[WINDOW_SIZE + MAX_MATCH];
      prev := new Pos[WSIZE];
      head := new Pos[HASH_SIZE];
      strstart, lookahead, insH, matchStart, blockStart, eofile := 0, 0, 0, 0, 0, false;
      consumed, base := [], 0;
      this.crcTable := crcTable;
      crc, isize := 0xffff_ffff, 0;
    }

    /** INSERT_STRING. */
    method InsertString(s: nat, ghost w: seq<byte>) returns (hashHead: nat)
      requires Shape() && window[..] == w && Chains(w, head[..], prev[..], s) && Rolling(insH, w, s) && s + 2 < WINDOW_SIZE
      modifies this`insH, prev, head
      ensures Chains(w, head[..], prev[..], s + 1) && Rolling(insH, w, s + 1)
      ensures hashHead == Link(prev[..], s) && LinkOk(w, hashHead, s)
    {
      hide KeyAt, Rolling, UpdateHash, Heads, Links, Summed, CrcTable;
      ghost var h: seq<Pos>, p: seq<Pos> := head[..], prev[..];
      RollOn(insH, w, s);
      KeySmall(w, s);
      insH := UpdateHash(insH, window[s + MIN_MATCH - 1]);
      InsertKeeps(w, h, p, s, insH);
      hashHead := head[insH];
      prev[s % WSIZE] := hashHead;
      head[insH] := s;
      assert head[..] == h[insH := s] && prev[..] == p[s % WSIZE := h[insH]];
      LinkInserted(w, prev[..], s);
    }

    /** The second half of the window becomes the first half. */
    method Slide(ghost w: seq<byte>, ghost h: seq<Pos>, ghost p: seq<Pos>)
      requires Shape() && window[..] == w && head[..] == h && prev[..] == p
      modifies window, prev, head
      ensures HalfMoved(w, window[..]) && AllSlid(h, head[..]) && AllSlid(p, prev[..])
    {
      for i := 0 to WSIZE
        invariant forall k :: 0 <= k < i ==> window[k] == w[k + WSIZE]
        invariant window[WSIZE..] == w[WSIZE..] && head[..] == h && prev[..] == p
      {
        assert window[WSIZE..][i] == w[WSIZE..][i];
        window[i] := window[WSIZE + i];
      }
      assert HalfMoved(w, window[..]);
      ghost var w' := window[..];
      SlideAll(head, h);
      ghost var h' := head[..];
      SlideAll(prev, p);
      assert window[..] == w' && head[..] == h';
    }

    /** file_read into the window. */
    method FileRead(inp: Input, at: nat, size: nat, ghost w: seq<byte>) returns (n: nat, ghost chunk: seq<byte>)
      requires window[..] == w && at + size <= |w| && CrcTable(crcTable)
      modifies window, inp, this`crc, this`isize
      ensures n == |chunk| <= size && old(inp.rest) == chunk + inp.rest && (n == 0 ==> size == 0 || old(inp.rest) == [])
      ensures window[..at] == w[..at] && window[at..at + n] == chunk
      ensures crc == CrcFrom(old(crc), chunk) && isize == (old(isize) + n) % TWO_32
    {
      hide CrcFrom, CrcTable;
      var c := inp.Read(size);
      n, chunk := |c|, c;
      ghost var rest := inp.rest;
      for i := 0 to n
        invariant inp.rest == rest && crc == old(crc) && isize == old(isize)
        invariant window[..at] == w[..at] && window[at..at + i] == c[..i]
      {
        window[at + i] := c[i];
        assert window[at..at + i + 1] == window[at..at + i] + [c[i]];
      }
      assert c[..n] == c;
      NoCrc(crc);
      if n != 0 {
        crc := CrcBlock(crc, c, crcTable);
      }
      isize := (isize + n) % TWO_32;
    }

    /** The window is full: makes room in its upper half. */
    method MakeRoom()
      requires Valid(strstart) && Ahead() && lookahead >= 2 && strstart >= WSIZE + MAX_DIST
      modifies this`base, this`strstart, this`blockStart, this`matchStart, window, prev, head
      ensures Valid(strstart) && Ahead() && base == old(base) + WSIZE && strstart == old(strstart) - WSIZE
      ensures blockStart == old(blockStart) - WSIZE && Sub32(strstart, matchStart) == old(Sub32(strstart, matchStart))
      ensures old(Rolling(insH, window[..], strstart)) ==> Rolling(insH, window[..], strstart)
    {
      hide Chains, HalfMoved, AllSlid, Filled, Rolling, Sub32, Summed, CrcTable;
      ghost var w: seq<byte>, h: seq<Pos>, p: seq<Pos>, n := window[..], head[..], prev[..], strstart;
      FilledSize(w, consumed, base);
      Slide(w, h, p);
      SlideKeeps(w, window[..], h, head[..], p, prev[..], n);
      FilledSlides(w, window[..], consumed, base);
      if Rolling(insH, w, n) {
        RollingSlides(insH, w, window[..], n);
      }
      Sub32Shift(strstart, matchStart, WSIZE);
      matchStart := Sub32(matchStart, WSIZE);
      strstart := strstart - WSIZE;
      blockStart := blockStart - WSIZE;
      base := base + WSIZE;
    }

    /** Reads up to more bytes behind the lookahead. */
    method ReadMore(inp: Input, more: nat) returns (n: nat)
      requires Valid(strstart) && Ahead() && (strstart == 0 || lookahead >= 2)
      requires 2 <= more && strstart + lookahead + more <= WINDOW_SIZE && !eofile
      modifies this`consumed, this`lookahead, this`eofile, this`crc, this`isize, window, inp
      ensures Valid(strstart) && Ahead() && lookahead >= old(lookahead)
      ensures consumed + inp.rest == old(consumed + inp.rest) && old(consumed) <= consumed
      ensures old(|inp.rest|) == n + |inp.rest| && (if n == 0 then eofile && inp.rest == [] else !eofile)
      ensures old(lookahead) >= 2 && old(Rolling(insH, window[..], strstart)) ==> Rolling(insH, window[..], strstart)
    {
      hide Chains, Rolling, Filled, Summed, CrcTable, CrcFrom;
      ghost var w: seq<byte>, at: nat := window[..], strstart + lookahead;
      ghost var before, rest := consumed, inp.rest;
      FilledSize(w, consumed, base);
      ghost var chunk;
      n, chunk := FileRead(inp, strstart + lookahead, more, w);
      Lengths(chunk, inp.rest);
      ghost var w': seq<byte> := window[..];
      ReadOn(w, w', consumed, base, chunk, head[..], prev[..], strstart, lookahead, insH);
      AppendMore(before, chunk, inp.rest);
      SummedMore(old(crc), old(isize), before, chunk);
      consumed := consumed + chunk;
      if n == 0 {
        eofile := true;
      } else {
        lookahead := lookahead + n;
      }
    }

    /** fill_window: at least one byte is read, or the end of the input has been met. What the
        positions mean in the input does not change. */
    method FillWindow(inp: Input)
      requires Valid(strstart) && Ahead() && lookahead < MIN_LOOKAHEAD && !eofile && (strstart == 0 || lookahead >= 2)
      modifies this`base, this`strstart, this`blockStart, this`matchStart, this`consumed, this`lookahead, this`eofile, this`crc, this`isize, window, prev, head, inp
      ensures Valid(strstart) && Ahead() && lookahead >= old(lookahead)
      ensures base + strstart == old(base + strstart) && base + blockStart == old(base + blockStart)
      ensures Sub32(strstart, matchStart) == old(Sub32(strstart, matchStart))
      ensures consumed + inp.rest == old(consumed + inp.rest) && old(consumed) <= consumed
      ensures if eofile then inp.rest == [] else |inp.rest| < |old(inp.rest)|
      ensures old(strstart) > 0 ==> strstart > 0
      ensures old(lookahead) >= 2 && old(Rolling(insH, window[..], strstart)) ==> Rolling(insH, window[..], strstart)
      ensures strstart == 0 || lookahead >= 2
    {
      hide Chains, Rolling, Sub32, Filled, Summed, CrcTable;
      FilledSize(window[..], consumed, base);
      var more := WINDOW_SIZE - lookahead - strstart;
      if more == TWO_32 - 1 {
        more := more - 1;
      } else if strstart >= WSIZE + MAX_DIST {
        MakeRoom();
        more := more + WSIZE;
      }
      assert more >= 2 && strstart + lookahead + more == WINDOW_SIZE;
      var n := ReadMore(inp, more);
    }

    /** fill_window_if_needed: enough lookahead, except at the end of the input. */
    method FillWindowIfNeeded(inp: Input)
      requires Valid(strstart) && Ahead() && (eofile ==> inp.rest == [])
      requires lookahead < MIN_LOOKAHEAD && !eofile ==> strstart == 0 || lookahead >= 2
      modifies this`base, this`strstart, this`blockStart, this`matchStart, this`consumed, this`lookahead, this`eofile, this`crc, this`isize, window, prev, head, inp
      ensures Valid(strstart) && Ahead() && (eofile ==> inp.rest == []) && (lookahead >= MIN_LOOKAHEAD || eofile)
      ensures old(strstart) > 0 ==> strstart > 0
      ensures base + strstart == old(base + strstart) && base + blockStart == old(base + blockStart)
      ensures Sub32(strstart, matchStart) == old(Sub32(strstart, matchStart))
      ensures consumed + inp.rest == old(consumed + inp.rest) && old(consumed) <= consumed
      ensures (old(eofile) || old(lookahead) >= 2) && old(Rolling(insH, window[..], strstart)) ==> Rolling(insH, window[..], strstart)
    {
      hide Chains, Rolling, Sub32, Filled, Summed, CrcTable;
      while lookahead < MIN_LOOKAHEAD && !eofile
        invariant Valid(strstart) && Ahead() && (eofile ==> inp.rest == []) && lookahead >= old(lookahead)
        invariant lookahead < MIN_LOOKAHEAD && !eofile ==> strstart == 0 || lookahead >= 2
        invariant base + strstart == old(base + strstart) && base + blockStart == old(base + blockStart)
        invariant Sub32(strstart, matchStart) == old(Sub32(strstart, matchStart))
        invariant consumed + inp.rest == old(consumed + inp.rest) && old(consumed) <= consumed
        invariant (old(eofile) || old(lookahead) >= 2) && old(Rolling(insH, window[..], strstart)) ==> Rolling(insH, window[..], strstart)
        invariant (old(eofile) ==> eofile) && (old(strstart) > 0 ==> strstart > 0)
        decreases !eofile, |inp.rest|
      {
        FillWindow(inp);
      }
    }

    /** The first part of lm_init: an empty dictionary and the first input. */
    method FirstRead(inp: Input)
      requires Shape() && Summed(crc, isize, []) && strstart == 0 && consumed == [] && base == 0 && !eofile
      modifies this`crc, this`isize, this`consumed, this`lookahead, window, head, inp
      ensures Valid(0) && Ahead() && consumed + inp.rest == old(inp.rest) && (lookahead == 0 ==> inp.rest == [])
    {
      hide Chains, Summed, CrcTable, CrcFrom, Filled;
      for n := 0 to HASH_SIZE
        invariant forall k :: 0 <= k < n ==> head[k] == 0
        invariant unchanged(this) && unchanged(inp)
      {
        head[n] := 0;
      }
      ghost var w: seq<byte> := window[..];
      EmptyWindow(w);
      var n, chunk := FileRead(inp, 0, WINDOW_SIZE, w);
      FilledReads(w, window[..], [], 0, chunk);
      SummedMore(old(crc), old(isize), [], chunk);
      NoChains(window[..], head[..], prev[..]);
      assert [] + chunk == chunk;
      consumed := chunk;
      lookahead := n;
    }

    /** lm_init: an empty dictionary, the first input, and the key of its first two bytes. */
    method LmInit(inp: Input)
      requires Shape() && Summed(crc, isize, []) && strstart == 0 && lookahead == 0 && insH == 0 && blockStart == 0 && !eofile && consumed == [] && base == 0
      modifies this, window, prev, head, inp
      ensures Valid(strstart) && Ahead() && (eofile ==> inp.rest == []) && (lookahead >= MIN_LOOKAHEAD || eofile)
      ensures base == 0 && strstart == 0 && blockStart == 0
      ensures consumed + inp.rest == old(inp.rest)
      ensures lookahead > 0 ==> Rolling(insH, window[..], strstart)
    {
      hide Chains, Rolling, Sub32, Summed, CrcTable, Filled, UpdateHash;
      FirstRead(inp);
      if lookahead == 0 {
        eofile := true;
        return;
      }
      FillWindowIfNeeded(inp);
      insH := UpdateHash(insH, window[0]);
      insH := UpdateHash(insH, window[1]);
      KeyStarts(window[0], window[1]);
      RollingStarts(insH, window[..]);
    }
  }

  lemma {:induction false} EmptyWindow(w: seq<byte>)
    requires |w| >= WINDOW_SIZE
    ensures Filled(w, [], 0)
  {
  }

  lemma {:induction false} Lengths(a: seq<byte>, b: seq<byte>)
    ensures |a + b| == |a| + |b|
  {
  }

  /** The checksum register and the size of everything read so far. */
  ghost predicate Summed(crc: nat, isize: nat, consumed: seq<byte>)
  {
    crc == CrcFrom(0xffff_ffff, consumed) && isize == |consumed| % TWO_32
  }

  lemma {:induction false} SummedMore(crc: nat, isize: nat, consumed: seq<byte>, chunk: seq<byte>)
    requires Summed(crc, isize, consumed)
    ensures Summed(CrcFrom(crc, chunk), (isize + |chunk|) % TWO_32, consumed + chunk)
  {
    hide CrcFrom;
    CrcConcat(0xffff_ffff, consumed, chunk);
    ModAdd(|consumed|, |chunk|);
  }

  lemma {:induction false} ModAdd(x: nat, n: nat)
    ensures (x % TWO_32 + n) % TWO_32 == (x + n) % TWO_32
  {
    var q := x / TWO_32;
    ModShift(x % TWO_32 + n, q);
  }

  lemma {:induction false} NoCrc(crc: nat)
    ensures CrcFrom(crc, []) == crc
  {
  }

  lemma {:induction false} AppendMore(a: seq<byte>, b: seq<byte>, c: seq<byte>)
    ensures (a + b) + c == a + (b + c) && a <= a + b && (b == [] ==> a + b == a)
  {
  }

  lemma {:induction false} RollingStarts(insH: nat, w: seq<byte>)
    requires |w| >= 2 && insH % 256 == PairKey(w[0], w[1])
    ensures Rolling(insH, w, 0)
  {
  }

  lemma {:induction false} FilledSize(w: seq<byte>, consumed: seq<byte>, base: nat)
    requires Filled(w, consumed, base)
    ensures base <= |consumed| && |consumed| - base <= WINDOW_SIZE <= |w|
  {
  }

  lemma {:induction false} RollingSlides(insH: nat, w: seq<byte>, w': seq<byte>, n: nat)
    requires Rolling(insH, w, n) && HalfMoved(w, w') && WSIZE <= n && n + 2 <= WINDOW_SIZE
    ensures Rolling(insH, w', n - WSIZE)
  {
    assert w'[n - WSIZE] == w[n - WSIZE + WSIZE] && w'[n - WSIZE + 1] == w[n - WSIZE + 1 + WSIZE];
    RollingKept(insH, w, n, w', n - WSIZE);
  }

  lemma {:induction false} RollingReads(insH: nat, w: seq<byte>, w': seq<byte>, n: nat)
    requires Rolling(insH, w, n) && |w| == |w'| && n + 2 <= |w| && w'[..n + 2] == w[..n + 2]
    ensures Rolling(insH, w', n)
  {
    assert w'[..n + 2][n] == w[..n + 2][n] && w'[..n + 2][n + 1] == w[..n + 2][n + 1];
  }

  /** Reading a chunk behind the lookahead. */
  lemma {:induction false} ReadOn(w: seq<byte>, w': seq<byte>, consumed: seq<byte>, base: nat, chunk: seq<byte>, head: seq<Pos>, prev: seq<Pos>, n: nat, ahead: nat, insH: nat)
    requires Filled(w, consumed, base) && Chains(w, head, prev, n) && base + n + ahead == |consumed| && (n == 0 || ahead >= 2)
    requires |w'| == |w| && n + ahead + |chunk| <= WINDOW_SIZE <= |w|
    requires w'[..n + ahead] == w[..n + ahead] && w'[n + ahead..n + ahead + |chunk|] == chunk
    ensures Filled(w', consumed + chunk, base) && Chains(w', head, prev, n)
    ensures ahead >= 2 && Rolling(insH, w, n) ==> Rolling(insH, w', n)
  {
    hide Chains, Rolling, Filled;
    FilledReads(w, w', consumed, base, chunk);
    if ahead >= 2 {
      ShorterPrefix(w, w', n + ahead, n + 2);
      if Rolling(insH, w, n) {
        RollingReads(insH, w, w', n);
      }
    }
    ReadKeeps(w, w', head, prev, n);
  }

  lemma {:induction false} ShorterPrefix(w: seq<byte>, w': seq<byte>, k: nat, j: nat)
    requires j <= k <= |w| == |w'| && w'[..k] == w[..k]
    ensures w'[..j] == w[..j]
  {
    assert w'[..k][..j] == w'[..j] && w[..k][..j] == w[..j];
  }

  method SlideAll(a: array<Pos>, ghost s: seq<Pos>)
    requires a[..] == s
    modifies a
    ensures AllSlid(s, a[..])
  {
    for n := 0 to a.Length
      invariant forall i :: 0 <= i < n ==> a[i] == Slid(s[i])
      invariant a[n..] == s[n..]
    {
      var m := a[n];
      assert m == a[n..][0];
      a[n] := if m >= WSIZE then m - WSIZE else 0;
      assert a[n + 1..] == s[n..][1..];
    }
  }

  lemma {:induction false} LinkInserted(w: seq<byte>, prev: seq<Pos>, s: nat)
    requires Links(w, prev, s + 1)
    ensures LinkOk(w, Link(prev, s), s)
  {
  }
}
