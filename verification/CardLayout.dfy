/**
 The geometry of tools/pack_rom.py and tools/pack_pkg.py: a text is cut into lines, lines into
 cards, and the same text into chunks. A chunk is found again in the cards by two divisions.
 */
module CardLayout {
  import opened Sums

  /** s[a:b] as in Python: the bounds are cut to the length. */
  function Slice<T>(s: seq<T>, a: nat, b: nat): seq<T>
    requires a <= b
  {
    s[Min(a, |s|)..Min(b, |s|)]
  }

  /** The number of pieces of width w. */
  function Pieces(n: nat, w: nat): (k: nat)
    requires w > 0
  {
    (n + w - 1) / w
  }

  lemma {:induction false} PiecesBounds(n: nat, w: nat)
    requires w > 0
    ensures n <= Pieces(n, w) * w < n + w
  {
    var k, r := (n + w - 1) / w, (n + w - 1) % w;
    assert n + w - 1 == w * k + r;
    assert w * k == k * w;
  }

  /** wrap: consecutive pieces of the given width, the last one possibly shorter. */
  function Wrap<T>(s: seq<T>, w: nat): (r: seq<seq<T>>)
    requires w > 0
    ensures |r| == Pieces(|s|, w)
  {
    seq(Pieces(|s|, w), i requires 0 <= i < Pieces(|s|, w) => Slice(s, i * w, i * w + w))
  }

  function Join<T>(s: seq<seq<T>>): seq<T>
  {
    if s == [] then [] else Join(s[..|s| - 1]) + s[|s| - 1]
  }

  lemma {:induction false} SliceNext<T>(s: seq<T>, a: nat, b: nat, c: nat)
    requires a <= b <= c
    ensures Slice(s, a, b) + Slice(s, b, c) == Slice(s, a, c)
  {
  }

  lemma {:induction false} Product(i: nat, w: nat)
    ensures (i + 1) * w == i * w + w
  {
  }

  /** Joining the pieces from a up to b gives the part of the text they cover. */
  lemma {:induction false} JoinPieces<T>(s: seq<T>, w: nat, a: nat, b: nat)
    requires w > 0 && a <= b <= Pieces(|s|, w)
    ensures a * w <= b * w && Join(Wrap(s, w)[a..b]) == Slice(s, a * w, b * w)
    decreases b - a
  {
    hide Join, Slice, Wrap, Pieces;
    var p := Wrap(s, w);
    if a == b {
      assert p[a..b] == [];
      JoinNone<T>();
      EmptySlice(s, a * w);
    } else {
      JoinPieces(s, w, a, b - 1);
      JoinLast(p, a, b);
      PieceIs(s, w, b - 1);
      Product(b - 1, w);
      SliceNext(s, a * w, (b - 1) * w, b * w);
    }
  }

  lemma {:induction false} JoinNone<T>()
    ensures Join<T>([]) == []
  {
  }

  lemma {:induction false} EmptySlice<T>(s: seq<T>, a: nat)
    ensures Slice(s, a, a) == []
  {
  }

  lemma {:induction false} JoinLast<T>(p: seq<seq<T>>, a: nat, b: nat)
    requires a < b <= |p|
    ensures Join(p[a..b]) == Join(p[a..b - 1]) + p[b - 1]
  {
    assert p[a..b][..b - a - 1] == p[a..b - 1] && p[a..b][b - a - 1] == p[b - 1];
  }

  /** Joining all pieces gives the text back. */
  lemma {:induction false} JoinAll<T>(s: seq<T>, w: nat)
    requires w > 0
    ensures Join(Wrap(s, w)) == s
  {
    var n := Pieces(|s|, w);
    PiecesBounds(|s|, w);
    JoinPieces(s, w, 0, n);
    assert Wrap(s, w)[0..n] == Wrap(s, w);
    assert Slice(s, 0, n * w) == s;
  }

  // ----- lines, chunks and cards -----

  lemma {:induction false} Positive(a: nat, b: nat)
    requires a > 0 && b > 0
    ensures a * b > 0
  {
  }

  function Lines(text: seq<char>, lc: nat): seq<seq<char>>
    requires lc > 0
  {
    Wrap(text, lc)
  }

  function Chunks(text: seq<char>, lc: nat, lpk: nat): seq<seq<char>>
    requires lc > 0 && lpk > 0
  {
    Positive(lc, lpk);
    Wrap(text, lc * lpk)
  }

  function Cards(text: seq<char>, lc: nat, lpk: nat, kpc: nat): seq<seq<seq<char>>>
    requires lc > 0 && lpk > 0 && kpc > 0
  {
    Positive(lpk, kpc);
    Wrap(Lines(text, lc), lpk * kpc)
  }

  /** Chunk i starts at line i * lpk of the text, which is the computed line of the computed card. */
  lemma {:induction false} Location(i: nat, lpk: nat, kpc: nat)
    requires lpk > 0 && kpc > 0
    ensures var c, first := i / kpc, (i % kpc) * lpk;
            c * (lpk * kpc) + first == i * lpk && first + lpk <= lpk * kpc
  {
    var c, r := i / kpc, i % kpc;
    assert i == kpc * c + r;
    assert i * lpk == (kpc * c) * lpk + r * lpk;
    assert c * (lpk * kpc) == (kpc * c) * lpk;
    MulMonotone(r + 1, kpc, lpk);
    Product(r, lpk);
    assert kpc * lpk == lpk * kpc;
  }

  lemma {:induction false} SubRange<T>(s: seq<T>, a: nat, n: nat, u: nat, v: nat)
    requires a + n <= |s| && u <= v <= n
    ensures s[a..a + n][u..v] == s[a + u..a + v]
  {
    var x, y := s[a..a + n][u..v], s[a + u..a + v];
    forall i | 0 <= i < v - u ensures x[i] == y[i] {
    }
  }

  /** A slice of a slice. */
  lemma {:induction false} SliceSlice<T>(s: seq<T>, a: nat, b: nat, f: nat, g: nat)
    requires a <= b && f <= g && a + g <= b
    ensures Slice(Slice(s, a, b), f, g) == Slice(s, a + f, a + g)
  {
    var t := Slice(s, a, b);
    if a >= |s| {
      assert t == [] && Slice(t, f, g) == [] && Slice(s, a + f, a + g) == [];
    } else {
      var n := Min(b, |s|) - a;
      assert |t| == n && t == s[a..a + n];
      assert a + Min(f, n) == Min(a + f, |s|) && a + Min(g, n) == Min(a + g, |s|);
      SubRange(s, a, n, Min(f, n), Min(g, n));
    }
  }

  /** The lines of a chunk are lines of the text. */
  lemma {:induction false} SliceIsRange<T>(s: seq<T>, a: nat, b: nat)
    requires a <= b
    ensures Min(a, |s|) <= Min(b, |s|) && Slice(s, a, b) == s[Min(a, |s|)..Min(b, |s|)]
  {
  }

  /** Cutting at the number of lines does not change what of the text is covered. */
  lemma {:induction false} CutRange(text: seq<char>, lc: nat, a: nat)
    requires lc > 0
    ensures Min(Min(a, Pieces(|text|, lc)) * lc, |text|) == Min(a * lc, |text|)
  {
    var n := Pieces(|text|, lc);
    PiecesBounds(|text|, lc);
    if a > n {
      MulMonotone(n, a, lc);
    }
  }

  /** For every text and all positive sizes, chunk i is what its card holds from its first line
      on, so no chunk spans two cards. */
  lemma {:induction false} ChunkIsOnCard(text: seq<char>, lc: nat, lpk: nat, kpc: nat, i: nat)
    requires lc > 0 && lpk > 0 && kpc > 0 && i < |Chunks(text, lc, lpk)|
    ensures i / kpc < |Cards(text, lc, lpk, kpc)|
    ensures var first := (i % kpc) * lpk;
            Join(Slice(Cards(text, lc, lpk, kpc)[i / kpc], first, first + lpk)) == Chunks(text, lc, lpk)[i]
  {
    hide Wrap, Slice, Join, Pieces;
    var lines, c, first := Lines(text, lc), i / kpc, (i % kpc) * lpk;
    var n := Pieces(|text|, lc);
    Positive(lc, lpk);
    Positive(lpk, kpc);
    Location(i, lpk, kpc);
    CardExists(|text|, lc, lpk, kpc, i);
    PieceIs(lines, lpk * kpc, c);
    SliceSlice(lines, c * (lpk * kpc), c * (lpk * kpc) + lpk * kpc, first, first + lpk);
    SliceIsRange(lines, i * lpk, i * lpk + lpk);
    var a, b := Min(i * lpk, n), Min(i * lpk + lpk, n);
    JoinPieces(text, lc, a, b);
    PieceIs(text, lc * lpk, i);
    CutRange(text, lc, i * lpk);
    CutRange(text, lc, i * lpk + lpk);
    SameProduct(i, lc, lpk);
    SliceCut(text, a * lc, b * lc, i * (lc * lpk), i * (lc * lpk) + lc * lpk);
  }

  lemma {:induction false} PieceIs<T>(s: seq<T>, w: nat, i: nat)
    requires w > 0 && i < |Wrap(s, w)|
    ensures Wrap(s, w)[i] == Slice(s, i * w, i * w + w)
  {
  }

  lemma {:induction false} SameProduct(i: nat, lc: nat, lpk: nat)
    ensures i * lpk * lc == i * (lc * lpk) && (i * lpk + lpk) * lc == i * (lc * lpk) + lc * lpk
  {
    assert i * lpk * lc == i * (lpk * lc);
    assert (i * lpk + lpk) * lc == i * lpk * lc + lpk * lc;
  }

  lemma {:induction false} SliceCut<T>(s: seq<T>, a: nat, b: nat, c: nat, d: nat)
    requires a <= b && c <= d && Min(a, |s|) == Min(c, |s|) && Min(b, |s|) == Min(d, |s|)
    ensures Slice(s, a, b) == Slice(s, c, d)
  {
  }

  /** The card computed for a chunk exists. */
  lemma {:induction false} CardExists(n: nat, lc: nat, lpk: nat, kpc: nat, i: nat)
    requires lc > 0 && lpk > 0 && kpc > 0 && lc * lpk > 0 && lpk * kpc > 0 && i < Pieces(n, lc * lpk)
    ensures i / kpc < Pieces(Pieces(n, lc), lpk * kpc)
  {
    hide Pieces;
    var lines, cards, c := Pieces(n, lc), Pieces(Pieces(n, lc), lpk * kpc), i / kpc;
    PiecesBounds(n, lc * lpk);
    PiecesBounds(n, lc);
    PiecesBounds(lines, lpk * kpc);
    Location(i, lpk, kpc);
    ChunkStarts(n, lc, lpk, i);
    if lines <= i * lpk {
      MulMonotone(lines, i * lpk, lc);
      SameProduct(i, lc, lpk);
    }
    if c >= cards {
      MulMonotone(cards, c, lpk * kpc);
    }
  }

  lemma {:induction false} ChunkStarts(n: nat, lc: nat, lpk: nat, i: nat)
    requires lc * lpk > 0 && i < Pieces(n, lc * lpk)
    ensures i * (lc * lpk) < n
  {
    hide Pieces;
    var k, w := Pieces(n, lc * lpk), lc * lpk;
    PiecesBounds(n, w);
    MulMonotone(i + 1, k, w);
    Product(i, w);
  }

  /** Joining the lines of all cards gives the text back. */
  lemma {:induction false} CardsRoundTrip(text: seq<char>, lc: nat, lpk: nat, kpc: nat)
    requires lc > 0 && lpk > 0 && kpc > 0
    ensures Join(Join(Cards(text, lc, lpk, kpc))) == text
  {
    Positive(lpk, kpc);
    JoinAll(Lines(text, lc), lpk * kpc);
    JoinAll(text, lc);
  }

  /** verify: reads the cards back one after the other, cuts the text into chunks again, and finds
      every chunk through its location. */
  method Verify(cards: seq<seq<seq<char>>>, chunks: seq<seq<char>>, lc: nat, lpk: nat, kpc: nat, ghost text: seq<char>) returns (ok: bool, all: seq<char>)
    requires lc > 0 && lpk > 0 && kpc > 0
    requires cards == Cards(text, lc, lpk, kpc) && chunks == Chunks(text, lc, lpk)
    ensures ok && all == text
  {
    hide Wrap, Slice, Join, Cards, Chunks;
    var lines := [];
    JoinNothing(cards);
    for ci := 0 to |cards|
      invariant lines == Join(cards[..ci])
    {
      JoinNext(cards, ci);
      lines := lines + cards[ci];
    }
    assert cards[..|cards|] == cards;
    CardsRoundTrip(text, lc, lpk, kpc);
    all := Join(lines);
    ok := Chunks(all, lc, lpk) == chunks;
    if !ok {
      return;
    }
    for i := 0 to |chunks|
      invariant ok
    {
      ChunkIsOnCard(text, lc, lpk, kpc, i);
      var card, first := 1 + i / kpc, (i % kpc) * lpk;
      if Join(Slice(cards[card - 1], first, first + lpk)) != chunks[i] {
        ok := false;
        return;
      }
    }
  }

  lemma {:induction false} JoinNothing<T>(s: seq<seq<T>>)
    ensures Join(s[..0]) == []
  {
  }

  lemma {:induction false} JoinNext<T>(s: seq<seq<T>>, i: nat)
    requires i < |s|
    ensures Join(s[..i + 1]) == Join(s[..i]) + s[i]
  {
    assert s[..i + 1][..i] == s[..i];
  }
}
