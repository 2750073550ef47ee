/**
 UPDATE_HASH: a running key of 13 bits into which every byte is shifted by 5 bits, so that
 after three steps the oldest byte no longer takes part.
 */
module Hashing {
  import opened Sums

  const HASH_SIZE := 8192

  /** Exclusive or, as in the C operator. */
  function Xor(a: nat, b: nat): nat
    decreases a + b
  {
    if a == 0 then b
    else if b == 0 then a
    else (a % 2 + b % 2) % 2 + 2 * Xor(a / 2, b / 2)
  }

  /** Masking with HASH_SIZE - 1 is the remainder. */
  function UpdateHash(h: nat, c: byte): (r: nat)
    ensures r < HASH_SIZE
  {
    Xor(h * 32, c) % HASH_SIZE
  }

  lemma {:induction false} XorUnfold(a: nat, b: nat)
    ensures Xor(a, b) == (a % 2 + b % 2) % 2 + 2 * Xor(a / 2, b / 2)
  {
  }

  lemma {:induction false} HalfMod(a: nat, p: nat)
    requires p > 0
    ensures (a % (2 * p)) % 2 == a % 2 && (a % (2 * p)) / 2 == (a / 2) % p
  {
    var q, r := a / (2 * p), a % (2 * p);
    assert a == 2 * (p * q) + r;
    assert a / 2 == p * q + r / 2 && r / 2 < p;
    RemainderOf(p, q, r / 2);
  }

  lemma {:induction false} ModDouble(lo: nat, hi: nat, p: nat)
    requires lo < 2 && p > 0
    ensures (lo + 2 * hi) % (2 * p) == lo + 2 * (hi % p)
  {
    HalfMod(lo + 2 * hi, p);
    assert (lo + 2 * hi) / 2 == hi && (lo + 2 * hi) % 2 == lo;
  }

  lemma {:induction false} DoublePow(k: nat)
    requires k > 0
    ensures Pow2(k) == 2 * Pow2(k - 1)
  {
  }

  lemma {:induction false} XorMod(a: nat, b: nat, k: nat)
    ensures Xor(a, b) % Pow2(k) == Xor(a % Pow2(k), b % Pow2(k))
    decreases k
  {
    hide Xor;
    if k == 0 {
      XorZero(0);
    } else {
      hide Pow2;
      var p: nat, m: nat := Pow2(k - 1), Pow2(k);
      DoublePow(k);
      XorMod(a / 2, b / 2, k - 1);
      XorUnfold(a, b);
      HalfMod(a, p);
      HalfMod(b, p);
      ModDouble((a % 2 + b % 2) % 2, Xor(a / 2, b / 2), p);
      XorUnfold(a % m, b % m);
    }
  }

  lemma {:induction false} XorZero(b: nat)
    ensures Xor(0, b) == b && Xor(b, 0) == b
  {
  }

  lemma {:induction false} XorCancel(x: nat, a: nat, b: nat)
    requires Xor(x, a) == Xor(x, b)
    ensures a == b
    decreases a + b
  {
    hide Xor;
    XorUnfold(x, a);
    XorUnfold(x, b);
    if a + b > 0 {
      XorCancel(x / 2, a / 2, b / 2);
    }
  }

  lemma {:induction false} Scaled(h: nat)
    ensures (32 * h) % HASH_SIZE == 32 * (h % 256) && (32 * h) % 256 == 32 * (h % 8) && (32 * h) % 8 == 0
  {
    assert 32 * h == HASH_SIZE * (h / 256) + 32 * (h % 256);
    RemainderOf(HASH_SIZE, h / 256, 32 * (h % 256));
    assert 32 * h == 256 * (h / 8) + 32 * (h % 8);
    RemainderOf(256, h / 8, 32 * (h % 8));
    RemainderOf(8, 4 * h, 0);
  }

  /** The key depends on the low 8 bits of the last key only. */
  lemma {:induction false} KeyOf(h: nat, c: byte)
    ensures UpdateHash(h, c) == Xor(32 * (h % 256), c)
    ensures UpdateHash(h, c) % 256 == Xor(32 * (h % 8), c)
    ensures UpdateHash(h, c) % 8 == c % 8
  {
    hide Xor, Pow2;
    Pow2Table();
    KeyMod(h, c, 13);
    KeyMod(h, c, 8);
    KeyMod(h, c, 3);
    Scaled(h);
    XorZero(c % 8);
    NestedMod(Xor(h * 32, c));
  }

  lemma {:induction false} KeyMod(h: nat, c: byte, k: nat)
    ensures Xor(h * 32, c) % Pow2(k) == Xor((32 * h) % Pow2(k), c % Pow2(k))
  {
    hide Xor, Pow2;
    XorMod(h * 32, c, k);
  }

  lemma {:induction false} NestedMod(x: nat)
    ensures x % HASH_SIZE % 256 == x % 256 && x % HASH_SIZE % 8 == x % 8
  {
  }

  /** What two bytes leave in the low 8 bits of the key. */
  function PairKey(a: byte, b: byte): nat
  {
    Xor(32 * (a % 8), b)
  }

  /** The key of three bytes. */
  function Key(a: byte, b: byte, c: byte): (r: nat)
    ensures r < HASH_SIZE
  {
    UpdateHash(PairKey(a, b), c)
  }

  /** The running key, brought forward by one byte, is the key of the last three bytes, and
      again ready for the next one. */
  lemma {:induction false} KeyRolls(h: nat, a: byte, b: byte, c: byte)
    requires h % 256 == PairKey(a, b)
    ensures UpdateHash(h, c) == Key(a, b, c) && UpdateHash(h, c) % 256 == PairKey(b, c)
  {
    hide Xor, UpdateHash;
    KeyOf(h, c);
    KeyOf(PairKey(a, b), c);
    PairLow(a, b);
    assert h % 8 == PairKey(a, b) % 8;
  }

  lemma {:induction false} PairLow(a: byte, b: byte)
    ensures PairKey(a, b) < 256 && PairKey(a, b) % 8 == b % 8
  {
    hide Xor;
    KeyOf(a % 8, b);
  }

  lemma {:induction false} KeyStarts(a: byte, b: byte)
    ensures UpdateHash(UpdateHash(0, a), b) % 256 == PairKey(a, b)
  {
    hide Xor, UpdateHash;
    KeyOf(0, a);
    KeyOf(UpdateHash(0, a), b);
  }

  /** Equal keys and two equal bytes make the third byte equal, which is why longest_match
      does not compare it. */
  lemma {:induction false} ThirdByte(a: byte, b: byte, c: byte, d: byte)
    requires Key(a, b, c) == Key(a, b, d)
    ensures c == d
  {
    hide Xor, UpdateHash;
    KeyOf(PairKey(a, b), c);
    KeyOf(PairKey(a, b), d);
    XorCancel(32 * (PairKey(a, b) % 256), c, d);
  }
}
