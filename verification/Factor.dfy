/**
 factor.c: trial division along the wheel, with squares detected and their roots factored
 recursively, each factor printed as often as the squares above it demand.
 */
module Factor {
  import opened Sums
  import opened Wheel
  import opened Primes

  const TWO_64 := TWO_32 * TWO_32

  // ----- isqrt -----

  lemma {:induction false} QuarterQuotient(n: nat, k: nat)
    ensures 0 <= n / Pow2(k) && n / Pow2(k + 2) == (n / Pow2(k)) / 4
  {
    var p, q := Pow2(k), n / Pow2(k);
    assert Pow2(k + 1) == 2 * p && Pow2(k + 2) == 4 * p;
    NestedQuotient(n, p);
  }

  lemma {:induction false} NestedQuotient(n: nat, p: nat)
    requires p > 0
    ensures 0 <= n / p && n / (4 * p) == (n / p) / 4
  {
    var q, r := n / p, n % p;
    var x, y := q / 4, q % 4;
    assert n == p * (4 * x + y) + r;
    assert p * (4 * x + y) == 4 * p * x + p * y;
    MulMonotone(y, 3, p);
    RemainderOf(4 * p, x, p * y + r);
  }

  /** x is the integer part of the square root of q. */
  predicate IsRoot(x: nat, q: nat)
  {
    x * x <= q < (x + 1) * (x + 1)
  }

  /** One more bit of the root. */
  lemma {:induction false} RootStep(x: nat, q: nat)
    requires IsRoot(x, q / 4)
    ensures IsRoot(if (2 * x + 1) * (2 * x + 1) > q then 2 * x else 2 * x + 1, q)
  {
    assert (2 * x) * (2 * x) == 4 * (x * x);
    assert (2 * x + 2) * (2 * x + 2) == 4 * ((x + 1) * (x + 1));
  }

  /** isqrt. */
  method Isqrt(n: nat) returns (x: nat)
    requires n < TWO_64
    ensures IsRoot(x, n) && x < TWO_32
  {
    hide Pow2, IsRoot;
    var shift := 62;
    x := 0;
    RootStart(n);
    while true
      invariant 0 <= shift <= 62 && shift % 2 == 0
      invariant 0 <= n / Pow2(shift + 2) && IsRoot(x, n / Pow2(shift + 2))
      decreases shift
    {
      QuarterQuotient(n, shift);
      RootStep(x, n / Pow2(shift));
      x := 2 * x + 1;
      if x * x > n / Pow2(shift) {
        x := x - 1;
      }
      if shift - 2 < 0 {
        break;
      }
      shift := shift - 2;
    }
    PowZero(n);
    RootSmall(n, x);
  }

  lemma {:induction false} RootStart(n: nat)
    requires n < TWO_64
    ensures n / Pow2(64) == 0 && IsRoot(0, n / Pow2(64))
  {
    Pow2Add(32, 32);
    Pow2Table();
  }

  lemma {:induction false} PowZero(n: nat)
    ensures n / Pow2(0) == n
  {
  }

  lemma {:induction false} RootSmall(n: nat, x: nat)
    requires n < TWO_64 && IsRoot(x, n)
    ensures x < TWO_32
  {
    if x >= TWO_32 {
      MulMonotone(TWO_32, x, TWO_32);
      MulMonotone(TWO_32, x, x);
    }
  }

  // ----- the counter of repetitions -----

  /** N may be factored with each factor printed k times: the 8-bit counter is right. */
  ghost predicate Repeatable(n: nat, k: nat)
  {
    1 <= k < 256 && (n >= 4 ==> Pow(n, k) < TWO_64)
  }

  lemma {:induction false} ExponentBound(b: nat, k: nat)
    requires b >= 2 && Pow(b, k) < TWO_64
    ensures k < 64
  {
    PowMonotone(2, b, k);
    PowOfTwo(k);
    if k >= 64 {
      Pow2Monotone(64, k);
      Pow2Add(32, 32);
      Pow2Table();
    }
  }

  /** Doubling the counter for the root of a square does not overflow. */
  lemma {:induction false} CounterDoubles(bound: nat, n: nat, s: nat, k: nat)
    requires bound >= 4 && Repeatable(bound, k) && 1 <= n <= bound && n == s * s
    ensures 2 * k < 128 && Repeatable(s, 2 * k) && s < bound
  {
    ExponentBound(bound, k);
    PowMonotone(n, bound, k);
    PowSquare(s, n, k);
    if s >= bound {
      MulMonotone(bound, s, s);
      MulMonotone(4, s, s);
    }
  }

  // ----- what the wheel has excluded -----

  /** The numbers that the wheel skips are multiples of numbers already tried. */
  lemma {:induction false} WheelExcludes(tab: seq<nat>, n: nat, factor: nat, w: nat)
    requires WheelTab(tab) && Position(factor, w) && NoneBelow(n, factor + 1)
    ensures w < |tab| == WHEEL_SIZE && 1 <= tab[w] <= 14 && Position(factor + tab[w], Next(w)) && NoneBelow(n, factor + tab[w])
  {
    Advance(tab, factor, w);
    forall d | 2 <= d < factor + tab[w] ensures !Divides(d, n) {
      if d > factor && Divides(d, n) {
        assert Caught(d, factor);
        CaughtDivisor(d, factor, n);
      }
    }
  }

  lemma {:induction false} CaughtDivisor(d: nat, f: nat, n: nat)
    requires Caught(d, f) && Divides(d, n) && d > f
    ensures !NoneBelow(n, f + 1)
  {
    var p := if f >= 2 && d % 2 == 0 then 2 else if f >= 3 && d % 3 == 0 then 3 else if f >= 5 && d % 5 == 0 then 5
             else if f >= 7 && d % 7 == 0 then 7 else 11;
    assert Divides(p, d) && 2 <= p <= f;
    Transitive(p, d, n);
  }

  /** Trial division up to the largest odd number not above the root is enough. */
  lemma {:induction false} OddRootIsEnough(n: nat, s: nat, factor: nat)
    requires n >= 2 && IsRoot(s, n) && factor >= 2 && NoneBelow(n, factor + 1)
    requires factor >= (if s % 2 == 1 then s else s - 1)
    ensures Prime(n) && n > factor
  {
    forall d | 2 <= d < s + 1 ensures !Divides(d, n) {
      if d > factor && Divides(d, n) {
        assert d == s && s % 2 == 0;
        assert Divides(2, d);
        Transitive(2, d, n);
      }
    }
    PrimeBySqrt(n, s);
    AboveTried(n, factor);
  }

  lemma {:induction false} AboveTried(n: nat, factor: nat)
    requires n >= 2 && NoneBelow(n, factor + 1)
    ensures n > factor
  {
    assert Divides(n, n);
  }

  /** So is trial division up to where the next divisor would not fit 32 bits. */
  lemma {:induction false} WordIsEnough(n: nat, s: nat, next: nat, factor: nat)
    requires n >= 2 && IsRoot(s, n) && s < TWO_32 <= next && NoneBelow(n, next) && factor < next
    ensures Prime(n) && n > factor
  {
    PrimeBySqrt(n, s);
    AboveTried(n, next - 1);
  }

  // ----- factorize -----

  /** The factors ps, none above factor, have been divided out of n0 and n is left. */
  ghost predicate Dividing(n0: nat, n: nat, ps: seq<nat>, factor: nat)
  {
    && n0 >= 1 && n >= 1 && factor >= 2 && Factorization(ps, Product(ps)) && Product(ps) * n == n0
    && (forall i :: 0 <= i < |ps| ==> ps[i] <= factor) && NoneBelow(n, factor)
  }

  lemma {:induction false} DividingStarts(n0: nat)
    requires n0 >= 1
    ensures Dividing(n0, n0, [], 2)
  {
  }

  lemma {:induction false} DivideOut(n0: nat, n: nat, ps: seq<nat>, factor: nat)
    requires Dividing(n0, n, ps, factor) && n % factor == 0
    ensures Dividing(n0, n / factor, ps + [factor], factor) && 1 <= n / factor < n && n / factor <= n0
  {
    hide Prime, NoneBelow;
    SmallestIsPrime(n, factor);
    OneFactor(factor);
    JoinFactors(ps, Product(ps), [factor], factor, factor);
    var q := Quotient(factor, n);
    Associate(Product(ps), factor, q);
    Commute(factor, q);
    PositiveFactor(factor, q);
    ProductDivides(q, factor);
    NoneBelowDivisor(n, q, factor);
    DividesTotal(n0, Product(ps), n);
  }

  lemma {:induction false} PositiveFactor(f: nat, q: nat)
    requires f >= 2 && f * q >= 1
    ensures 1 <= q < f * q
  {
    assert q != 0;
    MulMonotone(2, f, q);
  }

  lemma {:induction false} DividesTotal(n0: nat, m: nat, n: nat)
    requires m * n == n0 && n0 >= 1
    ensures n <= n0
  {
    assert m != 0;
    MulMonotone(1, m, n);
  }

  lemma {:induction false} TryNext(n0: nat, n: nat, ps: seq<nat>, factor: nat, next: nat)
    requires Dividing(n0, n, ps, factor) && NoneBelow(n, next) && factor <= next
    ensures Dividing(n0, n, ps, next)
  {
  }

  lemma {:induction false} NotDivisible(n: nat, factor: nat)
    requires factor > 0 && NoneBelow(n, factor) && n % factor != 0
    ensures NoneBelow(n, factor + 1)
  {
  }

  /** The rest is a prime, or its factors have been found otherwise. */
  lemma {:induction false} RestFactored(n0: nat, n: nat, ps: seq<nat>, factor: nat, gs: seq<nat>)
    requires Dividing(n0, n, ps, factor) && Factorization(gs, n)
    ensures Factorization(ps + gs, n0)
  {
    hide Prime;
    FactorsAtLeast(gs, n, factor);
    JoinFactors(ps, Product(ps), gs, n, factor);
  }

  function OrOne(x: nat): nat
  {
    if x % 2 == 0 then x + 1 else x
  }

  /** What isqrt_odd returns for a number that is not a square. */
  ghost predicate OddRoot(max: nat, root: nat, n: nat)
  {
    IsRoot(root, n) && root < TWO_32 && max == (if root % 2 == 1 then root else root - 1) && n >= 2
  }

  lemma {:induction false} RootOdd(root: nat, n: nat)
    requires IsRoot(root, n) && root < TWO_32 && root * root != n && n >= 1
    ensures root >= 1 && OddRoot(OrOne(root - 1), root, n)
  {
    assert root == 0 ==> n < 1;
    assert n == 1 ==> root <= 1;
  }

  class Factorizer {
    const wheelTab: array<nat>
    var squareCount: nat
    var out: seq<nat>  // the numbers printed
    var ended: bool    // whether the line has been ended

    ghost predicate Valid()
      reads wheelTab
    {
      wheelTab.Length == WHEEL_SIZE && WheelTab(wheelTab[..])
    }

    constructor ()
      ensures Valid()
    {
      wheelTab := new nat[WHEEL_SIZE](_ => 0);
      squareCount, out, ended := 1, [], false;
      new;
      UnpackWheel(wheelTab);
    }

    /** print_w: the number, squareCount times. */
    method PrintW(n: nat)
      requires squareCount >= 1 && !ended
      modifies this`out
      ensures out == old(out) + Times(n, squareCount)
    {
      var rep := squareCount;
      while true
        invariant 1 <= rep <= squareCount
        invariant out == old(out) + Times(n, squareCount - rep)
        decreases rep
      {
        out := out + [n];
        assert Times(n, squareCount - rep) + [n] == Times(n, squareCount - rep + 1);
        rep := rep - 1;
        if rep == 0 {
          break;
        }
      }
    }

    /** isqrt_odd: a square is factored through its root, and the counter does not overflow. */
    method IsqrtOdd(n: nat, ghost bound: nat) returns (s: nat, ghost root: nat, ghost fs: seq<nat>)
      requires Valid() && !ended && 1 <= n <= bound < TWO_64 && bound >= 4 && Repeatable(bound, squareCount)
      modifies this`squareCount, this`out, this`ended
      ensures Valid()
      ensures s == 0 ==> ended && Factorization(fs, n) && out == old(out) + Stretch(fs, old(squareCount))
      ensures s != 0 ==> OddRoot(s, root, n) && squareCount == old(squareCount) && out == old(out) && !ended
      decreases bound, 0
    {
      hide Pow, Factorization, Repeatable, IsRoot, WheelTab;
      ghost var k := squareCount;
      fs := [];
      s := Isqrt(n);
      root := s;
      if s * s == n {
        CounterDoubles(bound, n, s, k);
        squareCount := squareCount * 2 % 256;
        ghost var gs := Factorize(s);
        RootPositive(s, n);
        SquareFactors(gs, s);
        StretchTwice(gs, k);
        fs := Stretch(gs, 2);
        s := 0;
        return;
      }
      RootOdd(s, n);
      s := OrOne(s - 1);
    }

    /** The inner loop of factorize: factor is divided out as long as it divides n; if a square
        is left, all is done. */
    method StripFactor(n0: nat, factor: nat, max0: nat, ghost total: nat, ghost root0: nat, ghost fs0: seq<nat>, ghost start: seq<nat>)
      returns (n: nat, maxFactor: nat, stop: bool, ghost root: nat, ghost fs: seq<nat>)
      requires Valid() && !ended && 4 <= total < TWO_64 && Repeatable(total, squareCount) && factor > 0
      requires Dividing(total, n0, fs0, factor) && OddRoot(max0, root0, n0) && out == start + Stretch(fs0, squareCount)
      modifies this`squareCount, this`out, this`ended
      ensures Valid() && n <= n0 && out == start + Stretch(fs, old(squareCount))
      ensures stop ==> ended && Factorization(fs, total)
      ensures !stop ==> && Dividing(total, n, fs, factor) && n % factor != 0 && OddRoot(maxFactor, root, n)
                        && squareCount == old(squareCount) && !ended
      decreases total, 1
    {
      hide Pow, Factorization, Dividing, IsRoot, WheelTab, Stretch, Times, OddRoot, Repeatable;
      ghost var k := squareCount;
      n, maxFactor, root, fs := n0, max0, root0, fs0;
      while n % factor == 0
        invariant Valid() && squareCount == k && !ended && out == start + Stretch(fs, k)
        invariant Dividing(total, n, fs, factor) && OddRoot(maxFactor, root, n) && n <= n0
        decreases n
      {
        DivideOut(total, n, fs, factor);
        StretchSnoc(fs, factor, k);
        n := n / factor;
        RepeatableCount(total, k);
        PrintW(factor);
        ghost var before := fs;
        fs := fs + [factor];
        Rejoin(start, Stretch(before, k), Times(factor, k));
        ghost var gs;
        maxFactor, root, gs := IsqrtOdd(n, total);
        if maxFactor == 0 {
          RestFactored(total, n, fs, factor, gs);
          StretchConcat(fs, gs, k);
          Rejoin(start, Stretch(fs, k), Stretch(gs, k));
          fs := fs + gs;
          stop := true;
          return;
        }
      }
      stop := false;
    }

    /** factorize: prints the factors of n0, each squareCount times, and ends the line. */
    method Factorize(n0: nat) returns (ghost fs: seq<nat>)
      requires Valid() && !ended && n0 < TWO_64 && Repeatable(n0, squareCount)
      modifies this`squareCount, this`out, this`ended
      ensures Valid() && ended && out == old(out) + Stretch(fs, old(squareCount))
      ensures if n0 == 0 then fs == [] else Factorization(fs, n0)
      decreases n0, 2
    {
      hide Pow, Factorization, Dividing, IsRoot, WheelTab, Stretch, Times, Position, OddRoot, NoneBelow;
      ghost var k, start := squareCount, out;
      var n: nat := n0;
      fs := [];
      StretchNone(k);
      if n < 4 {
        SmallNumbers(n, k);
        if n > 1 {
          PrintW(n);
          fs := [n];
        }
        ended := true;
        return;
      }
      var maxFactor;
      ghost var root, gs;
      maxFactor, root, gs := IsqrtOdd(n, n0);
      if maxFactor == 0 {
        fs := gs;
        return;
      }
      var factor: nat, w: nat := 2, 0;
      DividingStarts(n0);
      FirstPosition();
      while true
        invariant Valid() && squareCount == k && !ended && 4 <= n0 && out == start + Stretch(fs, k)
        invariant Dividing(n0, n, fs, factor) && Position(factor, w) && OddRoot(maxFactor, root, n) && 2 <= factor < TWO_32 && w >= 0
        decreases n, TWO_32 - factor
      {
        var stop;
        n, maxFactor, stop, root, fs := StripFactor(n, factor, maxFactor, n0, root, fs, start);
        if stop {
          return;
        }
        Excluded(n0, n, fs, factor);
        if factor >= maxFactor {
          RootDone(n, root, maxFactor, factor);
          break;
        }
        WheelExcludes(wheelTab[..], n, factor, w);
        var fw := (factor + wheelTab[w]) % TWO_32;
        if fw < factor {
          WordDone(n, root, maxFactor, factor + wheelTab[w], factor);
          break;
        }
        NoWrap(factor, wheelTab[w]);
        TryNext(n0, n, fs, factor, fw);
        factor := fw;
        w := w + 1;
        if w < WHEEL_SIZE {
          continue;
        }
        w := WHEEL_START;
      }
      OneFactor(n);
      RestFactored(n0, n, fs, factor, [n]);
      StretchSnoc(fs, n, k);
      Rejoin(start, Stretch(fs, k), Times(n, k));
      if n > 1 {
        PrintW(n);
      }
      fs := fs + [n];
      ended := true;
    }
  }

  lemma {:induction false} Rejoin(a: seq<nat>, b: seq<nat>, c: seq<nat>)
    ensures (a + b) + c == a + (b + c)
  {
  }

  lemma {:induction false} RepeatableCount(n: nat, k: nat)
    requires Repeatable(n, k)
    ensures 1 <= k < 256
  {
  }

  lemma {:induction false} RootPositive(s: nat, n: nat)
    requires s * s == n && n >= 1
    ensures s >= 1
  {
  }

  lemma {:induction false} StretchNone(k: nat)
    ensures Stretch([], k) == []
  {
  }

  lemma {:induction false} SmallNumbers(n: nat, k: nat)
    requires n < 4
    ensures n > 1 ==> Factorization([n], n) && Stretch([n], k) == Times(n, k)
    ensures n == 1 ==> Factorization([], 1)
  {
    if n > 1 {
      assert Prime(n);
      OneFactor(n);
      assert [] + [n] == [n];
      StretchSnoc([], n, k);
    }
  }

  lemma {:induction false} FirstPosition()
    ensures Position(2, 0)
  {
  }

  lemma {:induction false} Excluded(n0: nat, n: nat, ps: seq<nat>, factor: nat)
    requires factor > 0 && Dividing(n0, n, ps, factor) && n % factor != 0
    ensures NoneBelow(n, factor + 1)
  {
    NotDivisible(n, factor);
  }

  lemma {:induction false} RootDone(n: nat, root: nat, max: nat, factor: nat)
    requires OddRoot(max, root, n) && factor >= max && factor >= 2 && NoneBelow(n, factor + 1)
    ensures Prime(n) && n > factor
  {
    OddRootIsEnough(n, root, factor);
  }

  lemma {:induction false} WordDone(n: nat, root: nat, max: nat, next: nat, factor: nat)
    requires OddRoot(max, root, n) && NoneBelow(n, next) && factor < next && next % TWO_32 < factor < TWO_32
    ensures Prime(n) && n > factor
  {
    WordIsEnough(n, root, next, factor);
  }

  lemma {:induction false} NoWrap(factor: nat, inc: nat)
    requires factor < TWO_32 && inc <= 14 && (factor + inc) % TWO_32 >= factor
    ensures (factor + inc) % TWO_32 == factor + inc
  {
  }

  /** factor: for every N from 1 to 2^64 - 1 the primes whose product is N are printed in
      non-decreasing order; for 0 nothing is printed. */
  method FactorNumber(n: nat) returns (out: seq<nat>)
    requires n < TWO_64
    ensures if n == 0 then out == [] else Factorization(out, n)
  {
    hide Factorization, Factorizer.Valid;
    var f := new Factorizer();
    f.squareCount, f.out, f.ended := 1, [], false;
    OnceIsRepeatable(n);
    ghost var fs := f.Factorize(n);
    StretchOnce(fs);
    assert [] + fs == fs;
    out := f.out;
  }

  lemma {:induction false} OnceIsRepeatable(n: nat)
    requires n < TWO_64
    ensures Repeatable(n, 1)
  {
    assert Pow(n, 0) == 1;
  }
}
