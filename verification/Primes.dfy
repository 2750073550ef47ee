/**
 Divisors, primes and sorted prime factorizations.
 */
module Primes {
  import opened Sums

  predicate Divides(d: nat, n: nat)
  {
    d > 0 && n % d == 0
  }

  lemma {:induction false} Quotient(d: nat, n: nat) returns (q: nat)
    requires Divides(d, n)
    ensures n == d * q && q == n / d
  {
    q := n / d;
  }

  lemma {:induction false} ProductDivides(d: nat, q: nat)
    requires d > 0
    ensures Divides(d, d * q)
    decreases q
  {
    if q > 0 {
      ProductDivides(d, q - 1);
      assert d * q == d * (q - 1) + d;
      AddOnce(d * (q - 1), d);
    }
  }

  lemma {:induction false} Transitive(a: nat, b: nat, c: nat)
    requires Divides(a, b) && Divides(b, c)
    ensures Divides(a, c)
  {
    var x := Quotient(a, b);
    var y := Quotient(b, c);
    assert c == a * (x * y);
    ProductDivides(a, x * y);
  }

  lemma {:induction false} DivisorIsSmaller(d: nat, n: nat)
    requires Divides(d, n) && n > 0
    ensures d <= n
  {
    var q := Quotient(d, n);
    assert q >= 1;
    MulMonotone(1, q, d);
  }

  predicate Prime(p: nat)
  {
    p >= 2 && forall d :: 2 <= d < p ==> !Divides(d, p)
  }

  /** n has no divisor from 2 up to below f. */
  predicate NoneBelow(n: nat, f: nat)
  {
    forall d :: 2 <= d < f ==> !Divides(d, n)
  }

  /** The smallest divisor is a prime. */
  lemma {:induction false} SmallestIsPrime(n: nat, f: nat)
    requires NoneBelow(n, f) && f >= 2 && Divides(f, n)
    ensures Prime(f)
  {
    forall d | 2 <= d < f ensures !Divides(d, f) {
      if Divides(d, f) {
        Transitive(d, f, n);
      }
    }
  }

  lemma {:induction false} NoneBelowDivisor(n: nat, m: nat, f: nat)
    requires NoneBelow(n, f) && Divides(m, n)
    ensures NoneBelow(m, f)
  {
    forall d | 2 <= d < f ensures !Divides(d, m) {
      if Divides(d, m) {
        Transitive(d, m, n);
      }
    }
  }

  /** A number without divisors up to its square root is a prime. */
  lemma {:induction false} PrimeBySqrt(n: nat, s: nat)
    requires n >= 2 && NoneBelow(n, s + 1) && n < (s + 1) * (s + 1)
    ensures Prime(n)
  {
    forall d | 2 <= d < n ensures !Divides(d, n) {
      if Divides(d, n) {
        var e := Quotient(d, n);
        if d > s {
          CoDivisor(n, d, e, s);
        }
      }
    }
  }

  lemma {:induction false} CoDivisor(n: nat, d: nat, e: nat, s: nat)
    requires n == d * e && 2 <= d < n && s < d && n < (s + 1) * (s + 1)
    ensures 2 <= e <= s && Divides(e, n)
  {
    if e > s {
      MulMonotone(s + 1, d, s + 1);
      MulMonotone(s + 1, e, d);
    }
    assert e != 0 && e != 1;
    assert n == e * d;
    ProductDivides(e, d);
  }

  // ----- sorted factorizations -----

  function Product(s: seq<nat>): nat
  {
    if s == [] then 1 else Product(s[..|s| - 1]) * s[|s| - 1]
  }

  predicate Sorted(s: seq<nat>)
  {
    forall i, j :: 0 <= i < j < |s| ==> s[i] <= s[j]
  }

  predicate AllPrime(s: seq<nat>)
  {
    forall i :: 0 <= i < |s| ==> Prime(s[i])
  }

  /** The primes whose product is n, in non-decreasing order. */
  predicate Factorization(s: seq<nat>, n: nat)
  {
    Sorted(s) && AllPrime(s) && Product(s) == n
  }

  lemma {:induction false} ProductConcat(s: seq<nat>, t: seq<nat>)
    ensures Product(s + t) == Product(s) * Product(t)
  {
    if t == [] {
      assert s + t == s;
    } else {
      var init, x := t[..|t| - 1], t[|t| - 1];
      ProductConcat(s, init);
      assert (s + t)[..|s + t| - 1] == s + init;
      Associate(Product(s), Product(init), x);
    }
  }

  lemma {:induction false} Associate(a: nat, b: nat, c: nat)
    ensures (a * b) * c == a * (b * c)
  {
  }

  lemma {:induction false} FactorDivides(s: seq<nat>, i: nat)
    requires i < |s| && AllPrime(s)
    ensures Divides(s[i], Product(s))
  {
    hide Prime, Divides;
    assert Prime(s[i]);
    PrimePositive(s[i]);
    var init, x := s[..|s| - 1], s[|s| - 1];
    if i == |s| - 1 {
      Commute(Product(init), x);
      ProductDivides(x, Product(init));
    } else {
      FactorDivides(init, i);
      var q := Quotient(s[i], Product(init));
      Associate(s[i], q, x);
      ProductDivides(s[i], q * x);
    }
  }

  lemma {:induction false} PrimePositive(p: nat)
    requires Prime(p)
    ensures p >= 2
  {
  }

  lemma {:induction false} Commute(a: nat, b: nat)
    ensures a * b == b * a
  {
  }

  /** All factors are at least as large as the smallest divisor can be. */
  lemma {:induction false} FactorsAtLeast(s: seq<nat>, n: nat, f: nat)
    requires Factorization(s, n) && NoneBelow(n, f)
    ensures forall i :: 0 <= i < |s| ==> s[i] >= f
  {
    forall i | 0 <= i < |s| ensures s[i] >= f {
      FactorDivides(s, i);
      assert Prime(s[i]);
    }
  }

  /** Factors up to f followed by factors from f on. */
  lemma {:induction false} JoinFactors(s: seq<nat>, m: nat, t: seq<nat>, n: nat, f: nat)
    requires Factorization(s, m) && Factorization(t, n)
    requires (forall i :: 0 <= i < |s| ==> s[i] <= f) && (forall i :: 0 <= i < |t| ==> f <= t[i])
    ensures Factorization(s + t, m * n)
  {
    hide Prime;
    ProductConcat(s, t);
  }

  lemma {:induction false} OneFactor(p: nat)
    requires Prime(p)
    ensures Factorization([p], p)
  {
    assert [p][..0] == [];
  }

  // ----- repeated factors -----

  function Times(x: nat, k: nat): (s: seq<nat>)
    ensures |s| == k
  {
    seq(k, _ => x)
  }

  /** Every entry k times. */
  function Stretch(s: seq<nat>, k: nat): seq<nat>
  {
    if s == [] then [] else Stretch(s[..|s| - 1], k) + Times(s[|s| - 1], k)
  }

  lemma {:induction false} StretchSnoc(s: seq<nat>, x: nat, k: nat)
    ensures Stretch(s + [x], k) == Stretch(s, k) + Times(x, k)
  {
    assert (s + [x])[..|s|] == s;
  }

  lemma {:induction false} StretchConcat(s: seq<nat>, t: seq<nat>, k: nat)
    ensures Stretch(s + t, k) == Stretch(s, k) + Stretch(t, k)
  {
    if t == [] {
      assert s + t == s;
    } else {
      var init := t[..|t| - 1];
      StretchConcat(s, init, k);
      assert (s + t)[..|s + t| - 1] == s + init;
    }
  }

  lemma {:induction false} StretchOnce(s: seq<nat>)
    ensures Stretch(s, 1) == s
  {
    if s != [] {
      StretchOnce(s[..|s| - 1]);
    }
  }

  lemma {:induction false} StretchTimes(x: nat, j: nat, k: nat)
    ensures Stretch(Times(x, j), k) == Times(x, j * k)
    decreases j
  {
    if j > 0 {
      StretchTimes(x, j - 1, k);
      assert Times(x, j)[..j - 1] == Times(x, j - 1);
      assert j * k == (j - 1) * k + k;
      assert Times(x, (j - 1) * k) + Times(x, k) == Times(x, j * k);
    }
  }

  lemma {:induction false} StretchTwice(s: seq<nat>, k: nat)
    ensures Stretch(Stretch(s, 2), k) == Stretch(s, 2 * k)
  {
    hide Times;
    if s != [] {
      var init, x := s[..|s| - 1], s[|s| - 1];
      StretchTwice(init, k);
      StretchConcat(Stretch(init, 2), Times(x, 2), k);
      StretchTimes(x, 2, k);
    }
  }

  /** The square of a number has every factor twice. */
  lemma {:induction false} SquareFactors(s: seq<nat>, n: nat)
    requires Factorization(s, n)
    ensures Factorization(Stretch(s, 2), n * n)
    ensures forall i :: 0 <= i < |Stretch(s, 2)| ==> Stretch(s, 2)[i] in s
  {
    hide Prime;
    if s != [] {
      var init, x := s[..|s| - 1], s[|s| - 1];
      SquareFactors(init, Product(init));
      var t := Stretch(init, 2);
      assert Prime(x);
      PairOf(x);
      forall i | 0 <= i < |t| ensures t[i] <= x {
        assert t[i] in init;
      }
      JoinFactors(t, Product(init) * Product(init), Times(x, 2), x * x, x);
      SquareProduct(Product(init), x);
    }
  }

  lemma {:induction false} PairOf(x: nat)
    requires Prime(x)
    ensures Factorization(Times(x, 2), x * x)
  {
    hide Prime;
    OneFactor(x);
    assert Times(x, 2) == [x] + [x];
    ProductConcat([x], [x]);
  }

  lemma {:induction false} SquareProduct(a: nat, x: nat)
    ensures (a * a) * (x * x) == (a * x) * (a * x)
  {
  }

  // ----- powers -----

  function Pow(b: nat, k: nat): nat
  {
    if k == 0 then 1 else Pow(b, k - 1) * b
  }

  lemma {:induction false} PowMonotone(a: nat, b: nat, k: nat)
    requires a <= b
    ensures Pow(a, k) <= Pow(b, k)
  {
    if k > 0 {
      PowMonotone(a, b, k - 1);
      MulMonotone(Pow(a, k - 1), Pow(b, k - 1), a);
      MulMonotone(a, b, Pow(b, k - 1));
    }
  }

  lemma {:induction false} PowSquare(s: nat, q: nat, k: nat)
    requires q == s * s
    ensures Pow(q, k) == Pow(s, 2 * k)
  {
    if k > 0 {
      PowSquare(s, q, k - 1);
      var p := Pow(s, 2 * k - 2);
      PowUnfold(q, k);
      PowUnfold(s, 2 * k);
      PowUnfold(s, 2 * k - 1);
      Associate(p, s, s);
      assert Pow(s, 2 * k) == (p * s) * s;
      assert Pow(q, k) == p * q;
    }
  }

  lemma {:induction false} PowUnfold(b: nat, k: nat)
    requires k > 0
    ensures Pow(b, k) == Pow(b, k - 1) * b
  {
  }

  lemma {:induction false} PowOfTwo(k: nat)
    ensures Pow(2, k) == Pow2(k)
  {
    if k > 0 {
      PowOfTwo(k - 1);
    }
  }

  /** Printing every factor k times multiplies up to the k-th power. */
  lemma {:induction false} ProductStretch(s: seq<nat>, k: nat)
    ensures Product(Stretch(s, k)) == Pow(Product(s), k)
  {
    hide Times;
    if s == [] {
      PowOne(k);
    } else {
      var init, x := s[..|s| - 1], s[|s| - 1];
      ProductStretch(init, k);
      ProductConcat(Stretch(init, k), Times(x, k));
      ProductTimes(x, k);
      PowProduct(Product(init), x, k);
    }
  }

  lemma {:induction false} PowOne(k: nat)
    ensures Pow(1, k) == 1
  {
    if k > 0 {
      PowOne(k - 1);
    }
  }

  lemma {:induction false} ProductTimes(x: nat, k: nat)
    ensures Product(Times(x, k)) == Pow(x, k)
  {
    if k > 0 {
      ProductTimes(x, k - 1);
      assert Times(x, k)[..k - 1] == Times(x, k - 1);
    }
  }

  lemma {:induction false} PowProduct(a: nat, b: nat, k: nat)
    ensures Pow(a, k) * Pow(b, k) == Pow(a * b, k)
  {
    if k > 0 {
      PowProduct(a, b, k - 1);
      Interchange(Pow(a, k - 1), a, Pow(b, k - 1), b);
    }
  }

  lemma {:induction false} Interchange(p: nat, a: nat, q: nat, b: nat)
    ensures (p * a) * (q * b) == (p * q) * (a * b)
  {
  }

  // ----- there is only one factorization -----

  lemma {:induction false} DifferenceDivides(p: nat, m: nat, n: nat)
    requires Divides(p, m) && Divides(p, n) && m >= n
    ensures Divides(p, m - n)
  {
    var x := Quotient(p, m);
    var y := Quotient(p, n);
    MulCancel(y, x, p);
    assert p * x - p * y == p * (x - y);
    ProductDivides(p, x - y);
  }

  /** A prime that divides x * b, with x smaller than the prime, divides b. */
  lemma {:induction false} EuclidSmall(p: nat, x: nat, b: nat)
    requires Prime(p) && 1 <= x < p && Divides(p, x * b)
    ensures Divides(p, b)
    decreases x
  {
    if x > 1 {
      var q, r := p / x, p % x;
      assert p == x * q + r;
      assert r != 0 by {
        assert !Divides(x, p);
      }
      Reduce(p, x, q, r, b);
      EuclidSmall(p, r, b);
    }
  }

  lemma {:induction false} Reduce(p: nat, x: nat, q: nat, r: nat, b: nat)
    requires p > 0 && p == x * q + r && Divides(p, x * b)
    ensures Divides(p, r * b)
  {
    var y := Quotient(p, x * b);
    ProductDivides(p, b);
    ProductDivides(p, y * q);
    assert p * b == (x * b) * q + r * b by {
      assert (x * q + r) * b == (x * q) * b + r * b;
      assert (x * q) * b == (x * b) * q;
    }
    assert (x * b) * q == p * (y * q) by {
      Associate(p, y, q);
    }
    DifferenceDivides(p, p * b, p * (y * q));
  }

  lemma {:induction false} Euclid(p: nat, a: nat, b: nat)
    requires Prime(p) && Divides(p, a * b)
    ensures Divides(p, a) || Divides(p, b)
  {
    var q, r := a / p, a % p;
    if r != 0 {
      assert a == p * q + r;
      assert a * b == p * (q * b) + r * b by {
        assert (p * q + r) * b == (p * q) * b + r * b;
        Associate(p, q, b);
      }
      ProductDivides(p, q * b);
      DifferenceDivides(p, a * b, p * (q * b));
      EuclidSmall(p, r, b);
    }
  }

  /** A prime that divides a product of primes is one of them. */
  lemma {:induction false} PrimeOccurs(p: nat, s: seq<nat>)
    requires Prime(p) && AllPrime(s) && Divides(p, Product(s))
    ensures p in s
  {
    if s == [] {
      DivisorIsSmaller(p, 1);
    } else {
      var init, x := s[..|s| - 1], s[|s| - 1];
      Euclid(p, Product(init), x);
      if Divides(p, x) {
        assert Prime(x);
        DivisorIsSmaller(p, x);
      } else {
        PrimeOccurs(p, init);
      }
    }
  }

  lemma {:induction false} ProductPositive(s: seq<nat>)
    requires AllPrime(s)
    ensures Product(s) >= 1 && (s != [] ==> Product(s) >= 2)
  {
    hide Divides;
    if s != [] {
      var init, x := s[..|s| - 1], s[|s| - 1];
      ProductPositive(init);
      assert Prime(x);
      MulMonotone(1, Product(init), x);
    }
  }

  lemma {:induction false} LargestAtMost(s: seq<nat>, t: seq<nat>, n: nat)
    requires Factorization(s, n) && Factorization(t, n) && s != [] && t != []
    ensures s[|s| - 1] <= t[|t| - 1]
  {
    hide Divides, Product;
    var x := s[|s| - 1];
    FactorDivides(s, |s| - 1);
    assert Prime(x);
    PrimeOccurs(x, t);
  }

  lemma {:induction false} CancelFactor(a: nat, b: nat, x: nat)
    requires a * x == b * x && x > 0
    ensures a == b
  {
    MulCancel(a, b, x);
    MulCancel(b, a, x);
  }

  /** The factors printed are determined by the number. */
  lemma {:induction false} FactorizationUnique(s: seq<nat>, t: seq<nat>, n: nat)
    requires Factorization(s, n) && Factorization(t, n)
    ensures s == t
    decreases |s|
  {
    hide Prime;
    ProductPositive(s);
    ProductPositive(t);
    if s != [] && t != [] {
      LargestAtMost(s, t, n);
      LargestAtMost(t, s, n);
      var x := s[|s| - 1];
      var s', t' := s[..|s| - 1], t[..|t| - 1];
      assert Prime(x);
      PrimePositive(x);
      CancelFactor(Product(s'), Product(t'), x);
      FactorizationUnique(s', t', Product(s'));
      assert s == s' + [x] && t == t' + [x];
    }
  }
}
