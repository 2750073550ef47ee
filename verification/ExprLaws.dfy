/**
 What the operators of expr compute, as laws about the meaning of trees: arithmetic,
 comparisons, the logical operators, the conversions, index and substr, and precedence.
 */
module ExprLaws {
  import opened Sums
  import opened Ascii
  import opened Expr

  // ----- numbers as strings -----

  /** The tree evaluates to x, or to a string that stands for x. */
  ghost predicate IsNumber(m: Matcher, e: Tree, x: int)
  {
    Meaning(m, e).Done? && ToArith(Meaning(m, e).v) == Int(x)
  }

  /** The tree evaluates to a string that stands for no number. */
  ghost predicate IsText(m: Matcher, e: Tree)
  {
    Meaning(m, e).Done? && ToArith(Meaning(m, e).v).Str?
  }

  lemma {:induction false} DigitsShape(n: nat)
    ensures |Digits(n)| >= 1 && forall i :: 0 <= i < |Digits(n)| ==> IsDigit(Digits(n)[i])
  {
    if n >= 10 {
      DigitsShape(n / 10);
    }
  }

  lemma {:induction false} ReadSnoc(s: Text, i: nat, acc: nat, d: nat)
    requires i <= |s| && d < 10 && ReadDigits(s, i, acc).Some?
    ensures ReadDigits(s + [48 + d], i, acc) == Some(10 * ReadDigits(s, i, acc).value + d)
    decreases |s| - i
  {
    var t := s + [48 + d];
    if i < |s| {
      assert t[i] == s[i];
      ReadSnoc(s, i + 1, 10 * acc + (s[i] as int - 48), d);
    } else {
      assert ReadDigits(t, i + 1, 10 * acc + d) == Some(10 * acc + d);
    }
  }

  lemma {:induction false} ReadShift(c: Char, s: Text, i: nat, acc: nat)
    requires i <= |s|
    ensures ReadDigits([c] + s, i + 1, acc) == ReadDigits(s, i, acc)
    decreases |s| - i
  {
    if i < |s| {
      assert ([c] + s)[i + 1] == s[i];
      if IsDigit(s[i]) {
        ReadShift(c, s, i + 1, 10 * acc + (s[i] as int - 48));
      }
    }
  }

  lemma {:induction false} DigitsRead(n: nat)
    ensures ReadDigits(Digits(n), 0, 0) == Some(n)
  {
    if n >= 10 {
      DigitsRead(n / 10);
      ReadSnoc(Digits(n / 10), 0, 0, n % 10);
    } else {
      assert ReadDigits([48 + n], 1, n) == Some(n);
    }
  }

  /** A number converted to a string reads back as itself. */
  lemma {:induction false} NumberRoundTrip(i: int)
    ensures ReadInt(ToString(Int(i))) == Some(i)
  {
    hide ReadDigits, Digits;
    if i >= 0 {
      DigitsShape(i);
      DigitsRead(i);
    } else {
      DigitsShape(-i);
      DigitsRead(-i);
      ReadShift(45, Digits(-i), 0, 0);
      assert ([45] + Digits(-i))[1] == Digits(-i)[0];
    }
  }

  /** Numbers are in decimal notation. */
  lemma {:induction false} Decimal(n: int, d: int)
    requires n >= 0 && 0 <= d < 10
    ensures ToString(Int(d)) == [48 + d]
    ensures n > 0 ==> ToString(Int(10 * n + d)) == ToString(Int(n)) + [48 + d] && ToString(Int(-n)) == [45] + ToString(Int(n))
  {
    hide Digits;
    DigitsUnfold(d);
    DigitsUnfold(10 * n + d);
    assert (10 * n + d) / 10 == n && (10 * n + d) % 10 == d;
  }

  lemma {:induction false} DigitsUnfold(n: nat)
    ensures Digits(n) == if n < 10 then [48 + n] else Digits(n / 10) + [48 + n % 10]
  {
  }

  /** Blanks, a plus sign and zeros in front of a number do not change it. */
  lemma {:induction false} NumberForms(n: nat)
    ensures ReadInt([43] + Digits(n)) == Some(n) && ReadInt([48] + Digits(n)) == Some(n)
    ensures ReadInt([32] + Digits(n)) == Some(n)
  {
    hide ReadDigits, Digits;
    DigitsShape(n);
    DigitsRead(n);
    ReadShift(43, Digits(n), 0, 0);
    ReadShift(32, Digits(n), 0, 0);
    ReadShift(48, Digits(n), 0, 0);
    assert ([43] + Digits(n))[1] == Digits(n)[0] == ([32] + Digits(n))[1];
    ReadZero([48] + Digits(n));
    assert SkipSpaces([32] + Digits(n), 1) == 1;
  }

  lemma {:induction false} ReadZero(s: Text)
    requires s != [] && s[0] == 48
    ensures ReadDigits(s, 0, 0) == ReadDigits(s, 1, 0)
  {
  }

  /** Only strings that end in a digit stand for numbers. */
  lemma {:induction false} NumberEnds(s: Text)
    requires ReadInt(s).Some?
    ensures s != [] && IsDigit(s[|s| - 1])
  {
    var i := SkipSpaces(s, 0);
    var j := if At(s, i) == 45 || At(s, i) == 43 then i + 1 else i;
    LastDigit(s, j, 0);
  }

  lemma {:induction false} LastDigit(s: Text, i: nat, acc: nat)
    requires i < |s| && ReadDigits(s, i, acc).Some?
    ensures IsDigit(s[|s| - 1])
    decreases |s| - i
  {
    if i + 1 < |s| {
      LastDigit(s, i + 1, 10 * acc + (s[i] as int - 48));
    }
  }

  /** A literal for x. */
  function Numeral(x: int): Tree
  {
    Quoted(ToString(Int(x)))
  }

  lemma {:induction false} NumeralIs(m: Matcher, x: int)
    ensures IsNumber(m, Numeral(x), x) && ValidTree(Numeral(x))
  {
    NumberRoundTrip(x);
  }

  // ----- arithmetic -----

  lemma {:induction false} ArithInt(i: int)
    ensures ToArith(Int(i)) == Int(i)
  {
  }

  /** The value of a sum, and no other number. */
  lemma {:induction false} SumIs(m: Matcher, a: Tree, b: Tree, x: int, y: int)
    requires IsNumber(m, a, x) && IsNumber(m, b, y)
    ensures Meaning(m, Binary(Add, a, b)) == Done(Int(x + y)) && forall z :: IsNumber(m, Binary(Add, a, b), z) <==> z == x + y
  {
    hide ToArith;
    MeaningBinary(m, Binary(Add, a, b));
    ArithInt(x + y);
  }

  lemma {:induction false} ProductIs(m: Matcher, a: Tree, b: Tree, x: int, y: int)
    requires IsNumber(m, a, x) && IsNumber(m, b, y)
    ensures Meaning(m, Binary(Mul, a, b)) == Done(Int(x * y)) && forall z :: IsNumber(m, Binary(Mul, a, b), z) <==> z == x * y
  {
    hide ToArith;
    MeaningBinary(m, Binary(Mul, a, b));
    ArithInt(x * y);
  }

  lemma {:induction false} DifferenceIs(m: Matcher, a: Tree, b: Tree, x: int, y: int)
    requires IsNumber(m, a, x) && IsNumber(m, b, y)
    ensures Meaning(m, Binary(Sub, a, b)) == Done(Int(x - y)) && forall z :: IsNumber(m, Binary(Sub, a, b), z) <==> z == x - y
  {
    hide ToArith;
    MeaningBinary(m, Binary(Sub, a, b));
    ArithInt(x - y);
  }

  /** Subtraction undoes addition: d is the value of a - b exactly when d + b is a. */
  lemma {:induction false} Differences(m: Matcher, a: Tree, b: Tree, x: int, y: int, d: int)
    requires IsNumber(m, a, x) && IsNumber(m, b, y)
    ensures IsNumber(m, Binary(Sub, a, b), d) <==> IsNumber(m, Binary(Add, Numeral(d), b), x)
  {
    hide IsNumber, Numeral, Meaning;
    NumeralIs(m, d);
    SumIs(m, Numeral(d), b, d, y);
    DifferenceIs(m, a, b, x, y);
  }

  function Abs(x: int): nat
  {
    if x < 0 then -x else x
  }

  lemma {:induction false} Truncates(x: int, y: int)
    requires y != 0
    ensures x == y * Quotient(x, y) + Remainder(x, y) && Abs(Remainder(x, y)) < Abs(y)
    ensures Remainder(x, y) == 0 || (Remainder(x, y) < 0 <==> x < 0)
  {
    var a: nat := Abs(x);
    var q, r := a / y, a % y;
    assert a == y * q + r;
    if x < 0 {
      assert Quotient(x, y) == -q;
      assert y * (-q) == -(y * q);
    }
  }

  /** Quotient and remainder fit together, the remainder is smaller than the divisor and has
      the sign of the dividend. */
  lemma {:induction false} Quotients(m: Matcher, a: Tree, b: Tree, x: int, y: int) returns (q: int, r: int)
    requires IsNumber(m, a, x) && IsNumber(m, b, y) && y != 0
    ensures IsNumber(m, Binary(Div, a, b), q) && IsNumber(m, Binary(Mod, a, b), r)
    ensures x == y * q + r && Abs(r) < Abs(y) && (r == 0 || (r < 0 <==> x < 0))
  {
    hide ToArith;
    q, r := Quotient(x, y), Remainder(x, y);
    Truncates(x, y);
    hide Quotient, Remainder;
    MeaningBinary(m, Binary(Div, a, b));
    MeaningBinary(m, Binary(Mod, a, b));
    ArithInt(q);
    ArithInt(r);
  }

  /** The errors of arithmetic: a text as operand, and otherwise a divisor zero. */
  lemma {:induction false} ArithmeticFails(m: Matcher, a: Tree, b: Tree, op: Op)
    requires Level(op) == 3 || Level(op) == 4
    requires Meaning(m, a).Done? && Meaning(m, b).Done?
    ensures (IsText(m, a) || IsText(m, b)) ==> Meaning(m, Binary(op, a, b)) == Failed(NonNumeric)
    ensures !IsText(m, a) && !IsText(m, b) ==>
              if (op == Div || op == Mod) && IsNumber(m, b, 0) then Meaning(m, Binary(op, a, b)) == Failed(DivisionByZero)
              else Meaning(m, Binary(op, a, b)).Done?
  {
    hide ToArith, Quotient, Remainder;
    MeaningBinary(m, Binary(op, a, b));
  }

  // ----- comparisons -----

  /** The tree evaluates to 1 or 0, for true and false. */
  ghost predicate Says(m: Matcher, e: Tree, yes: bool)
  {
    Meaning(m, e) == Done(Int(if yes then 1 else 0))
  }

  /** s comes before t in the order of a dictionary: at the first difference, or as a prefix. */
  ghost predicate Before(s: Text, t: Text)
  {
    exists k: nat :: SplitAt(s, t, k)
  }

  ghost predicate SplitAt(s: Text, t: Text, k: nat)
  {
    k <= |s| && k < |t| && s[..k] == t[..k] && (k == |s| || s[k] < t[k])
  }

  lemma {:induction false} StrcmpOrders(s: Text, t: Text)
    ensures Strcmp(s, t) < 0 ==> Before(s, t)
    ensures Strcmp(s, t) > 0 ==> Before(t, s)
    ensures Strcmp(s, t) == 0 <==> s == t
  {
    if s == [] {
      assert t != [] ==> SplitAt(s, t, 0);
    } else if t == [] {
      assert SplitAt(t, s, 0);
    } else if s[0] != t[0] {
      assert s[0] < t[0] ==> SplitAt(s, t, 0);
      assert s[0] > t[0] ==> SplitAt(t, s, 0);
    } else {
      StrcmpOrders(s[1..], t[1..]);
      assert s == [s[0]] + s[1..] && t == [t[0]] + t[1..];
      if Strcmp(s[1..], t[1..]) < 0 {
        var k: nat :| SplitAt(s[1..], t[1..], k);
        Longer(s, t, k);
      } else if Strcmp(s[1..], t[1..]) > 0 {
        var k: nat :| SplitAt(t[1..], s[1..], k);
        Longer(t, s, k);
      }
    }
  }

  lemma {:induction false} Longer(s: Text, t: Text, k: nat)
    requires s != [] && t != [] && s[0] == t[0] && SplitAt(s[1..], t[1..], k)
    ensures SplitAt(s, t, k + 1)
  {
    assert s[..k + 1] == [s[0]] + s[1..][..k] && t[..k + 1] == [t[0]] + t[1..][..k];
  }

  lemma {:induction false} NotBoth(s: Text, t: Text, k: nat, j: nat)
    requires SplitAt(s, t, k)
    ensures !SplitAt(t, s, j) && s != t
  {
    if j < k {
      assert s[..k][j] == t[..k][j];
    } else if k < j <= |t| && j <= |s| {
      assert s[..j][k] == s[k] && t[..j][k] == t[k];
    }
  }

  /** Not both strings come before the other, and no string before itself. */
  lemma {:induction false} BeforeOnce(s: Text, t: Text)
    requires Before(s, t)
    ensures !Before(t, s) && s != t
  {
    var k: nat :| SplitAt(s, t, k);
    forall j: nat ensures !SplitAt(t, s, j) && s != t {
      NotBoth(s, t, k, j);
    }
    NotBoth(s, t, k, 0);
  }

  lemma {:induction false} Compared(m: Matcher, a: Tree, b: Tree, op: Op)
    requires Meaning(m, a).Done? && Meaning(m, b).Done? && Level(op) == 2
    ensures var v, w := ToArith(Meaning(m, a).v), ToArith(Meaning(m, b).v);
            Says(m, Binary(op, a, b), if v.Int? && w.Int? then Related(op, v.i, w.i) else Related(op, Strcmp(ToString(v), ToString(w)), 0))
  {
    hide ToArith, Strcmp, ToString, Related;
    MeaningBinary(m, Binary(op, a, b));
  }

  /** Two numbers are compared as numbers. */
  lemma {:induction false} NumbersCompare(m: Matcher, a: Tree, b: Tree, x: int, y: int)
    requires IsNumber(m, a, x) && IsNumber(m, b, y)
    ensures Says(m, Binary(Lt, a, b), x < y) && Says(m, Binary(Le, a, b), x <= y)
    ensures Says(m, Binary(Eq, a, b), x == y) && Says(m, Binary(EqEq, a, b), x == y) && Says(m, Binary(Ne, a, b), x != y)
    ensures Says(m, Binary(Ge, a, b), x >= y) && Says(m, Binary(Gt, a, b), x > y)
  {
    hide ToArith, Strcmp, ToString, Meaning, Says;
    Compared(m, a, b, Lt);
    Compared(m, a, b, Le);
    Compared(m, a, b, Eq);
    Compared(m, a, b, EqEq);
    Compared(m, a, b, Ne);
    Compared(m, a, b, Ge);
    Compared(m, a, b, Gt);
  }

  /** What a comparison with a text compares: a number is printed. */
  ghost function Printed(m: Matcher, e: Tree): Text
    requires Meaning(m, e).Done?
  {
    ToString(ToArith(Meaning(m, e).v))
  }

  lemma {:induction false} ComparedAsText(m: Matcher, a: Tree, b: Tree, op: Op)
    requires Meaning(m, a).Done? && Meaning(m, b).Done? && (IsText(m, a) || IsText(m, b)) && Level(op) == 2
    ensures Says(m, Binary(op, a, b), Related(op, Strcmp(Printed(m, a), Printed(m, b)), 0))
  {
    hide ToArith, Strcmp, ToString, Meaning, Says, Related;
    Compared(m, a, b, op);
  }

  lemma {:induction false} StrcmpSign(s: Text, t: Text)
    ensures (Strcmp(s, t) < 0 <==> Before(s, t)) && (Strcmp(s, t) == 0 <==> s == t) && (Strcmp(s, t) > 0 <==> Before(t, s))
  {
    hide Strcmp, Before;
    StrcmpOrders(s, t);
    if Before(s, t) {
      BeforeOnce(s, t);
    }
    if Before(t, s) {
      BeforeOnce(t, s);
    }
  }

  /** If one operand is a text, both are compared as strings. */
  lemma {:induction false} TextsCompare(m: Matcher, a: Tree, b: Tree)
    requires Meaning(m, a).Done? && Meaning(m, b).Done? && (IsText(m, a) || IsText(m, b))
    ensures var s, t := Printed(m, a), Printed(m, b);
            && Says(m, Binary(Lt, a, b), Before(s, t)) && Says(m, Binary(Le, a, b), Before(s, t) || s == t)
            && Says(m, Binary(Eq, a, b), s == t) && Says(m, Binary(EqEq, a, b), s == t) && Says(m, Binary(Ne, a, b), s != t)
            && Says(m, Binary(Ge, a, b), Before(t, s) || s == t) && Says(m, Binary(Gt, a, b), Before(t, s))
  {
    hide Strcmp, Before, Meaning, Says, IsText, Printed;
    StrcmpSign(Printed(m, a), Printed(m, b));
    ComparedAsText(m, a, b, Lt);
    ComparedAsText(m, a, b, Le);
    ComparedAsText(m, a, b, Eq);
    ComparedAsText(m, a, b, EqEq);
    ComparedAsText(m, a, b, Ne);
    ComparedAsText(m, a, b, Ge);
    ComparedAsText(m, a, b, Gt);
  }

  /** Of <, = and > exactly one holds, and the others follow from these. */
  lemma {:induction false} Trichotomy(m: Matcher, a: Tree, b: Tree) returns (lt: bool, eq: bool, gt: bool)
    requires Meaning(m, a).Done? && Meaning(m, b).Done?
    ensures Says(m, Binary(Lt, a, b), lt) && Says(m, Binary(Eq, a, b), eq) && Says(m, Binary(Gt, a, b), gt)
    ensures (lt || eq || gt) && !(lt && eq) && !(lt && gt) && !(eq && gt)
    ensures Says(m, Binary(Le, a, b), lt || eq) && Says(m, Binary(Ge, a, b), gt || eq) && Says(m, Binary(Ne, a, b), !eq)
  {
    var v, w := ToArith(Meaning(m, a).v), ToArith(Meaning(m, b).v);
    if v.Int? && w.Int? {
      NumbersCompare(m, a, b, v.i, w.i);
      lt, eq, gt := v.i < w.i, v.i == w.i, v.i > w.i;
    } else {
      TextsCompare(m, a, b);
      var s, t := Printed(m, a), Printed(m, b);
      StrcmpOrders(s, t);
      lt, eq, gt := Before(s, t), s == t, Before(t, s);
      if lt {
        BeforeOnce(s, t);
      }
      if gt {
        BeforeOnce(t, s);
      }
    }
  }

  // ----- logic -----

  /** A value is null if it is printed as nothing or as 0. */
  lemma {:induction false} NullPrinted(v: Value)
    ensures IsNull(v) <==> ToString(v) == [] || ToString(v) == [48]
  {
    if v.Int? {
      DigitsShape(if v.i < 0 then -v.i else v.i);
      NumberRoundTrip(v.i);
      NumberRoundTrip(0);
      assert ToString(Int(0)) == [48];
    }
  }

  ghost predicate Nothing(m: Matcher, e: Tree)
  {
    Meaning(m, e).Done? && (ToString(Meaning(m, e).v) == [] || ToString(Meaning(m, e).v) == [48])
  }

  /** a | b is b if a is null and otherwise a; a & b is a if neither is null and otherwise 0. */
  lemma {:induction false} Logic(m: Matcher, a: Tree, b: Tree)
    requires Meaning(m, a).Done? && Meaning(m, b).Done?
    ensures Meaning(m, Binary(Or, a, b)) == if Nothing(m, a) then Meaning(m, b) else Meaning(m, a)
    ensures Meaning(m, Binary(And, a, b)) == if Nothing(m, a) || Nothing(m, b) then Done(Int(0)) else Meaning(m, a)
  {
    NullPrinted(Meaning(m, a).v);
    NullPrinted(Meaning(m, b).v);
    hide IsNull, ToString;
    MeaningBinary(m, Binary(Or, a, b));
    MeaningBinary(m, Binary(And, a, b));
  }

  // ----- strings -----

  lemma {:induction false} CspnFinds(s: Text, chars: Text)
    ensures Cspn(s, chars) <= |s| && (forall i :: 0 <= i < Cspn(s, chars) ==> s[i] !in chars)
    ensures Cspn(s, chars) < |s| ==> s[Cspn(s, chars)] in chars
  {
    if s != [] && s[0] !in chars {
      CspnFinds(s[1..], chars);
    }
  }

  /** index is the first position, counted from 1, that holds one of the characters, 0 if
      there is none. */
  lemma {:induction false} IndexLaw(m: Matcher, a: Tree, b: Tree) returns (k: nat)
    requires Meaning(m, a).Done? && Meaning(m, b).Done?
    ensures Meaning(m, IndexTree(a, b)) == Done(Int(k))
    ensures var s, chars := ToString(Meaning(m, a).v), ToString(Meaning(m, b).v);
            if k == 0 then forall i :: 0 <= i < |s| ==> s[i] !in chars
            else k <= |s| && s[k - 1] in chars && forall i :: 0 <= i < k - 1 ==> s[i] !in chars
  {
    hide ToString, Cspn;
    var s, chars := ToString(Meaning(m, a).v), ToString(Meaning(m, b).v);
    CspnFinds(s, chars);
    k := if Cspn(s, chars) == |s| then 0 else Cspn(s, chars) + 1;
  }

  lemma {:induction false} LengthLaw(m: Matcher, a: Tree)
    requires Meaning(m, a).Done?
    ensures Meaning(m, LengthTree(a)) == Done(Int(|ToString(Meaning(m, a).v)|))
  {
  }

  /** substr takes n characters from position p on, counted from 1, or as many as there are;
      nothing if a number is missing, not positive, or p lies behind the end. */
  lemma {:induction false} SubstrLaw(m: Matcher, a: Tree, b: Tree, c: Tree) returns (r: Text)
    requires Meaning(m, a).Done? && Meaning(m, b).Done? && Meaning(m, c).Done?
    ensures Meaning(m, SubstrTree(a, b, c)) == Done(Str(r))
    ensures IsText(m, b) || IsText(m, c) ==> r == []
    ensures forall p, n :: IsNumber(m, b, p) && IsNumber(m, c, n) ==>
              var s := ToString(Meaning(m, a).v);
              if p <= 0 || n <= 0 || p > |s| then r == []
              else |r| == Min(n, |s| - p + 1) && forall i :: 0 <= i < |r| ==> p - 1 + i < |s| && r[i] == s[p - 1 + i]
  {
    hide ToArith, ToString;
    SubstrUnfold(m, a, b, c);
    r := SubstrOf(Meaning(m, a).v, Meaning(m, b).v, Meaning(m, c).v).s;
  }

  /** The colon and match are the same, and both hand the string and then the pattern on. */
  lemma {:induction false} MatchLaw(m: Matcher, a: Tree, b: Tree)
    requires Meaning(m, a).Done? && Meaning(m, b).Done?
    ensures Meaning(m, Binary(Colon, a, b)) == Meaning(m, MatchTree(a, b)) == m(ToString(Meaning(m, a).v), ToString(Meaning(m, b).v))
  {
    hide ToString;
    MeaningBinary(m, Binary(Colon, a, b));
  }

  // ----- precedence -----

  /** The operators by precedence, the weakest first. */
  const RANKS: seq<set<Op>> := [{Or}, {And}, {Lt, Le, Eq, EqEq, Ne, Ge, Gt}, {Add, Sub}, {Mul, Div, Mod}, {Colon}]

  /** q binds more tightly than p. */
  ghost predicate Tighter(p: Op, q: Op)
  {
    exists i, j :: 0 <= i < j < |RANKS| && p in RANKS[i] && q in RANKS[j]
  }

  lemma {:induction false} RankIs(op: Op, i: nat)
    requires i < |RANKS|
    ensures op in RANKS[i] <==> i == Level(op)
  {
  }

  lemma {:induction false} TighterLevel(p: Op, q: Op)
    ensures Tighter(p, q) <==> Level(p) < Level(q)
  {
    hide Level;
    if Tighter(p, q) {
      var i, j :| 0 <= i < j < |RANKS| && p in RANKS[i] && q in RANKS[j];
      RankIs(p, i);
      RankIs(q, j);
    }
    LevelBound(p);
    LevelBound(q);
    RankIs(p, Level(p));
    RankIs(q, Level(q));
  }

  lemma {:induction false} LevelBound(op: Op)
    ensures Level(op) < |RANKS|
  {
  }

  lemma {:induction false} ThreePlain(x: Text, p: Op, y: Text)
    requires Plain(x) && Plain(y)
    ensures ValidTree(Binary(p, Literal(x), Literal(y))) && Print(Binary(p, Literal(x), Literal(y))) == [x] + [Token(p)] + [y]
  {
    assert PrintAt(Literal(x), Level(p)) == [x] && PrintAt(Literal(y), Level(p) + 1) == [y];
  }

  /** x p y q z without parentheses: the operator that binds more tightly comes first, and
      otherwise the left one. */
  lemma {:induction false} Precedence(m: Matcher, x: Text, p: Op, y: Text, q: Op, z: Text)
    requires Plain(x) && Plain(y) && Plain(z)
    ensures Program(m, [x, Token(p), y, Token(q), z])
            == if Tighter(p, q) then Meaning(m, Binary(p, Literal(x), Binary(q, Literal(y), Literal(z))))
               else Meaning(m, Binary(q, Binary(p, Literal(x), Literal(y)), Literal(z)))
  {
    hide Program, Meaning, Token;
    TighterLevel(p, q);
    var a, b, c := Literal(x), Literal(y), Literal(z);
    if Level(p) < Level(q) {
      ThreePlain(x, p, y);
      ThreePlain(y, q, z);
      PrintedMeans(m, Binary(p, a, Binary(q, b, c)));
      assert PrintAt(a, Level(p)) == [x] && PrintAt(Binary(q, b, c), Level(p) + 1) == Print(Binary(q, b, c));
      assert Print(Binary(p, a, Binary(q, b, c))) == [x] + [Token(p)] + ([y] + [Token(q)] + [z]);
      assert [x] + [Token(p)] + ([y] + [Token(q)] + [z]) == [x, Token(p), y, Token(q), z];
    } else {
      ThreePlain(x, p, y);
      PrintedMeans(m, Binary(q, Binary(p, a, b), c));
      assert PrintAt(c, Level(q) + 1) == [z] && PrintAt(Binary(p, a, b), Level(q)) == Print(Binary(p, a, b));
      assert Print(Binary(q, Binary(p, a, b), c)) == ([x] + [Token(p)] + [y]) + [Token(q)] + [z];
      assert ([x] + [Token(p)] + [y]) + [Token(q)] + [z] == [x, Token(p), y, Token(q), z];
    }
  }

  // ----- the words of the language -----

  function Word(s: string): Text
  {
    seq(|s|, i requires 0 <= i < |s| => if 1 <= s[i] as int < 128 then s[i] as int else 1)
  }

  /** How operators and keywords are spelled. */
  lemma {:induction false} Spelling()
    ensures Token(Or) == Word("|") && Token(And) == Word("&") && Token(Lt) == Word("<") && Token(Le) == Word("<=") && Token(Eq) == Word("=")
    ensures Token(EqEq) == Word("==") && Token(Ne) == Word("!=") && Token(Ge) == Word(">=") && Token(Gt) == Word(">") && Token(Add) == Word("+")
    ensures Token(Sub) == Word("-") && Token(Mul) == Word("*") && Token(Div) == Word("/") && Token(Mod) == Word("%") && Token(Colon) == Word(":")
    ensures QUOTE == Word("quote") && LENGTH == Word("length") && MATCH == Word("match") && INDEX == Word("index") && SUBSTR == Word("substr")
    ensures OPEN == Word("(") && CLOSE == Word(")")
  {
  }

  /** expr 7 - 2 prints 5. */
  lemma {:induction false} SevenMinusTwo(m: Matcher)
    ensures Program(m, [Word("7"), Word("-"), Word("2")]) == Done(Int(5))
  {
    Spelling();
    assert Word("7") == [48 + 7] && Word("2") == [48 + 2];
    DigitIsNumber(7);
    DigitIsNumber(2);
    hide *;
    ThreePlain(Word("7"), Sub, Word("2"));
    var a, b := Literal(Word("7")), Literal(Word("2"));
    LiteralNumber(m, Word("7"), 7);
    LiteralNumber(m, Word("2"), 2);
    DifferenceIs(m, a, b, 7, 2);
    PrintedMeans(m, Binary(Sub, a, b));
    assert [Word("7")] + [Word("-")] + [Word("2")] == [Word("7"), Word("-"), Word("2")];
  }

  lemma {:induction false} DigitIsNumber(d: nat)
    requires d < 10
    ensures Plain([48 + d]) && ReadInt([48 + d]) == Some(d)
  {
    NumberRoundTrip(d);
    assert [48 + d][0] != OPEN[0] && [48 + d][0] != CLOSE[0];
  }

  lemma {:induction false} LiteralNumber(m: Matcher, t: Text, x: int)
    requires ReadInt(t) == Some(x)
    ensures IsNumber(m, Literal(t), x)
  {
    hide ReadInt;
  }
}
