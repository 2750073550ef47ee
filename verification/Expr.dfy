/**
 expr.c: a recursive descent over a cursor into the arguments that evaluates while it parses.
 Opposite stand syntax trees with a meaning of their own and a printer that sets the
 parentheses their precedence needs: what is printed is evaluated to what the tree means.
 */
module Expr {
  import opened Sums
  import opened Ascii

  type Text = seq<Char>

  // ----- values -----

  datatype Value = Int(i: int) | Str(s: Text)

  datatype Error = TooFewArguments | Syntax | NonNumeric | DivisionByZero | BadPattern

  datatype Outcome = Done(v: Value) | Failed(error: Error)

  predicate IsDigit(c: int)
  {
    48 <= c <= 57
  }

  /** The number that a string of digits from i on stands for, given the number before it. */
  function ReadDigits(s: Text, i: nat, acc: nat): Option<nat>
    requires i <= |s|
    decreases |s| - i
  {
    if i == |s| then Some(acc)
    else if IsDigit(s[i]) then ReadDigits(s, i + 1, 10 * acc + (s[i] as int - 48))
    else None
  }

  function SkipSpaces(s: Text, i: nat): (k: nat)
    requires i <= |s|
    ensures i <= k <= |s|
    decreases |s| - i
  {
    if i < |s| && (s[i] == 32 || 9 <= s[i] <= 13) then SkipSpaces(s, i + 1) else i
  }

  /** strtol with the whole string used up. */
  function ReadInt(s: Text): Option<int>
  {
    var i := SkipSpaces(s, 0);
    var neg := At(s, i) == 45;
    var j := if neg || At(s, i) == 43 then i + 1 else i;
    if !IsDigit(At(s, j)) then None
    else
      match ReadDigits(s, j, 0)
      case None => None
      case Some(n) =>
        var v: int := n;
        Some(if neg then -v else v)
  }

  function Digits(n: nat): Text
  {
    if n < 10 then [48 + n] else Digits(n / 10) + [48 + n % 10]
  }

  /** A value as a string. */
  function ToString(v: Value): Text
  {
    match v
    case Str(s) => s
    case Int(i) => if i < 0 then [45] + Digits(-i) else Digits(i)
  }

  /** A value as a number, unchanged if it is none. */
  function ToArith(v: Value): Value
  {
    match v
    case Int(_) => v
    case Str(s) => match ReadInt(s) case Some(i) => Int(i) case None => v
  }

  /** null(): an empty string or zero. */
  predicate IsNull(v: Value)
  {
    match v
    case Int(i) => i == 0
    case Str(s) => s == [] || s == [48]
  }

  // ----- operators -----

  datatype Op = Or | And | Lt | Le | Eq | EqEq | Ne | Ge | Gt | Add | Sub | Mul | Div | Mod | Colon

  function Token(op: Op): Text
  {
    match op
    case Or => [124]
    case And => [38]
    case Lt => [60]
    case Le => [60, 61]
    case Eq => [61]
    case EqEq => [61, 61]
    case Ne => [33, 61]
    case Ge => [62, 61]
    case Gt => [62]
    case Add => [43]
    case Sub => [45]
    case Mul => [42]
    case Div => [47]
    case Mod => [37]
    case Colon => [58]
  }

  function OpOf(t: Text): Option<Op>
  {
    if t == [124] then Some(Or)
    else if t == [38] then Some(And)
    else if t == [60] then Some(Lt)
    else if t == [60, 61] then Some(Le)
    else if t == [61] then Some(Eq)
    else if t == [61, 61] then Some(EqEq)
    else if t == [33, 61] then Some(Ne)
    else if t == [62, 61] then Some(Ge)
    else if t == [62] then Some(Gt)
    else if t == [43] then Some(Add)
    else if t == [45] then Some(Sub)
    else if t == [42] then Some(Mul)
    else if t == [47] then Some(Div)
    else if t == [37] then Some(Mod)
    else if t == [58] then Some(Colon)
    else None
  }

  /** The level at which an operator is handled: eval is 0, eval5 is 5. */
  function Level(op: Op): (k: nat)
    ensures k <= 5
  {
    match op
    case Or => 0
    case And => 1
    case Lt => 2
    case Le => 2
    case Eq => 2
    case EqEq => 2
    case Ne => 2
    case Ge => 2
    case Gt => 2
    case Add => 3
    case Sub => 3
    case Mul => 4
    case Div => 4
    case Mod => 4
    case Colon => 5
  }

  lemma {:induction false} TokenRoundTrip(op: Op)
    ensures OpOf(Token(op)) == Some(op)
  {
  }

  /** strcmp as a sign. */
  function Strcmp(a: Text, b: Text): int
  {
    if a == [] && b == [] then 0
    else if a == [] then -1
    else if b == [] then 1
    else if a[0] != b[0] then (if a[0] < b[0] then -1 else 1)
    else Strcmp(a[1..], b[1..])
  }

  predicate Related(op: Op, l: int, r: int)
  {
    if op == Lt then l < r
    else if op == Le then l <= r
    else if op == Eq || op == EqEq then l == r
    else if op == Ne then l != r
    else if op == Gt then l > r
    else l >= r
  }

  /** Division and remainder truncate toward zero. */
  function Quotient(a: int, b: int): int
    requires b != 0
  {
    if a >= 0 then a / b else -((-a) / b)
  }

  function Remainder(a: int, b: int): int
    requires b != 0
  {
    a - b * Quotient(a, b)
  }

  /** The pattern match of the : operator comes from the regular expression library. */
  type Matcher = (Text, Text) -> Outcome

  /** What an operator makes of its operands. */
  function Apply(m: Matcher, op: Op, l: Value, r: Value): Outcome
  {
    match Level(op)
    case 0 => Done(if IsNull(l) then r else l)
    case 1 => Done(if IsNull(l) || IsNull(r) then Int(0) else l)
    case 2 =>
      var a, b := ToArith(l), ToArith(r);
      var yes := if a.Int? && b.Int? then Related(op, a.i, b.i) else Related(op, Strcmp(ToString(a), ToString(b)), 0);
      Done(Int(if yes then 1 else 0))
    case 5 => m(ToString(l), ToString(r))
    case _ =>
      var a, b := ToArith(l), ToArith(r);
      if a.Str? || b.Str? then Failed(NonNumeric)
      else if op == Add then Done(Int(a.i + b.i))
      else if op == Sub then Done(Int(a.i - b.i))
      else if op == Mul then Done(Int(a.i * b.i))
      else if b.i == 0 then Failed(DivisionByZero)
      else if op == Div then Done(Int(Quotient(a.i, b.i)))
      else Done(Int(Remainder(a.i, b.i)))
  }

  // ----- keywords -----

  const QUOTE: Text := [113, 117, 111, 116, 101]
  const LENGTH: Text := [108, 101, 110, 103, 116, 104]
  const MATCH: Text := [109, 97, 116, 99, 104]
  const INDEX: Text := [105, 110, 100, 101, 120]
  const SUBSTR: Text := [115, 117, 98, 115, 116, 114]
  const OPEN: Text := [40]
  const CLOSE: Text := [41]

  predicate IsKeyword(t: Text)
  {
    t == QUOTE || t == LENGTH || t == MATCH || t == INDEX || t == SUBSTR
  }

  /** strcspn: the number of characters before the first that occurs in chars. */
  function Cspn(s: Text, chars: Text): nat
  {
    if s == [] || s[0] in chars then 0 else 1 + Cspn(s[1..], chars)
  }

  function LengthOf(v: Value): Value
  {
    Int(|ToString(v)|)
  }

  function IndexOf(v: Value, w: Value): Value
  {
    var n := Cspn(ToString(v), ToString(w));
    Int(if n == |ToString(v)| then 0 else n + 1)
  }

  function SubstrOf(v: Value, from: Value, count: Value): Value
  {
    var s, a, b := ToString(v), ToArith(from), ToArith(count);
    if a.Str? || b.Str? || a.i > |s| || a.i <= 0 || b.i <= 0 then Str([])
    else Str(s[a.i - 1..Min(a.i - 1 + b.i, |s|)])
  }

  // ----- syntax trees -----

  datatype Tree =
    | Literal(t: Text)
    | Quoted(t: Text)
    | Binary(op: Op, l: Tree, r: Tree)
    | LengthTree(a: Tree)
    | MatchTree(a: Tree, b: Tree)
    | IndexTree(a: Tree, b: Tree)
    | SubstrTree(a: Tree, b: Tree, c: Tree)

  /** A literal that need not be quoted. */
  predicate Plain(t: Text)
  {
    t != OPEN && t != CLOSE && !IsKeyword(t)
  }

  predicate ValidTree(e: Tree)
  {
    match e
    case Literal(t) => Plain(t)
    case Quoted(_) => true
    case Binary(_, l, r) => ValidTree(l) && ValidTree(r)
    case LengthTree(a) => ValidTree(a)
    case MatchTree(a, b) => ValidTree(a) && ValidTree(b)
    case IndexTree(a, b) => ValidTree(a) && ValidTree(b)
    case SubstrTree(a, b, c) => ValidTree(a) && ValidTree(b) && ValidTree(c)
  }

  function Bind2(x: Outcome, y: Outcome, f: (Value, Value) -> Outcome): Outcome
  {
    match x
    case Failed(e) => Failed(e)
    case Done(v) => match y case Failed(e) => Failed(e) case Done(w) => f(v, w)
  }

  /** The meaning of a tree: operands from left to right, the first error wins. */
  function Meaning(m: Matcher, e: Tree): Outcome
  {
    match e
    case Literal(t) => Done(Str(t))
    case Quoted(t) => Done(Str(t))
    case Binary(op, l, r) => Bind2(Meaning(m, l), Meaning(m, r), (v, w) => Apply(m, op, v, w))
    case LengthTree(a) => (match Meaning(m, a) case Failed(x) => Failed(x) case Done(v) => Done(LengthOf(v)))
    case MatchTree(a, b) => Bind2(Meaning(m, a), Meaning(m, b), (v, w) => m(ToString(v), ToString(w)))
    case IndexTree(a, b) => Bind2(Meaning(m, a), Meaning(m, b), (v, w) => Done(IndexOf(v, w)))
    case SubstrTree(a, b, c) =>
      match Meaning(m, a)
      case Failed(x) => Failed(x)
      case Done(v) => Bind2(Meaning(m, b), Meaning(m, c), (w, x) => Done(SubstrOf(v, w, x)))
  }

  /** The level of the outermost construct; keywords and literals bind tightest. */
  function TreeLevel(e: Tree): (k: nat)
    ensures k <= 6
  {
    if e.Binary? then Level(e.op) else 6
  }

  /** The tokens of a tree, with operators grouping to the left. */
  function Print(e: Tree): (s: seq<Text>)
    ensures |s| >= 1
    decreases e, 0
  {
    match e
    case Literal(t) => [t]
    case Quoted(t) => [QUOTE, t]
    case Binary(op, l, r) => PrintAt(l, Level(op)) + [Token(op)] + PrintAt(r, Level(op) + 1)
    case LengthTree(a) => [LENGTH] + PrintAt(a, 6)
    case MatchTree(a, b) => [MATCH] + PrintAt(a, 6) + PrintAt(b, 6)
    case IndexTree(a, b) => [INDEX] + PrintAt(a, 6) + PrintAt(b, 6)
    case SubstrTree(a, b, c) => [SUBSTR] + PrintAt(a, 6) + PrintAt(b, 6) + PrintAt(c, 6)
  }

  /** The tokens of a tree where level k is expected: in parentheses if it binds less tightly. */
  function PrintAt(e: Tree, k: nat): (s: seq<Text>)
    ensures |s| >= 1
    decreases e, 1
  {
    if TreeLevel(e) >= k then Print(e) else [OPEN] + Print(e) + [CLOSE]
  }

  // ----- the evaluator as a function -----

  /** A value and the place of the next token, or the error exit. */
  datatype Result = Ok(v: Value, pos: nat) | Fail(error: Error)

  /** The operator of level k at pos, if there is one (nextarg). */
  function NextOp(args: seq<Text>, pos: nat, k: nat): Option<Op>
  {
    if pos < |args| && OpOf(args[pos]).Some? && Level(OpOf(args[pos]).value) == k then OpOf(args[pos]) else None
  }

  /** eval (level 0) to eval5 (level 5). */
  function Eval(m: Matcher, args: seq<Text>, pos: nat, k: nat): (r: Result)
    requires k <= 5
    ensures r.Ok? ==> pos < r.pos <= |args|
    decreases |args| - pos, 20 - 2 * k
  {
    match Operand(m, args, pos, k)
    case Fail(e) => Fail(e)
    case Ok(l, p) => Loop(m, args, p, k, l)
  }

  /** The next level up, which is eval6 for eval5. */
  function Operand(m: Matcher, args: seq<Text>, pos: nat, k: nat): (r: Result)
    requires k <= 5
    ensures r.Ok? ==> pos < r.pos <= |args|
    decreases |args| - pos, 19 - 2 * k
  {
    if k == 5 then Eval6(m, args, pos) else Eval(m, args, pos, k + 1)
  }

  /** The loop of level k with l as the value so far. */
  function Loop(m: Matcher, args: seq<Text>, pos: nat, k: nat, l: Value): (r: Result)
    requires k <= 5 && pos <= |args|
    ensures r.Ok? ==> pos <= r.pos <= |args|
    decreases |args| - pos, 30
  {
    match NextOp(args, pos, k)
    case None => Ok(l, pos)
    case Some(op) =>
      match Operand(m, args, pos + 1, k)
      case Fail(e) => Fail(e)
      case Ok(r, p) =>
        match Apply(m, op, l, r)
        case Failed(e) => Fail(e)
        case Done(v) => Loop(m, args, p, k, v)
  }

  /** eval6: the keywords. */
  function Eval6(m: Matcher, args: seq<Text>, pos: nat): (r: Result)
    ensures r.Ok? ==> pos < r.pos <= |args|
    decreases |args| - pos, 5
  {
    if pos >= |args| || !IsKeyword(args[pos]) then Eval7(m, args, pos)
    else if args[pos] == QUOTE then
      if pos + 1 < |args| then Ok(Str(args[pos + 1]), pos + 2) else Fail(Syntax)
    else
      match Eval6(m, args, pos + 1)
      case Fail(e) => Fail(e)
      case Ok(l, p) =>
        if args[pos] == LENGTH then Ok(LengthOf(l), p)
        else
          match Eval6(m, args, p)
          case Fail(e) => Fail(e)
          case Ok(r, q) =>
            if args[pos] == MATCH then Finish(m(ToString(l), ToString(r)), q)
            else if args[pos] == INDEX then Ok(IndexOf(l, r), q)
            else
              match Eval6(m, args, q)
              case Fail(e) => Fail(e)
              case Ok(c, t) => Ok(SubstrOf(l, r, c), t)
  }

  function Finish(o: Outcome, pos: nat): Result
  {
    match o
    case Failed(e) => Fail(e)
    case Done(v) => Ok(v, pos)
  }

  /** eval7: bare operands and parentheses. */
  function Eval7(m: Matcher, args: seq<Text>, pos: nat): (r: Result)
    ensures r.Ok? ==> pos < r.pos <= |args|
    decreases |args| - pos, 4
  {
    if pos >= |args| then Fail(Syntax)
    else if args[pos] == OPEN then
      match Eval(m, args, pos + 1, 0)
      case Fail(e) => Fail(e)
      case Ok(v, p) => if p < |args| && args[p] == CLOSE then Ok(v, p + 1) else Fail(Syntax)
    else if args[pos] == CLOSE then Fail(Syntax)
    else Ok(Str(args[pos]), pos + 1)
  }

  // ----- what is printed is evaluated to what it means -----

  /** The tokens s stand at pos. */
  ghost predicate TokensAt(args: seq<Text>, pos: nat, s: seq<Text>)
  {
    pos + |s| <= |args| && args[pos..pos + |s|] == s
  }

  lemma {:induction false} TokensSplit(args: seq<Text>, pos: nat, s: seq<Text>, t: seq<Text>)
    requires TokensAt(args, pos, s + t)
    ensures TokensAt(args, pos, s) && TokensAt(args, pos + |s|, t)
  {
    assert args[pos..pos + |s + t|][..|s|] == args[pos..pos + |s|];
    assert args[pos..pos + |s + t|][|s|..] == args[pos + |s|..pos + |s| + |t|];
  }

  lemma {:induction false} TokenAt(args: seq<Text>, pos: nat, t: Text)
    requires TokensAt(args, pos, [t])
    ensures pos < |args| && args[pos] == t
  {
    assert args[pos..pos + 1][0] == args[pos];
  }

  /** The token at pos is no operator of level k or above. */
  ghost predicate Stops(args: seq<Text>, pos: nat, k: nat)
  {
    pos < |args| && OpOf(args[pos]).Some? ==> Level(OpOf(args[pos]).value) < k
  }

  /** How far the printed tree is from its parentheses or its own level. */
  function Distance(e: Tree, k: nat): nat
    requires k <= 6
  {
    if TreeLevel(e) < k then 10 + (6 - k) else TreeLevel(e) - k
  }

  lemma {:induction false} LoopStops(m: Matcher, args: seq<Text>, pos: nat, k: nat, l: Value)
    requires k <= 5 && pos <= |args| && Stops(args, pos, k)
    ensures Loop(m, args, pos, k, l) == Ok(l, pos)
  {
  }

  lemma {:induction false} SameTokens(e: Tree, k: nat)
    requires k <= 5 && TreeLevel(e) != k
    ensures PrintAt(e, k) == PrintAt(e, k + 1)
  {
  }

  /** Evaluating at level k, in front of the tokens of a tree, reads the tree and goes on with
      the loop of that level. */
  lemma {:induction false} ReadsChain(m: Matcher, args: seq<Text>, pos: nat, e: Tree, k: nat)
    requires ValidTree(e) && k <= 5 && TokensAt(args, pos, PrintAt(e, k)) && Stops(args, pos + |PrintAt(e, k)|, k + 1)
    ensures Eval(m, args, pos, k)
            == match Meaning(m, e) case Failed(x) => Fail(x) case Done(v) => Loop(m, args, pos + |PrintAt(e, k)|, k, v)
    decreases e, Distance(e, k), 1
  {
    hide Apply, OpOf, Token, Eval6, TokensAt, Stops;
    if TreeLevel(e) != k {
      SameTokens(e, k);
      if k < 5 {
        Reads(m, args, pos, e, k + 1);
      } else {
        ReadsTight(m, args, pos, e);
      }
    } else {
      ReadsBinary(m, args, pos, e, k);
    }
  }

  /** A tree of the level itself: the left operand, the operator and the right operand. */
  lemma {:induction false} ReadsBinary(m: Matcher, args: seq<Text>, pos: nat, e: Tree, k: nat)
    requires ValidTree(e) && k <= 5 && TreeLevel(e) == k && e.Binary?
    requires TokensAt(args, pos, PrintAt(e, k)) && Stops(args, pos + |PrintAt(e, k)|, k + 1)
    ensures Eval(m, args, pos, k)
            == match Meaning(m, e) case Failed(x) => Fail(x) case Done(v) => Loop(m, args, pos + |PrintAt(e, k)|, k, v)
    decreases e, 0, 0
  {
    hide Apply, OpOf, Token, Eval6, TokensAt, Stops, Eval, Operand, Loop, Meaning, Print, PrintAt, NextOp;
    var a, o, b := PrintAt(e.l, k), [Token(e.op)], PrintAt(e.r, k + 1);
    var p := pos + |a|;
    PrintBinary(e, k);
    TokensSplit(args, pos, a + o, b);
    TokensSplit(args, pos, a, o);
    TokenAt(args, p, Token(e.op));
    OperatorStops(args, p, e.op);
    ReadsChain(m, args, pos, e.l, k);
    MeaningBinary(m, e);
    if Meaning(m, e.l).Done? {
      OperatorNext(args, p, e.op);
      if k < 5 {
        Reads(m, args, p + 1, e.r, k + 1);
      } else {
        ReadsTight(m, args, p + 1, e.r);
      }
      OperandIs(m, args, p + 1, k);
      LoopStep(m, args, p, k, Meaning(m, e.l).v, e.op);
    }
  }

  lemma {:induction false} PrintBinary(e: Tree, k: nat)
    requires e.Binary? && TreeLevel(e) == k
    ensures PrintAt(e, k) == PrintAt(e.l, k) + [Token(e.op)] + PrintAt(e.r, k + 1)
  {
  }

  lemma {:induction false} MeaningBinary(m: Matcher, e: Tree)
    requires e.Binary?
    ensures Meaning(m, e)
            == match Meaning(m, e.l)
               case Failed(x) => Failed(x)
               case Done(v) => match Meaning(m, e.r) case Failed(x) => Failed(x) case Done(w) => Apply(m, e.op, v, w)
  {
    hide Apply;
  }

  lemma {:induction false} LoopStep(m: Matcher, args: seq<Text>, pos: nat, k: nat, l: Value, op: Op)
    requires k <= 5 && pos < |args| && NextOp(args, pos, k) == Some(op)
    ensures Loop(m, args, pos, k, l)
            == match Operand(m, args, pos + 1, k)
               case Fail(e) => Fail(e)
               case Ok(r, p) => match Apply(m, op, l, r) case Failed(e) => Fail(e) case Done(v) => Loop(m, args, p, k, v)
  {
    hide Apply, NextOp, Operand;
  }

  lemma {:induction false} OperandIs(m: Matcher, args: seq<Text>, pos: nat, k: nat)
    requires k <= 5
    ensures Operand(m, args, pos, k) == if k == 5 then Eval6(m, args, pos) else Eval(m, args, pos, k + 1)
  {
  }

  lemma {:induction false} OperatorStops(args: seq<Text>, pos: nat, op: Op)
    requires pos < |args| && args[pos] == Token(op)
    ensures Stops(args, pos, Level(op) + 1)
  {
    TokenRoundTrip(op);
  }

  lemma {:induction false} OperatorNext(args: seq<Text>, pos: nat, op: Op)
    requires pos < |args| && args[pos] == Token(op)
    ensures NextOp(args, pos, Level(op)) == Some(op)
  {
    TokenRoundTrip(op);
  }

  /** Evaluating at level k, in front of a tree printed for that level, gives its meaning and
      stops behind it, if no operator of the level follows. */
  lemma {:induction false} Reads(m: Matcher, args: seq<Text>, pos: nat, e: Tree, k: nat)
    requires ValidTree(e) && k <= 5 && TokensAt(args, pos, PrintAt(e, k)) && Stops(args, pos + |PrintAt(e, k)|, k)
    ensures Eval(m, args, pos, k) == Finish(Meaning(m, e), pos + |PrintAt(e, k)|)
    decreases e, Distance(e, k), 2
  {
    hide Apply, OpOf, Token, Eval6, TokensAt, Eval, Loop;
    var p := pos + |PrintAt(e, k)|;
    TokensEnd(args, pos, PrintAt(e, k));
    ReadsChain(m, args, pos, e, k);
    if Meaning(m, e).Done? {
      LoopStops(m, args, p, k, Meaning(m, e).v);
    }
  }

  lemma {:induction false} TokensEnd(args: seq<Text>, pos: nat, s: seq<Text>)
    requires TokensAt(args, pos, s)
    ensures pos + |s| <= |args|
  {
  }

  /** The same for eval6. */
  lemma {:induction false} ReadsTight(m: Matcher, args: seq<Text>, pos: nat, e: Tree)
    requires ValidTree(e) && TokensAt(args, pos, PrintAt(e, 6))
    ensures Eval6(m, args, pos) == Finish(Meaning(m, e), pos + |PrintAt(e, 6)|)
    decreases e, Distance(e, 6), 2
  {
    hide Apply, OpOf, Token, TokensAt, Eval;
    if e.Binary? {
      ReadsParentheses(m, args, pos, e);
    } else if e.Literal? {
      TokenAt(args, pos, e.t);
    } else if e.Quoted? {
      assert [QUOTE, e.t] == [QUOTE] + [e.t];
      TokensSplit(args, pos, [QUOTE], [e.t]);
      TokenAt(args, pos, QUOTE);
      TokenAt(args, pos + 1, e.t);
    } else {
      ReadsKeyword(m, args, pos, e);
    }
  }

  lemma {:induction false} ReadsParentheses(m: Matcher, args: seq<Text>, pos: nat, e: Tree)
    requires ValidTree(e) && e.Binary? && TokensAt(args, pos, PrintAt(e, 6))
    ensures Eval6(m, args, pos) == Finish(Meaning(m, e), pos + |PrintAt(e, 6)|)
    decreases e, 9, 0
  {
    hide Apply, TokensAt, Eval, Meaning, Print;
    var inner := Print(e);
    assert PrintAt(e, 6) == [OPEN] + inner + [CLOSE] && PrintAt(e, 0) == inner;
    TokensSplit(args, pos, [OPEN] + inner, [CLOSE]);
    TokensSplit(args, pos, [OPEN], inner);
    TokenAt(args, pos, OPEN);
    var p := pos + 1 + |inner|;
    TokenAt(args, p, CLOSE);
    CloseStops(args, p);
    Reads(m, args, pos + 1, e, 0);
  }

  lemma {:induction false} CloseStops(args: seq<Text>, pos: nat)
    requires pos < |args| && args[pos] == CLOSE
    ensures Stops(args, pos, 0)
  {
  }

  lemma {:induction false} ReadsKeyword(m: Matcher, args: seq<Text>, pos: nat, e: Tree)
    requires ValidTree(e) && (e.LengthTree? || e.MatchTree? || e.IndexTree? || e.SubstrTree?) && TokensAt(args, pos, Print(e))
    ensures Eval6(m, args, pos) == Finish(Meaning(m, e), pos + |Print(e)|)
    decreases e, 0, 1
  {
    hide Eval6, TokensAt, Meaning;
    match e
    case LengthTree(a) => ReadsLength(m, args, pos, a);
    case SubstrTree(a, b, c) => ReadsSubstr(m, args, pos, a, b, c);
    case _ => ReadsTwo(m, args, pos, e);
  }

  /** The operand of a keyword stands behind it, and the next operands behind that one. */
  lemma {:induction false} KeywordTokens(args: seq<Text>, pos: nat, key: Text, a: seq<Text>, rest: seq<Text>)
    requires TokensAt(args, pos, [key] + a + rest)
    ensures pos < |args| && args[pos] == key && TokensAt(args, pos + 1, a) && TokensAt(args, pos + 1 + |a|, rest)
  {
    TokensSplit(args, pos, [key] + a, rest);
    TokensSplit(args, pos, [key], a);
    TokenAt(args, pos, key);
  }

  lemma {:induction false} ReadsLength(m: Matcher, args: seq<Text>, pos: nat, a: Tree)
    requires ValidTree(a) && TokensAt(args, pos, Print(LengthTree(a)))
    ensures Eval6(m, args, pos) == Finish(Meaning(m, LengthTree(a)), pos + |Print(LengthTree(a))|)
    decreases a, 20, 0
  {
    hide Eval6, TokensAt, PrintAt;
    assert Print(LengthTree(a)) == [LENGTH] + PrintAt(a, 6) + [];
    KeywordTokens(args, pos, LENGTH, PrintAt(a, 6), []);
    ReadsTight(m, args, pos + 1, a);
    Eval6Keyword(m, args, pos);
  }

  lemma {:induction false} ReadsTwo(m: Matcher, args: seq<Text>, pos: nat, e: Tree)
    requires ValidTree(e) && (e.MatchTree? || e.IndexTree?) && TokensAt(args, pos, Print(e))
    ensures Eval6(m, args, pos) == Finish(Meaning(m, e), pos + |Print(e)|)
    decreases e, 0, 0
  {
    hide Eval6, TokensAt, PrintAt, SubstrOf, LengthOf, IndexOf, ToString;
    var key := if e.MatchTree? then MATCH else INDEX;
    assert Print(e) == [key] + PrintAt(e.a, 6) + PrintAt(e.b, 6);
    KeywordTokens(args, pos, key, PrintAt(e.a, 6), PrintAt(e.b, 6));
    ReadsTight(m, args, pos + 1, e.a);
    ReadsTight(m, args, pos + 1 + |PrintAt(e.a, 6)|, e.b);
    Eval6Keyword(m, args, pos);
  }

  lemma {:induction false} ReadsSubstr(m: Matcher, args: seq<Text>, pos: nat, a: Tree, b: Tree, c: Tree)
    requires ValidTree(a) && ValidTree(b) && ValidTree(c) && TokensAt(args, pos, Print(SubstrTree(a, b, c)))
    ensures Eval6(m, args, pos) == Finish(Meaning(m, SubstrTree(a, b, c)), pos + |Print(SubstrTree(a, b, c))|)
    decreases SubstrTree(a, b, c), 0, 0
  {
    hide Eval6, TokensAt, PrintAt, Print, Meaning, SubstrOf, LengthOf, IndexOf, ToString;
    var x, y, z := PrintAt(a, 6), PrintAt(b, 6), PrintAt(c, 6);
    SubstrUnfold(m, a, b, c);
    KeywordTokens(args, pos, SUBSTR, x, y + z);
    TokensSplit(args, pos + 1 + |x|, y, z);
    ReadsTight(m, args, pos + 1, a);
    ReadsTight(m, args, pos + 1 + |x|, b);
    ReadsTight(m, args, pos + 1 + |x| + |y|, c);
    Eval6Keyword(m, args, pos);
  }

  lemma {:induction false} SubstrUnfold(m: Matcher, a: Tree, b: Tree, c: Tree)
    ensures Print(SubstrTree(a, b, c)) == [SUBSTR] + PrintAt(a, 6) + (PrintAt(b, 6) + PrintAt(c, 6))
    ensures Meaning(m, SubstrTree(a, b, c))
            == match Meaning(m, a)
               case Failed(x) => Failed(x)
               case Done(v) =>
                 match Meaning(m, b)
                 case Failed(x) => Failed(x)
                 case Done(w) => match Meaning(m, c) case Failed(x) => Failed(x) case Done(u) => Done(SubstrOf(v, w, u))
  {
    hide SubstrOf, PrintAt;
  }

  lemma {:induction false} Eval6Keyword(m: Matcher, args: seq<Text>, pos: nat)
    requires pos < |args| && IsKeyword(args[pos]) && args[pos] != QUOTE
    ensures Eval6(m, args, pos)
            == match Eval6(m, args, pos + 1)
               case Fail(e) => Fail(e)
               case Ok(l, p) =>
                 if args[pos] == LENGTH then Ok(LengthOf(l), p)
                 else
                   match Eval6(m, args, p)
                   case Fail(e) => Fail(e)
                   case Ok(r, q) =>
                     if args[pos] == MATCH then Finish(m(ToString(l), ToString(r)), q)
                     else if args[pos] == INDEX then Ok(IndexOf(l, r), q)
                     else
                       match Eval6(m, args, q)
                       case Fail(e) => Fail(e)
                       case Ok(c, t) => Ok(SubstrOf(l, r, c), t)
  {
  }

  // ----- the program -----

  /** What expr does with its arguments: the value that is printed, or the error. */
  function Program(m: Matcher, args: seq<Text>): Outcome
  {
    if args == [] then Failed(TooFewArguments)
    else
      match Eval(m, args, 0, 0)
      case Fail(e) => Failed(e)
      case Ok(v, p) => if p < |args| then Failed(Syntax) else Done(v)
  }

  /** Every tree, printed as arguments, is evaluated to what it means, and all arguments are used. */
  lemma {:induction false} PrintedMeans(m: Matcher, e: Tree)
    requires ValidTree(e)
    ensures Program(m, Print(e)) == Meaning(m, e)
  {
    hide Eval, Meaning, Print;
    var args := Print(e);
    assert args[0..0 + |args|] == args && PrintAt(e, 0) == args;
    Reads(m, args, 0, e, 0);
  }

  /** The outcome of a call that started at pos0 and has left the cursor at pos. */
  predicate Agrees(r: Result, o: Outcome, pos: nat)
  {
    match r
    case Ok(v, p) => o == Done(v) && pos == p
    case Fail(e) => o == Failed(e)
  }

  /** The cursor G.args and the functions that move it. */
  class Evaluator {
    const m: Matcher
    const args: seq<Text>
    var pos: nat

    constructor (m: Matcher, args: seq<Text>)
      ensures this.m == m && this.args == args && pos == 0
    {
      this.m, this.args, pos := m, args, 0;
    }

    /** eval and eval1 to eval5: one operand, then operators of the level as long as they come. */
    method EvalLevel(k: nat) returns (o: Outcome)
      requires k <= 5
      modifies this
      ensures Agrees(Eval(m, args, old(pos), k), o, pos)
      decreases |args| - pos, 20 - 2 * k
    {
      hide Apply, NextOp, Eval, Eval6, Loop, Operand;
      ghost var start := pos;
      o := EvalOperand(k);
      EvalUnfold(m, args, start, k);
      if o.Failed? {
        return;
      }
      var l := o.v;
      while true
        invariant start < pos <= |args| && Eval(m, args, start, k) == Loop(m, args, pos, k, l)
        decreases |args| - pos
      {
        var op := NextOp(args, pos, k);
        LoopUnfold(m, args, pos, k, l);
        if op.None? {
          o := Done(l);
          return;
        }
        NextOpBounds(args, pos, k);
        pos := pos + 1;
        o := EvalOperand(k);
        if o.Failed? {
          return;
        }
        o := Apply(m, op.value, l, o.v);
        if o.Failed? {
          return;
        }
        l := o.v;
      }
    }

    method EvalOperand(k: nat) returns (o: Outcome)
      requires k <= 5
      modifies this
      ensures Agrees(Operand(m, args, old(pos), k), o, pos)
      decreases |args| - pos, 19 - 2 * k
    {
      hide Eval, Eval6;
      if k == 5 {
        o := EvalKeyword();
      } else {
        o := EvalLevel(k + 1);
      }
    }

    /** eval6. */
    method EvalKeyword() returns (o: Outcome)
      modifies this
      ensures Agrees(Eval6(m, args, old(pos)), o, pos)
      decreases |args| - pos, 5
    {
      hide Eval7;
      if pos >= |args| || !IsKeyword(args[pos]) {
        o := EvalAtom();
        return;
      }
      var key := args[pos];
      if key == QUOTE {
        pos := pos + 1;
        if pos >= |args| {
          return Failed(Syntax);
        }
        o := Done(Str(args[pos]));
        pos := pos + 1;
        return;
      }
      o := EvalArguments(key);
    }

    /** The keywords that take operands. */
    method EvalArguments(key: Text) returns (o: Outcome)
      requires pos < |args| && args[pos] == key && IsKeyword(key) && key != QUOTE
      modifies this
      ensures Agrees(Eval6(m, args, old(pos)), o, pos)
      decreases |args| - pos, 4
    {
      hide Eval6, IsKeyword, ToString, LengthOf, IndexOf, SubstrOf;
      Eval6Keyword(m, args, pos);
      pos := pos + 1;
      var l := EvalKeyword();
      if l.Failed? {
        return l;
      }
      if key == LENGTH {
        return Done(LengthOf(l.v));
      }
      var r := EvalKeyword();
      if r.Failed? {
        return r;
      }
      if key == MATCH {
        return m(ToString(l.v), ToString(r.v));
      }
      if key == INDEX {
        return Done(IndexOf(l.v, r.v));
      }
      var c := EvalKeyword();
      if c.Failed? {
        return c;
      }
      o := Done(SubstrOf(l.v, r.v, c.v));
    }

    /** eval7. */
    method EvalAtom() returns (o: Outcome)
      modifies this
      ensures Agrees(Eval7(m, args, old(pos)), o, pos)
      decreases |args| - pos, 4
    {
      hide Eval;
      if pos >= |args| {
        return Failed(Syntax);
      }
      if args[pos] == OPEN {
        pos := pos + 1;
        o := EvalLevel(0);
        if o.Failed? {
          return;
        }
        if pos >= |args| || args[pos] != CLOSE {
          return Failed(Syntax);
        }
        pos := pos + 1;
        return;
      }
      if args[pos] == CLOSE {
        return Failed(Syntax);
      }
      o := Done(Str(args[pos]));
      pos := pos + 1;
    }
  }

  lemma {:induction false} EvalUnfold(m: Matcher, args: seq<Text>, pos: nat, k: nat)
    requires k <= 5
    ensures Eval(m, args, pos, k) == match Operand(m, args, pos, k) case Fail(e) => Fail(e) case Ok(l, p) => Loop(m, args, p, k, l)
  {
    hide Operand, Loop;
  }

  lemma {:induction false} LoopUnfold(m: Matcher, args: seq<Text>, pos: nat, k: nat, l: Value)
    requires k <= 5 && pos <= |args|
    ensures Loop(m, args, pos, k, l)
            == match NextOp(args, pos, k)
               case None => Ok(l, pos)
               case Some(op) =>
                 match Operand(m, args, pos + 1, k)
                 case Fail(e) => Fail(e)
                 case Ok(r, p) => match Apply(m, op, l, r) case Failed(e) => Fail(e) case Done(v) => Loop(m, args, p, k, v)
  {
    hide Apply, NextOp, Operand;
  }

  lemma {:induction false} NextOpBounds(args: seq<Text>, pos: nat, k: nat)
    requires NextOp(args, pos, k).Some?
    ensures pos < |args|
  {
  }

  /** expr_main: the value printed or the error, and the exit status, which is 1 for null values
      and 2 for errors. */
  method ExprMain(m: Matcher, args: seq<Text>) returns (o: Outcome, status: nat)
    ensures o == Program(m, args)
    ensures status == match o case Failed(_) => 2 case Done(v) => if IsNull(v) then 1 else 0
  {
    hide Eval;
    if args == [] {
      return Failed(TooFewArguments), 2;
    }
    var e := new Evaluator(m, args);
    o := e.EvalLevel(0);
    if o.Done? && e.pos < |args| {
      o := Failed(Syntax);
    }
    if o.Failed? {
      return o, 2;
    }
    status := if IsNull(o.v) then 1 else 0;
  }
}
