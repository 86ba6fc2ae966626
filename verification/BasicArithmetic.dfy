/** What BASIC's operators come to in ordinary arithmetic, which of them bind tighter, and
    how they are spelled in the source text. */
module BasicArithmetic {
  import opened Basics
  import opened Word32
  import opened Expressions
  import T = Tokens

  // ---- arithmetic ----

  /** Sum, difference and product are exact when they fit 32 bits, and otherwise what is
      left of them in 32 bits. */
  lemma SumLaws(a: int, b: int)
    requires FitsSigned(a) && FitsSigned(b)
    ensures Exact(Combine(OpAdd, a, b), a + b)
    ensures Exact(Combine(OpSub, a, b), a - b)
    ensures Exact(Combine(OpMul, a, b), a * b)
  {
    LowBits(a + b);
    LowBits(a - b);
    LowBits(a * b);
  }

  predicate Exact(r: Number, x: int) {
    r.Num? && FitsSigned(r.n) && (FitsSigned(x) ==> r.n == x) && (x - r.n) % MODULUS == 0
  }

  lemma LowBits(x: int)
    ensures (x - Int32(x)) % MODULUS == 0
  {
    var q, r := x / MODULUS, x % MODULUS;
    assert x == q * MODULUS + r;
    ModAddMultiple(0, q);
    ModAddMultiple(0, q + 1);
  }

  /** / and MOD are an error for a zero divisor, fault on the smallest number over -1, and
      otherwise are the only two numbers that make up the dividend with a remainder smaller
      than the divisor and of the dividend's sign. */
  lemma DivisionLaws(a: int, b: int, q: int, r: int)
    requires FitsSigned(a) && FitsSigned(b)
    ensures Combine(OpDiv, a, b).ZeroDivisor? <==> b == 0
    ensures Combine(OpDiv, a, b).Fault? <==> a == -0x8000_0000 && b == -1
    ensures Combine(OpMod, a, b).ZeroDivisor? == Combine(OpDiv, a, b).ZeroDivisor?
    ensures Combine(OpMod, a, b).Fault? == Combine(OpDiv, a, b).Fault?
    ensures Combine(OpDiv, a, b).Num? ==>
              (Combine(OpDiv, a, b) == Num(q) && Combine(OpMod, a, b) == Num(r) <==>
               a == b * q + r && Magnitude(r) < Magnitude(b) && (a >= 0 ==> r >= 0) && (a <= 0 ==> r <= 0))
  {
    hide TruncDiv, TruncRem;
    if b != 0 { DivisionLaw(a, b, q, r); }
  }

  predicate Yes(r: Number) { r == Num(-1) }

  /** Comparisons, AND and OR give -1 or 0. Of <, = and > exactly one holds, a number is
      smaller than its successor, smaller is transitive, <=, >= and <> deny >, < and =, and
      AND and OR are those of the truth of their operands. */
  lemma ComparisonLaws(a: int, b: int, c: int, op: Op)
    ensures Prec(op) <= 2 ==> Yes(Combine(op, a, b)) || Combine(op, a, b) == Num(0)
    ensures Yes(Combine(OpEq, a, b)) <==> a == b
    ensures var l, e, g := Yes(Combine(OpLt, a, b)), Yes(Combine(OpEq, a, b)), Yes(Combine(OpGt, a, b));
            (l || e || g) && !(l && e) && !(l && g) && !(e && g)
    ensures Yes(Combine(OpLt, a, a + 1))
    ensures Yes(Combine(OpLt, a, b)) && Yes(Combine(OpLt, b, c)) ==> Yes(Combine(OpLt, a, c))
    ensures Yes(Combine(OpLe, a, b)) <==> !Yes(Combine(OpGt, a, b))
    ensures Yes(Combine(OpGe, a, b)) <==> !Yes(Combine(OpLt, a, b))
    ensures Yes(Combine(OpNe, a, b)) <==> !Yes(Combine(OpEq, a, b))
    ensures Yes(Combine(OpAnd, a, b)) <==> Yes(Combine(OpNe, a, 0)) && Yes(Combine(OpNe, b, 0))
    ensures Yes(Combine(OpOr, a, b)) <==> Yes(Combine(OpNe, a, 0)) || Yes(Combine(OpNe, b, 0))
  {
  }

  /** A negative adds up to zero with its operand, NOT is 1 for zero and 0 for all else, ABS
      is one of operand and negative and not below zero, each but for the smallest number,
      whose negative is itself, and INT changes nothing. */
  lemma SignLaws(t: Tree, vars: Store, gap: nat, gap1: nat, gap2: nat, v: int)
    requires Placed(t, 5) && Placed(t, 0) && Value(t, vars) == Num(v) && FitsSigned(v)
    ensures v > -0x8000_0000 ==> Value(Neg(gap, t), vars).Num? && Value(Neg(gap, t), vars).n + v == 0
    ensures Value(Not(gap, t), vars) == if v == 0 then Num(1) else Num(0)
    ensures var a := Value(Abs(gap, gap1, t, gap2), vars);
            a.Num? && (a.n == v || Num(a.n) == Value(Neg(gap, t), vars)) && (v > -0x8000_0000 ==> a.n >= 0)
    ensures Value(Whole(gap, gap1, t, gap2), vars) == Num(v)
  {
    hide Int32;
    Negatives(v);
  }

  /** Minus twice is nothing. */
  lemma MinusTwice(t: Tree, vars: Store, gap: nat, gap1: nat, v: int)
    requires Placed(t, 5) && Placed(t, 0) && Value(t, vars) == Num(v) && FitsSigned(v)
    ensures Value(Neg(gap, Neg(gap1, t)), vars) == Num(v)
  {
    hide Int32;
    Negatives(v);
    assert Value(Neg(gap1, t), vars) == Num(Int32(-v));
  }

  lemma Negatives(v: int)
    requires FitsSigned(v)
    ensures v > -0x8000_0000 ==> Int32(-v) == -v
    ensures FitsSigned(Int32(-v)) && Int32(-Int32(-v)) == v
  {
  }

  function LetterIndex(c: byte): nat
    requires Letter(c)
  {
    if c >= 'a' as int then c - 'a' as int else c - 'A' as int
  }

  /** Two names are the same variable exactly when they are the same letter, in either
      case, with the same digit or both without one. */
  lemma VariablesApart(l: byte, d: Option<nat>, m: byte, e: Option<nat>)
    requires Letter(l) && Letter(m) && (d.Some? ==> d.value < 10) && (e.Some? ==> e.value < 10)
    ensures VarSlot(l, d) == VarSlot(m, e) <==> LetterIndex(l) == LetterIndex(m) && d == e
  {
  }

  // ---- what binds tighter ----

  predicate Times(op: Op) { op == OpMul || op == OpDiv || op == OpMod }

  predicate Plus(op: Op) { op == OpAdd || op == OpSub }

  predicate Logical(op: Op) { op == OpAnd || op == OpOr }

  predicate Comparing(op: Op) { !Times(op) && !Plus(op) && !Logical(op) }

  /** *, / and MOD come before + and -, those before comparisons, those before AND, and AND
      before OR. */
  predicate Tighter(op: Op, than: Op) {
    || (Times(op) && !Times(than))
    || (Plus(op) && (Comparing(than) || Logical(than)))
    || (Comparing(op) && Logical(than))
    || (op == OpAnd && than == OpOr)
  }

  /** `a op1 b op2 c` as tokens. */
  function Three(a: int, op1: Op, b: int, op2: Op, c: int): seq<byte> {
    [TOK_NUM] + Dword(a) + [Token(op1)] + ([TOK_NUM] + Dword(b)) + [Token(op2)] + ([TOK_NUM] + Dword(c))
  }

  function Then(x: Number, op: Op, b: int): Number { if x.Num? then Combine(op, x.n, b) else x }

  function Behind(a: int, op: Op, y: Number): Number { if y.Num? then Combine(op, a, y.n) else y }

  /** Of two operators the tighter one is carried out first, and of two equally tight ones,
      other than comparisons, the left one. */
  lemma Precedence(a: int, op1: Op, b: int, op2: Op, c: int, vars: Store)
    requires FitsSigned(a) && FitsSigned(b) && FitsSigned(c)
    requires !(Comparing(op1) && Comparing(op2))
    ensures var ts := Three(a, op1, b, op2, c);
            var v := if Tighter(op2, op1) then Behind(a, op1, Combine(op2, b, c))
                     else Then(Combine(op1, a, b), op2, c);
            Parse(ts, vars, 0, 0) == if v.Num? then Done(v.n, |ts|) else Without(v)
  {
    hide Parse, Written, Stop, Skip, Dword, Combine, HasZero, HasFault, Divisions, Wrap, Prec, Tighter, Placed;
    var x, y, z := Lit(0, a), Lit(0, b), Lit(0, c);
    var ts := Three(a, op1, b, op2, c);
    LitWritten(a);
    LitWritten(b);
    LitWritten(c);
    if Tighter(op2, op1) {
      var inner := Bin(y, 0, op2, z);
      BinWritten(y, op2, z);
      BinWritten(x, op1, inner);
      assert Written(Bin(x, 0, op1, inner)) == ts;
      var t := Bin(x, 0, op1, inner);
      TighterPlaced(a, op1, b, op2, c);
      ValueBin(inner, vars);
      ValueBin(t, vars);
      WholeLine(t, vars);
    } else {
      var inner := Bin(x, 0, op1, y);
      BinWritten(x, op1, y);
      BinWritten(inner, op2, z);
      assert Written(Bin(inner, 0, op2, z)) == ts;
      var t := Bin(inner, 0, op2, z);
      LeftPlaced(a, op1, b, op2, c);
      ValueBin(inner, vars);
      ValueBin(t, vars);
      WholeLine(t, vars);
    }
  }

  lemma TighterPrec(op1: Op, op2: Op)
    ensures Tighter(op2, op1) <==> Prec(op2) > Prec(op1)
    ensures Comparing(op1) <==> Prec(op1) == 2
  {
  }

  lemma LitPlaced(n: int, l: nat)
    requires FitsSigned(n)
    ensures Placed(Lit(0, n), l)
  {
  }

  lemma BinPlaced(x: Tree, op: Op, y: Tree, l: nat)
    requires l <= Prec(op) && Placed(x, if Prec(op) == 2 then 3 else Prec(op)) && Placed(y, Prec(op) + 1)
    ensures Placed(Bin(x, 0, op, y), l)
  {
  }

  lemma TighterPlaced(a: int, op1: Op, b: int, op2: Op, c: int)
    requires FitsSigned(a) && FitsSigned(b) && FitsSigned(c) && Tighter(op2, op1)
    ensures var inner := Bin(Lit(0, b), 0, op2, Lit(0, c));
            Placed(inner, 0) && Placed(Bin(Lit(0, a), 0, op1, inner), 0)
    ensures Placed(Lit(0, a), 0) && Placed(Lit(0, b), 0) && Placed(Lit(0, c), 0)
  {
    hide Placed, Prec, Tighter;
    var x, y, z := Lit(0, a), Lit(0, b), Lit(0, c);
    TighterPrec(op1, op2);
    forall l: nat ensures Placed(x, l) && Placed(y, l) && Placed(z, l) {
      LitPlaced(a, l);
      LitPlaced(b, l);
      LitPlaced(c, l);
    }
    BinPlaced(y, op2, z, 0);
    BinPlaced(y, op2, z, Prec(op1) + 1);
    BinPlaced(x, op1, Bin(y, 0, op2, z), 0);
  }

  lemma LeftPlaced(a: int, op1: Op, b: int, op2: Op, c: int)
    requires FitsSigned(a) && FitsSigned(b) && FitsSigned(c)
    requires !Tighter(op2, op1) && !(Comparing(op1) && Comparing(op2))
    ensures var inner := Bin(Lit(0, a), 0, op1, Lit(0, b));
            Placed(inner, 0) && Placed(Bin(inner, 0, op2, Lit(0, c)), 0)
    ensures Placed(Lit(0, a), 0) && Placed(Lit(0, b), 0) && Placed(Lit(0, c), 0)
  {
    hide Placed, Prec, Tighter, Comparing;
    var x, y, z := Lit(0, a), Lit(0, b), Lit(0, c);
    TighterPrec(op1, op2);
    TighterPrec(op2, op1);
    forall l: nat ensures Placed(x, l) && Placed(y, l) && Placed(z, l) {
      LitPlaced(a, l);
      LitPlaced(b, l);
      LitPlaced(c, l);
    }
    BinPlaced(x, op1, y, 0);
    BinPlaced(x, op1, y, if Prec(op2) == 2 then 3 else Prec(op2));
    BinPlaced(Bin(x, 0, op1, y), op2, z, 0);
  }

  lemma LitWritten(n: int)
    ensures Written(Lit(0, n)) == [TOK_NUM] + Dword(n)
  {
    assert Spaces(0) == [];
  }

  lemma BinWritten(x: Tree, op: Op, y: Tree)
    ensures Written(Bin(x, 0, op, y)) == Written(x) + [Token(op)] + Written(y)
  {
    assert Spaces(0) == [];
  }

  /** A tree whose written form is the whole line. */
  lemma WholeLine(t: Tree, vars: Store)
    requires Placed(t, 0)
    ensures var v := Value(t, vars);
            Parse(Written(t), vars, 0, 0) == if v.Num? then Done(v.n, |Written(t)|) else Without(v)
  {
    hide Parse, Written, Stop, Skip, Value, HasZero, HasFault, Divisions;
    var ts := Written(t);
    assert [] + ts + [] == ts;
    StopAtEnd(ts);
    Evaluates(t, [], [], vars);
    ValueExists(t, vars);
    SkipEnd(ts);
  }

  lemma SkipEnd(ts: seq<byte>)
    ensures Skip(ts, |ts|) == |ts|
  {
  }

  // ---- how operators are spelled ----

  function Bytes(w: string): (r: seq<byte>)
    requires forall i :: 0 <= i < |w| ==> w[i] as int < 128
    ensures |r| == |w| && forall i :: 0 <= i < |w| ==> r[i] == w[i] as int
  {
    seq(|w|, i requires 0 <= i < |w| => w[i] as int)
  }

  function OpText(op: Op): (w: string)
    ensures 1 <= |w| <= 3 && forall i :: 0 <= i < |w| ==> w[i] as int < 128
  {
    match op
    case OpOr => "OR"
    case OpAnd => "AND"
    case OpEq => "="
    case OpLt => "<"
    case OpGt => ">"
    case OpLe => "<="
    case OpGe => ">="
    case OpNe => "<>"
    case OpAdd => "+"
    case OpSub => "-"
    case OpMul => "*"
    case OpDiv => "/"
    case OpMod => "MOD"
  }

  lemma NoKeyword(s: T.Text)
    requires s != [] && !T.WordByte(T.Upper(s[0]))
    ensures T.Keyword(s, 0) == T.WORDS
  {
    hide T.Name, T.Spelled, T.Upper, T.WordByte;
    var k := T.Keyword(s, 0);
    if k < T.WORDS { assert false; }
  }

  /** Where the word operators are in the keyword table. */
  function WordOf(op: Op): (k: nat)
    requires op == OpOr || op == OpAnd || op == OpMod
    ensures k < T.WORDS
  {
    if op == OpAnd then 16 else if op == OpOr then 17 else 19
  }

  lemma WordFound(op: Op, rest: T.Text)
    requires op == OpOr || op == OpAnd || op == OpMod
    requires rest == [] || rest[0] == SPACE
    ensures T.Keyword(Bytes(OpText(op)) + rest, 0) == WordOf(op)
    ensures T.Spelled(WordOf(op)) == Bytes(OpText(op)) && [T.Token(WordOf(op))] == [Token(op)]
  {
    hide T.Spelled, OpText, Bytes, T.Name, T.Token, Token;
    WordSpelled(op);
    var k, w := WordOf(op), Bytes(OpText(op));
    var s := w + rest;
    forall j | 0 <= j < k ensures !T.Matches(s, j) {
      NotEarlier(k, j);
      assert s[0] == w[0];
    }
    T.KeywordIs(s, 0, k);
  }

  lemma WordSpelled(op: Op)
    requires op == OpOr || op == OpAnd || op == OpMod
    ensures T.Spelled(WordOf(op)) == Bytes(OpText(op)) && T.Token(WordOf(op)) == Token(op)
    ensures T.WordText(Bytes(OpText(op)))
  {
    assert T.Name(WordOf(op)) == OpText(op);
  }

  /** No keyword before AND, OR or MOD begins with the same letter. */
  lemma NotEarlier(k: nat, j: nat)
    requires k == 16 || k == 17 || k == 19
    requires j < k
    ensures T.Spelled(j)[0] != T.Spelled(k)[0]
  {
    hide T.Spelled;
    FirstLetters(k, j);
    assert T.Spelled(j)[0] == T.Name(j)[0] as int && T.Spelled(k)[0] == T.Name(k)[0] as int;
  }

  lemma FirstLetters(k: nat, j: nat)
    requires k == 16 || k == 17 || k == 19
    requires j < k
    ensures |T.Name(j)| > 0 && |T.Name(k)| > 0 && T.Name(j)[0] != T.Name(k)[0]
  {
  }

  /** An operator as it is spelled becomes the token the evaluator takes for it. */
  lemma OperatorSpelled(op: Op, rest: T.Text)
    requires rest == [] || rest[0] == SPACE
    ensures var s := Bytes(OpText(op)) + rest;
            T.Code(T.First(s)) == [Token(op)] && T.Taken(s) == |OpText(op)| && s[T.Taken(s)..] == rest
  {
    hide T.Keyword, T.Name, T.Spelled, T.Run, T.ValueOf, T.ToQuote, T.Alnum;
    var w := Bytes(OpText(op));
    var s := w + rest;
    if op == OpOr || op == OpAnd || op == OpMod {
      WordFound(op, rest);
      T.FirstWord(s);
    } else {
      NoKeyword(s);
    }
    assert s[|w|..] == rest;
  }

  /** NOT, ABS and INT in the source become the tokens the evaluator takes for them. */
  lemma FunctionsSpelled()
    ensures T.Name(18) == "NOT" && T.Token(18) == TOK_NOT
    ensures T.Name(20) == "ABS" && T.Token(20) == TOK_ABS
    ensures T.Name(31) == "INT" && T.Token(31) == TOK_INT
    ensures T.NUMBER_MARK == TOK_NUM && T.QUOTE_MARK == TOK_STRING
  {
  }

  /** Text of two numbers and an operator, as it is typed, comes to what the operator makes
      of the numbers. */
  lemma TextEvaluates(a: nat, op: Op, b: nat, vars: Store)
    requires a < 0x8000_0000 && b < 0x8000_0000
    ensures var text := T.Decimal(a) + ([SPACE] + (Bytes(OpText(op)) + ([SPACE] + T.Decimal(b))));
            var ts, v := T.CodeAll(T.Items(text)), Combine(op, a, b);
            Parse(ts, vars, 0, 0) == if v.Num? then Done(v.n, |ts|) else Without(v)
  {
    hide Parse, Dword, T.Decimal, T.Items, T.CodeAll, T.First, T.Taken, T.Code, Bytes, OpText, Combine, Wrap, Token;
    var tail := [SPACE] + T.Decimal(b);
    var middle := Bytes(OpText(op)) + tail;
    NumberFirst(a, [SPACE] + middle);
    SpaceFirst(middle);
    OperatorSpelled(op, tail);
    SpaceFirst(T.Decimal(b));
    NumberFirst(b, []);
    assert T.Decimal(b) + [] == T.Decimal(b);
    CodeStep(T.Decimal(a) + ([SPACE] + middle));
    CodeStep([SPACE] + middle);
    CodeStep(middle);
    CodeStep(tail);
    CodeStep(T.Decimal(b));
    assert T.CodeAll(T.Items([])) == [] by { T.NothingShown([]); CodeNone(); }
    var code := [TOK_NUM] + Dword(b);
    assert code + [] == code;
    var text := T.Decimal(a) + ([SPACE] + middle);
    assert T.CodeAll(T.Items(text)) == [TOK_NUM] + Dword(a) + ([SPACE] + ([Token(op)] + ([SPACE] + code)));
    var t := Bin(Lit(0, a), 1, op, Lit(1, b));
    SpacedWritten(a, op, b);
    assert Value(t, vars) == Combine(op, a, b);
    WholeLine(t, vars);
  }

  lemma CodeNone()
    ensures T.CodeAll([]) == []
  {
  }

  lemma CodeStep(s: T.Text)
    requires s != []
    ensures T.CodeAll(T.Items(s)) == T.Code(T.First(s)) + T.CodeAll(T.Items(s[T.Taken(s)..]))
  {
    hide T.Code, T.First, T.Taken;
    T.ItemsStep(s);
  }

  lemma SpaceFirst(rest: T.Text)
    ensures var s := [SPACE] + rest;
            T.First(s) == T.Char(SPACE) && T.Code(T.First(s)) == [SPACE] && T.Taken(s) == 1 && s[1..] == rest
  {
  }

  lemma NumberFirst(n: nat, rest: T.Text)
    requires n < 0x8000_0000 && (rest == [] || !T.Digit(rest[0]))
    ensures var s := T.Decimal(n) + rest;
            && T.Code(T.First(s)) == [TOK_NUM] + Dword(n)
            && T.Taken(s) == |T.Decimal(n)| && s[T.Taken(s)..] == rest
  {
    hide T.Keyword, T.Decimal, T.Name, T.Spelled, T.Run, T.ValueOf, T.ToQuote, T.Alnum, Dword;
    var d := T.Decimal(n);
    var s := d + rest;
    assert T.Digit(d[0]) && s[0] == d[0];
    NoKeyword(s);
    T.RunIs(s, |d|);
    assert s[..|d|] == d;
    T.DecimalValue(n);
    assert T.First(s) == T.Number(n);
    assert s[|d|..] == rest;
  }

  lemma SpacedWritten(a: int, op: Op, b: int)
    requires FitsSigned(a) && FitsSigned(b)
    ensures var t := Bin(Lit(0, a), 1, op, Lit(1, b));
            && Placed(t, 0)
            && Written(t) == [TOK_NUM] + Dword(a) + ([SPACE] + ([Token(op)] + ([SPACE] + ([TOK_NUM] + Dword(b)))))
  {
    hide Dword;
    assert Spaces(0) == [] && Spaces(1) == [SPACE];
    var x, y := Lit(0, a), Lit(1, b);
    BinPlaced(x, op, y, 0) by { LitPlaced(a, if Prec(op) == 2 then 3 else Prec(op)); assert Placed(y, Prec(op) + 1); }
    assert Written(x) == [TOK_NUM] + Dword(a) && Written(y) == [SPACE] + [TOK_NUM] + Dword(b);
    assert Written(Bin(x, 1, op, y)) == Written(x) + (Spaces(1) + [Token(op)]) + Written(y);
  }
}
