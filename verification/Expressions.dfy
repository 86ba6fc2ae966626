/** Numeric BASIC expressions: trees with their written form, and the
    recursive-descent reader that evaluates token sequences. */
module Expressions {
  import opened Basics
  import opened Word32

  const TOK_AND: byte := 0x90
  const TOK_OR: byte := 0x91
  const TOK_NOT: byte := 0x92
  const TOK_MOD: byte := 0x93
  const TOK_LE: byte := 0x94
  const TOK_GE: byte := 0x95
  const TOK_NE: byte := 0x96
  const TOK_ABS: byte := 0xA0
  const TOK_INT: byte := 0xAB
  const TOK_NUM: byte := 0xFE
  const TOK_STRING: byte := 0xFF
  const SPACE: byte := 32
  const OPEN: byte := 40
  const CLOSE: byte := 41
  const MINUS: byte := 45
  const DOLLAR: byte := 36

  /** The 32-bit integer an arithmetic result is stored as. */
  function Int32(x: int): (r: int)
    ensures FitsSigned(r) && (FitsSigned(x) ==> r == x)
  {
    Signed(Wrap(x))
  }

  // ---- trees ----

  datatype Op = OpOr | OpAnd | OpEq | OpLt | OpGt | OpLe | OpGe | OpNe | OpAdd | OpSub | OpMul | OpDiv | OpMod

  /** The level of the grammar an operator belongs to; 5 is that of primaries. */
  function Prec(op: Op): (l: nat)
    ensures l <= 4
  {
    match op
    case OpOr => 0
    case OpAnd => 1
    case OpEq => 2
    case OpLt => 2
    case OpGt => 2
    case OpLe => 2
    case OpGe => 2
    case OpNe => 2
    case OpAdd => 3
    case OpSub => 3
    case OpMul => 4
    case OpDiv => 4
    case OpMod => 4
  }

  function Token(op: Op): byte {
    match op
    case OpOr => TOK_OR
    case OpAnd => TOK_AND
    case OpEq => 61
    case OpLt => 60
    case OpGt => 62
    case OpLe => TOK_LE
    case OpGe => TOK_GE
    case OpNe => TOK_NE
    case OpAdd => 43
    case OpSub => MINUS
    case OpMul => 42
    case OpDiv => 47
    case OpMod => TOK_MOD
  }

  /** The operator of level `l` with this token. */
  function OpAt(l: nat, tok: byte): (o: Option<Op>)
    ensures o.Some? ==> Prec(o.value) == l && Token(o.value) == tok
    ensures forall op :: Prec(op) == l && Token(op) == tok ==> o == Some(op)
  {
    if l == 0 then if tok == TOK_OR then Some(OpOr) else None
    else if l == 1 then if tok == TOK_AND then Some(OpAnd) else None
    else if l == 2 then
      if tok == 61 then Some(OpEq) else if tok == 60 then Some(OpLt) else if tok == 62 then Some(OpGt)
      else if tok == TOK_LE then Some(OpLe) else if tok == TOK_GE then Some(OpGe)
      else if tok == TOK_NE then Some(OpNe) else None
    else if l == 3 then if tok == 43 then Some(OpAdd) else if tok == MINUS then Some(OpSub) else None
    else if l == 4 then
      if tok == 42 then Some(OpMul) else if tok == 47 then Some(OpDiv) else if tok == TOK_MOD then Some(OpMod) else None
    else None
  }

  function Truth(b: bool): int { if b then -1 else 0 }

  /** What a computation comes to: a number, the error of a zero divisor, or the
      processor's divide fault on a quotient that is no 32-bit number. */
  datatype Number = Num(n: int) | ZeroDivisor | Fault

  function Divided(op: Op, a: int, b: int): Number {
    if b == 0 then ZeroDivisor
    else if a == -0x8000_0000 && b == -1 then Fault
    else Num(if op == OpDiv then TruncDiv(a, b) else TruncRem(a, b))
  }

  function Combine(op: Op, a: int, b: int): Number {
    match op
    case OpOr => Num(Truth(a != 0 || b != 0))
    case OpAnd => Num(Truth(a != 0 && b != 0))
    case OpEq => Num(Truth(a == b))
    case OpLt => Num(Truth(a < b))
    case OpGt => Num(Truth(a > b))
    case OpLe => Num(Truth(a <= b))
    case OpGe => Num(Truth(a >= b))
    case OpNe => Num(Truth(a != b))
    case OpAdd => Num(Int32(a + b))
    case OpSub => Num(Int32(a - b))
    case OpMul => Num(Int32(a * b))
    case OpDiv => Divided(op, a, b)
    case OpMod => Divided(op, a, b)
  }

  /** A tree together with how it is spelled: the spaces before each token, the
      case of a variable's letter, and parentheses wherever they stand. */
  datatype Tree =
    | Lit(gap: nat, n: int)
    | Var(gap: nat, letter: byte, digit: Option<nat>)
    | Neg(gap: nat, arg: Tree)
    | Not(gap: nat, arg: Tree)
    | Group(gap: nat, arg: Tree, gap2: nat)
    | Abs(gap: nat, gap1: nat, arg: Tree, gap2: nat)
    | Whole(gap: nat, gap1: nat, arg: Tree, gap2: nat)
    | Bin(left: Tree, gap: nat, op: Op, right: Tree)

  predicate Letter(c: byte) { 'A' as int <= c <= 'Z' as int || 'a' as int <= c <= 'z' as int }

  predicate Digit(c: byte) { '0' as int <= c <= '9' as int }

  /** The tree can stand at level `l` of the grammar without parentheses. */
  predicate Placed(t: Tree, l: nat) {
    match t
    case Lit(_, n) => FitsSigned(n)
    case Var(_, letter, digit) => Letter(letter) && (digit.Some? ==> digit.value < 10)
    case Neg(_, a) => Placed(a, 5)
    case Not(_, a) => Placed(a, 5)
    case Group(_, a, _) => Placed(a, 0)
    case Abs(_, _, a, _) => Placed(a, 0)
    case Whole(_, _, a, _) => Placed(a, 0)
    case Bin(a, _, op, b) =>
      l <= Prec(op) && Placed(a, if Prec(op) == 2 then 3 else Prec(op)) && Placed(b, Prec(op) + 1)
  }

  /** The numeric variables A .. Z and A0 .. Z9. */
  type Store = s: seq<int> | |s| == 286 witness seq(286, _ => 0)

  function VarSlot(letter: byte, digit: Option<nat>): (k: nat)
    requires Letter(letter) && (digit.Some? ==> digit.value < 10)
    ensures k < 286
  {
    var up := if letter >= 'a' as int then letter - 32 else letter;
    match digit
    case None => up - 'A' as int
    case Some(d) => 26 + (up - 'A' as int) * 10 + d
  }

  /** The value of a tree, or what the first division without one raises. */
  function Value(t: Tree, vars: Store): Number
    requires Placed(t, 0)
  {
    match t
    case Lit(_, n) => Num(n)
    case Var(_, letter, digit) => Num(vars[VarSlot(letter, digit)])
    case Neg(_, a) =>
      Lower(a, 5, 0);
      var v := Value(a, vars);
      if v.Num? then Num(Int32(-v.n)) else v
    case Not(_, a) =>
      Lower(a, 5, 0);
      var v := Value(a, vars);
      if v.Num? then Num(if v.n != 0 then 0 else 1) else v
    case Group(_, a, _) => Value(a, vars)
    case Abs(_, _, a, _) =>
      var v := Value(a, vars);
      if v.Num? then Num(if v.n < 0 then Int32(-v.n) else v.n) else v
    case Whole(_, _, a, _) => Value(a, vars)
    case Bin(a, _, op, b) =>
      Lower(a, if Prec(op) == 2 then 3 else Prec(op), 0);
      Lower(b, Prec(op) + 1, 0);
      var x, y := Value(a, vars), Value(b, vars);
      if !x.Num? then x else if !y.Num? then y else Combine(op, x.n, y.n)
  }

  /** The operands of the divisions and MODs that are carried out, in order; one
      that gives no number is the last. */
  function Divisions(t: Tree, vars: Store): seq<(int, int)>
    requires Placed(t, 0)
  {
    match t
    case Lit(_, _) => []
    case Var(_, _, _) => []
    case Neg(_, a) => Lower(a, 5, 0); Divisions(a, vars)
    case Not(_, a) => Lower(a, 5, 0); Divisions(a, vars)
    case Group(_, a, _) => Divisions(a, vars)
    case Abs(_, _, a, _) => Divisions(a, vars)
    case Whole(_, _, a, _) => Divisions(a, vars)
    case Bin(a, _, op, b) =>
      Lower(a, if Prec(op) == 2 then 3 else Prec(op), 0);
      Lower(b, Prec(op) + 1, 0);
      var x, y := Value(a, vars), Value(b, vars);
      if !x.Num? then Divisions(a, vars)
      else if !y.Num? || (op != OpDiv && op != OpMod) then Divisions(a, vars) + Divisions(b, vars)
      else Divisions(a, vars) + Divisions(b, vars) + [(x.n, y.n)]
  }

  predicate HasZero(ds: seq<(int, int)>) {
    exists i :: 0 <= i < |ds| && ds[i].1 == 0
  }

  predicate HasFault(ds: seq<(int, int)>) {
    exists i :: 0 <= i < |ds| && ds[i] == (-0x8000_0000, -1)
  }

  lemma DivisionsJoin(a: seq<(int, int)>, b: seq<(int, int)>)
    ensures HasZero(a + b) <==> HasZero(a) || HasZero(b)
    ensures HasFault(a + b) <==> HasFault(a) || HasFault(b)
  {
    var c := a + b;
    if i :| 0 <= i < |a| && a[i].1 == 0 { assert c[i] == a[i]; }
    if i :| 0 <= i < |b| && b[i].1 == 0 { assert c[|a| + i] == b[i]; }
    if i :| 0 <= i < |a| && a[i] == (-0x8000_0000, -1) { assert c[i] == a[i]; }
    if i :| 0 <= i < |b| && b[i] == (-0x8000_0000, -1) { assert c[|a| + i] == b[i]; }
  }

  lemma DivisionsOne(x: int, y: int)
    ensures HasZero([(x, y)]) <==> y == 0
    ensures HasFault([(x, y)]) <==> x == -0x8000_0000 && y == -1
  {
    assert [(x, y)][0] == (x, y);
  }

  /** Nothing but the divisions carried out decides whether there is a value. */
  lemma {:induction false} ValueExists(t: Tree, vars: Store)
    requires Placed(t, 0)
    ensures Value(t, vars).ZeroDivisor? <==> HasZero(Divisions(t, vars))
    ensures Value(t, vars).Fault? <==> HasFault(Divisions(t, vars))
  {
    hide HasZero, HasFault, Int32;
    match t
    case Lit(_, _) => NoDivisions();
    case Var(_, _, _) => NoDivisions();
    case Neg(_, a) => Lower(a, 5, 0); ValueExists(a, vars);
    case Not(_, a) => Lower(a, 5, 0); ValueExists(a, vars);
    case Group(_, a, _) => ValueExists(a, vars);
    case Abs(_, _, a, _) => ValueExists(a, vars);
    case Whole(_, _, a, _) => ValueExists(a, vars);
    case Bin(a, _, op, b) =>
      Lower(a, if Prec(op) == 2 then 3 else Prec(op), 0);
      Lower(b, Prec(op) + 1, 0);
      ValueExists(a, vars);
      ValueExists(b, vars);
      var x, y := Value(a, vars), Value(b, vars);
      DivisionsJoin(Divisions(a, vars), Divisions(b, vars));
      if x.Num? && y.Num? {
        DivisionsJoin(Divisions(a, vars) + Divisions(b, vars), [(x.n, y.n)]);
        DivisionsOne(x.n, y.n);
      }
  }

  lemma NoDivisions()
    ensures !HasZero([]) && !HasFault([])
  {
  }

  lemma Lower(t: Tree, l: nat, m: nat)
    requires Placed(t, l) && m <= l
    ensures Placed(t, m)
  {
  }

  // ---- the written form ----

  function Spaces(n: nat): (s: seq<byte>)
    ensures |s| == n && forall i :: 0 <= i < n ==> s[i] == SPACE
  {
    seq(n, _ => SPACE)
  }

  function Written(t: Tree): seq<byte> {
    match t
    case Lit(gap, n) => Spaces(gap) + [TOK_NUM] + Dword(n)
    case Var(gap, letter, digit) =>
      Spaces(gap) + [letter] + if digit.Some? && digit.value < 10 then [48 + digit.value] else []
    case Neg(gap, a) => Spaces(gap) + [MINUS] + Written(a)
    case Not(gap, a) => Spaces(gap) + [TOK_NOT] + Written(a)
    case Group(gap, a, gap2) => Spaces(gap) + [OPEN] + Written(a) + (Spaces(gap2) + [CLOSE])
    case Abs(gap, gap1, a, gap2) =>
      Spaces(gap) + [TOK_ABS] + (Spaces(gap1) + [OPEN]) + Written(a) + (Spaces(gap2) + [CLOSE])
    case Whole(gap, gap1, a, gap2) =>
      Spaces(gap) + [TOK_INT] + (Spaces(gap1) + [OPEN]) + Written(a) + (Spaces(gap2) + [CLOSE])
    case Bin(a, gap, op, b) => Written(a) + (Spaces(gap) + [Token(op)]) + Written(b)
  }

  // ---- reading ----

  /** Past the end of the line every byte reads as zero. */
  function Peek(ts: seq<byte>, pos: nat): byte {
    if pos < |ts| then ts[pos] else 0
  }

  function Skip(ts: seq<byte>, pos: nat): (p: nat)
    ensures p >= pos && Peek(ts, p) != SPACE && (pos <= |ts| ==> p <= |ts|) && (pos > |ts| ==> p == pos)
    decreases |ts| - pos
  {
    if pos < |ts| && ts[pos] == SPACE then Skip(ts, pos + 1) else pos
  }

  function Left(ts: seq<byte>, pos: nat): nat {
    if pos < |ts| then |ts| - pos else 0
  }

  function Literal(ts: seq<byte>, pos: nat): int {
    Signed(Peek(ts, pos) + 256 * Peek(ts, pos + 1) as int + 0x10000 * Peek(ts, pos + 2) as int
           + 0x100_0000 * Peek(ts, pos + 3) as int)
  }

  /** What reading gives: a value and the position after it, an error, a divide
      fault, or, for strings and for functions other than ABS and INT, nothing
      this model covers. */
  datatype Result = Fail | Faulted | Beyond | Done(val: int, pos: nat)

  /** What reading gives where there is no number. */
  function Without(v: Number): Result
    requires !v.Num?
  {
    if v.ZeroDivisor? then Fail else Faulted
  }

  /** A closing parenthesis is passed over if it is there. */
  function PastClose(ts: seq<byte>, pos: nat): (p: nat)
    ensures p >= pos && (pos <= |ts| ==> p <= |ts|) && (pos > |ts| ==> p == pos)
  {
    var q := Skip(ts, pos);
    if Peek(ts, q) == CLOSE then q + 1 else q
  }

  function Argument(ts: seq<byte>, vars: Store, pos: nat): (r: Result)
    ensures r.Done? ==> pos <= r.pos <= |ts| + 4
    decreases Left(ts, pos), 8
  {
    var p := Skip(ts, pos);
    if Peek(ts, p) != OPEN then Fail
    else
      var r := Parse(ts, vars, 0, p + 1);
      if !r.Done? then r else Done(r.val, PastClose(ts, r.pos))
  }

  function Primary(ts: seq<byte>, vars: Store, pos: nat): (r: Result)
    ensures r.Done? ==> pos < |ts| && pos < r.pos <= |ts| + 4
    decreases Left(ts, pos), 0
  {
    var p := Skip(ts, pos);
    var tok := Peek(ts, p);
    if tok == MINUS then
      var r := Primary(ts, vars, p + 1);
      if !r.Done? then r else Done(Int32(-r.val), r.pos)
    else if tok == TOK_NOT then
      var r := Primary(ts, vars, p + 1);
      if !r.Done? then r else Done(if r.val != 0 then 0 else 1, r.pos)
    else if tok == OPEN then
      var r := Parse(ts, vars, 0, p + 1);
      if !r.Done? then r else Done(r.val, PastClose(ts, r.pos))
    else if tok == TOK_NUM then Done(Literal(ts, p + 1), p + 5)
    else if tok == TOK_ABS then
      var r := Argument(ts, vars, p + 1);
      if !r.Done? then r else Done(if r.val < 0 then Int32(-r.val) else r.val, r.pos)
    else if tok == TOK_INT then Argument(ts, vars, p + 1)
    else if tok == TOK_STRING || TOK_ABS < tok < TOK_INT then Beyond
    else if Letter(tok) then
      if Peek(ts, p + 1) == DOLLAR then Beyond
      else if Digit(Peek(ts, p + 1)) then Done(vars[VarSlot(tok, Some(Peek(ts, p + 1) - 48))], p + 2)
      else Done(vars[VarSlot(tok, None)], p + 1)
    else Fail
  }

  /** Reads an expression of level `l`. */
  function Parse(ts: seq<byte>, vars: Store, l: nat, pos: nat): (r: Result)
    requires l <= 5
    ensures r.Done? ==> pos < |ts| && pos < r.pos <= |ts| + 4
    decreases Left(ts, pos), 6 - l
  {
    if l == 5 then Primary(ts, vars, pos)
    else
      var a := Parse(ts, vars, l + 1, pos);
      if !a.Done? then a else Rest(ts, vars, l, a.val, a.pos)
  }

  /** Goes on behind a left operand: over every operator of the level, or one
      comparison. */
  function Rest(ts: seq<byte>, vars: Store, l: nat, left: int, pos: nat): (r: Result)
    requires l <= 4
    ensures r.Done? ==> pos <= r.pos && (pos <= |ts| + 4 ==> r.pos <= |ts| + 4)
    decreases Left(ts, pos), 7
  {
    var p := Skip(ts, pos);
    var o := OpAt(l, Peek(ts, p));
    if o.None? then Done(left, p)
    else
      var b := Parse(ts, vars, l + 1, p + 1);
      if !b.Done? then b
      else
        var v := Combine(o.value, left, b.val);
        if !v.Num? then Without(v)
        else if l == 2 then Done(v.n, b.pos)
        else Rest(ts, vars, l, v.n, b.pos)
  }

  // ---- a written tree is read back ----

  /** `s` stands in `ts` at `pos`. */
  predicate At(ts: seq<byte>, pos: nat, s: seq<byte>) {
    pos + |s| <= |ts| && ts[pos..pos + |s|] == s
  }

  lemma AtSplit(ts: seq<byte>, pos: nat, a: seq<byte>, b: seq<byte>)
    requires At(ts, pos, a + b)
    ensures At(ts, pos, a) && At(ts, pos + |a|, b)
  {
    assert ts[pos..pos + |a + b|][..|a|] == a;
    assert ts[pos..pos + |a + b|][|a|..] == b;
    assert ts[pos..pos + |a|] == ts[pos..pos + |a + b|][..|a|];
    assert ts[pos + |a|..pos + |a| + |b|] == ts[pos..pos + |a + b|][|a|..];
  }

  lemma AtOne(ts: seq<byte>, pos: nat, c: byte)
    requires At(ts, pos, [c])
    ensures Peek(ts, pos) == c
  {
    assert ts[pos..pos + 1][0] == c;
  }

  lemma {:induction false} SkipOver(ts: seq<byte>, pos: nat, gap: nat)
    requires At(ts, pos, Spaces(gap))
    ensures Skip(ts, pos) == Skip(ts, pos + gap)
    decreases gap
  {
    if gap > 0 {
      assert ts[pos..pos + gap][0] == SPACE;
      assert ts[pos + 1..pos + gap] == ts[pos..pos + gap][1..];
      assert Spaces(gap)[1..] == Spaces(gap - 1);
      SkipOver(ts, pos + 1, gap - 1);
    }
  }

  /** After spaces comes a token that is none. */
  lemma SkipTo(ts: seq<byte>, pos: nat, gap: nat, c: byte)
    requires At(ts, pos, Spaces(gap) + [c]) && c != SPACE
    ensures Skip(ts, pos) == pos + gap && Peek(ts, pos + gap) == c && pos + gap < |ts|
  {
    AtSplit(ts, pos, Spaces(gap), [c]);
    AtOne(ts, pos + gap, c);
    SkipOver(ts, pos, gap);
  }

  /** Reading stops at `pos`: what follows neither continues a variable's name
      nor is an operator of level `l` or higher. */
  predicate Stop(ts: seq<byte>, pos: nat, l: nat) {
    && !Digit(Peek(ts, pos)) && Peek(ts, pos) != DOLLAR
    && forall m :: l <= m <= 4 ==> OpAt(m, Peek(ts, Skip(ts, pos))).None?
  }

  lemma StopAtOp(ts: seq<byte>, pos: nat, gap: nat, op: Op)
    requires At(ts, pos, Spaces(gap) + [Token(op)])
    ensures Stop(ts, pos, Prec(op) + 1)
  {
    SkipTo(ts, pos, gap, Token(op));
    if gap > 0 {
      AtSplit(ts, pos, Spaces(gap), [Token(op)]);
      assert ts[pos..pos + gap][0] == SPACE;
    }
  }

  lemma StopAtClose(ts: seq<byte>, pos: nat, gap: nat)
    requires At(ts, pos, Spaces(gap) + [CLOSE])
    ensures Stop(ts, pos, 0) && PastClose(ts, pos) == pos + gap + 1
    ensures PastClose(ts, Skip(ts, pos)) == pos + gap + 1
  {
    SkipTo(ts, pos, gap, CLOSE);
    if gap > 0 {
      AtSplit(ts, pos, Spaces(gap), [CLOSE]);
      assert ts[pos..pos + gap][0] == SPACE;
    }
  }

  function Ahead(l: nat): nat {
    if l == 2 then 2 else l + 1
  }

  /** What reading level `l` gives when the tree of value `v` ends at `pos`: the
      loop of that level takes over from there. */
  function Onward(ts: seq<byte>, vars: Store, l: nat, v: int, pos: nat): Result
    requires l <= 5
  {
    if l == 5 then Done(v, pos) else if l == 2 then Done(v, Skip(ts, pos)) else Rest(ts, vars, l, v, pos)
  }

  lemma OnwardStops(ts: seq<byte>, vars: Store, l: nat, v: int, pos: nat)
    requires l < 5 && Stop(ts, pos, l)
    ensures Onward(ts, vars, l, v, pos) == Done(v, Skip(ts, pos))
  {
  }

  lemma SkipTwice(ts: seq<byte>, pos: nat)
    ensures Skip(ts, Skip(ts, pos)) == Skip(ts, pos)
  {
  }

  lemma RestSkips(ts: seq<byte>, vars: Store, l: nat, v: int, pos: nat)
    requires l <= 4
    ensures Rest(ts, vars, l, v, Skip(ts, pos)) == Rest(ts, vars, l, v, pos)
  {
    SkipTwice(ts, pos);
  }

  lemma LiteralBack(ts: seq<byte>, pos: nat, n: int)
    requires At(ts, pos, Dword(n)) && FitsSigned(n)
    ensures Literal(ts, pos) == n
  {
    hide Wrap;
    var b, w := Dword(n), Wrap(n);
    DwordDigits(w);
    assert ts[pos..pos + 4] == b;
    assert Peek(ts, pos) == ts[pos..pos + 4][0] == b[0];
    assert Peek(ts, pos + 1) == ts[pos..pos + 4][1] == b[1];
    assert Peek(ts, pos + 2) == ts[pos..pos + 4][2] == b[2];
    assert Peek(ts, pos + 3) == ts[pos..pos + 4][3] == b[3];
    SignedBack(n);
  }

  lemma SignedBack(n: int)
    requires FitsSigned(n)
    ensures Signed(Wrap(n)) == n
  {
  }

  /** The outcome reading should have when a tree ends at `end`. */
  function Expected(t: Tree, ts: seq<byte>, vars: Store, l: nat, end: nat): Result
    requires l <= 5 && Placed(t, 0)
  {
    var v := Value(t, vars);
    if v.Num? then Onward(ts, vars, l, v.n, end) else Without(v)
  }

  /** Reading a written tree at the level where it is placed gives its value
      and goes on behind it, or ends as its evaluation does. */
  lemma {:induction false} Reads(t: Tree, l: nat, ts: seq<byte>, vars: Store, pos: nat)
    requires l <= 5 && Placed(t, l) && At(ts, pos, Written(t))
    requires Stop(ts, pos + |Written(t)|, Ahead(l))
    ensures Placed(t, 0)
    ensures Parse(ts, vars, l, pos) == Expected(t, ts, vars, l, pos + |Written(t)|)
    decreases t, 2 * (5 - l) + 4
  {
    hide At, Stop, Value, Written, Skip, Rest, Peek, Primary;
    Lower(t, l, 0);
    if l == 5 {
      ReadsPrimary(t, ts, vars, pos);
      PrimaryIs(ts, vars, pos);
    } else if t.Bin? && Prec(t.op) == l {
      if l == 2 { ReadsComparison(t, ts, vars, pos); } else { ReadsChain(t, ts, vars, pos); }
    } else {
      ReadsInner(t, l, ts, vars, pos);
    }
  }

  lemma PrimaryIs(ts: seq<byte>, vars: Store, pos: nat)
    ensures Parse(ts, vars, 5, pos) == Primary(ts, vars, pos)
  {
  }

  lemma ParseIs(ts: seq<byte>, vars: Store, l: nat, pos: nat)
    requires l < 5
    ensures var a := Parse(ts, vars, l + 1, pos);
            Parse(ts, vars, l, pos) == if !a.Done? then a else Rest(ts, vars, l, a.val, a.pos)
  {
  }

  lemma StopHigher(ts: seq<byte>, pos: nat, l: nat, m: nat)
    requires Stop(ts, pos, l) && l <= m
    ensures Stop(ts, pos, m)
  {
  }

  /** A tree that belongs to a higher level is read there first. */
  lemma {:induction false} ReadsInner(t: Tree, l: nat, ts: seq<byte>, vars: Store, pos: nat)
    requires l < 5 && Placed(t, l) && At(ts, pos, Written(t)) && !(t.Bin? && Prec(t.op) == l) && Placed(t, 0)
    requires Stop(ts, pos + |Written(t)|, Ahead(l))
    ensures Parse(ts, vars, l, pos) == Expected(t, ts, vars, l, pos + |Written(t)|)
    decreases t, 2 * (5 - l) + 3
  {
    hide At, Stop, Value, Written, Skip, Rest, Peek, Primary, Parse;
    var end := pos + |Written(t)|;
    PlacedHigher(t, l);
    StopHigher(ts, end, Ahead(l), Ahead(l + 1));
    Reads(t, l + 1, ts, vars, pos);
    ParseIs(ts, vars, l, pos);
    var v := Value(t, vars);
    if v.Num? {
      if l == 4 {
        // a primary leaves its own end
      } else {
        StopHigher(ts, end, Ahead(l), l + 1);
        OnwardStops(ts, vars, l + 1, v.n, end);
        RestSkips(ts, vars, l, v.n, end);
      }
      if l == 2 { RestStops(ts, vars, v.n, end); }
    }
  }

  lemma PlacedHigher(t: Tree, l: nat)
    requires Placed(t, l) && l < 5 && !(t.Bin? && Prec(t.op) == l)
    ensures Placed(t, l + 1)
  {
  }

  lemma RestStops(ts: seq<byte>, vars: Store, v: int, pos: nat)
    requires Stop(ts, pos, 2)
    ensures Rest(ts, vars, 2, v, pos) == Done(v, Skip(ts, pos))
  {
  }

  /** How the parts of a binary tree stand in the text. */
  lemma BinParts(t: Tree, ts: seq<byte>, pos: nat)
    requires t.Bin? && At(ts, pos, Written(t))
    ensures var e1 := pos + |Written(t.left)|;
            var p2 := e1 + t.gap + 1;
            && At(ts, pos, Written(t.left)) && At(ts, p2, Written(t.right))
            && p2 + |Written(t.right)| == pos + |Written(t)|
            && Skip(ts, e1) == e1 + t.gap && Peek(ts, e1 + t.gap) == Token(t.op)
            && Stop(ts, e1, Prec(t.op) + 1)
  {
    var a, m, b := Written(t.left), Spaces(t.gap) + [Token(t.op)], Written(t.right);
    AtSplit(ts, pos, a + m, b);
    AtSplit(ts, pos, a, m);
    SkipTo(ts, pos + |a|, t.gap, Token(t.op));
    StopAtOp(ts, pos + |a|, t.gap, t.op);
  }

  lemma ValueBin(t: Tree, vars: Store)
    requires t.Bin? && Placed(t, 0)
    ensures Placed(t.left, 0) && Placed(t.right, 0)
    ensures var x, y := Value(t.left, vars), Value(t.right, vars);
            Value(t, vars) == if !x.Num? then x else if !y.Num? then y else Combine(t.op, x.n, y.n)
  {
    Lower(t.left, if Prec(t.op) == 2 then 3 else Prec(t.op), 0);
    Lower(t.right, Prec(t.op) + 1, 0);
  }

  lemma RestOne(ts: seq<byte>, vars: Store, op: Op, left: int, pos: nat)
    requires Peek(ts, Skip(ts, pos)) == Token(op)
    ensures var l := Prec(op);
            var b := Parse(ts, vars, l + 1, Skip(ts, pos) + 1);
            Rest(ts, vars, l, left, pos) ==
            if !b.Done? then b
            else
              var v := Combine(op, left, b.val);
              if !v.Num? then Without(v) else if l == 2 then Done(v.n, b.pos) else Rest(ts, vars, l, v.n, b.pos)
  {
  }

  lemma RestNone(ts: seq<byte>, vars: Store, l: nat, left: int, pos: nat)
    requires l <= 4 && OpAt(l, Peek(ts, Skip(ts, pos))).None?
    ensures Rest(ts, vars, l, left, pos) == Done(left, Skip(ts, pos))
  {
  }

  lemma {:induction false} ReadsChain(t: Tree, ts: seq<byte>, vars: Store, pos: nat)
    requires t.Bin? && Prec(t.op) != 2 && Placed(t, Prec(t.op)) && Placed(t, 0) && At(ts, pos, Written(t))
    requires Stop(ts, pos + |Written(t)|, Prec(t.op) + 1)
    ensures Parse(ts, vars, Prec(t.op), pos) == Expected(t, ts, vars, Prec(t.op), pos + |Written(t)|)
    decreases t, 0
  {
    hide At, Stop, Value, Written, Skip, Rest, Peek, Primary, Parse, Combine, OpAt;
    var l, end := Prec(t.op), pos + |Written(t)|;
    var e1 := pos + |Written(t.left)|;
    BinParts(t, ts, pos);
    ValueBin(t, vars);
    Reads(t.left, l, ts, vars, pos);
    var x := Value(t.left, vars);
    if x.Num? {
      RestOne(ts, vars, t.op, x.n, e1);
      StopHigher(ts, end, l + 1, Ahead(l + 1));
      Reads(t.right, l + 1, ts, vars, e1 + t.gap + 1);
      var y := Value(t.right, vars);
      if y.Num? {
        if l < 4 { OnwardStops(ts, vars, l + 1, y.n, end); }
        var v := Combine(t.op, x.n, y.n);
        if v.Num? { RestSkips(ts, vars, l, v.n, end); }
      }
    }
  }

  lemma {:induction false} ReadsComparison(t: Tree, ts: seq<byte>, vars: Store, pos: nat)
    requires t.Bin? && Prec(t.op) == 2 && Placed(t, 2) && Placed(t, 0) && At(ts, pos, Written(t))
    requires Stop(ts, pos + |Written(t)|, 2)
    ensures Parse(ts, vars, 2, pos) == Expected(t, ts, vars, 2, pos + |Written(t)|)
    decreases t, 0
  {
    hide At, Stop, Value, Written, Skip, Rest, Peek, Primary, Parse, Combine, OpAt;
    var end := pos + |Written(t)|;
    var e1 := pos + |Written(t.left)|;
    BinParts(t, ts, pos);
    ValueBin(t, vars);
    StopHigher(ts, e1, 3, 4);
    Reads(t.left, 3, ts, vars, pos);
    ParseIs(ts, vars, 2, pos);
    var x := Value(t.left, vars);
    if x.Num? {
      OnwardStops(ts, vars, 3, x.n, e1);
      SkipTwice(ts, e1);
      RestOne(ts, vars, t.op, x.n, Skip(ts, e1));
      StopHigher(ts, end, 2, 4);
      StopHigher(ts, end, 2, 3);
      Reads(t.right, 3, ts, vars, e1 + t.gap + 1);
      var y := Value(t.right, vars);
      if y.Num? { OnwardStops(ts, vars, 3, y.n, end); }
    }
  }

  lemma {:induction false} ReadsPrimary(t: Tree, ts: seq<byte>, vars: Store, pos: nat)
    requires Placed(t, 5) && Placed(t, 0) && At(ts, pos, Written(t)) && Stop(ts, pos + |Written(t)|, 6)
    ensures Primary(ts, vars, pos) == Expected(t, ts, vars, 5, pos + |Written(t)|)
    decreases t, 2
  {
    hide Written, Value, Parse, Skip, Spaces, Dword;
    if t.Lit? {
      WrittenLit(t);
      AtSplit(ts, pos, Spaces(t.gap) + [TOK_NUM], Dword(t.n));
      SkipTo(ts, pos, t.gap, TOK_NUM);
      LiteralBack(ts, pos + t.gap + 1, t.n);
      ValueLeaf(t, vars);
    } else if t.Var? {
      ReadsVar(t, ts, vars, pos);
    } else if t.Neg? || t.Not? {
      ReadsPrefix(t, ts, vars, pos);
    } else if t.Group? {
      ReadsGroup(t, ts, vars, pos);
    } else {
      ReadsCall(t, ts, vars, pos);
    }
  }

  lemma WrittenLit(t: Tree)
    requires t.Lit?
    ensures Written(t) == Spaces(t.gap) + [TOK_NUM] + Dword(t.n) && |Dword(t.n)| == 4
  {
  }

  lemma ValueLeaf(t: Tree, vars: Store)
    requires Placed(t, 0)
    ensures t.Lit? ==> Value(t, vars) == Num(t.n)
    ensures t.Var? ==> Value(t, vars) == Num(vars[VarSlot(t.letter, t.digit)])
  {
  }

  lemma VarParts(t: Tree, ts: seq<byte>, pos: nat)
    requires t.Var? && Placed(t, 0) && At(ts, pos, Written(t)) && Stop(ts, pos + |Written(t)|, 6)
    ensures var p := pos + t.gap;
            && Skip(ts, pos) == p && Peek(ts, p) == t.letter
            && (t.digit.Some? ==> Peek(ts, p + 1) == 48 + t.digit.value && p + 2 == pos + |Written(t)|)
            && (t.digit.None? ==> !Digit(Peek(ts, p + 1)) && Peek(ts, p + 1) != DOLLAR && p + 1 == pos + |Written(t)|)
  {
    hide Skip, Spaces, OpAt;
    if t.digit.Some? {
      var d := 48 + t.digit.value;
      assert Written(t) == Spaces(t.gap) + [t.letter] + [d];
      AtSplit(ts, pos, Spaces(t.gap) + [t.letter], [d]);
      AtOne(ts, pos + t.gap + 1, d);
    } else {
      assert Written(t) == Spaces(t.gap) + [t.letter];
    }
    SkipTo(ts, pos, t.gap, t.letter);
  }

  lemma ReadsVar(t: Tree, ts: seq<byte>, vars: Store, pos: nat)
    requires t.Var? && Placed(t, 0) && At(ts, pos, Written(t)) && Stop(ts, pos + |Written(t)|, 6)
    ensures Primary(ts, vars, pos) == Expected(t, ts, vars, 5, pos + |Written(t)|)
  {
    hide Skip, Parse, Written, Value, At, Stop, Peek;
    ValueLeaf(t, vars);
    VarParts(t, ts, pos);
  }

  lemma WrittenPrefix(t: Tree)
    requires t.Neg? || t.Not?
    ensures Written(t) == Spaces(t.gap) + [if t.Neg? then MINUS else TOK_NOT] + Written(t.arg)
  {
  }

  lemma ValuePrefix(t: Tree, vars: Store)
    requires (t.Neg? || t.Not?) && Placed(t, 0)
    ensures Placed(t.arg, 0)
    ensures var v := Value(t.arg, vars);
            Value(t, vars) ==
            if !v.Num? then v else if t.Neg? then Num(Int32(-v.n)) else Num(if v.n != 0 then 0 else 1)
  {
    Lower(t.arg, 5, 0);
  }

  lemma {:induction false} ReadsPrefix(t: Tree, ts: seq<byte>, vars: Store, pos: nat)
    requires (t.Neg? || t.Not?) && Placed(t, 0) && At(ts, pos, Written(t)) && Stop(ts, pos + |Written(t)|, 6)
    ensures Primary(ts, vars, pos) == Expected(t, ts, vars, 5, pos + |Written(t)|)
    decreases t, 1
  {
    hide At, Stop, Skip, Spaces, Parse, Written, Value, Peek;
    var tok := if t.Neg? then MINUS else TOK_NOT;
    WrittenPrefix(t);
    ValuePrefix(t, vars);
    AtSplit(ts, pos, Spaces(t.gap) + [tok], Written(t.arg));
    SkipTo(ts, pos, t.gap, tok);
    Lower(t.arg, 5, 0);
    ReadsPrimary(t.arg, ts, vars, pos + t.gap + 1);
  }

  /** Between parentheses: the inner tree, read at the lowest level. */
  lemma {:induction false} ReadsInside(a: Tree, gap2: nat, ts: seq<byte>, vars: Store, pos: nat)
    requires Placed(a, 0) && At(ts, pos, Written(a) + (Spaces(gap2) + [CLOSE]))
    ensures var r := Parse(ts, vars, 0, pos);
            var v := Value(a, vars);
            if v.Num? then r.Done? && r.val == v.n && PastClose(ts, r.pos) == pos + |Written(a)| + gap2 + 1
            else r == Without(v)
    decreases a, 99
  {
    hide At, Stop, Skip, Spaces, Parse, Written, Value, PastClose;
    AtSplit(ts, pos, Written(a), Spaces(gap2) + [CLOSE]);
    var end := pos + |Written(a)|;
    StopAtClose(ts, end, gap2);
    StopHigher(ts, end, 0, 1);
    Reads(a, 0, ts, vars, pos);
    var v := Value(a, vars);
    if v.Num? { OnwardStops(ts, vars, 0, v.n, end); }
  }

  lemma WrittenGroup(t: Tree)
    requires t.Group?
    ensures var inner := Written(t.arg) + (Spaces(t.gap2) + [CLOSE]);
            Written(t) == Spaces(t.gap) + [OPEN] + inner && |inner| == |Written(t.arg)| + t.gap2 + 1
  {
  }

  lemma WrittenCall(t: Tree)
    requires t.Abs? || t.Whole?
    ensures var inner := Written(t.arg) + (Spaces(t.gap2) + [CLOSE]);
            var call := Spaces(t.gap1) + [OPEN];
            && Written(t) == Spaces(t.gap) + [if t.Abs? then TOK_ABS else TOK_INT] + (call + inner)
            && |inner| == |Written(t.arg)| + t.gap2 + 1 && |call| == t.gap1 + 1
  {
  }

  lemma ValueCall(t: Tree, vars: Store)
    requires (t.Abs? || t.Whole?) && Placed(t, 0)
    ensures Placed(t.arg, 0)
    ensures var v := Value(t.arg, vars);
            Value(t, vars) ==
            if !v.Num? || t.Whole? then v else Num(if v.n < 0 then Int32(-v.n) else v.n)
  {
  }

  lemma {:induction false} ReadsGroup(t: Tree, ts: seq<byte>, vars: Store, pos: nat)
    requires t.Group? && Placed(t, 0) && At(ts, pos, Written(t))
    ensures Primary(ts, vars, pos) == Expected(t, ts, vars, 5, pos + |Written(t)|)
    decreases t, 1
  {
    hide At, Skip, Spaces, Parse, PastClose, Written, Peek;
    var inner := Written(t.arg) + (Spaces(t.gap2) + [CLOSE]);
    WrittenGroup(t);
    AtSplit(ts, pos, Spaces(t.gap) + [OPEN], inner);
    SkipTo(ts, pos, t.gap, OPEN);
    ReadsInside(t.arg, t.gap2, ts, vars, pos + t.gap + 1);
  }

  lemma {:induction false} ReadsCall(t: Tree, ts: seq<byte>, vars: Store, pos: nat)
    requires (t.Abs? || t.Whole?) && Placed(t, 0) && At(ts, pos, Written(t))
    ensures Primary(ts, vars, pos) == Expected(t, ts, vars, 5, pos + |Written(t)|)
    decreases t, 1
  {
    hide At, Skip, Spaces, Parse, PastClose, Written, Value, Peek;
    WrittenCall(t);
    ValueCall(t, vars);
    var tok := if t.Abs? then TOK_ABS else TOK_INT;
    var inner := Written(t.arg) + (Spaces(t.gap2) + [CLOSE]);
    var call := Spaces(t.gap1) + [OPEN];
    AtSplit(ts, pos, Spaces(t.gap) + [tok], call + inner);
    SkipTo(ts, pos, t.gap, tok);
    var p := pos + t.gap + 1;
    AtSplit(ts, p, call, inner);
    SkipTo(ts, p, t.gap1, OPEN);
    ReadsInside(t.arg, t.gap2, ts, vars, p + t.gap1 + 1);
  }

  /** A written expression of any shape, followed by something that does not
      continue it, evaluates to the value of its tree and is consumed together
      with the spaces behind it. The error flag rises exactly when a division or
      MOD carried out has a zero divisor; the processor faults exactly when one
      divides the smallest number by -1. */
  lemma Evaluates(t: Tree, before: seq<byte>, after: seq<byte>, vars: Store)
    requires Placed(t, 0)
    requires var ts := before + Written(t) + after; Stop(ts, |before| + |Written(t)|, 0)
    ensures var ts := before + Written(t) + after;
            var r, v := Parse(ts, vars, 0, |before|), Value(t, vars);
            && (r.Fail? <==> HasZero(Divisions(t, vars)))
            && (r.Faulted? <==> HasFault(Divisions(t, vars)))
            && (v.Num? <==> r.Done?) && (v.Num? ==> r == Done(v.n, Skip(ts, |before| + |Written(t)|)))
  {
    hide Stop, Skip, Parse, Written, Value, Divisions, HasZero, HasFault;
    var ts := before + Written(t) + after;
    var end := |before| + |Written(t)|;
    assert ts[|before|..end] == Written(t);
    StopHigher(ts, end, 0, 1);
    Reads(t, 0, ts, vars, |before|);
    ValueExists(t, vars);
    var v := Value(t, vars);
    if v.Num? { OnwardStops(ts, vars, 0, v.n, end); }
  }

  lemma StopAtEnd(ts: seq<byte>)
    ensures Stop(ts, |ts|, 0)
  {
  }

  /** The fault can be had: 2147483648 / -1, whose literal is stored as the
      smallest number. */
  lemma FaultReached(vars: Store)
    ensures var t := Bin(Lit(0, -0x8000_0000), 0, OpDiv, Neg(0, Lit(0, 1)));
            Placed(t, 0) && Parse(Written(t), vars, 0, 0) == Faulted
  {
    hide Parse, Skip, Stop, Written, Divisions, HasFault, HasZero;
    var l, r := Lit(0, -0x8000_0000), Neg(0, Lit(0, 1));
    var t := Bin(l, 0, OpDiv, r);
    assert Placed(l, 4) && Placed(r, 5);
    assert Value(l, vars) == Num(-0x8000_0000) && Value(r, vars) == Num(-1);
    assert Value(t, vars) == Fault;
    ValueExists(t, vars);
    assert [] + Written(t) + [] == Written(t);
    StopAtEnd(Written(t));
    Evaluates(t, [], [], vars);
  }
}
