/** The items the parser emits for each tree, as a function of the next free label. */
module Compile {
  import opened Word32
  import opened Machine
  import opened Syntax

  const PUSH: seq<Item> := [Op(Push(Eax))]
  const POP: seq<Item> := [Op(Pop(Ecx))]

  function LoadVar(x: Variable): Item {
    match x
    case Local(d) => Op(LoadLocal(d))
    case Global(o) => Op(LoadAbs(o))
  }

  function StoreVar(x: Variable): Item {
    match x
    case Local(d) => Op(StoreLocal(d))
    case Global(o) => Op(StoreAbs(o))
  }

  function UnaryCode(op: UnOp): seq<Item> {
    match op
    case Negate => [Op(NegEax)]
    case LogicalNot => [Op(Alu(Test, Eax, Eax)), Op(Setcc(E)), Op(Movzx)]
    case BitwiseNot => [Op(NotEax)]
  }

  /** Left operand in ECX, right operand in EAX, result in EAX. */
  function BinaryCode(op: BinOp): seq<Item> {
    match op
    case Plus => [Op(Alu(Add, Eax, Ecx))]
    case Minus => [Op(Alu(Sub, Ecx, Eax)), Op(Mov(Eax, Ecx))]
    case Times => [Op(Imul)]
    case Divide => [Op(Xchg), Op(Cdq), Op(Idiv)]
    case Modulo => [Op(Xchg), Op(Cdq), Op(Idiv), Op(Mov(Eax, Edx))]
    case BitwiseAnd => [Op(Alu(And, Eax, Ecx))]
    case BitwiseOr => [Op(Alu(Or, Eax, Ecx))]
    case BitwiseXor => [Op(Alu(Xor, Eax, Ecx))]
    case ShiftLeft => [Op(Xchg), Op(ShlCl)]
    case ShiftRight => [Op(Xchg), Op(ShrCl)]
    case Compare(cc) => [Op(Alu(Cmp, Ecx, Eax)), Op(Setcc(cc)), Op(Movzx)]
  }

  function Go(l: int): seq<Item> { [Op(Jump(Always, l))] }

  function TestAndGo(w: When, l: int): seq<Item> { [Op(Alu(Test, Eax, Eax)), Op(Jump(w, l))] }

  /** Swap the dwords at ESP+4i and ESP+4(n-1-i). */
  function SwapCode(i: nat, n: nat): seq<Item>
    requires i < n
  {
    [ Op(LoadStack(Eax, 4 * i)), Op(LoadStack(Ecx, 4 * (n - 1 - i))),
      Op(StoreStack(Ecx, 4 * i)), Op(StoreStack(Eax, 4 * (n - 1 - i))) ]
  }

  /** The swaps number i, i+1, ... of the reversal of n dwords. */
  function ReverseCode(i: nat, n: nat): seq<Item>
    requires i <= n / 2
    decreases n / 2 - i
  {
    if i == n / 2 then [] else SwapCode(i, n) + ReverseCode(i + 1, n)
  }

  function SyscallCode(index: Word): seq<Item> {
    [Op(Mov(Ebx, Esp)), Op(LoadImm(index)), Op(Int80)]
  }

  function DropCode(n: nat): seq<Item> {
    if n == 0 then [] else [Op(AddEsp(Wrap(4 * n)))]
  }

  function CallCode(index: Word, n: nat): seq<Item> {
    ReverseCode(0, n) + (SyscallCode(index) + DropCode(n))
  }

  /** A call of function `f`, which finds its arguments as they were pushed. */
  function InvokeCode(f: int, n: nat): seq<Item> {
    [Op(Call(f))] + DropCode(n)
  }

  // ----- expressions -----

  /** How many labels an expression allocates. */
  function Labels(e: Expr): nat {
    match e
    case Num(_) => 0
    case Str(_) => 0
    case Var(_) => 0
    case AddressOf(_) => 0
    case Deref(p) => Labels(p)
    case Unary(_, e1) => Labels(e1)
    case Binary(_, l, r) => Labels(l) + Labels(r)
    case AndAlso(l, r) => Labels(l) + Labels(r) + 2
    case OrElse(l, r) => Labels(l) + Labels(r) + 2
    case Assign(_, e1) => Labels(e1)
    case AssignOp(_, _, e1) => Labels(e1)
    case StoreThrough(p, e1) => Labels(p) + Labels(e1)
    case Builtin(_, args) => ArgLabels(args)
    case CallFun(_, args) => ArgLabels(args)
  }

  function ArgLabels(es: Exprs): nat {
    match es
    case Nil => 0
    case Cons(h, t) => Labels(h) + ArgLabels(t)
  }

  /** The end of `&&` (when = IfZero) and `||` (when = IfNonZero): reached by falling
      through when neither side decided, or at label `skip` when one did. */
  function Verdict(when: When, skip: int, end: int): seq<Item> {
    [Op(LoadImm(Truth(when == IfZero)))] + (Go(end) +
      ([Label(skip)] + ([Op(LoadImm(Truth(when != IfZero)))] + [Label(end)])))
  }

  /** The tail of `&&` and `||`: the left value is in EAX, `right` is the code of the right side. */
  function ShortTail(right: seq<Item>, when: When, skip: int, end: int): seq<Item> {
    TestAndGo(when, skip) + (right + (TestAndGo(when, skip) + Verdict(when, skip, end)))
  }

  function ExprCode(e: Expr, nl: nat): seq<Item> {
    match e
    case Num(v) => [Op(LoadImm(v))]
    case Str(o) => [Op(LoadStr(o))]
    case Var(x) => [LoadVar(x)]
    case AddressOf(d) => [Op(LeaLocal(d))]
    case Deref(p) => ExprCode(p, nl) + [Op(LoadInd)]
    case Unary(op, e1) => ExprCode(e1, nl) + UnaryCode(op)
    case Binary(op, l, r) =>
      ExprCode(l, nl) + (PUSH + (ExprCode(r, nl + Labels(l)) + (POP + BinaryCode(op))))
    case AndAlso(l, r) =>
      var no := nl + Labels(l);
      ExprCode(l, nl) + ShortTail(ExprCode(r, no + 1), IfZero, no, no + 1 + Labels(r))
    case OrElse(l, r) =>
      var yes := nl + Labels(l);
      ExprCode(l, nl) + ShortTail(ExprCode(r, yes + 1), IfNonZero, yes, yes + 1 + Labels(r))
    case Assign(x, e1) => ExprCode(e1, nl) + [StoreVar(x)]
    case AssignOp(op, x, e1) =>
      [LoadVar(x)] + (PUSH + (ExprCode(e1, nl) + (POP + (BinaryCode(op) + [StoreVar(x)]))))
    case StoreThrough(p, e1) =>
      ExprCode(p, nl) + (PUSH + (ExprCode(e1, nl + Labels(p)) + (POP + [Op(StoreInd)])))
    case Builtin(index, args) => ArgsCode(args, nl) + CallCode(index, Count(args))
    case CallFun(f, args) => ArgsCode(args, nl) + InvokeCode(f, Count(args))
  }

  function ArgsCode(es: Exprs, nl: nat): seq<Item> {
    match es
    case Nil => []
    case Cons(h, t) => ExprCode(h, nl) + (PUSH + ArgsCode(t, nl + Labels(h)))
  }

  // ----- statements -----

  function OptLabels(oe: OptExpr): nat {
    match oe
    case NoExpr => 0
    case TheExpr(e) => Labels(e)
  }

  /** Code for an optional expression; `missing` stands in when there is none. */
  function OptCode(oe: OptExpr, nl: nat, missing: seq<Item>): seq<Item> {
    match oe
    case NoExpr => missing
    case TheExpr(e) => ExprCode(e, nl)
  }

  function StmtLabels(s: Stmt): nat
    decreases s, 0
  {
    match s
    case Skip => 0
    case Do(e) => Labels(e)
    case DoCall(_, args) => ArgLabels(args)
    case Seq(s1, s2) => StmtLabels(s1) + StmtLabels(s2)
    case If(c, s1) => Labels(c) + 1 + StmtLabels(s1)
    case IfElse(c, s1, s2) => Labels(c) + 1 + StmtLabels(s1) + 1 + StmtLabels(s2)
    case While(c, s1) => 2 + Labels(c) + StmtLabels(s1)
    case For(init, cond, step, s1) => OptLabels(init) + ForLabels(cond, step, s1)
    case DoWhile(s1, c) => 3 + StmtLabels(s1) + Labels(c)
    case Break => 0
    case Continue => 0
    case Return(r) => OptLabels(r)
  }

  function ForLabels(cond: OptExpr, step: OptExpr, s: Stmt): nat
    decreases s, 1
  {
    3 + OptLabels(cond) + 1 + OptLabels(step) + StmtLabels(s)
  }

  /** Labels a `break` or `continue` jumps to, innermost loop last. */
  datatype Loop = Loop(brk: int, cont: int)

  /** Every break and continue is inside a loop. */
  predicate WellNested(s: Stmt, depth: nat) {
    match s
    case Skip => true
    case Do(_) => true
    case DoCall(_, _) => true
    case Seq(s1, s2) => WellNested(s1, depth) && WellNested(s2, depth)
    case If(_, s1) => WellNested(s1, depth)
    case IfElse(_, s1, s2) => WellNested(s1, depth) && WellNested(s2, depth)
    case While(_, s1) => WellNested(s1, depth + 1)
    case For(_, _, _, s1) => WellNested(s1, depth + 1)
    case DoWhile(s1, _) => WellNested(s1, depth + 1)
    case Break => depth > 0
    case Continue => depth > 0
    case Return(_) => true
  }

  // The layout of each statement around the code of its parts.

  function IfShape(no: int, test: seq<Item>, body: seq<Item>): seq<Item> {
    test + (TestAndGo(IfZero, no) + (body + [Label(no)]))
  }

  function IfElseShape(no: int, end: int, test: seq<Item>, yesBody: seq<Item>, noBody: seq<Item>): seq<Item> {
    test + (TestAndGo(IfZero, no) + (yesBody + (Go(end) + ([Label(no)] + (noBody + [Label(end)])))))
  }

  function WhileShape(top: int, end: int, test: seq<Item>, body: seq<Item>): seq<Item> {
    [Label(top)] + (test + (TestAndGo(IfZero, end) + (body + (Go(top) + [Label(end)]))))
  }

  function DoShape(top: int, end: int, cont: int, body: seq<Item>, test: seq<Item>): seq<Item> {
    [Label(top)] + (body + ([Label(cont)] + (test + (TestAndGo(IfNonZero, top) + [Label(end)]))))
  }

  /** The step is emitted before the body and jumped over. */
  function ForShape(top: int, end: int, stepL: int, bodyL: int, test: seq<Item>, next: seq<Item>,
                    body: seq<Item>): seq<Item> {
    [Label(top)] + (test + (TestAndGo(IfZero, end) + (Go(bodyL) + ([Label(stepL)] + (next + (Go(top) +
      ([Label(bodyL)] + (body + (Go(stepL) + [Label(end)])))))))))
  }

  function StmtCode(s: Stmt, nl: nat, loops: seq<Loop>, ret: int): seq<Item>
    requires WellNested(s, |loops|)
    decreases s, 1
  {
    match s
    case Skip => []
    case Do(e) => ExprCode(e, nl)
    case DoCall(f, args) => ArgsCode(args, nl) + InvokeCode(f, Count(args))
    case Seq(s1, s2) => StmtCode(s1, nl, loops, ret) + StmtCode(s2, nl + StmtLabels(s1), loops, ret)
    case If(c, s1) =>
      var no := nl + Labels(c);
      IfShape(no, ExprCode(c, nl), StmtCode(s1, no + 1, loops, ret))
    case IfElse(c, s1, s2) =>
      var no := nl + Labels(c);
      var end := no + 1 + StmtLabels(s1);
      IfElseShape(no, end, ExprCode(c, nl), StmtCode(s1, no + 1, loops, ret), StmtCode(s2, end + 1, loops, ret))
    case While(c, s1) =>
      WhileShape(nl, nl + 1, ExprCode(c, nl + 2), StmtCode(s1, nl + 2 + Labels(c), loops + [Loop(nl + 1, nl)], ret))
    case For(init, cond, step, s1) =>
      OptCode(init, nl, []) + ForCode(cond, step, s1, nl + OptLabels(init), loops, ret)
    case DoWhile(s1, c) =>
      DoShape(nl, nl + 1, nl + 2, StmtCode(s1, nl + 3, loops + [Loop(nl + 1, nl + 2)], ret),
              ExprCode(c, nl + 3 + StmtLabels(s1)))
    case Break => Go(loops[|loops| - 1].brk)
    case Continue => Go(loops[|loops| - 1].cont)
    case Return(r) => OptCode(r, nl, []) + Go(ret)
  }

  /** A `for` after its initialiser. */
  function ForCode(cond: OptExpr, step: OptExpr, s: Stmt, nl: nat, loops: seq<Loop>, ret: int): seq<Item>
    requires WellNested(s, |loops| + 1)
    decreases s, 2
  {
    var body := nl + 3 + OptLabels(cond);
    ForShape(nl, nl + 1, nl + 2, body, OptCode(cond, nl + 3, [Op(LoadImm(1))]), OptCode(step, body + 1, []),
             StmtCode(s, body + 1 + OptLabels(step), loops + [Loop(nl + 1, nl + 2)], ret))
  }

  // ----- functions -----

  const PROLOGUE: seq<Item> :=
    [ Op(Push(Ebp)), Op(Mov(Ebp, Esp)), Op(SubEsp(128)), Op(Push(Ebx)), Op(Push(Esi)), Op(Push(Edi)) ]

  const EPILOGUE: seq<Item> :=
    [ Op(Pop(Edi)), Op(Pop(Esi)), Op(Pop(Ebx)), Op(Mov(Esp, Ebp)), Op(Pop(Ebp)), Op(Ret) ]

  /** A whole function: its epilogue label is allocated first. */
  function FunctionCode(s: Stmt, nl: nat): seq<Item>
    requires WellNested(s, 0)
  {
    PROLOGUE + (StmtCode(s, nl + 1, [], nl) + ([Label(nl)] + EPILOGUE))
  }
}
