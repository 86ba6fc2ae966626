/** The C subset the compiler accepts, as trees, with its meaning on signed 32-bit
    integers. Nothing here mentions registers, labels or the stack. */
module Syntax {
  import opened Basics
  import opened Word32
  import opened Machine

  /** A scalar variable: a frame offset from EBP, or an offset in the data section. */
  datatype Variable = Local(disp: Disp) | Global(off: Word)

  datatype UnOp = Negate | LogicalNot | BitwiseNot

  datatype BinOp =
    | Plus | Minus | Times | Divide | Modulo
    | BitwiseAnd | BitwiseOr | BitwiseXor
    | ShiftLeft | ShiftRight
    | Compare(cc: Cond)

  datatype Expr =
    | Num(v: Word)
    | Str(off: Word)
    | Var(x: Variable)
    | AddressOf(disp: Disp)
    | Deref(p: Expr)
    | Unary(uop: UnOp, e: Expr)
    | Binary(bop: BinOp, l: Expr, r: Expr)
    | AndAlso(l: Expr, r: Expr)
    | OrElse(l: Expr, r: Expr)
    | Assign(x: Variable, e: Expr)
    | AssignOp(aop: BinOp, x: Variable, e: Expr)
    | StoreThrough(p: Expr, e: Expr)
    | Builtin(index: Word, args: Exprs)
    | CallFun(f: int, args: Exprs)

  datatype Exprs = Nil | Cons(head: Expr, tail: Exprs)

  datatype OptExpr = NoExpr | TheExpr(e: Expr)

  datatype Stmt =
    | Skip
    | Do(e: Expr)
    | DoCall(f: int, args: Exprs)
    | Seq(s1: Stmt, s2: Stmt)
    | If(c: Expr, s: Stmt)
    | IfElse(c: Expr, s: Stmt, t: Stmt)
    | While(c: Expr, s: Stmt)
    | For(init: OptExpr, cond: OptExpr, step: OptExpr, s: Stmt)
    | DoWhile(s: Stmt, c: Expr)
    | Break
    | Continue
    | Return(result: OptExpr)

  function Count(es: Exprs): nat {
    match es
    case Nil => 0
    case Cons(_, t) => 1 + Count(t)
  }

  /** What the source program can see: its own memory, where a variable never set has no
      value, and the system calls made so far. */
  datatype World = World(mem: Cells, trace: seq<Event>)

  /** What calling a function means: from its number, its arguments, where they end on the
      stack, and the world, to its value (if it returns one) and the world afterwards. */
  type Meaning = (int, seq<Word>, int, World) -> Option<(Option<Word>, World)>

  /** Which calls do not come back, from the same arguments. */
  type Unending = (int, seq<Word>, int, World) -> bool

  /** The functions there are to call: what calls mean, which of them are endless, how many
      dwords of stack a call may take, and how many steps an endless one lasts at least. */
  datatype Callees = Callees(call: Meaning, endless: Unending, room: nat, lasts: nat)

  /** Where the running function's variables, its stack and the sections are, and what it
      can call. */
  datatype Env = Env(ebp: Word, sp: int, dbase: int, sbase: int, kernel: Kernel, callees: Callees)

  /** With `n` more dwords on the stack. */
  function Down(env: Env, n: nat): Env {
    env.(sp := env.sp - 4 * n)
  }

  function AddrOf(env: Env, x: Variable): Word {
    match x
    case Local(d) => Wrap(env.ebp + d)
    case Global(o) => Wrap(env.dbase + o)
  }

  function UnaryValue(op: UnOp, v: Word): Word {
    match op
    case Negate => Wrap(-Signed(v))
    case LogicalNot => if Signed(v) == 0 then 1 else 0
    case BitwiseNot => Wrap(-Signed(v) - 1)
  }

  predicate Compares(cc: Cond, a: int, b: int) {
    match cc
    case E => a == b
    case Ne => a != b
    case L => a < b
    case G => a > b
    case Le => a <= b
    case Ge => a >= b
  }

  /** Signed 32-bit arithmetic; division by zero and overflow have no value. Right shift
      is logical and shift counts are taken modulo 32, as the emitted code does. */
  function BinaryValue(op: BinOp, a: Word, b: Word): Option<Word> {
    var x, y := Signed(a), Signed(b);
    match op
    case Plus => Some(Wrap(x + y))
    case Minus => Some(Wrap(x - y))
    case Times => Some(Wrap(x * y))
    case Divide => if y == 0 || !FitsSigned(TruncDiv(x, y)) then None else Some(Wrap(TruncDiv(x, y)))
    case Modulo => if y == 0 || !FitsSigned(TruncDiv(x, y)) then None else Some(Wrap(TruncRem(x, y)))
    case BitwiseAnd => Some(Bitwise(BitAnd, a, b))
    case BitwiseOr => Some(Bitwise(BitOr, a, b))
    case BitwiseXor => Some(Bitwise(BitXor, a, b))
    case ShiftLeft => Some(Wrap(a * Pow2(b % 32)))
    case ShiftRight => Some(Wrap(a / Pow2(b % 32)))
    case Compare(cc) => Some(if Compares(cc, x, y) then 1 else 0)
  }

  function Truth(b: bool): Word { if b then 1 else 0 }

  /** Value of an expression and the world after it; None when the C program has no
      defined result (division by zero, access outside its memory, a call the kernel
      does not answer). */
  function Eval(e: Expr, env: Env, w: World): Option<(Word, World)> {
    match e
    case Num(v) => Some((v, w))
    case Str(o) => Some((Wrap(env.sbase + o), w))
    case Var(x) => Read(AddrOf(env, x), w)
    case AddressOf(d) => Some((Wrap(env.ebp + d), w))
    case Deref(p) =>
      (match Eval(p, env, w)
       case None => None
       case Some((a, w1)) => Read(a, w1))
    case Unary(op, e1) =>
      (match Eval(e1, env, w)
       case None => None
       case Some((v, w1)) => Some((UnaryValue(op, v), w1)))
    case Binary(op, l, r) =>
      (match Eval(l, env, w)
       case None => None
       case Some((a, w1)) =>
         match Eval(r, Down(env, 1), w1)
         case None => None
         case Some((b, w2)) =>
           match BinaryValue(op, a, b)
           case None => None
           case Some(v) => Some((v, w2)))
    case AndAlso(l, r) =>
      (match Eval(l, env, w)
       case None => None
       case Some((a, w1)) =>
         if a == 0 then Some((0, w1))
         else
           match Eval(r, env, w1)
           case None => None
           case Some((b, w2)) => Some((Truth(b != 0), w2)))
    case OrElse(l, r) =>
      (match Eval(l, env, w)
       case None => None
       case Some((a, w1)) =>
         if a != 0 then Some((1, w1))
         else
           match Eval(r, env, w1)
           case None => None
           case Some((b, w2)) => Some((Truth(b != 0), w2)))
    case Assign(x, e1) =>
      (match Eval(e1, env, w)
       case None => None
       case Some((v, w1)) => Put(AddrOf(env, x), v, w1))
    case AssignOp(op, x, e1) =>
      (match Read(AddrOf(env, x), w)
       case None => None
       case Some((a, _)) =>
         match Eval(e1, Down(env, 1), w)
         case None => None
         case Some((b, w1)) =>
           match BinaryValue(op, a, b)
           case None => None
           case Some(v) => Put(AddrOf(env, x), v, w1))
    case StoreThrough(p, e1) =>
      (match Eval(p, env, w)
       case None => None
       case Some((a, w1)) =>
         match Eval(e1, Down(env, 1), w1)
         case None => None
         case Some((v, w2)) => Put(a, v, w2))
    case Builtin(index, args) =>
      (match EvalArgs(args, env, w)
       case None => None
       case Some((vs, w1)) => CallKernel(env.kernel, index, vs, w1))
    case CallFun(f, args) =>
      (match EvalArgs(args, env, w)
       case None => None
       case Some((vs, w1)) =>
         match CallFunction(env, f, vs, w1)
         case Some((Some(v), w2)) => Some((v, w2))
         case _ => None)
  }

  function Read(a: int, w: World): Option<(Word, World)> {
    if a in w.mem && w.mem[a].Some? then Some((w.mem[a].value, w)) else None
  }

  function Written(w: World, a: int, v: Word): World {
    w.(mem := w.mem[a := Some(v)])
  }

  function Put(a: int, v: Word, w: World): Option<(Word, World)> {
    if a in w.mem then Some((v, Written(w, a, v))) else None
  }

  /** A call finds its arguments on the stack, and keeps the extent of memory. */
  function CallFunction(env: Env, f: int, vs: seq<Word>, w: World): Option<(Option<Word>, World)> {
    match env.callees.call(f, vs, env.sp - 4 * |vs|, w)
    case None => None
    case Some((v, w1)) => if w1.mem.Keys == w.mem.Keys then Some((v, w1)) else None
  }

  predicate CallEndless(env: Env, f: int, vs: seq<Word>, w: World) {
    env.callees.endless(f, vs, env.sp - 4 * |vs|, w)
  }

  /** Evaluation comes to a call that is endless. */
  predicate Endless(e: Expr, env: Env, w: World)
    decreases e, 0
  {
    match e
    case Num(_) => false
    case Str(_) => false
    case Var(_) => false
    case AddressOf(_) => false
    case Deref(p) => Endless(p, env, w)
    case Unary(_, e1) => Endless(e1, env, w)
    case Binary(_, l, r) =>
      Endless(l, env, w) || (Eval(l, env, w).Some? && Endless(r, Down(env, 1), Eval(l, env, w).value.1))
    case AndAlso(l, r) =>
      Endless(l, env, w)
      || (Eval(l, env, w).Some? && Eval(l, env, w).value.0 != 0 && Endless(r, env, Eval(l, env, w).value.1))
    case OrElse(l, r) =>
      Endless(l, env, w)
      || (Eval(l, env, w).Some? && Eval(l, env, w).value.0 == 0 && Endless(r, env, Eval(l, env, w).value.1))
    case Assign(_, e1) => Endless(e1, env, w)
    case AssignOp(_, x, e1) => Read(AddrOf(env, x), w).Some? && Endless(e1, Down(env, 1), w)
    case StoreThrough(p, e1) =>
      Endless(p, env, w) || (Eval(p, env, w).Some? && Endless(e1, Down(env, 1), Eval(p, env, w).value.1))
    case Builtin(_, args) => EndlessArgs(args, env, w)
    case CallFun(f, args) => EndlessInvoke(f, args, env, w)
  }

  predicate EndlessArgs(es: Exprs, env: Env, w: World)
    decreases es, 0
  {
    match es
    case Nil => false
    case Cons(h, t) =>
      Endless(h, env, w) || (Eval(h, env, w).Some? && EndlessArgs(t, Down(env, 1), Eval(h, env, w).value.1))
  }

  predicate EndlessInvoke(f: int, args: Exprs, env: Env, w: World)
    decreases args, 1
  {
    EndlessArgs(args, env, w)
    || (EvalArgs(args, env, w).Some? &&
        CallEndless(env, f, EvalArgs(args, env, w).value.0, EvalArgs(args, env, w).value.1))
  }

  predicate EndlessOpt(oe: OptExpr, env: Env, w: World) {
    oe.TheExpr? && Endless(oe.e, env, w)
  }

  /** Arguments are evaluated left to right. */
  function EvalArgs(es: Exprs, env: Env, w: World): Option<(seq<Word>, World)> {
    match es
    case Nil => Some(([], w))
    case Cons(h, t) =>
      match Eval(h, env, w)
      case None => None
      case Some((v, w1)) =>
        match EvalArgs(t, Down(env, 1), w1)
        case None => None
        case Some((vs, w2)) => Some(([v] + vs, w2))
  }

  /** A call passes the leading arguments the handler reads, in source order. */
  function CallKernel(k: Kernel, index: Word, vs: seq<Word>, w: World): Option<(Word, World)> {
    var n := if |vs| == 0 then k.base(index) else ArgCount(k, index, vs[0]);
    if n > |vs| then None
    else
      match k.answer(index, vs[..n], w.trace, w.mem)
      case None => None
      case Some((v, writes)) =>
        if writes.Keys <= w.mem.Keys then
          Some((v, World(w.mem + Known(writes), w.trace + [Event(index, vs[..n], v)])))
        else None
  }

  // ----- statements -----

  datatype Outcome = Normal | Broke | Continued | Returned(value: Option<Word>)

  datatype Result = Done(o: Outcome, w: World) | Wrong | Unfinished

  /** What an execution that stops for want of a value is: one that has come to an endless
      call is unfinished. */
  function Halted(endless: bool): Result { if endless then Unfinished else Wrong }

  /** Big-step execution. `fuel` bounds the depth of loop unrolling only. */
  function ExecStmt(s: Stmt, env: Env, w: World, fuel: nat): Result
    decreases fuel, s
  {
    match s
    case Skip => Done(Normal, w)
    case Do(e) =>
      (match Eval(e, env, w)
       case None => Halted(Endless(e, env, w))
       case Some((_, w1)) => Done(Normal, w1))
    case DoCall(f, args) =>
      (match EvalArgs(args, env, w)
       case None => Halted(EndlessInvoke(f, args, env, w))
       case Some((vs, w1)) =>
         match CallFunction(env, f, vs, w1)
         case None => Halted(EndlessInvoke(f, args, env, w))
         case Some((_, w2)) => Done(Normal, w2))
    case Seq(s1, s2) =>
      (match ExecStmt(s1, env, w, fuel)
       case Done(Normal, w1) => ExecStmt(s2, env, w1, fuel)
       case r => r)
    case If(c, s1) =>
      (match Eval(c, env, w)
       case None => Halted(Endless(c, env, w))
       case Some((v, w1)) => if v != 0 then ExecStmt(s1, env, w1, fuel) else Done(Normal, w1))
    case IfElse(c, s1, s2) =>
      (match Eval(c, env, w)
       case None => Halted(Endless(c, env, w))
       case Some((v, w1)) => ExecStmt(if v != 0 then s1 else s2, env, w1, fuel))
    case While(c, body) =>
      (match Eval(c, env, w)
       case None => Halted(Endless(c, env, w))
       case Some((v, w1)) =>
         if v == 0 then Done(Normal, w1)
         else if fuel == 0 then Unfinished
         else
           match ExecStmt(body, env, w1, fuel - 1)
           case Done(Broke, w2) => Done(Normal, w2)
           case Done(Returned(r), w2) => Done(Returned(r), w2)
           case Done(_, w2) => ExecStmt(s, env, w2, fuel - 1)
           case r => r)
    case For(TheExpr(e), cond, step, body) =>
      (match Eval(e, env, w)
       case None => Halted(Endless(e, env, w))
       case Some((_, w1)) => ForLoop(cond, step, body, env, w1, fuel))
    case For(NoExpr, cond, step, body) => ForLoop(cond, step, body, env, w, fuel)
    case DoWhile(body, c) =>
      if fuel == 0 then Unfinished
      else
        (match ExecStmt(body, env, w, fuel - 1)
         case Done(Broke, w1) => Done(Normal, w1)
         case Done(Returned(r), w1) => Done(Returned(r), w1)
         case Done(_, w1) =>
           (match Eval(c, env, w1)
            case None => Halted(Endless(c, env, w1))
            case Some((v, w2)) =>
              if v == 0 then Done(Normal, w2) else ExecStmt(s, env, w2, fuel - 1))
         case r => r)
    case Break => Done(Broke, w)
    case Continue => Done(Continued, w)
    case Return(NoExpr) => Done(Returned(None), w)
    case Return(TheExpr(e)) =>
      match Eval(e, env, w)
      case None => Halted(Endless(e, env, w))
      case Some((v, w1)) => Done(Returned(Some(v)), w1)
  }

  /** The loop of a `for`, after its initialiser: a missing condition is true. */
  function ForLoop(cond: OptExpr, step: OptExpr, body: Stmt, env: Env, w: World, fuel: nat): Result
    decreases fuel, body, 1
  {
    match EvalOpt(cond, 1, env, w)
    case None => Halted(EndlessOpt(cond, env, w))
    case Some((v, w1)) =>
      if v == 0 then Done(Normal, w1)
      else if fuel == 0 then Unfinished
      else
        match ExecStmt(body, env, w1, fuel - 1)
        case Done(Broke, w2) => Done(Normal, w2)
        case Done(Returned(r), w2) => Done(Returned(r), w2)
        case Done(_, w2) =>
          (match EvalOpt(step, 0, env, w2)
           case None => Halted(EndlessOpt(step, env, w2))
           case Some((_, w3)) => ForLoop(cond, step, body, env, w3, fuel - 1))
        case r => r
  }

  function EvalOpt(oe: OptExpr, default: Word, env: Env, w: World): Option<(Word, World)> {
    match oe
    case NoExpr => Some((default, w))
    case TheExpr(e) => Eval(e, env, w)
  }
}
