/** Laws of the C subset: what its operators and statements mean in terms of one another. */
module Equations {
  import opened Basics
  import opened Word32
  import opened Syntax
  import opened Calls

  // ----- expressions -----

  /** De Morgan's law, side effects, undefined results and endless calls included. */
  lemma DeMorgan(a: Expr, b: Expr, env: Env, w: World)
    ensures Eval(Unary(LogicalNot, AndAlso(a, b)), env, w)
            == Eval(OrElse(Unary(LogicalNot, a), Unary(LogicalNot, b)), env, w)
    ensures Endless(Unary(LogicalNot, AndAlso(a, b)), env, w)
            == Endless(OrElse(Unary(LogicalNot, a), Unary(LogicalNot, b)), env, w)
  {
    hide Eval, Endless;
    var c, n, m := AndAlso(a, b), Unary(LogicalNot, a), Unary(LogicalNot, b);
    AndValue(a, b, env, w);
    AndEndless(a, b, env, w);
    NotValue(c, env, w);
    NotValue(a, env, w);
    OrValue(n, m, env, w);
    OrEndless(n, m, env, w);
    if Eval(a, env, w).Some? { NotValue(b, env, Eval(a, env, w).value.1); }
  }

  /** A compound assignment is the assignment it abbreviates. */
  lemma CompoundAssign(op: BinOp, x: Variable, e: Expr, env: Env, w: World)
    ensures Eval(AssignOp(op, x, e), env, w) == Eval(Assign(x, Binary(op, Var(x), e)), env, w)
    ensures Endless(AssignOp(op, x, e), env, w) == Endless(Assign(x, Binary(op, Var(x), e)), env, w)
  {
    hide Eval, Endless;
    BinaryUnfolds(op, x, e, env, w);
    AssignUnfolds(op, x, e, env, w);
  }

  lemma BinaryUnfolds(op: BinOp, x: Variable, e: Expr, env: Env, w: World)
    ensures Eval(Binary(op, Var(x), e), env, w) ==
            var l, r := Read(AddrOf(env, x), w), Eval(e, Down(env, 1), w);
            if l.None? || r.None? then None
            else
              var v := BinaryValue(op, l.value.0, r.value.0);
              if v.None? then None else Some((v.value, r.value.1))
    ensures Endless(Binary(op, Var(x), e), env, w)
            == (Read(AddrOf(env, x), w).Some? && Endless(e, Down(env, 1), w))
  {
    hide BinaryValue, AddrOf;
    VarUnfolds(x, env, w);
  }

  lemma VarUnfolds(x: Variable, env: Env, w: World)
    ensures Eval(Var(x), env, w) == Read(AddrOf(env, x), w) && !Endless(Var(x), env, w)
    ensures Read(AddrOf(env, x), w).Some? ==> Read(AddrOf(env, x), w).value.1 == w
  {
  }

  lemma AssignUnfolds(op: BinOp, x: Variable, e: Expr, env: Env, w: World)
    ensures Eval(AssignOp(op, x, e), env, w) ==
            var l, r := Read(AddrOf(env, x), w), Eval(e, Down(env, 1), w);
            if l.None? || r.None? then None
            else
              var v := BinaryValue(op, l.value.0, r.value.0);
              if v.None? then None else Put(AddrOf(env, x), v.value, r.value.1)
    ensures Eval(Assign(x, Binary(op, Var(x), e)), env, w) ==
            match Eval(Binary(op, Var(x), e), env, w)
            case None => None
            case Some((v, w1)) => Put(AddrOf(env, x), v, w1)
    ensures Endless(AssignOp(op, x, e), env, w) == (Read(AddrOf(env, x), w).Some? && Endless(e, Down(env, 1), w))
    ensures Endless(Assign(x, Binary(op, Var(x), e)), env, w) == Endless(Binary(op, Var(x), e), env, w)
  {
    hide BinaryValue, AddrOf;
  }

  // ----- endless calls -----

  /** A call has a meaning or is endless, not both. */
  ghost predicate Apart(env: Env) {
    forall f: int, vs: seq<Word>, sp: int, w: World ::
      env.callees.endless(f, vs, sp, w) ==> env.callees.call(f, vs, sp, w).None?
  }

  lemma CalleesApart(src: Source, d: nat, fuel: nat, deep: bool, env: Env)
    requires env.callees == CalleesOf(src, d, fuel, deep)
    ensures Apart(env)
  {
  }

  lemma {:induction false} EndlessHasNone(e: Expr, env: Env, w: World)
    requires Apart(env)
    ensures Endless(e, env, w) ==> Eval(e, env, w).None?
    decreases e, 0
  {
    match e
    case Num(_) =>
    case Str(_) =>
    case Var(_) =>
    case AddressOf(_) =>
    case Deref(p) => EndlessHasNone(p, env, w);
    case Unary(_, e1) => EndlessHasNone(e1, env, w);
    case Binary(_, l, r) =>
      EndlessHasNone(l, env, w);
      if Eval(l, env, w).Some? { EndlessHasNone(r, Down(env, 1), Eval(l, env, w).value.1); }
    case AndAlso(l, r) =>
      EndlessHasNone(l, env, w);
      if Eval(l, env, w).Some? { EndlessHasNone(r, env, Eval(l, env, w).value.1); }
    case OrElse(l, r) =>
      EndlessHasNone(l, env, w);
      if Eval(l, env, w).Some? { EndlessHasNone(r, env, Eval(l, env, w).value.1); }
    case Assign(_, e1) => EndlessHasNone(e1, env, w);
    case AssignOp(_, _, e1) => EndlessHasNone(e1, Down(env, 1), w);
    case StoreThrough(p, e1) =>
      EndlessHasNone(p, env, w);
      if Eval(p, env, w).Some? { EndlessHasNone(e1, Down(env, 1), Eval(p, env, w).value.1); }
    case Builtin(_, args) => EndlessArgsHaveNone(args, env, w);
    case CallFun(f, args) => EndlessInvokeHasNone(f, args, env, w);
  }

  lemma {:induction false} EndlessArgsHaveNone(es: Exprs, env: Env, w: World)
    requires Apart(env)
    ensures EndlessArgs(es, env, w) ==> EvalArgs(es, env, w).None?
    decreases es, 0
  {
    match es
    case Nil =>
    case Cons(h, t) =>
      EndlessHasNone(h, env, w);
      if Eval(h, env, w).Some? { EndlessArgsHaveNone(t, Down(env, 1), Eval(h, env, w).value.1); }
  }

  lemma {:induction false} EndlessInvokeHasNone(f: int, args: Exprs, env: Env, w: World)
    requires Apart(env)
    ensures EndlessInvoke(f, args, env, w) ==> Eval(CallFun(f, args), env, w).None?
    decreases args, 1
  {
    EndlessArgsHaveNone(args, env, w);
    if EvalArgs(args, env, w).Some? {
      var (vs, w1) := EvalArgs(args, env, w).value;
      assert CallEndless(env, f, vs, w1) ==> CallFunction(env, f, vs, w1).None?;
    }
  }

  /** The place `a` holds the same in both worlds. */
  predicate SamePlace(w0: World, w1: World, a: int) {
    && (a in w0.mem <==> a in w1.mem) && (a in w0.mem ==> w1.mem[a] == w0.mem[a])
  }

  /** After an assignment the variable has the value assigned, which is also the value of
      the assignment; any other place of memory has the value the right side left there. */
  lemma AssignThenRead(x: Variable, e: Expr, env: Env, w: World)
    requires Eval(Assign(x, e), env, w).Some?
    ensures Eval(e, env, w).Some?
    ensures var (v, w1) := Eval(Assign(x, e), env, w).value;
            var (u, w0) := Eval(e, env, w).value;
            && v == u && Eval(Var(x), env, w1) == Some((u, w1)) && w1.trace == w0.trace
            && forall a :: a != AddrOf(env, x) ==> SamePlace(w0, w1, a)
  {
  }

  /** What is stored through a pointer is read back through it. */
  lemma StoreThenLoad(a: Word, e: Expr, env: Env, w: World)
    requires Eval(StoreThrough(Num(a), e), env, w).Some?
    ensures var (v, w1) := Eval(StoreThrough(Num(a), e), env, w).value;
            Eval(Deref(Num(a)), env, w1) == Some((v, w1))
  {
  }

  /** `*&x` is `x`. */
  lemma PointerToLocal(d: Disp, env: Env, w: World)
    ensures Eval(Deref(AddressOf(d)), env, w) == Eval(Var(Local(d)), env, w)
  {
  }

  // ----- conditionals -----

  /** Short-circuit operators in a condition are nested conditionals, a negated condition
      swaps the branches, and `if` is `if`/`else` with nothing to do. */
  lemma ConditionLaws(a: Expr, b: Expr, s: Stmt, t: Stmt, env: Env, w: World, fuel: nat)
    requires Apart(env)
    ensures ExecStmt(IfElse(AndAlso(a, b), s, t), env, w, fuel)
            == ExecStmt(IfElse(a, IfElse(b, s, t), t), env, w, fuel)
    ensures ExecStmt(IfElse(OrElse(a, b), s, t), env, w, fuel)
            == ExecStmt(IfElse(a, s, IfElse(b, s, t)), env, w, fuel)
    ensures ExecStmt(IfElse(Unary(LogicalNot, a), s, t), env, w, fuel) == ExecStmt(IfElse(a, t, s), env, w, fuel)
    ensures ExecStmt(If(a, s), env, w, fuel) == ExecStmt(IfElse(a, s, Skip), env, w, fuel)
    ensures ExecStmt(IfElse(Num(1), s, t), env, w, fuel) == ExecStmt(s, env, w, fuel)
    ensures ExecStmt(IfElse(Num(0), s, t), env, w, fuel) == ExecStmt(t, env, w, fuel)
  {
    hide Eval, Endless, ExecStmt, Apart;
    AndValue(a, b, env, w);
    AndEndless(a, b, env, w);
    OrValue(a, b, env, w);
    OrEndless(a, b, env, w);
    NotValue(a, env, w);
    EndlessHasNone(a, env, w);
    ConstantValue(0, env, w);
    ConstantValue(1, env, w);
    IfElseStep(AndAlso(a, b), s, t, env, w, fuel);
    IfElseStep(OrElse(a, b), s, t, env, w, fuel);
    IfElseStep(Unary(LogicalNot, a), s, t, env, w, fuel);
    IfElseStep(a, IfElse(b, s, t), t, env, w, fuel);
    IfElseStep(a, s, IfElse(b, s, t), env, w, fuel);
    IfElseStep(a, t, s, env, w, fuel);
    IfElseStep(a, s, Skip, env, w, fuel);
    IfElseStep(Num(1), s, t, env, w, fuel);
    IfElseStep(Num(0), s, t, env, w, fuel);
    IfStep(a, s, env, w, fuel);
    var x := Eval(a, env, w);
    if x.Some? {
      IfElseStep(b, s, t, env, x.value.1, fuel);
      SkipStep(env, x.value.1, fuel);
    }
  }

  lemma IfElseStep(c: Expr, s: Stmt, t: Stmt, env: Env, w: World, fuel: nat)
    ensures ExecStmt(IfElse(c, s, t), env, w, fuel) ==
            var x := Eval(c, env, w);
            if x.None? then Halted(Endless(c, env, w))
            else if x.value.0 != 0 then ExecStmt(s, env, x.value.1, fuel) else ExecStmt(t, env, x.value.1, fuel)
  {
  }

  lemma IfStep(c: Expr, s: Stmt, env: Env, w: World, fuel: nat)
    ensures ExecStmt(If(c, s), env, w, fuel) ==
            var x := Eval(c, env, w);
            if x.None? then Halted(Endless(c, env, w))
            else if x.value.0 != 0 then ExecStmt(s, env, x.value.1, fuel) else Done(Normal, x.value.1)
  {
  }

  lemma SkipStep(env: Env, w: World, fuel: nat)
    ensures ExecStmt(Skip, env, w, fuel) == Done(Normal, w)
  {
  }

  lemma ConstantValue(v: Word, env: Env, w: World)
    ensures Eval(Num(v), env, w) == Some((v, w))
  {
  }

  lemma NotValue(a: Expr, env: Env, w: World)
    ensures var n, v := Eval(Unary(LogicalNot, a), env, w), Eval(a, env, w);
            && n.Some? == v.Some? && Endless(Unary(LogicalNot, a), env, w) == Endless(a, env, w)
            && (v.Some? ==> n.value == (if v.value.0 == 0 then 1 else 0, v.value.1))
  {
  }

  lemma AndValue(a: Expr, b: Expr, env: Env, w: World)
    ensures var x, r := Eval(a, env, w), Eval(AndAlso(a, b), env, w);
            && (x.None? ==> r.None?)
            && (x.Some? && x.value.0 == 0 ==> r == Some((0, x.value.1)))
            && (x.Some? && x.value.0 != 0 ==>
                  var y := Eval(b, env, x.value.1);
                  r == if y.None? then None else Some((Truth(y.value.0 != 0), y.value.1)))
  {
    hide Eval;
    AndUnfolds(a, b, env, w);
  }

  lemma AndUnfolds(l: Expr, r: Expr, env: Env, w: World)
    ensures Eval(AndAlso(l, r), env, w) ==
            match Eval(l, env, w)
            case None => None
            case Some((a, w1)) =>
              if a == 0 then Some((0, w1))
              else
                match Eval(r, env, w1)
                case None => None
                case Some((b, w2)) => Some((Truth(b != 0), w2))
  {
  }

  lemma AndEndless(a: Expr, b: Expr, env: Env, w: World)
    ensures Endless(AndAlso(a, b), env, w) <==>
            Endless(a, env, w)
            || (var x := Eval(a, env, w); x.Some? && x.value.0 != 0 && Endless(b, env, x.value.1))
  {
  }

  lemma OrValue(a: Expr, b: Expr, env: Env, w: World)
    ensures var x, r := Eval(a, env, w), Eval(OrElse(a, b), env, w);
            && (x.None? ==> r.None?)
            && (x.Some? && x.value.0 != 0 ==> r == Some((1, x.value.1)))
            && (x.Some? && x.value.0 == 0 ==>
                  var y := Eval(b, env, x.value.1);
                  r == if y.None? then None else Some((Truth(y.value.0 != 0), y.value.1)))
  {
    hide Eval;
    OrUnfolds(a, b, env, w);
  }

  lemma OrUnfolds(l: Expr, r: Expr, env: Env, w: World)
    ensures Eval(OrElse(l, r), env, w) ==
            match Eval(l, env, w)
            case None => None
            case Some((a, w1)) =>
              if a != 0 then Some((1, w1))
              else
                match Eval(r, env, w1)
                case None => None
                case Some((b, w2)) => Some((Truth(b != 0), w2))
  {
  }

  lemma OrEndless(a: Expr, b: Expr, env: Env, w: World)
    ensures Endless(OrElse(a, b), env, w) <==>
            Endless(a, env, w)
            || (var x := Eval(a, env, w); x.Some? && x.value.0 == 0 && Endless(b, env, x.value.1))
  {
  }

  // ----- loops -----

  /** No `break` leaves the statement, nor `continue`. */
  predicate NoBreak(s: Stmt) {
    match s
    case Seq(s1, s2) => NoBreak(s1) && NoBreak(s2)
    case If(_, s1) => NoBreak(s1)
    case IfElse(_, s1, s2) => NoBreak(s1) && NoBreak(s2)
    case Break => false
    case _ => true
  }

  predicate NoContinue(s: Stmt) {
    match s
    case Seq(s1, s2) => NoContinue(s1) && NoContinue(s2)
    case If(_, s1) => NoContinue(s1)
    case IfElse(_, s1, s2) => NoContinue(s1) && NoContinue(s2)
    case Continue => false
    case _ => true
  }

  predicate Leaves(r: Result, o: Outcome) { r.Done? && r.o == o }

  lemma {:induction false} LoopStays(s: Stmt, env: Env, w: World, fuel: nat)
    requires s.While? || s.DoWhile?
    ensures !Leaves(ExecStmt(s, env, w, fuel), Broke) && !Leaves(ExecStmt(s, env, w, fuel), Continued)
    decreases fuel
  {
    if fuel > 0 {
      match s
      case While(c, body) =>
        if Eval(c, env, w).Some? {
          var r := ExecStmt(body, env, Eval(c, env, w).value.1, fuel - 1);
          if r.Done? { LoopStays(s, env, r.w, fuel - 1); }
        }
      case DoWhile(body, c) =>
        var r := ExecStmt(body, env, w, fuel - 1);
        if r.Done? && Eval(c, env, r.w).Some? { LoopStays(s, env, Eval(c, env, r.w).value.1, fuel - 1); }
    }
  }

  lemma {:induction false} ForStays(cond: OptExpr, step: OptExpr, body: Stmt, env: Env, w: World, fuel: nat)
    ensures var r := ForLoop(cond, step, body, env, w, fuel); !Leaves(r, Broke) && !Leaves(r, Continued)
    decreases fuel
  {
    if fuel > 0 && EvalOpt(cond, 1, env, w).Some? {
      var r := ExecStmt(body, env, EvalOpt(cond, 1, env, w).value.1, fuel - 1);
      if r.Done? && EvalOpt(step, 0, env, r.w).Some? {
        ForStays(cond, step, body, env, EvalOpt(step, 0, env, r.w).value.1, fuel - 1);
      }
    }
  }

  /** Only a `break` of its own makes a statement end by one; so for `continue`. */
  lemma {:induction false} Stays(s: Stmt, env: Env, w: World, fuel: nat)
    ensures NoBreak(s) ==> !Leaves(ExecStmt(s, env, w, fuel), Broke)
    ensures NoContinue(s) ==> !Leaves(ExecStmt(s, env, w, fuel), Continued)
    decreases s
  {
    hide Eval, Endless, ForLoop;
    match s
    case Seq(s1, s2) =>
      Stays(s1, env, w, fuel);
      var r := ExecStmt(s1, env, w, fuel);
      if r.Done? { Stays(s2, env, r.w, fuel); }
    case If(c, s1) =>
      if Eval(c, env, w).Some? { Stays(s1, env, Eval(c, env, w).value.1, fuel); }
    case IfElse(c, s1, s2) =>
      if Eval(c, env, w).Some? {
        Stays(s1, env, Eval(c, env, w).value.1, fuel);
        Stays(s2, env, Eval(c, env, w).value.1, fuel);
      }
    case While(_, _) => LoopStays(s, env, w, fuel);
    case DoWhile(_, _) => LoopStays(s, env, w, fuel);
    case For(TheExpr(e), cond, step, body) =>
      if Eval(e, env, w).Some? { ForStays(cond, step, body, env, Eval(e, env, w).value.1, fuel); }
    case For(NoExpr, cond, step, body) => ForStays(cond, step, body, env, w, fuel);
    case _ =>
  }

  lemma SeqStep(s: Stmt, t: Stmt, env: Env, w: World, fuel: nat)
    ensures ExecStmt(Seq(s, t), env, w, fuel) ==
            var r := ExecStmt(s, env, w, fuel);
            if Leaves(r, Normal) then ExecStmt(t, env, r.w, fuel) else r
  {
  }

  /** A round that ends like this is followed by no other. */
  predicate Ends(r: Result) { !r.Done? || r.o == Broke || r.o.Returned? }

  function Ended(r: Result): Result { if Leaves(r, Broke) then Done(Normal, r.w) else r }

  lemma WhileStep(c: Expr, s: Stmt, env: Env, w: World, fuel: nat)
    ensures ExecStmt(While(c, s), env, w, fuel) ==
            var x := Eval(c, env, w);
            if x.None? then Halted(Endless(c, env, w))
            else if x.value.0 == 0 then Done(Normal, x.value.1)
            else if fuel == 0 then Unfinished
            else var r := ExecStmt(s, env, x.value.1, fuel - 1);
              if Ends(r) then Ended(r) else ExecStmt(While(c, s), env, r.w, fuel - 1)
  {
  }

  lemma DoStep(s: Stmt, c: Expr, env: Env, w: World, fuel: nat)
    ensures ExecStmt(DoWhile(s, c), env, w, fuel) ==
            if fuel == 0 then Unfinished
            else var r := ExecStmt(s, env, w, fuel - 1);
              if Ends(r) then Ended(r)
              else var x := Eval(c, env, r.w);
                if x.None? then Halted(Endless(c, env, r.w))
                else if x.value.0 == 0 then Done(Normal, x.value.1)
                else ExecStmt(DoWhile(s, c), env, x.value.1, fuel - 1)
  {
  }

  lemma ForStep(cond: OptExpr, step: OptExpr, s: Stmt, env: Env, w: World, fuel: nat)
    ensures ForLoop(cond, step, s, env, w, fuel) ==
            var x := EvalOpt(cond, 1, env, w);
            if x.None? then Halted(EndlessOpt(cond, env, w))
            else if x.value.0 == 0 then Done(Normal, x.value.1)
            else if fuel == 0 then Unfinished
            else var r := ExecStmt(s, env, x.value.1, fuel - 1);
              if Ends(r) then Ended(r)
              else var y := EvalOpt(step, 0, env, r.w);
                if y.None? then Halted(EndlessOpt(step, env, r.w))
                else ForLoop(cond, step, s, env, y.value.1, fuel - 1)
  {
  }

  /** One round of `while`: the condition first, then the body, and then the loop again. */
  lemma WhileUnrolls(c: Expr, s: Stmt, env: Env, w: World, fuel: nat)
    requires NoBreak(s) && NoContinue(s)
    ensures ExecStmt(While(c, s), env, w, fuel + 1) == ExecStmt(If(c, Seq(s, While(c, s))), env, w, fuel)
  {
    hide Eval, Endless, ExecStmt;
    WhileStep(c, s, env, w, fuel + 1);
    IfStep(c, Seq(s, While(c, s)), env, w, fuel);
    if Eval(c, env, w).Some? {
      var w1 := Eval(c, env, w).value.1;
      Stays(s, env, w1, fuel);
      SeqStep(s, While(c, s), env, w1, fuel);
    }
  }

  /** `do s while (c)` is `s` and then `while (c) s`. */
  lemma {:induction false} DoAsWhile(s: Stmt, c: Expr, env: Env, w: World, fuel: nat)
    requires NoBreak(s) && NoContinue(s)
    ensures ExecStmt(DoWhile(s, c), env, w, fuel + 1) == ExecStmt(Seq(s, While(c, s)), env, w, fuel)
    decreases fuel
  {
    hide Eval, Endless, ExecStmt;
    Stays(s, env, w, fuel);
    SeqStep(s, While(c, s), env, w, fuel);
    DoStep(s, c, env, w, fuel + 1);
    var r := ExecStmt(s, env, w, fuel);
    if r.Done? {
      WhileStep(c, s, env, r.w, fuel);
      if Eval(c, env, r.w).Some? {
        var w1 := Eval(c, env, r.w).value.1;
        if fuel == 0 {
          DoStep(s, c, env, w1, 0);
        } else {
          DoAsWhile(s, c, env, w1, fuel - 1);
          Stays(s, env, w1, fuel - 1);
          SeqStep(s, While(c, s), env, w1, fuel - 1);
        }
      }
    }
  }

  function ExprOr(oe: OptExpr, default: Word): Expr {
    if oe.TheExpr? then oe.e else Num(default)
  }

  function StmtOf(oe: OptExpr): Stmt {
    if oe.TheExpr? then Do(oe.e) else Skip
  }

  lemma OptionalStep(oe: OptExpr, d: Word, env: Env, w: World, fuel: nat)
    ensures Eval(ExprOr(oe, d), env, w) == EvalOpt(oe, d, env, w)
    ensures Endless(ExprOr(oe, d), env, w) == EndlessOpt(oe, env, w)
    ensures ExecStmt(StmtOf(oe), env, w, fuel) ==
            var x := EvalOpt(oe, d, env, w);
            if x.None? then Halted(EndlessOpt(oe, env, w)) else Done(Normal, x.value.1)
  {
  }

  /** `for (init; cond; step) s` is `init; while (cond) { s step; }`, where a missing
      condition is true, unless a `continue` of `s` would pass over the step. */
  lemma ForAsWhile(init: OptExpr, cond: OptExpr, step: OptExpr, s: Stmt, env: Env, w: World, fuel: nat)
    requires NoContinue(s)
    ensures ExecStmt(For(init, cond, step, s), env, w, fuel)
            == ExecStmt(Seq(StmtOf(init), While(ExprOr(cond, 1), Seq(s, StmtOf(step)))), env, w, fuel)
  {
    hide Eval, Endless, ExecStmt, ForLoop, ExprOr, StmtOf;
    SeqStep(StmtOf(init), While(ExprOr(cond, 1), Seq(s, StmtOf(step))), env, w, fuel);
    OptionalStep(init, 0, env, w, fuel);
    InitStep(init, cond, step, s, env, w, fuel);
    if EvalOpt(init, 0, env, w).Some? {
      ForLoopAsWhile(cond, step, s, env, EvalOpt(init, 0, env, w).value.1, fuel);
    }
  }

  lemma InitStep(init: OptExpr, cond: OptExpr, step: OptExpr, s: Stmt, env: Env, w: World, fuel: nat)
    ensures ExecStmt(For(init, cond, step, s), env, w, fuel) ==
            var x := EvalOpt(init, 0, env, w);
            if x.None? then Halted(EndlessOpt(init, env, w)) else ForLoop(cond, step, s, env, x.value.1, fuel)
  {
    hide Eval, Endless, ForLoop;
  }

  lemma {:induction false} ForLoopAsWhile(cond: OptExpr, step: OptExpr, s: Stmt, env: Env, w: World, fuel: nat)
    requires NoContinue(s)
    ensures ForLoop(cond, step, s, env, w, fuel)
            == ExecStmt(While(ExprOr(cond, 1), Seq(s, StmtOf(step))), env, w, fuel)
    decreases fuel
  {
    hide Eval, Endless, ExecStmt, ForLoop, EvalOpt, EndlessOpt, ExprOr, StmtOf;
    var body := Seq(s, StmtOf(step));
    WhileStep(ExprOr(cond, 1), body, env, w, fuel);
    ForStep(cond, step, s, env, w, fuel);
    OptionalStep(cond, 1, env, w, fuel);
    if fuel > 0 && EvalOpt(cond, 1, env, w).Some? {
      var w1 := EvalOpt(cond, 1, env, w).value.1;
      Stays(s, env, w1, fuel - 1);
      SeqStep(s, StmtOf(step), env, w1, fuel - 1);
      var r := ExecStmt(s, env, w1, fuel - 1);
      if r.Done? {
        OptionalStep(step, 0, env, r.w, fuel - 1);
        if EvalOpt(step, 0, env, r.w).Some? {
          ForLoopAsWhile(cond, step, s, env, EvalOpt(step, 0, env, r.w).value.1, fuel - 1);
        }
      }
    }
  }

  lemma ContinueStep(env: Env, w: World, fuel: nat)
    ensures ExecStmt(Continue, env, w, fuel) == Done(Continued, w)
    ensures ExecStmt(Break, env, w, fuel) == Done(Broke, w)
  {
  }

  /** A `continue` at the end of a loop's body changes nothing: it goes to the test of
      `while` and `do`, and to the step of `for`. */
  lemma TrailingContinue(c: Expr, cond: OptExpr, step: OptExpr, s: Stmt, env: Env, w: World, fuel: nat)
    ensures ExecStmt(While(c, Seq(s, Continue)), env, w, fuel) == ExecStmt(While(c, s), env, w, fuel)
    ensures ExecStmt(DoWhile(Seq(s, Continue), c), env, w, fuel) == ExecStmt(DoWhile(s, c), env, w, fuel)
    ensures ForLoop(cond, step, Seq(s, Continue), env, w, fuel) == ForLoop(cond, step, s, env, w, fuel)
  {
    hide Eval, Endless, ExecStmt, ForLoop, EvalOpt, EndlessOpt;
    WhileContinue(c, s, env, w, fuel);
    DoContinue(c, s, env, w, fuel);
    ForContinue(cond, step, s, env, w, fuel);
  }

  lemma RoundContinue(s: Stmt, env: Env, w: World, fuel: nat)
    ensures var r, r' := ExecStmt(s, env, w, fuel), ExecStmt(Seq(s, Continue), env, w, fuel);
            Ends(r) == Ends(r') && if Ends(r) then r' == r else r'.w == r.w
  {
    hide Eval, Endless, ExecStmt;
    SeqStep(s, Continue, env, w, fuel);
    var r := ExecStmt(s, env, w, fuel);
    if r.Done? { ContinueStep(env, r.w, fuel); }
  }

  lemma {:induction false} WhileContinue(c: Expr, s: Stmt, env: Env, w: World, fuel: nat)
    ensures ExecStmt(While(c, Seq(s, Continue)), env, w, fuel) == ExecStmt(While(c, s), env, w, fuel)
    decreases fuel
  {
    hide Eval, Endless, ExecStmt, ForLoop;
    WhileStep(c, s, env, w, fuel);
    WhileStep(c, Seq(s, Continue), env, w, fuel);
    if fuel > 0 && Eval(c, env, w).Some? {
      var w1 := Eval(c, env, w).value.1;
      RoundContinue(s, env, w1, fuel - 1);
      var r := ExecStmt(s, env, w1, fuel - 1);
      if r.Done? { WhileContinue(c, s, env, r.w, fuel - 1); }
    }
  }

  lemma {:induction false} DoContinue(c: Expr, s: Stmt, env: Env, w: World, fuel: nat)
    ensures ExecStmt(DoWhile(Seq(s, Continue), c), env, w, fuel) == ExecStmt(DoWhile(s, c), env, w, fuel)
    decreases fuel
  {
    hide Eval, Endless, ExecStmt, ForLoop;
    DoStep(s, c, env, w, fuel);
    DoStep(Seq(s, Continue), c, env, w, fuel);
    if fuel > 0 {
      RoundContinue(s, env, w, fuel - 1);
      var r := ExecStmt(s, env, w, fuel - 1);
      if r.Done? && Eval(c, env, r.w).Some? {
        DoContinue(c, s, env, Eval(c, env, r.w).value.1, fuel - 1);
      }
    }
  }

  lemma {:induction false} ForContinue(cond: OptExpr, step: OptExpr, s: Stmt, env: Env, w: World, fuel: nat)
    ensures ForLoop(cond, step, Seq(s, Continue), env, w, fuel) == ForLoop(cond, step, s, env, w, fuel)
    decreases fuel
  {
    hide Eval, Endless, ExecStmt, ForLoop, EvalOpt, EndlessOpt;
    ForStep(cond, step, s, env, w, fuel);
    ForStep(cond, step, Seq(s, Continue), env, w, fuel);
    if fuel > 0 && EvalOpt(cond, 1, env, w).Some? {
      var w1 := EvalOpt(cond, 1, env, w).value.1;
      RoundContinue(s, env, w1, fuel - 1);
      var r := ExecStmt(s, env, w1, fuel - 1);
      if r.Done? && EvalOpt(step, 0, env, r.w).Some? {
        ForContinue(cond, step, s, env, EvalOpt(step, 0, env, r.w).value.1, fuel - 1);
      }
    }
  }

  /** A `break` at the end of its body leaves a loop after one round. */
  lemma TrailingBreak(c: Expr, cond: OptExpr, step: OptExpr, s: Stmt, env: Env, w: World, fuel: nat)
    requires NoBreak(s) && NoContinue(s)
    ensures ExecStmt(While(c, Seq(s, Break)), env, w, fuel + 1) == ExecStmt(If(c, s), env, w, fuel)
    ensures ExecStmt(DoWhile(Seq(s, Break), c), env, w, fuel + 1) == ExecStmt(s, env, w, fuel)
    ensures ForLoop(cond, step, Seq(s, Break), env, w, fuel + 1)
            == ExecStmt(If(ExprOr(cond, 1), s), env, w, fuel)
  {
    hide Eval, Endless, ExecStmt, ForLoop, EvalOpt, EndlessOpt, ExprOr, StmtOf;
    WhileStep(c, Seq(s, Break), env, w, fuel + 1);
    IfStep(c, s, env, w, fuel);
    DoStep(Seq(s, Break), c, env, w, fuel + 1);
    RoundBreak(s, env, w, fuel);
    ForStep(cond, step, Seq(s, Break), env, w, fuel + 1);
    IfStep(ExprOr(cond, 1), s, env, w, fuel);
    OptionalStep(cond, 1, env, w, fuel);
    if Eval(c, env, w).Some? { RoundBreak(s, env, Eval(c, env, w).value.1, fuel); }
    if EvalOpt(cond, 1, env, w).Some? { RoundBreak(s, env, EvalOpt(cond, 1, env, w).value.1, fuel); }
  }

  lemma RoundBreak(s: Stmt, env: Env, w: World, fuel: nat)
    requires NoBreak(s) && NoContinue(s)
    ensures var r := ExecStmt(Seq(s, Break), env, w, fuel);
            Ends(r) && Ended(r) == ExecStmt(s, env, w, fuel)
  {
    hide Eval, Endless, ExecStmt;
    SeqStep(s, Break, env, w, fuel);
    Stays(s, env, w, fuel);
    var r := ExecStmt(s, env, w, fuel);
    if r.Done? { ContinueStep(env, r.w, fuel); }
  }

  /** Statements run in order, and nothing behind a jump runs. */
  lemma SequenceLaws(s: Stmt, t: Stmt, u: Stmt, env: Env, w: World, fuel: nat)
    ensures ExecStmt(Seq(Seq(s, t), u), env, w, fuel) == ExecStmt(Seq(s, Seq(t, u)), env, w, fuel)
    ensures ExecStmt(Seq(Skip, s), env, w, fuel) == ExecStmt(s, env, w, fuel) == ExecStmt(Seq(s, Skip), env, w, fuel)
    ensures s.Return? || s.Break? || s.Continue? ==> ExecStmt(Seq(s, t), env, w, fuel) == ExecStmt(s, env, w, fuel)
  {
    hide Eval, Endless, ForLoop;
    var r := ExecStmt(s, env, w, fuel);
    SeqStep(Seq(s, t), u, env, w, fuel);
    SeqStep(s, t, env, w, fuel);
    SeqStep(s, Seq(t, u), env, w, fuel);
    SeqStep(Skip, s, env, w, fuel);
    SeqStep(s, Skip, env, w, fuel);
    SkipStep(env, w, fuel);
    if r.Done? {
      SeqStep(t, u, env, r.w, fuel);
      SkipStep(env, r.w, fuel);
    }
  }
}
