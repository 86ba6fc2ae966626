/** Evaluation that comes to an endless call keeps the machine going. */
module ExprEndless {
  import opened Basics
  import opened Word32
  import opened Machine
  import opened Syntax
  import opened Compile
  import opened Operators
  import opened ExprProof
  import opened CallProof
  import opened ExprCorrect

  /** At the code of `e`, as `Ready`, in three conditions. */
  lemma ReadyIf(p: Prog, env: Env, w: World, e: Expr, nl: nat, m: State, lo: int, hi: int)
    requires LabelsOk(p) && Agrees(p, env, w, m, lo, hi) && At(p, m.pc, ExprCode(e, nl)) && CallsFit(e)
    requires lo + 4 * (Depth(e) + env.callees.room) <= m.esp
    ensures Ready(p, env, w, e, nl, m, lo, hi)
  {
  }

  /** The subexpression that is evaluated first. */
  function First(e: Expr): Expr
    requires e.Deref? || e.Unary? || e.Assign? || e.Binary? || e.AndAlso? || e.OrElse? || e.StoreThrough?
  {
    match e
    case Deref(p) => p
    case Unary(_, e1) => e1
    case Assign(_, e1) => e1
    case Binary(_, l, _) => l
    case AndAlso(l, _) => l
    case OrElse(l, _) => l
    case StoreThrough(p, _) => p
  }

  lemma FirstReady(p: Prog, env: Env, w: World, e: Expr, nl: nat, m: State, lo: int, hi: int)
    requires e.Deref? || e.Unary? || e.Assign? || e.Binary? || e.AndAlso? || e.OrElse? || e.StoreThrough?
    requires Ready(p, env, w, e, nl, m, lo, hi)
    ensures First(e) < e && Ready(p, env, w, First(e), nl, m, lo, hi)
    ensures At(p, m.pc + |ExprCode(First(e), nl)|, ExprCode(e, nl)[|ExprCode(First(e), nl)|..])
  {
    hide Agrees, LabelsOk, ShortTail, BinaryCode, UnaryCode, CallCode, InvokeCode, LoadVar, StoreVar;
    var c, f := ExprCode(e, nl), ExprCode(First(e), nl);
    assert c == f + c[|f|..];
    AtSplit(p, m.pc, f, c[|f|..]);
  }

  /** Steps before and steps that last. */
  lemma LastsAfter(p: Prog, m: State, n1: nat, m1: State, n2: nat, m2: State, k: nat)
    requires Run(p, m, n1) == Some(m1) && Run(p, m1, n2) == Some(m2) && n2 >= k
    ensures Run(p, m, n1 + n2) == Some(m2) && n1 + n2 >= k
  {
    hide Run;
    Then(p, m, n1, m1, n2, m2);
  }

  /** From the code of an expression that comes to an endless call, the machine runs for as
      many steps as such a call lasts. */
  lemma {:induction false} EndlessRuns(p: Prog, env: Env, w: World, e: Expr, nl: nat, m: State, lo: int, hi: int)
    returns (n: nat, m': State)
    requires Ready(p, env, w, e, nl, m, lo, hi) && Endless(e, env, w)
    ensures Run(p, m, n) == Some(m') && n >= env.callees.lasts
    decreases e, 1
  {
    hide Run, Step, Agrees, Keeps, Eval, ExprCode, ArgsCode, Depth, ArgDepth, CallsFit, At, LabelsOk;
    match e
    case Deref(_) => FirstReady(p, env, w, e, nl, m, lo, hi); n, m' := EndlessRuns(p, env, w, e.p, nl, m, lo, hi);
    case Unary(_, _) => FirstReady(p, env, w, e, nl, m, lo, hi); n, m' := EndlessRuns(p, env, w, e.e, nl, m, lo, hi);
    case Assign(_, _) => FirstReady(p, env, w, e, nl, m, lo, hi); n, m' := EndlessRuns(p, env, w, e.e, nl, m, lo, hi);
    case Binary(_, _, _) => n, m' := EndlessSecond(p, env, w, e, nl, m, lo, hi);
    case AndAlso(_, _) => n, m' := EndlessShort(p, env, w, e, nl, m, lo, hi);
    case OrElse(_, _) => n, m' := EndlessShort(p, env, w, e, nl, m, lo, hi);
    case StoreThrough(_, _) => n, m' := EndlessSecond(p, env, w, e, nl, m, lo, hi);
    case AssignOp(_, _, _) => n, m' := EndlessAssignOp(p, env, w, e, nl, m, lo, hi);
    case Builtin(_, _) =>
      CallReady(p, env, w, e, nl, m, lo, hi);
      n, m' := EndlessArgsRuns(p, env, w, e.args, nl, m, lo, hi);
    case CallFun(f, args) =>
      CallReady(p, env, w, e, nl, m, lo, hi);
      n, m' := EndlessInvokeRuns(p, env, w, f, args, nl, m, lo, hi);
    case Num(_) =>
    case Str(_) =>
    case Var(_) =>
    case AddressOf(_) =>
  }

  lemma CallReady(p: Prog, env: Env, w: World, e: Expr, nl: nat, m: State, lo: int, hi: int)
    requires (e.Builtin? || e.CallFun?) && Ready(p, env, w, e, nl, m, lo, hi)
    ensures LabelsOk(p) && Agrees(p, env, w, m, lo, hi) && ArgsFit(e.args) && At(p, m.pc, ArgsCode(e.args, nl))
    ensures lo + 4 * (ArgDepth(e.args) + env.callees.room) <= m.esp
    ensures e.CallFun? ==>
              && At(p, m.pc, ArgsCode(e.args, nl) + InvokeCode(e.f, Count(e.args)))
              && lo + 4 * (Max(ArgDepth(e.args), Count(e.args)) + env.callees.room) <= m.esp
  {
    hide Agrees, LabelsOk, CallCode, InvokeCode, ArgsCode;
    if e.Builtin? {
      AtSplit(p, m.pc, ArgsCode(e.args, nl), CallCode(e.index, Count(e.args)));
    } else {
      AtSplit(p, m.pc, ArgsCode(e.args, nl), InvokeCode(e.f, Count(e.args)));
    }
  }

  /** push eax, then an operand that comes to an endless call. */
  lemma {:induction false} EndlessOperand(p: Prog, env: Env, w: World, r: Expr, nl: nat, rest: seq<Item>, m: State,
                                          lo: int, hi: int)
    returns (n: nat, m': State)
    requires LabelsOk(p) && Agrees(p, env, w, m, lo, hi) && CallsFit(r)
    requires lo + 4 * (1 + Depth(r) + env.callees.room) <= m.esp
    requires At(p, m.pc, PUSH + (ExprCode(r, nl) + (POP + rest))) && Endless(r, Down(env, 1), w)
    ensures Run(p, m, n) == Some(m') && n >= env.callees.lasts
    decreases r, 2
  {
    hide Run, Step, Agrees, Eval, Endless, ExprCode, Depth, CallsFit, LabelsOk, At;
    AtSplit(p, m.pc, PUSH, ExprCode(r, nl) + (POP + rest));
    AtSplit(p, m.pc + 1, ExprCode(r, nl), POP + rest);
    var m1 := PushRuns(p, env, w, m, lo, hi);
    ReadyIf(p, Down(env, 1), w, r, nl, m1, lo, hi);
    var n2, m2 := EndlessRuns(p, Down(env, 1), w, r, nl, m1, lo, hi);
    LastsAfter(p, m, 1, m1, n2, m2, env.callees.lasts);
    n, m' := 1 + n2, m2;
  }

  /** The second operand of `e` and what follows it. */
  lemma SecondReady(p: Prog, env: Env, w: World, e: Expr, nl: nat, m: State, lo: int, hi: int) returns (rest: seq<Item>)
    requires (e.Binary? || e.StoreThrough?) && Ready(p, env, w, e, nl, m, lo, hi)
    ensures var r := if e.Binary? then e.r else e.e;
            && LabelsOk(p) && CallsFit(r) && lo + 4 * (1 + Depth(r) + env.callees.room) <= m.esp
            && At(p, m.pc + |ExprCode(First(e), nl)|,
                  PUSH + (ExprCode(r, nl + Labels(First(e))) + (POP + rest)))
  {
    hide Agrees, LabelsOk, BinaryCode, ShortTail, CallCode, InvokeCode;
    rest := if e.Binary? then BinaryCode(e.bop) else [Op(StoreInd)];
    var r := if e.Binary? then e.r else e.e;
    AtSplit(p, m.pc, ExprCode(First(e), nl), PUSH + (ExprCode(r, nl + Labels(First(e))) + (POP + rest)));
  }

  lemma {:induction false} EndlessSecond(p: Prog, env: Env, w: World, e: Expr, nl: nat, m: State, lo: int, hi: int)
    returns (n: nat, m': State)
    requires (e.Binary? || e.StoreThrough?) && Ready(p, env, w, e, nl, m, lo, hi) && Endless(e, env, w)
    ensures Run(p, m, n) == Some(m') && n >= env.callees.lasts
    decreases e, 0
  {
    hide Run, Step, Agrees, Keeps, Eval, ExprCode, Depth, CallsFit, At, LabelsOk, Ready;
    FirstReady(p, env, w, e, nl, m, lo, hi);
    var l, r := First(e), if e.Binary? then e.r else e.e;
    if Endless(l, env, w) {
      n, m' := EndlessRuns(p, env, w, l, nl, m, lo, hi);
    } else {
      var rest := SecondReady(p, env, w, e, nl, m, lo, hi);
      var n1, m1 := ExprRuns(p, env, w, l, nl, m, lo, hi);
      var (v1, w1) := Eval(l, env, w).value;
      StackKept(p, env, w, |ExprCode(l, nl)|, m, lo, hi, n1, m1, v1, w1);
      var n2, m2 := EndlessOperand(p, env, w1, r, nl + Labels(l), rest, m1, lo, hi);
      LastsAfter(p, m, n1, m1, n2, m2, env.callees.lasts);
      n, m' := n1 + n2, m2;
    }
  }

  lemma AssignOpReady(p: Prog, env: Env, w: World, e: Expr, nl: nat, m: State, lo: int, hi: int)
    requires e.AssignOp? && Ready(p, env, w, e, nl, m, lo, hi)
    ensures var rest := BinaryCode(e.aop) + [StoreVar(e.x)];
            At(p, m.pc, [LoadVar(e.x)]) && At(p, m.pc + 1, PUSH + (ExprCode(e.e, nl) + (POP + rest)))
    ensures LabelsOk(p) && Agrees(p, env, w, m, lo, hi) && CallsFit(e.e)
    ensures lo + 4 * (1 + Depth(e.e) + env.callees.room) <= m.esp
  {
    hide Agrees, LabelsOk, BinaryCode, LoadVar, StoreVar;
    AtSplit(p, m.pc, [LoadVar(e.x)], PUSH + (ExprCode(e.e, nl) + (POP + (BinaryCode(e.aop) + [StoreVar(e.x)]))));
  }

  lemma {:induction false} EndlessAssignOp(p: Prog, env: Env, w: World, e: Expr, nl: nat, m: State, lo: int, hi: int)
    returns (n: nat, m': State)
    requires e.AssignOp? && Ready(p, env, w, e, nl, m, lo, hi) && Endless(e, env, w)
    ensures Run(p, m, n) == Some(m') && n >= env.callees.lasts
    decreases e, 0
  {
    hide Run, Step, Agrees, Eval, ExprCode, Depth, CallsFit, At, LabelsOk, Ready, BinaryCode, LoadVar, StoreVar,
         AddrOf, Read;
    AssignOpReady(p, env, w, e, nl, m, lo, hi);
    var m1 := LoadVarRuns(p, env, w, e.x, m, lo, hi);
    var n2, m2 := EndlessOperand(p, env, w, e.e, nl, BinaryCode(e.aop) + [StoreVar(e.x)], m1, lo, hi);
    LastsAfter(p, m, 1, m1, n2, m2, env.callees.lasts);
    n, m' := 1 + n2, m2;
  }

  /** The right side of `&&` or `||`, where falling through the test leads to it. */
  lemma ShortReady(p: Prog, env: Env, w: World, e: Expr, nl: nat, m: State, lo: int, hi: int, when: When, skip: nat)
    requires (e.AndAlso? || e.OrElse?) && Ready(p, env, w, e, nl, m, lo, hi)
    requires when == (if e.AndAlso? then IfZero else IfNonZero) && skip == nl + Labels(e.l)
    ensures var pr := m.pc + |ExprCode(e.l, nl)|;
            && At(p, pr, TestAndGo(when, skip)) && At(p, pr + 2, ExprCode(e.r, skip + 1)) && skip in p.labels
    ensures LabelsOk(p) && CallsFit(e.r) && lo + 4 * (Depth(e.r) + env.callees.room) <= m.esp
  {
    hide Agrees, LabelsOk, ShortTail;
    var end := skip + 1 + Labels(e.r);
    AtSplit(p, m.pc, ExprCode(e.l, nl), ShortTail(ExprCode(e.r, skip + 1), when, skip, end));
    TailAt(p, m.pc + |ExprCode(e.l, nl)|, ExprCode(e.r, skip + 1), when, skip, end);
  }

  lemma TailAt(p: Prog, pc: int, right: seq<Item>, when: When, skip: int, end: int)
    requires LabelsOk(p) && At(p, pc, ShortTail(right, when, skip, end))
    ensures At(p, pc, TestAndGo(when, skip)) && At(p, pc + 2, right) && skip in p.labels
  {
    hide LabelsOk, Verdict, At;
    var verdict := Verdict(when, skip, end);
    AtSplit(p, pc, TestAndGo(when, skip), right + (TestAndGo(when, skip) + verdict));
    AtSplit(p, pc + 2, right, TestAndGo(when, skip) + verdict);
    AtSplit(p, pc + 2 + |right|, TestAndGo(when, skip), verdict);
    SkipLabel(p, when, skip, end, pc + 4 + |right|);
  }

  lemma {:induction false} EndlessShort(p: Prog, env: Env, w: World, e: Expr, nl: nat, m: State, lo: int, hi: int)
    returns (n: nat, m': State)
    requires (e.AndAlso? || e.OrElse?) && Ready(p, env, w, e, nl, m, lo, hi) && Endless(e, env, w)
    ensures Run(p, m, n) == Some(m') && n >= env.callees.lasts
    decreases e, 0
  {
    hide Run, Step, Agrees, Keeps, Eval, ExprCode, Depth, CallsFit, At, LabelsOk, Ready, TestAndGo;
    FirstReady(p, env, w, e, nl, m, lo, hi);
    if Endless(e.l, env, w) {
      n, m' := EndlessRuns(p, env, w, e.l, nl, m, lo, hi);
    } else {
      var when, skip := if e.AndAlso? then IfZero else IfNonZero, nl + Labels(e.l);
      ShortReady(p, env, w, e, nl, m, lo, hi, when, skip);
      var n1, m1 := ExprRuns(p, env, w, e.l, nl, m, lo, hi);
      var (v1, w1) := Eval(e.l, env, w).value;
      StackKept(p, env, w, |ExprCode(e.l, nl)|, m, lo, hi, n1, m1, v1, w1);
      var m2 := TestAndGoRuns(p, when, skip, m1);
      FrameComputed(p, env, w1, 2, m1, lo, hi, 2, m2);
      StackKept(p, env, w1, 2, m1, lo, hi, 2, m2, m2.eax, w1);
      ReadyIf(p, env, w1, e.r, skip + 1, m2, lo, hi);
      var n3, m3 := EndlessRuns(p, env, w1, e.r, skip + 1, m2, lo, hi);
      LastsAfter(p, m1, 2, m2, n3, m3, env.callees.lasts);
      LastsAfter(p, m, n1, m1, 2 + n3, m3, env.callees.lasts);
      n, m' := n1 + (2 + n3), m3;
    }
  }

  lemma ConsReady(p: Prog, env: Env, w: World, es: Exprs, nl: nat, m: State, lo: int, hi: int)
    requires es.Cons? && LabelsOk(p) && Agrees(p, env, w, m, lo, hi) && ArgsFit(es) && At(p, m.pc, ArgsCode(es, nl))
    requires lo + 4 * (ArgDepth(es) + env.callees.room) <= m.esp
    ensures Ready(p, env, w, es.head, nl, m, lo, hi)
    ensures ArgsFit(es.tail) && lo + 4 * (1 + ArgDepth(es.tail) + env.callees.room) <= m.esp
    ensures var len := |ExprCode(es.head, nl)|;
            At(p, m.pc + len, PUSH) && At(p, m.pc + len + 1, ArgsCode(es.tail, nl + Labels(es.head)))
  {
    hide Agrees, LabelsOk, ExprCode;
    var nt := nl + Labels(es.head);
    AtSplit(p, m.pc, ExprCode(es.head, nl), PUSH + ArgsCode(es.tail, nt));
    AtSplit(p, m.pc + |ExprCode(es.head, nl)|, PUSH, ArgsCode(es.tail, nt));
  }

  lemma {:induction false} EndlessArgsRuns(p: Prog, env: Env, w: World, es: Exprs, nl: nat, m: State, lo: int, hi: int)
    returns (n: nat, m': State)
    requires LabelsOk(p) && Agrees(p, env, w, m, lo, hi) && ArgsFit(es) && At(p, m.pc, ArgsCode(es, nl))
    requires lo + 4 * (ArgDepth(es) + env.callees.room) <= m.esp && EndlessArgs(es, env, w)
    ensures Run(p, m, n) == Some(m') && n >= env.callees.lasts
    decreases es, 1
  {
    hide Run, Step, Agrees, Keeps, Eval, ExprCode, ArgsCode, ArgDepth, ArgsFit, At, LabelsOk, Ready, Labels;
    ConsReady(p, env, w, es, nl, m, lo, hi);
    var h := es.head;
    if Endless(h, env, w) {
      n, m' := EndlessRuns(p, env, w, h, nl, m, lo, hi);
    } else {
      var n1, m1 := ExprRuns(p, env, w, h, nl, m, lo, hi);
      var (v, w1) := Eval(h, env, w).value;
      StackKept(p, env, w, |ExprCode(h, nl)|, m, lo, hi, n1, m1, v, w1);
      var m2 := PushRuns(p, env, w1, m1, lo, hi);
      var n3, m3 := EndlessArgsRuns(p, Down(env, 1), w1, es.tail, nl + Labels(h), m2, lo, hi);
      LastsAfter(p, m1, 1, m2, n3, m3, env.callees.lasts);
      LastsAfter(p, m, n1, m1, 1 + n3, m3, env.callees.lasts);
      n, m' := n1 + (1 + n3), m3;
    }
  }

  /** The endless call itself. */
  lemma EndlessCallRuns(p: Prog, env: Env, w: World, f: int, vs: seq<Word>, m: State, lo: int, hi: int)
    returns (n: nat, m': State)
    requires Agrees(p, env, w, m, lo, hi) && At(p, m.pc, [Op(Call(f))]) && Holding(m.mem, m.esp, Reverse(vs))
    requires m.esp + 4 * |vs| <= hi && lo + 4 * env.callees.room <= m.esp && env.callees.endless(f, vs, m.esp, w)
    ensures Run(p, m, n) == Some(m') && n >= env.callees.lasts
  {
    hide Run, Step, Holding, Reverse, Confined, Extends, At;
    assert AtCall(p, env.callees.room, f, vs, w, m, lo, hi);
    assert Lasts(p, m, env.callees.lasts);
    n :| n >= env.callees.lasts && Run(p, m, n).Some?;
    m' := Run(p, m, n).value;
  }

  lemma {:induction false} EndlessInvokeRuns(p: Prog, env: Env, w: World, f: int, args: Exprs, nl: nat, m: State,
                                             lo: int, hi: int)
    returns (n: nat, m': State)
    requires LabelsOk(p) && Agrees(p, env, w, m, lo, hi) && ArgsFit(args)
    requires lo + 4 * (Max(ArgDepth(args), Count(args)) + env.callees.room) <= m.esp
    requires At(p, m.pc, ArgsCode(args, nl) + InvokeCode(f, Count(args))) && EndlessInvoke(f, args, env, w)
    ensures Run(p, m, n) == Some(m') && n >= env.callees.lasts
    decreases args, 2
  {
    hide Run, Step, Eval, EvalArgs, EndlessArgs, ArgsCode, DropCode, Holding, Reverse, CallsWork, Confined, Extends;
    var k := Count(args);
    AtSplit(p, m.pc, ArgsCode(args, nl), InvokeCode(f, k));
    AtSplit(p, m.pc + |ArgsCode(args, nl)|, [Op(Call(f))], DropCode(k));
    if EndlessArgs(args, env, w) {
      n, m' := EndlessArgsRuns(p, env, w, args, nl, m, lo, hi);
    } else {
      var n1, m1 := ArgsRuns(p, env, w, args, nl, m, lo, hi);
      var (vs, w1) := EvalArgs(args, env, w).value;
      EvalArgsKeys(args, env, w);
      var n2, m2 := EndlessCallRuns(p, Down(env, k), w1, f, vs, m1, lo, hi);
      LastsAfter(p, m, n1, m1, n2, m2, env.callees.lasts);
      n, m' := n1 + n2, m2;
    }
  }
}
