/** Every emitted instruction has an emitter, and every jump goes to a label its function
    allocates (or to one of the labels it was given). */
module Emission {
  import opened Word32
  import opened Machine
  import opened Syntax
  import opened Compile
  import opened ExprProof
  import opened StmtProof
  import opened Cpu

  /** Encodable instructions whose jump targets are in [a, b) or `outs`. */
  ghost predicate Fine(c: seq<Item>, a: int, b: int, outs: set<int>) {
    forall k :: 0 <= k < |c| && c[k].Op? ==>
      Encodable(c[k].i) && (c[k].i.Jump? ==> a <= c[k].i.to < b || c[k].i.to in outs)
  }

  lemma FineAdd(c: seq<Item>, d: seq<Item>, a: int, b: int, outs: set<int>)
    requires Fine(c, a, b, outs) && Fine(d, a, b, outs)
    ensures Fine(c + d, a, b, outs)
  {
    hide Encodable;
  }

  lemma FineLabel(l: int, d: seq<Item>, a: int, b: int, outs: set<int>)
    requires Fine(d, a, b, outs)
    ensures Fine([Label(l)] + d, a, b, outs) && Fine([Label(l)], a, b, outs) && Fine([], a, b, outs)
  {
    hide Encodable;
  }

  lemma FineGo(l: int, when: When, d: seq<Item>, a: int, b: int, outs: set<int>)
    requires Fine(d, a, b, outs) && (a <= l < b || l in outs)
    ensures Fine(Go(l) + d, a, b, outs) && Fine(TestAndGo(when, l) + d, a, b, outs) && Fine(Go(l), a, b, outs)
  {
    FineAdd(Go(l), d, a, b, outs);
    FineAdd(TestAndGo(when, l), d, a, b, outs);
  }

  lemma FineOperand(c: seq<Item>, rest: seq<Item>, a: int, b: int, outs: set<int>)
    requires Fine(c, a, b, outs) && Fine(rest, a, b, outs)
    ensures Fine(PUSH + (c + (POP + rest)), a, b, outs)
  {
    hide Fine;
    FinePush(a, b, outs);
    FineAdd(POP, rest, a, b, outs);
    FineAdd(c, POP + rest, a, b, outs);
    FineAdd(PUSH, c + (POP + rest), a, b, outs);
  }

  lemma FinePush(a: int, b: int, outs: set<int>)
    ensures Fine(PUSH, a, b, outs) && Fine(POP, a, b, outs)
  {}

  lemma FineVariables(x: Variable, a: int, b: int, outs: set<int>)
    ensures Fine([LoadVar(x)], a, b, outs) && Fine([StoreVar(x)], a, b, outs)
  {}

  lemma FineBinary(op: BinOp, a: int, b: int, outs: set<int>)
    ensures Fine(BinaryCode(op), a, b, outs)
  {}

  lemma FineOperators(op: BinOp, uop: UnOp, x: Variable, a: int, b: int, outs: set<int>)
    ensures Fine(BinaryCode(op), a, b, outs) && Fine(UnaryCode(uop), a, b, outs)
    ensures Fine([LoadVar(x)], a, b, outs) && Fine([StoreVar(x)], a, b, outs)
    ensures Fine([Op(LoadInd)], a, b, outs) && Fine([Op(StoreInd)], a, b, outs)
  {
    hide BinaryCode, LoadVar, StoreVar;
    FineBinary(op, a, b, outs);
    FineVariables(x, a, b, outs);
  }

  lemma {:induction false} FineReverse(i: nat, n: nat, a: int, b: int, outs: set<int>)
    requires i <= n / 2 && n <= 32
    ensures Fine(ReverseCode(i, n), a, b, outs)
    decreases n / 2 - i
  {
    if i < n / 2 {
      FineReverse(i + 1, n, a, b, outs);
      FineAdd(SwapCode(i, n), ReverseCode(i + 1, n), a, b, outs);
    }
  }

  lemma FineCall(index: Word, n: nat, a: int, b: int, outs: set<int>)
    requires n <= 32
    ensures Fine(CallCode(index, n), a, b, outs)
  {
    FineReverse(0, n, a, b, outs);
    FineAdd(SyscallCode(index), DropCode(n), a, b, outs);
    FineAdd(ReverseCode(0, n), SyscallCode(index) + DropCode(n), a, b, outs);
  }

  lemma FineInvoke(f: int, args: Exprs, nl: nat, a: int, b: int, outs: set<int>)
    requires Fine(ArgsCode(args, nl), a, b, outs)
    ensures Fine(ArgsCode(args, nl) + InvokeCode(f, Count(args)), a, b, outs)
  {
    assert Fine(InvokeCode(f, Count(args)), a, b, outs);
    FineAdd(ArgsCode(args, nl), InvokeCode(f, Count(args)), a, b, outs);
  }

  lemma FineShort(right: seq<Item>, when: When, skip: int, end: int, a: int, b: int, outs: set<int>)
    requires Fine(right, a, b, outs) && a <= skip < b && a <= end < b
    ensures Fine(ShortTail(right, when, skip, end), a, b, outs)
  {
    assert Fine([Op(LoadImm(Truth(when == IfZero)))], a, b, outs);
    var v4 := [Op(LoadImm(Truth(when != IfZero)))] + [Label(end)];
    assert Fine(v4, a, b, outs);
    hide Fine;
    FineLabel(skip, v4, a, b, outs);
    FineGo(end, when, [Label(skip)] + v4, a, b, outs);
    FineAdd([Op(LoadImm(Truth(when == IfZero)))], Go(end) + ([Label(skip)] + v4), a, b, outs);
    var verdict := Verdict(when, skip, end);
    FineGo(skip, when, verdict, a, b, outs);
    FineAdd(right, TestAndGo(when, skip) + verdict, a, b, outs);
    FineGo(skip, when, right + (TestAndGo(when, skip) + verdict), a, b, outs);
  }

  lemma {:induction false} ExprFine(e: Expr, nl: nat, a: int, b: int, outs: set<int>)
    requires CallsFit(e) && a <= nl && nl + Labels(e) <= b
    ensures Fine(ExprCode(e, nl), a, b, outs)
    decreases e, 1
  {
    if e.Var? {
      FineVariables(e.x, a, b, outs);
    } else if e.Deref? || e.Unary? || e.Assign? {
      UnaryFine(e, nl, a, b, outs);
    } else if e.Binary? || e.AssignOp? || e.StoreThrough? {
      OperandFine(e, nl, a, b, outs);
    } else if e.AndAlso? || e.OrElse? || e.Builtin? || e.CallFun? {
      ShortOrCallFine(e, nl, a, b, outs);
    }
  }

  lemma UnaryFine(e: Expr, nl: nat, a: int, b: int, outs: set<int>)
    requires e.Deref? || e.Unary? || e.Assign?
    requires CallsFit(e) && a <= nl && nl + Labels(e) <= b
    ensures Fine(ExprCode(e, nl), a, b, outs)
    decreases e, 0
  {
    hide Fine, ShortTail, CallCode, BinaryCode, UnaryCode, LoadVar, StoreVar;
    var local := Local(0);
    match e
    case Deref(p) =>
      ExprFine(p, nl, a, b, outs);
      FineOperators(Plus, Negate, local, a, b, outs);
      FineAdd(ExprCode(p, nl), [Op(LoadInd)], a, b, outs);
    case Unary(op, e1) =>
      ExprFine(e1, nl, a, b, outs);
      FineOperators(Plus, op, local, a, b, outs);
      FineAdd(ExprCode(e1, nl), UnaryCode(op), a, b, outs);
    case Assign(x, e1) =>
      ExprFine(e1, nl, a, b, outs);
      FineOperators(Plus, Negate, x, a, b, outs);
      FineAdd(ExprCode(e1, nl), [StoreVar(x)], a, b, outs);
  }

  lemma OperandFine(e: Expr, nl: nat, a: int, b: int, outs: set<int>)
    requires e.Binary? || e.AssignOp? || e.StoreThrough?
    requires CallsFit(e) && a <= nl && nl + Labels(e) <= b
    ensures Fine(ExprCode(e, nl), a, b, outs)
    decreases e, 0
  {
    hide Fine, ShortTail, CallCode, BinaryCode, UnaryCode, LoadVar, StoreVar;
    var local := Local(0);
    match e
    case Binary(op, l, r) =>
      var nr := nl + Labels(l);
      ExprFine(l, nl, a, b, outs);
      ExprFine(r, nr, a, b, outs);
      FineOperators(op, Negate, local, a, b, outs);
      FineOperand(ExprCode(r, nr), BinaryCode(op), a, b, outs);
      FineAdd(ExprCode(l, nl), PUSH + (ExprCode(r, nr) + (POP + BinaryCode(op))), a, b, outs);
    case AssignOp(op, x, e1) =>
      ExprFine(e1, nl, a, b, outs);
      FineOperators(op, Negate, x, a, b, outs);
      var rest := BinaryCode(op) + [StoreVar(x)];
      FineAdd(BinaryCode(op), [StoreVar(x)], a, b, outs);
      FineOperand(ExprCode(e1, nl), rest, a, b, outs);
      FineAdd([LoadVar(x)], PUSH + (ExprCode(e1, nl) + (POP + rest)), a, b, outs);
    case StoreThrough(p, e1) =>
      var nr := nl + Labels(p);
      ExprFine(p, nl, a, b, outs);
      ExprFine(e1, nr, a, b, outs);
      FineOperators(Plus, Negate, local, a, b, outs);
      FineOperand(ExprCode(e1, nr), [Op(StoreInd)], a, b, outs);
      FineAdd(ExprCode(p, nl), PUSH + (ExprCode(e1, nr) + (POP + [Op(StoreInd)])), a, b, outs);
  }

  lemma ShortOrCallFine(e: Expr, nl: nat, a: int, b: int, outs: set<int>)
    requires e.AndAlso? || e.OrElse? || e.Builtin? || e.CallFun?
    requires CallsFit(e) && a <= nl && nl + Labels(e) <= b
    ensures Fine(ExprCode(e, nl), a, b, outs)
    decreases e, 0
  {
    hide Fine, ShortTail, CallCode;
    match e
    case AndAlso(l, r) =>
      var no := nl + Labels(l);
      ExprFine(l, nl, a, b, outs);
      ExprFine(r, no + 1, a, b, outs);
      FineShort(ExprCode(r, no + 1), IfZero, no, no + 1 + Labels(r), a, b, outs);
      FineAdd(ExprCode(l, nl), ShortTail(ExprCode(r, no + 1), IfZero, no, no + 1 + Labels(r)), a, b, outs);
    case OrElse(l, r) =>
      var yes := nl + Labels(l);
      ExprFine(l, nl, a, b, outs);
      ExprFine(r, yes + 1, a, b, outs);
      FineShort(ExprCode(r, yes + 1), IfNonZero, yes, yes + 1 + Labels(r), a, b, outs);
      FineAdd(ExprCode(l, nl), ShortTail(ExprCode(r, yes + 1), IfNonZero, yes, yes + 1 + Labels(r)), a, b, outs);
    case Builtin(index, args) =>
      ArgsFine(args, nl, a, b, outs);
      FineCall(index, Count(args), a, b, outs);
      FineAdd(ArgsCode(args, nl), CallCode(index, Count(args)), a, b, outs);
    case CallFun(f, args) =>
      ArgsFine(args, nl, a, b, outs);
      FineInvoke(f, args, nl, a, b, outs);
  }

  lemma {:induction false} ArgsFine(es: Exprs, nl: nat, a: int, b: int, outs: set<int>)
    requires ArgsFit(es) && a <= nl && nl + ArgLabels(es) <= b
    ensures Fine(ArgsCode(es, nl), a, b, outs)
    decreases es, 1
  {
    match es
    case Nil =>
    case Cons(h, t) =>
      ExprFine(h, nl, a, b, outs);
      ArgsFine(t, nl + Labels(h), a, b, outs);
      FinePush(a, b, outs);
      FineAdd(PUSH, ArgsCode(t, nl + Labels(h)), a, b, outs);
      FineAdd(ExprCode(h, nl), PUSH + ArgsCode(t, nl + Labels(h)), a, b, outs);
  }

  lemma OptFine(oe: OptExpr, nl: nat, missing: seq<Item>, a: int, b: int, outs: set<int>)
    requires OptFits(oe) && a <= nl && nl + OptLabels(oe) <= b
    requires missing == [] || missing == [Op(LoadImm(1))]
    ensures Fine(OptCode(oe, nl, missing), a, b, outs)
  {
    if oe.TheExpr? { ExprFine(oe.e, nl, a, b, outs); }
  }

  lemma IfFine(no: int, test: seq<Item>, body: seq<Item>, a: int, b: int, outs: set<int>)
    requires Fine(test, a, b, outs) && Fine(body, a, b, outs) && a <= no < b
    ensures Fine(IfShape(no, test, body), a, b, outs)
  {
    assert Fine([], a, b, outs);
    hide Fine;
    FineLabel(no, [], a, b, outs);
    FineAdd(body, [Label(no)], a, b, outs);
    FineGo(no, IfZero, body + [Label(no)], a, b, outs);
    FineAdd(test, TestAndGo(IfZero, no) + (body + [Label(no)]), a, b, outs);
  }

  lemma IfElseFine(no: int, end: int, test: seq<Item>, yesBody: seq<Item>, noBody: seq<Item>, a: int, b: int,
                   outs: set<int>)
    requires Fine(test, a, b, outs) && Fine(yesBody, a, b, outs) && Fine(noBody, a, b, outs)
    requires a <= no < b && a <= end < b
    ensures Fine(IfElseShape(no, end, test, yesBody, noBody), a, b, outs)
  {
    assert Fine([], a, b, outs);
    hide Fine;
    FineLabel(end, [], a, b, outs);
    var t5 := noBody + [Label(end)];
    FineAdd(noBody, [Label(end)], a, b, outs);
    var t4 := [Label(no)] + t5;
    FineLabel(no, t5, a, b, outs);
    FineGo(end, IfZero, t4, a, b, outs);
    FineAdd(yesBody, Go(end) + t4, a, b, outs);
    FineGo(no, IfZero, yesBody + (Go(end) + t4), a, b, outs);
    FineAdd(test, TestAndGo(IfZero, no) + (yesBody + (Go(end) + t4)), a, b, outs);
  }

  lemma WhileFine(top: int, end: int, test: seq<Item>, body: seq<Item>, a: int, b: int, outs: set<int>)
    requires Fine(test, a, b, outs) && Fine(body, a, b, outs) && a <= top < b && a <= end < b
    ensures Fine(WhileShape(top, end, test, body), a, b, outs)
  {
    assert Fine([], a, b, outs);
    hide Fine;
    FineLabel(end, [], a, b, outs);
    FineGo(top, IfZero, [Label(end)], a, b, outs);
    var t2 := body + (Go(top) + [Label(end)]);
    FineAdd(body, Go(top) + [Label(end)], a, b, outs);
    FineGo(end, IfZero, t2, a, b, outs);
    FineAdd(test, TestAndGo(IfZero, end) + t2, a, b, outs);
    FineLabel(top, test + (TestAndGo(IfZero, end) + t2), a, b, outs);
  }

  lemma DoFine(top: int, end: int, cont: int, body: seq<Item>, test: seq<Item>, a: int, b: int, outs: set<int>)
    requires Fine(test, a, b, outs) && Fine(body, a, b, outs) && a <= top < b
    ensures Fine(DoShape(top, end, cont, body, test), a, b, outs)
  {
    assert Fine([], a, b, outs);
    hide Fine;
    FineLabel(end, [], a, b, outs);
    FineGo(top, IfNonZero, [Label(end)], a, b, outs);
    var t2 := test + (TestAndGo(IfNonZero, top) + [Label(end)]);
    FineAdd(test, TestAndGo(IfNonZero, top) + [Label(end)], a, b, outs);
    FineLabel(cont, t2, a, b, outs);
    FineAdd(body, [Label(cont)] + t2, a, b, outs);
    FineLabel(top, body + ([Label(cont)] + t2), a, b, outs);
  }

  lemma ForFine(top: int, end: int, stepL: int, bodyL: int, test: seq<Item>, next: seq<Item>, body: seq<Item>, a: int,
                b: int, outs: set<int>)
    requires Fine(test, a, b, outs) && Fine(next, a, b, outs) && Fine(body, a, b, outs)
    requires a <= top < b && a <= end < b && a <= stepL < b && a <= bodyL < b
    ensures Fine(ForShape(top, end, stepL, bodyL, test, next, body), a, b, outs)
  {
    assert Fine([], a, b, outs);
    hide Fine;
    FineLabel(end, [], a, b, outs);
    FineGo(stepL, IfZero, [Label(end)], a, b, outs);
    var t7 := body + (Go(stepL) + [Label(end)]);
    FineAdd(body, Go(stepL) + [Label(end)], a, b, outs);
    var t6 := [Label(bodyL)] + t7;
    FineLabel(bodyL, t7, a, b, outs);
    FineGo(top, IfZero, t6, a, b, outs);
    var t4 := next + (Go(top) + t6);
    FineAdd(next, Go(top) + t6, a, b, outs);
    var t3 := [Label(stepL)] + t4;
    FineLabel(stepL, t4, a, b, outs);
    var t2 := Go(bodyL) + t3;
    FineGo(bodyL, IfZero, t3, a, b, outs);
    FineGo(end, IfZero, t2, a, b, outs);
    FineAdd(test, TestAndGo(IfZero, end) + t2, a, b, outs);
    FineLabel(top, test + (TestAndGo(IfZero, end) + t2), a, b, outs);
  }

  ghost predicate LoopsIn(loops: seq<Loop>, a: int, b: int, outs: set<int>) {
    forall k :: 0 <= k < |loops| ==>
      (a <= loops[k].brk < b || loops[k].brk in outs) && (a <= loops[k].cont < b || loops[k].cont in outs)
  }

  lemma {:induction false} StmtFine(s: Stmt, nl: nat, loops: seq<Loop>, ret: int, a: int, b: int, outs: set<int>)
    requires WellNested(s, |loops|) && StmtFits(s) && a <= nl && nl + StmtLabels(s) <= b
    requires LoopsIn(loops, a, b, outs) && (a <= ret < b || ret in outs)
    ensures Fine(StmtCode(s, nl, loops, ret), a, b, outs)
    decreases s, 1
  {
    assert Fine([], a, b, outs);
    hide Fine, ExprCode, OptCode, Labels;
    match s
    case Skip =>
    case Do(e) => ExprFine(e, nl, a, b, outs);
    case DoCall(f, args) =>
      ArgsFine(args, nl, a, b, outs);
      FineInvoke(f, args, nl, a, b, outs);
    case Seq(s1, s2) =>
      StmtFine(s1, nl, loops, ret, a, b, outs);
      StmtFine(s2, nl + StmtLabels(s1), loops, ret, a, b, outs);
      FineAdd(StmtCode(s1, nl, loops, ret), StmtCode(s2, nl + StmtLabels(s1), loops, ret), a, b, outs);
    case If(_, _) => BranchFine(s, nl, loops, ret, a, b, outs);
    case IfElse(_, _, _) => BranchFine(s, nl, loops, ret, a, b, outs);
    case While(_, _) => LoopFine(s, nl, loops, ret, a, b, outs);
    case DoWhile(_, _) => LoopFine(s, nl, loops, ret, a, b, outs);
    case For(_, _, _, _) => LoopFine(s, nl, loops, ret, a, b, outs);
    case Break => FineGo(loops[|loops| - 1].brk, IfZero, [], a, b, outs);
    case Continue => FineGo(loops[|loops| - 1].cont, IfZero, [], a, b, outs);
    case Return(r) =>
      OptFine(r, nl, [], a, b, outs);
      FineGo(ret, IfZero, [], a, b, outs);
      FineAdd(OptCode(r, nl, []), Go(ret), a, b, outs);
  }

  lemma BranchFine(s: Stmt, nl: nat, loops: seq<Loop>, ret: int, a: int, b: int, outs: set<int>)
    requires s.If? || s.IfElse?
    requires WellNested(s, |loops|) && StmtFits(s) && a <= nl && nl + StmtLabels(s) <= b
    requires LoopsIn(loops, a, b, outs) && (a <= ret < b || ret in outs)
    ensures Fine(StmtCode(s, nl, loops, ret), a, b, outs)
    decreases s, 0
  {
    hide Fine, ExprCode, IfShape, IfElseShape, Labels;
    match s
    case If(c, s1) =>
      var no := nl + Labels(c);
      ExprFine(c, nl, a, b, outs);
      StmtFine(s1, no + 1, loops, ret, a, b, outs);
      IfFine(no, ExprCode(c, nl), StmtCode(s1, no + 1, loops, ret), a, b, outs);
    case IfElse(c, s1, s2) =>
      var no := nl + Labels(c);
      var end := no + 1 + StmtLabels(s1);
      ExprFine(c, nl, a, b, outs);
      StmtFine(s1, no + 1, loops, ret, a, b, outs);
      StmtFine(s2, end + 1, loops, ret, a, b, outs);
      IfElseFine(no, end, ExprCode(c, nl), StmtCode(s1, no + 1, loops, ret), StmtCode(s2, end + 1, loops, ret), a, b,
                 outs);
  }

  lemma LoopFine(s: Stmt, nl: nat, loops: seq<Loop>, ret: int, a: int, b: int, outs: set<int>)
    requires s.While? || s.DoWhile? || s.For?
    requires WellNested(s, |loops|) && StmtFits(s) && a <= nl && nl + StmtLabels(s) <= b
    requires LoopsIn(loops, a, b, outs) && (a <= ret < b || ret in outs)
    ensures Fine(StmtCode(s, nl, loops, ret), a, b, outs)
    decreases s, 0
  {
    hide Fine, ExprCode, WhileShape, DoShape, ForShape, OptCode, Labels;
    match s
    case While(c, s1) =>
      var inner := loops + [Loop(nl + 1, nl)];
      ExprFine(c, nl + 2, a, b, outs);
      StmtFine(s1, nl + 2 + Labels(c), inner, ret, a, b, outs);
      WhileFine(nl, nl + 1, ExprCode(c, nl + 2), StmtCode(s1, nl + 2 + Labels(c), inner, ret), a, b, outs);
    case DoWhile(s1, c) =>
      var inner := loops + [Loop(nl + 1, nl + 2)];
      StmtFine(s1, nl + 3, inner, ret, a, b, outs);
      ExprFine(c, nl + 3 + StmtLabels(s1), a, b, outs);
      DoFine(nl, nl + 1, nl + 2, StmtCode(s1, nl + 3, inner, ret), ExprCode(c, nl + 3 + StmtLabels(s1)), a, b, outs);
    case For(init, cond, step, s1) =>
      var n0 := nl + OptLabels(init);
      var inner := loops + [Loop(n0 + 1, n0 + 2)];
      var bodyL := n0 + 3 + OptLabels(cond);
      OptFine(init, nl, [], a, b, outs);
      OptFine(cond, n0 + 3, [Op(LoadImm(1))], a, b, outs);
      OptFine(step, bodyL + 1, [], a, b, outs);
      StmtFine(s1, bodyL + 1 + OptLabels(step), inner, ret, a, b, outs);
      ForFine(n0, n0 + 1, n0 + 2, bodyL, OptCode(cond, n0 + 3, [Op(LoadImm(1))]), OptCode(step, bodyL + 1, []),
              StmtCode(s1, bodyL + 1 + OptLabels(step), inner, ret), a, b, outs);
      FineAdd(OptCode(init, nl, []), ForCode(cond, step, s1, n0, loops, ret), a, b, outs);
  }

  lemma FunctionFine(s: Stmt, nl: nat)
    requires WellNested(s, 0) && StmtFits(s)
    ensures Fine(FunctionCode(s, nl), nl, nl + 1 + StmtLabels(s), {})
  {
    var a, b := nl, nl + 1 + StmtLabels(s);
    StmtFine(s, nl + 1, [], nl, a, b, {});
    assert Fine(PROLOGUE, a, b, {}) && Fine(EPILOGUE, a, b, {});
    FineLabel(nl, EPILOGUE, a, b, {});
    FineAdd(StmtCode(s, nl + 1, [], nl), [Label(nl)] + EPILOGUE, a, b, {});
    FineAdd(PROLOGUE, StmtCode(s, nl + 1, [], nl) + ([Label(nl)] + EPILOGUE), a, b, {});
  }
}
