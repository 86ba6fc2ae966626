/** Every label is placed exactly once, every jump goes to a placed label, and every
    emitted instruction is one the generator has an emitter for. */
module Labels {
  import opened Word32
  import opened Machine
  import opened Syntax
  import opened Compile

  /** How often label `l` is placed in `c`. */
  function Count(c: seq<Item>, l: int): nat {
    if c == [] then 0
    else Count(c[..|c| - 1], l) + if c[|c| - 1] == Label(l) then 1 else 0
  }

  lemma {:induction false} CountAdd(a: seq<Item>, b: seq<Item>, l: int)
    ensures Count(a + b, l) == Count(a, l) + Count(b, l)
  {
    if b == [] {
      assert a + b == a;
    } else {
      assert (a + b)[..|a + b| - 1] == a + b[..|b| - 1];
      CountAdd(a, b[..|b| - 1], l);
    }
  }

  lemma {:induction false} CountNone(c: seq<Item>, l: int)
    requires forall k :: 0 <= k < |c| ==> c[k].Op?
    ensures Count(c, l) == 0
  {
    if c != [] { CountNone(c[..|c| - 1], l); }
  }

  lemma CountLabel(k: int, l: int)
    ensures Count([Label(k)], l) == Is(k, l)
  {
    assert [Label(k)][..0] == [];
  }

  function Is(a: int, l: int): int { In(l, a, a + 1) }

  function AtLeast(l: int, a: int): int { if a <= l then 1 else 0 }

  /** 1 inside [a, b), 0 outside, for a <= b; adjacent intervals telescope. */
  function In(l: int, a: int, b: int): int { AtLeast(l, a) - AtLeast(l, b) }

  lemma {:induction false} ReverseOps(i: nat, n: nat)
    requires i <= n / 2
    ensures forall k :: 0 <= k < |ReverseCode(i, n)| ==> ReverseCode(i, n)[k].Op?
    decreases n / 2 - i
  {
    if i < n / 2 { ReverseOps(i + 1, n); }
  }

  lemma OpsOnly(when: When, t: int, l: int)
    ensures Count(TestAndGo(when, t), l) == 0 && Count(Go(t), l) == 0 && Count(PUSH, l) == 0 && Count(POP, l) == 0
  {
    CountNone(TestAndGo(when, t), l); CountNone(Go(t), l); CountNone(PUSH, l); CountNone(POP, l);
  }

  lemma ShortCount(right: seq<Item>, when: When, skip: int, end: int, l: int)
    ensures Count(ShortTail(right, when, skip, end), l) ==
            Count(right, l) + Is(skip, l) + Is(end, l)
  {
    hide AtLeast, Count, Go, TestAndGo;
    OpsOnly(when, skip, l);
    OpsOnly(when, end, l);
    var hit, miss := [Op(LoadImm(Truth(when == IfZero)))], [Op(LoadImm(Truth(when != IfZero)))];
    CountNone(hit, l); CountNone(miss, l);
    CountLabel(skip, l); CountLabel(end, l);
    var v4 := miss + [Label(end)];
    var v3 := [Label(skip)] + v4;
    var v2 := Go(end) + v3;
    CountAdd(miss, [Label(end)], l);
    CountAdd([Label(skip)], v4, l);
    CountAdd(Go(end), v3, l);
    CountAdd(hit, v2, l);
    var verdict := Verdict(when, skip, end);
    CountAdd(TestAndGo(when, skip), verdict, l);
    CountAdd(right, TestAndGo(when, skip) + verdict, l);
    CountAdd(TestAndGo(when, skip), right + (TestAndGo(when, skip) + verdict), l);
  }

  lemma {:induction false} ExprCount(e: Expr, nl: nat, l: int)
    ensures Count(ExprCode(e, nl), l) == In(l, nl, nl + Compile.Labels(e))
    decreases e, 1
  {
    hide AtLeast, Count, TestAndGo, ShortTail, CallCode, BinaryCode;
    match e
    case Num(_) => CountNone(ExprCode(e, nl), l);
    case Str(_) => CountNone(ExprCode(e, nl), l);
    case Var(_) => CountNone(ExprCode(e, nl), l);
    case AddressOf(_) => CountNone(ExprCode(e, nl), l);
    case Deref(p) =>
      ExprCount(p, nl, l);
      CountNone([Op(LoadInd)], l);
      CountAdd(ExprCode(p, nl), [Op(LoadInd)], l);
    case Unary(op, e1) =>
      ExprCount(e1, nl, l);
      CountNone(UnaryCode(op), l);
      CountAdd(ExprCode(e1, nl), UnaryCode(op), l);
    case Binary(op, a, b) =>
      BinaryCount(e, nl, l);
    case AndAlso(a, b) =>
      ShortExprCount(e, nl, IfZero, l);
    case OrElse(a, b) =>
      ShortExprCount(e, nl, IfNonZero, l);
    case Assign(x, e1) =>
      ExprCount(e1, nl, l);
      CountNone([StoreVar(x)], l);
      CountAdd(ExprCode(e1, nl), [StoreVar(x)], l);
    case AssignOp(op, x, e1) =>
      AssignOpCount(e, nl, l);
    case StoreThrough(p, e1) =>
      StoreThroughCount(e, nl, l);
    case Builtin(index, args) =>
      ArgsCount(args, nl, l);
      CallOps(index, Syntax.Count(args), l);
      CountAdd(ArgsCode(args, nl), CallCode(index, Syntax.Count(args)), l);
    case CallFun(f, args) => InvokeCount(f, args, nl, l);
  }

  lemma InvokeCount(f: int, args: Exprs, nl: nat, l: int)
    ensures Count(ArgsCode(args, nl) + InvokeCode(f, Syntax.Count(args)), l) == In(l, nl, nl + ArgLabels(args))
    decreases args, 2
  {
    hide AtLeast, Count, ArgsCode;
    ArgsCount(args, nl, l);
    CountNone(InvokeCode(f, Syntax.Count(args)), l);
    CountAdd(ArgsCode(args, nl), InvokeCode(f, Syntax.Count(args)), l);
  }

  lemma BinaryOps(op: BinOp, l: int)
    ensures Count(BinaryCode(op), l) == 0
  {
    CountNone(BinaryCode(op), l);
  }

  lemma CallOps(index: Word, n: nat, l: int)
    ensures Count(CallCode(index, n), l) == 0
  {
    ReverseOps(0, n);
    CountNone(CallCode(index, n), l);
  }

  lemma OperandCount(e: Expr, nl: nat, rest: seq<Item>, l: int)
    ensures Count(PUSH + (ExprCode(e, nl) + (POP + rest)), l) == In(l, nl, nl + Compile.Labels(e)) + Count(rest, l)
    decreases e, 2
  {
    hide AtLeast, Count, ExprCode;
    ExprCount(e, nl, l);
    OpsOnly(Always, 0, l);
    CountAdd(POP, rest, l);
    CountAdd(ExprCode(e, nl), POP + rest, l);
    CountAdd(PUSH, ExprCode(e, nl) + (POP + rest), l);
  }

  lemma ShortExprCount(e: Expr, nl: nat, when: When, l: int)
    requires (e.AndAlso? && when == IfZero) || (e.OrElse? && when == IfNonZero)
    ensures Count(ExprCode(e, nl), l) == In(l, nl, nl + Compile.Labels(e))
    decreases e, 0
  {
    hide AtLeast, Count, ShortTail, ExprCode, Compile.Labels;
    var skip := nl + Compile.Labels(e.l);
    var end := skip + 1 + Compile.Labels(e.r);
    ShortForm(e, nl, when);
    ExprCount(e.l, nl, l);
    ExprCount(e.r, skip + 1, l);
    ShortCount(ExprCode(e.r, skip + 1), when, skip, end, l);
    CountAdd(ExprCode(e.l, nl), ShortTail(ExprCode(e.r, skip + 1), when, skip, end), l);
  }

  lemma BinaryCount(e: Expr, nl: nat, l: int)
    requires e.Binary?
    ensures Count(ExprCode(e, nl), l) == In(l, nl, nl + Compile.Labels(e))
    decreases e, 0
  {
    hide AtLeast, Count, TestAndGo, ShortTail, CallCode, BinaryCode;
    ExprCount(e.l, nl, l);
    OperandCount(e.r, nl + Compile.Labels(e.l), BinaryCode(e.bop), l);
    BinaryOps(e.bop, l);
    CountAdd(ExprCode(e.l, nl), PUSH + (ExprCode(e.r, nl + Compile.Labels(e.l)) + (POP + BinaryCode(e.bop))), l);
  }

  lemma AssignOpCount(e: Expr, nl: nat, l: int)
    requires e.AssignOp?
    ensures Count(ExprCode(e, nl), l) == In(l, nl, nl + Compile.Labels(e))
    decreases e, 0
  {
    hide AtLeast, Count, TestAndGo, ShortTail, CallCode, BinaryCode;
    var rest := BinaryCode(e.aop) + [StoreVar(e.x)];
    BinaryOps(e.aop, l);
    CountNone([StoreVar(e.x)], l);
    CountAdd(BinaryCode(e.aop), [StoreVar(e.x)], l);
    OperandCount(e.e, nl, rest, l);
    CountNone([LoadVar(e.x)], l);
    CountAdd([LoadVar(e.x)], PUSH + (ExprCode(e.e, nl) + (POP + rest)), l);
  }

  lemma StoreThroughCount(e: Expr, nl: nat, l: int)
    requires e.StoreThrough?
    ensures Count(ExprCode(e, nl), l) == In(l, nl, nl + Compile.Labels(e))
    decreases e, 0
  {
    hide AtLeast, Count, TestAndGo, ShortTail, CallCode, BinaryCode;
    ExprCount(e.p, nl, l);
    CountNone([Op(StoreInd)], l);
    OperandCount(e.e, nl + Compile.Labels(e.p), [Op(StoreInd)], l);
    CountAdd(ExprCode(e.p, nl), PUSH + (ExprCode(e.e, nl + Compile.Labels(e.p)) + (POP + [Op(StoreInd)])), l);
  }

  lemma ShortForm(e: Expr, nl: nat, when: When)
    requires (e.AndAlso? && when == IfZero) || (e.OrElse? && when == IfNonZero)
    ensures var skip := nl + Compile.Labels(e.l);
            var end := skip + 1 + Compile.Labels(e.r);
            && ExprCode(e, nl) == ExprCode(e.l, nl) + ShortTail(ExprCode(e.r, skip + 1), when, skip, end)
            && Compile.Labels(e) == Compile.Labels(e.l) + Compile.Labels(e.r) + 2
  {
    hide ShortTail;
  }

  lemma {:induction false} ArgsCount(es: Exprs, nl: nat, l: int)
    ensures Count(ArgsCode(es, nl), l) == In(l, nl, nl + ArgLabels(es))
    decreases es, 1
  {
    hide AtLeast, Count, ExprCode, Compile.Labels;
    match es
    case Nil => CountNone([], l);
    case Cons(h, t) =>
      var nt := nl + Compile.Labels(h);
      ExprCount(h, nl, l);
      ArgsCount(t, nt, l);
      OpsOnly(Always, 0, l);
      CountAdd(PUSH, ArgsCode(t, nt), l);
      CountAdd(ExprCode(h, nl), PUSH + ArgsCode(t, nt), l);
  }

  // ----- statements -----


  lemma LabelThen(k: int, rest: seq<Item>, l: int)
    ensures Count([Label(k)] + rest, l) == Is(k, l) + Count(rest, l)
  {
    hide AtLeast, Count;
    CountLabel(k, l);
    CountAdd([Label(k)], rest, l);
  }

  lemma GoThen(t: int, rest: seq<Item>, l: int)
    ensures Count(Go(t) + rest, l) == Count(rest, l)
  {
    hide AtLeast, Count, Go;
    OpsOnly(Always, t, l);
    CountAdd(Go(t), rest, l);
  }

  lemma TestThen(when: When, t: int, rest: seq<Item>, l: int)
    ensures Count(TestAndGo(when, t) + rest, l) == Count(rest, l)
  {
    hide AtLeast, Count, TestAndGo;
    OpsOnly(when, t, l);
    CountAdd(TestAndGo(when, t), rest, l);
  }

  lemma IfCount(no: int, test: seq<Item>, body: seq<Item>, l: int)
    ensures Count(IfShape(no, test, body), l) == Count(test, l) + Count(body, l) + Is(no, l)
  {
    hide AtLeast, Count, TestAndGo;
    CountLabel(no, l);
    CountAdd(body, [Label(no)], l);
    TestThen(IfZero, no, body + [Label(no)], l);
    CountAdd(test, TestAndGo(IfZero, no) + (body + [Label(no)]), l);
  }

  lemma IfElseCount(no: int, end: int, test: seq<Item>, yesBody: seq<Item>, noBody: seq<Item>, l: int)
    ensures Count(IfElseShape(no, end, test, yesBody, noBody), l) ==
            Count(test, l) + Count(yesBody, l) + Count(noBody, l) + Is(no, l) + Is(end, l)
  {
    hide AtLeast, Count, TestAndGo, Go;
    CountLabel(end, l);
    var t5 := noBody + [Label(end)];
    CountAdd(noBody, [Label(end)], l);
    var t4 := [Label(no)] + t5;
    LabelThen(no, t5, l);
    var t3 := Go(end) + t4;
    GoThen(end, t4, l);
    CountAdd(yesBody, t3, l);
    TestThen(IfZero, no, yesBody + t3, l);
    CountAdd(test, TestAndGo(IfZero, no) + (yesBody + t3), l);
  }

  lemma WhileCount(top: int, end: int, test: seq<Item>, body: seq<Item>, l: int)
    ensures Count(WhileShape(top, end, test, body), l) == Count(test, l) + Count(body, l) + Is(top, l) + Is(end, l)
  {
    hide AtLeast, Count, TestAndGo, Go;
    CountLabel(end, l);
    var t3 := Go(top) + [Label(end)];
    GoThen(top, [Label(end)], l);
    CountAdd(body, t3, l);
    TestThen(IfZero, end, body + t3, l);
    var t1 := TestAndGo(IfZero, end) + (body + t3);
    CountAdd(test, t1, l);
    LabelThen(top, test + t1, l);
  }

  lemma DoCount(top: int, end: int, cont: int, body: seq<Item>, test: seq<Item>, l: int)
    ensures Count(DoShape(top, end, cont, body, test), l) ==
            Count(test, l) + Count(body, l) + Is(top, l) + Is(end, l) + Is(cont, l)
  {
    hide AtLeast, Count, TestAndGo;
    CountLabel(end, l);
    TestThen(IfNonZero, top, [Label(end)], l);
    var t2 := test + (TestAndGo(IfNonZero, top) + [Label(end)]);
    CountAdd(test, TestAndGo(IfNonZero, top) + [Label(end)], l);
    LabelThen(cont, t2, l);
    CountAdd(body, [Label(cont)] + t2, l);
    LabelThen(top, body + ([Label(cont)] + t2), l);
  }

  lemma ForCount(top: int, end: int, stepL: int, bodyL: int, test: seq<Item>, next: seq<Item>, body: seq<Item>, l: int)
    ensures Count(ForShape(top, end, stepL, bodyL, test, next, body), l) ==
            Count(test, l) + Count(next, l) + Count(body, l) + Is(top, l) + Is(end, l) + Is(stepL, l) + Is(bodyL, l)
  {
    hide AtLeast, Count, TestAndGo, Go;
    CountLabel(end, l);
    GoThen(stepL, [Label(end)], l);
    var t7 := body + (Go(stepL) + [Label(end)]);
    CountAdd(body, Go(stepL) + [Label(end)], l);
    var t6 := [Label(bodyL)] + t7;
    LabelThen(bodyL, t7, l);
    var t5 := Go(top) + t6;
    GoThen(top, t6, l);
    var t4 := next + t5;
    CountAdd(next, t5, l);
    var t3 := [Label(stepL)] + t4;
    LabelThen(stepL, t4, l);
    var t2 := Go(bodyL) + t3;
    GoThen(bodyL, t3, l);
    var t1 := TestAndGo(IfZero, end) + t2;
    TestThen(IfZero, end, t2, l);
    CountAdd(test, t1, l);
    LabelThen(top, test + t1, l);
  }

  lemma OptCount(oe: OptExpr, nl: nat, missing: seq<Item>, l: int)
    requires missing == [] || missing == [Op(LoadImm(1))]
    ensures Count(OptCode(oe, nl, missing), l) == In(l, nl, nl + OptLabels(oe))
  {
    hide AtLeast, Count, ExprCode;
    if oe.NoExpr? { CountNone(missing, l); } else { ExprCount(oe.e, nl, l); }
  }

  /** The labels a statement allocates are exactly the labels it places, once each. */
  lemma {:induction false} StmtCount(s: Stmt, nl: nat, loops: seq<Loop>, ret: int, l: int)
    requires WellNested(s, |loops|)
    ensures Count(StmtCode(s, nl, loops, ret), l) == In(l, nl, nl + StmtLabels(s))
    decreases s, 1
  {
    hide AtLeast, Count, ExprCode, IfShape, IfElseShape, WhileShape, DoShape, ForShape, OptCode;
    match s
    case Skip => CountNone([], l);
    case Do(e) => ExprCount(e, nl, l);
    case DoCall(f, args) => InvokeCount(f, args, nl, l);
    case Seq(s1, s2) =>
      StmtCount(s1, nl, loops, ret, l);
      StmtCount(s2, nl + StmtLabels(s1), loops, ret, l);
      CountAdd(StmtCode(s1, nl, loops, ret), StmtCode(s2, nl + StmtLabels(s1), loops, ret), l);
    case If(_, _) => BranchCount(s, nl, loops, ret, l);
    case IfElse(_, _, _) => BranchCount(s, nl, loops, ret, l);
    case While(_, _) => LoopCount(s, nl, loops, ret, l);
    case DoWhile(_, _) => LoopCount(s, nl, loops, ret, l);
    case For(init, cond, step, s1) =>
      OptCount(init, nl, [], l);
      ForBodyCount(cond, step, s1, nl + OptLabels(init), loops, ret, l);
      CountAdd(OptCode(init, nl, []), ForCode(cond, step, s1, nl + OptLabels(init), loops, ret), l);
    case Break => OpsOnly(Always, loops[|loops| - 1].brk, l);
    case Continue => OpsOnly(Always, loops[|loops| - 1].cont, l);
    case Return(r) =>
      OptCount(r, nl, [], l);
      OpsOnly(Always, ret, l);
      CountAdd(OptCode(r, nl, []), Go(ret), l);
  }

  lemma BranchCount(s: Stmt, nl: nat, loops: seq<Loop>, ret: int, l: int)
    requires WellNested(s, |loops|) && (s.If? || s.IfElse?)
    ensures Count(StmtCode(s, nl, loops, ret), l) == In(l, nl, nl + StmtLabels(s))
    decreases s, 0
  {
    hide AtLeast, Count, ExprCode, IfShape, IfElseShape, Compile.Labels;
    var no := nl + Compile.Labels(s.c);
    var end := no + 1 + StmtLabels(s.s);
    ExprCount(s.c, nl, l);
    StmtCount(s.s, no + 1, loops, ret, l);
    if s.If? {
      IfCount(no, ExprCode(s.c, nl), StmtCode(s.s, no + 1, loops, ret), l);
    } else {
      StmtCount(s.t, end + 1, loops, ret, l);
      IfElseCount(no, end, ExprCode(s.c, nl), StmtCode(s.s, no + 1, loops, ret), StmtCode(s.t, end + 1, loops, ret), l);
    }
  }

  lemma LoopCount(s: Stmt, nl: nat, loops: seq<Loop>, ret: int, l: int)
    requires WellNested(s, |loops|) && (s.While? || s.DoWhile?)
    ensures Count(StmtCode(s, nl, loops, ret), l) == In(l, nl, nl + StmtLabels(s))
    decreases s, 0
  {
    hide AtLeast, Count, ExprCode, WhileShape, DoShape, Compile.Labels;
    if s.While? {
      var inner := loops + [Loop(nl + 1, nl)];
      var nb := nl + 2 + Compile.Labels(s.c);
      ExprCount(s.c, nl + 2, l);
      StmtCount(s.s, nb, inner, ret, l);
      WhileCount(nl, nl + 1, ExprCode(s.c, nl + 2), StmtCode(s.s, nb, inner, ret), l);
    } else {
      var inner := loops + [Loop(nl + 1, nl + 2)];
      var nc := nl + 3 + StmtLabels(s.s);
      StmtCount(s.s, nl + 3, inner, ret, l);
      ExprCount(s.c, nc, l);
      DoCount(nl, nl + 1, nl + 2, StmtCode(s.s, nl + 3, inner, ret), ExprCode(s.c, nc), l);
    }
  }

  lemma ForBodyCount(cond: OptExpr, step: OptExpr, s: Stmt, nl: nat, loops: seq<Loop>, ret: int, l: int)
    requires WellNested(s, |loops| + 1)
    ensures Count(ForCode(cond, step, s, nl, loops, ret), l) == In(l, nl, nl + ForLabels(cond, step, s))
    decreases s, 2
  {
    hide AtLeast, Count, ForShape, OptCode, StmtCode;
    var inner := loops + [Loop(nl + 1, nl + 2)];
    var bodyL := nl + 3 + OptLabels(cond);
    OptCount(cond, nl + 3, [Op(LoadImm(1))], l);
    OptCount(step, bodyL + 1, [], l);
    StmtCount(s, bodyL + 1 + OptLabels(step), inner, ret, l);
    ForCount(nl, nl + 1, nl + 2, bodyL, OptCode(cond, nl + 3, [Op(LoadImm(1))]), OptCode(step, bodyL + 1, []),
             StmtCode(s, bodyL + 1 + OptLabels(step), inner, ret), l);
  }

  lemma FunctionCount(s: Stmt, nl: nat, l: int)
    requires WellNested(s, 0)
    ensures Count(FunctionCode(s, nl), l) == In(l, nl, nl + 1 + StmtLabels(s))
  {
    hide AtLeast, Count, StmtCode;
    StmtCount(s, nl + 1, [], nl, l);
    CountNone(PROLOGUE, l);
    CountNone(EPILOGUE, l);
    LabelThen(nl, EPILOGUE, l);
    CountAdd(StmtCode(s, nl + 1, [], nl), [Label(nl)] + EPILOGUE, l);
    CountAdd(PROLOGUE, StmtCode(s, nl + 1, [], nl) + ([Label(nl)] + EPILOGUE), l);
  }

  // ----- the label table -----

  /** Where each label was placed last. */
  function LabelIndex(items: seq<Item>): map<int, int> {
    if items == [] then map[]
    else
      var n := |items| - 1;
      var prev := LabelIndex(items[..n]);
      if items[n].Label? then prev[items[n].id := n] else prev
  }

  lemma {:induction false} LabelIndexSound(items: seq<Item>)
    requires forall l :: Count(items, l) <= 1
    ensures forall i :: 0 <= i < |items| && items[i].Label? ==>
              items[i].id in LabelIndex(items) && LabelIndex(items)[items[i].id] == i
    ensures forall l :: l in LabelIndex(items) ==> 0 <= LabelIndex(items)[l] < |items| && Count(items, l) == 1
    ensures forall l :: Count(items, l) == 1 ==> l in LabelIndex(items)
  {
    if items != [] {
      var n := |items| - 1;
      var init := items[..n];
      forall l ensures Count(init, l) <= Count(items, l) {}
      LabelIndexSound(init);
      if items[n].Label? {
        assert Count(init, items[n].id) == 0;
      }
    }
  }
}
