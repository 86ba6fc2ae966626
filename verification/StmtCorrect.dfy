/** The emitted jumps of every statement follow its structured execution. */
module StmtCorrect {
  import opened Basics
  import opened Machine
  import opened Syntax
  import opened Compile
  import opened ExprProof
  import opened ExprCorrect
  import opened ExprEndless
  import opened StmtProof
  import Shapes

  const ONE: seq<Item> := [Op(LoadImm(1))]

  lemma {:induction false} StmtRuns(p: Prog, env: Env, w: World, s: Stmt, nl: nat, loops: seq<Loop>, ret: int,
                                    m: State, lo: int, fuel: nat)
    returns (n: nat, m': State)
    requires Poised(p, env, w, s, nl, loops, ret, m, lo)
    requires ExecStmt(s, env, w, fuel) != Wrong
    ensures Follows(p, env, w, m.pc + |StmtCode(s, nl, loops, ret)|, m, lo, loops, ret, fuel,
                    ExecStmt(s, env, w, fuel), n, m')
    decreases fuel, s, 1
  {
    hide Run, Step, Agrees, Keeps;
    match s
    case Skip =>
      n, m' := 0, m;
      PassedNothing(p, env, w, m, lo);
    case Do(e) =>
      if Eval(e, env, w).Some? {
        n, m' := ExprRuns(p, env, w, e, nl, m, lo, m.esp);
      } else {
        n, m' := EndlessRuns(p, env, w, e, nl, m, lo, m.esp);
      }
    case DoCall(f, args) =>
      if EvalArgs(args, env, w).Some? &&
         CallFunction(env, f, EvalArgs(args, env, w).value.0, EvalArgs(args, env, w).value.1).Some? {
        n, m' := InvokeRuns(p, env, w, f, args, nl, m, lo, m.esp);
      } else {
        n, m' := EndlessInvokeRuns(p, env, w, f, args, nl, m, lo, m.esp);
      }
    case Seq(_, _) => n, m' := SeqRuns(p, env, w, s, nl, loops, ret, m, lo, fuel);
    case If(_, _) => n, m' := IfRuns(p, env, w, s, nl, loops, ret, m, lo, fuel);
    case IfElse(_, _, _) => n, m' := IfElseRuns(p, env, w, s, nl, loops, ret, m, lo, fuel);
    case While(_, _) => n, m' := WhileRuns(p, env, w, s, nl, loops, ret, m, lo, fuel);
    case For(_, _, _, _) => n, m' := ForRuns(p, env, w, s, nl, loops, ret, m, lo, fuel);
    case DoWhile(_, _) => n, m' := DoWhileRuns(p, env, w, s, nl, loops, ret, m, lo, fuel);
    case Break => n, m' := JumpRuns(p, env, w, s, nl, loops, ret, m, lo, fuel);
    case Continue => n, m' := JumpRuns(p, env, w, s, nl, loops, ret, m, lo, fuel);
    case Return(_) => n, m' := JumpRuns(p, env, w, s, nl, loops, ret, m, lo, fuel);
  }

  lemma JumpRuns(p: Prog, env: Env, w: World, s: Stmt, nl: nat, loops: seq<Loop>, ret: int, m: State, lo: int,
                 fuel: nat)
    returns (n: nat, m': State)
    requires s.Break? || s.Continue? || s.Return?
    requires Poised(p, env, w, s, nl, loops, ret, m, lo)
    requires ExecStmt(s, env, w, fuel) != Wrong
    ensures Follows(p, env, w, m.pc + |StmtCode(s, nl, loops, ret)|, m, lo, loops, ret, fuel,
                    ExecStmt(s, env, w, fuel), n, m')
  {
    hide Run, Step, Agrees, Keeps, Eval, ExprCode;
    if s.Return? && EvalOpt(s.result, 0, env, w).None? {
      AtSplit(p, m.pc, OptCode(s.result, nl, []), Go(ret));
      n, m' := OptEndlessRuns(p, env, w, s.result, nl, [], m, lo);
    } else if s.Return? {
      AtSplit(p, m.pc, OptCode(s.result, nl, []), Go(ret));
      var n1, m1 := OptRuns(p, env, w, s.result, nl, [], 0, m, lo);
      var w1 := EvalOpt(s.result, 0, env, w).value.1;
      m' := GoPasses(p, env, w1, ret, m1, lo);
      PassedTrans(p, env, w, m, lo, n1, m1, w1, 1, m', w1);
      n := n1 + 1;
    } else {
      m' := GoPasses(p, env, w, if s.Break? then loops[|loops| - 1].brk else loops[|loops| - 1].cont, m, lo);
      n := 1;
    }
  }

  lemma SeqParts(p: Prog, env: Env, w: World, s: Stmt, nl: nat, loops: seq<Loop>, ret: int, m: State, lo: int,
                 fuel: nat)
    requires s.Seq? && Poised(p, env, w, s, nl, loops, ret, m, lo)
    ensures Poised(p, env, w, s.s1, nl, loops, ret, m, lo)
    ensures WellNested(s.s2, |loops|) && StmtFits(s.s2) && lo + 4 * (StmtDepth(s.s2) + env.callees.room) <= m.esp
    ensures var a := StmtCode(s.s1, nl, loops, ret);
            var b := StmtCode(s.s2, nl + StmtLabels(s.s1), loops, ret);
            At(p, m.pc + |a|, b) && |StmtCode(s, nl, loops, ret)| == |a| + |b|
    ensures var r := ExecStmt(s.s1, env, w, fuel);
            ExecStmt(s, env, w, fuel) == if r.Done? && r.o.Normal? then ExecStmt(s.s2, env, r.w, fuel) else r
  {
    hide Agrees, Eval, EvalArgs, ExprCode, ArgsCode, OptCode;
    AtSplit(p, m.pc, StmtCode(s.s1, nl, loops, ret), StmtCode(s.s2, nl + StmtLabels(s.s1), loops, ret));
  }

  lemma SeqRuns(p: Prog, env: Env, w: World, s: Stmt, nl: nat, loops: seq<Loop>, ret: int, m: State, lo: int, fuel: nat)
    returns (n: nat, m': State)
    requires s.Seq? && Poised(p, env, w, s, nl, loops, ret, m, lo)
    requires ExecStmt(s, env, w, fuel) != Wrong
    ensures Follows(p, env, w, m.pc + |StmtCode(s, nl, loops, ret)|, m, lo, loops, ret, fuel,
                    ExecStmt(s, env, w, fuel), n, m')
    decreases fuel, s, 0
  {
    hide Run, Step, Agrees, Keeps, StmtCode, StmtFits, StmtDepth, StmtLabels, WellNested, At, ExecStmt, LabelsOk;
    SeqParts(p, env, w, s, nl, loops, ret, m, lo, fuel);
    var a := StmtCode(s.s1, nl, loops, ret);
    var b := StmtCode(s.s2, nl + StmtLabels(s.s1), loops, ret);
    var n1, m1 := StmtRuns(p, env, w, s.s1, nl, loops, ret, m, lo, fuel);
    var r1 := ExecStmt(s.s1, env, w, fuel);
    var end := m.pc + |a| + |b|;
    if r1.Done? && r1.o.Normal? {
      FollowedPassed(p, env, w, m.pc + |a|, m, lo, loops, ret, fuel, Normal, r1.w, n1, m1);
      var n2, m2 := StmtRuns(p, env, r1.w, s.s2, nl + StmtLabels(s.s1), loops, ret, m1, lo, fuel);
      PassedThen(p, env, w, end, m, lo, loops, ret, fuel, ExecStmt(s, env, w, fuel), n1, m1, r1.w, fuel, n2, m2);
      n, m' := n1 + n2, m2;
    } else {
      n, m' := n1, m1;
      Escapes(p, env, w, m.pc + |a|, m, lo, loops, ret, fuel, r1, n, m', end, loops);
    }
  }

  /** The branch body, then its closing label. */
  lemma {:induction false} BodyThenLabel(p: Prog, env: Env, w: World, s: Stmt, nl: nat, loops: seq<Loop>, ret: int,
                                         l: int, m: State, lo: int, fuel: nat)
    returns (n: nat, m': State)
    requires Poised(p, env, w, s, nl, loops, ret, m, lo)
    requires At(p, m.pc + |StmtCode(s, nl, loops, ret)|, [Label(l)])
    requires ExecStmt(s, env, w, fuel) != Wrong
    ensures Follows(p, env, w, m.pc + |StmtCode(s, nl, loops, ret)| + 1, m, lo, loops, ret, fuel,
                    ExecStmt(s, env, w, fuel), n, m')
    decreases fuel, s, 2
  {
    hide Run, Step, Agrees, Keeps, ExecStmt, StmtCode;
    var end := m.pc + |StmtCode(s, nl, loops, ret)|;
    var n1, m1 := StmtRuns(p, env, w, s, nl, loops, ret, m, lo, fuel);
    var r := ExecStmt(s, env, w, fuel);
    if r.Done? && r.o.Normal? {
      FollowedPassed(p, env, w, end, m, lo, loops, ret, fuel, Normal, r.w, n1, m1);
      var m2 := LabelPasses(p, env, r.w, l, m1, lo);
      PassedTrans(p, env, w, m, lo, n1, m1, r.w, 1, m2, r.w);
      PassedFollows(p, env, w, end + 1, m, lo, loops, ret, fuel, Normal, n1 + 1, m2, r.w);
      n, m' := n1 + 1, m2;
    } else {
      n, m' := n1, m1;
      Escapes(p, env, w, end, m, lo, loops, ret, fuel, r, n, m', end + 1, loops);
    }
  }

  lemma IfRuns(p: Prog, env: Env, w: World, s: Stmt, nl: nat, loops: seq<Loop>, ret: int, m: State, lo: int, fuel: nat)
    returns (n: nat, m': State)
    requires s.If? && Poised(p, env, w, s, nl, loops, ret, m, lo)
    requires ExecStmt(s, env, w, fuel) != Wrong
    ensures Follows(p, env, w, m.pc + |StmtCode(s, nl, loops, ret)|, m, lo, loops, ret, fuel,
                    ExecStmt(s, env, w, fuel), n, m')
    decreases fuel, s, 0
  {
    hide Run, Step, Agrees, Keeps, Eval, ExprCode, IfShape, At, LabelsOk;
    var c := TheExpr(s.c);
    var no := nl + Labels(s.c);
    var code, body := ExprCode(s.c, nl), StmtCode(s.s, no + 1, loops, ret);
    Shapes.IfParts(p, m.pc, no, code, body);
    if EvalOpt(c, 1, env, w).None? {
      n, m' := OptEndlessRuns(p, env, w, c, nl, ONE, m, lo);
      return;
    }
    var n1, m1 := ConditionRuns(p, env, w, c, nl, ONE, IfZero, no, m, lo);
    var (v, w1) := Eval(s.c, env, w).value;
    var end := m.pc + |code| + 2 + |body| + 1;
    if v == 0 {
      m' := LabelPasses(p, env, w1, no, m1, lo);
      n := n1 + 1;
      PassedTrans(p, env, w, m, lo, n1, m1, w1, 1, m', w1);
      PassedFollows(p, env, w, end, m, lo, loops, ret, fuel, Normal, n, m', w1);
    } else {
      var n2, m2 := BodyThenLabel(p, env, w1, s.s, no + 1, loops, ret, no, m1, lo, fuel);
      PassedThen(p, env, w, end, m, lo, loops, ret, fuel, ExecStmt(s, env, w, fuel), n1, m1, w1, fuel, n2, m2);
      n, m' := n1 + n2, m2;
    }
  }

  lemma IfElseRuns(p: Prog, env: Env, w: World, s: Stmt, nl: nat, loops: seq<Loop>, ret: int, m: State, lo: int,
                   fuel: nat)
    returns (n: nat, m': State)
    requires s.IfElse? && Poised(p, env, w, s, nl, loops, ret, m, lo)
    requires ExecStmt(s, env, w, fuel) != Wrong
    ensures Follows(p, env, w, m.pc + |StmtCode(s, nl, loops, ret)|, m, lo, loops, ret, fuel,
                    ExecStmt(s, env, w, fuel), n, m')
    decreases fuel, s, 0
  {
    hide Run, Step, Agrees, Keeps, Eval, ExprCode, IfElseShape, At, LabelsOk;
    var no := nl + Labels(s.c);
    var endL := no + 1 + StmtLabels(s.s);
    var code, yesBody := ExprCode(s.c, nl), StmtCode(s.s, no + 1, loops, ret);
    var noBody := StmtCode(s.t, endL + 1, loops, ret);
    var at2 := m.pc + |code| + 2;
    Shapes.IfElseParts(p, m.pc, no, endL, code, yesBody, noBody);
    if EvalOpt(TheExpr(s.c), 1, env, w).None? {
      n, m' := OptEndlessRuns(p, env, w, TheExpr(s.c), nl, ONE, m, lo);
      return;
    }
    var n1, m1 := ConditionRuns(p, env, w, TheExpr(s.c), nl, ONE, IfZero, no, m, lo);
    var (v, w1) := Eval(s.c, env, w).value;
    var end := at2 + |yesBody| + 2 + |noBody| + 1;
    var r := ExecStmt(s, env, w, fuel);
    if v == 0 {
      var m2 := LabelPasses(p, env, w1, no, m1, lo);
      PassedTrans(p, env, w, m, lo, n1, m1, w1, 1, m2, w1);
      var n3, m3 := BodyThenLabel(p, env, w1, s.t, endL + 1, loops, ret, endL, m2, lo, fuel);
      PassedThen(p, env, w, end, m, lo, loops, ret, fuel, r, n1 + 1, m2, w1, fuel, n3, m3);
      n, m' := n1 + 1 + n3, m3;
    } else {
      var n2, m2 := ThenRuns(p, env, w1, s.s, no + 1, loops, ret, endL, end - 1, m1, lo, fuel);
      PassedThen(p, env, w, end, m, lo, loops, ret, fuel, r, n1, m1, w1, fuel, n2, m2);
      n, m' := n1 + n2, m2;
    }
  }

  /** A body followed by a jump over other code to a label at `at`. */
  lemma ThenRuns(p: Prog, env: Env, w: World, s: Stmt, nl: nat, loops: seq<Loop>, ret: int, l: int, at: int, m: State,
                 lo: int, fuel: nat)
    returns (n: nat, m': State)
    requires Poised(p, env, w, s, nl, loops, ret, m, lo)
    requires At(p, m.pc + |StmtCode(s, nl, loops, ret)|, Go(l)) && At(p, at, [Label(l)])
    requires l in p.labels && p.labels[l] == at
    requires ExecStmt(s, env, w, fuel) != Wrong
    ensures Follows(p, env, w, at + 1, m, lo, loops, ret, fuel, ExecStmt(s, env, w, fuel), n, m')
    decreases fuel, s, 2
  {
    hide Run, Step, Agrees, Keeps, ExecStmt, StmtCode;
    var end := m.pc + |StmtCode(s, nl, loops, ret)|;
    var n1, m1 := StmtRuns(p, env, w, s, nl, loops, ret, m, lo, fuel);
    var r := ExecStmt(s, env, w, fuel);
    if r.Done? && r.o.Normal? {
      FollowedPassed(p, env, w, end, m, lo, loops, ret, fuel, Normal, r.w, n1, m1);
      var m2 := GoPasses(p, env, r.w, l, m1, lo);
      var m3 := LabelPasses(p, env, r.w, l, m2, lo);
      PassedTrans(p, env, w, m, lo, n1, m1, r.w, 1, m2, r.w);
      PassedTrans(p, env, w, m, lo, n1 + 1, m2, r.w, 1, m3, r.w);
      PassedFollows(p, env, w, at + 1, m, lo, loops, ret, fuel, Normal, n1 + 2, m3, r.w);
      n, m' := n1 + 2, m3;
    } else {
      n, m' := n1, m1;
      Escapes(p, env, w, end, m, lo, loops, ret, fuel, r, n, m', at + 1, loops);
    }
  }

  /** One execution of a loop body: to the continue label (normally, through the jump or
      label that follows it, or by `continue`), or out of the loop. */
  lemma {:induction false} LoopBodyRuns(p: Prog, env: Env, w: World, s: Stmt, nl: nat, loops: seq<Loop>, ret: int,
                                        end: int, cont: int, at: int, m: State, lo: int, fuel: nat)
    returns (n: nat, m': State)
    requires Poised(p, env, w, s, nl, loops + [Loop(end, cont)], ret, m, lo)
    requires TargetsOk(p, loops, ret)
    requires var stop := m.pc + |StmtCode(s, nl, loops + [Loop(end, cont)], ret)|;
             At(p, stop, Go(cont)) || (cont in p.labels && p.labels[cont] == stop)
    requires end in p.labels && p.labels[end] == at && At(p, at, [Label(end)])
    requires ExecStmt(s, env, w, fuel) != Wrong
    ensures var r := ExecStmt(s, env, w, fuel);
            match r
            case Unfinished => n >= Smaller(fuel, env.callees.lasts) && Run(p, m, n) == Some(m')
            case Done(Broke, w1) => Passed(p, env, w, m, lo, n, m', w1) && m'.pc == at + 1
            case Done(Returned(v), w1) => Follows(p, env, w, at + 1, m, lo, loops, ret, fuel, r, n, m')
            case Done(_, w1) => Passed(p, env, w, m, lo, n, m', w1) && cont in p.labels && m'.pc == p.labels[cont] &&
                                m'.esp == m.esp && Agrees(p, env, w1, m', lo, m'.esp)
            case Wrong => true
    decreases fuel, s, 2
  {
    hide Run, Step, Agrees, Keeps, ExecStmt, StmtCode;
    var inner := loops + [Loop(end, cont)];
    var stop := m.pc + |StmtCode(s, nl, inner, ret)|;
    var n1, m1 := StmtRuns(p, env, w, s, nl, inner, ret, m, lo, fuel);
    n, m' := n1, m1;
    var r := ExecStmt(s, env, w, fuel);
    assert inner[|inner| - 1] == Loop(end, cont);
    if r.Done? && r.o.Returned? {
      Escapes(p, env, w, stop, m, lo, inner, ret, fuel, r, n1, m1, at + 1, loops);
    } else if r.Done? {
      FollowedPassed(p, env, w, stop, m, lo, inner, ret, fuel, r.o, r.w, n1, m1);
      if r.o.Broke? {
        m' := LabelPasses(p, env, r.w, end, m1, lo);
        PassedTrans(p, env, w, m, lo, n1, m1, r.w, 1, m', r.w);
        n := n1 + 1;
      } else if r.o.Normal? && !(cont in p.labels && p.labels[cont] == stop) {
        m' := GoPasses(p, env, r.w, cont, m1, lo);
        PassedTrans(p, env, w, m, lo, n1, m1, r.w, 1, m', r.w);
        n := n1 + 1;
      }
    }
  }

  lemma WhileParts(p: Prog, s: Stmt, nl: nat, loops: seq<Loop>, ret: int, pc: int)
    requires LabelsOk(p) && s.While? && WellNested(s, |loops|) && At(p, pc, StmtCode(s, nl, loops, ret))
    ensures var code := ExprCode(s.c, nl + 2);
            var body := StmtCode(s.s, nl + 2 + Labels(s.c), loops + [Loop(nl + 1, nl)], ret);
            var pb := pc + 1 + |code| + 2;
            At(p, pc, [Label(nl)]) && At(p, pc + 1, code) && At(p, pc + 1 + |code|, TestAndGo(IfZero, nl + 1)) &&
            At(p, pb, body) && At(p, pb + |body|, Go(nl)) && At(p, pb + |body| + 1, [Label(nl + 1)]) &&
            nl in p.labels && p.labels[nl] == pc && nl + 1 in p.labels && p.labels[nl + 1] == pb + |body| + 1 &&
            |StmtCode(s, nl, loops, ret)| == 1 + |code| + 2 + |body| + 2
  {
    hide ExprCode, At, LabelsOk, WhileShape;
    Shapes.WhileParts(p, pc, nl, nl + 1, ExprCode(s.c, nl + 2),
                      StmtCode(s.s, nl + 2 + Labels(s.c), loops + [Loop(nl + 1, nl)], ret));
  }

  lemma {:induction false} WhileRuns(p: Prog, env: Env, w: World, s: Stmt, nl: nat, loops: seq<Loop>, ret: int,
                                     m: State, lo: int, fuel: nat)
    returns (n: nat, m': State)
    requires s.While? && Poised(p, env, w, s, nl, loops, ret, m, lo)
    requires ExecStmt(s, env, w, fuel) != Wrong
    ensures Follows(p, env, w, m.pc + |StmtCode(s, nl, loops, ret)|, m, lo, loops, ret, fuel,
                    ExecStmt(s, env, w, fuel), n, m')
    decreases fuel, s, 0
  {
    hide Run, Step, Agrees, Keeps, Eval, ExprCode, StmtCode, At, LabelsOk;
    WhileParts(p, s, nl, loops, ret, m.pc);
    var top, endL := nl, nl + 1;
    var end := m.pc + |StmtCode(s, nl, loops, ret)|;
    var r := ExecStmt(s, env, w, fuel);
    var m1 := LabelPasses(p, env, w, top, m, lo);
    if EvalOpt(TheExpr(s.c), 1, env, w).None? {
      n, m' := OptEndlessAfter(p, env, w, m, lo, 1, m1, w, TheExpr(s.c), nl + 2, ONE);
      return;
    }
    var n2, m2 := ConditionRuns(p, env, w, TheExpr(s.c), nl + 2, ONE, IfZero, endL, m1, lo);
    var (v, w1) := Eval(s.c, env, w).value;
    PassedTrans(p, env, w, m, lo, 1, m1, w, n2, m2, w1);
    if v == 0 {
      m' := LabelPasses(p, env, w1, endL, m2, lo);
      n := 1 + n2 + 1;
      PassedTrans(p, env, w, m, lo, 1 + n2, m2, w1, 1, m', w1);
      PassedFollows(p, env, w, end, m, lo, loops, ret, fuel, Normal, n, m', w1);
    } else if fuel == 0 {
      n, m' := 1 + n2, m2;
    } else {
      var n3, m3 := LoopBodyRuns(p, env, w1, s.s, nl + 2 + Labels(s.c), loops, ret, endL, top, end - 1, m2, lo,
                                 fuel - 1);
      var r3 := ExecStmt(s.s, env, w1, fuel - 1);
      if r3.Done? && !r3.o.Returned? {
        PassedTrans(p, env, w, m, lo, 1 + n2, m2, w1, n3, m3, r3.w);
        if r3.o.Broke? {
          n, m' := 1 + n2 + n3, m3;
          PassedFollows(p, env, w, end, m, lo, loops, ret, fuel, Normal, n, m', r3.w);
        } else {
          var n4, m4 := StmtRuns(p, env, r3.w, s, nl, loops, ret, m3, lo, fuel - 1);
          n, m' := 1 + n2 + n3 + n4, m4;
          PassedThen(p, env, w, end, m, lo, loops, ret, fuel, r, 1 + n2 + n3, m3, r3.w, fuel - 1, n4, m4);
        }
      } else {
        n, m' := 1 + n2 + n3, m3;
        PassedThen(p, env, w, end, m, lo, loops, ret, fuel, r, 1 + n2, m2, w1, fuel - 1, n3, m3);
      }
    }
  }

  lemma DoWhileParts(p: Prog, s: Stmt, nl: nat, loops: seq<Loop>, ret: int, pc: int)
    requires LabelsOk(p) && s.DoWhile? && WellNested(s, |loops|) && At(p, pc, StmtCode(s, nl, loops, ret))
    ensures var body := StmtCode(s.s, nl + 3, loops + [Loop(nl + 1, nl + 2)], ret);
            var code := ExprCode(s.c, nl + 3 + StmtLabels(s.s));
            var pl := pc + 1 + |body|;
            At(p, pc, [Label(nl)]) && At(p, pc + 1, body) && At(p, pl, [Label(nl + 2)]) && At(p, pl + 1, code) &&
            At(p, pl + 1 + |code|, TestAndGo(IfNonZero, nl)) && At(p, pl + 1 + |code| + 2, [Label(nl + 1)]) &&
            nl in p.labels && p.labels[nl] == pc && nl + 2 in p.labels && p.labels[nl + 2] == pl &&
            nl + 1 in p.labels && p.labels[nl + 1] == pl + 1 + |code| + 2 &&
            |StmtCode(s, nl, loops, ret)| == 1 + |body| + 1 + |code| + 3
  {
    hide ExprCode, At, LabelsOk, DoShape;
    Shapes.DoParts(p, pc, nl, nl + 1, nl + 2, StmtCode(s.s, nl + 3, loops + [Loop(nl + 1, nl + 2)], ret),
                   ExprCode(s.c, nl + 3 + StmtLabels(s.s)));
  }

  lemma DoWhileRuns(p: Prog, env: Env, w: World, s: Stmt, nl: nat, loops: seq<Loop>, ret: int, m: State, lo: int,
                    fuel: nat)
    returns (n: nat, m': State)
    requires s.DoWhile? && Poised(p, env, w, s, nl, loops, ret, m, lo)
    requires ExecStmt(s, env, w, fuel) != Wrong
    ensures Follows(p, env, w, m.pc + |StmtCode(s, nl, loops, ret)|, m, lo, loops, ret, fuel,
                    ExecStmt(s, env, w, fuel), n, m')
    decreases fuel, s, 0
  {
    hide Run, Step, Agrees, Keeps, Eval, ExprCode, StmtCode, At, LabelsOk;
    DoWhileParts(p, s, nl, loops, ret, m.pc);
    var top, endL, cont := nl, nl + 1, nl + 2;
    var end := m.pc + |StmtCode(s, nl, loops, ret)|;
    var r := ExecStmt(s, env, w, fuel);
    var m1 := LabelPasses(p, env, w, top, m, lo);
    if fuel == 0 {
      n, m' := 1, m1;
    } else {
      var n2, m2 := LoopBodyRuns(p, env, w, s.s, nl + 3, loops, ret, endL, cont, end - 1, m1, lo, fuel - 1);
      var r2 := ExecStmt(s.s, env, w, fuel - 1);
      if r2.Done? && !r2.o.Returned? {
        PassedTrans(p, env, w, m, lo, 1, m1, w, n2, m2, r2.w);
        if r2.o.Broke? {
          n, m' := 1 + n2, m2;
          PassedFollows(p, env, w, end, m, lo, loops, ret, fuel, Normal, n, m', r2.w);
        } else {
          n, m' := DoWhileTest(p, env, w, s, nl, loops, ret, m, lo, fuel, 1 + n2, m2, r2.w);
        }
      } else {
        n, m' := 1 + n2, m2;
        PassedThen(p, env, w, end, m, lo, loops, ret, fuel, r, 1, m1, w, fuel - 1, n2, m2);
      }
    }
  }

  /** From the continue label of a do-while: test, and either leave or go round again. */
  lemma DoWhileTest(p: Prog, env: Env, w: World, s: Stmt, nl: nat, loops: seq<Loop>, ret: int, m: State, lo: int,
                    fuel: nat, n2: nat, m2: State, w2: World)
    returns (n: nat, m': State)
    requires s.DoWhile? && Poised(p, env, w, s, nl, loops, ret, m, lo) && fuel > 0
    requires var r2 := ExecStmt(s.s, env, w, fuel - 1); r2 == Done(Normal, w2) || r2 == Done(Continued, w2)
    requires ExecStmt(s, env, w, fuel) != Wrong
    requires Passed(p, env, w, m, lo, n2, m2, w2) && nl + 2 in p.labels && m2.pc == p.labels[nl + 2] && n2 >= 1
    requires m2.esp == m.esp && Agrees(p, env, w2, m2, lo, m2.esp)
    ensures Follows(p, env, w, m.pc + |StmtCode(s, nl, loops, ret)|, m, lo, loops, ret, fuel,
                    ExecStmt(s, env, w, fuel), n, m')
    decreases fuel - 1, s, 2
  {
    hide Run, Step, Agrees, Keeps, Eval, ExprCode, StmtCode, At, LabelsOk;
    DoWhileParts(p, s, nl, loops, ret, m.pc);
    var top, endL, cont := nl, nl + 1, nl + 2;
    var end := m.pc + |StmtCode(s, nl, loops, ret)|;
    var r := ExecStmt(s, env, w, fuel);
    var m3 := LabelPasses(p, env, w2, cont, m2, lo);
    PassedTrans(p, env, w, m, lo, n2, m2, w2, 1, m3, w2);
    if EvalOpt(TheExpr(s.c), 1, env, w2).None? {
      n, m' := OptEndlessAfter(p, env, w, m, lo, n2 + 1, m3, w2, TheExpr(s.c), nl + 3 + StmtLabels(s.s), ONE);
      return;
    }
    var n4, m4 := ConditionRuns(p, env, w2, TheExpr(s.c), nl + 3 + StmtLabels(s.s), ONE, IfNonZero, top, m3, lo);
    var (v, w4) := Eval(s.c, env, w2).value;
    PassedTrans(p, env, w, m, lo, n2 + 1, m3, w2, n4, m4, w4);
    if v == 0 {
      m' := LabelPasses(p, env, w4, endL, m4, lo);
      n := n2 + 1 + n4 + 1;
      PassedTrans(p, env, w, m, lo, n2 + 1 + n4, m4, w4, 1, m', w4);
      PassedFollows(p, env, w, end, m, lo, loops, ret, fuel, Normal, n, m', w4);
    } else {
      var n5, m5 := StmtRuns(p, env, w4, s, nl, loops, ret, m4, lo, fuel - 1);
      n, m' := n2 + 1 + n4 + n5, m5;
      PassedThen(p, env, w, end, m, lo, loops, ret, fuel, r, n2 + 1 + n4, m4, w4, fuel - 1, n5, m5);
    }
  }

  lemma ForRuns(p: Prog, env: Env, w: World, s: Stmt, nl: nat, loops: seq<Loop>, ret: int, m: State, lo: int, fuel: nat)
    returns (n: nat, m': State)
    requires s.For? && Poised(p, env, w, s, nl, loops, ret, m, lo)
    requires ExecStmt(s, env, w, fuel) != Wrong
    ensures Follows(p, env, w, m.pc + |StmtCode(s, nl, loops, ret)|, m, lo, loops, ret, fuel,
                    ExecStmt(s, env, w, fuel), n, m')
    decreases fuel, s, 0
  {
    hide Run, Step, Agrees, Keeps, Eval, ExprCode, ForCode;
    var nb := nl + OptLabels(s.init);
    var init, rest := OptCode(s.init, nl, []), ForCode(s.cond, s.step, s.s, nb, loops, ret);
    AtSplit(p, m.pc, init, rest);
    if EvalOpt(s.init, 0, env, w).None? {
      n, m' := OptEndlessRuns(p, env, w, s.init, nl, [], m, lo);
      return;
    }
    var n1, m1 := OptRuns(p, env, w, s.init, nl, [], 0, m, lo);
    var w1 := EvalOpt(s.init, 0, env, w).value.1;
    var n2, m2 := ForLoopRuns(p, env, w1, s.cond, s.step, s.s, nb, loops, ret, m1, lo, fuel);
    n, m' := n1 + n2, m2;
    PassedThen(p, env, w, m.pc + |init| + |rest|, m, lo, loops, ret, fuel, ExecStmt(s, env, w, fuel), n1, m1, w1,
               fuel, n2, m2);
  }

  ghost predicate ForPlaced(p: Prog, cond: OptExpr, step: OptExpr, s: Stmt, nl: nat, loops: seq<Loop>, ret: int,
                            pc: int)
    requires WellNested(s, |loops| + 1)
  {
    var top, end, stepL := nl, nl + 1, nl + 2;
    var bodyL := nl + 3 + OptLabels(cond);
    var test, next := OptCode(cond, nl + 3, ONE), OptCode(step, bodyL + 1, []);
    var body := StmtCode(s, bodyL + 1 + OptLabels(step), loops + [Loop(end, stepL)], ret);
    var p2 := pc + 1 + |test| + 2;
    var p3 := p2 + 2 + |next|;
    At(p, pc, [Label(top)]) && At(p, pc + 1, test) && At(p, pc + 1 + |test|, TestAndGo(IfZero, end)) &&
    At(p, p2, Go(bodyL)) && At(p, p2 + 1, [Label(stepL)]) && At(p, p2 + 2, next) && At(p, p3, Go(top)) &&
    At(p, p3 + 1, [Label(bodyL)]) && At(p, p3 + 2, body) && At(p, p3 + 2 + |body|, Go(stepL)) &&
    At(p, p3 + 2 + |body| + 1, [Label(end)]) &&
    top in p.labels && p.labels[top] == pc && end in p.labels && p.labels[end] == p3 + 2 + |body| + 1 &&
    stepL in p.labels && p.labels[stepL] == p2 + 1 && bodyL in p.labels && p.labels[bodyL] == p3 + 1 &&
    |ForCode(cond, step, s, nl, loops, ret)| == p3 + 2 + |body| + 2 - pc
  }

  lemma ForParts(p: Prog, cond: OptExpr, step: OptExpr, s: Stmt, nl: nat, loops: seq<Loop>, ret: int, pc: int)
    requires LabelsOk(p) && WellNested(s, |loops| + 1) && At(p, pc, ForCode(cond, step, s, nl, loops, ret))
    ensures ForPlaced(p, cond, step, s, nl, loops, ret, pc)
  {
    hide OptCode, StmtCode, At, LabelsOk, ForShape;
    var bodyL := nl + 3 + OptLabels(cond);
    Shapes.ForParts(p, pc, nl, nl + 1, nl + 2, bodyL, OptCode(cond, nl + 3, ONE), OptCode(step, bodyL + 1, []),
                    StmtCode(s, bodyL + 1 + OptLabels(step), loops + [Loop(nl + 1, nl + 2)], ret));
  }

  lemma ForLoopRuns(p: Prog, env: Env, w: World, cond: OptExpr, step: OptExpr, s: Stmt, nl: nat, loops: seq<Loop>,
                    ret: int, m: State, lo: int, fuel: nat)
    returns (n: nat, m': State)
    requires TargetsOk(p, loops, ret) && Agrees(p, env, w, m, lo, m.esp) && WellNested(s, |loops| + 1)
    requires OptFits(cond) && OptFits(step) && StmtFits(s)
    requires lo + 4 * (Max(OptDepth(cond), Max(OptDepth(step), StmtDepth(s))) + env.callees.room) <= m.esp
    requires At(p, m.pc, ForCode(cond, step, s, nl, loops, ret))
    requires ForLoop(cond, step, s, env, w, fuel) != Wrong
    ensures Follows(p, env, w, m.pc + |ForCode(cond, step, s, nl, loops, ret)|, m, lo, loops, ret, fuel,
                    ForLoop(cond, step, s, env, w, fuel), n, m')
    decreases fuel, s, 3
  {
    hide Run, Step, Agrees, Keeps, EvalOpt, OptCode, StmtCode, ForCode, At, LabelsOk;
    ForParts(p, cond, step, s, nl, loops, ret, m.pc);
    var top, endL, stepL := nl, nl + 1, nl + 2;
    var bodyL := nl + 3 + OptLabels(cond);
    var end := m.pc + |ForCode(cond, step, s, nl, loops, ret)|;
    var r := ForLoop(cond, step, s, env, w, fuel);
    var m1 := LabelPasses(p, env, w, top, m, lo);
    if EvalOpt(cond, 1, env, w).None? {
      n, m' := OptEndlessAfter(p, env, w, m, lo, 1, m1, w, cond, nl + 3, ONE);
      return;
    }
    var n2, m2 := ConditionRuns(p, env, w, cond, nl + 3, ONE, IfZero, endL, m1, lo);
    var (v, w1) := EvalOpt(cond, 1, env, w).value;
    PassedTrans(p, env, w, m, lo, 1, m1, w, n2, m2, w1);
    if v == 0 {
      m' := LabelPasses(p, env, w1, endL, m2, lo);
      n := 1 + n2 + 1;
      PassedTrans(p, env, w, m, lo, 1 + n2, m2, w1, 1, m', w1);
      PassedFollows(p, env, w, end, m, lo, loops, ret, fuel, Normal, n, m', w1);
    } else if fuel == 0 {
      n, m' := 1 + n2, m2;
    } else {
      var m3 := GoPasses(p, env, w1, bodyL, m2, lo);
      PassedTrans(p, env, w, m, lo, 1 + n2, m2, w1, 1, m3, w1);
      var m4 := LabelPasses(p, env, w1, bodyL, m3, lo);
      PassedTrans(p, env, w, m, lo, 2 + n2, m3, w1, 1, m4, w1);
      n, m' := ForBodyRuns(p, env, w, cond, step, s, nl, loops, ret, m, lo, fuel, 3 + n2, m4, w1);
    }
  }

  /** The body of a `for` whose condition held, and what comes after it. */
  lemma ForBodyRuns(p: Prog, env: Env, w: World, cond: OptExpr, step: OptExpr, s: Stmt, nl: nat, loops: seq<Loop>,
                    ret: int, m: State, lo: int, fuel: nat, k: nat, m4: State, w1: World)
    returns (n: nat, m': State)
    requires TargetsOk(p, loops, ret) && Agrees(p, env, w, m, lo, m.esp) && WellNested(s, |loops| + 1)
    requires OptFits(cond) && OptFits(step) && StmtFits(s)
    requires lo + 4 * (Max(OptDepth(cond), Max(OptDepth(step), StmtDepth(s))) + env.callees.room) <= m.esp
    requires At(p, m.pc, ForCode(cond, step, s, nl, loops, ret)) && ForPlaced(p, cond, step, s, nl, loops, ret, m.pc)
    requires ForLoop(cond, step, s, env, w, fuel) != Wrong && fuel > 0
    requires EvalOpt(cond, 1, env, w).Some? && EvalOpt(cond, 1, env, w).value.0 != 0
    requires w1 == EvalOpt(cond, 1, env, w).value.1 && Passed(p, env, w, m, lo, k, m4, w1) && k >= 1
    requires nl + 3 + OptLabels(cond) in p.labels && m4.pc == p.labels[nl + 3 + OptLabels(cond)] + 1
    requires m4.esp == m.esp && Agrees(p, env, w1, m4, lo, m4.esp)
    ensures Follows(p, env, w, m.pc + |ForCode(cond, step, s, nl, loops, ret)|, m, lo, loops, ret, fuel,
                    ForLoop(cond, step, s, env, w, fuel), n, m')
    decreases fuel - 1, s, 4
  {
    hide Run, Step, Agrees, Keeps, EvalOpt, OptCode, StmtCode, ForCode, At, LabelsOk, ExecStmt, StmtFits, OptFits,
         OptDepth, StmtDepth;
    var endL, stepL := nl + 1, nl + 2;
    var bodyL := nl + 3 + OptLabels(cond);
    var end := m.pc + |ForCode(cond, step, s, nl, loops, ret)|;
    var r := ForLoop(cond, step, s, env, w, fuel);
    var n5, m5 := LoopBodyRuns(p, env, w1, s, bodyL + 1 + OptLabels(step), loops, ret, endL, stepL, end - 1, m4, lo,
                               fuel - 1);
    var r5 := ExecStmt(s, env, w1, fuel - 1);
    if r5.Done? && !r5.o.Returned? {
      PassedTrans(p, env, w, m, lo, k, m4, w1, n5, m5, r5.w);
      if r5.o.Broke? {
        n, m' := k + n5, m5;
        PassedFollows(p, env, w, end, m, lo, loops, ret, fuel, Normal, n, m', r5.w);
      } else if EvalOpt(step, 0, env, r5.w).None? {
        n, m' := StepEndless(p, env, w, m, lo, k + n5, m5, r5.w, cond, step, s, nl, loops, ret, m.pc);
      } else {
        var n6, m6 := StepRuns(p, env, r5.w, cond, step, s, nl, loops, ret, m.pc, m5, lo);
        var w6 := EvalOpt(step, 0, env, r5.w).value.1;
        PassedTrans(p, env, w, m, lo, k + n5, m5, r5.w, n6, m6, w6);
        var n7, m7 := ForLoopRuns(p, env, w6, cond, step, s, nl, loops, ret, m6, lo, fuel - 1);
        n, m' := k + n5 + n6 + n7, m7;
        PassedThen(p, env, w, end, m, lo, loops, ret, fuel, r, k + n5 + n6, m6, w6, fuel - 1, n7, m7);
      }
    } else {
      n, m' := k + n5, m5;
      PassedThen(p, env, w, end, m, lo, loops, ret, fuel, r, k, m4, w1, fuel - 1, n5, m5);
    }
  }

  /** From the continue label of a `for`: a step expression that comes to an endless call. */
  lemma {:induction false} StepEndless(p: Prog, env: Env, w0: World, m0: State, lo: int, k: nat, m: State, w: World,
                                       cond: OptExpr, step: OptExpr, s: Stmt, nl: nat, loops: seq<Loop>, ret: int,
                                       pc: int)
    returns (n: nat, m': State)
    requires TargetsOk(p, loops, ret) && WellNested(s, |loops| + 1) && ForPlaced(p, cond, step, s, nl, loops, ret, pc)
    requires Passed(p, env, w0, m0, lo, k, m, w) && EndlessOpt(step, env, w)
    requires Agrees(p, env, w, m, lo, m.esp) && OptFits(step) && lo + 4 * (OptDepth(step) + env.callees.room) <= m.esp
    requires nl + 2 in p.labels && m.pc == p.labels[nl + 2]
    ensures Run(p, m0, n) == Some(m') && n >= env.callees.lasts
  {
    hide Run, Step, Agrees, Keeps, EndlessOpt, OptCode, OptFits, OptDepth, StmtCode, ForCode, At, LabelsOk;
    var m1 := LabelPasses(p, env, w, nl + 2, m, lo);
    PassedTrans(p, env, w0, m0, lo, k, m, w, 1, m1, w);
    n, m' := OptEndlessAfter(p, env, w0, m0, lo, k + 1, m1, w, step, nl + 3 + OptLabels(cond) + 1, []);
  }

  /** From the continue label of a `for`: the step expression, then back to the top. */
  lemma {:induction false} StepRuns(p: Prog, env: Env, w: World, cond: OptExpr, step: OptExpr, s: Stmt, nl: nat,
                                    loops: seq<Loop>, ret: int, pc: int, m: State, lo: int)
    returns (n: nat, m': State)
    requires TargetsOk(p, loops, ret) && WellNested(s, |loops| + 1) && ForPlaced(p, cond, step, s, nl, loops, ret, pc)
    requires Agrees(p, env, w, m, lo, m.esp) && OptFits(step) && lo + 4 * (OptDepth(step) + env.callees.room) <= m.esp
    requires nl + 2 in p.labels && m.pc == p.labels[nl + 2]
    requires EvalOpt(step, 0, env, w).Some?
    ensures Passed(p, env, w, m, lo, n, m', EvalOpt(step, 0, env, w).value.1) && m'.pc == pc
  {
    hide Run, Step, Agrees, Keeps, EvalOpt, OptCode, StmtCode, ForCode, At, LabelsOk;
    var m1 := LabelPasses(p, env, w, nl + 2, m, lo);
    var n2, m2 := OptRuns(p, env, w, step, nl + 3 + OptLabels(cond) + 1, [], 0, m1, lo);
    var w2 := EvalOpt(step, 0, env, w).value.1;
    PassedTrans(p, env, w, m, lo, 1, m1, w, n2, m2, w2);
    m' := GoPasses(p, env, w2, nl, m2, lo);
    PassedTrans(p, env, w, m, lo, 1 + n2, m2, w2, 1, m', w2);
    n := 1 + n2 + 1;
  }
}
