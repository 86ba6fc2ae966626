/** Whole functions: the prologue, the body, and the epilogue that restores everything. */
module FunctionProof {
  import opened Basics
  import opened Word32
  import opened Machine
  import opened Syntax
  import opened Compile
  import opened Operators
  import opened ExprProof
  import opened StmtProof
  import opened StmtCorrect

  /** A call frame for a function entered with the return address at `top`. The source
      sees neither the saved registers, nor the saved EBP, nor the return address, nor
      the stack from `lo` up to the 32 local variables. */
  ghost predicate FrameOk(w: World, m: State, lo: int, top: int) {
    && m.esp == top && top % 4 == 0 && lo % 4 == 0 && 0 <= lo <= top - 144 && top < MODULUS - 4
    && m.trace == w.trace
    && Extends(w.mem, Known(m.mem))
    && (forall a :: lo <= a < top - 132 && a % 4 == 0 ==> a in m.mem && a !in w.mem)
    && top - 4 in m.mem && top - 4 !in w.mem && top in m.mem && top !in w.mem
  }

  /** The callee-saved registers and the way back, as stored by the prologue. */
  ghost predicate Saved(m: State, m1: State, top: int) {
    && top in m.mem && top in m1.mem && m1.mem[top] == m.mem[top]
    && top - 4 in m1.mem && m1.mem[top - 4] == m.ebp
    && top - 136 in m1.mem && m1.mem[top - 136] == m.ebx
    && top - 140 in m1.mem && m1.mem[top - 140] == m.esi
    && top - 144 in m1.mem && m1.mem[top - 144] == m.edi
  }

  lemma PushReg(p: Prog, m0: State, n: nat, m: State, r: Reg, rest: seq<Item>) returns (m': State)
    requires Run(p, m0, n) == Some(m) && At(p, m.pc, [Op(Push(r))] + rest)
    requires m.esp >= 4 && m.esp - 4 in m.mem
    requires r != Esp
    ensures m' == m.(esp := m.esp - 4, mem := m.mem[m.esp - 4 := Get(m, r)], pc := m.pc + 1)
    ensures Run(p, m0, n + 1) == Some(m') && At(p, m'.pc, rest)
  {
    hide Run, Step, At;
    m' := m.(esp := m.esp - 4, mem := m.mem[m.esp - 4 := Get(m, r)]);
    Next(p, m0, n, m, Push(r), rest, m');
    m' := m'.(pc := m.pc + 1);
  }

  lemma PopReg(p: Prog, m0: State, n: nat, m: State, r: Reg, rest: seq<Item>) returns (m': State)
    requires Run(p, m0, n) == Some(m) && At(p, m.pc, [Op(Pop(r))] + rest)
    requires m.esp in m.mem && m.esp + 4 < MODULUS
    ensures m' == Set(m.(esp := m.esp + 4), r, m.mem[m.esp]).(pc := m.pc + 1)
    ensures Run(p, m0, n + 1) == Some(m') && At(p, m'.pc, rest)
  {
    hide Run, Step;
    var m1 := Set(m.(esp := m.esp + 4), r, m.mem[m.esp]);
    Next(p, m0, n, m, Pop(r), rest, m1);
    m' := m1.(pc := m.pc + 1);
  }

  lemma FrameBounds(w: World, m: State, lo: int, top: int)
    requires FrameOk(w, m, lo, top)
    ensures 144 <= top < MODULUS - 4 && m.esp == top
    ensures top - 4 in m.mem && top - 136 in m.mem && top - 140 in m.mem && top - 144 in m.mem
  {
    assert (top - 136) % 4 == 0 && (top - 140) % 4 == 0 && (top - 144) % 4 == 0;
  }

  /** push ebp; mov ebp, esp; sub esp, 128 */
  lemma {:induction false} EnterRuns(p: Prog, m: State, top: int, rest: seq<Item>) returns (m': State)
    requires 144 <= top && m.esp == top && top - 4 in m.mem
    requires At(p, m.pc, [Op(Push(Ebp))] + ([Op(Mov(Ebp, Esp))] + ([Op(SubEsp(128))] + rest)))
    ensures Run(p, m, 3) == Some(m') && At(p, m'.pc, rest)
    ensures m' == m.(ebp := top - 4, esp := top - 132, mem := m.mem[top - 4 := m.ebp], flags := None, pc := m.pc + 3)
  {
    hide Run, Step, At;
    RunNone(p, m);
    var r2 := [Op(SubEsp(128))] + rest;
    var m1 := PushReg(p, m, 0, m, Ebp, [Op(Mov(Ebp, Esp))] + r2);
    var m2 := m1.(ebp := m1.esp);
    Next(p, m, 1, m1, Mov(Ebp, Esp), r2, m2);
    m2 := m2.(pc := m1.pc + 1);
    var m3 := m2.(esp := m2.esp - 128, flags := None);
    Next(p, m, 2, m2, SubEsp(128), rest, m3);
    m' := m3.(pc := m2.pc + 1);
  }

  lemma PrologueRuns(p: Prog, m: State, top: int) returns (m': State)
    requires 144 <= top && m.esp == top && At(p, m.pc, PROLOGUE)
    requires top - 4 in m.mem && top - 136 in m.mem && top - 140 in m.mem && top - 144 in m.mem
    ensures Run(p, m, 6) == Some(m') && m'.pc == m.pc + 6
    ensures m'.ebp == top - 4 && m'.esp == top - 144 && m'.trace == m.trace
    ensures m'.mem == m.mem[top - 4 := m.ebp][top - 136 := m.ebx][top - 140 := m.esi][top - 144 := m.edi]
  {
    hide Run, Step, At, Exec;
    var r5 := [Op(Push(Edi))] + [];
    var r4 := [Op(Push(Esi))] + r5;
    var r3 := [Op(Push(Ebx))] + r4;
    assert PROLOGUE == [Op(Push(Ebp))] + ([Op(Mov(Ebp, Esp))] + ([Op(SubEsp(128))] + r3));
    var m3 := EnterRuns(p, m, top, r3);
    var m4 := PushReg(p, m, 3, m3, Ebx, r4);
    var m5 := PushReg(p, m, 4, m4, Esi, r5);
    m' := PushReg(p, m, 5, m5, Edi, []);
  }

  lemma EpilogueRuns(p: Prog, m0: State, m: State, top: int) returns (m': State)
    requires At(p, m.pc, EPILOGUE) && Saved(m0, m, top)
    requires m.esp == top - 144 && m.ebp == top - 4 && 144 <= top < MODULUS - 4
    ensures Run(p, m, 5) == Some(m') && m'.pc == m.pc + 5 && At(p, m'.pc, [Op(Ret)])
    ensures m' == m.(esp := top, ebp := m0.ebp, ebx := m0.ebx, esi := m0.esi, edi := m0.edi, pc := m.pc + 5)
  {
    hide Run, Step;
    RunNone(p, m);
    var r4 := [Op(Pop(Ebp))] + [Op(Ret)];
    var r3 := [Op(Mov(Esp, Ebp))] + r4;
    var r2 := [Op(Pop(Ebx))] + r3;
    var r1 := [Op(Pop(Esi))] + r2;
    assert EPILOGUE == [Op(Pop(Edi))] + r1;
    var m1 := PopReg(p, m, 0, m, Edi, r1);
    var m2 := PopReg(p, m, 1, m1, Esi, r2);
    var m3 := PopReg(p, m, 2, m2, Ebx, r3);
    var m4 := m3.(esp := m3.ebp);
    Next(p, m, 3, m3, Mov(Esp, Ebp), r4, m4);
    m4 := m4.(pc := m3.pc + 1);
    m' := PopReg(p, m, 4, m4, Ebp, [Op(Ret)]);
  }

  /** What a call promises its caller once it is about to `ret`. */
  ghost predicate Returns(p: Prog, w: World, w': World, m: State, len: nat, lo: int, top: int, o: Outcome, m': State) {
    && m'.pc == m.pc + len - 1 && At(p, m'.pc, [Op(Ret)])
    && m'.esp == m.esp && m'.ebp == m.ebp && m'.ebx == m.ebx && m'.esi == m.esi && m'.edi == m.edi
    && (o.Returned? && o.value.Some? ==> m'.eax == o.value.value)
    && top in m.mem && top in m'.mem && m'.mem[top] == m.mem[top]
    && m'.trace == w'.trace && Extends(w'.mem, Known(m'.mem)) && w'.mem.Keys == w.mem.Keys
    && m'.mem.Keys == m.mem.Keys
    && (forall a :: a in m.mem && a !in w.mem && (a >= top || a < lo) ==> m'.mem[a] == m.mem[a])
  }

  lemma FunctionParts(p: Prog, s: Stmt, nl: nat, pc: int)
    requires LabelsOk(p) && WellNested(s, 0) && At(p, pc, FunctionCode(s, nl))
    ensures var body := StmtCode(s, nl + 1, [], nl);
            At(p, pc, PROLOGUE) && At(p, pc + 6, body) && At(p, pc + 6 + |body| + 1, EPILOGUE) &&
            Shapes.Placed(p, nl, pc + 6 + |body|) && |FunctionCode(s, nl)| == |body| + 13
  {
    hide StmtCode, At, LabelsOk;
    var body := StmtCode(s, nl + 1, [], nl);
    AtSplit(p, pc, PROLOGUE, body + ([Label(nl)] + EPILOGUE));
    AtSplit(p, pc + 6, body, [Label(nl)] + EPILOGUE);
    Shapes.LabelSplit(p, pc + 6 + |body|, nl, EPILOGUE);
  }

  /** The environment of a function entered with the return address at `top`. */
  function FrameEnv(p: Prog, top: int, c: Callees): Env
    requires 4 <= top < MODULUS
  {
    Env(top - 4, top - 144, p.dbase, p.sbase, p.kernel, c)
  }

  /** None of the dwords the prologue writes is the source's. */
  lemma FrameHidden(w: World, m: State, lo: int, top: int)
    requires FrameOk(w, m, lo, top)
    ensures top - 4 !in w.mem && top - 136 !in w.mem && top - 140 !in w.mem && top - 144 !in w.mem &&
            Extends(w.mem, Known(m.mem))
  {
    hide Extends, Known;
    assert (top - 136) % 4 == 0 && (top - 140) % 4 == 0 && (top - 144) % 4 == 0;
  }

  lemma FourStores(w: World, m: State, m1: State, top: int)
    requires Extends(w.mem, Known(m.mem))
    requires top - 4 in m.mem && top - 136 in m.mem && top - 140 in m.mem && top - 144 in m.mem
    requires m1.mem == m.mem[top - 4 := m.ebp][top - 136 := m.ebx][top - 140 := m.esi][top - 144 := m.edi]
    requires top - 4 !in w.mem && top - 136 !in w.mem && top - 140 !in w.mem && top - 144 !in w.mem
    ensures Extends(w.mem, Known(m1.mem)) && m1.mem.Keys == m.mem.Keys
  {
  }

  lemma AfterPrologue(p: Prog, env: Env, w: World, m: State, m1: State, lo: int, top: int)
    requires FrameOk(w, m, lo, top) && env == FrameEnv(p, top, env.callees)
    requires CallsWork(p, env.callees) && Confined(p.kernel)
    requires m1.ebp == top - 4 && m1.esp == top - 144 && m1.trace == m.trace
    requires top - 4 in m.mem && top - 136 in m.mem && top - 140 in m.mem && top - 144 in m.mem
    requires m1.mem == m.mem[top - 4 := m.ebp][top - 136 := m.ebx][top - 140 := m.esi][top - 144 := m.edi]
    ensures Agrees(p, env, w, m1, lo, m1.esp) && Saved(m, m1, top) && PrologueKeeps(w, m, m1, lo, top)
  {
    hide CallsWork, Confined, Extends, Known;
    FrameHidden(w, m, lo, top);
    FourStores(w, m, m1, top);
    assert (top - 136) % 4 == 0 && (top - 140) % 4 == 0 && (top - 144) % 4 == 0;
  }

  /** The prologue writes only into the new frame. */
  ghost predicate PrologueKeeps(w: World, m: State, m1: State, lo: int, top: int) {
    && m1.mem.Keys == m.mem.Keys
    && (forall a :: a in m.mem && a !in w.mem && (a >= top || a < lo) ==> m1.mem[a] == m.mem[a])
  }

  lemma StillSaved(p: Prog, env: Env, w: World, m: State, m1: State, n: nat, m2: State, w2: World, lo: int, top: int)
    requires FrameOk(w, m, lo, top) && Saved(m, m1, top) && m1.esp == top - 144
    requires Passed(p, env, w, m1, lo, n, m2, w2) && PrologueKeeps(w, m, m1, lo, top)
    ensures Saved(m, m2, top) && m2.esp == m1.esp && m2.ebp == m1.ebp && PrologueKeeps(w, m, m2, lo, top)
    ensures w2.mem.Keys == w.mem.Keys
  {
    hide Run, CallsWork, Confined, Extends;
    assert (top - 136) % 4 == 0 && (top - 140) % 4 == 0 && (top - 144) % 4 == 0;
  }

  /** A function at the program counter, entered with the return address at `top`, with
      stack enough for itself and for the calls it makes. */
  ghost predicate Entered(p: Prog, w: World, s: Stmt, nl: nat, m: State, lo: int, top: int, c: Callees) {
    && LabelsOk(p) && CallsWork(p, c) && Confined(p.kernel)
    && WellNested(s, 0) && StmtFits(s) && At(p, m.pc, FunctionCode(s, nl))
    && FrameOk(w, m, lo, top) && lo + 4 * (StmtDepth(s) + c.room) <= top - 144
  }

  /** From entry to `ret`: the body's outcome, every callee-saved register, the stack
      pointer and the return address restored; or, if the body runs out of fuel, at
      least that many steps. */
  lemma {:induction false} FunctionRuns(p: Prog, w: World, s: Stmt, nl: nat, m: State, lo: int, top: int, c: Callees,
                                        fuel: nat)
    returns (n: nat, m': State)
    requires Entered(p, w, s, nl, m, lo, top, c)
    requires ExecStmt(s, FrameEnv(p, top, c), w, fuel) != Wrong
    ensures Run(p, m, n) == Some(m')
    ensures var r := ExecStmt(s, FrameEnv(p, top, c), w, fuel);
            match r
            case Unfinished => n >= Smaller(fuel, c.lasts)
            case Done(o, w') => Returns(p, w, w', m, |FunctionCode(s, nl)|, lo, top, o, m')
            case Wrong => true
  {
    hide Run, Step, StmtCode, At, LabelsOk, Agrees, Keeps, Saved, FrameOk, ExecStmt, CallsWork, Confined, PrologueKeeps;
    FunctionParts(p, s, nl, m.pc);
    FrameBounds(w, m, lo, top);
    var m1 := PrologueRuns(p, m, top);
    var env := FrameEnv(p, top, c);
    AfterPrologue(p, env, w, m, m1, lo, top);
    var n2, m2 := StmtRuns(p, env, w, s, nl + 1, [], nl, m1, lo, fuel);
    Then(p, m, 6, m1, n2, m2);
    n, m' := 6 + n2, m2;
    var r := ExecStmt(s, env, w, fuel);
    if r.Done? {
      var end := m.pc + 6 + |StmtCode(s, nl + 1, [], nl)|;
      FollowedPassed(p, env, w, end, m1, lo, [], nl, fuel, r.o, r.w, n2, m2);
      StillSaved(p, env, w, m, m1, n2, m2, r.w, lo, top);
      n, m' := LeaveRuns(p, env, r.w, m, m2, nl, end, lo, top);
      Then(p, m, 6 + n2, m2, n, m');
      n := 6 + n2 + n;
      ReturnsNow(p, w, r.w, m, |FunctionCode(s, nl)|, lo, top, r.o, m2, m');
    }
  }

  lemma ReturnsNow(p: Prog, w: World, w': World, m: State, len: nat, lo: int, top: int, o: Outcome, m2: State,
                   m': State)
    requires PrologueKeeps(w, m, m2, lo, top) && m'.mem == m2.mem && m'.trace == w'.trace
    requires Extends(w'.mem, Known(m'.mem)) && w'.mem.Keys == w.mem.Keys
    requires m'.pc == m.pc + len - 1 && At(p, m'.pc, [Op(Ret)])
    requires m'.esp == m.esp && m'.ebp == m.ebp && m'.ebx == m.ebx && m'.esi == m.esi && m'.edi == m.edi
    requires o.Returned? && o.value.Some? ==> m'.eax == o.value.value
    requires top in m.mem && top in m'.mem && m'.mem[top] == m.mem[top]
    ensures Returns(p, w, w', m, len, lo, top, o, m')
  {
  }

  /** The epilogue label and the epilogue. */
  lemma {:induction false} LeaveRuns(p: Prog, env: Env, w: World, m: State, m2: State, nl: nat, end: int, lo: int,
                                     top: int)
    returns (n: nat, m': State)
    requires At(p, end, [Label(nl)]) && At(p, end + 1, EPILOGUE) && m2.pc == end
    requires Agrees(p, env, w, m2, lo, m2.esp) && Saved(m, m2, top)
    requires m2.esp == top - 144 && m2.ebp == top - 4 && 144 <= top < MODULUS - 4 && m.esp == top
    ensures Run(p, m2, n) == Some(m') && m'.eax == m2.eax && m'.mem == m2.mem
    ensures m'.pc == end + 6 && At(p, m'.pc, [Op(Ret)])
    ensures m'.esp == m.esp && m'.ebp == m.ebp && m'.ebx == m.ebx && m'.esi == m.esi && m'.edi == m.edi
    ensures top in m.mem && top in m'.mem && m'.mem[top] == m.mem[top]
    ensures m'.trace == w.trace && Extends(w.mem, Known(m'.mem))
  {
    hide Run, Step, At, CallsWork, Confined, Extends;
    var m3 := LabelRuns(p, nl, m2);
    m' := EpilogueRuns(p, m, m3, top);
    Then(p, m2, 1, m3, 5, m');
    n := 6;
  }

  /** A function that does not finish within `fuel`, or comes to an endless call, keeps the
      machine running for that long. */
  lemma FunctionLasts(p: Prog, w: World, s: Stmt, nl: nat, m: State, lo: int, top: int, c: Callees, fuel: nat)
    requires Entered(p, w, s, nl, m, lo, top, c) && ExecStmt(s, FrameEnv(p, top, c), w, fuel).Unfinished?
    ensures forall k: nat :: k <= Smaller(fuel, c.lasts) ==> Run(p, m, k).Some?
  {
    hide FrameOk, At, LabelsOk, CallsWork, Confined;
    var n, m' := FunctionRuns(p, w, s, nl, m, lo, top, c, fuel);
    forall k: nat | k <= Smaller(fuel, c.lasts) ensures Run(p, m, k).Some? {
      RunPrefix(p, m, k, n);
    }
  }

  /** A source function that no amount of fuel finishes keeps the machine running for ever,
      given that what it calls lasts as long. */
  lemma FunctionDiverges(p: Prog, w: World, s: Stmt, nl: nat, m: State, lo: int, top: int, cs: nat -> Callees)
    requires forall k: nat :: Entered(p, w, s, nl, m, lo, top, cs(k)) && cs(k).lasts >= k
    requires forall k: nat :: 4 <= top < MODULUS && ExecStmt(s, FrameEnv(p, top, cs(k)), w, k).Unfinished?
    ensures forall k: nat :: Run(p, m, k).Some?
  {
    hide Entered, ExecStmt, Run;
    forall k: nat ensures Run(p, m, k).Some? {
      assert Entered(p, w, s, nl, m, lo, top, cs(k)) && cs(k).lasts >= k;
      FunctionLasts(p, w, s, nl, m, lo, top, cs(k), k);
    }
  }

  lemma {:induction false} RunPrefix(p: Prog, m: State, k: nat, n: nat)
    requires k <= n && Run(p, m, n).Some?
    ensures Run(p, m, k).Some?
    decreases n
  {
    if k < n {
      RunPrefix(p, m, k, n - 1);
    }
  }

  /** More fuel never changes a finished execution, so its result is the program's. */
  lemma {:induction false} MoreFuel(s: Stmt, env: Env, w: World, f: nat, g: nat)
    requires f <= g && ExecStmt(s, env, w, f) != Unfinished
    ensures ExecStmt(s, env, w, g) == ExecStmt(s, env, w, f)
    decreases f, s, 1
  {
    match s
    case Skip =>
    case Do(_) =>
    case DoCall(_, _) =>
    case Seq(s1, s2) =>
      MoreFuel(s1, env, w, f, g);
      var r := ExecStmt(s1, env, w, f);
      if r.Done? && r.o.Normal? { MoreFuel(s2, env, r.w, f, g); }
    case If(c, s1) =>
      if Eval(c, env, w).Some? && Eval(c, env, w).value.0 != 0 { MoreFuel(s1, env, Eval(c, env, w).value.1, f, g); }
    case IfElse(c, s1, s2) =>
      if Eval(c, env, w).Some? {
        MoreFuel(if Eval(c, env, w).value.0 != 0 then s1 else s2, env, Eval(c, env, w).value.1, f, g);
      }
    case While(c, body) =>
      if Eval(c, env, w).Some? && Eval(c, env, w).value.0 != 0 {
        var w1 := Eval(c, env, w).value.1;
        MoreFuel(body, env, w1, f - 1, g - 1);
        var r := ExecStmt(body, env, w1, f - 1);
        if r.Done? && (r.o.Normal? || r.o.Continued?) { MoreFuel(s, env, r.w, f - 1, g - 1); }
      }
    case For(init, cond, step, body) =>
      if EvalOpt(init, 0, env, w).Some? { MoreFuelFor(cond, step, body, env, EvalOpt(init, 0, env, w).value.1, f, g); }
    case DoWhile(body, c) =>
      MoreFuel(body, env, w, f - 1, g - 1);
      var r := ExecStmt(body, env, w, f - 1);
      if r.Done? && (r.o.Normal? || r.o.Continued?) {
        var t := Eval(c, env, r.w);
        if t.Some? && t.value.0 != 0 { MoreFuel(s, env, t.value.1, f - 1, g - 1); }
      }
    case Break =>
    case Continue =>
    case Return(_) =>
  }

  lemma {:induction false} MoreFuelFor(cond: OptExpr, step: OptExpr, body: Stmt, env: Env, w: World, f: nat, g: nat)
    requires f <= g && ForLoop(cond, step, body, env, w, f) != Unfinished
    ensures ForLoop(cond, step, body, env, w, g) == ForLoop(cond, step, body, env, w, f)
    decreases f, body, 2
  {
    hide Eval, EvalOpt, ExecStmt;
    var t := EvalOpt(cond, 1, env, w);
    if t.Some? && t.value.0 != 0 {
      MoreFuel(body, env, t.value.1, f - 1, g - 1);
      var r := ExecStmt(body, env, t.value.1, f - 1);
      if r.Done? && (r.o.Normal? || r.o.Continued?) {
        var u := EvalOpt(step, 0, env, r.w);
        if u.Some? { MoreFuelFor(cond, step, body, env, u.value.1, f - 1, g - 1); }
      }
    }
  }
}
