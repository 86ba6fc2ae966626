/** Functions that call one another: what a call means, and that the code behind every
    call does it, recursion included. */
module Calls {
  import opened Basics
  import opened Word32
  import opened Machine
  import opened Syntax
  import opened Compile
  import opened Operators
  import opened ExprProof
  import opened StmtProof
  import opened FunctionProof

  /** The functions of a program, and where its sections are. */
  datatype Source = Source(fs: seq<Stmt>, dbase: int, sbase: int, kernel: Kernel)

  // ----- what a call means -----

  /** With `n` arguments ending at `sp`: the cells of the parameters, the last argument
      pushed being the first parameter, and those of the 32 locals. */
  function ParamCells(sp: int, n: nat): set<int> { set i | 0 <= i < n :: sp + 4 * i }

  function LocalCells(sp: int): set<int> { set i | 0 <= i < 32 :: sp - 136 + 4 * i }

  /** The value a call finds in a cell: an argument, nothing yet, or what was there. */
  function FrameCell(w: World, vs: seq<Word>, sp: int, a: int): Option<Word> {
    var i := (a - sp) / 4;
    if 0 <= i < |vs| && a == sp + 4 * i then Some(Reverse(vs)[i])
    else if a in LocalCells(sp) then None
    else if a in w.mem then w.mem[a] else None
  }

  /** The world as a called function first sees it. */
  function FrameWorld(w: World, vs: seq<Word>, sp: int): World {
    World(map a | a in w.mem.Keys + ParamCells(sp, |vs|) + LocalCells(sp) :: FrameCell(w, vs, sp, a), w.trace)
  }

  /** Parameter `i` of a function, at [ebp + 8 + 4i], is the argument as many places from
      the end of the call: with two or more arguments the order is turned round. */
  lemma ParametersReversed(w: World, vs: seq<Word>, sp: int, i: nat)
    requires i < |vs| && 8 <= sp < MODULUS
    ensures var a := (sp - 8) + 8 + 4 * i;
            a in FrameWorld(w, vs, sp).mem && FrameWorld(w, vs, sp).mem[a] == Some(vs[|vs| - 1 - i])
  {
    assert sp + 4 * i in ParamCells(sp, |vs|);
  }

  /** The caller's world again, with what the call left in it. */
  function CallerWorld(w: World, w': World): World {
    World(map a | a in w.mem && a in w'.mem :: w'.mem[a], w'.trace)
  }

  function Deepest(fs: seq<Stmt>): nat {
    if fs == [] then 0 else Max(Deepest(fs[..|fs| - 1]), StmtDepth(fs[|fs| - 1]))
  }

  /** Stack for calls nested `d` deep: a return address, a frame and the temporaries each. */
  function RoomFor(fs: seq<Stmt>, d: nat): nat {
    if d == 0 then 0 else 37 + Deepest(fs) + RoomFor(fs, d - 1)
  }

  /** What can be called `d` deep, with loops turning at most `fuel` deep: what calls mean,
      and which are not finished by then. Calls nested deeper have no meaning, and count as
      endless if `deep`: then an endless call takes at least its depth in steps, and
      otherwise at least its fuel. */
  function CalleesOf(src: Source, d: nat, fuel: nat, deep: bool): Callees
    decreases d, 0
  {
    var room, lasts := RoomFor(src.fs, d), if deep then Smaller(fuel, d) else fuel;
    if d == 0 then
      Callees((f: int, vs: seq<Word>, sp: int, w: World) => None, (f: int, vs: seq<Word>, sp: int, w: World) => deep,
              room, lasts)
    else
      Callees((f: int, vs: seq<Word>, sp: int, w: World) => BodyMeaning(src, d - 1, fuel, deep, f, vs, sp, w),
              (f: int, vs: seq<Word>, sp: int, w: World) => BodyEndless(src, d - 1, fuel, deep, f, vs, sp, w),
              room, lasts)
  }

  function MeaningOf(src: Source, d: nat, fuel: nat, deep: bool): Meaning {
    CalleesOf(src, d, fuel, deep).call
  }

  /** A call executes the body in a new frame below its arguments. */
  function BodyResult(src: Source, d: nat, fuel: nat, deep: bool, f: int, vs: seq<Word>, sp: int, w: World): Result
    decreases d, 1
  {
    if !(0 <= f < |src.fs|) || !(8 <= sp < MODULUS) then Wrong
    else
      var env := Env(sp - 8, sp - 148, src.dbase, src.sbase, src.kernel, CalleesOf(src, d, fuel, deep));
      ExecStmt(src.fs[f], env, FrameWorld(w, vs, sp), fuel)
  }

  function BodyMeaning(src: Source, d: nat, fuel: nat, deep: bool, f: int, vs: seq<Word>, sp: int,
                       w: World): Option<(Option<Word>, World)>
    decreases d, 2
  {
    match BodyResult(src, d, fuel, deep, f, vs, sp, w)
    case Done(o, w') => Some((if o.Returned? then o.value else None, CallerWorld(w, w')))
    case _ => None
  }

  predicate BodyEndless(src: Source, d: nat, fuel: nat, deep: bool, f: int, vs: seq<Word>, sp: int, w: World)
    decreases d, 2
  {
    BodyResult(src, d, fuel, deep, f, vs, sp, w).Unfinished?
  }

  // ----- more depth and more fuel -----

  /** `c'` means what `c` does wherever `c` means anything. */
  ghost predicate Refines(c: Meaning, c': Meaning) {
    forall f, vs, sp, w :: c(f, vs, sp, w).Some? ==> c'(f, vs, sp, w) == c(f, vs, sp, w)
  }

  lemma {:induction false} EvalMore(e: Expr, env: Env, w: World, more: Callees)
    requires Refines(env.callees.call, more.call) && Eval(e, env, w).Some?
    ensures Eval(e, env.(callees := more), w) == Eval(e, env, w)
  {
    hide BinaryValue, CallKernel, UnaryValue, CallFunction, Refines, Read, Put, AddrOf;
    VarMore(env, more);
    match e
    case Num(_) =>
    case Str(_) =>
    case Var(_) =>
    case AddressOf(_) =>
    case Deref(p) => EvalMore(p, env, w, more);
    case Unary(_, e1) => EvalMore(e1, env, w, more);
    case Binary(_, l, r) =>
      EvalMore(l, env, w, more);
      EvalMore(r, Down(env, 1), Eval(l, env, w).value.1, more);
    case AndAlso(l, r) =>
      EvalMore(l, env, w, more);
      if Eval(l, env, w).value.0 != 0 { EvalMore(r, env, Eval(l, env, w).value.1, more); }
    case OrElse(l, r) =>
      EvalMore(l, env, w, more);
      if Eval(l, env, w).value.0 == 0 { EvalMore(r, env, Eval(l, env, w).value.1, more); }
    case Assign(_, e1) => EvalMore(e1, env, w, more);
    case AssignOp(_, _, e1) => EvalMore(e1, Down(env, 1), w, more);
    case StoreThrough(p, e1) =>
      EvalMore(p, env, w, more);
      EvalMore(e1, Down(env, 1), Eval(p, env, w).value.1, more);
    case Builtin(_, args) => EvalArgsMore(args, env, w, more);
    case CallFun(f, args) =>
      EvalArgsMore(args, env, w, more);
      CallMore(env, f, EvalArgs(args, env, w).value.0, EvalArgs(args, env, w).value.1, more);
  }

  lemma VarMore(env: Env, more: Callees)
    ensures forall x :: AddrOf(env.(callees := more), x) == AddrOf(env, x)
  {
  }

  lemma CallMore(env: Env, f: int, vs: seq<Word>, w: World, more: Callees)
    requires Refines(env.callees.call, more.call) && CallFunction(env, f, vs, w).Some?
    ensures CallFunction(env.(callees := more), f, vs, w) == CallFunction(env, f, vs, w)
  {
  }

  lemma {:induction false} EvalArgsMore(es: Exprs, env: Env, w: World, more: Callees)
    requires Refines(env.callees.call, more.call) && EvalArgs(es, env, w).Some?
    ensures EvalArgs(es, env.(callees := more), w) == EvalArgs(es, env, w)
  {
    match es
    case Nil =>
    case Cons(h, t) =>
      EvalMore(h, env, w, more);
      EvalArgsMore(t, Down(env, 1), Eval(h, env, w).value.1, more);
  }

  lemma EvalOptMore(oe: OptExpr, default: Word, env: Env, w: World, more: Callees)
    requires Refines(env.callees.call, more.call) && EvalOpt(oe, default, env, w).Some?
    ensures EvalOpt(oe, default, env.(callees := more), w) == EvalOpt(oe, default, env, w)
  {
    if oe.TheExpr? { EvalMore(oe.e, env, w, more); }
  }

  /** A finished execution stays the same when calls mean more. */
  lemma {:induction false} ExecMore(s: Stmt, env: Env, w: World, fuel: nat, more: Callees)
    requires Refines(env.callees.call, more.call) && ExecStmt(s, env, w, fuel).Done?
    ensures ExecStmt(s, env.(callees := more), w, fuel) == ExecStmt(s, env, w, fuel)
    decreases fuel, s, 1
  {
    hide Eval, EvalArgs, CallFunction, Refines;
    match s
    case Skip =>
    case Do(e) => EvalMore(e, env, w, more);
    case DoCall(f, args) =>
      EvalArgsMore(args, env, w, more);
      CallMore(env, f, EvalArgs(args, env, w).value.0, EvalArgs(args, env, w).value.1, more);
    case Seq(s1, s2) =>
      ExecMore(s1, env, w, fuel, more);
      var r := ExecStmt(s1, env, w, fuel);
      if r.o.Normal? { ExecMore(s2, env, r.w, fuel, more); }
    case If(c, s1) =>
      EvalMore(c, env, w, more);
      if Eval(c, env, w).value.0 != 0 { ExecMore(s1, env, Eval(c, env, w).value.1, fuel, more); }
    case IfElse(c, s1, s2) =>
      EvalMore(c, env, w, more);
      ExecMore(if Eval(c, env, w).value.0 != 0 then s1 else s2, env, Eval(c, env, w).value.1, fuel, more);
    case While(c, body) =>
      EvalMore(c, env, w, more);
      var (v, w1) := Eval(c, env, w).value;
      if v != 0 {
        ExecMore(body, env, w1, fuel - 1, more);
        var r := ExecStmt(body, env, w1, fuel - 1);
        if r.o.Normal? || r.o.Continued? { ExecMore(s, env, r.w, fuel - 1, more); }
      }
    case For(init, cond, step, body) =>
      EvalOptMore(init, 0, env, w, more);
      ExecForMore(cond, step, body, env, EvalOpt(init, 0, env, w).value.1, fuel, more);
    case DoWhile(body, c) => ExecDoMore(s, env, w, fuel, more);
    case Break =>
    case Continue =>
    case Return(r) => EvalOptMore(r, 0, env, w, more);
  }

  lemma {:induction false} ExecDoMore(s: Stmt, env: Env, w: World, fuel: nat, more: Callees)
    requires s.DoWhile? && Refines(env.callees.call, more.call) && ExecStmt(s, env, w, fuel).Done?
    ensures ExecStmt(s, env.(callees := more), w, fuel) == ExecStmt(s, env, w, fuel)
    decreases fuel, s, 0
  {
    hide Eval;
    ExecMore(s.s, env, w, fuel - 1, more);
    var r := ExecStmt(s.s, env, w, fuel - 1);
    if r.o.Normal? || r.o.Continued? {
      EvalMore(s.c, env, r.w, more);
      var (v, w1) := Eval(s.c, env, r.w).value;
      if v != 0 { ExecMore(s, env, w1, fuel - 1, more); }
    }
  }

  lemma {:induction false} ExecForMore(cond: OptExpr, step: OptExpr, body: Stmt, env: Env, w: World, fuel: nat,
                                       more: Callees)
    requires Refines(env.callees.call, more.call) && ForLoop(cond, step, body, env, w, fuel).Done?
    ensures ForLoop(cond, step, body, env.(callees := more), w, fuel) ==
            ForLoop(cond, step, body, env, w, fuel)
    decreases fuel, body, 2
  {
    hide EvalOpt, ExecStmt;
    EvalOptMore(cond, 1, env, w, more);
    var (v, w1) := EvalOpt(cond, 1, env, w).value;
    if v != 0 {
      ExecMore(body, env, w1, fuel - 1, more);
      var r := ExecStmt(body, env, w1, fuel - 1);
      if r.o.Normal? || r.o.Continued? {
        EvalOptMore(step, 0, env, r.w, more);
        ExecForMore(cond, step, body, env, EvalOpt(step, 0, env, r.w).value.1, fuel - 1, more);
      }
    }
  }

  /** The meaning of a call does not depend on how much depth and fuel it is given, as
      soon as they suffice. */
  lemma {:induction false} MeaningMore(src: Source, d: nat, e: nat, f: nat, g: nat, deep: bool, deep': bool)
    requires d <= e && f <= g
    ensures Refines(MeaningOf(src, d, f, deep), MeaningOf(src, e, g, deep'))
    decreases d
  {
    if d > 0 {
      MeaningMore(src, d - 1, e - 1, f, g, deep, deep');
      forall h, vs, sp, w | MeaningOf(src, d, f, deep)(h, vs, sp, w).Some?
        ensures MeaningOf(src, e, g, deep')(h, vs, sp, w) == MeaningOf(src, d, f, deep)(h, vs, sp, w)
      {
        BodyMore(src, d - 1, e - 1, f, g, deep, deep', h, vs, sp, w);
      }
    }
  }

  lemma BodyMore(src: Source, d: nat, e: nat, f: nat, g: nat, deep: bool, deep': bool, h: int, vs: seq<Word>, sp: int,
                 w: World)
    requires f <= g && Refines(MeaningOf(src, d, f, deep), MeaningOf(src, e, g, deep'))
    requires BodyMeaning(src, d, f, deep, h, vs, sp, w).Some?
    ensures BodyMeaning(src, e, g, deep', h, vs, sp, w) == BodyMeaning(src, d, f, deep, h, vs, sp, w)
  {
    hide ExecStmt, CalleesOf, FrameWorld, Refines, RoomFor;
    var env := Env(sp - 8, sp - 148, src.dbase, src.sbase, src.kernel, CalleesOf(src, d, f, deep));
    var w1, c := FrameWorld(w, vs, sp), CalleesOf(src, e, g, deep');
    ExecMore(src.fs[h], env, w1, f, c);
    MoreFuel(src.fs[h], env.(callees := c), w1, f, g);
  }

  // ----- the code behind a call -----

  /** The symbolic program holds the code of every function, and calls come back. */
  ghost predicate Hosts(p: Prog, src: Source, nls: seq<nat>) {
    && p.dbase == src.dbase && p.sbase == src.sbase && p.kernel == src.kernel
    && LabelsOk(p) && ReturnsOk(p) && Confined(p.kernel) && |nls| == |src.fs|
    && forall f :: 0 <= f < |src.fs| ==> Hosted(p, src, nls, f)
  }

  ghost predicate Hosted(p: Prog, src: Source, nls: seq<nat>, f: int)
    requires 0 <= f < |src.fs| == |nls|
  {
    && WellNested(src.fs[f], 0) && StmtFits(src.fs[f])
    && f in p.entry && At(p, p.entry[f], FunctionCode(src.fs[f], nls[f]))
  }

  lemma {:induction false} DeepestIs(fs: seq<Stmt>, f: nat)
    requires f < |fs|
    ensures StmtDepth(fs[f]) <= Deepest(fs)
  {
    if f < |fs| - 1 { DeepestIs(fs[..|fs| - 1], f); }
  }

  /** The frame a call opens: the arguments are its parameters, its locals are unset. */
  lemma FrameOpens(w: World, vs: seq<Word>, m: State, m1: State, ret: Word, lo: int, hi: int)
    requires Sees(w, m, lo, hi) && Holding(m.mem, m.esp, Reverse(vs)) && m.esp + 4 * |vs| <= hi && lo + 148 <= m.esp
    requires m1 == m.(esp := m.esp - 4, mem := m.mem[m.esp - 4 := ret], pc := m1.pc)
    ensures FrameOk(FrameWorld(w, vs, m.esp), m1, lo, m.esp - 4)
  {
    var w1, sp := FrameWorld(w, vs, m.esp), m.esp;
    forall a | a in w1.mem ensures a in m1.mem && (w1.mem[a].Some? ==> w1.mem[a] == Some(m1.mem[a])) {
      FrameCellSeen(w, vs, m, lo, hi, a);
    }
    forall a | lo <= a < sp - 4 - 132 && a % 4 == 0 ensures a in m1.mem && a !in w1.mem {
    }
  }

  lemma FrameCellSeen(w: World, vs: seq<Word>, m: State, lo: int, hi: int, a: int)
    requires Sees(w, m, lo, hi) && Holding(m.mem, m.esp, Reverse(vs)) && m.esp + 4 * |vs| <= hi && lo + 148 <= m.esp
    requires a in FrameWorld(w, vs, m.esp).mem
    ensures a in m.mem && a != m.esp - 4
    ensures FrameCell(w, vs, m.esp, a).Some? ==> FrameCell(w, vs, m.esp, a) == Some(m.mem[a])
  {
    hide Extends, Reverse, Holding, FrameWorld, FrameCell, Known, LocalCells, ParamCells;
    CellCases(w, vs, m.esp, a);
    var i := (a - m.esp) / 4;
    if 0 <= i < |vs| && a == m.esp + 4 * i {
      HoldingAt(m.mem, m.esp, Reverse(vs), i);
    } else if m.esp - 136 <= a < m.esp - 8 && (a - m.esp) % 4 == 0 {
      assert a % 4 == 0;
    } else {
      assert (m.esp - 4) % 4 == 0;
      KnownCell(w, m, a);
    }
  }

  /** A cell of a frame's world is a parameter, a local or the caller's. */
  lemma CellCases(w: World, vs: seq<Word>, sp: int, a: int)
    requires a in FrameWorld(w, vs, sp).mem
    ensures var i := (a - sp) / 4;
            if 0 <= i < |vs| && a == sp + 4 * i then FrameCell(w, vs, sp, a) == Some(Reverse(vs)[i])
            else if sp - 136 <= a < sp - 8 && (a - sp) % 4 == 0 then FrameCell(w, vs, sp, a) == None
            else a in w.mem && FrameCell(w, vs, sp, a) == w.mem[a]
  {
    hide Reverse;
    var i := (a - sp) / 4;
    LocalIs(sp, a);
    if !(0 <= i < |vs| && a == sp + 4 * i) { NotParam(sp, |vs|, a); }
  }

  lemma LocalIs(sp: int, a: int)
    ensures a in LocalCells(sp) <==> sp - 136 <= a < sp - 8 && (a - sp) % 4 == 0
  {
    if sp - 136 <= a < sp - 8 && (a - sp) % 4 == 0 {
      var i := (a - sp + 136) / 4;
      assert 0 <= i < 32 && a == sp - 136 + 4 * i;
    }
  }

  lemma HoldingAt(mem: map<int, Word>, base: int, vs: seq<Word>, i: int)
    requires Holding(mem, base, vs) && 0 <= i < |vs|
    ensures base + 4 * i in mem && mem[base + 4 * i] == vs[i]
  {
  }

  lemma NotParam(sp: int, n: nat, a: int)
    requires var i := (a - sp) / 4; !(0 <= i < n && a == sp + 4 * i)
    ensures a !in ParamCells(sp, n)
  {
  }

  lemma KnownCell(w: World, m: State, a: int)
    requires Extends(w.mem, Known(m.mem)) && a in w.mem
    ensures a in m.mem && (w.mem[a].Some? ==> w.mem[a] == Some(m.mem[a]))
  {
    assert a in Known(m.mem);
  }

  /** Cells outside the caller's world, above the arguments or below the stack, are
      outside the new frame's world too. */
  lemma FrameApart(w: World, vs: seq<Word>, m: State, lo: int, hi: int, a: int)
    requires Sees(w, m, lo, hi) && lo + 148 <= m.esp && a !in w.mem && (a >= m.esp + 4 * |vs| || a < lo)
    ensures a !in FrameWorld(w, vs, m.esp).mem && a != m.esp - 4
  {
  }

  /** call: the return address is pushed and control goes to the function's first item. */
  lemma CallSteps(p: Prog, f: int, w: World, m: State, lo: int, hi: int) returns (m1: State)
    requires At(p, m.pc, [Op(Call(f))]) && ReturnsOk(p) && f in p.entry && Sees(w, m, lo, hi) && lo + 4 <= m.esp
    ensures m.pc in p.after && Run(p, m, 1) == Some(m1)
    ensures m1 == m.(esp := m.esp - 4, mem := m.mem[m.esp - 4 := p.after[m.pc]], pc := p.entry[f])
  {
    hide Run;
    AtIndex(p, m.pc, [Op(Call(f))], 0);
    assert (m.esp - 4) % 4 == 0 && m.esp - 4 in m.mem;
    m1 := StepCall(p, f, m).value;
    OneStep(p, m, m1);
  }

  /** ret: back behind the call. */
  lemma RetSteps(p: Prog, m: State, i: int) returns (m1: State)
    requires At(p, m.pc, [Op(Ret)]) && ReturnsOk(p) && i in p.after && m.esp in m.mem && m.mem[m.esp] == p.after[i]
    requires 0 <= m.esp < MODULUS - 4
    ensures Run(p, m, 1) == Some(m1) && m1 == m.(esp := m.esp + 4, pc := i + 1)
  {
    hide Run;
    AtIndex(p, m.pc, [Op(Ret)], 0);
    m1 := StepRet(p, m).value;
    OneStep(p, m, m1);
  }

  /** Back in the caller. */
  lemma FrameCloses(p: Prog, w: World, vs: seq<Word>, w2: World, m: State, m1: State, m2: State, m3: State, len: nat,
                    o: Outcome, v: Option<Word>, ret: Word, lo: int, hi: int)
    requires Sees(w, m, lo, hi) && m.esp + 4 * |vs| <= hi && lo + 148 <= m.esp
    requires m1 == m.(esp := m.esp - 4, mem := m.mem[m.esp - 4 := ret], pc := m1.pc) && m.esp - 4 in m.mem
    requires Returns(p, FrameWorld(w, vs, m.esp), w2, m1, len, lo, m.esp - 4, o, m2)
    requires m3 == m2.(esp := m.esp, pc := m.pc + 1)
    requires v == if o.Returned? then o.value else None
    ensures CameBack(|vs|, w, m, m3, v, CallerWorld(w, w2), lo, hi)
    ensures CallerWorld(w, w2).mem.Keys == w.mem.Keys
  {
    hide FrameWorld, Reverse;
    assert w.mem.Keys <= w2.mem.Keys by { FrameKeys(w, vs, m.esp); }
    forall a | a in m.mem && a !in w.mem && (a >= m.esp + 4 * |vs| || a < lo) ensures m3.mem[a] == m.mem[a] {
      FrameApart(w, vs, m, lo, hi, a);
    }
    var c := CallerWorld(w, w2);
    forall a | a in c.mem ensures a in Known(m3.mem) && (c.mem[a].Some? ==> Known(m3.mem)[a] == c.mem[a]) {
    }
  }

  lemma FrameKeys(w: World, vs: seq<Word>, sp: int)
    ensures w.mem.Keys <= FrameWorld(w, vs, sp).mem.Keys
  {
  }

  /** At a call of a function there is, with stack for one more level. */
  ghost predicate CallReady(p: Prog, src: Source, nls: seq<nat>, d: nat, f: int, vs: seq<Word>, w: World, m: State,
                            lo: int, hi: int)
  {
    && Hosts(p, src, nls) && 0 <= f < |src.fs| && AtCall(p, RoomFor(src.fs, d + 1), f, vs, w, m, lo, hi)
  }

  lemma CallParts(p: Prog, src: Source, nls: seq<nat>, d: nat, f: int, vs: seq<Word>, w: World, m: State, lo: int,
                  hi: int)
    requires CallReady(p, src, nls, d, f, vs, w, m, lo, hi)
    ensures 0 <= f < |src.fs| == |nls| && Hosted(p, src, nls, f) && LabelsOk(p) && ReturnsOk(p) && Confined(p.kernel)
    ensures At(p, m.pc, [Op(Call(f))]) && Sees(w, m, lo, hi) && Holding(m.mem, m.esp, Reverse(vs))
    ensures m.esp + 4 * |vs| <= hi && lo + 148 <= m.esp < MODULUS && 148 <= m.esp && m.esp - 4 in m.mem
    ensures lo + 4 * (StmtDepth(src.fs[f]) + RoomFor(src.fs, d)) <= m.esp - 148
  {
    hide At, LabelsOk, ReturnsOk, Confined, Holding;
    DeepestIs(src.fs, f);
    assert (m.esp - 4) % 4 == 0;
  }

  /** The body of the called function, run from the call on. */
  lemma {:induction false} BodyRuns(p: Prog, src: Source, nls: seq<nat>, d: nat, fuel: nat, deep: bool, f: int,
                                    vs: seq<Word>, w: World, m: State, lo: int, hi: int)
    returns (m1: State, n: nat, m2: State)
    requires CallReady(p, src, nls, d, f, vs, w, m, lo, hi) && CallsWork(p, CalleesOf(src, d, fuel, deep))
    requires BodyResult(src, d, fuel, deep, f, vs, m.esp, w) != Wrong
    ensures |nls| == |src.fs| && WellNested(src.fs[f], 0) && m.pc in p.after && Run(p, m, 1) == Some(m1)
    ensures 4 <= m.esp < MODULUS && m1 == m.(esp := m.esp - 4, mem := m.mem[m.esp - 4 := p.after[m.pc]], pc := m1.pc)
    ensures Run(p, m1, n) == Some(m2)
    ensures match BodyResult(src, d, fuel, deep, f, vs, m.esp, w)
            case Unfinished => n >= Smaller(fuel, CalleesOf(src, d, fuel, deep).lasts)
            case Done(o, w2) => Returns(p, FrameWorld(w, vs, m.esp), w2, m1, |FunctionCode(src.fs[f], nls[f])|, lo,
                                        m.esp - 4, o, m2)
            case Wrong => true
  {
    hide Run, Step, At, LabelsOk, ReturnsOk, Confined, CallsWork, FrameOk, FrameWorld, CallerWorld, FunctionCode,
         ExecStmt, Sees, Holding, CameBack, Returns, RoomFor, StmtFits, WellNested, Hosts, CallReady;
    CallParts(p, src, nls, d, f, vs, w, m, lo, hi);
    var c := CalleesOf(src, d, fuel, deep);
    RoomIs(src, d, fuel, deep);
    m1 := CallSteps(p, f, w, m, lo, hi);
    FrameOpens(w, vs, m, m1, p.after[m.pc], lo, hi);
    SameSections(p, src, nls, d, f, vs, w, m, lo, hi);
    n, m2 := FunctionRuns(p, FrameWorld(w, vs, m.esp), src.fs[f], nls[f], m1, lo, m.esp - 4, c, fuel);
  }

  lemma RoomIs(src: Source, d: nat, fuel: nat, deep: bool)
    ensures CalleesOf(src, d, fuel, deep).room == RoomFor(src.fs, d)
    ensures CalleesOf(src, d, fuel, deep).lasts == if deep then Smaller(fuel, d) else fuel
  {
  }

  lemma SameSections(p: Prog, src: Source, nls: seq<nat>, d: nat, f: int, vs: seq<Word>, w: World, m: State, lo: int,
                     hi: int)
    requires CallReady(p, src, nls, d, f, vs, w, m, lo, hi)
    ensures p.dbase == src.dbase && p.sbase == src.sbase && p.kernel == src.kernel
  {
  }

  /** One call, given that the calls inside it work. */
  lemma {:induction false} CallAnswered(p: Prog, src: Source, nls: seq<nat>, d: nat, fuel: nat, deep: bool, f: int,
                                        vs: seq<Word>, w: World, m: State, lo: int, hi: int)
    requires Hosts(p, src, nls) && CallsWork(p, CalleesOf(src, d, fuel, deep))
    requires Callable(p, CalleesOf(src, d + 1, fuel, deep), f, vs, w, m, lo, hi)
    ensures Answered(p, CalleesOf(src, d + 1, fuel, deep), f, vs, w, m, lo, hi)
  {
    hide Run, Step, At, LabelsOk, ReturnsOk, Confined, CallsWork, FrameOk, FrameWorld, CallerWorld, FunctionCode,
         ExecStmt, Sees, Holding, CameBack, Returns, RoomFor, StmtFits, WellNested, Hosts, BodyResult;
    RoomIs(src, d + 1, fuel, deep);
    var r := BodyResult(src, d, fuel, deep, f, vs, m.esp, w);
    NoSuchFunction(src, d, fuel, deep, f, vs, m.esp, w);
    CallParts(p, src, nls, d, f, vs, w, m, lo, hi);
    var m1, n2, m2 := BodyRuns(p, src, nls, d, fuel, deep, f, vs, w, m, lo, hi);
    var len := |FunctionCode(src.fs[f], nls[f])|;
    ReturnsParts(p, FrameWorld(w, vs, m.esp), r.w, m1, len, lo, m.esp - 4, r.o, m2);
    var m3 := RetSteps(p, m2, m.pc);
    var v := if r.o.Returned? then r.o.value else None;
    FrameCloses(p, w, vs, r.w, m, m1, m2, m3, len, r.o, v, p.after[m.pc], lo, hi);
    Then(p, m, 1, m1, n2, m2);
    Then(p, m, 1 + n2, m2, 1, m3);
  }

  lemma NoSuchFunction(src: Source, d: nat, fuel: nat, deep: bool, f: int, vs: seq<Word>, sp: int, w: World)
    ensures BodyResult(src, d, fuel, deep, f, vs, sp, w) != Wrong ==> 0 <= f < |src.fs|
  {
  }

  lemma ReturnsParts(p: Prog, w: World, w': World, m: State, len: nat, lo: int, top: int, o: Outcome, m': State)
    requires Returns(p, w, w', m, len, lo, top, o, m')
    ensures At(p, m'.pc, [Op(Ret)]) && m'.esp == m.esp && top in m.mem && top in m'.mem && m'.mem[top] == m.mem[top]
  {
  }

  /** An endless call lasts one step longer than what it comes to. */
  lemma {:induction false} CallLasts(p: Prog, src: Source, nls: seq<nat>, d: nat, fuel: nat, deep: bool, f: int,
                                     vs: seq<Word>, w: World, m: State, lo: int, hi: int)
    requires Hosts(p, src, nls) && CallsWork(p, CalleesOf(src, d, fuel, deep))
    requires AtCall(p, RoomFor(src.fs, d + 1), f, vs, w, m, lo, hi)
    requires BodyEndless(src, d, fuel, deep, f, vs, m.esp, w)
    ensures Lasts(p, m, CalleesOf(src, d + 1, fuel, deep).lasts)
  {
    hide Run, Step, AtCall, CallsWork, FunctionCode, ExecStmt, Returns, RoomFor, WellNested, Hosts, BodyResult;
    RoomIs(src, d, fuel, deep);
    RoomIs(src, d + 1, fuel, deep);
    NoSuchFunction(src, d, fuel, deep, f, vs, m.esp, w);
    var m1, n2, m2 := BodyRuns(p, src, nls, d, fuel, deep, f, vs, w, m, lo, hi);
    Then(p, m, 1, m1, n2, m2);
    assert Run(p, m, 1 + n2).Some?;
  }

  /** The code behind every call does what the call means, to any depth, and an endless call
      goes on. */
  lemma {:induction false} AllCallsWork(p: Prog, src: Source, nls: seq<nat>, d: nat, fuel: nat, deep: bool)
    requires Hosts(p, src, nls)
    ensures CallsWork(p, CalleesOf(src, d, fuel, deep))
    decreases d
  {
    hide Hosts, RoomFor, Answered, At, Sees, Holding, Reverse, BodyMeaning, BodyEndless, AtCall, Lasts, Run;
    if d > 0 { AllCallsWork(p, src, nls, d - 1, fuel, deep); }
    var c := CalleesOf(src, d, fuel, deep);
    RoomIs(src, d, fuel, deep);
    forall f, vs, w, m, lo, hi | Callable(p, c, f, vs, w, m, lo, hi) ensures Answered(p, c, f, vs, w, m, lo, hi) {
      if d > 0 { CallAnswered(p, src, nls, d - 1, fuel, deep, f, vs, w, m, lo, hi); }
    }
    forall f, vs, w, m, lo, hi | AtCall(p, c.room, f, vs, w, m, lo, hi) && c.endless(f, vs, m.esp, w)
      ensures Lasts(p, m, c.lasts)
    {
      if d > 0 {
        CallLasts(p, src, nls, d - 1, fuel, deep, f, vs, w, m, lo, hi);
      } else {
        LastsNone(p, m);
      }
    }
  }

  lemma LastsNone(p: Prog, m: State)
    ensures Lasts(p, m, 0)
  {
    assert Run(p, m, 0).Some?;
  }

  /** Such recursion there is: a function that calls itself and nothing else is endless to
      every depth the stack has frames for. */
  lemma {:induction false} SelfCallEndless(src: Source, d: nat, fuel: nat, sp: int, w: World)
    requires src.fs != [] && src.fs[0] == DoCall(0, Nil) && 148 * d + 8 <= sp < MODULUS
    ensures CalleesOf(src, d, fuel, true).endless(0, [], sp, w)
    decreases d
  {
    if d > 0 {
      var c := CalleesOf(src, d - 1, fuel, true);
      var env := Env(sp - 8, sp - 148, src.dbase, src.sbase, src.kernel, c);
      var w1 := FrameWorld(w, [], sp);
      SelfCallEndless(src, d - 1, fuel, sp - 148, w1);
      SelfCallNone(src, d - 1, fuel, sp - 148, w1);
      assert EvalArgs(Nil, env, w1) == Some(([], w1));
      assert BodyResult(src, d - 1, fuel, true, 0, [], sp, w) == ExecStmt(src.fs[0], env, w1, fuel);
    }
  }

  lemma {:induction false} SelfCallNone(src: Source, d: nat, fuel: nat, sp: int, w: World)
    requires src.fs != [] && src.fs[0] == DoCall(0, Nil)
    ensures CalleesOf(src, d, fuel, true).call(0, [], sp, w) == None
    decreases d, 0
  {
    hide BodyResult;
    if d > 0 {
      SelfBodyUndone(src, d - 1, fuel, sp, w);
      assert CalleesOf(src, d, fuel, true).call(0, [], sp, w) == BodyMeaning(src, d - 1, fuel, true, 0, [], sp, w);
    }
  }

  lemma {:induction false} SelfBodyUndone(src: Source, d: nat, fuel: nat, sp: int, w: World)
    requires src.fs != [] && src.fs[0] == DoCall(0, Nil)
    ensures !BodyResult(src, d, fuel, true, 0, [], sp, w).Done?
    decreases d, 1
  {
    hide CalleesOf;
    if 8 <= sp < MODULUS {
      var env := Env(sp - 8, sp - 148, src.dbase, src.sbase, src.kernel, CalleesOf(src, d, fuel, true));
      var w1 := FrameWorld(w, [], sp);
      SelfCallNone(src, d, fuel, sp - 148, w1);
      assert EvalArgs(Nil, env, w1) == Some(([], w1));
      assert BodyResult(src, d, fuel, true, 0, [], sp, w) == ExecStmt(src.fs[0], env, w1, fuel);
    }
  }
}
