/** The vocabulary of the statement simulation and how its steps compose. */
module StmtProof {
  import opened Basics
  import opened Word32
  import opened Machine
  import opened Syntax
  import opened Compile
  import opened Operators
  import opened ExprProof
  import opened ExprCorrect
  import opened ExprEndless

  function OptDepth(oe: OptExpr): nat {
    match oe
    case NoExpr => 0
    case TheExpr(e) => Depth(e)
  }

  predicate OptFits(oe: OptExpr) {
    match oe
    case NoExpr => true
    case TheExpr(e) => CallsFit(e)
  }

  /** Dwords of stack a statement needs. */
  function StmtDepth(s: Stmt): nat {
    match s
    case Skip => 0
    case Do(e) => Depth(e)
    case DoCall(_, args) => Max(ArgDepth(args), Count(args))
    case Seq(s1, s2) => Max(StmtDepth(s1), StmtDepth(s2))
    case If(c, s1) => Max(Depth(c), StmtDepth(s1))
    case IfElse(c, s1, s2) => Max(Depth(c), Max(StmtDepth(s1), StmtDepth(s2)))
    case While(c, s1) => Max(Depth(c), StmtDepth(s1))
    case For(i, c, st, s1) => Max(Max(OptDepth(i), OptDepth(c)), Max(OptDepth(st), StmtDepth(s1)))
    case DoWhile(s1, c) => Max(Depth(c), StmtDepth(s1))
    case Break => 0
    case Continue => 0
    case Return(r) => OptDepth(r)
  }

  predicate StmtFits(s: Stmt) {
    match s
    case Skip => true
    case Do(e) => CallsFit(e)
    case DoCall(_, args) => ArgsFit(args)
    case Seq(s1, s2) => StmtFits(s1) && StmtFits(s2)
    case If(c, s1) => CallsFit(c) && StmtFits(s1)
    case IfElse(c, s1, s2) => CallsFit(c) && StmtFits(s1) && StmtFits(s2)
    case While(c, s1) => CallsFit(c) && StmtFits(s1)
    case For(i, c, st, s1) => OptFits(i) && OptFits(c) && OptFits(st) && StmtFits(s1)
    case DoWhile(s1, c) => CallsFit(c) && StmtFits(s1)
    case Break => true
    case Continue => true
    case Return(r) => OptFits(r)
  }

  /** Every label a statement may jump out to is placed. */
  ghost predicate TargetsOk(p: Prog, loops: seq<Loop>, ret: int) {
    LabelsOk(p) && ret in p.labels &&
    forall i :: 0 <= i < |loops| ==> loops[i].brk in p.labels && loops[i].cont in p.labels
  }

  /** Where control is after a statement with outcome `o`. */
  ghost predicate ArrivesAt(p: Prog, o: Outcome, end: int, loops: seq<Loop>, ret: int, m: State)
    requires TargetsOk(p, loops, ret)
  {
    match o
    case Normal => m.pc == end
    case Broke => |loops| > 0 && m.pc == p.labels[loops[|loops| - 1].brk]
    case Continued => |loops| > 0 && m.pc == p.labels[loops[|loops| - 1].cont]
    case Returned(v) => m.pc == p.labels[ret] && (v.Some? ==> m.eax == v.value)
  }

  /** `n` steps follow the source: to where its outcome leads in exactly its world, or,
      when it ran out of fuel, for at least `fuel` steps. */
  ghost predicate Follows(p: Prog, env: Env, w: World, end: int, m: State, lo: int, loops: seq<Loop>, ret: int,
                          fuel: nat, r: Result, n: nat, m': State)
    requires TargetsOk(p, loops, ret)
  {
    match r
    case Wrong => false
    case Unfinished => n >= Smaller(fuel, env.callees.lasts) && Run(p, m, n) == Some(m')
    case Done(o, w') =>
      Run(p, m, n) == Some(m') && Agrees(p, env, w', m', lo, m.esp) && Keeps(w, m, m', lo) &&
      w'.mem.Keys == w.mem.Keys && ArrivesAt(p, o, end, loops, ret, m')
  }

  /** The machine is ready to run a statement. */
  ghost predicate Poised(p: Prog, env: Env, w: World, s: Stmt, nl: nat, loops: seq<Loop>, ret: int, m: State, lo: int) {
    TargetsOk(p, loops, ret) && Agrees(p, env, w, m, lo, m.esp) && WellNested(s, |loops|) &&
    StmtFits(s) && lo + 4 * (StmtDepth(s) + env.callees.room) <= m.esp && At(p, m.pc, StmtCode(s, nl, loops, ret))
  }

  /** A prefix that ran normally from `m` to `m1`. */
  ghost predicate Passed(p: Prog, env: Env, w: World, m: State, lo: int, n: nat, m1: State, w1: World) {
    Run(p, m, n) == Some(m1) && Agrees(p, env, w1, m1, lo, m.esp) && Keeps(w, m, m1, lo) && w1.mem.Keys == w.mem.Keys
  }

  lemma PassedNothing(p: Prog, env: Env, w: World, m: State, lo: int)
    requires Agrees(p, env, w, m, lo, m.esp)
    ensures Passed(p, env, w, m, lo, 0, m, w)
  {}

  lemma PassedExpr(p: Prog, env: Env, w: World, len: nat, m: State, lo: int, n: nat, m1: State, v: Word, w1: World)
    requires Computed(p, env, w, len, m, lo, m.esp, n, m1, v, w1)
    ensures Passed(p, env, w, m, lo, n, m1, w1) && m1.esp == m.esp && m1.pc == m.pc + len && m1.eax == v
  {
    hide Run;
  }

  lemma PassedFrame(p: Prog, env: Env, w: World, m: State, lo: int, n: nat, m1: State)
    requires Agrees(p, env, w, m, lo, m.esp) && Run(p, m, n) == Some(m1) && SameFrame(m, m1)
    ensures Passed(p, env, w, m, lo, n, m1, w) && m1.esp == m.esp && Agrees(p, env, w, m1, lo, m1.esp)
  {
    hide Run;
  }

  lemma PassedTrans(p: Prog, env: Env, w: World, m: State, lo: int, n1: nat, m1: State, w1: World, n2: nat, m2: State,
                    w2: World)
    requires Passed(p, env, w, m, lo, n1, m1, w1) && Passed(p, env, w1, m1, lo, n2, m2, w2)
    ensures Passed(p, env, w, m, lo, n1 + n2, m2, w2) && m2.esp == m.esp && Agrees(p, env, w2, m2, lo, m2.esp)
  {
    hide Run, Agrees;
    Then(p, m, n1, m1, n2, m2);
  }

  /** A normal prefix followed by anything that follows the source. */
  lemma PassedThen(p: Prog, env: Env, w: World, end: int, m: State, lo: int, loops: seq<Loop>, ret: int, fuel: nat,
                   r: Result, n1: nat, m1: State, w1: World, fuel1: nat, n2: nat, m2: State)
    requires TargetsOk(p, loops, ret) && Passed(p, env, w, m, lo, n1, m1, w1)
    requires Follows(p, env, w1, end, m1, lo, loops, ret, fuel1, r, n2, m2) && fuel <= fuel1 + n1
    ensures Follows(p, env, w, end, m, lo, loops, ret, fuel, r, n1 + n2, m2)
  {
    hide Run, Agrees;
    Then(p, m, n1, m1, n2, m2);
  }

  /** A statement that ended normally is a normal prefix. */
  lemma FollowedPassed(p: Prog, env: Env, w: World, end: int, m: State, lo: int, loops: seq<Loop>, ret: int,
                       fuel: nat, o: Outcome, w1: World, n: nat, m1: State)
    requires TargetsOk(p, loops, ret)
    requires Follows(p, env, w, end, m, lo, loops, ret, fuel, Done(o, w1), n, m1)
    ensures Passed(p, env, w, m, lo, n, m1, w1) && m1.esp == m.esp && Agrees(p, env, w1, m1, lo, m1.esp)
  {
    hide Run;
  }

  lemma PassedFollows(p: Prog, env: Env, w: World, end: int, m: State, lo: int, loops: seq<Loop>, ret: int, fuel: nat,
                      o: Outcome, n: nat, m1: State, w1: World)
    requires TargetsOk(p, loops, ret) && Passed(p, env, w, m, lo, n, m1, w1)
    requires ArrivesAt(p, o, end, loops, ret, m1)
    ensures Follows(p, env, w, end, m, lo, loops, ret, fuel, Done(o, w1), n, m1)
  {
    hide Run, Agrees, Keeps;
  }

  /** Abrupt outcomes do not depend on where the statement's own code ends, nor a return
      on the loops around it. */
  lemma Escapes(p: Prog, env: Env, w: World, end: int, m: State, lo: int, loops: seq<Loop>, ret: int, fuel: nat,
                r: Result, n: nat, m': State, end': int, loops': seq<Loop>)
    requires TargetsOk(p, loops, ret) && TargetsOk(p, loops', ret)
    requires Follows(p, env, w, end, m, lo, loops, ret, fuel, r, n, m')
    requires r.Done? ==> r.o.Returned? || (loops == loops' && !r.o.Normal?)
    ensures Follows(p, env, w, end', m, lo, loops', ret, fuel, r, n, m')
  {
    hide Run, Agrees, Keeps;
  }

  // ----- optional expressions -----

  lemma {:induction false} OptRuns(p: Prog, env: Env, w: World, oe: OptExpr, nl: nat, missing: seq<Item>,
                                   default: Word, m: State, lo: int)
    returns (n: nat, m1: State)
    requires LabelsOk(p) && Agrees(p, env, w, m, lo, m.esp) && OptFits(oe) &&
             lo + 4 * (OptDepth(oe) + env.callees.room) <= m.esp
    requires At(p, m.pc, OptCode(oe, nl, missing)) && EvalOpt(oe, default, env, w).Some?
    requires missing == [] || missing == [Op(LoadImm(default))]
    ensures var (v, w1) := EvalOpt(oe, default, env, w).value;
            Passed(p, env, w, m, lo, n, m1, w1) && m1.esp == m.esp && Agrees(p, env, w1, m1, lo, m1.esp) &&
            m1.pc == m.pc + |OptCode(oe, nl, missing)| &&
            (oe.TheExpr? || missing != [] ==> m1.eax == v)
  {
    hide Run, Step, Agrees, Keeps, Eval, ExprCode;
    match oe
    case NoExpr =>
      if missing == [] {
        PassedNothing(p, env, w, m, lo);
        n, m1 := 0, m;
      } else {
        Plain(p, m, LoadImm(default), m.(eax := default));
        n, m1 := 1, m.(eax := default, pc := m.pc + 1);
        PassedFrame(p, env, w, m, lo, n, m1);
      }
    case TheExpr(e) =>
      n, m1 := ExprRuns(p, env, w, e, nl, m, lo, m.esp);
      var (v, w1) := Eval(e, env, w).value;
      PassedExpr(p, env, w, |ExprCode(e, nl)|, m, lo, n, m1, v, w1);
      PassedAgrees(p, env, w, m, lo, n, m1, w1);
  }

  /** An optional expression that comes to an endless call. */
  lemma {:induction false} OptEndlessRuns(p: Prog, env: Env, w: World, oe: OptExpr, nl: nat, missing: seq<Item>,
                                          m: State, lo: int)
    returns (n: nat, m1: State)
    requires LabelsOk(p) && Agrees(p, env, w, m, lo, m.esp) && OptFits(oe) && EndlessOpt(oe, env, w)
    requires lo + 4 * (OptDepth(oe) + env.callees.room) <= m.esp && At(p, m.pc, OptCode(oe, nl, missing))
    ensures Run(p, m, n) == Some(m1) && n >= env.callees.lasts
  {
    hide Run, Step, Agrees, Endless, ExprCode, Depth, CallsFit, At, LabelsOk;
    ReadyIf(p, env, w, oe.e, nl, m, lo, m.esp);
    n, m1 := EndlessRuns(p, env, w, oe.e, nl, m, lo, m.esp);
  }

  /** The same after a normal prefix: nothing more need be known. */
  lemma OptEndlessAfter(p: Prog, env: Env, w: World, m: State, lo: int, n1: nat, m1: State, w1: World, oe: OptExpr,
                        nl: nat, missing: seq<Item>)
    returns (n: nat, m2: State)
    requires Passed(p, env, w, m, lo, n1, m1, w1) && Agrees(p, env, w1, m1, lo, m1.esp)
    requires LabelsOk(p) && OptFits(oe) && EndlessOpt(oe, env, w1)
    requires lo + 4 * (OptDepth(oe) + env.callees.room) <= m1.esp && At(p, m1.pc, OptCode(oe, nl, missing))
    ensures Run(p, m, n) == Some(m2) && n >= env.callees.lasts
  {
    hide Run, Step, Agrees, Keeps, EndlessOpt, OptCode, OptFits, OptDepth, At, LabelsOk;
    var n2, m' := OptEndlessRuns(p, env, w1, oe, nl, missing, m1, lo);
    LastsAfter(p, m, n1, m1, n2, m', env.callees.lasts);
    n, m2 := n1 + n2, m';
  }

  lemma PassedAgrees(p: Prog, env: Env, w: World, m: State, lo: int, n: nat, m1: State, w1: World)
    requires Passed(p, env, w, m, lo, n, m1, w1)
    ensures m1.esp == m.esp && Agrees(p, env, w1, m1, lo, m1.esp)
  {
    hide Run;
  }

  /** A condition and its test: fall through when it holds, jump to `l` when it does not
      (`wh` = IfZero), or the other way round. */
  lemma ConditionRuns(p: Prog, env: Env, w: World, c: OptExpr, nl: nat, missing: seq<Item>, wh: When, l: int,
                      m: State, lo: int)
    returns (n: nat, m1: State)
    requires LabelsOk(p) && Agrees(p, env, w, m, lo, m.esp) && OptFits(c) &&
             lo + 4 * (OptDepth(c) + env.callees.room) <= m.esp
    requires At(p, m.pc, OptCode(c, nl, missing)) && At(p, m.pc + |OptCode(c, nl, missing)|, TestAndGo(wh, l))
    requires EvalOpt(c, 1, env, w).Some? && wh != Always && l in p.labels
    requires missing == [Op(LoadImm(1))]
    ensures n >= 2
    ensures var (v, w1) := EvalOpt(c, 1, env, w).value;
            Passed(p, env, w, m, lo, n, m1, w1) && m1.esp == m.esp && Agrees(p, env, w1, m1, lo, m1.esp) &&
            m1.pc == if (v == 0) == (wh == IfZero) then p.labels[l] else m.pc + |OptCode(c, nl, missing)| + 2
  {
    hide Run, Step, Agrees, Keeps, OptCode, At, LabelsOk;
    var n1, m2 := OptRuns(p, env, w, c, nl, missing, 1, m, lo);
    var (v, w1) := EvalOpt(c, 1, env, w).value;
    m1 := TestAndGoRuns(p, wh, l, m2);
    PassedFrame(p, env, w1, m2, lo, 2, m1);
    PassedTrans(p, env, w, m, lo, n1, m2, w1, 2, m1, w1);
    n := n1 + 2;
  }

  /** jmp l */
  lemma GoPasses(p: Prog, env: Env, w: World, l: int, m: State, lo: int) returns (m1: State)
    requires Agrees(p, env, w, m, lo, m.esp) && At(p, m.pc, Go(l)) && l in p.labels
    ensures Passed(p, env, w, m, lo, 1, m1, w) && m1.pc == p.labels[l] && m1.esp == m.esp && m1.eax == m.eax
    ensures Agrees(p, env, w, m1, lo, m1.esp)
  {
    hide Run, Step, Agrees, Keeps;
    m1 := GoRuns(p, l, m);
    PassedFrame(p, env, w, m, lo, 1, m1);
  }

  lemma LabelPasses(p: Prog, env: Env, w: World, l: int, m: State, lo: int) returns (m1: State)
    requires Agrees(p, env, w, m, lo, m.esp) && At(p, m.pc, [Label(l)])
    ensures Passed(p, env, w, m, lo, 1, m1, w) && m1.pc == m.pc + 1 && m1.esp == m.esp
    ensures Agrees(p, env, w, m1, lo, m1.esp)
  {
    hide Run, Step, Agrees, Keeps;
    m1 := LabelRuns(p, l, m);
    PassedFrame(p, env, w, m, lo, 1, m1);
  }
}
