/** Running the code of an expression computes its value. */
module ExprProof {
  import opened Basics
  import opened Word32
  import opened Machine
  import opened Syntax
  import opened Compile
  import opened Operators

  /** Dwords of stack an expression needs below ESP. */
  function Depth(e: Expr): nat {
    match e
    case Num(_) => 0
    case Str(_) => 0
    case Var(_) => 0
    case AddressOf(_) => 0
    case Deref(p) => Depth(p)
    case Unary(_, e1) => Depth(e1)
    case Binary(_, l, r) => Max(Depth(l), 1 + Depth(r))
    case AndAlso(l, r) => Max(Depth(l), Depth(r))
    case OrElse(l, r) => Max(Depth(l), Depth(r))
    case Assign(_, e1) => Depth(e1)
    case AssignOp(_, _, e1) => 1 + Depth(e1)
    case StoreThrough(p, e1) => Max(Depth(p), 1 + Depth(e1))
    case Builtin(_, args) => ArgDepth(args)
    case CallFun(_, args) => Max(ArgDepth(args), Count(args))
  }

  function ArgDepth(es: Exprs): nat {
    match es
    case Nil => 0
    case Cons(h, t) => Max(Depth(h), 1 + ArgDepth(t))
  }

  function Max(a: nat, b: nat): nat { if a < b then b else a }

  /** Builtin calls stay within the one-byte stack displacements of the reversal. */
  predicate CallsFit(e: Expr) {
    match e
    case Num(_) => true
    case Str(_) => true
    case Var(_) => true
    case AddressOf(_) => true
    case Deref(p) => CallsFit(p)
    case Unary(_, e1) => CallsFit(e1)
    case Binary(_, l, r) => CallsFit(l) && CallsFit(r)
    case AndAlso(l, r) => CallsFit(l) && CallsFit(r)
    case OrElse(l, r) => CallsFit(l) && CallsFit(r)
    case Assign(_, e1) => CallsFit(e1)
    case AssignOp(_, _, e1) => CallsFit(e1)
    case StoreThrough(p, e1) => CallsFit(p) && CallsFit(e1)
    case Builtin(_, args) => Count(args) <= 32 && ArgsFit(args)
    case CallFun(_, args) => ArgsFit(args)
  }

  predicate ArgsFit(es: Exprs) {
    match es
    case Nil => true
    case Cons(h, t) => CallsFit(h) && ArgsFit(t)
  }

  /** The machine's memory and system calls are the world's as far as it knows them;
      [lo, hi) is stack the source cannot see. */
  ghost predicate Sees(w: World, m: State, lo: int, hi: int) {
    && m.trace == w.trace
    && 0 <= lo <= m.esp <= hi < MODULUS && m.esp % 4 == 0 && lo % 4 == 0
    && Extends(w.mem, Known(m.mem))
    && (forall a :: lo <= a < hi && a % 4 == 0 ==> a in m.mem && a !in w.mem)
  }

  /** The machine agrees with the source world in `env`, where calls do what they mean. */
  ghost predicate Agrees(p: Prog, env: Env, w: World, m: State, lo: int, hi: int) {
    && p.dbase == env.dbase && p.sbase == env.sbase && p.kernel == env.kernel
    && m.ebp == env.ebp && m.esp == env.sp && Sees(w, m, lo, hi)
    && CallsWork(p, env.callees) && Confined(p.kernel)
  }

  /** What code for an expression leaves alone: the stack pointer, the frame, and every
      dword at or above ESP (or below the stack) that is not source memory. */
  ghost predicate Keeps(w: World, m: State, m': State, lo: int) {
    && m'.esp == m.esp && m'.ebp == m.ebp && m'.esi == m.esi && m'.edi == m.edi
    && m'.mem.Keys == m.mem.Keys
    && (forall a :: a in m.mem && a !in w.mem && (a >= m.esp || a < lo) ==> m'.mem[a] == m.mem[a])
  }

  /** The dwords from `base` up hold `vs` (index 0 lowest). */
  ghost predicate Holding(mem: map<int, Word>, base: int, vs: seq<Word>) {
    forall i :: 0 <= i < |vs| ==> base + 4 * i in mem && mem[base + 4 * i] == vs[i]
  }

  function Reverse(vs: seq<Word>): (r: seq<Word>)
    ensures |r| == |vs|
    ensures forall i :: 0 <= i < |vs| ==> r[i] == vs[|vs| - 1 - i]
  {
    seq(|vs|, i requires 0 <= i < |vs| => vs[|vs| - 1 - i])
  }

  /** At a call of `f` with the arguments pushed and enough stack left. */
  ghost predicate AtCall(p: Prog, room: nat, f: int, vs: seq<Word>, w: World, m: State, lo: int, hi: int) {
    && At(p, m.pc, [Op(Call(f))]) && Sees(w, m, lo, hi)
    && Holding(m.mem, m.esp, Reverse(vs)) && m.esp + 4 * |vs| <= hi && lo + 4 * room <= m.esp
  }

  /** At a call that has a meaning. */
  ghost predicate Callable(p: Prog, c: Callees, f: int, vs: seq<Word>, w: World, m: State, lo: int, hi: int) {
    && AtCall(p, c.room, f, vs, w, m, lo, hi)
    && c.call(f, vs, m.esp, w).Some? && c.call(f, vs, m.esp, w).value.1.mem.Keys == w.mem.Keys
  }

  /** Back from a call with `n` arguments: its value, if any, in EAX, and its world. */
  ghost predicate CameBack(n: nat, w: World, m: State, m': State, v: Option<Word>, w': World, lo: int, hi: int) {
    && m'.pc == m.pc + 1 && m'.esp == m.esp && m'.ebp == m.ebp && m'.esi == m.esi && m'.edi == m.edi
    && (v.Some? ==> m'.eax == v.value) && Sees(w', m', lo, hi) && m'.mem.Keys == m.mem.Keys
    && (forall a :: a in m.mem && a !in w.mem && (a >= m.esp + 4 * n || a < lo) ==> m'.mem[a] == m.mem[a])
  }

  ghost predicate Answered(p: Prog, c: Callees, f: int, vs: seq<Word>, w: World, m: State, lo: int, hi: int)
    requires c.call(f, vs, m.esp, w).Some?
  {
    exists n: nat, m' :: Run(p, m, n) == Some(m') &&
      CameBack(|vs|, w, m, m', c.call(f, vs, m.esp, w).value.0, c.call(f, vs, m.esp, w).value.1, lo, hi)
  }

  /** The machine goes on for at least `n` steps. */
  ghost predicate Lasts(p: Prog, m: State, n: nat) {
    exists k: nat :: k >= n && Run(p, m, k).Some?
  }

  /** The code behind every call does what the call means, and an endless one lasts. */
  ghost predicate CallsWork(p: Prog, c: Callees) {
    && (forall f, vs, w, m, lo, hi :: Callable(p, c, f, vs, w, m, lo, hi) ==>
          Answered(p, c, f, vs, w, m, lo, hi))
    && (forall f, vs, w, m, lo, hi :: AtCall(p, c.room, f, vs, w, m, lo, hi) && c.endless(f, vs, m.esp, w) ==>
          Lasts(p, m, c.lasts))
  }

  lemma {:induction false} EvalKeys(e: Expr, env: Env, w: World)
    requires Eval(e, env, w).Some?
    ensures Eval(e, env, w).value.1.mem.Keys == w.mem.Keys
  {
    match e
    case Num(_) =>
    case Str(_) =>
    case Var(_) =>
    case AddressOf(_) =>
    case Deref(p) => EvalKeys(p, env, w);
    case Unary(_, e1) => EvalKeys(e1, env, w);
    case Binary(_, l, r) =>
      EvalKeys(l, env, w);
      EvalKeys(r, Down(env, 1), Eval(l, env, w).value.1);
    case AndAlso(l, r) =>
      EvalKeys(l, env, w);
      if Eval(l, env, w).value.0 != 0 { EvalKeys(r, env, Eval(l, env, w).value.1); }
    case OrElse(l, r) =>
      EvalKeys(l, env, w);
      if Eval(l, env, w).value.0 == 0 { EvalKeys(r, env, Eval(l, env, w).value.1); }
    case Assign(_, e1) => EvalKeys(e1, env, w);
    case AssignOp(_, _, e1) => EvalKeys(e1, Down(env, 1), w);
    case StoreThrough(p, e1) =>
      EvalKeys(p, env, w);
      EvalKeys(e1, Down(env, 1), Eval(p, env, w).value.1);
    case Builtin(_, args) => EvalArgsKeys(args, env, w);
    case CallFun(_, args) => EvalArgsKeys(args, env, w);
  }

  lemma {:induction false} EvalArgsKeys(es: Exprs, env: Env, w: World)
    requires EvalArgs(es, env, w).Some?
    ensures EvalArgs(es, env, w).value.1.mem.Keys == w.mem.Keys
    ensures |EvalArgs(es, env, w).value.0| == Count(es)
  {
    match es
    case Nil =>
    case Cons(h, t) =>
      EvalKeys(h, env, w);
      EvalArgsKeys(t, Down(env, 1), Eval(h, env, w).value.1);
  }

  // ----- pieces -----

  /** push eax */
  lemma PushRuns(p: Prog, env: Env, w: World, m: State, lo: int, hi: int) returns (m': State)
    requires Agrees(p, env, w, m, lo, hi) && lo + 4 <= m.esp
    requires At(p, m.pc, PUSH)
    ensures Run(p, m, 1) == Some(m') && Agrees(p, Down(env, 1), w, m', lo, hi)
    ensures m' == m.(pc := m.pc + 1, esp := m.esp - 4, mem := m.mem[m.esp - 4 := m.eax])
  {
    hide Run, Step, CallsWork, Confined;
    var m1 := Exec(p.kernel, p.dbase, p.sbase, Push(Eax), m).value;
    Plain(p, m, Push(Eax), m1);
    m' := m1.(pc := m.pc + 1);
  }

  /** pop ecx, when one dword pushed at `top - 4` is back on top. */
  lemma PopRuns(p: Prog, env: Env, w: World, m: State, lo: int, hi: int) returns (m': State)
    requires Agrees(p, Down(env, 1), w, m, lo, hi) && m.esp + 4 <= hi
    requires At(p, m.pc, POP)
    ensures m.esp in m.mem
    ensures Run(p, m, 1) == Some(m') && Agrees(p, env, w, m', lo, hi)
    ensures m' == m.(pc := m.pc + 1, esp := m.esp + 4, ecx := m.mem[m.esp])
  {
    hide Run, Step, CallsWork, Confined;
    var m1 := Exec(p.kernel, p.dbase, p.sbase, Pop(Ecx), m).value;
    Plain(p, m, Pop(Ecx), m1);
    m' := m1.(pc := m.pc + 1);
  }

  lemma LoadVarRuns(p: Prog, env: Env, w: World, x: Variable, m: State, lo: int, hi: int) returns (m': State)
    requires Agrees(p, env, w, m, lo, hi) && Read(AddrOf(env, x), w).Some?
    requires At(p, m.pc, [LoadVar(x)])
    ensures Run(p, m, 1) == Some(m') && Agrees(p, env, w, m', lo, hi)
    ensures m' == m.(pc := m.pc + 1, eax := Read(AddrOf(env, x), w).value.0)
  {
    hide Run, Step, CallsWork, Confined;
    var m1 := m.(eax := m.mem[AddrOf(env, x)]);
    assert Known(m.mem)[AddrOf(env, x)] == w.mem[AddrOf(env, x)];
    Plain(p, m, LoadVar(x).i, m1);
    m' := m1.(pc := m.pc + 1);
  }

  /** Writing source memory keeps the agreement. */
  lemma WriteAgrees(p: Prog, env: Env, w: World, m: State, a: int, v: Word, lo: int, hi: int)
    requires Agrees(p, env, w, m, lo, hi) && a in w.mem
    ensures var m' := m.(mem := m.mem[a := v]);
            Agrees(p, env, Written(w, a, v), m', lo, hi) && Keeps(w, m, m', lo)
  {
    hide CallsWork, Confined;
    assert a in Known(m.mem);
  }

  lemma {:induction false} StoreVarRuns(p: Prog, env: Env, w: World, x: Variable, m: State, lo: int, hi: int)
    returns (m': State)
    requires Agrees(p, env, w, m, lo, hi) && AddrOf(env, x) in w.mem
    requires At(p, m.pc, [StoreVar(x)])
    ensures Run(p, m, 1) == Some(m') && m'.pc == m.pc + 1 && m'.eax == m.eax
    ensures Agrees(p, env, Written(w, AddrOf(env, x), m.eax), m', lo, hi)
    ensures Keeps(w, m, m', lo)
  {
    hide Run, Step, CallsWork, Confined;
    var a := AddrOf(env, x);
    assert a in Known(m.mem);
    WriteAgrees(p, env, w, m, a, m.eax, lo, hi);
    var m1 := m.(mem := m.mem[a := m.eax]);
    Plain(p, m, StoreVar(x).i, m1);
    m' := m1.(pc := m.pc + 1);
  }

  /** jmp label */
  lemma GoRuns(p: Prog, l: int, m: State) returns (m': State)
    requires At(p, m.pc, Go(l)) && l in p.labels
    ensures Run(p, m, 1) == Some(m') && m' == m.(pc := p.labels[l])
  {
    AtIndex(p, m.pc, Go(l), 0);
    assert Run(p, m, 0) == Some(m);
    m' := m.(pc := p.labels[l]);
  }

  /** test eax, eax; jz/jnz label */
  lemma TestAndGoRuns(p: Prog, wh: When, l: int, m: State) returns (m': State)
    requires At(p, m.pc, TestAndGo(wh, l)) && wh != Always && l in p.labels
    ensures Run(p, m, 2) == Some(m') && SameFrame(m, m') && m'.eax == m.eax
    ensures m'.pc == if (m.eax == 0) == (wh == IfZero) then p.labels[l] else m.pc + 2
  {
    hide Run, Bitwise;
    RunNone(p, m);
    assert TestAndGo(wh, l) == [Op(Alu(Test, Eax, Eax))] + [Op(Jump(wh, l))];
    TestSelf(m.eax);
    var m1 := ExecAlu(Test, Eax, Eax, m);
    Next(p, m, 0, m, Alu(Test, Eax, Eax), [Op(Jump(wh, l))], m1);
    m1 := m1.(pc := m.pc + 1);
    AtIndex(p, m1.pc, [Op(Jump(wh, l))], 0);
    m' := Step(p, m1).value;
    OneStep(p, m1, m');
    Then(p, m, 1, m1, 1, m');
  }

  lemma OneStep(p: Prog, m: State, m': State)
    requires Step(p, m) == Some(m')
    ensures Run(p, m, 1) == Some(m')
  {
    hide Step;
    assert Run(p, m, 0) == Some(m);
  }

  lemma LabelRuns(p: Prog, l: int, m: State) returns (m': State)
    requires At(p, m.pc, [Label(l)])
    ensures Run(p, m, 1) == Some(m') && m' == m.(pc := m.pc + 1)
  {
    AtIndex(p, m.pc, [Label(l)], 0);
    assert Run(p, m, 0) == Some(m);
    m' := m.(pc := m.pc + 1);
  }
}
