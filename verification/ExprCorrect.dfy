/** The emitted code of every expression leaves its value in EAX. */
module ExprCorrect {
  import opened Basics
  import opened Word32
  import opened Machine
  import opened Syntax
  import opened Compile
  import opened Operators
  import opened ExprProof
  import opened CallProof

  /** What running the code of `e` from `m` needs ... */
  ghost predicate Ready(p: Prog, env: Env, w: World, e: Expr, nl: nat, m: State, lo: int, hi: int) {
    LabelsOk(p) && Agrees(p, env, w, m, lo, hi) && At(p, m.pc, ExprCode(e, nl)) &&
    CallsFit(e) && lo + 4 * (Depth(e) + env.callees.room) <= m.esp
  }

  /** ... and what it achieves: `v` in EAX, the source world `w'`, the stack as it was. */
  ghost predicate Computed(p: Prog, env: Env, w: World, len: nat, m: State, lo: int, hi: int, n: nat, m': State,
                           v: Word, w': World)
  {
    Run(p, m, n) == Some(m') && m'.pc == m.pc + len && m'.eax == v &&
    Agrees(p, env, w', m', lo, hi) && Keeps(w, m, m', lo) && w'.mem.Keys == w.mem.Keys
  }

  lemma Chain(p: Prog, env: Env, w: World, len: nat, m: State, lo: int, hi: int, n1: nat, m1: State, v1: Word,
              w1: World, len2: nat, n2: nat, m2: State, v2: Word, w2: World)
    requires Computed(p, env, w, len, m, lo, hi, n1, m1, v1, w1)
    requires Computed(p, env, w1, len2, m1, lo, hi, n2, m2, v2, w2)
    ensures Computed(p, env, w, len + len2, m, lo, hi, n1 + n2, m2, v2, w2)
  {
    hide Run, Agrees;
    Then(p, m, n1, m1, n2, m2);
  }

  /** Code that changes only registers the source cannot see. */
  lemma FrameComputed(p: Prog, env: Env, w: World, len: nat, m: State, lo: int, hi: int, n: nat, m': State)
    requires Agrees(p, env, w, m, lo, hi) && SameFrame(m, m')
    requires Run(p, m, n) == Some(m') && m'.pc == m.pc + len
    ensures Computed(p, env, w, len, m, lo, hi, n, m', m'.eax, w)
  {
    hide Run;
  }

  lemma StackKept(p: Prog, env: Env, w: World, len: nat, m: State, lo: int, hi: int, n: nat, m': State, v: Word,
                  w': World)
    requires Computed(p, env, w, len, m, lo, hi, n, m', v, w')
    ensures m'.esp == m.esp
  {}

  lemma StoreVarComputes(p: Prog, env: Env, w: World, x: Variable, m: State, lo: int, hi: int) returns (m': State)
    requires Agrees(p, env, w, m, lo, hi) && AddrOf(env, x) in w.mem && At(p, m.pc, [StoreVar(x)])
    ensures Computed(p, env, w, 1, m, lo, hi, 1, m', m.eax, Written(w, AddrOf(env, x), m.eax))
  {
    hide Run, AddrOf, Agrees, StoreVar;
    m' := StoreVarRuns(p, env, w, x, m, lo, hi);
  }

  lemma LoadIndComputes(p: Prog, env: Env, w: World, m: State, lo: int, hi: int) returns (m': State)
    requires Agrees(p, env, w, m, lo, hi) && Read(m.eax, w).Some? && At(p, m.pc, [Op(LoadInd)])
    ensures Computed(p, env, w, 1, m, lo, hi, 1, m', Read(m.eax, w).value.0, w)
  {
    hide Run, Step, CallsWork, Confined;
    assert Known(m.mem)[m.eax] == w.mem[m.eax];
    var m1 := m.(eax := m.mem[m.eax]);
    Plain(p, m, LoadInd, m1);
    m' := m1.(pc := m.pc + 1);
  }

  lemma StoreIndComputes(p: Prog, env: Env, w: World, m: State, lo: int, hi: int) returns (m': State)
    requires Agrees(p, env, w, m, lo, hi) && m.ecx in w.mem && At(p, m.pc, [Op(StoreInd)])
    ensures Computed(p, env, w, 1, m, lo, hi, 1, m', m.eax, Written(w, m.ecx, m.eax))
  {
    hide Run, Step, CallsWork, Confined;
    assert m.ecx in Known(m.mem);
    WriteAgrees(p, env, w, m, m.ecx, m.eax, lo, hi);
    var m1 := m.(mem := m.mem[m.ecx := m.eax]);
    Plain(p, m, StoreInd, m1);
    m' := m1.(pc := m.pc + 1);
  }

  lemma {:induction false} ExprRuns(p: Prog, env: Env, w: World, e: Expr, nl: nat, m: State, lo: int, hi: int)
    returns (n: nat, m': State)
    requires Ready(p, env, w, e, nl, m, lo, hi)
    requires Eval(e, env, w).Some?
    ensures Computed(p, env, w, |ExprCode(e, nl)|, m, lo, hi, n, m', Eval(e, env, w).value.0, Eval(e, env, w).value.1)
    decreases e, 1
  {
    hide Run, Step;
    match e
    case Num(_) => n, m' := LeafRuns(p, env, w, e, nl, m, lo, hi);
    case Str(_) => n, m' := LeafRuns(p, env, w, e, nl, m, lo, hi);
    case Var(_) => n, m' := LeafRuns(p, env, w, e, nl, m, lo, hi);
    case AddressOf(_) => n, m' := LeafRuns(p, env, w, e, nl, m, lo, hi);
    case Deref(_) => n, m' := DerefRuns(p, env, w, e, nl, m, lo, hi);
    case Unary(_, _) => n, m' := UnaryExprRuns(p, env, w, e, nl, m, lo, hi);
    case Binary(_, _, _) => n, m' := BinaryExprRuns(p, env, w, e, nl, m, lo, hi);
    case AndAlso(_, _) => n, m' := ShortExprRuns(p, env, w, e, nl, m, lo, hi);
    case OrElse(_, _) => n, m' := ShortExprRuns(p, env, w, e, nl, m, lo, hi);
    case Assign(_, _) => n, m' := AssignRuns(p, env, w, e, nl, m, lo, hi);
    case AssignOp(_, _, _) => n, m' := AssignOpRuns(p, env, w, e, nl, m, lo, hi);
    case StoreThrough(_, _) => n, m' := StoreThroughRuns(p, env, w, e, nl, m, lo, hi);
    case Builtin(_, _) => n, m' := BuiltinRuns(p, env, w, e, nl, m, lo, hi);
    case CallFun(_, _) => n, m' := CallFunRuns(p, env, w, e, nl, m, lo, hi);
  }

  lemma {:induction false} LeafRuns(p: Prog, env: Env, w: World, e: Expr, nl: nat, m: State, lo: int, hi: int)
    returns (n: nat, m': State)
    requires e.Num? || e.Str? || e.Var? || e.AddressOf?
    requires Ready(p, env, w, e, nl, m, lo, hi)
    requires Eval(e, env, w).Some?
    ensures Computed(p, env, w, |ExprCode(e, nl)|, m, lo, hi, n, m', Eval(e, env, w).value.0, Eval(e, env, w).value.1)
  {
    hide Run, Step;
    n := 1;
    if e.Var? {
      m' := LoadVarRuns(p, env, w, e.x, m, lo, hi);
    } else {
      var i := ExprCode(e, nl)[0].i;
      var m1 := m.(eax := Eval(e, env, w).value.0);
      Plain(p, m, i, m1);
      m' := m1.(pc := m.pc + 1);
    }
  }

  lemma DerefRuns(p: Prog, env: Env, w: World, e: Expr, nl: nat, m: State, lo: int, hi: int)
    returns (n: nat, m': State)
    requires e.Deref? && Ready(p, env, w, e, nl, m, lo, hi)
    requires Eval(e, env, w).Some?
    ensures Computed(p, env, w, |ExprCode(e, nl)|, m, lo, hi, n, m', Eval(e, env, w).value.0, Eval(e, env, w).value.1)
    decreases e, 0
  {
    hide Run, Step, Agrees, Keeps;
    AtSplit(p, m.pc, ExprCode(e.p, nl), [Op(LoadInd)]);
    var n1, m1 := ExprRuns(p, env, w, e.p, nl, m, lo, hi);
    var (v1, w1) := Eval(e.p, env, w).value;
    m' := LoadIndComputes(p, env, w1, m1, lo, hi);
    n := n1 + 1;
    Chain(p, env, w, |ExprCode(e.p, nl)|, m, lo, hi, n1, m1, v1, w1, 1, 1, m', m'.eax, w1);
  }

  lemma UnaryExprRuns(p: Prog, env: Env, w: World, e: Expr, nl: nat, m: State, lo: int, hi: int)
    returns (n: nat, m': State)
    requires e.Unary? && Ready(p, env, w, e, nl, m, lo, hi)
    requires Eval(e, env, w).Some?
    ensures Computed(p, env, w, |ExprCode(e, nl)|, m, lo, hi, n, m', Eval(e, env, w).value.0, Eval(e, env, w).value.1)
    decreases e, 0
  {
    hide Run, Step, UnaryCode, UnaryValue, Agrees, Keeps;
    AtSplit(p, m.pc, ExprCode(e.e, nl), UnaryCode(e.uop));
    var n1, m1 := ExprRuns(p, env, w, e.e, nl, m, lo, hi);
    var (v1, w1) := Eval(e.e, env, w).value;
    var n2, m2 := UnaryRuns(p, e.uop, m1);
    FrameComputed(p, env, w1, |UnaryCode(e.uop)|, m1, lo, hi, n2, m2);
    Chain(p, env, w, |ExprCode(e.e, nl)|, m, lo, hi, n1, m1, v1, w1, |UnaryCode(e.uop)|, n2, m2, m2.eax, w1);
    n, m' := n1 + n2, m2;
  }

  /** What was pushed is still on top. */
  lemma OperandSaved(p: Prog, env: Env, w: World, m: State, m1: State, m2: State, lo: int, hi: int)
    requires Agrees(p, env, w, m, lo, hi) && lo + 4 <= m.esp && Keeps(w, m1, m2, lo)
    requires m1 == m.(pc := m1.pc, esp := m.esp - 4, mem := m.mem[m.esp - 4 := m.eax])
    ensures 4 <= m.esp && m2.esp == m1.esp && m2.esp + 4 <= hi && m1.esp in m1.mem && m1.esp !in w.mem
    ensures m1.esp in m2.mem && m2.mem[m1.esp] == m.eax && m1.mem.Keys == m.mem.Keys
  {
    hide CallsWork, Confined, Extends;
    assert (m.esp - 4) % 4 == 0;
  }

  lemma OperandKept(w: World, m: State, m1: State, m2: State, m': State, lo: int)
    requires Keeps(w, m1, m2, lo) && m1.mem.Keys == m.mem.Keys && 4 <= m.esp
    requires m1 == m.(pc := m1.pc, esp := m.esp - 4, mem := m.mem[m.esp - 4 := m.eax])
    requires m' == m2.(pc := m'.pc, esp := m2.esp + 4, ecx := m'.ecx) && lo + 4 <= m.esp
    ensures Keeps(w, m, m', lo)
  {
  }

  /** push eax; code of `r`; pop ecx: the old EAX in ECX, the value of `r` in EAX. */
  lemma {:induction false} OperandRuns(p: Prog, env: Env, w: World, r: Expr, nl: nat, rest: seq<Item>, m: State,
                                       lo: int, hi: int)
    returns (n: nat, m': State)
    requires LabelsOk(p) && Agrees(p, env, w, m, lo, hi) && CallsFit(r) &&
             lo + 4 * (1 + Depth(r) + env.callees.room) <= m.esp
    requires At(p, m.pc, PUSH + (ExprCode(r, nl) + (POP + rest)))
    requires Eval(r, Down(env, 1), w).Some?
    ensures Computed(p, env, w, |ExprCode(r, nl)| + 2, m, lo, hi, n, m', Eval(r, Down(env, 1), w).value.0,
                     Eval(r, Down(env, 1), w).value.1)
    ensures m'.ecx == m.eax && At(p, m'.pc, rest)
    decreases r, 2
  {
    hide Run, Step, Eval, ExprCode, Agrees, Keeps, Depth, CallsFit;
    AtSplit(p, m.pc, PUSH, ExprCode(r, nl) + (POP + rest));
    AtSplit(p, m.pc + 1, ExprCode(r, nl), POP + rest);
    AtSplit(p, m.pc + 1 + |ExprCode(r, nl)|, POP, rest);
    var m1 := PushRuns(p, env, w, m, lo, hi);
    var n2, m2 := ExprRuns(p, Down(env, 1), w, r, nl, m1, lo, hi);
    var w2 := Eval(r, Down(env, 1), w).value.1;
    OperandSaved(p, env, w, m, m1, m2, lo, hi);
    m' := PopRuns(p, env, w2, m2, lo, hi);
    OperandKept(w, m, m1, m2, m', lo);
    Then(p, m, 1, m1, n2, m2);
    Then(p, m, 1 + n2, m2, 1, m');
    n := 2 + n2;
  }

  lemma BinaryParts(p: Prog, env: Env, w: World, e: Expr, nl: nat, m: State, lo: int, hi: int)
    requires e.Binary? && Ready(p, env, w, e, nl, m, lo, hi) && Eval(e, env, w).Some?
    ensures Ready(p, env, w, e.l, nl, m, lo, hi) && Eval(e.l, env, w).Some?
    ensures CallsFit(e.r) && lo + 4 * (1 + Depth(e.r) + env.callees.room) <= m.esp
    ensures var right := ExprCode(e.r, nl + Labels(e.l));
            At(p, m.pc + |ExprCode(e.l, nl)|, PUSH + (right + (POP + BinaryCode(e.bop)))) &&
            |ExprCode(e, nl)| == |ExprCode(e.l, nl)| + |right| + 2 + |BinaryCode(e.bop)|
    ensures var (a, w1) := Eval(e.l, env, w).value;
            Eval(e.r, Down(env, 1), w1).Some? &&
            var (b, w2) := Eval(e.r, Down(env, 1), w1).value;
            BinaryValue(e.bop, a, b).Some? && Eval(e, env, w) == Some((BinaryValue(e.bop, a, b).value, w2))
  {
    hide Agrees, LabelsOk, BinaryValue, UnaryValue, CallKernel, CallFunction, BinaryCode, UnaryCode, CallCode,
         InvokeCode, ShortTail, AddrOf;
    AtSplit(p, m.pc, ExprCode(e.l, nl), PUSH + (ExprCode(e.r, nl + Labels(e.l)) + (POP + BinaryCode(e.bop))));
  }

  lemma {:induction false} BinaryExprRuns(p: Prog, env: Env, w: World, e: Expr, nl: nat, m: State, lo: int, hi: int)
    returns (n: nat, m': State)
    requires e.Binary? && Ready(p, env, w, e, nl, m, lo, hi)
    requires Eval(e, env, w).Some?
    ensures Computed(p, env, w, |ExprCode(e, nl)|, m, lo, hi, n, m', Eval(e, env, w).value.0, Eval(e, env, w).value.1)
    decreases e, 0
  {
    hide Run, Step, BinaryCode, BinaryValue, Agrees, Keeps, Eval, ExprCode, Depth, CallsFit, At;
    BinaryParts(p, env, w, e, nl, m, lo, hi);
    var nr := nl + Labels(e.l);
    var op := BinaryCode(e.bop);
    var n1, m1 := ExprRuns(p, env, w, e.l, nl, m, lo, hi);
    var (v1, w1) := Eval(e.l, env, w).value;
    StackKept(p, env, w, |ExprCode(e.l, nl)|, m, lo, hi, n1, m1, v1, w1);
    var n2, m2 := OperandRuns(p, env, w1, e.r, nr, op, m1, lo, hi);
    var (v2, w2) := Eval(e.r, Down(env, 1), w1).value;
    var n3, m3 := BinaryRuns(p, e.bop, m2);
    FrameComputed(p, env, w2, |op|, m2, lo, hi, n3, m3);
    Chain(p, env, w, |ExprCode(e.l, nl)|, m, lo, hi, n1, m1, v1, w1, |ExprCode(e.r, nr)| + 2, n2, m2, v2, w2);
    Chain(p, env, w, |ExprCode(e.l, nl)| + |ExprCode(e.r, nr)| + 2, m, lo, hi, n1 + n2, m2, v2, w2, |op|, n3, m3,
          m3.eax, w2);
    n, m' := n1 + n2 + n3, m3;
  }

  lemma {:induction false} AssignRuns(p: Prog, env: Env, w: World, e: Expr, nl: nat, m: State, lo: int, hi: int)
    returns (n: nat, m': State)
    requires e.Assign? && Ready(p, env, w, e, nl, m, lo, hi)
    requires Eval(e, env, w).Some?
    ensures Computed(p, env, w, |ExprCode(e, nl)|, m, lo, hi, n, m', Eval(e, env, w).value.0, Eval(e, env, w).value.1)
    decreases e, 0
  {
    hide Run, Step, StoreVar, AddrOf, Agrees, Keeps;
    AtSplit(p, m.pc, ExprCode(e.e, nl), [StoreVar(e.x)]);
    var n1, m1 := ExprRuns(p, env, w, e.e, nl, m, lo, hi);
    var (v1, w1) := Eval(e.e, env, w).value;
    m' := StoreVarComputes(p, env, w1, e.x, m1, lo, hi);
    n := n1 + 1;
    Chain(p, env, w, |ExprCode(e.e, nl)|, m, lo, hi, n1, m1, v1, w1, 1, 1, m', v1, Written(w1, AddrOf(env, e.x), v1));
  }

  lemma {:induction false} AssignOpRuns(p: Prog, env: Env, w: World, e: Expr, nl: nat, m: State, lo: int, hi: int)
    returns (n: nat, m': State)
    requires e.AssignOp? && Ready(p, env, w, e, nl, m, lo, hi)
    requires Eval(e, env, w).Some?
    ensures Computed(p, env, w, |ExprCode(e, nl)|, m, lo, hi, n, m', Eval(e, env, w).value.0, Eval(e, env, w).value.1)
    decreases e, 0
  {
    hide Run, Step, BinaryCode, BinaryValue, StoreVar, LoadVar, AddrOf, Agrees;
    var op := BinaryCode(e.aop);
    var rest := op + [StoreVar(e.x)];
    AtSplit(p, m.pc, [LoadVar(e.x)], PUSH + (ExprCode(e.e, nl) + (POP + rest)));
    var m1 := LoadVarRuns(p, env, w, e.x, m, lo, hi);
    FrameComputed(p, env, w, 1, m, lo, hi, 1, m1);
    var n2, m2 := OperandRuns(p, env, w, e.e, nl, rest, m1, lo, hi);
    var (v2, w2) := Eval(e.e, Down(env, 1), w).value;
    AtSplit(p, m2.pc, op, [StoreVar(e.x)]);
    var n3, m3 := BinaryRuns(p, e.aop, m2);
    FrameComputed(p, env, w2, |op|, m2, lo, hi, n3, m3);
    m' := StoreVarComputes(p, env, w2, e.x, m3, lo, hi);
    var len := |ExprCode(e.e, nl)| + 3;
    Chain(p, env, w, 1, m, lo, hi, 1, m1, m1.eax, w, len - 1, n2, m2, v2, w2);
    Chain(p, env, w, len, m, lo, hi, 1 + n2, m2, v2, w2, |op|, n3, m3, m3.eax, w2);
    Chain(p, env, w, len + |op|, m, lo, hi, 1 + n2 + n3, m3, m3.eax, w2, 1, 1, m', m3.eax,
          Written(w2, AddrOf(env, e.x), m3.eax));
    n := 1 + n2 + n3 + 1;
  }

  lemma StoreThroughParts(p: Prog, env: Env, w: World, e: Expr, nl: nat, m: State, lo: int, hi: int)
    requires e.StoreThrough? && Ready(p, env, w, e, nl, m, lo, hi) && Eval(e, env, w).Some?
    ensures Ready(p, env, w, e.p, nl, m, lo, hi) && Eval(e.p, env, w).Some?
    ensures CallsFit(e.e) && lo + 4 * (1 + Depth(e.e) + env.callees.room) <= m.esp
    ensures var right := ExprCode(e.e, nl + Labels(e.p));
            At(p, m.pc + |ExprCode(e.p, nl)|, PUSH + (right + (POP + [Op(StoreInd)]))) &&
            |ExprCode(e, nl)| == |ExprCode(e.p, nl)| + |right| + 3
    ensures var (a, w1) := Eval(e.p, env, w).value;
            Eval(e.e, Down(env, 1), w1).Some? &&
            var (v, w2) := Eval(e.e, Down(env, 1), w1).value;
            a in w2.mem && Eval(e, env, w) == Some((v, Written(w2, a, v)))
  {
    hide Agrees, LabelsOk, BinaryValue, UnaryValue, CallKernel, CallFunction, BinaryCode, UnaryCode, CallCode,
         InvokeCode, ShortTail, AddrOf;
    AtSplit(p, m.pc, ExprCode(e.p, nl), PUSH + (ExprCode(e.e, nl + Labels(e.p)) + (POP + [Op(StoreInd)])));
  }

  lemma {:induction false} StoreThroughRuns(p: Prog, env: Env, w: World, e: Expr, nl: nat, m: State, lo: int, hi: int)
    returns (n: nat, m': State)
    requires e.StoreThrough? && Ready(p, env, w, e, nl, m, lo, hi)
    requires Eval(e, env, w).Some?
    ensures Computed(p, env, w, |ExprCode(e, nl)|, m, lo, hi, n, m', Eval(e, env, w).value.0, Eval(e, env, w).value.1)
    decreases e, 0
  {
    hide Run, Step, Agrees, Keeps, Eval, ExprCode, Depth, CallsFit, At;
    StoreThroughParts(p, env, w, e, nl, m, lo, hi);
    var nr := nl + Labels(e.p);
    var n1, m1 := ExprRuns(p, env, w, e.p, nl, m, lo, hi);
    var (a, w1) := Eval(e.p, env, w).value;
    StackKept(p, env, w, |ExprCode(e.p, nl)|, m, lo, hi, n1, m1, a, w1);
    var n2, m2 := OperandRuns(p, env, w1, e.e, nr, [Op(StoreInd)], m1, lo, hi);
    var (v, w2) := Eval(e.e, Down(env, 1), w1).value;
    m' := StoreIndComputes(p, env, w2, m2, lo, hi);
    Chain(p, env, w, |ExprCode(e.p, nl)|, m, lo, hi, n1, m1, a, w1, |ExprCode(e.e, nr)| + 2, n2, m2, v, w2);
    Chain(p, env, w, |ExprCode(e.p, nl)| + |ExprCode(e.e, nr)| + 2, m, lo, hi, n1 + n2, m2, v, w2, 1, 1, m', v,
          Written(w2, a, v));
    n := n1 + n2 + 1;
  }

  lemma VerdictParts(p: Prog, when: When, skip: int, end: int, pc: int)
    requires LabelsOk(p) && At(p, pc, Verdict(when, skip, end))
    ensures At(p, pc, [Op(LoadImm(Truth(when == IfZero)))]) && At(p, pc + 1, Go(end)) && At(p, pc + 2, [Label(skip)])
    ensures At(p, pc + 3, [Op(LoadImm(Truth(when != IfZero)))]) && At(p, pc + 4, [Label(end)])
    ensures skip in p.labels && p.labels[skip] == pc + 2 && end in p.labels && p.labels[end] == pc + 4
  {
    var hit, miss := Op(LoadImm(Truth(when == IfZero))), Op(LoadImm(Truth(when != IfZero)));
    var t2 := [miss] + [Label(end)];
    var t1 := [Label(skip)] + t2;
    AtSplit(p, pc, [hit], Go(end) + t1);
    AtSplit(p, pc + 1, Go(end), t1);
    AtSplit(p, pc + 2, [Label(skip)], t2);
    AtSplit(p, pc + 3, [miss], [Label(end)]);
    AtIndex(p, pc + 2, [Label(skip)], 0);
    AtIndex(p, pc + 4, [Label(end)], 0);
  }

  /** Falling into a verdict, or arriving at its `skip` label. */
  lemma VerdictRuns(p: Prog, when: When, skip: int, end: int, pc: int, m: State) returns (n: nat, m': State)
    requires LabelsOk(p) && At(p, pc, Verdict(when, skip, end))
    requires m.pc == pc || m.pc == pc + 2
    ensures Run(p, m, n) == Some(m') && m'.pc == pc + 5 && SameFrame(m, m')
    ensures m'.eax == Truth((m.pc == pc) == (when == IfZero))
  {
    hide Run, Step, LabelsOk, At, Verdict;
    VerdictParts(p, when, skip, end, pc);
    n := 3;
    if m.pc == pc {
      var v := Truth(when == IfZero);
      Plain(p, m, LoadImm(v), m.(eax := v));
      var m1 := m.(eax := v, pc := pc + 1);
      var m2 := GoRuns(p, end, m1);
      m' := LabelRuns(p, end, m2);
      Then(p, m, 1, m1, 1, m2);
      Then(p, m, 2, m2, 1, m');
    } else {
      var v := Truth(when != IfZero);
      var m1 := LabelRuns(p, skip, m);
      Plain(p, m1, LoadImm(v), m1.(eax := v));
      var m2 := m1.(eax := v, pc := pc + 4);
      m' := LabelRuns(p, end, m2);
      Then(p, m, 1, m1, 1, m2);
      Then(p, m, 2, m2, 1, m');
    }
  }

  /** After the left side of `&&` or `||`. */
  lemma {:induction false} ShortRuns(p: Prog, env: Env, w: World, r: Expr, nl: nat, when: When, skip: int, end: int,
                                     m: State, lo: int, hi: int)
    returns (n: nat, m': State)
    requires LabelsOk(p) && Agrees(p, env, w, m, lo, hi) && CallsFit(r) &&
             lo + 4 * (Depth(r) + env.callees.room) <= m.esp
    requires when != Always && At(p, m.pc, ShortTail(ExprCode(r, nl), when, skip, end))
    requires (m.eax == 0) != (when == IfZero) ==> Eval(r, env, w).Some?
    ensures (m.eax == 0) == (when == IfZero) ==>
      Computed(p, env, w, |ExprCode(r, nl)| + 9, m, lo, hi, n, m', Truth(when != IfZero), w)
    ensures (m.eax == 0) != (when == IfZero) ==>
      var (v, w1) := Eval(r, env, w).value;
      Computed(p, env, w, |ExprCode(r, nl)| + 9, m, lo, hi, n, m', Truth(v != 0), w1)
    decreases r, 2
  {
    hide Run, Step, Eval, ExprCode, Agrees, Keeps, Depth, CallsFit;
    var code := ExprCode(r, nl);
    var verdict := Verdict(when, skip, end);
    var pv := m.pc + 4 + |code|;
    AtSplit(p, m.pc, TestAndGo(when, skip), code + (TestAndGo(when, skip) + verdict));
    AtSplit(p, m.pc + 2, code, TestAndGo(when, skip) + verdict);
    AtSplit(p, m.pc + 2 + |code|, TestAndGo(when, skip), verdict);
    SkipLabel(p, when, skip, end, pv);
    var m1 := TestAndGoRuns(p, when, skip, m);
    if (m.eax == 0) == (when == IfZero) {
      var k, m2 := VerdictRuns(p, when, skip, end, pv, m1);
      Then(p, m, 2, m1, k, m2);
      n, m' := 2 + k, m2;
      FrameComputed(p, env, w, |code| + 9, m, lo, hi, n, m');
    } else {
      FrameComputed(p, env, w, 2, m, lo, hi, 2, m1);
      var n2, m2 := ExprRuns(p, env, w, r, nl, m1, lo, hi);
      var (v, w1) := Eval(r, env, w).value;
      var m3 := TestAndGoRuns(p, when, skip, m2);
      var k, m4 := VerdictRuns(p, when, skip, end, pv, m3);
      Then(p, m2, 2, m3, k, m4);
      FrameComputed(p, env, w1, 7, m2, lo, hi, 2 + k, m4);
      Chain(p, env, w, 2, m, lo, hi, 2, m1, m1.eax, w, |code|, n2, m2, v, w1);
      Chain(p, env, w, 2 + |code|, m, lo, hi, 2 + n2, m2, v, w1, 7, 2 + k, m4, m4.eax, w1);
      n, m' := 2 + n2 + (2 + k), m4;
    }
  }

  lemma SkipLabel(p: Prog, when: When, skip: int, end: int, pc: int)
    requires LabelsOk(p) && At(p, pc, Verdict(when, skip, end))
    ensures skip in p.labels && p.labels[skip] == pc + 2 && |Verdict(when, skip, end)| == 5
  {
    AtIndex(p, pc, Verdict(when, skip, end), 2);
  }

  lemma ShortParts(p: Prog, env: Env, w: World, e: Expr, nl: nat, m: State, lo: int, hi: int, when: When, skip: nat,
                   end: nat)
    requires (e.AndAlso? || e.OrElse?) && Ready(p, env, w, e, nl, m, lo, hi) && Eval(e, env, w).Some?
    requires when == (if e.AndAlso? then IfZero else IfNonZero)
    requires skip == nl + Labels(e.l) && end == skip + 1 + Labels(e.r)
    ensures Ready(p, env, w, e.l, nl, m, lo, hi) && Eval(e.l, env, w).Some?
    ensures CallsFit(e.r) && lo + 4 * (Depth(e.r) + env.callees.room) <= m.esp
    ensures At(p, m.pc + |ExprCode(e.l, nl)|, ShortTail(ExprCode(e.r, skip + 1), when, skip, end))
    ensures |ExprCode(e, nl)| == |ExprCode(e.l, nl)| + |ExprCode(e.r, skip + 1)| + 9
    ensures var (a, w1) := Eval(e.l, env, w).value;
            ((a == 0) == (when == IfZero) ==> Eval(e, env, w) == Some((Truth(when != IfZero), w1))) &&
            ((a == 0) != (when == IfZero) ==>
              Eval(e.r, env, w1).Some? &&
              var (v, w2) := Eval(e.r, env, w1).value;
              Eval(e, env, w) == Some((Truth(v != 0), w2)))
  {
    hide Agrees, LabelsOk, ShortTail;
    var tail := ShortTail(ExprCode(e.r, skip + 1), when, skip, end);
    assert ExprCode(e, nl) == ExprCode(e.l, nl) + tail;
    ShortLength(ExprCode(e.r, skip + 1), when, skip, end);
    AtSplit(p, m.pc, ExprCode(e.l, nl), tail);
  }

  lemma {:induction false} ShortExprRuns(p: Prog, env: Env, w: World, e: Expr, nl: nat, m: State, lo: int, hi: int)
    returns (n: nat, m': State)
    requires (e.AndAlso? || e.OrElse?) && Ready(p, env, w, e, nl, m, lo, hi)
    requires Eval(e, env, w).Some?
    ensures Computed(p, env, w, |ExprCode(e, nl)|, m, lo, hi, n, m', Eval(e, env, w).value.0, Eval(e, env, w).value.1)
    decreases e, 0
  {
    hide Run, Step, Agrees, Keeps, Eval, ExprCode, Depth, CallsFit, ShortTail, At;
    var when := if e.AndAlso? then IfZero else IfNonZero;
    var skip := nl + Labels(e.l);
    var end := skip + 1 + Labels(e.r);
    ShortParts(p, env, w, e, nl, m, lo, hi, when, skip, end);
    var n1, m1 := ExprRuns(p, env, w, e.l, nl, m, lo, hi);
    var (v1, w1) := Eval(e.l, env, w).value;
    StackKept(p, env, w, |ExprCode(e.l, nl)|, m, lo, hi, n1, m1, v1, w1);
    var n2, m2 := ShortRuns(p, env, w1, e.r, skip + 1, when, skip, end, m1, lo, hi);
    var (v, w2) := Eval(e, env, w).value;
    Chain(p, env, w, |ExprCode(e.l, nl)|, m, lo, hi, n1, m1, v1, w1, |ExprCode(e.r, skip + 1)| + 9, n2, m2, v, w2);
    n, m' := n1 + n2, m2;
  }

  lemma ShortLength(right: seq<Item>, when: When, skip: int, end: int)
    ensures |ShortTail(right, when, skip, end)| == |right| + 9
  {}

  /** Arguments pushed left to right: the last one is on top. */
  lemma {:induction false} ArgsRuns(p: Prog, env: Env, w: World, es: Exprs, nl: nat, m: State, lo: int, hi: int)
    returns (n: nat, m': State)
    requires LabelsOk(p) && Agrees(p, env, w, m, lo, hi) && ArgsFit(es) &&
             lo + 4 * (ArgDepth(es) + env.callees.room) <= m.esp
    requires At(p, m.pc, ArgsCode(es, nl)) && EvalArgs(es, env, w).Some?
    ensures var (vs, w') := EvalArgs(es, env, w).value;
            Pushed(p, env, w, |ArgsCode(es, nl)|, m, lo, hi, n, m', vs, w')
    decreases es, 1
  {
    hide Run, Step;
    match es
    case Nil =>
      RunNone(p, m);
      n, m' := 0, m;
    case Cons(_, _) =>
      n, m' := ConsRuns(p, env, w, es, nl, m, lo, hi);
  }

  /** What running argument code achieves. */
  ghost predicate Pushed(p: Prog, env: Env, w: World, len: nat, m: State, lo: int, hi: int, n: nat, m': State,
                         vs: seq<Word>, w': World)
  {
    Run(p, m, n) == Some(m') && m'.pc == m.pc + len &&
    Agrees(p, Down(env, |vs|), w', m', lo, hi) && m'.esp == m.esp - 4 * |vs| &&
    Holding(m'.mem, m'.esp, Reverse(vs)) && w'.mem.Keys == w.mem.Keys && Keeps(w, m, m'.(esp := m.esp), lo)
  }

  lemma ConsParts(p: Prog, env: Env, w: World, es: Exprs, nl: nat, m: State, lo: int, hi: int)
    requires es.Cons? && LabelsOk(p) && Agrees(p, env, w, m, lo, hi) && ArgsFit(es) &&
             lo + 4 * (ArgDepth(es) + env.callees.room) <= m.esp
    requires At(p, m.pc, ArgsCode(es, nl)) && EvalArgs(es, env, w).Some?
    ensures Ready(p, env, w, es.head, nl, m, lo, hi) && Eval(es.head, env, w).Some?
    ensures ArgsFit(es.tail) && lo + 4 * (1 + ArgDepth(es.tail) + env.callees.room) <= m.esp
    ensures var nt := nl + Labels(es.head);
            var len := |ExprCode(es.head, nl)|;
            At(p, m.pc + len, PUSH) && At(p, m.pc + len + 1, ArgsCode(es.tail, nt)) &&
            |ArgsCode(es, nl)| == len + 1 + |ArgsCode(es.tail, nt)|
    ensures var (v, w1) := Eval(es.head, env, w).value;
            EvalArgs(es.tail, Down(env, 1), w1).Some? &&
            var (vs, w2) := EvalArgs(es.tail, Down(env, 1), w1).value;
            EvalArgs(es, env, w) == Some(([v] + vs, w2))
  {
    hide Agrees, LabelsOk, Eval, ExprCode;
    var nt := nl + Labels(es.head);
    AtSplit(p, m.pc, ExprCode(es.head, nl), PUSH + ArgsCode(es.tail, nt));
    AtSplit(p, m.pc + |ExprCode(es.head, nl)|, PUSH, ArgsCode(es.tail, nt));
  }

  lemma {:induction false} ConsRuns(p: Prog, env: Env, w: World, es: Exprs, nl: nat, m: State, lo: int, hi: int)
    returns (n: nat, m': State)
    requires es.Cons? && LabelsOk(p) && Agrees(p, env, w, m, lo, hi) && ArgsFit(es) &&
             lo + 4 * (ArgDepth(es) + env.callees.room) <= m.esp
    requires At(p, m.pc, ArgsCode(es, nl)) && EvalArgs(es, env, w).Some?
    ensures var (vs, w') := EvalArgs(es, env, w).value;
            Pushed(p, env, w, |ArgsCode(es, nl)|, m, lo, hi, n, m', vs, w')
    decreases es, 0
  {
    hide Run, Step, Eval, EvalArgs, ExprCode, ArgsCode, Agrees, Keeps, Holding, At, ArgsFit, ArgDepth, Labels;
    ConsParts(p, env, w, es, nl, m, lo, hi);
    var h, t, nt := es.head, es.tail, nl + Labels(es.head);
    var len := |ExprCode(h, nl)|;
    var n1, m1 := ExprRuns(p, env, w, h, nl, m, lo, hi);
    var (v, w1) := Eval(h, env, w).value;
    StackKept(p, env, w, len, m, lo, hi, n1, m1, v, w1);
    var m2 := PushRuns(p, env, w1, m1, lo, hi);
    var n3, m3 := ArgsRuns(p, Down(env, 1), w1, t, nt, m2, lo, hi);
    Then(p, m, n1, m1, 1, m2);
    Then(p, m, n1 + 1, m2, n3, m3);
    n, m' := n1 + 1 + n3, m3;
    var (vt, w2) := EvalArgs(t, Down(env, 1), w1).value;
    PushedStays(p, env, w, w1, len, m, lo, hi, n1, m1, v, m2, m3);
    HoldingMore(m3.mem, m3.esp, vt, v);
  }

  lemma PushedStays(p: Prog, env: Env, w: World, w1: World, len: nat, m: State, lo: int, hi: int, n1: nat, m1: State,
                    v: Word, m2: State, m3: State)
    requires Computed(p, env, w, len, m, lo, hi, n1, m1, v, w1) && lo + 4 <= m.esp
    requires m2 == m1.(pc := m2.pc, esp := m1.esp - 4, mem := m1.mem[m1.esp - 4 := m1.eax])
    requires Agrees(p, Down(env, 1), w1, m2, lo, hi) && Keeps(w1, m2, m3.(esp := m2.esp), lo)
    ensures m2.esp in m3.mem && m3.mem[m2.esp] == v && Keeps(w, m, m3.(esp := m.esp), lo)
  {
    hide Run;
  }

  lemma HoldingMore(mem: map<int, Word>, base: int, vt: seq<Word>, v: Word)
    requires Holding(mem, base, Reverse(vt))
    requires base + 4 * |vt| in mem && mem[base + 4 * |vt|] == v
    ensures Holding(mem, base, Reverse([v] + vt))
  {
    assert Reverse([v] + vt) == Reverse(vt) + [v];
  }

  lemma {:induction false} BuiltinRuns(p: Prog, env: Env, w: World, e: Expr, nl: nat, m: State, lo: int, hi: int)
    returns (n: nat, m': State)
    requires e.Builtin? && Ready(p, env, w, e, nl, m, lo, hi)
    requires Eval(e, env, w).Some?
    ensures Computed(p, env, w, |ExprCode(e, nl)|, m, lo, hi, n, m', Eval(e, env, w).value.0, Eval(e, env, w).value.1)
    decreases e, 0
  {
    hide Run, Step, CallKernel, CallCode, Holding, Reverse, CallsWork, Confined, Extends;
    AtSplit(p, m.pc, ArgsCode(e.args, nl), CallCode(e.index, Count(e.args)));
    var n1, m1 := ArgsRuns(p, env, w, e.args, nl, m, lo, hi);
    var (vs, w1) := EvalArgs(e.args, env, w).value;
    EvalArgsKeys(e.args, env, w);
    var n2, m2 := CallRuns(p, env, w1, m1, e.index, vs, lo, hi);
    Then(p, m, n1, m1, n2, m2);
    n, m' := n1 + n2, m2;
  }

  /** A call of another function, with its arguments as they were pushed. */
  lemma {:induction false} InvokeRuns(p: Prog, env: Env, w: World, f: int, args: Exprs, nl: nat, m: State, lo: int,
                                      hi: int)
    returns (n: nat, m': State)
    requires LabelsOk(p) && Agrees(p, env, w, m, lo, hi) && ArgsFit(args)
    requires lo + 4 * (Max(ArgDepth(args), Count(args)) + env.callees.room) <= m.esp
    requires At(p, m.pc, ArgsCode(args, nl) + InvokeCode(f, Count(args))) && EvalArgs(args, env, w).Some?
    requires var (vs, w1) := EvalArgs(args, env, w).value; CallFunction(env, f, vs, w1).Some?
    ensures var (vs, w1) := EvalArgs(args, env, w).value;
            var (v, w2) := CallFunction(env, f, vs, w1).value;
            Computed(p, env, w, |ArgsCode(args, nl) + InvokeCode(f, Count(args))|, m, lo, hi, n, m',
                     if v.Some? then v.value else m'.eax, w2)
    decreases args, 2
  {
    hide Run, Step, Eval, ArgsCode, DropCode, Holding, Reverse, CallsWork, Callable, Confined, Extends;
    var k := Count(args);
    AtSplit(p, m.pc, ArgsCode(args, nl), InvokeCode(f, k));
    AtSplit(p, m.pc + |ArgsCode(args, nl)|, [Op(Call(f))], DropCode(k));
    var n1, m1 := ArgsRuns(p, env, w, args, nl, m, lo, hi);
    var (vs, w1) := EvalArgs(args, env, w).value;
    var (v, w2) := CallFunction(env, f, vs, w1).value;
    EvalArgsKeys(args, env, w);
    var n2, m2 := CalledRuns(p, Down(env, k), w1, f, vs, m1, lo, hi);
    var n3, m3 := DropRuns(p, env, w2, m2, k, lo, hi);
    Then(p, m, n1, m1, n2, m2);
    Then(p, m, n1 + n2, m2, n3, m3);
    n, m' := n1 + n2 + n3, m3;
  }

  /** The call itself. */
  lemma CalledRuns(p: Prog, env: Env, w: World, f: int, vs: seq<Word>, m: State, lo: int, hi: int)
    returns (n: nat, m': State)
    requires Agrees(p, env, w, m, lo, hi) && At(p, m.pc, [Op(Call(f))]) && Holding(m.mem, m.esp, Reverse(vs))
    requires m.esp + 4 * |vs| <= hi && lo + 4 * env.callees.room <= m.esp
    requires env.callees.call(f, vs, m.esp, w).Some? && env.callees.call(f, vs, m.esp, w).value.1.mem.Keys == w.mem.Keys
    ensures var (v, w') := env.callees.call(f, vs, m.esp, w).value;
            && Run(p, m, n) == Some(m') && Agrees(p, env, w', m', lo, hi) && m'.pc == m.pc + 1
            && CameBack(|vs|, w, m, m', v, w', lo, hi)
  {
    hide Run, Step, Holding, Reverse, Confined, Extends, At;
    assert Callable(p, env.callees, f, vs, w, m, lo, hi);
    assert Answered(p, env.callees, f, vs, w, m, lo, hi);
    var (v, w') := env.callees.call(f, vs, m.esp, w).value;
    n, m' :| Run(p, m, n) == Some(m') && CameBack(|vs|, w, m, m', v, w', lo, hi);
  }

  lemma {:induction false} CallFunRuns(p: Prog, env: Env, w: World, e: Expr, nl: nat, m: State, lo: int, hi: int)
    returns (n: nat, m': State)
    requires e.CallFun? && Ready(p, env, w, e, nl, m, lo, hi)
    requires Eval(e, env, w).Some?
    ensures Computed(p, env, w, |ExprCode(e, nl)|, m, lo, hi, n, m', Eval(e, env, w).value.0, Eval(e, env, w).value.1)
    decreases e, 0
  {
    hide Run, Step, Agrees, Keeps, EvalArgs, ArgsCode, InvokeCode, CallFunction;
    n, m' := InvokeRuns(p, env, w, e.f, e.args, nl, m, lo, hi);
  }
}
