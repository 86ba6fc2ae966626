/** The part of a 32-bit x86 processor that the code generator uses. Memory is a
    finite map of the dwords in use; touching any other dword, dividing out of range
    or reading flags no compare or test has set leaves the machine stuck (`None`). */
module Machine {
  import opened Basics
  import opened Word32

  datatype Reg = Eax | Ecx | Edx | Ebx | Esp | Ebp | Esi | Edi

  datatype AluOp = Add | Sub | And | Or | Xor | Cmp | Test

  datatype Cond = E | Ne | L | G | Le | Ge

  datatype When = Always | IfZero | IfNonZero

  /** One instruction. `Jump.to` and `Call.to` hold a label (a function) before linking
      and a relative displacement afterwards; `LoadAbs`, `StoreAbs` and `LoadStr` hold a
      section offset before linking and an address afterwards. */
  datatype Instr =
    | Push(r: Reg)
    | Pop(r: Reg)
    | Mov(dst: Reg, src: Reg)
    | Alu(op: AluOp, dst: Reg, src: Reg)
    | LoadImm(imm: Word)
    | LoadStr(off: Word)
    | LoadAbs(addr: Word)
    | StoreAbs(addr: Word)
    | LoadLocal(disp: int)
    | StoreLocal(disp: int)
    | LeaLocal(disp: int)
    | LoadStack(r: Reg, byteDisp: int)
    | StoreStack(r: Reg, byteDisp: int)
    | LoadInd
    | StoreInd
    | LoadIndByte
    | StoreIndByte
    | AddEsp(imm: Word)
    | SubEsp(imm: Word)
    | Imul
    | Xchg
    | Cdq
    | Idiv
    | ShlCl
    | ShrCl
    | ShlImm(bits: nat)
    | NegEax
    | NotEax
    | Setcc(cc: Cond)
    | Movzx
    | Jump(when: When, to: int)
    | Call(to: int)
    | Ret
    | Int80

  datatype Flags = Flags(zf: bool, sf: bool, of: bool)

  datatype Event = Event(index: Word, args: seq<Word>, reply: Word)

  /** Memory as far as it is known: a mapped dword may hold no defined value. */
  type Cells = map<int, Option<Word>>

  /** The kernel behind `int 0x80`: how many dwords a handler reads from the argument
      block (`more` is what printf reads beyond its format), what it answers, and what
      it writes to memory. */
  datatype Kernel = Kernel(
    base: Word -> nat,
    more: (Word, Word) -> nat,
    answer: (Word, seq<Word>, seq<Event>, Cells) -> Option<(Word, map<int, Word>)>)

  /** `b` has all dwords of `a`, with the values `a` knows. */
  ghost predicate Extends(a: Cells, b: Cells) {
    forall x :: x in a ==> x in b && (a[x].Some? ==> b[x] == a[x])
  }

  /** A handler that can do its work in some memory does the same in any memory that
      extends it, and writes nowhere else. */
  ghost predicate Confined(k: Kernel) {
    forall i, args, t, a, b :: Extends(a, b) && k.answer(i, args, t, a).Some? ==>
      && k.answer(i, args, t, b) == k.answer(i, args, t, a)
      && k.answer(i, args, t, a).value.1.Keys <= a.Keys
  }

  datatype State = State(
    eax: Word, ecx: Word, edx: Word, ebx: Word,
    esp: Word, ebp: Word, esi: Word, edi: Word,
    flags: Option<Flags>,
    mem: map<int, Word>,
    trace: seq<Event>,
    pc: int)

  function Get(m: State, r: Reg): Word {
    match r
    case Eax => m.eax
    case Ecx => m.ecx
    case Edx => m.edx
    case Ebx => m.ebx
    case Esp => m.esp
    case Ebp => m.ebp
    case Esi => m.esi
    case Edi => m.edi
  }

  function Set(m: State, r: Reg, v: Word): State {
    match r
    case Eax => m.(eax := v)
    case Ecx => m.(ecx := v)
    case Edx => m.(edx := v)
    case Ebx => m.(ebx := v)
    case Esp => m.(esp := v)
    case Ebp => m.(ebp := v)
    case Esi => m.(esi := v)
    case Edi => m.(edi := v)
  }

  function Load(m: State, r: Reg, a: int): Option<State> {
    if a in m.mem then Some(Set(m, r, m.mem[a])) else None
  }

  function Store(m: State, a: int, v: Word): Option<State> {
    if a in m.mem then Some(m.(mem := m.mem[a := v])) else None
  }

  function CompareFlags(a: Word, b: Word): Flags {
    Flags(a == b, Wrap(a - b) >= HALF, !FitsSigned(Signed(a) - Signed(b)))
  }

  predicate Holds(cc: Cond, f: Flags) {
    match cc
    case E => f.zf
    case Ne => !f.zf
    case L => f.sf != f.of
    case G => !f.zf && f.sf == f.of
    case Le => f.zf || f.sf != f.of
    case Ge => f.sf == f.of
  }

  function ExecAlu(op: AluOp, dst: Reg, src: Reg, m: State): State {
    var a, b := Get(m, dst), Get(m, src);
    match op
    case Add => Set(m.(flags := None), dst, Wrap(a + b))
    case Sub => Set(m.(flags := None), dst, Wrap(a - b))
    case And => Set(m.(flags := None), dst, Bitwise(BitAnd, a, b))
    case Or => Set(m.(flags := None), dst, Bitwise(BitOr, a, b))
    case Xor => Set(m.(flags := None), dst, Bitwise(BitXor, a, b))
    case Cmp => m.(flags := Some(CompareFlags(a, b)))
    case Test =>
      var t := Bitwise(BitAnd, a, b);
      m.(flags := Some(Flags(t == 0, t >= HALF, false)))
  }

  /** idiv ecx: the 64-bit dividend EDX:EAX over ECX. */
  function ExecIdiv(m: State): Option<State> {
    var n := Signed(m.edx) * MODULUS + m.eax;
    var d := Signed(m.ecx);
    if d == 0 || !FitsSigned(TruncDiv(n, d)) then None
    else Some(m.(eax := Wrap(TruncDiv(n, d)), edx := Wrap(TruncRem(n, d)), flags := None))
  }

  function ReadArgs(mem: map<int, Word>, a: int, n: nat): Option<seq<Word>>
    decreases n
  {
    if n == 0 then Some([])
    else if a !in mem then None
    else
      match ReadArgs(mem, a + 4, n - 1)
      case None => None
      case Some(rest) => Some([mem[a]] + rest)
  }

  function ArgCount(k: Kernel, index: Word, first: Word): nat {
    k.base(index) + if k.base(index) == 0 then 0 else k.more(index, first)
  }

  function Known(mem: map<int, Word>): (c: Cells)
    ensures c.Keys == mem.Keys
  {
    map a | a in mem :: Some(mem[a])
  }

  function ExecInt80(k: Kernel, m: State): Option<State> {
    if k.base(m.eax) > 0 && m.ebx !in m.mem then None
    else
      var first := if m.ebx in m.mem then m.mem[m.ebx] else 0;
      match ReadArgs(m.mem, m.ebx, ArgCount(k, m.eax, first))
      case None => None
      case Some(args) =>
        match k.answer(m.eax, args, m.trace, Known(m.mem))
        case None => None
        case Some((v, writes)) =>
          if writes.Keys <= m.mem.Keys then
            Some(m.(eax := v, mem := m.mem + writes, trace := m.trace + [Event(m.eax, args, v)]))
          else None
  }

  /** Effect of one instruction on everything but the program counter; jumps, calls and
      returns are completed by whoever moves the program counter. `dbase` and `sbase` are
      where the data and string sections sit. Byte accesses are outside this model. */
  function Exec(k: Kernel, dbase: int, sbase: int, i: Instr, m: State): Option<State> {
    match i
    case Push(r) => Store(m.(esp := Wrap(m.esp - 4)), Wrap(m.esp - 4), Get(m, r))
    case Pop(r) =>
      if m.esp in m.mem then Some(Set(m.(esp := Wrap(m.esp + 4)), r, m.mem[m.esp])) else None
    case Mov(d, s) => Some(Set(m, d, Get(m, s)))
    case Alu(op, d, s) => Some(ExecAlu(op, d, s, m))
    case LoadImm(v) => Some(m.(eax := v))
    case LoadStr(o) => Some(m.(eax := Wrap(sbase + o)))
    case LoadAbs(a) => Load(m, Eax, Wrap(dbase + a))
    case StoreAbs(a) => Store(m, Wrap(dbase + a), m.eax)
    case LoadLocal(d) => Load(m, Eax, Wrap(m.ebp + d))
    case StoreLocal(d) => Store(m, Wrap(m.ebp + d), m.eax)
    case LeaLocal(d) => Some(m.(eax := Wrap(m.ebp + d)))
    case LoadStack(r, d) => Load(m, r, Wrap(m.esp + d))
    case StoreStack(r, d) => Store(m, Wrap(m.esp + d), Get(m, r))
    case LoadInd => Load(m, Eax, m.eax)
    case StoreInd => Store(m, m.ecx, m.eax)
    case AddEsp(n) => Some(m.(esp := Wrap(m.esp + n), flags := None))
    case SubEsp(n) => Some(m.(esp := Wrap(m.esp - n), flags := None))
    case Imul => Some(m.(eax := Wrap(Signed(m.eax) * Signed(m.ecx)), flags := None))
    case Xchg => Some(m.(eax := m.ecx, ecx := m.eax))
    case Cdq => Some(m.(edx := if m.eax >= HALF then MODULUS - 1 else 0))
    case Idiv => ExecIdiv(m)
    case ShlCl => Some(m.(eax := Wrap(m.eax * Pow2(m.ecx % 256 % 32)), flags := None))
    case ShlImm(b) => Some(m.(eax := Wrap(m.eax * Pow2(b % 32)), flags := None))
    case ShrCl => Some(m.(eax := Wrap(m.eax / Pow2(m.ecx % 256 % 32)), flags := None))
    case NegEax => Some(m.(eax := Wrap(0 - m.eax), flags := None))
    case NotEax => Some(m.(eax := MODULUS - 1 - m.eax))
    case Setcc(cc) =>
      if m.flags.None? then None
      else Some(m.(eax := m.eax - m.eax % 256 + if Holds(cc, m.flags.value) then 1 else 0))
    case Movzx => Some(m.(eax := m.eax % 256))
    case Int80 => ExecInt80(k, m)
    case Jump(w, _) => if w != Always && m.flags.None? then None else Some(m)
    case LoadIndByte => None
    case StoreIndByte => None
    case Call(_) => None
    case Ret => None
  }

  /** Whether a jump is taken in `m`. */
  predicate Taken(w: When, m: State)
    requires w == Always || m.flags.Some?
  {
    match w
    case Always => true
    case IfZero => m.flags.value.zf
    case IfNonZero => !m.flags.value.zf
  }

  // ----- running symbolic code: the program counter is an index into the items -----

  datatype Item = Op(i: Instr) | Label(id: int)

  /** A symbolic program with its label table and section addresses. `entry` says where
      each function starts; `after` gives the return address of each call, and `back` the
      index a return address stands for. */
  datatype Prog = Prog(
    items: seq<Item>, labels: map<int, int>, dbase: int, sbase: int, kernel: Kernel,
    entry: map<int, int>, after: map<int, Word>, back: map<Word, int>)

  ghost predicate LabelsOk(p: Prog) {
    forall i :: 0 <= i < |p.items| && p.items[i].Label? ==>
      p.items[i].id in p.labels && p.labels[p.items[i].id] == i
  }

  /** Every call comes back behind itself. */
  ghost predicate ReturnsOk(p: Prog) {
    && (forall i :: i in p.after ==> p.after[i] in p.back && p.back[p.after[i]] == i + 1)
    && (forall i :: 0 <= i < |p.items| && p.items[i].Op? && p.items[i].i.Call? ==> i in p.after)
  }

  function StepCall(p: Prog, f: int, m: State): Option<State> {
    var top := Wrap(m.esp - 4);
    if f in p.entry && m.pc in p.after && top in m.mem then
      Some(m.(esp := top, mem := m.mem[top := p.after[m.pc]], pc := p.entry[f]))
    else None
  }

  function StepRet(p: Prog, m: State): Option<State> {
    if m.esp in m.mem && m.mem[m.esp] in p.back then
      Some(m.(esp := Wrap(m.esp + 4), pc := p.back[m.mem[m.esp]]))
    else None
  }

  function Step(p: Prog, m: State): Option<State> {
    if !(0 <= m.pc < |p.items|) then None
    else
      match p.items[m.pc]
      case Label(_) => Some(m.(pc := m.pc + 1))
      case Op(i) =>
        if i.Call? then StepCall(p, i.to, m) else if i.Ret? then StepRet(p, m) else StepPlain(p, i, m)
  }

  function StepPlain(p: Prog, i: Instr, m: State): Option<State> {
    match Exec(p.kernel, p.dbase, p.sbase, i, m)
    case None => None
    case Some(m') =>
      if i.Jump? && Taken(i.when, m) then
        if i.to in p.labels then Some(m'.(pc := p.labels[i.to])) else None
      else Some(m'.(pc := m.pc + 1))
  }

  function Run(p: Prog, m: State, n: nat): Option<State> {
    if n == 0 then Some(m)
    else
      match Run(p, m, n - 1)
      case None => None
      case Some(m') => Step(p, m')
  }

  lemma {:induction false} RunAdd(p: Prog, m: State, a: nat, m1: State, b: nat)
    requires Run(p, m, a) == Some(m1)
    ensures Run(p, m, a + b) == Run(p, m1, b)
  {
    hide Step;
    if b > 0 {
      RunAdd(p, m, a, m1, b - 1);
    }
  }

  /** The code `c` sits at index `pc`. */
  ghost predicate At(p: Prog, pc: int, c: seq<Item>) {
    0 <= pc && pc + |c| <= |p.items| && p.items[pc..pc + |c|] == c
  }

  lemma AtSplit(p: Prog, pc: int, a: seq<Item>, b: seq<Item>)
    requires At(p, pc, a + b)
    ensures At(p, pc, a) && At(p, pc + |a|, b)
  {
    var c := a + b;
    assert c[..|a|] == a && c[|a|..] == b;
    assert p.items[pc..pc + |a|] == c[..|a|];
    assert p.items[pc + |a|..pc + |c|] == c[|a|..];
  }

  lemma AtIndex(p: Prog, pc: int, c: seq<Item>, k: nat)
    requires At(p, pc, c) && k < |c|
    ensures p.items[pc + k] == c[k]
  {
    assert p.items[pc..pc + |c|][k] == c[k];
  }
}
