/** Running the linked bytes: the processor decodes what is at its program counter, and
    follows the symbolic program step for step. */
module Cpu {
  import opened Basics
  import opened Word32
  import opened Machine
  import opened Encoding
  import opened Link

  /** Programs are loaded at 2 MB. */
  const LOAD_ADDR: int := 0x20_0000

  /** A program image starts with a five-byte jump to main. */
  const CODE_START: int := 5

  /** The bytes from `pc` on, as far as any instruction reaches. */
  function Window(img: seq<byte>, pc: int): (r: seq<byte>)
    ensures |r| == 8
  {
    seq(8, k requires 0 <= k < 8 => if 0 <= pc + k < |img| then img[pc + k] else 0)
  }

  /** Where the next instruction is, relative to the current one. */
  function Advance(i: Instr, len: nat, m: State): int
    requires i.Jump? && i.when != Always ==> m.flags.Some?
  {
    if i.Jump? && Taken(i.when, m) then len + i.to else len
  }

  /** Execute a decoded instruction of `len` bytes at the program counter. */
  function Dispatch(k: Kernel, i: Instr, len: nat, m: State): Option<State> {
    if i.Ret? then
      if m.esp in m.mem then Some(m.(esp := Wrap(m.esp + 4), pc := m.mem[m.esp] - LOAD_ADDR)) else None
    else if i.Call? then
      var top := Wrap(m.esp - 4);
      if top in m.mem then
        Some(m.(esp := top, mem := m.mem[top := Wrap(LOAD_ADDR + m.pc + len)], pc := m.pc + len + i.to))
      else None
    else
      var r := Exec(k, 0, 0, i, m);
      if r.None? then None else Some(r.value.(pc := m.pc + Advance(i, len, m)))
  }

  /** One processor step; the program counter is an offset into the image. */
  function CpuStep(k: Kernel, img: seq<byte>, m: State): Option<State> {
    if !(0 <= m.pc < |img|) then None
    else
      var d := Decode(Window(img, m.pc));
      if d.Insn? then Dispatch(k, d.i, d.len, m) else None
  }

  /** Instructions with an emitter, whatever their references. */
  predicate Encodable(i: Instr) { i.Jump? || i.Call? || Emitted(i) }

  /** The linked code of `p` sits in the image after the entry jump. */
  ghost predicate Loaded(p: Prog, lay: Layout, img: seq<byte>) {
    var code := LinkedBytes(p.items, lay, true);
    && CODE_START + |code| <= |img| && |code| < 0x4000_0000
    && img[CODE_START..CODE_START + |code|] == code
    && lay.dbase == p.dbase && lay.sbase == p.sbase
    && (forall k :: 0 <= k < |p.items| && p.items[k].Op? ==> Encodable(p.items[k].i))
    && lay.labelOff.Keys == p.labels.Keys
    && (forall f :: f in lay.funOff ==> 0 <= lay.funOff[f] < 0x4000_0000)
    && (forall l :: l in p.labels ==>
          0 <= p.labels[l] <= |p.items| && lay.labelOff[l] == Off(p.items, p.labels[l]))
    && EntriesLoaded(p, lay)
  }

  /** Functions start at their linked offsets, and return addresses are those of the
      instructions behind the calls. */
  ghost predicate EntriesLoaded(p: Prog, lay: Layout) {
    && (forall f :: f in p.entry ==>
          f in lay.funOff && 0 <= p.entry[f] <= |p.items| && lay.funOff[f] == Off(p.items, p.entry[f]))
    && (forall i :: i in p.after ==>
          0 <= i < |p.items| && p.after[i] == Wrap(LOAD_ADDR + CODE_START + Off(p.items, i + 1)))
    && (forall v :: v in p.back ==>
          0 <= p.back[v] <= |p.items| && v == LOAD_ADDR + CODE_START + Off(p.items, p.back[v]))
  }

  /** The processor state that corresponds to a symbolic one. */
  function OnCpu(p: Prog, m: State): State
    requires 0 <= m.pc <= |p.items|
  {
    m.(pc := CODE_START + Off(p.items, m.pc))
  }

  lemma WindowAt(img: seq<byte>, pc: nat, e: seq<byte>)
    requires pc + |e| <= |img| && img[pc..pc + |e|] == e && |e| <= 8
    ensures e <= Window(img, pc)
  {
    forall k | 0 <= k < |e| ensures Window(img, pc)[k] == e[k] {
      assert img[pc..pc + |e|][k] == e[k];
    }
  }

  lemma SubSlice(img: seq<byte>, s: nat, code: seq<byte>, a: nat, b: nat)
    requires s + |code| <= |img| && img[s..s + |code|] == code && a <= b <= |code|
    ensures img[s + a..s + b] == code[a..b]
  {
    forall j | 0 <= j < b - a ensures img[s + a..s + b][j] == code[a..b][j] {
      assert img[s..s + |code|][a + j] == img[s + a + j];
    }
  }

  lemma EncodedSize(i: Instr)
    ensures 1 <= |Encode(i)| <= 6
  {}

  lemma LinkedEmitted(i: Instr, pos: int, lay: Layout)
    requires Encodable(i) && 0 <= pos < 0x4000_0000
    requires i.Jump? ==> -1 <= LabelAt(lay, i.to) < 0x4000_0000
    requires i.Call? ==> 0 <= FunAt(lay, i.to) < 0x4000_0000
    ensures Emitted(Linked(i, pos, lay, true)) && Plainly(Linked(i, pos, lay, true)) == Linked(i, pos, lay, true)
  {
    EncodedSize(Raw(i));
  }

  /** What the processor fetches for the item at index `k`. */
  lemma Fetch(p: Prog, lay: Layout, img: seq<byte>, k: nat)
    requires Loaded(p, lay, img) && k < |p.items| && p.items[k].Op?
    ensures var i := p.items[k].i;
            var pos := Off(p.items, k);
            CODE_START + pos < |img| && Off(p.items, k + 1) == pos + |Encode(Raw(i))| &&
            Decode(Window(img, CODE_START + pos)) == Insn(Linked(i, pos, lay, true), |Encode(Raw(i))|)
  {
    hide Encode, Decode, Linked, Emitted, Encodable, Raw;
    var i := p.items[k].i;
    var pos := Off(p.items, k);
    var code := LinkedBytes(p.items, lay, true);
    var e := Encode(Linked(i, pos, lay, true));
    LinkedHere(p.items, k, lay);
    LinkedLength(p.items, lay, true);
    LinkedSize(i, pos, lay, true);
    EncodedSize(Linked(i, pos, lay, true));
    SubSlice(img, CODE_START, code, pos, pos + |e|);
    WindowAt(img, CODE_START + pos, e);
    if i.Jump? && i.to in p.labels { OffMonotone(p.items, p.labels[i.to], |p.items|); }
    LinkedEmitted(i, pos, lay);
    DecodeEncode(Linked(i, pos, lay, true), Window(img, CODE_START + pos));
  }

  /** `r` and `r'` are the same up to the program counter, which is `pc` in `r'`. */
  ghost predicate SameUpTo(r: Option<State>, r': Option<State>, pc: int) {
    r.Some? == r'.Some? && (r.Some? ==> r'.value == r.value.(pc := pc))
  }

  lemma RegistersIgnorePc(k: Kernel, d: int, s: int, i: Instr, m: State, pc: int)
    requires i.Push? || i.Pop? || i.Mov? || i.LoadStack? || i.StoreStack?
    ensures SameUpTo(Exec(k, d, s, i, m), Exec(k, d, s, i, m.(pc := pc)), pc)
  {
    hide Wrap;
    var n := m.(pc := pc);
    if i.Push? || i.StoreStack? {
      assert Get(n, i.r) == Get(m, i.r);
    } else if i.Mov? {
      assert Get(n, i.src) == Get(m, i.src);
      SetIgnoresPc(m, i.dst, Get(m, i.src), pc);
    } else {
      var a := if i.Pop? then m.esp else Wrap(m.esp + i.byteDisp);
      if a in m.mem {
        SetIgnoresPc(m, i.r, m.mem[a], pc);
        SetIgnoresPc(m.(esp := Wrap(m.esp + 4)), i.r, m.mem[a], pc);
      }
    }
  }

  lemma SetIgnoresPc(m: State, r: Reg, v: Word, pc: int)
    ensures Set(m.(pc := pc), r, v) == Set(m, r, v).(pc := pc)
  {
  }

  lemma AluIgnoresPc(op: AluOp, dst: Reg, src: Reg, m: State, pc: int)
    ensures ExecAlu(op, dst, src, m.(pc := pc)) == ExecAlu(op, dst, src, m).(pc := pc)
  {
    hide Bitwise, CompareFlags, Wrap;
    var n := m.(pc := pc);
    assert Get(n, dst) == Get(m, dst) && Get(n, src) == Get(m, src);
  }

  lemma KernelIgnoresPc(k: Kernel, m: State, pc: int)
    ensures SameUpTo(ExecInt80(k, m), ExecInt80(k, m.(pc := pc)), pc)
    ensures SameUpTo(ExecIdiv(m), ExecIdiv(m.(pc := pc)), pc)
  {
    hide ReadArgs, ArgCount, Wrap, TruncDiv, TruncRem, Signed;
  }

  lemma ExecIgnoresPc(k: Kernel, d: int, s: int, i: Instr, m: State, pc: int)
    ensures SameUpTo(Exec(k, d, s, i, m), Exec(k, d, s, i, m.(pc := pc)), pc)
  {
    hide Exec, SameUpTo;
    if i.Push? || i.Pop? || i.Mov? || i.LoadStack? || i.StoreStack? {
      RegistersIgnorePc(k, d, s, i, m, pc);
    } else if i.Alu? || i.Int80? || i.Idiv? {
      UnitsIgnorePc(k, d, s, i, m, pc);
    } else if Touches(i) {
      MemoryIgnoresPc(k, d, s, i, m, pc);
    } else {
      ValuesIgnorePc(k, d, s, i, m, pc);
    }
  }

  lemma UnitsIgnorePc(k: Kernel, d: int, s: int, i: Instr, m: State, pc: int)
    requires i.Alu? || i.Int80? || i.Idiv?
    ensures SameUpTo(Exec(k, d, s, i, m), Exec(k, d, s, i, m.(pc := pc)), pc)
  {
    hide ExecInt80, ExecIdiv, ExecAlu;
    if i.Alu? {
      AluIgnoresPc(i.op, i.dst, i.src, m, pc);
    } else {
      KernelIgnoresPc(k, m, pc);
    }
  }

  /** Reads or writes a dword other than through ESP. */
  predicate Touches(i: Instr) {
    i.LoadAbs? || i.StoreAbs? || i.LoadLocal? || i.StoreLocal? || i.LoadInd? || i.StoreInd?
  }

  lemma MemoryIgnoresPc(k: Kernel, d: int, s: int, i: Instr, m: State, pc: int)
    requires Touches(i)
    ensures SameUpTo(Exec(k, d, s, i, m), Exec(k, d, s, i, m.(pc := pc)), pc)
  {
    hide ExecInt80, ExecIdiv, ExecAlu, Wrap, Pow2, Signed, Holds;
  }

  /** The rest computes in registers, or leaves everything as it is. */
  lemma ValuesIgnorePc(k: Kernel, d: int, s: int, i: Instr, m: State, pc: int)
    requires !(i.Push? || i.Pop? || i.Mov? || i.LoadStack? || i.StoreStack? || i.Alu? || i.Int80? || i.Idiv?)
    requires !Touches(i)
    ensures SameUpTo(Exec(k, d, s, i, m), Exec(k, d, s, i, m.(pc := pc)), pc)
  {
    hide ExecInt80, ExecIdiv, ExecAlu, Wrap, Pow2, Signed, Holds, Get, Set, Load, Store;
  }

  /** Resolving references in the instruction is resolving them at run time. */
  lemma LinkedSame(k: Kernel, i: Instr, pos: int, lay: Layout, m: State)
    requires !i.Call? && !i.Ret?
    ensures Exec(k, 0, 0, Linked(i, pos, lay, true), m) == Exec(k, lay.dbase, lay.sbase, i, m)
  {
    if i.LoadAbs? || i.StoreAbs? {
      WrapTwice(lay.dbase + i.addr);
    }
  }

  /** Linking and moving the program counter do not change what an instruction does. */
  lemma LinkedExec(k: Kernel, i: Instr, pos: int, lay: Layout, m: State, pc: int)
    requires !i.Call? && !i.Ret?
    ensures SameUpTo(Exec(k, lay.dbase, lay.sbase, i, m), Exec(k, 0, 0, Linked(i, pos, lay, true), m.(pc := pc)), pc)
  {
    hide Exec, Linked;
    LinkedSame(k, i, pos, lay, m);
    ExecIgnoresPc(k, 0, 0, Linked(i, pos, lay, true), m, pc);
  }

  lemma JumpTarget(p: Prog, lay: Layout, img: seq<byte>, l: int)
    requires Loaded(p, lay, img) && l in p.labels
    ensures 0 <= p.labels[l] <= |p.items| && LabelAt(lay, l) == Off(p.items, p.labels[l])
    ensures lay.dbase == p.dbase && lay.sbase == p.sbase
  {
    hide LinkedBytes;
  }

  lemma SectionsAgree(p: Prog, lay: Layout, img: seq<byte>)
    requires Loaded(p, lay, img)
    ensures lay.dbase == p.dbase && lay.sbase == p.sbase
  {
    hide LinkedBytes;
  }

  lemma EntriesOf(p: Prog, lay: Layout, img: seq<byte>)
    requires Loaded(p, lay, img)
    ensures EntriesLoaded(p, lay)
  {
    hide LinkedBytes;
  }

  /** A call pushes the address behind it and goes to the function. */
  lemma CallOnCpu(p: Prog, lay: Layout, img: seq<byte>, m: State, m': State)
    requires Loaded(p, lay, img) && 0 <= m.pc < |p.items| && p.items[m.pc].Op? && p.items[m.pc].i.Call?
    requires StepCall(p, p.items[m.pc].i.to, m) == Some(m')
    ensures 0 <= m'.pc <= |p.items|
    ensures CpuStep(p.kernel, img, OnCpu(p, m)) == Some(OnCpu(p, m'))
  {
    hide Decode, Loaded, Window, Encode, Raw, Off;
    var i, pos := p.items[m.pc].i, Off(p.items, m.pc);
    EntriesOf(p, lay, img);
    Fetch(p, lay, img, m.pc);
    var j, len := Linked(i, pos, lay, true), |Encode(Raw(i))|;
    assert CpuStep(p.kernel, img, OnCpu(p, m)) == Dispatch(p.kernel, j, len, OnCpu(p, m));
    assert lay.funOff[i.to] == Off(p.items, p.entry[i.to]);
  }

  /** A return goes to the address on top of the stack. */
  lemma RetOnCpu(p: Prog, lay: Layout, img: seq<byte>, m: State, m': State)
    requires Loaded(p, lay, img) && 0 <= m.pc < |p.items| && p.items[m.pc] == Op(Ret) && StepRet(p, m) == Some(m')
    ensures 0 <= m'.pc <= |p.items|
    ensures CpuStep(p.kernel, img, OnCpu(p, m)) == Some(OnCpu(p, m'))
  {
    hide Decode, Loaded, Window, Encode, Raw, Off;
    EntriesOf(p, lay, img);
    Fetch(p, lay, img, m.pc);
  }

  /** One symbolic instruction is one processor step. */
  lemma InstrOnCpu(p: Prog, lay: Layout, img: seq<byte>, m: State, m': State)
    requires Loaded(p, lay, img) && Step(p, m) == Some(m')
    requires 0 <= m.pc < |p.items| && p.items[m.pc].Op?
    ensures 0 <= m'.pc <= |p.items|
    ensures CpuStep(p.kernel, img, OnCpu(p, m)) == Some(OnCpu(p, m'))
  {
    hide Decode, Loaded, Window, OnCpu, CpuStep, StepCall, StepRet, StepPlain;
    var i := p.items[m.pc].i;
    if i.Call? {
      CallOnCpu(p, lay, img, m, m');
    } else if i.Ret? {
      RetOnCpu(p, lay, img, m, m');
    } else {
      PlainOnCpu(p, lay, img, m, m');
    }
  }

  lemma PlainOnCpu(p: Prog, lay: Layout, img: seq<byte>, m: State, m': State)
    requires Loaded(p, lay, img) && 0 <= m.pc < |p.items| && p.items[m.pc].Op?
    requires StepPlain(p, p.items[m.pc].i, m) == Some(m')
    ensures 0 <= m'.pc <= |p.items|
    ensures CpuStep(p.kernel, img, OnCpu(p, m)) == Some(OnCpu(p, m'))
  {
    hide Encode, Decode, Exec, Linked, Loaded, Window, Raw, Off, LabelAt;
    var i := p.items[m.pc].i;
    var pos := Off(p.items, m.pc);
    var pc := CODE_START + pos;
    SectionsAgree(p, lay, img);
    NoTransfer(p.kernel, p.dbase, p.sbase, i, m);
    Fetch(p, lay, img, m.pc);
    LinkedExec(p.kernel, i, pos, lay, m, pc);
    LinkedJump(i, pos, lay);
    FlagsThere(p.kernel, p.dbase, p.sbase, i, m);
    var j := Linked(i, pos, lay, true);
    var len := |Encode(Raw(i))|;
    assert CpuStep(p.kernel, img, m.(pc := pc)) == Dispatch(p.kernel, j, len, m.(pc := pc));
    if i.Jump? && Taken(i.when, m) {
      JumpTarget(p, lay, img, i.to);
      assert pc + Advance(j, len, m.(pc := pc)) == CODE_START + Off(p.items, p.labels[i.to]);
    }
  }

  lemma FlagsThere(k: Kernel, d: int, s: int, i: Instr, m: State)
    requires Exec(k, d, s, i, m).Some?
    ensures i.Jump? && i.when != Always ==> m.flags.Some?
  {}

  /** One symbolic step is no processor step (a label) or exactly one. */
  lemma StepOnCpu(p: Prog, lay: Layout, img: seq<byte>, m: State, m': State)
    requires Loaded(p, lay, img) && Step(p, m) == Some(m')
    ensures 0 <= m.pc < |p.items| && 0 <= m'.pc <= |p.items|
    ensures p.items[m.pc].Label? ==> OnCpu(p, m') == OnCpu(p, m) && m'.pc == m.pc + 1
    ensures p.items[m.pc].Op? ==> CpuStep(p.kernel, img, OnCpu(p, m)) == Some(OnCpu(p, m'))
  {
    hide Encode, Decode, Exec, Linked, Loaded, CpuStep;
    if p.items[m.pc].Op? {
      InstrOnCpu(p, lay, img, m, m');
    }
  }

  lemma NoTransfer(k: Kernel, dbase: int, sbase: int, i: Instr, m: State)
    requires Exec(k, dbase, sbase, i, m).Some?
    ensures !i.Call? && !i.Ret?
  {}

  lemma LinkedJump(i: Instr, pos: int, lay: Layout)
    requires !i.Call? && !i.Ret?
    ensures var j := Linked(i, pos, lay, true);
            j.Jump? == i.Jump? && !j.Call? && !j.Ret? &&
            (i.Jump? ==> j.when == i.when && j.to == LabelAt(lay, i.to) - (pos + |Encode(Raw(i))|))
  {}
}
