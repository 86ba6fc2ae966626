/** The processor over bytes: code, data and stack in one memory, where a program could
    overwrite itself. It never does. */
module InMemory {
  import opened Basics
  import opened Word32
  import opened Machine
  import Encoding
  import opened Link
  import opened Cpu

  type Ram = map<int, byte>

  function ByteAt(b: Ram, a: int): byte { if a in b then b[a] else 0 }

  function DwordAt(b: Ram, a: int): Word {
    var b0: int, b1: int, b2: int, b3: int := ByteAt(b, a), ByteAt(b, a + 1), ByteAt(b, a + 2), ByteAt(b, a + 3);
    b0 + 0x100 * b1 + 0x1_0000 * b2 + 0x100_0000 * b3
  }

  /** The dwords at `cells`. */
  function Dwords(b: Ram, cells: set<int>): map<int, Word> {
    map a | a in cells :: DwordAt(b, a)
  }

  /** The byte at `x` when the dwords of `mem` have been stored over `was`. */
  function ByteOf(mem: map<int, Word>, was: byte, x: int): byte {
    if x in mem then Dword(mem[x])[0]
    else if x - 1 in mem then Dword(mem[x - 1])[1]
    else if x - 2 in mem then Dword(mem[x - 2])[2]
    else if x - 3 in mem then Dword(mem[x - 3])[3]
    else was
  }

  function Stored(b: Ram, mem: map<int, Word>): (r: Ram)
    ensures r.Keys == b.Keys
  {
    map x | x in b :: ByteOf(mem, b[x], x)
  }

  /** The `n` bytes from the load address on, where instructions are fetched. */
  function Segment(b: Ram, n: nat): (r: seq<byte>)
    ensures |r| == n
  {
    seq(n, i requires 0 <= i < n => if LOAD_ADDR + i in b then b[LOAD_ADDR + i] else 0)
  }

  /** A processor and its memory; the keys of `cpu.mem` are the dwords in use. */
  datatype Computer = Computer(cpu: State, bytes: Ram)

  function InUse(c: Computer): set<int> { c.cpu.mem.Keys }

  /** One step: fetch from memory, execute on the dwords in memory, store them back. */
  function MemStep(k: Kernel, n: nat, c: Computer): Option<Computer> {
    match CpuStep(k, Segment(c.bytes, n), c.cpu.(mem := Dwords(c.bytes, InUse(c))))
    case None => None
    case Some(m) => Some(Computer(m, Stored(c.bytes, m.mem)))
  }

  function MemRun(k: Kernel, n: nat, c: Computer, steps: nat): Option<Computer> {
    if steps == 0 then Some(c)
    else
      match MemRun(k, n, c, steps - 1)
      case None => None
      case Some(c') => MemStep(k, n, c')
  }

  lemma {:induction false} MemRunAdd(k: Kernel, n: nat, c: Computer, a: nat, c1: Computer, b: nat)
    requires MemRun(k, n, c, a) == Some(c1)
    ensures MemRun(k, n, c, a + b) == MemRun(k, n, c1, b)
  {
    hide MemStep;
    if b > 0 { MemRunAdd(k, n, c, a, c1, b - 1); }
  }

  lemma {:induction false} MemPrefix(k: Kernel, n: nat, c: Computer, i: nat, j: nat)
    requires i <= j && MemRun(k, n, c, j).Some?
    ensures MemRun(k, n, c, i).Some?
    decreases j
  {
    hide MemStep;
    if i < j { MemPrefix(k, n, c, i, j - 1); }
  }

  /** Dwords in use lie whole in memory and do not overlap. */
  ghost predicate Apart(b: Ram, cells: set<int>) {
    && (forall a :: a in cells ==> a in b && a + 1 in b && a + 2 in b && a + 3 in b)
    && (forall a, d :: a in cells && d in cells && a < d ==> a + 4 <= d)
  }

  /** What the processor sees in memory is what is there. */
  ghost predicate Coherent(c: Computer) {
    Apart(c.bytes, InUse(c)) && c.cpu.mem == Dwords(c.bytes, InUse(c))
  }

  ghost predicate Covered(cells: set<int>, x: int) {
    x in cells || x - 1 in cells || x - 2 in cells || x - 3 in cells
  }

  /** Nothing but the dwords in use has changed. */
  ghost predicate Untouched(b: Ram, b': Ram, cells: set<int>) {
    b'.Keys == b.Keys && forall x :: x in b && !Covered(cells, x) ==> b'[x] == b[x]
  }

  /** No dword in use lies in the first `n` bytes of the program. */
  ghost predicate Clear(cells: set<int>, n: nat) {
    forall a :: a in cells ==> a + 4 <= LOAD_ADDR || LOAD_ADDR + n <= a
  }

  lemma StoredDword(b: Ram, mem: map<int, Word>, a: int)
    requires Apart(b, mem.Keys) && a in mem
    ensures DwordAt(Stored(b, mem), a) == mem[a]
  {
    hide Dword;
    var r, v := Stored(b, mem), mem[a];
    StoredByte(b, mem, a, 0);
    StoredByte(b, mem, a, 1);
    StoredByte(b, mem, a, 2);
    StoredByte(b, mem, a, 3);
    DwordBytes(v);
  }

  lemma StoredByte(b: Ram, mem: map<int, Word>, a: int, i: nat)
    requires Apart(b, mem.Keys) && a in mem && i < 4
    ensures a + i in b && ByteAt(Stored(b, mem), a + i) == Dword(mem[a])[i]
  {
    hide Dword;
    NotBetween(b, mem.Keys, a, 1);
    NotBetween(b, mem.Keys, a, 2);
    NotBetween(b, mem.Keys, a, 3);
  }

  lemma NotBetween(b: Ram, cells: set<int>, a: int, j: nat)
    requires Apart(b, cells) && a in cells && 0 < j < 4
    ensures a + j !in cells
  {
  }

  lemma DwordBytes(v: Word)
    ensures var d := Dword(v);
            d[0] as int + 0x100 * d[1] as int + 0x1_0000 * d[2] as int + 0x100_0000 * d[3] as int == v
  {
    DwordDigits(v);
  }

  lemma StoredDwords(b: Ram, mem: map<int, Word>)
    requires Apart(b, mem.Keys)
    ensures Dwords(Stored(b, mem), mem.Keys) == mem && Untouched(b, Stored(b, mem), mem.Keys)
  {
    hide DwordAt, Stored, Dword;
    forall a | a in mem ensures DwordAt(Stored(b, mem), a) == mem[a] { StoredDword(b, mem, a); }
    assert Untouched(b, Stored(b, mem), mem.Keys) by { StoredUntouched(b, mem); }
  }

  lemma StoredUntouched(b: Ram, mem: map<int, Word>)
    ensures Untouched(b, Stored(b, mem), mem.Keys)
  {
  }

  // ----- the extent of memory never changes -----

  lemma ExecKeys(k: Kernel, d: int, s: int, i: Instr, m: State)
    requires Exec(k, d, s, i, m).Some?
    ensures Exec(k, d, s, i, m).value.mem.Keys == m.mem.Keys
  {
    hide Wrap, Signed, Pow2, ExecAlu, ExecIdiv, ExecInt80, Set, Get, Holds;
    SetKeeps();
    if i.Alu? {
      AluKeeps(i.op, i.dst, i.src, m);
    } else if i.Idiv? || i.Int80? {
      KernelKeeps(k, m);
    }
  }

  lemma SetKeeps()
    ensures forall m, r, v :: Set(m, r, v).mem == m.mem
  {
  }

  lemma AluKeeps(op: AluOp, dst: Reg, src: Reg, m: State)
    ensures ExecAlu(op, dst, src, m).mem == m.mem
  {
    hide Wrap, Bitwise, CompareFlags, Set, Get;
    SetKeeps();
  }

  lemma KernelKeeps(k: Kernel, m: State)
    ensures ExecInt80(k, m).Some? ==> ExecInt80(k, m).value.mem.Keys == m.mem.Keys
    ensures ExecIdiv(m).Some? ==> ExecIdiv(m).value.mem == m.mem
  {
    hide ReadArgs, ArgCount, Wrap, Signed, TruncDiv, TruncRem;
  }

  lemma CpuKeys(k: Kernel, img: seq<byte>, m: State)
    requires CpuStep(k, img, m).Some?
    ensures CpuStep(k, img, m).value.mem.Keys == m.mem.Keys
  {
    hide Encoding.Decode, Window, Exec;
    var d := Encoding.Decode(Window(img, m.pc));
    if !d.i.Ret? && !d.i.Call? { ExecKeys(k, 0, 0, d.i, m); }
  }

  // ----- one step, and whole runs -----

  lemma StepInMemory(k: Kernel, n: nat, c: Computer, m: State)
    requires Coherent(c) && CpuStep(k, Segment(c.bytes, n), c.cpu) == Some(m)
    ensures MemStep(k, n, c) == Some(Computer(m, Stored(c.bytes, m.mem)))
    ensures var c' := Computer(m, Stored(c.bytes, m.mem));
            Coherent(c') && InUse(c') == InUse(c) && Untouched(c.bytes, c'.bytes, InUse(c))
  {
    hide CpuStep, Segment, Stored, Dwords, Untouched;
    CpuKeys(k, Segment(c.bytes, n), c.cpu);
    assert c.cpu.(mem := Dwords(c.bytes, InUse(c))) == c.cpu;
    StoredDwords(c.bytes, m.mem);
    StillApart(c.bytes, Stored(c.bytes, m.mem), InUse(c));
  }

  lemma StillApart(b: Ram, b': Ram, cells: set<int>)
    requires Apart(b, cells) && b'.Keys == b.Keys
    ensures Apart(b', cells)
  {
  }

  /** Memory that has changed only outside the code still holds it. */
  lemma StillLoaded(p: Prog, lay: Layout, b: Ram, b': Ram, cells: set<int>, n: nat)
    requires Loaded(p, lay, Segment(b, n)) && Untouched(b, b', cells)
    requires Clear(cells, CODE_START + |LinkedBytes(p.items, lay, true)|)
    ensures Loaded(p, lay, Segment(b', n))
  {
    hide LinkedBytes, Encodable, Off, EntriesLoaded;
    var len := |LinkedBytes(p.items, lay, true)|;
    var s, s' := Segment(b, n), Segment(b', n);
    forall i | CODE_START <= i < CODE_START + len ensures s'[i] == s[i] {
      assert !Covered(cells, LOAD_ADDR + i);
    }
    assert s'[CODE_START..CODE_START + len] == s[CODE_START..CODE_START + len];
  }

  lemma UntouchedTrans(b: Ram, b1: Ram, b2: Ram, cells: set<int>)
    requires Untouched(b, b1, cells) && Untouched(b1, b2, cells)
    ensures Untouched(b, b2, cells)
  {
  }

  /** A computer that holds the linked program, at item `m.pc`, in the state `m`. */
  ghost predicate Carries(p: Prog, lay: Layout, n: nat, c: Computer, m: State) {
    && 0 <= m.pc <= |p.items| && c.cpu == OnCpu(p, m) && Coherent(c) && Loaded(p, lay, Segment(c.bytes, n))
    && Clear(InUse(c), CODE_START + |LinkedBytes(p.items, lay, true)|)
  }

  /** A symbolic run is a run in memory, and leaves the code alone. The last clause bounds
      the symbolic steps by the processor's, so an endless symbolic run is an endless run
      in memory. */
  lemma {:induction false} RunInMemory(p: Prog, lay: Layout, n: nat, c: Computer, m: State, steps: nat, m': State)
    returns (k: nat, c': Computer)
    requires Carries(p, lay, n, c, m) && Run(p, m, steps) == Some(m')
    ensures MemRun(p.kernel, n, c, k) == Some(c') && Carries(p, lay, n, c', m')
    ensures InUse(c') == InUse(c) && Untouched(c.bytes, c'.bytes, InUse(c))
    ensures steps <= k * (|p.items| + 1) + m'.pc
  {
    hide Step, CpuStep, Loaded, OnCpu, MemStep, Segment, Coherent, Clear, Untouched, LinkedBytes;
    if steps == 0 {
      k, c' := 0, c;
      assert Untouched(c.bytes, c.bytes, InUse(c)) by { UntouchedSelf(c.bytes, InUse(c)); }
    } else {
      var m1 := Run(p, m, steps - 1).value;
      var j, c1 := RunInMemory(p, lay, n, c, m, steps - 1, m1);
      StepOnCpu(p, lay, Segment(c1.bytes, n), m1, m');
      if p.items[m1.pc].Label? {
        k, c' := j, c1;
      } else {
        StepInMemory(p.kernel, n, c1, OnCpu(p, m'));
        k, c' := j + 1, MemStep(p.kernel, n, c1).value;
        StillLoaded(p, lay, c1.bytes, c'.bytes, InUse(c1), n);
        UntouchedTrans(c.bytes, c1.bytes, c'.bytes, InUse(c));
        assert k * (|p.items| + 1) == j * (|p.items| + 1) + |p.items| + 1;
      }
    }
  }

  lemma UntouchedSelf(b: Ram, cells: set<int>)
    ensures Untouched(b, b, cells)
  {
  }
}
