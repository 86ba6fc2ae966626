/** A builtin call: the emitted reversal puts the arguments in source order at EBX. */
module CallProof {
  import opened Basics
  import opened Word32
  import opened Machine
  import opened Syntax
  import opened Compile
  import opened Operators
  import opened ExprProof

  /** Reversed outside [i, |vs|-i), still as pushed inside. */
  function PartlyReversed(vs: seq<Word>, i: nat): (r: seq<Word>)
    ensures |r| == |vs|
  {
    seq(|vs|, k requires 0 <= k < |vs| => if i <= k < |vs| - i then vs[k] else vs[|vs| - 1 - k])
  }

  /** Stack-top cells of `n` dwords: mapped, invisible to the source, within range. */
  ghost predicate Cells(p: Prog, env: Env, w: World, m: State, n: nat, lo: int, hi: int) {
    Agrees(p, env, w, m, lo, hi) && m.esp + 4 * n <= hi
  }

  lemma LoadCell(p: Prog, env: Env, w: World, m: State, n: nat, r: Reg, k: nat, rest: seq<Item>, lo: int, hi: int)
    returns (m': State)
    requires Cells(p, env, w, m, n, lo, hi) && k < n && r in {Eax, Ecx}
    requires At(p, m.pc, [Op(LoadStack(r, 4 * k))] + rest)
    ensures m.esp + 4 * k in m.mem
    ensures m' == Set(m, r, m.mem[m.esp + 4 * k]).(pc := m.pc + 1)
    ensures Run(p, m, 1) == Some(m') && Cells(p, env, w, m', n, lo, hi)
    ensures At(p, m'.pc, rest)
  {
    hide Run, Step, CallsWork, Confined;
    assert m.esp + 4 * k in m.mem by { assert (m.esp + 4 * k) % 4 == 0; }
    var m1 := Set(m, r, m.mem[m.esp + 4 * k]);
    RunNone(p, m);
    Next(p, m, 0, m, LoadStack(r, 4 * k), rest, m1);
    m' := m1.(pc := m.pc + 1);
  }

  lemma {:induction false} StoreCell(p: Prog, env: Env, w: World, m: State, n: nat, r: Reg, k: nat, rest: seq<Item>,
                                     lo: int, hi: int)
    returns (m': State)
    requires Cells(p, env, w, m, n, lo, hi) && k < n
    requires At(p, m.pc, [Op(StoreStack(r, 4 * k))] + rest)
    ensures m' == m.(mem := m.mem[m.esp + 4 * k := Get(m, r)], pc := m.pc + 1)
    ensures Run(p, m, 1) == Some(m') && Cells(p, env, w, m', n, lo, hi)
    ensures m'.mem.Keys == m.mem.Keys
    ensures At(p, m'.pc, rest)
  {
    hide Run, Step, CallsWork, Confined;
    assert m.esp + 4 * k in m.mem && m.esp + 4 * k !in w.mem by { assert (m.esp + 4 * k) % 4 == 0; }
    var m1 := m.(mem := m.mem[m.esp + 4 * k := Get(m, r)]);
    RunNone(p, m);
    Next(p, m, 0, m, StoreStack(r, 4 * k), rest, m1);
    m' := m1.(pc := m.pc + 1);
  }

  function Swapped(mem: map<int, Word>, a: int, b: int): map<int, Word>
    requires a in mem && b in mem
  {
    mem[a := mem[b]][b := mem[a]]
  }

  ghost predicate HasSwapped(mem: map<int, Word>, a: int, b: int, mem': map<int, Word>) {
    a in mem && b in mem && mem' == Swapped(mem, a, b)
  }

  /** Same stack position and frame; only the `n` dwords at ESP may have moved. */
  ghost predicate OnlyCells(m: State, m': State, n: nat) {
    m'.esp == m.esp && m'.esi == m.esi && m'.edi == m.edi && m'.mem.Keys == m.mem.Keys &&
    forall a :: a in m.mem && (a >= m.esp + 4 * n || a < m.esp) ==> m'.mem[a] == m.mem[a]
  }

  /** One swap of the reversal. */
  lemma {:induction false} SwapRuns(p: Prog, env: Env, w: World, m: State, n: nat, i: nat, lo: int, hi: int)
    returns (m': State)
    requires Cells(p, env, w, m, n, lo, hi) && i < n / 2
    requires At(p, m.pc, SwapCode(i, n))
    ensures Run(p, m, 4) == Some(m') && m'.pc == m.pc + 4
    ensures Cells(p, env, w, m', n, lo, hi)
    ensures OnlyCells(m, m', n)
    ensures HasSwapped(m.mem, m.esp + 4 * i, m.esp + 4 * (n - 1 - i), m'.mem)
  {
    hide Run, Step, Agrees;
    var j := n - 1 - i;
    var c0, c1 := Op(LoadStack(Eax, 4 * i)), Op(LoadStack(Ecx, 4 * j));
    var c2, c3 := Op(StoreStack(Ecx, 4 * i)), Op(StoreStack(Eax, 4 * j));
    assert SwapCode(i, n) == [c0] + ([c1] + ([c2] + ([c3] + [])));
    var m1 := LoadCell(p, env, w, m, n, Eax, i, [c1] + ([c2] + ([c3] + [])), lo, hi);
    var m2 := LoadCell(p, env, w, m1, n, Ecx, j, [c2] + ([c3] + []), lo, hi);
    var m3 := StoreCell(p, env, w, m2, n, Ecx, i, [c3] + [], lo, hi);
    m' := StoreCell(p, env, w, m3, n, Eax, j, [], lo, hi);
    Then(p, m, 1, m1, 1, m2);
    Then(p, m, 2, m2, 1, m3);
    Then(p, m, 3, m3, 1, m');
  }

  lemma SwapReverses(mem: map<int, Word>, base: int, vs: seq<Word>, i: nat)
    requires i < |vs| / 2 && Holding(mem, base, PartlyReversed(vs, i))
    ensures base + 4 * i in mem && base + 4 * (|vs| - 1 - i) in mem
    ensures Holding(Swapped(mem, base + 4 * i, base + 4 * (|vs| - 1 - i)), base, PartlyReversed(vs, i + 1))
  {
    var j := |vs| - 1 - i;
    assert PartlyReversed(vs, i)[i] == vs[i] && PartlyReversed(vs, i)[j] == vs[j];
    var mem' := Swapped(mem, base + 4 * i, base + 4 * j);
    forall k | 0 <= k < |vs| ensures base + 4 * k in mem' && mem'[base + 4 * k] == PartlyReversed(vs, i + 1)[k] {
      assert base + 4 * k in mem && mem[base + 4 * k] == PartlyReversed(vs, i)[k];
    }
  }

  lemma FullyReversed(vs: seq<Word>)
    ensures PartlyReversed(vs, |vs| / 2) == Reverse(vs)
  {
    var i := |vs| / 2;
    forall k | 0 <= k < |vs| ensures PartlyReversed(vs, i)[k] == Reverse(vs)[k] {
      if i <= k < |vs| - i { assert |vs| - 1 - k == k; }
    }
  }

  lemma {:induction false} ReverseRuns(p: Prog, env: Env, w: World, m: State, vs: seq<Word>, i: nat, lo: int, hi: int)
    returns (n: nat, m': State)
    requires Cells(p, env, w, m, |vs|, lo, hi) && i <= |vs| / 2
    requires Holding(m.mem, m.esp, PartlyReversed(vs, i))
    requires At(p, m.pc, ReverseCode(i, |vs|))
    ensures Run(p, m, n) == Some(m') && m'.pc == m.pc + |ReverseCode(i, |vs|)|
    ensures Cells(p, env, w, m', |vs|, lo, hi) && OnlyCells(m, m', |vs|)
    ensures Holding(m'.mem, m.esp, Reverse(vs))
    decreases |vs| / 2 - i
  {
    hide Run, Step, Agrees, Holding, PartlyReversed, Swapped;
    if i == |vs| / 2 {
      RunNone(p, m);
      n, m' := 0, m;
      FullyReversed(vs);
    } else {
      AtSplit(p, m.pc, SwapCode(i, |vs|), ReverseCode(i + 1, |vs|));
      var m1 := SwapRuns(p, env, w, m, |vs|, i, lo, hi);
      SwapReverses(m.mem, m.esp, vs, i);
      n, m' := ReverseRuns(p, env, w, m1, vs, i + 1, lo, hi);
      Then(p, m, 4, m1, n, m');
      n := 4 + n;
    }
  }

  lemma {:induction false} ReadsBack(mem: map<int, Word>, base: int, vs: seq<Word>, n: nat)
    requires Holding(mem, base, vs) && n <= |vs|
    ensures ReadArgs(mem, base, n) == Some(vs[..n])
    decreases n
  {
    if n > 0 {
      assert base + 4 * 0 in mem && mem[base + 4 * 0] == vs[0];
      forall i | 0 <= i < |vs[1..]| ensures base + 4 + 4 * i in mem && mem[base + 4 + 4 * i] == vs[1..][i] {
        assert base + 4 * (i + 1) in mem && mem[base + 4 * (i + 1)] == vs[i + 1];
      }
      ReadsBack(mem, base + 4, vs[1..], n - 1);
      assert [vs[0]] + vs[1..][..n - 1] == vs[..n];
    }
  }

  /** A handler that finds its arguments in memory does to it what the call means. */
  lemma KernelAnswers(k: Kernel, w: World, m: State, vs: seq<Word>)
    requires Holding(m.mem, m.ebx, vs) && m.trace == w.trace && Extends(w.mem, Known(m.mem)) && Confined(k)
    requires CallKernel(k, m.eax, vs, w).Some?
    ensures var (v, w') := CallKernel(k, m.eax, vs, w).value;
            var r := ExecInt80(k, m);
            && r.Some? && r.value == m.(eax := v, mem := r.value.mem, trace := w'.trace)
            && SameOutside(w, m.mem, r.value.mem) && w'.mem.Keys == w.mem.Keys && Extends(w'.mem, Known(r.value.mem))
  {
    hide Confined, Extends;
    if |vs| > 0 {
      assert m.ebx + 4 * 0 in m.mem && m.mem[m.ebx + 4 * 0] == vs[0];
    }
    var n := ArgCount(k, m.eax, if m.ebx in m.mem then m.mem[m.ebx] else 0);
    ReadsBack(m.mem, m.ebx, vs, n);
    WritesAgree(k, m.eax, vs[..n], w, m.mem);
  }

  ghost predicate SameOutside(w: World, mem: map<int, Word>, mem': map<int, Word>) {
    mem'.Keys == mem.Keys && forall a :: a in mem && a !in w.mem ==> mem'[a] == mem[a]
  }

  lemma WritesAgree(k: Kernel, index: Word, args: seq<Word>, w: World, mem: map<int, Word>)
    requires Extends(w.mem, Known(mem)) && Confined(k) && k.answer(index, args, w.trace, w.mem).Some?
    ensures k.answer(index, args, w.trace, Known(mem)) == k.answer(index, args, w.trace, w.mem)
    ensures var writes := k.answer(index, args, w.trace, w.mem).value.1;
            && writes.Keys <= w.mem.Keys && writes.Keys <= mem.Keys && SameOutside(w, mem, mem + writes)
            && Extends(w.mem + Known(writes), Known(mem + writes))
  {
    var writes := k.answer(index, args, w.trace, w.mem).value.1;
    forall a | a in w.mem ensures a in mem {
      assert a in Known(mem);
    }
  }

  /** mov ebx, esp; mov eax, index; int 0x80 — with the arguments in source order at ESP. */
  lemma {:induction false} SyscallRuns(p: Prog, env: Env, w: World, m: State, index: Word, vs: seq<Word>,
                                       rest: seq<Item>, lo: int, hi: int)
    returns (m': State)
    requires Cells(p, env, w, m, |vs|, lo, hi) && Holding(m.mem, m.esp, vs)
    requires At(p, m.pc, SyscallCode(index) + rest)
    requires CallKernel(env.kernel, index, vs, w).Some?
    ensures Run(p, m, 3) == Some(m') && m'.pc == m.pc + 3 && At(p, m'.pc, rest)
    ensures var (v, w') := CallKernel(env.kernel, index, vs, w).value;
            m'.eax == v && Cells(p, env, w', m', |vs|, lo, hi) && w'.mem.Keys == w.mem.Keys
    ensures m'.esp == m.esp && m'.esi == m.esi && m'.edi == m.edi && SameOutside(w, m.mem, m'.mem)
    ensures m'.ebx == m.esp
  {
    hide Run, Step, CallKernel, ExecInt80, Holding, CallsWork, Confined, Extends;
    RunNone(p, m);
    var i0, i1, i2 := Op(Mov(Ebx, Esp)), Op(LoadImm(index)), Op(Int80);
    assert SyscallCode(index) + rest == [i0] + ([i1] + ([i2] + rest));
    var m1 := m.(ebx := m.esp);
    Next(p, m, 0, m, Mov(Ebx, Esp), [i1] + ([i2] + rest), m1);
    m1 := m1.(pc := m.pc + 1);
    var m2 := m1.(eax := index);
    Next(p, m, 1, m1, LoadImm(index), [i2] + rest, m2);
    m2 := m2.(pc := m.pc + 2);
    KernelAnswers(env.kernel, w, m2, vs);
    m' := ExecInt80(env.kernel, m2).value;
    Next(p, m, 2, m2, Int80, rest, m');
    m' := m'.(pc := m.pc + 3);
  }

  lemma DropRuns(p: Prog, env: Env, w: World, m: State, n: nat, lo: int, hi: int) returns (k: nat, m': State)
    requires Cells(p, Down(env, n), w, m, n, lo, hi)
    requires At(p, m.pc, DropCode(n))
    ensures Run(p, m, k) == Some(m') && m'.pc == m.pc + |DropCode(n)|
    ensures m' == m.(esp := m.esp + 4 * n, pc := m'.pc, flags := m'.flags)
    ensures Agrees(p, env, w, m', lo, hi)
  {
    hide Run, Step, CallsWork, Confined, Extends;
    RunNone(p, m);
    if n == 0 {
      k, m' := 0, m;
    } else {
      var m1 := Exec(p.kernel, p.dbase, p.sbase, AddEsp(Wrap(4 * n)), m).value;
      Plain(p, m, AddEsp(Wrap(4 * n)), m1);
      k, m' := 1, m1.(pc := m.pc + 1);
    }
  }

  lemma ReverseTwice(vs: seq<Word>)
    ensures PartlyReversed(Reverse(vs), 0) == Reverse(vs) && Reverse(Reverse(vs)) == vs && |Reverse(vs)| == |vs|
  {}

  /** The whole call sequence, from arguments pushed left to right (last on top). */
  lemma {:induction false} CallRuns(p: Prog, env: Env, w: World, m: State, index: Word, vs: seq<Word>, lo: int, hi: int)
    returns (n: nat, m': State)
    requires Cells(p, Down(env, |vs|), w, m, |vs|, lo, hi)
    requires Holding(m.mem, m.esp, Reverse(vs))
    requires At(p, m.pc, CallCode(index, |vs|))
    requires CallKernel(env.kernel, index, vs, w).Some?
    ensures Run(p, m, n) == Some(m') && m'.pc == m.pc + |CallCode(index, |vs|)|
    ensures var (v, w') := CallKernel(env.kernel, index, vs, w).value;
            m'.eax == v && Agrees(p, env, w', m', lo, hi) && w'.mem.Keys == w.mem.Keys
    ensures m'.esp == m.esp + 4 * |vs| && m'.esi == m.esi && m'.edi == m.edi && m'.mem.Keys == m.mem.Keys
    ensures forall a :: a in m.mem && a !in w.mem && (a >= m'.esp || a < m.esp) ==> m'.mem[a] == m.mem[a]
  {
    hide Run, Step, Agrees, Holding, PartlyReversed, CallKernel, ReverseCode, DropCode, Reverse;
    var tail := SyscallCode(index) + DropCode(|vs|);
    AtSplit(p, m.pc, ReverseCode(0, |vs|), tail);
    var rs := Reverse(vs);
    ReverseTwice(vs);
    var low := Down(env, |vs|);
    var n1, m1 := ReverseRuns(p, low, w, m, rs, 0, lo, hi);
    var m2 := SyscallRuns(p, low, w, m1, index, vs, DropCode(|vs|), lo, hi);
    var w' := CallKernel(env.kernel, index, vs, w).value.1;
    var k, m3 := DropRuns(p, env, w', m2, |vs|, lo, hi);
    Then(p, m, n1, m1, 3, m2);
    Then(p, m, n1 + 3, m2, k, m3);
    n, m' := n1 + 3 + k, m3;
  }
}
