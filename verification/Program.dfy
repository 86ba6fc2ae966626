/** Compiled programs end to end: the linked image, run from its first byte, does what the
    source says. */
module Program {
  import opened Basics
  import opened Word32
  import opened Machine
  import opened Syntax
  import opened Compile
  import opened ExprProof
  import opened StmtProof
  import opened FunctionProof
  import opened Encoding
  import opened Link
  import opened Cpu
  import opened InMemory
  import opened Calls
  import Labels
  import opened Emission
  import opened CodeGen

  // ----- programs as functions in sequence -----

  predicate WellFormed(f: Stmt) { WellNested(f, 0) && StmtFits(f) && Nesting(f) <= MAX_LOOP_DEPTH }

  predicate AllWellFormed(fs: seq<Stmt>) { forall k :: 0 <= k < |fs| ==> WellFormed(fs[k]) }

  /** Labels allocated by the first `n` functions. */
  function LabelsBefore(fs: seq<Stmt>, n: nat): nat
    requires n <= |fs|
  {
    if n == 0 then 0 else LabelsBefore(fs, n - 1) + 1 + StmtLabels(fs[n - 1])
  }

  /** The code of the first `n` functions. */
  function Items(fs: seq<Stmt>, n: nat): seq<Item>
    requires n <= |fs| && AllWellFormed(fs)
  {
    if n == 0 then [] else Items(fs, n - 1) + FunctionCode(fs[n - 1], LabelsBefore(fs, n - 1))
  }

  lemma {:induction false} ItemsCount(fs: seq<Stmt>, n: nat, l: int)
    requires n <= |fs| && AllWellFormed(fs)
    ensures Labels.Count(Items(fs, n), l) == Labels.In(l, 0, LabelsBefore(fs, n))
  {
    hide FunctionCode, Labels.AtLeast;
    if n > 0 {
      ItemsCount(fs, n - 1, l);
      Labels.FunctionCount(fs[n - 1], LabelsBefore(fs, n - 1), l);
      Labels.CountAdd(Items(fs, n - 1), FunctionCode(fs[n - 1], LabelsBefore(fs, n - 1)), l);
    }
  }

  lemma {:induction false} ItemsFine(fs: seq<Stmt>, n: nat, b: nat)
    requires n <= |fs| && AllWellFormed(fs) && LabelsBefore(fs, n) <= b
    ensures Fine(Items(fs, n), 0, b, {})
  {
    hide FunctionCode;
    if n > 0 {
      ItemsFine(fs, n - 1, b);
      var nl := LabelsBefore(fs, n - 1);
      FunctionFine(fs[n - 1], nl);
      FineWiden(FunctionCode(fs[n - 1], nl), nl, nl + 1 + StmtLabels(fs[n - 1]), 0, b);
      FineAdd(Items(fs, n - 1), FunctionCode(fs[n - 1], nl), 0, b, {});
    }
  }

  lemma FineWiden(c: seq<Item>, a: int, b: int, a': int, b': int)
    requires Fine(c, a, b, {}) && a' <= a && b <= b'
    ensures Fine(c, a', b', {})
  {
    hide Encodable;
  }

  /** A function's code is where its predecessors end. */
  lemma {:induction false} ItemsAt(fs: seq<Stmt>, k: nat, n: nat)
    requires k < n <= |fs| && AllWellFormed(fs)
    ensures Items(fs, k) + FunctionCode(fs[k], LabelsBefore(fs, k)) <= Items(fs, n)
    decreases n
  {
    hide FunctionCode;
    if k < n - 1 { ItemsAt(fs, k, n - 1); }
  }

  // ----- images -----

  /** The image: jump to main, code, strings, zeroed data. */
  function Image(main: int, code: seq<byte>, strings: seq<byte>, data: nat): seq<byte> {
    [0xE9] + Dword(main) + code + strings + seq(data, _ => 0)
  }

  function LayoutOf(items: seq<Item>, funOff: map<int, int>, strLen: nat): Layout {
    var start := LOAD_ADDR + CODE_START + |Bytes(items)|;
    Layout(LabelOffsets(items), funOff, start + strLen, start)
  }

  /** Where each function's code starts, in items and in bytes. */
  function Entries(fs: seq<Stmt>): map<int, int>
    requires AllWellFormed(fs)
  {
    map f | 0 <= f < |fs| :: |Items(fs, f)|
  }

  function FunOffsets(fs: seq<Stmt>): map<int, int>
    requires AllWellFormed(fs)
  {
    map f | 0 <= f < |fs| :: |Bytes(Items(fs, f))|
  }

  /** The return address of each call among the first `n` items: where the item behind
      it is linked. */
  function CallReturns(items: seq<Item>, n: nat, base: int): map<int, Word>
    requires n <= |items|
  {
    if n == 0 then map[]
    else if IsCall(items[n - 1]) then CallReturns(items, n - 1, base)[n - 1 := Wrap(base + Off(items, n))]
    else CallReturns(items, n - 1, base)
  }

  /** The item behind the call with a given return address. */
  function ReturnIndex(items: seq<Item>, n: nat, base: int): map<Word, int>
    requires n <= |items|
  {
    if n == 0 then map[]
    else if IsCall(items[n - 1]) then ReturnIndex(items, n - 1, base)[Wrap(base + Off(items, n)) := n]
    else ReturnIndex(items, n - 1, base)
  }

  predicate IsCall(x: Item) { x.Op? && x.i.Call? }

  ghost predicate ReturnsPlaced(items: seq<Item>, n: nat, base: int, after: map<int, Word>, back: map<Word, int>)
    requires n <= |items|
  {
    && (forall i :: i in after ==> 0 <= i < n && after[i] == Wrap(base + Off(items, i + 1)))
    && (forall i :: i in after ==> after[i] in back && back[after[i]] == i + 1)
    && (forall i :: 0 <= i < n && IsCall(items[i]) ==> i in after)
    && (forall v :: v in back ==> 0 <= back[v] <= n && v == base + Off(items, back[v]))
  }

  /** Every call has its own return address, and it leads back behind the call. */
  lemma {:induction false} ReturnsSound(items: seq<Item>, n: nat, base: int)
    requires n <= |items| && 0 <= base && base + Off(items, n) < MODULUS
    ensures ReturnsPlaced(items, n, base, CallReturns(items, n, base), ReturnIndex(items, n, base))
  {
    hide Off, ReturnsPlaced;
    if n > 0 {
      OffStep(items, n - 1);
      ReturnsSound(items, n - 1, base);
      ReturnsMore(items, n - 1, base, CallReturns(items, n - 1, base), ReturnIndex(items, n - 1, base));
    } else {
      NoReturns(items, base);
    }
  }

  lemma NoReturns(items: seq<Item>, base: int)
    ensures ReturnsPlaced(items, 0, base, map[], map[])
  {
  }

  /** One more item: a call's return address is larger than all before it. */
  lemma ReturnsMore(items: seq<Item>, n: nat, base: int, after: map<int, Word>, back: map<Word, int>)
    requires n < |items| && 0 <= base && base + Off(items, n + 1) < MODULUS &&
             ReturnsPlaced(items, n, base, after, back)
    ensures var v := Wrap(base + Off(items, n + 1));
            if IsCall(items[n]) then ReturnsPlaced(items, n + 1, base, after[n := v], back[v := n + 1])
            else ReturnsPlaced(items, n + 1, base, after, back)
  {
    hide Off;
    OffStep(items, n);
    ReturnsBelow(items, n, base, after, back);
    if IsCall(items[n]) {
      var v := Wrap(base + Off(items, n + 1));
      var after', back' := after[n := v], back[v := n + 1];
      assert v == base + Off(items, n + 1) && v !in back && n !in after;
      forall i | i in after' ensures after'[i] in back' && back'[after'[i]] == i + 1 {
        if i != n { assert after'[i] == after[i]; }
      }
    }
  }

  lemma ReturnsBelow(items: seq<Item>, n: nat, base: int, after: map<int, Word>, back: map<Word, int>)
    requires n <= |items| && ReturnsPlaced(items, n, base, after, back)
    ensures forall v :: v in back ==> v <= base + Off(items, n)
  {
    hide Off;
    forall v | v in back ensures v <= base + Off(items, n) { OffMonotone(items, back[v], n); }
  }

  lemma OffStep(items: seq<Item>, n: nat)
    requires n < |items|
    ensures Off(items, n) <= Off(items, n + 1)
    ensures items[n].Op? ==> Off(items, n) < Off(items, n + 1)
  {
    if items[n].Op? { EncodedSize(Raw(items[n].i)); }
  }

  /** The program `fs`, as the symbolic machine sees it. */
  function ProgOf(fs: seq<Stmt>, strLen: nat, k: Kernel): Prog
    requires AllWellFormed(fs)
  {
    var items := Items(fs, |fs|);
    var start := LOAD_ADDR + CODE_START + |Bytes(items)|;
    Prog(items, Labels.LabelIndex(items), start + strLen, start, k, Entries(fs),
         CallReturns(items, |items|, LOAD_ADDR + CODE_START), ReturnIndex(items, |items|, LOAD_ADDR + CODE_START))
  }

  function SourceOf(fs: seq<Stmt>, strLen: nat, k: Kernel): Source
    requires AllWellFormed(fs)
  {
    var p := ProgOf(fs, strLen, k);
    Source(fs, p.dbase, p.sbase, k)
  }

  function LayoutFor(fs: seq<Stmt>, strLen: nat): Layout
    requires AllWellFormed(fs)
  {
    LayoutOf(Items(fs, |fs|), FunOffsets(fs), strLen)
  }

  /** The image the compiler writes for `fs` with entry function `main`. */
  function ImageOf(fs: seq<Stmt>, main: nat, strings: seq<byte>, data: nat): seq<byte>
    requires AllWellFormed(fs) && main < |fs|
  {
    Image(|Bytes(Items(fs, main))|, LinkedBytes(Items(fs, |fs|), LayoutFor(fs, |strings|), true), strings, data)
  }

  lemma {:induction false} OffsetsOfIndices(items: seq<Item>)
    ensures LabelOffsets(items).Keys == Labels.LabelIndex(items).Keys
    ensures forall l :: l in LabelOffsets(items) ==>
              0 <= Labels.LabelIndex(items)[l] < |items| &&
              LabelOffsets(items)[l] == Off(items, Labels.LabelIndex(items)[l])
  {
    hide ItemBytes;
    if items != [] {
      var n := |items| - 1;
      var init := items[..n];
      OffsetsOfIndices(init);
      forall l | l in LabelOffsets(items)
        ensures 0 <= Labels.LabelIndex(items)[l] < |items|
        ensures LabelOffsets(items)[l] == Off(items, Labels.LabelIndex(items)[l])
      {
        if l in LabelOffsets(init) {
          OffPrefix(items, Labels.LabelIndex(init)[l], n);
        }
      }
    }
  }

  lemma LabelsSound(fs: seq<Stmt>, strLen: nat, k: Kernel)
    requires AllWellFormed(fs)
    ensures LabelsOk(ProgOf(fs, strLen, k))
  {
    hide Labels.Count, Items;
    var items := Items(fs, |fs|);
    forall l ensures Labels.Count(items, l) <= 1 {
      ItemsCount(fs, |fs|, l);
    }
    Labels.LabelIndexSound(items);
  }

  /** The image holds the linked code of the program. */
  lemma {:induction false} ImageLoaded(fs: seq<Stmt>, main: nat, strings: seq<byte>, data: nat, k: Kernel)
    requires AllWellFormed(fs) && main < |fs| && |Bytes(Items(fs, |fs|))| <= CODE_MAX
    ensures Loaded(ProgOf(fs, |strings|, k), LayoutFor(fs, |strings|), ImageOf(fs, main, strings, data))
  {
    hide LinkedBytes, Items, Off, Encodable, LabelOffsets, Labels.LabelIndex, Bytes, EntriesLoaded, CallReturns,
         ReturnIndex;
    var items := Items(fs, |fs|);
    var lay := LayoutFor(fs, |strings|);
    var code := LinkedBytes(items, lay, true);
    BytesLength(items);
    LinkedLength(items, lay, true);
    ItemsFine(fs, |fs|, LabelsBefore(fs, |fs|));
    OffsetsOfIndices(items);
    EntriesPlaced(fs, |strings|, k);
    var head := [0xE9] + Dword(|Bytes(Items(fs, main))|);
    Middle(head, code, strings + seq(data, _ => 0));
    assert ImageOf(fs, main, strings, data) == head + code + (strings + seq(data, _ => 0));
  }

  lemma EntriesPlaced(fs: seq<Stmt>, strLen: nat, k: Kernel)
    requires AllWellFormed(fs) && |Bytes(Items(fs, |fs|))| <= CODE_MAX
    ensures EntriesLoaded(ProgOf(fs, strLen, k), LayoutFor(fs, strLen)) && ReturnsOk(ProgOf(fs, strLen, k))
    ensures forall f :: f in FunOffsets(fs) ==> 0 <= FunOffsets(fs)[f] < 0x4000_0000
  {
    hide Items, Off, Bytes, CallReturns, ReturnIndex, Labels.LabelIndex, LabelOffsets, AllWellFormed, Entries,
         FunOffsets;
    BytesLength(Items(fs, |fs|));
    ReturnsSound(Items(fs, |fs|), |Items(fs, |fs|)|, LOAD_ADDR + CODE_START);
    FunsPlaced(fs);
  }

  lemma FunsPlaced(fs: seq<Stmt>)
    requires AllWellFormed(fs) && |Bytes(Items(fs, |fs|))| <= CODE_MAX
    ensures Entries(fs).Keys == FunOffsets(fs).Keys
    ensures forall f :: f in Entries(fs) ==>
              && 0 <= Entries(fs)[f] <= |Items(fs, |fs|)|
              && FunOffsets(fs)[f] == Off(Items(fs, |fs|), Entries(fs)[f]) <= CODE_MAX
  {
    hide Items, Off, Bytes, AllWellFormed;
    forall f | f in Entries(fs)
      ensures 0 <= Entries(fs)[f] <= |Items(fs, |fs|)|
      ensures FunOffsets(fs)[f] == Off(Items(fs, |fs|), Entries(fs)[f]) <= CODE_MAX
    {
      MainPlaced(fs, f, 0, Kernel(_ => 0, (_, _) => 0, (_, _, _, _) => None));
      CodeShorter(fs, f);
    }
  }

  lemma Middle(a: seq<byte>, b: seq<byte>, c: seq<byte>)
    ensures (a + b + c)[|a|..|a| + |b|] == b
  {}

  /** The first instruction of an image goes to main. */
  lemma {:induction false} EntryStep(fs: seq<Stmt>, main: nat, strings: seq<byte>, data: nat, k: Kernel, m: State)
    requires AllWellFormed(fs) && main < |fs| && |Bytes(Items(fs, main))| <= CODE_MAX && m.pc == 0
    ensures CpuStep(k, ImageOf(fs, main, strings, data), m) == Some(m.(pc := CODE_START + |Bytes(Items(fs, main))|))
  {
    hide LinkedBytes, Items, Bytes, Decode, LayoutOf;
    var img := ImageOf(fs, main, strings, data);
    var j := Jump(Always, |Bytes(Items(fs, main))|);
    assert Encode(j) <= img;
    WindowAt(img, 0, Encode(j));
    DecodeEncode(j, Window(img, 0));
  }

  /** Main returns through the address on top of the stack it was entered with. */
  ghost predicate BackToCaller(w': World, o: Outcome, m: State, m': State, top: int) {
    && top in m.mem && m'.pc == m.mem[top] - LOAD_ADDR && m'.esp == Wrap(top + 4)
    && m'.ebp == m.ebp && m'.ebx == m.ebx && m'.esi == m.esi && m'.edi == m.edi
    && (o.Returned? && o.value.Some? ==> m'.eax == o.value.value)
    && m'.trace == w'.trace && Extends(w'.mem, Known(m'.mem))
  }

  /** Main's environment, with calls up to `d` deep. */
  function MainEnv(fs: seq<Stmt>, strLen: nat, k: Kernel, top: int, d: nat, fuel: nat, deep: bool): Env
    requires AllWellFormed(fs) && 4 <= top < MODULUS
  {
    FrameEnv(ProgOf(fs, strLen, k), top, CalleesOf(SourceOf(fs, strLen, k), d, fuel, deep))
  }

  /** What executing main comes to, with calls up to `d` deep and loops up to `fuel` turns;
      `deep` says whether calls nested deeper count as endless. */
  function MainResult(fs: seq<Stmt>, main: nat, strLen: nat, k: Kernel, top: int, w: World, d: nat, fuel: nat,
                      deep: bool): Result
    requires AllWellFormed(fs) && main < |fs| && 4 <= top < MODULUS
  {
    ExecStmt(fs[main], MainEnv(fs, strLen, k, top, d, fuel, deep), w, fuel)
  }

  /** How many steps an unfinished execution takes at least. */
  function MainLasts(d: nat, fuel: nat, deep: bool): nat {
    if deep then Smaller(fuel, d) else fuel
  }

  lemma {:induction false} MainPlaced(fs: seq<Stmt>, main: nat, strLen: nat, k: Kernel)
    requires AllWellFormed(fs) && main < |fs|
    ensures var p := ProgOf(fs, strLen, k);
            var start := |Items(fs, main)|;
            start <= |p.items| && At(p, start, FunctionCode(fs[main], LabelsBefore(fs, main))) &&
            Off(p.items, start) == |Bytes(Items(fs, main))|
  {
    hide FunctionCode, Items, Bytes, Off;
    var items := Items(fs, |fs|);
    ItemsAt(fs, main, |fs|);
    var pre := Items(fs, main);
    BytesLength(pre);
    assert items[..|pre|] == pre;
    OffPrefix(items, |pre|, |pre|);
  }

  /** The image in memory at its load address, the processor at its first byte, and no
      dword in use where the code is. */
  ghost predicate Booted(fs: seq<Stmt>, main: nat, strings: seq<byte>, data: nat, c: Computer)
    requires AllWellFormed(fs) && main < |fs|
  {
    var img := ImageOf(fs, main, strings, data);
    && Segment(c.bytes, |img|) == img && c.cpu.pc == 0 && Coherent(c)
    && Clear(InUse(c), CODE_START + |Bytes(Items(fs, |fs|))|)
  }

  /** Main can be executed: its frame is there, and stack for calls `d` deep. */
  ghost predicate Startable(fs: seq<Stmt>, main: nat, k: Kernel, w: World, m: State, lo: int, top: int, d: nat)
    requires AllWellFormed(fs) && main < |fs|
  {
    && |Bytes(Items(fs, |fs|))| <= CODE_MAX && Confined(k) && FrameOk(w, m, lo, top)
    && lo + 4 * (StmtDepth(fs[main]) + RoomFor(fs, d)) <= top - 144
  }

  /** All functions of a program are where calls go, and all calls work. */
  lemma {:induction false} ProgHosts(fs: seq<Stmt>, strLen: nat, k: Kernel, d: nat, fuel: nat, deep: bool)
    requires AllWellFormed(fs) && |Bytes(Items(fs, |fs|))| <= CODE_MAX && Confined(k)
    ensures LabelsOk(ProgOf(fs, strLen, k))
    ensures CallsWork(ProgOf(fs, strLen, k), CalleesOf(SourceOf(fs, strLen, k), d, fuel, deep))
  {
    hide Items, Bytes, LabelsOk, ReturnsOk, CallsWork, Confined, CalleesOf, RoomFor, FunctionCode, At,
         Labels.LabelIndex, CallReturns, ReturnIndex;
    var p, src := ProgOf(fs, strLen, k), SourceOf(fs, strLen, k);
    var nls := seq(|fs|, f requires 0 <= f < |fs| => LabelsBefore(fs, f));
    LabelsSound(fs, strLen, k);
    EntriesPlaced(fs, strLen, k);
    forall f | 0 <= f < |fs| ensures Hosted(p, src, nls, f) { MainPlaced(fs, f, strLen, k); }
    AllCallsWork(p, src, nls, d, fuel, deep);
  }

  /** The first step, in memory. */
  lemma {:induction false} Boots(fs: seq<Stmt>, main: nat, strings: seq<byte>, data: nat, k: Kernel, c: Computer)
    returns (c1: Computer)
    requires AllWellFormed(fs) && main < |fs| && |Bytes(Items(fs, |fs|))| <= CODE_MAX
    requires Booted(fs, main, strings, data, c)
    ensures MemRun(k, |ImageOf(fs, main, strings, data)|, c, 1) == Some(c1)
    ensures InUse(c1) == InUse(c) && Untouched(c.bytes, c1.bytes, InUse(c))
    ensures var p := ProgOf(fs, |strings|, k);
            Carries(p, LayoutFor(fs, |strings|), |ImageOf(fs, main, strings, data)|, c1,
                    c.cpu.(pc := |Items(fs, main)|))
  {
    hide Items, Bytes, Off, Loaded, ImageOf, CpuStep, LinkedBytes, Segment, Coherent, Clear, Untouched, MemStep,
         Stored, LabelOffsets, Labels.LabelIndex, FunctionCode, CallReturns, ReturnIndex;
    var img, lay, p := ImageOf(fs, main, strings, data), LayoutFor(fs, |strings|), ProgOf(fs, |strings|, k);
    ImageLoaded(fs, main, strings, data, k);
    MainPlaced(fs, main, |strings|, k);
    CodeShorter(fs, main);
    BytesLength(p.items);
    LinkedLength(p.items, lay, true);
    EntryStep(fs, main, strings, data, k, c.cpu);
    var m1 := c.cpu.(pc := CODE_START + |Bytes(Items(fs, main))|);
    StepInMemory(k, |img|, c, m1);
    c1 := MemStep(k, |img|, c).value;
    OneMemStep(k, |img|, c, c1);
    StillLoaded(p, lay, c.bytes, c1.bytes, InUse(c), |img|);
  }

  lemma OneMemStep(k: Kernel, n: nat, c: Computer, c1: Computer)
    requires MemStep(k, n, c) == Some(c1)
    ensures MemRun(k, n, c, 1) == Some(c1)
  {
    hide MemStep;
    assert MemRun(k, n, c, 0) == Some(c);
  }

  /** The linked bytes of a program, in memory and started at their first byte, run main
      exactly as the source executes it, with functions calling one another up to `d`
      deep: to the caller with main's value, memory and system calls; or, if main does not
      finish within `fuel` loop turns, for `n` symbolic steps, n >= fuel. Nothing but the
      dwords in use is written, and so the code stays what it is. */
  lemma {:induction false} ProgramRuns(fs: seq<Stmt>, main: nat, strings: seq<byte>, data: nat, k: Kernel, w: World,
                                       c: Computer, lo: int, top: int, d: nat, fuel: nat, deep: bool)
    returns (n: nat, c': Computer)
    requires AllWellFormed(fs) && main < |fs| && Booted(fs, main, strings, data, c)
    requires Startable(fs, main, k, w, c.cpu, lo, top, d)
    requires MainResult(fs, main, |strings|, k, top, w, d, fuel, deep) != Wrong
    ensures MemRun(k, |ImageOf(fs, main, strings, data)|, c, n) == Some(c')
    ensures InUse(c') == InUse(c) && Untouched(c.bytes, c'.bytes, InUse(c))
    ensures var r := MainResult(fs, main, |strings|, k, top, w, d, fuel, deep);
            match r
            case Unfinished => MainLasts(d, fuel, deep) <= n * (|Items(fs, |fs|)| + 1) + |Items(fs, |fs|)|
            case Done(o, w') => BackToCaller(w', o, c.cpu, c'.cpu, top) && Coherent(c')
            case Wrong => true
  {
    hide FrameOk, ExecStmt, Items, Bytes, Off, Loaded, ImageOf, LabelsOk, MemRun, MemStep, Run, FunctionCode, Returns,
         At, CallsWork, Confined, Coherent, Clear, Segment, Untouched, CalleesOf, RoomFor, LinkedBytes,
         Labels.LabelIndex, CallReturns, ReturnIndex, LabelOffsets;
    var p, lay, img := ProgOf(fs, |strings|, k), LayoutFor(fs, |strings|), ImageOf(fs, main, strings, data);
    ProgHosts(fs, |strings|, k, d, fuel, deep);
    RoomIs(SourceOf(fs, |strings|, k), d, fuel, deep);
    MainPlaced(fs, main, |strings|, k);
    var c1 := Boots(fs, main, strings, data, k, c);
    var m1 := c.cpu.(pc := |Items(fs, main)|);
    FrameAnywhere(w, c.cpu, lo, top, m1.pc);
    var i, m2 := FunctionRuns(p, w, fs[main], LabelsBefore(fs, main), m1, lo, top,
                              CalleesOf(SourceOf(fs, |strings|, k), d, fuel, deep), fuel);
    var j, c2 := RunInMemory(p, lay, |img|, c1, m1, i, m2);
    MemRunAdd(k, |img|, c, 1, c1, j);
    UntouchedTrans(c.bytes, c1.bytes, c2.bytes, InUse(c));
    n, c' := 1 + j, c2;
    var r := MainResult(fs, main, |strings|, k, top, w, d, fuel, deep);
    if r.Done? {
      c' := Returning(p, lay, |img|, w, r.w, m1, m2, c2, |FunctionCode(fs[main], LabelsBefore(fs, main))|, lo, top,
                      r.o);
      MemRunAdd(k, |img|, c, n, c2, 1);
      UntouchedTrans(c.bytes, c2.bytes, c'.bytes, InUse(c));
      n := n + 1;
    }
  }

  /** The final `ret`, in memory. */
  lemma {:induction false} Returning(p: Prog, lay: Layout, n: nat, w: World, w': World, m: State, m2: State,
                                     c2: Computer, len: nat, lo: int, top: int, o: Outcome)
    returns (c': Computer)
    requires Carries(p, lay, n, c2, m2) && Returns(p, w, w', m, len, lo, top, o, m2) && m.esp == top
    ensures MemRun(p.kernel, n, c2, 1) == Some(c') && BackToCaller(w', o, m, c'.cpu, top) && Coherent(c')
    ensures InUse(c') == InUse(c2) && Untouched(c2.bytes, c'.bytes, InUse(c2))
  {
    hide Loaded, Off, CpuStep, OnCpu, Segment, Coherent, Clear, LinkedBytes, MemStep, Stored, Untouched, Returns,
         BackToCaller;
    var m' := ReturnStep(p, lay, Segment(c2.bytes, n), w, m, m2, len, lo, w', o, top);
    StepInMemory(p.kernel, n, c2, m');
    c' := MemStep(p.kernel, n, c2).value;
    OneMemStep(p.kernel, n, c2, c');
  }

  lemma CodeShorter(fs: seq<Stmt>, main: nat)
    requires AllWellFormed(fs) && main < |fs|
    ensures |Bytes(Items(fs, main))| <= |Bytes(Items(fs, |fs|))|
  {
    hide FunctionCode, Items, Bytes, Off;
    MainPlaced(fs, main, 0, Kernel(_ => 0, (_, _) => 0, (_, _, _, _) => None));
    BytesLength(Items(fs, |fs|));
    OffMonotone(Items(fs, |fs|), |Items(fs, main)|, |Items(fs, |fs|)|);
  }

  lemma FrameAnywhere(w: World, m: State, lo: int, top: int, pc: int)
    requires FrameOk(w, m, lo, top)
    ensures FrameOk(w, m.(pc := pc), lo, top)
  {}

  /** The final `ret`, on the processor. */
  lemma {:induction false} ReturnStep(p: Prog, lay: Layout, img: seq<byte>, w: World, m: State, m2: State, len: nat,
                                      lo: int, w': World, o: Outcome, top: int)
    returns (m': State)
    requires Loaded(p, lay, img) && Returns(p, w, w', m, len, lo, top, o, m2) && m.esp == top && 0 <= m2.pc <= |p.items|
    ensures CpuStep(p.kernel, img, OnCpu(p, m2)) == Some(m') && BackToCaller(w', o, m, m', top)
  {
    hide Loaded, Decode, Window, Off, Encode, Extends;
    AtIndex(p, m2.pc, [Op(Ret)], 0);
    Fetch(p, lay, img, m2.pc);
    m' := m2.(esp := Wrap(m2.esp + 4), pc := m2.mem[m2.esp] - LOAD_ADDR);
  }

  /** As long as an execution is unfinished, the bytes keep running. */
  lemma {:induction false} ProgramLasts(fs: seq<Stmt>, main: nat, strings: seq<byte>, data: nat, k: Kernel, w: World,
                                        c: Computer, lo: int, top: int, d: nat, fuel: nat, deep: bool, n: nat)
    requires AllWellFormed(fs) && main < |fs| && Booted(fs, main, strings, data, c)
    requires Startable(fs, main, k, w, c.cpu, lo, top, d)
    requires MainResult(fs, main, |strings|, k, top, w, d, fuel, deep).Unfinished?
    requires n * (|Items(fs, |fs|)| + 1) + |Items(fs, |fs|)| < MainLasts(d, fuel, deep)
    ensures MemRun(k, |ImageOf(fs, main, strings, data)|, c, n).Some?
  {
    hide FrameOk, Items, Bytes, ImageOf, MemStep, MemRun, MainResult, MainLasts, Confined, Booted, RoomFor;
    var size := |Items(fs, |fs|)|;
    var i, c' := ProgramRuns(fs, main, strings, data, k, w, c, lo, top, d, fuel, deep);
    if i < n { MulMonotone(i, n, size + 1); }
    MemPrefix(k, |ImageOf(fs, main, strings, data)|, c, n, i);
  }

  /** If main never finishes, be it in its own loops or in a function it calls, neither do
      the bytes. */
  lemma {:induction false} ProgramDiverges(fs: seq<Stmt>, main: nat, strings: seq<byte>, data: nat, k: Kernel,
                                           w: World, c: Computer, lo: int, top: int, d: nat)
    requires AllWellFormed(fs) && main < |fs| && Booted(fs, main, strings, data, c)
    requires Startable(fs, main, k, w, c.cpu, lo, top, d)
    requires forall fuel: nat :: MainResult(fs, main, |strings|, k, top, w, d, fuel, false).Unfinished?
    ensures forall n: nat :: MemRun(k, |ImageOf(fs, main, strings, data)|, c, n).Some?
  {
    hide FrameOk, Items, Bytes, ImageOf, MemStep, MemRun, MainResult, Confined, Booted, RoomFor;
    var size := |Items(fs, |fs|)|;
    forall n: nat ensures MemRun(k, |ImageOf(fs, main, strings, data)|, c, n).Some? {
      ProgramLasts(fs, main, strings, data, k, w, c, lo, top, d, n * (size + 1) + size + 1, false, n);
    }
  }

  /** Endless recursion: if main has not finished when its calls are `d` deep, the bytes run
      on as far as a stack for that depth allows. */
  lemma {:induction false} ProgramRecurses(fs: seq<Stmt>, main: nat, strings: seq<byte>, data: nat, k: Kernel,
                                           w: World, c: Computer, lo: int, top: int, d: nat)
    requires AllWellFormed(fs) && main < |fs| && Booted(fs, main, strings, data, c)
    requires Startable(fs, main, k, w, c.cpu, lo, top, d)
    requires MainResult(fs, main, |strings|, k, top, w, d, d, true).Unfinished?
    ensures forall n: nat :: n * (|Items(fs, |fs|)| + 1) + |Items(fs, |fs|)| < d ==>
              MemRun(k, |ImageOf(fs, main, strings, data)|, c, n).Some?
  {
    hide FrameOk, Items, Bytes, ImageOf, MemStep, MemRun, MainResult, Confined, Booted, RoomFor;
    forall n: nat | n * (|Items(fs, |fs|)| + 1) + |Items(fs, |fs|)| < d
      ensures MemRun(k, |ImageOf(fs, main, strings, data)|, c, n).Some?
    {
      ProgramLasts(fs, main, strings, data, k, w, c, lo, top, d, d, true, n);
    }
  }

  /** Depth and fuel only have to suffice: more of either changes no finished execution. */
  lemma MainSettled(fs: seq<Stmt>, main: nat, strLen: nat, k: Kernel, top: int, w: World, d: nat, fuel: nat,
                    deep: bool, d': nat, fuel': nat, deep': bool)
    requires AllWellFormed(fs) && main < |fs| && 4 <= top < MODULUS && d <= d' && fuel <= fuel'
    requires MainResult(fs, main, strLen, k, top, w, d, fuel, deep).Done?
    ensures MainResult(fs, main, strLen, k, top, w, d', fuel', deep')
            == MainResult(fs, main, strLen, k, top, w, d, fuel, deep)
  {
    hide ExecStmt, CalleesOf, Refines, RoomFor, ProgOf;
    var src := SourceOf(fs, strLen, k);
    MeaningMore(src, d, d', fuel, fuel', deep, deep');
    ExecMore(fs[main], MainEnv(fs, strLen, k, top, d, fuel, deep), w, fuel, CalleesOf(src, d', fuel', deep'));
    MoreFuel(fs[main], MainEnv(fs, strLen, k, top, d', fuel', deep'), w, fuel, fuel');
  }

  lemma MulMonotone(i: nat, n: nat, s: nat)
    requires i <= n
    ensures i * s <= n * s
  {}
}
