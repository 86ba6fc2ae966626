/** The debugger as a state machine: breakpoints are bytes patched into the
    program, taken out to step over them and put back afterwards. */
module Breakpoints {
  import opened Basics

  const BASE: nat := 0x200000
  const REGION: nat := 0x100000
  const SLOTS: nat := 16
  const TRAP: byte := 0xCC

  datatype Bp = Bp(addr: nat, orig: byte, active: bool)

  /** `pending` is the breakpoint to put back after a step, `atBp` the one the
      program is parked on, each -1 for none; `eip` and `tf` belong to the
      program's saved state. */
  datatype State = State(
    mem: seq<byte>, bps: seq<Bp>, pending: int, atBp: int, wantStep: bool,
    stopped: bool, eip: nat, tf: bool)

  predicate InUser(a: nat) { BASE <= a < BASE + REGION }

  predicate Sized(s: State) {
    && |s.mem| == REGION && |s.bps| == SLOTS
    && -1 <= s.pending < SLOTS && -1 <= s.atBp < SLOTS
    && (s.pending >= 0 ==> InUser(s.bps[s.pending].addr)) && (s.atBp >= 0 ==> InUser(s.bps[s.atBp].addr))
    && forall i :: 0 <= i < SLOTS && s.bps[i].active ==> InUser(s.bps[i].addr)
  }

  function At(s: State, a: nat): byte
    requires Sized(s) && InUser(a)
  {
    s.mem[a - BASE]
  }

  function Poke(s: State, a: nat, b: byte): State
    requires Sized(s) && InUser(a)
  {
    s.(mem := s.mem[a - BASE := b])
  }

  /** The first active breakpoint at `a` from slot `i` on, or -1. */
  function FindFrom(bps: seq<Bp>, a: nat, i: nat): (k: int)
    requires i <= |bps|
    ensures -1 <= k < |bps| && (k >= 0 ==> i <= k && bps[k].active && bps[k].addr == a)
    ensures k == -1 ==> forall j :: i <= j < |bps| ==> !(bps[j].active && bps[j].addr == a)
    decreases |bps| - i
  {
    if i == |bps| then -1 else if bps[i].active && bps[i].addr == a then i else FindFrom(bps, a, i + 1)
  }

  function Find(bps: seq<Bp>, a: nat): (k: int)
    ensures -1 <= k < |bps| && (k >= 0 ==> bps[k].active && bps[k].addr == a)
    ensures k == -1 ==> forall j :: 0 <= j < |bps| ==> !(bps[j].active && bps[j].addr == a)
  {
    FindFrom(bps, a, 0)
  }

  function FreeFrom(bps: seq<Bp>, i: nat): (k: int)
    requires i <= |bps|
    ensures -1 <= k < |bps| && (k >= 0 ==> i <= k && !bps[k].active)
    ensures forall j :: i <= j < (if k >= 0 then k else |bps|) ==> bps[j].active
    decreases |bps| - i
  {
    if i == |bps| then -1 else if !bps[i].active then i else FreeFrom(bps, i + 1)
  }

  /** The byte the debugger shows at an address. */
  function CodeByte(s: State, a: nat): byte
    requires Sized(s) && InUser(a)
  {
    var i := Find(s.bps, a);
    if i >= 0 then s.bps[i].orig else At(s, a)
  }

  // ---- commands and traps ----

  function SetBp(s: State, a: nat): (r: State)
    requires Sized(s)
    ensures Sized(r)
  {
    if !InUser(a) || Find(s.bps, a) >= 0 then s
    else
      var i := FreeFrom(s.bps, 0);
      if i < 0 then s
      else Poke(s.(bps := s.bps[i := Bp(a, At(s, a), true)]), a, TRAP)
  }

  function DelBp(s: State, a: nat): (r: State)
    requires Sized(s)
    ensures Sized(r)
  {
    var i := Find(s.bps, a);
    if i < 0 then s
    else Poke(s, a, s.bps[i].orig).(bps := s.bps[i := s.bps[i].(active := false)])
  }

  /** `c`: off a breakpoint the program first takes one step. */
  function Continue(s: State): (r: State)
    requires Sized(s)
    ensures Sized(r)
  {
    if s.atBp >= 0 then s.(tf := true, pending := s.atBp, wantStep := false, stopped := false)
    else s.(tf := false, stopped := false)
  }

  /** `s`. */
  function StepOne(s: State): (r: State)
    requires Sized(s)
    ensures Sized(r)
  {
    s.(tf := true, wantStep := true, pending := if s.atBp >= 0 then s.atBp else s.pending, stopped := false)
  }

  /** The program executed an int3 and stands behind it. */
  function Int3(s: State, eip: nat): (r: State)
    requires Sized(s) && eip > 0
    ensures Sized(r)
  {
    var i := Find(s.bps, eip - 1);
    if i >= 0 then Poke(s, eip - 1, s.bps[i].orig).(eip := eip - 1, atBp := i, stopped := true)
    else s.(eip := eip, atBp := -1, stopped := true)
  }

  /** The program executed one instruction under the trap flag. */
  function SingleStep(s: State, eip: nat): (r: State)
    requires Sized(s)
    ensures Sized(r)
  {
    var t := if s.pending >= 0 then Poke(s, s.bps[s.pending].addr, TRAP).(pending := -1) else s;
    if t.wantStep then t.(eip := eip, atBp := -1, stopped := true) else t.(eip := eip, tf := false)
  }

  function ClearFrom(s: State, i: nat): (r: State)
    requires Sized(s) && i <= SLOTS
    ensures Sized(r)
    decreases SLOTS - i
  {
    if i == SLOTS then s
    else if s.bps[i].active then
      ClearFrom(Poke(s, s.bps[i].addr, s.bps[i].orig).(bps := s.bps[i := s.bps[i].(active := false)]), i + 1)
    else ClearFrom(s, i + 1)
  }

  datatype Event =
    | Break(addr: nat)
    | Delete(addr: nat)
    | Go
    | One
    | TrapInt3(eip: nat)
    | TrapStep(eip: nat)

  /** What can happen: commands while stopped; while the program runs, an int3 wherever
      it may stand, and, under the trap flag, a step trap. The flag does not force a step
      trap before the next int3: it is off during an instruction that enters the kernel,
      and the one behind that instruction is executed before the program is trapped. */
  predicate Possible(s: State, e: Event) {
    match e
    case Break(_) => s.stopped
    case Delete(_) => s.stopped
    case Go => s.stopped
    case One => s.stopped
    case TrapInt3(eip) => !s.stopped && eip > 0
    case TrapStep(_) => !s.stopped && s.tf
  }

  function Next(s: State, e: Event): (r: State)
    requires Sized(s) && Possible(s, e)
    ensures Sized(r)
  {
    match e
    case Break(a) => SetBp(s, a)
    case Delete(a) => DelBp(s, a)
    case Go => Continue(s)
    case One => StepOne(s)
    case TrapInt3(eip) => Int3(s, eip)
    case TrapStep(eip) => SingleStep(s, eip)
  }

  // ---- transparency ----

  /** The breakpoint is taken out at the moment: waiting to be put back, or the
      one the stopped program is parked on. */
  predicate TakenOut(s: State, i: int) {
    i == s.pending || (s.stopped && i == s.atBp)
  }

  /** What every session keeps: active breakpoints have distinct addresses and remember
      the loaded bytes; memory is the loaded program but for traps at active breakpoints;
      and a breakpoint taken out is active. */
  ghost predicate Inv(s: State, prog: seq<byte>) {
    && Sized(s) && |prog| == REGION
    && (forall i, j :: 0 <= i < j < SLOTS && s.bps[i].active && s.bps[j].active ==> s.bps[i].addr != s.bps[j].addr)
    && (forall i :: 0 <= i < SLOTS && s.bps[i].active ==> s.bps[i].orig == prog[s.bps[i].addr - BASE])
    && (forall a :: InUser(a) ==> Shown(s, prog, a))
    && (s.pending >= 0 ==> s.bps[s.pending].active)
    && (s.stopped && s.atBp >= 0 ==> s.bps[s.atBp].active)
  }

  predicate Shown(s: State, prog: seq<byte>, a: nat)
    requires Sized(s) && |prog| == REGION && InUser(a)
  {
    At(s, a) == prog[a - BASE] || (At(s, a) == TRAP && Find(s.bps, a) >= 0)
  }

  /** Deleting the breakpoint the program is parked on, or one waiting to be put
      back, is the one command that does harm to the program. */
  predicate Harmless(s: State, e: Event)
    requires Sized(s)
  {
    e.Delete? ==> var i := Find(s.bps, e.addr); i < 0 || !TakenOut(s, i)
  }

  lemma FindIs(bps: seq<Bp>, a: nat, i: int)
    requires 0 <= i < |bps| && bps[i].active && bps[i].addr == a
    requires forall j, k :: 0 <= j < k < |bps| && bps[j].active && bps[k].active ==> bps[j].addr != bps[k].addr
    ensures Find(bps, a) == i
  {
  }

  /** Whatever the state, the debugger shows the loaded byte everywhere. */
  lemma ShowsProgram(s: State, prog: seq<byte>, a: nat)
    requires Inv(s, prog) && InUser(a)
    ensures CodeByte(s, a) == prog[a - BASE]
  {
    assert Shown(s, prog, a);
  }

  lemma InvSized(s: State, prog: seq<byte>)
    requires Inv(s, prog)
    ensures Sized(s) && |prog| == REGION
  {
  }

  lemma SetKeeps(s: State, prog: seq<byte>, a: nat)
    requires Inv(s, prog)
    ensures Inv(SetBp(s, a), prog)
  {
    hide Find, Shown;
    var r := SetBp(s, a);
    var i := FreeFrom(s.bps, 0);
    if InUser(a) && Find(s.bps, a) < 0 && i >= 0 {
      assert At(s, a) == prog[a - BASE] by { NoTrap(s, prog, a); }
      forall b | InUser(b) ensures Shown(r, prog, b) {
        SetAt(s, prog, a, i, b);
      }
    }
  }

  lemma NoTrap(s: State, prog: seq<byte>, a: nat)
    requires Inv(s, prog) && InUser(a) && Find(s.bps, a) < 0
    ensures At(s, a) == prog[a - BASE]
  {
    assert Shown(s, prog, a);
  }

  lemma SetAt(s: State, prog: seq<byte>, a: nat, i: int, b: nat)
    requires Inv(s, prog) && InUser(a) && InUser(b) && Find(s.bps, a) < 0 && i == FreeFrom(s.bps, 0) >= 0
    ensures Shown(SetBp(s, a), prog, b)
  {
    hide Find, FreeFrom;
    var r := SetBp(s, a);
    assert !s.bps[i].active;
    if b == a {
      FindIs(r.bps, a, i);
    } else {
      SameFind(s.bps, r.bps, b, i);
      assert Shown(s, prog, b);
    }
  }

  /** Changing a slot that holds another address, or none, before and after. */
  lemma SameFind(bps: seq<Bp>, bps': seq<Bp>, a: nat, i: int)
    requires |bps| == |bps'| && 0 <= i < |bps| && forall j :: 0 <= j < |bps| && j != i ==> bps'[j] == bps[j]
    requires !(bps[i].active && bps[i].addr == a) && !(bps'[i].active && bps'[i].addr == a)
    ensures Find(bps', a) == Find(bps, a)
  {
    SameFindFrom(bps, bps', a, i, 0);
  }

  lemma {:induction false} SameFindFrom(bps: seq<Bp>, bps': seq<Bp>, a: nat, i: int, k: nat)
    requires |bps| == |bps'| && 0 <= i < |bps| && k <= |bps|
    requires forall j :: 0 <= j < |bps| && j != i ==> bps'[j] == bps[j]
    requires !(bps[i].active && bps[i].addr == a) && !(bps'[i].active && bps'[i].addr == a)
    ensures FindFrom(bps', a, k) == FindFrom(bps, a, k)
    decreases |bps| - k
  {
    if k < |bps| { SameFindFrom(bps, bps', a, i, k + 1); }
  }

  lemma DelKeeps(s: State, prog: seq<byte>, a: nat)
    requires Inv(s, prog) && s.stopped && Harmless(s, Delete(a))
    ensures Inv(DelBp(s, a), prog)
  {
    hide Find, Shown;
    var r := DelBp(s, a);
    if Find(s.bps, a) >= 0 {
      forall b | InUser(b) ensures Shown(r, prog, b) {
        DelAt(s, prog, a, b);
      }
    }
  }

  lemma DelAt(s: State, prog: seq<byte>, a: nat, b: nat)
    requires Inv(s, prog) && InUser(b) && Find(s.bps, a) >= 0
    ensures Shown(DelBp(s, a), prog, b)
  {
    hide Find;
    var r := DelBp(s, a);
    var i := Find(s.bps, a);
    if b != a {
      SameFind(s.bps, r.bps, b, i);
      assert Shown(s, prog, b);
    }
  }

  lemma ResumeKeeps(s: State, prog: seq<byte>)
    requires Inv(s, prog) && s.stopped
    ensures Inv(Continue(s), prog) && Inv(StepOne(s), prog)
  {
    hide Find, Shown;
    forall a | InUser(a) ensures Shown(Continue(s), prog, a) && Shown(StepOne(s), prog, a) {
      assert Shown(s, prog, a);
      ResumeAt(s, prog, a);
    }
  }

  lemma ResumeAt(s: State, prog: seq<byte>, a: nat)
    requires Sized(s) && |prog| == REGION && InUser(a)
    ensures Shown(Continue(s), prog, a) == Shown(StepOne(s), prog, a) == Shown(s, prog, a)
  {
  }

  lemma Int3Keeps(s: State, prog: seq<byte>, eip: nat)
    requires Inv(s, prog) && eip > 0
    ensures Inv(Int3(s, eip), prog)
  {
    hide Find, Shown;
    forall a | InUser(a) ensures Shown(Int3(s, eip), prog, a) {
      Int3At(s, prog, eip, a);
    }
  }

  lemma Int3At(s: State, prog: seq<byte>, eip: nat, a: nat)
    requires Inv(s, prog) && eip > 0 && InUser(a)
    ensures Shown(Int3(s, eip), prog, a)
  {
    hide Find;
    assert Shown(s, prog, a);
  }

  lemma StepKeeps(s: State, prog: seq<byte>, eip: nat)
    requires Inv(s, prog) && !s.stopped
    ensures Inv(SingleStep(s, eip), prog)
  {
    hide Find, Shown;
    forall a | InUser(a) ensures Shown(SingleStep(s, eip), prog, a) {
      StepAt(s, prog, eip, a);
    }
  }

  lemma StepAt(s: State, prog: seq<byte>, eip: nat, a: nat)
    requires Inv(s, prog) && InUser(a)
    ensures Shown(SingleStep(s, eip), prog, a)
  {
    hide Find;
    assert Shown(s, prog, a);
    if s.pending >= 0 && a == s.bps[s.pending].addr { FindIs(s.bps, a, s.pending); }
  }

  /** Every event but a harmful deletion keeps the program and its traps. */
  lemma NextKeeps(s: State, prog: seq<byte>, e: Event)
    requires Inv(s, prog) && Possible(s, e) && Harmless(s, e)
    ensures Inv(Next(s, e), prog)
  {
    hide Inv, SetBp, DelBp, Continue, StepOne, Int3, SingleStep;
    match e
    case Break(a) => SetKeeps(s, prog, a);
    case Delete(a) => DelKeeps(s, prog, a);
    case Go => ResumeKeeps(s, prog);
    case One => ResumeKeeps(s, prog);
    case TrapInt3(eip) => Int3Keeps(s, prog, eip);
    case TrapStep(eip) => StepKeeps(s, prog, eip);
  }

  /** The run of `es` from `s`; each event is possible and harmless where it comes. */
  ghost predicate Runs(s: State, es: seq<Event>)
    requires Sized(s)
    decreases |es|
  {
    es != [] ==>
      Possible(s, es[0]) && Harmless(s, es[0]) && Runs(Next(s, es[0]), es[1..])
  }

  function After(s: State, es: seq<Event>): (r: State)
    requires Sized(s)
    ensures Sized(r)
    decreases |es|
  {
    if es == [] || !Possible(s, es[0]) then s else After(Next(s, es[0]), es[1..])
  }

  lemma {:induction false} RunKeeps(s: State, prog: seq<byte>, es: seq<Event>)
    requires Inv(s, prog) && Runs(s, es)
    ensures Inv(After(s, es), prog)
    decreases |es|
  {
    hide Inv, Possible, Next;
    InvSized(s, prog);
    if es != [] {
      NextKeeps(s, prog, es[0]);
      RunKeeps(Next(s, es[0]), prog, es[1..]);
    }
  }

  /** Throughout every such run the debugger shows the loaded program, and memory differs
      from it by traps at active breakpoints alone. */
  lemma {:induction false} RunTransparent(s: State, prog: seq<byte>, es: seq<Event>, a: nat)
    requires Inv(s, prog) && Runs(s, es) && InUser(a)
    ensures var r := After(s, es);
            && CodeByte(r, a) == prog[a - BASE]
            && (At(r, a) == prog[a - BASE] || (At(r, a) == TRAP && Find(r.bps, a) >= 0))
  {
    hide Find;
    RunKeeps(s, prog, es);
    ShowsProgram(After(s, es), prog, a);
    assert Shown(After(s, es), prog, a);
  }

  /** A program just loaded, before any breakpoint is set. */
  function Loaded(prog: seq<byte>): (s: State)
    requires |prog| == REGION
    ensures Sized(s)
  {
    State(prog, seq(SLOTS, _ => Bp(0, 0, false)), -1, -1, false, true, BASE, false)
  }

  lemma LoadedInv(prog: seq<byte>)
    requires |prog| == REGION
    ensures Inv(Loaded(prog), prog) && Armed(Loaded(prog))
  {
    var s := Loaded(prog);
    forall a | InUser(a) ensures Shown(s, prog, a) {
    }
  }

  /** A whole session: from loading the program on, whatever is set, deleted,
      stepped, continued and trapped, the program is seen as it was loaded, and
      clearing all breakpoints at any time leaves it as it was loaded. */
  lemma SessionTransparent(prog: seq<byte>, es: seq<Event>, a: nat)
    requires |prog| == REGION && Runs(Loaded(prog), es) && InUser(a)
    ensures var r := After(Loaded(prog), es);
            && CodeByte(r, a) == prog[a - BASE]
            && (At(r, a) == prog[a - BASE] || (At(r, a) == TRAP && Find(r.bps, a) >= 0))
            && ClearFrom(r, 0).mem == prog
  {
    hide Inv, Runs, After, Find, CodeByte, ClearFrom;
    LoadedInv(prog);
    RunTransparent(Loaded(prog), prog, es, a);
    RunKeeps(Loaded(prog), prog, es);
    ClearRestores(After(Loaded(prog), es), prog);
  }

  // ---- which breakpoints are armed ----

  /** A breakpoint will come back into memory: at the step trap that is due, or because
      the stopped program is parked on it or has it waiting. */
  predicate Due(s: State, i: int) {
    (i == s.pending && (s.stopped || s.tf)) || (s.stopped && i == s.atBp)
  }

  /** Every active breakpoint is in memory or due to come back. */
  ghost predicate Armed(s: State)
    requires Sized(s)
  {
    forall i :: 0 <= i < SLOTS && s.bps[i].active ==> At(s, s.bps[i].addr) == TRAP || Due(s, i)
  }

  /** Going on does not forget a breakpoint that waits to be put back: there is none, it
      is the one the program is parked on, or a step is taken from no breakpoint. */
  predicate Timely(s: State, e: Event) {
    match e
    case Go => s.pending < 0 || s.pending == s.atBp
    case One => s.pending < 0 || s.pending == s.atBp || s.atBp < 0
    case _ => true
  }

  /** What Go and One keep armed, exactly: everything, unless they forget a breakpoint
      that was waiting, where the program had no trap of its own. */
  lemma ResumeArmed(s: State, prog: seq<byte>, e: Event)
    requires Inv(s, prog) && Armed(s) && s.stopped && (e.Go? || e.One?)
    ensures Armed(Next(s, e)) <==> Timely(s, e) || At(s, s.bps[s.pending].addr) == TRAP
  {
    var r := Next(s, e);
    forall i | 0 <= i < SLOTS && s.bps[i].active && i != s.pending ensures At(r, r.bps[i].addr) == TRAP || Due(r, i) {
      assert At(s, s.bps[i].addr) == TRAP || Due(s, i);
    }
    if s.pending >= 0 {
      assert r.bps[s.pending].active;
    }
  }

  lemma NextArmed(s: State, prog: seq<byte>, e: Event)
    requires Inv(s, prog) && Armed(s) && Possible(s, e) && Harmless(s, e) && Timely(s, e)
    ensures Armed(Next(s, e))
  {
    hide Find;
    if e.Go? || e.One? {
      ResumeArmed(s, prog, e);
    } else {
      var r := Next(s, e);
      forall i | 0 <= i < SLOTS && r.bps[i].active ensures At(r, r.bps[i].addr) == TRAP || Due(r, i) {
        OtherArmed(s, prog, e, i);
      }
    }
  }

  lemma OtherArmed(s: State, prog: seq<byte>, e: Event, i: int)
    requires Inv(s, prog) && Armed(s) && Possible(s, e) && Harmless(s, e) && !e.Go? && !e.One?
    requires 0 <= i < SLOTS && Next(s, e).bps[i].active
    ensures var r := Next(s, e); At(r, r.bps[i].addr) == TRAP || Due(r, i)
  {
    hide Find, FreeFrom;
    if s.bps[i].active {
      assert At(s, s.bps[i].addr) == TRAP || Due(s, i);
      FindIs(s.bps, s.bps[i].addr, i);
    }
  }

  /** A run in which every Go and One is timely, too. */
  ghost predicate TimelyRuns(s: State, es: seq<Event>)
    requires Sized(s)
    decreases |es|
  {
    es != [] ==>
      && Possible(s, es[0]) && Harmless(s, es[0]) && Timely(s, es[0])
      && TimelyRuns(Next(s, es[0]), es[1..])
  }

  lemma {:induction false} RunArmed(s: State, prog: seq<byte>, es: seq<Event>)
    requires Inv(s, prog) && Armed(s) && TimelyRuns(s, es)
    ensures Runs(s, es) && Inv(After(s, es), prog) && Armed(After(s, es))
    decreases |es|
  {
    hide Inv, Possible, Harmless, Timely, Next, Armed;
    InvSized(s, prog);
    if es != [] {
      NextKeeps(s, prog, es[0]);
      NextArmed(s, prog, es[0]);
      RunArmed(Next(s, es[0]), prog, es[1..]);
    }
  }

  /** A session of timely commands: while the program runs freely, every active
      breakpoint is in memory. */
  lemma SessionArmed(prog: seq<byte>, es: seq<Event>, i: nat)
    requires |prog| == REGION && TimelyRuns(Loaded(prog), es) && i < SLOTS
    ensures var r := After(Loaded(prog), es);
            !r.stopped && !r.tf && r.bps[i].active ==> At(r, r.bps[i].addr) == TRAP
  {
    hide Inv, TimelyRuns, After;
    LoadedInv(prog);
    RunArmed(Loaded(prog), prog, es);
  }

  /** A breakpoint forgotten: active, not in memory, and nothing will put it back. */
  predicate Forgotten(s: State, prog: seq<byte>, i: int)
    requires Sized(s) && |prog| == REGION
  {
    0 <= i < SLOTS && s.bps[i].active && !TakenOut(s, i) && At(s, s.bps[i].addr) == prog[s.bps[i].addr - BASE]
  }

  /** Going on from a breakpoint with another one waiting forgets that one. */
  lemma ResumeForgets(s: State, prog: seq<byte>, e: Event)
    requires Inv(s, prog) && s.stopped && (e.Go? || e.One?) && !Timely(s, e) && s.atBp >= 0
    requires At(s, s.bps[s.pending].addr) == prog[s.bps[s.pending].addr - BASE]
    ensures Forgotten(Next(s, e), prog, s.pending)
  {
  }

  /** It stays forgotten until it is deleted, or an int3 of the program's own stands at
      its address. */
  lemma {:induction false} StaysForgotten(s: State, prog: seq<byte>, es: seq<Event>, i: int)
    requires Inv(s, prog) && Runs(s, es) && Forgotten(s, prog, i)
    requires Delete(s.bps[i].addr) !in es && TrapInt3(s.bps[i].addr + 1) !in es
    ensures var r := After(s, es); Forgotten(r, prog, i) && r.bps[i].addr == s.bps[i].addr
    decreases |es|
  {
    hide Inv, Possible, Harmless, Next, Forgotten;
    InvSized(s, prog);
    if es != [] {
      assert es[0] in es;
      NextKeeps(s, prog, es[0]);
      NextForgotten(s, prog, es[0], i);
      assert forall e :: e in es[1..] ==> e in es;
      StaysForgotten(Next(s, es[0]), prog, es[1..], i);
    }
  }

  lemma NextForgotten(s: State, prog: seq<byte>, e: Event, i: int)
    requires Inv(s, prog) && Possible(s, e) && Harmless(s, e) && Forgotten(s, prog, i)
    requires e != Delete(s.bps[i].addr) && e != TrapInt3(s.bps[i].addr + 1)
    ensures var r := Next(s, e); Forgotten(r, prog, i) && r.bps[i].addr == s.bps[i].addr
  {
    hide Find, FreeFrom;
    FindIs(s.bps, s.bps[i].addr, i);
  }

  // ---- what the commands are for ----

  /** Nothing of the program but the byte at `a` differs. */
  ghost predicate OnlyAt(s: State, r: State, a: nat) {
    Sized(s) && Sized(r) && forall b :: InUser(b) && b != a ==> At(r, b) == At(s, b)
  }

  /** A step executes one instruction and stops behind it, and a breakpoint stepped off is
      in memory again. */
  lemma StepStops(s: State, eip: nat)
    requires Sized(s) && s.stopped
    ensures var run := StepOne(s);
            var r := SingleStep(run, eip);
            && !run.stopped && run.tf && run.mem == s.mem
            && r.stopped && r.eip == eip && r.atBp == -1 && r.pending == -1 && r.bps == s.bps
            && (s.atBp >= 0 ==>
                  At(r, s.bps[s.atBp].addr) == TRAP && OnlyAt(s, r, s.bps[s.atBp].addr))
            && (s.atBp < 0 && s.pending < 0 ==> r.mem == s.mem)
  {
  }

  /** Going on from a breakpoint takes one step, puts the breakpoint back and then runs
      freely without another stop; from anywhere else the program runs freely at once. */
  lemma GoRuns(s: State, eip: nat)
    requires Sized(s) && s.stopped
    ensures var run := Continue(s);
            && !run.stopped && run.mem == s.mem && run.eip == s.eip && run.tf == (s.atBp >= 0)
            && (run.tf ==>
                  var r := SingleStep(run, eip);
                  && !r.stopped && !r.tf && r.pending == -1 && r.eip == eip
                  && At(r, s.bps[s.atBp].addr) == TRAP && OnlyAt(s, r, s.bps[s.atBp].addr))
  {
  }

  /** Running onto a breakpoint stops the program in front of the instruction there, with
      the instruction's own byte back; running onto a trap of the program's own stops it
      behind that. */
  lemma HitStops(s: State, prog: seq<byte>, a: nat)
    requires Inv(s, prog) && InUser(a) && !s.stopped && At(s, a) == TRAP
    ensures var r := Int3(s, a + 1);
            && r.stopped && r.bps == s.bps && OnlyAt(s, r, a) && At(r, a) == prog[a - BASE]
            && (if exists i :: 0 <= i < SLOTS && s.bps[i].active && s.bps[i].addr == a
                then r.eip == a && r.atBp >= 0 && r.bps[r.atBp].addr == a
                else r.eip == a + 1 && r.atBp == -1)
  {
    assert Shown(s, prog, a);
    if i :| 0 <= i < SLOTS && s.bps[i].active && s.bps[i].addr == a { FindIs(s.bps, a, i); }
  }

  /** A new breakpoint is a trap in memory and takes a free slot, if there is one and the
      address is in the program and has none yet; deleting it again undoes that. */
  lemma SetThenDelete(s: State, a: nat)
    requires Sized(s)
    ensures var r := SetBp(s, a);
            if InUser(a) && (forall i :: 0 <= i < SLOTS && s.bps[i].active ==> s.bps[i].addr != a)
               && (exists i :: 0 <= i < SLOTS && !s.bps[i].active)
            then
              && At(r, a) == TRAP && OnlyAt(s, r, a)
              && (exists i :: 0 <= i < SLOTS && !s.bps[i].active && r.bps == s.bps[i := Bp(a, At(s, a), true)])
              && DelBp(r, a).mem == s.mem
              && forall i :: 0 <= i < SLOTS ==> DelBp(r, a).bps[i].active == s.bps[i].active
            else r == s
  {
    if InUser(a) && Find(s.bps, a) < 0 && FreeFrom(s.bps, 0) >= 0 {
      var i := FreeFrom(s.bps, 0);
      var r := SetBp(s, a);
      assert r.bps == s.bps[i := Bp(a, At(s, a), true)];
      FoundNew(r.bps, a, i);
      assert DelBp(r, a).mem == s.mem;
    }
  }

  lemma FoundNew(bps: seq<Bp>, a: nat, i: int)
    requires 0 <= i < |bps| && bps[i].active && bps[i].addr == a
    requires forall j :: 0 <= j < |bps| && j != i ==> !(bps[j].active && bps[j].addr == a)
    ensures Find(bps, a) == i
  {
  }

  // ---- clearing everything ----

  lemma {:induction false} ClearKeeps(s: State, prog: seq<byte>, i: nat)
    requires Sized(s) && |prog| == REGION && i <= SLOTS
    requires forall j :: i <= j < SLOTS && s.bps[j].active ==> s.bps[j].orig == prog[s.bps[j].addr - BASE]
    requires forall j :: 0 <= j < i ==> !s.bps[j].active
    requires forall a: nat :: InUser(a) && At(s, a) != prog[a - BASE] ==>
               exists j :: i <= j < SLOTS && s.bps[j].active && s.bps[j].addr == a
    ensures var r := ClearFrom(s, i);
            r.mem == prog && forall j :: 0 <= j < SLOTS ==> !r.bps[j].active
    decreases SLOTS - i
  {
    if i == SLOTS {
      forall k | 0 <= k < REGION ensures s.mem[k] == prog[k] {
        assert At(s, BASE + k) == prog[k];
      }
    } else if s.bps[i].active {
      var t := Poke(s, s.bps[i].addr, s.bps[i].orig).(bps := s.bps[i := s.bps[i].(active := false)]);
      forall a: nat | InUser(a) && At(t, a) != prog[a - BASE]
        ensures exists j :: i + 1 <= j < SLOTS && t.bps[j].active && t.bps[j].addr == a
      {
        assert a != s.bps[i].addr;
        assert At(s, a) != prog[a - BASE];
        var j :| i <= j < SLOTS && s.bps[j].active && s.bps[j].addr == a;
        assert j != i && t.bps[j] == s.bps[j];
      }
      ClearKeeps(t, prog, i + 1);
    } else {
      ClearKeeps(s, prog, i + 1);
    }
  }

  /** Clearing all breakpoints restores the loaded program exactly. */
  lemma ClearRestores(s: State, prog: seq<byte>)
    requires Inv(s, prog)
    ensures ClearFrom(s, 0).mem == prog && forall j :: 0 <= j < SLOTS ==> !ClearFrom(s, 0).bps[j].active
  {
    hide Find;
    forall a: nat | InUser(a) && At(s, a) != prog[a - BASE]
      ensures exists j :: 0 <= j < SLOTS && s.bps[j].active && s.bps[j].addr == a
    {
      assert Shown(s, prog, a);
      var j := Find(s.bps, a);
      assert 0 <= j < SLOTS && s.bps[j].active && s.bps[j].addr == a;
    }
    ClearKeeps(s, prog, 0);
  }

  // ---- two sessions ----

  /** Parked on a breakpoint, deleting it and continuing leaves a trap in the program
      that no breakpoint accounts for, whatever the program has there. */
  lemma DeletedTrapStays(s: State, prog: seq<byte>, eip: nat)
    requires Inv(s, prog) && s.stopped && s.atBp >= 0
    ensures var a := s.bps[s.atBp].addr;
            var t := Continue(DelBp(s, a));
            InUser(a) && CodeByte(SingleStep(t, eip), a) == TRAP
  {
    hide Find;
    var a := s.bps[s.atBp].addr;
    FindIs(s.bps, a, s.atBp);
    var d := DelBp(s, a);
    assert Find(d.bps, a) == -1;
    var t := Continue(d);
    var r := SingleStep(t, eip);
    assert r.bps == d.bps && At(r, a) == TRAP;
  }

  /** Such a session exists for every program that does not begin with a trap:
      a breakpoint on its first byte is hit, deleted and left. */
  lemma DeletedTrapReached(prog: seq<byte>, eip: nat)
    requires |prog| == REGION && prog[0] != TRAP
    ensures var es := [Break(BASE), Go, TrapInt3(BASE + 1)];
            var s := After(Loaded(prog), es);
            && Runs(Loaded(prog), es) && s.stopped && s.atBp == 0 && s.bps[0].addr == BASE
            && CodeByte(SingleStep(Continue(DelBp(s, BASE)), eip), BASE) == TRAP
  {
    hide SetBp, Find, Poke;
    var s := FirstStop(prog);
    DeletedTrapStays(s, prog, eip);
  }

  /** How a session begins: the first byte gets a breakpoint, and the program runs into
      it at once. */
  lemma FirstStop(prog: seq<byte>) returns (s: State)
    requires |prog| == REGION
    ensures var es := [Break(BASE), Go, TrapInt3(BASE + 1)];
            Runs(Loaded(prog), es) && s == After(Loaded(prog), es) && Inv(s, prog)
    ensures s == Loaded(prog).(bps := s.bps, atBp := 0) && s.bps[0] == Bp(BASE, prog[0], true)
    ensures forall i :: 1 <= i < SLOTS ==> !s.bps[i].active
  {
    var s0, e1, e2, e3 := Loaded(prog), Break(BASE), Go, TrapInt3(BASE + 1);
    FirstBreak(prog);
    var s1 := Next(s0, e1);
    var s2 := Next(s1, e2);
    s := Next(s2, e3);
    RunsOn(s2, e3, []);
    RunsOn(s1, e2, [e3]);
    RunsOn(s0, e1, [e2, e3]);
    assert [e1] + [e2, e3] == [e1, e2, e3] && [e2] + [e3] == [e2, e3] && [e3] + [] == [e3];
    LoadedInv(prog);
    RunKeeps(s0, prog, [e1, e2, e3]);
    assert prog[0 := TRAP][0 := prog[0]] == prog;
  }

  lemma RunsOn(s: State, e: Event, es: seq<Event>)
    requires Sized(s) && Possible(s, e) && Harmless(s, e) && Runs(Next(s, e), es)
    ensures Runs(s, [e] + es) && After(s, [e] + es) == After(Next(s, e), es)
  {
    assert ([e] + es)[1..] == es;
  }

  lemma FirstBreak(prog: seq<byte>)
    requires |prog| == REGION
    ensures var s := Next(Loaded(prog), Break(BASE));
            && s == Loaded(prog).(mem := prog[0 := TRAP], bps := s.bps[0 := Bp(BASE, prog[0], true)])
            && Find(s.bps, BASE) == 0 && At(s, BASE) == TRAP
            && forall i :: 1 <= i < SLOTS ==> !s.bps[i].active
  {
    var s0 := Loaded(prog);
    assert Find(s0.bps, BASE) == -1;
    assert FreeFrom(s0.bps, 0) == 0;
    assert At(s0, BASE) == prog[0];
  }

  /** A breakpoint forgotten: the program begins with a kernel entry of two bytes, and a
      breakpoint behind it is hit on the way off the first one. Continuing from there
      leaves the first out of memory while the program runs freely. */
  lemma ForgottenReached(prog: seq<byte>, eip: nat)
    requires |prog| == REGION && prog[0] != TRAP
    ensures var es := [Break(BASE), Go, TrapInt3(BASE + 1)];
            var fs := [Break(BASE + 2), Go, TrapInt3(BASE + 3)];
            var s := After(Loaded(prog), es + fs);
            var r := After(s, [Go, TrapStep(eip)]);
            && Runs(Loaded(prog), es + fs) && Runs(s, [Go, TrapStep(eip)]) && !Timely(s, Go)
            && !r.stopped && !r.tf && Forgotten(r, prog, 0) && r.bps[0].addr == BASE && At(r, BASE) == prog[0]
  {
    hide Find, FreeFrom, Poke, After;
    var s1 := FirstStop(prog);
    var es, fs := [Break(BASE), Go, TrapInt3(BASE + 1)], [Break(BASE + 2), Go, TrapInt3(BASE + 3)];
    var s := SecondStop(prog, s1);
    RunsJoin(Loaded(prog), es, fs);
    var s5 := Next(s, Go);
    PokedApart(s5, BASE + 2, TRAP, BASE);
    var r := Next(s5, TrapStep(eip));
    RunsNone(r);
    RunsOn(s5, TrapStep(eip), []);
    RunsOn(s, Go, [TrapStep(eip)]);
    assert [Go] + [TrapStep(eip)] == [Go, TrapStep(eip)] && [TrapStep(eip)] + [] == [TrapStep(eip)];
    assert At(s5, BASE) == prog[0];
  }

  lemma PokedApart(s: State, a: nat, b: byte, c: nat)
    requires Sized(s) && InUser(a) && InUser(c) && a != c
    ensures Sized(Poke(s, a, b)) && Poke(s, a, b) == s.(mem := Poke(s, a, b).mem) && At(Poke(s, a, b), c) == At(s, c)
  {
  }

  /** From the first stop: a breakpoint two bytes on, hit with the first one still waiting. */
  lemma SecondStop(prog: seq<byte>, s: State) returns (r: State)
    requires |prog| == REGION && Inv(s, prog) && s == Loaded(prog).(bps := s.bps, atBp := 0)
    requires s.bps[0] == Bp(BASE, prog[0], true) && forall i :: 1 <= i < SLOTS ==> !s.bps[i].active
    ensures var es := [Break(BASE + 2), Go, TrapInt3(BASE + 3)]; Runs(s, es) && r == After(s, es)
    ensures r.stopped && r.pending == 0 && r.atBp == 1 && !r.wantStep && r.mem == prog
    ensures r.bps[0] == Bp(BASE, prog[0], true) && r.bps[1] == Bp(BASE + 2, prog[2], true)
  {
    var e1, e2, e3 := Break(BASE + 2), Go, TrapInt3(BASE + 3);
    assert Find(s.bps, BASE + 2) == -1;
    assert FreeFrom(s.bps, 0) == 1;
    assert At(s, BASE + 2) == prog[2];
    var s1 := Next(s, e1);
    assert s1.bps == s.bps[1 := Bp(BASE + 2, prog[2], true)] && s1.mem == prog[2 := TRAP];
    FindIs(s1.bps, BASE + 2, 1);
    var s2 := Next(s1, e2);
    r := Next(s2, e3);
    RunsNone(r);
    RunsOn(s2, e3, []);
    RunsOn(s1, e2, [e3]);
    RunsOn(s, e1, [e2, e3]);
    assert [e1] + [e2, e3] == [e1, e2, e3] && [e2] + [e3] == [e2, e3] && [e3] + [] == [e3];
    assert prog[2 := TRAP][2 := prog[2]] == prog;
  }

  lemma RunsNone(s: State)
    requires Sized(s)
    ensures Runs(s, []) && After(s, []) == s
  {
  }

  lemma {:induction false} RunsJoin(s: State, a: seq<Event>, b: seq<Event>)
    requires Sized(s) && Runs(s, a) && Runs(After(s, a), b)
    ensures Runs(s, a + b) && After(s, a + b) == After(After(s, a), b)
    decreases |a|
  {
    hide Possible, Harmless, Next;
    if a == [] {
      assert a + b == b;
    } else {
      assert (a + b)[1..] == a[1..] + b;
      RunsJoin(Next(s, a[0]), a[1..], b);
    }
  }
}
