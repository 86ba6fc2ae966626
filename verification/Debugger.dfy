/** The debugger's breakpoint table and handlers, changing the program's memory
    and its saved state in place. */
module Debugger {
  import opened Basics
  import opened Breakpoints

  lemma {:induction false} FindFromIs(bps: seq<Bp>, a: nat, i: nat, k: int)
    requires i <= |bps| && -1 <= k < |bps|
    requires k >= 0 ==> i <= k && bps[k].active && bps[k].addr == a
    requires forall j :: i <= j < (if k >= 0 then k else |bps|) ==> !(bps[j].active && bps[j].addr == a)
    ensures FindFrom(bps, a, i) == k
    decreases |bps| - i
  {
    if i < |bps| && k != i { FindFromIs(bps, a, i + 1, k); }
  }

  lemma {:induction false} FreeFromIs(bps: seq<Bp>, i: nat, k: int)
    requires i <= |bps| && -1 <= k < |bps|
    requires k >= 0 ==> i <= k && !bps[k].active
    requires forall j :: i <= j < (if k >= 0 then k else |bps|) ==> bps[j].active
    ensures FreeFrom(bps, i) == k
    decreases |bps| - i
  {
    if i < |bps| && k != i { FreeFromIs(bps, i + 1, k); }
  }

  class Debugger {
    const mem: array<byte>
    const bps: array<Bp>
    var pending: int
    var wantStep: bool
    var atBp: int
    /** The trapped program's saved instruction pointer and trap flag. */
    var eip: nat
    var tf: bool
    ghost var stopped: bool

    ghost function Now(): State
      reads this, mem, bps
    {
      State(mem[..], bps[..], pending, atBp, wantStep, stopped, eip, tf)
    }

    ghost predicate Valid()
      reads this, mem, bps
    {
      Sized(Now())
    }

    constructor (prog: seq<byte>)
      requires |prog| == REGION
      ensures Valid() && Now() == Loaded(prog) && fresh(mem) && fresh(bps)
    {
      mem := new byte[REGION](i requires 0 <= i < REGION => prog[i]);
      bps := new Bp[SLOTS](_ => Bp(0, 0, false));
      pending := -1;
      wantStep := false;
      atBp := -1;
      eip := BASE;
      tf := false;
      stopped := true;
      new;
      assert mem[..] == prog;
      assert bps[..] == seq(SLOTS, _ => Bp(0, 0, false));
    }

    method FindBp(a: nat) returns (k: int)
      requires Valid()
      ensures k == Find(bps[..], a)
    {
      var i := 0;
      while i < SLOTS
        invariant 0 <= i <= SLOTS
        invariant forall j :: 0 <= j < i ==> !(bps[j].active && bps[j].addr == a)
      {
        if bps[i].active && bps[i].addr == a {
          FindFromIs(bps[..], a, 0, i);
          return i;
        }
        i := i + 1;
      }
      FindFromIs(bps[..], a, 0, -1);
      k := -1;
    }

    method ArmBp(i: nat)
      requires Valid() && i < SLOTS && InUser(bps[i].addr)
      modifies mem
      ensures Valid() && Now() == Poke(old(Now()), bps[i].addr, TRAP)
    {
      mem[bps[i].addr - BASE] := 0xCC;
    }

    method DisarmBp(i: nat)
      requires Valid() && i < SLOTS && InUser(bps[i].addr)
      modifies mem
      ensures Valid() && Now() == Poke(old(Now()), bps[i].addr, bps[i].orig)
    {
      mem[bps[i].addr - BASE] := bps[i].orig;
    }

    method SetBp(a: nat)
      requires Valid()
      modifies mem, bps
      ensures Valid() && Now() == Breakpoints.SetBp(old(Now()), a)
    {
      hide Find, FreeFrom;
      if a < BASE || a >= BASE + REGION { return; }
      var k := FindBp(a);
      if k >= 0 { return; }
      var i := 0;
      while i < SLOTS && bps[i].active
        invariant 0 <= i <= SLOTS && forall j :: 0 <= j < i ==> bps[j].active
      {
        i := i + 1;
      }
      FreeFromIs(bps[..], 0, if i < SLOTS then i else -1);
      if i < SLOTS {
        ghost var before := bps[..];
        bps[i] := Bp(a, mem[a - BASE], true);
        assert bps[..] == before[i := Bp(a, mem[a - BASE], true)];
        ArmBp(i);
      }
    }

    method DelBp(a: nat)
      requires Valid()
      modifies mem, bps
      ensures Valid() && Now() == Breakpoints.DelBp(old(Now()), a)
    {
      hide Find;
      var i := FindBp(a);
      if i < 0 { return; }
      DisarmBp(i);
      ghost var before := bps[..];
      bps[i] := bps[i].(active := false);
      assert bps[..] == before[i := before[i].(active := false)];
    }

    method ClearAllBps()
      requires Valid()
      modifies mem, bps
      ensures Valid() && Now() == ClearFrom(old(Now()), 0)
    {
      var i := 0;
      while i < SLOTS
        invariant 0 <= i <= SLOTS && Valid()
        invariant ClearFrom(Now(), i) == ClearFrom(old(Now()), 0)
      {
        if bps[i].active {
          DisarmBp(i);
          ghost var before := bps[..];
          bps[i] := bps[i].(active := false);
          assert bps[..] == before[i := before[i].(active := false)];
        }
        i := i + 1;
      }
    }

    /** The byte to show at an address. */
    method CodeByteAt(a: nat) returns (b: byte)
      requires Valid() && InUser(a)
      ensures b == CodeByte(Now(), a)
    {
      hide Find;
      var i := FindBp(a);
      if i >= 0 { return bps[i].orig; }
      b := mem[a - BASE];
    }

    /** The `c` command. */
    method ContinueCommand()
      requires Valid()
      modifies this
      ensures Valid() && Now() == Continue(old(Now()))
    {
      if atBp >= 0 {
        tf := true;
        pending := atBp;
        wantStep := false;
      } else {
        tf := false;
      }
      stopped := false;
    }

    /** The `s` command. */
    method StepCommand()
      requires Valid()
      modifies this
      ensures Valid() && Now() == StepOne(old(Now()))
    {
      tf := true;
      wantStep := true;
      if atBp >= 0 { pending := atBp; }
      stopped := false;
    }

    /** An int3 trapped; `eip` points behind it. */
    method BpHandler(trapEip: nat)
      requires Valid() && trapEip > 0
      modifies this, mem
      ensures Valid() && Now() == Int3(old(Now()), trapEip)
    {
      hide Find;
      var bpaddr := trapEip - 1;
      var idx := FindBp(bpaddr);
      if idx >= 0 {
        eip := bpaddr;
        DisarmBp(idx);
        atBp := idx;
      } else {
        eip := trapEip;
        atBp := -1;
      }
      stopped := true;
    }

    /** One instruction was executed under the trap flag. */
    method StepHandler(trapEip: nat)
      requires Valid()
      modifies this, mem
      ensures Valid() && Now() == SingleStep(old(Now()), trapEip)
    {
      if pending >= 0 {
        ArmBp(pending);
        pending := -1;
      }
      eip := trapEip;
      if wantStep {
        atBp := -1;
        stopped := true;
      } else {
        tf := false;
      }
    }
  }
}
