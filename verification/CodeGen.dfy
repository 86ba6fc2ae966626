/** The single-pass code generator: byte buffer, label table and fixup lists updated in
    place while the parser walks a tree. */
module CodeGen {
  import opened Basics
  import opened Word32
  import opened Machine
  import opened Syntax
  import opened Compile
  import opened Encoding
  import opened Link

  const CODE_MAX: nat := 8192
  const FIXUP_MAX: nat := 256
  const LABEL_MAX: nat := 256
  const STR_FIXUP_MAX: nat := 128
  const MAX_LOOP_DEPTH: nat := 16

  /** Code offset of each placed label (of its last placement). */
  function LabelOffsets(items: seq<Item>): map<int, int> {
    if items == [] then map[]
    else
      var n := |items| - 1;
      var prev := LabelOffsets(items[..n]);
      if items[n].Label? then prev[items[n].id := Off(items, n)] else prev
  }

  /** Within the generator's fixed capacities. */
  predicate Fits(items: seq<Item>) {
    |Bytes(items)| <= CODE_MAX && |Fixups(items)| <= FIXUP_MAX && |StrFixups(items)| <= STR_FIXUP_MAX
  }

  lemma Snoc(items: seq<Item>, x: Item)
    ensures Bytes(items + [x]) == Bytes(items) + ItemBytes(x)
    ensures Fixups(items + [x]) == Fixups(items) + FixupOf(x, |Bytes(items)|)
    ensures StrFixups(items + [x]) == StrFixups(items) + StrFixupOf(x, |Bytes(items)|)
    ensures LabelOffsets(items + [x]) ==
            if x.Label? then LabelOffsets(items)[x.id := |Bytes(items)|] else LabelOffsets(items)
    ensures Fits(items + [x]) ==> Fits(items)
  {
    hide ItemBytes, FixupOf, StrFixupOf;
    var all := items + [x];
    assert all[..|all| - 1] == items;
    BytesLength(items);
    OffPrefix(all, |items|, |items|);
  }

  /** No labels. */
  predicate AllOps(c: seq<Item>) {
    forall k :: 0 <= k < |c| ==> c[k].Op?
  }

  lemma OperatorsAreOps(op: BinOp, uop: UnOp, x: Variable)
    ensures AllOps(BinaryCode(op)) && AllOps(UnaryCode(uop)) && AllOps([LoadVar(x)]) && AllOps([StoreVar(x)])
    ensures AllOps(BinaryCode(op) + [StoreVar(x)]) && AllOps([Op(StoreInd)])
  {}

  lemma SwapIsOps(i: nat, n: nat)
    requires i < n
    ensures AllOps(SwapCode(i, n))
  {}

  /** Loop nesting inside a statement. */
  function Nesting(s: Stmt): nat {
    match s
    case Skip => 0
    case Do(_) => 0
    case DoCall(_, _) => 0
    case Seq(s1, s2) => if Nesting(s1) < Nesting(s2) then Nesting(s2) else Nesting(s1)
    case If(_, s1) => Nesting(s1)
    case IfElse(_, s1, s2) => if Nesting(s1) < Nesting(s2) then Nesting(s2) else Nesting(s1)
    case While(_, s1) => 1 + Nesting(s1)
    case For(_, _, _, s1) => 1 + Nesting(s1)
    case DoWhile(s1, _) => 1 + Nesting(s1)
    case Break => 0
    case Continue => 0
    case Return(_) => 0
  }

  /** The generator's buffers and the parser's loop stack. `asked` counts the labels asked
      for; once that exceeds the table the generator hands out label 0 again, and what it
      emits no longer means anything. `items`, `loops` and `leave` say symbolically what
      has been emitted and where break, continue and return go, with every label distinct;
      as long as the labels last and the buffers have room, the bytes agree with them. */
  class Generator {
    var code: seq<byte>
    var labelPos: seq<int>
    var numLabels: nat
    var fixups: seq<Fixup>
    var strFixups: seq<nat>
    var epilogue: int
    var breakLabels: seq<int>
    var continueLabels: seq<int>
    var loopDepth: nat
    ghost var items: seq<Item>
    ghost var asked: nat
    ghost var loops: seq<Loop>
    ghost var leave: int

    /** Nothing has overflowed. */
    ghost predicate Sound()
      reads this`items, this`asked
    {
      asked <= LABEL_MAX && Fits(items)
    }

    ghost predicate Valid()
      reads this`code, this`labelPos, this`numLabels, this`fixups, this`strFixups, this`items, this`asked
    {
      && |code| <= CODE_MAX && |labelPos| == LABEL_MAX
      && numLabels == (if asked < LABEL_MAX then asked else LABEL_MAX)
      && (forall l :: l in LabelOffsets(items) ==> 0 <= l < asked)
      && (Sound() ==>
            code == Bytes(items) && fixups == Fixups(items) && strFixups == StrFixups(items) &&
            forall l :: 0 <= l < LABEL_MAX ==>
              labelPos[l] == if l in LabelOffsets(items) then LabelOffsets(items)[l] else -1)
    }

    /** The loop stack is within its 16 slots and holds the labels of `loops`. */
    ghost predicate Stacked()
      reads this`breakLabels, this`continueLabels, this`loopDepth, this`loops, this`asked, this`epilogue, this`leave
    {
      && |breakLabels| == MAX_LOOP_DEPTH && |continueLabels| == MAX_LOOP_DEPTH && loopDepth <= MAX_LOOP_DEPTH
      && |loops| == loopDepth
      && (asked <= LABEL_MAX ==> epilogue == leave)
      && (asked <= LABEL_MAX ==> forall k :: 0 <= k < loopDepth ==> loops[k] == Loop(breakLabels[k], continueLabels[k]))
    }

    constructor ()
      ensures Valid() && Stacked() && items == [] && asked == 0 && loops == []
    {
      code, fixups, strFixups := [], [], [];
      labelPos := seq(LABEL_MAX, _ => -1);
      numLabels, epilogue, loopDepth := 0, -1, 0;
      breakLabels := seq(MAX_LOOP_DEPTH, _ => -1);
      continueLabels := seq(MAX_LOOP_DEPTH, _ => -1);
      items, asked, loops, leave := [], 0, [], -1;
    }

    method EmitByte(b: byte)
      modifies this`code
      ensures code == if |old(code)| < CODE_MAX then old(code) + [b] else old(code)
    {
      if |code| < CODE_MAX {
        code := code + [b];
      }
    }

    method EmitBytes(bs: seq<byte>)
      requires |code| <= CODE_MAX
      modifies this`code
      ensures |code| <= CODE_MAX
      ensures |old(code)| + |bs| <= CODE_MAX ==> code == old(code) + bs
    {
      var k := 0;
      while k < |bs|
        invariant 0 <= k <= |bs| && |code| <= CODE_MAX
        invariant |old(code)| + k <= CODE_MAX ==> code == old(code) + bs[..k]
      {
        EmitByte(bs[k]);
        k := k + 1;
      }
    }

    /** Opcode bytes, then the fixup for the dword, then the dword. */
    method EmitParts(i: Instr)
      requires |code| <= CODE_MAX
      modifies this`code, this`fixups, this`strFixups
      ensures |code| <= CODE_MAX
      ensures |old(code)| + |Encode(Raw(i))| <= CODE_MAX ==>
                code == old(code) + Encode(Raw(i)) &&
                (|old(fixups) + FixupOf(Op(i), |old(code)|)| <= FIXUP_MAX ==>
                   fixups == old(fixups) + FixupOf(Op(i), |old(code)|)) &&
                (|old(strFixups) + StrFixupOf(Op(i), |old(code)|)| <= STR_FIXUP_MAX ==>
                   strFixups == old(strFixups) + StrFixupOf(Op(i), |old(code)|))
    {
      hide Encode, Raw;
      var bytes := Encode(Raw(i));
      var k := OperandAt(i);
      RawOperand(i);
      if i.LoadStr? && |strFixups| < STR_FIXUP_MAX {
        strFixups := strFixups + [|code| + 1];
      }
      EmitBytes(bytes[..k]);
      if (i.Jump? || i.Call? || i.LoadAbs? || i.StoreAbs?) && |fixups| < FIXUP_MAX {
        var ref := if i.Jump? then ToLabel(i.to) else if i.Call? then ToFunction(i.to) else ToData;
        fixups := fixups + [Fixup(|code|, ref)];
      }
      EmitBytes(bytes[k..]);
      assert bytes[..k] + bytes[k..] == bytes;
    }

    /** Emit one instruction, which symbolically is `x`. */
    method Emit(i: Instr, ghost x: Instr)
      requires Valid() && (asked <= LABEL_MAX ==> x == i)
      modifies this`code, this`fixups, this`strFixups, this`items
      ensures Valid() && items == old(items) + [Op(x)]
    {
      hide Encode, Raw, Bytes, Fixups, StrFixups, LabelOffsets, FixupOf, StrFixupOf;
      Snoc(items, Op(x));
      EmitParts(i);
      items := items + [Op(x)];
    }

    /** A run of instructions that mention no label. */
    method EmitOps(c: seq<Item>)
      requires Valid() && AllOps(c)
      modifies this`code, this`fixups, this`strFixups, this`items
      ensures Valid() && items == old(items) + c
    {
      hide Valid;
      var k := 0;
      while k < |c|
        invariant 0 <= k <= |c| && Valid() && items == old(items) + c[..k]
      {
        Emit(c[k].i, c[k].i);
        k := k + 1;
      }
    }

    /** A fresh label `g`, or label 0 again when the table is full. */
    method NewLabel() returns (id: nat, ghost g: nat)
      requires Valid()
      modifies this`numLabels, this`labelPos, this`asked
      ensures old(Stacked()) ==> Stacked()
      ensures Valid() && g == old(asked) && asked == old(asked) + 1
      ensures asked <= LABEL_MAX ==> id == g
    {
      hide Fits, LabelOffsets;
      g := asked;
      asked := asked + 1;
      if numLabels >= LABEL_MAX {
        return 0, g;
      }
      id := numLabels;
      numLabels := numLabels + 1;
      labelPos := labelPos[id := -1];
    }

    method PlaceLabel(id: int, ghost g: nat)
      requires Valid() && g < asked && (asked <= LABEL_MAX ==> id == g)
      modifies this`labelPos, this`items
      ensures Valid() && items == old(items) + [Label(g)]
    {
      hide Bytes, Fixups, StrFixups, LabelOffsets;
      Snoc(items, Label(g));
      if 0 <= id < LABEL_MAX {
        labelPos := labelPos[id := |code|];
      }
      items := items + [Label(g)];
    }

    method EmitJump(l: int, ghost g: int)
      requires Valid() && (asked <= LABEL_MAX ==> l == g)
      modifies this`code, this`fixups, this`strFixups, this`items
      ensures Valid() && items == old(items) + Go(g)
    {
      hide Valid;
      Emit(Jump(Always, l), Jump(Always, g));
    }

    method EmitTest(when: When, l: int, ghost g: int)
      requires Valid() && (asked <= LABEL_MAX ==> l == g)
      modifies this`code, this`fixups, this`strFixups, this`items
      ensures Valid() && items == old(items) + TestAndGo(when, g)
    {
      hide Valid;
      Emit(Alu(Test, Eax, Eax), Alu(Test, Eax, Eax));
      Emit(Jump(when, l), Jump(when, g));
    }

    /** The in-place reversal of the top `n` dwords of the stack, pair by pair. */
    method EmitReverse(n: nat)
      requires Valid()
      modifies this`code, this`fixups, this`strFixups, this`items
      ensures Valid() && items == old(items) + ReverseCode(0, n)
    {
      hide Valid, SwapCode;
      var i := 0;
      while i < n / 2
        invariant 0 <= i <= n / 2 && Valid()
        invariant items + ReverseCode(i, n) == old(items) + ReverseCode(0, n)
      {
        Assoc(items, SwapCode(i, n), ReverseCode(i + 1, n));
        SwapIsOps(i, n);
        EmitOps(SwapCode(i, n));
        i := i + 1;
      }
    }

    method EmitBuiltinCall(index: Word, argc: nat)
      requires Valid()
      modifies this`code, this`fixups, this`strFixups, this`items
      ensures Valid() && items == old(items) + CallCode(index, argc)
    {
      hide Valid;
      if argc >= 2 {
        EmitReverse(argc);
      }
      EmitOps(SyscallCode(index));
      if argc > 0 {
        EmitOps(DropCode(argc));
      }
      Assoc(old(items), ReverseCode(0, argc), SyscallCode(index));
      Assoc(old(items), ReverseCode(0, argc) + SyscallCode(index), DropCode(argc));
      Assoc(ReverseCode(0, argc), SyscallCode(index), DropCode(argc));
    }

    // ----- expressions -----

    /** Code of an expression: its value in EAX. */
    method EmitExpr(e: Expr)
      requires Valid()
      modifies this`code, this`labelPos, this`numLabels, this`fixups, this`strFixups, this`items, this`asked
      ensures old(Stacked()) ==> Stacked()
      ensures Valid() && items == old(items) + ExprCode(e, old(asked)) && asked == old(asked) + Labels(e)
      decreases e, 1
    {
      hide Valid, Stacked, ExprCode, Labels;
      if e.Num? || e.Str? || e.Var? || e.AddressOf? || e.Builtin? || e.CallFun? {
        EmitPrimary(e);
      } else if e.Deref? || e.Unary? {
        EmitUnary(e);
      } else if e.Binary? || e.AndAlso? || e.OrElse? {
        EmitBinary(e);
      } else {
        EmitAssign(e);
      }
    }

    /** Literals, variables and calls. */
    method EmitPrimary(e: Expr)
      requires Valid() && (e.Num? || e.Str? || e.Var? || e.AddressOf? || e.Builtin? || e.CallFun?)
      modifies this`code, this`labelPos, this`numLabels, this`fixups, this`strFixups, this`items, this`asked
      ensures old(Stacked()) ==> Stacked()
      ensures Valid() && items == old(items) + ExprCode(e, old(asked)) && asked == old(asked) + Labels(e)
      decreases e, 0
    {
      hide Valid, Stacked, LoadVar, CallCode;
      match e
      case Num(v) => Emit(LoadImm(v), LoadImm(v));
      case Str(o) => Emit(LoadStr(o), LoadStr(o));
      case Var(x) =>
        OperatorsAreOps(Plus, Negate, x);
        EmitOps([LoadVar(x)]);
      case AddressOf(d) => Emit(LeaLocal(d), LeaLocal(d));
      case Builtin(index, args) =>
        EmitArgs(args);
        EmitBuiltinCall(index, Syntax.Count(args));
        Assoc(old(items), ArgsCode(args, old(asked)), CallCode(index, Syntax.Count(args)));
      case CallFun(f, args) => EmitInvoke(f, args);
    }

    /** The arguments, then the call of a function of the program. */
    method EmitInvoke(f: int, args: Exprs)
      requires Valid()
      modifies this`code, this`labelPos, this`numLabels, this`fixups, this`strFixups, this`items, this`asked
      ensures old(Stacked()) ==> Stacked()
      ensures Valid() && items == old(items) + (ArgsCode(args, old(asked)) + InvokeCode(f, Syntax.Count(args)))
      ensures asked == old(asked) + ArgLabels(args)
      decreases args, 2
    {
      hide Valid, Stacked, ArgsCode;
      EmitArgs(args);
      Emit(Call(f), Call(f));
      if Syntax.Count(args) > 0 {
        EmitOps(DropCode(Syntax.Count(args)));
      }
      Assoc(old(items), ArgsCode(args, old(asked)), [Op(Call(f))]);
      Assoc(old(items), ArgsCode(args, old(asked)) + [Op(Call(f))], DropCode(Syntax.Count(args)));
      Assoc(ArgsCode(args, old(asked)), [Op(Call(f))], DropCode(Syntax.Count(args)));
    }

    /** Each argument in turn, pushed. */
    method EmitArgs(es: Exprs)
      requires Valid()
      modifies this`code, this`labelPos, this`numLabels, this`fixups, this`strFixups, this`items, this`asked
      ensures old(Stacked()) ==> Stacked()
      ensures Valid() && items == old(items) + ArgsCode(es, old(asked)) && asked == old(asked) + ArgLabels(es)
      decreases es, 1
    {
      hide Valid, Stacked, ExprCode, Labels;
      match es
      case Nil =>
        assert old(items) + [] == old(items);
      case Cons(h, t) =>
        EmitExpr(h);
        EmitOps(PUSH);
        EmitArgs(t);
        ghost var c, d := ExprCode(h, old(asked)), ArgsCode(t, old(asked) + Labels(h));
        assert old(items) + c + PUSH + d == old(items) + (c + (PUSH + d));
    }

    /** Prefix operators. */
    method EmitUnary(e: Expr)
      requires Valid() && (e.Deref? || e.Unary?)
      modifies this`code, this`labelPos, this`numLabels, this`fixups, this`strFixups, this`items, this`asked
      ensures old(Stacked()) ==> Stacked()
      ensures Valid() && items == old(items) + ExprCode(e, old(asked)) && asked == old(asked) + Labels(e)
      decreases e, 0
    {
      hide Valid, Stacked, AllOps, UnaryCode;
      match e
      case Deref(p) =>
        EmitExpr(p);
        Emit(LoadInd, LoadInd);
        Assoc(old(items), ExprCode(p, old(asked)), [Op(LoadInd)]);
      case Unary(op, e1) =>
        EmitExpr(e1);
        OperatorsAreOps(Plus, op, Local(0));
        EmitOps(UnaryCode(op));
        Assoc(old(items), ExprCode(e1, old(asked)), UnaryCode(op));
    }

    /** Infix operators. */
    method EmitBinary(e: Expr)
      requires Valid() && (e.Binary? || e.AndAlso? || e.OrElse?)
      modifies this`code, this`labelPos, this`numLabels, this`fixups, this`strFixups, this`items, this`asked
      ensures old(Stacked()) ==> Stacked()
      ensures Valid() && items == old(items) + ExprCode(e, old(asked)) && asked == old(asked) + Labels(e)
      decreases e, 0
    {
      hide Valid, Stacked, AllOps, BinaryCode, ExprCode, Labels, OperandCode, ShortCode;
      ghost var nl := old(asked);
      InfixForm(e, nl);
      EmitExpr(e.l);
      if e.Binary? {
        OperatorsAreOps(e.bop, Negate, Local(0));
        EmitOperand(e.r, BinaryCode(e.bop));
        Assoc(old(items), ExprCode(e.l, nl), OperandCode(e.r, nl + Labels(e.l), BinaryCode(e.bop)));
      } else {
        var when := if e.AndAlso? then IfZero else IfNonZero;
        EmitShort(e.r, when);
        Assoc(old(items), ExprCode(e.l, nl), ShortCode(e.r, nl + Labels(e.l), when));
      }
    }

    /** push eax; the right operand; pop ecx; then `rest`. */
    method EmitOperand(e: Expr, rest: seq<Item>)
      requires Valid() && AllOps(rest)
      modifies this`code, this`labelPos, this`numLabels, this`fixups, this`strFixups, this`items, this`asked
      ensures old(Stacked()) ==> Stacked()
      ensures Valid() && items == old(items) + OperandCode(e, old(asked), rest) && asked == old(asked) + Labels(e)
      decreases e, 2
    {
      hide Valid, Stacked, ExprCode, Labels;
      EmitOps(PUSH);
      EmitExpr(e);
      EmitOps(POP);
      EmitOps(rest);
      ghost var c := ExprCode(e, old(asked));
      assert old(items) + PUSH + c + POP + rest == old(items) + (PUSH + (c + (POP + rest)));
    }

    /** The right side of `&&` or `||`, after the left side's value is in EAX. */
    method EmitShort(r: Expr, when: When)
      requires Valid()
      modifies this`code, this`labelPos, this`numLabels, this`fixups, this`strFixups, this`items, this`asked
      ensures old(Stacked()) ==> Stacked()
      ensures Valid() && items == old(items) + ShortCode(r, old(asked), when) && asked == old(asked) + Labels(r) + 2
      decreases r, 2
    {
      hide Valid, Stacked, ExprCode, Labels, TestAndGo, Verdict;
      var skip, g := NewLabel();
      EmitTest(when, skip, g);
      EmitExpr(r);
      EmitTest(when, skip, g);
      EmitVerdict(when, skip, g);
      ghost var c := ExprCode(r, old(asked) + 1);
      ghost var end := old(asked) + 1 + Labels(r);
      assert old(items) + TestAndGo(when, g) + c + TestAndGo(when, g) + Verdict(when, g, end)
        == old(items) + ShortTail(c, when, g, end);
    }

    /** The verdict of `&&` or `||`, around a fresh end label. */
    method EmitVerdict(when: When, skip: nat, ghost g: nat)
      requires Valid() && g < asked && (asked <= LABEL_MAX ==> skip == g)
      modifies this`code, this`labelPos, this`numLabels, this`fixups, this`strFixups, this`items, this`asked
      ensures old(Stacked()) ==> Stacked()
      ensures Valid() && items == old(items) + Verdict(when, g, old(asked)) && asked == old(asked) + 1
    {
      hide Valid, Stacked, Go;
      ghost var hit, miss := LoadImm(Truth(when == IfZero)), LoadImm(Truth(when != IfZero));
      Emit(LoadImm(Truth(when == IfZero)), hit);
      var end, h := NewLabel();
      EmitJump(end, h);
      PlaceLabel(skip, g);
      Emit(LoadImm(Truth(when != IfZero)), miss);
      PlaceLabel(end, h);
      assert old(items) + [Op(hit)] + Go(h) + [Label(g)] + [Op(miss)] + [Label(h)]
        == old(items) + ([Op(hit)] + (Go(h) + ([Label(g)] + ([Op(miss)] + [Label(h)]))));
    }

    /** Assignments. */
    method EmitAssign(e: Expr)
      requires Valid() && (e.Assign? || e.AssignOp? || e.StoreThrough?)
      modifies this`code, this`labelPos, this`numLabels, this`fixups, this`strFixups, this`items, this`asked
      ensures old(Stacked()) ==> Stacked()
      ensures Valid() && items == old(items) + ExprCode(e, old(asked)) && asked == old(asked) + Labels(e)
      decreases e, 0
    {
      hide Valid, Stacked, AllOps, BinaryCode, LoadVar, StoreVar;
      match e
      case Assign(x, e1) =>
        EmitExpr(e1);
        OperatorsAreOps(Plus, Negate, x);
        EmitOps([StoreVar(x)]);
        Assoc(old(items), ExprCode(e1, old(asked)), [StoreVar(x)]);
      case AssignOp(op, x, e1) =>
        OperatorsAreOps(op, Negate, x);
        EmitOps([LoadVar(x)]);
        var rest := BinaryCode(op) + [StoreVar(x)];
        EmitOperand(e1, rest);
        Assoc(old(items), [LoadVar(x)], OperandCode(e1, old(asked), rest));
      case StoreThrough(p, e1) =>
        EmitExpr(p);
        OperatorsAreOps(Plus, Negate, Local(0));
        EmitOperand(e1, [Op(StoreInd)]);
        Assoc(old(items), ExprCode(p, old(asked)), OperandCode(e1, old(asked) + Labels(p), [Op(StoreInd)]));
    }

    // ----- statements -----

    /** Enter a loop: record where break and continue go. */
    method PushLoop(end: int, cont: int, ghost g: Loop)
      requires Stacked() && |loops| < MAX_LOOP_DEPTH && (asked <= LABEL_MAX ==> g == Loop(end, cont))
      modifies this`breakLabels, this`continueLabels, this`loopDepth, this`loops
      ensures Stacked() && loops == old(loops) + [g]
    {
      if loopDepth < MAX_LOOP_DEPTH {
        breakLabels := breakLabels[loopDepth := end];
        continueLabels := continueLabels[loopDepth := cont];
      }
      loopDepth := loopDepth + 1;
      loops := loops + [g];
    }

    method PopLoop()
      requires Stacked() && |loops| > 0
      modifies this`loopDepth, this`loops
      ensures Stacked() && loops == old(loops)[..|old(loops)| - 1]
    {
      loopDepth := loopDepth - 1;
      loops := loops[..|loops| - 1];
    }

    /** The end of a `while` or `for`: back to `back`, and the end label. */
    method CloseLoop(back: int, ghost g: int, end: nat, ghost h: nat)
      requires Valid() && Stacked() && |loops| > 0
      requires h < asked && (asked <= LABEL_MAX ==> back == g && end == h)
      modifies this`code, this`labelPos, this`fixups, this`strFixups, this`items, this`loopDepth, this`loops
      ensures Valid() && items == old(items) + (Go(g) + [Label(h)])
      ensures Stacked() && loops == old(loops)[..|old(loops)| - 1]
    {
      hide Valid, Stacked, Go;
      EmitJump(back, g);
      PlaceLabel(end, h);
      PopLoop();
      Assoc(old(items), Go(g), [Label(h)]);
    }

    method EmitStmt(s: Stmt)
      requires Valid() && Stacked() && WellNested(s, |loops|) && |loops| + Nesting(s) <= MAX_LOOP_DEPTH
      modifies this`code, this`labelPos, this`numLabels, this`fixups, this`strFixups, this`items, this`asked
      modifies this`breakLabels, this`continueLabels, this`loopDepth, this`loops
      ensures Valid() && items == old(items) + StmtCode(s, old(asked), old(loops), leave)
      ensures asked == old(asked) + StmtLabels(s) && Stacked() && loops == old(loops)
      decreases s, 1
    {
      hide Valid, ExprCode, Labels, IfShape, IfElseShape, WhileShape, DoShape, ForCode;
      match s
      case Skip =>
        assert old(items) + [] == old(items);
      case Do(e) => EmitExpr(e);
      case DoCall(f, args) => EmitInvoke(f, args);
      case Seq(s1, s2) =>
        EmitStmt(s1);
        EmitStmt(s2);
        ghost var c1 := StmtCode(s1, old(asked), old(loops), leave);
        ghost var c2 := StmtCode(s2, old(asked) + StmtLabels(s1), old(loops), leave);
        Assoc(old(items), c1, c2);
      case If(_, _) => EmitIf(s);
      case IfElse(_, _, _) => EmitIf(s);
      case While(_, _) => EmitWhile(s);
      case DoWhile(_, _) => EmitDoWhile(s);
      case For(_, _, _, _) => EmitFor(s);
      case Break => EmitJump(breakLabels[loopDepth - 1], loops[|loops| - 1].brk);
      case Continue => EmitJump(continueLabels[loopDepth - 1], loops[|loops| - 1].cont);
      case Return(r) =>
        if r.TheExpr? {
          EmitExpr(r.e);
        }
        EmitJump(epilogue, leave);
        Assoc(old(items), OptCode(r, old(asked), []), Go(leave));
    }

    method EmitIf(s: Stmt)
      requires s.If? || s.IfElse?
      requires Valid() && Stacked() && WellNested(s, |loops|) && |loops| + Nesting(s) <= MAX_LOOP_DEPTH
      modifies this`code, this`labelPos, this`numLabels, this`fixups, this`strFixups, this`items, this`asked
      modifies this`breakLabels, this`continueLabels, this`loopDepth, this`loops
      ensures Valid() && items == old(items) + StmtCode(s, old(asked), old(loops), leave)
      ensures asked == old(asked) + StmtLabels(s) && Stacked() && loops == old(loops)
      decreases s, 0
    {
      hide Valid, Stacked, ExprCode, Labels, Go, TestAndGo, StmtCode, StmtLabels, IfShape, IfElseShape, WellNested,
           Nesting;
      ghost var nl := old(asked);
      BranchForm(s, nl, loops, leave);
      EmitExpr(s.c);
      var no, g := NewLabel();
      EmitTest(IfZero, no, g);
      EmitStmt(s.s);
      ghost var test, yes := ExprCode(s.c, nl), StmtCode(s.s, g + 1, old(loops), leave);
      if s.IfElse? {
        var end, h := NewLabel();
        EmitJump(end, h);
        PlaceLabel(no, g);
        EmitStmt(s.t);
        PlaceLabel(end, h);
        IfElseAssoc(old(items), g, h, test, yes, StmtCode(s.t, h + 1, old(loops), leave));
      } else {
        PlaceLabel(no, g);
        IfAssoc(old(items), g, test, yes);
      }
    }

    method EmitWhile(s: Stmt)
      requires s.While?
      requires Valid() && Stacked() && WellNested(s, |loops|) && |loops| + Nesting(s) <= MAX_LOOP_DEPTH
      modifies this`code, this`labelPos, this`numLabels, this`fixups, this`strFixups, this`items, this`asked
      modifies this`breakLabels, this`continueLabels, this`loopDepth, this`loops
      ensures Valid() && items == old(items) + StmtCode(s, old(asked), old(loops), leave)
      ensures asked == old(asked) + StmtLabels(s) && Stacked() && loops == old(loops)
      decreases s, 0
    {
      hide Valid, Stacked, ExprCode, Labels, Go, TestAndGo, WhileShape, StmtCode, StmtLabels, WellNested, Nesting;
      ghost var nl := old(asked);
      LoopForm(s, nl, loops, leave);
      var top, t := NewLabel();
      var end, h := NewLabel();
      PushLoop(end, top, Loop(h, t));
      PlaceLabel(top, t);
      EmitExpr(s.c);
      EmitTest(IfZero, end, h);
      EmitStmt(s.s);
      CloseLoop(top, t, end, h);
      WhileAssoc(old(items), t, h, ExprCode(s.c, nl + 2),
                 StmtCode(s.s, nl + 2 + Labels(s.c), old(loops) + [Loop(h, t)], leave));
    }

    method EmitDoWhile(s: Stmt)
      requires s.DoWhile?
      requires Valid() && Stacked() && WellNested(s, |loops|) && |loops| + Nesting(s) <= MAX_LOOP_DEPTH
      modifies this`code, this`labelPos, this`numLabels, this`fixups, this`strFixups, this`items, this`asked
      modifies this`breakLabels, this`continueLabels, this`loopDepth, this`loops
      ensures Valid() && items == old(items) + StmtCode(s, old(asked), old(loops), leave)
      ensures asked == old(asked) + StmtLabels(s) && Stacked() && loops == old(loops)
      decreases s, 0
    {
      hide Valid, Stacked, ExprCode, Labels, TestAndGo, DoShape, StmtCode, StmtLabels, WellNested, Nesting;
      ghost var nl := old(asked);
      LoopForm(s, nl, loops, leave);
      var top, t := NewLabel();
      var end, h := NewLabel();
      var cont, c := NewLabel();
      PushLoop(end, cont, Loop(h, c));
      PlaceLabel(top, t);
      EmitStmt(s.s);
      PlaceLabel(cont, c);
      EmitExpr(s.c);
      EmitTest(IfNonZero, top, t);
      PlaceLabel(end, h);
      PopLoop();
      DoAssoc(old(items), t, h, c, StmtCode(s.s, nl + 3, old(loops) + [Loop(h, c)], leave),
              ExprCode(s.c, nl + 3 + StmtLabels(s.s)));
    }

    method EmitFor(s: Stmt)
      requires s.For?
      requires Valid() && Stacked() && WellNested(s, |loops|) && |loops| + Nesting(s) <= MAX_LOOP_DEPTH
      modifies this`code, this`labelPos, this`numLabels, this`fixups, this`strFixups, this`items, this`asked
      modifies this`breakLabels, this`continueLabels, this`loopDepth, this`loops
      ensures Valid() && items == old(items) + StmtCode(s, old(asked), old(loops), leave)
      ensures asked == old(asked) + StmtLabels(s) && Stacked() && loops == old(loops)
      decreases s, 0
    {
      hide Valid, Stacked, ForCode, OptCode, OptLabels, ForLabels, AllOps;
      FrameIsOps();
      EmitOpt(s.init, []);
      EmitForLoop(s);
      Assoc(old(items), OptCode(s.init, old(asked), []),
            ForCode(s.cond, s.step, s.s, old(asked) + OptLabels(s.init), old(loops), leave));
    }

    /** The step of a `for`, jumped over by the way into the body. */
    method EmitForStep(step: OptExpr, top: nat, ghost t: nat, stepL: nat, ghost st: nat)
      requires Valid() && t < asked && st < asked && (asked <= LABEL_MAX ==> top == t && stepL == st)
      modifies this`code, this`labelPos, this`numLabels, this`fixups, this`strFixups, this`items, this`asked
      ensures old(Stacked()) ==> Stacked()
      ensures Valid() && items == old(items) + StepCode(t, st, old(asked), OptCode(step, old(asked) + 1, []))
      ensures asked == old(asked) + 1 + OptLabels(step)
    {
      hide Valid, Stacked, Go, OptCode, OptLabels, AllOps;
      FrameIsOps();
      var bodyL, b := NewLabel();
      EmitJump(bodyL, b);
      PlaceLabel(stepL, st);
      EmitOpt(step, []);
      EmitJump(top, t);
      PlaceLabel(bodyL, b);
      ghost var next := OptCode(step, b + 1, []);
      assert old(items) + Go(b) + [Label(st)] + next + Go(t) + [Label(b)]
        == old(items) + (Go(b) + ([Label(st)] + (next + (Go(t) + [Label(b)]))));
    }

    /** A `for` after its initialiser. */
    method EmitForLoop(s: Stmt)
      requires s.For?
      requires Valid() && Stacked() && WellNested(s.s, |loops| + 1) && |loops| + 1 + Nesting(s.s) <= MAX_LOOP_DEPTH
      modifies this`code, this`labelPos, this`numLabels, this`fixups, this`strFixups, this`items, this`asked
      modifies this`breakLabels, this`continueLabels, this`loopDepth, this`loops
      ensures Valid() && items == old(items) + ForCode(s.cond, s.step, s.s, old(asked), old(loops), leave)
      ensures asked == old(asked) + ForLabels(s.cond, s.step, s.s) && Stacked() && loops == old(loops)
      decreases s.s, 2
    {
      hide Valid, Stacked, Go, TestAndGo, ForShape, StepCode, StmtCode, StmtLabels, OptCode, OptLabels, WellNested,
           Nesting, AllOps;
      FrameIsOps();
      ghost var n0 := asked;
      var top, t := NewLabel();
      var end, h := NewLabel();
      var stepL, st := NewLabel();
      PushLoop(end, stepL, Loop(h, st));
      PlaceLabel(top, t);
      EmitOpt(s.cond, [Op(LoadImm(1))]);
      EmitTest(IfZero, end, h);
      ghost var b := asked;
      EmitForStep(s.step, top, t, stepL, st);
      EmitStmt(s.s);
      CloseLoop(stepL, st, end, h);
      ForAssoc(old(items), t, h, st, b, OptCode(s.cond, n0 + 3, [Op(LoadImm(1))]),
               OptCode(s.step, b + 1, []), StmtCode(s.s, b + 1 + OptLabels(s.step), old(loops) + [Loop(h, st)], leave));
    }

    /** An optional expression, or `missing` in its place. */
    method EmitOpt(oe: OptExpr, missing: seq<Item>)
      requires Valid() && AllOps(missing)
      modifies this`code, this`labelPos, this`numLabels, this`fixups, this`strFixups, this`items, this`asked
      ensures old(Stacked()) ==> Stacked()
      ensures Valid() && items == old(items) + OptCode(oe, old(asked), missing) && asked == old(asked) + OptLabels(oe)
    {
      hide Valid, Stacked, ExprCode, Labels, AllOps;
      match oe
      case NoExpr => EmitOps(missing);
      case TheExpr(e) => EmitExpr(e);
    }

    /** The offset the next instruction gets. */
    method Position() returns (n: nat)
      requires Valid()
      ensures Sound() ==> n == |Bytes(items)|
    {
      n := |code|;
    }

    /** The epilogue label, where every return of this function goes. */
    method EnterFunction()
      requires Valid() && Stacked() && loops == []
      modifies this`numLabels, this`labelPos, this`asked, this`epilogue, this`leave
      ensures Valid() && Stacked() && leave == old(asked) && asked == old(asked) + 1
      ensures asked <= LABEL_MAX ==> epilogue == leave
    {
      hide Valid;
      epilogue, leave := NewLabel();
    }

    /** A whole function; its code offset is what calls and the entry jump go to. */
    method EmitFunction(s: Stmt) returns (offset: nat)
      requires Valid() && Stacked() && loops == [] && WellNested(s, 0) && Nesting(s) <= MAX_LOOP_DEPTH
      modifies this
      ensures Valid() && items == old(items) + FunctionCode(s, old(asked)) && asked == old(asked) + 1 + StmtLabels(s)
      ensures Stacked() && loops == [] && (old(Sound()) ==> offset == |Bytes(old(items))|)
    {
      hide Valid, StmtCode, AllOps, StmtLabels, WellNested, Nesting, Bytes, Fits;
      FrameIsOps();
      ghost var nl := asked;
      offset := Position();
      EnterFunction();
      EmitOps(PROLOGUE);
      EmitStmt(s);
      PlaceLabel(epilogue, old(asked));
      EmitOps(EPILOGUE);
      ghost var body := StmtCode(s, nl + 1, [], nl);
      assert old(items) + PROLOGUE + body + [Label(nl)] + EPILOGUE
        == old(items) + (PROLOGUE + (body + ([Label(nl)] + EPILOGUE)));
    }
  }

  lemma RawOperand(i: Instr)
    ensures OperandAt(i) <= |Encode(Raw(i))|
  {}

  lemma Assoc(a: seq<Item>, b: seq<Item>, c: seq<Item>)
    ensures (a + b) + c == a + (b + c)
  {}

  /** The code of an operand evaluated while the other one is on the stack. */
  function OperandCode(e: Expr, nl: nat, rest: seq<Item>): seq<Item> {
    PUSH + (ExprCode(e, nl) + (POP + rest))
  }

  /** The step of a `for` between the jump to the body and the body's label. */
  function StepCode(top: int, stepL: int, bodyL: int, next: seq<Item>): seq<Item> {
    Go(bodyL) + ([Label(stepL)] + (next + (Go(top) + [Label(bodyL)])))
  }

  function ShortCode(r: Expr, nl: nat, when: When): seq<Item> {
    ShortTail(ExprCode(r, nl + 1), when, nl, nl + 1 + Labels(r))
  }


  lemma FrameIsOps()
    ensures AllOps(PROLOGUE) && AllOps(EPILOGUE) && AllOps([]) && AllOps([Op(LoadImm(1))])
  {}

  lemma IfAssoc(o: seq<Item>, no: int, test: seq<Item>, body: seq<Item>)
    ensures o + test + TestAndGo(IfZero, no) + body + [Label(no)] == o + IfShape(no, test, body)
  {}

  lemma IfElseAssoc(o: seq<Item>, no: int, end: int, test: seq<Item>, yesBody: seq<Item>, noBody: seq<Item>)
    ensures o + test + TestAndGo(IfZero, no) + yesBody + Go(end) + [Label(no)] + noBody + [Label(end)]
         == o + IfElseShape(no, end, test, yesBody, noBody)
  {}

  lemma WhileAssoc(o: seq<Item>, top: int, end: int, test: seq<Item>, body: seq<Item>)
    ensures o + [Label(top)] + test + TestAndGo(IfZero, end) + body + (Go(top) + [Label(end)])
         == o + WhileShape(top, end, test, body)
  {}

  lemma DoAssoc(o: seq<Item>, top: int, end: int, cont: int, body: seq<Item>, test: seq<Item>)
    ensures o + [Label(top)] + body + [Label(cont)] + test + TestAndGo(IfNonZero, top) + [Label(end)]
         == o + DoShape(top, end, cont, body, test)
  {}

  lemma ForAssoc(o: seq<Item>, top: int, end: int, stepL: int, bodyL: int, test: seq<Item>, next: seq<Item>,
                 body: seq<Item>)
    ensures o + [Label(top)] + test + TestAndGo(IfZero, end) + StepCode(top, stepL, bodyL, next) + body +
            (Go(stepL) + [Label(end)])
         == o + ForShape(top, end, stepL, bodyL, test, next, body)
  {}

  lemma BranchForm(s: Stmt, nl: nat, loops: seq<Loop>, ret: int)
    requires WellNested(s, |loops|) && (s.If? || s.IfElse?)
    ensures WellNested(s.s, |loops|) && (s.IfElse? ==> WellNested(s.t, |loops|))
    ensures Nesting(s.s) <= Nesting(s) && (s.IfElse? ==> Nesting(s.t) <= Nesting(s))
    ensures s.If? ==>
      var no := nl + Labels(s.c);
      StmtLabels(s) == Labels(s.c) + 1 + StmtLabels(s.s) &&
      StmtCode(s, nl, loops, ret) == IfShape(no, ExprCode(s.c, nl), StmtCode(s.s, no + 1, loops, ret))
    ensures s.IfElse? ==>
      var no := nl + Labels(s.c);
      var end := no + 1 + StmtLabels(s.s);
      StmtLabels(s) == Labels(s.c) + 1 + StmtLabels(s.s) + 1 + StmtLabels(s.t) &&
      StmtCode(s, nl, loops, ret) ==
        IfElseShape(no, end, ExprCode(s.c, nl), StmtCode(s.s, no + 1, loops, ret), StmtCode(s.t, end + 1, loops, ret))
  {}

  lemma LoopForm(s: Stmt, nl: nat, loops: seq<Loop>, ret: int)
    requires WellNested(s, |loops|) && (s.While? || s.DoWhile?)
    ensures WellNested(s.s, |loops| + 1) && Nesting(s) == Nesting(s.s) + 1
    ensures s.While? ==>
      StmtLabels(s) == 2 + Labels(s.c) + StmtLabels(s.s) &&
      StmtCode(s, nl, loops, ret) ==
        WhileShape(nl, nl + 1, ExprCode(s.c, nl + 2),
                   StmtCode(s.s, nl + 2 + Labels(s.c), loops + [Loop(nl + 1, nl)], ret))
    ensures s.DoWhile? ==>
      StmtLabels(s) == 3 + StmtLabels(s.s) + Labels(s.c) &&
      StmtCode(s, nl, loops, ret) ==
        DoShape(nl, nl + 1, nl + 2, StmtCode(s.s, nl + 3, loops + [Loop(nl + 1, nl + 2)], ret),
                ExprCode(s.c, nl + 3 + StmtLabels(s.s)))
  {
    hide WhileShape, DoShape, ExprCode, Labels;
  }

  lemma InfixForm(e: Expr, nl: nat)
    requires e.Binary? || e.AndAlso? || e.OrElse?
    ensures Labels(e) == Labels(e.l) + Labels(e.r) + if e.Binary? then 0 else 2
    ensures e.Binary? ==> ExprCode(e, nl) == ExprCode(e.l, nl) + OperandCode(e.r, nl + Labels(e.l), BinaryCode(e.bop))
    ensures !e.Binary? ==>
      ExprCode(e, nl) == ExprCode(e.l, nl) + ShortCode(e.r, nl + Labels(e.l), if e.AndAlso? then IfZero else IfNonZero)
  {
    hide ShortTail, BinaryCode;
  }
}
