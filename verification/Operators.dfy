/** The straight-line operator sequences compute the C operators. */
module Operators {
  import opened Basics
  import opened Word32
  import opened Machine
  import opened Syntax
  import opened Compile

  /** Two states that differ at most in EAX, ECX, EDX, EBX, the flags and the program counter. */
  ghost predicate SameFrame(m: State, m': State) {
    m'.mem == m.mem && m'.trace == m.trace && m'.esp == m.esp && m'.ebp == m.ebp &&
    m'.esi == m.esi && m'.edi == m.edi
  }

  lemma RunNone(p: Prog, m: State)
    ensures Run(p, m, 0) == Some(m)
  {}

  lemma Then(p: Prog, m: State, a: nat, m1: State, b: nat, m2: State)
    requires Run(p, m, a) == Some(m1) && Run(p, m1, b) == Some(m2)
    ensures Run(p, m, a + b) == Some(m2)
  {
    hide Run;
    RunAdd(p, m, a, m1, b);
  }

  /** One plain (non-jumping) instruction at the program counter. */
  lemma Plain(p: Prog, m: State, i: Instr, m': State)
    requires At(p, m.pc, [Op(i)]) && !i.Jump?
    requires Exec(p.kernel, p.dbase, p.sbase, i, m) == Some(m')
    ensures Run(p, m, 1) == Some(m'.(pc := m.pc + 1))
  {
    AtIndex(p, m.pc, [Op(i)], 0);
  }

  /** A plain instruction after `n` steps, with the rest of the code following it. */
  lemma Next(p: Prog, m0: State, n: nat, m: State, i: Instr, rest: seq<Item>, m': State)
    requires Run(p, m0, n) == Some(m)
    requires At(p, m.pc, [Op(i)] + rest) && !i.Jump?
    requires Exec(p.kernel, p.dbase, p.sbase, i, m) == Some(m')
    ensures Run(p, m0, n + 1) == Some(m'.(pc := m.pc + 1))
    ensures At(p, m.pc + 1, rest)
  {
    hide Run;
    AtSplit(p, m.pc, [Op(i)], rest);
    Plain(p, m, i, m');
    Then(p, m0, n, m, 1, m'.(pc := m.pc + 1));
  }

  lemma CompareMeaning(cc: Cond, a: Word, b: Word)
    ensures Holds(cc, CompareFlags(a, b)) == Compares(cc, Signed(a), Signed(b))
  {}

  lemma BitsAndSelf(a: nat, n: nat)
    requires a < Pow2(n)
    ensures Bits(BitAnd, a, a, n) == a
  {}

  lemma TestSelf(a: Word)
    ensures Bitwise(BitAnd, a, a) == a
  {
    Pow2Of32();
    BitsAndSelf(a, 32);
  }

  lemma LowByte(a: Word, b: nat)
    requires b <= 1
    ensures (a - a % 256 + b) % 256 == b
  {}

  /** After `cmp` or `test`: setcc and movzx leave 0 or 1 in EAX. */
  lemma {:induction false} SetTruth(p: Prog, m0: State, n: nat, m: State, cc: Cond) returns (m': State)
    requires Run(p, m0, n) == Some(m) && m.flags.Some?
    requires At(p, m.pc, [Op(Setcc(cc)), Op(Movzx)])
    ensures Run(p, m0, n + 2) == Some(m') && SameFrame(m, m') && m'.pc == m.pc + 2
    ensures m'.eax == Truth(Holds(cc, m.flags.value))
  {
    hide Run, Step;
    assert [Op(Setcc(cc)), Op(Movzx)] == [Op(Setcc(cc))] + [Op(Movzx)];
    var m1 := Exec(p.kernel, p.dbase, p.sbase, Setcc(cc), m).value;
    Next(p, m0, n, m, Setcc(cc), [Op(Movzx)], m1);
    m1 := m1.(pc := m.pc + 1);
    assert [Op(Movzx)] == [Op(Movzx)] + [];
    LowByte(m.eax, Truth(Holds(cc, m.flags.value)));
    m' := m1.(eax := m1.eax % 256);
    Next(p, m0, n + 1, m1, Movzx, [], m');
    m' := m'.(pc := m.pc + 2);
  }

  lemma UnaryRuns(p: Prog, op: UnOp, m: State) returns (n: nat, m': State)
    requires At(p, m.pc, UnaryCode(op))
    ensures Run(p, m, n) == Some(m') && SameFrame(m, m') && m'.pc == m.pc + |UnaryCode(op)|
    ensures m'.eax == UnaryValue(op, m.eax)
  {
    hide Run, Step, Bitwise;
    NegateSigned(m.eax);
    RunNone(p, m);
    match op
    case Negate =>
      n, m' := 1, m.(eax := Wrap(0 - m.eax), flags := None);
      Plain(p, m, NegEax, m');
      m' := m'.(pc := m.pc + 1);
    case BitwiseNot =>
      n, m' := 1, m.(eax := MODULUS - 1 - m.eax);
      Plain(p, m, NotEax, m');
      m' := m'.(pc := m.pc + 1);
    case LogicalNot =>
      assert UnaryCode(op) == [Op(Alu(Test, Eax, Eax))] + [Op(Setcc(E)), Op(Movzx)];
      TestSelf(m.eax);
      var m1 := ExecAlu(Test, Eax, Eax, m);
      Next(p, m, 0, m, Alu(Test, Eax, Eax), [Op(Setcc(E)), Op(Movzx)], m1);
      m' := SetTruth(p, m, 1, m1.(pc := m.pc + 1), E);
      n := 3;
  }

  lemma SignExtended(a: Word)
    ensures Signed(if a >= HALF then MODULUS - 1 else 0) * MODULUS + a == Signed(a)
  {}

  /** xchg, cdq, idiv: ECX over EAX, quotient in EAX and remainder in EDX. */
  lemma {:induction false} DivideRuns(p: Prog, m: State, rest: seq<Item>) returns (m': State)
    requires At(p, m.pc, [Op(Xchg), Op(Cdq), Op(Idiv)] + rest)
    requires Signed(m.eax) != 0 && FitsSigned(TruncDiv(Signed(m.ecx), Signed(m.eax)))
    ensures Run(p, m, 3) == Some(m') && SameFrame(m, m') && m'.pc == m.pc + 3
    ensures m'.eax == Wrap(TruncDiv(Signed(m.ecx), Signed(m.eax)))
    ensures m'.edx == Wrap(TruncRem(Signed(m.ecx), Signed(m.eax)))
    ensures At(p, m.pc + 3, rest)
  {
    hide Run, Step, TruncDiv, TruncRem;
    RunNone(p, m);
    assert [Op(Xchg), Op(Cdq), Op(Idiv)] + rest == [Op(Xchg)] + ([Op(Cdq)] + ([Op(Idiv)] + rest));
    var m1 := m.(eax := m.ecx, ecx := m.eax);
    Next(p, m, 0, m, Xchg, [Op(Cdq)] + ([Op(Idiv)] + rest), m1);
    m1 := m1.(pc := m.pc + 1);
    var m2 := m1.(edx := if m1.eax >= HALF then MODULUS - 1 else 0);
    Next(p, m, 1, m1, Cdq, [Op(Idiv)] + rest, m2);
    m2 := m2.(pc := m.pc + 2);
    SignExtended(m1.eax);
    m' := ExecIdiv(m2).value;
    Next(p, m, 2, m2, Idiv, rest, m');
    m' := m'.(pc := m.pc + 3);
  }

  lemma LowFive(a: Word)
    ensures a % 256 % 32 == a % 32
  {}

  lemma {:induction false} ShiftRuns(p: Prog, left: bool, m: State) returns (m': State)
    requires At(p, m.pc, [Op(Xchg), Op(if left then ShlCl else ShrCl)])
    ensures Run(p, m, 2) == Some(m') && SameFrame(m, m') && m'.pc == m.pc + 2
    ensures left ==> m'.eax == Wrap(m.ecx * Pow2(m.eax % 32))
    ensures !left ==> m'.eax == Wrap(m.ecx / Pow2(m.eax % 32))
  {
    hide Run, Step, Pow2, At;
    RunNone(p, m);
    var i := if left then ShlCl else ShrCl;
    assert [Op(Xchg), Op(i)] == [Op(Xchg)] + [Op(i)];
    var m1 := m.(eax := m.ecx, ecx := m.eax);
    Next(p, m, 0, m, Xchg, [Op(i)], m1);
    m1 := m1.(pc := m.pc + 1);
    LowFive(m.eax);
    var v := if left then Wrap(m.ecx * Pow2(m.eax % 32)) else Wrap(m.ecx / Pow2(m.eax % 32));
    var m2 := m1.(eax := v, flags := None);
    assert Exec(p.kernel, p.dbase, p.sbase, i, m1) == Some(m2);
    Plain(p, m1, i, m2);
    m' := m2.(pc := m.pc + 2);
    Then(p, m, 1, m1, 1, m');
  }

  /** The operators that are a single instruction. */
  function SoleInstr(op: BinOp): Option<Instr> {
    match op
    case Plus => Some(Alu(Add, Eax, Ecx))
    case Times => Some(Imul)
    case BitwiseAnd => Some(Alu(And, Eax, Ecx))
    case BitwiseOr => Some(Alu(Or, Eax, Ecx))
    case BitwiseXor => Some(Alu(Xor, Eax, Ecx))
    case _ => None
  }

  lemma SoleRuns(p: Prog, op: BinOp, m: State) returns (m': State)
    requires SoleInstr(op).Some? && At(p, m.pc, [Op(SoleInstr(op).value)])
    ensures Run(p, m, 1) == Some(m') && SameFrame(m, m') && m'.pc == m.pc + 1
    ensures Some(m'.eax) == BinaryValue(op, m.ecx, m.eax)
  {
    hide Run, Step, Bitwise;
    var i := SoleInstr(op).value;
    var m1 := Exec(p.kernel, p.dbase, p.sbase, i, m).value;
    match op {
      case Plus => WrapSigned(m.ecx, m.eax);
      case Times =>
      case BitwiseAnd => BitwiseCommute(BitAnd, m.eax, m.ecx);
      case BitwiseOr => BitwiseCommute(BitOr, m.eax, m.ecx);
      case BitwiseXor => BitwiseCommute(BitXor, m.eax, m.ecx);
    }
    Plain(p, m, i, m1);
    m' := m1.(pc := m.pc + 1);
  }

  lemma MinusRuns(p: Prog, m: State) returns (m': State)
    requires At(p, m.pc, BinaryCode(Minus))
    ensures Run(p, m, 2) == Some(m') && SameFrame(m, m') && m'.pc == m.pc + 2
    ensures m'.eax == Wrap(Signed(m.ecx) - Signed(m.eax))
  {
    hide Run;
    WrapSigned(m.ecx, m.eax);
    RunNone(p, m);
    assert BinaryCode(Minus) == [Op(Alu(Sub, Ecx, Eax))] + [Op(Mov(Eax, Ecx))];
    var m1 := ExecAlu(Sub, Ecx, Eax, m);
    Next(p, m, 0, m, Alu(Sub, Ecx, Eax), [Op(Mov(Eax, Ecx))], m1);
    m1 := m1.(pc := m.pc + 1);
    assert [Op(Mov(Eax, Ecx))] == [Op(Mov(Eax, Ecx))] + [];
    m' := m1.(eax := m1.ecx);
    Next(p, m, 1, m1, Mov(Eax, Ecx), [], m');
    m' := m'.(pc := m.pc + 2);
  }

  lemma {:induction false} ModuloRuns(p: Prog, m: State) returns (m': State)
    requires At(p, m.pc, BinaryCode(Modulo))
    requires BinaryValue(Modulo, m.ecx, m.eax).Some?
    ensures Run(p, m, 4) == Some(m') && SameFrame(m, m') && m'.pc == m.pc + 4
    ensures m'.eax == Wrap(TruncRem(Signed(m.ecx), Signed(m.eax)))
  {
    hide Run;
    assert BinaryCode(Modulo) == [Op(Xchg), Op(Cdq), Op(Idiv)] + [Op(Mov(Eax, Edx))];
    var m1 := DivideRuns(p, m, [Op(Mov(Eax, Edx))]);
    assert [Op(Mov(Eax, Edx))] == [Op(Mov(Eax, Edx))] + [];
    m' := m1.(eax := m1.edx);
    Next(p, m, 3, m1, Mov(Eax, Edx), [], m');
    m' := m'.(pc := m.pc + 4);
  }

  lemma CompareRuns(p: Prog, cc: Cond, m: State) returns (m': State)
    requires At(p, m.pc, BinaryCode(Compare(cc)))
    ensures Run(p, m, 3) == Some(m') && SameFrame(m, m') && m'.pc == m.pc + 3
    ensures m'.eax == Truth(Compares(cc, Signed(m.ecx), Signed(m.eax)))
  {
    hide Run;
    CompareMeaning(cc, m.ecx, m.eax);
    RunNone(p, m);
    assert BinaryCode(Compare(cc)) == [Op(Alu(Cmp, Ecx, Eax))] + [Op(Setcc(cc)), Op(Movzx)];
    var m1 := ExecAlu(Cmp, Ecx, Eax, m);
    Next(p, m, 0, m, Alu(Cmp, Ecx, Eax), [Op(Setcc(cc)), Op(Movzx)], m1);
    m' := SetTruth(p, m, 1, m1.(pc := m.pc + 1), cc);
  }

  /** Every binary operator: left in ECX, right in EAX, result in EAX. */
  lemma BinaryRuns(p: Prog, op: BinOp, m: State) returns (n: nat, m': State)
    requires At(p, m.pc, BinaryCode(op))
    requires BinaryValue(op, m.ecx, m.eax).Some?
    ensures Run(p, m, n) == Some(m') && SameFrame(m, m') && m'.pc == m.pc + |BinaryCode(op)|
    ensures m'.eax == BinaryValue(op, m.ecx, m.eax).value
  {
    hide Run;
    match op
    case Minus =>
      n := 2;
      m' := MinusRuns(p, m);
    case Divide =>
      assert BinaryCode(op) == [Op(Xchg), Op(Cdq), Op(Idiv)] + [];
      n := 3;
      m' := DivideRuns(p, m, []);
    case Modulo =>
      n := 4;
      m' := ModuloRuns(p, m);
    case ShiftLeft =>
      n := 2;
      m' := ShiftRuns(p, true, m);
    case ShiftRight =>
      n := 2;
      m' := ShiftRuns(p, false, m);
    case Compare(cc) =>
      n := 3;
      m' := CompareRuns(p, cc, m);
    case _ =>
      n := 1;
      m' := SoleRuns(p, op, m);
  }
}
