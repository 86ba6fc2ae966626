/** The machine encoding of the emitted instructions, and the disassembler's decoder. */
module Encoding {
  import opened Basics
  import opened Word32
  import opened Machine

  function RegNo(r: Reg): byte {
    match r
    case Eax => 0
    case Ecx => 1
    case Edx => 2
    case Ebx => 3
    case Esp => 4
    case Ebp => 5
    case Esi => 6
    case Edi => 7
  }

  /** Register-direct ModR/M: mod 11, reg = source, r/m = destination. */
  function ModRM(dst: Reg, src: Reg): byte { 0xC0 + 8 * RegNo(src) + RegNo(dst) }

  function AluOpcode(op: AluOp): byte {
    match op
    case Add => 0x01
    case Or => 0x09
    case And => 0x21
    case Sub => 0x29
    case Xor => 0x31
    case Cmp => 0x39
    case Test => 0x85
  }

  function CondCode(cc: Cond): byte {
    match cc
    case E => 0x94
    case Ne => 0x95
    case L => 0x9C
    case Ge => 0x9D
    case Le => 0x9E
    case G => 0x9F
  }

  function Read32(c: seq<byte>, k: nat): (r: Word)
    requires k + 4 <= |c|
  {
    var b0: int, b1: int, b2: int, b3: int := c[k], c[k + 1], c[k + 2], c[k + 3];
    b0 + 0x100 * b1 + 0x1_0000 * b2 + 0x100_0000 * b3
  }

  lemma {:induction false} ReadDword(c: seq<byte>, k: nat, x: int)
    requires k + 4 <= |c| && c[k..k + 4] == Dword(x)
    ensures Read32(c, k) == Wrap(x)
  {
    hide Wrap;
    var d := c[k..k + 4];
    assert c[k] == d[0] && c[k + 1] == d[1] && c[k + 2] == d[2] && c[k + 3] == d[3];
    DwordDigits(Wrap(x));
  }

  /** The bytes of an instruction; displacements and addresses are stored as they are. */
  function Encode(i: Instr): seq<byte> {
    match i
    case Push(r) => [0x50 + RegNo(r)]
    case Pop(r) => [0x58 + RegNo(r)]
    case Mov(d, s) => [0x89, ModRM(d, s)]
    case Alu(op, d, s) => [AluOpcode(op), ModRM(d, s)]
    case LoadImm(v) => [0xB8] + Dword(v)
    case LoadStr(o) => [0xB8] + Dword(o)
    case LoadAbs(a) => [0xA1] + Dword(a)
    case StoreAbs(a) => [0xA3] + Dword(a)
    case LoadLocal(d) => [0x8B, 0x85] + Dword(d)
    case StoreLocal(d) => [0x89, 0x85] + Dword(d)
    case LeaLocal(d) => [0x8D, 0x85] + Dword(d)
    case LoadStack(r, d) => [0x8B, 0x44 + 8 * RegNo(r), 0x24, d % 256]
    case StoreStack(r, d) => [0x89, 0x44 + 8 * RegNo(r), 0x24, d % 256]
    case LoadInd => [0x8B, 0x00]
    case StoreInd => [0x89, 0x01]
    case LoadIndByte => [0x0F, 0xB6, 0x00]
    case StoreIndByte => [0x88, 0x01]
    case AddEsp(n) => [0x81, 0xC4] + Dword(n)
    case SubEsp(n) => [0x81, 0xEC] + Dword(n)
    case Imul => [0x0F, 0xAF, 0xC1]
    case Xchg => [0x91]
    case Cdq => [0x99]
    case Idiv => [0xF7, 0xF9]
    case ShlCl => [0xD3, 0xE0]
    case ShrCl => [0xD3, 0xE8]
    case ShlImm(b) => [0xC1, 0xE0, b % 256]
    case NegEax => [0xF7, 0xD8]
    case NotEax => [0xF7, 0xD0]
    case Setcc(cc) => [0x0F, CondCode(cc), 0xC0]
    case Movzx => [0x0F, 0xB6, 0xC0]
    case Jump(Always, rel) => [0xE9] + Dword(rel)
    case Jump(IfZero, rel) => [0x0F, 0x84] + Dword(rel)
    case Jump(IfNonZero, rel) => [0x0F, 0x85] + Dword(rel)
    case Call(rel) => [0xE8] + Dword(rel)
    case Ret => [0xC3]
    case Int80 => [0xCD, 0x80]
  }

  /** The operand combinations the code generator has an emitter for. */
  predicate Emitted(i: Instr) {
    match i
    case Push(r) => r in {Eax, Ebx, Esi, Edi, Ebp}
    case Pop(r) => r in {Eax, Ecx, Ebx, Ebp, Esi, Edi}
    case Mov(d, s) => (d, s) in {(Eax, Ecx), (Eax, Edx), (Ebp, Esp), (Esp, Ebp), (Ebx, Esp)}
    case Alu(op, d, s) =>
      (match op
       case Add => d == Eax && s == Ecx
       case Sub => d == Ecx && s == Eax
       case And => d == Eax && s == Ecx
       case Or => d == Eax && s == Ecx
       case Xor => d == Eax && s == Ecx
       case Cmp => d == Ecx && s == Eax
       case Test => d == Eax && s == Eax)
    case LoadLocal(d) => FitsSigned(d)
    case StoreLocal(d) => FitsSigned(d)
    case LeaLocal(d) => FitsSigned(d)
    case LoadStack(r, d) => r in {Eax, Ecx} && 0 <= d < 128
    case StoreStack(r, d) => r in {Eax, Ecx} && 0 <= d < 128
    case ShlImm(b) => b < 256
    case Jump(_, rel) => FitsSigned(rel)
    case Call(rel) => FitsSigned(rel)
    case _ => true
  }

  // ----- the disassembler -----

  datatype Decoded =
    | Insn(i: Instr, len: nat)
    | PushByte(v: byte)
    | Interrupt(n: byte)
    | Unknown(b: byte)

  /** Bytes an entry of the listing takes. */
  function Length(d: Decoded): nat {
    match d
    case Insn(_, n) => n
    case PushByte(_) => 2
    case Interrupt(_) => 2
    case Unknown(_) => 1
  }

  function Disp8(b: byte): int { if b < 128 then b else b - 256 }

  function Decode(c: seq<byte>): (d: Decoded)
    requires |c| >= 6
    ensures 1 <= Length(d) <= 6
  {
    var op, m := c[0], c[1];
    if op == 0x50 then Insn(Push(Eax), 1)
    else if op == 0x53 then Insn(Push(Ebx), 1)
    else if op == 0x56 then Insn(Push(Esi), 1)
    else if op == 0x57 then Insn(Push(Edi), 1)
    else if op == 0x55 then Insn(Push(Ebp), 1)
    else if op == 0x58 then Insn(Pop(Eax), 1)
    else if op == 0x59 then Insn(Pop(Ecx), 1)
    else if op == 0x5B then Insn(Pop(Ebx), 1)
    else if op == 0x5D then Insn(Pop(Ebp), 1)
    else if op == 0x5E then Insn(Pop(Esi), 1)
    else if op == 0x5F then Insn(Pop(Edi), 1)
    else if op == 0x91 then Insn(Xchg, 1)
    else if op == 0x99 then Insn(Cdq, 1)
    else if op == 0xC3 then Insn(Ret, 1)
    else if op == 0x6A then PushByte(m)
    else if op == 0xCD then (if m == 0x80 then Insn(Int80, 2) else Interrupt(m))
    else if op == 0xB8 then Insn(LoadImm(Read32(c, 1)), 5)
    else if op == 0xA1 then Insn(LoadAbs(Read32(c, 1)), 5)
    else if op == 0xA3 then Insn(StoreAbs(Read32(c, 1)), 5)
    else if op == 0xE9 then Insn(Jump(Always, Signed(Read32(c, 1))), 5)
    else if op == 0xE8 then Insn(Call(Signed(Read32(c, 1))), 5)
    else if op == 0x01 && m == 0xC8 then Insn(Alu(Add, Eax, Ecx), 2)
    else if op == 0x29 && m == 0xC1 then Insn(Alu(Sub, Ecx, Eax), 2)
    else if op == 0x21 && m == 0xC8 then Insn(Alu(And, Eax, Ecx), 2)
    else if op == 0x09 && m == 0xC8 then Insn(Alu(Or, Eax, Ecx), 2)
    else if op == 0x31 && m == 0xC8 then Insn(Alu(Xor, Eax, Ecx), 2)
    else if op == 0x39 && m == 0xC1 then Insn(Alu(Cmp, Ecx, Eax), 2)
    else if op == 0x88 && m == 0x01 then Insn(StoreIndByte, 2)
    else if op == 0x85 && m == 0xC0 then Insn(Alu(Test, Eax, Eax), 2)
    else if op == 0xD3 then
      (if m == 0xE0 then Insn(ShlCl, 2) else if m == 0xE8 then Insn(ShrCl, 2) else Unknown(op))
    else if op == 0xF7 then
      (if m == 0xF9 then Insn(Idiv, 2) else if m == 0xD8 then Insn(NegEax, 2)
       else if m == 0xD0 then Insn(NotEax, 2) else Unknown(op))
    else if op == 0x89 then DecodeStore(c)
    else if op == 0x8B then DecodeLoad(c)
    else if op == 0x8D && m == 0x85 then Insn(LeaLocal(Signed(Read32(c, 2))), 6)
    else if op == 0x81 && m == 0xC4 then Insn(AddEsp(Read32(c, 2)), 6)
    else if op == 0x81 && m == 0xEC then Insn(SubEsp(Read32(c, 2)), 6)
    else if op == 0xC1 && m == 0xE0 then Insn(ShlImm(c[2]), 3)
    else if op == 0x0F then DecodeTwoByte(c)
    else Unknown(op)
  }

  function DecodeStore(c: seq<byte>): (d: Decoded)
    requires |c| >= 6
    ensures 1 <= Length(d) <= 6
  {
    var m := c[1];
    if m == 0xC8 then Insn(Mov(Eax, Ecx), 2)
    else if m == 0xD0 then Insn(Mov(Eax, Edx), 2)
    else if m == 0xE5 then Insn(Mov(Ebp, Esp), 2)
    else if m == 0xEC then Insn(Mov(Esp, Ebp), 2)
    else if m == 0xE3 then Insn(Mov(Ebx, Esp), 2)
    else if m == 0x01 then Insn(StoreInd, 2)
    else if m == 0x85 then Insn(StoreLocal(Signed(Read32(c, 2))), 6)
    else if m == 0x44 && c[2] == 0x24 then Insn(StoreStack(Eax, Disp8(c[3])), 4)
    else if m == 0x4C && c[2] == 0x24 then Insn(StoreStack(Ecx, Disp8(c[3])), 4)
    else Unknown(c[0])
  }

  function DecodeLoad(c: seq<byte>): (d: Decoded)
    requires |c| >= 6
    ensures 1 <= Length(d) <= 6
  {
    var m := c[1];
    if m == 0x85 then Insn(LoadLocal(Signed(Read32(c, 2))), 6)
    else if m == 0x00 then Insn(LoadInd, 2)
    else if m == 0x44 && c[2] == 0x24 then Insn(LoadStack(Eax, Disp8(c[3])), 4)
    else if m == 0x4C && c[2] == 0x24 then Insn(LoadStack(Ecx, Disp8(c[3])), 4)
    else Unknown(c[0])
  }

  /** The 0F page. The third byte of a setcc is not looked at. */
  function DecodeTwoByte(c: seq<byte>): (d: Decoded)
    requires |c| >= 6
    ensures 1 <= Length(d) <= 6
  {
    var m := c[1];
    if m == 0xAF && c[2] == 0xC1 then Insn(Imul, 3)
    else if m == 0xB6 && c[2] == 0xC0 then Insn(Movzx, 3)
    else if m == 0xB6 && c[2] == 0x00 then Insn(LoadIndByte, 3)
    else if m == 0x94 then Insn(Setcc(E), 3)
    else if m == 0x95 then Insn(Setcc(Ne), 3)
    else if m == 0x9C then Insn(Setcc(L), 3)
    else if m == 0x9D then Insn(Setcc(Ge), 3)
    else if m == 0x9E then Insn(Setcc(Le), 3)
    else if m == 0x9F then Insn(Setcc(G), 3)
    else if m == 0x84 then Insn(Jump(IfZero, Signed(Read32(c, 2))), 6)
    else if m == 0x85 then Insn(Jump(IfNonZero, Signed(Read32(c, 2))), 6)
    else Unknown(c[0])
  }

  /** A string immediate is an ordinary immediate once it is bytes. */
  function Plainly(i: Instr): Instr {
    if i.LoadStr? then LoadImm(i.off) else i
  }

  lemma SignedBack(x: int)
    requires FitsSigned(x)
    ensures Signed(Wrap(x)) == x
  {}

  /** The dword operand, when an instruction has one, sits after its opcode bytes. */
  function OperandAt(i: Instr): (k: nat) {
    match i
    case LoadImm(_) => 1
    case LoadStr(_) => 1
    case LoadAbs(_) => 1
    case StoreAbs(_) => 1
    case Jump(Always, _) => 1
    case Call(_) => 1
    case LoadLocal(_) => 2
    case StoreLocal(_) => 2
    case LeaLocal(_) => 2
    case AddEsp(_) => 2
    case SubEsp(_) => 2
    case Jump(_, _) => 2
    case _ => 0
  }

  function Operand(i: Instr): int
    requires OperandAt(i) > 0
  {
    match i
    case LoadImm(v) => v
    case LoadStr(v) => v
    case LoadAbs(v) => v
    case StoreAbs(v) => v
    case Jump(_, v) => v
    case Call(v) => v
    case LoadLocal(v) => v
    case StoreLocal(v) => v
    case LeaLocal(v) => v
    case AddEsp(v) => v
    case SubEsp(v) => v
  }

  lemma OperandBytes(i: Instr)
    requires OperandAt(i) > 0
    ensures |Encode(i)| == OperandAt(i) + 4
    ensures Encode(i)[OperandAt(i)..OperandAt(i) + 4] == Dword(Operand(i))
  {
    hide Dword;
    var d := Dword(Operand(i));
    if OperandAt(i) == 1 {
      var b := Encode(i)[0];
      assert Encode(i) == [b] + d;
    } else {
      var b, c := Encode(i)[0], Encode(i)[1];
      assert Encode(i) == [b, c] + d;
    }
  }

  lemma PrefixBytes(e: seq<byte>, c: seq<byte>)
    requires e <= c
    ensures |e| > 0 ==> c[0] == e[0]
    ensures |e| > 1 ==> c[1] == e[1]
    ensures |e| > 2 ==> c[2] == e[2]
    ensures |e| > 3 ==> c[3] == e[3]
  {}

  lemma {:induction false} DecodeOperand(i: Instr, c: seq<byte>)
    requires Emitted(i) && OperandAt(i) > 0 && |c| >= 6 && Encode(i) <= c
    ensures Decode(c) == Insn(Plainly(i), |Encode(i)|)
  {
    hide Read32, Dword, Signed, Wrap;
    var k := OperandAt(i);
    OperandBytes(i);
    assert c[k..k + 4] == Encode(i)[k..k + 4];
    ReadDword(c, k, Operand(i));
    PrefixBytes(Encode(i), c);
    if FitsSigned(Operand(i)) { SignedBack(Operand(i)); }
    WordItself(Operand(i));
  }

  lemma WordItself(x: int)
    ensures 0 <= x < MODULUS ==> Wrap(x) == x
  {}

  lemma DecodeRegisters(i: Instr, c: seq<byte>)
    requires Emitted(i) && (i.Push? || i.Pop? || i.Mov? || i.Alu? || i.LoadStack? || i.StoreStack?)
    requires |c| >= 6 && Encode(i) <= c
    ensures Decode(c) == Insn(i, |Encode(i)|)
  {
    hide Read32, Dword, Signed, Wrap;
    PrefixBytes(Encode(i), c);
  }

  /** Decoding emitted bytes, whatever follows them, gives the instruction back. */
  lemma {:induction false} DecodeEncode(i: Instr, c: seq<byte>)
    requires Emitted(i) && |c| >= 6 && Encode(i) <= c
    ensures Decode(c) == Insn(Plainly(i), |Encode(i)|)
  {
    if OperandAt(i) > 0 {
      DecodeOperand(i, c);
    } else if i.Push? || i.Pop? || i.Mov? || i.Alu? || i.LoadStack? || i.StoreStack? {
      DecodeRegisters(i, c);
    } else {
      hide Read32, Dword, Signed, Wrap;
      PrefixBytes(Encode(i), c);
    }
  }
}
