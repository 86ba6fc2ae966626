/** The debugger's listing of linked code stays in step with the code generator. */
module Disasm {
  import opened Basics
  import opened Word32
  import opened Machine
  import opened Encoding
  import opened Link
  import opened Cpu

  /** One line: where the instruction is and what it decodes to. */
  datatype Line = Line(at: int, d: Decoded)

  /** The listing of the image from `pc` up to `end`: each line starts where the previous
      one's bytes stop. */
  function Listing(img: seq<byte>, pc: int, end: int): seq<Line>
    decreases end - pc
  {
    if pc >= end then []
    else
      var d := Decode(Window(img, pc));
      [Line(pc, d)] + Listing(img, pc + Length(d), end)
  }

  // ----- numbers in the text -----

  function HexDigit(n: nat): char
    requires n < 16
  {
    if n < 10 then '0' + n as char else 'a' + (n - 10) as char
  }

  function HexNibble(c: char): nat {
    if '0' <= c <= '9' then c as int - '0' as int else if 'a' <= c <= 'f' then c as int - 'a' as int + 10 else 0
  }

  /** The last `digits` hexadecimal digits of `v`. */
  function Hex(v: nat, digits: nat): (s: string)
    ensures |s| == digits
  {
    if digits == 0 then "" else Hex(v / 16, digits - 1) + [HexDigit(v % 16)]
  }

  function HexValue(s: string): nat {
    if s == "" then 0 else 16 * HexValue(s[..|s| - 1]) + HexNibble(s[|s| - 1])
  }

  function Power16(n: nat): nat { if n == 0 then 1 else 16 * Power16(n - 1) }

  /** Digits read back as the number they were printed from. */
  lemma {:induction false} HexBack(v: nat, digits: nat)
    requires v < Power16(digits)
    ensures HexValue(Hex(v, digits)) == v
  {
    if digits > 0 {
      HexBack(v / 16, digits - 1);
      assert Hex(v, digits)[..digits - 1] == Hex(v / 16, digits - 1);
    }
  }

  // ----- the text of a line -----

  function Decimal(n: nat): (s: string)
    ensures |s| > 0 && forall k :: 0 <= k < |s| ==> '0' <= s[k] <= '9'
  {
    if n < 10 then ['0' + n as char] else Decimal(n / 10) + ['0' + (n % 10) as char]
  }

  /** A signed number; the smallest one, whose negative is itself, loses its digits. */
  function Signed10(v: int): string {
    if v >= 0 then Decimal(v) else if v == -HALF then "-" else "-" + Decimal(-v)
  }

  /** A place in the frame: the sign, then the negated displacement where it is negative. */
  function FramePlace(d: int): string {
    "[ebp" + (if d < 0 then "-" + Signed10(if d == -HALF then d else -d) else "+" + Signed10(d)) + "]"
  }

  function Hexed(v: nat, digits: nat): string { "0x" + Hex(v, digits) }

  /** The disassembler: text and length of the instruction that the bytes `c` at address
      `a` begin with. */
  function Disassembled(c: seq<byte>, a: int): (string, nat)
    requires |c| >= 6
  {
    var op, m := c[0], c[1];
    if op == 0x50 then ("push eax", 1)
    else if op == 0x53 then ("push ebx", 1)
    else if op == 0x56 then ("push esi", 1)
    else if op == 0x57 then ("push edi", 1)
    else if op == 0x55 then ("push ebp", 1)
    else if op == 0x58 then ("pop  eax", 1)
    else if op == 0x59 then ("pop  ecx", 1)
    else if op == 0x5B then ("pop  ebx", 1)
    else if op == 0x5D then ("pop  ebp", 1)
    else if op == 0x5E then ("pop  esi", 1)
    else if op == 0x5F then ("pop  edi", 1)
    else if op == 0x91 then ("xchg eax, ecx", 1)
    else if op == 0x99 then ("cdq", 1)
    else if op == 0xC3 then ("ret", 1)
    else if op == 0x6A then ("push " + Signed10(Disp8(m)), 2)
    else if op == 0xCD then ("int  " + Hexed(m, 2), 2)
    else if op == 0xB8 then ("mov  eax, " + Hexed(Read32(c, 1), 8), 5)
    else if op == 0xA1 then ("mov  eax, [" + Hexed(Read32(c, 1), 8) + "]", 5)
    else if op == 0xA3 then ("mov  [" + Hexed(Read32(c, 1), 8) + "], eax", 5)
    else if op == 0xE9 then ("jmp  " + Hexed(Wrap(a + 5 + Read32(c, 1)), 8), 5)
    else if op == 0xE8 then ("call " + Hexed(Wrap(a + 5 + Read32(c, 1)), 8), 5)
    else if op == 0x01 && m == 0xC8 then ("add  eax, ecx", 2)
    else if op == 0x29 && m == 0xC1 then ("sub  ecx, eax", 2)
    else if op == 0x21 && m == 0xC8 then ("and  eax, ecx", 2)
    else if op == 0x09 && m == 0xC8 then ("or   eax, ecx", 2)
    else if op == 0x31 && m == 0xC8 then ("xor  eax, ecx", 2)
    else if op == 0x39 && m == 0xC1 then ("cmp  ecx, eax", 2)
    else if op == 0x88 && m == 0x01 then ("mov  [ecx], al", 2)
    else if op == 0x85 && m == 0xC0 then ("test eax, eax", 2)
    else if op == 0xD3 && m == 0xE0 then ("shl  eax, cl", 2)
    else if op == 0xD3 && m == 0xE8 then ("shr  eax, cl", 2)
    else if op == 0xF7 && m == 0xF9 then ("idiv ecx", 2)
    else if op == 0xF7 && m == 0xD8 then ("neg  eax", 2)
    else if op == 0xF7 && m == 0xD0 then ("not  eax", 2)
    else if op == 0x89 || op == 0x8B then DisassembledMove(c)
    else if op == 0x8D && m == 0x85 then ("lea  eax, " + FramePlace(Signed(Read32(c, 2))), 6)
    else if op == 0x81 && m == 0xC4 then ("add  esp, " + Hexed(Read32(c, 2), 8), 6)
    else if op == 0x81 && m == 0xEC then ("sub  esp, " + Hexed(Read32(c, 2), 8), 6)
    else if op == 0xC1 && m == 0xE0 then ("shl  eax, " + Signed10(c[2]), 3)
    else if op == 0x0F then DisassembledTwoByte(c, a)
    else ("db   " + Hexed(op, 2), 1)
  }

  function DisassembledMove(c: seq<byte>): (string, nat)
    requires |c| >= 6
  {
    var op, m := c[0], c[1];
    if op == 0x89 then
      if m == 0xC8 then ("mov  eax, ecx", 2)
      else if m == 0xD0 then ("mov  eax, edx", 2)
      else if m == 0xE5 then ("mov  ebp, esp", 2)
      else if m == 0xEC then ("mov  esp, ebp", 2)
      else if m == 0xE3 then ("mov  ebx, esp", 2)
      else if m == 0x01 then ("mov  [ecx], eax", 2)
      else if m == 0x85 then ("mov  " + FramePlace(Signed(Read32(c, 2))) + ", eax", 6)
      else if m == 0x44 && c[2] == 0x24 then ("mov  [esp+" + Signed10(Disp8(c[3])) + "], eax", 4)
      else if m == 0x4C && c[2] == 0x24 then ("mov  [esp+" + Signed10(Disp8(c[3])) + "], ecx", 4)
      else ("db   " + Hexed(op, 2), 1)
    else
      if m == 0x85 then ("mov  eax, " + FramePlace(Signed(Read32(c, 2))), 6)
      else if m == 0x00 then ("mov  eax, [eax]", 2)
      else if m == 0x44 && c[2] == 0x24 then ("mov  eax, [esp+" + Signed10(Disp8(c[3])) + "]", 4)
      else if m == 0x4C && c[2] == 0x24 then ("mov  ecx, [esp+" + Signed10(Disp8(c[3])) + "]", 4)
      else ("db   " + Hexed(op, 2), 1)
  }

  function DisassembledTwoByte(c: seq<byte>, a: int): (string, nat)
    requires |c| >= 6
  {
    var m := c[1];
    if m == 0xAF && c[2] == 0xC1 then ("imul eax, ecx", 3)
    else if m == 0xB6 && c[2] == 0xC0 then ("movzx eax, al", 3)
    else if m == 0xB6 && c[2] == 0x00 then ("movzx eax, byte [eax]", 3)
    else if m == 0x94 then ("sete  al", 3)
    else if m == 0x95 then ("setne al", 3)
    else if m == 0x9C then ("setl  al", 3)
    else if m == 0x9D then ("setge al", 3)
    else if m == 0x9E then ("setle al", 3)
    else if m == 0x9F then ("setg  al", 3)
    else if m == 0x84 then ("jz   " + Hexed(Wrap(a + 6 + Read32(c, 2)), 8), 6)
    else if m == 0x85 then ("jnz  " + Hexed(Wrap(a + 6 + Read32(c, 2)), 8), 6)
    else ("db   " + Hexed(c[0], 2), 1)
  }

  // ----- the same text from the instruction -----

  function RegName(r: Reg): string {
    match r
    case Eax => "eax"
    case Ecx => "ecx"
    case Edx => "edx"
    case Ebx => "ebx"
    case Esp => "esp"
    case Ebp => "ebp"
    case Esi => "esi"
    case Edi => "edi"
  }

  function AluName(op: AluOp): string {
    match op
    case Add => "add"
    case Or => "or"
    case And => "and"
    case Sub => "sub"
    case Xor => "xor"
    case Cmp => "cmp"
    case Test => "test"
  }

  function CondName(cc: Cond): string {
    match cc
    case E => "e"
    case Ne => "ne"
    case L => "l"
    case Ge => "ge"
    case Le => "le"
    case G => "g"
  }

  /** A mnemonic padded to its column and a space, then the operands. */
  function Column(name: string, width: nat, operands: string): string {
    name + (if |name| < width then seq(width - |name|, _ => ' ') else "") + " " + operands
  }

  function Two(name: string, a: string, b: string): string {
    Column(name, 4, a + ", " + b)
  }

  function StackPlace(d: int): string { "[esp+" + Signed10(d) + "]" }

  /** An instruction of `len` bytes at address `a`, in assembly. */
  function Assembly(i: Instr, len: nat, a: int): string {
    match i
    case Push(r) => Column("push", 4, RegName(r))
    case Pop(r) => Column("pop", 4, RegName(r))
    case Mov(d, s) => Two("mov", RegName(d), RegName(s))
    case Alu(op, d, s) => Two(AluName(op), RegName(d), RegName(s))
    case LoadImm(v) => Two("mov", "eax", Hexed(v, 8))
    case LoadStr(o) => Two("mov", "eax", Hexed(o, 8))
    case LoadAbs(v) => Two("mov", "eax", "[" + Hexed(v, 8) + "]")
    case StoreAbs(v) => Two("mov", "[" + Hexed(v, 8) + "]", "eax")
    case LoadLocal(d) => Two("mov", "eax", FramePlace(d))
    case StoreLocal(d) => Two("mov", FramePlace(d), "eax")
    case LeaLocal(d) => Two("lea", "eax", FramePlace(d))
    case LoadStack(r, d) => Two("mov", RegName(r), StackPlace(d))
    case StoreStack(r, d) => Two("mov", StackPlace(d), RegName(r))
    case LoadInd => Two("mov", "eax", "[eax]")
    case StoreInd => Two("mov", "[ecx]", "eax")
    case LoadIndByte => Two("movzx", "eax", "byte [eax]")
    case StoreIndByte => Two("mov", "[ecx]", "al")
    case AddEsp(n) => Two("add", "esp", Hexed(n, 8))
    case SubEsp(n) => Two("sub", "esp", Hexed(n, 8))
    case Imul => Two("imul", "eax", "ecx")
    case Xchg => Two("xchg", "eax", "ecx")
    case Cdq => "cdq"
    case Idiv => Column("idiv", 4, "ecx")
    case ShlCl => Two("shl", "eax", "cl")
    case ShrCl => Two("shr", "eax", "cl")
    case ShlImm(b) => Two("shl", "eax", Signed10(b))
    case NegEax => Column("neg", 4, "eax")
    case NotEax => Column("not", 4, "eax")
    case Setcc(cc) => Column("set" + CondName(cc), 5, "al")
    case Movzx => Two("movzx", "eax", "al")
    case Jump(when, rel) => Column(JumpName(when), 4, Hexed(Wrap(a + len + Wrap(rel)), 8))
    case Call(rel) => Column("call", 4, Hexed(Wrap(a + len + Wrap(rel)), 8))
    case Ret => "ret"
    case Int80 => Column("int", 4, "0x80")
  }

  function JumpName(when: When): string {
    match when
    case Always => "jmp"
    case IfZero => "jz"
    case IfNonZero => "jnz"
  }

  function TextOf(d: Decoded, a: int): string {
    match d
    case Insn(i, len) => Assembly(i, len, a)
    case PushByte(v) => Column("push", 4, Signed10(Disp8(v)))
    case Interrupt(n) => Column("int", 4, Hexed(n, 2))
    case Unknown(b) => Column("db", 4, Hexed(b, 2))
  }

  lemma AluTexts()
    ensures Two("add", "eax", "ecx") == "add  eax, ecx"
    ensures Two("sub", "ecx", "eax") == "sub  ecx, eax"
    ensures Two("and", "eax", "ecx") == "and  eax, ecx"
    ensures Two("or", "eax", "ecx") == "or   eax, ecx"
    ensures Two("xor", "eax", "ecx") == "xor  eax, ecx"
    ensures Two("cmp", "ecx", "eax") == "cmp  ecx, eax"
    ensures Two("test", "eax", "eax") == "test eax, eax"
  {
  }

  lemma WidthTexts()
    ensures Two("imul", "eax", "ecx") == "imul eax, ecx"
    ensures Two("xchg", "eax", "ecx") == "xchg eax, ecx"
    ensures Two("shl", "eax", "cl") == "shl  eax, cl"
    ensures Two("shr", "eax", "cl") == "shr  eax, cl"
    ensures Two("movzx", "eax", "al") == "movzx eax, al"
    ensures Two("movzx", "eax", "byte [eax]") == "movzx eax, byte [eax]"
  {
  }

  lemma RegisterTexts()
    ensures Two("mov", "eax", "ecx") == "mov  eax, ecx"
    ensures Two("mov", "eax", "edx") == "mov  eax, edx"
    ensures Two("mov", "ebp", "esp") == "mov  ebp, esp"
    ensures Two("mov", "esp", "ebp") == "mov  esp, ebp"
    ensures Two("mov", "ebx", "esp") == "mov  ebx, esp"
  {
  }

  lemma PointerTexts()
    ensures Two("mov", "[ecx]", "eax") == "mov  [ecx], eax"
    ensures Two("mov", "[ecx]", "al") == "mov  [ecx], al"
    ensures Two("mov", "eax", "[eax]") == "mov  eax, [eax]"
  {
  }

  lemma StackTexts()
    ensures Column("push", 4, "eax") == "push eax"
    ensures Column("push", 4, "ebx") == "push ebx"
    ensures Column("push", 4, "esi") == "push esi"
    ensures Column("push", 4, "edi") == "push edi"
    ensures Column("push", 4, "ebp") == "push ebp"
    ensures Column("pop", 4, "eax") == "pop  eax"
    ensures Column("pop", 4, "ecx") == "pop  ecx"
    ensures Column("pop", 4, "ebx") == "pop  ebx"
    ensures Column("pop", 4, "ebp") == "pop  ebp"
    ensures Column("pop", 4, "esi") == "pop  esi"
    ensures Column("pop", 4, "edi") == "pop  edi"
    ensures Column("idiv", 4, "ecx") == "idiv ecx"
    ensures Column("neg", 4, "eax") == "neg  eax"
    ensures Column("not", 4, "eax") == "not  eax"
  {
  }

  lemma SetTexts()
    ensures Column("set" + "e", 5, "al") == "sete  al"
    ensures Column("set" + "ne", 5, "al") == "setne al"
    ensures Column("set" + "l", 5, "al") == "setl  al"
    ensures Column("set" + "ge", 5, "al") == "setge al"
    ensures Column("set" + "le", 5, "al") == "setle al"
    ensures Column("set" + "g", 5, "al") == "setg  al"
  {
  }

  lemma ValueTexts(x: string)
    ensures Two("mov", "eax", x) == "mov  eax, " + x
    ensures Two("mov", x, "eax") == "mov  " + x + ", eax"
    ensures Two("lea", "eax", x) == "lea  eax, " + x
    ensures Two("add", "esp", x) == "add  esp, " + x
    ensures Two("sub", "esp", x) == "sub  esp, " + x
    ensures Two("shl", "eax", x) == "shl  eax, " + x
  {
  }

  lemma PlaceTexts(x: string)
    ensures Two("mov", "eax", "[" + x + "]") == "mov  eax, [" + x + "]"
    ensures Two("mov", "[" + x + "]", "eax") == "mov  [" + x + "], eax"
  {
  }

  lemma SlotTexts(x: string)
    ensures Two("mov", "eax", "[esp+" + x + "]") == "mov  eax, [esp+" + x + "]"
    ensures Two("mov", "ecx", "[esp+" + x + "]") == "mov  ecx, [esp+" + x + "]"
    ensures Two("mov", "[esp+" + x + "]", "eax") == "mov  [esp+" + x + "], eax"
    ensures Two("mov", "[esp+" + x + "]", "ecx") == "mov  [esp+" + x + "], ecx"
  {
  }

  lemma Columns(x: string)
    ensures Column("push", 4, x) == "push " + x
    ensures Column("int", 4, x) == "int  " + x
    ensures Column("jmp", 4, x) == "jmp  " + x
    ensures Column("jz", 4, x) == "jz   " + x
    ensures Column("jnz", 4, x) == "jnz  " + x
    ensures Column("call", 4, x) == "call " + x
    ensures Column("db", 4, x) == "db   " + x
  {
  }

  /** Whatever the bytes, the disassembler prints what they decode to, in assembly, and goes
      on behind it. */
  lemma DisassemblesDecoded(c: seq<byte>, a: int)
    requires |c| >= 6
    ensures Disassembled(c, a) == (TextOf(Decode(c), a), Length(Decode(c)))
  {
    hide Disassembled, Decode, TextOf, Length;
    var op := c[0];
    if op == 0x89 || op == 0x8B {
      MoveDecoded(c, a);
    } else if op == 0x0F {
      TwoByteDecoded(c, a);
    } else if 0x50 <= op < 0x60 || op == 0x91 || op == 0x99 || op == 0xC3 || op == 0x6A || op == 0xCD {
      StackDecoded(c, a);
    } else if op == 0xB8 || op == 0xA1 || op == 0xA3 {
      AddressDecoded(c, a);
    } else if op == 0xE9 || op == 0xE8 {
      BranchDecoded(c, a);
    } else if op == 0x8D || op == 0x81 || op == 0xC1 {
      FrameDecoded(c, a);
    } else {
      AluDecoded(c, a);
    }
  }

  lemma StackDecoded(c: seq<byte>, a: int)
    requires |c| >= 6 && (0x50 <= c[0] < 0x60 || c[0] in {0x91, 0x99, 0xC3, 0x6A, 0xCD})
    ensures Disassembled(c, a) == (TextOf(Decode(c), a), Length(Decode(c)))
  {
    hide Read32, Hex, Signed10, FramePlace, Signed, Wrap, Column, Two, Disp8, DisassembledMove, DisassembledTwoByte,
      DecodeStore, DecodeLoad, DecodeTwoByte;
    StackTexts();
    WidthTexts();
    Columns(Signed10(Disp8(c[1])));
    Columns(Hexed(c[1], 2));
    Columns("0x80");
    HexedInt(c[1]);
    Columns(Hexed(c[0], 2));
  }

  lemma AddressDecoded(c: seq<byte>, a: int)
    requires |c| >= 6 && (c[0] == 0xB8 || c[0] == 0xA1 || c[0] == 0xA3)
    ensures Disassembled(c, a) == (TextOf(Decode(c), a), Length(Decode(c)))
  {
    hide Read32, Hex, Signed10, FramePlace, Signed, Wrap, Column, Two, Disp8, DisassembledMove, DisassembledTwoByte,
      DecodeStore, DecodeLoad, DecodeTwoByte;
    var w := Read32(c, 1);
    ValueTexts(Hexed(w, 8));
    PlaceTexts(Hexed(w, 8));
  }

  lemma BranchDecoded(c: seq<byte>, a: int)
    requires |c| >= 6 && (c[0] == 0xE9 || c[0] == 0xE8)
    ensures Disassembled(c, a) == (TextOf(Decode(c), a), Length(Decode(c)))
  {
    hide Read32, Hex, Signed10, FramePlace, Signed, Wrap, Column, Two, Disp8, DisassembledMove, DisassembledTwoByte,
      DecodeStore, DecodeLoad, DecodeTwoByte;
    var w := Read32(c, 1);
    SignedWord(w);
    Columns(Hexed(Wrap(a + 5 + w), 8));
  }

  lemma FrameDecoded(c: seq<byte>, a: int)
    requires |c| >= 6 && (c[0] == 0x8D || c[0] == 0x81 || c[0] == 0xC1)
    ensures Disassembled(c, a) == (TextOf(Decode(c), a), Length(Decode(c)))
  {
    hide Read32, Hex, Signed10, FramePlace, Signed, Wrap, Column, Two, Disp8, DisassembledMove, DisassembledTwoByte,
      DecodeStore, DecodeLoad, DecodeTwoByte;
    ValueTexts(FramePlace(Signed(Read32(c, 2))));
    ValueTexts(Hexed(Read32(c, 2), 8));
    ValueTexts(Signed10(c[2]));
    Columns(Hexed(c[0], 2));
  }

  lemma AluDecoded(c: seq<byte>, a: int)
    requires |c| >= 6 && c[0] != 0x89 && c[0] != 0x8B && c[0] != 0x0F && !(0x50 <= c[0] < 0x60)
    requires c[0] !in {0x91, 0x99, 0xC3, 0x6A, 0xCD, 0xB8, 0xA1, 0xA3, 0xE9, 0xE8, 0x8D, 0x81, 0xC1}
    ensures Disassembled(c, a) == (TextOf(Decode(c), a), Length(Decode(c)))
  {
    hide Read32, Hex, Signed10, FramePlace, Signed, Wrap, Column, Two, Disp8, DisassembledMove, DisassembledTwoByte,
      DecodeStore, DecodeLoad, DecodeTwoByte;
    AluTexts();
    WidthTexts();
    PointerTexts();
    StackTexts();
    Columns(Hexed(c[0], 2));
  }

  lemma HexedInt(m: byte)
    ensures m == 0x80 ==> Hexed(m, 2) == "0x80"
  {
    assert Hex(8, 1) == "8" && Hex(0x80, 2) == "80";
  }

  lemma SignedWord(w: Word)
    ensures Wrap(Signed(w)) == w
  {
  }

  lemma MoveDecoded(c: seq<byte>, a: int)
    requires |c| >= 6 && (c[0] == 0x89 || c[0] == 0x8B)
    ensures Disassembled(c, a) == (TextOf(Decode(c), a), Length(Decode(c)))
  {
    hide DisassembledMove, DecodeStore, DecodeLoad, TextOf, Length;
    if c[0] == 0x89 { StoreDecoded(c, a); } else { LoadDecoded(c, a); }
  }

  lemma StoreDecoded(c: seq<byte>, a: int)
    requires |c| >= 6 && c[0] == 0x89
    ensures DisassembledMove(c) == (TextOf(DecodeStore(c), a), Length(DecodeStore(c)))
  {
    hide Read32, Hex, Signed10, FramePlace, Signed, Wrap, Column, Two, Disp8;
    RegisterTexts();
    PointerTexts();
    ValueTexts(FramePlace(Signed(Read32(c, 2))));
    SlotTexts(Signed10(Disp8(c[3])));
    Columns(Hexed(c[0], 2));
  }

  lemma LoadDecoded(c: seq<byte>, a: int)
    requires |c| >= 6 && c[0] == 0x8B
    ensures DisassembledMove(c) == (TextOf(DecodeLoad(c), a), Length(DecodeLoad(c)))
  {
    hide Read32, Hex, Signed10, FramePlace, Signed, Wrap, Column, Two, Disp8;
    PointerTexts();
    ValueTexts(FramePlace(Signed(Read32(c, 2))));
    SlotTexts(Signed10(Disp8(c[3])));
    Columns(Hexed(c[0], 2));
  }

  lemma TwoByteDecoded(c: seq<byte>, a: int)
    requires |c| >= 6 && c[0] == 0x0F
    ensures Disassembled(c, a) == (TextOf(Decode(c), a), Length(Decode(c)))
  {
    hide DisassembledTwoByte, DecodeTwoByte, TextOf, Length;
    if 0x90 <= c[1] < 0xA0 { SetDecoded(c, a); } else { OtherTwoByte(c, a); }
  }

  lemma SetDecoded(c: seq<byte>, a: int)
    requires |c| >= 6 && c[0] == 0x0F && 0x90 <= c[1] < 0xA0
    ensures DisassembledTwoByte(c, a) == (TextOf(DecodeTwoByte(c), a), Length(DecodeTwoByte(c)))
  {
    hide Read32, Hex, Signed10, FramePlace, Signed, Wrap, Column, Two, Disp8;
    SetTexts();
    Columns(Hexed(c[0], 2));
  }

  lemma OtherTwoByte(c: seq<byte>, a: int)
    requires |c| >= 6 && c[0] == 0x0F && !(0x90 <= c[1] < 0xA0)
    ensures DisassembledTwoByte(c, a) == (TextOf(DecodeTwoByte(c), a), Length(DecodeTwoByte(c)))
  {
    hide Read32, Hex, Signed10, FramePlace, Signed, Wrap, Column, Two, Disp8;
    WidthTexts();
    SignedWord(Read32(c, 2));
    Columns(Hexed(Wrap(a + 6 + Read32(c, 2)), 8));
    Columns(Hexed(c[0], 2));
  }

  /** The lines the emitted items call for, from index `k` on. */
  function Expected(p: Prog, lay: Layout, k: nat): seq<Line>
    requires k <= |p.items|
    decreases |p.items| - k
  {
    if k == |p.items| then []
    else
      var rest := Expected(p, lay, k + 1);
      match p.items[k]
      case Label(_) => rest
      case Op(i) =>
        var pos := Off(p.items, k);
        [Line(CODE_START + pos, Insn(Linked(i, pos, lay, true), |Encode(Raw(i))|))] + rest
  }

  /** Decoding from any item's offset to the end of the code yields exactly the emitted
      instructions, each at its own offset and with its own length. */
  lemma {:induction false} ListingInStep(p: Prog, lay: Layout, img: seq<byte>, k: nat)
    requires Loaded(p, lay, img) && k <= |p.items|
    ensures Listing(img, CODE_START + Off(p.items, k), CODE_START + Off(p.items, |p.items|)) == Expected(p, lay, k)
    decreases |p.items| - k
  {
    hide Encode, Decode, Linked, Loaded, Window;
    if k < |p.items| {
      ListingInStep(p, lay, img, k + 1);
      if p.items[k].Op? {
        Fetch(p, lay, img, k);
        EncodedSize(Raw(p.items[k].i));
        OffMonotone(p.items, k + 1, |p.items|);
      }
    }
  }

  /** The text of a line. */
  function LineText(l: Line): string { TextOf(l.d, LOAD_ADDR + l.at) }

  /** A listed jump shows its label's linked address, a call its function's. */
  lemma {:induction false} TargetsPrinted(p: Prog, lay: Layout, img: seq<byte>, k: nat)
    requires Loaded(p, lay, img) && k < |p.items| && p.items[k].Op?
    requires var i := p.items[k].i; (i.Jump? && i.to in p.labels) || i.Call?
    ensures var i := p.items[k].i;
            var a := Wrap(LOAD_ADDR + CODE_START + if i.Jump? then Off(p.items, p.labels[i.to]) else FunAt(lay, i.to));
            var name := if i.Call? then "call 0x" else if i.when == Always then "jmp  0x"
                        else if i.when == IfZero then "jz   0x" else "jnz  0x";
            LineText(Expected(p, lay, k)[0]) == name + Hex(a, 8) && HexValue(Hex(a, 8)) == a
  {
    hide Encode, Decode, Loaded, Window, Off, Hex, HexValue, Column;
    assert Power16(8) == MODULUS;
    var i := p.items[k].i;
    var l := Expected(p, lay, k)[0];
    if i.Jump? { JumpTarget(p, lay, img, i.to); }
    WrapInside(LOAD_ADDR + l.at + l.d.len, l.d.i.to);
    var a := Wrap(LOAD_ADDR + l.at + l.d.len + Wrap(l.d.i.to));
    HexBack(a, 8);
    Columns(Hexed(a, 8));
    Prefixed(Hex(a, 8));
  }

  lemma Prefixed(x: string)
    ensures "call " + ("0x" + x) == "call 0x" + x && "jmp  " + ("0x" + x) == "jmp  0x" + x
    ensures "jz   " + ("0x" + x) == "jz   0x" + x && "jnz  " + ("0x" + x) == "jnz  0x" + x
  {
  }

  /** The lines the debugger prints for the image from `pc` up to `end`. */
  function Printed(img: seq<byte>, pc: int, end: int): seq<string>
    decreases end - pc
  {
    if pc >= end then []
    else
      DisassemblesDecoded(Window(img, pc), LOAD_ADDR + pc);
      var (text, len) := Disassembled(Window(img, pc), LOAD_ADDR + pc);
      [text] + Printed(img, pc + len, end)
  }

  function Texts(ls: seq<Line>): seq<string> {
    if ls == [] then [] else [LineText(ls[0])] + Texts(ls[1..])
  }

  /** What is printed of a program is its instructions in assembly, each as it was emitted
      and linked, from any of them to the end. */
  lemma PrintedProgram(p: Prog, lay: Layout, img: seq<byte>, k: nat)
    requires Loaded(p, lay, img) && k <= |p.items|
    ensures Printed(img, CODE_START + Off(p.items, k), CODE_START + Off(p.items, |p.items|))
            == Texts(Expected(p, lay, k))
  {
    hide Printed, Texts, Loaded, Expected, Off, Listing, Window, Decode, Disassembled;
    ListingInStep(p, lay, img, k);
    PrintedListing(img, CODE_START + Off(p.items, k), CODE_START + Off(p.items, |p.items|));
  }

  lemma {:induction false} PrintedListing(img: seq<byte>, pc: int, end: int)
    ensures Printed(img, pc, end) == Texts(Listing(img, pc, end))
    decreases end - pc
  {
    hide Disassembled, Decode, TextOf, Window;
    if pc < end {
      DisassemblesDecoded(Window(img, pc), LOAD_ADDR + pc);
      var d := Decode(Window(img, pc));
      PrintedListing(img, pc + Length(d), end);
      assert Listing(img, pc, end)[1..] == Listing(img, pc + Length(d), end);
    }
  }

  /** The number a string of digits stands for. */
  function DecimalValue(s: string): nat {
    if s == "" then 0 else 10 * DecimalValue(s[..|s| - 1]) + HexNibble(s[|s| - 1])
  }

  lemma {:induction false} DecimalBack(n: nat)
    ensures DecimalValue(Decimal(n)) == n
  {
    var d := Decimal(n);
    if n < 10 {
      assert d[..0] == "";
    } else {
      DecimalBack(n / 10);
      assert d[..|d| - 1] == Decimal(n / 10);
    }
  }

  /** A frame place is printed with its sign and digits that read back as its distance from
      EBP, except for the smallest displacement, which is printed without digits. */
  lemma PlaceShown(d: int)
    ensures -HALF < d < HALF ==>
              var n := if d < 0 then -d else d;
              FramePlace(d) == "[ebp" + (if d < 0 then "-" else "+") + Decimal(n) + "]" && DecimalValue(Decimal(n)) == n
    ensures FramePlace(-HALF) == "[ebp--]"
  {
    hide Decimal, DecimalValue;
    DecimalBack(if d < 0 then -d else d);
    if -HALF < d < 0 { assert Signed10(-d) == Decimal(-d); }
    assert "[ebp" + ("-" + "-") + "]" == "[ebp--]";
  }

  lemma WrapInside(a: int, b: int)
    ensures Wrap(a + Wrap(b)) == Wrap(a + b)
  {
    assert b == b / MODULUS * MODULUS + Wrap(b);
    ModAddMultiple(a + Wrap(b), b / MODULUS);
  }
}
