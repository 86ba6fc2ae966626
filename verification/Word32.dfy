/** 32-bit machine words and the two readings the compiler relies on: the unsigned
    word the processor holds, and the signed integer a C `int` denotes. */
module Word32 {
  import opened Basics

  const MODULUS: int := 0x1_0000_0000
  const HALF: int := 0x8000_0000

  type Word = x: int | 0 <= x < 0x1_0000_0000

  /** A 32-bit displacement. */
  type Disp = x: int | -0x8000_0000 <= x < 0x8000_0000

  function Wrap(x: int): Word { x % MODULUS }

  function Signed(w: Word): int { if w < HALF then w else w - MODULUS }

  predicate FitsSigned(x: int) { -HALF <= x < HALF }

  function Pow2(n: nat): (r: nat)
    ensures r >= 1
  {
    if n == 0 then 1 else 2 * Pow2(n - 1)
  }

  /** C division and remainder truncate toward zero. */
  function TruncDiv(a: int, b: int): int
    requires b != 0
  {
    if a >= 0 then (if b > 0 then a / b else -(a / -b))
    else (if b > 0 then -(-a / b) else -a / -b)
  }

  function TruncRem(a: int, b: int): int
    requires b != 0
  {
    a - b * TruncDiv(a, b)
  }

  function Magnitude(x: int): nat { if x < 0 then -x else x }

  /** The law of C division: quotient and remainder are the only two numbers that make up
      the dividend with a remainder smaller than the divisor and of the dividend's sign. */
  lemma DivisionLaw(a: int, b: int, q: int, r: int)
    requires b != 0
    ensures q == TruncDiv(a, b) && r == TruncRem(a, b) <==>
            a == b * q + r && Magnitude(r) < Magnitude(b) && (a >= 0 ==> r >= 0) && (a <= 0 ==> r <= 0)
  {
    TruncatesTowardZero(a, b);
    if a == b * q + r && Magnitude(r) < Magnitude(b) && (a >= 0 ==> r >= 0) && (a <= 0 ==> r <= 0) {
      OneQuotient(b, q, r, TruncDiv(a, b), TruncRem(a, b));
    }
  }

  lemma TruncatesTowardZero(a: int, b: int)
    requires b != 0
    ensures var q, r := TruncDiv(a, b), TruncRem(a, b);
            a == b * q + r && Magnitude(r) < Magnitude(b) && (a >= 0 ==> r >= 0) && (a <= 0 ==> r <= 0)
  {
  }

  lemma OneQuotient(b: int, q: int, r: int, q': int, r': int)
    requires b != 0 && b * q + r == b * q' + r' && Magnitude(r) < Magnitude(b) && Magnitude(r') < Magnitude(b)
    requires (r >= 0 && r' >= 0) || (r <= 0 && r' <= 0)
    ensures q == q' && r == r'
  {
    var k := q - q';
    assert b * k == r' - r;
    if k != 0 { MultipleAtLeast(b, k); }
  }

  lemma MultipleAtLeast(b: int, k: int)
    requires k != 0
    ensures Magnitude(b * k) >= Magnitude(b)
  {
    if k > 0 {
      Grows(1, k, Magnitude(b));
    } else {
      Grows(1, -k, Magnitude(b));
    }
    if b < 0 {
      assert (-b) * k == -(b * k) && (-b) * -k == b * k;
    } else {
      assert b * -k == -(b * k);
    }
  }

  /** Bitwise operations on words, bit by bit. */
  datatype BitOp = BitAnd | BitOr | BitXor

  function Bit(op: BitOp, a: nat, b: nat): (r: nat)
    requires a < 2 && b < 2
    ensures r < 2
  {
    match op
    case BitAnd => a * b
    case BitOr => a + b - a * b
    case BitXor => (a + b) % 2
  }

  function Bits(op: BitOp, a: nat, b: nat, n: nat): (r: nat)
    requires a < Pow2(n) && b < Pow2(n)
    ensures r < Pow2(n)
  {
    if n == 0 then 0
    else Bit(op, a % 2, b % 2) + 2 * Bits(op, a / 2, b / 2, n - 1)
  }

  lemma Pow2Of32()
    ensures Pow2(32) == MODULUS
  {
    assert Pow2(8) == 256;
    assert Pow2(16) == 65536 by {
      assert Pow2(12) == 4096;
    }
    assert Pow2(24) == 16777216 by {
      assert Pow2(20) == 1048576;
    }
    assert Pow2(28) == 268435456;
  }

  function Bitwise(op: BitOp, a: Word, b: Word): Word {
    Pow2Of32();
    Bits(op, a, b, 32)
  }

  lemma BitsCommute(op: BitOp, a: nat, b: nat, n: nat)
    requires a < Pow2(n) && b < Pow2(n)
    ensures Bits(op, a, b, n) == Bits(op, b, a, n)
  {}

  lemma BitwiseCommute(op: BitOp, a: Word, b: Word)
    ensures Bitwise(op, a, b) == Bitwise(op, b, a)
  {
    Pow2Of32();
    BitsCommute(op, a, b, 32);
  }

  lemma ModAddMultiple(x: int, k: int)
    ensures (x + k * MODULUS) % MODULUS == x % MODULUS
  {}

  /** Adding, subtracting and negating unsigned words wraps to the signed result. */
  lemma WrapSigned(a: Word, b: Word)
    ensures Wrap(Signed(a) + Signed(b)) == Wrap(a + b)
    ensures Wrap(Signed(a) - Signed(b)) == Wrap(a - b)
  {
    var i, j := (Signed(a) - a) / MODULUS, (Signed(b) - b) / MODULUS;
    assert Signed(a) == a + i * MODULUS && Signed(b) == b + j * MODULUS;
    assert Signed(a) + Signed(b) == a + b + (i + j) * MODULUS;
    ModAddMultiple(a + b, i + j);
    assert Signed(a) - Signed(b) == a - b + (i - j) * MODULUS;
    ModAddMultiple(a - b, i - j);
  }

  lemma NegateSigned(a: Word)
    ensures Wrap(-Signed(a)) == Wrap(0 - a)
    ensures Wrap(-Signed(a) - 1) == MODULUS - 1 - a
    ensures Wrap(Signed(a)) == a
  {
    if a >= HALF {
      ModAddMultiple(a, -1);
      ModAddMultiple(0 - a, 1);
    }
    var b: int := a;
    assert (-b - 1) % MODULUS == MODULUS - 1 - b;
  }

  /** Little-endian dword. */
  function Dword(x: int): (r: seq<byte>)
    ensures |r| == 4
  {
    var w := Wrap(x);
    [w % 256, w / 0x100 % 256, w / 0x1_0000 % 256, w / 0x100_0000 % 256]
  }

  /** The lowest byte comes first. */
  lemma DwordValue(x: int)
    ensures var d := Dword(x);
            d[0] as int + 0x100 * d[1] as int + 0x1_0000 * d[2] as int + 0x100_0000 * d[3] as int == Wrap(x)
  {
    DwordDigits(Wrap(x));
  }

  lemma DwordDigits(w: Word)
    ensures w % 256 + 0x100 * (w / 0x100 % 256) + 0x1_0000 * (w / 0x1_0000 % 256) +
            0x100_0000 * (w / 0x100_0000 % 256) == w
  {
    assert w / 0x1_0000 == w / 0x100 / 256;
    assert w / 0x100_0000 == w / 0x1_0000 / 256;
    assert w / 0x100_0000 < 256;
  }
}
