/** What C promises of its operators, stated on integers and on bits, holds of the values
    the compiled code computes. */
module Arithmetic {
  import opened Basics
  import opened Word32
  import opened Machine
  import opened Syntax

  /** Bit `k` of `x`, counted from the lowest. */
  predicate BitAt(x: int, k: nat) { x / Pow2(k) % 2 == 1 }

  lemma {:induction false} HalveFirst(x: nat, k: nat)
    ensures x / 2 / Pow2(k) == x / Pow2(k + 1)
  {
    var h, p := x / 2, Pow2(k);
    var q, r := h / p, h % p;
    assert h == p * q + r;
    assert 2 * p * q == 2 * (p * q);
    assert x == 2 * p * q + (2 * r + x % 2);
    DivIs(x, 2 * p, q, 2 * r + x % 2);
  }

  lemma HigherBit(x: nat, k: nat)
    requires k > 0
    ensures BitAt(x, k) == BitAt(x / 2, k - 1)
  {
    HalveFirst(x, k - 1);
  }

  lemma LowBit(x: nat)
    ensures BitAt(x, 0) == (x % 2 == 1)
  {
    assert x / Pow2(0) == x;
  }

  lemma HalfBelow(x: nat, n: nat)
    requires n > 0 && x < Pow2(n)
    ensures x / 2 < Pow2(n - 1)
  {
  }

  predicate Joined(op: BitOp, a: bool, b: bool) {
    match op
    case BitAnd => a && b
    case BitOr => a || b
    case BitXor => a != b
  }

  lemma BitsHalved(op: BitOp, a: nat, b: nat, n: nat)
    requires n > 0 && a < Pow2(n) && b < Pow2(n)
    ensures a / 2 < Pow2(n - 1) && b / 2 < Pow2(n - 1) && Bits(op, a, b, n) / 2 == Bits(op, a / 2, b / 2, n - 1)
    ensures (Bits(op, a, b, n) % 2 == 1) == Joined(op, a % 2 == 1, b % 2 == 1)
  {
    hide Pow2;
    HalfBelow(a, n);
    HalfBelow(b, n);
    var low, high := Bit(op, a % 2, b % 2), Bits(op, a / 2, b / 2, n - 1);
    assert Bits(op, a, b, n) == low + 2 * high;
    JoinedBit(op, a % 2, b % 2);
  }

  lemma JoinedBit(op: BitOp, a: nat, b: nat)
    requires a < 2 && b < 2
    ensures (Bit(op, a, b) == 1) == Joined(op, a == 1, b == 1)
  {
  }

  lemma {:induction false} BitsAt(op: BitOp, a: nat, b: nat, n: nat, k: nat)
    requires a < Pow2(n) && b < Pow2(n) && k < n
    ensures BitAt(Bits(op, a, b, n), k) == Joined(op, BitAt(a, k), BitAt(b, k))
  {
    hide Pow2, BitAt, Bits;
    assert n == 0 ==> false;
    HalfBelow(a, n);
    HalfBelow(b, n);
    var r := Bits(op, a, b, n);
    BitsHalved(op, a, b, n);
    if k == 0 {
      LowBit(r);
      LowBit(a);
      LowBit(b);
    } else {
      HigherBit(r, k);
      HigherBit(a, k);
      HigherBit(b, k);
      BitsAt(op, a / 2, b / 2, n - 1, k - 1);
    }
  }

  lemma ComplementHalved(a: nat, n: nat)
    requires n > 0 && a < Pow2(n)
    ensures a / 2 < Pow2(n - 1) && (Pow2(n) - 1 - a) / 2 == Pow2(n - 1) - 1 - a / 2
    ensures (Pow2(n) - 1 - a) % 2 != a % 2
  {
    assert Pow2(n) == 2 * Pow2(n - 1);
  }

  lemma {:induction false} Complement(a: nat, n: nat, k: nat)
    requires a < Pow2(n) && k < n
    ensures BitAt(Pow2(n) - 1 - a, k) == !BitAt(a, k)
  {
    hide Pow2, BitAt;
    var c: nat := Pow2(n) - 1 - a;
    ComplementHalved(a, n);
    if k == 0 {
      LowBit(c);
      LowBit(a);
    } else {
      HigherBit(c, k);
      HigherBit(a, k);
      Complement(a / 2, n - 1, k - 1);
    }
  }

  lemma {:induction false} BitShiftedDown(a: nat, s: nat, k: nat)
    ensures BitAt(a / Pow2(s), k) == BitAt(a, k + s)
  {
    if s > 0 {
      HalveFirst(a, s - 1);
      BitShiftedDown(a / 2, s - 1, k);
      HigherBit(a, k + s);
    } else {
      assert a / Pow2(0) == a;
    }
  }

  lemma {:induction false} BitShiftedUp(a: nat, s: nat, k: nat)
    ensures BitAt(a * Pow2(s), k) == (k >= s && BitAt(a, k - s))
  {
    if s == 0 {
      assert a * Pow2(0) == a;
    } else {
      var x := a * Pow2(s);
      assert x == 2 * (a * Pow2(s - 1));
      if k == 0 {
        assert Pow2(0) == 1;
      } else {
        HigherBit(x, k);
        BitShiftedUp(a, s - 1, k - 1);
      }
    }
  }

  /** The bits above the n-th do not reach the ones below it. */
  lemma {:induction false} BitCut(x: nat, n: nat, k: nat)
    ensures BitAt(x % Pow2(n), k) == (k < n && BitAt(x, k))
  {
    if n == 0 {
      assert x % Pow2(0) == 0;
      assert 0 / Pow2(k) == 0;
    } else {
      HalvedRest(x, n);
      if k == 0 {
        assert Pow2(0) == 1;
      } else {
        HigherBit(x, k);
        HigherBit(x % Pow2(n), k);
        BitCut(x / 2, n - 1, k - 1);
      }
    }
  }

  lemma HalvedRest(x: nat, n: nat)
    requires n > 0
    ensures x % Pow2(n) / 2 == x / 2 % Pow2(n - 1) && x % Pow2(n) % 2 == x % 2
  {
    var p := Pow2(n - 1);
    var q, r := x / 2 / p, x / 2 % p;
    assert x / 2 == p * q + r;
    assert 2 * p * q == 2 * (p * q);
    assert x == 2 * p * q + (2 * r + x % 2);
    DivIs(x, 2 * p, q, 2 * r + x % 2);
  }

  /** &, | and ^ join the bits of their operands place by place; ~ turns each over. */
  lemma BitLaws(a: Word, b: Word, k: nat)
    requires k < 32
    ensures BinaryValue(BitwiseAnd, a, b).Some? && BinaryValue(BitwiseOr, a, b).Some?
            && BinaryValue(BitwiseXor, a, b).Some?
    ensures BitAt(BinaryValue(BitwiseAnd, a, b).value, k) == (BitAt(a, k) && BitAt(b, k))
    ensures BitAt(BinaryValue(BitwiseOr, a, b).value, k) == (BitAt(a, k) || BitAt(b, k))
    ensures BitAt(BinaryValue(BitwiseXor, a, b).value, k) == (BitAt(a, k) != BitAt(b, k))
    ensures BitAt(UnaryValue(BitwiseNot, a), k) == !BitAt(a, k)
  {
    hide Pow2, Bits;
    Pow2Of32();
    BitsAt(BitAnd, a, b, 32, k);
    BitsAt(BitOr, a, b, 32, k);
    BitsAt(BitXor, a, b, 32, k);
    Complement(a, 32, k);
    NegateSigned(a);
  }

  /** << moves each bit up and >> moves each bit down by the count modulo 32, and zeros
      come in, on the right also for a negative number. */
  lemma ShiftLaws(a: Word, b: Word, k: nat)
    requires k < 32
    ensures BinaryValue(ShiftLeft, a, b).Some? && BinaryValue(ShiftRight, a, b).Some?
    ensures BitAt(BinaryValue(ShiftLeft, a, b).value, k) == (k >= b % 32 && BitAt(a, k - b % 32))
    ensures BitAt(BinaryValue(ShiftRight, a, b).value, k) == (k + b % 32 < 32 && BitAt(a, k + b % 32))
  {
    hide BitAt, Pow2;
    var s: nat := b % 32;
    MovedUp(a, s, k);
    MovedDown(a, s, k);
  }

  lemma MovedUp(a: Word, s: nat, k: nat)
    requires k < 32
    ensures BitAt(Wrap(a * Pow2(s)), k) == (k >= s && BitAt(a, k - s))
  {
    hide BitAt, Pow2;
    Pow2Of32();
    BitCut(a * Pow2(s), 32, k);
    BitShiftedUp(a, s, k);
  }

  lemma MovedDown(a: Word, s: nat, k: nat)
    ensures BitAt(Wrap(a / Pow2(s)), k) == (k + s < 32 && BitAt(a, k + s))
  {
    hide BitAt, Pow2;
    Pow2Of32();
    BitCut(a, 32, k + s);
    BitShiftedDown(a, s, k);
    SmallerQuotient(a, Pow2(s));
  }

  lemma SmallerQuotient(a: nat, d: nat)
    requires d > 0
    ensures a / d <= a
  {
    Grows(1, d, a / d);
  }

  lemma WrapBack(x: int)
    ensures FitsSigned(x) ==> Signed(Wrap(x)) == x
  {
  }

  /** Sum, difference, product and negative are exact whenever they fit an int. */
  lemma ExactLaws(a: Word, b: Word)
    ensures FitsSigned(Signed(a) + Signed(b)) ==>
              BinaryValue(Plus, a, b).Some? && Signed(BinaryValue(Plus, a, b).value) == Signed(a) + Signed(b)
    ensures FitsSigned(Signed(a) - Signed(b)) ==>
              BinaryValue(Minus, a, b).Some? && Signed(BinaryValue(Minus, a, b).value) == Signed(a) - Signed(b)
    ensures FitsSigned(Signed(a) * Signed(b)) ==>
              BinaryValue(Times, a, b).Some? && Signed(BinaryValue(Times, a, b).value) == Signed(a) * Signed(b)
    ensures FitsSigned(-Signed(a)) ==> Signed(UnaryValue(Negate, a)) + Signed(a) == 0
  {
    WrapBack(Signed(a) + Signed(b));
    WrapBack(Signed(a) - Signed(b));
    WrapBack(Signed(a) * Signed(b));
    WrapBack(-Signed(a));
  }

  /** / and % have a value except for a zero divisor and the smallest number over -1; their
      values are the only two that make up the dividend with a remainder smaller than the
      divisor and of the dividend's sign. */
  lemma DivisionLaws(a: Word, b: Word, q: int, r: int)
    ensures var x, y := Signed(a), Signed(b);
            var d, m := BinaryValue(Divide, a, b), BinaryValue(Modulo, a, b);
            && (d.None? <==> y == 0 || (x == -HALF && y == -1)) && (m.None? <==> d.None?)
            && (d.Some? ==>
                  (q == Signed(d.value) && r == Signed(m.value) <==>
                   x == y * q + r && Magnitude(r) < Magnitude(y) && (x >= 0 ==> r >= 0) && (x <= 0 ==> r <= 0)))
  {
    hide TruncDiv, TruncRem;
    var x, y := Signed(a), Signed(b);
    if y != 0 {
      DivisionLaw(x, y, q, r);
      DivisionLaw(x, y, TruncDiv(x, y), TruncRem(x, y));
      QuotientFits(x, y);
      WrapBack(TruncDiv(x, y));
      WrapBack(TruncRem(x, y));
    }
  }

  lemma QuotientFits(x: int, y: int)
    requires y != 0 && FitsSigned(x) && FitsSigned(y)
    ensures FitsSigned(TruncRem(x, y))
    ensures FitsSigned(TruncDiv(x, y)) <==> !(x == -HALF && y == -1)
  {
    hide TruncDiv, TruncRem, Magnitude;
    var q, r := TruncDiv(x, y), TruncRem(x, y);
    DivisionLaw(x, y, q, r);
    Sizes(x, y, q, r);
  }

  lemma Sizes(x: int, y: int, q: int, r: int)
    requires y != 0 && FitsSigned(x) && FitsSigned(y) && x == y * q + r && Magnitude(r) < Magnitude(y)
    requires (x >= 0 ==> r >= 0) && (x <= 0 ==> r <= 0)
    ensures FitsSigned(r) && (FitsSigned(q) <==> !(x == -HALF && y == -1))
  {
    ghost var p := y * q;
    if Magnitude(y) > 1 {
      SignsApart(y, q);
      if q != 0 { MultipleAtLeast(y, q); }
      ProductAtMost(x, p, r, y);
      HalfAtMost(Magnitude(x), Magnitude(y), Magnitude(q), Magnitude(p));
    } else {
      assert p == if y == 1 then q else -q;
    }
  }

  lemma ProductAtMost(x: int, p: int, r: int, y: int)
    requires x == p + r && Magnitude(r) < Magnitude(y) && (p == 0 || Magnitude(p) >= Magnitude(y))
    requires (x >= 0 ==> r >= 0) && (x <= 0 ==> r <= 0)
    ensures Magnitude(p) <= Magnitude(x) && Magnitude(r) <= Magnitude(x)
  {
  }

  lemma HalfAtMost(x: nat, y: nat, q: nat, p: nat)
    requires y >= 2 && p == y * q && p <= x
    ensures 2 * q <= x
  {
    Grows(2, y, q);
  }

  lemma SignsApart(y: int, q: int)
    ensures Magnitude(y * q) == Magnitude(y) * Magnitude(q)
  {
    if y < 0 {
      if q < 0 { assert y * q == -y * -q; } else { assert -(y * q) == -y * q; }
    } else if q < 0 {
      assert -(y * q) == y * -q;
    }
  }

  predicate IsTrue(o: Option<Word>) { o == Some(1) }

  /** A comparison is 0 or 1; of <, == and > exactly one is true, a number is smaller than
      its successor, smaller is transitive, and <=, >= and != deny >, < and ==. ! is 1 for
      0 alone. */
  lemma CompareLaws(a: Word, b: Word, c: Word)
    ensures forall cc :: BinaryValue(Compare(cc), a, b) == Some(0) || IsTrue(BinaryValue(Compare(cc), a, b))
    ensures IsTrue(BinaryValue(Compare(E), a, b)) <==> a == b
    ensures var l, e, g := IsTrue(BinaryValue(Compare(L), a, b)), IsTrue(BinaryValue(Compare(E), a, b)),
                           IsTrue(BinaryValue(Compare(G), a, b));
            (l || e || g) && !(l && e) && !(l && g) && !(e && g)
    ensures IsTrue(BinaryValue(Compare(L), a, b)) && IsTrue(BinaryValue(Compare(L), b, c)) ==>
              IsTrue(BinaryValue(Compare(L), a, c))
    ensures Signed(a) < HALF - 1 ==> IsTrue(BinaryValue(Compare(L), a, Wrap(Signed(a) + 1)))
    ensures IsTrue(BinaryValue(Compare(Le), a, b)) <==> !IsTrue(BinaryValue(Compare(G), a, b))
    ensures IsTrue(BinaryValue(Compare(Ge), a, b)) <==> !IsTrue(BinaryValue(Compare(L), a, b))
    ensures IsTrue(BinaryValue(Compare(Ne), a, b)) <==> !IsTrue(BinaryValue(Compare(E), a, b))
    ensures UnaryValue(LogicalNot, a) == if a == 0 then 1 else 0
  {
    WrapBack(Signed(a) + 1);
  }
}
