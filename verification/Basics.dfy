/** Notions shared by all the models. */
module Basics {
  type byte = x: int | 0 <= x < 256

  datatype Option<+T> = None | Some(value: T)

  function Smaller(a: nat, b: nat): nat {
    if a < b then a else b
  }

  /** Quotient and remainder are determined by their product and sum. */
  lemma {:induction false} DivIs(x: nat, d: nat, q: nat, r: nat)
    requires d > 0 && x == d * q + r && r < d
    ensures x / d == q
  {
    var k := x / d - q;
    assert d * k == r - x % d;
    assert k >= 1 ==> d * k >= d;
    assert k <= -1 ==> d * k + d <= 0;
  }

  lemma Grows(a: nat, b: nat, u: nat)
    requires a <= b
    ensures a * u <= b * u
  {
    assert b * u == a * u + (b - a) * u;
  }

  lemma SumTimes(a: nat, b: nat, u: nat)
    ensures (a + b) * u == a * u + b * u
  {
  }
}
