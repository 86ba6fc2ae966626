/** The rocks, bullets and ship of the asteroids game: what every hit, wave and
    frame conserves, and how far anything can move. */
module Asteroids {
  import opened Basics

  const W: int := 204800
  const H: int := 153600
  const MAX_ROCKS: nat := 64
  const MAX_BULLETS: nat := 8
  const VERTICES: nat := 10

  // ---- fixed-point trigonometry ----

  /** The sine of i quarter-turn sixty-fourths, scaled by 2^14. */
  function Quarter(i: nat): (r: int)
    requires i <= 64
    ensures 0 <= r <= 16384
  {
    if i == 0 then 0 else if i == 1 then 402 else if i == 2 then 804 else if i == 3 then 1205 else
    if i == 4 then 1606 else if i == 5 then 2006 else if i == 6 then 2404 else if i == 7 then 2801 else
    if i == 8 then 3196 else if i == 9 then 3590 else if i == 10 then 3981 else if i == 11 then 4370 else
    if i == 12 then 4756 else if i == 13 then 5139 else if i == 14 then 5520 else if i == 15 then 5897 else
    if i == 16 then 6270 else if i == 17 then 6639 else if i == 18 then 7005 else if i == 19 then 7366 else
    if i == 20 then 7723 else if i == 21 then 8076 else if i == 22 then 8423 else if i == 23 then 8765 else
    if i == 24 then 9102 else if i == 25 then 9434 else if i == 26 then 9760 else if i == 27 then 10080 else
    if i == 28 then 10394 else if i == 29 then 10702 else if i == 30 then 11003 else if i == 31 then 11297 else
    if i == 32 then 11585 else if i == 33 then 11866 else if i == 34 then 12140 else if i == 35 then 12406 else
    if i == 36 then 12665 else if i == 37 then 12916 else if i == 38 then 13160 else if i == 39 then 13395 else
    if i == 40 then 13623 else if i == 41 then 13842 else if i == 42 then 14053 else if i == 43 then 14256 else
    if i == 44 then 14449 else if i == 45 then 14635 else if i == 46 then 14811 else if i == 47 then 14978 else
    if i == 48 then 15137 else if i == 49 then 15286 else if i == 50 then 15426 else if i == 51 then 15557 else
    if i == 52 then 15679 else if i == 53 then 15791 else if i == 54 then 15893 else if i == 55 then 15986 else
    if i == 56 then 16069 else if i == 57 then 16143 else if i == 58 then 16207 else if i == 59 then 16261 else
    if i == 60 then 16305 else if i == 61 then 16340 else if i == 62 then 16364 else if i == 63 then 16379 else
    16384
  }

  function Sin(a: byte): (r: int)
    ensures -16384 <= r <= 16384
  {
    if a <= 64 then Quarter(a) else if a <= 128 then Quarter(128 - a)
    else if a <= 192 then -Quarter(a - 128) else -Quarter(256 - a)
  }

  function Cos(a: byte): (r: int)
    ensures -16384 <= r <= 16384
  {
    Sin((a + 64) % 256)
  }

  /** The table rises, ever less steeply. */
  lemma QuarterRises(i: nat)
    requires i < 64
    ensures Quarter(i) < Quarter(i + 1)
    ensures i < 63 ==> Quarter(i + 2) - Quarter(i + 1) <= Quarter(i + 1) - Quarter(i)
  {
  }

  /** Sine and cosine of every angle lie on the circle of radius 2^14, up to rounding. */
  lemma Circle(a: byte)
    ensures -20000 < Sin(a) * Sin(a) + Cos(a) * Cos(a) - 0x1000_0000 < 20000
  {
    hide Quarter;
    var i := a % 64;
    QuarterCircle(i);
    QuarterCircle(64 - i);
    assert Sin(a) * Sin(a) + Cos(a) * Cos(a) == Quarter(i) * Quarter(i) + Quarter(64 - i) * Quarter(64 - i) by {
      SquareOf(Quarter(i));
      SquareOf(Quarter(64 - i));
    }
  }

  lemma SquareOf(x: int)
    ensures -x * -x == x * x
  {
  }

  lemma QuarterCircle(i: nat)
    requires i <= 64
    ensures -20000 < Quarter(i) * Quarter(i) + Quarter(64 - i) * Quarter(64 - i) - 0x1000_0000 < 20000
  {
    if i <= 16 { } else if i <= 32 { } else if i <= 48 { } else { }
  }

  /** Angle 0 points right and 64 down; half a turn points back, a quarter turn takes the
      cosine to the sine, and angles above and below 0 mirror one another. */
  lemma Turns(a: byte)
    ensures Sin(0) == 0 && Sin(64) == 16384 && Cos(0) == 16384 && Cos(64) == 0
    ensures Sin((a + 128) % 256) == -Sin(a) && Cos((a + 128) % 256) == -Cos(a)
    ensures Sin((a + 64) % 256) == Cos(a)
    ensures Sin((256 - a) % 256) == -Sin(a) && Cos((256 - a) % 256) == Cos(a)
  {
    hide Sin;
    QuarterEnds();
    HalfTurn(a);
    Mirror(a);
    CosineTurns(a);
    CosineMirrors(a);
  }

  lemma CosineTurns(a: byte)
    ensures Cos((a + 128) % 256) == -Cos(a)
  {
    hide Sin;
    HalfTurn((a + 64) % 256);
    assert ((a + 64) % 256 + 128) % 256 == ((a + 128) % 256 + 64) % 256;
  }

  lemma CosineMirrors(a: byte)
    ensures Cos((256 - a) % 256) == Cos(a)
  {
    hide Sin;
    var b: byte := (a + 192) % 256;
    Mirror(b);
    HalfTurn(b);
    assert (256 - b) % 256 == ((256 - a) % 256 + 64) % 256;
    assert (b + 128) % 256 == (a + 64) % 256;
  }

  lemma HalfTurn(a: byte)
    ensures Sin((a + 128) % 256) == -Sin(a)
  {
    hide Quarter;
    QuarterEnds();
  }

  lemma Mirror(a: byte)
    ensures Sin((256 - a) % 256) == -Sin(a)
  {
    hide Quarter;
    QuarterEnds();
  }

  lemma QuarterEnds()
    ensures Quarter(0) == 0 && Quarter(64) == 16384
    ensures Sin(0) == 0 && Sin(64) == 16384 && Sin(128) == 0
  {
  }

  /** Arithmetic shift to the right. */
  function Shift(x: int, d: int): int
    requires d > 0
  {
    x / d
  }

  /** A scaled sine times `n`, with the scale taken out, is at most `n`. */
  lemma Scaled(s: int, n: nat)
    requires -16384 <= s <= 16384
    ensures -(n as int) <= Shift(s * n, 16384) <= n
  {
    Grows(0, 16384 - s, n);
    Grows(0, 16384 + s, n);
    SumTimes(16384 - s, 16384 + s, n);
    assert (16384 - s) * n == 16384 * n - s * n;
    Quotient(s * n, n);
  }

  lemma Quotient(x: int, n: nat)
    requires -(16384 * n) <= x <= 16384 * n
    ensures -(n as int) <= Shift(x, 16384) <= n
  {
  }

  // ---- things that move ----

  datatype Rock = Rock(x: int, y: int, vx: int, vy: int, size: nat, radius: int, rot: byte, spin: int, jag: seq<int>,
                       active: bool)

  datatype Bullet = Bullet(x: int, y: int, vx: int, vy: int, life: int, active: bool)

  datatype Ship = Ship(x: int, y: int, vx: int, vy: int, angle: byte, invuln: nat)

  function Wrap(x: int, size: int): int {
    var y := if x < 0 then x + size else x;
    if y >= size then y - size else y
  }

  predicate Inside(x: int, y: int) { 0 <= x < W && 0 <= y < H }

  predicate Slow(vx: int, vy: int, bound: int) { -bound <= vx <= bound && -bound <= vy <= bound }

  /** One wrap brings anything back that is less than a screen away, by a whole screen. */
  lemma WrapInside(z: int, size: int)
    requires -size <= z < 2 * size
    ensures 0 <= Wrap(z, size) < size
    ensures Wrap(z, size) == z % size
  {
    if z < 0 { RestIs(z, size, -1); } else if z < size { RestIs(z, size, 0); } else { RestIs(z, size, 1); }
  }

  lemma RestIs(z: int, size: int, k: int)
    requires size > 0 && k * size <= z < (k + 1) * size
    ensures z % size == z - k * size
  {
    var q, r := z / size, z % size;
    assert z == q * size + r;
    assert (q - k) * size == z - k * size - r;
    assert q - k >= 1 ==> (q - k) * size >= size;
    assert q - k <= -1 ==> (q - k) * size <= -size;
  }

  /** The speed after friction. */
  function Slowed(v: int): int { v - Shift(v, 64) }

  /** What friction takes is a sixty-fourth of the speed, rounded down. */
  lemma Friction(v: int)
    ensures 64 * (v - Slowed(v)) <= v < 64 * (v - Slowed(v)) + 64
  {
  }

  /** The speed limit is where friction takes away what thrust can add. */
  lemma SpeedLimit(v: int, t: int)
    requires -2520 <= v <= 2520 && -40 <= t <= 40
    ensures -2520 <= Slowed(v + t) <= 2520
  {
  }

  /** The limit cannot be lowered: at full thrust it is kept forever. */
  lemma SpeedLimitReached(v: int)
    requires 0 <= v <= 2520
    ensures if v < 2520 then Slowed(v + 40) > v else Slowed(v + 40) == v
  {
  }

  // ---- what rocks are worth ----

  predicate ProperRock(r: Rock) {
    r.active ==> r.size <= 2 && r.radius == Radius(r.size) && Inside(r.x, r.y) && Slow(r.vx, r.vy, 260)
  }

  /** How many active rocks have this size. */
  function Count(rs: seq<Rock>, size: nat): nat
    decreases |rs|
  {
    if rs == [] then 0
    else Count(rs[..|rs| - 1], size) + if rs[|rs| - 1].active && rs[|rs| - 1].size == size then 1 else 0
  }

  function Active(rs: seq<Rock>): nat
    decreases |rs|
  {
    if rs == [] then 0 else Active(rs[..|rs| - 1]) + if rs[|rs| - 1].active then 1 else 0
  }

  /** Two to the size, summed. */
  function Weight(rs: seq<Rock>): nat { 4 * Count(rs, 2) + 2 * Count(rs, 1) + Count(rs, 0) }

  /** The score still to be won from the rocks there are. */
  function Worth(rs: seq<Rock>): nat { 520 * Count(rs, 2) + 250 * Count(rs, 1) + 100 * Count(rs, 0) }

  function One(b: bool): nat { if b then 1 else 0 }

  lemma {:induction false} CountUpdate(rs: seq<Rock>, i: nat, r: Rock, size: nat)
    requires i < |rs|
    ensures Count(rs[i := r], size) + One(rs[i].active && rs[i].size == size)
            == Count(rs, size) + One(r.active && r.size == size)
    decreases |rs|
  {
    var n := |rs| - 1;
    var rs' := rs[i := r];
    if i < n {
      assert rs'[..n] == rs[..n][i := r];
      CountUpdate(rs[..n], i, r, size);
    } else {
      assert rs'[..n] == rs[..n];
    }
  }

  lemma {:induction false} ActiveCounted(rs: seq<Rock>)
    requires forall i :: 0 <= i < |rs| ==> ProperRock(rs[i])
    ensures Active(rs) == Count(rs, 0) + Count(rs, 1) + Count(rs, 2)
    decreases |rs|
  {
    if rs != [] {
      assert forall i :: 0 <= i < |rs| - 1 ==> rs[..|rs| - 1][i] == rs[i];
      ActiveCounted(rs[..|rs| - 1]);
    }
  }

  lemma {:induction false} AllActive(rs: seq<Rock>)
    requires forall i :: 0 <= i < |rs| ==> rs[i].active
    ensures Active(rs) == |rs|
    decreases |rs|
  {
    if rs != [] {
      assert forall i :: 0 <= i < |rs| - 1 ==> rs[..|rs| - 1][i] == rs[i];
      AllActive(rs[..|rs| - 1]);
    }
  }

  /** The first free slot, or |rs|. */
  function Free(rs: seq<Rock>): (k: nat)
    ensures k <= |rs| && (k < |rs| ==> !rs[k].active) && forall i :: 0 <= i < k ==> rs[i].active
  {
    if rs == [] || !rs[0].active then 0 else Free(rs[1..]) + 1
  }

  /** As long as the weight is at most 44 there is room for another rock. */
  lemma RoomForRock(rs: seq<Rock>)
    requires |rs| == MAX_ROCKS && (forall i :: 0 <= i < |rs| ==> ProperRock(rs[i])) && Weight(rs) <= 44
    ensures Free(rs) < MAX_ROCKS
  {
    ActiveCounted(rs);
    if Free(rs) == |rs| { AllActive(rs); }
  }

  lemma NoneActive(rs: seq<Rock>)
    requires forall i :: 0 <= i < |rs| ==> !rs[i].active
    ensures Weight(rs) == 0 && Worth(rs) == 0
  {
    NoneCounted(rs, 0);
    NoneCounted(rs, 1);
    NoneCounted(rs, 2);
  }

  lemma {:induction false} NoneCounted(rs: seq<Rock>, size: nat)
    requires forall i :: 0 <= i < |rs| ==> !rs[i].active
    ensures Count(rs, size) == 0
    decreases |rs|
  {
    if rs != [] {
      assert forall i :: 0 <= i < |rs| - 1 ==> rs[..|rs| - 1][i] == rs[i];
      NoneCounted(rs[..|rs| - 1], size);
    }
  }

  lemma {:induction false} CountSame(rs: seq<Rock>, ts: seq<Rock>, size: nat)
    requires |rs| == |ts| && forall i :: 0 <= i < |rs| ==> ts[i].active == rs[i].active && ts[i].size == rs[i].size
    ensures Count(ts, size) == Count(rs, size)
    decreases |rs|
  {
    if rs != [] {
      var n := |rs| - 1;
      assert forall i :: 0 <= i < n ==> rs[..n][i] == rs[i] && ts[..n][i] == ts[i];
      CountSame(rs[..n], ts[..n], size);
    }
  }

  // ---- chance ----

  type Seed = x: int | 0 <= x < 0x1_0000_0000

  function NextSeed(s: Seed): Seed { (s * 1103515245 + 12345) % 0x1_0000_0000 }

  function Drawn(s: Seed): nat { s / 0x10000 % 0x8000 }

  function InRange(s: Seed, lo: int, hi: int): (r: int)
    requires lo <= hi
    ensures lo <= r <= hi
  {
    lo + Drawn(s) % (hi - lo + 1)
  }

  /** Every value of the range can be drawn. */
  lemma EveryValueDrawn(lo: int, hi: int, v: int) returns (s: Seed)
    requires lo <= v <= hi < lo + 0x8000
    ensures InRange(s, lo, hi) == v
  {
    s := (v - lo) * 0x10000;
    var d: nat := v - lo;
    assert Drawn(s) == d;
    SmallRest(d, hi - lo + 1);
  }

  lemma SmallRest(d: nat, n: nat)
    requires d < n
    ensures d % n == d
  {
  }

  function Previous(s: Seed): Seed { (s - 12345) * 4005161829 % 0x1_0000_0000 }

  /** No two seeds have the same successor. */
  lemma SeedsApart(s: Seed)
    ensures Previous(NextSeed(s)) == s
  {
    var x := s * 1103515245 + 12345;
    var q := x / 0x1_0000_0000;
    assert NextSeed(s) == x - q * 0x1_0000_0000;
    var y := (NextSeed(s) - 12345) * 4005161829;
    WholeMultiple(s, s * 1029054899 - q * 4005161829, y);
  }

  lemma WholeMultiple(s: Seed, k: int, y: int)
    requires y == s + k * 0x1_0000_0000
    ensures y % 0x1_0000_0000 == s
  {
    var q, r := y / 0x1_0000_0000, y % 0x1_0000_0000;
    assert y == q * 0x1_0000_0000 + r;
  }

  function Radius(size: nat): int {
    if size == 0 then 12 else if size == 1 then 24 else 42
  }

  /** What a hit with a rock of this size scores. */
  function Points(size: nat): nat {
    if size == 2 then 20 else if size == 1 then 50 else 100
  }

  /** All that a rock of this size is worth, down to its smallest pieces. */
  function Total(size: nat): nat {
    if size == 2 then 520 else if size == 1 then 250 else 100
  }

  function Heft(size: nat): nat {
    if size == 2 then 4 else if size == 1 then 2 else 1
  }

  lemma WeightUpdate(rs: seq<Rock>, i: nat, r: Rock)
    requires i < |rs| && (rs[i].active ==> rs[i].size <= 2) && (r.active ==> r.size <= 2)
    ensures Weight(rs[i := r]) + (if rs[i].active then Heft(rs[i].size) else 0)
            == Weight(rs) + if r.active then Heft(r.size) else 0
    ensures Worth(rs[i := r]) + (if rs[i].active then Total(rs[i].size) else 0)
            == Worth(rs) + if r.active then Total(r.size) else 0
  {
    CountUpdate(rs, i, r, 0);
    CountUpdate(rs, i, r, 1);
    CountUpdate(rs, i, r, 2);
  }

  lemma WeightSame(rs: seq<Rock>, ts: seq<Rock>)
    requires |rs| == |ts| && forall i :: 0 <= i < |rs| ==> ts[i].active == rs[i].active && ts[i].size == rs[i].size
    ensures Weight(ts) == Weight(rs) && Worth(ts) == Worth(rs)
  {
    CountSame(rs, ts, 0);
    CountSame(rs, ts, 1);
    CountSame(rs, ts, 2);
  }
}
