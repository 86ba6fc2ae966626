/** The line drawing of the asteroids game against the ideal line. */
module Bresenham {
  import opened Basics

  const WIDTH: nat := 800
  const HEIGHT: nat := 600

  datatype Point = Point(x: int, y: int)

  function Distance(a: int, b: int): nat { if b > a then b - a else a - b }

  function Sign(a: int, b: int): int { if a < b then 1 else -1 }

  /** k * m / n rounded to the nearest integer, halves down. */
  function Rounded(k: nat, m: nat, n: nat): nat
    requires n > 0
  {
    (2 * (k * m) + n - 1) / (2 * n)
  }

  function Steps(p: Point, q: Point): nat {
    var dx, dy := Distance(p.x, q.x), Distance(p.y, q.y);
    if dx >= dy then dx else dy
  }

  /** The k-th point of the line from `p` to `q`: one step at a time along the
      longer axis, the nearest pixel along the other. */
  function Nth(p: Point, q: Point, k: nat): Point {
    var dx, dy := Distance(p.x, q.x), Distance(p.y, q.y);
    var sx, sy := Sign(p.x, q.x), Sign(p.y, q.y);
    if dx == 0 && dy == 0 then p
    else if dx >= dy then Point(p.x + sx * k, p.y + sy * Rounded(k, dy, dx))
    else Point(p.x + sx * Rounded(k, dx, dy), p.y + sy * k)
  }

  /** Rounding is characterised by its error: less than half upwards, at most
      half downwards. */
  lemma {:induction false} RoundedIs(k: nat, m: nat, n: nat, r: nat)
    requires n > 0
    ensures Rounded(k, m, n) == r <==> -(n as int) <= 2 * (r * n) - 2 * (k * m) < n
  {
    var u, v := k * m, r * n;
    RoundedValue(u, v, n, r);
  }

  /** The same with the products as plain numbers. */
  lemma {:induction false} RoundedValue(u: nat, v: nat, n: nat, r: nat)
    requires n > 0 && v == r * n
    ensures (2 * u + n - 1) / (2 * n) == r <==> -(n as int) <= 2 * v - 2 * u < n
  {
    var x, d := 2 * u + n - 1, 2 * n;
    assert d * r == 2 * v;
    if x / d == r {
      assert x == d * r + x % d;
    }
    if -(n as int) <= 2 * v - 2 * u < n {
      DivIs(x, d, r, x - 2 * v);
    }
  }

  lemma {:induction false} RoundedEnds(m: nat, n: nat)
    requires n > 0 && m <= n
    ensures Rounded(0, m, n) == 0 && Rounded(n, m, n) == m
  {
    RoundedIs(0, m, n, 0);
    RoundedIs(n, m, n, m);
  }

  /** The other axis moves by nothing or by one pixel at each step. */
  lemma {:induction false} RoundedStep(k: nat, m: nat, n: nat)
    requires n > 0 && m <= n
    ensures Rounded(k + 1, m, n) == Rounded(k, m, n) || Rounded(k + 1, m, n) == Rounded(k, m, n) + 1
  {
    var r, s := Rounded(k, m, n), Rounded(k + 1, m, n);
    RoundedIs(k, m, n, r);
    RoundedIs(k + 1, m, n, s);
    assert (k + 1) * m == k * m + m;
    Between(r, s, n);
  }

  lemma {:induction false} Between(r: nat, s: nat, n: nat)
    requires n > 0 && -2 * n < 2 * (s * n) - 2 * (r * n) < 4 * n
    ensures s == r || s == r + 1
  {
    var d := s - r;
    assert d * n == s * n - r * n;
    assert d >= 2 ==> d * n >= 2 * n;
    assert d <= -1 ==> d * n + n <= 0;
  }

  /** The line starts and ends at its end points. */
  lemma {:induction false} LineEnds(p: Point, q: Point)
    ensures Nth(p, q, 0) == p && Nth(p, q, Steps(p, q)) == q
  {
    var dx, dy := Distance(p.x, q.x), Distance(p.y, q.y);
    if dx > 0 || dy > 0 {
      if dx >= dy { RoundedEnds(dy, dx); } else { RoundedEnds(dx, dy); }
    }
  }

  /** Each step moves one pixel along the longer axis and at most one along the
      other, both towards the far end. */
  lemma {:induction false} LineSteps(p: Point, q: Point, k: nat)
    requires k < Steps(p, q)
    ensures var u, v := Nth(p, q, k), Nth(p, q, k + 1);
            var sx, sy := Sign(p.x, q.x), Sign(p.y, q.y);
            if Distance(p.x, q.x) >= Distance(p.y, q.y) then v.x == u.x + sx && (v.y == u.y || v.y == u.y + sy)
            else v.y == u.y + sy && (v.x == u.x || v.x == u.x + sx)
  {
    var dx, dy := Distance(p.x, q.x), Distance(p.y, q.y);
    if dx >= dy { RoundedStep(k, dy, dx); } else { RoundedStep(k, dx, dy); }
  }

  /** Every point lies within half a pixel of the ideal line, measured along
      the shorter axis: twice the cross product is at most the longer side. */
  lemma {:induction false} HalfPixel(p: Point, q: Point, k: nat)
    requires k <= Steps(p, q)
    ensures var u := Nth(p, q, k);
            var cross := (u.y - p.y) * (q.x - p.x) - (u.x - p.x) * (q.y - p.y);
            -(Steps(p, q) as int) <= 2 * cross <= Steps(p, q)
  {
    var dx, dy := Distance(p.x, q.x), Distance(p.y, q.y);
    var sx, sy := Sign(p.x, q.x), Sign(p.y, q.y);
    if dx > 0 || dy > 0 {
      var a := if dx >= dy then k else Rounded(k, dx, dy);
      var b := if dx >= dy then Rounded(k, dy, dx) else k;
      if dx >= dy { RoundedIs(k, dy, dx, b); } else { RoundedIs(k, dx, dy, a); }
      Signed(sx, sy, a, b, dx, dy);
      assert dx == 0 ==> q.x - p.x == 0;
      assert dy == 0 ==> q.y - p.y == 0;
    }
  }

  lemma Signed(sx: int, sy: int, a: nat, b: nat, dx: nat, dy: nat)
    requires (sx == 1 || sx == -1) && (sy == 1 || sy == -1)
    ensures (sy * b) * (sx * dx) - (sx * a) * (sy * dy) == sx * sy * (b * dx - a * dy)
  {
    if sx == 1 && sy == 1 {
    } else if sx == 1 {
    } else if sy == 1 {
    } else {
    }
  }

  predicate OnScreen(p: Point) {
    0 <= p.x < WIDTH && 0 <= p.y < HEIGHT
  }

  /** The position in the back buffer of a point on the screen. */
  function Offset(p: Point): nat
    requires OnScreen(p)
  {
    p.y * WIDTH + p.x
  }

  /** Pixels follow one another from the top left on, along the lines and line by line. */
  lemma PixelOrder(p: Point, q: Point)
    requires OnScreen(p) && OnScreen(q)
    ensures Offset(Point(0, 0)) == 0
    ensures q == Point(p.x + 1, p.y) || (p.x == WIDTH - 1 && q == Point(0, p.y + 1)) <==> Offset(q) == Offset(p) + 1
    ensures Offset(p) < WIDTH * HEIGHT && (Offset(p) == Offset(q) <==> p == q)
  {
  }

  /** The buffer position `o` belongs to one of the first `n` points. */
  ghost predicate Hit(p: Point, q: Point, n: nat, o: nat) {
    exists k :: 0 <= k < n && OnScreen(Nth(p, q, k)) && Offset(Nth(p, q, k)) == o
  }

  /** The walk after k steps: `a` and `b` count the moves along either axis. */
  ghost predicate Walking(dx: nat, dy: nat, k: nat, a: nat, b: nat, err: int) {
    && (if dx >= dy then a == k else b == k)
    && (dx >= dy && dx > 0 ==> b == Rounded(k, dy, dx))
    && (dx < dy ==> a == Rounded(k, dx, dy))
    && (dx == 0 && dy == 0 ==> b == 0)
    && err == dx - dy + (b * dx - a * dy)
    && (if dx >= dy then k <= dx else k <= dy)
  }

  /** One turn of the loop goes on to the next point. */
  lemma {:induction false} WalkStep(dx: nat, dy: nat, k: nat, a: nat, b: nat, err: int)
    requires Walking(dx, dy, k, a, b, err) && (if dx >= dy then k < dx else k < dy)
    ensures var a' := if 2 * err > -(dy as int) then a + 1 else a;
            var b' := if 2 * err < dx then b + 1 else b;
            var e1 := if 2 * err > -(dy as int) then err - dy else err;
            var e2 := if 2 * err < dx then e1 + dx else e1;
            Walking(dx, dy, k + 1, a', b', e2)
  {
    if dx >= dy {
      StepAlongX(dx, dy, k, b, err);
    } else {
      StepAlongY(dx, dy, k, a, err);
    }
  }

  lemma {:induction false} StepAlongX(dx: nat, dy: nat, k: nat, b: nat, err: int)
    requires Walking(dx, dy, k, k, b, err) && dx >= dy && k < dx
    ensures 2 * err > -(dy as int)
    ensures var b' := if 2 * err < dx then b + 1 else b;
            Walking(dx, dy, k + 1, k + 1, b', err - dy + if 2 * err < dx then dx else 0)
  {
    hide Rounded;
    var u, v := k * dy, b * dx;
    RoundedIs(k, dy, dx, b);
    if dx == dy { Diagonal(v - u, b - k, dx); }
    assert (k + 1) * dy == u + dy && (b + 1) * dx == v + dx;
    var b' := if 2 * err < dx then b + 1 else b;
    RoundedIs(k + 1, dy, dx, b');
  }

  lemma {:induction false} StepAlongY(dx: nat, dy: nat, k: nat, a: nat, err: int)
    requires Walking(dx, dy, k, a, k, err) && dx < dy && k < dy
    ensures 2 * err < dx
    ensures var a' := if 2 * err > -(dy as int) then a + 1 else a;
            Walking(dx, dy, k + 1, a', k + 1, err + dx - if 2 * err > -(dy as int) then dy else 0)
  {
    hide Rounded;
    var u, v := k * dx, a * dy;
    RoundedIs(k, dx, dy, a);
    assert (k + 1) * dx == u + dx && (a + 1) * dy == v + dy;
    var a' := if 2 * err > -(dy as int) then a + 1 else a;
    RoundedIs(k + 1, dx, dy, a');
  }

  lemma Diagonal(d: int, m: int, n: nat)
    requires n > 0 && d == m * n && -(n as int) <= 2 * d < n
    ensures d == 0
  {
    assert m >= 1 ==> m * n >= n;
    assert m <= -1 ==> m * n + n <= 0;
  }

  lemma WalkStart(dx: nat, dy: nat)
    ensures Walking(dx, dy, 0, 0, 0, dx - dy)
  {
    if dx >= dy && dx > 0 { RoundedEnds(dy, dx); }
    if dx < dy { RoundedEnds(dx, dy); }
  }

  /** At the far end both coordinates arrive together, and not before. */
  lemma {:induction false} WalkEnd(dx: nat, dy: nat, k: nat, a: nat, b: nat, err: int)
    requires Walking(dx, dy, k, a, b, err)
    ensures a == dx && b == dy <==> k == if dx >= dy then dx else dy
  {
    if dx >= dy && dx > 0 { RoundedEnds(dy, dx); }
    if dx < dy { RoundedEnds(dx, dy); }
  }

  lemma WalkPoint(p: Point, q: Point, k: nat, a: nat, b: nat, err: int)
    requires Walking(Distance(p.x, q.x), Distance(p.y, q.y), k, a, b, err)
    ensures Point(p.x + Sign(p.x, q.x) * a, p.y + Sign(p.y, q.y) * b) == Nth(p, q, k)
  {
  }

  class Canvas {
    const back: array<byte>

    ghost predicate Valid() { back.Length == WIDTH * HEIGHT }

    constructor ()
      ensures Valid() && fresh(back)
    {
      back := new byte[WIDTH * HEIGHT](_ => 0);
    }

    /** Sets a pixel; points off the screen are ignored. */
    method Px(x: int, y: int, c: byte)
      requires Valid()
      modifies back
      ensures forall o :: 0 <= o < back.Length ==>
                back[o] == if OnScreen(Point(x, y)) && o == Offset(Point(x, y)) then c else old(back[o])
    {
      if 0 <= x < WIDTH && 0 <= y < HEIGHT { back[y * WIDTH + x] := c; }
    }

    /** Draws a line: exactly its points, in exactly as many steps as its longer
        side has pixels. */
    method GLine(p: Point, q: Point, c: byte) returns (steps: nat)
      requires Valid()
      modifies back
      ensures steps == Steps(p, q)
      ensures forall o :: 0 <= o < back.Length ==>
                back[o] == if Hit(p, q, Steps(p, q) + 1, o) then c else old(back[o])
    {
      hide Walking, Nth, OnScreen, Offset, Hit, Rounded;
      NoneHit(p, q);
      var dx := if q.x > p.x then q.x - p.x else p.x - q.x;
      var dy := if q.y > p.y then q.y - p.y else p.y - q.y;
      var sx := if p.x < q.x then 1 else -1;
      var sy := if p.y < q.y then 1 else -1;
      var err := dx - dy;
      var x, y := p.x, p.y;
      ghost var a: nat, b: nat := 0, 0;
      steps := 0;
      WalkStart(dx, dy);
      while true
        invariant steps <= Steps(p, q) && Walking(dx, dy, steps, a, b, err)
        invariant x == p.x + sx * a && y == p.y + sy * b
        invariant forall o :: 0 <= o < back.Length ==>
                    back[o] == if Hit(p, q, steps, o) then c else old(back[o])
        decreases Steps(p, q) - steps
      {
        WalkPoint(p, q, steps, a, b, err);
        Px(x, y, c);
        OneMore(p, q, steps);
        WalkEnd(dx, dy, steps, a, b, err);
        Arrived(p, q, a, b);
        if x == q.x && y == q.y { break; }
        WalkStep(dx, dy, steps, a, b, err);
        var e2 := 2 * err;
        if e2 > -dy {
          err := err - dy;
          x := x + sx;
          a := a + 1;
        }
        if e2 < dx {
          err := err + dx;
          y := y + sy;
          b := b + 1;
        }
        steps := steps + 1;
      }
    }
  }

  lemma NoneHit(p: Point, q: Point)
    ensures forall o :: !Hit(p, q, 0, o)
  {
  }

  lemma OneMore(p: Point, q: Point, n: nat)
    ensures forall o :: Hit(p, q, n + 1, o)
                        <==> Hit(p, q, n, o) || (OnScreen(Nth(p, q, n)) && Offset(Nth(p, q, n)) == o)
  {
    hide Nth, OnScreen, Offset;
    forall o: nat
      ensures Hit(p, q, n + 1, o) <==> Hit(p, q, n, o) || (OnScreen(Nth(p, q, n)) && Offset(Nth(p, q, n)) == o)
    {
      if Hit(p, q, n + 1, o) {
        var k :| 0 <= k < n + 1 && OnScreen(Nth(p, q, k)) && Offset(Nth(p, q, k)) == o;
        if k < n { assert Hit(p, q, n, o); }
      }
    }
  }

  lemma Arrived(p: Point, q: Point, a: nat, b: nat)
    ensures p.x + Sign(p.x, q.x) * a == q.x <==> a == Distance(p.x, q.x)
    ensures p.y + Sign(p.y, q.y) * b == q.y <==> b == Distance(p.y, q.y)
  {
  }
}
