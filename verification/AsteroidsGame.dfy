/** The game itself, frame by frame. */
module AsteroidsGame {
  import opened Basics
  import opened Asteroids

  datatype Keys = Keys(left: bool, right: bool, thrust: bool, fire: bool)

  /** Where and how fast a bullet may be before it is first moved. */
  predicate Flying(b: Bullet) {
    b.active ==> -4096 <= b.x < W + 4096 && -4096 <= b.y < H + 4096 && Slow(b.vx, b.vy, 4760)
  }

  predicate OnScreen(b: Bullet) {
    b.active ==> Inside(b.x, b.y) && Slow(b.vx, b.vy, 4760)
  }

  predicate AllProper(rs: seq<Rock>) {
    forall i :: 0 <= i < |rs| ==> ProperRock(rs[i])
  }

  class Game {
    const rocks: array<Rock>
    const bullets: array<Bullet>
    var ship: Ship
    var score: nat
    var lives: int
    var level: nat
    var fireCd: nat
    var seed: Seed
    /** How many large rocks the waves have brought so far. */
    ghost var brought: nat

    ghost predicate Sized() {
      rocks.Length == MAX_ROCKS && bullets.Length == MAX_BULLETS
    }

    /** The rocks are few enough, and with the score they account for all that
        the waves brought. */
    ghost predicate RocksFine()
      reads this, rocks
    {
      && Sized() && AllProper(rocks[..]) && Weight(rocks[..]) <= 44
      && score + Worth(rocks[..]) == 520 * brought
    }

    ghost predicate BulletsFine()
      reads bullets
    {
      Sized() && forall i :: 0 <= i < MAX_BULLETS ==> OnScreen(bullets[i])
    }

    ghost predicate ShipFine()
      reads this
    {
      Inside(ship.x, ship.y) && Slow(ship.vx, ship.vy, 2520)
    }

    ghost predicate Valid()
      reads this, rocks, bullets
    {
      RocksFine() && BulletsFine() && ShipFine()
    }

    /** The level is the one the score belongs to: all rocks of the waves before
        are scored, and not all of this one's. */
    ghost predicate Booked()
      reads this
    {
      level > 0 && brought == Brought(level) && 520 * Brought(level - 1) <= score < 520 * Brought(level)
    }

    constructor (seed: Seed)
      ensures Valid() && Booked() && score == 0 && level == 1 && fresh(rocks) && fresh(bullets)
    {
      rocks := new Rock[MAX_ROCKS](_ => Rock(0, 0, 0, 0, 0, 0, 0, 0, [], false));
      bullets := new Bullet[MAX_BULLETS](_ => Bullet(0, 0, 0, 0, 0, false));
      this.seed := seed;
      score, lives, level, fireCd := 0, 3, 0, 0;
      brought := 0;
      ship := START;
      new;
      NoneActive(rocks[..]);
      NewWave();
    }

    method RndRange(lo: int, hi: int) returns (r: int)
      requires lo <= hi
      modifies this`seed
      ensures lo <= r <= hi && seed == NextSeed(old(seed)) && r == InRange(seed, lo, hi)
    {
      seed := NextSeed(seed);
      r := InRange(seed, lo, hi);
    }

    /** Puts a rock in the first free slot. */
    method SpawnRock(x: int, y: int, size: nat)
      requires Sized() && AllProper(rocks[..]) && size <= 2 && Inside(x, y)
      modifies this`seed, rocks
      ensures AllProper(rocks[..])
      ensures var k := Free(old(rocks[..]));
              if k == MAX_ROCKS then rocks[..] == old(rocks[..])
              else
                rocks[..] == old(rocks[..])[k := rocks[k]] && Newborn(rocks[k], x, y, size)
    {
      hide NextSeed, Drawn, InRange;
      var i := 0;
      while i < MAX_ROCKS && rocks[i].active
        invariant 0 <= i <= MAX_ROCKS && forall j :: 0 <= j < i ==> rocks[j].active
      {
        i := i + 1;
      }
      FreeIs(rocks[..], i);
      if i == MAX_ROCKS { return; }
      var spd := 80 + (2 - size) * 90;
      var vx := RndRange(-spd, spd);
      var vy := RndRange(-spd, spd);
      var rot := RndRange(0, 255);
      var spin := RndRange(0, 3);
      var radius := Radius(size);
      var jag: seq<int> := [];
      var v := 0;
      while v < VERTICES
        invariant 0 <= v <= VERTICES && rocks[..] == old(rocks[..])
        invariant |jag| == v && forall i :: 0 <= i < v ==> -(radius / 4) <= jag[i] <= radius / 4
      {
        var j := RndRange(-(radius / 4), radius / 4);
        jag := jag + [j];
        v := v + 1;
      }
      rocks[i] := Rock(x, y, vx, vy, size, radius, rot, (spin + 255) % 256, jag, true);
      assert rocks[..] == old(rocks[..])[i := rocks[i]];
    }

    /** The same, where there is room: the books are kept. */
    method AddRock(x: int, y: int, size: nat)
      requires Sized() && AllProper(rocks[..]) && size <= 2 && Inside(x, y) && Weight(rocks[..]) <= 44
      modifies this`seed, rocks
      ensures AllProper(rocks[..])
      ensures var k := Free(old(rocks[..]));
              && k < MAX_ROCKS && rocks[..] == old(rocks[..])[k := rocks[k]] && Newborn(rocks[k], x, y, size)
      ensures Weight(rocks[..]) == old(Weight(rocks[..])) + Heft(size)
      ensures Worth(rocks[..]) == old(Worth(rocks[..])) + Total(size)
    {
      hide Weight, Worth;
      RoomForRock(rocks[..]);
      ghost var before := rocks[..];
      SpawnRock(x, y, size);
      WeightUpdate(before, Free(before), rocks[Free(before)]);
    }

    /** Starts the next wave of large rocks. */
    method NewWave()
      requires RocksFine() && Weight(rocks[..]) == 0 && BulletsFine() && ShipFine()
      modifies this`level, this`seed, this`brought, rocks
      ensures Valid() && level == old(level) + 1 && score == old(score)
      ensures brought == old(brought) + InWave(level)
      ensures Active(rocks[..]) == InWave(level) && FromAbove(rocks[..])
    {
      hide Weight, Worth, NextSeed, Drawn, InRange;
      NothingLeft(rocks[..]);
      level := level + 1;
      var n := 3 + level;
      if n > 11 { n := 11; }
      var i := 0;
      while i < n
        invariant 0 <= i <= n && Sized() && AllProper(rocks[..])
        invariant level == old(level) + 1 && brought == old(brought)
        invariant Weight(rocks[..]) == 4 * i && score + Worth(rocks[..]) == 520 * (brought + i)
        invariant FromAbove(rocks[..]) && Active(rocks[..]) == i
      {
        var px := RndRange(0, 799);
        var py := RndRange(0, 60);
        ghost var before := rocks[..];
        AddRock(px * 256, py * 256, 2);
        ActiveUpdate(before, Free(before), rocks[Free(before)]);
        i := i + 1;
      }
      brought := brought + n;
    }

    /** A rock is hit: it scores, and breaks in two if it is not the smallest. */
    method HitRock(idx: nat)
      requires RocksFine() && idx < MAX_ROCKS && rocks[idx].active
      modifies this`score, this`seed, rocks
      ensures RocksFine()
      ensures score == old(score) + Points(old(rocks[idx].size))
      ensures Worth(rocks[..]) + Points(old(rocks[idx].size)) == old(Worth(rocks[..]))
      ensures Weight(rocks[..]) == old(Weight(rocks[..])) - if old(rocks[idx].size) == 0 then 1 else 0
      ensures Broken(old(rocks[..]), rocks[..], idx)
    {
      hide Weight, Worth;
      var r := rocks[idx];
      ghost var before := rocks[..];
      rocks[idx] := r.(active := false);
      assert rocks[..] == before[idx := r.(active := false)];
      WeightUpdate(before, idx, r.(active := false));
      score := score + if r.size == 2 then 20 else if r.size == 1 then 50 else 100;
      if r.size > 0 {
        AddRock(r.x, r.y, r.size - 1);
        AddRock(r.x, r.y, r.size - 1);
      }
    }

    // ---- one frame ----

    method Turn(left: bool, right: bool)
      modifies this`ship
      ensures ship == old(ship).(angle := ship.angle)
      ensures ship.angle
              == ((old(ship).angle as int + (if left then 251 else 0)) % 256 + (if right then 5 else 0)) % 256
    {
      if left { ship := ship.(angle := (ship.angle as int + 251) % 256); }
      if right { ship := ship.(angle := (ship.angle as int + 5) % 256); }
    }

    /** Thrust changes the speed by at most 40 in either direction. */
    method Thrust()
      modifies this`ship
      ensures var s := old(ship);
              ship == s.(vx := s.vx + Shift(Cos(s.angle) * 40, 16384), vy := s.vy + Shift(Sin(s.angle) * 40, 16384))
      ensures -40 <= ship.vx - old(ship).vx <= 40 && -40 <= ship.vy - old(ship).vy <= 40
    {
      Scaled(Cos(ship.angle), 40);
      Scaled(Sin(ship.angle), 40);
      ship := ship.(vx := ship.vx + Shift(Cos(ship.angle) * 40, 16384),
                    vy := ship.vy + Shift(Sin(ship.angle) * 40, 16384));
    }

    /** Fires from the nose of the ship, if a bullet is free. */
    method FireBullet()
      requires Sized() && Inside(ship.x, ship.y) && Slow(ship.vx, ship.vy, 2560)
      requires forall i :: 0 <= i < MAX_BULLETS ==> Flying(bullets[i])
      modifies bullets
      ensures forall i :: 0 <= i < MAX_BULLETS ==> Flying(bullets[i])
      ensures forall i :: 0 <= i < MAX_BULLETS ==>
                bullets[i] == if FirstIdle(old(bullets[..]), i) then Fired(ship) else old(bullets[i])
    {
      var i := 0;
      while i < MAX_BULLETS && bullets[i].active
        invariant 0 <= i <= MAX_BULLETS && forall j :: 0 <= j < i ==> bullets[j].active
      {
        i := i + 1;
      }
      if i == MAX_BULLETS { return; }
      FiredFlies(ship);
      bullets[i] := Fired(ship);
    }

    /** Friction, then motion, then one wrap: the speed limit is kept and the
        ship is on the screen. */
    method MoveShip()
      requires Inside(ship.x, ship.y) && Slow(ship.vx, ship.vy, 2560)
      modifies this`ship
      ensures ShipFine()
      ensures ship == Moved(old(ship))
      ensures var s := old(ship);
              && ship.vx == Slowed(s.vx) && ship.vy == Slowed(s.vy)
              && ship.x == (s.x + ship.vx) % W && ship.y == (s.y + ship.vy) % H
    {
      var vx, vy := Slowed(ship.vx), Slowed(ship.vy);
      WrapInside(ship.x + vx, W);
      WrapInside(ship.y + vy, H);
      ship := Ship(Wrap(ship.x + vx, W), Wrap(ship.y + vy, H), vx, vy, ship.angle,
                   if ship.invuln > 0 then ship.invuln - 1 else 0);
    }

    method MoveBullets()
      requires Sized() && forall i :: 0 <= i < MAX_BULLETS ==> Flying(bullets[i])
      modifies bullets
      ensures BulletsFine()
      ensures forall i :: 0 <= i < MAX_BULLETS ==> bullets[i] == FlownBullet(old(bullets[i]))
    {
      var i := 0;
      while i < MAX_BULLETS
        invariant 0 <= i <= MAX_BULLETS
        invariant forall j :: 0 <= j < MAX_BULLETS ==>
                    bullets[j] == if j < i then FlownBullet(old(bullets[j])) else old(bullets[j])
        invariant forall j :: 0 <= j < i ==> OnScreen(bullets[j])
      {
        var b := bullets[i];
        if b.active {
          WrapInside(b.x + b.vx, W);
          WrapInside(b.y + b.vy, H);
          bullets[i] := FlownBullet(b);
        }
        i := i + 1;
      }
    }

    method MoveRocks()
      requires RocksFine()
      modifies rocks
      ensures RocksFine() && Weight(rocks[..]) == old(Weight(rocks[..])) && Worth(rocks[..]) == old(Worth(rocks[..]))
      ensures forall i :: 0 <= i < MAX_ROCKS ==> rocks[i] == FlownRock(old(rocks[i]))
    {
      hide Weight, Worth;
      ghost var before := rocks[..];
      var i := 0;
      while i < MAX_ROCKS
        invariant 0 <= i <= MAX_ROCKS
        invariant forall j :: 0 <= j < MAX_ROCKS ==> rocks[j] == if j < i then FlownRock(before[j]) else before[j]
        invariant AllProper(rocks[..])
      {
        var r := rocks[i];
        if r.active {
          WrapInside(r.x + r.vx, W);
          WrapInside(r.y + r.vy, H);
          rocks[i] := FlownRock(r);
        }
        i := i + 1;
      }
      WeightSame(before, rocks[..]);
    }

    /** Every bullet in flight breaks the first rock in its reach, if there is one, and ends
        with it; nothing else is hit. `stages` is what becomes of the rocks, bullet by bullet. */
    method BulletHits() returns (ghost stages: seq<seq<Rock>>)
      requires RocksFine() && BulletsFine()
      modifies this`score, this`seed, rocks, bullets
      ensures RocksFine() && BulletsFine()
      ensures Volley(old(rocks[..]), stages, old(bullets[..])) && rocks[..] == stages[MAX_BULLETS]
      ensures bullets[..] == Spent(stages, old(bullets[..])) && score == old(score) + Scored(stages, old(bullets[..]))
      ensures score > old(score) <==> exists b, r :: 0 <= b < MAX_BULLETS && 0 <= r < MAX_ROCKS &&
                                                     Reaches(old(bullets[b]), old(rocks[r]))
      ensures forall r :: 0 <= r < MAX_ROCKS && old(rocks[r].active) &&
                          (forall b :: 0 <= b < MAX_BULLETS ==> !Reaches(old(bullets[b]), old(rocks[r]))) ==>
                rocks[r] == old(rocks[r])
      ensures forall b :: 0 <= b < MAX_BULLETS && old(bullets[b].active) && !bullets[b].active ==>
                exists r :: 0 <= r < MAX_ROCKS && Reaches(old(bullets[b]), old(rocks[r]))
    {
      hide Weight, Worth, Broken, Shot, Gain, ProperRock, Reaches;
      ghost var bs := bullets[..];
      stages := [rocks[..]];
      var b := 0;
      while b < MAX_BULLETS
        invariant 0 <= b <= MAX_BULLETS && RocksFine() && BulletsFine() && brought == old(brought)
        invariant |stages| == b + 1 && stages[0] == old(rocks[..]) && stages[b] == rocks[..]
        invariant forall i :: 0 <= i < b ==> Shot(stages[i], stages[i + 1], bs[i])
        invariant forall i :: 0 <= i < MAX_BULLETS ==>
                    bullets[i] == if i < b then After(stages[i], bs[i]) else bs[i]
        invariant score == old(score) + Scored(stages, bs[..b])
      {
        ghost var rs := rocks[..];
        ghost var sum := score;
        Shoot(b);
        ghost var stages' := stages + [rocks[..]];
        assert forall i :: 0 <= i <= b ==> stages'[i] == stages[i];
        ScoredOn(stages, stages', bs, b);
        stages := stages';
        b := b + 1;
      }
      assert bs[..MAX_BULLETS] == bs;
      VolleyScores(old(rocks[..]), stages, bs);
      VolleySpares(old(rocks[..]), stages, bs);
      VolleyEnds(old(rocks[..]), stages, bs);
    }

    /** One bullet looks for the first rock in its reach. */
    method Shoot(b: nat)
      requires RocksFine() && BulletsFine() && b < MAX_BULLETS
      modifies this`score, this`seed, rocks, bullets
      ensures RocksFine() && BulletsFine()
      ensures Shot(old(rocks[..]), rocks[..], old(bullets[b]))
      ensures bullets[..] == old(bullets[..])[b := After(old(rocks[..]), old(bullets[b]))]
      ensures score == old(score) + Gain(old(rocks[..]), old(bullets[b]))
    {
      hide Weight, Worth, Broken;
      if !bullets[b].active {
        TargetIs(rocks[..], bullets[b], MAX_ROCKS);
        assert bullets[..] == old(bullets[..])[b := bullets[b]];
        return;
      }
      var bulletX, bulletY := Shift(bullets[b].x, 256), Shift(bullets[b].y, 256);
      var r := 0;
      while r < MAX_ROCKS
        invariant 0 <= r <= MAX_ROCKS && forall i :: 0 <= i < r ==> !Reaches(bullets[b], rocks[i])
      {
        if rocks[r].active {
          var dx, dy := bulletX - Shift(rocks[r].x, 256), bulletY - Shift(rocks[r].y, 256);
          var rad := rocks[r].radius;
          if dx * dx + dy * dy < rad * rad {
            TargetIs(rocks[..], bullets[b], r);
            bullets[b] := bullets[b].(active := false);
            HitRock(r);
            return;
          }
        }
        r := r + 1;
      }
      TargetIs(rocks[..], bullets[b], MAX_ROCKS);
      assert bullets[..] == old(bullets[..])[b := bullets[b]];
    }

    /** A rock in reach of the ship costs a life, unless the ship has just appeared, and
        puts the ship back where it started; the last one ends the game. */
    method ShipHits() returns (over: bool)
      requires RocksFine() && ShipFine()
      modifies this`lives, this`ship
      ensures RocksFine() && ShipFine()
      ensures lives == old(lives) - if Crashed(old(ship), rocks[..]) then 1 else 0
      ensures over <==> Crashed(old(ship), rocks[..]) && lives <= 0
      ensures ship == if Crashed(old(ship), rocks[..]) && !over then START else old(ship)
    {
      hide Weight, Worth;
      over := false;
      if ship.invuln == 0 {
        var sx, sy := Shift(ship.x, 256), Shift(ship.y, 256);
        var r := 0;
        while r < MAX_ROCKS
          invariant 0 <= r <= MAX_ROCKS && forall i :: 0 <= i < r ==> !Touches(ship, rocks[i])
        {
          if rocks[r].active {
            var dx, dy := sx - Shift(rocks[r].x, 256), sy - Shift(rocks[r].y, 256);
            var rad := rocks[r].radius + 10;
            if dx * dx + dy * dy < rad * rad {
              assert Touches(ship, rocks[..][r]);
              lives := lives - 1;
              if lives <= 0 {
                over := true;
              } else {
                ship := Ship(W / 2, H / 2, 0, 0, 192, 90);
              }
              return;
            }
          }
          r := r + 1;
        }
      }
    }

    method CountRocks() returns (n: nat)
      requires Sized()
      ensures n == Active(rocks[..])
    {
      n := 0;
      var i := 0;
      while i < MAX_ROCKS
        invariant 0 <= i <= MAX_ROCKS && n == Active(rocks[..i])
      {
        assert rocks[..i + 1][..i] == rocks[..i];
        if rocks[i].active { n := n + 1; }
        i := i + 1;
      }
      assert rocks[..i] == rocks[..];
    }

    /** One frame of the game, before drawing: the keys steer the ship and fire, all things
        move, bullets break rocks, a rock in reach costs a life, and an empty field brings the
        next wave. */
    method Frame(keys: Keys) returns (over: bool, ghost stages: seq<seq<Rock>>)
      requires Valid()
      modifies this, rocks, bullets
      ensures Valid() && score >= old(score)
      ensures if level == old(level) then brought == old(brought)
              else level == old(level) + 1 && brought == old(brought) + InWave(level)
      ensures level > old(level) <==> score == 520 * old(brought)
      ensures score <= 520 * old(brought)
      ensures fireCd == if Fires(keys, old(fireCd)) then 8 else Cooled(old(fireCd))
      ensures var bs := Flown(old(bullets[..]), Steered(old(ship), keys), Fires(keys, old(fireCd)));
              && Volley(Drifted(old(rocks[..])), stages, bs)
              && bullets[..] == Spent(stages, bs) && score == old(score) + Scored(stages, bs)
              && (score > old(score) <==> exists b, r :: 0 <= b < MAX_BULLETS && 0 <= r < MAX_ROCKS &&
                                                         Reaches(bs[b], Drifted(old(rocks[..]))[r]))
      ensures if level == old(level) then rocks[..] == stages[MAX_BULLETS]
              else Active(stages[MAX_BULLETS]) == 0 && Active(rocks[..]) == InWave(level) && FromAbove(rocks[..])
      ensures var s := Moved(Steered(old(ship), keys));
              var hit := Crashed(s, stages[MAX_BULLETS]);
              && lives == old(lives) - (if hit then 1 else 0) && (over <==> hit && lives <= 0)
              && ship == if hit && !over then START else s
    {
      hide Weight, Worth, Active, InWave, ProperRock, Volley, Spent, Scored, Flown, Drifted, Steered, Moved, Crashed,
        Reaches, FromAbove;
      Act(keys);
      stages := BulletHits();
      over := ShipHits();
      var n := CountRocks();
      if n == 0 {
        EmptyField(rocks[..]);
        NewWave();
      } else {
        SomeWorth(rocks[..]);
      }
    }

    /** The keys steer the ship and fire, and all things move. */
    method Act(keys: Keys)
      requires Valid()
      modifies this`ship, this`fireCd, rocks, bullets
      ensures Valid()
      ensures fireCd == if Fires(keys, old(fireCd)) then 8 else Cooled(old(fireCd))
      ensures ship == Moved(Steered(old(ship), keys)) && rocks[..] == Drifted(old(rocks[..]))
      ensures bullets[..] == Flown(old(bullets[..]), Steered(old(ship), keys), Fires(keys, old(fireCd)))
    {
      hide Weight, Worth, ProperRock, Fired, FlownRock, FlownBullet, Moved, Cos, Sin;
      ghost var rs, bs := rocks[..], bullets[..];
      Turn(keys.left, keys.right);
      if keys.thrust { Thrust(); }
      ghost var s := ship;
      assert s == Steered(old(ship), keys);
      if fireCd > 0 { fireCd := fireCd - 1; }
      if keys.fire && fireCd == 0 {
        FireBullet();
        fireCd := 8;
      }
      MoveShip();
      MoveBullets();
      MoveRocks();
      assert bullets[..] == Flown(bs, s, Fires(keys, old(fireCd)));
      assert rocks[..] == Drifted(rs);
    }

    /** A whole game: whatever the player does, the score and what the rocks are
        still worth make up 520 for every rock of the waves so far, the score
        determines the level, there is always room for a rock, and everything
        stays on the screen. */
    method Play(input: seq<Keys>) returns (frames: nat)
      requires Valid() && Booked()
      modifies this, rocks, bullets
      ensures Valid() && Booked() && frames <= |input| && score >= old(score) && level >= old(level)
      ensures score + Worth(rocks[..]) == 520 * Brought(level)
    {
      hide Weight, Worth, Volley, Spent, Scored, Flown, Drifted, Steered, Moved, Crashed, Reaches, FromAbove, Active,
        ProperRock, Fires, Cooled;
      frames := 0;
      while frames < |input|
        invariant Valid() && Booked() && frames <= |input| && score >= old(score) && level >= old(level)
        decreases |input| - frames
      {
        var over, _ := Frame(input[frames]);
        frames := frames + 1;
        if over { break; }
      }
    }
  }

  // ---- the ship ----

  /** Where a ship appears: in the middle, at rest, pointing up, out of harm for a while. */
  const START: Ship := Ship(W / 2, H / 2, 0, 0, 192, 90)

  /** The ship after the keys that turn and accelerate it. */
  function Steered(s: Ship, keys: Keys): Ship {
    var a: int := ((s.angle as int + if keys.left then 251 else 0) % 256 + if keys.right then 5 else 0) % 256;
    if keys.thrust then
      s.(angle := a, vx := s.vx + Shift(Cos(a) * 40, 16384), vy := s.vy + Shift(Sin(a) * 40, 16384))
    else s.(angle := a)
  }

  /** The ship after friction and motion. */
  function Moved(s: Ship): Ship {
    Ship(Wrap(s.x + Slowed(s.vx), W), Wrap(s.y + Slowed(s.vy), H), Slowed(s.vx), Slowed(s.vy), s.angle,
         if s.invuln > 0 then s.invuln - 1 else 0)
  }

  function Cooled(fireCd: nat): nat { if fireCd > 0 then fireCd - 1 else 0 }

  /** A shot leaves when the key is down and the gun has cooled. */
  predicate Fires(keys: Keys, fireCd: nat) { keys.fire && Cooled(fireCd) == 0 }

  /** The gun after `n` frames with the key held down. */
  function Gun(n: nat): nat {
    if n == 0 then 0 else if Fires(Keys(false, false, false, true), Gun(n - 1)) then 8 else Cooled(Gun(n - 1))
  }

  /** With the key held down a shot leaves every eighth frame. */
  lemma {:induction false} FiresEveryEighth(n: nat)
    ensures Fires(Keys(false, false, false, true), Gun(n)) <==> n % 8 == 0
    ensures Gun(n) == if n == 0 then 0 else 8 - (n - 1) % 8
  {
    if n > 0 { FiresEveryEighth(n - 1); }
  }

  /** The bullets after firing and motion. */
  function Flown(bs: seq<Bullet>, s: Ship, fires: bool): (r: seq<Bullet>)
    ensures |r| == |bs|
    ensures forall i :: 0 <= i < |bs| ==> r[i] == FlownBullet(if fires && FirstIdle(bs, i) then Fired(s) else bs[i])
  {
    seq(|bs|, i requires 0 <= i < |bs| => FlownBullet(if fires && FirstIdle(bs, i) then Fired(s) else bs[i]))
  }

  function Drifted(rs: seq<Rock>): (r: seq<Rock>)
    ensures |r| == |rs| && forall i :: 0 <= i < |rs| ==> r[i] == FlownRock(rs[i])
  {
    seq(|rs|, i requires 0 <= i < |rs| => FlownRock(rs[i]))
  }

  /** Pointing right, down, left or up, a shot leaves sixteen pixels ahead, 2200 faster than
      the ship in that direction, and thrust adds 40 in it. */
  lemma Directions(s: Ship, keys: Keys)
    requires keys.thrust && !keys.left && !keys.right
    ensures s.angle == 0 ==> Fired(s) == Bullet(s.x + 16 * 256, s.y, s.vx + 2200, s.vy, 50, true)
                             && Steered(s, keys) == s.(vx := s.vx + 40)
    ensures s.angle == 64 ==> Fired(s) == Bullet(s.x, s.y + 16 * 256, s.vx, s.vy + 2200, 50, true)
                              && Steered(s, keys) == s.(vy := s.vy + 40)
    ensures s.angle == 128 ==> Fired(s) == Bullet(s.x - 16 * 256, s.y, s.vx - 2200, s.vy, 50, true)
                               && Steered(s, keys) == s.(vx := s.vx - 40)
    ensures s.angle == 192 ==> Fired(s) == Bullet(s.x, s.y - 16 * 256, s.vx, s.vy - 2200, 50, true)
                               && Steered(s, keys) == s.(vy := s.vy - 40)
  {
    hide Sin;
    SinesAtQuarters();
  }

  lemma SinesAtQuarters()
    ensures Sin(0) == 0 && Sin(64) == 16384 && Sin(128) == 0 && Sin(192) == -16384
    ensures Cos(0) == 16384 && Cos(64) == 0 && Cos(128) == -16384 && Cos(192) == 0
  {
    hide Quarter;
    QuarterEnds();
  }

  /** Turning left and then right is no turn, and 256 turns make a full circle. */
  lemma TurnBack(s: Ship)
    ensures Steered(Steered(s, Keys(true, false, false, false)), Keys(false, true, false, false)) == s
    ensures Steered(s, Keys(true, true, false, false)) == s
  {
  }

  // ---- flight ----

  /** A bullet after `n` frames. */
  function Flight(b: Bullet, n: nat): Bullet {
    if n == 0 then b else FlownBullet(Flight(b, n - 1))
  }

  function Drift(r: Rock, n: nat): Rock {
    if n == 0 then r else FlownRock(Drift(r, n - 1))
  }

  lemma OnwardMod(z: int, v: int, size: int)
    requires size == W || size == H
    ensures (z % size + v) % size == (z + v) % size
  {
  }

  /** A bullet that hits nothing flies straight on, around the edges of the screen, and ends
      with its life: it is in flight for exactly that many frames. */
  lemma {:induction false} FlightLasts(b: Bullet, n: nat)
    requires b.active && b.life > 0 && n <= b.life && Inside(b.x, b.y) && Slow(b.vx, b.vy, 4760)
    ensures Flight(b, n) == Bullet((b.x + n * b.vx) % W, (b.y + n * b.vy) % H, b.vx, b.vy, b.life - n, n < b.life)
  {
    if n > 0 {
      FlightLasts(b, n - 1);
      var c := Flight(b, n - 1);
      WrapInside(c.x + c.vx, W);
      WrapInside(c.y + c.vy, H);
      OnwardMod(b.x + (n - 1) * b.vx, b.vx, W);
      OnwardMod(b.y + (n - 1) * b.vy, b.vy, H);
      assert b.x + (n - 1) * b.vx + b.vx == b.x + n * b.vx && b.y + (n - 1) * b.vy + b.vy == b.y + n * b.vy;
    }
  }

  /** So does a rock that is not hit, turning at its own rate. */
  lemma {:induction false} DriftGoesOn(r: Rock, n: nat)
    requires r.active && Inside(r.x, r.y) && Slow(r.vx, r.vy, 260)
    ensures Drift(r, n) == r.(x := (r.x + n * r.vx) % W, y := (r.y + n * r.vy) % H,
                              rot := (r.rot as int + n * r.spin) % 256)
  {
    if n > 0 {
      DriftGoesOn(r, n - 1);
      var c := Drift(r, n - 1);
      WrapInside(c.x + c.vx, W);
      WrapInside(c.y + c.vy, H);
      OnwardMod(r.x + (n - 1) * r.vx, r.vx, W);
      OnwardMod(r.y + (n - 1) * r.vy, r.vy, H);
      assert r.x + (n - 1) * r.vx + r.vx == r.x + n * r.vx && r.y + (n - 1) * r.vy + r.vy == r.y + n * r.vy;
      Spun(r.rot, n - 1, r.spin);
    }
  }

  lemma Spun(rot: int, n: nat, spin: int)
    ensures ((rot + n * spin) % 256 + spin) % 256 == (rot + (n + 1) * spin) % 256
  {
    assert rot + (n + 1) * spin == rot + n * spin + spin;
  }

  // ---- hits ----

  /** The squared distance of two places in pixels. */
  function Apart(x: int, y: int, x': int, y': int): int {
    var dx, dy := Shift(x, 256) - Shift(x', 256), Shift(y, 256) - Shift(y', 256);
    dx * dx + dy * dy
  }

  /** The bullet is inside the rock's circle. */
  predicate Reaches(b: Bullet, r: Rock) {
    b.active && r.active && Apart(b.x, b.y, r.x, r.y) < r.radius * r.radius
  }

  /** The ship is closer to the rock than ten pixels outside its circle. */
  predicate Touches(s: Ship, r: Rock) {
    r.active && Apart(s.x, s.y, r.x, r.y) < (r.radius + 10) * (r.radius + 10)
  }

  predicate Crashed(s: Ship, rs: seq<Rock>) {
    s.invuln == 0 && exists i :: 0 <= i < |rs| && Touches(s, rs[i])
  }

  /** A bullet on the pixel of a rock's centre reaches it; one a radius away in either
      direction does not. */
  lemma ReachAround(b: Bullet, r: Rock)
    requires b.active && r.active && ProperRock(r)
    ensures Shift(b.x, 256) == Shift(r.x, 256) && Shift(b.y, 256) == Shift(r.y, 256) ==> Reaches(b, r)
    ensures var dx, dy := Shift(b.x, 256) - Shift(r.x, 256), Shift(b.y, 256) - Shift(r.y, 256);
            dx >= r.radius || -dx >= r.radius || dy >= r.radius || -dy >= r.radius ==> !Reaches(b, r)
  {
    var dx, dy := Shift(b.x, 256) - Shift(r.x, 256), Shift(b.y, 256) - Shift(r.y, 256);
    FarSquare(dx, r.radius);
    FarSquare(dy, r.radius);
  }

  /** The ship touches a rock exactly when it comes within ten pixels of its circle, here
      measured along one axis. */
  lemma TouchAround(s: Ship, r: Rock)
    requires r.active && ProperRock(r) && Shift(s.y, 256) == Shift(r.y, 256)
    ensures var dx := Shift(s.x, 256) - Shift(r.x, 256);
            Touches(s, r) <==> -(r.radius + 10) < dx < r.radius + 10
  {
    var dx := Shift(s.x, 256) - Shift(r.x, 256);
    NearSquare(dx, r.radius + 10);
  }

  /** And a bullet reaches it exactly inside the circle. */
  lemma ReachAlong(b: Bullet, r: Rock)
    requires b.active && r.active && ProperRock(r) && Shift(b.y, 256) == Shift(r.y, 256)
    ensures var dx := Shift(b.x, 256) - Shift(r.x, 256);
            Reaches(b, r) <==> -r.radius < dx < r.radius
  {
    NearSquare(Shift(b.x, 256) - Shift(r.x, 256), r.radius);
  }

  lemma NearSquare(d: int, radius: nat)
    ensures d * d < radius * radius <==> -(radius as int) < d < radius
  {
    var m := if d < 0 then -d else d;
    assert m * m == d * d;
    if m < radius {
      Grows(m, radius, m);
      Grows(m + 1, radius, radius);
    } else {
      Grows(radius, m, radius);
      Grows(radius, m, m);
    }
  }

  lemma FarSquare(d: int, radius: nat)
    ensures d * d >= 0 && (d >= radius || -d >= radius ==> d * d >= radius * radius)
  {
    if d >= radius {
      Grows(radius, d, radius);
      Grows(radius, d, d);
    } else if -d >= radius {
      Grows(radius, -d, radius);
      Grows(radius, -d, -d);
      assert -d * -d == d * d;
    }
  }

  /** The first rock the bullet reaches, or |rs|. */
  function Target(rs: seq<Rock>, b: Bullet): (k: nat)
    ensures k <= |rs| && (k < |rs| ==> Reaches(b, rs[k])) && forall i :: 0 <= i < k ==> !Reaches(b, rs[i])
  {
    if rs == [] || Reaches(b, rs[0]) then 0 else Target(rs[1..], b) + 1
  }

  lemma TargetIs(rs: seq<Rock>, b: Bullet, k: nat)
    requires k <= |rs| && (k < |rs| ==> Reaches(b, rs[k])) && forall i :: 0 <= i < k ==> !Reaches(b, rs[i])
    ensures Target(rs, b) == k
  {
    hide Reaches;
    var t := Target(rs, b);
    assert !(t < k) && !(k < t);
  }

  /** A rock as it comes into being: of its size's radius, no faster than rocks of its size
      are, with a jagged outline. */
  predicate Newborn(r: Rock, x: int, y: int, size: nat) {
    && r.active && r.x == x && r.y == y && r.size == size && size <= 2 && r.radius == Radius(size)
    && Slow(r.vx, r.vy, 260 - 90 * size)
    && (r.spin == 255 || 0 <= r.spin <= 2)
    && |r.jag| == VERTICES && forall i :: 0 <= i < VERTICES ==> -(r.radius / 4) <= r.jag[i] <= r.radius / 4
  }

  /** The rocks after rock `k` is hit: it is gone, and if it was not of the smallest size two
      of the next smaller size are where it was, in the first free slots. */
  predicate Broken(rs: seq<Rock>, rs': seq<Rock>, k: nat) {
    && k < |rs| == |rs'|
    && var r := rs[k];
       var gone := rs[k := r.(active := false)];
       if r.size == 0 then rs' == gone
       else
         var i := Free(gone);
         i < |rs| && Newborn(rs'[i], r.x, r.y, r.size - 1) &&
         var one := gone[i := rs'[i]];
         var j := Free(one);
         j < |rs| && Newborn(rs'[j], r.x, r.y, r.size - 1) && rs' == one[j := rs'[j]]
  }

  /** What one bullet does to the rocks. */
  predicate Shot(rs: seq<Rock>, rs': seq<Rock>, b: Bullet) {
    if Target(rs, b) < |rs| then Broken(rs, rs', Target(rs, b)) else rs' == rs
  }

  /** The bullet after it has looked for a rock to hit. */
  function After(rs: seq<Rock>, b: Bullet): Bullet {
    if Target(rs, b) < |rs| then b.(active := false) else b
  }

  function Gain(rs: seq<Rock>, b: Bullet): nat {
    if Target(rs, b) < |rs| then Points(rs[Target(rs, b)].size) else 0
  }

  /** What becomes of the rocks, bullet by bullet. */
  predicate Volley(rs: seq<Rock>, stages: seq<seq<Rock>>, bs: seq<Bullet>) {
    |stages| == |bs| + 1 && stages[0] == rs && forall i :: 0 <= i < |bs| ==> Shot(stages[i], stages[i + 1], bs[i])
  }

  function Spent(stages: seq<seq<Rock>>, bs: seq<Bullet>): (r: seq<Bullet>)
    requires |stages| > |bs|
    ensures |r| == |bs| && forall i :: 0 <= i < |bs| ==> r[i] == After(stages[i], bs[i])
  {
    seq(|bs|, i requires 0 <= i < |bs| => After(stages[i], bs[i]))
  }

  function Scored(stages: seq<seq<Rock>>, bs: seq<Bullet>): nat
    requires |stages| > |bs|
    decreases |bs|
  {
    if bs == [] then 0 else Scored(stages, bs[..|bs| - 1]) + Gain(stages[|bs| - 1], bs[|bs| - 1])
  }

  lemma {:induction false} ScoredSame(stages: seq<seq<Rock>>, stages': seq<seq<Rock>>, bs: seq<Bullet>)
    requires |stages| > |bs| && |stages'| > |bs| && forall i :: 0 <= i < |bs| ==> stages'[i] == stages[i]
    ensures Scored(stages', bs) == Scored(stages, bs)
    decreases |bs|
  {
    if bs != [] { ScoredSame(stages, stages', bs[..|bs| - 1]); }
  }

  lemma ScoredOn(stages: seq<seq<Rock>>, stages': seq<seq<Rock>>, bs: seq<Bullet>, b: nat)
    requires b < |bs| && |stages| == b + 1 && |stages'| == b + 2 && forall i :: 0 <= i <= b ==> stages'[i] == stages[i]
    ensures Scored(stages', bs[..b + 1]) == Scored(stages, bs[..b]) + Gain(stages[b], bs[b])
  {
    assert bs[..b + 1][..b] == bs[..b];
    ScoredSame(stages, stages', bs[..b]);
  }

  /** Nothing is scored as long as no bullet reaches a rock, and the first that does scores. */
  lemma {:induction false} VolleyScores(rs: seq<Rock>, stages: seq<seq<Rock>>, bs: seq<Bullet>)
    requires Volley(rs, stages, bs)
    ensures Scored(stages, bs) > 0 <==>
            exists b, r :: 0 <= b < |bs| && 0 <= r < |rs| && Reaches(bs[b], rs[r])
    ensures Scored(stages, bs) == 0 ==> stages[|bs|] == rs
    decreases |bs|
  {
    hide Reaches, Broken;
    if bs != [] {
      var n := |bs| - 1;
      var front := bs[..n];
      assert forall i :: 0 <= i < n ==> front[i] == bs[i];
      assert Volley(rs, stages[..n + 1], front);
      VolleyScores(rs, stages[..n + 1], front);
      ScoredSame(stages, stages[..n + 1], front);
      if Scored(stages, front) > 0 {
        var b, r :| 0 <= b < n && 0 <= r < |rs| && Reaches(front[b], rs[r]);
        assert Reaches(bs[b], rs[r]);
      } else {
        assert stages[n] == rs;
        var k := Target(rs, bs[n]);
        if b, r :| 0 <= b < |bs| && 0 <= r < |rs| && Reaches(bs[b], rs[r]) {
          assert b < n ==> Reaches(front[b], rs[r]);
        }
      }
    }
  }

  /** A hit leaves every other rock there is as it is. */
  lemma BrokenOthers(rs: seq<Rock>, rs': seq<Rock>, k: nat, i: nat)
    requires Broken(rs, rs', k) && i < |rs| && i != k && rs[i].active
    ensures rs'[i] == rs[i]
  {
    hide Newborn;
  }

  /** A rock no bullet reaches is spared. */
  lemma {:induction false} VolleySpares(rs: seq<Rock>, stages: seq<seq<Rock>>, bs: seq<Bullet>)
    requires Volley(rs, stages, bs)
    ensures |stages[|bs|]| == |rs|
    ensures forall r :: 0 <= r < |rs| && rs[r].active && (forall b :: 0 <= b < |bs| ==> !Reaches(bs[b], rs[r])) ==>
              stages[|bs|][r] == rs[r]
    decreases |bs|
  {
    hide Reaches, Broken;
    if bs != [] {
      var n := |bs| - 1;
      var front := bs[..n];
      assert forall i :: 0 <= i < n ==> front[i] == bs[i];
      VolleySpares(rs, stages[..n + 1], front);
      BrokenSize(stages[n], stages[n + 1], bs[n]);
      forall r | 0 <= r < |rs| && rs[r].active && (forall b :: 0 <= b < |bs| ==> !Reaches(bs[b], rs[r]))
        ensures stages[n + 1][r] == rs[r]
      {
        assert forall b :: 0 <= b < n ==> !Reaches(front[b], rs[r]);
        assert stages[n][r] == rs[r] && !Reaches(bs[n], rs[r]);
        var k := Target(stages[n], bs[n]);
        if k < |stages[n]| { BrokenOthers(stages[n], stages[n + 1], k, r); }
      }
    }
  }

  lemma BrokenSize(rs: seq<Rock>, rs': seq<Rock>, b: Bullet)
    requires Shot(rs, rs', b)
    ensures |rs'| == |rs|
  {
  }

  /** Each rock is one of `rs`, or a piece no larger than the one it comes from and where
      that one was. */
  ghost predicate Descend(rs: seq<Rock>, rs': seq<Rock>) {
    forall i :: 0 <= i < |rs'| && rs'[i].active ==> exists j :: 0 <= j < |rs| && Covers(rs[j], rs'[i])
  }

  predicate Covers(r: Rock, p: Rock) {
    && r.active && p.active && p.x == r.x && p.y == r.y
    && 0 < p.radius <= r.radius && p.radius == Radius(p.size) && p.size <= 2
  }

  lemma CoversReach(b: Bullet, r: Rock, p: Rock)
    requires Covers(r, p) && Reaches(b, p)
    ensures Reaches(b, r)
  {
    Grows(p.radius, r.radius, p.radius);
    Grows(p.radius, r.radius, r.radius);
    assert p.radius * p.radius <= r.radius * r.radius;
  }

  lemma BrokenDescend(rs: seq<Rock>, rs1: seq<Rock>, rs2: seq<Rock>, k: nat)
    requires Descend(rs, rs1) && Broken(rs1, rs2, k) && rs1[k].active
    ensures Descend(rs, rs2)
  {
    var c :| 0 <= c < |rs| && Covers(rs[c], rs1[k]);
    forall i | 0 <= i < |rs2| && rs2[i].active ensures exists j :: 0 <= j < |rs| && Covers(rs[j], rs2[i]) {
      if rs2[i] == rs1[i] {
      } else {
        assert Newborn(rs2[i], rs1[k].x, rs1[k].y, rs1[k].size - 1);
        assert Covers(rs[c], rs2[i]);
      }
    }
  }

  /** A bullet that ends has reached one of the rocks there were, for the pieces of a rock
      lie inside it. */
  lemma {:induction false} VolleyEnds(rs: seq<Rock>, stages: seq<seq<Rock>>, bs: seq<Bullet>)
    requires Volley(rs, stages, bs) && AllProper(rs)
    ensures Descend(rs, stages[|bs|])
    ensures forall b :: 0 <= b < |bs| && Target(stages[b], bs[b]) < |stages[b]| ==>
              exists r :: 0 <= r < |rs| && Reaches(bs[b], rs[r])
    decreases |bs|
  {
    hide Reaches, Broken, Covers;
    if bs == [] {
      forall i | 0 <= i < |rs| && rs[i].active ensures Covers(rs[i], rs[i]) {
        SelfCovered(rs[i]);
      }
    } else {
      var n := |bs| - 1;
      var front := bs[..n];
      assert forall i :: 0 <= i < n ==> front[i] == bs[i];
      VolleyEnds(rs, stages[..n + 1], front);
      var k := Target(stages[n], bs[n]);
      if k < |stages[n]| {
        ReachedActive(bs[n], stages[n][k]);
        BrokenDescend(rs, stages[n], stages[n + 1], k);
        var j :| 0 <= j < |rs| && Covers(rs[j], stages[n][k]);
        CoversReach(bs[n], rs[j], stages[n][k]);
      }
      forall b | 0 <= b < |bs| && Target(stages[b], bs[b]) < |stages[b]|
        ensures exists r :: 0 <= r < |rs| && Reaches(bs[b], rs[r])
      {
        if b < n {
          assert Target(stages[..n + 1][b], front[b]) < |stages[..n + 1][b]|;
          var r :| 0 <= r < |rs| && Reaches(front[b], rs[r]);
          assert Reaches(bs[b], rs[r]);
        }
      }
    }
  }

  lemma SelfCovered(r: Rock)
    requires ProperRock(r) && r.active
    ensures Covers(r, r)
  {
  }

  lemma ReachedActive(b: Bullet, r: Rock)
    requires Reaches(b, r)
    ensures r.active
  {
  }

  // ---- waves ----

  /** All rocks are large and start in the top 61 lines, on whole pixels. */
  predicate FromAbove(rs: seq<Rock>) {
    forall i :: 0 <= i < |rs| && rs[i].active ==>
      Newborn(rs[i], rs[i].x, rs[i].y, 2) && rs[i].y <= 60 * 256 && rs[i].x % 256 == 0 && rs[i].y % 256 == 0
  }

  lemma NothingLeft(rs: seq<Rock>)
    requires AllProper(rs) && Weight(rs) == 0
    ensures Active(rs) == 0 && FromAbove(rs)
  {
    ActiveCounted(rs);
    NotActive(rs);
  }

  lemma {:induction false} ActiveUpdate(rs: seq<Rock>, k: nat, r: Rock)
    requires k < |rs| && !rs[k].active && r.active
    ensures Active(rs[k := r]) == Active(rs) + 1
    decreases |rs|
  {
    var n := |rs| - 1;
    var rs' := rs[k := r];
    if k < n {
      assert rs'[..n] == rs[..n][k := r];
      ActiveUpdate(rs[..n], k, r);
    } else {
      assert rs'[..n] == rs[..n];
    }
  }

  /** How many large rocks wave `level` brings. */
  function InWave(level: nat): nat {
    if level >= 8 then 11 else 3 + level
  }

  /** The first wave brings four, each later one more than the one before, up to eleven. */
  lemma WaveSizes(level: nat)
    requires level > 0
    ensures InWave(1) == 4 && InWave(level) <= 11
    ensures InWave(level + 1) == if InWave(level) < 11 then InWave(level) + 1 else 11
  {
  }

  /** How many large rocks the waves up to `level` bring. */
  function Brought(level: nat): nat {
    if level == 0 then 0 else Brought(level - 1) + InWave(level)
  }

  /** The bullet in slot `i` is the first that is not in flight. */
  predicate FirstIdle(bs: seq<Bullet>, i: nat) {
    i < |bs| && !bs[i].active && forall j :: 0 <= j < i ==> bs[j].active
  }

  /** A bullet leaves from the nose of the ship, faster than the ship by a fixed
      speed in the direction it points. */
  function Fired(s: Ship): Bullet {
    Bullet(s.x + Shift(16 * Cos(s.angle) * 256, 16384), s.y + Shift(16 * Sin(s.angle) * 256, 16384),
           s.vx + Shift(Cos(s.angle) * 2200, 16384), s.vy + Shift(Sin(s.angle) * 2200, 16384), 50, true)
  }

  lemma FiredFlies(s: Ship)
    requires Inside(s.x, s.y) && Slow(s.vx, s.vy, 2560)
    ensures Flying(Fired(s))
  {
    Scaled(Cos(s.angle), 4096);
    Scaled(Sin(s.angle), 4096);
    Scaled(Cos(s.angle), 2200);
    Scaled(Sin(s.angle), 2200);
  }

  /** A bullet after one frame. */
  function FlownBullet(b: Bullet): Bullet {
    if !b.active then b
    else Bullet(Wrap(b.x + b.vx, W), Wrap(b.y + b.vy, H), b.vx, b.vy, b.life - 1, b.life - 1 > 0)
  }

  function FlownRock(r: Rock): Rock {
    if !r.active then r
    else r.(x := Wrap(r.x + r.vx, W), y := Wrap(r.y + r.vy, H), rot := (r.rot as int + r.spin) % 256)
  }

  lemma EmptyField(rs: seq<Rock>)
    requires Active(rs) == 0
    ensures Weight(rs) == 0 && Worth(rs) == 0
  {
    NotActive(rs);
    NoneActive(rs);
  }

  /** As long as a rock is left there is something to score. */
  lemma SomeWorth(rs: seq<Rock>)
    requires AllProper(rs) && Active(rs) > 0
    ensures Worth(rs) > 0
  {
    ActiveCounted(rs);
  }

  lemma {:induction false} NotActive(rs: seq<Rock>)
    requires Active(rs) == 0
    ensures forall i :: 0 <= i < |rs| ==> !rs[i].active
    decreases |rs|
  {
    if rs != [] {
      NotActive(rs[..|rs| - 1]);
      assert forall i :: 0 <= i < |rs| - 1 ==> rs[i] == rs[..|rs| - 1][i];
    }
  }

  lemma {:induction false} FreeIs(rs: seq<Rock>, k: nat)
    requires k <= |rs| && (k < |rs| ==> !rs[k].active) && forall i :: 0 <= i < k ==> rs[i].active
    ensures Free(rs) == k
  {
    if k > 0 { FreeIs(rs[1..], k - 1); }
  }
}
