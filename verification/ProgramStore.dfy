/** The packed program buffer, changed in place. */
module ProgramStore {
  import opened Basics
  import opened ProgramLines

  const SIZE: nat := 8192

  /** Reading the record at the k-th offset of a packed program. */
  lemma {:induction false} RecordAt(b: seq<byte>, ls: seq<Line>, k: nat)
    requires AllProper(ls) && k < |ls| && |b| >= |Packed(ls)| && b[..|Packed(ls)|] == Packed(ls)
    ensures var o := Offset(ls, k);
            && o + |ls[k].tokens| + 3 == Offset(ls, k + 1) <= |Packed(ls)|
            && b[o..Offset(ls, k + 1)] == Record(ls[k])
            && b[o] + 256 * b[o + 1] as int == ls[k].num && b[o + 2] == |ls[k].tokens| + 3
  {
    hide Packed;
    PackedAt(ls, k);
    var o, r := Offset(ls, k), Record(ls[k]);
    Middle(Packed(ls[..k]), r, Packed(ls[k + 1..]));
    assert Packed(ls)[o..o + |r|] == r;
    assert b[..|Packed(ls)|][o..o + |r|] == b[o..o + |r|];
    assert b[o] == r[0] && b[o + 1] == r[1] && b[o + 2] == r[2];
  }

  lemma Middle(a: seq<byte>, b: seq<byte>, c: seq<byte>)
    ensures (a + (b + c))[|a|..|a| + |b|] == b
  {
  }

  lemma OffsetEnds(ls: seq<Line>)
    requires AllProper(ls)
    ensures Offset(ls, 0) == 0 && Offset(ls, |ls|) == |Packed(ls)|
    ensures |ls| == 0 <==> |Packed(ls)| == 0
  {
    assert ls[..|ls|] == ls && ls[..0] == [];
  }

  /** Records before the last start before the end. */
  lemma OffsetInside(ls: seq<Line>, k: nat)
    requires AllProper(ls) && k <= |ls|
    ensures k < |ls| <==> Offset(ls, k) < |Packed(ls)|
  {
    OffsetEnds(ls);
    if k < |ls| { PackedAt(ls, k); }
  }

  class Program {
    const buf: array<byte>
    var end: nat
    /** The lines the buffer holds. */
    ghost var lines: seq<Line>

    ghost predicate Valid()
      reads this, buf
    {
      && buf.Length == SIZE && end <= SIZE
      && AllProper(lines) && Sorted(lines) && buf[..end] == Packed(lines)
    }

    constructor ()
      ensures Valid() && lines == [] && fresh(buf)
    {
      buf := new byte[SIZE](_ => 0);
      end := 0;
      lines := [];
    }

    method Init()
      requires Valid()
      modifies this, buf
      ensures Valid() && lines == []
    {
      forall i | 0 <= i < SIZE { buf[i] := 0; }
      end := 0;
      lines := [];
    }

    /** The number of the record at `o`. */
    method LineNumber(o: nat, ghost k: nat) returns (num: nat)
      requires Valid() && k < |lines| && o == Offset(lines, k)
      ensures num == lines[k].num
    {
      hide Sorted, Packed, Record;
      RecordAt(buf[..], lines, k);
      var low: int, high: int := buf[o], buf[o + 1];
      num := low + 256 * high;
    }

    /** The record after the one at `o`, or -1. */
    method NextLine(o: nat, ghost k: nat) returns (next: int)
      requires Valid() && k < |lines| && o == Offset(lines, k)
      ensures next == if k + 1 < |lines| then Offset(lines, k + 1) else -1
    {
      hide Sorted, Packed, Record;
      RecordAt(buf[..], lines, k);
      OffsetInside(lines, k + 1);
      next := o + buf[o + 2] as int;
      if next >= end { next := -1; }
    }

    method FirstLine() returns (o: int)
      requires Valid()
      ensures o == if |lines| > 0 then Offset(lines, 0) else -1
    {
      OffsetEnds(lines);
      o := if end == 0 then -1 else 0;
    }

    /** The record of a line number, or -1. */
    method FindLine(num: nat) returns (o: int)
      requires Valid()
      ensures o == if Has(lines, num) then Offset(lines, Place(lines, num)) else -1
    {
      hide Packed, Record;
      o := FirstLine();
      ghost var k := 0;
      while o >= 0
        invariant o == (if k < |lines| then Offset(lines, k) else -1) && k <= |lines|
        invariant forall i :: 0 <= i < k ==> lines[i].num < num
        decreases |lines| - k
      {
        var n := LineNumber(o, k);
        if n >= num { PlaceIs(lines, num, k); }
        if n == num { return; }
        if n > num { return -1; }
        o := NextLine(o, k);
        k := k + 1;
      }
      PlaceIs(lines, num, |lines|);
    }

    /** Where a line of this number belongs. */
    method FindInsertPos(num: nat) returns (o: nat)
      requires Valid()
      ensures o == Offset(lines, Place(lines, num))
    {
      hide Packed, Record;
      OffsetEnds(lines);
      var p := FirstLine();
      ghost var k := 0;
      while p >= 0
        invariant p == (if k < |lines| then Offset(lines, k) else -1) && k <= |lines|
        invariant forall i :: 0 <= i < k ==> lines[i].num < num
        decreases |lines| - k
      {
        var n := LineNumber(p, k);
        if n >= num {
          PlaceIs(lines, num, k);
          return p;
        }
        p := NextLine(p, k);
        k := k + 1;
      }
      PlaceIs(lines, num, |lines|);
      o := end;
    }

    method DeleteLine(num: nat)
      requires Valid()
      modifies this, buf
      ensures Valid() && lines == Without(old(lines), num)
    {
      hide Packed, Record, Sorted, Has, Place, Without, Proper;
      WithoutSorted(lines, num);
      WithoutSize(lines, num);
      WithoutIs(lines, num);
      var p := FindLine(num);
      if p < 0 { return; }
      ghost var k := Place(lines, num);
      RecordAt(buf[..], lines, k);
      CutParts(buf[..], lines, k);
      var len := buf[p + 2] as int;
      MoveDown(p, p + len, end - (p + len));
      end := end - len;
      lines := Without(lines, num);
    }

    /** Moves `tail` bytes from `from` down to `to`. */
    method MoveDown(to: nat, from: nat, tail: nat)
      requires to <= from && from + tail <= buf.Length
      modifies buf
      ensures buf[..to + tail] == old(buf[..to]) + old(buf[from..from + tail])
    {
      if tail > 0 {
        forall i | 0 <= i < tail { buf[to + i] := buf[from + i]; }
      }
      assert buf[to..to + tail] == old(buf[from..from + tail]);
      Glued(buf[..], old(buf[..to]), old(buf[from..from + tail]));
    }

    /** Moves `tail` bytes up from `at` and writes a number, a length and the
        tokens over what is there; the length is kept in a byte. */
    method WriteRecord(at: nat, tail: nat, num: nat, tokens: seq<byte>)
      requires num < 0x10000 && Writable(buf.Length, at, tail, tokens)
      modifies buf
      ensures buf[..] == Overlaid(old(buf[..]), at, tail, num, tokens)
    {
      hide Moved;
      MoveUp(at, tail, Total(tokens));
      WriteBytes(at, num, tokens);
    }

    method MoveUp(at: nat, tail: nat, d: nat)
      requires at + d + tail <= buf.Length
      modifies buf
      ensures buf[..] == Moved(old(buf[..]), at, tail, d)
    {
      if tail > 0 {
        forall i | 0 <= i < tail { buf[at + d + i] := buf[at + i]; }
      }
      MovedIs(old(buf[..]), buf[..], at, tail, d);
    }

    /** Writes a record at `at`, leaving all other bytes alone. */
    method WriteBytes(at: nat, num: nat, tokens: seq<byte>)
      requires num < 0x10000 && at + 3 + |tokens| <= buf.Length
      modifies buf
      ensures buf[..] == Written(old(buf[..]), at, num, tokens)
    {
      ghost var before := buf[..];
      buf[at] := num % 256;
      buf[at + 1] := num / 256;
      buf[at + 2] := Total(tokens);
      forall i | 0 <= i < |tokens| { buf[at + 3 + i] := tokens[i]; }
      WrittenIs(before, buf[..], at, num, tokens);
    }

    /** Opens a gap at a line's place and writes its record there. */
    method PlaceLine(num: nat, tokens: seq<byte>)
      requires Valid() && !Has(lines, num) && num < 0x10000 && |tokens| < 256 && end + Total(tokens) <= SIZE
      requires |tokens| > MAX_TOKENS ==> end + 3 + |tokens| <= SIZE
      modifies this, buf
      ensures |tokens| <= MAX_TOKENS ==> Valid() && lines == With(old(lines), Line(num, tokens))
      ensures |tokens| > MAX_TOKENS ==>
                buf.Length == SIZE && old(AllProper(lines)) && Crammed(buf[..], end, old(lines), num, tokens)
    {
      hide Packed, Record, Sorted, Overlaid, Crammed, Has, Place, With, Proper;
      var total := Total(tokens);
      var offset := FindInsertPos(num);
      ghost var k := Place(lines, num);
      OffsetBound(lines, k);
      EndSize();
      ghost var before := buf[..];
      WriteRecord(offset, end - offset, num, tokens);
      end := end + total;
      if |tokens| <= MAX_TOKENS {
        Stored(before, lines, num, tokens);
        lines := With(lines, Line(num, tokens));
      } else {
        OverlaidLong(before, lines, k, num, tokens);
      }
    }

    /** Stores a line in order of its number, replacing one of the same number;
        a line that does not fit leaves only the replaced one gone. Of a line too
        long for the length byte, the tokens overlay what follows its place. */
    method InsertLine(num: nat, tokens: seq<byte>)
      requires Valid() && num < 0x10000 && |tokens| < 256
      requires |tokens| > MAX_TOKENS ==> end + 3 + |tokens| <= SIZE
      modifies this, buf
      ensures var rest := Without(old(lines), num);
              && AllProper(rest)
              && (|tokens| <= MAX_TOKENS ==>
                    Valid() && lines == if |Packed(rest)| + |tokens| + 3 <= SIZE then With(rest, Line(num, tokens))
                    else rest)
              && (|tokens| > MAX_TOKENS ==> buf.Length == SIZE && Crammed(buf[..], end, rest, num, tokens))
    {
      hide Packed, Record, Sorted, Crammed, Has, Place, With, Without, Proper;
      WithoutSorted(lines, num);
      WithoutGone(lines, num);
      WithoutSize(lines, num);
      EndSize();
      DeleteLine(num);
      EndSize();
      if end + Total(tokens) > SIZE { return; }
      PlaceLine(num, tokens);
    }

    lemma EndSize()
      requires Valid()
      ensures end == |Packed(lines)|
    {
    }
  }

  lemma Glued(b: seq<byte>, x: seq<byte>, y: seq<byte>)
    requires |x| + |y| <= |b| && b[..|x|] == x && b[|x|..|x| + |y|] == y
    ensures b[..|x| + |y|] == x + y
  {
    assert b[..|x| + |y|] == b[..|x|] + b[|x|..|x| + |y|];
  }

  /** A record's length, as far as a byte holds it. */
  function Total(tokens: seq<byte>): byte {
    (|tokens| + 3) % 256
  }

  predicate Writable(size: nat, at: nat, tail: nat, tokens: seq<byte>) {
    |tokens| < 256 && at + 3 + |tokens| <= size && at + Total(tokens) + tail <= size
  }

  function Moved(b: seq<byte>, at: nat, tail: nat, d: nat): (r: seq<byte>)
    requires at + d + tail <= |b|
    ensures |r| == |b|
  {
    b[..at + d] + b[at..at + tail] + b[at + d + tail..]
  }

  lemma MovedIs(b: seq<byte>, r: seq<byte>, at: nat, tail: nat, d: nat)
    requires at + d + tail <= |b| == |r|
    requires forall i {:trigger r[i]} :: 0 <= i < |b| ==> r[i] == if at + d <= i < at + d + tail then b[i - d] else b[i]
    ensures r == Moved(b, at, tail, d)
  {
    var x, y, z := b[..at + d], b[at..at + tail], b[at + d + tail..];
    assert r[..at + d] == x;
    assert r[at + d + tail..] == z;
    forall i | 0 <= i < tail ensures r[at + d..at + d + tail][i] == y[i] {
      assert r[at + d + i] == b[at + d + i - d];
    }
    assert r[at + d..at + d + tail] == y;
    assert r == r[..at + d] + r[at + d..at + d + tail] + r[at + d + tail..];
  }

  function Written(b: seq<byte>, at: nat, num: nat, tokens: seq<byte>): (r: seq<byte>)
    requires num < 0x10000 && at + 3 + |tokens| <= |b|
    ensures |r| == |b|
  {
    b[..at] + ([num % 256, num / 256, Total(tokens)] + tokens) + b[at + 3 + |tokens|..]
  }

  lemma WrittenIs(b: seq<byte>, r: seq<byte>, at: nat, num: nat, tokens: seq<byte>)
    requires num < 0x10000 && at + 3 + |tokens| <= |b| == |r|
    requires r[at] == num % 256 && r[at + 1] == num / 256 && r[at + 2] == Total(tokens)
    requires forall i :: 0 <= i < |tokens| ==> r[at + 3 + i] == tokens[i]
    requires forall i :: 0 <= i < |b| && !(at <= i < at + 3 + |tokens|) ==> r[i] == b[i]
    ensures r == Written(b, at, num, tokens)
  {
    var w := Written(b, at, num, tokens);
    forall i | 0 <= i < |b| ensures r[i] == w[i] {
      if at + 3 <= i < at + 3 + |tokens| {
        assert w[i] == tokens[i - at - 3];
        assert r[at + 3 + (i - at - 3)] == tokens[i - at - 3];
      }
    }
  }

  /** The buffer with a tail moved up and a record written in front of it. */
  function Overlaid(b: seq<byte>, at: nat, tail: nat, num: nat, tokens: seq<byte>): (r: seq<byte>)
    requires num < 0x10000 && Writable(|b|, at, tail, tokens)
    ensures |r| == |b|
  {
    Written(Moved(b, at, tail, Total(tokens)), at, num, tokens)
  }

  lemma OverlaidFits(b: seq<byte>, at: nat, tail: nat, num: nat, tokens: seq<byte>)
    requires num < 0x10000 && |tokens| <= MAX_TOKENS && at + |tokens| + 3 + tail <= |b|
    ensures Overlaid(b, at, tail, num, tokens)[..at + |tokens| + 3 + tail]
            == b[..at] + Record(Line(num, tokens)) + b[at..at + tail]
  {
  }

  lemma OffsetBound(ls: seq<Line>, k: nat)
    requires AllProper(ls) && k <= |ls|
    ensures Offset(ls, k) <= |Packed(ls)|
  {
    PackedSplit(ls, k);
  }

  /** With a line's record written at its place the buffer packs one line more. */
  lemma Stored(b: seq<byte>, ls: seq<Line>, num: nat, tokens: seq<byte>)
    requires AllProper(ls) && Sorted(ls) && !Has(ls, num) && num < 0x10000 && |tokens| <= MAX_TOKENS
    requires |Packed(ls)| + |tokens| + 3 <= |b| && b[..|Packed(ls)|] == Packed(ls)
    ensures var o, n, l := Offset(ls, Place(ls, num)), |Packed(ls)|, Line(num, tokens);
            && o <= n && AllProper(With(ls, l)) && Sorted(With(ls, l))
            && |Packed(With(ls, l))| == n + |tokens| + 3
            && Overlaid(b, o, n - o, num, tokens)[..n + |tokens| + 3] == Packed(With(ls, l))
  {
    hide Place, Record, Packed, Sorted, Overlaid;
    var k, l := Place(ls, num), Line(num, tokens);
    WithSorted(ls, l);
    WithSize(ls, l);
    SplitParts(b, ls, k, l);
    OverlaidFits(b, Offset(ls, k), |Packed(ls)| - Offset(ls, k), num, tokens);
  }

  /** What inserting a line of 253 or more tokens leaves: at its place a record
      whose length byte does not even count its header. */
  ghost predicate Crammed(b: seq<byte>, end: nat, rest: seq<Line>, num: nat, tokens: seq<byte>)
    requires AllProper(rest)
  {
    var o := Offset(rest, Place(rest, num));
    && end == |Packed(rest)| + |tokens| - 253 && o + 3 + |tokens| <= |b| && num < 0x10000
    && b[..o] == Packed(rest[..Place(rest, num)])
    && b[o..o + 3 + |tokens|] == [num % 256, num / 256, |tokens| - 253] + tokens
  }

  lemma OverlaidLong(b: seq<byte>, ls: seq<Line>, k: nat, num: nat, tokens: seq<byte>)
    requires AllProper(ls) && k == Place(ls, num) && num < 0x10000 && MAX_TOKENS < |tokens| < 256
    requires |Packed(ls)| + 3 + |tokens| <= |b| && b[..|Packed(ls)|] == Packed(ls)
    ensures var o, n := Offset(ls, k), |Packed(ls)|;
            o <= n && Crammed(Overlaid(b, o, n - o, num, tokens), n + |tokens| - 253, ls, num, tokens)
  {
    hide Place, Record, Packed;
    PackedSplit(ls, k);
    Halves(b, Packed(ls[..k]), Packed(ls[k..]));
    var o, n := Offset(ls, k), |Packed(ls)|;
    var r := Overlaid(b, o, n - o, num, tokens);
    assert r[..o] == b[..o];
  }

  lemma CrammedByte(b: seq<byte>, end: nat, rest: seq<Line>, num: nat, tokens: seq<byte>)
    requires AllProper(rest) && MAX_TOKENS < |tokens| < 256 && Crammed(b, end, rest, num, tokens)
    ensures b[Offset(rest, Place(rest, num)) + 2] == |tokens| - 253
  {
    var o := Offset(rest, Place(rest, num));
    assert b[o + 2] == b[o..o + 3 + |tokens|][2];
  }

  /** The buffer then holds no packed program with a record there: it is packed
      only if nothing followed and nothing was counted, and so the line is lost. */
  lemma LongLineLost(b: seq<byte>, end: nat, rest: seq<Line>, num: nat, tokens: seq<byte>, ls: seq<Line>, k: nat)
    requires AllProper(rest) && MAX_TOKENS < |tokens| < 256 && Crammed(b, end, rest, num, tokens)
    requires AllProper(ls) && end <= |b| && b[..end] == Packed(ls)
    requires k <= |ls| && Offset(ls, k) == Offset(rest, Place(rest, num))
    ensures k == |ls| && |tokens| == 253 && Place(rest, num) == |rest| && b[..end] == Packed(rest)
  {
    hide Place, Packed, Record;
    var o := Offset(ls, k);
    if k < |ls| {
      CrammedByte(b, end, rest, num, tokens);
      RecordAt(b, ls, k);
      assert false;
    }
    OffsetEnds(ls);
    OffsetInside(rest, Place(rest, num));
    assert rest[..|rest|] == rest;
  }

  /** What lies before and behind the k-th record. */
  lemma CutParts(b: seq<byte>, ls: seq<Line>, k: nat)
    requires AllProper(ls) && k < |ls| && |Packed(ls)| <= |b| && b[..|Packed(ls)|] == Packed(ls)
    ensures var p, q, end := Offset(ls, k), Offset(ls, k) + |ls[k].tokens| + 3, |Packed(ls)|;
            && q <= end && AllProper(ls[..k] + ls[k + 1..])
            && b[..p] + b[q..end] == Packed(ls[..k] + ls[k + 1..])
  {
    hide Record, Packed;
    PackedAt(ls, k);
    PackedAppend(ls[..k], ls[k + 1..]);
    Ends(b, Packed(ls[..k]), Record(ls[k]), Packed(ls[k + 1..]));
  }

  lemma Ends(b: seq<byte>, x: seq<byte>, r: seq<byte>, y: seq<byte>)
    requires |x| + |r| + |y| <= |b| && b[..|x| + |r| + |y|] == x + (r + y)
    ensures b[..|x|] == x && b[|x| + |r|..|x| + |r| + |y|] == y
  {
    var all := b[..|x| + |r| + |y|];
    assert all[..|x|] == b[..|x|];
    assert all[|x| + |r|..] == b[|x| + |r|..|x| + |r| + |y|];
  }

  lemma Halves(b: seq<byte>, x: seq<byte>, y: seq<byte>)
    requires |x| + |y| <= |b| && b[..|x| + |y|] == x + y
    ensures b[..|x|] == x && b[|x|..|x| + |y|] == y
  {
    var all := b[..|x| + |y|];
    assert all[..|x|] == b[..|x|];
    assert all[|x|..] == b[|x|..|x| + |y|];
  }

  /** What lies before the place of a new line and from there on. */
  lemma {:induction false} SplitParts(b: seq<byte>, ls: seq<Line>, k: nat, l: Line)
    requires AllProper(ls) && Proper(l) && k == Place(ls, l.num)
    requires |Packed(ls)| <= |b| && b[..|Packed(ls)|] == Packed(ls)
    ensures Offset(ls, k) <= |Packed(ls)| && AllProper(With(ls, l))
    ensures b[..Offset(ls, k)] + Record(l) + b[Offset(ls, k)..|Packed(ls)|] == Packed(With(ls, l))
  {
    hide Place, Record, Packed;
    PackedOne(l);
    PackedAppend(ls[..k], [l]);
    PackedAppend(ls[..k] + [l], ls[k..]);
    PackedSplit(ls, k);
    Halves(b, Packed(ls[..k]), Packed(ls[k..]));
  }
}
