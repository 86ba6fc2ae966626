/** The editor's gap buffer and the ring that records its edits. */
module Buffer {
  import opened History
  import opened Lines

  /** The ring slot of entry `i` when `count` entries precede the write position. */
  function RingSlot(top: nat, count: nat, i: nat): (k: nat)
    requires top < CAP && count <= CAP
    ensures k < CAP
  {
    (top + CAP - count + i) % CAP
  }

  /** The ring holds the entries of `log`, `count` of them before the write position. */
  ghost predicate RingHolds(ring: seq<Entry>, top: nat, count: nat, log: seq<Entry>)
    requires |ring| == CAP && top < CAP && count <= CAP
  {
    |log| <= CAP && forall i :: 0 <= i < |log| ==> ring[RingSlot(top, count, i)] == log[i]
  }

  lemma RingBack(top: nat, count: nat)
    requires top < CAP && 0 < count <= CAP
    ensures var top' := (top + CAP - 1) % CAP;
            && top' == RingSlot(top, count, count - 1)
            && forall i :: 0 <= i < CAP ==> RingSlot(top', count - 1, i) == RingSlot(top, count, i)
  {
  }

  lemma RingForward(top: nat, count: nat)
    requires top < CAP && count < CAP
    ensures var top' := (top + 1) % CAP;
            && top == RingSlot(top, count, count)
            && forall i :: 0 <= i < CAP ==> RingSlot(top', count + 1, i) == RingSlot(top, count, i)
  {
  }

  lemma RingDistinct(top: nat, count: nat, i: nat, j: nat)
    requires top < CAP && count <= CAP && i < j < CAP
    ensures RingSlot(top, count, i) != RingSlot(top, count, j)
  {
  }

  /** Overwriting the slot at the write position records an entry. */
  lemma RingPush(ring: seq<Entry>, top: nat, p: Past, e: Entry)
    requires |ring| == CAP && top < CAP && p.now <= |p.log| <= CAP && RingHolds(ring, top, p.now, p.log)
    ensures var r := Record(p, e);
            && |r.log| == r.now == (if p.now < CAP then p.now + 1 else CAP)
            && RingHolds(ring[top := e], (top + 1) % CAP, r.now, r.log)
  {
    hide RingSlot;
    var r := Record(p, e);
    if p.now < CAP {
      RingForward(top, p.now);
      forall i | 0 <= i < |r.log| ensures ring[top := e][RingSlot((top + 1) % CAP, r.now, i)] == r.log[i] {
        if i < p.now { RingDistinct(top, p.now, i, p.now); }
      }
    } else {
      RingFull(top);
      forall i | 0 <= i < |r.log| ensures ring[top := e][RingSlot((top + 1) % CAP, r.now, i)] == r.log[i] {
        if i < CAP - 1 { RingDistinct(top, CAP, 0, i + 1); }
      }
    }
  }

  lemma RingFull(top: nat)
    requires top < CAP
    ensures var top' := (top + 1) % CAP;
            && top == RingSlot(top, CAP, 0) == RingSlot(top', CAP, CAP - 1)
            && forall i :: 0 <= i < CAP - 1 ==> RingSlot(top', CAP, i) == RingSlot(top, CAP, i + 1)
  {
  }

  /** `out` starts with the first `n` characters of `t` and goes on as before. */
  lemma Prefixed(out: seq<char>, t: seq<char>, was: seq<char>, n: nat)
    requires |out| == |was| && n <= |out| && n <= |t|
    requires forall i :: 0 <= i < n ==> out[i] == t[i]
    requires forall i :: n <= i < |out| ==> out[i] == was[i]
    ensures out == t[..n] + was[n..]
  {
  }

  class GapBuffer {
    const buf: array<char>
    var gapStart: nat
    var gapEnd: nat
    const stack: array<Entry>
    var top: nat
    var undoCount: nat
    var redoCount: nat
    var replaying: bool
    /** The history the ring stands for. */
    ghost var past: Past

    ghost predicate Shape()
      reads this, buf, stack
    {
      && buf.Length == ROOM && stack.Length == CAP
      && gapStart <= gapEnd <= ROOM && top < CAP
      && past.now == undoCount && |past.log| == undoCount + redoCount <= CAP
      && RingHolds(stack[..], top, undoCount, past.log)
    }

    ghost function Text(): Text
      requires buf.Length == ROOM && gapStart <= gapEnd <= ROOM
      reads this, buf
    {
      buf[..gapStart] + buf[gapEnd..]
    }

    /** The text is what the history says it is. */
    ghost predicate Valid()
      reads this, buf, stack
    {
      Shape() && !replaying && Good(past) && Text() == Current(past)
    }

    constructor ()
      ensures Valid() && Text() == [] && fresh(buf) && fresh(stack) && gapStart == 0
      ensures past == Past([], [], 0)
    {
      buf := new char[ROOM];
      stack := new Entry[CAP](_ => Boundary);
      gapStart := 0;
      gapEnd := ROOM;
      top := 0;
      undoCount := 0;
      redoCount := 0;
      replaying := false;
      past := Past([], [], 0);
    }

    /** Replaces the text and forgets all history. */
    method Load(text: seq<char>)
      requires Shape()
      modifies this, buf
      ensures Valid() && past == Past(text[..if |text| > ROOM then ROOM else |text|], [], 0)
      ensures Text() == Current(past) && gapStart == |Text()|
    {
      var n := |text|;
      if n > ROOM { n := ROOM; }
      gapEnd := ROOM;
      top := 0;
      undoCount := 0;
      redoCount := 0;
      replaying := false;
      forall i | 0 <= i < n { buf[i] := text[i]; }
      gapStart := n;
      past := Past(text[..n], [], 0);
      assert Text() == text[..n];
    }

    method UndoPush(e: Entry)
      requires Shape()
      modifies this`top, this`undoCount, this`redoCount, this`past, stack
      ensures Shape()
      ensures past == if replaying then old(past) else Record(old(past), e)
    {
      hide RingHolds, Record;
      if replaying { return; }
      RingPush(stack[..], top, past, e);
      stack[top] := e;
      top := (top + 1) % CAP;
      if undoCount < CAP { undoCount := undoCount + 1; }
      redoCount := 0;
      past := Record(past, e);
    }

    method Length() returns (n: nat)
      requires Shape()
      ensures n == |Text()|
    {
      n := ROOM - (gapEnd - gapStart);
    }

    method Insert(c: char)
      requires Shape()
      modifies this, buf, stack
      ensures Shape() && replaying == old(replaying)
      ensures if |old(Text())| == ROOM then Text() == old(Text()) && gapStart == old(gapStart) && past == old(past)
              else
                && Text() == InsertAt(old(Text()), old(gapStart), c) && gapStart == old(gapStart) + 1
                && past == if replaying then old(past) else Record(old(past), Entry.Insert(old(gapStart), c))
      ensures old(Valid()) ==> Valid()
    {
      hide RingHolds, Good, Replay;
      if gapStart >= gapEnd { return; }
      UndoPush(Entry.Insert(gapStart, c));
      buf[gapStart] := c;
      gapStart := gapStart + 1;
      if old(Valid()) { RecordGood(old(past), Entry.Insert(old(gapStart), c)); }
    }

    method DeleteBack()
      requires Shape()
      modifies this, buf, stack
      ensures Shape() && replaying == old(replaying)
      ensures if old(gapStart) == 0 then Text() == old(Text()) && gapStart == 0 && past == old(past)
              else
                && Text() == RemoveAt(old(Text()), old(gapStart) - 1) && gapStart == old(gapStart) - 1
                && past == if replaying then old(past)
                           else Record(old(past), Delete(gapStart, old(Text())[gapStart]))
      ensures old(Valid()) ==> Valid()
    {
      hide RingHolds, Good, Replay;
      if gapStart > 0 {
        UndoPush(Delete(gapStart - 1, buf[gapStart - 1]));
        gapStart := gapStart - 1;
        if old(Valid()) { RecordGood(old(past), Delete(gapStart, old(Text())[gapStart])); }
      }
    }

    method DeleteFwd()
      requires Shape()
      modifies this, buf, stack
      ensures Shape() && replaying == old(replaying) && gapStart == old(gapStart)
      ensures if gapStart == |old(Text())| then Text() == old(Text()) && past == old(past)
              else
                && Text() == RemoveAt(old(Text()), gapStart)
                && past == if replaying then old(past)
                           else Record(old(past), Delete(gapStart, old(Text())[gapStart]))
      ensures old(Valid()) ==> Valid()
    {
      hide RingHolds, Good, Replay, Record, CanAll, Spaced;
      if gapEnd < ROOM {
        UndoPush(Delete(gapStart, buf[gapEnd]));
        gapEnd := gapEnd + 1;
        if old(Valid()) { RecordGood(old(past), Delete(gapStart, old(Text())[gapStart])); }
      }
    }

    method MoveLeft()
      requires Shape()
      modifies this`gapStart, this`gapEnd, buf
      ensures Shape() && Text() == old(Text())
      ensures gapStart == if old(gapStart) > 0 then old(gapStart) - 1 else 0
    {
      hide RingHolds, Good, Replay;
      if gapStart > 0 {
        gapEnd := gapEnd - 1;
        buf[gapEnd] := buf[gapStart - 1];
        gapStart := gapStart - 1;
        assert Text() == old(Text());
      }
    }

    method MoveRight()
      requires Shape()
      modifies this`gapStart, this`gapEnd, buf
      ensures Shape() && Text() == old(Text())
      ensures gapStart == if old(gapStart) < |Text()| then old(gapStart) + 1 else old(gapStart)
    {
      hide RingHolds, Good, Replay;
      if gapEnd < ROOM {
        buf[gapStart] := buf[gapEnd];
        gapStart := gapStart + 1;
        gapEnd := gapEnd + 1;
        assert Text() == old(Text());
      }
    }

    /** Moves the gap as close to `pos` as the text allows; the text stays. */
    method MoveTo(pos: nat)
      requires Shape()
      modifies this`gapStart, this`gapEnd, buf
      ensures Shape() && Text() == old(Text())
      ensures gapStart == if pos <= |Text()| then pos else |Text()|
    {
      hide RingHolds, Good, Replay;
      var cur := gapStart;
      while cur > pos && gapStart > 0
        invariant Shape() && Text() == old(Text())
        invariant cur == gapStart && (cur > pos || cur == pos || cur == old(gapStart))
        decreases cur
      {
        MoveLeft();
        cur := cur - 1;
      }
      while cur < pos && gapEnd < ROOM
        invariant Shape() && Text() == old(Text())
        invariant cur == gapStart <= |Text()| && (cur <= pos)
        decreases pos - cur
      {
        MoveRight();
        cur := cur + 1;
      }
    }

    method CharAt(pos: nat) returns (c: char)
      requires Shape()
      ensures c == if pos < |Text()| then Text()[pos] else '\0'
    {
      hide RingHolds, Good, Replay;
      if pos >= ROOM - (gapEnd - gapStart) { return '\0'; }
      if pos < gapStart { return buf[pos]; }
      c := buf[gapEnd + (pos - gapStart)];
    }

    method UndoBoundary()
      requires Valid()
      modifies this`top, this`undoCount, this`redoCount, this`past, stack
      ensures Valid() && Text() == old(Text()) && past == RecordBoundary(old(past))
    {
      hide RingHolds, Good, Replay;
      if undoCount == 0 { return; }
      var prev := Newest();
      if prev == Boundary { return; }
      BoundaryGood(past);
      UndoPush(Boundary);
    }

    /** One entry back in the ring. */
    method StepBack() returns (e: Entry)
      requires Shape() && undoCount > 0
      modifies this`top, this`undoCount, this`redoCount, this`past
      ensures Shape() && past == old(past).(now := old(past).now - 1) && e == past.log[past.now]
    {
      RingBack(top, undoCount);
      top := (top + CAP - 1) % CAP;
      e := stack[top];
      undoCount := undoCount - 1;
      redoCount := redoCount + 1;
      past := past.(now := past.now - 1);
    }

    method StepForward() returns (e: Entry)
      requires Shape() && redoCount > 0
      modifies this`top, this`undoCount, this`redoCount, this`past
      ensures Shape() && past == old(past).(now := old(past).now + 1) && e == old(past).log[old(past).now]
    {
      RingForward(top, undoCount);
      e := stack[top];
      top := (top + 1) % CAP;
      redoCount := redoCount - 1;
      undoCount := undoCount + 1;
      past := past.(now := past.now + 1);
    }

    /** The entry before the write position. */
    method Newest() returns (e: Entry)
      requires Shape() && undoCount > 0
      ensures e == past.log[past.now - 1]
    {
      RingBack(top, undoCount);
      e := stack[(top + CAP - 1) % CAP];
    }

    method Oldest() returns (e: Entry)
      requires Shape() && redoCount > 0
      ensures e == past.log[past.now]
    {
      RingForward(top, undoCount);
      e := stack[top];
    }

    /** Takes back one edit of the text. */
    method Unmake(e: Entry, ghost t: Text)
      requires Shape() && replaying && Can(t, e) && Text() == Apply(t, e) && e != Boundary && |t| <= ROOM
      modifies this, buf, stack
      ensures Shape() && replaying && past == old(past) && Text() == t && gapStart == UndoneAt(e)
    {
      hide RingHolds, Good, Replay;
      RevertApply(t, e);
      match e
      case Insert(pos, _) =>
        MoveTo(pos);
        DeleteFwd();
      case Delete(pos, ch) =>
        MoveTo(pos);
        Insert(ch);
      case Boundary =>
    }

    method Remake(e: Entry)
      requires Shape() && replaying && Can(Text(), e) && e != Boundary
      modifies this, buf, stack
      ensures Shape() && replaying && past == old(past) && Text() == Apply(old(Text()), e)
      ensures gapStart == RedoneAt(e)
    {
      hide RingHolds, Good, Replay;
      match e
      case Insert(pos, ch) =>
        MoveTo(pos);
        Insert(ch);
      case Delete(pos, _) =>
        MoveTo(pos);
        DeleteFwd();
      case Boundary =>
    }

    /** Takes back entries up to the boundary before them. */
    method UndoGroup()
      requires Shape() && replaying && |past.base| <= ROOM && CanAll(past.base, past.log) && Text() == Current(past)
      modifies this, buf, stack
      ensures Shape() && replaying && past == old(past).(now := GroupStart(old(past).log, old(past).now))
      ensures Text() == Current(past)
      ensures gapStart == if past.now < old(past).now then UndoneAt(past.log[past.now]) else old(gapStart)
    {
      hide RingHolds, Good, Replay, CanAll, Apply, Can, Revert;
      ghost var p := past;
      while undoCount > 0
        invariant Shape() && replaying && past == p.(now := past.now) && past.now <= p.now
        invariant Text() == TextAt(p, past.now) && GroupStart(p.log, past.now) == GroupStart(p.log, p.now)
        invariant gapStart == if past.now < p.now then UndoneAt(p.log[past.now]) else old(gapStart)
        decreases undoCount
      {
        var e := Newest();
        if e == Boundary { break; }
        History.StepBack(p, past.now);
        e := StepBack();
        Unmake(e, TextAt(p, past.now));
      }
    }

    method RedoGroup()
      requires Shape() && replaying && |past.base| <= ROOM && CanAll(past.base, past.log) && Text() == Current(past)
      modifies this, buf, stack
      ensures Shape() && replaying && past == old(past).(now := GroupEnd(old(past).log, old(past).now))
      ensures Text() == Current(past)
      ensures gapStart == if old(past).now < past.now then RedoneAt(past.log[past.now - 1]) else old(gapStart)
    {
      hide RingHolds, Good, Replay, CanAll, Apply, Can, Revert;
      ghost var p := past;
      while redoCount > 0
        invariant Shape() && replaying && past == p.(now := past.now) && past.now <= |p.log|
        invariant Text() == TextAt(p, past.now) && GroupEnd(p.log, past.now) == GroupEnd(p.log, p.now)
        invariant p.now <= past.now
        invariant gapStart == if p.now < past.now then RedoneAt(p.log[past.now - 1]) else old(gapStart)
        decreases redoCount
      {
        var e := Oldest();
        if e == Boundary { break; }
        History.StepBack(p, past.now + 1);
        e := StepForward();
        Remake(e);
      }
    }

    /** Takes back the edits since the last boundary; false when there are none. */
    method Undo() returns (ok: bool)
      requires Valid()
      modifies this, buf, stack
      ensures Valid() && past == History.Undo(old(past)) && ok == UndoPossible(old(past))
      ensures gapStart == UndoCursor(old(past), old(gapStart))
    {
      hide RingHolds, Good, Replay, CanAll, Spaced;
      GoodParts(past);
      CursorMoves(past);
      MoveGood(past);
      BackOverBoundary(past);
      if undoCount == 0 { return false; }
      var e := Newest();
      if e == Boundary {
        e := StepBack();
        if undoCount == 0 { return false; }
      }
      replaying := true;
      UndoGroup();
      replaying := false;
      ok := true;
    }

    /** Makes the edits up to the next boundary again; false when there are none. */
    method Redo() returns (ok: bool)
      requires Valid()
      modifies this, buf, stack
      ensures Valid() && past == History.Redo(old(past)) && ok == RedoPossible(old(past))
      ensures gapStart == RedoCursor(old(past), old(gapStart))
    {
      hide RingHolds, Good, Replay, CanAll, Spaced;
      GoodParts(past);
      CursorMoves(past);
      MoveGood(past);
      BackOverBoundary(past);
      if redoCount == 0 { return false; }
      var e := Oldest();
      if e == Boundary {
        e := StepForward();
        if redoCount == 0 { return false; }
      }
      replaying := true;
      RedoGroup();
      replaying := false;
      ok := true;
    }

    /** Copies the text, cut at `out`'s length, to the start of `out`. */
    method GetContent(out: array<char>) returns (n: nat)
      requires Shape() && out != buf
      modifies out
      ensures n == (if |Text()| <= out.Length then |Text()| else out.Length)
      ensures out[..] == Text()[..n] + old(out[n..])
    {
      hide RingHolds, Good, Replay;
      var before := gapStart;
      var after := ROOM - gapEnd;
      var total := before + after;
      if total > out.Length { total := out.Length; }
      n := 0;
      if before > 0 {
        n := if before < out.Length then before else out.Length;
        CopyOut(out, 0, 0, n);
      }
      if n < total && after > 0 {
        var m := total - n;
        CopyOut(out, n, gapEnd, m);
        n := n + m;
      }
      Prefixed(out[..], Text(), old(out[..]), n);
      assert old(out[..])[n..] == old(out[n..]);
    }

    method CopyOut(out: array<char>, at: nat, from: nat, m: nat)
      requires out != buf && at + m <= out.Length && from + m <= buf.Length
      modifies out
      ensures forall i :: at <= i < at + m ==> out[i] == buf[from + i - at]
      ensures forall i :: 0 <= i < out.Length && !(at <= i < at + m) ==> out[i] == old(out[i])
    {
      forall i | 0 <= i < m { out[at + i] := buf[from + i]; }
    }

    // ---- lines ----

    method LineCount() returns (lines: nat)
      requires Shape()
      ensures lines == Newlines(Text()) + 1
    {
      hide RingHolds, Good, Replay;
      lines := 1;
      var len := Length();
      var i := 0;
      while i < len
        invariant 0 <= i <= len == |Text()| && lines == 1 + Newlines(Text()[..i])
      {
        NewlinesNext(Text(), i);
        var c := CharAt(i);
        if c == '\n' { lines := lines + 1; }
        i := i + 1;
      }
      assert Text()[..len] == Text();
    }

    method CursorLine() returns (line: nat)
      requires Shape()
      ensures line == Newlines(Text()[..gapStart])
    {
      hide RingHolds, Good, Replay;
      line := 0;
      var i := 0;
      while i < gapStart
        invariant 0 <= i <= gapStart <= |Text()| && line == Newlines(Text()[..i])
      {
        NewlinesNext(Text(), i);
        var c := CharAt(i);
        if c == '\n' { line := line + 1; }
        i := i + 1;
      }
    }

    method CursorCol() returns (col: nat)
      requires Shape()
      ensures col == ColumnOf(Text(), gapStart)
    {
      hide RingHolds, Good, Replay;
      col := 0;
      var i := gapStart;
      while i > 0
        invariant 0 <= i <= gapStart <= |Text()| && col == gapStart - i
        invariant forall k :: i <= k < gapStart ==> Text()[k] != '\n'
      {
        var c := CharAt(i - 1);
        if c == '\n' { break; }
        col := col + 1;
        i := i - 1;
      }
      ColumnIs(Text(), gapStart, i);
    }

    method LineStart(line: nat) returns (pos: nat)
      requires Shape()
      ensures pos == StartOf(Text(), line)
    {
      hide RingHolds, Good, Replay;
      if line == 0 { return 0; }
      var curLine := 0;
      var len := Length();
      var i := 0;
      while i < len
        invariant 0 <= i <= len == |Text()| && curLine == Newlines(Text()[..i]) < line
      {
        NewlinesNext(Text(), i);
        var c := CharAt(i);
        if c == '\n' {
          curLine := curLine + 1;
          if curLine == line {
            StartIs(Text(), line, i + 1);
            return i + 1;
          }
        }
        i := i + 1;
      }
      assert Text()[..len] == Text();
      StartPastEnd(Text(), line);
      pos := len;
    }

    method LineLength(line: nat) returns (n: nat)
      requires Shape()
      ensures n == LengthOf(Text(), line)
    {
      hide RingHolds, Good, Replay;
      var start := LineStart(line);
      var len := Length();
      var i := start;
      while i < len
        invariant start <= i <= len == |Text()|
        invariant forall k :: start <= k < i ==> Text()[k] != '\n'
      {
        var c := CharAt(i);
        if c == '\n' { break; }
        i := i + 1;
      }
      EndIs(Text(), start, i);
      n := i - start;
    }
  }

  lemma GoodParts(p: Past)
    requires Good(p)
    ensures p.now <= |p.log| <= CAP && |p.base| <= ROOM && CanAll(p.base, p.log)
  {
  }
}
