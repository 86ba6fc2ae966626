/** Motions and operators of the editor over its text buffer. */
module Editor {
  import opened Basics
  import opened Lines
  import opened Words
  import opened History
  import opened Buffer

  datatype Mode = NormalMode | InsertMode
  datatype Operator = NoOperator | DeleteOp | YankOp | ChangeOp

  const YANK_ROOM: nat := 4096

  /** The characters from `from` up to `to`; past the end they read as NUL. */
  function Range(t: Text, from: nat, to: nat): (r: Text)
    requires from <= to
    ensures |r| == to - from
    ensures to <= |t| ==> r == t[from..to]
  {
    seq(to - from, i requires 0 <= i < to - from => if from + i < |t| then t[from + i] else '\0')
  }

  function Without(t: Text, from: nat, to: nat): Text
    requires from <= to
  {
    t[..Smaller(from, |t|)] + t[Smaller(to, |t|)..]
  }

  /** The entries that deleting `n` characters at `pos` records. */
  function Deletions(t: Text, pos: nat, n: nat): (es: seq<Entry>)
    requires pos + n <= |t|
    ensures |es| == n && forall i :: 0 <= i < n ==> es[i] == Delete(pos, t[pos + i])
  {
    seq(n, i requires 0 <= i < n => Delete(pos, t[pos + i]))
  }

  lemma {:induction false} DeletionsReplay(t: Text, pos: nat, n: nat)
    requires pos + n <= |t|
    ensures Edits(Deletions(t, pos, n)) && CanAll(t, Deletions(t, pos, n))
    ensures Replay(t, Deletions(t, pos, n)) == t[..pos] + t[pos + n..]
    decreases n
  {
    var es := Deletions(t, pos, n);
    if n > 0 {
      DeletionsReplay(t, pos, n - 1);
      assert es[..n - 1] == Deletions(t, pos, n - 1);
      var u := t[..pos] + t[pos + n - 1..];
      assert u[..pos] == t[..pos] && u[pos] == t[pos + n - 1] && u[pos + 1..] == t[pos + n..];
    } else {
      assert t[..pos] + t[pos..] == t;
    }
  }

  /** Pressing `u` with a count: up to that many groups are taken back. */
  function UndoUpTo(p: Past, count: nat): (r: Past)
    requires p.now <= |p.log|
    ensures r.now <= |r.log|
    decreases count
  {
    if count == 0 then p
    else if UndoPossible(p) then UndoUpTo(History.Undo(p), count - 1)
    else History.Undo(p)
  }

  function RedoUpTo(p: Past, count: nat): (r: Past)
    requires p.now <= |p.log|
    ensures r.now <= |r.log|
    decreases count
  {
    if count == 0 then p
    else if RedoPossible(p) then RedoUpTo(History.Redo(p), count - 1)
    else History.Redo(p)
  }

  /** Where the cursor stands after that, when it was at `cursor`. */
  function CursorUpTo(p: Past, count: nat, cursor: nat): nat
    requires p.now <= |p.log|
    decreases count
  {
    if count == 0 || !UndoPossible(p) then cursor
    else CursorUpTo(History.Undo(p), count - 1, UndoCursor(p, cursor))
  }

  function CursorAgainUpTo(p: Past, count: nat, cursor: nat): nat
    requires p.now <= |p.log|
    decreases count
  {
    if count == 0 || !RedoPossible(p) then cursor
    else CursorAgainUpTo(History.Redo(p), count - 1, RedoCursor(p, cursor))
  }

  /** Stopping at the first undo that fails gives the same text as trying on. */
  lemma {:induction false} UpToText(p: Past, count: nat)
    requires Good(p)
    ensures Good(UndoUpTo(p, count)) && Current(UndoUpTo(p, count)) == Current(UndoTimes(p, count))
    decreases count
  {
    hide Good, Current, UndoPossible, History.Undo;
    GoodInside(p);
    if count > 0 {
      MoveGood(p);
      TimesShift(p, count - 1);
      UndoThenRedo(p);
      if UndoPossible(p) {
        UpToText(History.Undo(p), count - 1);
      } else {
        StuckTimes(p, count);
      }
    }
  }

  lemma {:induction false} TimesShift(p: Past, j: nat)
    requires p.now <= |p.log|
    ensures UndoTimes(History.Undo(p), j) == History.Undo(UndoTimes(p, j)) == UndoTimes(p, j + 1)
  {
    if j > 0 { TimesShift(p, j - 1); }
  }

  lemma {:induction false} StuckTimes(p: Past, j: nat)
    requires Good(p) && !UndoPossible(p)
    ensures UndoTimes(p, j).now <= 1 && !UndoPossible(UndoTimes(p, j)) && Good(UndoTimes(p, j))
    ensures Current(UndoTimes(p, j)) == Current(p)
  {
    hide Replay, CanAll, Spaced, Current;
    if j > 0 {
      StuckTimes(p, j - 1);
      MoveGood(UndoTimes(p, j - 1));
      UndoThenRedo(UndoTimes(p, j - 1));
    }
  }

  /** After a series of groups of edits, `u` with a count gives the text before
      that many of them, short of what has fallen out of the ring. */
  lemma {:induction false} UndoKey(p: Past, gs: seq<seq<Entry>>, count: nat)
    requires Good(p) && Doable(p, gs) && 0 < count <= |gs|
    ensures var k := |gs| - count;
            Current(UndoUpTo(RecordBoundary(Groups(p, gs)), count))
            == Replay(Current(Groups(p, gs[..k])), Lost(Later(gs[k..]) + [Boundary]))
  {
    hide Good, Current, Groups, Doable, Replay, RecordBoundary, UndoUpTo, Later, Lost, UndoTimes;
    GoodInside(p);
    GroupsGood(p, gs);
    GoodInside(Groups(p, gs));
    BoundaryGood(Groups(p, gs));
    UpToText(RecordBoundary(Groups(p, gs)), count);
    GroupsUndone(p, gs, true, count);
  }

  /** Deleting a range of one or more characters and then pressing `u` restores
      the text exactly when at most 2047 characters went; the cursor comes to
      stand behind the first character restored. */
  lemma DeleteThenUndo(p: Past, pos: nat, n: nat, cursor: nat)
    requires Good(p) && pos + n <= |Current(p)| && n > 0
    ensures var q := Group(p, Deletions(Current(p), pos, n), false);
            var b := RecordBoundary(q);
            && (Current(UndoUpTo(b, 1)) == Current(p) <==> n < CAP)
            && CursorUpTo(b, 1, cursor) == pos + 1
  {
    hide Good, Replay, CanAll, RecordAll, RecordBoundary, Current, History.Undo, UndoPossible, UndoCursor;
    GoodInside(p);
    var t := Current(p);
    var es := Deletions(t, pos, n);
    DeletionsReplay(t, pos, n);
    GroupUndone(p, es, true, cursor);
    var lost := Excess(n + 1);
    assert es[..lost] == Deletions(t, pos, lost);
    DeletionsReplay(t, pos, lost);
    var b := RecordBoundary(Group(p, es, false));
    assert b == Group(p, es, true);
    assert UndoUpTo(b, 1) == UndoUpTo(History.Undo(b), 0);
    assert CursorUpTo(b, 1, cursor) == CursorUpTo(History.Undo(b), 0, UndoCursor(b, cursor));
  }

  /** The charwise motions an operator can be combined with. */
  datatype Motion =
    | ToWord(big: bool)
    | ToPreviousWord(big: bool)
    | ToWordEnd(big: bool)
    | ToLeft
    | ToRight
    | ToLineStart
    | ToLineEnd

  function MovedOnce(t: Text, p: nat, m: Motion): (r: nat)
    requires p <= |t|
    ensures r <= |t|
  {
    match m
    case ToWord(big) => NextStart(t, p, big)
    case ToPreviousWord(big) => PrevStart(t, p, big)
    case ToWordEnd(big) => NextEnd(t, p, big)
    case ToLeft => if p > 0 then p - 1 else 0
    case ToRight => if p < |t| then p + 1 else p
    case ToLineStart => LineBegin(t, p)
    case ToLineEnd => EndFrom(t, p)
  }

  function Moved(t: Text, p: nat, m: Motion, n: nat): (r: nat)
    requires p <= |t|
    ensures r <= |t|
    decreases n
  {
    if n == 0 then p else Moved(t, MovedOnce(t, p, m), m, n - 1)
  }

  /** The far end of the range an operator covers; the word-end motions include
      the character they land on. */
  function Covered(t: Text, p: nat, m: Motion, n: nat): nat
    requires p <= |t|
  {
    match m
    case ToWordEnd(_) => Moved(t, p, m, n) + 1
    case ToLineStart => LineBegin(t, p)
    case ToLineEnd => EndFrom(t, p)
    case _ => Moved(t, p, m, n)
  }

  /** Except on an empty text, every motion stays inside the text; there the
      word-end motions alone reach one past it. */
  lemma CoveredInside(t: Text, p: nat, m: Motion, n: nat)
    requires p <= |t| && n > 0
    ensures Covered(t, p, m, n) <= |t| <==> |t| > 0 || !m.ToWordEnd?
  {
    if m.ToWordEnd? { MovedEnd(t, p, m, n); }
  }

  lemma {:induction false} MovedEnd(t: Text, p: nat, m: Motion, n: nat)
    requires p <= |t| && n > 0 && m.ToWordEnd?
    ensures Moved(t, p, m, n) < |t| || Moved(t, p, m, n) == 0 == |t|
    decreases n
  {
    if n > 1 {
      MovedEnd(t, MovedOnce(t, p, m), m, n - 1);
    } else {
      assert Moved(t, MovedOnce(t, p, m), m, 0) == NextEnd(t, p, m.big);
    }
  }

  method IsWordChar(c: char) returns (r: bool)
    ensures r == WordChar(c)
  {
    r := ('a' <= c && c <= 'z') || ('A' <= c && c <= 'Z') || ('0' <= c && c <= '9') || c == '_';
  }

  class Editor {
    const text: GapBuffer
    var mode: Mode
    var modified: bool
    const yankBuf: array<char>
    var yankLen: nat
    var yankLinewise: bool
    var pending: Operator
    var opCount: nat

    ghost predicate Valid()
      reads this, text, text.buf, text.stack, yankBuf
    {
      text.Valid() && yankBuf.Length == YANK_ROOM && yankLen < YANK_ROOM && yankBuf != text.buf
    }

    ghost function Yanked(): Text
      requires yankBuf.Length == YANK_ROOM && yankLen < YANK_ROOM
      reads this, yankBuf
    {
      yankBuf[..yankLen]
    }

    constructor ()
      ensures Valid() && text.Text() == [] && fresh(text) && fresh(text.buf) && fresh(text.stack) && fresh(yankBuf)
    {
      text := new GapBuffer();
      mode := NormalMode;
      modified := false;
      yankBuf := new char[YANK_ROOM];
      yankLen := 0;
      yankLinewise := false;
      pending := NoOperator;
      opCount := 0;
    }

    // ---- word motions ----

    method KindAt(pos: nat, big: bool) returns (k: nat)
      requires Valid() && pos < |text.Text()|
      ensures k == Kind(text.Text()[pos], big)
    {
      hide Good, Replay, RingHolds, Current;
      var c := text.CharAt(pos);
      if c == ' ' || c == '\t' || c == '\n' || c == '\r' { return 0; }
      var w := IsWordChar(c);
      k := if big || w then 1 else 2;
    }

    /** The first position from `from` on that holds no blank. */
    method SkipBlanks(from: nat, big: bool) returns (r: nat)
      requires Valid() && from <= |text.Text()|
      ensures from <= r <= |text.Text()| && Run(text.Text(), from, r, 0, big)
      ensures r < |text.Text()| ==> Kind(text.Text()[r], big) != 0
    {
      hide Good, Replay, Kind, RingHolds, Current;
      var len := text.Length();
      r := from;
      while r < len
        invariant from <= r <= len && Run(text.Text(), from, r, 0, big)
      {
        var k := KindAt(r, big);
        if k != 0 { break; }
        r := r + 1;
      }
    }

    /** `w` and `W`. */
    method WordForwardPos(pos: nat, big: bool) returns (r: nat)
      requires Valid()
      ensures r == NextStart(text.Text(), pos, big)
    {
      hide Good, Replay, Kind, RingHolds, NextStart, PrevStart, NextEnd, Current;
      ghost var t := text.Text();
      var len := text.Length();
      if pos >= len { return len; }
      r := pos;
      var kind := KindAt(pos, big);
      if kind != 0 {
        while r < len
          invariant pos <= r <= len && Run(t, pos, r, kind, big)
          invariant r == pos ==> Kind(t[r], big) == kind
        {
          var k := KindAt(r, big);
          if k != kind { break; }
          r := r + 1;
        }
      }
      ghost var q := r;
      r := SkipBlanks(r, big);
      OverRun(t, pos, q, r, kind, big);
    }

    /** `b` and `B`. */
    method WordBackwardPos(pos: nat, big: bool) returns (r: nat)
      requires Valid() && pos <= |text.Text()|
      ensures r == PrevStart(text.Text(), pos, big)
    {
      hide Good, Replay, Kind, RingHolds, NextStart, PrevStart, NextEnd, Current;
      ghost var t := text.Text();
      if pos == 0 { return 0; }
      r := pos - 1;
      var kind := KindAt(r, big);
      while r > 0 && kind == 0
        invariant r < pos && kind == Kind(t[r], big) && Run(t, r + 1, pos, 0, big)
      {
        r := r - 1;
        kind := KindAt(r, big);
      }
      if kind == 0 {
        BackBlank(t, pos, big);
        return 0;
      }
      ghost var q := r;
      while r > 0
        invariant r <= q < pos && Run(t, r, q + 1, kind, big)
      {
        var k := KindAt(r - 1, big);
        if k != kind { break; }
        r := r - 1;
      }
      BackRun(t, r, q, pos, kind, big);
    }

    /** `e` and `E`. */
    method WordEndPos(pos: nat, big: bool) returns (r: nat)
      requires Valid()
      ensures r == NextEnd(text.Text(), pos, big)
    {
      hide Good, Replay, Kind, RingHolds, NextStart, PrevStart, NextEnd, Current;
      ghost var t := text.Text();
      var len := text.Length();
      if pos + 1 >= len { return if len > 0 then len - 1 else 0; }
      r := SkipBlanks(pos + 1, big);
      if r >= len {
        EndBlank(t, pos, big);
        return len - 1;
      }
      ghost var q := r;
      var kind := KindAt(r, big);
      while r + 1 < len
        invariant q <= r < len && Run(t, q, r + 1, kind, big)
      {
        var k := KindAt(r + 1, big);
        if k != kind { break; }
        r := r + 1;
      }
      EndRun(t, pos, q, r, kind, big);
    }

    // ---- places ----

    /** Goes to a line and column, or to the end of a shorter line. */
    method MoveToLineCol(line: nat, col: nat)
      requires Valid()
      modifies text`gapStart, text`gapEnd, text.buf
      ensures Valid() && text.Text() == old(text.Text()) && text.past == old(text.past)
      ensures text.gapStart == StartOf(text.Text(), line) + Smaller(col, LengthOf(text.Text(), line))
    {
      hide Good, Replay, RingHolds;
      var pos := text.LineStart(line);
      var len := text.LineLength(line);
      var c := col;
      if c > len { c := len; }
      text.MoveTo(pos + c);
    }

    // ---- yank, delete, undo ----

    /** Copies a range, up to what the yank buffer holds. */
    method YankRange(start: nat, end: nat)
      requires Valid() && start <= end
      modifies this`yankLen, yankBuf
      ensures Valid() && text.Text() == old(text.Text()) && text.past == old(text.past)
      ensures Yanked() == Range(text.Text(), start, end)[..Smaller(end - start, YANK_ROOM - 1)]
    {
      hide Good, Replay, RingHolds;
      var len := end - start;
      if len > YANK_ROOM - 1 { len := YANK_ROOM - 1; }
      ghost var r := Range(text.Text(), start, end);
      var i := 0;
      while i < len
        invariant 0 <= i <= len && text.Valid()
        invariant yankBuf[..i] == r[..i]
      {
        var c := text.CharAt(start + i);
        yankBuf[i] := c;
        i := i + 1;
      }
      yankLen := len;
    }

    /** Deletes a range, as far as the text reaches. */
    method DeleteRange(start: nat, end: nat)
      requires Valid() && start <= end
      modifies this`modified, text, text.buf, text.stack
      ensures Valid() && modified && text.Text() == Without(old(text.Text()), start, end)
      ensures var t := old(text.Text());
              var s := Smaller(start, |t|);
              text.past == RecordAll(old(text.past), Deletions(t, s, Smaller(end, |t|) - s)) && text.gapStart == s
    {
      hide Good, Replay, RingHolds, Record, RecordAll, Shrunk, Deletions, Without, RemoveAt, Smaller, Current;
      ghost var t, p := text.Text(), text.past;
      text.MoveTo(start);
      ghost var s := Smaller(start, |t|);
      SmallerIs(start, |t|);
      var count := end - start;
      var i := 0;
      ShrunkStart(p, t, s);
      while i < count
        invariant 0 <= i <= count && text.Valid() && text.gapStart == s
        invariant Shrunk(p, t, s, i, text.past, text.Text())
      {
        ShrunkNext(p, t, s, i, text.past, text.Text());
        text.DeleteFwd();
        i := i + 1;
      }
      ShrunkEnd(p, t, start, end, text.past, text.Text());
      modified := true;
    }

    method CancelOperator()
      modifies this`pending, this`opCount
      ensures pending == NoOperator && opCount == 0
    {
      pending := NoOperator;
      opCount := 0;
    }

    /** Applies the pending operator between two positions. */
    method ApplyOperatorCharwise(from: nat, to: nat)
      requires Valid() && pending != NoOperator
      modifies this, yankBuf, text, text.buf, text.stack
      ensures Valid() && pending == NoOperator && opCount == 0 && !yankLinewise
      ensures var t, start, end := old(text.Text()), Smaller(from, to), from + to - Smaller(from, to);
              var s := Smaller(start, |t|);
              var n := Smaller(end, |t|) - s;
              && Yanked() == Range(t, start, end)[..Smaller(end - start, YANK_ROOM - 1)]
              && (old(pending) == YankOp ==>
                    text.Text() == t && text.past == RecordBoundary(old(text.past))
                    && text.gapStart == old(text.gapStart) && modified == old(modified))
              && (old(pending) != YankOp ==>
                    text.Text() == Without(t, start, end) && text.gapStart == s && modified
                    && text.past == Group(old(text.past), Deletions(t, s, n), false))
      ensures mode == if old(pending) == ChangeOp then InsertMode else old(mode)
    {
      hide Good, Replay, RingHolds, Record, RecordAll, Deletions, Without, Current, RecordBoundary;
      var start := if from < to then from else to;
      var end := if from < to then to else from;
      text.UndoBoundary();
      YankRange(start, end);
      yankLinewise := false;
      if pending == DeleteOp || pending == ChangeOp {
        DeleteRange(start, end);
      }
      if pending == ChangeOp { mode := InsertMode; }
      CancelOperator();
    }

    method MoveOnce(p: nat, m: Motion) returns (r: nat)
      requires Valid() && p <= |text.Text()| && !m.ToLineStart? && !m.ToLineEnd?
      ensures r == MovedOnce(text.Text(), p, m)
    {
      hide Good, Replay, RingHolds, Current, NextStart, PrevStart, NextEnd, LineBegin, EndFrom;
      match m
      case ToWord(big) => r := WordForwardPos(p, big);
      case ToPreviousWord(big) => r := WordBackwardPos(p, big);
      case ToWordEnd(big) => r := WordEndPos(p, big);
      case ToLeft => r := if p > 0 then p - 1 else 0;
      case ToRight =>
        var len := text.Length();
        r := if p < len then p + 1 else p;
    }

    /** Where the line of the cursor begins and ends. */
    method LineAround() returns (first: nat, last: nat)
      requires Valid()
      ensures first == LineBegin(text.Text(), text.gapStart) && last == EndFrom(text.Text(), text.gapStart)
    {
      hide Good, Replay, RingHolds, Current, Newlines, LineBegin, EndFrom, StartOf;
      var line := text.CursorLine();
      first := text.LineStart(line);
      var len := text.LineLength(line);
      last := first + len;
      PlaceFound(text.Text(), text.gapStart);
      SameLineEnd(text.Text(), text.gapStart);
    }

    /** The end of the range covered by a motion from the cursor. */
    method MotionEnd(m: Motion, count: nat) returns (to: nat)
      requires Valid()
      ensures to == Covered(text.Text(), text.gapStart, m, count)
    {
      hide Good, Replay, RingHolds, Current, NextStart, PrevStart, NextEnd, MovedOnce, LineBegin, EndFrom;
      ghost var t, cur := text.Text(), text.gapStart;
      if m.ToLineStart? || m.ToLineEnd? {
        var first, last := LineAround();
        to := if m.ToLineStart? then first else last;
      } else {
        to := text.gapStart;
        var i := 0;
        while i < count
          invariant 0 <= i <= count && to <= |t|
          invariant Moved(t, cur, m, count) == Moved(t, to, m, count - i)
        {
          to := MoveOnce(to, m);
          i := i + 1;
        }
        if m.ToWordEnd? { to := to + 1; }
      }
    }

    /** An operator followed by a charwise motion. */
    method OperatorMotion(m: Motion, count: nat)
      requires Valid() && pending != NoOperator
      modifies this, yankBuf, text, text.buf, text.stack
      ensures Valid() && pending == NoOperator
      ensures var t, cur := old(text.Text()), old(text.gapStart);
              var end := Covered(t, cur, m, old(opCount) * count);
              var a := Smaller(cur, end);
              var b := cur + end - a;
              && Yanked() == Range(t, a, b)[..Smaller(b - a, YANK_ROOM - 1)]
              && text.Text() == (if old(pending) == YankOp then t else Without(t, a, b))
              && text.past == (if old(pending) == YankOp then RecordBoundary(old(text.past))
                               else Group(old(text.past), Deletions(t, Smaller(a, |t|),
                                                                    Smaller(b, |t|) - Smaller(a, |t|)), false))
              && text.gapStart == (if old(pending) == YankOp then cur else Smaller(a, |t|))
      ensures yankLinewise == false && modified == (old(modified) || old(pending) != YankOp)
      ensures mode == if old(pending) == ChangeOp then InsertMode else old(mode)
    {
      hide Good, Replay, RingHolds, Current, Covered, Without, RecordBoundary, Group, Deletions, Range, Moved, Record,
           RecordAll;
      var to := MotionEnd(m, opCount * count);
      ApplyOperatorCharwise(text.gapStart, to);
    }

    /** `u` with a count. */
    method UndoCommand(count: nat)
      requires Valid()
      modifies this`modified, text, text.buf, text.stack
      ensures Valid() && modified && text.past == UndoUpTo(RecordBoundary(old(text.past)), count)
      ensures text.gapStart == CursorUpTo(RecordBoundary(old(text.past)), count, old(text.gapStart))
    {
      hide Good, Replay, RingHolds, Record, Current, RecordBoundary, UndoPossible;
      text.UndoBoundary();
      ghost var p := text.past;
      var i := 0;
      while i < count
        invariant 0 <= i <= count && text.Valid()
        invariant UndoUpTo(p, count) == UndoUpTo(text.past, count - i)
        invariant CursorUpTo(p, count, old(text.gapStart)) == CursorUpTo(text.past, count - i, text.gapStart)
      {
        var ok := text.Undo();
        if !ok { break; }
        i := i + 1;
      }
      modified := true;
    }

    /** Redo with a count. */
    method RedoCommand(count: nat)
      requires Valid()
      modifies this`modified, text, text.buf, text.stack
      ensures Valid() && modified && text.past == RedoUpTo(old(text.past), count)
      ensures text.gapStart == CursorAgainUpTo(old(text.past), count, old(text.gapStart))
    {
      hide Good, Replay, RingHolds, Record, Current, RecordBoundary, RedoPossible;
      ghost var p := text.past;
      var i := 0;
      while i < count
        invariant 0 <= i <= count && text.Valid()
        invariant RedoUpTo(p, count) == RedoUpTo(text.past, count - i)
        invariant CursorAgainUpTo(p, count, old(text.gapStart)) == CursorAgainUpTo(text.past, count - i, text.gapStart)
      {
        var ok := text.Redo();
        if !ok { break; }
        i := i + 1;
      }
      modified := true;
    }
  }

  lemma SameLineEnd(t: Text, p: nat)
    requires p <= |t|
    ensures EndFrom(t, LineBegin(t, p)) == EndFrom(t, p)
  {
    EndIs(t, LineBegin(t, p), EndFrom(t, p));
  }

  lemma SmallerIs(a: nat, b: nat)
    ensures Smaller(a, b) == if a <= b then a else b
  {
  }

  /** After `i` forward deletions at `s`. */
  ghost predicate Shrunk(p: Past, t: Text, s: nat, i: nat, q: Past, u: Text) {
    p.now <= |p.log| && s <= |t| &&
    var n := Smaller(i, |t| - s);
    u == t[..s] + t[s + n..] && q == RecordAll(p, Deletions(t, s, n))
  }

  lemma ShrunkStart(p: Past, t: Text, s: nat)
    requires p.now <= |p.log| && s <= |t|
    ensures Shrunk(p, t, s, 0, p, t)
  {
    assert Deletions(t, s, 0) == [];
    assert t[..s] + t[s + 0..] == t;
  }

  lemma ShrunkNext(p: Past, t: Text, s: nat, i: nat, q: Past, u: Text)
    requires Shrunk(p, t, s, i, q, u)
    ensures s <= |u| && q.now <= |q.log|
    ensures s == |u| ==> Shrunk(p, t, s, i + 1, q, u)
    ensures s < |u| ==> Shrunk(p, t, s, i + 1, Record(q, Delete(s, u[s])), RemoveAt(u, s))
  {
    if i < |t| - s {
      var es := Deletions(t, s, i + 1);
      assert es[..i] == Deletions(t, s, i);
    }
  }

  lemma ShrunkEnd(p: Past, t: Text, start: nat, end: nat, q: Past, u: Text)
    requires start <= end && Shrunk(p, t, Smaller(start, |t|), end - start, q, u)
    ensures var s := Smaller(start, |t|);
            u == Without(t, start, end) && q == RecordAll(p, Deletions(t, s, Smaller(end, |t|) - s))
  {
  }
}
