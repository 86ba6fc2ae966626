/** Undo and redo with a count, text and cursor. */
module Counted {
  import opened History
  import opened Editor

  /** `n` undos in a row succeed. */
  predicate Undoable(p: Past, n: nat)
    requires p.now <= |p.log|
    decreases n
  {
    n == 0 || (UndoPossible(p) && Undoable(History.Undo(p), n - 1))
  }

  /** `n` redos in a row succeed. */
  predicate Redoable(p: Past, n: nat)
    requires p.now <= |p.log|
    decreases n
  {
    n == 0 || (RedoPossible(p) && Redoable(History.Redo(p), n - 1))
  }

  lemma RedoUndone(p: Past)
    requires Good(p) && UndoPossible(p)
    ensures Good(History.Undo(p)) && RedoPossible(History.Undo(p))
    ensures History.Redo(History.Undo(p)) == p.(now := SkipBack(p.log, p.now))
  {
    hide Replay, CanAll;
    LastIsEdit(p.log, p.now);
    GroupEndIs(p.log, History.Undo(p).now, SkipBack(p.log, p.now));
    MoveGood(p);
  }

  /** Standing before or behind a boundary makes no difference to redo. */
  lemma RedoFromEither(p: Past)
    requires Good(p) && RedoPossible(p)
    ensures var q := p.(now := SkipBack(p.log, p.now));
            RedoPossible(q) && History.Redo(q) == History.Redo(p)
  {
    hide Replay, CanAll;
  }

  /** The last of several redos. */
  lemma {:induction false} RedoMore(p: Past, n: nat)
    requires p.now <= |p.log| && Redoable(p, n) && RedoPossible(RedoUpTo(p, n))
    ensures Redoable(p, n + 1) && RedoUpTo(p, n + 1) == History.Redo(RedoUpTo(p, n))
    decreases n
  {
    hide RedoPossible, History.Redo;
    if n > 0 {
      RedoMore(History.Redo(p), n - 1);
    } else {
      assert RedoUpTo(History.Redo(p), 0) == History.Redo(p);
    }
  }

  /** After `u` with a count, when that many groups could be taken back, the same count of
      redos makes them all again: the text is what it was. */
  lemma {:induction false} UndoneRedone(p: Past, n: nat)
    requires Good(p) && 0 < n && Undoable(p, n)
    ensures var u := UndoUpTo(p, n);
            && u.now <= |u.log| && Redoable(u, n)
            && RedoUpTo(u, n) == p.(now := SkipBack(p.log, p.now))
            && Current(RedoUpTo(u, n)) == Current(p)
    decreases n
  {
    hide Good, Current, UndoPossible, RedoPossible, History.Undo, History.Redo, SkipBack;
    GoodInside(p);
    RedoUndone(p);
    BackOverBoundary(p);
    SameText(p);
    var q := History.Undo(p);
    GoodInside(q);
    if n > 1 {
      UndoneRedone(q, n - 1);
      RedoFromEither(q);
      RedoMore(UndoUpTo(q, n - 1), n - 1);
    } else {
      assert UndoUpTo(q, 0) == q;
      assert RedoUpTo(History.Redo(q), 0) == History.Redo(q);
    }
  }

  lemma SameText(p: Past)
    requires Good(p)
    ensures SkipBack(p.log, p.now) <= |p.log| && Current(p.(now := SkipBack(p.log, p.now))) == Current(p)
  {
    hide Replay, CanAll;
    BackOverBoundary(p);
  }

  /** The cursor comes to the oldest edit taken back, wherever it was. */
  lemma {:induction false} CountedUndoCursor(p: Past, n: nat, c: nat)
    requires Good(p) && 0 < n && Undoable(p, n)
    ensures var u := UndoUpTo(p, n);
            u.now < |p.log| && CursorUpTo(p, n, c) == UndoneAt(p.log[u.now])
    decreases n
  {
    hide Replay, CanAll;
    GoodInside(p);
    CursorMoves(p);
    MoveGood(p);
    var q := History.Undo(p);
    if n > 1 {
      CountedUndoCursor(q, n - 1, UndoCursor(p, c));
    } else {
      assert UndoUpTo(q, 0) == q;
      assert CursorUpTo(q, 0, UndoCursor(p, c)) == UndoCursor(p, c);
    }
  }

  /** And to the end of the newest edit made again. */
  lemma {:induction false} CountedRedoCursor(p: Past, n: nat, c: nat)
    requires Good(p) && 0 < n && Redoable(p, n)
    ensures var r := RedoUpTo(p, n);
            0 < r.now <= |p.log| && CursorAgainUpTo(p, n, c) == RedoneAt(p.log[r.now - 1])
    decreases n
  {
    hide Replay, CanAll;
    GoodInside(p);
    CursorMoves(p);
    MoveGood(p);
    var q := History.Redo(p);
    if n > 1 {
      CountedRedoCursor(q, n - 1, RedoCursor(p, c));
    } else {
      assert RedoUpTo(q, 0) == q;
      assert CursorAgainUpTo(q, 0, RedoCursor(p, c)) == RedoCursor(p, c);
    }
  }
}
