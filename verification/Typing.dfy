/** Editing as the user does it, at a cursor: what one undo and one redo make of it. */
module Typing {
  import opened Lines
  import opened History

  /** A text with the cursor in it. */
  datatype Place = Place(text: Text, cursor: nat)

  datatype Edit = Key(c: char) | Backspace | DeleteHere

  predicate Inside(p: Place) { p.cursor <= |p.text| <= ROOM }

  /** The edit does something: there is room for a character, or one to remove. */
  predicate Works(p: Place, e: Edit) {
    match e
    case Key(_) => |p.text| < ROOM
    case Backspace => p.cursor > 0
    case DeleteHere => p.cursor < |p.text|
  }

  function Edited(p: Place, e: Edit): (r: Place)
    requires Inside(p) && Works(p, e)
    ensures Inside(r)
  {
    var before, after := p.text[..p.cursor], p.text[p.cursor..];
    match e
    case Key(c) => Place(before + [c] + after, p.cursor + 1)
    case Backspace => Place(before[..p.cursor - 1] + after, p.cursor - 1)
    case DeleteHere => Place(before + after[1..], p.cursor)
  }

  /** The entry an edit leaves in the history. */
  function EntryOf(p: Place, e: Edit): Entry
    requires Inside(p) && Works(p, e)
  {
    match e
    case Key(c) => Insert(p.cursor, c)
    case Backspace => Delete(p.cursor - 1, p.text[p.cursor - 1])
    case DeleteHere => Delete(p.cursor, p.text[p.cursor])
  }

  lemma EntryApplies(p: Place, e: Edit)
    requires Inside(p) && Works(p, e)
    ensures Can(p.text, EntryOf(p, e)) && Apply(p.text, EntryOf(p, e)) == Edited(p, e).text
    ensures RedoneAt(EntryOf(p, e)) == Edited(p, e).cursor
    ensures UndoneAt(EntryOf(p, e)) == p.cursor + if e.DeleteHere? then 1 else 0
    ensures EntryOf(p, e) != Boundary
  {
  }

  predicate AllWork(p: Place, es: seq<Edit>)
    requires Inside(p)
    decreases |es|, 0
  {
    es == [] || (AllWork(p, es[..|es| - 1]) && Works(AllEdited(p, es[..|es| - 1]), es[|es| - 1]))
  }

  function AllEdited(p: Place, es: seq<Edit>): (r: Place)
    requires Inside(p) && AllWork(p, es)
    ensures Inside(r)
    decreases |es|, 1
  {
    if es == [] then p else Edited(AllEdited(p, es[..|es| - 1]), es[|es| - 1])
  }

  function Entries(p: Place, es: seq<Edit>): (r: seq<Entry>)
    requires Inside(p) && AllWork(p, es)
    ensures |r| == |es|
    decreases |es|
  {
    if es == [] then []
    else Entries(p, es[..|es| - 1]) + [EntryOf(AllEdited(p, es[..|es| - 1]), es[|es| - 1])]
  }

  lemma {:induction false} EntriesReplay(p: Place, es: seq<Edit>)
    requires Inside(p) && AllWork(p, es)
    ensures CanAll(p.text, Entries(p, es)) && Replay(p.text, Entries(p, es)) == AllEdited(p, es).text
    ensures Edits(Entries(p, es))
    ensures es != [] ==> Works(p, es[0]) && Entries(p, es)[0] == EntryOf(p, es[0])
    ensures es != [] ==> RedoneAt(Entries(p, es)[|es| - 1]) == AllEdited(p, es).cursor
    decreases |es|
  {
    hide Can, Apply, Edited, EntryOf, Works, RedoneAt, UndoneAt;
    if es != [] {
      var front := es[..|es| - 1];
      EntriesReplay(p, front);
      EntryApplies(AllEdited(p, front), es[|es| - 1]);
      assert Entries(p, es)[..|es| - 1] == Entries(p, front);
      FirstWorks(p, es);
      if |es| == 1 { assert AllEdited(p, front) == p; }
    }
  }

  lemma {:induction false} FirstWorks(p: Place, es: seq<Edit>)
    requires Inside(p) && AllWork(p, es) && es != []
    ensures Works(p, es[0])
    decreases |es|
  {
    if |es| > 1 {
      FirstWorks(p, es[..|es| - 1]);
    } else {
      assert AllEdited(p, es[..0]) == p;
    }
  }

  lemma RecordLast(p: Past, e: Entry)
    requires p.now <= |p.log|
    ensures var r := Record(p, e);
            r.now > 0 && r.log[r.now - 1] == e && (p.now > 0 ==> r.now > 1 && r.log[r.now - 2] == p.log[p.now - 1])
  {
  }

  /** The log of a closed group ends with its last edit and a boundary. */
  lemma ClosedEnd(p: Past, es: seq<Entry>)
    requires p.now <= |p.log| && es != [] && Edits(es)
    ensures var q := Group(p, es, true);
            q.now > 1 && q.log[q.now - 1] == Boundary && q.log[q.now - 2] == es[|es| - 1]
  {
    hide Record;
    var b := RecordBoundary(p);
    var n := |es| - 1;
    RecordLast(RecordAll(b, es[..n]), es[n]);
    RecordLast(RecordAll(b, es), Boundary);
  }

  /** Whatever was typed and removed at the cursor since the last boundary, if it was fewer
      than 2048 edits: one undo brings back the text, and the cursor to where it was, one
      further if the first edit removed the character under it; a redo brings back the text
      and the cursor as the editing left them. */
  lemma {:induction false} TypedUndone(p: Past, at: Place, es: seq<Edit>, c: nat)
    requires Good(p) && Inside(at) && Current(p) == at.text && AllWork(at, es) && 0 < |es| < CAP
    ensures var q, done := Group(p, Entries(at, es), true), AllEdited(at, es);
            var u := Undo(q);
            && Current(q) == done.text
            && UndoPossible(q) && Current(u) == at.text
            && UndoCursor(q, c) == at.cursor + (if es[0].DeleteHere? then 1 else 0)
            && RedoPossible(u) && Current(Redo(u)) == done.text && RedoCursor(u, c) == done.cursor
  {
    hide Replay, CanAll, Good, Current, RecordAll, RecordBoundary, Spaced, Edits, Entries, AllWork, AllEdited;
    GoodInside(p);
    var entries := Entries(at, es);
    var q := Group(p, entries, true);
    EntriesReplay(at, es);
    GroupUndone(p, entries, true, c);
    assert entries[..0] == [];
    ReplayNone(at.text);
    FirstWorks(at, es);
    EntryApplies(at, es[0]);
    GroupGood(p, entries);
    UndoThenRedo(q);
    GoodInside(q);
    GoodInside(Undo(q)) by { MoveGood(q); }
    ClosedEnd(p, entries);
    RedoneLast(q);
  }

  lemma GroupGood(p: Past, es: seq<Entry>)
    requires Good(p) && CanAll(Current(p), es) && Edits(es)
    ensures Good(Group(p, es, true)) && Current(Group(p, es, true)) == Replay(Current(p), es)
  {
    hide Replay, CanAll, Good, Current, RecordAll, RecordBoundary, Edits;
    GoodInside(p);
    BoundaryGood(p);
    RecordAllGood(RecordBoundary(p), es);
    BoundaryGood(RecordAll(RecordBoundary(p), es));
  }

  /** Redo after undo ends at the last edit before the boundary. */
  lemma RedoneLast(q: Past)
    requires Good(q) && UndoPossible(q) && q.now > 1 && q.log[q.now - 1] == Boundary
    ensures var u := Undo(q);
            RedoPossible(u) && u.now < Redo(u).now == q.now - 1
  {
    hide Replay, CanAll;
    LastIsEdit(q.log, q.now);
    var u := Undo(q);
    assert SkipBack(q.log, q.now) == q.now - 1;
    assert q.log[u.now] != Boundary;
    GroupEndIs(q.log, u.now, q.now - 1);
  }
}
