/** Edit history as a bounded log with a present in it: what undo and redo mean
    without the ring that stores it. */
module History {
  import opened Lines

  /** The buffer holds this many characters, the log this many entries. */
  const ROOM: nat := 32768
  const CAP: nat := 2048

  datatype Entry =
    | Insert(pos: nat, ch: char)
    | Delete(pos: nat, ch: char)
    | Boundary

  function InsertAt(t: Text, pos: nat, ch: char): Text {
    if pos <= |t| then t[..pos] + [ch] + t[pos..] else t
  }

  function RemoveAt(t: Text, pos: nat): Text {
    if pos < |t| then t[..pos] + t[pos + 1..] else t
  }

  function Apply(t: Text, e: Entry): Text {
    match e
    case Insert(pos, ch) => InsertAt(t, pos, ch)
    case Delete(pos, ch) => RemoveAt(t, pos)
    case Boundary => t
  }

  function Revert(t: Text, e: Entry): Text {
    match e
    case Insert(pos, ch) => RemoveAt(t, pos)
    case Delete(pos, ch) => InsertAt(t, pos, ch)
    case Boundary => t
  }

  /** The entry describes an edit that can be made to `t`. */
  predicate Can(t: Text, e: Entry) {
    match e
    case Insert(pos, ch) => pos <= |t| < ROOM
    case Delete(pos, ch) => pos < |t| && t[pos] == ch
    case Boundary => true
  }

  function Replay(t: Text, es: seq<Entry>): Text
    decreases |es|
  {
    if es == [] then t else Apply(Replay(t, es[..|es| - 1]), es[|es| - 1])
  }

  predicate CanAll(t: Text, es: seq<Entry>)
    decreases |es|
  {
    es == [] || (CanAll(t, es[..|es| - 1]) && Can(Replay(t, es[..|es| - 1]), es[|es| - 1]))
  }

  lemma RevertApply(t: Text, e: Entry)
    requires Can(t, e)
    ensures Revert(Apply(t, e), e) == t
    ensures |t| <= ROOM ==> |Apply(t, e)| <= ROOM
  {
    match e
    case Insert(pos, ch) =>
      assert InsertAt(t, pos, ch)[..pos] == t[..pos];
      assert InsertAt(t, pos, ch)[pos + 1..] == t[pos..];
      assert t == t[..pos] + t[pos..];
    case Delete(pos, ch) =>
      assert RemoveAt(t, pos)[..pos] == t[..pos];
      assert RemoveAt(t, pos)[pos..] == t[pos + 1..];
      assert t == t[..pos] + [t[pos]] + t[pos + 1..];
    case Boundary =>
  }

  lemma {:induction false} ReplayAppend(t: Text, a: seq<Entry>, b: seq<Entry>)
    ensures Replay(t, a + b) == Replay(Replay(t, a), b)
    ensures CanAll(t, a + b) <==> CanAll(t, a) && CanAll(Replay(t, a), b)
    decreases |b|
  {
    if b == [] {
      assert a + b == a;
    } else {
      var b' := b[..|b| - 1];
      assert (a + b)[..|a + b| - 1] == a + b';
      ReplayAppend(t, a, b');
    }
  }

  lemma {:induction false} ReplayLength(t: Text, es: seq<Entry>)
    requires |t| <= ROOM && CanAll(t, es)
    ensures |Replay(t, es)| <= ROOM
    decreases |es|
  {
    if es != [] {
      ReplayLength(t, es[..|es| - 1]);
      RevertApply(Replay(t, es[..|es| - 1]), es[|es| - 1]);
    }
  }

  /** A starting text, the entries kept, and how many of them are in effect;
      the others can be redone. */
  datatype Past = Past(base: Text, log: seq<Entry>, now: nat)

  function TextAt(p: Past, n: nat): Text
    requires n <= |p.log|
  {
    Replay(p.base, p.log[..n])
  }

  function Current(p: Past): Text
    requires p.now <= |p.log|
  {
    TextAt(p, p.now)
  }

  /** A new entry cuts off what could be redone; when the log is full the
      oldest entry moves into the base. */
  function Record(p: Past, e: Entry): (r: Past)
    requires p.now <= |p.log|
    ensures r.now == |r.log|
  {
    var log := p.log[..p.now] + [e];
    if |log| <= CAP then Past(p.base, log, |log|)
    else Past(Apply(p.base, log[0]), log[1..], |log| - 1)
  }

  function RecordBoundary(p: Past): (r: Past)
    requires p.now <= |p.log|
    ensures r.now <= |r.log|
  {
    if p.now == 0 || p.log[p.now - 1] == Boundary then p else Record(p, Boundary)
  }

  function RecordAll(p: Past, es: seq<Entry>): (r: Past)
    requires p.now <= |p.log|
    ensures r.now <= |r.log|
    decreases |es|
  {
    if es == [] then p else Record(RecordAll(p, es[..|es| - 1]), es[|es| - 1])
  }

  /** The start of the group of edits that ends at `n`. */
  function GroupStart(log: seq<Entry>, n: nat): (k: nat)
    requires n <= |log|
    ensures k <= n && (k == 0 || log[k - 1] == Boundary)
    ensures forall i :: k <= i < n ==> log[i] != Boundary
  {
    if n == 0 || log[n - 1] == Boundary then n else GroupStart(log, n - 1)
  }

  function GroupEnd(log: seq<Entry>, n: nat): (k: nat)
    requires n <= |log|
    ensures n <= k <= |log| && (k == |log| || log[k] == Boundary)
    ensures forall i :: n <= i < k ==> log[i] != Boundary
    decreases |log| - n
  {
    if n == |log| || log[n] == Boundary then n else GroupEnd(log, n + 1)
  }

  function SkipBack(log: seq<Entry>, n: nat): (m: nat)
    requires n <= |log|
    ensures m <= n
  {
    if n > 0 && log[n - 1] == Boundary then n - 1 else n
  }

  function SkipForward(log: seq<Entry>, n: nat): (m: nat)
    requires n <= |log|
    ensures n <= m <= |log|
  {
    if n < |log| && log[n] == Boundary then n + 1 else n
  }

  function UndoPossible(p: Past): bool
    requires p.now <= |p.log|
  {
    SkipBack(p.log, p.now) > 0
  }

  function RedoPossible(p: Past): bool
    requires p.now <= |p.log|
  {
    SkipForward(p.log, p.now) < |p.log|
  }

  /** Undo goes back over one boundary and the group before it; without a group
      it stays behind the boundary. */
  function Undo(p: Past): (r: Past)
    requires p.now <= |p.log|
    ensures r.now <= p.now <= |r.log| && r.log == p.log && r.base == p.base
  {
    p.(now := GroupStart(p.log, SkipBack(p.log, p.now)))
  }

  function Redo(p: Past): (r: Past)
    requires p.now <= |p.log|
    ensures p.now <= r.now <= |r.log| && r.log == p.log && r.base == p.base
  {
    p.(now := GroupEnd(p.log, SkipForward(p.log, p.now)))
  }

  /** What every reachable history keeps: the log fits and can be replayed, no
      two boundaries are adjacent, and the present is never inside a group. */
  ghost predicate Good(p: Past) {
    && p.now <= |p.log| <= CAP && |p.base| <= ROOM && CanAll(p.base, p.log)
    && Spaced(p.log)
    && (0 < p.now < |p.log| ==> p.log[p.now - 1] == Boundary || p.log[p.now] == Boundary)
  }

  // ---- every operation keeps a history good ----

  lemma LogExtended(p: Past, e: Entry)
    requires Good(p) && Can(Current(p), e)
    ensures var log := p.log[..p.now] + [e];
            CanAll(p.base, log) && Replay(p.base, log) == Apply(Current(p), e)
  {
    var kept := p.log[..p.now];
    assert p.log == kept + p.log[p.now..];
    ReplayAppend(p.base, kept, p.log[p.now..]);
    assert (kept + [e])[..p.now] == kept;
  }

  /** The oldest entry can move from the log into the base. */
  lemma DropOldest(t: Text, log: seq<Entry>)
    requires log != [] && |t| <= ROOM && CanAll(t, log)
    ensures var t' := Apply(t, log[0]);
            CanAll(t', log[1..]) && Replay(t', log[1..]) == Replay(t, log) && |t'| <= ROOM
    ensures Replay(t, log[..1]) == Apply(t, log[0])
  {
    assert log == log[..1] + log[1..];
    ReplayAppend(t, log[..1], log[1..]);
    assert log[..1][..0] == [];
    RevertApply(t, log[0]);
  }

  ghost predicate Spaced(log: seq<Entry>) {
    forall i :: 0 <= i < |log| - 1 ==> log[i] != Boundary || log[i + 1] != Boundary
  }

  lemma SpacedRecord(log: seq<Entry>, n: nat, e: Entry)
    requires Spaced(log) && n <= |log| && (e == Boundary ==> n > 0 && log[n - 1] != Boundary)
    ensures Spaced(log[..n] + [e]) && Spaced((log[..n] + [e])[1..])
  {
    var l := log[..n] + [e];
    assert forall i :: 0 <= i < n ==> l[i] == log[i];
    assert forall i :: 0 <= i < |l| - 1 ==> l[1..][i] == l[i + 1];
  }

  lemma RecordGood(p: Past, e: Entry)
    requires Good(p) && Can(Current(p), e)
    requires e == Boundary ==> p.now > 0 && p.log[p.now - 1] != Boundary
    ensures Good(Record(p, e))
    ensures Current(Record(p, e)) == Apply(Current(p), e)
  {
    hide Replay, CanAll, Apply, Can, Spaced;
    var log := p.log[..p.now] + [e];
    LogExtended(p, e);
    SpacedRecord(p.log, p.now, e);
    DropOldest(p.base, log);
    var r := Record(p, e);
    assert r.log[..r.now] == r.log;
  }

  lemma BoundaryGood(p: Past)
    requires Good(p)
    ensures Good(RecordBoundary(p)) && Current(RecordBoundary(p)) == Current(p)
  {
    if p.now > 0 && p.log[p.now - 1] != Boundary { RecordGood(p, Boundary); }
  }

  /** Undo and redo keep a history good, for the entries do not change. */
  lemma MoveGood(p: Past)
    requires Good(p)
    ensures Good(Undo(p)) && Good(Redo(p))
  {
  }

  lemma {:induction false} BackOverBoundary(p: Past)
    requires Good(p)
    ensures TextAt(p, SkipBack(p.log, p.now)) == Current(p)
    ensures TextAt(p, SkipForward(p.log, p.now)) == Current(p)
  {
    if p.now > 0 {
      assert p.log[..p.now][..p.now - 1] == p.log[..p.now - 1];
    }
    if p.now < |p.log| {
      assert p.log[..p.now + 1][..p.now] == p.log[..p.now];
    }
  }

  /** An undo that succeeds, followed at once by redo, restores the text, and
      the other way round; one that fails changes no text. */
  lemma UndoThenRedo(p: Past)
    requires Good(p)
    ensures UndoPossible(p) ==> RedoPossible(Undo(p)) && Current(Redo(Undo(p))) == Current(p)
    ensures !UndoPossible(p) ==> Current(Undo(p)) == Current(p)
    ensures RedoPossible(p) ==> UndoPossible(Redo(p)) && Current(Undo(Redo(p))) == Current(p)
    ensures !RedoPossible(p) ==> Current(Redo(p)) == Current(p)
  {
    hide Good;
    UndoComesBack(p);
    RedoComesBack(p);
  }

  lemma UndoComesBack(p: Past)
    requires Good(p)
    ensures UndoPossible(p) ==> RedoPossible(Undo(p)) && Current(Redo(Undo(p))) == Current(p)
    ensures !UndoPossible(p) ==> Current(Undo(p)) == Current(p)
  {
    hide Replay, CanAll, Apply, Can, Spaced, GroupEnd, GroupStart;
    BackOverBoundary(p);
    if UndoPossible(p) {
      LastIsEdit(p.log, p.now);
      GroupEndIs(p.log, Undo(p).now, SkipBack(p.log, p.now));
    }
  }

  lemma RedoComesBack(p: Past)
    requires Good(p)
    ensures RedoPossible(p) ==> UndoPossible(Redo(p)) && Current(Undo(Redo(p))) == Current(p)
    ensures !RedoPossible(p) ==> Current(Redo(p)) == Current(p)
  {
    hide Replay, CanAll, Apply, Can, Spaced, GroupEnd, GroupStart;
    BackOverBoundary(p);
    if RedoPossible(p) {
      LastIsEdit(p.log, p.now);
      GroupStartIs(p.log, SkipForward(p.log, p.now), Redo(p).now);
    }
  }

  /** Behind a skipped boundary there is an edit on either side. */
  lemma LastIsEdit(log: seq<Entry>, n: nat)
    requires Spaced(log) && n <= |log|
    ensures var m := SkipBack(log, n);
            m > 0 ==> log[m - 1] != Boundary && GroupStart(log, m) < m
    ensures var m := SkipForward(log, n);
            m < |log| ==> log[m] != Boundary && GroupEnd(log, m) > m
  {
  }

  lemma {:induction false} GroupEndIs(log: seq<Entry>, n: nat, k: nat)
    requires n <= k <= |log| && (k == |log| || log[k] == Boundary)
    requires forall i :: n <= i < k ==> log[i] != Boundary
    ensures GroupEnd(log, n) == k
    decreases k - n
  {
    if n < k { GroupEndIs(log, n + 1, k); }
  }

  lemma {:induction false} GroupStartIs(log: seq<Entry>, k: nat, n: nat)
    requires k <= n <= |log| && (k == 0 || log[k - 1] == Boundary)
    requires forall i :: k <= i < n ==> log[i] != Boundary
    ensures GroupStart(log, n) == k
    decreases n - k
  {
    if k < n { GroupStartIs(log, k, n - 1); }
  }

  /** One entry back: the edit it describes led from the earlier text to the
      later one, and reverting it leads back. */
  lemma StepBack(p: Past, n: nat)
    requires 0 < n <= |p.log| && |p.base| <= ROOM && CanAll(p.base, p.log)
    ensures var e, t, t' := p.log[n - 1], TextAt(p, n - 1), TextAt(p, n);
            Can(t, e) && t' == Apply(t, e) && Revert(t', e) == t && |t| <= ROOM && |t'| <= ROOM
  {
    assert p.log == p.log[..n] + p.log[n..];
    ReplayAppend(p.base, p.log[..n], p.log[n..]);
    assert p.log[..n][..n - 1] == p.log[..n - 1];
    ReplayLength(p.base, p.log[..n - 1]);
    RevertApply(TextAt(p, n - 1), p.log[n - 1]);
  }

  // ---- where the cursor goes ----

  /** The cursor after an edit is taken back, and after it is made again. */
  function UndoneAt(e: Entry): nat {
    match e
    case Insert(pos, _) => pos
    case Delete(pos, _) => pos + 1
    case Boundary => 0
  }

  function RedoneAt(e: Entry): nat {
    match e
    case Insert(pos, _) => pos + 1
    case Delete(pos, _) => pos
    case Boundary => 0
  }

  /** Undo leaves the cursor at the last edit it takes back. */
  function UndoCursor(p: Past, cursor: nat): nat
    requires p.now <= |p.log|
  {
    if UndoPossible(p) && Undo(p).now < p.now then UndoneAt(p.log[Undo(p).now]) else cursor
  }

  function RedoCursor(p: Past, cursor: nat): nat
    requires p.now <= |p.log|
  {
    if RedoPossible(p) && p.now < Redo(p).now then RedoneAt(p.log[Redo(p).now - 1]) else cursor
  }

  /** The cursor moves exactly when there is an edit behind a skipped boundary. */
  lemma CursorMoves(p: Past)
    requires Good(p)
    ensures UndoPossible(p) <==> Undo(p).now < SkipBack(p.log, p.now)
    ensures RedoPossible(p) <==> SkipForward(p.log, p.now) < Redo(p).now
  {
    hide CanAll, Replay;
    LastIsEdit(p.log, p.now);
  }

  // ---- groups of edits, recorded ----

  predicate Edits(es: seq<Entry>) {
    forall i :: 0 <= i < |es| ==> es[i] != Boundary
  }

  function Excess(n: nat): nat {
    if n > CAP then n - CAP else 0
  }

  /** The oldest entries, for which the log has no room. */
  function Lost(all: seq<Entry>): seq<Entry> {
    all[..Excess(|all|)]
  }

  /** Up to its present, `p` keeps the newest entries of `all`, and has the older
      ones in its base. */
  ghost predicate EndOf(p: Past, t: Text, all: seq<Entry>) {
    && p.now <= |p.log| && p.log[..p.now] == all[Excess(|all|)..]
    && p.base == Replay(t, Lost(all))
  }

  lemma EndOfSelf(p: Past)
    requires p.now <= |p.log| <= CAP
    ensures EndOf(p, p.base, p.log[..p.now])
  {
    ReplayNone(p.base);
  }

  lemma ReplayNone(t: Text)
    ensures Replay(t, []) == t
  {
  }

  /** Recording one entry keeps a log that is the end of everything recorded. */
  lemma Appended(t: Text, all: seq<Entry>, r: Past, e: Entry)
    requires EndOf(r, t, all)
    ensures EndOf(Record(r, e), t, all + [e])
  {
    hide Apply;
    var x, all' := Excess(|all|), all + [e];
    assert r.log[..r.now] + [e] == all'[x..];
    if |all'| > CAP {
      assert all'[x..][1..] == all'[x + 1..];
      assert all'[..x + 1][..x] == all[..x];
    } else {
      assert all'[..0] == all[..0];
    }
  }

  lemma {:induction false} AppendedAll(t: Text, all: seq<Entry>, r: Past, es: seq<Entry>)
    requires EndOf(r, t, all)
    ensures EndOf(RecordAll(r, es), t, all + es)
    decreases |es|
  {
    hide Replay, Record, EndOf;
    if es == [] {
      assert all + es == all;
    } else {
      var es', e := es[..|es| - 1], es[|es| - 1];
      AppendedAll(t, all, r, es');
      EndInside(r, t, all);
      Appended(t, all + es', RecordAll(r, es'), e);
      assert all + es' + [e] == all + es;
    }
  }

  lemma EndInside(p: Past, t: Text, all: seq<Entry>)
    requires EndOf(p, t, all)
    ensures p.now <= |p.log|
  {
  }

  lemma GoodInside(p: Past)
    requires Good(p)
    ensures p.now <= |p.log| <= CAP
  {
  }

  lemma {:induction false} RecordAllGood(p: Past, es: seq<Entry>)
    requires Good(p) && CanAll(Current(p), es) && Edits(es)
    ensures Good(RecordAll(p, es)) && Current(RecordAll(p, es)) == Replay(Current(p), es)
    decreases |es|
  {
    hide Good, Apply, Can, Record, Current;
    if es != [] {
      GoodInside(p);
      RecordAllGood(p, es[..|es| - 1]);
      RecordGood(RecordAll(p, es[..|es| - 1]), es[|es| - 1]);
    }
  }

  /** The boundary put before a new group. */
  function Lead(w: seq<Entry>): seq<Entry> {
    if w == [] || w[|w| - 1] == Boundary then [] else [Boundary]
  }

  lemma BoundaryAppended(t: Text, all: seq<Entry>, r: Past)
    requires EndOf(r, t, all)
    ensures EndOf(RecordBoundary(r), t, all + Lead(all))
  {
    hide Replay, Record;
    assert r.now == |r.log[..r.now]|;
    if r.now > 0 {
      assert r.log[r.now - 1] == r.log[..r.now][r.now - 1] == all[|all| - 1];
      Appended(t, all, r, Boundary);
    }
    assert all + [] == all;
  }

  function Closing(closed: bool): seq<Entry> {
    if closed then [Boundary] else []
  }

  /** A group of edits behind a boundary, and perhaps another boundary. */
  function Group(p: Past, es: seq<Entry>, closed: bool): (r: Past)
    requires p.now <= |p.log|
    ensures r.now <= |r.log|
  {
    var q := RecordAll(RecordBoundary(p), es);
    if closed then RecordBoundary(q) else q
  }

  function Groups(p: Past, gs: seq<seq<Entry>>): (r: Past)
    requires p.now <= |p.log|
    ensures r.now <= |r.log|
    decreases |gs|
  {
    if gs == [] then p else Group(Groups(p, gs[..|gs| - 1]), gs[|gs| - 1], false)
  }

  /** Each group is not empty and can be made where it comes. */
  ghost predicate Doable(p: Past, gs: seq<seq<Entry>>)
    requires p.now <= |p.log|
    decreases |gs|
  {
    gs != [] ==>
      && Doable(p, gs[..|gs| - 1]) && gs[|gs| - 1] != [] && Edits(gs[|gs| - 1])
      && CanAll(Current(Groups(p, gs[..|gs| - 1])), gs[|gs| - 1])
  }

  lemma {:induction false} GroupsGood(p: Past, gs: seq<seq<Entry>>)
    requires Good(p) && Doable(p, gs)
    ensures Good(Groups(p, gs))
    decreases |gs|
  {
    hide Good, Current, RecordBoundary, CanAll, RecordAll;
    GoodInside(p);
    if gs != [] {
      var q := Groups(p, gs[..|gs| - 1]);
      GroupsGood(p, gs[..|gs| - 1]);
      BoundaryGood(q);
      RecordAllGood(RecordBoundary(q), gs[|gs| - 1]);
    }
  }

  /** All entries of the groups, with the boundaries that come to stand between. */
  function Whole(all: seq<Entry>, gs: seq<seq<Entry>>): seq<Entry>
    decreases |gs|
  {
    if gs == [] then all
    else
      var w := Whole(all, gs[..|gs| - 1]);
      w + Lead(w) + gs[|gs| - 1]
  }

  function Later(gs: seq<seq<Entry>>): seq<Entry>
    decreases |gs|
  {
    if gs == [] then [] else if |gs| == 1 then gs[0] else Later(gs[..|gs| - 1]) + [Boundary] + gs[|gs| - 1]
  }

  predicate AllEdits(gs: seq<seq<Entry>>) {
    forall i :: 0 <= i < |gs| ==> gs[i] != [] && Edits(gs[i])
  }

  lemma {:induction false} DoableEdits(p: Past, gs: seq<seq<Entry>>)
    requires p.now <= |p.log| && Doable(p, gs)
    ensures AllEdits(gs)
    decreases |gs|
  {
    hide Groups, CanAll, Current, Edits;
    if gs != [] {
      DoableEdits(p, gs[..|gs| - 1]);
      forall i | 0 <= i < |gs| ensures gs[i] != [] && Edits(gs[i]) {
        if i < |gs| - 1 { assert gs[i] == gs[..|gs| - 1][i]; }
      }
    }
  }

  lemma {:induction false} GroupsEnd(p: Past, gs: seq<seq<Entry>>)
    requires p.now <= |p.log| <= CAP
    ensures EndOf(Groups(p, gs), p.base, Whole(p.log[..p.now], gs))
    decreases |gs|
  {
    hide EndOf, RecordBoundary, RecordAll, Lead;
    if gs == [] {
      EndOfSelf(p);
    } else {
      var q, w := Groups(p, gs[..|gs| - 1]), Whole(p.log[..p.now], gs[..|gs| - 1]);
      GroupsEnd(p, gs[..|gs| - 1]);
      BoundaryAppended(p.base, w, q);
      AppendedAll(p.base, w + Lead(w), RecordBoundary(q), gs[|gs| - 1]);
    }
  }

  lemma WholeEnd(all: seq<Entry>, gs: seq<seq<Entry>>)
    requires gs != [] && AllEdits(gs)
    ensures var w := Whole(all, gs); w != [] && w[|w| - 1] != Boundary && Lead(w) == [Boundary]
  {
    var w, g := Whole(all, gs), gs[|gs| - 1];
    assert w[|w| - 1] == g[|g| - 1];
  }

  lemma {:induction false} WholeSplit(all: seq<Entry>, gs: seq<seq<Entry>>, k: nat)
    requires k < |gs| && AllEdits(gs)
    ensures var w := Whole(all, gs[..k]); Whole(all, gs) == w + Lead(w) + Later(gs[k..])
    decreases |gs|
  {
    hide Lead, Edits;
    var n := |gs| - 1;
    if k < n {
      var gs', v := gs[..n], Whole(all, gs[..k]);
      WholeSplit(all, gs', k);
      WholeEnd(all, gs');
      assert gs'[..k] == gs[..k] && gs[k..][..n - k] == gs'[k..] && gs[k..][n - k] == gs[n];
      assert Whole(all, gs) == v + Lead(v) + Later(gs'[k..]) + [Boundary] + gs[n];
    } else {
      assert gs[k..] == [gs[n]];
    }
  }

  // ---- groups of edits, undone ----

  /** Where undo from `n` leads when nothing has been forgotten. */
  function Back(w: seq<Entry>, n: nat): (k: nat)
    requires n <= |w|
    ensures k <= n
  {
    GroupStart(w, SkipBack(w, n))
  }

  function BackTimes(w: seq<Entry>, n: nat, j: nat): (k: nat)
    requires n <= |w|
    ensures k <= n
    decreases j
  {
    if j == 0 then n else Back(w, BackTimes(w, n, j - 1))
  }

  function UndoTimes(p: Past, j: nat): (r: Past)
    requires p.now <= |p.log|
    ensures r.now <= |r.log|
    decreases j
  {
    if j == 0 then p else Undo(UndoTimes(p, j - 1))
  }

  function Above(n: nat, x: nat): nat {
    if n > x then n - x else 0
  }

  /** `q` stands at `n` in the entries `w`, of which the first `x` have moved
      into its base. */
  ghost predicate CutAt(q: Past, t: Text, w: seq<Entry>, n: nat, x: nat) {
    && n <= |w| && x <= |w| && q.now <= |q.log| && q.now == Above(n, x)
    && q.log[..q.now] == w[x..x + q.now] && q.base == Replay(t, w[..x])
  }

  lemma {:induction false} GroupStartCut(log: seq<Entry>, w: seq<Entry>, n: nat, x: nat)
    requires x <= n <= |w| && n - x <= |log| && log[..n - x] == w[x..n]
    ensures GroupStart(log, n - x) == Above(GroupStart(w, n), x)
  {
    if n > x {
      assert log[n - x - 1] == log[..n - x][n - x - 1] == w[n - 1];
      assert log[..n - x - 1] == log[..n - x][..n - x - 1] == w[x..n][..n - x - 1];
      GroupStartCut(log, w, n - 1, x);
    }
  }

  /** Forgetting old entries does not change where undo stops, except that it
      cannot go further back than to the oldest entry kept. */
  lemma UndoCut(q: Past, t: Text, w: seq<Entry>, n: nat, x: nat)
    requires CutAt(q, t, w, n, x)
    ensures CutAt(Undo(q), t, w, Back(w, n), x)
  {
    hide Replay, GroupStart;
    if n > x {
      var m, s := q.now, SkipBack(w, n);
      assert q.log[m - 1] == q.log[..m][m - 1] == w[n - 1];
      assert SkipBack(q.log, m) == s - x;
      assert q.log[..s - x] == q.log[..m][..s - x] == w[x..n][..s - x];
      GroupStartCut(q.log, w, s, x);
      var k := Undo(q).now;
      assert q.log[..k] == q.log[..m][..k] == w[x..n][..k];
    }
  }

  lemma {:induction false} UndoTimesCut(q: Past, t: Text, w: seq<Entry>, n: nat, x: nat, j: nat)
    requires CutAt(q, t, w, n, x)
    ensures CutAt(UndoTimes(q, j), t, w, BackTimes(w, n, j), x)
    decreases j
  {
    hide CutAt, Undo, Back;
    if j > 0 {
      UndoTimesCut(q, t, w, n, x, j - 1);
      CutInside(q, t, w, n, x);
      UndoCut(UndoTimes(q, j - 1), t, w, BackTimes(w, n, j - 1), x);
    }
  }

  lemma CutInside(q: Past, t: Text, w: seq<Entry>, n: nat, x: nat)
    requires CutAt(q, t, w, n, x)
    ensures n <= |w| && x <= |w| && q.now <= |q.log|
  {
  }

  lemma CutText(q: Past, t: Text, w: seq<Entry>, n: nat, x: nat)
    requires CutAt(q, t, w, n, x)
    ensures Current(q) == Replay(t, w[..x + q.now])
  {
    hide Replay;
    ReplayAppend(t, w[..x], w[x..x + q.now]);
    assert w[..x] + w[x..x + q.now] == w[..x + q.now];
  }

  lemma EndCut(q: Past, t: Text, w: seq<Entry>)
    requires EndOf(q, t, w)
    ensures CutAt(q, t, w, |w|, Excess(|w|))
  {
    assert q.now == |q.log[..q.now]|;
    assert w[Excess(|w|)..] == w[Excess(|w|)..|w|];
  }

  /** The start of the groups from `k` on. */
  function StartAt(all: seq<Entry>, gs: seq<seq<Entry>>, k: nat): nat
    requires k <= |gs|
  {
    |Whole(all, gs[..k])| + |Lead(Whole(all, gs[..k]))|
  }

  /** From the end of group `k`, with or without a boundary behind it, undo goes
      to its start. */
  lemma BackOne(all: seq<Entry>, gs: seq<seq<Entry>>, k: nat, w: seq<Entry>, n: nat)
    requires k < |gs| && AllEdits(gs) && n <= |w|
    requires var v := Whole(all, gs[..k + 1]);
             |v| <= n <= |v| + 1 && w[..|v|] == v && (n == |v| + 1 ==> w[|v|] == Boundary)
    ensures Back(w, n) == StartAt(all, gs, k)
  {
    hide Lead;
    var v, u := Whole(all, gs[..k + 1]), Whole(all, gs[..k]);
    var g := gs[k];
    assert gs[..k + 1][..k] == gs[..k] && gs[..k + 1][k] == g;
    assert v == u + Lead(u) + g;
    assert forall i :: 0 <= i < |v| ==> w[i] == w[..|v|][i];
    assert forall i :: |v| - |g| <= i < |v| ==> w[i] == g[i - (|v| - |g|)];
    assert SkipBack(w, n) == |v|;
    var k := |v| - |g|;
    if k > 0 {
      LeadEnds(u);
      assert w[k - 1] == (u + Lead(u))[k - 1];
    }
    GroupStartIs(w, k, |v|);
  }

  lemma LeadEnds(u: seq<Entry>)
    requires u + Lead(u) != []
    ensures (u + Lead(u))[|u + Lead(u)| - 1] == Boundary
  {
  }

  lemma {:induction false} BackGroups(all: seq<Entry>, gs: seq<seq<Entry>>, closed: bool, j: nat)
    requires 0 < j <= |gs| && AllEdits(gs)
    ensures var w := Whole(all, gs) + Closing(closed); BackTimes(w, |w|, j) == StartAt(all, gs, |gs| - j)
    decreases j
  {
    hide Back, Whole, Edits, Lead;
    var w, k := Whole(all, gs) + Closing(closed), |gs| - j;
    if j == 1 {
      assert gs[..k + 1] == gs;
      assert BackTimes(w, |w|, 0) == |w|;
      BackOne(all, gs, k, w, |w|);
    } else {
      BackGroups(all, gs, closed, j - 1);
      WholeSplit(all, gs, k + 1);
      WholeEnd(all, gs[..k + 1]);
      BackOne(all, gs, k, w, StartAt(all, gs, k + 1));
    }
  }

  /** A history closed by a boundary, or not. */
  function Closed(p: Past, closed: bool): (r: Past)
    requires p.now <= |p.log|
    ensures r.now <= |r.log|
  {
    if closed then RecordBoundary(p) else p
  }

  lemma ClosedCut(p: Past, gs: seq<seq<Entry>>, closed: bool)
    requires p.now <= |p.log| <= CAP && gs != [] && AllEdits(gs)
    ensures var w := Whole(p.log[..p.now], gs) + Closing(closed);
            CutAt(Closed(Groups(p, gs), closed), p.base, w, |w|, Excess(|w|))
  {
    hide CutAt, EndOf, Whole, RecordBoundary, Edits, Lead;
    var v, q := Whole(p.log[..p.now], gs), Groups(p, gs);
    GroupsEnd(p, gs);
    WholeEnd(p.log[..p.now], gs);
    BoundaryAppended(p.base, v, q);
    assert v + [] == v;
    EndCut(Closed(q, closed), p.base, v + Closing(closed));
  }

  /** A boundary that leads a group changes no text. */
  lemma LeadSilent(t: Text, v: seq<Entry>, es: seq<Entry>)
    ensures Replay(t, v + Lead(v) + es) == Replay(Replay(t, v), es)
  {
    hide Replay;
    ReplayAppend(t, v + Lead(v), es);
    ReplayAppend(t, v, Lead(v));
    LeadNone(Replay(t, v), v);
  }

  lemma LeadNone(t: Text, v: seq<Entry>)
    ensures Replay(t, Lead(v)) == t
  {
    if Lead(v) != [] { assert Lead(v)[..0] == []; }
  }

  /** How far into the last groups the log does not reach. */
  lemma ExcessSplit(w: seq<Entry>, head: seq<Entry>, tail: seq<Entry>)
    requires w == head + tail
    ensures var x, d := Excess(|w|), Excess(|tail|);
            && d <= |tail| && x + Above(|head|, x) == |head| + d
            && w[..x + Above(|head|, x)] == head + tail[..d]
  {
  }

  /** Where j undos after a series of groups stand: at the start of the last j
      of them, as far as the log reaches. */
  lemma {:induction false} GroupsBack(p: Past, gs: seq<seq<Entry>>, closed: bool, j: nat)
    requires p.now <= |p.log| <= CAP && AllEdits(gs) && 0 < j <= |gs|
    ensures var w := Whole(p.log[..p.now], gs) + Closing(closed);
            CutAt(UndoTimes(Closed(Groups(p, gs), closed), j), p.base, w, StartAt(p.log[..p.now], gs, |gs| - j),
                  Excess(|w|))
  {
    hide CutAt, Whole, Edits, Lead, Groups;
    ClosedCut(p, gs, closed);
    var w := Whole(p.log[..p.now], gs) + Closing(closed);
    UndoTimesCut(Closed(Groups(p, gs), closed), p.base, w, |w|, Excess(|w|), j);
    BackGroups(p.log[..p.now], gs, closed, j);
  }

  /** Undoing j times after a series of groups gives the text before the last j
      of them, short of what has fallen out of the log. */
  lemma {:induction false} GroupsUndone(p: Past, gs: seq<seq<Entry>>, closed: bool, j: nat)
    requires Good(p) && Doable(p, gs) && 0 < j <= |gs|
    ensures var k, q := |gs| - j, Closed(Groups(p, gs), closed);
            var tail := Later(gs[k..]) + Closing(closed);
            Current(UndoTimes(q, j)) == Replay(Current(Groups(p, gs[..k])), Lost(tail))
  {
    hide Good, Current, CutAt, Whole, Edits, Lead, Groups, Replay, Doable, Excess, Above, Later, UndoTimes, Closed;
    GoodInside(p);
    DoableEdits(p, gs);
    var k, all := |gs| - j, p.log[..p.now];
    var v, w := Whole(all, gs[..k]), Whole(all, gs) + Closing(closed);
    var tail := Later(gs[k..]) + Closing(closed);
    GroupsBack(p, gs, closed, j);
    CutText(UndoTimes(Closed(Groups(p, gs), closed), j), p.base, w, |v + Lead(v)|, Excess(|w|));
    WholeSplit(all, gs, k);
    ExcessSplit(w, v + Lead(v), tail);
    CutNow(UndoTimes(Closed(Groups(p, gs), closed), j), p.base, w, |v + Lead(v)|, Excess(|w|));
    LeadSilent(p.base, v, tail[..Excess(|tail|)]);
    GroupsEnd(p, gs[..k]);
    EndText(Groups(p, gs[..k]), p.base, v);
  }

  lemma CutNow(q: Past, t: Text, w: seq<Entry>, n: nat, x: nat)
    requires CutAt(q, t, w, n, x)
    ensures q.now == Above(n, x)
  {
  }

  lemma EndText(q: Past, t: Text, w: seq<Entry>)
    requires EndOf(q, t, w)
    ensures Current(q) == Replay(t, w)
  {
    hide Replay, Current;
    EndCut(q, t, w);
    CutText(q, t, w, |w|, Excess(|w|));
    assert w[..|w|] == w;
  }

  /** The j-th of these undos succeeds exactly when the log reaches back behind
      the groups undone before it. */
  lemma {:induction false} UndoLasts(p: Past, gs: seq<seq<Entry>>, closed: bool, j: nat)
    requires Good(p) && Doable(p, gs) && 0 < j <= |gs|
    ensures UndoPossible(UndoTimes(Closed(Groups(p, gs), closed), j - 1))
            <==> |Later(gs[|gs| - j + 1..]) + Closing(closed)| + 2 <= CAP
  {
    hide Good, CutAt, Whole, Edits, Groups, Doable, UndoPossible, Replay, RecordBoundary;
    GoodInside(p);
    DoableEdits(p, gs);
    var k := |gs| - j + 1;
    if j == 1 {
      var w := Whole(p.log[..p.now], gs) + Closing(closed);
      ClosedCut(p, gs, closed);
      WholeEnd(p.log[..p.now], gs);
      PossibleAt(Closed(Groups(p, gs), closed), p.base, w, |w|, Excess(|w|));
      assert gs[k..] == [];
    } else {
      LaterReached(p, gs, closed, k);
    }
  }

  lemma {:induction false} LaterReached(p: Past, gs: seq<seq<Entry>>, closed: bool, k: nat)
    requires p.now <= |p.log| <= CAP && AllEdits(gs) && 0 < k < |gs|
    ensures UndoPossible(UndoTimes(Closed(Groups(p, gs), closed), |gs| - k))
            <==> |Later(gs[k..]) + Closing(closed)| + 2 <= CAP
  {
    hide CutAt, Whole, Edits, Groups, UndoPossible, Replay, RecordBoundary, Closed, Later, UndoTimes;
    var all := p.log[..p.now];
    var w := Whole(all, gs) + Closing(closed);
    GroupsBack(p, gs, closed, |gs| - k);
    WholeEnd(all, gs[..k]);
    WholeSplit(all, gs, k);
    PossibleAt(UndoTimes(Closed(Groups(p, gs), closed), |gs| - k), p.base, w, StartAt(all, gs, k), Excess(|w|));
  }

  lemma PossibleAt(q: Past, t: Text, w: seq<Entry>, n: nat, x: nat)
    requires CutAt(q, t, w, n, x)
    ensures UndoPossible(q) <==> SkipBack(w, n) > x
  {
    if n > x { assert q.log[q.now - 1] == q.log[..q.now][q.now - 1] == w[n - 1]; }
  }

  /** One group: undo restores the text, short of the edits that fell out of the
      log, and leaves the cursor at the oldest edit it took back. */
  lemma {:induction false} GroupUndone(p: Past, es: seq<Entry>, closed: bool, cursor: nat)
    requires Good(p) && CanAll(Current(p), es) && Edits(es) && es != []
    ensures var q, d := Group(p, es, closed), Excess(|es| + |Closing(closed)|);
            && UndoPossible(q) && d < |es|
            && Current(Undo(q)) == Replay(Current(p), es[..d])
            && UndoCursor(q, cursor) == UndoneAt(es[d])
  {
    hide Good, Replay, CanAll, Current, UndoPossible, CutAt, Edits, Lead, RecordAll, RecordBoundary, Undo;
    GoodInside(p);
    var gs, c := [es], Closing(closed);
    OneGroup(p, es, closed);
    GroupsUndone(p, gs, closed, 1);
    UndoLasts(p, gs, closed, 1);
    assert gs[0..] == gs && gs[1..] == [] && gs[..0] == [];
    var q, all := Group(p, es, closed), p.log[..p.now];
    var w := Whole(all, gs) + c;
    OneWhole(all, es);
    assert w == all + Lead(all) + (es + c);
    ClosedCut(p, gs, closed);
    GroupsBack(p, gs, closed, 1);
    CutMeets(q, p.base, w, StartAt(all, gs, 0), Excess(|w|));
    assert UndoTimes(q, 1) == Undo(q);
    ExcessSplit(w, all + Lead(all), es + c);
    assert Lost(es + c) == es[..Excess(|es + c|)];
  }

  lemma OneGroup(p: Past, es: seq<Entry>, closed: bool)
    requires p.now <= |p.log| && CanAll(Current(p), es) && Edits(es) && es != []
    ensures Doable(p, [es]) && AllEdits([es]) && Closed(Groups(p, [es]), closed) == Group(p, es, closed)
    ensures Groups(p, [es][..0]) == p
  {
    hide CanAll, Edits, RecordAll, RecordBoundary, Current;
    assert [es][..0] == [];
    assert Groups(p, []) == p && Doable(p, []);
  }

  lemma OneWhole(all: seq<Entry>, es: seq<Entry>)
    ensures Whole(all, [es]) == all + Lead(all) + es && Later([es]) == es
    ensures StartAt(all, [es], 0) == |all + Lead(all)|
  {
    hide Lead;
    assert [es][..0] == [];
    assert Whole(all, []) == all;
  }

  /** What stands in the log where the entries kept are cut at `n`. */
  lemma CutMeets(q: Past, t: Text, w: seq<Entry>, n: nat, x: nat)
    requires CutAt(q, t, w, |w|, x) && CutAt(Undo(q), t, w, n, x) && x + Above(n, x) < |w|
    ensures Undo(q).now == Above(n, x) < q.now && q.log[Above(n, x)] == w[x + Above(n, x)]
  {
    assert q.log[Above(n, x)] == q.log[..q.now][Above(n, x)];
  }
}
