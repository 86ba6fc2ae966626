/** Lines and columns of a text. */
module Lines {
  type Text = seq<char>

  function Newlines(t: Text): nat
    decreases |t|
  {
    if t == [] then 0 else Newlines(t[..|t| - 1]) + if t[|t| - 1] == '\n' then 1 else 0
  }

  lemma NewlinesNext(t: Text, i: nat)
    requires i < |t|
    ensures Newlines(t[..i + 1]) == Newlines(t[..i]) + if t[i] == '\n' then 1 else 0
  {
    assert t[..i + 1][..i] == t[..i];
  }

  lemma {:induction false} NewlinesGrow(t: Text, i: nat, j: nat)
    requires i <= j <= |t|
    ensures Newlines(t[..i]) <= Newlines(t[..j])
    ensures (forall k :: i <= k < j ==> t[k] != '\n') ==> Newlines(t[..i]) == Newlines(t[..j])
    decreases j - i
  {
    if i < j {
      NewlinesGrow(t, i, j - 1);
      NewlinesNext(t, j - 1);
    }
  }

  /** Where the line holding position `p` begins. */
  function LineBegin(t: Text, p: nat): (b: nat)
    requires p <= |t|
    ensures b <= p && (b == 0 || t[b - 1] == '\n')
    ensures forall k :: b <= k < p ==> t[k] != '\n'
  {
    if p == 0 || t[p - 1] == '\n' then p else LineBegin(t, p - 1)
  }

  function ColumnOf(t: Text, p: nat): nat
    requires p <= |t|
  {
    p - LineBegin(t, p)
  }

  lemma ColumnIs(t: Text, p: nat, b: nat)
    requires b <= p <= |t| && (b == 0 || t[b - 1] == '\n')
    requires forall k :: b <= k < p ==> t[k] != '\n'
    ensures ColumnOf(t, p) == p - b
  {
    var c := LineBegin(t, p);
    assert !(c < b) && !(b < c);
  }

  /** The position right after the line-th newline, or the end of the text. */
  function StartOf(t: Text, line: nat): (s: nat)
    ensures s <= |t|
  {
    if line == 0 then 0 else StartFrom(t, line, 0)
  }

  function StartFrom(t: Text, line: nat, i: nat): (s: nat)
    requires i <= |t|
    ensures s <= |t|
    decreases |t| - i
  {
    if i == |t| then |t|
    else if t[i] == '\n' && Newlines(t[..i + 1]) == line then i + 1
    else StartFrom(t, line, i + 1)
  }

  lemma {:induction false} StartFromIs(t: Text, line: nat, i: nat, s: nat)
    requires i < s <= |t| && t[s - 1] == '\n' && Newlines(t[..s]) == line
    ensures StartFrom(t, line, i) == s
    decreases s - i
  {
    if i + 1 < s {
      NewlinesGrow(t, i + 1, s - 1);
      NewlinesNext(t, s - 1);
      StartFromIs(t, line, i + 1, s);
    }
  }

  lemma StartIs(t: Text, line: nat, s: nat)
    requires 0 < s <= |t| && t[s - 1] == '\n' && Newlines(t[..s]) == line
    ensures StartOf(t, line) == s
  {
    NewlinesGrow(t, 0, s - 1);
    NewlinesNext(t, s - 1);
    StartFromIs(t, line, 0, s);
  }

  lemma {:induction false} StartFromEnd(t: Text, line: nat, i: nat)
    requires i <= |t| && Newlines(t) < line
    ensures StartFrom(t, line, i) == |t|
    decreases |t| - i
  {
    if i < |t| {
      assert t[..|t|] == t;
      NewlinesGrow(t, i + 1, |t|);
      StartFromEnd(t, line, i + 1);
    }
  }

  lemma StartPastEnd(t: Text, line: nat)
    requires Newlines(t) < line
    ensures StartOf(t, line) == |t|
  {
    StartFromEnd(t, line, 0);
  }

  /** The first newline from `s` on, or the end of the text. */
  function EndFrom(t: Text, s: nat): (e: nat)
    requires s <= |t|
    ensures s <= e <= |t| && (e == |t| || t[e] == '\n')
    ensures forall k :: s <= k < e ==> t[k] != '\n'
    decreases |t| - s
  {
    if s == |t| || t[s] == '\n' then s else EndFrom(t, s + 1)
  }

  function LengthOf(t: Text, line: nat): nat {
    EndFrom(t, StartOf(t, line)) - StartOf(t, line)
  }

  lemma EndIs(t: Text, s: nat, e: nat)
    requires s <= e <= |t| && (e == |t| || t[e] == '\n')
    requires forall k :: s <= k < e ==> t[k] != '\n'
    ensures EndFrom(t, s) == e
  {
    var f := EndFrom(t, s);
    assert !(f < e) && !(e < f);
  }

  lemma {:induction false} StartExists(t: Text, line: nat, i: nat)
    requires i <= |t| && Newlines(t[..i]) < line <= Newlines(t)
    ensures var s := StartFrom(t, line, i);
            i < s <= |t| && t[s - 1] == '\n' && Newlines(t[..s]) == line
    decreases |t| - i
  {
    assert t[..|t|] == t;
    if i < |t| {
      NewlinesNext(t, i);
      if !(t[i] == '\n' && Newlines(t[..i + 1]) == line) {
        StartExists(t, line, i + 1);
      }
    }
  }

  /** Within an existing line, a position given by line and column is on that
      line and in that column. */
  lemma PlaceReadsBack(t: Text, line: nat, col: nat)
    requires line <= Newlines(t) && col <= LengthOf(t, line)
    ensures var p := StartOf(t, line) + col;
            p <= |t| && Newlines(t[..p]) == line && ColumnOf(t, p) == col
  {
    hide Newlines, StartFrom, LineBegin, ColumnOf;
    var s := StartOf(t, line);
    var p := s + col;
    StartOn(t, line);
    assert forall k :: s <= k < p ==> t[k] != '\n';
    NewlinesGrow(t, s, p);
    ColumnIs(t, p, s);
  }

  lemma StartOn(t: Text, line: nat)
    requires line <= Newlines(t)
    ensures var s := StartOf(t, line);
            Newlines(t[..s]) == line && (s == 0 || t[s - 1] == '\n')
  {
    if line > 0 { StartExists(t, line, 0); }
  }

  /** Every position is given back by its line and column. */
  lemma PlaceFound(t: Text, p: nat)
    requires p <= |t|
    ensures var line := Newlines(t[..p]);
            line <= Newlines(t) && ColumnOf(t, p) <= LengthOf(t, line)
            && StartOf(t, line) + ColumnOf(t, p) == p
  {
    var b := LineBegin(t, p);
    assert t[..|t|] == t;
    NewlinesGrow(t, b, p);
    NewlinesGrow(t, p, |t|);
    if b > 0 { StartIs(t, Newlines(t[..b]), b); }
    var e := EndFrom(t, b);
    assert !(e < p);
  }
}
