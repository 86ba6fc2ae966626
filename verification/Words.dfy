/** Words of a text: maximal runs of one kind of character. */
module Words {
  import opened Lines

  predicate WordChar(c: char) {
    'a' <= c <= 'z' || 'A' <= c <= 'Z' || '0' <= c <= '9' || c == '_'
  }

  predicate Blank(c: char) {
    c == ' ' || c == '\t' || c == '\n' || c == '\r'
  }

  /** 0 for blanks; `big` words take any other characters together. */
  function Kind(c: char, big: bool): nat {
    if Blank(c) then 0 else if big || WordChar(c) then 1 else 2
  }

  /** The three kinds: blanks, the 63 characters of words, and all others, which big words
      take in as well. */
  lemma Kinds(c: char, big: bool)
    ensures Kind(c, big) == 0 <==> c in " \t\n\r"
    ensures Kind(c, big) == 1 <==>
            || c in "abcdefghijklm" || c in "nopqrstuvwxyz" || c in "ABCDEFGHIJKLM" || c in "NOPQRSTUVWXYZ"
            || c in "0123456789_" || (big && c !in " \t\n\r")
    ensures Kind(c, big) <= 2
  {
    Smalls(c);
    Capitals(c);
    if '0' <= c <= '9' { assert "0123456789_"[c as int - '0' as int] == c; }
    if c == '_' { assert "0123456789_"[10] == c; }
  }

  lemma Smalls(c: char)
    ensures 'a' <= c <= 'm' <==> c in "abcdefghijklm"
    ensures 'n' <= c <= 'z' <==> c in "nopqrstuvwxyz"
  {
    if 'a' <= c <= 'm' { assert "abcdefghijklm"[c as int - 'a' as int] == c; }
    if 'n' <= c <= 'z' { assert "nopqrstuvwxyz"[c as int - 'n' as int] == c; }
  }

  lemma Capitals(c: char)
    ensures 'A' <= c <= 'M' <==> c in "ABCDEFGHIJKLM"
    ensures 'N' <= c <= 'Z' <==> c in "NOPQRSTUVWXYZ"
  {
    if 'A' <= c <= 'M' { assert "ABCDEFGHIJKLM"[c as int - 'A' as int] == c; }
    if 'N' <= c <= 'Z' { assert "NOPQRSTUVWXYZ"[c as int - 'N' as int] == c; }
  }

  predicate WordStart(t: Text, i: nat, big: bool) {
    i < |t| && Kind(t[i], big) != 0 && (i == 0 || Kind(t[i - 1], big) != Kind(t[i], big))
  }

  predicate WordEnd(t: Text, i: nat, big: bool) {
    i < |t| && Kind(t[i], big) != 0 && (i + 1 == |t| || Kind(t[i + 1], big) != Kind(t[i], big))
  }

  /** The nearest word start after `p`, or the end of the text. */
  function NextStart(t: Text, p: nat, big: bool): (r: nat)
    ensures r <= |t| && (p < |t| ==> p < r) && (p >= |t| ==> r == |t|)
    ensures r == |t| || WordStart(t, r, big)
    ensures forall i :: p < i < r ==> !WordStart(t, i, big)
    decreases |t| - p
  {
    if p + 1 >= |t| then |t| else if WordStart(t, p + 1, big) then p + 1 else NextStart(t, p + 1, big)
  }

  /** The nearest word start before `p`, or the start of the text. */
  function PrevStart(t: Text, p: nat, big: bool): (r: nat)
    ensures r <= p && (p > 0 ==> r < p)
    ensures r == 0 || WordStart(t, r, big)
    ensures forall i :: r < i < p ==> !WordStart(t, i, big)
  {
    if p == 0 then 0 else if WordStart(t, p - 1, big) then p - 1 else PrevStart(t, p - 1, big)
  }

  /** The nearest word end after `p`, or the last character. */
  function NextEnd(t: Text, p: nat, big: bool): (r: nat)
    ensures r < |t| || (r == 0 == |t|)
    ensures r + 1 >= |t| || (r > p && WordEnd(t, r, big))
    ensures forall i :: p < i < r ==> !WordEnd(t, i, big)
    decreases |t| - p
  {
    if p + 1 >= |t| then if |t| > 0 then |t| - 1 else 0
    else if WordEnd(t, p + 1, big) then p + 1
    else NextEnd(t, p + 1, big)
  }

  /** On word starts the two motions undo each other: forward and back always,
      back and forward wherever there is something to go back over. */
  lemma StartsInverse(t: Text, s: nat, big: bool)
    requires WordStart(t, s, big)
    ensures PrevStart(t, NextStart(t, s, big), big) == s
    ensures s > 0 ==> NextStart(t, PrevStart(t, s, big), big) == s
  {
    var r := NextStart(t, s, big);
    var b := PrevStart(t, r, big);
    assert !(b < s);
    assert !(b > s);
    if s > 0 {
      var q := PrevStart(t, s, big);
      var n := NextStart(t, q, big);
      assert !(n < s);
      assert !(n > s);
    }
  }

  lemma NextStartIs(t: Text, p: nat, r: nat, big: bool)
    requires p < r <= |t| && (r == |t| || WordStart(t, r, big))
    requires forall i :: p < i < r ==> !WordStart(t, i, big)
    ensures NextStart(t, p, big) == r
  {
    var n := NextStart(t, p, big);
    assert !(n < r);
    assert !(n > r);
  }

  lemma PrevStartIs(t: Text, p: nat, r: nat, big: bool)
    requires r < p <= |t| && (r == 0 || WordStart(t, r, big))
    requires forall i :: r < i < p ==> !WordStart(t, i, big)
    ensures PrevStart(t, p, big) == r
  {
    var n := PrevStart(t, p, big);
    assert !(n < r);
    assert !(n > r);
  }

  lemma NextEndIs(t: Text, p: nat, r: nat, big: bool)
    requires p < r < |t| && (r + 1 == |t| || WordEnd(t, r, big))
    requires forall i :: p < i < r ==> !WordEnd(t, i, big)
    ensures NextEnd(t, p, big) == r
    decreases r - p
  {
    if p + 1 < r { NextEndIs(t, p + 1, r, big); }
  }

  /** A run of one kind from `a` to `b`. */
  predicate Run(t: Text, a: nat, b: nat, kind: nat, big: bool)
    requires b <= |t|
  {
    forall i :: a <= i < b ==> Kind(t[i], big) == kind
  }

  /** Over a run of one kind and then blanks, one reaches the next word start. */
  lemma OverRun(t: Text, p: nat, q: nat, r: nat, kind: nat, big: bool)
    requires p <= q <= r <= |t| && p < r
    requires Run(t, p, q, kind, big) && Run(t, q, r, 0, big)
    requires q < |t| ==> Kind(t[q], big) != kind || p == q
    requires r < |t| ==> Kind(t[r], big) != 0
    ensures NextStart(t, p, big) == r
  {
    forall i | p < i < r ensures !WordStart(t, i, big) {
      if i < q { assert Kind(t[i - 1], big) == Kind(t[i], big); }
    }
    NextStartIs(t, p, r, big);
  }

  /** Back over blanks and then a run, one reaches the previous word start. */
  lemma BackRun(t: Text, r: nat, q: nat, p: nat, kind: nat, big: bool)
    requires r <= q < p <= |t| && kind != 0
    requires Run(t, r, q + 1, kind, big) && Run(t, q + 1, p, 0, big)
    requires r > 0 ==> Kind(t[r - 1], big) != kind
    ensures PrevStart(t, p, big) == r
  {
    forall i | r < i < p ensures !WordStart(t, i, big) {
      if i <= q { assert Kind(t[i - 1], big) == Kind(t[i], big); }
    }
    PrevStartIs(t, p, r, big);
  }

  lemma BackBlank(t: Text, p: nat, big: bool)
    requires 0 < p <= |t| && Run(t, 0, p, 0, big)
    ensures PrevStart(t, p, big) == 0
  {
    PrevStartIs(t, p, 0, big);
  }

  /** Over blanks after `p` and then a run, one reaches the next word end. */
  lemma EndRun(t: Text, p: nat, q: nat, r: nat, kind: nat, big: bool)
    requires p < q <= r < |t| && kind != 0
    requires Run(t, p + 1, q, 0, big) && Run(t, q, r + 1, kind, big)
    requires r + 1 < |t| ==> Kind(t[r + 1], big) != kind
    ensures NextEnd(t, p, big) == r
  {
    forall i | p < i < r ensures !WordEnd(t, i, big) {
      if i >= q { assert Kind(t[i + 1], big) == Kind(t[i], big); }
    }
    NextEndIs(t, p, r, big);
  }

  lemma EndBlank(t: Text, p: nat, big: bool)
    requires p + 1 < |t| && Run(t, p + 1, |t|, 0, big)
    ensures NextEnd(t, p, big) == |t| - 1
  {
    NextEndIs(t, p, |t| - 1, big);
  }
}
