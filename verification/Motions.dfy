/** How far a motion with a count reaches. */
module Motions {
  import opened Lines
  import opened Words
  import opened Editor

  /** `h` and `l` go as many characters as the count says, as far as the text reaches; `0`
      and `$` reach around the line of the cursor, whatever the count. */
  lemma LetterMotions(t: Text, p: nat, n: nat)
    requires p <= |t|
    ensures Covered(t, p, ToLeft, n) == if n <= p then p - n else 0
    ensures Covered(t, p, ToRight, n) == if p + n <= |t| then p + n else |t|
    ensures var a, b := Covered(t, p, ToLineStart, n), Covered(t, p, ToLineEnd, n);
            && a <= p <= b <= |t| && '\n' !in t[a..b]
            && (a == 0 || t[a - 1] == '\n') && (b == |t| || t[b] == '\n')
  {
    LeftMoved(t, p, n);
    RightMoved(t, p, n);
  }

  lemma {:induction false} LeftMoved(t: Text, p: nat, n: nat)
    requires p <= |t|
    ensures Moved(t, p, ToLeft, n) == if n <= p then p - n else 0
    decreases n
  {
    if n > 0 { LeftMoved(t, MovedOnce(t, p, ToLeft), n - 1); }
  }

  lemma {:induction false} RightMoved(t: Text, p: nat, n: nat)
    requires p <= |t|
    ensures Moved(t, p, ToRight, n) == if p + n <= |t| then p + n else |t|
    decreases n
  {
    if n > 0 { RightMoved(t, MovedOnce(t, p, ToRight), n - 1); }
  }

  /** How many word starts there are behind `a` and up to `b`. */
  function Starts(t: Text, a: nat, b: nat, big: bool): nat
    decreases b
  {
    if b <= a then 0 else Starts(t, a, b - 1, big) + if WordStart(t, b, big) then 1 else 0
  }

  function Ends(t: Text, a: nat, b: nat, big: bool): nat
    decreases b
  {
    if b <= a then 0 else Ends(t, a, b - 1, big) + if WordEnd(t, b, big) then 1 else 0
  }

  lemma {:induction false} StartsSplit(t: Text, a: nat, b: nat, c: nat, big: bool)
    requires a <= b <= c
    ensures Starts(t, a, c, big) == Starts(t, a, b, big) + Starts(t, b, c, big)
    ensures Ends(t, a, c, big) == Ends(t, a, b, big) + Ends(t, b, c, big)
    decreases c
  {
    if b < c { StartsSplit(t, a, b, c - 1, big); }
  }

  lemma {:induction false} NoStarts(t: Text, a: nat, b: nat, big: bool)
    requires a <= b
    ensures (forall i :: a < i <= b ==> !WordStart(t, i, big)) ==> Starts(t, a, b, big) == 0
    ensures (forall i :: a < i <= b ==> !WordEnd(t, i, big)) ==> Ends(t, a, b, big) == 0
    decreases b
  {
    hide WordStart, WordEnd;
    if a < b { NoStarts(t, a, b - 1, big); }
  }

  /** `w` and `W` with a count reach that many word starts further, or the end of the text
      where there are fewer. */
  lemma {:induction false} ToWordReaches(t: Text, p: nat, big: bool, n: nat)
    requires p <= |t| && n > 0
    ensures var q := Covered(t, p, ToWord(big), n);
            && p <= q && (q < |t| ==> WordStart(t, q, big) && Starts(t, p, q, big) == n)
            && (q == |t| ==> Starts(t, p, q, big) < n)
    decreases n
  {
    hide WordStart;
    var m := ToWord(big);
    var r := MovedOnce(t, p, m);
    var q := Moved(t, r, m, n - 1);
    assert Covered(t, p, m, n) == q;
    if p < |t| {
      NoStarts(t, p, r - 1, big);
    }
    NotAtEnd(t, big);
    if n > 1 {
      ToWordReaches(t, r, big, n - 1);
      assert q == Covered(t, r, m, n - 1);
      StartsSplit(t, p, r, q, big);
    }
  }

  lemma NotAtEnd(t: Text, big: bool)
    ensures !WordStart(t, |t|, big) && !WordEnd(t, |t|, big)
  {
  }

  /** `b` and `B` with a count reach back over that many word starts, or to the start of the
      text. */
  lemma {:induction false} ToPreviousReaches(t: Text, p: nat, big: bool, n: nat)
    requires p <= |t| && n > 0
    ensures var q := Covered(t, p, ToPreviousWord(big), n);
            && q <= p && (q > 0 ==> WordStart(t, q, big) && Starts(t, q - 1, p - 1, big) == n)
            && (q == 0 < p ==> Starts(t, 0, p - 1, big) < n)
    decreases n
  {
    hide WordStart;
    var m := ToPreviousWord(big);
    var r := MovedOnce(t, p, m);
    var q := Moved(t, r, m, n - 1);
    assert Covered(t, p, m, n) == q;
    if p > 0 {
      NoStarts(t, r, p - 1, big);
      if r > 0 { StartsSplit(t, r - 1, r, p - 1, big); }
    }
    if n > 1 {
      ToPreviousReaches(t, r, big, n - 1);
      assert q == Covered(t, r, m, n - 1);
      if q > 0 { StartsSplit(t, q - 1, r - 1, p - 1, big); } else if r > 0 { StartsSplit(t, 0, r - 1, p - 1, big); }
    }
  }

  /** `e` and `E` with a count take in the last character of that many words behind the
      cursor, or everything up to the last character. */
  lemma {:induction false} ToEndReaches(t: Text, p: nat, big: bool, n: nat)
    requires p < |t| && n > 0
    ensures var q := Covered(t, p, ToWordEnd(big), n) - 1;
            && p <= q < |t| && Ends(t, p, q, big) <= n
            && (q + 1 < |t| ==> WordEnd(t, q, big) && Ends(t, p, q, big) == n)
    decreases n
  {
    hide WordEnd;
    var m := ToWordEnd(big);
    var r := MovedOnce(t, p, m);
    var q := Moved(t, r, m, n - 1);
    assert Covered(t, p, m, n) == q + 1;
    if p < r { NoStarts(t, p, r - 1, big); }
    if n > 1 {
      ToEndReaches(t, r, big, n - 1);
      assert q + 1 == Covered(t, r, m, n - 1);
      StartsSplit(t, p, r, q, big);
    }
  }
}
