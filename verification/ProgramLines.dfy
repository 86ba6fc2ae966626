/** BASIC program lines in order of their numbers, and their packed form. */
module ProgramLines {
  import opened Basics

  /** A numbered line of tokens. */
  datatype Line = Line(num: nat, tokens: seq<byte>)

  const MAX_TOKENS: nat := 252

  predicate Proper(l: Line) {
    l.num < 0x10000 && |l.tokens| <= MAX_TOKENS
  }

  /** A record: the number in two bytes, the record's length in one, the tokens. */
  function Record(l: Line): (r: seq<byte>)
    requires Proper(l)
    ensures |r| == |l.tokens| + 3
  {
    [l.num % 256, l.num / 256, |l.tokens| + 3] + l.tokens
  }

  predicate AllProper(ls: seq<Line>) {
    forall i :: 0 <= i < |ls| ==> Proper(ls[i])
  }

  predicate Sorted(ls: seq<Line>) {
    forall i, j :: 0 <= i < j < |ls| ==> ls[i].num < ls[j].num
  }

  function Packed(ls: seq<Line>): seq<byte>
    requires AllProper(ls)
    decreases |ls|
  {
    if ls == [] then [] else Packed(ls[..|ls| - 1]) + Record(ls[|ls| - 1])
  }

  /** Where the k-th record begins. */
  function Offset(ls: seq<Line>, k: nat): nat
    requires AllProper(ls) && k <= |ls|
  {
    |Packed(ls[..k])|
  }

  lemma {:induction false} PackedAppend(a: seq<Line>, b: seq<Line>)
    requires AllProper(a) && AllProper(b)
    ensures AllProper(a + b) && Packed(a + b) == Packed(a) + Packed(b)
    decreases |b|
  {
    if b == [] {
      assert a + b == a;
    } else {
      assert (a + b)[..|a + b| - 1] == a + b[..|b| - 1];
      PackedAppend(a, b[..|b| - 1]);
      Regroup(Packed(a), Packed(b[..|b| - 1]), Record(b[|b| - 1]));
    }
  }

  lemma Regroup(a: seq<byte>, b: seq<byte>, c: seq<byte>)
    ensures (a + b) + c == a + (b + c)
  {
  }

  /** Splitting the packed program at the k-th record. */
  lemma {:induction false} PackedAt(ls: seq<Line>, k: nat)
    requires AllProper(ls) && k < |ls|
    ensures Packed(ls) == Packed(ls[..k]) + (Record(ls[k]) + Packed(ls[k + 1..]))
    ensures Offset(ls, k + 1) == Offset(ls, k) + |ls[k].tokens| + 3 <= |Packed(ls)|
  {
    assert ls == ls[..k + 1] + ls[k + 1..];
    PackedAppend(ls[..k + 1], ls[k + 1..]);
    assert ls[..k + 1][..k] == ls[..k];
    Regroup(Packed(ls[..k]), Record(ls[k]), Packed(ls[k + 1..]));
  }

  lemma PackedSplit(ls: seq<Line>, k: nat)
    requires AllProper(ls) && k <= |ls|
    ensures Packed(ls) == Packed(ls[..k]) + Packed(ls[k..])
  {
    assert ls == ls[..k] + ls[k..];
    PackedAppend(ls[..k], ls[k..]);
  }

  lemma PackedOne(l: Line)
    requires Proper(l)
    ensures AllProper([l]) && Packed([l]) == Record(l)
  {
    assert [l][..0] == [];
  }

  // ---- lines as a map ----

  /** The first line whose number is not below `n`. */
  function Place(ls: seq<Line>, n: nat): (k: nat)
    ensures k <= |ls|
    ensures forall i :: 0 <= i < k ==> ls[i].num < n
    ensures k < |ls| ==> ls[k].num >= n
  {
    if ls == [] || ls[0].num >= n then 0 else Place(ls[1..], n) + 1
  }

  predicate Has(ls: seq<Line>, n: nat) {
    Place(ls, n) < |ls| && ls[Place(ls, n)].num == n
  }

  function Without(ls: seq<Line>, n: nat): seq<Line> {
    if Has(ls, n) then ls[..Place(ls, n)] + ls[Place(ls, n) + 1..] else ls
  }

  function With(ls: seq<Line>, l: Line): seq<Line> {
    var k := Place(ls, l.num);
    ls[..k] + [l] + ls[k..]
  }

  lemma WithoutIs(ls: seq<Line>, n: nat)
    ensures if Has(ls, n) then
              var k := Place(ls, n);
              k < |ls| && Without(ls, n) == ls[..k] + ls[k + 1..]
            else Without(ls, n) == ls
  {
  }

  datatype Found = Absent | Tokens(tokens: seq<byte>)

  /** The tokens stored under a number. */
  function Get(ls: seq<Line>, n: nat): Found {
    if Has(ls, n) then Tokens(ls[Place(ls, n)].tokens) else Absent
  }

  lemma PlaceIs(ls: seq<Line>, n: nat, k: nat)
    requires k <= |ls|
    requires forall i :: 0 <= i < k ==> ls[i].num < n
    requires k < |ls| ==> ls[k].num >= n
    ensures Place(ls, n) == k
  {
    var p := Place(ls, n);
    assert !(p < k) && !(k < p);
  }

  /** One line fewer, and one more, position by position. */
  lemma Removed(ls: seq<Line>, k: nat)
    requires k < |ls|
    ensures var r := ls[..k] + ls[k + 1..];
            |r| == |ls| - 1 && forall i {:trigger r[i]} :: 0 <= i < |r| ==> r[i] == if i < k then ls[i] else ls[i + 1]
  {
  }

  lemma Inserted(ls: seq<Line>, k: nat, l: Line)
    requires k <= |ls|
    ensures var r := ls[..k] + [l] + ls[k..];
            |r| == |ls| + 1
            && forall i {:trigger r[i]} :: 0 <= i < |r| ==>
                 r[i] == if i < k then ls[i] else if i == k then l else ls[i - 1]
  {
  }

  lemma {:induction false} WithoutSorted(ls: seq<Line>, n: nat)
    requires Sorted(ls) && AllProper(ls)
    ensures Sorted(Without(ls, n)) && AllProper(Without(ls, n))
  {
    hide Proper;
    if Has(ls, n) {
      var k, r := Place(ls, n), Without(ls, n);
      Removed(ls, k);
      forall i, j | 0 <= i < j < |r| ensures r[i].num < r[j].num {
      }
    }
  }

  lemma WithoutGet(ls: seq<Line>, n: nat, m: nat)
    requires Sorted(ls)
    ensures Get(Without(ls, n), m) == if m == n then Absent else Get(ls, m)
  {
    hide Sorted, Place;
    if Has(ls, n) {
      var k, p, r := Place(ls, n), Place(ls, m), Without(ls, n);
      Removed(ls, k);
      Follows(ls, k);
      var q := if p <= k then p else p - 1;
      forall i | 0 <= i < q ensures r[i].num < m {
        if i >= k { assert i + 1 < p; }
      }
      PlaceIs(r, m, q);
    }
  }

  lemma WithoutGone(ls: seq<Line>, n: nat)
    requires Sorted(ls)
    ensures !Has(Without(ls, n), n)
  {
    WithoutGet(ls, n, n);
  }

  lemma Follows(ls: seq<Line>, k: nat)
    requires Sorted(ls) && k < |ls|
    ensures k + 1 < |ls| ==> ls[k + 1].num > ls[k].num
  {
  }

  lemma {:induction false} WithoutSize(ls: seq<Line>, n: nat)
    requires AllProper(ls)
    ensures AllProper(Without(ls, n))
    ensures |Packed(Without(ls, n))| == |Packed(ls)| - if Has(ls, n) then |ls[Place(ls, n)].tokens| + 3 else 0
  {
    if Has(ls, n) {
      var k := Place(ls, n);
      PackedAt(ls, k);
      PackedAppend(ls[..k], ls[k + 1..]);
    }
  }

  lemma {:induction false} WithSorted(ls: seq<Line>, l: Line)
    requires Sorted(ls) && AllProper(ls) && Proper(l) && !Has(ls, l.num)
    ensures Sorted(With(ls, l)) && AllProper(With(ls, l))
  {
    hide Proper, Place;
    var k, r := Place(ls, l.num), With(ls, l);
    Inserted(ls, k, l);
    forall i, j | 0 <= i < j < |r| ensures r[i].num < r[j].num {
      if i == k && j > k + 1 { assert ls[k].num < ls[j - 1].num; }
    }
  }

  lemma WithGet(ls: seq<Line>, l: Line, m: nat)
    requires Sorted(ls) && !Has(ls, l.num)
    ensures Get(With(ls, l), m) == if m == l.num then Tokens(l.tokens) else Get(ls, m)
  {
    hide Sorted, Place;
    var k, p, r := Place(ls, l.num), Place(ls, m), With(ls, l);
    Inserted(ls, k, l);
    var q := if m <= l.num then p else p + 1;
    PlaceOrder(ls, m, l.num);
    forall i | 0 <= i < q ensures r[i].num < m {
    }
    PlaceIs(r, m, q);
  }

  lemma {:induction false} PlaceOrder(ls: seq<Line>, m: nat, n: nat)
    ensures m <= n ==> Place(ls, m) <= Place(ls, n)
    ensures m > n ==> Place(ls, n) <= Place(ls, m)
    decreases |ls|
  {
    if ls != [] { PlaceOrder(ls[1..], m, n); }
  }

  lemma WithSize(ls: seq<Line>, l: Line)
    requires AllProper(ls) && Proper(l)
    ensures AllProper(With(ls, l)) && |Packed(With(ls, l))| == |Packed(ls)| + |l.tokens| + 3
  {
    var k := Place(ls, l.num);
    PackedOne(l);
    PackedAppend(ls[..k], [l]);
    PackedAppend(ls[..k] + [l], ls[k..]);
    PackedSplit(ls, k);
  }

  /** Every line is found under its number, and nothing else is. */
  lemma GetListed(ls: seq<Line>, n: nat)
    requires Sorted(ls)
    ensures Get(ls, n).Tokens? <==> exists i :: 0 <= i < |ls| && ls[i].num == n
    ensures forall i :: 0 <= i < |ls| && ls[i].num == n ==> Get(ls, n) == Tokens(ls[i].tokens)
  {
    if i :| 0 <= i < |ls| && ls[i].num == n {
      PlaceIs(ls, n, i);
    }
  }

  /** Replacing a line sets its number in the map and nothing else. */
  lemma {:induction false} ReplacedGet(ls: seq<Line>, l: Line, m: nat)
    requires Sorted(ls) && AllProper(ls) && Proper(l)
    ensures Get(With(Without(ls, l.num), l), m) == if m == l.num then Tokens(l.tokens) else Get(ls, m)
  {
    WithoutSorted(ls, l.num);
    WithoutGet(ls, l.num, l.num);
    WithoutGet(ls, l.num, m);
    WithGet(Without(ls, l.num), l, m);
  }
}
