/** The allocation table of a FAT12 volume as a sequence of entries: cluster
    chains, the list of free clusters, and what freeing and linking do to it. */
module FatTable {
  /** Entry c says what follows cluster c: 0 when c is free, the next cluster,
      or an end mark.  Clusters are numbered from 2. */
  type Fat = seq<nat>

  const END_MARK: nat := 0xFF8
  const LAST_MARK: nat := 0xFFF

  predicate Distinct(p: seq<nat>) {
    forall i, j :: 0 <= i < j < |p| ==> p[i] != p[j]
  }

  predicate Within(fat: Fat, p: seq<nat>) {
    forall i :: 0 <= i < |p| ==> 2 <= p[i] < |fat|
  }

  predicate Disjoint(p: seq<nat>, q: seq<nat>) {
    forall i, j :: 0 <= i < |p| && 0 <= j < |q| ==> p[i] != q[j]
  }

  /** `p` is a terminated chain of the table: acyclic, in range, each entry
      naming the next cluster and the last one holding an end mark. */
  predicate Path(fat: Fat, p: seq<nat>) {
    && |p| > 0 && Distinct(p) && Within(fat, p)
    && (forall i :: 0 <= i < |p| - 1 ==> fat[p[i]] == p[i + 1])
    && fat[p[|p| - 1]] >= END_MARK
  }

  /** The clusters a reader visits that starts at `c` and takes at most
      `fuel` steps. */
  function Follow(fat: Fat, c: nat, fuel: nat): seq<nat>
    decreases fuel
  {
    if 2 <= c < END_MARK && c < |fat| && fuel > 0 then [c] + Follow(fat, fat[c], fuel - 1) else []
  }

  /** The chain that starts at `c`.  The driver bounds its walks by the number
      of data clusters. */
  function Chain(fat: Fat, c: nat): seq<nat> {
    Follow(fat, c, |fat|)
  }

  predicate GoodChain(fat: Fat, c: nat) {
    c < 2 || (Path(fat, Chain(fat, c)) && Chain(fat, c)[0] == c)
  }

  /** The free clusters from `c` on, in ascending order: the order in which
      repeated first-fit allocation hands them out. */
  function FreeFrom(fat: Fat, c: nat): seq<nat>
    decreases |fat| - c
  {
    if c >= |fat| then [] else (if fat[c] == 0 then [c] else []) + FreeFrom(fat, c + 1)
  }

  function Free(fat: Fat): seq<nat> {
    FreeFrom(fat, 2)
  }

  /** The index of `c` in `p`, or |p| when it does not occur. */
  function Position(p: seq<nat>, c: nat): (i: nat)
    ensures i <= |p|
    ensures i < |p| ==> p[i] == c
    ensures forall j :: 0 <= j < i ==> p[j] != c
  {
    if p == [] then 0 else if p[0] == c then 0 else Position(p[1..], c) + 1
  }

  lemma PositionIn(p: seq<nat>, i: nat)
    requires Distinct(p) && i < |p|
    ensures Position(p, p[i]) == i
  {
  }

  /** The entry of `c` once `p` has been linked up as a chain. */
  function LinkedAt(fat: Fat, p: seq<nat>, c: nat): nat
    requires c < |fat|
  {
    var i := Position(p, c);
    if i == |p| then fat[c] else if i + 1 < |p| then p[i + 1] else LAST_MARK
  }

  function Linked(fat: Fat, p: seq<nat>): (r: Fat)
    ensures |r| == |fat|
    ensures forall c :: 0 <= c < |fat| ==> r[c] == LinkedAt(fat, p, c)
  {
    seq(|fat|, c requires 0 <= c < |fat| => LinkedAt(fat, p, c))
  }

  function Cleared(fat: Fat, p: seq<nat>): (r: Fat)
    ensures |r| == |fat|
    ensures forall c :: 0 <= c < |fat| ==> r[c] == if c in p then 0 else fat[c]
  {
    seq(|fat|, c requires 0 <= c < |fat| => if c in p then 0 else fat[c])
  }

  // ---- chains ----

  lemma {:induction false} FollowPath(fat: Fat, p: seq<nat>, fuel: nat)
    requires |fat| <= END_MARK && Path(fat, p) && |p| <= fuel
    ensures Follow(fat, p[0], fuel) == p
    decreases |p|
  {
    if |p| == 1 {
      assert fat[p[0]] >= END_MARK;
      assert p == [p[0]];
    } else {
      var rest := p[1..];
      assert forall i :: 0 <= i < |rest| - 1 ==> fat[rest[i]] == rest[i + 1] by {
        forall i | 0 <= i < |rest| - 1 ensures fat[rest[i]] == rest[i + 1] {
          assert rest[i] == p[i + 1];
        }
      }
      assert rest[|rest| - 1] == p[|p| - 1];
      FollowPath(fat, rest, fuel - 1);
      assert fat[p[0]] == rest[0];
      assert p == [p[0]] + rest;
    }
  }

  function Members(p: seq<nat>): set<nat> {
    set c | c in p
  }

  /** The cluster numbers 2 .. n + 1 of a volume with `n` data clusters. */
  function Numbers(n: nat): (s: set<nat>)
    ensures |s| == n
    ensures forall c: nat :: c in s <==> 2 <= c < n + 2
  {
    if n == 0 then {} else Numbers(n - 1) + {n + 1}
  }

  lemma {:induction false} SubsetSize(a: set<nat>, b: set<nat>)
    requires a <= b
    ensures |a| <= |b|
  {
    if a != {} {
      var x :| x in a;
      SubsetSize(a - {x}, b - {x});
    }
  }

  lemma {:induction false} DistinctSize(p: seq<nat>)
    requires Distinct(p)
    ensures |Members(p)| == |p|
  {
    if |p| > 0 {
      var q, x := p[..|p| - 1], p[|p| - 1];
      DistinctSize(q);
      assert p == q + [x];
      assert Members(p) == Members(q) + {x};
      assert x !in Members(q);
    }
  }

  /** Distinct clusters of the table are at most as many as its data clusters. */
  lemma DistinctBound(p: seq<nat>, n: nat)
    requires Distinct(p) && forall i :: 0 <= i < |p| ==> 2 <= p[i] < n + 2
    ensures |p| <= n
  {
    DistinctSize(p);
    assert Members(p) <= Numbers(n);
    SubsetSize(Members(p), Numbers(n));
  }

  /** A path is the chain of its first cluster. */
  lemma PathIsChain(fat: Fat, p: seq<nat>)
    requires 2 <= |fat| <= END_MARK && Path(fat, p)
    ensures Chain(fat, p[0]) == p && GoodChain(fat, p[0])
    ensures |p| <= |fat| - 2
  {
    DistinctBound(p, |fat| - 2);
    FollowPath(fat, p, |fat|);
  }

  /** A chain survives any change of the table outside its own clusters. */
  lemma ChainFrame(fat: Fat, fat': Fat, c: nat)
    requires 2 <= |fat| <= END_MARK && |fat'| == |fat| && c >= 2 && GoodChain(fat, c)
    requires forall x :: x in Chain(fat, c) && x < |fat| ==> fat'[x] == fat[x]
    ensures GoodChain(fat', c) && Chain(fat', c) == Chain(fat, c)
  {
    var p := Chain(fat, c);
    assert forall i :: 0 <= i < |p| ==> p[i] in p;
    assert Path(fat', p);
    PathIsChain(fat', p);
  }

  // ---- free clusters ----

  predicate Ascending(p: seq<nat>) {
    forall i, j :: 0 <= i < j < |p| ==> p[i] < p[j]
  }

  lemma {:induction false} FreeFromShape(fat: Fat, c: nat)
    ensures Ascending(FreeFrom(fat, c))
    ensures forall x :: x in FreeFrom(fat, c) <==> c <= x < |fat| && fat[x] == 0
    decreases |fat| - c
  {
    if c < |fat| {
      hide Ascending;
      FreeFromShape(fat, c + 1);
      var rest := FreeFrom(fat, c + 1);
      var all := FreeFrom(fat, c);
      if fat[c] == 0 {
        assert all == [c] + rest;
        Prepended(c, rest, all);
      } else {
        assert all == rest;
      }
    }
  }

  lemma Prepended(c: nat, rest: seq<nat>, all: seq<nat>)
    requires all == [c] + rest && Ascending(rest) && forall x :: x in rest ==> c < x
    ensures Ascending(all) && forall x :: x in all <==> x == c || x in rest
  {
    assert forall i :: 0 <= i < |rest| ==> rest[i] in rest;
  }

  lemma FreeShape(fat: Fat)
    ensures Ascending(Free(fat)) && Distinct(Free(fat)) && Within(fat, Free(fat))
    ensures forall x :: x in Free(fat) <==> 2 <= x < |fat| && fat[x] == 0
    ensures forall i :: 0 <= i < |Free(fat)| ==> 2 <= Free(fat)[i] < |fat| && fat[Free(fat)[i]] == 0
  {
    FreeFromShape(fat, 2);
    assert forall i :: 0 <= i < |Free(fat)| ==> Free(fat)[i] in Free(fat);
  }

  lemma {:induction false} AscendingUnique(p: seq<nat>, q: seq<nat>)
    requires Ascending(p) && Ascending(q)
    requires forall x :: x in p <==> x in q
    ensures p == q
  {
    assert |q| > 0 ==> q[0] in q;
    if |p| > 0 {
      assert p[0] in q;
      assert q[0] in p;
      assert p[0] == q[0];
      var p', q' := p[1..], q[1..];
      forall x ensures x in p' <==> x in q' {
        if x in p' { var i :| 0 <= i < |p'| && p'[i] == x; assert p[i + 1] == x && x in p && x > p[0]; }
        if x in q' { var i :| 0 <= i < |q'| && q'[i] == x; assert q[i + 1] == x && x in q && x > q[0]; }
      }
      AscendingUnique(p', q');
      assert p == [p[0]] + p' && q == [q[0]] + q';
    }
  }

  lemma InPosition(p: seq<nat>, c: nat)
    ensures c in p <==> Position(p, c) < |p|
  {
    if c in p {
      var i :| 0 <= i < |p| && p[i] == c;
    }
  }

  lemma LinkedFree(fat: Fat, p: seq<nat>, c: nat)
    requires Within(fat, p)
    ensures c < |fat| && Linked(fat, p)[c] == 0 <==> c < |fat| && fat[c] == 0 && c !in p
  {
    InPosition(p, c);
  }

  lemma SplitMembers(p: seq<nat>, j: nat, x: nat)
    requires Distinct(p) && j <= |p|
    ensures x in p[j..] <==> x in p && x !in p[..j]
  {
    assert p == p[..j] + p[j..];
    if x in p[..j] {
      var i :| 0 <= i < j && p[i] == x;
    }
  }

  /** Linking the first `j` free clusters leaves exactly the others free. */
  lemma FreeAfterLinking(fat: Fat, j: nat)
    requires j <= |Free(fat)|
    ensures Free(Linked(fat, Free(fat)[..j])) == Free(fat)[j..]
  {
    hide Position, Free, LinkedAt, Linked;
    var free, fat' := Free(fat), Linked(fat, Free(fat)[..j]);
    FreeShape(fat);
    FreeShape(fat');
    forall x: nat ensures x in Free(fat') <==> x in free[j..] {
      LinkedFree(fat, free[..j], x);
      SplitMembers(free, j, x);
    }
    AscendingUnique(Free(fat'), free[j..]);
  }

  /** One more cluster at the end of a chain: the previous last entry is
      redirected and the new one marked as the end. */
  lemma LinkOneMore(fat: Fat, p: seq<nat>, c: nat)
    requires Within(fat, p) && Distinct(p) && c !in p && c < |fat|
    ensures Linked(fat, p + [c])
            == (if p == [] then Linked(fat, p) else Linked(fat, p)[p[|p| - 1] := c])[c := LAST_MARK]
  {
    var q := p + [c];
    var r := (if p == [] then Linked(fat, p) else Linked(fat, p)[p[|p| - 1] := c])[c := LAST_MARK];
    forall x | 0 <= x < |fat| ensures r[x] == LinkedAt(fat, q, x) {
      PositionAppend(p, c, x);
      if p != [] { PositionIn(p, |p| - 1); }
    }
    assert Linked(fat, q) == r;
  }

  lemma {:induction false} PositionAppend(p: seq<nat>, c: nat, x: nat)
    ensures Position(p + [c], x) == if Position(p, x) < |p| then Position(p, x) else if x == c then |p| else |p| + 1
  {
    if p != [] {
      assert (p + [c])[1..] == p[1..] + [c];
      PositionAppend(p[1..], c, x);
    }
  }

  /** After linking distinct clusters, walking from the i-th one visits the
      rest of them in order. */
  lemma LinkedSuffix(fat: Fat, p: seq<nat>, i: nat)
    requires 2 <= |fat| <= END_MARK && Distinct(p) && Within(fat, p) && i < |p|
    ensures Path(Linked(fat, p), p[i..])
    ensures GoodChain(Linked(fat, p), p[i]) && Chain(Linked(fat, p), p[i]) == p[i..]
  {
    var q := p[i..];
    var fat' := Linked(fat, p);
    forall k | 0 <= k < |p| ensures fat'[p[k]] == if k + 1 < |p| then p[k + 1] else LAST_MARK {
      PositionIn(p, k);
    }
    assert Path(fat', q) by {
      forall k | 0 <= k < |q| - 1 ensures fat'[q[k]] == q[k + 1] {
        assert q[k] == p[i + k];
      }
      assert q[|q| - 1] == p[|p| - 1];
    }
    PathIsChain(fat', q);
  }

  /** Freeing a chain adds its length to the number of free clusters. */
  lemma FreeAfterClearing(fat: Fat, p: seq<nat>)
    requires Path(fat, p)
    ensures |Free(Cleared(fat, p))| == |Free(fat)| + |p|
  {
    var fat' := Cleared(fat, p);
    FreeShape(fat);
    FreeShape(fat');
    forall x | x in p ensures x !in Free(fat) && 2 <= x < |fat| {
      var i :| 0 <= i < |p| && p[i] == x;
      if i < |p| - 1 { assert fat[p[i]] == p[i + 1]; }
    }
    DistinctSize(Free(fat));
    DistinctSize(Free(fat'));
    DistinctSize(p);
    SameSize(Free(fat), Free(fat'), p);
  }

  lemma SameSize(a: seq<nat>, b: seq<nat>, c: seq<nat>)
    requires |Members(a)| == |a| && |Members(b)| == |b| && |Members(c)| == |c|
    requires forall x :: x in b <==> x in a || x in c
    requires forall x :: x in c ==> x !in a
    ensures |b| == |a| + |c|
  {
    assert Members(b) == Members(a) + Members(c);
    assert Members(a) * Members(c) == {};
  }

  /** Clearing what was just linked restores the table. */
  lemma ClearLinked(fat: Fat, p: seq<nat>)
    requires forall i :: 0 <= i < |p| ==> p[i] < |fat| && fat[p[i]] == 0
    ensures Cleared(Linked(fat, p), p) == fat
  {
    forall c | 0 <= c < |fat| ensures Cleared(Linked(fat, p), p)[c] == fat[c] {
      InPosition(p, c);
    }
  }
}
