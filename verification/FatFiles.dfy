/** The volume refines a map from names to byte strings: consistency is kept by
    every operation, reads see what was written, and no other file changes. */
module FatFiles {
  import opened Basics
  import opened FatTable
  import opened FatDisk

  // ---- looking names up ----

  lemma {:induction false} FindFirst(dir: seq<Entry>, n: seq<byte>, i: nat)
    requires Names(dir) && i <= |dir|
    ensures forall j :: i <= j < Find(dir, n, i) && Listed(dir[j]) && dir[j].name == n ==>
              exists k :: i <= k < j && dir[k].name[0] == UNUSED
    decreases |dir| - i
  {
    if i < |dir| && dir[i].name[0] != UNUSED && !(Listed(dir[i]) && dir[i].name == n) {
      FindFirst(dir, n, i + 1);
    }
  }

  /** In a tidy directory the search finds the one listed slot of that name. */
  lemma FindListed(dir: seq<Entry>, n: seq<byte>, j: nat)
    requires Names(dir) && Tidy(dir) && j < |dir|
    ensures Find(dir, n, 0) == j <==> Listed(dir[j]) && dir[j].name == n
  {
    FindFirst(dir, n, 0);
  }

  lemma FindNone(dir: seq<Entry>, n: seq<byte>)
    requires Names(dir) && Tidy(dir)
    ensures Find(dir, n, 0) == |dir| <==> forall j :: 0 <= j < |dir| ==> !(Listed(dir[j]) && dir[j].name == n)
  {
    forall j | 0 <= j < |dir| && Find(dir, n, 0) == |dir| ensures !(Listed(dir[j]) && dir[j].name == n) {
      FindListed(dir, n, j);
    }
  }

  // ---- what a write leaves alone ----

  lemma {:induction false} GatherFrame(data: seq<seq<byte>>, data': seq<seq<byte>>, p: seq<nat>)
    requires |data| == |data'|
    requires forall i :: 0 <= i < |p| ==> 2 <= p[i] < |data| + 2 && data[p[i] - 2] == data'[p[i] - 2]
    ensures Gather(data, p) == Gather(data', p)
  {
    if p != [] {
      var q := p[1..];
      assert forall i :: 0 <= i < |q| ==> q[i] == p[i + 1];
      GatherFrame(data, data', q);
    }
  }

  lemma PathEntryNotFree(fat: Fat, p: seq<nat>, x: nat)
    requires Path(fat, p) && x in p
    ensures 2 <= x < |fat| && fat[x] != 0
  {
    var i :| 0 <= i < |p| && p[i] == x;
    if i < |p| - 1 { assert fat[p[i]] == p[i + 1]; }
  }

  /** The clusters granted to a write were free, or were the file's own. */
  lemma GrantedFree(d: Disk, key: seq<byte>, n: nat)
    requires Consistent(d)
    ensures var p := Granted(d, key, n);
            var fat' := Cleared(d.fat, Owned(d, Find(d.dir, key, 0)));
            Ascending(p) && Distinct(p) && Within(d.fat, p) && (forall x :: x in p ==> x in Free(fat'))
            && forall i :: 0 <= i < |p| ==> fat'[p[i]] == 0
  {
    FreeShape(Cleared(d.fat, Owned(d, Find(d.dir, key, 0))));
  }

  /** A file in slot `j` other than the one being rewritten keeps its chain
      and its bytes, whatever is granted to the write. */
  lemma OthersKept(d: Disk, i: nat, p: seq<nat>, bytes: seq<byte>, j: nat)
    requires Consistent(d) && j < |d.dir| && Listed(d.dir[j]) && i != j
    requires i < |d.dir| ==> Listed(d.dir[i])
    requires var fat1 := Cleared(d.fat, Owned(d, i));
             forall x :: x in p ==> x < |d.fat| && fat1[x] == 0
    ensures var fat2 := Linked(Cleared(d.fat, Owned(d, i)), p);
            var q := Owned(d, j);
            && GoodChain(fat2, d.dir[j].first) && Chain(fat2, d.dir[j].first) == q
            && Disjoint(q, p) && Disjoint(p, q)
            && Gather(Filled(d.data, p, bytes, d.unit), q) == Gather(d.data, q)
  {
    var e := d.dir[j];
    var prev, q := Owned(d, i), Owned(d, j);
    var fat1 := Cleared(d.fat, prev);
    var fat2 := Linked(fat1, p);
    if e.first >= 2 {
      forall x | x in q ensures 2 <= x < |d.fat| && x !in prev && x !in p {
        PathEntryNotFree(d.fat, q, x);
        Apart(d, i, j, x);
        assert fat1[x] == d.fat[x];
      }
      Untouched(d.fat, prev, p, q);
      ChainFrame(d.fat, fat2, e.first);
      UntouchedData(d.data, p, bytes, d.unit, q);
    }
  }

  lemma Apart(d: Disk, i: nat, j: nat, x: nat)
    requires Consistent(d) && j < |d.dir| && Listed(d.dir[j]) && i != j
    requires i < |d.dir| ==> Listed(d.dir[i])
    requires x in Owned(d, j)
    ensures x !in Owned(d, i)
  {
    if i < |d.dir| {
      assert Disjoint(Owned(d, i), Owned(d, j)) || Disjoint(Owned(d, j), Owned(d, i));
    }
  }

  lemma Untouched(fat: Fat, prev: seq<nat>, p: seq<nat>, q: seq<nat>)
    requires forall x :: x in q ==> x < |fat| && x !in prev && x !in p
    ensures forall x :: x in q ==> Linked(Cleared(fat, prev), p)[x] == fat[x]
    ensures Disjoint(q, p) && Disjoint(p, q)
  {
    forall x | x in q ensures Linked(Cleared(fat, prev), p)[x] == fat[x] {
      InPosition(p, x);
    }
    forall a, b | 0 <= a < |q| && 0 <= b < |p| ensures q[a] != p[b] { assert q[a] in q; }
  }

  lemma {:induction false} UntouchedData(data: seq<seq<byte>>, p: seq<nat>, bytes: seq<byte>, unit: nat, q: seq<nat>)
    requires forall x :: x in q ==> 2 <= x < |data| + 2 && x !in p
    ensures Gather(Filled(data, p, bytes, unit), q) == Gather(data, q)
  {
    var data' := Filled(data, p, bytes, unit);
    forall i | 0 <= i < |q| ensures 2 <= q[i] < |data| + 2 && data[q[i] - 2] == data'[q[i] - 2] {
      assert q[i] in q;
      InPosition(p, q[i]);
    }
    GatherFrame(data, data', q);
  }

  // ---- what a write stores ----

  /** Reading the clusters of a filled chain from its i-th one on gives the
      bytes laid out there. */
  lemma {:induction false} GatherFilled(data: seq<seq<byte>>, p: seq<nat>, bytes: seq<byte>, unit: nat, i: nat)
    requires unit > 0 && Distinct(p) && i <= |p|
    requires forall k :: 0 <= k < |data| ==> |data[k]| == unit
    requires forall k :: 0 <= k < |p| ==> 2 <= p[k] < |data| + 2
    requires |p| > 0 ==> (|p| - 1) * unit < |bytes|
    ensures i * unit <= |p| * unit
    ensures var g := Gather(Filled(data, p, bytes, unit), p[i..]);
            var stop := Smaller(|p| * unit, |bytes|);
            && |g| == |p| * unit - i * unit
            && (i < |p| ==> i * unit < stop && g[..stop - i * unit] == bytes[i * unit..stop])
    decreases |p| - i
  {
    hide Gather, Filled, FilledAt, Over, Piece, Take, Distinct;
    if i < |p| {
      GatherFilled(data, p, bytes, unit, i + 1);
      FilledHere(data, p, bytes, unit, i);
      Multiples(i, |p|, unit);
      OverPiece(data[p[i] - 2], bytes, i, unit);
      var here := Filled(data, p, bytes, unit)[p[i] - 2];
      var rest := Gather(Filled(data, p, bytes, unit), p[i + 1..]);
      JoinPrefix(here, rest, bytes, i * unit, unit, |p| * unit);
    } else {
      GatherNone(Filled(data, p, bytes, unit), p[i..]);
    }
  }

  lemma GatherNone(data: seq<seq<byte>>, p: seq<nat>)
    requires |p| == 0
    ensures Gather(data, p) == []
  {
  }

  lemma Multiples(i: nat, m: nat, unit: nat)
    requires i < m
    ensures i * unit + unit == (i + 1) * unit <= m * unit
    ensures i * unit <= (m - 1) * unit
    ensures i + 1 < m ==> (i + 1) * unit <= (m - 1) * unit
  {
    SumTimes(i, 1, unit);
    Grows(i + 1, m, unit);
    Grows(i, m - 1, unit);
    if i + 1 < m { Grows(i + 1, m - 1, unit); }
  }

  lemma FilledHere(data: seq<seq<byte>>, p: seq<nat>, bytes: seq<byte>, unit: nat, i: nat)
    requires Distinct(p) && i < |p| && 2 <= p[i] < |data| + 2
    ensures Filled(data, p, bytes, unit)[p[i] - 2] == Over(data[p[i] - 2], Piece(bytes, i, unit))
    ensures Gather(Filled(data, p, bytes, unit), p[i..])
            == Filled(data, p, bytes, unit)[p[i] - 2] + Gather(Filled(data, p, bytes, unit), p[i + 1..])
  {
    PositionIn(p, i);
    assert p[i..][0] == p[i] && p[i..][1..] == p[i + 1..];
  }

  lemma OverPiece(under: seq<byte>, bytes: seq<byte>, i: nat, unit: nat)
    requires |under| == unit && i * unit <= |bytes|
    ensures var r := Over(under, Piece(bytes, i, unit));
            var stop := Smaller(i * unit + unit, |bytes|);
            |r| == unit && r[..stop - i * unit] == bytes[i * unit..stop]
  {
    var a := i * unit;
    assert Piece(bytes, i, unit) == bytes[a..Smaller(a + unit, |bytes|)];
  }

  /** A block holding the next bytes, followed by what holds the rest. */
  lemma JoinPrefix(here: seq<byte>, rest: seq<byte>, bytes: seq<byte>, a: nat, unit: nat, total: nat)
    requires |here| == unit && a + unit <= total && |rest| == total - a - unit && a <= |bytes|
    requires here[..Smaller(a + unit, |bytes|) - a] == bytes[a..Smaller(a + unit, |bytes|)]
    requires a + unit < total ==> a + unit < |bytes|
    requires a + unit < Smaller(total, |bytes|) ==>
               rest[..Smaller(total, |bytes|) - a - unit] == bytes[a + unit..Smaller(total, |bytes|)]
    ensures (here + rest)[..Smaller(total, |bytes|) - a] == bytes[a..Smaller(total, |bytes|)]
  {
    var stop := Smaller(total, |bytes|);
    if a + unit < stop {
      assert (here + rest)[..stop - a] == here + rest[..stop - a - unit];
      assert bytes[a..stop] == bytes[a..a + unit] + bytes[a + unit..stop];
    } else {
      assert (here + rest)[..stop - a] == here[..stop - a];
    }
  }

  lemma NeedBounds(n: nat, unit: nat)
    requires unit > 0
    ensures n <= Need(n, unit) * unit
    ensures Need(n, unit) > 0 ==> (Need(n, unit) - 1) * unit < n
    ensures Need(n, unit) == 0 <==> n == 0
  {
  }

  lemma ShorterBound(k: nat, m: nat, unit: nat, n: nat)
    requires k < m && unit > 0 && (m - 1) * unit < n
    ensures k * unit < n
  {
    assert k * unit <= (m - 1) * unit;
  }

  // ---- one slot changes ----

  /** `d'` differs from `d` in slot `s` at most, and every other listed file
      keeps its chain and its bytes. */
  ghost predicate OnlySlot(d: Disk, d': Disk, s: nat) {
    && Consistent(d) && Shape(d') && d'.unit == d.unit && |d'.fat| == |d.fat|
    && |d'.dir| == |d.dir|
    && (forall j :: 0 <= j < |d.dir| && j != s ==> d'.dir[j] == d.dir[j])
    && (forall j :: 0 <= j < |d.dir| && j != s && Listed(d.dir[j]) ==> Kept(d, d', j))
  }

  ghost predicate Kept(d: Disk, d': Disk, j: nat)
    requires j < |d.dir|
  {
    && GoodChain(d'.fat, d.dir[j].first)
    && Chain(d'.fat, d.dir[j].first) == Owned(d, j)
    && Gather(d'.data, Owned(d, j)) == Gather(d.data, Owned(d, j))
  }

  /** The new contents of slot `s` fit the rest of the directory. */
  ghost predicate SlotFine(d: Disk, d': Disk, s: nat)
    requires Names(d.dir) && Names(d'.dir) && |d'.dir| == |d.dir|
  {
    s < |d.dir| ==>
      && d'.dir[s].name[0] != UNUSED
      && (forall j :: 0 <= j < s ==> d.dir[j].name[0] != UNUSED)
      && (Listed(d'.dir[s]) ==>
            && GoodChain(d'.fat, d'.dir[s].first)
            && (forall j :: 0 <= j < |d.dir| && j != s && Listed(d.dir[j]) ==>
                              d.dir[j].name != d'.dir[s].name && Disjoint(Owned(d', s), Owned(d, j))))
  }

  lemma SlotConsistent(d: Disk, d': Disk, s: nat)
    requires OnlySlot(d, d', s) && SlotFine(d, d', s)
    ensures Consistent(d')
  {
    hide GoodChain, Chain, Listed, Gather;
    assert forall j :: 0 <= j < |d.dir| && j != s ==> Owned(d', j) == Chain(d'.fat, d.dir[j].first);
    assert Tidy(d'.dir);
    forall i, j | 0 <= i < j < |d.dir| && Listed(d'.dir[i]) && Listed(d'.dir[j])
      ensures Disjoint(Owned(d', i), Owned(d', j))
    {
      if j == s {
        assert Disjoint(Owned(d', s), Owned(d, i));
        assert Disjoint(Owned(d, i), Owned(d', s));
      }
    }
  }

  /** Every name but the ones in slot `s`, before and after, reads as before. */
  lemma SlotLookup(d: Disk, d': Disk, s: nat, n: seq<byte>)
    requires OnlySlot(d, d', s) && Consistent(d')
    requires s < |d.dir| ==> !(Listed(d.dir[s]) && d.dir[s].name == n) && !(Listed(d'.dir[s]) && d'.dir[s].name == n)
    ensures Lookup(d', n) == Lookup(d, n)
  {
    var i := Find(d.dir, n, 0);
    if i < |d.dir| {
      assert Kept(d, d', i);
      FindListed(d'.dir, n, i);
    } else {
      FindNone(d.dir, n);
      FindNone(d'.dir, n);
    }
  }

  // ---- writing ----

  /** The slot a write uses. */
  function Slot(d: Disk, key: seq<byte>): nat
    requires Names(d.dir)
  {
    var i := Find(d.dir, key, 0);
    if i < |d.dir| then i else Vacant(d.dir, 0)
  }

  /** The table and data a write leaves, successful or not. */
  function Stored(d: Disk, key: seq<byte>, bytes: seq<byte>): Disk
    requires d.unit > 0 && Names(d.dir)
  {
    var p := Granted(d, key, |bytes|);
    d.(fat := Linked(Cleared(d.fat, Owned(d, Find(d.dir, key, 0))), p), data := Filled(d.data, p, bytes, d.unit))
  }

  lemma FilledShape(d: Disk, p: seq<nat>, bytes: seq<byte>)
    requires Shape(d)
    ensures forall k :: 0 <= k < |d.data| ==> |Filled(d.data, p, bytes, d.unit)[k]| == d.unit
  {
    forall k | 0 <= k < |d.data| ensures |FilledAt(d.data, p, bytes, d.unit, k)| == d.unit {
    }
  }

  lemma {:induction false} WriteOnlySlot(d: Disk, key: seq<byte>, bytes: seq<byte>)
    requires Consistent(d) && Key(key)
    ensures OnlySlot(d, Stored(d, key, bytes), Find(d.dir, key, 0))
    ensures OnlySlot(d, WriteFile(d, key, bytes).disk, Slot(d, key))
  {
    var i := Find(d.dir, key, 0);
    var p := Granted(d, key, |bytes|);
    GrantedFree(d, key, |bytes|);
    FilledShape(d, p, bytes);
    var d' := Stored(d, key, bytes);
    forall j | 0 <= j < |d.dir| && j != i && Listed(d.dir[j]) ensures Kept(d, d', j) {
      forall x | x in p ensures x < |d.fat| && Cleared(d.fat, Owned(d, i))[x] == 0 {
        var k :| 0 <= k < |p| && p[k] == x;
      }
      OthersKept(d, i, p, bytes, j);
    }
    var d2 := WriteFile(d, key, bytes).disk;
    assert d2.fat == d'.fat && d2.data == d'.data;
    forall j | 0 <= j < |d.dir| && j != Slot(d, key) && Listed(d.dir[j]) ensures Kept(d, d2, j) {
      assert j != i;
      assert Kept(d, d', j);
    }
  }

  /** The clusters granted to a write and those of every other file are apart. */
  lemma GrantedApart(d: Disk, key: seq<byte>, bytes: seq<byte>, j: nat)
    requires Consistent(d) && j < |d.dir| && Listed(d.dir[j]) && j != Find(d.dir, key, 0)
    ensures Disjoint(Granted(d, key, |bytes|), Owned(d, j))
  {
    var i := Find(d.dir, key, 0);
    var p := Granted(d, key, |bytes|);
    GrantedFree(d, key, |bytes|);
    forall x | x in p ensures x < |d.fat| && Cleared(d.fat, Owned(d, i))[x] == 0 {
      var k :| 0 <= k < |p| && p[k] == x;
    }
    OthersKept(d, i, p, bytes, j);
  }

  /** The chain a successful write gives its file is exactly what was granted. */
  lemma GrantedChain(d: Disk, key: seq<byte>, bytes: seq<byte>)
    requires Consistent(d)
    ensures var p := Granted(d, key, |bytes|);
            var fat' := Stored(d, key, bytes).fat;
            var first := if p == [] then 0 else p[0];
            GoodChain(fat', first) && Chain(fat', first) == p
  {
    var p := Granted(d, key, |bytes|);
    GrantedFree(d, key, |bytes|);
    if p != [] {
      LinkedSuffix(Cleared(d.fat, Owned(d, Find(d.dir, key, 0))), p, 0);
    }
  }

  /** When a rewrite runs out of clusters, the file's slot keeps pointing into
      the lost clusters, of which it now owns those from its old first one on. */
  lemma LostChain(d: Disk, key: seq<byte>, bytes: seq<byte>)
    requires Consistent(d) && Find(d.dir, key, 0) < |d.dir|
    requires |Granted(d, key, |bytes|)| < Need(|bytes|, d.unit)
    ensures var p := Granted(d, key, |bytes|);
            var first := d.dir[Find(d.dir, key, 0)].first;
            var fat' := Stored(d, key, bytes).fat;
            && GoodChain(fat', first)
            && (first >= 2 ==> first in p)
            && Chain(fat', first) == if first < 2 then [] else p[Position(p, first)..]
  {
    var i := Find(d.dir, key, 0);
    var p := Granted(d, key, |bytes|);
    var fat1 := Cleared(d.fat, Owned(d, i));
    var first := d.dir[i].first;
    GrantedFree(d, key, |bytes|);
    FreeShape(fat1);
    assert p == Free(fat1);
    if first >= 2 {
      var q := Owned(d, i);
      assert q[0] == first && q[0] in q;
      PathEntryNotFree(d.fat, q, first);
      assert fat1[first] == 0;
      InPosition(p, first);
      LinkedSuffix(fat1, p, Position(p, first));
    }
  }

  lemma VacantSlot(d: Disk, key: seq<byte>)
    requires Consistent(d) && Key(key)
    ensures var s := Slot(d, key);
            && (forall j :: 0 <= j < s ==> d.dir[j].name[0] != UNUSED)
            && (s < |d.dir| && s != Find(d.dir, key, 0) ==> !Listed(d.dir[s]))
            && (forall j :: 0 <= j < |d.dir| && j != s && Listed(d.dir[j]) ==> d.dir[j].name != key)
            && (forall j :: 0 <= j < |d.dir| && j != s && Listed(d.dir[j]) ==> j != Find(d.dir, key, 0))
  {
    forall j | 0 <= j < |d.dir| && Listed(d.dir[j]) ensures d.dir[j].name == key <==> Find(d.dir, key, 0) == j {
      FindListed(d.dir, key, j);
    }
  }

  /** Writing keeps the volume consistent, whether it succeeds or not. */
  lemma {:induction false} WriteConsistent(d: Disk, key: seq<byte>, bytes: seq<byte>)
    requires Consistent(d) && Key(key)
    ensures Consistent(WriteFile(d, key, bytes).disk)
  {
    hide GoodChain, Chain, Gather, Filled, Linked, Cleared, OnlySlot;
    var d' := WriteFile(d, key, bytes).disk;
    WriteOnlySlot(d, key, bytes);
    VacantSlot(d, key);
    if WriteFile(d, key, bytes).ok {
      GrantedChain(d, key, bytes);
      forall j | 0 <= j < |d.dir| && j != Slot(d, key) && Listed(d.dir[j])
        ensures Disjoint(Owned(d', Slot(d, key)), Owned(d, j))
      {
        GrantedApart(d, key, bytes, j);
      }
      SlotConsistent(d, d', Slot(d, key));
    } else if |Granted(d, key, |bytes|)| < Need(|bytes|, d.unit) && Find(d.dir, key, 0) < |d.dir| {
      LostChain(d, key, bytes);
      forall j | 0 <= j < |d.dir| && j != Slot(d, key) && Listed(d.dir[j])
        ensures Disjoint(Owned(d', Slot(d, key)), Owned(d, j))
      {
        GrantedApart(d, key, bytes, j);
      }
      SlotConsistent(d, d', Slot(d, key));
    } else {
      SlotConsistent(d, d', Find(d.dir, key, 0));
    }
  }

  lemma {:induction false} GrantedHolds(d: Disk, key: seq<byte>, bytes: seq<byte>)
    requires Consistent(d) && |Granted(d, key, |bytes|)| == Need(|bytes|, d.unit)
    ensures Take(Gather(Stored(d, key, bytes).data, Granted(d, key, |bytes|)), |bytes|) == bytes
  {
    hide GoodChain, Gather, Chain, Linked, Cleared, Filled;
    var p := Granted(d, key, |bytes|);
    GrantedFree(d, key, |bytes|);
    NeedBounds(|bytes|, d.unit);
    if p == [] {
      GatherNone(Stored(d, key, bytes).data, p);
    } else {
      GatherFilled(d.data, p, bytes, d.unit, 0);
      assert p[0..] == p;
      assert bytes[0 * d.unit..|bytes|] == bytes;
    }
  }

  lemma WrittenEntry(d: Disk, key: seq<byte>, bytes: seq<byte>)
    requires Consistent(d) && Key(key) && WriteFile(d, key, bytes).ok
    ensures var e, p := WriteFile(d, key, bytes).disk.dir[Slot(d, key)], Granted(d, key, |bytes|);
            && e.name == key && (Listed(e) <==> key[0] != ERASED)
            && e.first == (if p == [] then 0 else p[0]) && e.size == |bytes|
            && |p| == Need(|bytes|, d.unit)
  {
  }

  /** A successful write makes the name read back exactly what was written. */
  lemma WriteThenRead(d: Disk, key: seq<byte>, bytes: seq<byte>)
    requires Consistent(d) && Key(key) && key[0] != ERASED && WriteFile(d, key, bytes).ok
    ensures Lookup(WriteFile(d, key, bytes).disk, key) == Some(bytes)
  {
    var d' := WriteFile(d, key, bytes).disk;
    WriteConsistent(d, key, bytes);
    WrittenEntry(d, key, bytes);
    GrantedChain(d, key, bytes);
    GrantedHolds(d, key, bytes);
    FindListed(d'.dir, key, Slot(d, key));
    assert d'.data == Stored(d, key, bytes).data && d'.fat == Stored(d, key, bytes).fat;
  }

  /** Every other name reads as before, even when the write fails. */
  lemma {:induction false} WriteElsewhere(d: Disk, key: seq<byte>, bytes: seq<byte>, n: seq<byte>)
    requires Consistent(d) && Key(key) && n != key
    ensures Lookup(WriteFile(d, key, bytes).disk, n) == Lookup(d, n)
  {
    WriteConsistent(d, key, bytes);
    WriteOnlySlot(d, key, bytes);
    VacantSlot(d, key);
    SlotLookup(d, WriteFile(d, key, bytes).disk, Slot(d, key), n);
  }
}
