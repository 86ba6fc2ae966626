/** When writes succeed, what deleting undoes, and what whole runs of writes
    and deletes keep. */
module FatRuns {
  import opened Basics
  import opened FatTable
  import opened FatDisk
  import opened FatFiles

  // ---- success and failure of a write ----

  /** The chain a write releases before it allocates. */
  function Released(d: Disk, key: seq<byte>): seq<nat>
    requires Names(d.dir)
  {
    Owned(d, Find(d.dir, key, 0))
  }

  lemma FreeAfterRelease(d: Disk, key: seq<byte>)
    requires Consistent(d)
    ensures |Free(Cleared(d.fat, Released(d, key)))| == |Free(d.fat)| + |Released(d, key)|
  {
    if Released(d, key) == [] {
      assert Cleared(d.fat, []) == d.fat;
    } else {
      FreeAfterClearing(d.fat, Released(d, key));
    }
  }

  /** A write succeeds exactly when the directory has a slot for it and the
      free clusters together with the file's old chain suffice. */
  lemma WriteSucceeds(d: Disk, key: seq<byte>, bytes: seq<byte>)
    requires Consistent(d)
    ensures WriteFile(d, key, bytes).ok <==>
            Slot(d, key) < |d.dir| && Need(|bytes|, d.unit) <= |Free(d.fat)| + |Released(d, key)|
  {
    FreeAfterRelease(d, key);
  }

  /** Clusters are conserved: what a write takes from the free list, net of the
      released chain, is what it was granted; so a write that fails because
      the directory is full loses the clusters of its data for good. */
  lemma WriteFreeSpace(d: Disk, key: seq<byte>, bytes: seq<byte>)
    requires Consistent(d)
    ensures var d' := WriteFile(d, key, bytes).disk;
            && |Free(d'.fat)| + |Granted(d, key, |bytes|)| == |Free(d.fat)| + |Released(d, key)|
            && |Granted(d, key, |bytes|)| == Smaller(Need(|bytes|, d.unit), |Free(d.fat)| + |Released(d, key)|)
  {
    FreeAfterRelease(d, key);
    FreeAfterLinking(Cleared(d.fat, Released(d, key)), |Granted(d, key, |bytes|)|);
  }

  lemma ErasedNeverFound(dir: seq<Entry>, key: seq<byte>)
    requires Names(dir) && |key| == 11 && key[0] == ERASED
    ensures Find(dir, key, 0) == |dir|
  {
  }

  /** After a successful write the name reads back what was written, unless
      its first byte is the mark of an erased slot: then it is not found. */
  lemma ReadBack(d: Disk, key: seq<byte>, bytes: seq<byte>)
    requires Consistent(d) && Key(key) && WriteFile(d, key, bytes).ok
    ensures Lookup(WriteFile(d, key, bytes).disk, key) == Some(bytes) <==> key[0] != ERASED
    ensures key[0] == ERASED ==> Lookup(WriteFile(d, key, bytes).disk, key) == None
  {
    if key[0] == ERASED {
      ErasedNeverFound(WriteFile(d, key, bytes).disk.dir, key);
    } else {
      WriteThenRead(d, key, bytes);
    }
  }

  /** A successful write leaves one entry with the size of what was written: the
      file's own, with its attribute and stamp as they were, or one in the first
      vacant slot with the archive attribute and no stamp. No other entry changes. */
  lemma WriteEntry(d: Disk, key: seq<byte>, bytes: seq<byte>)
    requires Consistent(d) && Key(key) && WriteFile(d, key, bytes).ok
    ensures var dir', old_ := WriteFile(d, key, bytes).disk.dir, Find(d.dir, key, 0);
            var i := if old_ < |d.dir| then old_ else Vacant(d.dir, 0);
            && |dir'| == |d.dir| && i < |dir'| && dir'[i].name == key && dir'[i].size == |bytes|
            && (if old_ < |d.dir| then dir'[i].attr == d.dir[i].attr && dir'[i].stamp == d.dir[i].stamp
                else dir'[i].attr == 0x20 && forall b :: b in dir'[i].stamp ==> b == 0)
            && forall j :: 0 <= j < |dir'| && j != i ==> dir'[j] == d.dir[j]
  {
    hide Granted, Need, Linked, Cleared, Filled;
  }

  /** A delete that succeeds puts 0xE5 for the first byte of the name; nothing
      else in the directory changes, and no byte of any cluster. */
  lemma DeleteEntry(d: Disk, key: seq<byte>)
    requires Consistent(d) && DeleteFile(d, key).ok
    ensures var d', i := DeleteFile(d, key).disk, Find(d.dir, key, 0);
            && i < |d.dir| == |d'.dir| && d'.data == d.data && d'.dir[i] == d.dir[i].(name := [0xE5] + key[1..])
            && forall j :: 0 <= j < |d.dir| && j != i ==> d'.dir[j] == d.dir[j]
  {
    hide Cleared;
  }

  /** Such a name: the single character 0xE5. */
  lemma ErasedNameIsLost()
    ensures var slot := Entry(seq(11, _ => 0), 0, seq(14, _ => 0), 0, 0);
            var d := Disk(512, [0xFF0, 0xFFF, 0], [slot], [seq(512, _ => 0)]);
            var w := WriteFile(d, Name83([0xE5]), [7]);
            Consistent(d) && w.ok && Lookup(w.disk, Name83([0xE5])) == None
  {
    var slot := Entry(seq(11, _ => 0), 0, seq(14, _ => 0), 0, 0);
    var d := Disk(512, [0xFF0, 0xFFF, 0], [slot], [seq(512, _ => 0)]);
    var key := Name83([0xE5]);
    assert key[0] == Upper(0xE5);
    assert Consistent(d);
    WriteSucceeds(d, key, [7]);
    FreeShape(d.fat);
    assert 2 in Free(d.fat);
    ReadBack(d, key, [7]);
  }

  /** What a rewrite that runs out of clusters leaves under its name: a later
      stretch of the new bytes, cut at the old size, or nothing when the old
      file was empty. */
  lemma {:induction false} LostContent(d: Disk, key: seq<byte>, bytes: seq<byte>)
    requires Consistent(d) && Key(key) && Find(d.dir, key, 0) < |d.dir|
    requires |Free(d.fat)| + |Released(d, key)| < Need(|bytes|, d.unit)
    ensures var e := d.dir[Find(d.dir, key, 0)];
            var p := Granted(d, key, |bytes|);
            var from := Position(p, e.first) * d.unit;
            && |p| * d.unit <= |bytes| && from <= |p| * d.unit
            && Lookup(WriteFile(d, key, bytes).disk, key)
               == Some(if e.first < 2 then [] else Take(bytes[from..|p| * d.unit], e.size))
  {
    hide GoodChain, Chain, Gather, Filled, Linked, Cleared, Free, Position;
    var i := Find(d.dir, key, 0);
    var e, p := d.dir[i], Granted(d, key, |bytes|);
    FreeAfterRelease(d, key);
    LostChain(d, key, bytes);
    InPosition(p, e.first);
    var k := Position(p, e.first);
    LostTail(d, key, bytes, k);
    GatherNone(Stored(d, key, bytes).data, []);
    var d' := WriteFile(d, key, bytes).disk;
    assert d'.dir == d.dir && d'.fat == Stored(d, key, bytes).fat && d'.data == Stored(d, key, bytes).data;
    if e.first < 2 {
      assert Take([], e.size) == [];
    }
  }

  lemma {:induction false} LostTail(d: Disk, key: seq<byte>, bytes: seq<byte>, k: nat)
    requires Consistent(d) && k <= |Granted(d, key, |bytes|)| < Need(|bytes|, d.unit)
    ensures var p := Granted(d, key, |bytes|);
            && k * d.unit <= |p| * d.unit <= |bytes|
            && Gather(Stored(d, key, bytes).data, p[k..]) == bytes[k * d.unit..|p| * d.unit]
  {
    hide GoodChain, Chain, Gather, Filled, Linked, Cleared, Free;
    var p := Granted(d, key, |bytes|);
    GrantedFree(d, key, |bytes|);
    NeedBounds(|bytes|, d.unit);
    ShorterBound(|p|, Need(|bytes|, d.unit), d.unit, |bytes|);
    if |p| > 0 { ShorterBound(|p| - 1, Need(|bytes|, d.unit), d.unit, |bytes|); }
    GatherFilled(d.data, p, bytes, d.unit, k);
    if k == |p| {
      GatherNone(Stored(d, key, bytes).data, p[k..]);
    } else {
      var g := Gather(Stored(d, key, bytes).data, p[k..]);
      assert g == g[..|p| * d.unit - k * d.unit];
    }
  }

  // ---- deleting ----

  lemma DeleteOnlySlot(d: Disk, key: seq<byte>)
    requires Consistent(d)
    ensures OnlySlot(d, DeleteFile(d, key).disk, Find(d.dir, key, 0))
  {
    var i := Find(d.dir, key, 0);
    var d' := DeleteFile(d, key).disk;
    forall j | 0 <= j < |d.dir| && j != i && Listed(d.dir[j]) ensures Kept(d, d', j) {
      if i < |d.dir| && d.dir[j].first >= 2 {
        forall x | x in Chain(d.fat, d.dir[j].first) && x < |d.fat| ensures d'.fat[x] == d.fat[x] {
          Apart(d, i, j, x);
        }
        ChainFrame(d.fat, d'.fat, d.dir[j].first);
      }
    }
  }

  /** Deleting keeps the volume consistent, succeeds exactly when the name is
      found, and removes that name and no other. */
  lemma DeleteRemoves(d: Disk, key: seq<byte>, n: seq<byte>)
    requires Consistent(d)
    ensures Consistent(DeleteFile(d, key).disk)
    ensures DeleteFile(d, key).ok <==> Lookup(d, key) != None
    ensures Lookup(DeleteFile(d, key).disk, n) == if n == key then None else Lookup(d, n)
  {
    var i := Find(d.dir, key, 0);
    var d' := DeleteFile(d, key).disk;
    DeleteOnlySlot(d, key);
    assert SlotFine(d, d', i) by {
      FindFirst(d.dir, key, 0);
    }
    SlotConsistent(d, d', i);
    if n == key {
      forall j | 0 <= j < |d.dir| ensures !(Listed(d'.dir[j]) && d'.dir[j].name == n) {
        FindListed(d.dir, key, j);
      }
      FindNone(d'.dir, n);
    } else {
      SlotLookup(d, d', i, n);
    }
  }

  lemma DeleteFreeSpace(d: Disk, key: seq<byte>)
    requires Consistent(d)
    ensures |Free(DeleteFile(d, key).disk.fat)| == |Free(d.fat)| + |Released(d, key)|
  {
    FreeAfterRelease(d, key);
    if Find(d.dir, key, 0) == |d.dir| { assert Released(d, key) == []; }
  }

  /** Writing a new file and deleting it again restores every table entry and
      every name. */
  lemma WriteThenDelete(d: Disk, key: seq<byte>, bytes: seq<byte>, n: seq<byte>)
    requires Consistent(d) && Key(key) && key[0] != ERASED
    requires Lookup(d, key) == None && WriteFile(d, key, bytes).ok
    ensures var d' := DeleteFile(WriteFile(d, key, bytes).disk, key);
            d'.ok && d'.disk.fat == d.fat && Lookup(d'.disk, n) == Lookup(d, n)
  {
    var w := WriteFile(d, key, bytes).disk;
    var s, p := Slot(d, key), Granted(d, key, |bytes|);
    WriteConsistent(d, key, bytes);
    WriteThenRead(d, key, bytes);
    DeleteRemoves(w, key, n);
    if n != key { WriteElsewhere(d, key, bytes, n); }
    assert Owned(d, Find(d.dir, key, 0)) == [];
    assert Cleared(d.fat, []) == d.fat;
    WrittenEntry(d, key, bytes);
    FindListed(w.dir, key, s);
    GrantedChain(d, key, bytes);
    GrantedFree(d, key, |bytes|);
    ClearLinked(d.fat, p);
  }

  // ---- whole runs ----

  datatype Request =
    | Write(name: seq<byte>, bytes: seq<byte>)
    | Delete(name: seq<byte>)

  /** File names are C strings. */
  predicate Proper(rs: seq<Request>) {
    forall i :: 0 <= i < |rs| ==> 0 !in rs[i].name
  }

  function Step(d: Disk, r: Request): (o: Outcome)
    requires d.unit > 0 && Names(d.dir)
    ensures o.disk.unit == d.unit && Names(o.disk.dir)
  {
    match r
    case Write(name, bytes) => WriteFile(d, Name83(name), bytes)
    case Delete(name) => DeleteFile(d, Name83(name))
  }

  /** What one request may do to the contents of the name `n`, seen from
      outside: nothing when it is about another name; the requested effect
      when it succeeds; and a failed write may only spoil a file that exists. */
  predicate Effect(r: Request, ok: bool, n: seq<byte>, before: Option<seq<byte>>, after: Option<seq<byte>>) {
    if Name83(r.name) != n then after == before
    else match r
      case Write(_, bytes) =>
        if n[0] == ERASED then after == None
        else if ok then after == Some(bytes)
        else (after == None <==> before == None)
      case Delete(_) => after == None && (ok <==> before != None)
  }

  lemma {:induction false} StepEffect(d: Disk, r: Request, n: seq<byte>)
    requires Consistent(d) && 0 !in r.name
    ensures var o := Step(d, r);
            Consistent(o.disk) && o.disk.unit == d.unit
            && Effect(r, o.ok, n, Lookup(d, n), Lookup(o.disk, n))
  {
    var key := Name83(r.name);
    NameIsKey(r.name);
    match r
    case Write(_, bytes) =>
      WriteConsistent(d, key, bytes);
      if n != key {
        WriteElsewhere(d, key, bytes, n);
      } else if WriteFile(d, key, bytes).ok {
        ReadBack(d, key, bytes);
      } else if key[0] == ERASED {
        ErasedNeverFound(WriteFile(d, key, bytes).disk.dir, key);
      } else {
        assert WriteFile(d, key, bytes).disk.dir == d.dir;
      }
    case Delete(_) =>
      DeleteRemoves(d, key, n);
  }

  /** The disk after a run, whichever of its requests succeed. */
  function Run(d: Disk, rs: seq<Request>): (r: Disk)
    requires d.unit > 0 && Names(d.dir)
    ensures r.unit == d.unit && Names(r.dir)
    decreases |rs|
  {
    if rs == [] then d else Step(Run(d, rs[..|rs| - 1]), rs[|rs| - 1]).disk
  }

  lemma {:induction false} RunConsistent(d: Disk, rs: seq<Request>)
    requires Consistent(d) && Proper(rs)
    ensures Consistent(Run(d, rs))
    decreases |rs|
  {
    if rs != [] {
      RunConsistent(d, rs[..|rs| - 1]);
      StepEffect(Run(d, rs[..|rs| - 1]), rs[|rs| - 1], []);
    }
  }

  /** Throughout every run, every request has its effect and nothing else. */
  lemma {:induction false} RunEffect(d: Disk, rs: seq<Request>, i: nat, n: seq<byte>)
    requires Consistent(d) && Proper(rs) && i < |rs|
    ensures var before, after := Run(d, rs[..i]), Run(d, rs[..i + 1]);
            && Consistent(before) && Consistent(after)
            && Effect(rs[i], Step(before, rs[i]).ok, n, Lookup(before, n), Lookup(after, n))
  {
    RunConsistent(d, rs[..i]);
    assert rs[..i + 1][..i] == rs[..i];
    StepEffect(Run(d, rs[..i]), rs[i], n);
  }

  /** A name no request mentions reads the same at the end of any run. */
  lemma {:induction false} RunElsewhere(d: Disk, rs: seq<Request>, n: seq<byte>)
    requires Consistent(d) && Proper(rs)
    requires forall i :: 0 <= i < |rs| ==> Name83(rs[i].name) != n
    ensures Consistent(Run(d, rs)) && Lookup(Run(d, rs), n) == Lookup(d, n)
    decreases |rs|
  {
    if rs != [] {
      RunElsewhere(d, rs[..|rs| - 1], n);
      StepEffect(Run(d, rs[..|rs| - 1]), rs[|rs| - 1], n);
    }
  }

  lemma ConsistentShape(d: Disk)
    requires Consistent(d)
    ensures d.unit > 0 && Names(d.dir)
  {
  }

  /** A file written and, after any work on other names, read again: the bytes
      written, or nothing when the name looks erased. */
  lemma {:induction false} WriteWorkRead(d: Disk, name: seq<byte>, bytes: seq<byte>, rs: seq<Request>)
    requires Consistent(d) && 0 !in name && WriteFile(d, Name83(name), bytes).ok
    requires Proper(rs) && forall i :: 0 <= i < |rs| ==> Name83(rs[i].name) != Name83(name)
    ensures var d' := Run(WriteFile(d, Name83(name), bytes).disk, rs);
            && Consistent(d')
            && Lookup(d', Name83(name)) == if |name| > 0 && name[0] == ERASED then None else Some(bytes)
  {
    hide Consistent, WriteFile, Lookup, Run;
    ConsistentShape(d);
    NameIsKey(name);
    WriteConsistent(d, Name83(name), bytes);
    ReadBack(d, Name83(name), bytes);
    RunElsewhere(WriteFile(d, Name83(name), bytes).disk, rs, Name83(name));
  }
}
