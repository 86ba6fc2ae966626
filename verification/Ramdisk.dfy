/** The 256 KB ramdisk: how it is formatted and how files are placed on it
    before the driver takes over. */
module Ramdisk {
  import opened Basics
  import opened FatTable
  import opened FatDisk
  import opened FatFiles
  import opened FatLayout
  import opened FatVolume

  const SIZE: nat := 262144
  const SECTOR: nat := 512
  const SLOTS: nat := 32
  const CLUSTERS: nat := 507

  const PLACE: Layout := Layout(512, 1536, 2560, 32, 512, 507)
  const SHIPPED: Geometry := Geometry(512, 1, 1, 1, 32, 512, 2)

  lemma ShippedSound()
    ensures Sound(SHIPPED, SIZE) && LayoutOf(SHIPPED) == PLACE && Fits(PLACE, SIZE)
  {
    SoundFits(SHIPPED, SIZE);
  }

  /** The volume the disk driver formats: 2040 clusters, but a table of 1024 entries. */
  const ON_DISK: Geometry := Geometry(512, 1, 1, 1, 64, 2048, 3)

  /** It does not meet the hypothesis: the table entry of cluster 1024 already
      lies in the first directory slot. */
  lemma OnDiskUnsound(size: nat)
    ensures !Sound(ON_DISK, size)
    ensures var l := LayoutOf(ON_DISK);
            l.clusters == 2040 && EntryOffset(l, 1024) == SlotOffset(l, 0)
  {
  }

  /** A disk under construction: clusters from `next` on and slots from `slot`
      on have never been used. */
  datatype Draft = Draft(disk: Disk, next: nat, slot: nat)

  datatype File = File(name: seq<byte>, ext: seq<byte>, bytes: seq<byte>)

  function KeyOf(f: File): (k: seq<byte>)
    ensures |k| == 11
  {
    Padded(f.name, 8) + Padded(f.ext, 3)
  }

  function Range(from: nat, n: nat): (p: seq<nat>)
    ensures |p| == n
    ensures forall i :: 0 <= i < n ==> p[i] == from + i
  {
    seq(n, i requires 0 <= i < n => from + i)
  }

  /** A chain still waiting for its next cluster: the last entry already names it. */
  function Open(fat: Fat, p: seq<nat>): (r: Fat)
    ensures |r| == |fat|
  {
    if p == [] || p[|p| - 1] >= |fat| then fat else Linked(fat, p)[p[|p| - 1] := p[|p| - 1] + 1]
  }

  /** Placing one file: consecutive clusters, then the next slot.  Without room
      for all of it, the clusters filled so far are lost. */
  function AddFile(w: Draft, f: File): Draft
    requires w.disk.unit > 0 && w.slot <= |w.disk.dir|
  {
    var d := w.disk;
    if w.slot == |d.dir| then w
    else
      var need, room := Need(|f.bytes|, d.unit), if w.next < |d.fat| then |d.fat| - w.next else 0;
      var p := Range(w.next, Smaller(need, room));
      var data := Filled(d.data, p, f.bytes, d.unit);
      if room < need then Draft(d.(fat := Open(d.fat, p), data := data), w.next + room, w.slot)
      else
        var e := d.dir[w.slot].(name := KeyOf(f), attr := ARCHIVE, first := w.next, size := |f.bytes|);
        Draft(d.(fat := Linked(d.fat, p), data := data, dir := d.dir[w.slot := e]), w.next + need, w.slot + 1)
  }

  ghost predicate Building(w: Draft) {
    && Consistent(w.disk) && 2 <= w.next <= |w.disk.fat| && w.slot <= |w.disk.dir|
    && (forall c :: w.next <= c < |w.disk.fat| ==> w.disk.fat[c] == 0)
    && (forall i :: 0 <= i < w.slot ==> w.disk.dir[i].name[0] != UNUSED)
    && (forall i :: w.slot <= i < |w.disk.dir| ==> w.disk.dir[i].name[0] == UNUSED)
  }

  /** The file can be placed, and found again. */
  ghost predicate Placeable(w: Draft, f: File)
    requires Building(w)
  {
    && w.slot < |w.disk.dir| && w.next + Need(|f.bytes|, w.disk.unit) <= |w.disk.fat|
    && KeyOf(f)[0] != UNUSED && KeyOf(f)[0] != ERASED && Lookup(w.disk, KeyOf(f)) == None
  }

  lemma RangeShape(w: Draft, n: nat)
    requires Building(w) && w.next + n <= |w.disk.fat|
    ensures var p := Range(w.next, n);
            && Distinct(p) && FatTable.Within(w.disk.fat, p)
            && forall x :: x in p ==> w.next <= x < w.next + n && w.disk.fat[x] == 0
  {
  }

  lemma DraftOthers(w: Draft, n: nat, bytes: seq<byte>, j: nat)
    requires Building(w) && w.next + n <= |w.disk.fat| && j < |w.disk.dir| && Listed(w.disk.dir[j])
    ensures var d, p := w.disk, Range(w.next, n);
            && Kept(d, d.(fat := Linked(d.fat, p), data := Filled(d.data, p, bytes, d.unit)), j)
            && Disjoint(p, Owned(d, j))
  {
    var d, p := w.disk, Range(w.next, n);
    RangeShape(w, n);
    assert Owned(d, |d.dir|) == [];
    NothingCleared(d.fat);
    OthersKept(d, |d.dir|, p, bytes, j);
  }

  /** Placing a file under a new name keeps the volume consistent exactly when
      the file is not empty: an empty file's entry points at the cluster the
      next file will get. */
  lemma AddKeepsConsistent(w: Draft, f: File)
    requires Building(w) && Placeable(w, f)
    ensures Consistent(AddFile(w, f).disk) <==> |f.bytes| > 0
    ensures |f.bytes| > 0 ==> Building(AddFile(w, f))
  {
    if |f.bytes| > 0 {
      AddSlotFine(w, f);
      AddOnlySlot(w, f);
      SlotConsistent(w.disk, AddFile(w, f).disk, w.slot);
      AddKeepsFresh(w, f);
    } else {
      EmptyDangles(w, f);
    }
  }

  /** The chain of a placed file is the run of clusters it was given. */
  lemma AddedChain(w: Draft, f: File)
    requires Building(w) && Placeable(w, f) && |f.bytes| > 0
    ensures var fat, p := AddFile(w, f).disk.fat, Range(w.next, Need(|f.bytes|, w.disk.unit));
            |p| > 0 && p[0] == w.next && GoodChain(fat, w.next) && Chain(fat, w.next) == p
  {
    hide Linked, Filled, Chain, GoodChain, Follow, OnlySlot;
    var p := Range(w.next, Need(|f.bytes|, w.disk.unit));
    NeedBounds(|f.bytes|, w.disk.unit);
    AddOnlySlot(w, f);
    RangeShape(w, |p|);
    LinkedSuffix(w.disk.fat, p, 0);
    assert p[0..] == p;
  }

  lemma AddSlotFine(w: Draft, f: File)
    requires Building(w) && Placeable(w, f) && |f.bytes| > 0
    ensures Names(AddFile(w, f).disk.dir) && SlotFine(w.disk, AddFile(w, f).disk, w.slot)
  {
    hide Linked, Filled, Chain, GoodChain, KeyOf, Follow, OnlySlot, Need, AddFile, Kept;
    var d, d' := w.disk, AddFile(w, f).disk;
    AddOnlySlot(w, f);
    AddNames(w, f);
    AddedChain(w, f);
    FindNone(d.dir, KeyOf(f));
    forall j | 0 <= j < |d.dir| && j != w.slot && Listed(d.dir[j])
      ensures d.dir[j].name != d'.dir[w.slot].name && Disjoint(Owned(d', w.slot), Owned(d, j))
    {
      DraftOthers(w, Need(|f.bytes|, d.unit), f.bytes, j);
    }
  }

  lemma AddNames(w: Draft, f: File)
    requires Building(w) && Placeable(w, f)
    ensures w.disk.unit > 0 && AddFile(w, f).disk.unit == w.disk.unit
    ensures Names(AddFile(w, f).disk.dir) && |AddFile(w, f).disk.dir| == |w.disk.dir|
    ensures forall i :: 0 <= i < |w.disk.dir| && i != w.slot ==> AddFile(w, f).disk.dir[i] == w.disk.dir[i]
    ensures |AddFile(w, f).disk.fat| == |w.disk.fat|
  {
  }

  lemma AddKeepsFresh(w: Draft, f: File)
    requires Building(w) && Placeable(w, f) && Consistent(AddFile(w, f).disk)
    ensures Building(AddFile(w, f))
  {
    hide Linked, Filled, Chain, GoodChain, KeyOf, Follow, OnlySlot, Need, AddFile, Kept, ChainsFine, Tidy;
    var need := Need(|f.bytes|, w.disk.unit);
    AddOnlySlot(w, f);
    AddNames(w, f);
    FreshBeyond(w.disk.fat, Range(w.next, need), w.next + need);
  }

  lemma FreshBeyond(fat: Fat, p: seq<nat>, from: nat)
    requires forall x :: x in p ==> x < from
    ensures forall c :: from <= c < |fat| ==> Linked(fat, p)[c] == fat[c]
  {
    forall c | from <= c < |fat| ensures Linked(fat, p)[c] == fat[c] {
      InPosition(p, c);
    }
  }

  lemma EmptyDangles(w: Draft, f: File)
    requires Building(w) && Placeable(w, f) && |f.bytes| == 0
    ensures !Consistent(AddFile(w, f).disk)
  {
    var d' := AddFile(w, f).disk;
    NothingStored(w.disk, f.bytes, w.disk.unit);
    assert Need(0, w.disk.unit) == 0 by { NeedBounds(0, w.disk.unit); }
    assert d'.fat == w.disk.fat;
    assert Listed(d'.dir[w.slot]);
    if w.next < |d'.fat| {
      var q := Chain(d'.fat, w.next);
      assert q == [w.next] + Follow(d'.fat, 0, |d'.fat| - 1);
      assert q == [w.next];
    }
    assert !GoodChain(d'.fat, d'.dir[w.slot].first);
  }

  lemma {:induction false} AddOnlySlot(w: Draft, f: File)
    requires Building(w) && Placeable(w, f)
    ensures OnlySlot(w.disk, AddFile(w, f).disk, w.slot)
    ensures var d', p := AddFile(w, f).disk, Range(w.next, Need(|f.bytes|, w.disk.unit));
            && d'.fat == Linked(w.disk.fat, p) && d'.data == Filled(w.disk.data, p, f.bytes, w.disk.unit)
            && d'.dir[w.slot].name == KeyOf(f) && Listed(d'.dir[w.slot])
            && d'.dir[w.slot].first == w.next && d'.dir[w.slot].size == |f.bytes|
            && AddFile(w, f).next == w.next + Need(|f.bytes|, w.disk.unit)
            && AddFile(w, f).slot == w.slot + 1
  {
    var d := w.disk;
    var need := Need(|f.bytes|, d.unit);
    var d' := AddFile(w, f).disk;
    FilledShape(d, Range(w.next, need), f.bytes);
    forall j | 0 <= j < |d.dir| && j != w.slot && Listed(d.dir[j]) ensures Kept(d, d', j) {
      DraftOthers(w, need, f.bytes, j);
    }
  }

  /** A placed file reads back, and every other name reads as before. */
  lemma {:induction false} AddReads(w: Draft, f: File, n: seq<byte>)
    requires Building(w) && Placeable(w, f) && |f.bytes| > 0
    ensures Lookup(AddFile(w, f).disk, n) == if n == KeyOf(f) then Some(f.bytes) else Lookup(w.disk, n)
  {
    hide Linked, Filled, Gather, GoodChain, KeyOf, Follow, OnlySlot, Lookup, AddFile, ChainsFine;
    var d' := AddFile(w, f).disk;
    AddKeepsConsistent(w, f);
    AddOnlySlot(w, f);
    AddNames(w, f);
    if n == KeyOf(f) {
      FindListed(d'.dir, n, w.slot);
      LookupAt(d', n, w.slot);
      AddedChain(w, f);
      AddedBytes(w, f);
    } else {
      SlotLookup(w.disk, d', w.slot, n);
    }
  }

  lemma {:induction false} AddedBytes(w: Draft, f: File)
    requires Building(w) && Placeable(w, f) && |f.bytes| > 0
    ensures var p := Range(w.next, Need(|f.bytes|, w.disk.unit));
            Take(Gather(Filled(w.disk.data, p, f.bytes, w.disk.unit), p), |f.bytes|) == f.bytes
  {
    hide Filled, Gather;
    var d := w.disk;
    var p := Range(w.next, Need(|f.bytes|, d.unit));
    NeedBounds(|f.bytes|, d.unit);
    RangeShape(w, |p|);
    GatherFilled(d.data, p, f.bytes, d.unit, 0);
    assert p[0..] == p;
    assert f.bytes[0 * d.unit..|f.bytes|] == f.bytes;
  }

  lemma LookupAt(d: Disk, n: seq<byte>, i: nat)
    requires Names(d.dir) && i < |d.dir| && Find(d.dir, n, 0) == i
    ensures Lookup(d, n) == Some(Take(Gather(d.data, Chain(d.fat, d.dir[i].first)), d.dir[i].size))
  {
  }

  // ---- a whole image ----

  function Blank(): Disk {
    Disk(SECTOR, [0xFF0, 0xFFF] + seq(CLUSTERS, _ => 0),
         seq(SLOTS, _ => Entry(seq(11, _ => 0), 0, seq(14, _ => 0), 0, 0)),
         seq(CLUSTERS, _ => seq(SECTOR, _ => 0)))
  }

  function Build(fs: seq<File>): (w: Draft)
    ensures w.disk.unit == SECTOR && w.slot <= |w.disk.dir| == SLOTS
    decreases |fs|
  {
    if fs == [] then Draft(Blank(), 2, 0) else AddFile(Build(fs[..|fs| - 1]), fs[|fs| - 1])
  }

  function TotalNeed(fs: seq<File>): nat
    decreases |fs|
  {
    if fs == [] then 0 else TotalNeed(fs[..|fs| - 1]) + Need(|fs[|fs| - 1].bytes|, SECTOR)
  }

  ghost predicate Shippable(fs: seq<File>) {
    && |fs| <= SLOTS && TotalNeed(fs) <= CLUSTERS
    && (forall i :: 0 <= i < |fs| ==> |fs[i].bytes| > 0 && KeyOf(fs[i])[0] != UNUSED && KeyOf(fs[i])[0] != ERASED)
    && (forall i, j :: 0 <= i < j < |fs| ==> KeyOf(fs[i]) != KeyOf(fs[j]))
  }

  function Wanted(fs: seq<File>, n: seq<byte>): Option<seq<byte>>
    decreases |fs|
  {
    if fs == [] then None
    else if KeyOf(fs[|fs| - 1]) == n then Some(fs[|fs| - 1].bytes)
    else Wanted(fs[..|fs| - 1], n)
  }

  lemma BlankBuilding()
    ensures Building(Build([])) && forall n :: Lookup(Blank(), n) == None
  {
    var d := Blank();
    assert Consistent(d);
  }

  lemma {:induction false} WantedNone(fs: seq<File>, n: seq<byte>)
    requires forall i :: 0 <= i < |fs| ==> KeyOf(fs[i]) != n
    ensures Wanted(fs, n) == None
    decreases |fs|
  {
    if fs != [] {
      WantedNone(fs[..|fs| - 1], n);
    }
  }

  /** Non-empty files with distinct names that fit make a consistent volume
      holding exactly those files. */
  lemma {:induction false} ImageHolds(fs: seq<File>, n: seq<byte>)
    requires Shippable(fs)
    ensures Building(Build(fs)) && Build(fs).slot == |fs| && Build(fs).next == 2 + TotalNeed(fs)
    ensures |Build(fs).disk.fat| == CLUSTERS + 2
    ensures Lookup(Build(fs).disk, n) == Wanted(fs, n)
    decreases |fs|
  {
    hide Lookup, AddFile, KeyOf, Consistent, Need, Names;
    if fs == [] {
      BlankBuilding();
    } else {
      var front, f := fs[..|fs| - 1], fs[|fs| - 1];
      ImageHolds(front, n);
      ImageHolds(front, KeyOf(f));
      WantedNone(front, KeyOf(f));
      var w := Build(front);
      assert Placeable(w, f);
      AddKeepsConsistent(w, f);
      AddReads(w, f, n);
      AddOnlySlot(w, f);
      AddNames(w, f);
    }
  }
}
