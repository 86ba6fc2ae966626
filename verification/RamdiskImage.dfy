/** Building the ramdisk in place, byte by byte. */
module RamdiskImage {
  import opened Basics
  import opened FatTable
  import opened FatDisk
  import opened FatLayout
  import opened FatVolume
  import opened Ramdisk

  /** One more cluster on a chain under construction: either it ends there, or
      its entry already names the following cluster. */
  lemma OpenStep(fat: Fat, from: nat, j: nat)
    requires 2 <= from && from + j < |fat|
    ensures Open(fat, Range(from, j))[from + j := LAST_MARK] == Linked(fat, Range(from, j + 1))
    ensures Open(fat, Range(from, j))[from + j := from + j + 1] == Open(fat, Range(from, j + 1))
  {
    var p := Range(from, j);
    assert Range(from, j + 1) == p + [from + j];
    LinkOneMore(fat, p, from + j);
  }

  lemma LayingSpill(n: nat, unit: nat, j: nat, written: nat, room: nat)
    requires Laying(j, unit, n, written) && written < n && j == room
    ensures room < Need(n, unit) && Smaller(Need(n, unit), room) == room
  {
    LayingNeed(n, unit, j, written);
  }

  lemma SameSlot(v: seq<byte>, v': seq<byte>, i: nat, key: seq<byte>, first: nat, size: nat)
    requires |v| == |v'| == SIZE && i < SLOTS && |key| == 11 && first < 0x10000 && size < 0x1_0000_0000
    requires var o := SlotOffset(PLACE, i);
             && v'[o..o + 11] == key && v'[o + 11] == ARCHIVE
             && (forall x :: o + 12 <= x < o + 26 ==> v'[x] == v[x])
             && Read16(v', o + 26) == first && Read16(v', o + 28) == size % 0x10000
             && Read16(v', o + 30) == size / 0x10000
    ensures Fits(PLACE, SIZE)
    ensures SlotAt(v', PLACE, i) == SlotAt(v, PLACE, i).(name := key, attr := ARCHIVE, first := first, size := size)
  {
    var o := SlotOffset(PLACE, i);
    assert v'[o + 12..o + 26] == v[o + 12..o + 26];
    SplitSize(size);
  }

  /** Only the boot sector changed. */
  lemma BootOnly(v: seq<byte>, v': seq<byte>)
    requires |v| == |v'| == SIZE && forall x :: 36 <= x < SIZE ==> v'[x] == v[x]
    ensures Fits(PLACE, SIZE) && View(v', PLACE) == View(v, PLACE)
  {
    hide View, SlotAt, EntryAt, ClusterAt;
    ShippedSound();
    Unread(v, v', 0, 36);
    TableFrame(v, v', PLACE, 0, 36);
    RootFrame(v, v', PLACE, 0, 36);
    DataFrame(v, v', PLACE, 0, 36);
  }

  lemma Unread(v: seq<byte>, v': seq<byte>, a: nat, b: nat)
    requires |v| == |v'| && forall x :: 0 <= x < |v| && !(a <= x < b) ==> v'[x] == v[x]
    ensures ChangedIn(v, v', a, b)
  {
  }

  lemma BootKept(v: seq<byte>, v': seq<byte>)
    requires |v| >= 512 && ChangedIn(v, v', 512, |v|)
    ensures BootSector(v') == BootSector(v)
  {
  }

  function Zeroed(): Disk {
    Blank().(fat := [0, 0] + seq(CLUSTERS, _ => 0))
  }

  lemma BlankIs()
    ensures Blank() == Zeroed().(fat := Zeroed().fat[0 := 0xFF0][1 := 0xFFF])
  {
  }

  lemma BlankView(v: seq<byte>)
    requires v == seq(SIZE, _ => 0)
    ensures Fits(PLACE, SIZE) && View(v, PLACE) == Zeroed()
  {
    ShippedSound();
    var d, z := View(v, PLACE), Zeroed();
    forall c | 0 <= c < CLUSTERS + 2 ensures d.fat[c] == z.fat[c] {
      EntryRoom(PLACE, SIZE, c);
    }
    forall i | 0 <= i < SLOTS ensures d.dir[i] == z.dir[i] {
      var o := SlotOffset(PLACE, i);
      assert v[o..o + 11] == seq(11, _ => 0);
      assert v[o + 12..o + 26] == seq(14, _ => 0);
    }
    forall k | 0 <= k < CLUSTERS ensures d.data[k] == z.data[k] {
      ClusterRoom(PLACE, SIZE, k);
      assert ClusterAt(v, PLACE, k) == seq(SECTOR, _ => 0);
    }
    assert d.fat == z.fat && d.dir == z.dir && d.data == z.data;
  }

  class Image {
    const disk: array<byte>
    var nextFreeCluster: nat
    var nextDirent: nat

    ghost predicate Valid()
      reads this
    {
      disk.Length == SIZE && 2 <= nextFreeCluster <= CLUSTERS + 2 && nextDirent <= SLOTS
    }

    /** What has been built so far. */
    ghost function Now(): Draft
      requires Valid()
      reads this, disk
    {
      ShippedSound();
      Draft(View(disk[..], PLACE), nextFreeCluster, nextDirent)
    }

    /** Zeroes the ramdisk, formats the boot sector and reserves the first two
        table entries. */
    constructor ()
      ensures Valid() && fresh(disk) && Now() == Draft(Blank(), 2, 0)
      ensures BootSector(disk[..]) == SHIPPED
    {
      hide View, SlotAt, EntryAt, ClusterAt, ChangedIn, BootSector, Blank;
      disk := new byte[SIZE](_ => 0);
      nextFreeCluster := 2;
      nextDirent := 0;
      new;
      ShippedSound();
      BlankView(disk[..]);
      FormatBpb();
      ghost var before := disk[..];
      SetFat(0, 0xFF0);
      SetFat(1, 0xFFF);
      BootKept(before, disk[..]);
      BlankIs();
    }

    method FormatBpb()
      requires Valid()
      modifies disk
      ensures Valid() && Now() == old(Now()) && BootSector(disk[..]) == SHIPPED
    {
      hide View, SlotAt, EntryAt, ClusterAt, ChangedIn;
      ShippedSound();
      ghost var before := disk[..];
      disk[0], disk[1], disk[2] := 0xEB, 0x3C, 0x90;
      var oem := "RNBWOS  ";
      forall i | 0 <= i < 8 { disk[3 + i] := oem[i] as int; }
      disk[21] := 0xF0;
      Put16(disk, 24, 18);
      Put16(disk, 26, 2);
      forall i | 28 <= i < 36 { disk[i] := 0; }
      PutGeometry();
      ghost var after := disk[..];
      BootOnly(before, after);
    }

    method PutGeometry()
      requires Valid()
      modifies disk
      ensures Valid() && BootSector(disk[..]) == SHIPPED
      ensures forall x :: 24 <= x < SIZE ==> disk[x] == old(disk[x])
    {
      Put16(disk, 11, 512);
      disk[13] := 1;
      Put16(disk, 14, 1);
      disk[16] := 1;
      Put16(disk, 17, 32);
      Put16(disk, 19, 512);
      Put16(disk, 22, 2);
    }

    method SetFat(c: nat, x: nat)
      requires Valid() && c < CLUSTERS + 2 && x < 4096
      modifies disk
      ensures Valid() && Now() == old(Now()).(disk := old(Now()).disk.(fat := old(Now()).disk.fat[c := x]))
      ensures ChangedIn(old(disk[..]), disk[..], 512, 1536)
    {
      PutEntry(disk, 512, c, x, PLACE);
    }

    method PutChar(o: nat, c: byte)
      requires o < disk.Length
      modifies disk
      ensures disk[..] == old(disk[..])[o := Upper(c)]
    {
      var u := c;
      if 'a' as int <= u <= 'z' as int { u := u - 32; }
      disk[o] := u;
    }

    /** The name in slot `o`: padded and in upper case. */
    method PutName(o: nat, name: seq<byte>, ext: seq<byte>)
      requires o + 11 <= disk.Length
      modifies disk
      ensures disk[o..o + 11] == Padded(name, 8) + Padded(ext, 3)
      ensures forall x :: 0 <= x < disk.Length && !(o <= x < o + 11) ==> disk[x] == old(disk[x])
    {
      forall x | 0 <= x < 11 { disk[o + x] := 32; }
      var i := 0;
      while i < 8 && i < |name|
        invariant 0 <= i <= 8 && i <= |name|
        invariant forall x :: o <= x < o + 11 ==> disk[x] == if x - o < i then Upper(name[x - o]) else 32
        invariant forall x :: 0 <= x < disk.Length && !(o <= x < o + 11) ==> disk[x] == old(disk[x])
      {
        PutChar(o + i, name[i]);
        i := i + 1;
      }
      assert disk[o..o + 8] == Padded(name, 8);
      i := 0;
      while i < 3 && i < |ext|
        invariant 0 <= i <= 3 && i <= |ext|
        invariant disk[o..o + 8] == Padded(name, 8)
        invariant forall x :: o + 8 <= x < o + 11 ==> disk[x] == if x - o - 8 < i then Upper(ext[x - o - 8]) else 32
        invariant forall x :: 0 <= x < disk.Length && !(o <= x < o + 11) ==> disk[x] == old(disk[x])
      {
        PutChar(o + 8 + i, ext[i]);
        i := i + 1;
      }
      assert disk[o + 8..o + 11] == Padded(ext, 3);
      assert disk[o..o + 11] == disk[o..o + 8] + disk[o + 8..o + 11];
    }

    /** Fills one cluster and sets its table entry. */
    method PlaceOne(cur: nat, piece: seq<byte>, link: nat)
      requires Valid() && 2 <= cur < CLUSTERS + 2 && |piece| <= SECTOR && link < 4096
      modifies disk
      ensures Valid()
      ensures var w := old(Now());
              Now() == w.(disk := w.disk.(fat := w.disk.fat[cur := link],
                                          data := w.disk.data[cur - 2 := Over(w.disk.data[cur - 2], piece)]))
      ensures ChangedIn(old(disk[..]), disk[..], 512, SIZE)
    {
      hide View, SlotAt, EntryAt, ClusterAt, Over;
      ShippedSound();
      PutPiece(disk, 2560 + (cur - 2) * 512, cur - 2, piece, PLACE);
      SetFat(cur, link);
    }

    /** Copies the file into fresh clusters as far as they go. */
    method PlaceBytes(bytes: seq<byte>) returns (ok: bool)
      requires Valid() && |bytes| < 0x1_0000_0000
      modifies this, disk
      ensures Valid() && nextDirent == old(nextDirent)
      ensures var w := old(Now());
              var need, room := Need(|bytes|, SECTOR), CLUSTERS + 2 - w.next;
              var p := Range(w.next, Smaller(need, room));
              && (ok <==> need <= room)
              && Now() == w.(next := w.next + |p|,
                             disk := w.disk.(fat := if ok then Linked(w.disk.fat, p) else Open(w.disk.fat, p),
                                             data := Filled(w.disk.data, p, bytes, SECTOR)))
      ensures ChangedIn(old(disk[..]), disk[..], 512, SIZE)
    {
      hide View, SlotAt, EntryAt, ClusterAt, Linked, Filled, Piece, Over, Laying, Need, Open, ChangedIn, Range;
      ShippedSound();
      ghost var v0 := disk[..];
      ChangedNone(v0, 512, SIZE);
      ghost var d := Now().disk;
      ghost var from := nextFreeCluster;
      ghost var j := 0;
      var bytesLeft := |bytes|;
      var written := 0;
      NothingPlaced(d, from, bytes);
      LayingStart(SECTOR, |bytes|);
      while bytesLeft > 0
        invariant Valid() && nextDirent == old(nextDirent) && nextFreeCluster == from + j
        invariant written + bytesLeft == |bytes| && Laying(j, SECTOR, |bytes|, written)
        invariant Now().disk == d.(fat := if bytesLeft > 0 then Open(d.fat, Range(from, j))
                                   else Linked(d.fat, Range(from, j)),
                                   data := Filled(d.data, Range(from, j), bytes, SECTOR))
        invariant ChangedIn(v0, disk[..], 512, SIZE)
      {
        if nextFreeCluster - 2 >= CLUSTERS {
          LayingSpill(|bytes|, SECTOR, j, written, CLUSTERS + 2 - from);
          ok := false;
          return;
        }
        var cur := nextFreeCluster;
        nextFreeCluster := nextFreeCluster + 1;
        var chunk := if bytesLeft < SECTOR then bytesLeft else SECTOR;
        LayingNext(bytes, j, SECTOR, written);
        PlaceStep(d, from, j, bytes);
        ghost var v1 := disk[..];
        PlaceOne(cur, bytes[written..written + chunk], if bytesLeft > chunk then nextFreeCluster else 0xFFF);
        ChangedTrans(v0, v1, disk[..], 512, SIZE);
        written := written + chunk;
        bytesLeft := bytesLeft - chunk;
        j := j + 1;
      }
      LayingNeed(|bytes|, SECTOR, j, written);
      ok := true;
    }

    method AddFile(name: seq<byte>, ext: seq<byte>, bytes: seq<byte>)
      requires Valid() && |bytes| < 0x1_0000_0000
      modifies this, disk
      ensures Valid() && Now() == Ramdisk.AddFile(old(Now()), File(name, ext, bytes))
      ensures ChangedIn(old(disk[..]), disk[..], 512, SIZE)
    {
      hide View, SlotAt, EntryAt, ClusterAt, Linked, Filled, Need, Open, ChangedIn, Range;
      ShippedSound();
      ChangedNone(disk[..], 512, SIZE);
      if nextDirent >= 32 { return; }
      var firstCluster := nextFreeCluster;
      var ok := PlaceBytes(bytes);
      if !ok { return; }
      ghost var before := disk[..];
      PutSlot(nextDirent, name, ext, firstCluster, |bytes|);
      ChangedTrans(old(disk[..]), before, disk[..], 512, SIZE);
      nextDirent := nextDirent + 1;
    }

    /** Fills directory slot `i`; its time and date bytes stay as they are. */
    method PutSlot(i: nat, name: seq<byte>, ext: seq<byte>, first: nat, size: nat)
      requires Valid() && i < SLOTS && first < 0x10000 && size < 0x1_0000_0000
      modifies disk
      ensures Valid()
      ensures var w := old(Now());
              var e := w.disk.dir[i].(name := KeyOf(File(name, ext, [])), attr := ARCHIVE, first := first,
                                      size := size);
              Now() == w.(disk := w.disk.(dir := w.disk.dir[i := e]))
      ensures ChangedIn(old(disk[..]), disk[..], 512, SIZE)
    {
      hide View, SlotAt, EntryAt, ClusterAt, ChangedIn;
      ShippedSound();
      ghost var before := disk[..];
      var o := 1536 + i * 32;
      SplitSize(size);
      PutName(o, name, ext);
      disk[o + 11] := 0x20;
      Put16(disk, o + 26, first);
      Put16(disk, o + 28, size % 0x10000);
      Put16(disk, o + 30, size / 0x10000);
      ghost var after := disk[..];
      TailChanged(before, after, o, 0, 512, SIZE);
      SameSlot(before, after, i, KeyOf(File(name, ext, [])), first, size);
      SetSlot(before, after, PLACE, i);
    }
  }

  lemma NothingPlaced(d: Disk, from: nat, bytes: seq<byte>)
    ensures Linked(d.fat, Range(from, 0)) == d.fat && Open(d.fat, Range(from, 0)) == d.fat
    ensures Filled(d.data, Range(from, 0), bytes, SECTOR) == d.data
  {
    assert Range(from, 0) == [];
  }

  lemma PlaceStep(d: Disk, from: nat, j: nat, bytes: seq<byte>)
    requires 2 <= from && from + j < |d.fat| == |d.data| + 2
    ensures Open(d.fat, Range(from, j))[from + j := LAST_MARK] == Linked(d.fat, Range(from, j + 1))
    ensures Open(d.fat, Range(from, j))[from + j := from + j + 1] == Open(d.fat, Range(from, j + 1))
    ensures var data := Filled(d.data, Range(from, j), bytes, SECTOR);
            Filled(d.data, Range(from, j + 1), bytes, SECTOR)
            == data[from + j - 2 := Over(data[from + j - 2], Piece(bytes, j, SECTOR))]
  {
    OpenStep(d.fat, from, j);
    assert Range(from, j + 1) == Range(from, j) + [from + j];
    FillOneMore(d.data, Range(from, j), from + j, bytes, SECTOR);
  }

  /** Building the ramdisk from non-empty, distinctly named files that fit
      hands the driver a valid volume holding exactly those files. */
  method Boot(fs: seq<File>) returns (v: Volume)
    requires Shippable(fs) && forall i :: 0 <= i < |fs| ==> |fs[i].bytes| < 0x1_0000_0000
    ensures v.Valid() && Names(v.Now().dir)
    ensures forall n :: Lookup(v.Now(), n) == Wanted(fs, n)
  {
    hide View, SlotAt, EntryAt, ClusterAt, ChangedIn, BootSector, Blank, AddFile, Consistent, Lookup, Wanted;
    var image := new Image();
    var i := 0;
    while i < |fs|
      invariant 0 <= i <= |fs| && image.Valid() && fresh(image) && fresh(image.disk)
      invariant image.Now() == Build(fs[..i]) && BootSector(image.disk[..]) == SHIPPED
    {
      ghost var before := image.disk[..];
      image.AddFile(fs[i].name, fs[i].ext, fs[i].bytes);
      BootKept(before, image.disk[..]);
      assert fs[..i + 1][..i] == fs[..i];
      i := i + 1;
    }
    assert fs[..|fs|] == fs;
    ShippedSound();
    v := new Volume(image.disk);
    assert v.Now() == image.Now().disk;
    BootDone(fs, v.Now());
  }

  lemma {:induction false} BootDone(fs: seq<File>, d: Disk)
    requires Shippable(fs) && d == Build(fs).disk
    ensures Consistent(d) && Names(d.dir) && forall n :: Lookup(d, n) == Wanted(fs, n)
  {
    hide AddFile, ChainsFine, Lookup, Wanted, Build;
    ImageHolds(fs, []);
    forall n ensures Lookup(d, n) == Wanted(fs, n) {
      ImageHolds(fs, n);
    }
  }
}
