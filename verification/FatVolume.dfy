/** The FAT12 driver over one byte array, changed in place.  Every method is
    tied to the operation on disks that it carries out. */
module FatVolume {
  import opened Basics
  import opened FatTable
  import opened FatDisk
  import opened FatFiles
  import opened FatLayout
  import opened FatRuns

  method NameTo83(name: seq<byte>) returns (out: array<byte>)
    ensures fresh(out) && out.Length == 11 && out[..] == Name83(name)
  {
    out := new byte[11](_ => 32);
    var dot := -1;
    var i := 0;
    while i < |name|
      invariant 0 <= i <= |name|
      invariant dot == -1 && forall j :: 0 <= j < i ==> name[j] != DOT
    {
      if name[i] == DOT {
        dot := i;
        break;
      }
      i := i + 1;
    }
    DotIs(name, if dot >= 0 then dot else |name|);
    var limit := if dot >= 0 then dot else |name|;
    if limit > 8 { limit := 8; }
    i := 0;
    while i < limit
      invariant 0 <= i <= limit
      invariant forall j :: 0 <= j < 11 ==> out[j] == if j < i then Upper(name[j]) else 32
    {
      var c := name[i];
      if 'a' as int <= c <= 'z' as int { c := c - 32; }
      out[i] := c;
      i := i + 1;
    }
    assert out[..8] == Padded(name[..DotAt(name)], 8);
    if dot >= 0 {
      var ext := name[dot + 1..];
      i := 0;
      while i < 3 && i < |ext|
        invariant 0 <= i <= 3 && i <= |ext|
        invariant out[..8] == Padded(name[..DotAt(name)], 8)
        invariant forall j :: 0 <= j < 3 ==> out[8 + j] == if j < i then Upper(ext[j]) else 32
      {
        var c := ext[i];
        if 'a' as int <= c <= 'z' as int { c := c - 32; }
        out[8 + i] := c;
        i := i + 1;
      }
      assert out[8..] == Padded(ext, 3);
    } else {
      assert out[8..] == Padded([], 3);
    }
    assert out[..] == out[..8] + out[8..];
  }

  lemma {:induction false} DotIs(name: seq<byte>, i: nat)
    requires i <= |name| && (i < |name| ==> name[i] == DOT)
    requires forall j :: 0 <= j < i ==> name[j] != DOT
    ensures DotAt(name) == i
  {
    if name != [] && name[0] != DOT { DotIs(name[1..], i - 1); }
  }

  // ---- bounds of a chain, for loops that walk it ----

  lemma {:induction false} GatherAppend(data: seq<seq<byte>>, p: seq<nat>, q: seq<nat>)
    ensures Gather(data, p + q) == Gather(data, p) + Gather(data, q)
  {
    hide Gather;
    if p == [] {
      assert p + q == q;
      GatherNone(data, p);
    } else {
      assert (p + q)[0] == p[0] && (p + q)[1..] == p[1..] + q;
      GatherAppend(data, p[1..], q);
      var head := GatherUnfold(data, p);
      var head' := GatherUnfold(data, p + q);
      Regroup(head, Gather(data, p[1..]), Gather(data, q));
    }
  }

  lemma {:induction false} GatherUnfold(data: seq<seq<byte>>, p: seq<nat>) returns (head: seq<byte>)
    requires p != []
    ensures head == if 2 <= p[0] < |data| + 2 then data[p[0] - 2] else []
    ensures Gather(data, p) == head + Gather(data, p[1..])
  {
    head := if 2 <= p[0] < |data| + 2 then data[p[0] - 2] else [];
  }

  lemma Regroup(a: seq<byte>, b: seq<byte>, c: seq<byte>)
    ensures (a + b) + c == a + (b + c)
  {
  }

  lemma {:induction false} GatherSize(data: seq<seq<byte>>, p: seq<nat>, unit: nat)
    requires forall i :: 0 <= i < |p| ==> 2 <= p[i] < |data| + 2
    requires forall i :: 0 <= i < |data| ==> |data[i]| == unit
    ensures |Gather(data, p)| == |p| * unit
  {
    hide Gather;
    if p == [] {
      GatherNone(data, p);
    } else {
      var rest := p[1..];
      assert forall i :: 0 <= i < |rest| ==> rest[i] == p[i + 1];
      GatherSize(data, rest, unit);
      GatherStep(data, p);
      SumTimes(|rest|, 1, unit);
    }
  }

  /** The k-th block of the gathered bytes is the k-th cluster of the chain. */
  lemma GatherBlock(data: seq<seq<byte>>, p: seq<nat>, unit: nat, k: nat)
    requires k < |p| && forall i :: 0 <= i < |p| ==> 2 <= p[i] < |data| + 2
    requires forall i :: 0 <= i < |data| ==> |data[i]| == unit
    ensures k * unit + unit == (k + 1) * unit <= |Gather(data, p)|
    ensures Gather(data, p)[k * unit..k * unit + unit] == data[p[k] - 2]
  {
    hide Gather;
    var front, back := p[..k], p[k + 1..];
    GatherSize(data, front, unit);
    SumTimes(k, 1, unit);
    GatherStep(data, p[k..]);
    assert p[k..][1..] == back;
    GatherAppend(data, front, p[k..]);
    assert p == front + p[k..];
    Middle(Gather(data, front), data[p[k] - 2], Gather(data, back));
  }

  lemma GatherStep(data: seq<seq<byte>>, p: seq<nat>)
    requires p != [] && 2 <= p[0] < |data| + 2
    ensures Gather(data, p) == data[p[0] - 2] + Gather(data, p[1..])
  {
  }

  lemma Middle(a: seq<byte>, b: seq<byte>, c: seq<byte>)
    ensures (a + (b + c))[|a|..|a| + |b|] == b
  {
  }

  lemma ChainEnds(fat: Fat, c: nat)
    requires 2 <= |fat| <= END_MARK && GoodChain(fat, c)
    ensures var p := Chain(fat, c);
            && |p| <= |fat| - 2 && (c < 2 <==> p == []) && (c >= 2 ==> Path(fat, p) && p[0] == c)
            && Cleared(fat, p[..0]) == fat
  {
    assert Cleared(fat, Chain(fat, c)[..0]) == fat;
    if c >= 2 { PathIsChain(fat, Chain(fat, c)); }
  }

  /** Clearing the first clusters of a chain leaves the entry of the next one,
      which names its successor or ends the chain. */
  lemma ClearStep(fat: Fat, p: seq<nat>, k: nat)
    requires 2 <= |fat| <= END_MARK && Path(fat, p) && k < |p|
    ensures Cleared(fat, p[..k + 1]) == Cleared(fat, p[..k])[p[k] := 0]
    ensures var next := Cleared(fat, p[..k])[p[k]];
            2 <= p[k] < |fat| && if k + 1 < |p| then next == p[k + 1] && 2 <= next < |fat| else next >= END_MARK
  {
    ClearOneMore(fat, p, k);
    StillThere(fat, p, k);
  }

  lemma ClearOneMore(fat: Fat, p: seq<nat>, k: nat)
    requires k < |p| && p[k] < |fat|
    ensures Cleared(fat, p[..k + 1]) == Cleared(fat, p[..k])[p[k] := 0]
  {
    assert p[..k + 1] == p[..k] + [p[k]];
  }

  /** Clearing the start of a chain leaves the entry of the next cluster. */
  lemma StillThere(fat: Fat, p: seq<nat>, k: nat)
    requires Path(fat, p) && k < |p|
    ensures Cleared(fat, p[..k])[p[k]] == fat[p[k]]
  {
    assert p[k] !in p[..k];
  }

  lemma FillOneMore(data: seq<seq<byte>>, p: seq<nat>, c: nat, bytes: seq<byte>, unit: nat)
    requires c !in p && 2 <= c < |data| + 2
    ensures Filled(data, p + [c], bytes, unit)
            == Filled(data, p, bytes, unit)[c - 2 := Over(Filled(data, p, bytes, unit)[c - 2], Piece(bytes, |p|, unit))]
  {
    hide Over, Piece, Position;
    InPosition(p, c);
    var r := Filled(data, p, bytes, unit)[c - 2 := Over(Filled(data, p, bytes, unit)[c - 2], Piece(bytes, |p|, unit))];
    forall k | 0 <= k < |data| ensures r[k] == FilledAt(data, p + [c], bytes, unit, k) {
      PositionAppend(p, c, k + 2);
    }
    assert Filled(data, p + [c], bytes, unit) == r;
  }

  lemma FirstFree(fat: Fat, c: nat)
    requires 2 <= c <= |fat| && forall x :: 2 <= x < c ==> fat[x] != 0
    ensures c < |fat| && fat[c] == 0 ==> Free(fat) != [] && Free(fat)[0] == c
    ensures c == |fat| ==> Free(fat) == []
  {
    FreeShape(fat);
    var free := Free(fat);
    assert |free| > 0 ==> free[0] in free;
    if c < |fat| && fat[c] == 0 {
      assert c in free;
    }
  }

  lemma PairChanged(v: seq<byte>, v': seq<byte>, o: nat, a: nat, b: nat)
    requires a <= o && o + 2 <= b && o + 2 <= |v| == |v'|
    requires forall k :: 0 <= k < |v| && k != o && k != o + 1 ==> v'[k] == v[k]
    ensures ChangedIn(v, v', o, o + 2) && ChangedIn(v, v', a, b)
  {
  }

  /** A walk along the chain `p` that has taken `k` steps stands at `cluster`. */
  ghost predicate Walk(p: seq<nat>, k: nat, cluster: nat) {
    k <= |p| && if k < |p| then cluster == p[k] && 2 <= cluster < END_MARK else !(2 <= cluster < END_MARK)
  }

  lemma WalkStart(fat: Fat, c: nat)
    requires 2 <= |fat| <= END_MARK && GoodChain(fat, c)
    ensures Walk(Chain(fat, c), 0, c)
    ensures |Chain(fat, c)| <= |fat| - 2
    ensures forall i :: 0 <= i < |Chain(fat, c)| ==> 2 <= Chain(fat, c)[i] < |fat|
  {
    ChainEnds(fat, c);
  }

  lemma WalkNext(fat: Fat, c: nat, k: nat, cluster: nat)
    requires 2 <= |fat| <= END_MARK && GoodChain(fat, c) && Walk(Chain(fat, c), k, cluster) && 2 <= cluster < END_MARK
    ensures k < |Chain(fat, c)| && cluster == Chain(fat, c)[k] && cluster < |fat|
    ensures Walk(Chain(fat, c), k + 1, fat[cluster])
  {
    ChainEnds(fat, c);
  }

  lemma WalkOver(p: seq<nat>, k: nat, cluster: nat, max: nat)
    requires Walk(p, k, cluster) && |p| <= max && (k >= max || !(2 <= cluster < END_MARK))
    ensures k == |p|
  {
  }

  /** After `k` of `m` clusters, `read` bytes of the `toRead` wanted are there. */
  ghost predicate Progress(k: nat, m: nat, unit: nat, toRead: nat, read: nat, size: nat) {
    unit > 0 && k <= m && size == m * unit && read == Smaller(k * unit, toRead)
  }

  lemma FirstBlock(data: seq<seq<byte>>, p: seq<nat>, unit: nat, toRead: nat)
    requires unit > 0 && forall i :: 0 <= i < |p| ==> 2 <= p[i] < |data| + 2
    requires forall i :: 0 <= i < |data| ==> |data[i]| == unit
    ensures Progress(0, |p|, unit, toRead, 0, |Gather(data, p)|)
  {
    GatherSize(data, p, unit);
  }

  lemma SmallerIs(a: nat, b: nat)
    ensures Smaller(a, b) == if a < b then a else b
  {
  }

  lemma {:induction false} NextBlock(data: seq<seq<byte>>, p: seq<nat>, unit: nat, k: nat, toRead: nat, read: nat)
    requires k < |p| && forall i :: 0 <= i < |p| ==> 2 <= p[i] < |data| + 2
    requires forall i :: 0 <= i < |data| ==> |data[i]| == unit
    requires Progress(k, |p|, unit, toRead, read, |Gather(data, p)|) && read < toRead
    ensures read + unit <= |Gather(data, p)| && Gather(data, p)[read..read + unit] == data[p[k] - 2]
    ensures Progress(k + 1, |p|, unit, toRead, read + Smaller(unit, toRead - read), |Gather(data, p)|)
  {
    GatherBlock(data, p, unit, k);
  }

  lemma WholeRead(k: nat, m: nat, unit: nat, toRead: nat, read: nat, size: nat)
    requires Progress(k, m, unit, toRead, read, size) && (read >= toRead || k == m)
    ensures read == Smaller(size, toRead)
  {
    Grows(k, m, unit);
  }

  lemma NothingCleared(fat: Fat)
    ensures Cleared(fat, []) == fat
  {
  }

  lemma NothingStored(d: Disk, bytes: seq<byte>, unit: nat)
    ensures Linked(d.fat, []) == d.fat && Filled(d.data, [], bytes, unit) == d.data
  {
  }

  /** What one more allocated cluster does to the table and the data. */
  lemma StoreStep(d: Disk, j: nat, bytes: seq<byte>, unit: nat)
    requires j < |Free(d.fat)| && |d.fat| == |d.data| + 2
    ensures var p := Free(d.fat);
            var fat, data := Linked(d.fat, p[..j]), Filled(d.data, p[..j], bytes, unit);
            && 2 <= p[j] < |d.fat| && (j > 0 ==> 2 <= p[j - 1] < |d.fat|)
            && Linked(d.fat, p[..j + 1]) == (if j == 0 then fat else fat[p[j - 1] := p[j]])[p[j] := LAST_MARK]
            && Filled(d.data, p[..j + 1], bytes, unit)
               == data[p[j] - 2 := Over(data[p[j] - 2], Piece(bytes, j, unit))]
  {
    var p := Free(d.fat);
    FreeShape(d.fat);
    assert p[..j + 1] == p[..j] + [p[j]];
    assert p[j] !in p[..j];
    LinkOneMore(d.fat, p[..j], p[j]);
    FillOneMore(d.data, p[..j], p[j], bytes, unit);
  }

  /** With the first `j` free clusters linked, allocation yields the next one. */
  lemma NextFree(fat: Fat, j: nat)
    requires j <= |Free(fat)|
    ensures var rest := Free(Linked(fat, Free(fat)[..j]));
            if j == |Free(fat)| then rest == [] else rest != [] && rest[0] == Free(fat)[j] && 2 <= rest[0] < |fat|
  {
    FreeAfterLinking(fat, j);
    FreeShape(fat);
  }

  /** `written` of `n` bytes lie in the first `j` clusters, none of them spare. */
  ghost predicate Laying(j: nat, unit: nat, n: nat, written: nat) {
    unit > 0 && written == Smaller(j * unit, n) && (j > 0 ==> (j - 1) * unit < n)
  }

  lemma LayingStart(unit: nat, n: nat)
    requires unit > 0
    ensures Laying(0, unit, n, 0)
  {
  }

  lemma LayingNext(bytes: seq<byte>, j: nat, unit: nat, written: nat)
    requires Laying(j, unit, |bytes|, written) && written < |bytes|
    ensures var chunk := Smaller(unit, |bytes| - written);
            && Piece(bytes, j, unit) == bytes[written..written + chunk]
            && Laying(j + 1, unit, |bytes|, written + chunk)
  {
    SumTimes(j, 1, unit);
  }

  lemma {:induction false} LayingNeed(n: nat, unit: nat, j: nat, written: nat)
    requires Laying(j, unit, n, written)
    ensures written >= n ==> Need(n, unit) == j
    ensures written < n ==> Need(n, unit) > j
  {
    NeedIs(n, unit, j);
  }

  /** Whole clusters covering `n` bytes without one to spare. */
  lemma {:induction false} NeedIs(n: nat, unit: nat, j: nat)
    requires unit > 0 && (j > 0 ==> (j - 1) * unit < n)
    ensures j * unit >= n ==> Need(n, unit) == j
    ensures j * unit < n ==> Need(n, unit) > j
  {
    NeedBounds(n, unit);
    var m := Need(n, unit);
    if j * unit >= n {
      if m > j { Grows(j, m - 1, unit); }
      if m < j { Grows(m, j - 1, unit); }
    } else if m <= j {
      Grows(m, j, unit);
    }
  }

  lemma TailChanged(v: seq<byte>, v': seq<byte>, o: nat, k: nat, a: nat, b: nat)
    requires a <= o && o + 32 <= b <= |v| && |v'| == |v| && k <= 32
    requires forall x :: 0 <= x < |v| && !(o + k <= x < o + 32) ==> v'[x] == v[x]
    ensures ChangedIn(v, v', o, o + 32) && ChangedIn(v, v', a, b)
  {
  }

  method Word16(v: array<byte>, o: nat) returns (x: nat)
    requires o + 2 <= v.Length
    ensures x == Read16(v[..], o)
  {
    var low: int, high: int := v[o], v[o + 1];
    x := low + 256 * high;
  }

  lemma SoundParts(g: Geometry, size: nat)
    requires Sound(g, size)
    ensures g.bytesPerSector > 0 && g.sectorsPerCluster > 0 && DataStart(g) <= g.totalSectors * g.bytesPerSector
  {
  }

  lemma SplitSize(size: nat)
    requires size < 0x1_0000_0000
    ensures size % 0x10000 + 0x10000 * (size / 0x10000) == size && size / 0x10000 < 0x10000
  {
  }

  lemma FreshSlot(v: seq<byte>, l: Layout, i: nat, key: seq<byte>)
    requires Fits(l, |v|) && i < l.slots && |key| == 11 && SlotOffset(l, i) + 32 <= |v|
    requires forall x :: SlotOffset(l, i) <= x < SlotOffset(l, i) + 32 ==>
               v[x] == var y := x - SlotOffset(l, i); if y < 11 then key[y] else if y == 11 then ARCHIVE else 0
    ensures SlotAt(v, l, i) == FreshEntry(key)
  {
    var o := SlotOffset(l, i);
    assert v[o..o + 11] == key;
    assert v[o + 12..o + 26] == seq(14, _ => 0);
  }

  /** Stores entry `c` of the table at `base`, keeping its neighbours' halves. */
  method PutEntry(v: array<byte>, base: nat, c: nat, x: nat, ghost l: Layout)
    requires Fits(l, v.Length) && base == l.fat && c < l.clusters + 2 && x < 4096
    modifies v
    ensures View(v[..], l) == old(View(v[..], l)).(fat := old(View(v[..], l)).fat[c := x])
    ensures ChangedIn(old(v[..]), v[..], l.fat, l.root)
  {
    hide View, Fits, ChangedIn, EntryAt, SlotAt, ClusterAt;
    ghost var before := v[..];
    EntryRoom(l, v.Length, c);
    var o := base + c + c / 2;
    var p0: int, p1: int := v[o], v[o + 1];
    if c % 2 == 1 {
      v[o], v[o + 1] := p0 % 16 + x % 16 * 16, x / 16;
    } else {
      v[o], v[o + 1] := x % 256, p1 / 16 * 16 + x / 256;
    }
    ghost var after := v[..];
    assert forall k :: 0 <= k < |before| && k != o && k != o + 1 ==> after[k] == before[k];
    PairChanged(before, after, o, l.fat, l.root);
    SetEntry(before, after, l, c, x);
  }

  method Put16(v: array<byte>, o: nat, x: nat)
    requires o + 2 <= v.Length && x < 0x10000
    modifies v
    ensures Read16(v[..], o) == x
    ensures forall y :: 0 <= y < v.Length && y != o && y != o + 1 ==> v[y] == old(v[y])
  {
    v[o] := x % 256;
    v[o + 1] := x / 256;
  }

  /** Copies `piece` to the start of the cluster at `offset`. */
  method PutPiece(v: array<byte>, offset: nat, k: nat, piece: seq<byte>, ghost l: Layout)
    requires Fits(l, v.Length) && k < l.clusters && offset == ClusterOffset(l, k) && |piece| <= l.unit
    modifies v
    ensures var d := old(View(v[..], l));
            View(v[..], l) == d.(data := d.data[k := Over(d.data[k], piece)])
    ensures ChangedIn(old(v[..]), v[..], l.data, v.Length)
  {
    hide View, SlotAt, EntryAt, ClusterAt, Over;
    ghost var before := v[..];
    ClusterRoom(l, v.Length, k);
    forall x | 0 <= x < |piece| { v[offset + x] := piece[x]; }
    assert v[offset..offset + |piece|] == piece;
    SetCluster(before, v[..], l, k, piece);
  }

  /** The first `toRead` bytes of `g`, then what was there before. */
  lemma TakenTwice(g: seq<byte>, size: nat, room: nat, read: nat, now: seq<byte>, before: seq<byte>)
    requires read == Smaller(|g|, Smaller(size, room)) && |now| == |before| == room
    requires forall x :: 0 <= x < read ==> now[x] == g[x]
    requires forall x :: read <= x < room ==> now[x] == before[x]
    ensures var bytes := Take(g, size);
            read == Smaller(|bytes|, room) && now == bytes[..read] + before[read..]
  {
  }

  lemma ChangedTrans(v0: seq<byte>, v1: seq<byte>, v2: seq<byte>, a: int, b: int)
    requires ChangedIn(v0, v1, a, b) && ChangedIn(v1, v2, a, b)
    ensures ChangedIn(v0, v2, a, b)
  {
  }

  lemma ChangedNone(v: seq<byte>, a: int, b: int)
    ensures ChangedIn(v, v, a, b)
  {
  }

  class Volume {
    const vol: array<byte>
    const bytesPerSector: nat
    const sectorsPerCluster: nat
    const reservedSectors: nat
    const numFats: nat
    const rootEntryCount: nat
    const totalSectors: nat
    const sectorsPerFat: nat
    const rootDirOffset: nat
    const dataStartOffset: nat

    ghost function Geo(): Geometry {
      Geometry(bytesPerSector, sectorsPerCluster, reservedSectors, numFats, rootEntryCount, totalSectors, sectorsPerFat)
    }

    ghost predicate Laid() {
      && Sound(Geo(), vol.Length)
      && rootDirOffset == LayoutOf(Geo()).root && dataStartOffset == LayoutOf(Geo()).data
    }

    ghost function Lay(): (l: Layout)
      requires Laid()
      ensures Fits(l, vol.Length) && l.clusters + 2 <= END_MARK && l.slots == rootEntryCount
      ensures l.fat == reservedSectors * bytesPerSector
    {
      SoundFits(Geo(), vol.Length);
      LayoutOf(Geo())
    }

    /** The disk the bytes stand for. */
    ghost function Now(): Disk
      requires Laid()
      reads vol
    {
      View(vol[..], Lay())
    }

    ghost predicate Valid()
      reads vol
    {
      Laid() && Consistent(Now())
    }

    constructor (volume: array<byte>)
      requires volume.Length >= 24 && Sound(BootSector(volume[..]), volume.Length)
      ensures Laid() && vol == volume && Geo() == BootSector(volume[..])
    {
      hide Fits, Sound, Read16;
      ghost var g := BootSector(volume[..]);
      vol := volume;
      var bps := Word16(volume, 11);
      var spc: int := volume[13];
      var reserved := Word16(volume, 14);
      var fats: int := volume[16];
      var entries := Word16(volume, 17);
      var total := Word16(volume, 19);
      var spf := Word16(volume, 22);
      assert g == Geometry(bps, spc, reserved, fats, entries, total, spf);
      SoundParts(g, volume.Length);
      bytesPerSector := bps;
      sectorsPerCluster := spc;
      reservedSectors := reserved;
      numFats := fats;
      rootEntryCount := entries;
      totalSectors := total;
      sectorsPerFat := spf;
      var root := (reserved + fats * spf) * bps;
      var rootSectors := (entries * 32 + bps - 1) / bps;
      rootDirOffset := root;
      dataStartOffset := root + rootSectors * bps;
    }

    method ClusterBytes() returns (n: nat)
      requires Laid()
      ensures n == Lay().unit && n > 0
    {
      n := sectorsPerCluster * bytesPerSector;
    }

    method MaxClusters() returns (n: nat)
      requires Laid()
      ensures n == Lay().clusters
    {
      var unit := ClusterBytes();
      n := (totalSectors * bytesPerSector - dataStartOffset) / unit;
    }

    method ReadFat(c: nat) returns (x: nat)
      requires Laid() && c < Lay().clusters + 2
      ensures x == Now().fat[c] && x < 4096
    {
      ghost var l := Lay();
      RoomBefore(l, vol.Length);
      var o := reservedSectors * bytesPerSector + c + c / 2;
      assert o == EntryOffset(l, c);
      var low: int, high: int := vol[o], vol[o + 1];
      var val := low + 256 * high;
      assert EntryAt(vol[..], l, c) == if c % 2 == 1 then val / 16 else val % 4096;
      x := if c % 2 == 1 then val / 16 else val % 4096;
    }

    method WriteFat(c: nat, x: nat)
      requires Laid() && c < Lay().clusters + 2 && x < 4096
      modifies vol
      ensures Now() == old(Now()).(fat := old(Now()).fat[c := x])
      ensures ChangedIn(old(vol[..]), vol[..], Lay().fat, Lay().root)
    {
      hide View, Sound, LayoutOf, Fits, EntryAt, SlotAt, ClusterAt;
      PutEntry(vol, reservedSectors * bytesPerSector, c, x, Lay());
    }

    /** Frees every cluster of the chain that starts at `start`. */
    method FreeChain(start: nat)
      requires Laid() && GoodChain(Now().fat, start)
      modifies vol
      ensures Now() == old(Now()).(fat := Cleared(old(Now()).fat, Chain(old(Now()).fat, start)))
      ensures ChangedIn(old(vol[..]), vol[..], Lay().fat, Lay().root)
    {
      hide View, Sound, LayoutOf, Cleared, Chain, Distinct, SlotAt, ClusterAt, EntryAt, Fits;
      ghost var fat := Now().fat;
      ghost var p := Chain(fat, start);
      ChainEnds(fat, start);
      var max := MaxClusters();
      var iterations := 0;
      var cluster := start;
      while cluster >= 2 && cluster < END_MARK && iterations < max
        invariant iterations <= |p| <= max
        invariant if iterations < |p| then cluster == p[iterations] else !(2 <= cluster < END_MARK)
        invariant Now() == old(Now()).(fat := Cleared(fat, p[..iterations]))
        invariant ChangedIn(old(vol[..]), vol[..], Lay().fat, Lay().root)
        decreases max - iterations
      {
        iterations := iterations + 1;
        ClearStep(fat, p, iterations - 1);
        var next := ReadFat(cluster);
        WriteFat(cluster, 0);
        cluster := next;
      }
      assert p[..|p|] == p;
    }

    /** The lowest-numbered free cluster, or 0. */
    method AllocCluster() returns (c: nat)
      requires Laid()
      ensures c == if Free(Now().fat) == [] then 0 else Free(Now().fat)[0]
    {
      var max := MaxClusters();
      max := max + 2;
      c := 2;
      while c < max
        invariant 2 <= c <= max
        invariant forall x :: 2 <= x < c ==> Now().fat[x] != 0
      {
        var x := ReadFat(c);
        if x == 0 {
          FirstFree(Now().fat, c);
          return;
        }
        c := c + 1;
      }
      FirstFree(Now().fat, c);
      c := 0;
    }
  
    // ---- the root directory ----

    method SlotAddress(i: nat) returns (o: nat)
      requires Laid() && i < Lay().slots
      ensures o == SlotOffset(Lay(), i) && o + 32 <= Lay().data <= vol.Length
      ensures Now().dir[i] == SlotAt(vol[..], Lay(), i)
      ensures |Now().dir[i].name| == 11 && vol[o] == Now().dir[i].name[0] && vol[o + 11] == Now().dir[i].attr
      ensures vol[o..o + 11] == Now().dir[i].name
    {
      RoomBefore(Lay(), vol.Length);
      o := rootDirOffset + 32 * i;
    }

    method NameMatches(i: nat, key: array<byte>) returns (match_: bool)
      requires Laid() && i < Lay().slots && key.Length == 11
      ensures match_ <==> Now().dir[i].name == key[..]
    {
      var o := SlotAddress(i);
      match_ := true;
      var j := 0;
      while j < 11
        invariant 0 <= j <= 11 && match_
        invariant forall x :: 0 <= x < j ==> vol[o + x] == key[x]
      {
        if vol[o + j] != key[j] {
          match_ := false;
          assert Now().dir[i].name[j] == vol[o + j];
          return;
        }
        j := j + 1;
      }
      assert vol[o..o + 11] == key[..];
    }

    /** The slot of the file named `key`, or -1. */
    method FindEntry(key: array<byte>) returns (idx: int)
      requires Laid() && key.Length == 11
      ensures Names(Now().dir)
      ensures var i := Find(Now().dir, key[..], 0);
              idx == if i < Lay().slots then i else -1
    {
      hide View, Sound, LayoutOf, SlotAt, Fits, ClusterAt, EntryAt;
      ViewShape(vol[..], Lay());
      idx := -1;
      var i := 0;
      while i < rootEntryCount
        invariant 0 <= i <= rootEntryCount == Lay().slots
        invariant idx == -1
        invariant Find(Now().dir, key[..], 0) == Find(Now().dir, key[..], i)
      {
        var o := SlotAddress(i);
        var first, attr := vol[o], vol[o + 11];
        if first == 0x00 { break; }
        if first != 0xE5 && (attr / 0x08) % 2 == 0 && (attr / 0x10) % 2 == 0 {
          var match_ := NameMatches(i, key);
          if match_ {
            idx := i;
            break;
          }
        }
        i := i + 1;
      }
    }
  
    method ClusterAddress(c: nat) returns (o: nat)
      requires Laid() && 2 <= c < Lay().clusters + 2
      ensures o == ClusterOffset(Lay(), c - 2) && Lay().data <= o && o + Lay().unit <= vol.Length
      ensures Now().data[c - 2] == vol[o..o + Lay().unit]
    {
      ClusterRoom(Lay(), vol.Length, c - 2);
      o := dataStartOffset + (c - 2) * (sectorsPerCluster * bytesPerSector);
    }

    // ---- files ----

    /** Reads the file into the start of `buf` as far as both reach; -1 when
        there is no such file. */
    method ReadFile(name: seq<byte>, buf: array<byte>) returns (n: int)
      requires Valid() && buf != vol
      modifies buf
      ensures Names(Now().dir)
      ensures match Lookup(Now(), Name83(name))
              case None => n == -1 && buf[..] == old(buf[..])
              case Some(bytes) => n == Smaller(|bytes|, buf.Length) && buf[..] == bytes[..n] + old(buf[n..])
    {
      hide View, Sound, LayoutOf, SlotAt, EntryAt, ClusterAt, Fits, GoodChain, Chain, Listed, Gather;
      ViewShape(vol[..], Lay());
      var key := NameTo83(name);
      var idx := FindEntry(key);
      if idx < 0 { return -1; }
      var cluster := FirstCluster(idx);
      var size := FileSize(idx);
      n := ReadChain(cluster, size, buf);
    }

    /** The size recorded in slot `i`. */
    method FileSize(i: nat) returns (x: nat)
      requires Laid() && i < Lay().slots
      ensures x == Now().dir[i].size
    {
      var o := SlotAddress(i);
      o := o + 28;
      var b0: int, b1: int, b2: int, b3: int := vol[o], vol[o + 1], vol[o + 2], vol[o + 3];
      x := b0 + 256 * b1 + 0x10000 * b2 + 0x100_0000 * b3;
    }

    method ReadChain(start: nat, size: nat, buf: array<byte>) returns (read: nat)
      requires Laid() && GoodChain(Now().fat, start) && buf != vol
      modifies buf
      ensures var bytes := Take(Gather(Now().data, Chain(Now().fat, start)), size);
              read == Smaller(|bytes|, buf.Length) && buf[..] == bytes[..read] + old(buf[read..])
    {
      hide View, Sound, LayoutOf, Chain, Gather, Distinct, SlotAt, ClusterAt, EntryAt, Fits, Path, GoodChain,
           Progress, Take, Smaller, Walk;
      ghost var d := Now();
      ghost var p := Chain(d.fat, start);
      ghost var g := Gather(d.data, p);
      WalkStart(d.fat, start);
      ViewShape(vol[..], Lay());
      var toRead := if size < buf.Length then size else buf.Length;
      SmallerIs(size, buf.Length);
      read := 0;
      FirstBlock(d.data, p, Lay().unit, toRead);
      var cluster: nat := start;
      var unit := ClusterBytes();
      var max := MaxClusters();
      var iterations: nat := 0;
      while read < toRead && cluster >= 2 && cluster < END_MARK && iterations < max
        invariant iterations <= |p| && Walk(p, iterations, cluster)
        invariant read <= toRead && read <= |g|
        invariant Progress(iterations, |p|, unit, toRead, read, |g|)
        invariant forall x :: 0 <= x < read ==> buf[x] == g[x]
        invariant forall x :: read <= x < buf.Length ==> buf[x] == old(buf[x])
        decreases max - iterations
      {
        WalkNext(d.fat, start, iterations, cluster);
        NextBlock(d.data, p, unit, iterations, toRead, read);
        var chunk := CopyOut(cluster, read, toRead, buf, g);
        iterations := iterations + 1;
        read := read + chunk;
        cluster := ReadFat(cluster);
      }
      if read < toRead { WalkOver(p, iterations, cluster, max); }
      WholeRead(iterations, |p|, unit, toRead, read, |g|);
      TakenTwice(g, size, buf.Length, read, buf[..], old(buf[..]));
    }

    /** Copies the next piece of a cluster into `buf`, up to `toRead` bytes. */
    method CopyOut(cluster: nat, read: nat, toRead: nat, buf: array<byte>, ghost g: seq<byte>) returns (chunk: nat)
      requires Laid() && buf != vol && 2 <= cluster < Lay().clusters + 2
      requires read < toRead <= buf.Length
      requires read + Lay().unit <= |g| && Now().data[cluster - 2] == g[read..read + Lay().unit]
      modifies buf
      ensures chunk == Smaller(Lay().unit, toRead - read) && chunk <= Lay().unit && read + chunk <= toRead
      ensures forall x :: read <= x < read + chunk ==> buf[x] == g[x]
      ensures forall x :: 0 <= x < buf.Length && !(read <= x < read + chunk) ==> buf[x] == old(buf[x])
    {
      var offset := ClusterAddress(cluster);
      chunk := ClusterBytes();
      if read + chunk > toRead { chunk := toRead - read; }
      ghost var block := Now().data[cluster - 2];
      forall x | read <= x < read + chunk ensures vol[offset + (x - read)] == g[x] {
        assert vol[offset + (x - read)] == block[x - read];
      }
      forall x | 0 <= x < chunk { buf[read + x] := vol[offset + x]; }
      forall x | read <= x < read + chunk ensures buf[x] == g[x] {
        assert buf[read + (x - read)] == vol[offset + (x - read)];
      }
    }

    /** Copies a piece of `bytes` to the start of a cluster. */
    method CopyIn(cluster: nat, bytes: seq<byte>, written: nat) returns (chunk: nat)
      requires Laid() && 2 <= cluster < Lay().clusters + 2 && written <= |bytes|
      modifies vol
      ensures chunk == Smaller(Lay().unit, |bytes| - written)
      ensures var data := old(Now()).data;
              var c := Over(data[cluster - 2], bytes[written..written + chunk]);
              Now() == old(Now()).(data := data[cluster - 2 := c])
      ensures ChangedIn(old(vol[..]), vol[..], Lay().data, vol.Length)
    {
      hide View, Sound, LayoutOf, SlotAt, EntryAt, Over, ClusterAt, Fits;
      var offset := ClusterAddress(cluster);
      chunk := ClusterBytes();
      if written + chunk > |bytes| { chunk := |bytes| - written; }
      PutPiece(vol, offset, cluster - 2, bytes[written..written + chunk], Lay());
    }

    /** Sets the first cluster and the size in slot `i`. */
    method SetExtent(i: nat, first: nat, size: nat)
      requires Laid() && i < Lay().slots && first < 0x10000 && size < 0x1_0000_0000
      modifies vol
      ensures Now() == old(Now()).(dir := old(Now()).dir[i := old(Now()).dir[i].(first := first, size := size)])
      ensures ChangedIn(old(vol[..]), vol[..], Lay().root, Lay().data)
    {
      hide View, Sound, LayoutOf, EntryAt, ClusterAt, Fits, ChangedIn;
      ghost var v := vol[..];
      var o := SlotAddress(i);
      SplitSize(size);
      Put16(vol, o + 26, first);
      Put16(vol, o + 28, size % 0x10000);
      Put16(vol, o + 30, size / 0x10000);
      ghost var v' := vol[..];
      TailChanged(v, v', o, 26, Lay().root, Lay().data);
      assert v'[o..o + 11] == v[o..o + 11];
      assert v'[o + 12..o + 26] == v[o + 12..o + 26];
      SetSlot(v, v', Lay(), i);
    }

    /** Starts a new entry for `key` in slot `i`. */
    method StartSlot(i: nat, key: array<byte>)
      requires Laid() && i < Lay().slots && key.Length == 11 && key != vol
      modifies vol
      ensures Now() == old(Now()).(dir := old(Now()).dir[i := FreshEntry(key[..])])
      ensures ChangedIn(old(vol[..]), vol[..], Lay().root, Lay().data)
    {
      hide View, Sound, LayoutOf, EntryAt, ClusterAt, Fits, SlotAt, FreshEntry;
      ghost var v := vol[..];
      var o := SlotAddress(i);
      forall x | 0 <= x < 32 { vol[o + x] := 0; }
      forall x | 0 <= x < 11 { vol[o + x] := key[x]; }
      vol[o + 11] := 0x20;
      ghost var v' := vol[..];
      FreshSlot(v', Lay(), i, key[..]);
      SetSlot(v, v', Lay(), i);
    }

    /** The first unused or erased slot, or -1. */
    method FreeSlot() returns (idx: int)
      requires Laid()
      ensures Names(Now().dir)
      ensures var i := Vacant(Now().dir, 0);
              idx == if i < Lay().slots then i else -1
    {
      hide View, Sound, LayoutOf, SlotAt, Fits, ClusterAt, EntryAt;
      ViewShape(vol[..], Lay());
      idx := -1;
      var i := 0;
      while i < rootEntryCount
        invariant 0 <= i <= rootEntryCount == Lay().slots
        invariant idx == -1
        invariant Vacant(Now().dir, 0) == Vacant(Now().dir, i)
      {
        var o := SlotAddress(i);
        if vol[o] == 0x00 || vol[o] == 0xE5 {
          idx := i;
          break;
        }
        i := i + 1;
      }
    }
  
    /** Puts the next piece of `bytes` into `cluster` as the end of a chain
        whose previous cluster is `prev`, 0 for none. */
    method StoreOne(prev: nat, cluster: nat, bytes: seq<byte>, written: nat) returns (chunk: nat)
      requires Laid() && 2 <= cluster < Lay().clusters + 2 && prev < Lay().clusters + 2 && written <= |bytes|
      modifies vol
      ensures chunk == Smaller(Lay().unit, |bytes| - written)
      ensures var d := old(Now());
              Now() == d.(fat := (if prev == 0 then d.fat else d.fat[prev := cluster])[cluster := LAST_MARK],
                          data := d.data[cluster - 2 := Over(d.data[cluster - 2], bytes[written..written + chunk])])
      ensures ChangedIn(old(vol[..]), vol[..], Lay().fat, vol.Length)
    {
      hide View, Sound, LayoutOf, SlotAt, EntryAt, ClusterAt, Fits, Over;
      Areas();
      if prev != 0 { WriteFat(prev, cluster); }
      chunk := CopyIn(cluster, bytes, written);
      WriteFat(cluster, 0xFFF);
    }

    /** Allocates clusters for `bytes`, first fit, linking and filling them one
        by one; gives up when no cluster is free. */
    method Store(bytes: seq<byte>) returns (first: nat, ok: bool)
      requires Laid()
      modifies vol
      ensures var d, n := old(Now()), Need(|bytes|, Lay().unit);
              var p := Free(d.fat)[..Smaller(n, |Free(d.fat)|)];
              && Now() == d.(fat := Linked(d.fat, p), data := Filled(d.data, p, bytes, Lay().unit))
              && (ok <==> |p| == n) && (ok ==> first == if p == [] then 0 else p[0])
      ensures ok ==> first < END_MARK
      ensures ChangedIn(old(vol[..]), vol[..], Lay().fat, vol.Length)
    {
      hide View, Sound, LayoutOf, SlotAt, EntryAt, ClusterAt, Linked, Filled, Free, Fits, Piece, Over, Laying, Need,
           ChangedIn;
      ghost var d, unit := Now(), Lay().unit;
      ghost var free := Free(d.fat);
      ghost var v0 := vol[..];
      ChangedNone(v0, Lay().fat, vol.Length);
      Areas();
      NothingStored(d, bytes, unit);
      assert free[..0] == [];
      LayingStart(unit, |bytes|);
      first := 0;
      var prev: nat := 0;
      var written: nat := 0;
      ghost var j: nat := 0;
      while written < |bytes|
        invariant first < END_MARK && prev < |d.fat|
        invariant j <= |free| && Laying(j, unit, |bytes|, written)
        invariant if j == 0 then first == prev == 0 else first == free[0] >= 2 && prev == free[j - 1] >= 2
        invariant Now() == d.(fat := Linked(d.fat, free[..j]), data := Filled(d.data, free[..j], bytes, unit))
        invariant ChangedIn(old(vol[..]), vol[..], Lay().fat, vol.Length)
        decreases |bytes| - written
      {
        NextFree(d.fat, j);
        var cluster := AllocCluster();
        if cluster == 0 {
          LayingNeed(|bytes|, unit, j, written);
          ok := false;
          return;
        }
        StoreStep(d, j, bytes, unit);
        LayingNext(bytes, j, unit, written);
        if first == 0 { first := cluster; }
        ghost var v1 := vol[..];
        var chunk := StoreOne(prev, cluster, bytes, written);
        ChangedTrans(v0, v1, vol[..], Lay().fat, vol.Length);
        written := written + chunk;
        prev := cluster;
        j := j + 1;
      }
      LayingNeed(|bytes|, unit, j, written);
      ok := true;
    }

    lemma Areas()
      requires Laid()
      ensures Lay().fat <= Lay().root <= Lay().data <= vol.Length && Lay().unit > 0
      ensures Lay().fat + 3 <= Lay().root
    {
      RoomBefore(Lay(), vol.Length);
    }
  
    /** The first cluster recorded in slot `i`. */
    method FirstCluster(i: nat) returns (c: nat)
      requires Laid() && i < Lay().slots
      ensures c == Now().dir[i].first < 0x10000
    {
      var o := SlotAddress(i);
      var low: int, high: int := vol[o + 26], vol[o + 27];
      c := low + 256 * high;
    }

    /** Frees the chain of the file in slot `idx`; -1 stands for no file. */
    method Release(idx: int)
      requires Valid() && -1 <= idx < Lay().slots && (idx >= 0 ==> Listed(Now().dir[idx]))
      modifies vol
      ensures var d := old(Now());
              Now() == d.(fat := Cleared(d.fat, Owned(d, if idx >= 0 then idx else Lay().slots)))
      ensures ChangedIn(old(vol[..]), vol[..], Lay().fat, vol.Length)
    {
      hide View, Sound, LayoutOf, SlotAt, EntryAt, ClusterAt, Fits, Cleared;
      Areas();
      NothingCleared(Now().fat);
      if idx >= 0 {
        var c := FirstCluster(idx);
        if c >= 2 { FreeChain(c); }
      }
    }

    /** Writes or overwrites a file; 0 on success, -1 when the volume or the
        directory is full. */
    method WriteFile(name: seq<byte>, bytes: seq<byte>) returns (r: int)
      requires Valid() && 0 !in name && |bytes| < 0x1_0000_0000
      modifies vol
      ensures Valid()
      ensures var o := FatDisk.WriteFile(old(Now()), Name83(name), bytes);
              Now() == o.disk && r == if o.ok then 0 else -1
      ensures ChangedIn(old(vol[..]), vol[..], Lay().fat, vol.Length)
    {
      hide View, Sound, LayoutOf, SlotAt, EntryAt, ClusterAt, Fits, Linked, Filled, Cleared, Free, Listed, FreshEntry,
           GoodChain, Chain, Consistent;
      ghost var d := Now();
      ViewShape(vol[..], Lay());
      Areas();
      NameIsKey(name);
      WriteConsistent(d, Name83(name), bytes);
      ghost var o := FatDisk.WriteFile(d, Name83(name), bytes);
      var key := NameTo83(name);
      var existing := FindEntry(key);
      Release(existing);
      var first, ok := Store(bytes);
      if !ok {
        assert Now() == o.disk;
        return -1;
      }
      var slot := existing;
      if existing < 0 {
        slot := FreeSlot();
        if slot < 0 {
          assert Now() == o.disk;
          return -1;
        }
        StartSlot(slot, key);
      }
      SetExtent(slot, first, |bytes|);
      assert Now() == o.disk;
      r := 0;
    }

    /** Deletes a file; 0 on success, -1 when there is none of that name. */
    method DeleteFile(name: seq<byte>) returns (r: int)
      requires Valid()
      modifies vol
      ensures Valid()
      ensures var o := FatDisk.DeleteFile(old(Now()), Name83(name));
              Now() == o.disk && r == if o.ok then 0 else -1
      ensures ChangedIn(old(vol[..]), vol[..], Lay().fat, vol.Length)
    {
      hide View, Sound, LayoutOf, SlotAt, EntryAt, ClusterAt, Fits, Cleared, Listed, GoodChain, Chain, Consistent;
      ViewShape(vol[..], Lay());
      Areas();
      ghost var o := FatDisk.DeleteFile(Now(), Name83(name));
      DeleteRemoves(Now(), Name83(name), []);
      var key := NameTo83(name);
      var idx := FindEntry(key);
      if idx < 0 { return -1; }
      Release(idx);
      MarkErased(idx);
      assert Now() == o.disk;
      r := 0;
    }

    method MarkErased(i: nat)
      requires Laid() && i < Lay().slots
      modifies vol
      ensures |old(Now()).dir[i].name| == 11
      ensures Now() == old(Now()).(dir := old(Now()).dir[i := EraseName(old(Now()).dir[i])])
      ensures ChangedIn(old(vol[..]), vol[..], Lay().root, Lay().data)
    {
      hide View, Sound, LayoutOf, EntryAt, ClusterAt, Fits;
      ghost var v := vol[..];
      var o := SlotAddress(i);
      vol[o] := 0xE5;
      ghost var v' := vol[..];
      assert v'[o..o + 11] == v[o..o + 11][0 := ERASED];
      assert v'[o + 12..o + 26] == v[o + 12..o + 26];
      SetSlot(v, v', Lay(), i);
    }
  }
}
