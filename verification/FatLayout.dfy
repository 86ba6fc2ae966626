/** Where a FAT12 volume keeps its table, directory and clusters in one byte
    array, and how changes of single bytes show at the level of the disk. */
module FatLayout {
  import opened Basics
  import opened FatTable
  import opened FatDisk

  /** The boot sector fields the driver uses. */
  datatype Geometry = Geometry(
    bytesPerSector: nat, sectorsPerCluster: nat, reservedSectors: nat, numFats: nat,
    rootEntryCount: nat, totalSectors: nat, sectorsPerFat: nat)

  function Read16(v: seq<byte>, o: nat): nat
    requires o + 2 <= |v|
  {
    var low: int, high: int := v[o], v[o + 1];
    low + 256 * high
  }

  function BootSector(v: seq<byte>): Geometry
    requires |v| >= 24
  {
    Geometry(Read16(v, 11), v[13], Read16(v, 14), v[16], Read16(v, 17), Read16(v, 19), Read16(v, 22))
  }

  /** Byte offsets and counts derived from a geometry. */
  datatype Layout = Layout(fat: nat, root: nat, data: nat, slots: nat, unit: nat, clusters: nat)

  function DataStart(g: Geometry): nat
    requires g.bytesPerSector > 0
  {
    (g.reservedSectors + g.numFats * g.sectorsPerFat) * g.bytesPerSector
    + (g.rootEntryCount * 32 + g.bytesPerSector - 1) / g.bytesPerSector * g.bytesPerSector
  }

  /** The table area holds an entry for every data cluster, and no cluster
      number reaches the end marks. */
  predicate Sound(g: Geometry, size: nat) {
    && g.bytesPerSector > 0 && g.sectorsPerCluster > 0 && g.numFats > 0
    && DataStart(g) <= g.totalSectors * g.bytesPerSector <= size < 0x8000_0000
    && var n := (g.totalSectors * g.bytesPerSector - DataStart(g)) / (g.sectorsPerCluster * g.bytesPerSector);
       n + 2 <= END_MARK && (3 * (n + 2) + 1) / 2 <= g.sectorsPerFat * g.bytesPerSector
  }

  function LayoutOf(g: Geometry): Layout
    requires g.bytesPerSector > 0 && g.sectorsPerCluster > 0
    requires DataStart(g) <= g.totalSectors * g.bytesPerSector
  {
    var unit := g.sectorsPerCluster * g.bytesPerSector;
    Layout(g.reservedSectors * g.bytesPerSector,
           (g.reservedSectors + g.numFats * g.sectorsPerFat) * g.bytesPerSector,
           DataStart(g), g.rootEntryCount, unit,
           (g.totalSectors * g.bytesPerSector - DataStart(g)) / unit)
  }

  predicate Fits(l: Layout, size: nat) {
    && l.unit > 0 && l.clusters + 2 <= END_MARK
    && l.fat + (3 * (l.clusters + 2) + 1) / 2 <= l.root
    && l.root + 32 * l.slots <= l.data
    && l.data + l.clusters * l.unit <= size < 0x8000_0000
  }

  lemma SoundFits(g: Geometry, size: nat)
    requires Sound(g, size)
    ensures Fits(LayoutOf(g), size)
  {
    var b := g.bytesPerSector;
    SumTimes(g.reservedSectors, g.numFats * g.sectorsPerFat, b);
    Grows(1, g.numFats, g.sectorsPerFat);
    Grows(g.sectorsPerFat, g.numFats * g.sectorsPerFat, b);
    RoundUp(g.rootEntryCount * 32, b);
    var l := LayoutOf(g);
    assert l.unit > 0 by { Grows(1, g.sectorsPerCluster, b); }
    RoundDown(g.totalSectors * b - l.data, l.unit);
  }

  lemma RoundUp(a: nat, b: nat)
    requires b > 0
    ensures (a + b - 1) / b * b >= a
  {
    assert a + b - 1 == (a + b - 1) / b * b + (a + b - 1) % b;
  }

  lemma RoundDown(a: nat, b: nat)
    requires b > 0
    ensures a / b * b <= a
  {
    assert a == a / b * b + a % b;
  }

  // ---- reading a disk out of the bytes ----

  /** Entries are packed: two of them share three bytes. */
  function EntryOffset(l: Layout, c: nat): nat {
    l.fat + c + c / 2
  }

  lemma EntryRoom(l: Layout, size: nat, c: nat)
    requires Fits(l, size) && c < l.clusters + 2
    ensures l.fat <= EntryOffset(l, c) && EntryOffset(l, c) + 2 <= l.root <= size
  {
    RoomBefore(l, size);
  }

  function EntryAt(v: seq<byte>, l: Layout, c: nat): nat
    requires Fits(l, |v|) && c < l.clusters + 2
  {
    var x := Read16(v, EntryOffset(l, c));
    if c % 2 == 1 then x / 16 else x % 4096
  }

  function SlotOffset(l: Layout, i: nat): nat {
    l.root + 32 * i
  }

  function Read32(v: seq<byte>, o: nat): nat
    requires o + 4 <= |v|
  {
    Read16(v, o) + 0x10000 * Read16(v, o + 2)
  }

  function SlotAt(v: seq<byte>, l: Layout, i: nat): Entry
    requires Fits(l, |v|) && i < l.slots
  {
    RoomBefore(l, |v|);
    var o := SlotOffset(l, i);
    Entry(v[o..o + 11], v[o + 11], v[o + 12..o + 26], Read16(v, o + 26), Read32(v, o + 28))
  }

  lemma RoomBefore(l: Layout, size: nat)
    requires Fits(l, size)
    ensures l.data <= size
  {
    assert l.clusters * l.unit >= 0;
  }

  function ClusterOffset(l: Layout, k: nat): nat {
    l.data + k * l.unit
  }

  lemma {:induction false} ClusterRoom(l: Layout, size: nat, k: nat)
    requires Fits(l, size) && k < l.clusters
    ensures l.data <= ClusterOffset(l, k) && ClusterOffset(l, k) + l.unit <= size
  {
    Grows(k + 1, l.clusters, l.unit);
    SumTimes(k, 1, l.unit);
  }

  lemma {:induction false} ClustersApart(l: Layout, j: nat, k: nat)
    requires j < k
    ensures ClusterOffset(l, j) + l.unit <= ClusterOffset(l, k)
  {
    Grows(j + 1, k, l.unit);
    SumTimes(j, 1, l.unit);
  }

  function ClusterAt(v: seq<byte>, l: Layout, k: nat): seq<byte>
    requires Fits(l, |v|) && k < l.clusters
  {
    ClusterRoom(l, |v|, k);
    v[ClusterOffset(l, k)..ClusterOffset(l, k) + l.unit]
  }

  function View(v: seq<byte>, l: Layout): (d: Disk)
    requires Fits(l, |v|)
    ensures d.unit == l.unit && |d.fat| == l.clusters + 2 && |d.dir| == l.slots && |d.data| == l.clusters
    ensures forall c :: 0 <= c < l.clusters + 2 ==> d.fat[c] == EntryAt(v, l, c)
    ensures forall i :: 0 <= i < l.slots ==> d.dir[i] == SlotAt(v, l, i)
    ensures forall k :: 0 <= k < l.clusters ==> d.data[k] == ClusterAt(v, l, k)
  {
    Disk(l.unit,
         seq(l.clusters + 2, c requires 0 <= c < l.clusters + 2 => EntryAt(v, l, c)),
         seq(l.slots, i requires 0 <= i < l.slots => SlotAt(v, l, i)),
         seq(l.clusters, k requires 0 <= k < l.clusters => ClusterAt(v, l, k)))
  }

  lemma SlotShape(v: seq<byte>, l: Layout, i: nat)
    requires Fits(l, |v|) && i < l.slots
    ensures |SlotAt(v, l, i).name| == 11 && |SlotAt(v, l, i).stamp| == 14
  {
    RoomBefore(l, |v|);
  }

  lemma {:induction false} ClusterShape(v: seq<byte>, l: Layout, k: nat)
    requires Fits(l, |v|) && k < l.clusters
    ensures |ClusterAt(v, l, k)| == l.unit
  {
    ClusterRoom(l, |v|, k);
  }

  lemma {:induction false} ViewShape(v: seq<byte>, l: Layout)
    requires Fits(l, |v|)
    ensures Shape(View(v, l)) && Names(View(v, l).dir)
  {
    hide SlotAt, ClusterAt, View;
    forall k | 0 <= k < l.clusters ensures |View(v, l).data[k]| == l.unit {
      ClusterShape(v, l, k);
    }
    forall i | 0 <= i < l.slots ensures |View(v, l).dir[i].name| == 11 && |View(v, l).dir[i].stamp| == 14 {
      SlotShape(v, l, i);
    }
  }

  // ---- the format on the disk ----

  /** Two 12-bit entries fill three bytes, the lower-numbered one in their low
      bits. */
  lemma EntriesPacked(v: seq<byte>, l: Layout, c: nat)
    requires Fits(l, |v|) && c % 2 == 0 && c + 1 < l.clusters + 2
    ensures var o := l.fat + 3 * (c / 2);
            && o + 3 <= |v| && EntryAt(v, l, c) < 4096
            && EntryAt(v, l, c) + 4096 * EntryAt(v, l, c + 1)
               == v[o] as int + 0x100 * v[o + 1] as int + 0x1_0000 * v[o + 2] as int
  {
    EntryRoom(l, |v|, c + 1);
    var o := l.fat + 3 * (c / 2);
    var p0: int, p1: int, p2: int := v[o], v[o + 1], v[o + 2];
    assert EntryAt(v, l, c) == (p0 + 256 * p1) % 4096 && EntryAt(v, l, c + 1) == (p1 + 256 * p2) / 16;
    var high, low := p1 / 16, p1 % 16;
    SplitEntries(p0, low, high, p2);
  }

  lemma SplitEntries(p0: nat, low: nat, high: nat, p2: nat)
    requires p0 < 256 && low < 16 && high < 16
    ensures (p0 + 256 * (16 * high + low)) % 4096 == p0 + 256 * low
    ensures (16 * high + low + 256 * p2) / 16 == high + 16 * p2
  {
  }

  /** The areas follow one another: reserved sectors, tables, the directory in
      as few sectors as hold it, and as many clusters as the sectors left hold. */
  lemma AreasFollow(g: Geometry, size: nat)
    requires Sound(g, size)
    ensures var l, b := LayoutOf(g), g.bytesPerSector;
            && l.fat == g.reservedSectors * b && l.root == l.fat + g.numFats * g.sectorsPerFat * b
            && l.root + 32 * l.slots <= l.data < l.root + 32 * l.slots + b && (l.data - l.root) % b == 0
            && l.data + l.clusters * l.unit <= g.totalSectors * b < l.data + l.clusters * l.unit + l.unit
            && l.unit == g.sectorsPerCluster * b && l.slots == g.rootEntryCount
  {
    var l, b := LayoutOf(g), g.bytesPerSector;
    SumTimes(g.reservedSectors, g.numFats * g.sectorsPerFat, b);
    Multiples(g.rootEntryCount * 32 + b - 1, b);
    assert l.unit > 0 by { Grows(1, g.sectorsPerCluster, b); }
    Multiples(g.totalSectors * b - l.data, l.unit);
  }

  lemma Multiples(n: nat, b: nat)
    requires b > 0
    ensures n / b * b <= n < n / b * b + b && (n / b * b) % b == 0
  {
    var k := n / b;
    assert n == b * k + n % b && b * k == k * b;
    DivIs(k * b, b, k, 0);
  }

  /** A directory entry is 32 bytes: name, attribute, and at its end the first
      cluster and the size, the low bytes first. */
  lemma SlotFields(v: seq<byte>, l: Layout, i: nat)
    requires Fits(l, |v|) && i < l.slots
    ensures var o, e := l.root + 32 * i, SlotAt(v, l, i);
            && o + 32 <= |v| && e.name == v[o..o + 11] && e.attr == v[o + 11]
            && e.first == v[o + 26] as int + 0x100 * v[o + 27] as int
            && e.size == v[o + 28] as int + 0x100 * v[o + 29] as int + 0x1_0000 * v[o + 30] as int
                         + 0x100_0000 * v[o + 31] as int
  {
    RoomBefore(l, |v|);
  }

  // ---- changes of the bytes ----

  /** `v'` differs from `v` only in the bytes from `a` up to `b`. */
  ghost predicate ChangedIn(v: seq<byte>, v': seq<byte>, a: int, b: int) {
    |v'| == |v| && forall k :: 0 <= k < |v| && !(a <= k < b) ==> v'[k] == v[k]
  }

  lemma TableFrame(v: seq<byte>, v': seq<byte>, l: Layout, a: int, b: int)
    requires Fits(l, |v|) && ChangedIn(v, v', a, b) && (b <= l.fat || a >= l.root)
    ensures View(v', l).fat == View(v, l).fat
  {
    forall c | 0 <= c < l.clusters + 2 ensures EntryAt(v', l, c) == EntryAt(v, l, c) {
      assert l.fat <= EntryOffset(l, c) && EntryOffset(l, c) + 2 <= l.root;
      RoomBefore(l, |v|);
    }
  }

  lemma SlotFrame(v: seq<byte>, v': seq<byte>, l: Layout, a: int, b: int, i: nat)
    requires Fits(l, |v|) && ChangedIn(v, v', a, b) && i < l.slots
    requires b <= SlotOffset(l, i) || a >= SlotOffset(l, i) + 32
    ensures SlotAt(v', l, i) == SlotAt(v, l, i)
  {
    RoomBefore(l, |v|);
    var o := SlotOffset(l, i);
    assert v'[o..o + 11] == v[o..o + 11];
    assert v'[o + 12..o + 26] == v[o + 12..o + 26];
  }

  lemma RootFrame(v: seq<byte>, v': seq<byte>, l: Layout, a: int, b: int)
    requires Fits(l, |v|) && ChangedIn(v, v', a, b) && (b <= l.root || a >= l.data)
    ensures View(v', l).dir == View(v, l).dir
  {
    forall i | 0 <= i < l.slots ensures SlotAt(v', l, i) == SlotAt(v, l, i) {
      SlotFrame(v, v', l, a, b, i);
    }
  }

  lemma {:induction false} ClusterFrame(v: seq<byte>, v': seq<byte>, l: Layout, a: int, b: int, k: nat)
    requires Fits(l, |v|) && ChangedIn(v, v', a, b) && k < l.clusters
    requires b <= ClusterOffset(l, k) || a >= ClusterOffset(l, k) + l.unit
    ensures ClusterAt(v', l, k) == ClusterAt(v, l, k)
  {
    ClusterRoom(l, |v|, k);
    assert ClusterAt(v', l, k) == ClusterAt(v, l, k);
  }

  lemma {:induction false} DataFrame(v: seq<byte>, v': seq<byte>, l: Layout, a: int, b: int)
    requires Fits(l, |v|) && ChangedIn(v, v', a, b) && b <= l.data
    ensures View(v', l).data == View(v, l).data
  {
    forall k | 0 <= k < l.clusters ensures ClusterAt(v', l, k) == ClusterAt(v, l, k) {
      ClusterRoom(l, |v|, k);
      ClusterFrame(v, v', l, a, b, k);
    }
  }

  /** The two bytes holding entry `c` once it is set to `x`; half of one of
      them belongs to a neighbour. */
  function Packed(p0: byte, p1: byte, c: nat, x: nat): (r: (byte, byte))
    requires x < 4096
  {
    if c % 2 == 1 then (p0 % 16 + x % 16 * 16, x / 16) else (x % 256, p1 / 16 * 16 + x / 256)
  }

  /** Storing the packed bytes changes that entry and none of its neighbours. */
  lemma {:induction false} SetEntry(v: seq<byte>, v': seq<byte>, l: Layout, c: nat, x: nat)
    requires Fits(l, |v|) && 0 <= c < l.clusters + 2 && x < 4096
    requires var o := EntryOffset(l, c);
             o + 2 <= |v| && ChangedIn(v, v', o, o + 2) && (v'[o], v'[o + 1]) == Packed(v[o], v[o + 1], c, x)
    ensures View(v', l) == View(v, l).(fat := View(v, l).fat[c := x])
  {
    var o := EntryOffset(l, c);
    RoomBefore(l, |v|);
    RootFrame(v, v', l, o, o + 2);
    DataFrame(v, v', l, o, o + 2);
    forall k | 0 <= k < l.clusters + 2 ensures EntryAt(v', l, k) == if k == c then x else EntryAt(v, l, k) {
      Neighbours(v, v', l, c, x, k);
    }
    assert View(v', l).fat == View(v, l).fat[c := x];
  }

  lemma {:induction false} Neighbours(v: seq<byte>, v': seq<byte>, l: Layout, c: nat, x: nat, k: nat)
    requires Fits(l, |v|) && 0 <= c < l.clusters + 2 && k < l.clusters + 2 && x < 4096
    requires var o := EntryOffset(l, c);
             o + 2 <= |v| && ChangedIn(v, v', o, o + 2) && (v'[o], v'[o + 1]) == Packed(v[o], v[o + 1], c, x)
    ensures EntryAt(v', l, k) == if k == c then x else EntryAt(v, l, k)
  {
    var o, q := EntryOffset(l, c), EntryOffset(l, k);
    RoomBefore(l, |v|);
    if k == c {
      PackedHere(v[o], v[o + 1], c, x);
    } else if c % 2 == 1 && k == c - 1 {
      assert q + 1 == o;
      PackedBelow(v[q], v[o], v[o + 1], x);
    } else if c % 2 == 0 && k == c + 1 {
      assert q == o + 1;
      PackedAbove(v[o], v[o + 1], v[o + 2], x);
    } else {
      assert q + 2 <= o || o + 2 <= q;
    }
  }

  lemma PackedHere(p0: int, p1: int, c: nat, x: nat)
    requires 0 <= p0 < 256 && 0 <= p1 < 256 && x < 4096
    ensures c % 2 == 1 ==> (p0 % 16 + x % 16 * 16 + 256 * (x / 16)) / 16 == x
    ensures c % 2 == 0 ==> (x % 256 + 256 * (p1 / 16 * 16 + x / 256)) % 4096 == x
  {
    var y := x / 256;
    assert x % 256 + 256 * (p1 / 16 * 16 + y) == 4096 * (p1 / 16) + x;
  }

  lemma PackedBelow(p: int, p0: int, p1: int, x: nat)
    requires 0 <= p < 256 && 0 <= p0 < 256 && x < 4096
    ensures (p + 256 * (p0 % 16 + x % 16 * 16)) % 4096 == (p + 256 * p0) % 4096
  {
    assert p + 256 * (p0 % 16 + x % 16 * 16) == p + 256 * (p0 % 16) + 4096 * (x % 16);
    assert p + 256 * p0 == p + 256 * (p0 % 16) + 4096 * (p0 / 16);
  }

  lemma PackedAbove(p0: int, p1: int, p2: int, x: nat)
    requires 0 <= p1 < 256 && 0 <= p2 < 256 && x < 4096
    ensures (p1 / 16 * 16 + x / 256 + 256 * p2) / 16 == (p1 + 256 * p2) / 16
  {
    assert 0 <= x / 256 < 16;
    assert (p1 / 16 * 16 + x / 256 + 256 * p2) / 16 == p1 / 16 + 16 * p2;
  }

  /** Copying bytes to the start of a cluster changes that cluster alone. */
  lemma {:induction false} SetCluster(v: seq<byte>, v': seq<byte>, l: Layout, k: nat, bytes: seq<byte>)
    requires Fits(l, |v|) && k < l.clusters && |bytes| <= l.unit
    requires var o := ClusterOffset(l, k);
             o + |bytes| <= |v| && ChangedIn(v, v', o, o + |bytes|) && v'[o..o + |bytes|] == bytes
    ensures View(v', l) == View(v, l).(data := View(v, l).data[k := Over(View(v, l).data[k], bytes)])
  {
    var o := ClusterOffset(l, k);
    var b := o + |bytes|;
    ClusterRoom(l, |v|, k);
    TableFrame(v, v', l, o, b);
    RootFrame(v, v', l, o, b);
    forall j | 0 <= j < l.clusters && j != k ensures ClusterAt(v', l, j) == ClusterAt(v, l, j) {
      if j < k { ClustersApart(l, j, k); } else { ClustersApart(l, k, j); }
      ClusterFrame(v, v', l, o, b, j);
    }
    assert ClusterAt(v', l, k) == Over(ClusterAt(v, l, k), bytes);
    assert View(v', l).data == View(v, l).data[k := Over(View(v, l).data[k], bytes)];
  }

  /** Changing bytes of one directory slot changes that slot alone. */
  lemma SetSlot(v: seq<byte>, v': seq<byte>, l: Layout, i: nat)
    requires Fits(l, |v|) && i < l.slots
    requires ChangedIn(v, v', SlotOffset(l, i), SlotOffset(l, i) + 32)
    ensures View(v', l) == View(v, l).(dir := View(v, l).dir[i := SlotAt(v', l, i)])
  {
    var o := SlotOffset(l, i);
    TableFrame(v, v', l, o, o + 32);
    DataFrame(v, v', l, o, o + 32);
    forall j | 0 <= j < l.slots && j != i ensures SlotAt(v', l, j) == SlotAt(v, l, j) {
      SlotFrame(v, v', l, o, o + 32, j);
    }
    assert View(v', l).dir == View(v, l).dir[i := SlotAt(v', l, i)];
  }
}
