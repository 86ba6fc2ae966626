/** A FAT12 volume above its byte layout: table, root directory and data
    clusters, and what the driver's operations do to them in closed form. */
module FatDisk {
  import opened Basics
  import opened FatTable

  /** A root directory slot; `stamp` stands for the reserved bytes, time and date. */
  datatype Entry = Entry(name: seq<byte>, attr: byte, stamp: seq<byte>, first: nat, size: nat)

  datatype Disk = Disk(unit: nat, fat: Fat, dir: seq<Entry>, data: seq<seq<byte>>)

  /** The disk after an operation, and whether the driver reported success. */
  datatype Outcome = Outcome(disk: Disk, ok: bool)

  const UNUSED: byte := 0x00
  const ERASED: byte := 0xE5
  const ARCHIVE: byte := 0x20

  ghost predicate Shape(d: Disk) {
    && d.unit > 0 && |d.fat| == |d.data| + 2 <= END_MARK
    && (forall k :: 0 <= k < |d.data| ==> |d.data[k]| == d.unit)
    && (forall i :: 0 <= i < |d.dir| ==> |d.dir[i].name| == 11 && |d.dir[i].stamp| == 14)
  }

  // ---- names ----

  function Upper(c: byte): byte {
    if 'a' as int <= c <= 'z' as int then c - 32 else c
  }

  /** `s` in upper case, cut or padded with spaces to `n` bytes. */
  function Padded(s: seq<byte>, n: nat): (r: seq<byte>)
    ensures |r| == n
  {
    seq(n, i requires 0 <= i < n => if i < |s| then Upper(s[i]) else 32)
  }

  const DOT: byte := 46

  function DotAt(name: seq<byte>): (i: nat)
    ensures i <= |name|
    ensures i < |name| ==> name[i] == DOT
    ensures forall j :: 0 <= j < i ==> name[j] != DOT
  {
    if name == [] || name[0] == DOT then 0 else DotAt(name[1..]) + 1
  }

  /** The directory form of a file name: eight and three bytes around the first dot. */
  function Name83(name: seq<byte>): (r: seq<byte>)
    ensures |r| == 11
  {
    var dot := DotAt(name);
    Padded(name[..dot], 8) + Padded(if dot < |name| then name[dot + 1..] else [], 3)
  }

  // ---- the directory ----

  predicate Bit(x: int, mask: int)
    requires mask > 0
  {
    (x / mask) % 2 == 1
  }

  /** The slot names a file: neither unused nor erased, and neither a volume
      label nor a subdirectory. */
  predicate Listed(e: Entry)
    requires |e.name| == 11
  {
    e.name[0] != UNUSED && e.name[0] != ERASED && !Bit(e.attr, 0x08) && !Bit(e.attr, 0x10)
  }

  predicate Names(dir: seq<Entry>) {
    forall i :: 0 <= i < |dir| ==> |dir[i].name| == 11
  }

  /** The slot of the file `n`, looking from slot `i` up to the first unused
      one; |dir| when there is none. */
  function Find(dir: seq<Entry>, n: seq<byte>, i: nat): (k: nat)
    requires Names(dir) && i <= |dir|
    ensures i <= k <= |dir|
    ensures k < |dir| ==> Listed(dir[k]) && dir[k].name == n
    decreases |dir| - i
  {
    if i == |dir| || dir[i].name[0] == UNUSED then |dir|
    else if Listed(dir[i]) && dir[i].name == n then i
    else Find(dir, n, i + 1)
  }

  /** The first slot a new entry may take; |dir| when the directory is full. */
  function Vacant(dir: seq<Entry>, i: nat): (k: nat)
    requires Names(dir) && i <= |dir|
    ensures i <= k <= |dir|
    ensures k < |dir| ==> dir[k].name[0] == UNUSED || dir[k].name[0] == ERASED
    ensures forall j :: i <= j < k ==> dir[j].name[0] != UNUSED && dir[j].name[0] != ERASED
    decreases |dir| - i
  {
    if i == |dir| || dir[i].name[0] == UNUSED || dir[i].name[0] == ERASED then i
    else Vacant(dir, i + 1)
  }

  // ---- file contents ----

  function Take(s: seq<byte>, n: nat): seq<byte> {
    s[..Smaller(n, |s|)]
  }

  /** The bytes of the clusters `p` one after the other. */
  function Gather(data: seq<seq<byte>>, p: seq<nat>): seq<byte> {
    if p == [] then [] else (if 2 <= p[0] < |data| + 2 then data[p[0] - 2] else []) + Gather(data, p[1..])
  }

  function Content(d: Disk, e: Entry): seq<byte> {
    Take(Gather(d.data, Chain(d.fat, e.first)), e.size)
  }

  /** The volume as a map from directory names to byte strings. */
  function Lookup(d: Disk, n: seq<byte>): Option<seq<byte>>
    requires Names(d.dir)
  {
    var i := Find(d.dir, n, 0);
    if i < |d.dir| then Some(Content(d, d.dir[i])) else None
  }

  /** The clusters needed for `n` bytes. */
  function Need(n: nat, unit: nat): nat
    requires unit > 0
  {
    (n + unit - 1) / unit
  }

  /** The piece of `bytes` that goes to the i-th cluster. */
  function Piece(bytes: seq<byte>, i: nat, unit: nat): seq<byte> {
    Take(bytes[Smaller(i * unit, |bytes|)..], unit)
  }

  /** `top` written over the start of `under`. */
  function Over(under: seq<byte>, top: seq<byte>): seq<byte> {
    if |top| <= |under| then top + under[|top|..] else under
  }

  /** `bytes` laid out over the clusters `p`; what a short last piece does not
      reach keeps its old value. */
  function Filled(data: seq<seq<byte>>, p: seq<nat>, bytes: seq<byte>, unit: nat): (r: seq<seq<byte>>)
    ensures |r| == |data|
    ensures forall k :: 0 <= k < |data| ==> r[k] == FilledAt(data, p, bytes, unit, k)
  {
    seq(|data|, k requires 0 <= k < |data| => FilledAt(data, p, bytes, unit, k))
  }

  function FilledAt(data: seq<seq<byte>>, p: seq<nat>, bytes: seq<byte>, unit: nat, k: nat): seq<byte>
    requires k < |data|
  {
    var i := Position(p, k + 2);
    if i < |p| then Over(data[k], Piece(bytes, i, unit)) else data[k]
  }

  // ---- the operations ----

  function First(dir: seq<Entry>, i: nat): nat {
    if i < |dir| then dir[i].first else 0
  }

  /** The chain of the file in slot `i`; empty when there is no such slot. */
  function Owned(d: Disk, i: nat): seq<nat> {
    Chain(d.fat, First(d.dir, i))
  }

  /** The clusters a write of `n` bytes to `key` receives: the first free ones
      once the file's old chain is released, as many as needed or all there are. */
  function Granted(d: Disk, key: seq<byte>, n: nat): (p: seq<nat>)
    requires d.unit > 0 && Names(d.dir)
    ensures |p| <= Need(n, d.unit)
  {
    var free := Free(Cleared(d.fat, Owned(d, Find(d.dir, key, 0))));
    free[..Smaller(Need(n, d.unit), |free|)]
  }

  function FreshEntry(key: seq<byte>): Entry {
    Entry(key, ARCHIVE, seq(14, _ => 0), 0, 0)
  }

  function WriteFile(d: Disk, key: seq<byte>, bytes: seq<byte>): Outcome
    requires d.unit > 0 && Names(d.dir)
  {
    var i := Find(d.dir, key, 0);
    var p := Granted(d, key, |bytes|);
    var stored := d.(fat := Linked(Cleared(d.fat, Owned(d, i)), p),
                     data := Filled(d.data, p, bytes, d.unit));
    var slot := if i < |d.dir| then i else Vacant(d.dir, 0);
    if |p| < Need(|bytes|, d.unit) || slot == |d.dir| then Outcome(stored, false)
    else
      var e := if i < |d.dir| then d.dir[i] else FreshEntry(key);
      Outcome(stored.(dir := d.dir[slot := e.(first := if p == [] then 0 else p[0], size := |bytes|)]), true)
  }

  function EraseName(e: Entry): Entry
    requires |e.name| == 11
  {
    e.(name := e.name[0 := ERASED])
  }

  function DeleteFile(d: Disk, key: seq<byte>): Outcome
    requires Names(d.dir)
  {
    var i := Find(d.dir, key, 0);
    if i == |d.dir| then Outcome(d, false)
    else Outcome(d.(fat := Cleared(d.fat, Owned(d, i)), dir := d.dir[i := EraseName(d.dir[i])]), true)
  }

  // ---- consistency ----

  ghost predicate Tidy(dir: seq<Entry>)
    requires Names(dir)
  {
    && (forall i, j :: 0 <= i < j < |dir| && dir[i].name[0] == UNUSED ==> dir[j].name[0] == UNUSED)
    && (forall i, j :: 0 <= i < j < |dir| && Listed(dir[i]) && Listed(dir[j]) ==> dir[i].name != dir[j].name)
  }

  /** Every listed file owns an acyclic, terminated chain in range, disjoint
      from every other file's. */
  ghost predicate ChainsFine(d: Disk)
    requires Names(d.dir)
  {
    && (forall i :: 0 <= i < |d.dir| && Listed(d.dir[i]) ==> GoodChain(d.fat, d.dir[i].first))
    && (forall i, j :: 0 <= i < j < |d.dir| && Listed(d.dir[i]) && Listed(d.dir[j]) ==>
                         Disjoint(Owned(d, i), Owned(d, j)))
  }

  ghost predicate Consistent(d: Disk) {
    Shape(d) && Tidy(d.dir) && ChainsFine(d)
  }

  /** A key the driver can produce from a C string. */
  predicate Key(n: seq<byte>) {
    |n| == 11 && n[0] != UNUSED
  }

  lemma NameIsKey(name: seq<byte>)
    requires forall i :: 0 <= i < |name| ==> name[i] != 0
    ensures Key(Name83(name))
    ensures Name83(name)[0] == ERASED <==> |name| > 0 && name[0] == ERASED
  {
    assert |name| > 0 ==> (name[0] == DOT <==> DotAt(name) == 0);
  }
}
