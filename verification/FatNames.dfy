/** Listing the root directory, and when a listed name leads back to its file. */
module FatNames {
  import opened Basics
  import opened FatDisk
  import opened FatFiles
  import opened FatLayout
  import opened FatVolume
  import Ramdisk

  const SPACE: byte := 32

  function Lower(c: byte): byte {
    if 'A' as int <= c <= 'Z' as int then c + 32 else c
  }

  /** The part of `s` before the first space, in lower case. */
  function Trimmed(s: seq<byte>): (r: seq<byte>)
    ensures |r| <= |s|
    ensures forall i :: 0 <= i < |r| ==> s[i] != SPACE && r[i] == Lower(s[i])
    ensures |r| < |s| ==> s[|r|] == SPACE
  {
    if s == [] || s[0] == SPACE then [] else [Lower(s[0])] + Trimmed(s[1..])
  }

  function FormatName(raw: seq<byte>): seq<byte>
    requires |raw| == 11
  {
    Trimmed(raw[..8]) + if raw[8] != SPACE then [DOT] + Trimmed(raw[8..]) else []
  }

  predicate PaddedRight(s: seq<byte>) {
    forall i, j :: 0 <= i < j < |s| && s[i] == SPACE ==> s[j] == SPACE
  }

  predicate LowerCase(c: byte) {
    'a' as int <= c <= 'z' as int
  }

  /** Names the driver itself writes: no lower case, spaces only as padding,
      and no dot in the first eight bytes. */
  predicate Canonical(raw: seq<byte>)
    requires |raw| == 11
  {
    && (forall i :: 0 <= i < 11 ==> !LowerCase(raw[i]))
    && PaddedRight(raw[..8]) && PaddedRight(raw[8..])
    && (forall i :: 0 <= i < 8 ==> raw[i] != DOT)
  }

  /** Trimming a field to lower case and padding it again gives it back
      exactly when it has no lower case and spaces only at its end. */
  lemma {:induction false} FieldBack(s: seq<byte>)
    ensures Padded(Trimmed(s), |s|) == s <==> PaddedRight(s) && forall i :: 0 <= i < |s| ==> !LowerCase(s[i])
  {
    hide Upper, Lower, LowerCase, Trimmed, PaddedRight;
    var t := Trimmed(s);
    var back := Padded(t, |s|);
    forall i | 0 <= i < |s| ensures back[i] == s[i] <==> FieldByte(s, |t|, i) {
      if i < |t| { UpperLower(s[i]); }
    }
    assert back == s <==> forall i :: 0 <= i < |s| ==> FieldByte(s, |t|, i);
    FieldShape(s, |t|);
  }

  predicate FieldByte(s: seq<byte>, n: nat, i: nat)
    requires i < |s|
  {
    if i < n then !LowerCase(s[i]) else s[i] == SPACE
  }

  lemma UpperLower(c: byte)
    ensures Upper(Lower(c)) == c <==> !LowerCase(c)
  {
  }

  lemma FieldShape(s: seq<byte>, n: nat)
    requires n <= |s| && (n < |s| ==> s[n] == SPACE) && forall i :: 0 <= i < n ==> s[i] != SPACE
    ensures (forall i :: 0 <= i < |s| ==> FieldByte(s, n, i)) <==>
            PaddedRight(s) && forall i :: 0 <= i < |s| ==> !LowerCase(s[i])
  {
    if forall i :: 0 <= i < |s| ==> FieldByte(s, n, i) {
      forall i | 0 <= i < |s| ensures !LowerCase(s[i]) && (i >= n ==> s[i] == SPACE) {
        assert FieldByte(s, n, i);
      }
    }
  }

  /** The displayed form of a directory name leads back to it exactly when the
      name is canonical. */
  lemma FormatThenParse(raw: seq<byte>)
    requires |raw| == 11
    ensures Name83(FormatName(raw)) == raw <==> Canonical(raw)
  {
    hide Trimmed, Padded;
    var stem, ext := Trimmed(raw[..8]), Trimmed(raw[8..]);
    var name := FormatName(raw);
    var k := DotAt(name);
    if k < |stem| {
      DotInside(raw, stem, k);
    } else {
      var rest := if raw[8] != SPACE then [DOT] + ext else [];
      DotFound(stem, rest);
      assert name[..k] == stem;
      TrimmedEmpty(raw[8..]);
      assert raw[8] != SPACE ==> name[k + 1..] == ext;
      assert raw[8] == SPACE ==> ext == [] && k == |name|;
      assert Name83(name) == Padded(stem, 8) + Padded(ext, 3);
      assert raw == raw[..8] + raw[8..];
      FieldBack(raw[..8]);
      FieldBack(raw[8..]);
      NoDot(raw, stem);
      CanonicalParts(raw);
    }
  }

  lemma TrimmedEmpty(s: seq<byte>)
    requires |s| > 0
    ensures Trimmed(s) == [] <==> s[0] == SPACE
  {
  }

  lemma CanonicalParts(raw: seq<byte>)
    requires |raw| == 11
    ensures (forall i :: 0 <= i < 11 ==> !LowerCase(raw[i])) <==>
            (forall i :: 0 <= i < 8 ==> !LowerCase(raw[..8][i])) && (forall i :: 0 <= i < 3 ==> !LowerCase(raw[8..][i]))
  {
    forall i | 0 <= i < 11 ensures raw[i] == if i < 8 then raw[..8][i] else raw[8..][i - 8] {
    }
  }

  lemma DotInside(raw: seq<byte>, stem: seq<byte>, k: nat)
    requires |raw| == 11 && stem == Trimmed(raw[..8]) && k < |stem| && stem[k] == DOT
    requires k == DotAt(FormatName(raw))
    ensures Name83(FormatName(raw)) != raw && !Canonical(raw)
  {
    assert raw[..8][k] == raw[k] == DOT;
    assert Name83(FormatName(raw))[k] == SPACE;
  }

  /** Without a dot before its first space, a padded stem has none at all. */
  lemma NoDot(raw: seq<byte>, stem: seq<byte>)
    requires |raw| == 11 && stem == Trimmed(raw[..8]) && forall j :: 0 <= j < |stem| ==> stem[j] != DOT
    ensures PaddedRight(raw[..8]) ==> forall i :: 0 <= i < 8 ==> raw[i] != DOT
  {
    var s := raw[..8];
    forall i | 0 <= i < 8 && PaddedRight(s) ensures s[i] == raw[i] != DOT {
      if i < |stem| {
        assert stem[i] == Lower(s[i]);
      } else {
        assert s[|stem|] == SPACE;
      }
    }
  }

  lemma DotFound(stem: seq<byte>, rest: seq<byte>)
    requires DotAt(stem + rest) >= |stem| && (rest == [] || rest[0] == DOT)
    ensures DotAt(stem + rest) == |stem|
    ensures forall j :: 0 <= j < |stem| ==> stem[j] != DOT
  {
    var name := stem + rest;
    assert forall j :: 0 <= j < |stem| ==> name[j] == stem[j];
    if rest != [] { assert name[|stem|] == DOT; }
  }

  // ---- what names the driver tells apart ----

  predicate Dotless(s: seq<byte>) { forall i :: 0 <= i < |s| ==> s[i] != DOT }

  lemma DotBehind(stem: seq<byte>, rest: seq<byte>)
    requires Dotless(stem) && (rest == [] || rest[0] == DOT)
    ensures DotAt(stem + rest) == |stem| && (stem + rest)[..|stem|] == stem
    ensures rest != [] ==> (stem + rest)[|stem| + 1..] == rest[1..]
  {
    var name := stem + rest;
    var k := DotAt(name);
    assert forall i :: 0 <= i < |stem| ==> name[i] == stem[i];
    assert rest != [] ==> name[|stem|] == DOT;
    DotFound(stem, rest);
  }

  /** Of a stem longer than eight bytes the first eight count, of an extension
      longer than three the first three. */
  lemma NameCut(stem: seq<byte>, ext: seq<byte>)
    requires Dotless(stem)
    ensures |stem| > 8 ==> Name83(stem + [DOT] + ext) == Name83(stem[..8] + [DOT] + ext)
                           && Name83(stem) == Name83(stem[..8])
    ensures |ext| > 3 ==> Name83(stem + [DOT] + ext) == Name83(stem + [DOT] + ext[..3])
    ensures Name83(stem + [DOT]) == Name83(stem)
  {
    hide DotAt;
    var rest := [DOT] + ext;
    assert stem + [DOT] + ext == stem + rest && rest[1..] == ext;
    DotBehind(stem, rest);
    DotBehind(stem, [DOT]);
    DotBehind(stem, []);
    assert stem + [] == stem;
    if |stem| > 8 {
      assert stem[..8] + [DOT] + ext == stem[..8] + rest && stem[..8] + [] == stem[..8];
      DotBehind(stem[..8], rest);
      DotBehind(stem[..8], []);
      assert Padded(stem, 8) == Padded(stem[..8], 8);
    }
    if |ext| > 3 {
      var cut := [DOT] + ext[..3];
      assert stem + [DOT] + ext[..3] == stem + cut && cut[1..] == ext[..3];
      DotBehind(stem, cut);
      assert Padded(ext, 3) == Padded(ext[..3], 3);
    }
  }

  predicate UpperCase(s: seq<byte>) { forall i :: 0 <= i < |s| ==> !LowerCase(s[i]) }

  /** An upper-case name that fits is stored as it is, each part filled up with
      spaces. */
  lemma NameStored(stem: seq<byte>, ext: seq<byte>)
    requires Dotless(stem) && |stem| <= 8 && |ext| <= 3 && UpperCase(stem) && UpperCase(ext)
    ensures Name83(stem + [DOT] + ext) == stem + seq(8 - |stem|, _ => SPACE) + ext + seq(3 - |ext|, _ => SPACE)
  {
    hide DotAt;
    var rest := [DOT] + ext;
    assert stem + [DOT] + ext == stem + rest && rest[1..] == ext;
    DotBehind(stem, rest);
    assert Padded(stem, 8) == stem + seq(8 - |stem|, _ => SPACE);
    assert Padded(ext, 3) == ext + seq(3 - |ext|, _ => SPACE);
  }

  /** The same letters in either case. */
  predicate SameLetters(a: seq<byte>, b: seq<byte>) {
    |a| == |b| && forall i :: 0 <= i < |a| ==> Lower(a[i]) == Lower(b[i])
  }

  lemma NameAnyCase(a: seq<byte>, b: seq<byte>)
    requires SameLetters(a, b)
    ensures Name83(a) == Name83(b)
  {
    SameDot(a, b);
    var k := DotAt(a);
    forall i | 0 <= i < |a| ensures Upper(a[i]) == Upper(b[i]) {
      assert Lower(a[i]) == Lower(b[i]);
    }
    assert Padded(a[..k], 8) == Padded(b[..k], 8);
    if k < |a| { assert Padded(a[k + 1..], 3) == Padded(b[k + 1..], 3); }
  }

  lemma SameDot(a: seq<byte>, b: seq<byte>)
    requires SameLetters(a, b)
    ensures DotAt(a) == DotAt(b)
  {
    hide DotAt;
    assert forall i :: 0 <= i < |a| ==> Lower(a[i]) == Lower(b[i]);
  }

  /** A file placed on the ramdisk as `stem` and `ext` is the driver's `stem.ext`. */
  lemma ShippedName(f: Ramdisk.File)
    requires Dotless(f.name)
    ensures Ramdisk.KeyOf(f) == Name83(f.name + [DOT] + f.ext)
  {
    hide DotAt, Padded;
    var rest := [DOT] + f.ext;
    assert f.name + [DOT] + f.ext == f.name + rest && rest[1..] == f.ext;
    DotBehind(f.name, rest);
  }

  datatype Item = Item(name: seq<byte>, size: nat, attr: byte)

  function ItemOf(e: Entry): Item
    requires |e.name| == 11
  {
    Item(FormatName(e.name), e.size, e.attr)
  }

  /** The first `max` listed files from slot `i` on, in slot order. */
  function Listing(dir: seq<Entry>, i: nat, max: nat): (r: seq<Item>)
    requires Names(dir) && i <= |dir|
    ensures |r| <= max
    decreases |dir| - i
  {
    if i == |dir| || max == 0 || dir[i].name[0] == UNUSED then []
    else if Listed(dir[i]) then [ItemOf(dir[i])] + Listing(dir, i + 1, max - 1)
    else Listing(dir, i + 1, max)
  }

  lemma ListingStep(dir: seq<Entry>, i: nat, max: nat)
    requires Names(dir) && i < |dir| && max > 0
    ensures Listing(dir, i, max) ==
            if dir[i].name[0] == UNUSED then []
            else if Listed(dir[i]) then [ItemOf(dir[i])] + Listing(dir, i + 1, max - 1)
            else Listing(dir, i + 1, max)
  {
  }

  /** How many listed files there are in the slots from `i` on before `j`. */
  function Rank(dir: seq<Entry>, i: nat, j: nat): nat
    requires Names(dir) && i <= j <= |dir|
    decreases j - i
  {
    if i == j then 0 else (if Listed(dir[i]) then 1 else 0) + Rank(dir, i + 1, j)
  }

  /** The listing is in slot order: each file comes after those in earlier slots. */
  lemma {:induction false} ListingInOrder(dir: seq<Entry>, i: nat, j: nat, max: nat)
    requires Names(dir) && i <= j < |dir| && Listed(dir[j]) && Rank(dir, i, j) < max
    requires forall k :: i <= k < j ==> dir[k].name[0] != UNUSED
    ensures Rank(dir, i, j) < |Listing(dir, i, max)| && Listing(dir, i, max)[Rank(dir, i, j)] == ItemOf(dir[j])
    decreases j - i
  {
    ListingStep(dir, i, max);
    if i < j { ListingInOrder(dir, i + 1, j, if Listed(dir[i]) then max - 1 else max); }
  }

  /** A tidy directory's listing holds its listed files and nothing else. */
  lemma {:induction false} ListingComplete(dir: seq<Entry>, i: nat, max: nat)
    requires Names(dir) && Tidy(dir) && i <= |dir| && max >= |dir| - i
    ensures forall it :: it in Listing(dir, i, max) <==>
              exists j :: i <= j < |dir| && Listed(dir[j]) && it == ItemOf(dir[j])
    decreases |dir| - i
  {
    if i < |dir| {
      if dir[i].name[0] == UNUSED {
        assert forall j :: i < j < |dir| ==> dir[j].name[0] == UNUSED;
      } else if Listed(dir[i]) {
        ListingComplete(dir, i + 1, max - 1);
        var rest := Listing(dir, i + 1, max - 1);
        assert forall it :: it in [ItemOf(dir[i])] + rest <==> it == ItemOf(dir[i]) || it in rest;
      } else {
        ListingComplete(dir, i + 1, max);
      }
    }
  }

  /** Reading a canonically named file under its listed name gives its bytes. */
  lemma ListedReads(d: Disk, i: nat)
    requires Consistent(d) && i < |d.dir| && Listed(d.dir[i]) && Canonical(d.dir[i].name)
    ensures Lookup(d, Name83(ItemOf(d.dir[i]).name)) == Some(Content(d, d.dir[i]))
  {
    FormatThenParse(d.dir[i].name);
    FindListed(d.dir, d.dir[i].name, i);
  }

  lemma {:induction false} TrimmedIs(s: seq<byte>, r: seq<byte>)
    requires |r| <= |s| && (|r| < |s| ==> s[|r|] == SPACE)
    requires forall i :: 0 <= i < |r| ==> s[i] != SPACE && r[i] == Lower(s[i])
    ensures Trimmed(s) == r
  {
    if r != [] {
      TrimmedIs(s[1..], r[1..]);
      assert r == [r[0]] + r[1..];
    }
  }

  /** Copies the bytes before the first space behind `out`, in lower case. */
  method TrimInto(raw: seq<byte>, out: seq<byte>) returns (r: seq<byte>)
    ensures r == out + Trimmed(raw)
  {
    var i := 0;
    r := out;
    while i < |raw| && raw[i] != SPACE
      invariant 0 <= i <= |raw| && |r| == |out| + i && r[..|out|] == out
      invariant forall j :: 0 <= j < i ==> raw[j] != SPACE && r[|out| + j] == Lower(raw[j])
    {
      var c := raw[i];
      if 'A' as int <= c <= 'Z' as int { c := c + 32; }
      r := r + [c];
      i := i + 1;
    }
    TrimmedIs(raw, r[|out|..]);
    assert r == r[..|out|] + r[|out|..];
  }

  method Format(raw: seq<byte>) returns (out: seq<byte>)
    requires |raw| == 11
    ensures out == FormatName(raw)
  {
    out := TrimInto(raw[..8], []);
    if raw[8] != SPACE {
      out := TrimInto(raw[8..], out + [DOT]);
    }
  }

  lemma Regroup(a: seq<Item>, b: seq<Item>, c: seq<Item>)
    ensures a + (b + c) == (a + b) + c
  {
  }

  lemma ListingEnds(dir: seq<Entry>, i: nat, max: nat)
    requires Names(dir) && i <= |dir| && (i == |dir| || max == 0)
    ensures Listing(dir, i, max) == []
  {
  }

  /** Lists at most `max` files of a volume. */
  method ListRoot(v: Volume, max: nat) returns (items: seq<Item>)
    requires v.Laid()
    ensures Names(v.Now().dir) && items == Listing(v.Now().dir, 0, max)
  {
    hide View, Sound, LayoutOf, SlotAt, Fits, ClusterAt, EntryAt, FormatName, Listing;
    ViewShape(v.vol[..], v.Lay());
    items := [];
    var i := 0;
    assert Listing(v.Now().dir, 0, max) == [] + Listing(v.Now().dir, 0, max);
    while i < v.rootEntryCount && |items| < max
      invariant 0 <= i <= v.rootEntryCount == v.Lay().slots && |items| <= max
      invariant Listing(v.Now().dir, 0, max) == items + Listing(v.Now().dir, i, max - |items|)
    {
      var o := v.SlotAddress(i);
      ListingStep(v.Now().dir, i, max - |items|);
      var first, attr := v.vol[o], v.vol[o + 11];
      if first == 0x00 {
        assert items + [] == items;
        return;
      }
      if first != 0xE5 && (attr / 0x08) % 2 == 0 && (attr / 0x10) % 2 == 0 {
        var name := Format(v.vol[o..o + 11]);
        var size := v.FileSize(i);
        Regroup(items, [Item(name, size, attr)], Listing(v.Now().dir, i + 1, max - |items| - 1));
        items := items + [Item(name, size, attr)];
      }
      i := i + 1;
    }
    ListingEnds(v.Now().dir, i, max - |items|);
    assert items + [] == items;
  }
}
