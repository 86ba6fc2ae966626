/** The compiler driver: generate every function, then link in place. */
module Compiler {
  import opened Basics
  import opened Word32
  import opened Machine
  import opened Syntax
  import opened Compile
  import opened Encoding
  import opened Link
  import opened Cpu
  import opened Emission
  import opened CodeGen
  import opened Program

  const STRING_MAX: nat := 2048
  const DATA_MAX: nat := 4096

  /** Everything fits the compiler's tables. */
  predicate WithinCapacity(fs: seq<Stmt>)
    requires AllWellFormed(fs)
  {
    LabelsBefore(fs, |fs|) <= LABEL_MAX && Fits(Items(fs, |fs|))
  }

  lemma {:induction false} OffsPrefixFits(fs: seq<Stmt>, n: nat)
    requires n <= |fs| && AllWellFormed(fs) && WithinCapacity(fs)
    ensures LabelsBefore(fs, n) <= LABEL_MAX && Fits(Items(fs, n))
    decreases |fs| - n
  {
    hide FunctionCode, Fits, StmtLabels;
    if n < |fs| {
      OffsPrefixFits(fs, n + 1);
      FitsPrefix(Items(fs, n), FunctionCode(fs[n], LabelsBefore(fs, n)));
    }
  }

  lemma {:induction false} FitsPrefix(a: seq<Item>, b: seq<Item>)
    requires Fits(a + b)
    ensures Fits(a)
    decreases |b|
  {
    hide Fits;
    if b == [] {
      assert a + b == a;
    } else {
      var n := |b| - 1;
      assert a + b == (a + b[..n]) + [b[n]];
      Snoc(a + b[..n], b[n]);
      FitsPrefix(a, b[..n]);
    }
  }

  /** Overwrite the dword at `at`. */
  method PatchDword(a: array<byte>, at: nat, v: int)
    requires at + 4 <= a.Length
    modifies a
    ensures a[..] == Patch(old(a[..]), at, v)
  {
    var d := Dword(v);
    a[at] := d[0];
    a[at + 1] := d[1];
    a[at + 2] := d[2];
    a[at + 3] := d[3];
    assert a[..] == old(a[..])[..at] + d + old(a[..])[at + 4..];
  }

  /** Patching inside a slice of a buffer. */
  lemma PatchSlice(b: seq<byte>, lo: nat, n: nat, at: nat, v: int)
    requires lo + n <= |b| && at + 4 <= n
    ensures Patch(b, lo + at, v)[lo..lo + n] == Patch(b[lo..lo + n], at, v)
    ensures Patch(b, lo + at, v)[..lo] == b[..lo] && Patch(b, lo + at, v)[lo + n..] == b[lo + n..]
    ensures Read32(b, lo + at) == Read32(b[lo..lo + n], at)
  {
    hide Dword;
  }

  method ReadDwordAt(a: array<byte>, at: nat) returns (w: Word)
    requires at + 4 <= a.Length
    ensures w == Read32(a[..], at)
  {
    var b0: int, b1: int, b2: int, b3: int := a[at], a[at + 1], a[at + 2], a[at + 3];
    w := b0 + 0x100 * b1 + 0x1_0000 * b2 + 0x100_0000 * b3;
  }

  /** Patch every recorded fixup of the code at offset 5 of `out`. */
  method ResolveFixups(out: array<byte>, n: nat, fixups: seq<Fixup>, labelPos: seq<int>, funOff: map<int, int>,
                       dbase: int, ghost lay: Layout)
    requires CODE_START + n <= out.Length && Within(fixups, n) && |labelPos| == LABEL_MAX
    requires forall k :: 0 <= k < |fixups| && fixups[k].ref.ToLabel? ==>
               0 <= fixups[k].ref.l < LABEL_MAX && labelPos[fixups[k].ref.l] == LabelAt(lay, fixups[k].ref.l)
    requires lay.funOff == funOff && lay.dbase == dbase
    modifies out
    ensures out[CODE_START..CODE_START + n] == Apply(old(out[CODE_START..CODE_START + n]), fixups, lay)
    ensures out[..CODE_START] == old(out[..CODE_START]) && out[CODE_START + n..] == old(out[CODE_START + n..])
  {
    hide Patch, Read32;
    ghost var code := out[CODE_START..CODE_START + n];
    ghost var start := out[..];
    var i := 0;
    while i < |fixups|
      invariant 0 <= i <= |fixups| && Within(fixups[..i], n)
      invariant out[..][CODE_START..CODE_START + n] == Apply(code, fixups[..i], lay)
      invariant out[..][..CODE_START] == start[..CODE_START] && out[..][CODE_START + n..] == start[CODE_START + n..]
    {
      var fx := fixups[i];
      var co := fx.at + CODE_START;
      ghost var before := out[..];
      assert fixups[..i + 1][..i] == fixups[..i] && fixups[..i + 1][i] == fx;
      ghost var v := Resolved(before[CODE_START..CODE_START + n], fx, lay);
      PatchSlice(before, CODE_START, n, fx.at, v);
      match fx.ref {
        case ToData =>
          var off := ReadDwordAt(out, co);
          PatchDword(out, co, dbase + off);
        case ToFunction(f) =>
          var target := CODE_START + if f in funOff then funOff[f] else 0;
          PatchDword(out, co, target - (co + 4));
        case ToLabel(l) =>
          var target := CODE_START + labelPos[l];
          PatchDword(out, co, target - (co + 4));
      }
      assert out[..] == Patch(before, co, v);
      i := i + 1;
    }
    assert fixups[..i] == fixups;
    assert out[..][CODE_START..CODE_START + n] == out[CODE_START..CODE_START + n];
  }

  /** Add the string section's address to every recorded string reference. */
  method ResolveStrings(out: array<byte>, n: nat, sites: seq<nat>, sbase: int)
    requires CODE_START + n <= out.Length && StrWithin(sites, n)
    modifies out
    ensures out[CODE_START..CODE_START + n] == ApplyStr(old(out[CODE_START..CODE_START + n]), sites, sbase)
    ensures out[..CODE_START] == old(out[..CODE_START]) && out[CODE_START + n..] == old(out[CODE_START + n..])
  {
    hide Patch, Read32;
    ghost var code := out[CODE_START..CODE_START + n];
    ghost var start := out[..];
    var i := 0;
    while i < |sites|
      invariant 0 <= i <= |sites| && StrWithin(sites[..i], n)
      invariant out[..][CODE_START..CODE_START + n] == ApplyStr(code, sites[..i], sbase)
      invariant out[..][..CODE_START] == start[..CODE_START] && out[..][CODE_START + n..] == start[CODE_START + n..]
    {
      var co := sites[i] + CODE_START;
      ghost var before := out[..];
      assert sites[..i + 1][..i] == sites[..i] && sites[..i + 1][i] == sites[i];
      ghost var v := sbase + Read32(before[CODE_START..CODE_START + n], sites[i]);
      PatchSlice(before, CODE_START, n, sites[i], v);
      var off := ReadDwordAt(out, co);
      PatchDword(out, co, sbase + off);
      i := i + 1;
    }
    assert sites[..i] == sites;
    assert out[..][CODE_START..CODE_START + n] == out[CODE_START..CODE_START + n];
  }

  /** Copy `bs` to `out` from `at` on. */
  method CopyTo(out: array<byte>, at: nat, bs: seq<byte>)
    requires at + |bs| <= out.Length
    modifies out
    ensures out[..at] == old(out[..at]) && out[at..at + |bs|] == bs && out[at + |bs|..] == old(out[at + |bs|..])
  {
    var k := 0;
    while k < |bs|
      invariant 0 <= k <= |bs|
      invariant out[..] == old(out[..at]) + bs[..k] + old(out[at + k..])
    {
      out[at + k] := bs[k];
      k := k + 1;
    }
  }

  /** Build the image of the generated code: entry jump, code, fixups, strings, string
      references, zeroed data. */
  method Output(g: Generator, main: nat, funs: map<int, int>, strings: seq<byte>, data: nat)
    returns (out: array<byte>, size: nat)
    requires g.Valid() && |strings| <= STRING_MAX
    requires CODE_START + CODE_MAX + |strings| + data <= CODE_MAX + STRING_MAX + DATA_MAX
    requires g.Sound() && Fine(g.items, 0, LABEL_MAX, {})
    ensures fresh(out) && size <= out.Length
    ensures out[..size] == Image(main, LinkedBytes(g.items, LayoutOf(g.items, funs, |strings|), true), strings, data)
  {
    hide Patch, Read32, Dword, Bytes, Fixups, StrFixups, LabelOffsets, LinkedBytes, Apply, ApplyStr;
    out := new byte[CODE_MAX + STRING_MAX + DATA_MAX];
    var n := |g.code|;
    var stringStart := CODE_START + n;
    var dataStart := stringStart + |strings|;
    size := dataStart + data;
    ghost var lay := LayoutOf(g.items, funs, |strings|);
    FixupsWithin(g.items);
    FixupTargets(g.items, LABEL_MAX);
    LinkResolves(g.items, lay);
    CopyTo(out, 0, [0xE9] + Dword(main));
    LinkCode(out, g.code, g.fixups, g.labelPos, funs, g.strFixups, strings, lay);
    ghost var code1 := out[CODE_START..stringStart];
    Prefixes(out[..], CODE_START, stringStart, dataStart);
    CopyTo(out, dataStart, seq(data, _ => 0));
    Assemble(out[..], CODE_START, stringStart, dataStart, size, [0xE9] + Dword(main), code1, strings,
             seq(data, _ => 0));
  }

  lemma Prefixes(b: seq<byte>, i: nat, j: nat, k: nat)
    requires i <= j <= k <= |b|
    ensures b[..k][..i] == b[..i] && b[..k][i..j] == b[i..j] && b[..k][j..k] == b[j..k]
  {}

  lemma Assemble(b: seq<byte>, i: nat, j: nat, k: nat, size: nat, s0: seq<byte>, s1: seq<byte>, s2: seq<byte>,
                 s3: seq<byte>)
    requires i <= j <= k <= size <= |b|
    requires b[..k][..i] == s0 && b[..k][i..j] == s1 && b[..k][j..k] == s2 && b[k..size] == s3
    ensures b[..size] == s0 + s1 + s2 + s3
  {
    assert b[..size] == b[..k] + b[k..size];
    assert b[..k] == b[..k][..i] + b[..k][i..j] + b[..k][j..k];
  }

  /** Code and strings in place after the entry jump, every reference resolved. */
  method LinkCode(out: array<byte>, code: seq<byte>, fixups: seq<Fixup>, labelPos: seq<int>, funs: map<int, int>,
                  strFixups: seq<nat>, strings: seq<byte>, ghost lay: Layout)
    requires CODE_START + |code| + |strings| <= out.Length && Within(fixups, |code|) && StrWithin(strFixups, |code|)
    requires |labelPos| == LABEL_MAX && lay.funOff == funs
    requires lay.sbase == LOAD_ADDR + CODE_START + |code| && lay.dbase == lay.sbase + |strings|
    requires forall k :: 0 <= k < |fixups| && fixups[k].ref.ToLabel? ==>
               0 <= fixups[k].ref.l < LABEL_MAX && labelPos[fixups[k].ref.l] == LabelAt(lay, fixups[k].ref.l)
    modifies out
    ensures out[..CODE_START] == old(out[..CODE_START])
    ensures out[CODE_START..CODE_START + |code|] == ApplyStr(Apply(code, fixups, lay), strFixups, lay.sbase)
    ensures out[CODE_START + |code|..CODE_START + |code| + |strings|] == strings
  {
    hide Patch, Read32, Apply, ApplyStr;
    var n := |code|;
    var stringStart := CODE_START + n;
    CopyTo(out, CODE_START, code);
    ResolveFixups(out, n, fixups, labelPos, funs, LOAD_ADDR + stringStart + |strings|, lay);
    ghost var before := out[..];
    CopyTo(out, stringStart, strings);
    Slice(before, CODE_START, stringStart, stringStart);
    Slice(out[..], CODE_START, stringStart, stringStart);
    Head(before, CODE_START, stringStart);
    Head(out[..], CODE_START, stringStart);
    ghost var after := out[stringStart..];
    ResolveStrings(out, n, strFixups, LOAD_ADDR + stringStart);
    assert out[stringStart..stringStart + |strings|] == after[..|strings|];
  }

  lemma Slice(b: seq<byte>, i: nat, j: nat, k: nat)
    requires i <= j <= k <= |b|
    ensures b[..k][i..j] == b[i..j]
  {}

  lemma Head(b: seq<byte>, i: nat, k: nat)
    requires i <= k <= |b|
    ensures b[..k][..i] == b[..i]
  {}

  /** Every label a fixup names is inside the label table. */
  lemma {:induction false} FixupTargets(items: seq<Item>, b: nat)
    requires Fine(items, 0, b, {})
    ensures forall k :: 0 <= k < |Fixups(items)| && Fixups(items)[k].ref.ToLabel? ==> 0 <= Fixups(items)[k].ref.l < b
  {
    hide Encodable, Off;
    if items != [] {
      var n := |items| - 1;
      FixupTargets(items[..n], b);
    }
  }

  /** Compile `fs` with entry function `main`: within capacity, the image is `ImageOf`. */
  method CompileProgram(fs: seq<Stmt>, main: nat, strings: seq<byte>, data: nat) returns (out: array<byte>, size: nat)
    requires AllWellFormed(fs) && main < |fs| && WithinCapacity(fs)
    requires |strings| <= STRING_MAX && CODE_START + CODE_MAX + |strings| + data <= CODE_MAX + STRING_MAX + DATA_MAX
    ensures fresh(out) && size <= out.Length && out[..size] == ImageOf(fs, main, strings, data)
  {
    hide FunctionCode, Bytes, Fits, LinkedBytes, LayoutOf, Generator.Valid, Generator.Stacked, Fine, StmtLabels,
         WellNested, Nesting;
    var g := new Generator();
    var mainOffset := 0;
    var funs: map<int, int> := map[];
    var i := 0;
    while i < |fs|
      invariant 0 <= i <= |fs| && fresh(g)
      invariant g.Valid() && g.Stacked() && g.loops == []
      invariant g.items == Items(fs, i) && g.asked == LabelsBefore(fs, i)
      invariant i > main ==> mainOffset == |Bytes(Items(fs, main))|
      invariant funs == map f | 0 <= f < i :: |Bytes(Items(fs, f))|
    {
      OffsPrefixFits(fs, i);
      ghost var before := |Bytes(Items(fs, i))|;
      var offset := g.EmitFunction(fs[i]);
      assert offset == before;
      funs := funs[i := offset];
      if i == main {
        mainOffset := offset;
      }
      i := i + 1;
    }
    ItemsFine(fs, |fs|, LABEL_MAX);
    assert funs == FunOffsets(fs);
    out, size := Output(g, mainOffset, funs, strings, data);
  }
}
