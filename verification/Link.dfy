/** Emission to bytes with placeholders, the recorded fixups, and the link step. */
module Link {
  import opened Basics
  import opened Word32
  import opened Machine
  import opened Encoding

  /** Where things end up: label and function offsets in the code, section addresses. */
  datatype Layout = Layout(labelOff: map<int, int>, funOff: map<int, int>, dbase: int, sbase: int)

  /** As emitted: displacements to labels and functions are zero until linking. */
  function Raw(i: Instr): Instr {
    match i
    case Jump(w, _) => Jump(w, 0)
    case Call(_) => Call(0)
    case _ => i
  }

  function ItemBytes(x: Item): seq<byte> {
    match x
    case Label(_) => []
    case Op(i) => Encode(Raw(i))
  }

  function Bytes(items: seq<Item>): seq<byte> {
    if items == [] then [] else Bytes(items[..|items| - 1]) + ItemBytes(items[|items| - 1])
  }

  /** Code offset of the item at index `k`. */
  function Off(items: seq<Item>, k: nat): nat
    requires k <= |items|
  {
    if k == 0 then 0 else Off(items, k - 1) + |ItemBytes(items[k - 1])|
  }

  function LabelAt(lay: Layout, l: int): int { if l in lay.labelOff then lay.labelOff[l] else -1 }

  function FunAt(lay: Layout, f: int): int { if f in lay.funOff then lay.funOff[f] else 0 }

  /** The instruction at code offset `pos` with its references resolved; string references
      are resolved last, so `str` says whether that has happened. */
  function Linked(i: Instr, pos: int, lay: Layout, str: bool): Instr {
    match i
    case Jump(w, l) => Jump(w, LabelAt(lay, l) - (pos + |Encode(Raw(i))|))
    case Call(f) => Call(FunAt(lay, f) - (pos + |Encode(Raw(i))|))
    case LoadAbs(a) => LoadAbs(Wrap(lay.dbase + a))
    case StoreAbs(a) => StoreAbs(Wrap(lay.dbase + a))
    case LoadStr(o) => if str then LoadImm(Wrap(lay.sbase + o)) else i
    case _ => i
  }

  function LinkedItem(x: Item, pos: int, lay: Layout, str: bool): seq<byte> {
    match x
    case Label(_) => []
    case Op(i) => Encode(Linked(i, pos, lay, str))
  }

  /** The whole code section with every reference resolved. */
  function LinkedBytes(items: seq<Item>, lay: Layout, str: bool): seq<byte> {
    if items == [] then []
    else
      var n := |items| - 1;
      LinkedBytes(items[..n], lay, str) + LinkedItem(items[n], Off(items, n), lay, str)
  }

  // ----- fixups -----

  datatype Ref = ToLabel(l: int) | ToData | ToFunction(f: int)

  datatype Fixup = Fixup(at: nat, ref: Ref)

  /** The fixup an emitter records for an instruction at code offset `pos`. */
  function FixupOf(x: Item, pos: nat): seq<Fixup> {
    match x
    case Label(_) => []
    case Op(i) =>
      match i
      case Jump(_, l) => [Fixup(pos + OperandAt(i), ToLabel(l))]
      case Call(f) => [Fixup(pos + 1, ToFunction(f))]
      case LoadAbs(_) => [Fixup(pos + 1, ToData)]
      case StoreAbs(_) => [Fixup(pos + 1, ToData)]
      case _ => []
  }

  function StrFixupOf(x: Item, pos: nat): seq<nat> {
    if x.Op? && x.i.LoadStr? then [pos + 1] else []
  }

  function Fixups(items: seq<Item>): seq<Fixup> {
    if items == [] then []
    else
      var n := |items| - 1;
      Fixups(items[..n]) + FixupOf(items[n], Off(items, n))
  }

  function StrFixups(items: seq<Item>): seq<nat> {
    if items == [] then []
    else
      var n := |items| - 1;
      StrFixups(items[..n]) + StrFixupOf(items[n], Off(items, n))
  }

  function Patch(b: seq<byte>, at: nat, v: int): (r: seq<byte>)
    requires at + 4 <= |b|
    ensures |r| == |b|
  {
    b[..at] + Dword(v) + b[at + 4..]
  }

  /** What the link step writes at a fixup. */
  function Resolved(b: seq<byte>, fx: Fixup, lay: Layout): int
    requires fx.at + 4 <= |b|
  {
    match fx.ref
    case ToLabel(l) => LabelAt(lay, l) - (fx.at + 4)
    case ToFunction(f) => FunAt(lay, f) - (fx.at + 4)
    case ToData => lay.dbase + Read32(b, fx.at)
  }

  ghost predicate Within(fs: seq<Fixup>, n: nat) {
    forall k :: 0 <= k < |fs| ==> fs[k].at + 4 <= n
  }

  ghost predicate StrWithin(fs: seq<nat>, n: nat) {
    forall k :: 0 <= k < |fs| ==> fs[k] + 4 <= n
  }

  function Apply(b: seq<byte>, fs: seq<Fixup>, lay: Layout): (r: seq<byte>)
    requires Within(fs, |b|)
    ensures |r| == |b|
  {
    if fs == [] then b
    else
      var n := |fs| - 1;
      var prev := Apply(b, fs[..n], lay);
      Patch(prev, fs[n].at, Resolved(prev, fs[n], lay))
  }

  function ApplyStr(b: seq<byte>, fs: seq<nat>, sbase: int): (r: seq<byte>)
    requires StrWithin(fs, |b|)
    ensures |r| == |b|
  {
    if fs == [] then b
    else
      var n := |fs| - 1;
      var prev := ApplyStr(b, fs[..n], sbase);
      Patch(prev, fs[n], sbase + Read32(prev, fs[n]))
  }

  // ----- sizes -----

  lemma LinkedSize(i: Instr, pos: int, lay: Layout, str: bool)
    ensures |Encode(Linked(i, pos, lay, str))| == |Encode(Raw(i))|
  {}

  lemma OffPrefix(items: seq<Item>, k: nat, n: nat)
    requires k <= n <= |items|
    ensures Off(items[..n], k) == Off(items, k)
  {
    if k > 0 { OffPrefix(items, k - 1, n); }
  }

  lemma {:induction false} BytesLength(items: seq<Item>)
    ensures |Bytes(items)| == Off(items, |items|)
  {
    if items != [] {
      var n := |items| - 1;
      BytesLength(items[..n]);
      OffPrefix(items, n, n);
    }
  }

  lemma LinkedItemSize(x: Item, pos: int, lay: Layout, str: bool)
    ensures |LinkedItem(x, pos, lay, str)| == |ItemBytes(x)|
  {
    if x.Op? { LinkedSize(x.i, pos, lay, str); }
  }

  lemma {:induction false} LinkedLength(items: seq<Item>, lay: Layout, str: bool)
    ensures |LinkedBytes(items, lay, str)| == Off(items, |items|)
  {
    if items != [] {
      var n := |items| - 1;
      LinkedLength(items[..n], lay, str);
      OffPrefix(items, n, n);
      if items[n].Op? { LinkedSize(items[n].i, Off(items, n), lay, str); }
    }
  }

  lemma {:induction false} OffMonotone(items: seq<Item>, j: nat, k: nat)
    requires j <= k <= |items|
    ensures Off(items, j) <= Off(items, k)
    decreases k
  {
    if j < k { OffMonotone(items, j, k - 1); }
  }

  lemma FixupInside(x: Item, pos: nat)
    ensures Within(FixupOf(x, pos), pos + |ItemBytes(x)|) && StrWithin(StrFixupOf(x, pos), pos + |ItemBytes(x)|)
    ensures |FixupOf(x, pos)| <= 1 && |StrFixupOf(x, pos)| <= 1
    ensures FixupOf(x, pos) != [] ==> pos <= FixupOf(x, pos)[0].at
  {
    if x.Op? && OperandAt(x.i) > 0 { OperandBytes(Raw(x.i)); }
  }

  /** Fixups lie inside the code, in order and without overlap. */
  lemma {:induction false} FixupsWithin(items: seq<Item>)
    ensures Within(Fixups(items), |Bytes(items)|)
    ensures StrWithin(StrFixups(items), |Bytes(items)|)
  {
    hide Encode, ItemBytes, FixupOf, StrFixupOf;
    if items != [] {
      var n := |items| - 1;
      FixupsWithin(items[..n]);
      BytesLength(items[..n]);
      OffPrefix(items, n, n);
      FixupInside(items[n], Off(items, n));
    }
  }

  /** No two patched dwords share a byte. */
  lemma {:induction false} FixupsDisjoint(items: seq<Item>)
    ensures forall j, k :: 0 <= j < k < |Fixups(items)| ==> Fixups(items)[j].at + 4 <= Fixups(items)[k].at
  {
    hide Encode, ItemBytes, FixupOf, StrFixupOf;
    if items != [] {
      var n := |items| - 1;
      FixupsDisjoint(items[..n]);
      FixupsWithin(items[..n]);
      BytesLength(items[..n]);
      OffPrefix(items, n, n);
      FixupInside(items[n], Off(items, n));
    }
  }

  // ----- patching -----

  lemma PatchPrefix(a: seq<byte>, b: seq<byte>, at: nat, v: int)
    requires at + 4 <= |a|
    ensures Patch(a + b, at, v) == Patch(a, at, v) + b
  {
    assert (a + b)[..at] == a[..at];
    assert (a + b)[at + 4..] == a[at + 4..] + b;
    assert a[..at] + Dword(v) + (a[at + 4..] + b) == a[..at] + Dword(v) + a[at + 4..] + b;
  }

  lemma ReadPrefix(a: seq<byte>, b: seq<byte>, k: nat)
    requires k + 4 <= |a|
    ensures Read32(a + b, k) == Read32(a, k)
  {}

  lemma {:induction false} ApplyPrefix(a: seq<byte>, b: seq<byte>, fs: seq<Fixup>, lay: Layout)
    requires Within(fs, |a|)
    ensures Within(fs, |a + b|) && Apply(a + b, fs, lay) == Apply(a, fs, lay) + b
  {
    hide Patch, Read32;
    if fs != [] {
      var n := |fs| - 1;
      ApplyPrefix(a, b, fs[..n], lay);
      var prev := Apply(a, fs[..n], lay);
      ReadPrefix(prev, b, fs[n].at);
      PatchPrefix(prev, b, fs[n].at, Resolved(prev, fs[n], lay));
    }
  }

  lemma {:induction false} ApplyStrPrefix(a: seq<byte>, b: seq<byte>, fs: seq<nat>, sbase: int)
    requires StrWithin(fs, |a|)
    ensures StrWithin(fs, |a + b|) && ApplyStr(a + b, fs, sbase) == ApplyStr(a, fs, sbase) + b
  {
    hide Patch, Read32;
    if fs != [] {
      var n := |fs| - 1;
      ApplyStrPrefix(a, b, fs[..n], sbase);
      var prev := ApplyStr(a, fs[..n], sbase);
      ReadPrefix(prev, b, fs[n]);
      PatchPrefix(prev, b, fs[n], sbase + Read32(prev, fs[n]));
    }
  }

  lemma SliceOfConcat(a: seq<byte>, e: seq<byte>, k: nat)
    requires |e| == k + 4
    ensures (a + e)[|a| + k..|a| + k + 4] == e[k..k + 4]
    ensures (a + e)[..|a| + k] == a + e[..k] && (a + e)[|a| + k + 4..] == []
  {}

  lemma SameDword(x: int, y: int)
    requires Wrap(x) == Wrap(y)
    ensures Dword(x) == Dword(y)
  {}

  /** Patching the operand dword of an encoded instruction behind `a`. */
  lemma {:induction false} PatchOperand(a: seq<byte>, i: Instr, j: Instr, v: int)
    requires OperandAt(i) > 0 && OperandAt(j) == OperandAt(i) && Wrap(Operand(j)) == Wrap(v)
    requires Encode(i)[..OperandAt(i)] == Encode(j)[..OperandAt(i)]
    ensures |Encode(i)| == OperandAt(i) + 4
    ensures Patch(a + Encode(i), |a| + OperandAt(i), v) == a + Encode(j)
    ensures Read32(a + Encode(i), |a| + OperandAt(i)) == Wrap(Operand(i))
  {
    hide Encode, Read32, Dword;
    var k := OperandAt(i);
    OperandBytes(i);
    OperandBytes(j);
    var e, f := Encode(i), Encode(j);
    SliceOfConcat(a, e, k);
    SameDword(Operand(j), v);
    assert f == f[..k] + f[k..k + 4];
    assert Patch(a + e, |a| + k, v) == a + f;
    ReadDword(a + e, |a| + k, Operand(i));
  }

  lemma WrapTwice(v: int)
    ensures Wrap(Wrap(v)) == Wrap(v)
  {}

  /** One more item: its own fixup resolves it and nothing else. */
  lemma {:induction false} LinkItem(a: seq<byte>, x: Item, lay: Layout)
    ensures var b := a + ItemBytes(x);
            var fs := FixupOf(x, |a|);
            (fs != [] ==> fs[0].at + 4 <= |b|) &&
            (if fs == [] then b else Patch(b, fs[0].at, Resolved(b, fs[0], lay))) == a + LinkedItem(x, |a|, lay, false)
  {
    hide Read32, Dword, Wrap, Patch;
    if FixupOf(x, |a|) != [] {
      var i := x.i;
      var v :=
        if i.Jump? then LabelAt(lay, i.to) - (|a| + OperandAt(i) + 4)
        else if i.Call? then FunAt(lay, i.to) - (|a| + 5)
        else lay.dbase + Operand(Raw(i));
      OperandBytes(Raw(i));
      WrapTwice(v);
      WordItself(Operand(Raw(i)));
      PatchOperand(a, Raw(i), Linked(i, |a|, lay, false), v);
    }
  }

  /** Applying at most one more fixup. */
  lemma ApplySnoc(b: seq<byte>, fs: seq<Fixup>, fx: seq<Fixup>, lay: Layout)
    requires Within(fs, |b|) && Within(fx, |b|) && |fx| <= 1
    ensures Within(fs + fx, |b|)
    ensures Apply(b, fs + fx, lay) ==
            var prev := Apply(b, fs, lay);
            if fx == [] then prev else Patch(prev, fx[0].at, Resolved(prev, fx[0], lay))
  {
    hide Patch, Resolved;
    if fx == [] {
      assert fs + fx == fs;
    } else {
      assert (fs + fx)[..|fs + fx| - 1] == fs;
    }
  }

  lemma ApplyStrSnoc(b: seq<byte>, fs: seq<nat>, fx: seq<nat>, sbase: int)
    requires StrWithin(fs, |b|) && StrWithin(fx, |b|) && |fx| <= 1
    ensures StrWithin(fs + fx, |b|)
    ensures ApplyStr(b, fs + fx, sbase) ==
            var prev := ApplyStr(b, fs, sbase);
            if fx == [] then prev else Patch(prev, fx[0], sbase + Read32(prev, fx[0]))
  {
    hide Patch, Read32;
    if fx == [] {
      assert fs + fx == fs;
    } else {
      assert (fs + fx)[..|fs + fx| - 1] == fs;
    }
  }

  lemma {:induction false} FirstPass(items: seq<Item>, lay: Layout)
    ensures Within(Fixups(items), |Bytes(items)|)
    ensures Apply(Bytes(items), Fixups(items), lay) == LinkedBytes(items, lay, false)
  {
    FixupsWithin(items);
    if items != [] {
      hide Encode, Patch, LinkedItem, ItemBytes, FixupOf, Resolved, Apply, Within;
      var n := |items| - 1;
      var init, x := items[..n], items[n];
      FirstPass(init, lay);
      FixupsWithin(init);
      BytesLength(init);
      OffPrefix(items, n, n);
      LinkedLength(init, lay, false);
      FixupInside(x, Off(items, n));
      ApplyPrefix(Bytes(init), ItemBytes(x), Fixups(init), lay);
      ApplySnoc(Bytes(init) + ItemBytes(x), Fixups(init), FixupOf(x, Off(items, n)), lay);
      LinkItem(LinkedBytes(init, lay, false), x, lay);
    }
  }

  lemma {:induction false} StrItem(a: seq<byte>, x: Item, lay: Layout)
    ensures var b := a + LinkedItem(x, |a|, lay, false);
            var fs := StrFixupOf(x, |a|);
            (fs != [] ==> fs[0] + 4 <= |b|) &&
            (if fs == [] then b else Patch(b, fs[0], lay.sbase + Read32(b, fs[0]))) == a + LinkedItem(x, |a|, lay, true)
  {
    hide Read32, Dword, Wrap, Patch;
    if StrFixupOf(x, |a|) != [] {
      var i := x.i;
      OperandBytes(i);
      WrapTwice(lay.sbase + i.off);
      WordItself(i.off);
      PatchOperand(a, i, Linked(i, |a|, lay, true), lay.sbase + i.off);
    }
  }

  lemma StrInside(items: seq<Item>, lay: Layout, str: bool)
    ensures StrWithin(StrFixups(items), |LinkedBytes(items, lay, str)|)
  {
    hide Bytes, StrFixups, LinkedBytes;
    FixupsWithin(items);
    BytesLength(items);
    LinkedLength(items, lay, str);
  }

  lemma EmptyStr(lay: Layout)
    ensures ApplyStr(LinkedBytes([], lay, false), StrFixups([]), lay.sbase) == LinkedBytes([], lay, true)
  {}

  lemma StrItemInside(x: Item, pos: nat, lay: Layout, n: nat)
    requires n == pos + |LinkedItem(x, pos, lay, false)|
    ensures StrWithin(StrFixupOf(x, pos), n) && |StrFixupOf(x, pos)| <= 1
  {
    FixupInside(x, pos);
    LinkedItemSize(x, pos, lay, false);
  }

  lemma {:induction false} SecondPass(items: seq<Item>, lay: Layout)
    ensures StrWithin(StrFixups(items), |LinkedBytes(items, lay, false)|)
    ensures ApplyStr(LinkedBytes(items, lay, false), StrFixups(items), lay.sbase) == LinkedBytes(items, lay, true)
  {
    hide Encode, Patch, LinkedItem, ItemBytes, StrFixupOf, Read32, ApplyStr, StrWithin, Bytes;
    StrInside(items, lay, false);
    if items != [] {
      var n := |items| - 1;
      var init, x := items[..n], items[n];
      SecondPass(init, lay);
      StrInside(init, lay, false);
      OffPrefix(items, n, n);
      LinkedLength(init, lay, false);
      LinkedLength(init, lay, true);
      StrItemInside(x, Off(items, n), lay, |LinkedBytes(items, lay, false)|);
      var b := LinkedItem(x, Off(items, n), lay, false);
      ApplyStrPrefix(LinkedBytes(init, lay, false), b, StrFixups(init), lay.sbase);
      ApplyStrSnoc(LinkedBytes(init, lay, false) + b, StrFixups(init), StrFixupOf(x, Off(items, n)), lay.sbase);
      StrItem(LinkedBytes(init, lay, true), x, lay);
    } else {
      EmptyStr(lay);
    }
  }

  /** Link correctness: patching the recorded fixups, then the recorded string references,
      turns the emitted bytes into the encoding of the resolved instructions — and so
      changes no byte that is not part of a reference. */
  lemma {:induction false} LinkResolves(items: seq<Item>, lay: Layout)
    ensures Within(Fixups(items), |Bytes(items)|) && StrWithin(StrFixups(items), |Bytes(items)|)
    ensures ApplyStr(Apply(Bytes(items), Fixups(items), lay), StrFixups(items), lay.sbase) ==
            LinkedBytes(items, lay, true)
  {
    FixupsWithin(items);
    FirstPass(items, lay);
    SecondPass(items, lay);
  }

  /** The resolved instruction sits at its offset. */
  lemma {:induction false} LinkedHere(items: seq<Item>, k: nat, lay: Layout)
    requires k < |items|
    ensures Off(items, k + 1) <= |LinkedBytes(items, lay, true)|
    ensures LinkedBytes(items, lay, true)[Off(items, k)..Off(items, k + 1)] ==
            LinkedItem(items[k], Off(items, k), lay, true)
    decreases |items|
  {
    hide Encode, LinkedItem, ItemBytes;
    var n := |items| - 1;
    var init := items[..n];
    LinkedLength(items, lay, true);
    LinkedLength(init, lay, true);
    OffPrefix(items, n, n);
    OffMonotone(items, k + 1, |items|);
    if k == n {
    } else {
      LinkedHere(init, k, lay);
      OffPrefix(items, k, n);
      OffPrefix(items, k + 1, n);
      OffMonotone(items, k, k + 1);
    }
  }
}
