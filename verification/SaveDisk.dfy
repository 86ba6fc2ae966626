/** The SAVE and LOAD commands on a real volume: the program goes through the
    file system and comes back. */
module SaveDisk {
  import opened Basics
  import opened SaveLoad
  import FatDisk
  import FatRuns
  import FatVolume
  import ProgramLines
  import ProgramStore
  import Tokens

  /** What a command prints. */
  datatype Reply = Done | MissingName | SaveError | NotFound

  /** The file that SAVE writes for these lines. */
  function Image(ls: seq<ProgramLines.Line>): seq<byte> {
    Saved(ls, 0, [])
  }

  /** The program LOAD makes of a file's bytes, which it reads into 4096. */
  function Restored(bytes: seq<byte>): seq<ProgramLines.Line> {
    Loaded([], bytes[..Smaller(|bytes|, SAVE_ROOM)])
  }

  lemma {:induction false} SavedLength(ls: seq<ProgramLines.Line>, k: nat, out: Tokens.Text)
    requires k <= |ls| && |out| <= SAVE_ROOM && ProgramLines.AllProper(ls)
    ensures |Saved(ls, k, out)| <= SAVE_ROOM
    decreases |ls| - k
  {
    hide LineText;
    if k < |ls| && |out| < SAVE_STOP {
      assert ProgramLines.Proper(ls[k]);
      LineTextLength(ls[k]);
      SavedLength(ls, k + 1, out + LineText(ls[k]));
    }
  }

  method SaveCommand(p: ProgramStore.Program, v: FatVolume.Volume, name: seq<byte>) returns (r: Reply)
    requires p.Valid() && v.Valid() && 0 !in name && p.buf != v.vol
    modifies v.vol
    ensures p.Valid() && v.Valid() && p.lines == old(p.lines)
    ensures if name == [] then r == MissingName && v.Now() == old(v.Now())
            else
              var o := FatDisk.WriteFile(old(v.Now()), FatDisk.Name83(name), Image(p.lines));
              v.Now() == o.disk && r == if o.ok then Done else SaveError
  {
    hide ProgramLines.Packed, ProgramLines.Sorted, FatDisk.WriteFile, Saved, FatDisk.Consistent;
    if name == [] { return MissingName; }
    var file := Save(p);
    SavedLength(p.lines, 0, []);
    var code := v.WriteFile(name, file);
    r := if code == 0 then Done else SaveError;
  }

  method LoadCommand(p: ProgramStore.Program, v: FatVolume.Volume, name: seq<byte>) returns (r: Reply)
    requires p.Valid() && v.Valid() && p.buf != v.vol
    modifies p, p.buf
    ensures p.Valid() && v.Valid() && v.Now() == old(v.Now())
    ensures if name == [] then r == MissingName && p.lines == old(p.lines)
            else
              match FatDisk.Lookup(v.Now(), FatDisk.Name83(name))
              case None => r == NotFound && p.lines == old(p.lines)
              case Some(bytes) => r == Done && p.lines == Restored(bytes)
  {
    hide ProgramLines.Packed, ProgramLines.Sorted, FatDisk.Consistent, FatDisk.Lookup, Loaded;
    if name == [] { return MissingName; }
    var buf := new byte[SAVE_ROOM];
    var n := v.ReadFile(name, buf);
    if n < 0 { return NotFound; }
    Load(p, buf[..n]);
    r := Done;
  }

  /** A stored program whose lines are savable, and whose text, the last line
      apart, stays below the save limit. */
  ghost predicate Savable(ls: seq<ProgramLines.Line>, ss: seq<Tokens.Text>) {
    && ProgramLines.AllProper(ls) && ProgramLines.Sorted(ls) && |ProgramLines.Packed(ls)| <= ProgramStore.SIZE
    && AllSavable(ls, ss) && (|ls| > 0 ==> |TextFrom(ls, 0)| - |LineText(ls[|ls| - 1])| < SAVE_STOP)
  }

  lemma SavedBack(ls: seq<ProgramLines.Line>, ss: seq<Tokens.Text>)
    requires Savable(ls, ss)
    ensures Restored(Image(ls)) == ls
  {
    hide Saved, Loaded, TextFrom, LineText, ProgramLines.Packed, ProgramLines.Sorted, ProgramLines.Proper, AllSavable;
    SavedLength(ls, 0, []);
    assert Image(ls)[..Smaller(|Image(ls)|, SAVE_ROOM)] == Image(ls);
    SaveThenLoad(ls, ss);
  }

  /** A savable program saved under a name and, after any other work on the
      volume that leaves that name alone, loaded again is the same program,
      exactly when the name's first byte is not the mark of an erased slot;
      then the file is not found. */
  lemma SaveWorkLoad(d: FatDisk.Disk, name: seq<byte>, ls: seq<ProgramLines.Line>, ss: seq<Tokens.Text>,
                     rs: seq<FatRuns.Request>)
    requires FatDisk.Consistent(d) && 0 !in name && Savable(ls, ss)
    requires FatDisk.WriteFile(d, FatDisk.Name83(name), Image(ls)).ok
    requires FatRuns.Proper(rs) && forall i :: 0 <= i < |rs| ==> FatDisk.Name83(rs[i].name) != FatDisk.Name83(name)
    ensures var d' := FatRuns.Run(FatDisk.WriteFile(d, FatDisk.Name83(name), Image(ls)).disk, rs);
            var found := FatDisk.Lookup(d', FatDisk.Name83(name));
            && FatDisk.Consistent(d')
            && (found.Some? <==> !(|name| > 0 && name[0] == FatDisk.ERASED))
            && (found.Some? ==> Restored(found.value) == ls)
  {
    hide *;
    SavedBack(ls, ss);
    FatRuns.WriteWorkRead(d, name, Image(ls), rs);
  }
}
