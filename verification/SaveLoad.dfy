/** SAVE writes a program as text and LOAD enters that text again: together
    they give back the program. */
module SaveLoad {
  import opened Basics
  import opened ProgramLines
  import opened ProgramStore
  import opened Tokens
  import opened TokenCode
  import opened Tokenizer

  const NEWLINE: byte := 10
  const BLANK: byte := 32
  const SAVE_ROOM: nat := 4096
  const SAVE_STOP: nat := 3926
  const LIST_WIDTH: nat := 160
  const LINE_WIDTH: nat := 158
  const TOKEN_ROOM: nat := 120

  /** The part of `t` before the first NUL. */
  function UpToNul(t: Text): (r: Text)
    ensures |r| <= |t| && r == t[..|r|]
  {
    if t == [] || t[0] == 0 then [] else [t[0]] + UpToNul(t[1..])
  }

  // ---- saving ----

  /** A program line as a line of text. */
  function LineText(l: Line): Text {
    Printed(l.num) + [BLANK] + UpToNul(Listed(Decoded(l.tokens), [], LIST_WIDTH)) + [NEWLINE]
  }

  /** The text of the lines from the k-th on behind `out`, while the buffer has
      room for one more. */
  function Saved(ls: seq<Line>, k: nat, out: Text): Text
    requires k <= |ls|
    decreases |ls| - k
  {
    if k < |ls| && |out| < SAVE_STOP then Saved(ls, k + 1, out + LineText(ls[k])) else out
  }

  // ---- loading ----

  function ToBreak(bytes: Text, max: nat): (n: nat)
    ensures n <= |bytes| && n <= max && forall i :: 0 <= i < n ==> bytes[i] != NEWLINE
    ensures n < |bytes| && n < max ==> bytes[n] == NEWLINE
  {
    if bytes == [] || max == 0 || bytes[0] == NEWLINE then 0 else ToBreak(bytes[1..], max - 1) + 1
  }

  /** A line number keeps its low sixteen bits. */
  function NumberOf(ds: Text): (v: nat)
    ensures v < 0x10000
    decreases |ds|
  {
    if ds == [] then 0
    else (NumberOf(ds[..|ds| - 1]) * 10 + if Digit(ds[|ds| - 1]) then ds[|ds| - 1] as int - 48 else 0) % 0x10000
  }

  function BlankRun(t: Text): (n: nat)
    ensures n <= |t|
  {
    if t == [] || t[0] != BLANK then 0 else BlankRun(t[1..]) + 1
  }

  /** Storing a line: in place of one of the same number, if it fits. */
  function Stored(ls: seq<Line>, l: Line): seq<Line> {
    var rest := Without(ls, l.num);
    if AllProper(rest) && |Packed(rest)| + |l.tokens| + 3 <= SIZE then With(rest, l) else rest
  }

  function Entered(ls: seq<Line>, line: Text): seq<Line> {
    var t := UpToNul(line);
    var n := Run(t);
    var num := NumberOf(t[..n]);
    if num == 0 then ls
    else
      var body := t[n..][BlankRun(t[n..])..];
      var tokens := Tokenized(Items(body), [], TOKEN_ROOM);
      if tokens == [] then ls else Stored(ls, Line(num, tokens))
  }

  function Loaded(ls: seq<Line>, bytes: Text): seq<Line>
    decreases |bytes|
  {
    if bytes == [] then ls
    else
      var n := ToBreak(bytes, LINE_WIDTH);
      var rest := if n < |bytes| && bytes[n] == NEWLINE then bytes[n + 1..] else bytes[n..];
      Loaded(if n == 0 then ls else Entered(ls, bytes[..n]), rest)
  }

  // ---- saving and loading again ----

  /** The line was entered from printable source without being cut, holds no
      negative number, and its listing fits a line of the file. */
  ghost predicate Savable(l: Line, s: Text) {
    && 0 < l.num < 0x10000 && Printable(s) && 0 < |s| < 160 && s[0] != BLANK
    && l.tokens == Tokenized(Items(s), [], TOKEN_ROOM) == CodeAll(Items(s))
    && NonNegative(Items(s)) && |Decimal(l.num)| + 1 + |ShownAll(Items(s))| <= LINE_WIDTH
  }

  lemma {:induction false} DecimalNumber(n: nat)
    requires n < 0x10000
    ensures NumberOf(Decimal(n)) == n
  {
    var d := Decimal(n);
    if n < 10 {
      assert d[..0] == [];
    } else {
      DecimalNumber(n / 10);
      assert d[..|d| - 1] == Decimal(n / 10);
    }
  }

  lemma {:induction false} ShownPrintableFirst(s: Text)
    requires s != [] && Printable(s) && (First(s).Number? ==> First(s).n >= 0)
    ensures Printable(Shown(First(s)))
  {
    hide Keyword, Name, Token, ValueOf, Run, Alnum;
    var it := First(s);
    if it.Word? {
      FirstWord(s);
    } else if it.Comment? {
      FirstComment(s);
      assert forall i :: 0 <= i < |it.text| ==> it.text[i] == s[|Spelled(REMARK)| + i];
    } else if it.Quote? {
      FirstQuote(s);
      assert forall i :: 0 <= i < |it.text| ==> it.text[i] == s[1 + i];
    } else if it.Number? {
      assert Shown(it) == Decimal(it.n);
    }
  }

  lemma {:induction false} ShownPrintable(s: Text)
    requires Printable(s) && NonNegative(Items(s))
    ensures Printable(ShownAll(Items(s)))
    decreases |s|
  {
    hide Items, First, Taken, Shown, ShownAll, NonNegative;
    if s == [] {
      NothingShown(s);
    } else {
      ItemsStep(s);
      ShownPrintable(s[Taken(s)..]);
      FirstNonNegative(s);
      ShownPrintableFirst(s);
      assert forall i :: 0 <= i < |s[Taken(s)..]| ==> s[Taken(s)..][i] == s[Taken(s) + i];
    }
  }

  lemma FirstNonNegative(s: Text)
    requires s != [] && NonNegative(Items(s))
    ensures First(s).Number? ==> First(s).n >= 0
  {
    assert Items(s)[0] == First(s);
  }

  lemma {:induction false} NoNul(t: Text)
    requires forall i :: 0 <= i < |t| ==> t[i] != 0
    ensures UpToNul(t) == t
  {
    if t != [] { NoNul(t[1..]); }
  }

  lemma {:induction false} BreakIs(bytes: Text, max: nat, n: nat)
    requires n < |bytes| && n <= max && bytes[n] == NEWLINE && forall i :: 0 <= i < n ==> bytes[i] != NEWLINE
    ensures ToBreak(bytes, max) == n
  {
    if n > 0 { BreakIs(bytes[1..], max - 1, n - 1); }
  }

  /** The text of a savable line. */
  lemma {:induction false} SavedLine(l: Line, s: Text)
    requires Savable(l, s)
    ensures var t := ShownAll(Items(s));
            LineText(l) == Decimal(l.num) + [BLANK] + t + [NEWLINE] && |LineText(l)| <= LINE_WIDTH + 1
    ensures var t := ShownAll(Items(s)); t != [] && t[0] != BLANK && Printable(t)
    ensures Tokenized(Items(ShownAll(Items(s))), [], TOKEN_ROOM) == l.tokens
  {
    hide Items, ShownAll, Tokenized, Listed, Decoded, CodeAll, Decimal, NonNegative;
    EnterListEnter(s, l.tokens, TOKEN_ROOM, LIST_WIDTH);
    ShownStart(s);
    ShownPrintable(s);
    NoNul(ShownAll(Items(s)));
  }

  lemma TokensNotEmpty(s: Text)
    requires s != []
    ensures Tokenized(Items(s), [], TOKEN_ROOM) != []
  {
    hide First, Taken, Items, Code, Cut;
    ItemsStep(s);
    TokenizedStep(s, [], TOKEN_ROOM);
    Longer(Items(s[Taken(s)..]), TOKEN_ROOM);
    CodeNotEmpty(s);
  }

  lemma CodeNotEmpty(s: Text)
    requires s != []
    ensures Code(First(s)) != [] || First(s).Quote? || First(s).Comment?
    ensures forall n: int :: Code(Comment(Cut([], n))) != []
    ensures forall t: Text :: Code(Comment(t)) != [] && (|t| < 256 ==> Code(Quote(t)) != [])
  {
    hide Name, Spelled, Keyword, Matches, Begins, Run, ToQuote, ValueOf;
    if First(s).Word? { FirstWord(s); }
  }

  lemma {:induction false} Longer(its: seq<Item>, max: nat)
    ensures forall out: seq<byte> :: |Tokenized(its, out, max)| >= |out|
    decreases |its|
  {
    if its != [] {
      Longer(its[1..], max);
    }
  }

  /** Entering the text of a savable line stores the line. */
  lemma {:induction false} EnterSaved(ls: seq<Line>, l: Line, s: Text)
    requires Savable(l, s)
    ensures var text := LineText(l);
            Entered(ls, text[..|text| - 1]) == Stored(ls, l)
  {
    hide Items, ShownAll, Tokenized, Decimal, Stored, UpToNul, LineText, Run, NumberOf;
    SavedLine(l, s);
    var t, d := ShownAll(Items(s)), Decimal(l.num);
    var text := LineText(l);
    var line := text[..|text| - 1];
    assert line == d + ([BLANK] + t);
    forall i | 0 <= i < |line| ensures line[i] != 0 {
      if i < |d| { assert line[i] == d[i]; } else if i > |d| { assert line[i] == t[i - |d| - 1]; }
    }
    NoNul(line);
    assert forall i :: 0 <= i < |d| ==> line[i] == d[i];
    assert line[|d|] == BLANK;
    RunIs(line, |d|);
    assert line[..|d|] == d;
    DecimalNumber(l.num);
    var u := line[|d|..];
    assert u == [BLANK] + t;
    assert u[1..] == t;
    assert BlankRun(u) == 1 by { assert BlankRun(t) == 0; }
    TokensNotEmpty(t);
  }

  /** Storing a line behind all others appends it. */
  lemma {:induction false} StoredLast(ls: seq<Line>, k: nat)
    requires AllProper(ls) && Sorted(ls) && k < |ls| && |Packed(ls)| <= SIZE
    ensures Stored(ls[..k], ls[k]) == ls[..k + 1]
  {
    hide Packed, Record, Proper;
    var front, l := ls[..k], ls[k];
    PlaceIs(front, l.num, k);
    PackedAt(ls, k);
    assert Without(front, l.num) == front;
    assert front[..k] == front && front[k..] == [];
    assert ls[..k + 1] == front + [l];
    assert With(front, l) == front + [l] + [];
  }

  ghost predicate AllSavable(ls: seq<Line>, ss: seq<Text>) {
    |ls| == |ss| && forall i :: 0 <= i < |ls| ==> Savable(ls[i], ss[i])
  }

  /** The text of the lines from the k-th on. */
  function TextFrom(ls: seq<Line>, k: nat): Text
    requires k <= |ls|
    decreases |ls| - k
  {
    if k == |ls| then [] else LineText(ls[k]) + TextFrom(ls, k + 1)
  }

  /** Loading the text of the lines from the k-th on, with those before it in
      the store, gives the whole program. */
  lemma {:induction false} LoadFrom(ls: seq<Line>, ss: seq<Text>, k: nat)
    requires AllProper(ls) && Sorted(ls) && |Packed(ls)| <= SIZE && AllSavable(ls, ss) && k <= |ls|
    ensures Loaded(ls[..k], TextFrom(ls, k)) == ls
    decreases |ls| - k
  {
    hide LineText, Packed, Proper, Sorted, Entered, Stored, Savable;
    if k == |ls| {
      assert ls[..k] == ls;
    } else {
      LoadFrom(ls, ss, k + 1);
      LineBreaks(ls[k], ss[k], TextFrom(ls, k + 1));
      EnterSaved(ls[..k], ls[k], ss[k]);
      StoredLast(ls, k);
    }
  }

  /** The first line of the text is the line saved first. */
  lemma {:induction false} LineBreaks(l: Line, s: Text, rest: Text)
    requires Savable(l, s)
    ensures var text := LineText(l);
            var n := ToBreak(text + rest, LINE_WIDTH);
            && 0 < n == |text| - 1 && (text + rest)[n] == NEWLINE
            && (text + rest)[..n] == text[..|text| - 1] && (text + rest)[n + 1..] == rest
  {
    hide Items, ShownAll, Tokenized, Decimal, LineText, ToBreak;
    SavedLine(l, s);
    var text := LineText(l);
    var t, d := ShownAll(Items(s)), Decimal(l.num);
    var n := |text| - 1;
    forall i | 0 <= i < n ensures (text + rest)[i] != NEWLINE {
      assert (text + rest)[i] == text[i];
      if i < |d| { assert text[i] == d[i]; } else if i > |d| { assert text[i] == t[i - |d| - 1]; }
    }
    assert (text + rest)[n] == text[n] == NEWLINE;
    BreakIs(text + rest, LINE_WIDTH, n);
  }

  /** All the lines are saved when those before the last one leave room. */
  lemma {:induction false} SavedAll(ls: seq<Line>, k: nat, out: Text)
    requires k <= |ls|
    requires k < |ls| ==> |out| + |TextFrom(ls, k)| - |LineText(ls[|ls| - 1])| < SAVE_STOP
    ensures Saved(ls, k, out) == out + TextFrom(ls, k)
    decreases |ls| - k
  {
    hide LineText;
    if k == |ls| {
      assert out + TextFrom(ls, k) == out;
    } else {
      var t, rest := LineText(ls[k]), TextFrom(ls, k + 1);
      assert out + (t + rest) == (out + t) + rest;
      if k + 1 < |ls| { LastInside(ls, k + 1); }
      SavedAll(ls, k + 1, out + t);
    }
  }

  lemma {:induction false} LastInside(ls: seq<Line>, k: nat)
    requires k < |ls|
    ensures |TextFrom(ls, k)| >= |LineText(ls[|ls| - 1])|
    decreases |ls| - k
  {
    if k + 1 < |ls| { LastInside(ls, k + 1); }
  }

  /** SAVE then LOAD is the identity on every program whose lines are savable
      and whose text, the last line apart, stays below the save limit. */
  lemma {:induction false} SaveThenLoad(ls: seq<Line>, ss: seq<Text>)
    requires AllProper(ls) && Sorted(ls) && |Packed(ls)| <= SIZE && AllSavable(ls, ss)
    requires |ls| > 0 ==> |TextFrom(ls, 0)| - |LineText(ls[|ls| - 1])| < SAVE_STOP
    ensures Loaded([], Saved(ls, 0, [])) == ls
  {
    hide Loaded, Saved, TextFrom, LineText, Packed, Proper, Sorted;
    SavedAll(ls, 0, []);
    assert [] + TextFrom(ls, 0) == TextFrom(ls, 0);
    assert ls[..0] == [];
    LoadFrom(ls, ss, 0);
  }

  // ---- the commands ----

  /** Appends text to the save buffer. */
  method PutAll(text: Text, buf: array<byte>, offset: nat) returns (end: nat)
    requires offset + |text| <= buf.Length
    modifies buf
    ensures end == offset + |text| && buf[..end] == old(buf[..offset]) + text
  {
    end := offset;
    var i := 0;
    while i < |text|
      invariant 0 <= i <= |text| && end == offset + i
      invariant buf[..offset] == old(buf[..offset]) && buf[offset..end] == text[..i]
    {
      buf[end] := text[i];
      end := end + 1;
      i := i + 1;
    }
    assert text[..i] == text;
    Sewn(buf[..end], old(buf[..offset]), text) by {
      assert buf[..end][..offset] == buf[..offset];
      assert buf[..end][offset..] == buf[offset..end];
    }
  }

  /** The tokens of the record at `o`. */
  method TokensAt(p: Program, o: nat, ghost k: nat) returns (ts: seq<byte>)
    requires p.Valid() && k < |p.lines| && o == Offset(p.lines, k)
    ensures ts == p.lines[k].tokens
  {
    hide Packed, Sorted;
    RecordAt(p.buf[..], p.lines, k);
    var len: int := p.buf[o + 2];
    ts := p.buf[o + 3..o + len];
    assert p.buf[..][o..o + len][3..] == ts;
    assert Record(p.lines[k])[3..] == p.lines[k].tokens;
  }

  /** A stored line as text. */
  method ListLine(p: Program, o: nat, ghost k: nat) returns (text: Text)
    requires p.Valid() && k < |p.lines| && o == Offset(p.lines, k)
    ensures text == LineText(p.lines[k])
  {
    hide Packed, Sorted, Listed, Decoded, UpToNul, Printed;
    var num := p.LineNumber(o, k);
    assert Proper(p.lines[k]);
    text := IntToStr(num);
    text := text + [BLANK];
    var ts := TokensAt(p, o, k);
    var detok := new byte[LIST_WIDTH](_ => 0);
    var n := Detokenize(ts, detok, LIST_WIDTH);
    var listing := CString(detok[..n]);
    text := text + listing + [NEWLINE];
  }

  lemma {:induction false} UpToNulIs(t: Text, n: nat)
    requires n <= |t| && (forall i :: 0 <= i < n ==> t[i] != 0) && (n < |t| ==> t[n] == 0)
    ensures UpToNul(t) == t[..n]
  {
    if n > 0 {
      UpToNulIs(t[1..], n - 1);
      assert t[..n] == [t[0]] + t[1..][..n - 1];
    }
  }

  lemma {:induction false} DecimalLength(n: nat, digits: nat, bound: nat)
    requires n < bound && bound == Power10(digits) && digits > 0
    ensures |Decimal(n)| <= digits
    decreases digits
  {
    assert Power10(0) == 1;
    if n >= 10 {
      DecimalLength(n / 10, digits - 1, Power10(digits - 1));
    }
  }

  function Power10(k: nat): nat {
    if k == 0 then 1 else 10 * Power10(k - 1)
  }

  lemma {:induction false} ListedLength(its: seq<Item>, out: Text, max: nat)
    requires |out| < max
    ensures |Listed(its, out, max)| < max
    decreases |its|
  {
    hide Shown;
    if its != [] && |out| + 1 < max {
      ListedOne(its, out, max);
      if its[0].Relation? { RelationLength(its[0]); }
      var next := if its[0].Relation? then (if |out| + 2 < max then out + Shown(its[0]) else out)
                  else out + Cut(Shown(its[0]), max - 1 - |out|);
      ListedLength(its[1..], next, max);
    }
  }

  /** One line never takes more than the margin kept free for it. */
  lemma LineTextLength(l: Line)
    requires l.num < 0x10000
    ensures |LineText(l)| <= SAVE_ROOM - SAVE_STOP
  {
    assert Power10(5) == 100000;
    DecimalLength(l.num, 5, Power10(5));
    ListedLength(Decoded(l.tokens), [], LIST_WIDTH);
  }

  /** SAVE: what it hands to the disk. */
  method Save(p: Program) returns (file: seq<byte>)
    requires p.Valid()
    ensures file == Saved(p.lines, 0, [])
  {
    hide Packed, Sorted, LineText, Saved;
    var buf := new byte[SAVE_ROOM](_ => 0);
    var offset := 0;
    var o := p.FirstLine();
    ghost var k := 0;
    assert buf[..0] == [];
    while o >= 0 && offset < SAVE_STOP
      invariant p.Valid() && fresh(buf) && 0 <= offset <= buf.Length && k <= |p.lines|
      invariant o == (if k < |p.lines| then Offset(p.lines, k) else -1)
      invariant Saved(p.lines, k, buf[..offset]) == Saved(p.lines, 0, [])
      decreases |p.lines| - k
    {
      assert Proper(p.lines[k]);
      LineTextLength(p.lines[k]);
      SavedOne(p.lines, k, buf[..offset]);
      var text := ListLine(p, o, k);
      offset := PutAll(text, buf, offset);
      o := p.NextLine(o, k);
      k := k + 1;
    }
    SavedEnd(p.lines, k, buf[..offset]);
    file := buf[..offset];
  }

  lemma SavedOne(ls: seq<Line>, k: nat, out: Text)
    requires k < |ls| && |out| < SAVE_STOP
    ensures Saved(ls, k, out) == Saved(ls, k + 1, out + LineText(ls[k]))
  {
  }

  lemma SavedEnd(ls: seq<Line>, k: nat, out: Text)
    requires k == |ls| || (k < |ls| && |out| >= SAVE_STOP)
    ensures Saved(ls, k, out) == out
  {
  }

  /** The length of the line that starts at `i`, at most `LINE_WIDTH`. */
  method LineEnd(bytes: Text, i: nat) returns (n: nat)
    requires i <= |bytes|
    ensures n == ToBreak(bytes[i..], LINE_WIDTH) && i + n <= |bytes|
  {
    ghost var t := bytes[i..];
    n := 0;
    while i + n < |bytes| && bytes[i + n] != NEWLINE && n < LINE_WIDTH
      invariant i + n <= |bytes| && n <= LINE_WIDTH && forall j :: 0 <= j < n ==> t[j] != NEWLINE
      decreases |bytes| - n
    {
      assert t[n] == bytes[i + n];
      n := n + 1;
    }
    assert n < |t| ==> t[n] == bytes[i + n];
    ToBreakIs(t, LINE_WIDTH, n);
  }

  lemma {:induction false} ToBreakIs(t: Text, max: nat, n: nat)
    requires n <= |t| && n <= max && forall i :: 0 <= i < n ==> t[i] != NEWLINE
    requires n < |t| && n < max ==> t[n] == NEWLINE
    ensures ToBreak(t, max) == n
  {
    if n > 0 { ToBreakIs(t[1..], max - 1, n - 1); }
  }

  /** The number at the start of a line and the length of its digits. */
  method ParseLineNumber(t: Text) returns (num: nat, n: nat)
    ensures n == Run(t) && num == NumberOf(t[..n])
  {
    num := 0;
    n := 0;
    assert t[..0] == [];
    while n < |t| && Digit(t[n])
      invariant n <= |t| && (forall i :: 0 <= i < n ==> Digit(t[i])) && num == NumberOf(t[..n])
      decreases |t| - n
    {
      assert t[..n + 1][..n] == t[..n];
      num := (num * 10 + (t[n] as int - 48)) % 0x10000;
      n := n + 1;
    }
    RunIs(t, n);
  }

  method SkipBlanks(t: Text, from: nat) returns (n: nat)
    requires from <= |t|
    ensures from <= n <= |t| && t[n..] == t[from..][BlankRun(t[from..])..]
  {
    n := from;
    while n < |t| && t[n] == BLANK
      invariant from <= n <= |t|
      invariant t[n..][BlankRun(t[n..])..] == t[from..][BlankRun(t[from..])..]
      decreases |t| - n
    {
      assert t[n..][1..] == t[n + 1..];
      n := n + 1;
    }
    assert BlankRun(t[n..]) == 0;
  }

  /** The text before the first NUL. */
  method CString(line: Text) returns (t: Text)
    ensures t == UpToNul(line)
  {
    var len := 0;
    while len < |line| && line[len] != 0
      invariant 0 <= len <= |line| && forall j :: 0 <= j < len ==> line[j] != 0
    {
      len := len + 1;
    }
    UpToNulIs(line, len);
    t := line[..len];
  }

  /** Enters one line of text. */
  method Enter(p: Program, line: Text)
    requires p.Valid()
    modifies p, p.buf
    ensures p.Valid() && p.lines == Entered(old(p.lines), line)
  {
    hide Packed, Sorted, Items, Tokenized, UpToNul, Run, NumberOf, BlankRun, Without, With, AllProper;
    var t := CString(line);
    var num, n := ParseLineNumber(t);
    if num == 0 { return; }
    var si := SkipBlanks(t, n);
    var tokens := new byte[TOKEN_ROOM](_ => 0);
    var count := Tokenize(t[si..], tokens, TOKEN_ROOM);
    if count > 0 {
      p.InsertLine(num, tokens[..count]);
    }
  }

  /** LOAD: enters every line of a file into an empty program. */
  method Load(p: Program, bytes: Text)
    requires p.Valid()
    modifies p, p.buf
    ensures p.Valid() && p.lines == Loaded([], bytes)
  {
    hide Packed, Sorted, Entered, ToBreak, Loaded;
    p.Init();
    var i := 0;
    assert bytes[0..] == bytes;
    while i < |bytes|
      invariant 0 <= i <= |bytes| && p.Valid()
      invariant Loaded(p.lines, bytes[i..]) == Loaded([], bytes)
      decreases |bytes| - i
    {
      var n := LineEnd(bytes, i);
      LoadedOne(p.lines, bytes, i, n);
      var line := bytes[i..i + n];
      i := i + n;
      if i < |bytes| && bytes[i] == NEWLINE { i := i + 1; }
      if n > 0 { Enter(p, line); }
    }
    LoadedNone(p.lines, bytes[i..]);
  }

  lemma LoadedNone(ls: seq<Line>, bytes: Text)
    requires |bytes| == 0
    ensures Loaded(ls, bytes) == ls
  {
  }

  lemma {:induction false} LoadedOne(ls: seq<Line>, bytes: Text, i: nat, n: nat)
    requires i < |bytes| && n == ToBreak(bytes[i..], LINE_WIDTH) && i + n <= |bytes|
    ensures var i' := if i + n < |bytes| && bytes[i + n] == NEWLINE then i + n + 1 else i + n;
            i' > i && Loaded(ls, bytes[i..]) == Loaded(if n == 0 then ls else Entered(ls, bytes[i..i + n]), bytes[i'..])
  {
    hide Entered;
    var t := bytes[i..];
    assert t[..n] == bytes[i..i + n] && t[n..] == bytes[i + n..];
    assert n < |t| ==> t[n] == bytes[i + n] && t[n + 1..] == bytes[i + n + 1..];
    assert n == 0 ==> t[0] == NEWLINE;
  }
}
