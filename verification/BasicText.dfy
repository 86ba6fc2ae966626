/** BASIC source as it is typed: LIST shows it and SAVE writes it character for character. */
module BasicText {
  import opened Basics
  import opened Word32
  import opened ProgramLines
  import ProgramStore
  import opened Tokens
  import opened TokenCode
  import opened SaveLoad

  predicate NoLower(t: Text) {
    forall i :: 0 <= i < |t| ==> Upper(t[i]) == t[i]
  }

  /** Typed the way LIST would show it: keywords in capitals, strings closed, and numbers
      of up to nine digits without leading zeros. */
  predicate Plain(it: Item, t: Text) {
    match it
    case Char(_) => true
    case Word(_) => NoLower(t)
    case Comment(_) => |t| >= 3 && NoLower(t[..3])
    case Number(_) => 0 < |t| <= 9 && (t[0] != '0' as int || |t| == 1)
    case Quote(q) => |t| == |q| + 2
    case Relation(_) => true
  }

  predicate AsListed(s: Text)
    decreases |s|
  {
    s == [] || (Plain(First(s), s[..Taken(s)]) && AsListed(s[Taken(s)..]))
  }

  /** Digits without leading zeros are how their value is written in decimal. */
  lemma {:induction false} DigitsBack(t: Text)
    requires 0 < |t| <= 9 && (forall i :: 0 <= i < |t| ==> Digit(t[i])) && (t[0] != '0' as int || |t| == 1)
    ensures 0 <= ValueOf(t) < Power10(|t|) && Decimal(ValueOf(t)) == t && (t[0] != '0' as int ==> ValueOf(t) > 0)
    decreases |t|
  {
    hide ValueOf, Decimal, Power10;
    var front, d := t[..|t| - 1], t[|t| - 1] as int - 48;
    NineDigits(|front|);
    if |t| == 1 {
      OneDigit(t);
    } else {
      assert front[0] == t[0];
      DigitsBack(front);
      MoreDigits(t);
      assert t == front + [48 + d];
    }
  }

  lemma OneDigit(t: Text)
    requires |t| == 1 && Digit(t[0])
    ensures ValueOf(t) == t[0] - 48 && Decimal(t[0] - 48) == t && Power10(1) == 10
  {
    assert ValueOf(t[..0]) == 0;
    assert Power10(1) == 10 * Power10(0);
  }

  lemma MoreDigits(t: Text)
    requires |t| > 0 && Digit(t[|t| - 1]) && 0 < ValueOf(t[..|t| - 1]) < 100_000_000
    ensures var u, d := ValueOf(t[..|t| - 1]), t[|t| - 1] - 48;
            ValueOf(t) == 10 * u + d && Decimal(10 * u + d) == Decimal(u) + [48 + d]
  {
    hide Decimal, Signed, Wrap, ValueOf;
    var u, d := ValueOf(t[..|t| - 1]), t[|t| - 1] - 48;
    ValueStep(t);
    SmallBack(u * 10 + d);
    DecimalDigit(u, d);
  }

  lemma ValueStep(t: Text)
    requires t != []
    ensures ValueOf(t) == Signed(Wrap(ValueOf(t[..|t| - 1]) * 10 + (t[|t| - 1] as int - 48)))
  {
  }

  lemma SmallBack(x: nat)
    requires x < 0x8000_0000
    ensures Signed(Wrap(x)) == x
  {
  }

  lemma DecimalDigit(u: nat, d: nat)
    requires u > 0 && d < 10
    ensures Decimal(10 * u + d) == Decimal(u) + [48 + d]
  {
    var n := 10 * u + d;
    assert n / 10 == u && n % 10 == d;
  }

  lemma NineDigits(n: nat)
    requires n <= 8
    ensures Power10(n) <= 100_000_000
    ensures Power10(n + 1) == 10 * Power10(n)
  {
    assert Power10(4) == 10_000;
    assert Power10(8) == 100_000_000;
    if n < 8 { Power10Grows(n, 8); }
  }

  lemma {:induction false} Power10Grows(a: nat, b: nat)
    requires a <= b
    ensures Power10(a) <= Power10(b)
    decreases b
  {
    if a < b { Power10Grows(a, b - 1); }
  }

  /** `t` is `s` with some of its small letters made capitals. */
  predicate Raised(s: Text, t: Text) {
    |s| == |t| && forall i :: 0 <= i < |s| ==> t[i] == s[i] || ('a' as int <= s[i] <= 'z' as int && t[i] == s[i] - 32)
  }

  /** Keywords are found in any case. */
  lemma KeywordAnyCase(s: Text, t: Text)
    requires Raised(s, t)
    ensures Keyword(s, 0) == Keyword(t, 0)
  {
    hide Name, Spelled;
    assert forall i :: 0 <= i < |s| ==> Upper(s[i]) == Upper(t[i]) && Alnum(s[i]) == Alnum(t[i]);
    var k := Keyword(s, 0);
    assert forall j :: 0 <= j < WORDS ==> Matches(s, j) == Matches(t, j);
    KeywordIs(t, 0, k);
  }

  /** A keyword is the first of the table that stands there; unless it ends in a dollar
      sign, the next character is no letter and no digit. */
  lemma WordEnds(s: Text)
    requires s != [] && First(s).Word?
    ensures var k, c := First(s).k, if |Name(First(s).k)| < |s| then s[|Name(First(s).k)|] else 32;
            && k < WORDS && |Name(k)| <= |s|
            && (forall i :: 0 <= i < |Name(k)| ==> Raised([s[i]], [Name(k)[i] as int]))
            && (Name(k)[|Name(k)| - 1] == '$' || (!Letter(c) && !Digit(c)))
  {
    hide Keyword, ToQuote, Run, ValueOf, Name;
    FirstWord(s);
    var w := Spelled(First(s).k);
    forall i | 0 <= i < |w| ensures Raised([s[i]], [w[i]]) {
      assert Upper(s[i]) == w[i];
    }
  }

  predicate Letter(c: byte) { 'A' as int <= c <= 'Z' as int || 'a' as int <= c <= 'z' as int }

  /** The first item is shown as it is typed. */
  lemma ShownAsTyped(s: Text)
    requires s != [] && Plain(First(s), s[..Taken(s)])
    ensures Shown(First(s)) == s[..Taken(s)] && (First(s).Number? ==> First(s).n >= 0)
  {
    hide Keyword, Name, Spelled, Token, Run, ValueOf, ToQuote, Decimal, Matches, RelationAt;
    var it, t := First(s), s[..Taken(s)];
    match it
    case Char(_) => CharTyped(s);
    case Relation(_) => RelationTyped(s);
    case Word(k) =>
      FirstWord(s);
      WordTyped(s, k);
    case Comment(_) => CommentTyped(s);
    case Number(_) =>
      FirstNumber(s);
      DigitsBack(t);
    case Quote(q) =>
      FirstQuote(s);
      assert s[|q| + 1] == MARK;
      assert t == [MARK] + q + [MARK];
  }

  lemma CharTyped(s: Text)
    requires s != [] && First(s).Char?
    ensures First(s) == Char(s[0])
  {
    hide Keyword, Name, Spelled, Token, Run, ValueOf, ToQuote;
  }

  lemma RelationTyped(s: Text)
    requires s != [] && First(s).Relation?
    ensures |s| >= 2 && RelationText(First(s).mark) == s[..2]
  {
    hide Keyword, Name, Spelled, Token, Run, ValueOf, ToQuote;
  }

  lemma WordTyped(s: Text, k: nat)
    requires k < WORDS && Matches(s, k) && NoLower(s[..|Spelled(k)|])
    ensures Spelled(k) == s[..|Spelled(k)|]
  {
    hide Name, Spelled;
    var w := Spelled(k);
    assert forall i :: 0 <= i < |w| ==> Upper(s[i]) == w[i] && s[..|w|][i] == s[i];
  }

  lemma CommentTyped(s: Text)
    requires s != [] && First(s).Comment? && Plain(First(s), s)
    ensures Shown(First(s)) == s && Taken(s) == |s|
  {
    hide Keyword, Name, Token;
    FirstComment(s);
    NameShape(REMARK);
    WordTyped(s, REMARK);
    assert s == s[..3] + s[3..];
  }

  /** What is typed as it is listed is listed as it is typed. */
  lemma {:induction false} ListedAsTyped(s: Text)
    requires AsListed(s)
    ensures ShownAll(Items(s)) == s && NonNegative(Items(s))
    decreases |s|
  {
    hide First, Taken, Shown, Items, ShownAll, Plain;
    if s == [] {
      NothingShown(s);
    } else {
      ItemsStep(s);
      ShownAsTyped(s);
      ListedAsTyped(s[Taken(s)..]);
      forall i | 0 <= i < |Items(s)| && Items(s)[i].Number? ensures Items(s)[i].n >= 0 {
        if i > 0 { assert Items(s)[i] == Items(s)[1..][i - 1]; }
      }
      assert s == s[..Taken(s)] + s[Taken(s)..];
    }
  }

  // ---- lines of a file ----

  /** Storing a line puts its tokens under its number, or, when the rest leaves no room for
      it, nothing; every other number keeps its line. */
  lemma StoredGet(ls: seq<Line>, l: Line, n: nat)
    requires Sorted(ls) && AllProper(ls) && Proper(l)
    ensures var room := |Packed(Without(ls, l.num))| + |l.tokens| + 3 <= ProgramStore.SIZE;
            Get(Stored(ls, l), n) ==
            if n != l.num then Get(ls, n) else if room then ProgramLines.Tokens(l.tokens) else Absent
  {
    hide Packed, Get;
    WithoutSorted(ls, l.num);
    WithoutGet(ls, l.num, n);
    ReplacedGet(ls, l, n);
  }

  lemma {:induction false} DecimalLow(n: nat)
    ensures NumberOf(Decimal(n)) == n % 0x10000
  {
    var d := Decimal(n);
    if n < 10 {
      assert d[..0] == [];
    } else {
      DecimalLow(n / 10);
      assert d[..|d| - 1] == Decimal(n / 10);
      LowDigit(n / 10, n % 10);
    }
  }

  lemma LowDigit(u: nat, d: nat)
    ensures (u % 0x10000 * 10 + d) % 0x10000 == (10 * u + d) % 0x10000
  {
    var q, r := u / 0x10000, u % 0x10000;
    assert 10 * u + d == 0x10000 * (10 * q) + (r * 10 + d);
  }

  function Blanks(k: nat): (r: Text)
    ensures |r| == k && forall i :: 0 <= i < k ==> r[i] == BLANK
  {
    seq(k, _ => BLANK)
  }

  lemma {:induction false} BlankRunIs(k: nat, s: Text)
    requires s == [] || s[0] != BLANK
    ensures BlankRun(Blanks(k) + s) == k
  {
    if k > 0 {
      assert (Blanks(k) + s)[1..] == Blanks(k - 1) + s;
      BlankRunIs(k - 1, s);
    } else {
      assert Blanks(0) + s == s;
    }
  }

  /** A numbered line of a file, with any spaces behind its number, is stored under the low
      sixteen bits of the number; one whose number then is zero, or that has no text, changes
      nothing, and so does a line that begins with no digit. */
  lemma EnteredLine(ls: seq<Line>, n: nat, k: nat, s: Text)
    requires 0 !in s && (s == [] || (s[0] != BLANK && !Digit(s[0])))
    ensures var num := n % 0x10000;
            Entered(ls, Decimal(n) + (Blanks(k) + s)) ==
            if num == 0 || s == [] then ls else Stored(ls, Line(num, Tokenized(Items(s), [], TOKEN_ROOM)))
    ensures Entered(ls, Blanks(k) + s) == ls
  {
    hide Items, Tokenized, Decimal, Stored, NumberOf, Run, BlankRun;
    var d, body := Decimal(n), Blanks(k) + s;
    var line := d + body;
    assert body == [] || !Digit(body[0]);
    NoNul(line);
    NoNul(body);
    RunIs(line, |d|);
    RunIs(body, 0);
    assert line[..|d|] == d && line[|d|..] == body && body[..0] == [];
    DecimalLow(n);
    BlankRunIs(k, s);
    assert body[k..] == s;
    NoDigits();
    if s == [] {
      NothingShown(s);
      NothingTokenized();
    } else {
      TokensNotEmpty(s);
    }
  }

  lemma NoDigits()
    ensures NumberOf([]) == 0
  {
  }

  lemma NothingTokenized()
    ensures Tokenized([], [], TOKEN_ROOM) == []
  {
  }

  /** A file is entered line by line; empty lines are passed over, the last line needs no
      newline, and a longer line is entered in pieces of 158 characters. */
  lemma LoadedLine(ls: seq<Line>, line: Text, rest: Text)
    requires NEWLINE !in line && line != [] && |line| <= LINE_WIDTH
    ensures Loaded(ls, line + [NEWLINE] + rest) == Loaded(Entered(ls, line), rest)
    ensures Loaded(ls, [NEWLINE] + rest) == Loaded(ls, rest)
    ensures Loaded(ls, line) == Entered(ls, line)
    ensures |line| == LINE_WIDTH && rest != [] && rest[0] != NEWLINE ==>
              Loaded(ls, line + rest) == Loaded(Entered(ls, line), rest)
  {
    hide Entered, Loaded, ToBreak;
    var n := |line|;
    var a, b, c := line + [NEWLINE] + rest, [NEWLINE] + rest, line + rest;
    assert forall i :: 0 <= i < n ==> a[i] == line[i] && c[i] == line[i];
    BreakIs(a, LINE_WIDTH, n);
    BreakIs(b, LINE_WIDTH, 0);
    assert a[..n] == line && a[n + 1..] == rest && b[1..] == rest && c[..n] == line && c[n..] == rest;
    LoadedStep(ls, a);
    LoadedStep(ls, b);
    BreakAtEnd(line, LINE_WIDTH);
    LoadedStep(ls, line);
    assert line[..n] == line && line[n..] == [];
    LoadedNone(Entered(ls, line));
    if n == LINE_WIDTH && rest != [] {
      LongBreak(c, LINE_WIDTH);
      LoadedStep(ls, c);
    }
  }

  lemma LoadedNone(ls: seq<Line>)
    ensures Loaded(ls, []) == ls
  {
  }

  lemma LoadedStep(ls: seq<Line>, bytes: Text)
    requires bytes != []
    ensures var n := ToBreak(bytes, LINE_WIDTH);
            var rest := if n < |bytes| && bytes[n] == NEWLINE then bytes[n + 1..] else bytes[n..];
            Loaded(ls, bytes) == Loaded(if n == 0 then ls else Entered(ls, bytes[..n]), rest)
  {
    hide Entered;
  }

  lemma {:induction false} BreakAtEnd(t: Text, max: nat)
    requires NEWLINE !in t && |t| <= max
    ensures ToBreak(t, max) == |t|
  {
    if t != [] { BreakAtEnd(t[1..], max - 1); }
  }

  lemma {:induction false} LongBreak(t: Text, max: nat)
    requires max <= |t| && forall i :: 0 <= i < max ==> t[i] != NEWLINE
    ensures ToBreak(t, max) == max
  {
    if max > 0 { LongBreak(t[1..], max - 1); }
  }

  /** A program as it is typed: each line its number, a space, its text and a newline. */
  function Typed(ls: seq<Line>, ss: seq<Text>): Text
    requires |ls| == |ss|
  {
    if ls == [] then []
    else Printed(ls[0].num) + [BLANK] + ss[0] + [NEWLINE] + Typed(ls[1..], ss[1..])
  }

  /** SAVE writes the program as it was typed. */
  lemma SavedAsTyped(ls: seq<Line>, ss: seq<Text>)
    requires AllSavable(ls, ss) && forall i :: 0 <= i < |ss| ==> AsListed(ss[i])
    requires |ls| > 0 ==> |TextFrom(ls, 0)| - |LineText(ls[|ls| - 1])| < SAVE_STOP
    ensures Saved(ls, 0, []) == Typed(ls, ss)
  {
    hide LineText, Savable, AsListed;
    SavedAll(ls, 0, []);
    TextTyped(ls, ss, 0);
    assert ls[0..] == ls && ss[0..] == ss;
  }

  lemma {:induction false} TextTyped(ls: seq<Line>, ss: seq<Text>, k: nat)
    requires AllSavable(ls, ss) && k <= |ls| && forall i :: 0 <= i < |ss| ==> AsListed(ss[i])
    ensures TextFrom(ls, k) == Typed(ls[k..], ss[k..])
    decreases |ls| - k
  {
    hide LineText, Savable, AsListed, Printed;
    if k < |ls| {
      TextTyped(ls, ss, k + 1);
      assert ls[k..][1..] == ls[k + 1..] && ss[k..][1..] == ss[k + 1..];
      LineTyped(ls[k], ss[k]);
    }
  }

  lemma LineTyped(l: Line, s: Text)
    requires Savable(l, s) && AsListed(s)
    ensures LineText(l) == Printed(l.num) + [BLANK] + s + [NEWLINE]
  {
    hide LineText, Items, ShownAll, Decimal, AsListed;
    SavedLine(l, s);
    ListedAsTyped(s);
  }
}
