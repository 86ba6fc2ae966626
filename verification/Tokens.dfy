/** BASIC source lines as items: how text is split, how items are coded and
    shown, and that showing and splitting again gives the same items. */
module Tokens {
  import opened Basics
  import opened Word32

  type Text = seq<byte>

  const WORDS: nat := 39
  const REMARK: nat := 12
  const NUMBER_MARK: byte := 0xFE
  const QUOTE_MARK: byte := 0xFF
  const LE_MARK: byte := 0x94
  const GE_MARK: byte := 0x95
  const NE_MARK: byte := 0x96

  /** The keywords in table order. */
  function Name(k: nat): string
    requires k < WORDS
  {
    if k == 0 then "PRINT" else if k == 1 then "INPUT" else if k == 2 then "LET" else if k == 3 then "IF"
    else if k == 4 then "THEN" else if k == 5 then "GOTO" else if k == 6 then "GOSUB" else if k == 7 then "RETURN"
    else if k == 8 then "FOR" else if k == 9 then "TO" else if k == 10 then "STEP" else if k == 11 then "NEXT"
    else if k == 12 then "REM" else if k == 13 then "END" else if k == 14 then "DIM" else if k == 15 then "ELSE"
    else if k == 16 then "AND" else if k == 17 then "OR" else if k == 18 then "NOT" else if k == 19 then "MOD"
    else if k == 20 then "ABS" else if k == 21 then "RND" else if k == 22 then "LEN" else if k == 23 then "VAL"
    else if k == 24 then "CHR$" else if k == 25 then "STR$" else if k == 26 then "LEFT$" else if k == 27 then "RIGHT$"
    else if k == 28 then "MID$" else if k == 29 then "PEEK" else if k == 30 then "POKE" else if k == 31 then "INT"
    else if k == 32 then "LOAD" else if k == 33 then "SAVE" else if k == 34 then "LIST" else if k == 35 then "RUN"
    else if k == 36 then "NEW" else if k == 37 then "CLR" else "CLS"
  }

  function Token(k: nat): (t: byte)
    requires k < WORDS
    ensures 0x80 <= t < 0xB7 && !(0x94 <= t <= 0x96)
  {
    if k < 20 then 0x80 + k else if k < 32 then 0xA0 + (k - 20) else 0xB0 + (k - 32)
  }

  predicate WordByte(c: int) { 'A' as int <= c <= 'Z' as int || c == '$' as int }

  /** Keywords are made of capitals and `$`. */
  lemma NameShape(k: nat)
    requires k < WORDS
    ensures 2 <= |Name(k)| <= 6
    ensures forall i :: 0 <= i < |Name(k)| ==> WordByte(Name(k)[i] as int)
    ensures Name(REMARK) == "REM"
  {
  }

  function Spelled(k: nat): (r: Text)
    requires k < WORDS
    ensures 2 <= |r| <= 6 && |r| == |Name(k)|
    ensures forall i :: 0 <= i < |r| ==> WordByte(r[i]) && r[i] == Name(k)[i] as int
  {
    NameShape(k);
    seq(|Name(k)|, i requires 0 <= i < |Name(k)| => Name(k)[i] as int)
  }

  function Upper(c: byte): byte {
    if 'a' as int <= c <= 'z' as int then c - 32 else c
  }

  predicate Digit(c: byte) { '0' as int <= c <= '9' as int }

  predicate Alnum(c: byte) { 'A' as int <= Upper(c) <= 'Z' as int || Digit(c) }

  /** `s` begins with `w`, in any case. */
  predicate Begins(s: Text, w: Text) {
    |w| <= |s| && forall i :: 0 <= i < |w| ==> Upper(s[i]) == w[i]
  }

  /** The keyword stands at the start of `s`: no letter or digit follows it,
      unless it ends in `$`. */
  predicate Matches(s: Text, k: nat)
    requires k < WORDS
  {
    var w := Spelled(k);
    Begins(s, w) && (w[|w| - 1] == '$' as int || |s| == |w| || !Alnum(s[|w|]))
  }

  /** The first keyword of the table, from `k` on, that stands at the start. */
  function Keyword(s: Text, k: nat): (r: nat)
    requires k <= WORDS
    ensures k <= r <= WORDS
    ensures r < WORDS ==> Matches(s, r)
    ensures forall j :: k <= j < r ==> !Matches(s, j)
    decreases WORDS - k
  {
    if k == WORDS then WORDS else if Matches(s, k) then k else Keyword(s, k + 1)
  }

  /** A line splits into these. */
  datatype Item =
    | Char(c: byte)
    | Word(k: nat)
    | Comment(text: Text)
    | Number(n: int)
    | Quote(text: Text)
    | Relation(mark: byte)

  function Run(s: Text): (n: nat)
    ensures n <= |s| && (forall i :: 0 <= i < n ==> Digit(s[i])) && (n < |s| ==> !Digit(s[n]))
  {
    if s == [] || !Digit(s[0]) then 0 else Run(s[1..]) + 1
  }

  /** The 32-bit value of a string of digits. */
  function ValueOf(ds: Text): (v: int)
    ensures FitsSigned(v)
    decreases |ds|
  {
    if ds == [] then 0 else Signed(Wrap(ValueOf(ds[..|ds| - 1]) * 10 + (ds[|ds| - 1] as int - 48)))
  }

  const MARK: byte := 34

  /** How far it is to the next quotation mark or the end. */
  function ToQuote(s: Text): (n: nat)
    ensures n <= |s| && (forall i :: 0 <= i < n ==> s[i] != MARK) && (n < |s| ==> s[n] == MARK)
  {
    if s == [] || s[0] == MARK then 0 else ToQuote(s[1..]) + 1
  }

  function RelationAt(s: Text): (r: Item)
    ensures r.Relation? || r.Char?
  {
    if |s| >= 2 && s[0] == 60 && s[1] == 61 then Relation(LE_MARK)
    else if |s| >= 2 && s[0] == 62 && s[1] == 61 then Relation(GE_MARK)
    else if |s| >= 2 && s[0] == 60 && s[1] == 62 then Relation(NE_MARK)
    else Char(if s == [] then 0 else s[0])
  }

  /** The first item of a line. */
  function First(s: Text): Item
    requires s != []
  {
    if s[0] == 32 then Char(32)
    else
      var k := Keyword(s, 0);
      if k == REMARK then Comment(s[|Spelled(k)|..])
      else if k < WORDS then Word(k)
      else if Digit(s[0]) then Number(ValueOf(s[..Run(s)]))
      else if s[0] == MARK then Quote(s[1..1 + ToQuote(s[1..])])
      else RelationAt(s)
  }

  /** How much of the line the first item takes. */
  function Taken(s: Text): (n: nat)
    requires s != []
    ensures 0 < n <= |s|
  {
    match First(s)
    case Char(_) => 1
    case Word(k) =>
      FirstWord(s);
      |Spelled(k)|
    case Comment(_) => |s|
    case Number(_) =>
      FirstNumber(s);
      Run(s)
    case Quote(t) =>
      FirstQuote(s);
      var n := 1 + |t|;
      if n < |s| then n + 1 else n
    case Relation(_) => 2
  }

  lemma FirstWord(s: Text)
    requires s != [] && First(s).Word?
    ensures First(s).k < WORDS && First(s).k != REMARK && Matches(s, First(s).k) && Keyword(s, 0) == First(s).k
  {
    hide Name, Spelled, Token, Run, ToQuote, ValueOf, Begins, Alnum, RelationAt, Matches;
  }

  lemma FirstNumber(s: Text)
    requires s != [] && First(s).Number?
    ensures Digit(s[0]) && Run(s) > 0
  {
    hide Name, Spelled, Token, ToQuote, ValueOf, Begins, Alnum;
  }

  lemma FirstQuote(s: Text)
    requires s != [] && First(s).Quote?
    ensures s[0] == MARK && First(s).text == s[1..1 + ToQuote(s[1..])] && 1 + |First(s).text| <= |s|
  {
    hide Name, Spelled, Token, Run, ValueOf, Begins, Alnum;
  }

  function Items(s: Text): seq<Item>
    decreases |s|
  {
    if s == [] then [] else [First(s)] + Items(s[Taken(s)..])
  }

  // ---- showing and coding ----

  function Decimal(n: nat): (r: Text)
    ensures |r| > 0 && forall i :: 0 <= i < |r| ==> Digit(r[i])
  {
    if n < 10 then [48 + n] else Decimal(n / 10) + [48 + n % 10]
  }

  /** A 32-bit number as it is printed; the smallest one loses its digits. */
  function Printed(n: int): (r: Text)
    ensures |r| > 0
  {
    if n >= 0 then Decimal(n) else if n == -0x8000_0000 then [45] else [45] + Decimal(-n)
  }

  function RelationText(mark: byte): Text {
    if mark == LE_MARK then [60, 61] else if mark == GE_MARK then [62, 61] else [60, 62]
  }

  function Shown(it: Item): Text {
    match it
    case Char(c) => [c]
    case Word(k) => if k < WORDS then Spelled(k) else []
    case Comment(t) => Spelled(REMARK) + t
    case Number(n) => Printed(n)
    case Quote(t) => [MARK] + t + [MARK]
    case Relation(m) => RelationText(m)
  }

  function ShownAll(its: seq<Item>): Text {
    if its == [] then [] else Shown(its[0]) + ShownAll(its[1..])
  }

  function Code(it: Item): seq<byte> {
    match it
    case Char(c) => [c]
    case Word(k) => if k < WORDS then [Token(k)] else []
    case Comment(t) => [Token(REMARK)] + t
    case Number(n) => [NUMBER_MARK] + Dword(n)
    case Quote(t) => if |t| < 256 then [QUOTE_MARK, |t|] + t else []
    case Relation(m) => [m]
  }

  function CodeAll(its: seq<Item>): seq<byte> {
    if its == [] then [] else Code(its[0]) + CodeAll(its[1..])
  }

  // ---- splitting what is shown ----

  predicate Alike(a: byte, b: byte) {
    Upper(a) == Upper(b) || (Digit(a) && Digit(b))
  }

  predicate NonNegative(its: seq<Item>) {
    forall i :: 0 <= i < |its| && its[i].Number? ==> its[i].n >= 0
  }

  lemma ItemsStep(s: Text)
    requires s != []
    ensures Items(s) != [] && Items(s)[0] == First(s) && Items(s)[1..] == Items(s[Taken(s)..])
    ensures ShownAll(Items(s)) == Shown(First(s)) + ShownAll(Items(s[Taken(s)..]))
    ensures NonNegative(Items(s)) ==> NonNegative(Items(s[Taken(s)..]))
  {
    var rest := Items(s[Taken(s)..]);
    assert Items(s) == [First(s)] + rest;
    assert forall i :: 0 <= i < |rest| ==> rest[i] == Items(s)[i + 1];
  }

  /** What is shown begins with a character like the one of the source. */
  lemma {:induction false} ShownStart(s: Text)
    requires NonNegative(Items(s))
    ensures s == [] <==> ShownAll(Items(s)) == []
    ensures s != [] ==> Alike(ShownAll(Items(s))[0], s[0])
  {
    if s != [] {
      ItemsStep(s);
      ShownFirst(s);
    }
  }

  lemma ShownFirst(s: Text)
    requires s != [] && (First(s).Number? ==> First(s).n >= 0)
    ensures Shown(First(s)) != [] && Alike(Shown(First(s))[0], s[0])
  {
    hide Decimal, ValueOf, Keyword, Name, Spelled, Token, Run;
    var k := Keyword(s, 0);
    if First(s).Word? || First(s).Comment? {
      assert Begins(s, Spelled(k));
      assert Upper(s[0]) == Spelled(k)[0];
    }
  }

  predicate WordText(w: Text) {
    forall i :: 0 <= i < |w| ==> WordByte(w[i])
  }

  /** `r` and `s` both begin with `w`, and go on alike behind it. */
  ghost predicate SameNext(r: Text, s: Text, n: nat) {
    && n <= |r| && n <= |s| && (|r| == n <==> |s| == n)
    && (|r| > n ==> Alnum(r[n]) == Alnum(s[n]))
  }

  lemma AlikeAlnum(a: byte, b: byte)
    requires Alike(a, b)
    ensures Alnum(a) == Alnum(b) && Digit(a) == Digit(b)
    ensures !Alnum(b) ==> a == b
  {
  }

  lemma SpelledShape(k: nat)
    requires k < WORDS
    ensures WordText(Spelled(k))
  {
  }

  /** Where the shown text begins with capitals and `$`, so does the source. */
  lemma {:induction false} Back(s: Text, w: Text)
    requires NonNegative(Items(s)) && WordText(w) && Begins(ShownAll(Items(s)), w)
    ensures Begins(s, w) && SameNext(ShownAll(Items(s)), s, |w|)
    decreases |s|
  {
    hide Items, ShownAll, First, Taken, Spelled;
    ShownStart(s);
    if w == [] {
      if s != [] { AlikeAlnum(ShownAll(Items(s))[0], s[0]); }
    } else {
      ItemsStep(s);
      BackStep(s, w);
    }
  }

  lemma {:induction false} BackStep(s: Text, w: Text)
    requires s != [] && w != [] && NonNegative(Items(s)) && WordText(w) && Begins(ShownAll(Items(s)), w)
    ensures Begins(s, w) && SameNext(ShownAll(Items(s)), s, |w|)
    decreases |s|, 0
  {
    hide Items, ShownAll, Decimal, ValueOf, Keyword, Spelled, Token, Run, ToQuote;
    ItemsStep(s);
    var it, n := First(s), Taken(s);
    var t, rest := Shown(it), ShownAll(Items(s[n..]));
    assert ShownAll(Items(s)) == t + rest;
    ShownFirst(s);
    assert Upper((t + rest)[0]) == w[0] && t[0] == (t + rest)[0];
    if it.Word? {
      FirstWord(s);
      BackOver(s, w, t, rest, n);
    } else if it.Comment? {
      FirstComment(s);
      NothingShown(s[n..]);
      assert t + [] == t;
      BackComment(s, w);
    } else {
      FirstChar(s, w);
      BackOver(s, w, t, rest, n);
    }
  }

  lemma NothingShown(s: Text)
    requires |s| == 0
    ensures Items(s) == [] && ShownAll(Items(s)) == []
  {
  }

  lemma FirstComment(s: Text)
    requires s != [] && First(s).Comment?
    ensures Keyword(s, 0) == REMARK && Matches(s, REMARK)
    ensures First(s).text == s[|Spelled(REMARK)|..] && Taken(s) == |s|
  {
    hide Name, Spelled, Token, Run, ToQuote, ValueOf, Begins, Alnum, RelationAt, Matches;
  }

  /** The item shown first in a text that begins with a capital or `$` is that
      single character, if it is no keyword. */
  lemma FirstChar(s: Text, w: Text)
    requires s != [] && w != [] && WordByte(w[0]) && !First(s).Word? && !First(s).Comment?
    requires (First(s).Number? ==> First(s).n >= 0) && Shown(First(s)) != [] && Upper(Shown(First(s))[0]) == w[0]
    ensures First(s) == Char(s[0]) && Taken(s) == 1 && Shown(First(s)) == s[..1]
  {
    hide Keyword, Name, Spelled, Token, ValueOf, Decimal, Run, ToQuote;
  }

  /** One item on both sides, then the rest. */
  lemma {:induction false} BackOver(s: Text, w: Text, t: Text, rest: Text, n: nat)
    requires 0 < n <= |s| && |t| == n && forall i :: 0 <= i < n ==> Upper(t[i]) == Upper(s[i])
    requires rest == ShownAll(Items(s[n..])) && NonNegative(Items(s[n..]))
    requires WordText(w) && Begins(t + rest, w)
    ensures Begins(s, w) && SameNext(t + rest, s, |w|)
    decreases |s|, -1
  {
    hide Items, ShownAll;
    var r := t + rest;
    if |w| >= n {
      var w' := w[n..];
      forall i | 0 <= i < |w'| ensures Upper(rest[i]) == w'[i] && WordByte(w'[i]) {
        assert rest[i] == r[n + i] && w'[i] == w[n + i];
      }
      Back(s[n..], w');
      forall i | 0 <= i < |w| ensures Upper(s[i]) == w[i] {
        if i < n { assert r[i] == t[i]; } else { assert s[i] == s[n..][i - n] && w[i] == w'[i - n]; }
      }
      if |r| > |w| { assert r[|w|] == rest[|w'|] && s[|w|] == s[n..][|w'|]; }
    } else {
      forall i | 0 <= i <= |w| ensures Upper(r[i]) == Upper(s[i]) {
        assert r[i] == t[i];
      }
    }
  }

  lemma BackComment(s: Text, w: Text)
    requires s != [] && Matches(s, REMARK) && WordText(w) && Begins(Spelled(REMARK) + s[|Spelled(REMARK)|..], w)
    ensures Begins(s, w) && SameNext(Spelled(REMARK) + s[|Spelled(REMARK)|..], s, |w|)
  {
    var m := |Spelled(REMARK)|;
    var r := Spelled(REMARK) + s[m..];
    forall i | 0 <= i < |s| ensures Upper(r[i]) == Upper(s[i]) {
      if i < m { assert r[i] == Spelled(REMARK)[i]; } else { assert r[i] == s[i]; }
    }
  }

  lemma {:induction false} MatchBack(s: Text, k: nat)
    requires NonNegative(Items(s)) && k < WORDS && Matches(ShownAll(Items(s)), k)
    ensures Matches(s, k)
  {
    hide Items, ShownAll, Spelled;
    SpelledShape(k);
    Back(s, Spelled(k));
  }

  lemma {:induction false} KeywordIs(s: Text, k: nat, r: nat)
    requires k <= r <= WORDS && (r < WORDS ==> Matches(s, r)) && forall j :: k <= j < r ==> !Matches(s, j)
    ensures Keyword(s, k) == r
    decreases r - k
  {
    hide Matches;
    if k < r { KeywordIs(s, k + 1, r); }
  }

  /** No keyword arises in the shown text that was not there before. */
  lemma {:induction false} KeywordBack(s: Text)
    requires NonNegative(Items(s))
    requires var r := Keyword(s, 0); r < WORDS ==> Matches(ShownAll(Items(s)), r)
    ensures Keyword(ShownAll(Items(s)), 0) == Keyword(s, 0)
  {
    hide Items, ShownAll, Matches;
    var t := ShownAll(Items(s));
    forall j | 0 <= j < Keyword(s, 0) ensures !Matches(t, j) {
      if Matches(t, j) { MatchBack(s, j); }
    }
    KeywordIs(t, 0, Keyword(s, 0));
  }

  lemma {:induction false} DecimalValue(n: nat)
    requires n < 0x8000_0000
    ensures ValueOf(Decimal(n)) == n
  {
    var d := Decimal(n);
    if n < 10 {
      assert d[..0] == [];
    } else {
      DecimalValue(n / 10);
      assert d[..|d| - 1] == Decimal(n / 10);
    }
  }

  lemma {:induction false} RunIs(s: Text, n: nat)
    requires n <= |s| && (forall i :: 0 <= i < n ==> Digit(s[i])) && (n < |s| ==> !Digit(s[n]))
    ensures Run(s) == n
  {
    if n > 0 { RunIs(s[1..], n - 1); }
  }

  lemma {:induction false} ToQuoteIs(s: Text, n: nat)
    requires n <= |s| && (forall i :: 0 <= i < n ==> s[i] != MARK) && (n < |s| ==> s[n] == MARK)
    ensures ToQuote(s) == n
  {
    if n > 0 { ToQuoteIs(s[1..], n - 1); }
  }

  /** The first item of the shown text is the first item again. */
  lemma {:induction false} FirstBack(s: Text)
    requires s != [] && NonNegative(Items(s))
    ensures var t := ShownAll(Items(s));
            t != [] && First(t) == First(s) && Taken(t) == |Shown(First(s))|
  {
    hide Items, ShownAll, First, Taken, Shown, NonNegative;
    ShownStart(s);
    ItemsStep(s);
    var it := First(s);
    if it.Word? { WordBack(s); }
    else if it.Comment? { CommentBack(s); }
    else if it.Number? { NumberBack(s); }
    else if it.Quote? { QuoteBack(s); }
    else { SignBack(s); }
  }

  lemma NoWord(s: Text)
    requires s != [] && !First(s).Word? && !First(s).Comment? && s[0] != 32
    ensures Keyword(s, 0) == WORDS
  {
    hide Name, Spelled, Token, Run, ToQuote, ValueOf, Begins, Alnum, RelationAt, Matches;
  }

  lemma WordMatches(s: Text, t: Text, rest: Text, k: nat)
    requires k < WORDS && Matches(s, k) && t == Spelled(k) + rest
    requires var u := s[|Spelled(k)|..]; (u == [] <==> rest == []) && (u != [] ==> Alike(rest[0], u[0]))
    ensures Matches(t, k)
  {
    hide Name;
    var w := Spelled(k);
    assert forall i :: 0 <= i < |w| ==> t[i] == w[i] && Upper(w[i]) == w[i];
    if rest != [] {
      AlikeAlnum(rest[0], s[|w|..][0]);
      assert t[|w|] == rest[0] && s[|w|..][0] == s[|w|];
    }
  }

  lemma {:induction false} WordBack(s: Text)
    requires s != [] && NonNegative(Items(s)) && First(s).Word?
    ensures var t := ShownAll(Items(s));
            t != [] && First(t) == First(s) && Taken(t) == |Shown(First(s))|
  {
    hide Items, ShownAll, Name, Spelled, Token, Run, ToQuote, ValueOf, Begins, Alnum, RelationAt, Matches, Keyword,
         NonNegative;
    ItemsStep(s);
    FirstWord(s);
    var k := First(s).k;
    var rest := ShownAll(Items(s[Taken(s)..]));
    var t := ShownAll(Items(s));
    ShownStart(s[Taken(s)..]);
    WordMatches(s, t, rest, k);
    KeywordBack(s);
    assert t[0] == Spelled(k)[0];
  }

  lemma {:induction false} CommentBack(s: Text)
    requires s != [] && NonNegative(Items(s)) && First(s).Comment?
    ensures var t := ShownAll(Items(s));
            t != [] && First(t) == First(s) && Taken(t) == |Shown(First(s))|
  {
    hide Items, ShownAll, Name, Spelled, Token, Run, ToQuote, ValueOf, Begins, Alnum, RelationAt, Matches, Keyword,
         NonNegative;
    ItemsStep(s);
    FirstComment(s);
    NothingShown(s[Taken(s)..]);
    var w, text := Spelled(REMARK), First(s).text;
    var t := ShownAll(Items(s));
    assert t == w + text;
    WordMatches(s, t, text, REMARK);
    KeywordBack(s);
    assert t[0] == w[0] && t[|w|..] == text;
  }

  lemma {:induction false} NumberBack(s: Text)
    requires s != [] && NonNegative(Items(s)) && First(s).Number?
    ensures var t := ShownAll(Items(s));
            t != [] && First(t) == First(s) && Taken(t) == |Shown(First(s))|
  {
    hide Items, ShownAll, Name, Spelled, Token, ToQuote, ValueOf, Begins, Alnum, RelationAt, Matches, Keyword,
         Decimal, Run;
    ItemsStep(s);
    FirstNumber(s);
    NoWord(s);
    KeywordBack(s);
    var n := First(s).n;
    assert Items(s)[0].Number?;
    var m := Taken(s);
    var d, rest := Decimal(n), ShownAll(Items(s[m..]));
    var t := ShownAll(Items(s));
    assert t == d + rest;
    ShownStart(s[m..]);
    if rest != [] {
      AlikeAlnum(rest[0], s[m..][0]);
      assert s[m..][0] == s[m] && t[|d|] == rest[0];
    }
    assert forall i :: 0 <= i < |d| ==> t[i] == d[i];
    RunIs(t, |d|);
    assert t[..|d|] == d;
    DecimalValue(n);
  }

  lemma {:induction false} QuoteBack(s: Text)
    requires s != [] && NonNegative(Items(s)) && First(s).Quote?
    ensures var t := ShownAll(Items(s));
            t != [] && First(t) == First(s) && Taken(t) == |Shown(First(s))|
  {
    hide Items, ShownAll, Shown, First, Taken, Matches, Keyword, ToQuote, NonNegative;
    ItemsStep(s);
    FirstQuote(s);
    NoWord(s);
    KeywordBack(s);
    var q := First(s).text;
    ShownQuote(q);
    var rest := ShownAll(Items(s[Taken(s)..]));
    assert forall i :: 0 <= i < |q| ==> q[i] == s[1..][i];
    assert Shown(First(s)) + rest == [MARK] + (q + ([MARK] + rest));
    QuoteRead(q, rest);
  }

  lemma ShownQuote(q: Text)
    ensures Shown(Quote(q)) == [MARK] + q + [MARK]
  {
  }

  lemma QuoteRead(q: Text, rest: Text)
    requires forall i :: 0 <= i < |q| ==> q[i] != MARK
    requires Keyword([MARK] + (q + ([MARK] + rest)), 0) == WORDS
    ensures var t := [MARK] + (q + ([MARK] + rest));
            First(t) == Quote(q) && Taken(t) == |q| + 2
  {
    hide Name, Spelled, Token, ValueOf, Begins, Alnum, RelationAt, Matches, Keyword, Decimal, Run, ToQuote;
    var u := q + ([MARK] + rest);
    var t := [MARK] + u;
    assert t[0] == MARK && t[1..] == u;
    assert forall i :: 0 <= i < |q| ==> u[i] == q[i];
    assert u[|q|] == MARK;
    ToQuoteIs(u, |q|);
    assert t[1..1 + |q|] == u[..|q|] == q;
  }

  lemma {:induction false} SignBack(s: Text)
    requires s != [] && NonNegative(Items(s)) && (First(s).Char? || First(s).Relation?)
    ensures var t := ShownAll(Items(s));
            t != [] && First(t) == First(s) && Taken(t) == |Shown(First(s))|
  {
    hide Items, ShownAll, Name, Spelled, Token, ValueOf, Begins, Matches, Keyword, Decimal, Run, ToQuote, NonNegative;
    ItemsStep(s);
    var it := First(s);
    var rest := ShownAll(Items(s[Taken(s)..]));
    var t := ShownAll(Items(s));
    assert t == Shown(it) + rest;
    if s[0] == 32 {
      assert t[0] == 32;
    } else {
      NoWord(s);
      KeywordBack(s);
      if it.Char? {
        ShownStart(s[1..]);
        if rest != [] {
          AlikeAlnum(rest[0], s[1..][0]);
          assert t[1] == rest[0] && s[1..][0] == s[1];
        }
      }
    }
  }

  /** Showing a line's items and splitting the text again gives the same items,
      provided no number in it is negative: the sign would come back as a
      character of its own. */
  lemma {:induction false} ShowThenSplit(s: Text)
    requires NonNegative(Items(s))
    ensures Items(ShownAll(Items(s))) == Items(s)
    decreases |s|
  {
    hide First, Taken, Shown, NonNegative;
    if s == [] {
    } else {
      ItemsStep(s);
      FirstBack(s);
      var rest := s[Taken(s)..];
      ShowThenSplit(rest);
      var t := ShownAll(Items(s));
      assert t[|Shown(First(s))|..] == ShownAll(Items(rest));
    }
  }

  /** A text that is what its own items show holds no negative number. */
  lemma {:induction false} ShownItself(u: Text)
    requires u == ShownAll(Items(u))
    ensures NonNegative(Items(u))
    decreases |u|
  {
    hide First, Taken, Shown, Items, ShownAll;
    if u == [] {
      NothingShown(u);
    } else {
      ItemsStep(u);
      TakenShown(u);
      var rest := u[Taken(u)..];
      assert u[|Shown(First(u))|..] == ShownAll(Items(rest));
      ShownItself(rest);
      NegativeAhead(u);
      forall i | 0 <= i < |Items(u)| && Items(u)[i].Number? ensures Items(u)[i].n >= 0 {
        if i > 0 { assert Items(u)[i] == Items(u)[1..][i - 1] == Items(rest)[i - 1]; }
      }
    }
  }

  /** Numbers are read from digits, so one shown with a sign is not read. */
  lemma NegativeAhead(u: Text)
    requires u != [] && |Shown(First(u))| <= |u| && u == Shown(First(u)) + u[|Shown(First(u))|..]
    ensures First(u).Number? ==> First(u).n >= 0
  {
    hide Keyword, Name, Spelled, Token, ToQuote, ValueOf, Begins, Matches, RelationAt;
    if First(u).Number? {
      FirstNumber(u);
      assert u[0] == Shown(First(u))[0];
    }
  }

  lemma {:induction false} TakenShown(u: Text)
    requires u != [] && u == ShownAll(Items(u))
    ensures Taken(u) == |Shown(First(u))| && u == Shown(First(u)) + u[|Shown(First(u))|..]
  {
    hide Keyword, Name, Spelled, Token, ToQuote, ValueOf, Begins, Matches, RelationAt, Items, ShownAll, Decimal, Run;
    ItemsStep(u);
    var it := First(u);
    var t, rest := Shown(it), ShownAll(Items(u[Taken(u)..]));
    assert u == t + rest && u[|t|..] == rest;
    if it.Comment? {
      FirstComment(u);
      CommentWhole(u);
    } else if it.Number? {
      FirstNumber(u);
      NumberWhole(u);
    } else if it.Quote? {
      FirstQuote(u);
      assert u[1 + |it.text|] == t[1 + |it.text|] == MARK;
    }
  }

  lemma CommentWhole(u: Text)
    requires u != [] && First(u).Comment?
    ensures |Shown(First(u))| == |u|
  {
    hide Keyword, Name, Token, ToQuote, ValueOf, RelationAt;
    FirstComment(u);
  }

  /** A number's digits are all that is taken: what is shown behind them does
      not begin with a digit. */
  lemma {:induction false} NumberWhole(u: Text)
    requires u != [] && First(u).Number? && Run(u) == Taken(u)
    requires u == Shown(First(u)) + ShownAll(Items(u[Taken(u)..]))
    ensures Taken(u) == |Shown(First(u))|
  {
    hide Keyword, Name, Spelled, Token, ToQuote, ValueOf, Begins, Matches, RelationAt, Items, ShownAll, Decimal, Run;
    FirstNumber(u);
    var t := Shown(First(u));
    assert u[0] == t[0];
    assert forall i :: 0 <= i < |t| ==> Digit(t[i]);
    var n := Run(u);
    var v := u[n..];
    var rest := ShownAll(Items(v));
    assert forall i :: 0 <= i < |t| ==> u[i] == t[i];
    if v != [] {
      ItemsStep(v);
      ShownNoDigit(v);
      assert rest[0] == Shown(First(v))[0];
    } else {
      NothingShown(v);
    }
    assert |t| < |u| ==> u[|t|] == rest[0];
    RunIs(u, |t|);
  }

  lemma ShownNoDigit(v: Text)
    requires v != [] && !Digit(v[0])
    ensures Shown(First(v)) != [] && !Digit(Shown(First(v))[0])
  {
    hide Keyword, Name, Token, ToQuote, ValueOf, Begins, Matches, Decimal;
    if First(v).Number? {
      FirstNumber(v);
    } else if First(v).Word? {
      FirstWord(v);
    }
  }

  /** Showing and splitting again gives the same items exactly when no number
      is negative. */
  lemma {:induction false} ShowAndSplit(s: Text)
    ensures Items(ShownAll(Items(s))) == Items(s) <==> NonNegative(Items(s))
  {
    if NonNegative(Items(s)) { ShowThenSplit(s); }
    if Items(ShownAll(Items(s))) == Items(s) { ShownItself(ShownAll(Items(s))); }
  }
}
