/** Token strings: what they decode to, and what tokenizing and listing do when
    their buffers are limited. */
module TokenCode {
  import opened Basics
  import opened Word32
  import opened Tokens

  function Cut(t: Text, n: int): (r: Text)
    ensures |r| == if n < 0 then 0 else if n < |t| then n else |t|
  {
    if n < 0 then [] else t[..Smaller(n, |t|)]
  }

  // ---- tokenizing into a limited buffer ----

  /** The token string for `its` behind `out`: an item is begun only while five
      bytes and one more are free; comments and strings are cut at the last
      byte but one. */
  function Tokenized(its: seq<Item>, out: seq<byte>, max: nat): seq<byte>
    decreases |its|
  {
    if its == [] || |out| + 5 >= max then out
    else match its[0]
      case Comment(t) => Tokenized(its[1..], out + Code(Comment(Cut(t, max - 2 - |out|))), max)
      case Quote(t) => Tokenized(its[1..], out + Code(Quote(Cut(t, max - 3 - |out|))), max)
      case _ => Tokenized(its[1..], out + Code(its[0]), max)
  }

  // ---- decoding ----

  function KeywordOf(t: byte): (k: nat)
    ensures k <= WORDS && (k < WORDS ==> Token(k) == t) && (k == WORDS ==> forall j :: 0 <= j < WORDS ==> Token(j) != t)
  {
    if 0x80 <= t < 0x94 then t - 0x80
    else if 0xA0 <= t < 0xAC then t - 0xA0 + 20
    else if 0xB0 <= t < 0xB7 then t - 0xB0 + 32
    else WORDS
  }

  function Number4(ts: seq<byte>): int
    requires |ts| >= 4
  {
    Signed(ts[0] + 256 * ts[1] as int + 0x10000 * ts[2] as int + 0x100_0000 * ts[3] as int)
  }

  /** The items a token string stands for, malformed ends included. */
  function Decoded(ts: seq<byte>): seq<Item>
    decreases |ts|
  {
    if ts == [] then []
    else
      var t := ts[0];
      if t == NUMBER_MARK then
        if |ts| >= 5 then [Number(Number4(ts[1..]))] + Decoded(ts[5..]) else Decoded(ts[1..])
      else if t == QUOTE_MARK then
        if |ts| >= 2 then
          var n := Smaller(ts[1], |ts| - 2);
          [Quote(ts[2..2 + n])] + Decoded(ts[2 + n..])
        else []
      else if t == LE_MARK || t == GE_MARK || t == NE_MARK then [Relation(t)] + Decoded(ts[1..])
      else
        var k := KeywordOf(t);
        if k == REMARK then [Comment(ts[1..])]
        else if k < WORDS then [Word(k)] + Decoded(ts[1..])
        else [Char(t)] + Decoded(ts[1..])
  }

  /** Items that their code leads back to: characters that are no token marks,
      comments only at the end. */
  predicate Clean(its: seq<Item>) {
    its != [] ==>
      && Clean(its[1..])
      && match its[0]
         case Char(c) => c < 0x80
         case Word(k) => k < WORDS && k != REMARK
         case Comment(_) => |its| == 1
         case Number(n) => FitsSigned(n)
         case Quote(t) => |t| < 256
         case Relation(m) => m == LE_MARK || m == GE_MARK || m == NE_MARK
  }

  lemma Number4Back(n: int)
    requires FitsSigned(n)
    ensures Number4(Dword(n)) == n
  {
    var w := Wrap(n);
    DwordDigits(w);
  }

  /** Decoding the code of clean items gives them back. */
  lemma {:induction false} DecodeCode(its: seq<Item>)
    requires Clean(its)
    ensures Decoded(CodeAll(its)) == its
    decreases |its|
  {
    hide Decoded, Code;
    if its == [] {
      DecodeNone();
    } else {
      DecodeCode(its[1..]);
      var it, rest := its[0], CodeAll(its[1..]);
      assert its == [it] + its[1..];
      if it.Comment? {
        assert its[1..] == [] && rest == [];
        assert its == [it];
        CommentCode(it.text);
        assert CodeAll(its) == Code(it) + rest;
        assert Code(it) + [] == Code(it);
      } else if it.Number? {
        NumberCode(it.n, rest);
      } else if it.Quote? {
        QuoteCode(it.text, rest);
      } else {
        SingleCode(it, rest);
      }
    }
  }

  lemma DecodeNone()
    ensures Decoded([]) == []
  {
  }

  lemma CommentCode(t: Text)
    ensures Decoded(Code(Comment(t))) == [Comment(t)]
  {
    var c := Code(Comment(t));
    assert c[0] == Token(REMARK) && c[1..] == t;
  }

  lemma SingleCode(it: Item, rest: seq<byte>)
    requires it.Char? || it.Word? || it.Relation?
    requires match it
             case Char(c) => c < 0x80
             case Word(k) => k < WORDS && k != REMARK
             case Relation(m) => m == LE_MARK || m == GE_MARK || m == NE_MARK
             case _ => false
    ensures Decoded(Code(it) + rest) == [it] + Decoded(rest)
  {
    hide Name, Spelled, Number4;
    var ts := Code(it) + rest;
    assert |Code(it)| == 1 && ts[0] == Code(it)[0] && ts[1..] == rest;
  }

  lemma {:induction false} NumberCode(n: int, rest: seq<byte>)
    requires FitsSigned(n)
    ensures Decoded(Code(Number(n)) + rest) == [Number(n)] + Decoded(rest)
  {
    hide Dword, Number4;
    var ts := [NUMBER_MARK] + Dword(n) + rest;
    Number4Back(n);
    assert ts[1..] == Dword(n) + rest;
    Number4Front(Dword(n), rest);
    assert ts[5..] == rest;
  }

  lemma Number4Front(b: seq<byte>, rest: seq<byte>)
    requires |b| == 4
    ensures Number4(b + rest) == Number4(b)
  {
  }

  lemma QuoteCode(t: Text, rest: seq<byte>)
    requires |t| < 256
    ensures Decoded(Code(Quote(t)) + rest) == [Quote(t)] + Decoded(rest)
  {
    var ts := [QUOTE_MARK, |t|] + t + rest;
    assert ts[0] == QUOTE_MARK && ts[1] == |t|;
    assert ts[2..2 + |t|] == t && ts[2 + |t|..] == rest;
  }

  // ---- listing into a limited buffer ----

  /** The listing of `its` behind `out`: cut at the last byte but one, with the
      two-character relations left out where they do not fit. */
  function Listed(its: seq<Item>, out: Text, max: nat): Text
    decreases |its|
  {
    if its == [] || |out| + 1 >= max then out
    else if its[0].Relation? then
      Listed(its[1..], if |out| + 2 < max then out + Shown(its[0]) else out, max)
    else Listed(its[1..], out + Cut(Shown(its[0]), max - 1 - |out|), max)
  }

  lemma {:induction false} ListedWhole(its: seq<Item>, out: Text, max: nat)
    requires |out| + |ShownAll(its)| + 1 <= max
    requires forall i :: 0 <= i < |its| ==> Shown(its[i]) != []
    ensures Listed(its, out, max) == out + ShownAll(its)
    decreases |its|
  {
    hide Shown;
    if its == [] {
      assert out + ShownAll(its) == out;
    } else {
      var t, rest := Shown(its[0]), ShownAll(its[1..]);
      assert ShownAll(its) == t + rest;
      assert out + (t + rest) == (out + t) + rest;
      assert forall i :: 0 <= i < |its[1..]| ==> its[1..][i] == its[i + 1];
      assert t == Shown(its[0]) != [];
      assert |t| > 0;
      ListedWhole(its[1..], out + t, max);
      if its[0].Relation? { RelationLength(its[0]); }
      assert Cut(t, max - 1 - |out|) == t;
    }
  }

  lemma RelationLength(it: Item)
    requires it.Relation?
    ensures |Shown(it)| == 2
  {
  }

  // ---- what entering, listing and entering again gives ----

  /** Source text as it can be typed. */
  predicate Printable(s: Text) {
    forall i :: 0 <= i < |s| ==> 32 <= s[i] < 127
  }

  lemma {:induction false} PrintableClean(s: Text)
    requires Printable(s) && |s| < 256
    ensures Clean(Items(s))
    ensures forall i :: 0 <= i < |Items(s)| ==> Shown(Items(s)[i]) != []
    decreases |s|
  {
    hide First, Taken, Items, Shown, ShownAll;
    if s == [] {
      NothingShown(s);
    } else {
      ItemsStep(s);
      var rest := s[Taken(s)..];
      PrintableClean(rest);
      FirstClean(s);
      if First(s).Comment? {
        FirstComment(s);
        NothingShown(rest);
      }
      forall i | 0 <= i < |Items(s)| ensures Shown(Items(s)[i]) != [] {
        if i > 0 { assert Items(s)[i] == Items(s)[1..][i - 1]; }
      }
    }
  }

  lemma FirstClean(s: Text)
    requires s != [] && Printable(s) && |s| < 256
    ensures Shown(First(s)) != []
    ensures match First(s)
            case Char(c) => c < 0x80
            case Word(k) => k < WORDS && k != REMARK
            case Comment(_) => true
            case Number(n) => FitsSigned(n)
            case Quote(t) => |t| < 256
            case Relation(m) => m == LE_MARK || m == GE_MARK || m == NE_MARK
  {
    hide Keyword, Name, Spelled, Token, ToQuote, ValueOf, Begins, Matches, Run, Decimal;
    if First(s).Word? { FirstWord(s); }
    if First(s).Quote? { FirstQuote(s); }
  }

  /** A line that was not cut on entry and whose listing fits: listing it and
      entering the listing again stores the same tokens, if no number in it is
      negative. */
  lemma {:induction false} EnterListEnter(s: Text, tokens: seq<byte>, max: nat, width: nat)
    requires Printable(s) && |s| < 256
    requires tokens == Tokenized(Items(s), [], max) == CodeAll(Items(s))
    requires |ShownAll(Items(s))| + 1 <= width && NonNegative(Items(s))
    ensures var text := Listed(Decoded(tokens), [], width);
            text == ShownAll(Items(s)) && Tokenized(Items(text), [], max) == tokens
  {
    PrintableClean(s);
    DecodeCode(Items(s));
    ListedWhole(Items(s), [], width);
    assert [] + ShownAll(Items(s)) == ShownAll(Items(s));
    ShowAndSplit(s);
  }
}
