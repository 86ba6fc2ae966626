/** Tokenizing and listing, buffer position by buffer position. */
module Tokenizer {
  import opened Basics
  import opened Word32
  import opened Tokens
  import opened TokenCode

  /** The length of keyword `k` if it stands at `si`, else 0. */
  method MatchKeyword(source: Text, si: nat, k: nat) returns (n: nat)
    requires si <= |source| && k < WORDS
    ensures n == if Matches(source[si..], k) then |Spelled(k)| else 0
  {
    hide Name, Token;
    var w := Spelled(k);
    ghost var s := source[si..];
    var i := 0;
    while i < |w|
      invariant 0 <= i <= |w| && i <= |s|
      invariant forall j :: 0 <= j < i ==> Upper(s[j]) == w[j]
    {
      if si + i >= |source| { return 0; }
      var c := source[si + i];
      if 'a' as int <= c <= 'z' as int { c := c - 32; }
      assert c == Upper(s[i]);
      if c != w[i] { return 0; }
      i := i + 1;
    }
    if w[i - 1] != '$' as int && si + i < |source| && Alnum(source[si + i]) {
      assert source[si + i] == s[i];
      return 0;
    }
    n := i;
  }

  /** The first keyword of the table at `si`. */
  method FindKeyword(source: Text, si: nat) returns (k: nat, n: nat)
    requires si <= |source|
    ensures k == Keyword(source[si..], 0) && (k < WORDS ==> n == |Spelled(k)|)
  {
    hide Name, Token, Matches;
    k := 0;
    n := 0;
    while k < WORDS
      invariant 0 <= k <= WORDS
      invariant Keyword(source[si..], k) == Keyword(source[si..], 0)
    {
      n := MatchKeyword(source, si, k);
      if n > 0 { return; }
      k := k + 1;
    }
  }

  method ParseNumber(source: Text, si: nat) returns (val: int, n: nat)
    requires si <= |source|
    ensures n == Run(source[si..]) && val == ValueOf(source[si..][..n])
  {
    ghost var s := source[si..];
    val := 0;
    n := 0;
    assert s[..0] == [];
    while si + n < |source| && Digit(source[si + n])
      invariant n <= |s| && (forall i :: 0 <= i < n ==> Digit(s[i]))
      invariant val == ValueOf(s[..n])
      decreases |source| - n
    {
      assert s[..n + 1][..n] == s[..n] && s[n] == source[si + n];
      val := Signed(Wrap(val * 10 + (source[si + n] as int - 48)));
      n := n + 1;
    }
    assert n < |s| ==> s[n] == source[si + n];
    RunIs(s, n);
  }

  /** Copies the rest of the source, up to the last byte but one. */
  method CopyRest(source: Text, si: nat, out: array<byte>, pos: nat, max: nat) returns (len: nat)
    requires si <= |source| && pos < max <= out.Length
    modifies out
    ensures pos + len < max && out[pos..pos + len] == Cut(source[si..], max - 1 - pos)
    ensures out[..pos] == old(out[..pos])
  {
    len := 0;
    ghost var t := source[si..];
    while si + len < |source| && pos + len + 1 < max
      invariant si + len <= |source| && pos + len < max
      invariant out[pos..pos + len] == t[..len] && out[..pos] == old(out[..pos])
      decreases |source| - len
    {
      out[pos + len] := source[si + len];
      len := len + 1;
    }
  }

  /** Copies source text up to a quotation mark, the end, or the last byte but one. */
  method CopyQuoted(source: Text, si: nat, out: array<byte>, pos: nat, max: nat) returns (len: nat)
    requires si <= |source| && pos < max <= out.Length
    modifies out
    ensures pos + len < max && len <= ToQuote(source[si..])
    ensures out[pos..pos + len] == Cut(source[si..][..ToQuote(source[si..])], max - 1 - pos)
    ensures out[..pos] == old(out[..pos])
    ensures len < ToQuote(source[si..]) ==> pos + len + 1 == max
  {
    len := 0;
    ghost var t := source[si..];
    while si + len < |source| && source[si + len] != MARK && pos + len + 1 < max
      invariant si + len <= |source| && pos + len < max
      invariant forall i :: 0 <= i < len ==> t[i] != MARK
      invariant out[pos..pos + len] == t[..len] && out[..pos] == old(out[..pos])
      decreases |source| - len
    {
      assert t[len] == source[si + len];
      out[pos + len] := source[si + len];
      len := len + 1;
    }
    if pos + len + 1 < max {
      assert len < |t| ==> t[len] == source[si + len];
      ToQuoteIs(t, len);
    }
    NotPastQuote(t, len);
    assert t[..ToQuote(t)][..len] == t[..len];
  }

  lemma NotPastQuote(t: Text, n: nat)
    requires n <= |t| && forall i :: 0 <= i < n ==> t[i] != MARK
    ensures n <= ToQuote(t)
  {
  }

  /** One step of tokenizing, in terms of the items. */
  lemma TokenizedStep(s: Text, out: seq<byte>, max: nat)
    requires s != [] && |out| + 5 < max
    ensures Tokenized(Items(s), out, max) ==
            match First(s)
            case Comment(t) => out + Code(Comment(Cut(t, max - 2 - |out|)))
            case Quote(t) => Tokenized(Items(s[Taken(s)..]), out + Code(Quote(Cut(t, max - 3 - |out|))), max)
            case _ => Tokenized(Items(s[Taken(s)..]), out + Code(First(s)), max)
  {
    hide First, Taken, Code, Items;
    ItemsStep(s);
    if First(s).Comment? {
      FirstComment(s);
      NothingShown(s[Taken(s)..]);
    }
  }

  lemma TokenizedFull(its: seq<Item>, out: seq<byte>, max: nat)
    requires |out| + 5 >= max || its == []
    ensures Tokenized(its, out, max) == out
  {
  }

  lemma SliceSlice(s: Text, a: nat, b: nat)
    requires a + b <= |s|
    ensures s[a..][b..] == s[a + b..] && s[a..][..b] == s[a..a + b]
  {
  }

  /** What the first item is once no keyword stands there. */
  lemma {:induction false} FirstPlain(s: Text)
    requires s != [] && s[0] != 32 && Keyword(s, 0) == WORDS
    ensures Digit(s[0]) ==> First(s) == Number(ValueOf(s[..Run(s)])) && Taken(s) == Run(s) > 0
    ensures s[0] == MARK ==>
              var q := ToQuote(s[1..]);
              First(s) == Quote(s[1..][..q]) && Taken(s) == if 1 + q < |s| then q + 2 else q + 1
    ensures !Digit(s[0]) && s[0] != MARK ==>
              First(s) == RelationAt(s) && Taken(s) == if RelationAt(s).Relation? then 2 else 1
  {
    hide Name, Spelled, Token, Matches, Begins, ValueOf, Alnum;
    if s[0] == MARK {
      var q := ToQuote(s[1..]);
      assert s[1..][..q] == s[1..1 + q];
    }
  }

  lemma FirstKeyword(s: Text)
    requires s != [] && s[0] != 32 && Keyword(s, 0) < WORDS
    ensures var k := Keyword(s, 0);
            if k == REMARK then First(s) == Comment(s[|Spelled(k)|..]) && Taken(s) == |s|
            else First(s) == Word(k) && Taken(s) == |Spelled(k)|
  {
    hide Name, Spelled, Token, Matches, Begins, ValueOf, Alnum, Run, ToQuote;
  }

  lemma FirstSpace(s: Text)
    requires s != [] && s[0] == 32
    ensures First(s) == Char(32) && Taken(s) == 1
  {
  }

  /** Tokenizes one item: the source and output positions behind it. */
  method OneItem(source: Text, si: nat, out: array<byte>, pos: nat, max: nat) returns (si': nat, pos': nat)
    requires si < |source| && pos + 5 < max <= out.Length && max < 256
    modifies out
    ensures si < si' <= |source| && pos <= pos' < max
    ensures Tokenized(Items(source[si'..]), out[..pos'], max) == Tokenized(Items(source[si..]), old(out[..pos]), max)
  {
    hide Name, Token, Matches, Items, Tokenized, Run, ToQuote, ValueOf, Spelled, Keyword, First, Taken, RelationAt;
    ghost var s, before := source[si..], out[..pos];
    TokenizedStep(s, before, max);
    if source[si] == 32 {
      FirstSpace(s);
      out[pos] := 32;
      assert out[..pos + 1] == before + [32];
      SliceSlice(source, si, 1);
      return si + 1, pos + 1;
    }
    var k, n := FindKeyword(source, si);
    if k < WORDS {
      si', pos' := KeywordItem(source, si, out, pos, max, k, n);
    } else if Digit(source[si]) {
      FirstPlain(s);
      si', pos' := NumberItem(source, si, out, pos, max);
    } else if source[si] == MARK {
      si', pos' := QuoteItem(source, si, out, pos, max);
    } else {
      si', pos' := SignItem(source, si, out, pos, max);
    }
  }

  method KeywordItem(source: Text, si: nat, out: array<byte>, pos: nat, max: nat, k: nat, n: nat)
    returns (si': nat, pos': nat)
    requires si < |source| && pos + 5 < max <= out.Length && max < 256 && source[si] != 32
    requires k == Keyword(source[si..], 0) < WORDS && n == |Spelled(k)|
    modifies out
    ensures si < si' <= |source| && pos <= pos' < max
    ensures Tokenized(Items(source[si'..]), out[..pos'], max) == Tokenized(Items(source[si..]), old(out[..pos]), max)
  {
    hide Name, Token, Items, Tokenized, Run, ToQuote, ValueOf, Spelled, Keyword, First, Taken, Cut;
    ghost var s, before := source[si..], out[..pos];
    TokenizedStep(s, before, max);
    FirstKeyword(s);
    assert n <= |s|;
    out[pos] := Token(k);
    assert out[..pos + 1] == before + [Token(k)];
    SliceSlice(source, si, n);
    si', pos' := si + n, pos + 1;
    if k == REMARK {
      si', pos' := CommentItem(source, si', out, pos', max, before);
    }
  }

  /** The text of a comment behind its keyword. */
  method CommentItem(source: Text, si: nat, out: array<byte>, pos: nat, max: nat, ghost before: seq<byte>)
    returns (si': nat, pos': nat)
    requires si <= |source| && 0 < pos < max <= out.Length && out[..pos] == before + [Token(REMARK)]
    modifies out
    ensures si' == |source| && pos <= pos' < max
    ensures out[..pos'] == before + Code(Comment(Cut(source[si..], max - 2 - |before|)))
    ensures Tokenized(Items(source[si'..]), out[..pos'], max) == out[..pos']
  {
    hide Items, Tokenized, Cut, Code;
    var len := CopyRest(source, si, out, pos, max);
    CommentDone(source, out[..pos + len], before, si, out[pos..pos + len], max);
    si', pos' := |source|, pos + len;
    NothingShown(source[|source|..]);
    TokenizedFull([], out[..pos'], max);
  }

  lemma CommentDone(s: Text, after: seq<byte>, before: seq<byte>, n: nat, t: Text, max: nat)
    requires n <= |s| && |after| == |before| + 1 + |t| && after[..|before| + 1] == before + [Token(REMARK)]
    requires after[|before| + 1..] == t == Cut(s[n..], max - 2 - |before|)
    ensures after == before + Code(Comment(t))
  {
    hide Cut, Spelled, Name;
    Sewn(after, before + [Token(REMARK)], t);
    assert before + ([Token(REMARK)] + t) == before + [Token(REMARK)] + t;
  }

  lemma Sewn(b: seq<byte>, x: seq<byte>, y: seq<byte>)
    requires |b| == |x| + |y| && b[..|x|] == x && b[|x|..] == y
    ensures b == x + y
  {
    forall i | 0 <= i < |b| ensures b[i] == (x + y)[i] {
      if i < |x| { assert b[..|x|][i] == b[i]; } else { assert b[|x|..][i - |x|] == b[i]; }
    }
  }

  method NumberItem(source: Text, si: nat, out: array<byte>, pos: nat, max: nat) returns (si': nat, pos': nat)
    requires si < |source| && pos + 5 < max <= out.Length && max < 256
    requires var s := source[si..];
             First(s) == Number(ValueOf(s[..Run(s)])) && Taken(s) == Run(s) > 0
    modifies out
    ensures si < si' <= |source| && pos <= pos' < max
    ensures Tokenized(Items(source[si'..]), out[..pos'], max) == Tokenized(Items(source[si..]), old(out[..pos]), max)
  {
    hide Items, Tokenized, Run, ValueOf, First, Taken, Wrap;
    ghost var s, before := source[si..], out[..pos];
    TokenizedStep(s, before, max);
    var val, n := ParseNumber(source, si);
    var w := Wrap(val);
    DwordDigits(w);
    out[pos] := NUMBER_MARK;
    out[pos + 1] := w % 256;
    out[pos + 2] := w / 256 % 256;
    out[pos + 3] := w / 0x10000 % 256;
    out[pos + 4] := w / 0x100_0000;
    assert out[..pos + 5] == before + Code(Number(val));
    SliceSlice(source, si, n);
    return si + n, pos + 5;
  }

  method QuoteItem(source: Text, si: nat, out: array<byte>, pos: nat, max: nat) returns (si': nat, pos': nat)
    requires si < |source| && pos + 5 < max <= out.Length && max < 256
    requires source[si] == MARK && Keyword(source[si..], 0) == WORDS
    modifies out
    ensures si < si' <= |source| && pos <= pos' < max
    ensures Tokenized(Items(source[si'..]), out[..pos'], max) == Tokenized(Items(source[si..]), old(out[..pos]), max)
  {
    hide Items, Tokenized, ToQuote, First, Taken, Keyword, Code, Cut;
    ghost var s, before := source[si..], out[..pos];
    assert s[0] == MARK;
    TokenizedStep(s, before, max);
    FirstPlain(s);
    SliceSlice(source, si, 1);
    var len := WriteQuote(source, si + 1, out, pos, max);
    si', pos' := si + 1 + len, pos + 2 + len;
    QuoteEnds(source, si, len);
    if si' < |source| && source[si'] == MARK {
      si' := si' + 1;
    }
    SliceSlice(source, si, si' - si);
    if len < ToQuote(s[1..]) {
      TokenizedFull(Items(s[Taken(s)..]), out[..pos'], max);
      TokenizedFull(Items(source[si'..]), out[..pos'], max);
    }
  }

  /** Writes a string token: its mark, its length, and as much of it as fits. */
  method WriteQuote(source: Text, si: nat, out: array<byte>, pos: nat, max: nat) returns (len: nat)
    requires si <= |source| && pos + 5 < max <= out.Length && max < 256
    modifies out
    ensures len <= ToQuote(source[si..]) && pos + 2 + len < max
    ensures var q := source[si..][..ToQuote(source[si..])];
            out[..pos + 2 + len] == old(out[..pos]) + Code(Quote(Cut(q, max - 3 - pos)))
    ensures len < ToQuote(source[si..]) ==> pos + 2 + len + 1 == max
  {
    hide ToQuote, Cut, Code;
    ghost var before := out[..pos];
    out[pos] := QUOTE_MARK;
    ghost var mid := out[..];
    len := CopyQuoted(source, si, out, pos + 2, max);
    ghost var t := out[pos + 2..pos + 2 + len];
    KeptFront(mid, out[..], pos);
    out[pos + 1] := len;
    assert out[..pos] == before;
    QuoteDone(out[..pos + 2 + len], before, t);
  }

  lemma KeptFront(a: seq<byte>, b: seq<byte>, pos: nat)
    requires pos + 2 <= |a| == |b| && a[..pos + 2] == b[..pos + 2]
    ensures a[..pos] == b[..pos] && a[pos] == b[pos]
  {
    assert a[..pos + 2][..pos] == a[..pos] && b[..pos + 2][..pos] == b[..pos];
    assert a[..pos + 2][pos] == b[..pos + 2][pos];
  }

  lemma QuoteDone(after: seq<byte>, before: seq<byte>, t: Text)
    requires |after| == |before| + 2 + |t| && after[..|before|] == before && |t| < 256
    requires after[|before|] == QUOTE_MARK && after[|before| + 1] == |t| && after[|before| + 2..] == t
    ensures after == before + Code(Quote(t))
  {
    var n := |before|;
    var tail := after[n..];
    assert tail[0] == QUOTE_MARK && tail[1] == |t|;
    assert tail[2..] == t by {
      assert after[n..][2..] == after[n + 2..];
    }
    Sewn(tail, [QUOTE_MARK, |t|], t) by {
      assert tail[..2] == [QUOTE_MARK, |t|];
    }
    Sewn(after, before, tail);
  }

  /** Behind the copied part stands the closing mark, the end, or more text. */
  lemma QuoteEnds(source: Text, si: nat, len: nat)
    requires si + 1 <= |source| && len <= ToQuote(source[si + 1..])
    ensures var q, p := ToQuote(source[si + 1..]), si + 1 + len;
            && p <= |source| && si + 1 + q <= |source|
            && (len < q ==> p < |source| && source[p] != MARK)
            && (len == q ==> (p < |source| <==> p < |source| && source[p] == MARK))
  {
    var u := source[si + 1..];
    assert len < |u| ==> u[len] == source[si + 1 + len];
  }

  method SignItem(source: Text, si: nat, out: array<byte>, pos: nat, max: nat) returns (si': nat, pos': nat)
    requires si < |source| && pos + 5 < max <= out.Length && max < 256
    requires source[si] != 32 && source[si] != MARK && !Digit(source[si]) && Keyword(source[si..], 0) == WORDS
    modifies out
    ensures si < si' <= |source| && pos <= pos' < max
    ensures Tokenized(Items(source[si'..]), out[..pos'], max) == Tokenized(Items(source[si..]), old(out[..pos]), max)
  {
    hide Items, Tokenized, First, Taken, Keyword;
    ghost var s, before := source[si..], out[..pos];
    assert s[0] == source[si] && (|s| > 1 ==> s[1] == source[si + 1]);
    TokenizedStep(s, before, max);
    FirstPlain(s);
    var next := if si + 1 < |source| then source[si + 1] else 0;
    if source[si] == 60 && next == 61 {
      out[pos] := LE_MARK;
      si' := si + 2;
    } else if source[si] == 62 && next == 61 {
      out[pos] := GE_MARK;
      si' := si + 2;
    } else if source[si] == 60 && next == 62 {
      out[pos] := NE_MARK;
      si' := si + 2;
    } else {
      out[pos] := source[si];
      si' := si + 1;
    }
    pos' := pos + 1;
    assert out[..pos'] == before + [out[pos]];
    SliceSlice(source, si, si' - si);
  }

  /** Tokenizes a source line; the number of bytes written. */
  method Tokenize(source: Text, out: array<byte>, max: nat) returns (pos: nat)
    requires max <= out.Length && 5 <= max < 256
    modifies out
    ensures pos < max && out[..pos] == Tokenized(Items(source), [], max)
  {
    hide Items, Tokenized;
    pos := 0;
    var si := 0;
    assert source[0..] == source && out[..0] == [];
    while si < |source| && pos + 5 < max
      invariant 0 <= si <= |source| && pos < max
      invariant Tokenized(Items(source[si..]), out[..pos], max) == Tokenized(Items(source), [], max)
      decreases |source| - si
    {
      si, pos := OneItem(source, si, out, pos, max);
    }
    if si == |source| { NothingShown(source[si..]); }
    TokenizedFull(Items(source[si..]), out[..pos], max);
  }

  // ---- listing ----

  /** The digits of a positive number, the last one first. */
  method LastDigits(n: nat) returns (tmp: Text)
    ensures Turned(tmp) == if n > 0 then Decimal(n) else []
  {
    var v := n;
    tmp := [];
    assert n > 0 ==> Decimal(n) + [] == Decimal(n);
    while v > 0
      invariant (if v > 0 then Decimal(v) else []) + Turned(tmp) == if n > 0 then Decimal(n) else []
    {
      var d: byte := 48 + v % 10;
      assert (tmp + [d])[..|tmp|] == tmp;
      assert Turned(tmp + [d]) == [d] + Turned(tmp);
      Associate(if v >= 10 then Decimal(v / 10) else [], [d], Turned(tmp));
      assert v < 10 ==> [] + [d] == [d];
      tmp := tmp + [d];
      v := v / 10;
    }
    assert [] + Turned(tmp) == Turned(tmp);
  }

  /** A number as text: its sign, then its digits. */
  method IntToStr(val: int) returns (s: Text)
    requires FitsSigned(val)
    ensures s == Printed(val)
  {
    hide Decimal, Wrap;
    if val == 0 {
      assert Decimal(0) == [48] by { DecimalZero(); }
      return [48];
    }
    var v, neg := val, false;
    if v < 0 {
      neg := true;
      NegateWord(v);
      v := Signed(Wrap(-v));
    }
    var tmp := [];
    if v > 0 { tmp := LastDigits(v); }
    s := if neg then [45] else [];
    var i := |tmp|;
    ghost var sign := s;
    assert tmp[..i] == tmp;
    while i > 0
      invariant 0 <= i <= |tmp| && s + Turned(tmp[..i]) == sign + Turned(tmp)
    {
      i := i - 1;
      assert tmp[..i + 1][..i] == tmp[..i];
      Associate(s, [tmp[i]], Turned(tmp[..i]));
      s := s + [tmp[i]];
    }
    assert s + [] == s;
    assert [] + Turned(tmp) == Turned(tmp);
  }

  lemma DecimalZero()
    ensures Decimal(0) == [48]
  {
  }

  lemma NegateWord(v: int)
    requires FitsSigned(v) && v < 0
    ensures Signed(Wrap(-v)) == if v == -0x8000_0000 then v else -v
  {
  }

  function Turned(s: Text): Text
    decreases |s|
  {
    if s == [] then [] else [s[|s| - 1]] + Turned(s[..|s| - 1])
  }

  lemma Associate(a: Text, b: Text, c: Text)
    ensures (a + b) + c == a + (b + c)
  {
  }

  /** Appends text as long as it fits. */
  method PutText(text: Text, out: array<byte>, oi: nat, max: nat) returns (oi': nat)
    requires oi < max <= out.Length
    modifies out
    ensures oi <= oi' < max && out[..oi'] == old(out[..oi]) + Cut(text, max - 1 - oi)
  {
    oi' := oi;
    var i := 0;
    ghost var before := out[..oi];
    assert out[..oi'] == before + text[..0];
    while i < |text| && oi' + 1 < max
      invariant 0 <= i <= |text| && oi' == oi + i < max
      invariant out[..oi'] == before + text[..i]
    {
      out[oi'] := text[i];
      assert out[..oi' + 1] == before + text[..i] + [text[i]];
      assert text[..i + 1] == text[..i] + [text[i]];
      Associate(before, text[..i], [text[i]]);
      oi' := oi' + 1;
      i := i + 1;
    }
  }

  method TokenToName(tok: byte) returns (k: nat)
    ensures k == KeywordOf(tok)
  {
    hide Name;
    k := 0;
    while k < WORDS
      invariant 0 <= k <= WORDS && forall j :: 0 <= j < k ==> Token(j) != tok
    {
      if Token(k) == tok { return; }
      k := k + 1;
    }
  }

  lemma ListedFull(its: seq<Item>, out: Text, max: nat)
    requires |out| + 1 >= max || its == []
    ensures Listed(its, out, max) == out
  {
  }

  lemma ListedOne(its: seq<Item>, out: Text, max: nat)
    requires its != [] && |out| + 1 < max
    ensures Listed(its, out, max) ==
            if its[0].Relation? then Listed(its[1..], if |out| + 2 < max then out + Shown(its[0]) else out, max)
            else Listed(its[1..], out + Cut(Shown(its[0]), max - 1 - |out|), max)
  {
  }

  /** What the tokens from `ti` on decode to, item by item. */
  lemma DecodedOne(ts: seq<byte>)
    requires ts != []
    ensures var t, its := ts[0], Decoded(ts);
            && (t == NUMBER_MARK ==>
                  if |ts| >= 5 then its == [Number(Number4(ts[1..]))] + Decoded(ts[5..]) else its == Decoded(ts[1..]))
            && (t == QUOTE_MARK ==>
                  if |ts| >= 2
                  then var n := Smaller(ts[1], |ts| - 2); its == [Quote(ts[2..2 + n])] + Decoded(ts[2 + n..])
                  else its == [])
            && (t == LE_MARK || t == GE_MARK || t == NE_MARK ==> its == [Relation(t)] + Decoded(ts[1..]))
            && (t != NUMBER_MARK && t != QUOTE_MARK && t != LE_MARK && t != GE_MARK && t != NE_MARK ==>
                  var k := KeywordOf(t);
                  if k == REMARK then its == [Comment(ts[1..])]
                  else if k < WORDS then its == [Word(k)] + Decoded(ts[1..])
                  else its == [Char(t)] + Decoded(ts[1..]))
  {
    hide KeywordOf, Number4;
  }

  lemma Heads(it: Item, rest: seq<Item>)
    ensures ([it] + rest)[0] == it && ([it] + rest)[1..] == rest && [it] + rest != []
  {
  }

  /** Lists the token at `ti`: the positions behind it. */
  method OneToken(tokens: seq<byte>, ti: nat, out: array<byte>, oi: nat, max: nat) returns (ti': nat, oi': nat)
    requires ti < |tokens| && oi + 1 < max <= out.Length
    modifies out
    ensures ti < ti' <= |tokens| && oi <= oi' < max
    ensures Listed(Decoded(tokens[ti'..]), out[..oi'], max) == Listed(Decoded(tokens[ti..]), old(out[..oi]), max)
  {
    hide Decoded, Listed, KeywordOf, Number4, Printed, Name, Token, Spelled, Cut, Smaller;
    ghost var ts, before := tokens[ti..], out[..oi];
    var tok := tokens[ti];
    assert ts[0] == tok;
    DecodedOne(ts);
    SliceSlice(tokens, ti, 1);
    if tok == NUMBER_MARK {
      ti' := ti + 1;
      oi' := oi;
      if ti' + 4 <= |tokens| {
        Number4At(tokens, ti);
        var val := Number4(tokens[ti'..ti' + 4]);
        SliceSlice(tokens, ti, 5);
        ti' := ti' + 4;
        var text := IntToStr(val);
        Heads(Number(val), Decoded(tokens[ti'..]));
        ListedOne(Decoded(ts), before, max);
        oi' := PutText(text, out, oi, max);
      }
    } else if tok == QUOTE_MARK {
      ti', oi' := ListQuote(tokens, ti, out, oi, max);
    } else if tok == LE_MARK || tok == GE_MARK || tok == NE_MARK {
      ti', oi' := ti + 1, oi;
      Heads(Relation(tok), Decoded(tokens[ti'..]));
      ListedOne(Decoded(ts), before, max);
      if oi + 2 < max {
        out[oi] := if tok == GE_MARK then 62 else 60;
        out[oi + 1] := if tok == NE_MARK then 62 else 61;
        oi' := oi + 2;
        assert out[..oi'] == before + RelationText(tok);
      }
    } else {
      ti', oi' := ListOther(tokens, ti, out, oi, max);
    }
  }

  lemma Number4At(tokens: seq<byte>, ti: nat)
    requires ti + 5 <= |tokens|
    ensures Number4(tokens[ti..][1..]) == Number4(tokens[ti + 1..ti + 5]) && FitsSigned(Number4(tokens[ti + 1..ti + 5]))
  {
    var a, b := tokens[ti..][1..], tokens[ti + 1..ti + 5];
    assert a[0] == b[0] && a[1] == b[1] && a[2] == b[2] && a[3] == b[3];
  }

  lemma MiddlePart(tokens: seq<byte>, ti: nat, n: nat)
    requires ti + 2 + n <= |tokens|
    ensures tokens[ti..][2..2 + n] == tokens[ti + 2..ti + 2 + n]
  {
  }

  lemma QuoteStep(ts: seq<byte>, n: nat, t: Text, out: Text, max: nat)
    requires |ts| >= 2 && ts[0] == QUOTE_MARK && n == Smaller(ts[1], |ts| - 2) && t == ts[2..2 + n] && |out| + 1 < max
    ensures Listed(Decoded(ts), out, max)
            == Listed(Decoded(ts[2 + n..]), out + Cut([MARK] + t + [MARK], max - 1 - |out|), max)
  {
    hide Decoded, Listed, Cut;
    DecodedOne(ts);
    Heads(Quote(t), Decoded(ts[2 + n..]));
    ListedOne(Decoded(ts), out, max);
  }

  method ListQuote(tokens: seq<byte>, ti: nat, out: array<byte>, oi: nat, max: nat) returns (ti': nat, oi': nat)
    requires ti < |tokens| && oi + 1 < max <= out.Length && tokens[ti] == QUOTE_MARK
    modifies out
    ensures ti < ti' <= |tokens| && oi <= oi' < max
    ensures Listed(Decoded(tokens[ti'..]), out[..oi'], max) == Listed(Decoded(tokens[ti..]), old(out[..oi]), max)
  {
    hide Decoded, Listed, KeywordOf, Number4, Cut;
    ghost var ts, before := tokens[ti..], out[..oi];
    assert ts[0] == QUOTE_MARK;
    ti' := ti + 1;
    oi' := oi;
    if ti' >= |tokens| {
      DecodedOne(ts);
      assert tokens[ti'..] == [];
      DecodeNone();
      return;
    }
    var slen: nat := tokens[ti'];
    assert ts[1] == slen;
    ti' := ti' + 1;
    var n := if ti' + slen <= |tokens| then slen else |tokens| - ti';
    SliceSlice(tokens, ti, 2 + n);
    var t := tokens[ti'..ti' + n];
    MiddlePart(tokens, ti, n);
    QuoteStep(ts, n, t, before, max);
    oi' := PutText([MARK] + t + [MARK], out, oi, max);
    ti' := ti' + n;
  }

  method ListOther(tokens: seq<byte>, ti: nat, out: array<byte>, oi: nat, max: nat) returns (ti': nat, oi': nat)
    requires ti < |tokens| && oi + 1 < max <= out.Length
    requires var t := tokens[ti]; t != NUMBER_MARK && t != QUOTE_MARK && t != LE_MARK && t != GE_MARK && t != NE_MARK
    modifies out
    ensures ti < ti' <= |tokens| && oi <= oi' < max
    ensures Listed(Decoded(tokens[ti'..]), out[..oi'], max) == Listed(Decoded(tokens[ti..]), old(out[..oi]), max)
  {
    hide Decoded, Listed, KeywordOf, Number4, Cut, Name, Spelled, Token;
    ghost var ts, before := tokens[ti..], out[..oi];
    var tok := tokens[ti];
    assert ts[0] == tok;
    DecodedOne(ts);
    SliceSlice(tokens, ti, 1);
    ti' := ti + 1;
    var k := TokenToName(tok);
    if k == REMARK {
      ListedOne(Decoded(ts), before, max);
      oi' := PutText(Spelled(REMARK) + tokens[ti'..], out, oi, max);
      ti' := |tokens|;
      assert tokens[ti'..] == [];
      DecodeNone();
      ListedFull([], out[..oi'], max);
      assert Decoded(ts)[1..] == [];
    } else if k < WORDS {
      Heads(Word(k), Decoded(ts[1..]));
      ListedOne(Decoded(ts), before, max);
      oi' := PutText(Spelled(k), out, oi, max);
    } else {
      Heads(Char(tok), Decoded(ts[1..]));
      ListedOne(Decoded(ts), before, max);
      oi' := PutText([tok], out, oi, max);
    }
  }

  /** Lists a token string as text, with a NUL behind it. */
  method Detokenize(tokens: seq<byte>, out: array<byte>, max: nat) returns (oi: nat)
    requires 0 < max <= out.Length
    modifies out
    ensures oi < max && out[..oi] == Listed(Decoded(tokens), [], max) && out[oi] == 0
  {
    hide Decoded, Listed;
    oi := 0;
    var ti := 0;
    assert tokens[0..] == tokens && out[..0] == [];
    while ti < |tokens| && oi + 1 < max
      invariant 0 <= ti <= |tokens| && oi < max
      invariant Listed(Decoded(tokens[ti..]), out[..oi], max) == Listed(Decoded(tokens), [], max)
      decreases |tokens| - ti
    {
      ti, oi := OneToken(tokens, ti, out, oi, max);
    }
    if ti == |tokens| {
      assert tokens[ti..] == [];
      DecodeNone();
    }
    ListedFull(Decoded(tokens[ti..]), out[..oi], max);
    ghost var text := out[..oi];
    out[oi] := 0;
    assert out[..oi] == text;
  }
}
