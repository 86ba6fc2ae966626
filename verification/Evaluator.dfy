/** The evaluator itself: procedures that advance a position over the tokens
    and raise an error flag. */
module Evaluator {
  import opened Basics
  import opened Word32
  import opened Expressions

  class Evaluator {
    const tokens: seq<byte>
    const vars: Store
    /** An 8-bit position: it wraps. */
    var pos: byte
    var error: bool
    /** Set on a divide fault, and on reaching a construct outside this model;
        either ends the evaluation. */
    var fault: bool
    var beyond: bool

    constructor (tokens: seq<byte>, vars: Store, pos: byte)
      ensures this.tokens == tokens && this.vars == vars && this.pos == pos && !error && !Ended()
    {
      this.tokens := tokens;
      this.vars := vars;
      this.pos := pos;
      error := false;
      fault := false;
      beyond := false;
    }

    predicate Ended()
      reads this
    {
      fault || beyond
    }

    /** The state after a procedure agrees with what reading should give. */
    ghost predicate Outcome(r: Result, v: int)
      reads this
    {
      && beyond == r.Beyond? && fault == r.Faulted? && error == r.Fail?
      && (r.Done? ==> v == r.val && pos == r.pos)
    }

    /** A literal that ends the longest line still leaves the position in range. */
    predicate Short() {
      |tokens| <= 251
    }

    method PeekToken() returns (tok: byte)
      ensures tok == Peek(tokens, pos) && (tok != 0 ==> pos < |tokens|)
    {
      if pos >= |tokens| { return 0; }
      tok := tokens[pos];
    }

    /** Passes over a token. */
    method Advance()
      requires Short() && pos < |tokens|
      modifies this`pos
      ensures pos == old(pos) + 1
    {
      pos := (pos + 1) % 256;
    }

    method ReadLiteral() returns (v: int)
      requires Short() && pos <= |tokens|
      modifies this`pos
      ensures v == Literal(tokens, old(pos)) && pos == old(pos) + 4
    {
      v := Literal(tokens, pos);
      pos := (pos + 4) % 256;
    }

    method SkipSpaces()
      requires Short()
      modifies this`pos
      ensures pos == Skip(tokens, old(pos))
    {
      while pos < |tokens| && tokens[pos] == SPACE
        invariant Skip(tokens, old(pos)) == Skip(tokens, pos)
        decreases |tokens| - pos
      {
        Advance();
      }
    }

    method PassClose()
      requires Short()
      modifies this`pos
      ensures pos == PastClose(tokens, old(pos))
    {
      SkipSpaces();
      var tok := PeekToken();
      if tok == CLOSE { Advance(); }
    }

    method ParseFunction(tok: byte) returns (v: int)
      requires Short() && pos <= |tokens| + 4 && !error && !Ended() && (tok == TOK_ABS || tok == TOK_INT)
      modifies this`pos, this`error, this`fault, this`beyond
      ensures Outcome(var r := Argument(tokens, vars, old(pos));
                      if r.Done? && tok == TOK_ABS && r.val < 0 then Done(Int32(-r.val), r.pos) else r, v)
      decreases Left(tokens, pos), 8
    {
      SkipSpaces();
      var open := PeekToken();
      if open != OPEN {
        error := true;
        return 0;
      }
      Advance();
      v := ParseOr();
      if error || Ended() { return 0; }
      PassClose();
      if tok == TOK_ABS && v < 0 { v := Int32(-v); }
    }

    method ParsePrimary() returns (v: int)
      requires Short() && pos <= |tokens| + 4 && !error && !Ended()
      modifies this`pos, this`error, this`fault, this`beyond
      ensures Outcome(Primary(tokens, vars, old(pos)), v)
      decreases Left(tokens, pos), 0
    {
      hide Parse, Skip, Literal, PastClose, Argument, Int32;
      SkipSpaces();
      var tok := PeekToken();
      if tok == MINUS {
        Advance();
        v := ParsePrimary();
        v := Int32(-v);
      } else if tok == TOK_NOT {
        Advance();
        v := ParsePrimary();
        v := if v != 0 then 0 else 1;
      } else if tok == OPEN {
        Advance();
        v := ParseOr();
        PassClose();
      } else if tok == TOK_NUM {
        Advance();
        v := ReadLiteral();
      } else if tok == TOK_ABS || tok == TOK_INT {
        Advance();
        v := ParseFunction(tok);
      } else if tok == TOK_STRING || TOK_ABS < tok < TOK_INT {
        beyond := true;
        v := 0;
      } else if Letter(tok) {
        Advance();
        var c := PeekToken();
        if c == DOLLAR {
          beyond := true;
          v := 0;
        } else if Digit(c) {
          Advance();
          v := vars[VarSlot(tok, Some(c - 48))];
        } else {
          v := vars[VarSlot(tok, None)];
        }
      } else {
        error := true;
        v := 0;
      }
    }

    method ParseMul() returns (left: int)
      requires Short() && pos <= |tokens| + 4 && !error && !Ended()
      modifies this`pos, this`error, this`fault, this`beyond
      ensures Outcome(Parse(tokens, vars, 4, old(pos)), left)
      decreases Left(tokens, pos), 2
    {
      hide Primary, Skip, Parse, Rest, Peek;
      ghost var p0 := pos;
      PrimaryIs(tokens, vars, pos);
      ParseIs(tokens, vars, 4, pos);
      left := ParsePrimary();
      if error || Ended() { return; }
      while true
        invariant pos <= |tokens| + 4 && !error && !Ended() && pos > p0 && p0 < |tokens|
        invariant Parse(tokens, vars, 4, p0) == Rest(tokens, vars, 4, left, pos)
        decreases Left(tokens, pos)
      {
        ghost var start := pos;
        SkipSpaces();
        var tok := PeekToken();
        if tok == 42 || tok == 47 || tok == TOK_MOD {
          RestOne(tokens, vars, if tok == 42 then OpMul else if tok == 47 then OpDiv else OpMod, left, start);
          Advance();
          PrimaryIs(tokens, vars, pos);
          var right := ParsePrimary();
          if error || Ended() { return 0; }
          if tok == 42 {
            left := Int32(left * right);
          } else if right == 0 {
            error := true;
            return 0;
          } else if left == -0x8000_0000 && right == -1 {
            fault := true;
            return 0;
          } else if tok == 47 {
            left := TruncDiv(left, right);
          } else {
            left := TruncRem(left, right);
          }
        } else {
          RestNone(tokens, vars, 4, left, start);
          break;
        }
      }
    }

    method ParseAdd() returns (left: int)
      requires Short() && pos <= |tokens| + 4 && !error && !Ended()
      modifies this`pos, this`error, this`fault, this`beyond
      ensures Outcome(Parse(tokens, vars, 3, old(pos)), left)
      decreases Left(tokens, pos), 3
    {
      hide Primary, Skip, Parse, Rest, Peek;
      ghost var p0 := pos;
      ParseIs(tokens, vars, 3, pos);
      left := ParseMul();
      if error || Ended() { return; }
      while true
        invariant pos <= |tokens| + 4 && !error && !Ended() && pos > p0 && p0 < |tokens|
        invariant Parse(tokens, vars, 3, p0) == Rest(tokens, vars, 3, left, pos)
        decreases Left(tokens, pos)
      {
        ghost var start := pos;
        SkipSpaces();
        var tok := PeekToken();
        if tok == 43 || tok == MINUS {
          RestOne(tokens, vars, if tok == 43 then OpAdd else OpSub, left, start);
          Advance();
          var right := ParseMul();
          if error || Ended() { return 0; }
          left := if tok == 43 then Int32(left + right) else Int32(left - right);
        } else {
          RestNone(tokens, vars, 3, left, start);
          break;
        }
      }
    }

    method ParseCompare() returns (left: int)
      requires Short() && pos <= |tokens| + 4 && !error && !Ended()
      modifies this`pos, this`error, this`fault, this`beyond
      ensures Outcome(Parse(tokens, vars, 2, old(pos)), left)
      decreases Left(tokens, pos), 4
    {
      hide Primary, Skip, Parse, Rest, Peek;
      ParseIs(tokens, vars, 2, pos);
      left := ParseAdd();
      if error || Ended() { return; }
      ghost var start := pos;
      SkipSpaces();
      var tok := PeekToken();
      if tok == 61 || tok == 60 || tok == 62 || tok == TOK_LE || tok == TOK_GE || tok == TOK_NE {
        RestOne(tokens, vars, OpAt(2, tok).value, left, start);
        Advance();
        var right := ParseAdd();
        if error || Ended() { return 0; }
        var result := false;
        if tok == 61 { result := left == right; }
        else if tok == TOK_NE { result := left != right; }
        else if tok == 60 { result := left < right; }
        else if tok == 62 { result := left > right; }
        else if tok == TOK_LE { result := left <= right; }
        else if tok == TOK_GE { result := left >= right; }
        left := if result then -1 else 0;
      } else {
        RestNone(tokens, vars, 2, left, start);
      }
    }

    method ParseAnd() returns (left: int)
      requires Short() && pos <= |tokens| + 4 && !error && !Ended()
      modifies this`pos, this`error, this`fault, this`beyond
      ensures Outcome(Parse(tokens, vars, 1, old(pos)), left)
      decreases Left(tokens, pos), 5
    {
      hide Primary, Skip, Parse, Rest, Peek;
      ghost var p0 := pos;
      ParseIs(tokens, vars, 1, pos);
      left := ParseCompare();
      if error || Ended() { return; }
      while true
        invariant pos <= |tokens| + 4 && !error && !Ended() && pos > p0 && p0 < |tokens|
        invariant Parse(tokens, vars, 1, p0) == Rest(tokens, vars, 1, left, pos)
        decreases Left(tokens, pos)
      {
        ghost var start := pos;
        SkipSpaces();
        var tok := PeekToken();
        if tok == TOK_AND {
          RestOne(tokens, vars, OpAnd, left, start);
          Advance();
          var right := ParseCompare();
          if error || Ended() { return 0; }
          left := if left != 0 && right != 0 then -1 else 0;
        } else {
          RestNone(tokens, vars, 1, left, start);
          break;
        }
      }
    }

    /** Evaluates an expression from the current position on. */
    method ParseOr() returns (left: int)
      requires Short() && pos <= |tokens| + 4 && !error && !Ended()
      modifies this`pos, this`error, this`fault, this`beyond
      ensures Outcome(Parse(tokens, vars, 0, old(pos)), left)
      decreases Left(tokens, pos), 6
    {
      hide Primary, Skip, Parse, Rest, Peek;
      ghost var p0 := pos;
      ParseIs(tokens, vars, 0, pos);
      left := ParseAnd();
      if error || Ended() { return; }
      while true
        invariant pos <= |tokens| + 4 && !error && !Ended() && pos > p0 && p0 < |tokens|
        invariant Parse(tokens, vars, 0, p0) == Rest(tokens, vars, 0, left, pos)
        decreases Left(tokens, pos)
      {
        ghost var start := pos;
        SkipSpaces();
        var tok := PeekToken();
        if tok == TOK_OR {
          RestOne(tokens, vars, OpOr, left, start);
          Advance();
          var right := ParseAnd();
          if error || Ended() { return 0; }
          left := if left != 0 || right != 0 then -1 else 0;
        } else {
          RestNone(tokens, vars, 0, left, start);
          break;
        }
      }
    }
  }
}
