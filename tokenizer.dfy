/** DefTokenizer as an object: a cursor over the input with its line and column,
    advanced in place by the scanning methods. Each method is proved to do what
    the corresponding function of DefLexer describes. */
module DefTokenizing {
  import opened DefSyntax
  import opened DefLexer

  /** Tokenizer::snapshot(): a copy of the cursor, line and column. */
  datatype Snapshot = Snapshot(pos: nat, line: nat, column: nat)

  class DefTokenizer {
    const input: seq<char>
    var pos: nat
    var line: nat
    var column: nat

    /** The cursor is inside the input and line and column describe it. */
    ghost predicate Valid()
      reads this
    {
      pos <= |input| && (line, column) == LineCol(input, pos)
    }

    /** A snapshot taken from this tokenizer at some point. */
    ghost predicate Fits(s: Snapshot)
    {
      s.pos <= |input| && (s.line, s.column) == LineCol(input, s.pos)
    }

    constructor (text: seq<char>)
      ensures input == text && pos == 0 && Valid()
    {
      input := text;
      pos, line, column := 0, 1, 1;
    }

    method Advance()
      requires Valid() && pos < |input|
      modifies this
      ensures Valid() && pos == old(pos) + 1
    {
      if input[pos] == '\n' || (input[pos] == '\r' && LookAhead(input, pos) != '\n') {
        line, column := line + 1, 1;
      } else {
        column := column + 1;
      }
      pos := pos + 1;
    }

    method CurrentSnapshot() returns (s: Snapshot)
      requires Valid()
      ensures Fits(s) && s.pos == pos
    {
      s := Snapshot(pos, line, column);
    }

    method Restore(s: Snapshot)
      requires Fits(s)
      modifies this
      ensures Valid() && pos == s.pos
    {
      pos, line, column := s.pos, s.line, s.column;
    }

    /** The cursor moved forward to e one character at a time, as a sub-parser
        reading from this tokenizer moves it. */
    method MoveTo(e: nat)
      requires Valid() && pos <= e <= |input|
      modifies this
      ensures Valid() && pos == e
    {
      while pos < e
        invariant Valid() && pos <= e
        decreases e - pos
      {
        Advance();
      }
    }

    /** discardWhile(chars). */
    method DiscardWhile(chars: string)
      requires Valid()
      modifies this
      ensures Valid() && pos == SpanIn(input, old(pos), chars)
    {
      while pos < |input| && input[pos] in chars
        invariant Valid()
        invariant SpanIn(input, pos, chars) == SpanIn(input, old(pos), chars)
        decreases |input| - pos
      {
        Advance();
      }
    }

    /** discardUntil(delims). */
    method DiscardUntil(delims: string)
      requires Valid()
      modifies this
      ensures Valid() && pos == SpanNotIn(input, old(pos), delims)
    {
      while pos < |input| && input[pos] !in delims
        invariant Valid()
        invariant SpanNotIn(input, pos, delims) == SpanNotIn(input, old(pos), delims)
        decreases |input| - pos
      {
        Advance();
      }
    }

    /** readInteger(WordDelims): on failure the cursor is put back. */
    method ReadInteger() returns (e: Option<nat>)
      requires Valid() && pos < |input|
      modifies this
      ensures Valid() && e == ScanInteger(input, old(pos))
      ensures pos == if e.Some? then e.value else old(pos)
    {
      var c := input[pos];
      if c !in Signs && c !in Digits {
        return None;
      }
      var saved := CurrentSnapshot();
      if c in Signs {
        Advance();
      }
      DiscardWhile(Digits);
      if pos == |input| || input[pos] in WordDelims {
        return Some(pos);
      }
      Restore(saved);
      return None;
    }

    /** readDecimal(WordDelims): on failure the cursor is put back. */
    method ReadDecimal() returns (e: Option<nat>)
      requires Valid() && pos < |input|
      modifies this
      ensures Valid() && e == ScanDecimal(input, old(pos))
      ensures pos == if e.Some? then e.value else old(pos)
    {
      var c := input[pos];
      if c !in Signs && c !in Digits && c != '.' {
        return None;
      }
      var saved := CurrentSnapshot();
      ReadLeadingDigits();
      ghost var q1 := pos;
      ReadFraction();
      ReadExponent();
      assert pos == ExponentEnd(input, FractionEnd(input, q1));
      if pos == |input| || input[pos] in WordDelims {
        return Some(pos);
      }
      Restore(saved);
      return None;
    }

    /** The integral part of readDecimal: a sign or digit and digits, unless the
        number starts with '.'. */
    method ReadLeadingDigits()
      requires Valid() && pos < |input|
      modifies this
      ensures Valid()
      ensures pos == if input[old(pos)] != '.' then SpanIn(input, old(pos) + 1, Digits) else old(pos)
    {
      if input[pos] != '.' {
        Advance();
        DiscardWhile(Digits);
      }
    }

    /** The fraction part of readDecimal. */
    method ReadFraction()
      requires Valid()
      modifies this
      ensures Valid() && pos == FractionEnd(input, old(pos))
    {
      if pos < |input| && input[pos] == '.' {
        Advance();
        DiscardWhile(Digits);
      }
    }

    /** The exponent part of readDecimal. */
    method ReadExponent()
      requires Valid()
      modifies this
      ensures Valid() && pos == ExponentEnd(input, old(pos))
    {
      if pos < |input| && input[pos] == 'e' {
        Advance();
        if pos < |input| && (input[pos] in Signs || input[pos] in Digits) {
          Advance();
          DiscardWhile(Digits);
        }
      }
    }

    /** readUntil(WordDelims): the current character and everything up to the next delimiter. */
    method ReadUntil() returns (e: Option<nat>)
      requires Valid()
      modifies this
      ensures Valid() && e == ScanWord(input, old(pos))
      ensures e.Some? ==> pos == e.value
    {
      if pos == |input| {
        return None;
      }
      Advance();
      DiscardUntil(WordDelims);
      return Some(pos);
    }

    /** readQuotedString(): the cursor is just after the opening quote; the result is
        the position of the closing quote, or None when the input ends first. */
    method ReadQuotedString() returns (e: Option<nat>)
      requires Valid()
      modifies this
      ensures Valid()
      ensures var q := SpanNotIn(input, old(pos), "\"");
              if q == |input| then e.None? && pos == q else e == Some(q) && pos == q + 1
    {
      DiscardUntil("\"");
      if pos == |input| {
        return None;
      }
      e := Some(pos);
      Advance();
    }

    /** DefTokenizer::emitToken (nextToken): spaces, tabs and line comments are
        discarded until a token starts or the input ends. */
    method NextToken() returns (r: Res<Token>)
      requires Valid()
      modifies this
      ensures Valid()
      ensures r == Emit(input, old(pos))
      ensures r.Ok? ==> pos == r.next
    {
      while pos < |input|
        invariant Valid()
        invariant Emit(input, pos) == Emit(input, old(pos))
        decreases |input| - pos
      {
        var c := input[pos];
        if c == '/' && LookAhead(input, pos) == '/' {
          DiscardUntil(LineEnds);
        } else if c == ' ' || c == '\t' {
          DiscardWhile(Blanks);
        } else {
          r := ReadToken();
          return;
        }
      }
      return Ok(Token(Eof, pos, pos, line, column), pos);
    }

    /** The cases of emitToken's switch that produce a token. */
    method ReadToken() returns (r: Res<Token>)
      requires Valid() && pos < |input| && !IsSkipped(input, pos)
      modifies this
      ensures Valid()
      ensures r == TokenAt(input, old(pos))
      ensures r.Ok? ==> pos == r.next
    {
      var start, startLine, startColumn := pos, line, column;
      var c := input[pos];
      var la := LookAhead(input, pos);
      if c == '/' && la == '*' {
        // the marker absorbs every following non-whitespace character
        Advance();
        DiscardUntil(Whitespace);
        return Ok(Token(ODefinition, start, pos, startLine, startColumn), pos);
      } else if c == '*' && la == '/' {
        // only the '*' is consumed
        Advance();
        return Ok(Token(CDefinition, start, start + 1, startLine, startColumn), pos);
      } else if SingleKind(c).Some? {
        // '/' and '*' otherwise fall through to the open-parenthesis case
        Advance();
        return Ok(Token(SingleKind(c).value, start, start + 1, startLine, startColumn), pos);
      } else if c == '\r' || c == '\n' {
        if c == '\r' && la == '\n' {
          Advance();
        }
        Advance();
        return Ok(Token(Newline, start, start + 1, startLine, startColumn), pos);
      } else if c == '"' {
        Advance();
        var begin := pos;
        var e := ReadQuotedString();
        if e.None? {
          return Fail(ParseError(line, column, "Unexpected end of file"));
        }
        return Ok(Token(QuotedString, begin, e.value, startLine, startColumn), pos);
      } else if c == '-' && la in Whitespace {
        Advance();
        return Ok(Token(Minus, start, start + 1, startLine, startColumn), pos);
      } else {
        r := ReadNumberOrWord();
      }
    }

    /** The default case of emitToken's switch. */
    method ReadNumberOrWord() returns (r: Res<Token>)
      requires Valid() && pos < |input|
      modifies this
      ensures Valid()
      ensures r == NumberOrWordAt(input, old(pos))
      ensures r.Ok? ==> pos == r.next
    {
      var start, startLine, startColumn := pos, line, column;
      var c := input[pos];
      var e := ReadInteger();
      if e.Some? {
        return Ok(Token(Integer, start, e.value, startLine, startColumn), pos);
      }
      e := ReadDecimal();
      if e.Some? {
        return Ok(Token(Decimal, start, e.value, startLine, startColumn), pos);
      }
      e := ReadUntil();
      if e.None? {
        return Fail(ParseError(startLine, startColumn, "Unexpected character: " + [c]));
      }
      return Ok(Token(Word, start, e.value, startLine, startColumn), pos);
    }

    /** peekToken(): the next token, with the cursor left where it was. */
    method PeekToken() returns (r: Res<Token>)
      requires Valid()
      modifies this
      ensures Valid() && pos == old(pos)
      ensures r == Emit(input, old(pos))
    {
      var saved := CurrentSnapshot();
      r := NextToken();
      Restore(saved);
    }

    /** readRemainder(CDefinition). */
    method ReadRemainder() returns (r: Res<string>)
      requires Valid()
      modifies this
      ensures Valid()
      ensures r == Remainder(input, old(pos))
      ensures r.Ok? ==> pos == r.next
    {
      if pos == |input| {
        return Ok("", pos);
      }
      var first := PeekToken();
      if first.Fail? {
        return Fail(first.error);
      }
      var start := first.value.begin;
      var t := NextToken();
      while true
        invariant Valid() && t.Ok? && start <= t.value.end <= pos == t.next
        invariant RemainderAfter(input, start, t.value, pos) == Remainder(input, old(pos))
        decreases |input| - pos
      {
        var u := PeekToken();
        if u.Fail? {
          return Fail(u.error);
        }
        if u.value.kind == CDefinition || pos == |input| {
          if t.value.kind == Eof && start < |input| {
            return Fail(OpenRemainder(input));
          }
          return Ok(input[start..t.value.end], pos);
        }
        t := NextToken();
      }
    }
  }
}
