/** What emitToken promises about the token stream: which characters are invisible,
    how line ends, minus signs and single-character tokens are read, where a token
    is located, that the end of input repeats, and which inputs are lexical errors. */
module LexerProperties {
  import opened DefSyntax
  import opened DefLexer

  /** From p on there are only spaces, tabs and line comments. */
  predicate OnlyBlanksAndComments(input: seq<char>, p: nat)
    requires p <= |input|
    decreases |input| - p
  {
    p == |input| || (IsSkipped(input, p) && OnlyBlanksAndComments(input, SkipEnd(input, p)))
  }

  /** emitToken yields the end-of-file token exactly when nothing but blanks and
      comments is left. */
  lemma {:induction false} EofIffOnlyBlanks(input: seq<char>, p: nat)
    requires p <= |input|
    ensures Emit(input, p).Ok? && Emit(input, p).value.kind == Eof <==> OnlyBlanksAndComments(input, p)
    decreases |input| - p
  {
    if p < |input| && IsSkipped(input, p) {
      EofIffOnlyBlanks(input, SkipEnd(input, p));
    }
  }

  /** Once the end of the input is reached, every further call yields the same
      end-of-file token and leaves the cursor where it is. */
  lemma {:induction false} EofRepeats(input: seq<char>, p: nat)
    requires p <= |input|
    requires Emit(input, p).Ok? && Emit(input, p).value.kind == Eof
    ensures Emit(input, p).next == |input|
    ensures Emit(input, Emit(input, p).next) == Emit(input, p)
    decreases |input| - p
  {
    if p < |input| {
      EofRepeats(input, SkipEnd(input, p));
    }
  }

  /** "\r\n", a lone "\r" and "\n" each make exactly one newline token, one
      character long, and the cursor moves past the whole line end. */
  lemma NewlineForms(input: seq<char>, p: nat)
    requires p < |input| && (input[p] == '\n' || input[p] == '\r')
    ensures var r := Emit(input, p);
            r.Ok? && r.value.kind == Newline && r.value.begin == p && r.value.end == p + 1
            && r.next == (if input[p] == '\r' && p + 1 < |input| && input[p + 1] == '\n' then p + 2 else p + 1)
  {
  }

  /** A minus followed by whitespace is a minus token; any other minus starts a
      number or a word, and is never an error. */
  lemma MinusForms(input: seq<char>, p: nat)
    requires p < |input| && input[p] == '-'
    ensures var r := Emit(input, p);
            r.Ok? && r.value.begin == p
            && (LookAhead(input, p) in Whitespace ==> r.value.kind == Minus && r.next == p + 1)
            && (LookAhead(input, p) !in Whitespace ==> r.value.kind in {Integer, Decimal, Word})
  {
  }

  /** The only lexical error is a quoted string that the input ends inside of; it
      is reported at the end of the input. */
  lemma {:induction false} LexicalErrorIsOpenString(input: seq<char>, p: nat)
    requires p <= |input|
    requires Emit(input, p).Fail?
    ensures Emit(input, p).error.message == "Unexpected end of file"
    ensures (Emit(input, p).error.line, Emit(input, p).error.column) == LineCol(input, |input|)
    ensures exists q :: p <= q < |input| && input[q] == '"' && SpanNotIn(input, q + 1, "\"") == |input|
    decreases |input| - p
  {
    if IsSkipped(input, p) {
      LexicalErrorIsOpenString(input, SkipEnd(input, p));
    } else {
      assert input[p] == '"';
    }
  }

  /** Where scanning of a token started: one before the text of a quoted string
      (its opening quote), the start of the text otherwise. */
  function ScanStart(t: Token): int
  {
    if t.kind == QuotedString then t.begin - 1 else t.begin
  }

  /** A token carries the line and column of the character where it starts, and
      the end-of-file token those of the end of the input. */
  lemma {:induction false} TokenPosition(input: seq<char>, p: nat)
    requires p <= |input|
    requires Emit(input, p).Ok?
    ensures var t := Emit(input, p).value;
            p <= ScanStart(t) <= |input| && (t.line, t.column) == LineCol(input, ScanStart(t))
    decreases |input| - p
  {
    if p < |input| && IsSkipped(input, p) {
      TokenPosition(input, SkipEnd(input, p));
    }
  }

  /** The character of a one-character token kind. */
  function SingleChar(k: TokenKind): Option<char>
  {
    match k
    case CParenthesis => Some(')')
    case OBrace => Some('{')
    case CBrace => Some('}')
    case Equality => Some('=')
    case Semicolon => Some(';')
    case Comma => Some(',')
    case Minus => Some('-')
    case _ => None
  }

  /** A token of a one-character kind is exactly that character, and an open
      parenthesis token is a "(", a stray "/" or a stray "*". */
  lemma {:induction false} SingleCharTokens(input: seq<char>, p: nat)
    requires p <= |input|
    requires Emit(input, p).Ok?
    ensures var r := Emit(input, p);
            SingleChar(r.value.kind).Some? ==>
              r.value.end == r.next == r.value.begin + 1 && input[r.value.begin] == SingleChar(r.value.kind).value
    ensures var r := Emit(input, p);
            r.value.kind == OParenthesis ==>
              r.value.end == r.next == r.value.begin + 1 && input[r.value.begin] in "(/*"
    decreases |input| - p
  {
    if p < |input| && IsSkipped(input, p) {
      assert Emit(input, p) == Emit(input, SkipEnd(input, p));
      SingleCharTokens(input, SkipEnd(input, p));
    } else if p < |input| {
      assert Emit(input, p) == TokenAt(input, p);
      SingleCharAt(input, p);
    }
  }

  /** The character a single-character kind is read from. */
  lemma SingleKindChar(c: char)
    requires SingleKind(c).Some?
    ensures SingleKind(c).value == OParenthesis ==> c in "(/*"
    ensures SingleKind(c).value != OParenthesis ==> SingleChar(SingleKind(c).value) == Some(c)
  {
  }

  lemma SingleCharAt(input: seq<char>, p: nat)
    requires p < |input| && !IsSkipped(input, p)
    requires TokenAt(input, p).Ok?
    ensures var r := TokenAt(input, p);
            SingleChar(r.value.kind).Some? ==>
              r.value.end == r.next == r.value.begin + 1 && input[r.value.begin] == SingleChar(r.value.kind).value
    ensures var r := TokenAt(input, p);
            r.value.kind == OParenthesis ==>
              r.value.end == r.next == r.value.begin + 1 && input[r.value.begin] in "(/*"
  {
    var c := input[p];
    var la := LookAhead(input, p);
    var r := TokenAt(input, p);
    if c == '/' && la == '*' {
      assert r.value.kind == ODefinition;
    } else if c == '*' && la == '/' {
      assert r.value.kind == CDefinition;
    } else if SingleKind(c).Some? {
      assert r == Ok(MkToken(input, SingleKind(c).value, p, p, p + 1), p + 1);
      SingleKindChar(c);
    } else if c == '\r' || c == '\n' {
      assert r.value.kind == Newline;
    } else if c == '"' {
      assert r.value.kind == QuotedString;
    } else if c == '-' && la in Whitespace {
      assert r == Ok(MkToken(input, Minus, p, p, p + 1), p + 1);
    } else {
      assert r == NumberOrWordAt(input, p);
    }
  }

  /** A word is its first character followed by non-delimiters, and ends at a
      delimiter or the end of the input. */
  lemma {:induction false} WordShape(input: seq<char>, p: nat)
    requires p <= |input|
    requires Emit(input, p).Ok? && Emit(input, p).value.kind == Word
    ensures var t := Emit(input, p).value;
            t.begin < t.end == Emit(input, p).next
            && (forall k :: t.begin < k < t.end ==> input[k] !in WordDelims)
            && (t.end == |input| || input[t.end] in WordDelims)
    decreases |input| - p
  {
    if p < |input| && IsSkipped(input, p) {
      assert Emit(input, p) == Emit(input, SkipEnd(input, p));
      WordShape(input, SkipEnd(input, p));
    } else if p < |input| {
      assert Emit(input, p) == TokenAt(input, p);
      WordAt(input, p);
    }
  }

  lemma WordAt(input: seq<char>, p: nat)
    requires p < |input| && !IsSkipped(input, p)
    requires TokenAt(input, p).Ok? && TokenAt(input, p).value.kind == Word
    ensures var r := TokenAt(input, p);
            r.value.begin < r.value.end == r.next
            && (forall k :: r.value.begin < k < r.value.end ==> input[k] !in WordDelims)
            && (r.value.end == |input| || input[r.value.end] in WordDelims)
  {
    var c := input[p];
    var la := LookAhead(input, p);
    var r := TokenAt(input, p);
    if !(c == '/' && la == '*') && !(c == '*' && la == '/') && SingleKind(c).None? && c != '\r' && c != '\n'
       && c != '"' && !(c == '-' && la in Whitespace)
    {
      assert r == NumberOrWordAt(input, p);
      ScannedWord(input, p);
    }
  }

  lemma ScannedWord(input: seq<char>, p: nat)
    requires p < |input|
    requires NumberOrWordAt(input, p).Ok? && NumberOrWordAt(input, p).value.kind == Word
    ensures var r := NumberOrWordAt(input, p);
            r.value.begin < r.value.end == r.next
            && (forall k :: r.value.begin < k < r.value.end ==> input[k] !in WordDelims)
  {
    assert ScanInteger(input, p).None? && ScanDecimal(input, p).None?;
    var e := SpanNotIn(input, p + 1, WordDelims);
    assert NumberOrWordAt(input, p) == Ok(MkToken(input, Word, p, p, e), e);
  }

  /** The tokens read from q on, up to position e, include no close marker. */
  predicate NoCloseBetween(input: seq<char>, q: nat, e: nat)
    requires q <= e <= |input|
    decreases e - q
  {
    q == e
    || (Emit(input, q).Ok? && Emit(input, q).value.kind != CDefinition
        && q < Emit(input, q).next <= e && NoCloseBetween(input, Emit(input, q).next, e))
  }

  /** The remainder loop yields the text from start to the end of the last token it
      read, which is where it stops or one character short of it (a closing quote or
      the line feed of "\r\n"). It reads no close marker and stops in front of a
      close marker or at the end of the input. */
  lemma {:induction false} RemainderAfterShape(input: seq<char>, start: nat, t: Token, q: nat)
    requires start <= t.end <= q <= |input| && q <= t.end + 1
    requires RemainderAfter(input, start, t, q).Ok?
    ensures var r := RemainderAfter(input, start, t, q);
            start + |r.value| <= r.next <= start + |r.value| + 1 && r.value == input[start..start + |r.value|]
            && NoCloseBetween(input, q, r.next)
            && (r.next == |input| || (Emit(input, r.next).Ok? && Emit(input, r.next).value.kind == CDefinition))
    decreases |input| - q
  {
    var u := Emit(input, q);
    if !(u.value.kind == CDefinition || q == |input|) {
      RemainderAfterShape(input, start, u.value, u.next);
    }
  }

  /** readRemainder: the text runs from where the first token begins to where the
      last token read ends (its stop position, or one short of it), the tokens after
      the first are all read up to the next close marker (or the end), and that
      marker is left unread. */
  lemma RemainderShape(input: seq<char>, p: nat)
    requires p <= |input|
    requires Remainder(input, p).Ok?
    ensures p == |input| ==> Remainder(input, p) == Ok("", p)
    ensures var r := Remainder(input, p);
            var t := Emit(input, p);
            p < |input| ==>
              t.Ok? && t.value.begin + |r.value| <= r.next <= t.value.begin + |r.value| + 1
              && r.value == input[t.value.begin..t.value.begin + |r.value|]
              && NoCloseBetween(input, t.next, r.next)
              && (r.next == |input| || (Emit(input, r.next).Ok? && Emit(input, r.next).value.kind == CDefinition))
  {
    if p < |input| {
      var t := Emit(input, p);
      RemainderAfterShape(input, t.value.begin, t.value, t.next);
    }
  }
}
