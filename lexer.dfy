/** The scanning rules of DefTokenizer, as functions of the input and a cursor
    position. DefTokenizing.DefTokenizer runs them step by step. */
module DefLexer {
  import opened DefSyntax

  const Whitespace: string := " \t\n\r"
  /** DefTokenizer::WordDelims: the characters that end a number or a word. */
  const WordDelims: string := " \t\n\r()[]{};,="
  const Blanks: string := " \t"
  const LineEnds: string := "\n\r"
  const Digits: string := "0123456789"
  const Signs: string := "+-"

  /** The character after the cursor, or NUL past the end. */
  function LookAhead(input: seq<char>, p: nat): char
  {
    if p + 1 < |input| then input[p + 1] else '\0'
  }

  /** Whether the character at i ends a line for the line counter: a line feed,
      or a carriage return not followed by a line feed (a "\r\n" pair counts once,
      at its line feed). */
  predicate BreaksLine(input: seq<char>, i: nat)
    requires i < |input|
  {
    input[i] == '\n' || (input[i] == '\r' && LookAhead(input, i) != '\n')
  }

  /** Line and column (1-based) of position p. */
  function LineCol(input: seq<char>, p: nat): (lc: (nat, nat))
    requires p <= |input|
    ensures lc.0 >= 1 && lc.1 >= 1
  {
    if p == 0 then (1, 1)
    else
      var prev := LineCol(input, p - 1);
      if BreaksLine(input, p - 1) then (prev.0 + 1, 1) else (prev.0, prev.1 + 1)
  }

  /** The end of the run of characters from i that are all in chars (discardWhile). */
  function SpanIn(input: seq<char>, i: nat, chars: string): (j: nat)
    requires i <= |input|
    ensures i <= j <= |input|
    ensures forall k :: i <= k < j ==> input[k] in chars
    ensures j == |input| || input[j] !in chars
    decreases |input| - i
  {
    if i < |input| && input[i] in chars then SpanIn(input, i + 1, chars) else i
  }

  /** The end of the run of characters from i that are all outside delims (discardUntil). */
  function SpanNotIn(input: seq<char>, i: nat, delims: string): (j: nat)
    requires i <= |input|
    ensures i <= j <= |input|
    ensures forall k :: i <= k < j ==> input[k] !in delims
    ensures j == |input| || input[j] in delims
    decreases |input| - i
  {
    if i < |input| && input[i] !in delims then SpanNotIn(input, i + 1, delims) else i
  }

  /** readInteger: an optional sign and digits, ending at a delimiter or the end. */
  function ScanInteger(input: seq<char>, p: nat): (r: Option<nat>)
    requires p < |input|
    ensures r.Some? ==> p < r.value <= |input| && (r.value == |input| || input[r.value] in WordDelims)
    ensures r.Some? ==> forall k :: p < k < r.value ==> input[k] in Digits
  {
    var c := input[p];
    if c !in Signs && c !in Digits then None
    else
      var e := SpanIn(input, if c in Signs then p + 1 else p, Digits);
      if e == |input| || input[e] in WordDelims then Some(e) else None
  }

  /** The optional fraction of a decimal: '.' and digits. */
  function FractionEnd(input: seq<char>, q: nat): (r: nat)
    requires q <= |input|
    ensures q <= r <= |input|
  {
    if q < |input| && input[q] == '.' then SpanIn(input, q + 1, Digits) else q
  }

  /** The optional exponent of a decimal: 'e', then an optional sign or digit and digits. */
  function ExponentEnd(input: seq<char>, q: nat): (r: nat)
    requires q <= |input|
    ensures q <= r <= |input|
  {
    if q < |input| && input[q] == 'e' then
      if q + 1 < |input| && (input[q + 1] in Signs || input[q + 1] in Digits)
      then SpanIn(input, q + 2, Digits) else q + 1
    else q
  }

  /** readDecimal: [sign or digit, digits] ['.' digits] ['e' [sign or digit, digits]],
      ending at a delimiter or the end. */
  function ScanDecimal(input: seq<char>, p: nat): (r: Option<nat>)
    requires p < |input|
    ensures r.Some? ==> p < r.value <= |input| && (r.value == |input| || input[r.value] in WordDelims)
  {
    var c := input[p];
    if c !in Signs && c !in Digits && c != '.' then None
    else
      var q1 := if c != '.' then SpanIn(input, p + 1, Digits) else p;
      var q3 := ExponentEnd(input, FractionEnd(input, q1));
      if q3 == |input| || input[q3] in WordDelims then Some(q3) else None
  }

  /** readUntil: at least the current character, then up to the next delimiter;
      there is nothing to read at the end of the input. */
  function ScanWord(input: seq<char>, p: nat): (r: Option<nat>)
    requires p <= |input|
    ensures r.None? <==> p == |input|
    ensures r.Some? ==> p < r.value <= |input| && (r.value == |input| || input[r.value] in WordDelims)
  {
    if p == |input| then None else Some(SpanNotIn(input, p + 1, WordDelims))
  }

  /** A token of the given kind and span whose scan started at s. */
  function MkToken(input: seq<char>, kind: TokenKind, s: nat, b: nat, e: nat): (t: Token)
    requires s <= |input|
    ensures t.kind == kind && t.begin == b && t.end == e
    ensures (t.line, t.column) == LineCol(input, s)
  {
    var lc := LineCol(input, s);
    Token(kind, b, e, lc.0, lc.1)
  }

  /** The single-character tokens. */
  function SingleKind(c: char): Option<TokenKind>
  {
    if c == '/' || c == '*' || c == '(' then Some(OParenthesis)
    else if c == ')' then Some(CParenthesis)
    else if c == '{' then Some(OBrace)
    else if c == '}' then Some(CBrace)
    else if c == '=' then Some(Equality)
    else if c == ';' then Some(Semicolon)
    else if c == ',' then Some(Comma)
    else None
  }

  /** The characters emitToken discards without producing a token: a line comment
      (skipped up to the line end) or a run of spaces and tabs. */
  predicate IsSkipped(input: seq<char>, p: nat)
    requires p < |input|
  {
    (input[p] == '/' && LookAhead(input, p) == '/') || input[p] == ' ' || input[p] == '\t'
  }

  /** Where the skipped run that starts at p ends. */
  function SkipEnd(input: seq<char>, p: nat): (q: nat)
    requires p < |input| && IsSkipped(input, p)
    ensures p < q <= |input|
  {
    if input[p] == '/' then SpanNotIn(input, p, LineEnds) else SpanIn(input, p, Blanks)
  }

  /** DefTokenizer::emitToken: the next token at or after p and the position after it. */
  function Emit(input: seq<char>, p: nat): (r: Res<Token>)
    requires p <= |input|
    ensures r.Ok? ==> p <= r.value.begin <= r.value.end <= r.next <= |input|
    ensures r.Ok? && p < |input| ==> p < r.next
    ensures r.Ok? && r.value.kind == Eof ==> r.next == r.value.begin == |input|
    ensures r.Ok? && r.value.kind != Eof ==> r.value.begin < r.next
    ensures r.Ok? ==> r.next <= r.value.end + 1
    ensures r.Fail? ==> (r.error.line, r.error.column) == LineCol(input, |input|)
    decreases |input| - p
  {
    if p == |input| then Ok(MkToken(input, Eof, p, p, p), p)
    else if IsSkipped(input, p) then Emit(input, SkipEnd(input, p))
    else TokenAt(input, p)
  }

  /** The token that starts at p, a character that is not skipped. */
  function TokenAt(input: seq<char>, p: nat): (r: Res<Token>)
    requires p < |input| && !IsSkipped(input, p)
    ensures r.Ok? ==> p <= r.value.begin <= r.value.end <= r.next <= |input| && p < r.next
    ensures r.Ok? ==> r.value.kind != Eof && r.value.begin < r.next
    ensures r.Ok? ==> r.next <= r.value.end + 1
    ensures r.Fail? ==> (r.error.line, r.error.column) == LineCol(input, |input|)
  {
    var c := input[p];
    var la := LookAhead(input, p);
    if c == '/' && la == '*' then
      var e := SpanNotIn(input, p + 1, Whitespace);
      Ok(MkToken(input, ODefinition, p, p, e), e)
    else if c == '*' && la == '/' then
      Ok(MkToken(input, CDefinition, p, p, p + 1), p + 1)
    else if SingleKind(c).Some? then
      Ok(MkToken(input, SingleKind(c).value, p, p, p + 1), p + 1)
    else if c == '\r' || c == '\n' then
      Ok(MkToken(input, Newline, p, p, p + 1), if c == '\r' && la == '\n' then p + 2 else p + 1)
    else if c == '"' then
      var q := SpanNotIn(input, p + 1, "\"");
      if q == |input| then
        var lc := LineCol(input, q);
        Fail(ParseError(lc.0, lc.1, "Unexpected end of file"))
      else Ok(MkToken(input, QuotedString, p, p + 1, q), q + 1)
    else if c == '-' && la in Whitespace then
      Ok(MkToken(input, Minus, p, p, p + 1), p + 1)
    else
      NumberOrWordAt(input, p)
  }

  /** The default case of emitToken: an integer, else a decimal, else a word. Since
      a word takes at least the current character, the "Unexpected character"
      exception of the last branch is never thrown. */
  function NumberOrWordAt(input: seq<char>, p: nat): (r: Res<Token>)
    requires p < |input|
    ensures r.Ok?
    ensures r.value.kind in {Integer, Decimal, Word}
    ensures p == r.value.begin < r.value.end == r.next <= |input|
    ensures r.next == |input| || input[r.next] in WordDelims
  {
    var lc := LineCol(input, p);
    var c := input[p];
    match ScanInteger(input, p)
    case Some(e) => Ok(MkToken(input, Integer, p, p, e), e)
    case None =>
      match ScanDecimal(input, p)
      case Some(e) => Ok(MkToken(input, Decimal, p, p, e), e)
      case None =>
        match ScanWord(input, p)
        case Some(e) => Ok(MkToken(input, Word, p, p, e), e)
        case None => Fail(ParseError(lc.0, lc.1, "Unexpected character: " + [c]))
  }

  /** Tokenizer::readRemainder(CDefinition): the raw text from the first token at p
      to the end of the last token before the next close marker (or the end). */
  function Remainder(input: seq<char>, p: nat): (r: Res<string>)
    requires p <= |input|
    ensures r.Ok? ==> p <= r.next <= |input|
  {
    if p == |input| then Ok("", p)
    else
      match Emit(input, p)
      case Fail(e) => Fail(e)
      case Ok(t, q) => RemainderAfter(input, t.begin, t, q)
  }

  /** The loop of readRemainder after consuming token t, which ends at q; the text starts at start.
      The end-of-file token has no text (its begin and end are null pointers), so a text
      that starts at a real token and ends with the end-of-file token cannot be formed. */
  function RemainderAfter(input: seq<char>, start: nat, t: Token, q: nat): (r: Res<string>)
    requires start <= t.end <= q <= |input|
    ensures r.Ok? ==> q <= r.next <= |input|
    decreases |input| - q
  {
    match Emit(input, q)
    case Fail(e) => Fail(e)
    case Ok(u, q') =>
      if u.kind == CDefinition || q == |input| then
        if t.kind == Eof && start < |input| then Fail(OpenRemainder(input))
        else Ok(input[start..t.end], q)
      else RemainderAfter(input, start, u, q')
  }

  /** The error of a remainder that runs into the end of the input. */
  function OpenRemainder(input: seq<char>): (e: ParseError)
    ensures (e.line, e.column) == LineCol(input, |input|)
  {
    var lc := LineCol(input, |input|);
    ParseError(lc.0, lc.1, "Unterminated description")
  }
}
