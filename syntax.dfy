/** Tokens, positions and errors of the entity-definition (.def) reader. */
module DefSyntax {

  datatype Option<T> = None | Some(value: T)

  /** The outcome of a whole parse: a value, or the single error that aborted it. */
  datatype Result<T> = Success(value: T) | Failure(error: ParseError)

  /** The token kinds of DefTokenizer (the DefToken namespace). */
  datatype TokenKind =
    | Integer | Decimal | QuotedString | OParenthesis | CParenthesis | OBrace | CBrace
    | Word | ODefinition | CDefinition | Semicolon | Newline | Comma | Equality | Minus | Eof

  /** A token: its kind, the span [begin, end) of its text in the input, and the
      line and column (both 1-based) of the character where scanning started. */
  datatype Token = Token(kind: TokenKind, begin: nat, end: nat, line: nat, column: nat)

  /** A positioned parser exception. */
  datatype ParseError = ParseError(line: nat, column: nat, message: string)

  /** The result of reading a construct that starts at some input position: the
      value and the position after it, or the error that was thrown. */
  datatype Res<T> = Ok(value: T, next: nat) | Fail(error: ParseError) {
    predicate IsFailure() { Fail? }
    function PropagateFailure<U>(): Res<U> requires Fail? { Fail(error) }
    function Extract(): Res<T> requires Ok? { this }
  }

  /** The text of a token. */
  function Text(input: seq<char>, t: Token): string
    requires t.begin <= t.end <= |input|
  {
    input[t.begin..t.end]
  }

  /** DefParser::tokenNames: the fixed table of human-readable token names used in
      diagnostics. Every kind has a name and no two kinds share one. */
  function TokenName(k: TokenKind): (name: string)
    ensures |name| > 0
  {
    match k
    case Integer => "integer"
    case Decimal => "decimal"
    case QuotedString => "quoted string"
    case OParenthesis => "'('"
    case CParenthesis => "')'"
    case OBrace => "'{'"
    case CBrace => "'}'"
    case Word => "word"
    case ODefinition => "'/*'"
    case CDefinition => "'*/'"
    case Semicolon => "';'"
    case Newline => "newline"
    case Comma => "','"
    case Equality => "'='"
    case Minus => "'-'"
    case Eof => "end of file"
  }

  /** No two token kinds share a name, so a diagnostic names the kind exactly. */
  lemma TokenNamesDistinct()
    ensures forall k: TokenKind, l: TokenKind :: k != l ==> TokenName(k) != TokenName(l)
  {
  }

  /** The names of the expected kinds, joined by " or ". */
  function ExpectedNames(kinds: seq<TokenKind>): string
  {
    if |kinds| == 0 then ""
    else if |kinds| == 1 then TokenName(kinds[0])
    else TokenName(kinds[0]) + " or " + ExpectedNames(kinds[1..])
  }

  /** The exception thrown when a token is not of an expected kind; it sits at the token. */
  function Mismatch(input: seq<char>, kinds: seq<TokenKind>, t: Token): (e: ParseError)
    requires t.begin <= t.end <= |input|
    ensures e.line == t.line && e.column == t.column
  {
    var got := TokenName(t.kind) + (if t.begin < t.end then " '" + Text(input, t) + "'" else "");
    ParseError(t.line, t.column, "Expected " + ExpectedNames(kinds) + ", but got " + got)
  }

  lemma AppendAssociative<T>(a: seq<T>, b: seq<T>, c: seq<T>)
    ensures a + (b + c) == a + b + c
  {
  }
}
