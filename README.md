# DefParser: a verified model of TrenchBroom's `.def` entity-definition reader

TrenchBroom reads Quake-style entity definition files (`.def`). Each class is a
comment block:

```
/*QUAKED name (r g b) (x y z) (x y z) FLAG1 - FLAG3
{ choice "style" ((0, "a") (1, "b")); base("Light"); model({"path": "x.mdl"}); }
description text
*/
```

A block with a colour becomes an entity class. It is a point class when it has
a size and a brush class when it has none. A block without a colour is a base
class: it is stored by name in a registry that later classes resolve against.

The model has two layers.

* **Pure specification.** These functions take the input text and a cursor
  position. Each one returns either the value read with the position after it,
  or the exception the reader throws there.
  * `DefSyntax`: tokens, errors, token names.
  * `DefLexer`: emitToken.
  * `EntityModel`: the values built.
  * `DefGrammar`: every DefParser routine.
* **Imperative objects.** These are proved to compute exactly those functions.
  * `DefTokenizing.DefTokenizer` is a cursor with a line and a column,
    advanced in place.
  * `DefParsing.DefParser` holds the tokenizer, the base-class registry, and
    the log of warnings sent to the parser status.

  Each method's postcondition equates its result and the tokenizer's new
  position with the specification function. Their loops keep accumulator
  invariants, and the `...Step` lemmas of `DefGrammar` maintain them.

The properties of the specification are proved in two modules:

* `LexerProperties`: the token stream.
* `GrammarProperties`: the first-match searches (newline skipping and the
  scan for an open marker), spawnflag bits, the numbers read for vectors,
  bounds and colours, the header, the attribute block, the `;` rule, the model
  fallback, and a whole-file theorem. The theorem says the
  reader is "parse every block, then fold the blocks into descriptors and a
  registry".

Where the reading of the code differs from a plain description of the format,
the model follows the code:

* **The "Unexpected character" exception of emitToken is not thrown, given
  how `readUntil` is taken to behave.** `readUntil` is not part of this model.
  It is taken to always consume the current character when the input has not
  ended, and then the default case (lines 122-133) always yields a token
  (`DefLexer.NumberOrWordAt`). The null check at line 130 is kept in the model
  as a branch that this assumption makes unreachable.
* **A description that runs into the end of the file is an error.** The
  end-of-file token has null text pointers, so the source would build the
  description from a null end pointer. The model reports "Unterminated
  description" at the end of the input instead (`DefLexer.RemainderAfter`).
* **`*/` consumes only the `*`.** The `/` is then read as the next token.
* **A stray `/` or `*` becomes an open-parenthesis token.** This is the
  fall-through at lines 64 and 72.
* **`[` and `]` start word tokens.** They are word delimiters, but the switch
  has no case for them.
* **A colour directly followed by a line end is an error.** After a colour,
  line 207 demands `(` or a word.
* **The legacy-model warning carries the line and column after the `(`.**
  These are taken at lines 338-339.

## Model

| member | source | states |
|---|---|---|
| DefSyntax.TokenName | common/src/IO/DefParser.cpp:147-168 | every token kind has a non-empty diagnostic name |
| DefSyntax.TokenNamesDistinct | common/src/IO/DefParser.cpp:147-168 | no two token kinds share a name, so an "Expected ..., but got ..." message identifies the kind |
| DefSyntax.Mismatch | common/src/IO/DefParser.cpp:196 | the exception thrown by a failed expectation is located at the offending token's line and column |
| DefLexer.LineCol | common/src/IO/DefParser.cpp:49-51 | lines and columns are 1-based |
| DefLexer.ScanWord | common/src/IO/DefParser.cpp:129-132 | reading a word fails only at the end of the input; otherwise it consumes at least one character and stops at a delimiter or the end |
| DefLexer.MkToken | common/src/IO/DefParser.cpp:50-51 | a token records the line and column where its scan started |
| DefLexer.Emit | common/src/IO/DefParser.cpp:48-137 | a token lies inside the input after the cursor; every call at a non-final position moves the cursor; the end-of-file token is empty and sits at the end; a failure is reported at the end of the input |
| DefLexer.TokenAt | common/src/IO/DefParser.cpp:52-133 | a token that starts at a non-skipped character is never end-of-file and always consumes input |
| DefLexer.NumberOrWordAt | common/src/IO/DefParser.cpp:122-133 | the default case never throws "Unexpected character": it yields an integer, decimal or word token that starts at the cursor and ends at a delimiter or the end of the input |
| DefLexer.OpenRemainder | common/src/IO/DefParser.cpp:371 | a description that runs into the end of the input is reported at the end of the input |
| LexerProperties.EofIffOnlyBlanks | common/src/IO/DefParser.cpp:48-137 | end-of-file is produced exactly when only spaces, tabs and line comments remain |
| LexerProperties.EofRepeats | common/src/IO/DefParser.cpp:49-136 | after end-of-file every further read yields the same token at the same position |
| LexerProperties.NewlineForms | common/src/IO/DefParser.cpp:92-101 | "\r\n", "\r" and "\n" each give one newline token one character long, and the cursor moves past the whole line end |
| LexerProperties.MinusForms | common/src/IO/DefParser.cpp:115-121 | a minus followed by whitespace is a minus token; any other minus begins an integer, decimal or word |
| LexerProperties.LexicalErrorIsOpenString | common/src/IO/DefParser.cpp:109-114 | the only lexical error is a quoted string left open at the end of the input, reported as "Unexpected end of file" at the end |
| LexerProperties.TokenPosition | common/src/IO/DefParser.cpp:50-51 | every token carries the line and column of the character where its scan began (the opening quote for a string) |
| LexerProperties.SingleCharTokens | common/src/IO/DefParser.cpp:54-104 | a one-character token is exactly its character; an open-parenthesis token is one of "(", a stray "/" or a stray "*" |
| LexerProperties.SingleCharAt | common/src/IO/DefParser.cpp:54-104 | the same per character, for a token that starts at the cursor |
| LexerProperties.SingleKindChar | common/src/IO/DefParser.cpp:74-104 | the single-character cases map each character to its own token kind |
| LexerProperties.WordShape | common/src/IO/DefParser.cpp:46-133 | a word token is non-empty, contains no delimiter after its first character, and ends at a delimiter or the end of the input |
| LexerProperties.WordAt | common/src/IO/DefParser.cpp:122-133 | the same, for a word that starts at the cursor |
| LexerProperties.RemainderAfterShape | common/src/IO/DefParser.cpp:371 | the remainder loop yields the text from its start to the end of the last token it read, which is its stop position or one character short of it; it reads no close marker, and stops in front of a close marker or at the end of the input |
| LexerProperties.RemainderShape | common/src/IO/DefParser.cpp:371 | readRemainder's text runs from where the first token begins to where the last token read ends (the result position, or one character short of it after a closing quote or "\r\n"); the tokens after the first up to the result position include no close marker, and the close marker (or the end) is left unread |
| LexerProperties.ScannedWord | common/src/IO/DefParser.cpp:129-132 | a word read by the default case spans from the cursor to the next delimiter |
| EntityModel.Pow2 | common/src/IO/DefParser.cpp:249 | every flag value is positive |
| EntityModel.ScaleComponent | common/src/IO/DefParser.cpp:400-402 | a non-negative channel never grows, and a channel up to 255 ends at most 1 |
| EntityModel.Repair | common/src/IO/DefParser.cpp:391 | the repaired box has min <= max on every axis with the same pair of values per axis |
| EntityModel.Finalize | common/src/IO/DefParser.cpp:228-233 | a point class exactly when a size is present; name, description and attributes carried over; a point class keeps its size and model |
| EntityModel.Trim | common/src/IO/DefParser.cpp:225 | the trimmed description is a slice of the text with only whitespace removed on either side, and starts and ends with non-whitespace |
| EntityModel.TrimEnd | common/src/IO/DefParser.cpp:225 | dropping trailing whitespace leaves a non-whitespace last character |
| DefGrammar.NextOf | common/src/IO/DefParser.cpp:196 | an expectation passes the next token through when its kind is expected and throws the mismatch at that token otherwise |
| DefGrammar.NextSkippingNewlines | common/src/IO/DefParser.cpp:409-415 | the token returned is never a newline and lies after the cursor |
| GrammarProperties.SkippingNewlinesFirst | common/src/IO/DefParser.cpp:409-415 | the token given is the one read at a position that only newline tokens precede, so it is the first token that is not a newline |
| GrammarProperties.SkippingNewlinesAt | common/src/IO/DefParser.cpp:409-415 | conversely, after newline tokens only, the first other token (or the error raised reading it) is what is given |
| DefGrammar.NextSkippingOf | common/src/IO/DefParser.cpp:269 | on success, the next non-newline token, of one of the expected kinds |
| GrammarProperties.SkippingOfFails | common/src/IO/DefParser.cpp:269 | a next non-newline token of another kind throws the mismatch at that token, and an error reading it is passed on |
| DefGrammar.Numbers | common/src/IO/DefParser.cpp:376-379 | a successful read yields exactly n components |
| GrammarProperties.NumberRun | common/src/IO/DefParser.cpp:376-379 | the tokens read one after another lie inside the input, after the cursor, in order |
| GrammarProperties.RunValuesAt | common/src/IO/DefParser.cpp:378 | the i-th value of a token run is the value of the i-th token's text |
| GrammarProperties.NumbersRead | common/src/IO/DefParser.cpp:376-379 | the n components are the values of the next n tokens, in order, each of an expected kind |
| GrammarProperties.VectorComponents | common/src/IO/DefParser.cpp:374-381 | a vector's x, y and z are the values of the next three tokens, each an integer or a decimal |
| DefGrammar.ParseBounds | common/src/IO/DefParser.cpp:383-392 | the box read has min <= max on every axis |
| GrammarProperties.BoundsCorners | common/src/IO/DefParser.cpp:383-392 | a box is "(" vector ")" "(" vector ")", and on every axis its low and high ends are the two corners' components |
| DefGrammar.ParseColor | common/src/IO/DefParser.cpp:394-407 | a colour consumes input and has alpha 1 (its channels: GrammarProperties.ColorChannels) |
| DefGrammar.ParseBaseAttribute | common/src/IO/DefParser.cpp:300-307 | the base name is the text of the quoted string that follows "(" |
| DefGrammar.ParseChoiceAttribute | common/src/IO/DefParser.cpp:309-332 | a successful read is a choice attribute named by the text of the quoted string at the cursor |
| DefGrammar.Landing | common/src/IO/DefParser.cpp:342-343 | a sub-parser's cursor ends between its start and the end of the input, exactly at the end position it reports when that lies in range |
| DefGrammar.TryModel | common/src/IO/DefParser.cpp:342-347 | a rejection is thrown unchanged; an accepted model is returned exactly when ")" follows the sub-parser's end position, and the cursor then sits after that ")" |
| DefGrammar.ParseHeader | common/src/IO/DefParser.cpp:200-218 | the header keeps the class name; without a colour there is no size and no spawnflags |
| GrammarProperties.SizeRead | common/src/IO/DefParser.cpp:207-211 | a size is read exactly when "(" comes next, and is then the bounds read there |
| GrammarProperties.FlagsClauseRead | common/src/IO/DefParser.cpp:213-216 | the spawnflags attribute is added exactly when a word or a minus comes next, and is then the options read there; otherwise nothing is read |
| GrammarProperties.HeaderColor | common/src/IO/DefParser.cpp:203-211 | a header has a colour exactly when it starts with "(" (a newline instead is left unread), the colour is the one read there, and a size follows exactly when the next token is "(" rather than a word |
| GrammarProperties.HeaderFlags | common/src/IO/DefParser.cpp:207-216 | after the colour and size, the header has the spawnflags attribute exactly when a word or a minus follows, and it is the options read there |
| DefGrammar.ParseAttribute | common/src/IO/DefParser.cpp:268-287 | reaching "}" changes nothing and emits no warning |
| DefGrammar.SkipToBlock | common/src/IO/DefParser.cpp:188-194 | the scan stops only at an open marker or the end of the input |
| GrammarProperties.SkipToBlockFirst | common/src/IO/DefParser.cpp:188-191 | the scan stops at the token read at a position that no open marker and no end of input precede, so at the first open marker or the end |
| GrammarProperties.SkipToBlockAt | common/src/IO/DefParser.cpp:188-191 | conversely, past tokens that are neither, the first open marker or end of input (or the error raised reading it) is where the scan stops |
| DefGrammar.NextBlock | common/src/IO/DefParser.cpp:188-226 | no block is returned exactly when the scan stops at the end of the input, and then no warning is emitted; a block always consumes input |
| GrammarProperties.NoBlockLeft | common/src/IO/DefParser.cpp:188-194 | input with no open marker up to its end gives no block, no warning, and leaves the cursor at the end |
| DefGrammar.ParseDefinition | common/src/IO/DefParser.cpp:187-238 | a descriptor is returned only after input has been consumed |
| GrammarProperties.Pow2Increasing | common/src/IO/DefParser.cpp:249 | a later bit position has a strictly larger value |
| GrammarProperties.SpawnflagsBits | common/src/IO/DefParser.cpp:240-259 | the i-th flag from position k on has value 1 << (k + i), and the loop stops at a token that is neither a word nor a minus |
| GrammarProperties.SpawnflagsDistinctBits | common/src/IO/DefParser.cpp:240-259 | the flags of one clause have distinct bits that increase in order |
| GrammarProperties.FlagRun | common/src/IO/DefParser.cpp:245-252 | the word and minus tokens the flag loop reads lie inside the input and follow one another in order |
| GrammarProperties.SpawnflagsOptions | common/src/IO/DefParser.cpp:245-252 | every flag, not only the first, is read from the matching token of the run: the i-th option has value 1 << (k + i) and is named by the i-th word's text, or "" for a minus |
| GrammarProperties.ScaledChannel | common/src/IO/DefParser.cpp:400-402 | a channel in [0, 255] ends in [0, 1], and scaling twice equals scaling once |
| GrammarProperties.ColorChannels | common/src/IO/DefParser.cpp:394-405 | a colour starts with "(", and channel i is the value of the i-th following token (a decimal or an integer), divided by 255 when above 1; alpha is 1 |
| GrammarProperties.ColorClosed | common/src/IO/DefParser.cpp:404 | the ")" comes right after the three numbers, and the colour ends after it |
| GrammarProperties.NoBraceNoAttributes | common/src/IO/DefParser.cpp:261-266 | without "{" nothing is read, nothing changes and no warning is emitted |
| GrammarProperties.ChoiceOptionGroup | common/src/IO/DefParser.cpp:317-325 | one option is an integer, ",", a quoted string and ")", keyed by the integer's text and valued by the string's text |
| GrammarProperties.ChoiceStartsAscending | common/src/IO/DefParser.cpp:316-327 | the option groups of a choice list follow one another in the input |
| GrammarProperties.ChoiceOptionsGroups | common/src/IO/DefParser.cpp:316-327 | there is one option per group, and the i-th option is the one read from the i-th group |
| GrammarProperties.ChoiceAttributeShape | common/src/IO/DefParser.cpp:309-332 | a choice attribute is named by its quoted string, is followed by "(", and its options are its groups' (integer, string) pairs in input order |
| GrammarProperties.BodyExtends | common/src/IO/DefParser.cpp:273-283 | an attribute body only appends attributes or base names, and otherwise changes at most the model; "default" and an unknown keyword change nothing, "base" appends exactly the quoted name, "choice" appends exactly the choice attribute read, and "model" sets the model read |
| GrammarProperties.AttributeListExtends | common/src/IO/DefParser.cpp:261-287 | the attribute block keeps the name, colour, size and description, and the old attributes and base names stay as prefixes |
| GrammarProperties.UnknownKeyword | common/src/IO/DefParser.cpp:273-286 | an unknown keyword is accepted exactly when ";" follows, and it changes nothing |
| GrammarProperties.SkippedSemicolon | common/src/IO/DefParser.cpp:285 | a ";" token read while skipping newlines ends just after a ";" character |
| GrammarProperties.SemicolonRead | common/src/IO/DefParser.cpp:285 | an expected ";" ends just after a ";" character |
| GrammarProperties.AttributeNeedsSemicolon | common/src/IO/DefParser.cpp:268-287 | after a keyword and its body, the attribute succeeds exactly when ";" follows; any other token throws the ";" mismatch at that token |
| GrammarProperties.ModelFallback | common/src/IO/DefParser.cpp:334-364 | the expression grammar wins with no warning; otherwise the legacy grammar wins with one deprecation warning at the position after "("; if both fail, the expression grammar's error is thrown |
| GrammarProperties.ModelWarnsAtMostOnce | common/src/IO/DefParser.cpp:334-364 | a model clause emits at most one warning |
| GrammarProperties.Blocks | common/src/IO/DefParser.cpp:188-226 | the block list ends inside the input |
| GrammarProperties.ColourlessBlockDefers | common/src/IO/DefParser.cpp:235-237 | a base class only adds itself to the registry and its warnings in front of the rest of the parse |
| GrammarProperties.ParseDefinitionsCatalogsBlocks | common/src/IO/DefParser.cpp:170-238 | the whole parse equals reading every block in order (failing with the first error) and folding those blocks into descriptors, registry and warnings |
| GrammarProperties.CatalogCounts | common/src/IO/DefParser.cpp:228-237 | there is exactly one descriptor per block with a colour |
| GrammarProperties.DescriptionShape | common/src/IO/DefParser.cpp:366-372 | a description is empty when a close marker comes next; otherwise it is the raw text from the first token to the end of the last token read (the position after it, or one character short), no close marker is read, and the next token is the close marker or the input has ended |
| GrammarProperties.RegistryLastWriteWins | common/src/IO/DefParser.cpp:236 | after the parse, a base-class name maps to the last block stored under it, and every other entry is as before |
| DefTokenizing.DefTokenizer.constructor | common/src/IO/DefParser.cpp:40-44 | a tokenizer starts at position 0, line 1, column 1 |
| DefTokenizing.DefTokenizer.Advance | common/src/IO/DefParser.cpp:57 | one character consumed, line and column kept in step; a line feed or a carriage return without a following line feed starts a new line |
| DefTokenizing.DefTokenizer.MoveTo | common/src/IO/DefParser.cpp:342-343 | the cursor moves forward to a given position, line and column kept in step |
| DefTokenizing.DefTokenizer.ReadLeadingDigits | common/src/IO/DefParser.cpp:126 | the digit run of a decimal is skipped unless the cursor is at its "." |
| DefTokenizing.DefTokenizer.DiscardWhile | common/src/IO/DefParser.cpp:105-108 | the cursor moves past the run of spaces and tabs |
| DefTokenizing.DefTokenizer.DiscardUntil | common/src/IO/DefParser.cpp:59-61 | the cursor moves to the next given delimiter or the end |
| DefTokenizing.DefTokenizer.ReadInteger | common/src/IO/DefParser.cpp:123-125 | the integer rule: the cursor ends after the integer when one is read |
| DefTokenizing.DefTokenizer.ReadDecimal | common/src/IO/DefParser.cpp:126-128 | the decimal rule: digits, fraction and exponent |
| DefTokenizing.DefTokenizer.ReadUntil | common/src/IO/DefParser.cpp:129-132 | the word rule equals DefLexer.ScanWord |
| DefTokenizing.DefTokenizer.ReadQuotedString | common/src/IO/DefParser.cpp:109-114 | the end of the string is the next quote, after which the cursor sits; none when the input ends first |
| DefTokenizing.DefTokenizer.NextToken | common/src/IO/DefParser.cpp:48-137 | the token returned and the new position are exactly those of DefLexer.Emit |
| DefTokenizing.DefTokenizer.ReadToken | common/src/IO/DefParser.cpp:52-133 | the switch of emitToken equals DefLexer.TokenAt |
| DefTokenizing.DefTokenizer.ReadNumberOrWord | common/src/IO/DefParser.cpp:122-133 | the default case equals DefLexer.NumberOrWordAt |
| DefTokenizing.DefTokenizer.PeekToken | common/src/IO/DefParser.cpp:202 | the next token with the cursor left where it was |
| DefTokenizing.DefTokenizer.ReadRemainder | common/src/IO/DefParser.cpp:371 | the raw description text up to the close marker equals DefLexer.Remainder (whose extent LexerProperties.RemainderShape states), including the failure when it would end with end-of-file |
| DefParsing.DefParser.constructor | common/src/IO/DefParser.cpp:139-145 | a parser starts at the beginning of the text with an empty registry and no warnings |
| DefParsing.DefParser.ExpectNext | common/src/IO/DefParser.cpp:196 | equals DefGrammar.NextOf |
| DefParsing.DefParser.ExpectPeek | common/src/IO/DefParser.cpp:202 | equals DefGrammar.NextOf with the cursor kept |
| DefParsing.DefParser.NextTokenIgnoringNewlines | common/src/IO/DefParser.cpp:409-415 | equals DefGrammar.NextSkippingNewlines |
| DefParsing.DefParser.ExpectNextIgnoringNewlines | common/src/IO/DefParser.cpp:269 | equals DefGrammar.NextSkippingOf |
| DefParsing.DefParser.ReadNumbers | common/src/IO/DefParser.cpp:376-379 | the component loop equals DefGrammar.Numbers |
| DefParsing.DefParser.ParseVector | common/src/IO/DefParser.cpp:374-381 | equals DefGrammar.ParseVector |
| DefParsing.DefParser.ParseBounds | common/src/IO/DefParser.cpp:383-392 | equals DefGrammar.ParseBounds, so the box is repaired |
| DefParsing.DefParser.ParseColor | common/src/IO/DefParser.cpp:394-407 | equals DefGrammar.ParseColor |
| DefParsing.DefParser.ParseSpawnflags | common/src/IO/DefParser.cpp:240-259 | a flags attribute named "spawnflags" holding exactly DefGrammar.Spawnflags from bit 0 |
| DefParsing.DefParser.ParseDefaultAttribute | common/src/IO/DefParser.cpp:289-298 | equals DefGrammar.ParseDefaultAttribute |
| DefParsing.DefParser.ParseBaseAttribute | common/src/IO/DefParser.cpp:300-307 | equals DefGrammar.ParseBaseAttribute |
| DefParsing.DefParser.ParseChoiceOption | common/src/IO/DefParser.cpp:317-325 | equals DefGrammar.ChoiceOptionAt |
| DefParsing.DefParser.ParseChoiceOptions | common/src/IO/DefParser.cpp:315-329 | the option loop equals DefGrammar.ChoiceOptions |
| DefParsing.DefParser.ParseChoiceAttribute | common/src/IO/DefParser.cpp:309-332 | equals DefGrammar.ParseChoiceAttribute |
| DefParsing.DefParser.TryModel | common/src/IO/DefParser.cpp:342-347 | one sub-parser trial: the cursor moves to the sub-parser's end position, then ")" is expected, as DefGrammar.TryModel |
| DefParsing.DefParser.ParseModel | common/src/IO/DefParser.cpp:334-364 | equals DefGrammar.ParseModel; on success the warnings grow by its warning, on failure they are unchanged; after a failure past "(" the cursor is restored to just after "(" |
| DefParsing.DefParser.ModelAlternatives | common/src/IO/DefParser.cpp:337-363 | equals DefGrammar.ModelAlternatives; on failure the cursor and the warnings are as before |
| DefParsing.DefParser.AttributeBody | common/src/IO/DefParser.cpp:273-283 | equals DefGrammar.AttributeBody; the registry is untouched |
| DefParsing.DefParser.ParseAttribute | common/src/IO/DefParser.cpp:268-287 | equals DefGrammar.ParseAttribute |
| DefParsing.DefParser.ParseAttributes | common/src/IO/DefParser.cpp:261-266 | equals DefGrammar.ParseAttributes |
| DefParsing.DefParser.AttributeList | common/src/IO/DefParser.cpp:264 | the attribute loop equals DefGrammar.AttributeList |
| DefParsing.DefParser.ParseDescription | common/src/IO/DefParser.cpp:366-372 | equals DefGrammar.ParseDescription |
| DefParsing.DefParser.ParseHeader | common/src/IO/DefParser.cpp:200-218 | equals DefGrammar.ParseHeader |
| DefParsing.DefParser.ParseBlockBody | common/src/IO/DefParser.cpp:196-226 | equals DefGrammar.ParseBlockBody |
| DefParsing.DefParser.SkipToBlock | common/src/IO/DefParser.cpp:188-191 | the skipping loop equals DefGrammar.SkipToBlock |
| DefParsing.DefParser.NextBlock | common/src/IO/DefParser.cpp:188-226 | equals DefGrammar.NextBlock |
| DefParsing.DefParser.ParseDefinition | common/src/IO/DefParser.cpp:187-238 | equals DefGrammar.ParseDefinition: descriptor, new registry and the warnings appended |
| DefParsing.DefParser.ParseDefinitions | common/src/IO/DefParser.cpp:170-185 | equals DefGrammar.ParseDefinitions: the descriptors in order, the registry, and the warnings appended |

## Left out

- Tokenizer.h, the base tokenizer, is not part of this model. Its helpers are modelled by contracts read off their use here. These are assumptions about code outside the model, not facts proved from it:
  - `readUntil` always consumes the current character and never returns null before the end of the input (line 130 checks for null, so the source allows otherwise);
  - `readQuotedString` has no escape characters and fails at the end of the input;
  - `readRemainder` stops at the first close-marker token;
  - `snapshot` and `restore` save and restore the position, line and column.
- DefLexer.LineCol: `advance` is not part of this model. A line feed, or a carriage return not followed by a line feed, is taken to start a new line, as the comment at lines 96-97 treats a lone carriage return as a line end.
- ELParser and LegacyModelDefinitionParser are not part of this model. Each is a parameter that, given the text and the position after "(", either accepts an expression and the position where it stopped reading, or throws. A position outside the range from the start to the end of the input is clamped into it (DefGrammar.Landing). `optimize()` and `asString()` are folded into the accepted expression's text.
- EntityDefinitionClassInfo is not part of this model. Its setters are modelled as updates of record fields, and `addAttributeDefinition` and `attributeList()` as appends to a sequence in call order.
- DefSyntax.Mismatch: `Parser::expect` is not part of this model, so the wording of its "Expected ..., but got ..." message is a chosen format. Only its position (the offending token's line and column) is taken from the code.
- The sub-parsers' own warnings are not modelled. The legacy parser receives the status and may warn.
- `EntityDefinitionClassInfo::resolveBaseClasses` is not part of this model. It is an opaque function of the class info, the registry and the base names.
- Floating point: numbers are exact reals and `/ 255.0f` is real division. `Token::toFloat` is given by decimal notation.
- DefGrammar.Spawnflags: `1 << numOptions` is an unbounded power of two. The 32-bit overflow after 31 flags is not modelled.
- ParserStatus progress reports are left out; they do not affect the result. Warnings are a log on the parser.
- DefParsing.DefParser.ParseModel: when the "(" itself is missing, the tokenizer position after the failure is not stated.
- DefParsing.DefParser.ParseDefinitions: on failure only the error and the tokenizer's validity are stated, not the position, the registry or the warnings left behind.
- DefParsing.DefParser.ParseDefinition: on failure only the error and the tokenizer's validity are stated, as for ParseDefinitions.
- Memory management is not modelled: the deletion of partially built definitions when an exception is thrown.
- EntityModel.Finalize: a point class's colour defaults to the default colour if the resolved info has none. The source reads the colour unconditionally, and resolution of a block that has a colour is assumed to keep it.
- DefParsing.DefParser.ReadNumbers: parseVector and parseColor each have their own three-step loop. The model shares one loop, and parseColor scales the components after the loop rather than inside it.
