/** The grammar of DefParser as functions of the input and a cursor position. Each
    reads one construct and gives its value and the position after it, or the
    exception it throws. A peek is Emit with the position kept. The methods of
    DefParsing.DefParser are proved to compute exactly these. */
module DefGrammar {
  import opened DefSyntax
  import opened DefLexer
  import opened EntityModel

  /** expect(kinds, nextToken()). */
  function NextOf(input: seq<char>, p: nat, kinds: seq<TokenKind>): (r: Res<Token>)
    requires p <= |input|
    ensures r.Ok? ==> r == Emit(input, p) && r.value.kind in kinds
    ensures Emit(input, p).Ok? && Emit(input, p).value.kind !in kinds ==>
              r == Fail(Mismatch(input, kinds, Emit(input, p).value))
  {
    var t :- Emit(input, p);
    if t.value.kind in kinds then t else Fail(Mismatch(input, kinds, t.value))
  }

  /** nextTokenIgnoringNewlines(). */
  function NextSkippingNewlines(input: seq<char>, p: nat): (r: Res<Token>)
    requires p <= |input|
    ensures r.Ok? ==> r.value.kind != Newline
    ensures r.Ok? ==> p <= r.value.begin <= r.value.end <= r.next <= |input|
    ensures r.Ok? && r.value.kind != Eof ==> r.value.begin < r.next
    decreases |input| - p
  {
    var t :- Emit(input, p);
    if t.value.kind == Newline then NextSkippingNewlines(input, t.next) else t
  }

  /** expect(kinds, nextTokenIgnoringNewlines()). */
  function NextSkippingOf(input: seq<char>, p: nat, kinds: seq<TokenKind>): (r: Res<Token>)
    requires p <= |input|
    ensures r.Ok? ==> r == NextSkippingNewlines(input, p) && r.value.kind in kinds
  {
    var t :- NextSkippingNewlines(input, p);
    if t.value.kind in kinds then t else Fail(Mismatch(input, kinds, t.value))
  }

  /** One number component: an expected integer or decimal token and its value. */
  function Number(input: seq<char>, p: nat, kinds: seq<TokenKind>): (r: Res<real>)
    requires p <= |input| && Eof !in kinds
    ensures r.Ok? ==> p < r.next <= |input|
  {
    var t :- NextOf(input, p, kinds);
    Ok(NumberValue(Text(input, t.value)), t.next)
  }

  /** n number components in a row. */
  function Numbers(input: seq<char>, p: nat, n: nat, kinds: seq<TokenKind>): (r: Res<seq<real>>)
    requires p <= |input| && Eof !in kinds
    ensures r.Ok? ==> |r.value| == n && p <= r.next <= |input|
    decreases n
  {
    if n == 0 then Ok([], p)
    else
      match Number(input, p, kinds)
      case Fail(e) => Fail(e)
      case Ok(x, q) =>
        match Numbers(input, q, n - 1, kinds)
        case Fail(e) => Fail(e)
        case Ok(rest, q') => Ok([x] + rest, q')
  }

  /** parseVector: three integer or decimal components. */
  function ParseVector(input: seq<char>, p: nat): (r: Res<Vec3>)
    requires p <= |input|
    ensures r.Ok? ==> p <= r.next <= |input|
  {
    var ns :- Numbers(input, p, 3, [Integer, Decimal]);
    Ok(Vec3(ns.value[0], ns.value[1], ns.value[2]), ns.next)
  }

  /** parseBounds: "(" vector ")" "(" vector ")", repaired. */
  function ParseBounds(input: seq<char>, p: nat): (r: Res<Bounds>)
    requires p <= |input|
    ensures r.Ok? ==> p < r.next <= |input|
    ensures r.Ok? ==> r.value.min.x <= r.value.max.x && r.value.min.y <= r.value.max.y
                      && r.value.min.z <= r.value.max.z
  {
    var o1 :- NextOf(input, p, [OParenthesis]);
    var lo :- ParseVector(input, o1.next);
    var c1 :- NextOf(input, lo.next, [CParenthesis]);
    var o2 :- NextOf(input, c1.next, [OParenthesis]);
    var hi :- ParseVector(input, o2.next);
    var c2 :- NextOf(input, hi.next, [CParenthesis]);
    Ok(Repair(Bounds(lo.value, hi.value)), c2.next)
  }

  /** parseColor: "(" three components ")", each scaled, alpha 1. */
  function ParseColor(input: seq<char>, p: nat): (r: Res<Color>)
    requires p <= |input|
    ensures r.Ok? ==> p < r.next <= |input|
    ensures r.Ok? ==> r.value.a == 1.0
  {
    var o :- NextOf(input, p, [OParenthesis]);
    var ns :- Numbers(input, o.next, 3, [Decimal, Integer]);
    var c :- NextOf(input, ns.next, [CParenthesis]);
    Ok(Color(ScaleComponent(ns.value[0]), ScaleComponent(ns.value[1]), ScaleComponent(ns.value[2]), 1.0), c.next)
  }

  /** The loop of parseSpawnflags from its k-th option on: while the peeked token is
      a word or a minus, consume it as the option with bit value 1 << k. */
  function Spawnflags(input: seq<char>, p: nat, k: nat): (r: Res<seq<FlagOption>>)
    requires p <= |input|
    ensures r.Ok? ==> p <= r.next <= |input|
    decreases |input| - p
  {
    var t :- Emit(input, p);
    if t.value.kind == Word || t.value.kind == Minus then
      var name := if t.value.kind == Word then Text(input, t.value) else "";
      var rest :- Spawnflags(input, t.next, k + 1);
      Ok([FlagOption(Pow2(k), name)] + rest.value, rest.next)
    else Ok([], p)
  }

  /** parseDefaultAttribute: ( "name" , "value" ), read and dropped. */
  function ParseDefaultAttribute(input: seq<char>, p: nat): (r: Res<()>)
    requires p <= |input|
    ensures r.Ok? ==> p < r.next <= |input|
  {
    var o :- NextSkippingOf(input, p, [OParenthesis]);
    var n :- NextSkippingOf(input, o.next, [QuotedString]);
    var c :- NextSkippingOf(input, n.next, [Comma]);
    var v :- NextSkippingOf(input, c.next, [QuotedString]);
    var e :- NextSkippingOf(input, v.next, [CParenthesis]);
    Ok((), e.next)
  }

  /** parseBaseAttribute: ( "name" ). */
  function ParseBaseAttribute(input: seq<char>, p: nat): (r: Res<string>)
    requires p <= |input|
    ensures r.Ok? ==> p < r.next <= |input|
    ensures r.Ok? ==> var o := NextSkippingNewlines(input, p);
                      o.Ok? && o.value.kind == OParenthesis
                      && var n := NextSkippingNewlines(input, o.next);
                         n.Ok? && n.value.kind == QuotedString && r.value == Text(input, n.value)
  {
    var o :- NextSkippingOf(input, p, [OParenthesis]);
    var n :- NextSkippingOf(input, o.next, [QuotedString]);
    var e :- NextSkippingOf(input, n.next, [CParenthesis]);
    Ok(Text(input, n.value), e.next)
  }

  /** One option of parseChoiceAttribute after its "(": integer "," "string" ")". */
  function ChoiceOptionAt(input: seq<char>, p: nat): (r: Res<ChoiceOption>)
    requires p <= |input|
    ensures r.Ok? ==> p < r.next <= |input|
  {
    var k :- NextSkippingOf(input, p, [Integer]);
    var c :- NextSkippingOf(input, k.next, [Comma]);
    var v :- NextSkippingOf(input, c.next, [QuotedString]);
    var e :- NextSkippingOf(input, v.next, [CParenthesis]);
    Ok(ChoiceOption(Text(input, k.value), Text(input, v.value)), e.next)
  }

  /** The option loop of parseChoiceAttribute, given the token t just read (ending
      at q): one option per "(", then the closing ")". */
  function ChoiceOptions(input: seq<char>, t: Token, q: nat): (r: Res<seq<ChoiceOption>>)
    requires t.begin <= t.end <= q <= |input|
    ensures r.Ok? ==> q <= r.next <= |input|
    decreases |input| - q
  {
    if t.kind == OParenthesis then
      var o :- ChoiceOptionAt(input, q);
      var u :- NextSkippingNewlines(input, o.next);
      var rest :- ChoiceOptions(input, u.value, u.next);
      Ok([o.value] + rest.value, rest.next)
    else if t.kind == CParenthesis then Ok([], q)
    else Fail(Mismatch(input, [CParenthesis], t))
  }

  /** parseChoiceAttribute: "name" ( options ). */
  function ParseChoiceAttribute(input: seq<char>, p: nat): (r: Res<AttributeDefinition>)
    requires p <= |input|
    ensures r.Ok? ==> p < r.next <= |input| && r.value.ChoiceAttribute?
    ensures r.Ok? ==> Emit(input, p).Ok? && Emit(input, p).value.kind == QuotedString
                      && r.value.name == Text(input, Emit(input, p).value)
  {
    var n :- NextOf(input, p, [QuotedString]);
    var o :- NextSkippingOf(input, n.next, [OParenthesis]);
    var t :- NextSkippingNewlines(input, o.next);
    var opts :- ChoiceOptions(input, t.value, t.next);
    Ok(ChoiceAttribute(Text(input, n.value), opts.value), opts.next)
  }

  /** Where a sub-parser that started at s leaves the cursor: it only reads forward
      through the input, so its end lies between s and the end of the input (an end
      reported outside that range is taken at the nearest bound). */
  function Landing(input: seq<char>, s: nat, end: nat): (q: nat)
    requires s <= |input|
    ensures s <= q <= |input|
    ensures s <= end <= |input| ==> q == end
  {
    if end < s then s else if end > |input| then |input| else end
  }

  /** One trial of parseModel: run the sub-parser from s, then expect ")". */
  function TryModel(input: seq<char>, s: nat, parser: SubParser): (r: Res<ModelDefinition>)
    requires s <= |input|
    ensures r.Ok? ==> s < r.next <= |input|
    ensures parser(input, s).Rejected? ==> r == Fail(parser(input, s).error)
    ensures parser(input, s).Accepted? ==>
              var c := NextOf(input, Landing(input, s, parser(input, s).end), [CParenthesis]);
              (r.Ok? <==> c.Ok?) && (r.Ok? ==> r.value == parser(input, s).model && r.next == c.next)
  {
    match parser(input, s)
    case Rejected(e) => Fail(e)
    case Accepted(m, end) =>
      var c :- NextOf(input, Landing(input, s, end), [CParenthesis]);
      Ok(m, c.next)
  }

  /** A value together with the warnings reading it sent to the parser status. */
  datatype Logged<T> = Logged(value: T, warnings: seq<Warning>)

  /** The result without its warnings: what the reading method returns. */
  function Dropped<T>(r: Res<Logged<T>>): Res<T>
  {
    match r
    case Ok(l, q) => Ok(l.value, q)
    case Fail(e) => Fail(e)
  }

  /** r with the warnings ws emitted before it. */
  function AfterWarnings<T>(ws: seq<Warning>, r: Res<Logged<T>>): Res<Logged<T>>
  {
    match r
    case Ok(l, q) => Ok(Logged(l.value, ws + l.warnings), q)
    case Fail(e) => Fail(e)
  }

  /** r with the items a in front of its items. */
  function Prefixed<T>(a: seq<T>, r: Res<seq<T>>): Res<seq<T>>
  {
    match r
    case Ok(v, q) => Ok(a + v, q)
    case Fail(e) => Fail(e)
  }

  function LegacyWarning(lc: (nat, nat), m: ModelDefinition): Warning
  {
    Warning(lc.0, lc.1, "Legacy model expressions are deprecated, replace with '" + m.expression + "'")
  }

  /** parseModel: "(" then the expression grammar, else the legacy grammar (with a
      warning at the position after "("), else the expression grammar's error. */
  function ParseModel(input: seq<char>, p: nat, env: Collaborators): (r: Res<Logged<ModelDefinition>>)
    requires p <= |input|
    ensures r.Ok? ==> p < r.next <= |input|
  {
    var o :- NextOf(input, p, [OParenthesis]);
    ModelAlternatives(input, o.next, env)
  }

  /** The speculative part of parseModel, from just after "(". */
  function ModelAlternatives(input: seq<char>, s: nat, env: Collaborators): (r: Res<Logged<ModelDefinition>>)
    requires s <= |input|
    ensures r.Ok? ==> s < r.next <= |input|
  {
    match TryModel(input, s, env.expressionParser)
    case Ok(m, q) => Ok(Logged(m, []), q)
    case Fail(e) =>
      match TryModel(input, s, env.legacyParser)
      case Ok(m, q) => Ok(Logged(m, [LegacyWarning(LineCol(input, s), m)]), q)
      case Fail(_) => Fail(e)
  }

  /** What parseAttributes updates in place: the class info and the base-class names. */
  datatype Block = Block(info: ClassInfo, superClasses: seq<string>)

  /** The body of one attribute after its keyword. An unknown keyword reads nothing. */
  function AttributeBody(input: seq<char>, p: nat, keyword: string, b: Block, env: Collaborators): (r: Res<Logged<Block>>)
    requires p <= |input|
    ensures r.Ok? ==> p <= r.next <= |input|
  {
    if keyword == "default" then
      var d :- ParseDefaultAttribute(input, p);
      Ok(Logged(b, []), d.next)
    else if keyword == "base" then
      var n :- ParseBaseAttribute(input, p);
      Ok(Logged(b.(superClasses := b.superClasses + [n.value]), []), n.next)
    else if keyword == "choice" then
      var c :- ParseChoiceAttribute(input, p);
      Ok(Logged(b.(info := b.info.(attributes := b.info.attributes + [c.value])), []), c.next)
    else if keyword == "model" then
      var m :- ParseModel(input, p, env);
      Ok(Logged(b.(info := b.info.(model := Some(m.value.value))), m.value.warnings), m.next)
    else Ok(Logged(b, []), p)
  }

  /** The outcome of parseAttribute: whether one was read (false at "}"), and the new state. */
  datatype Step = Step(more: bool, block: Block)

  /** parseAttribute. */
  function ParseAttribute(input: seq<char>, p: nat, b: Block, env: Collaborators): (r: Res<Logged<Step>>)
    requires p <= |input|
    ensures r.Ok? ==> p < r.next <= |input|
    ensures r.Ok? && !r.value.value.more ==> r.value == Logged(Step(false, b), [])
  {
    var t :- NextSkippingOf(input, p, [Word, CBrace]);
    if t.value.kind != Word then Ok(Logged(Step(false, b), []), t.next)
    else
      var body :- AttributeBody(input, t.next, Text(input, t.value), b, env);
      var semi :- NextSkippingOf(input, body.next, [Semicolon]);
      Ok(Logged(Step(true, body.value.value), body.value.warnings), semi.next)
  }

  /** while (parseAttribute(...)); */
  function AttributeList(input: seq<char>, p: nat, b: Block, env: Collaborators): (r: Res<Logged<Block>>)
    requires p <= |input|
    ensures r.Ok? ==> p < r.next <= |input|
    decreases |input| - p
  {
    var s :- ParseAttribute(input, p, b, env);
    if s.value.value.more then AfterWarnings(s.value.warnings, AttributeList(input, s.next, s.value.value.block, env))
    else Ok(Logged(s.value.value.block, s.value.warnings), s.next)
  }

  /** parseAttributes: an attribute block only when the peeked token is "{". */
  function ParseAttributes(input: seq<char>, p: nat, b: Block, env: Collaborators): (r: Res<Logged<Block>>)
    requires p <= |input|
    ensures r.Ok? ==> p <= r.next <= |input|
  {
    var t :- Emit(input, p);
    if t.value.kind == OBrace then AttributeList(input, t.next, b, env) else Ok(Logged(b, []), p)
  }

  /** parseDescription: empty when the block closes at once, else the remainder. */
  function ParseDescription(input: seq<char>, p: nat): (r: Res<string>)
    requires p <= |input|
    ensures r.Ok? ==> p <= r.next <= |input|
  {
    var t :- Emit(input, p);
    if t.value.kind == CDefinition then Ok("", p) else Remainder(input, p)
  }

  /** After the bounds position is peeked: "(" bounds ")", a "?" word, or nothing. */
  function ParseSize(input: seq<char>, p: nat, t: Token, q: nat): (r: Res<Option<Bounds>>)
    requires p <= |input| && t.begin <= t.end <= |input| && p <= q <= |input|
    ensures r.Ok? ==> p <= r.next <= |input|
  {
    if t.kind == OParenthesis then
      var b :- ParseBounds(input, p);
      Ok(Some(b.value), b.next)
    else if Text(input, t) == "?" then Ok(None, q)
    else Ok(None, p)
  }

  /** The optional spawnflags clause: only when the peeked token is a word or a minus. */
  function ParseFlagsClause(input: seq<char>, p: nat): (r: Res<seq<AttributeDefinition>>)
    requires p <= |input|
    ensures r.Ok? ==> p <= r.next <= |input|
  {
    var t :- Emit(input, p);
    if t.value.kind == Word || t.value.kind == Minus then
      var flags :- Spawnflags(input, p, 0);
      Ok([FlagsAttribute(SpawnflagsName, flags.value)], flags.next)
    else Ok([], p)
  }

  /** The header after the class name: [ colour [ bounds | "?" ] [ spawnflags ] ]. */
  function ParseHeader(input: seq<char>, p: nat, name: string): (r: Res<ClassInfo>)
    requires p <= |input|
    ensures r.Ok? ==> p <= r.next <= |input|
    ensures r.Ok? ==> r.value.name == name && r.value.description == "" && r.value.model.None?
    ensures r.Ok? && r.value.color.None? ==> r.value.size.None? && r.value.attributes == []
  {
    var t :- NextOf(input, p, [OParenthesis, Newline]);
    if t.value.kind == Newline then Ok(ClassInfo(name, None, None, "", [], None), p)
    else
      var c :- ParseColor(input, p);
      var u :- NextOf(input, c.next, [OParenthesis, Word]);
      var size :- ParseSize(input, c.next, u.value, u.next);
      var flags :- ParseFlagsClause(input, size.next);
      Ok(ClassInfo(name, Some(c.value), size.value, "", flags.value, None), flags.next)
  }

  /** One block after its open marker: name, header, newline, attributes, description, close marker. */
  function ParseBlockBody(input: seq<char>, p: nat, env: Collaborators): (r: Res<Logged<Block>>)
    requires p <= |input|
    ensures r.Ok? ==> p < r.next <= |input|
  {
    var n :- NextOf(input, p, [Word]);
    var h :- ParseHeader(input, n.next, Text(input, n.value));
    var nl :- NextOf(input, h.next, [Newline]);
    var a :- ParseAttributes(input, nl.next, Block(h.value, []), env);
    var d :- ParseDescription(input, a.next);
    var cl :- NextOf(input, d.next, [CDefinition]);
    var b := a.value.value;
    Ok(Logged(b.(info := b.info.(description := Trim(d.value))), a.value.warnings), cl.next)
  }

  /** The skipping loop of parseDefinition: tokens up to an open marker or the end. */
  function SkipToBlock(input: seq<char>, p: nat): (r: Res<Token>)
    requires p <= |input|
    ensures r.Ok? ==> r.value.kind in {Eof, ODefinition}
    ensures r.Ok? ==> p <= r.next <= |input|
    ensures r.Ok? && r.value.kind == ODefinition ==> p < r.next
    decreases |input| - p
  {
    var t :- Emit(input, p);
    if t.value.kind == Eof || t.value.kind == ODefinition then t else SkipToBlock(input, t.next)
  }

  /** The next block at or after p, or None at the end of the input. */
  function NextBlock(input: seq<char>, p: nat, env: Collaborators): (r: Res<Logged<Option<Block>>>)
    requires p <= |input|
    ensures r.Ok? ==> p <= r.next <= |input|
    ensures r.Ok? && r.value.value.Some? ==> p < r.next
    ensures r.Ok? && r.value.value.None? ==> r.value.warnings == []
    ensures r.Ok? ==> SkipToBlock(input, p).Ok?
                      && (r.value.value.None? <==> SkipToBlock(input, p).value.kind == Eof)
  {
    var t :- SkipToBlock(input, p);
    if t.value.kind == Eof then Ok(Logged(None, []), t.next)
    else
      var b :- ParseBlockBody(input, t.next, env);
      Ok(Logged(Some(b.value.value), b.value.warnings), b.next)
  }

  /** The outcome of parseDefinition: the descriptor (None at the end of the input),
      the base-class registry afterwards, and the warnings emitted. */
  datatype Outcome = Outcome(definition: Option<EntityDefinition>, baseClasses: map<string, ClassInfo>,
                             warnings: seq<Warning>)

  /** The descriptor of a block with a colour, resolved against the registry. */
  function Describe(b: Block, bases: map<string, ClassInfo>, env: Collaborators): EntityDefinition
  {
    Finalize(env.resolve(b.info, bases, b.superClasses), env.defaultColor)
  }

  /** parseDefinition: a block with a colour is resolved and described; one without
      is stored in the registry under its name and the next block is read. */
  function ParseDefinition(input: seq<char>, p: nat, bases: map<string, ClassInfo>, env: Collaborators): (r: Res<Outcome>)
    requires p <= |input|
    ensures r.Ok? ==> p <= r.next <= |input|
    ensures r.Ok? && r.value.definition.Some? ==> p < r.next
    decreases |input| - p
  {
    var nb :- NextBlock(input, p, env);
    var ws := nb.value.warnings;
    match nb.value.value
    case None => Ok(Outcome(None, bases, []), nb.next)
    case Some(b) =>
      if b.info.color.Some? then Ok(Outcome(Some(Describe(b, bases, env)), bases, ws), nb.next)
      else
        var rest :- ParseDefinition(input, nb.next, bases[b.info.name := b.info], env);
        Ok(rest.value.(warnings := ws + rest.value.warnings), rest.next)
  }

  /** r with the warnings ws emitted before its own. */
  function WarnedFirst(ws: seq<Warning>, r: Res<Outcome>): Res<Outcome>
  {
    match r
    case Ok(o, q) => Ok(o.(warnings := ws + o.warnings), q)
    case Fail(e) => Fail(e)
  }

  /** The four ways parseDefinition ends, by what the next block is. */
  lemma ParseDefinitionCases(input: seq<char>, p: nat, bases: map<string, ClassInfo>, env: Collaborators)
    requires p <= |input|
    ensures var nb := NextBlock(input, p, env);
            var r := ParseDefinition(input, p, bases, env);
            (nb.Fail? ==> r == Fail(nb.error))
            && (nb.Ok? && nb.value.value.None? ==> r == Ok(Outcome(None, bases, []), nb.next))
            && (nb.Ok? && nb.value.value.Some? && nb.value.value.value.info.color.Some? ==>
                  r == Ok(Outcome(Some(Describe(nb.value.value.value, bases, env)), bases, nb.value.warnings), nb.next))
            && (nb.Ok? && nb.value.value.Some? && nb.value.value.value.info.color.None? ==>
                  var b := nb.value.value.value;
                  r == WarnedFirst(nb.value.warnings, ParseDefinition(input, nb.next, bases[b.info.name := b.info], env)))
  {
  }

  /** The result of a whole parse. */
  datatype Catalog = Catalog(definitions: seq<EntityDefinition>, baseClasses: map<string, ClassInfo>,
                             warnings: seq<Warning>)

  /** r with the descriptors defs and the warnings ws in front of its own. */
  function Extended(defs: seq<EntityDefinition>, ws: seq<Warning>, r: Res<Catalog>): Res<Catalog>
  {
    match r
    case Ok(c, q) => Ok(Catalog(defs + c.definitions, c.baseClasses, ws + c.warnings), q)
    case Fail(e) => Fail(e)
  }

  /** doParseDefinitions: parseDefinition until it returns nothing. */
  function ParseDefinitions(input: seq<char>, p: nat, bases: map<string, ClassInfo>, env: Collaborators): (r: Res<Catalog>)
    requires p <= |input|
    ensures r.Ok? ==> p <= r.next <= |input|
    decreases |input| - p
  {
    var d :- ParseDefinition(input, p, bases, env);
    match d.value.definition
    case None => Ok(Catalog([], d.value.baseClasses, d.value.warnings), d.next)
    case Some(def) =>
      var rest :- ParseDefinitions(input, d.next, d.value.baseClasses, env);
      Ok(Catalog([def] + rest.value.definitions, rest.value.baseClasses, d.value.warnings + rest.value.warnings), rest.next)
  }

  // One step of each loop of the reader, in the accumulator form its method keeps.

  lemma PrefixedNothing<T>(r: Res<seq<T>>)
    ensures Prefixed([], r) == r
  {
    match r
    case Fail(_) =>
    case Ok(v, _) => assert [] + v == v;
  }

  lemma AfterNoWarnings<T>(r: Res<Logged<T>>)
    ensures AfterWarnings([], r) == r
  {
    match r
    case Fail(_) =>
    case Ok(l, _) => assert [] + l.warnings == l.warnings;
  }

  lemma ExtendedNothing(r: Res<Catalog>)
    ensures Extended([], [], r) == r
  {
    match r
    case Fail(_) =>
    case Ok(c, _) => assert [] + c.definitions == c.definitions && [] + c.warnings == c.warnings;
  }

  lemma NumbersStep(input: seq<char>, p: nat, n: nat, kinds: seq<TokenKind>, a: seq<real>)
    requires p <= |input| && Eof !in kinds && n > 0
    ensures var t := NextOf(input, p, kinds);
            Prefixed(a, Numbers(input, p, n, kinds))
            == if t.Fail? then Fail(t.error)
               else Prefixed(a + [NumberValue(Text(input, t.value))], Numbers(input, t.next, n - 1, kinds))
  {
    var t := NextOf(input, p, kinds);
    if t.Ok? {
      match Numbers(input, t.next, n - 1, kinds)
      case Fail(_) =>
      case Ok(v, q) => assert a + ([NumberValue(Text(input, t.value))] + v) == a + [NumberValue(Text(input, t.value))] + v;
    }
  }

  lemma SpawnflagsStep(input: seq<char>, p: nat, k: nat, a: seq<FlagOption>)
    requires p <= |input|
    ensures var t := Emit(input, p);
            Prefixed(a, Spawnflags(input, p, k))
            == if t.Fail? then Fail(t.error)
               else if t.value.kind == Word || t.value.kind == Minus then
                 Prefixed(a + [FlagOption(Pow2(k), if t.value.kind == Word then Text(input, t.value) else "")],
                          Spawnflags(input, t.next, k + 1))
               else Ok(a, p)
  {
    var t := Emit(input, p);
    if t.Ok? && (t.value.kind == Word || t.value.kind == Minus) {
      var o := FlagOption(Pow2(k), if t.value.kind == Word then Text(input, t.value) else "");
      match Spawnflags(input, t.next, k + 1)
      case Fail(_) =>
      case Ok(v, q) => assert a + ([o] + v) == a + [o] + v;
    } else if t.Ok? {
      assert a + [] == a;
    }
  }

  lemma ChoiceStep(input: seq<char>, t: Token, q: nat, a: seq<ChoiceOption>)
    requires t.begin <= t.end <= q <= |input| && t.kind == OParenthesis
    ensures var o := ChoiceOptionAt(input, q);
            var u := if o.Ok? then NextSkippingNewlines(input, o.next) else Fail(o.error);
            Prefixed(a, ChoiceOptions(input, t, q))
            == if u.Fail? then Fail(u.error)
               else Prefixed(a + [o.value], ChoiceOptions(input, u.value, u.next))
  {
    var o := ChoiceOptionAt(input, q);
    if o.Ok? {
      var u := NextSkippingNewlines(input, o.next);
      if u.Ok? {
        match ChoiceOptions(input, u.value, u.next)
        case Fail(_) =>
        case Ok(w, _) => assert a + ([o.value] + w) == a + [o.value] + w;
      }
    }
  }

  lemma AttributeListStep(input: seq<char>, p: nat, b: Block, env: Collaborators, ws: seq<Warning>)
    requires p <= |input|
    ensures var s := ParseAttribute(input, p, b, env);
            AfterWarnings(ws, AttributeList(input, p, b, env))
            == if s.Fail? then Fail(s.error)
               else if s.value.value.more then
                 AfterWarnings(ws + s.value.warnings, AttributeList(input, s.next, s.value.value.block, env))
               else Ok(Logged(s.value.value.block, ws + s.value.warnings), s.next)
  {
    var s := ParseAttribute(input, p, b, env);
    if s.Ok? && s.value.value.more {
      match AttributeList(input, s.next, s.value.value.block, env)
      case Fail(_) =>
      case Ok(l, _) => assert ws + (s.value.warnings + l.warnings) == ws + s.value.warnings + l.warnings;
    }
  }

  lemma DefinitionsStep(input: seq<char>, p: nat, bases: map<string, ClassInfo>, env: Collaborators,
                        defs: seq<EntityDefinition>, ws: seq<Warning>)
    requires p <= |input|
    ensures var d := ParseDefinition(input, p, bases, env);
            Extended(defs, ws, ParseDefinitions(input, p, bases, env))
            == if d.Fail? then Fail(d.error)
               else if d.value.definition.None? then
                 Ok(Catalog(defs, d.value.baseClasses, ws + d.value.warnings), d.next)
               else
                 Extended(defs + [d.value.definition.value], ws + d.value.warnings,
                          ParseDefinitions(input, d.next, d.value.baseClasses, env))
  {
    var d := ParseDefinition(input, p, bases, env);
    var r := ParseDefinitions(input, p, bases, env);
    if d.Fail? {
      assert r == Fail(d.error);
    } else if d.value.definition.None? {
      assert r == Ok(Catalog([], d.value.baseClasses, d.value.warnings), d.next);
      assert defs + [] == defs;
    } else {
      var def := d.value.definition.value;
      var rest := ParseDefinitions(input, d.next, d.value.baseClasses, env);
      if rest.Ok? {
        var c := rest.value;
        assert r == Ok(Catalog([def] + c.definitions, c.baseClasses, d.value.warnings + c.warnings), rest.next);
        AppendAssociative(defs, [def], c.definitions);
        AppendAssociative(ws, d.value.warnings, c.warnings);
      } else {
        assert r == Fail(rest.error);
      }
    }
  }
}
