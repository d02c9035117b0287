/** DefParser as an object: it owns a DefTokenizer, the registry of base classes it
    has read, and the warnings it has sent to the parser status. Each method reads
    from the tokenizer in place and is proved to compute what the function of the
    same construct in DefGrammar describes. */
module DefParsing {
  import opened DefSyntax
  import opened DefLexer
  import opened EntityModel
  import opened DefTokenizing
  import G = DefGrammar

  class DefParser {
    const tokenizer: DefTokenizer
    const env: Collaborators
    /** m_baseClasses: the classes without a colour, by name. */
    var baseClasses: map<string, ClassInfo>
    /** The warnings sent to the parser status, oldest first. */
    var warnings: seq<Warning>

    ghost predicate Valid()
      reads tokenizer
    {
      tokenizer.Valid()
    }

    constructor (text: seq<char>, collaborators: Collaborators)
      ensures Valid() && fresh(tokenizer)
      ensures tokenizer.input == text && tokenizer.pos == 0
      ensures env == collaborators && baseClasses == map[] && warnings == []
    {
      tokenizer := new DefTokenizer(text);
      env := collaborators;
      baseClasses := map[];
      warnings := [];
    }

    /** expect(kinds, m_tokenizer.nextToken()). */
    method ExpectNext(kinds: seq<TokenKind>) returns (r: Res<Token>)
      requires Valid()
      modifies tokenizer
      ensures Valid() && r == G.NextOf(tokenizer.input, old(tokenizer.pos), kinds)
      ensures r.Ok? ==> tokenizer.pos == r.next
    {
      r := tokenizer.NextToken();
      if r.Ok? && r.value.kind !in kinds {
        r := Fail(Mismatch(tokenizer.input, kinds, r.value));
      }
    }

    /** expect(kinds, m_tokenizer.peekToken()). */
    method ExpectPeek(kinds: seq<TokenKind>) returns (r: Res<Token>)
      requires Valid()
      modifies tokenizer
      ensures Valid() && tokenizer.pos == old(tokenizer.pos)
      ensures r == G.NextOf(tokenizer.input, old(tokenizer.pos), kinds)
    {
      r := tokenizer.PeekToken();
      if r.Ok? && r.value.kind !in kinds {
        r := Fail(Mismatch(tokenizer.input, kinds, r.value));
      }
    }

    /** nextTokenIgnoringNewlines. */
    method NextTokenIgnoringNewlines() returns (r: Res<Token>)
      requires Valid()
      modifies tokenizer
      ensures Valid() && r == G.NextSkippingNewlines(tokenizer.input, old(tokenizer.pos))
      ensures r.Ok? ==> tokenizer.pos == r.next
    {
      ghost var q: nat := tokenizer.pos;
      r := tokenizer.NextToken();
      while r.Ok? && r.value.kind == Newline
        invariant Valid() && q <= |tokenizer.input| && r == Emit(tokenizer.input, q)
        invariant r.Ok? ==> tokenizer.pos == r.next
        invariant G.NextSkippingNewlines(tokenizer.input, q) == G.NextSkippingNewlines(tokenizer.input, old(tokenizer.pos))
        decreases if r.Ok? && r.value.kind == Newline then |tokenizer.input| - r.next + 1 else 0
      {
        q := tokenizer.pos;
        r := tokenizer.NextToken();
      }
    }

    /** expect(kinds, nextTokenIgnoringNewlines()). */
    method ExpectNextIgnoringNewlines(kinds: seq<TokenKind>) returns (r: Res<Token>)
      requires Valid()
      modifies tokenizer
      ensures Valid() && r == G.NextSkippingOf(tokenizer.input, old(tokenizer.pos), kinds)
      ensures r.Ok? ==> tokenizer.pos == r.next
    {
      r := NextTokenIgnoringNewlines();
      if r.Ok? && r.value.kind !in kinds {
        r := Fail(Mismatch(tokenizer.input, kinds, r.value));
      }
    }

    /** The loop of parseVector and parseColor: n numbers of the given kinds. */
    method ReadNumbers(n: nat, kinds: seq<TokenKind>) returns (r: Res<seq<real>>)
      requires Valid() && Eof !in kinds
      modifies tokenizer
      ensures Valid() && r == G.Numbers(tokenizer.input, old(tokenizer.pos), n, kinds)
      ensures r.Ok? ==> tokenizer.pos == r.next
    {
      ghost var input := tokenizer.input;
      ghost var goal := G.Numbers(input, tokenizer.pos, n, kinds);
      var v: seq<real> := [];
      var remaining := n;
      G.PrefixedNothing(goal);
      while remaining > 0
        invariant Valid() && |v| + remaining == n
        invariant goal == G.Prefixed(v, G.Numbers(input, tokenizer.pos, remaining, kinds))
      {
        ghost var q := tokenizer.pos;
        G.NumbersStep(input, q, remaining, kinds, v);
        var t := ExpectNext(kinds);
        if t.Fail? {
          return Fail(t.error);
        }
        ghost var v' := v + [NumberValue(Text(input, t.value))];
        assert goal == G.Prefixed(v', G.Numbers(input, t.next, remaining - 1, kinds));
        v := v + [NumberValue(Text(tokenizer.input, t.value))];
        remaining := remaining - 1;
      }
      assert v + [] == v;
      return Ok(v, tokenizer.pos);
    }

    /** parseVector. */
    method ParseVector() returns (r: Res<Vec3>)
      requires Valid()
      modifies tokenizer
      ensures Valid() && r == G.ParseVector(tokenizer.input, old(tokenizer.pos))
      ensures r.Ok? ==> tokenizer.pos == r.next
    {
      var v := ReadNumbers(3, [Integer, Decimal]);
      if v.Fail? {
        return Fail(v.error);
      }
      return Ok(Vec3(v.value[0], v.value[1], v.value[2]), tokenizer.pos);
    }

    /** parseBounds. */
    method ParseBounds() returns (r: Res<Bounds>)
      requires Valid()
      modifies tokenizer
      ensures Valid() && r == G.ParseBounds(tokenizer.input, old(tokenizer.pos))
      ensures r.Ok? ==> tokenizer.pos == r.next
    {
      var t := ExpectNext([OParenthesis]);
      if t.Fail? { return Fail(t.error); }
      var lo := ParseVector();
      if lo.Fail? { return Fail(lo.error); }
      t := ExpectNext([CParenthesis]);
      if t.Fail? { return Fail(t.error); }
      t := ExpectNext([OParenthesis]);
      if t.Fail? { return Fail(t.error); }
      var hi := ParseVector();
      if hi.Fail? { return Fail(hi.error); }
      t := ExpectNext([CParenthesis]);
      if t.Fail? { return Fail(t.error); }
      return Ok(Repair(Bounds(lo.value, hi.value)), tokenizer.pos);
    }

    /** parseColor: each of the three components is scaled on its own. */
    method ParseColor() returns (r: Res<Color>)
      requires Valid()
      modifies tokenizer
      ensures Valid() && r == G.ParseColor(tokenizer.input, old(tokenizer.pos))
      ensures r.Ok? ==> tokenizer.pos == r.next
    {
      var t := ExpectNext([OParenthesis]);
      if t.Fail? { return Fail(t.error); }
      var raw := ReadNumbers(3, [Decimal, Integer]);
      if raw.Fail? { return Fail(raw.error); }
      t := ExpectNext([CParenthesis]);
      if t.Fail? { return Fail(t.error); }
      var red := ScaleComponent(raw.value[0]);
      var green := ScaleComponent(raw.value[1]);
      var blue := ScaleComponent(raw.value[2]);
      return Ok(Color(red, green, blue, 1.0), tokenizer.pos);
    }

    /** parseSpawnflags: one option per word or minus, with bit values 1, 2, 4, ... */
    method ParseSpawnflags() returns (r: Res<AttributeDefinition>)
      requires Valid()
      modifies tokenizer
      ensures Valid()
      ensures var s := G.Spawnflags(tokenizer.input, old(tokenizer.pos), 0);
              (s.Ok? ==> r == Ok(FlagsAttribute(SpawnflagsName, s.value), s.next) && tokenizer.pos == s.next)
              && (s.Fail? ==> r == Fail(s.error))
    {
      var options: seq<FlagOption> := [];
      var numOptions: nat := 0;
      var t := tokenizer.PeekToken();
      G.PrefixedNothing(G.Spawnflags(tokenizer.input, tokenizer.pos, 0));
      while t.Ok? && (t.value.kind == Word || t.value.kind == Minus)
        invariant Valid() && t == Emit(tokenizer.input, tokenizer.pos)
        invariant G.Spawnflags(tokenizer.input, old(tokenizer.pos), 0)
                  == G.Prefixed(options, G.Spawnflags(tokenizer.input, tokenizer.pos, numOptions))
        decreases |tokenizer.input| - tokenizer.pos
      {
        G.SpawnflagsStep(tokenizer.input, tokenizer.pos, numOptions, options);
        t := tokenizer.NextToken();
        var name := if t.value.kind == Word then Text(tokenizer.input, t.value) else "";
        options := options + [FlagOption(Pow2(numOptions), name)];
        numOptions := numOptions + 1;
        t := tokenizer.PeekToken();
      }
      G.SpawnflagsStep(tokenizer.input, tokenizer.pos, numOptions, options);
      if t.Fail? {
        return Fail(t.error);
      }
      return Ok(FlagsAttribute(SpawnflagsName, options), tokenizer.pos);
    }

    /** parseDefaultAttribute: the attribute is read and ignored. */
    method ParseDefaultAttribute() returns (r: Res<()>)
      requires Valid()
      modifies tokenizer
      ensures Valid() && r == G.ParseDefaultAttribute(tokenizer.input, old(tokenizer.pos))
      ensures r.Ok? ==> tokenizer.pos == r.next
    {
      var t := ExpectNextIgnoringNewlines([OParenthesis]);
      if t.Fail? { return Fail(t.error); }
      t := ExpectNextIgnoringNewlines([QuotedString]);
      if t.Fail? { return Fail(t.error); }
      t := ExpectNextIgnoringNewlines([Comma]);
      if t.Fail? { return Fail(t.error); }
      t := ExpectNextIgnoringNewlines([QuotedString]);
      if t.Fail? { return Fail(t.error); }
      t := ExpectNextIgnoringNewlines([CParenthesis]);
      if t.Fail? { return Fail(t.error); }
      return Ok((), tokenizer.pos);
    }

    /** parseBaseAttribute. */
    method ParseBaseAttribute() returns (r: Res<string>)
      requires Valid()
      modifies tokenizer
      ensures Valid() && r == G.ParseBaseAttribute(tokenizer.input, old(tokenizer.pos))
      ensures r.Ok? ==> tokenizer.pos == r.next
    {
      var t := ExpectNextIgnoringNewlines([OParenthesis]);
      if t.Fail? { return Fail(t.error); }
      var n := ExpectNextIgnoringNewlines([QuotedString]);
      if n.Fail? { return Fail(n.error); }
      t := ExpectNextIgnoringNewlines([CParenthesis]);
      if t.Fail? { return Fail(t.error); }
      return Ok(Text(tokenizer.input, n.value), tokenizer.pos);
    }

    /** One option of parseChoiceAttribute, after its "(". */
    method ParseChoiceOption() returns (r: Res<ChoiceOption>)
      requires Valid()
      modifies tokenizer
      ensures Valid() && r == G.ChoiceOptionAt(tokenizer.input, old(tokenizer.pos))
      ensures r.Ok? ==> tokenizer.pos == r.next
    {
      var k := ExpectNextIgnoringNewlines([Integer]);
      if k.Fail? { return Fail(k.error); }
      var c := ExpectNextIgnoringNewlines([Comma]);
      if c.Fail? { return Fail(c.error); }
      var v := ExpectNextIgnoringNewlines([QuotedString]);
      if v.Fail? { return Fail(v.error); }
      var e := ExpectNextIgnoringNewlines([CParenthesis]);
      if e.Fail? { return Fail(e.error); }
      return Ok(ChoiceOption(Text(tokenizer.input, k.value), Text(tokenizer.input, v.value)), tokenizer.pos);
    }

    /** The option loop of parseChoiceAttribute, from the token t just read. */
    method ParseChoiceOptions(t: Res<Token>) returns (r: Res<seq<ChoiceOption>>)
      requires Valid() && t.Ok? && t.value.begin <= t.value.end <= t.next == tokenizer.pos
      modifies tokenizer
      ensures Valid() && r == G.ChoiceOptions(tokenizer.input, t.value, t.next)
      ensures r.Ok? ==> tokenizer.pos == r.next
    {
      ghost var input := tokenizer.input;
      ghost var goal := G.ChoiceOptions(input, t.value, t.next);
      var u := t;
      var options: seq<ChoiceOption> := [];
      G.PrefixedNothing(goal);
      while u.value.kind == OParenthesis
        invariant Valid() && u.Ok? && tokenizer.pos == u.next
        invariant u.value.begin <= u.value.end <= u.next <= |input|
        invariant goal == G.Prefixed(options, G.ChoiceOptions(input, u.value, u.next))
        decreases |input| - tokenizer.pos
      {
        G.ChoiceStep(input, u.value, u.next, options);
        var o := ParseChoiceOption();
        if o.Fail? { return Fail(o.error); }
        options := options + [o.value];
        u := NextTokenIgnoringNewlines();
        if u.Fail? { return Fail(u.error); }
      }
      if u.value.kind != CParenthesis {
        return Fail(Mismatch(tokenizer.input, [CParenthesis], u.value));
      }
      assert options + [] == options;
      return Ok(options, tokenizer.pos);
    }

    /** parseChoiceAttribute. */
    method ParseChoiceAttribute() returns (r: Res<AttributeDefinition>)
      requires Valid()
      modifies tokenizer
      ensures Valid() && r == G.ParseChoiceAttribute(tokenizer.input, old(tokenizer.pos))
      ensures r.Ok? ==> tokenizer.pos == r.next
    {
      var n := ExpectNext([QuotedString]);
      if n.Fail? { return Fail(n.error); }
      var o := ExpectNextIgnoringNewlines([OParenthesis]);
      if o.Fail? { return Fail(o.error); }
      var t := NextTokenIgnoringNewlines();
      if t.Fail? { return Fail(t.error); }
      var options := ParseChoiceOptions(t);
      if options.Fail? { return Fail(options.error); }
      return Ok(ChoiceAttribute(Text(tokenizer.input, n.value), options.value), tokenizer.pos);
    }

    /** One sub-parser run: it moves the shared cursor to where it stops, then ")" must follow. */
    method TryModel(parser: SubParser) returns (r: Res<ModelDefinition>)
      requires Valid()
      modifies tokenizer
      ensures Valid() && r == G.TryModel(tokenizer.input, old(tokenizer.pos), parser)
      ensures r.Ok? ==> tokenizer.pos == r.next
    {
      var attempt := parser(tokenizer.input, tokenizer.pos);
      if attempt.Rejected? {
        return Fail(attempt.error);
      }
      tokenizer.MoveTo(G.Landing(tokenizer.input, tokenizer.pos, attempt.end));
      var c := ExpectNext([CParenthesis]);
      if c.Fail? {
        return Fail(c.error);
      }
      return Ok(attempt.model, tokenizer.pos);
    }

    /** parseModel. */
    method ParseModel() returns (r: Res<ModelDefinition>)
      requires Valid()
      modifies this, tokenizer
      ensures Valid() && baseClasses == old(baseClasses)
      ensures var s := G.ParseModel(tokenizer.input, old(tokenizer.pos), env);
              r == G.Dropped(s)
              && (s.Ok? ==> tokenizer.pos == s.next && warnings == old(warnings) + s.value.warnings)
              && (s.Fail? ==> warnings == old(warnings))
      ensures var o := G.NextOf(tokenizer.input, old(tokenizer.pos), [OParenthesis]);
              o.Ok? && r.Fail? ==> tokenizer.pos == o.next
    {
      var o := ExpectNext([OParenthesis]);
      if o.Fail? { return Fail(o.error); }
      r := ModelAlternatives();
    }

    /** The speculative part of parseModel: on failure of both grammars the
        tokenizer is put back where it was, just after "(". */
    method ModelAlternatives() returns (r: Res<ModelDefinition>)
      requires Valid()
      modifies this, tokenizer
      ensures Valid() && baseClasses == old(baseClasses)
      ensures var s := G.ModelAlternatives(tokenizer.input, old(tokenizer.pos), env);
              r == G.Dropped(s)
              && (s.Ok? ==> tokenizer.pos == s.next && warnings == old(warnings) + s.value.warnings)
              && (s.Fail? ==> warnings == old(warnings) && tokenizer.pos == old(tokenizer.pos))
    {
      ghost var input := tokenizer.input;
      var snapshot := tokenizer.CurrentSnapshot();
      var line, column := tokenizer.line, tokenizer.column;
      assert (line, column) == LineCol(input, tokenizer.pos);
      var expression := TryModel(env.expressionParser);
      if expression.Ok? {
        return expression;
      }
      tokenizer.Restore(snapshot);
      var legacy := TryModel(env.legacyParser);
      if legacy.Ok? {
        warnings := warnings + [G.LegacyWarning((line, column), legacy.value)];
        return legacy;
      }
      tokenizer.Restore(snapshot);
      return Fail(expression.error);
    }

    /** The keyword dispatch of parseAttribute. */
    method AttributeBody(keyword: string, b: G.Block) returns (r: Res<G.Block>)
      requires Valid()
      modifies this, tokenizer
      ensures Valid() && baseClasses == old(baseClasses)
      ensures var s := G.AttributeBody(tokenizer.input, old(tokenizer.pos), keyword, b, env);
              r == G.Dropped(s) && (s.Ok? ==> tokenizer.pos == s.next && warnings == old(warnings) + s.value.warnings)
    {
      if keyword == "default" {
        var d := ParseDefaultAttribute();
        if d.Fail? { return Fail(d.error); }
        return Ok(b, tokenizer.pos);
      } else if keyword == "base" {
        var n := ParseBaseAttribute();
        if n.Fail? { return Fail(n.error); }
        return Ok(b.(superClasses := b.superClasses + [n.value]), tokenizer.pos);
      } else if keyword == "choice" {
        var c := ParseChoiceAttribute();
        if c.Fail? { return Fail(c.error); }
        return Ok(b.(info := b.info.(attributes := b.info.attributes + [c.value])), tokenizer.pos);
      } else if keyword == "model" {
        var m := ParseModel();
        if m.Fail? { return Fail(m.error); }
        return Ok(b.(info := b.info.(model := Some(m.value))), tokenizer.pos);
      }
      return Ok(b, tokenizer.pos);
    }

    /** parseAttribute: false at the closing brace. */
    method ParseAttribute(b: G.Block) returns (r: Res<G.Step>)
      requires Valid()
      modifies this, tokenizer
      ensures Valid() && baseClasses == old(baseClasses)
      ensures var s := G.ParseAttribute(tokenizer.input, old(tokenizer.pos), b, env);
              r == G.Dropped(s) && (s.Ok? ==> tokenizer.pos == s.next && warnings == old(warnings) + s.value.warnings)
    {
      var t := ExpectNextIgnoringNewlines([Word, CBrace]);
      if t.Fail? { return Fail(t.error); }
      if t.value.kind != Word {
        return Ok(G.Step(false, b), tokenizer.pos);
      }
      var body := AttributeBody(Text(tokenizer.input, t.value), b);
      if body.Fail? { return Fail(body.error); }
      var semi := ExpectNextIgnoringNewlines([Semicolon]);
      if semi.Fail? { return Fail(semi.error); }
      return Ok(G.Step(true, body.value), tokenizer.pos);
    }

    /** parseAttributes: an attribute block only when "{" follows. */
    method ParseAttributes(b: G.Block) returns (r: Res<G.Block>)
      requires Valid()
      modifies this, tokenizer
      ensures Valid() && baseClasses == old(baseClasses)
      ensures var s := G.ParseAttributes(tokenizer.input, old(tokenizer.pos), b, env);
              r == G.Dropped(s) && (s.Ok? ==> tokenizer.pos == s.next && warnings == old(warnings) + s.value.warnings)
    {
      var t := tokenizer.PeekToken();
      if t.Fail? { return Fail(t.error); }
      if t.value.kind != OBrace {
        return Ok(b, tokenizer.pos);
      }
      t := tokenizer.NextToken();
      r := AttributeList(b);
    }

    /** while (parseAttribute(status, classInfo, superClasses)); */
    method AttributeList(b: G.Block) returns (r: Res<G.Block>)
      requires Valid()
      modifies this, tokenizer
      ensures Valid() && baseClasses == old(baseClasses)
      ensures var s := G.AttributeList(tokenizer.input, old(tokenizer.pos), b, env);
              r == G.Dropped(s) && (s.Ok? ==> tokenizer.pos == s.next && warnings == old(warnings) + s.value.warnings)
    {
      ghost var input := tokenizer.input;
      ghost var goal := G.AttributeList(input, tokenizer.pos, b, env);
      ghost var logged: seq<Warning> := [];
      var block := b;
      G.AfterNoWarnings(goal);
      while true
        invariant Valid() && baseClasses == old(baseClasses)
        invariant warnings == old(warnings) + logged
        invariant goal == G.AfterWarnings(logged, G.AttributeList(input, tokenizer.pos, block, env))
        decreases |input| - tokenizer.pos
      {
        ghost var s := G.ParseAttribute(input, tokenizer.pos, block, env);
        G.AttributeListStep(input, tokenizer.pos, block, env, logged);
        var step := ParseAttribute(block);
        if step.Fail? {
          return Fail(step.error);
        }
        AppendAssociative(old(warnings), logged, s.value.warnings);
        logged := logged + s.value.warnings;
        block := step.value.block;
        if !step.value.more {
          return Ok(block, tokenizer.pos);
        }
      }
    }

    /** parseDescription. */
    method ParseDescription() returns (r: Res<string>)
      requires Valid()
      modifies tokenizer
      ensures Valid() && r == G.ParseDescription(tokenizer.input, old(tokenizer.pos))
      ensures r.Ok? ==> tokenizer.pos == r.next
    {
      var t := tokenizer.PeekToken();
      if t.Fail? { return Fail(t.error); }
      if t.value.kind == CDefinition {
        return Ok("", tokenizer.pos);
      }
      r := tokenizer.ReadRemainder();
    }

    /** The header of a class after its name: colour, size and spawnflags. */
    method ParseHeader(name: string) returns (r: Res<ClassInfo>)
      requires Valid()
      modifies tokenizer
      ensures Valid() && r == G.ParseHeader(tokenizer.input, old(tokenizer.pos), name)
      ensures r.Ok? ==> tokenizer.pos == r.next
    {
      var t := ExpectPeek([OParenthesis, Newline]);
      if t.Fail? { return Fail(t.error); }
      if t.value.kind != OParenthesis {
        return Ok(ClassInfo(name, None, None, "", [], None), tokenizer.pos);
      }
      var color := ParseColor();
      if color.Fail? { return Fail(color.error); }
      ghost var p1 := tokenizer.pos;
      t := ExpectPeek([OParenthesis, Word]);
      if t.Fail? { return Fail(t.error); }
      var size: Option<Bounds> := None;
      if t.value.kind == OParenthesis {
        var bounds := ParseBounds();
        if bounds.Fail? { return Fail(bounds.error); }
        size := Some(bounds.value);
      } else if Text(tokenizer.input, t.value) == "?" {
        var _ := tokenizer.NextToken();
      }
      assert G.ParseSize(tokenizer.input, p1, t.value, t.next) == Ok(size, tokenizer.pos);
      var attributes: seq<AttributeDefinition> := [];
      t := tokenizer.PeekToken();
      if t.Fail? { return Fail(t.error); }
      if t.value.kind == Word || t.value.kind == Minus {
        var flags := ParseSpawnflags();
        if flags.Fail? { return Fail(flags.error); }
        attributes := [flags.value];
      }
      return Ok(ClassInfo(name, Some(color.value), size, "", attributes, None), tokenizer.pos);
    }

    /** One class block after its open marker. */
    method ParseBlockBody() returns (r: Res<G.Block>)
      requires Valid()
      modifies this, tokenizer
      ensures Valid() && baseClasses == old(baseClasses)
      ensures var s := G.ParseBlockBody(tokenizer.input, old(tokenizer.pos), env);
              r == G.Dropped(s) && (s.Ok? ==> tokenizer.pos == s.next && warnings == old(warnings) + s.value.warnings)
    {
      var n := ExpectNext([Word]);
      if n.Fail? { return Fail(n.error); }
      var header := ParseHeader(Text(tokenizer.input, n.value));
      if header.Fail? { return Fail(header.error); }
      var t := ExpectNext([Newline]);
      if t.Fail? { return Fail(t.error); }
      var b := ParseAttributes(G.Block(header.value, []));
      if b.Fail? { return Fail(b.error); }
      var description := ParseDescription();
      if description.Fail? { return Fail(description.error); }
      t := ExpectNext([CDefinition]);
      if t.Fail? { return Fail(t.error); }
      var block := b.value;
      return Ok(block.(info := block.info.(description := Trim(description.value))), tokenizer.pos);
    }

    /** The skipping loop of parseDefinition: tokens are read up to an open marker or the end. */
    method SkipToBlock() returns (r: Res<Token>)
      requires Valid()
      modifies tokenizer
      ensures Valid() && r == G.SkipToBlock(tokenizer.input, old(tokenizer.pos))
      ensures r.Ok? ==> tokenizer.pos == r.next
    {
      ghost var q: nat := tokenizer.pos;
      r := tokenizer.NextToken();
      while r.Ok? && r.value.kind != Eof && r.value.kind != ODefinition
        invariant Valid() && q <= |tokenizer.input| && r == Emit(tokenizer.input, q)
        invariant r.Ok? ==> tokenizer.pos == r.next
        invariant G.SkipToBlock(tokenizer.input, q) == G.SkipToBlock(tokenizer.input, old(tokenizer.pos))
        decreases if r.Ok? && r.value.kind != Eof && r.value.kind != ODefinition then |tokenizer.input| - r.next + 1 else 0
      {
        q := tokenizer.pos;
        r := tokenizer.NextToken();
      }
    }

    /** The next class block, or None at the end of the input. */
    method NextBlock() returns (r: Res<Option<G.Block>>)
      requires Valid()
      modifies this, tokenizer
      ensures Valid() && baseClasses == old(baseClasses)
      ensures var s := G.NextBlock(tokenizer.input, old(tokenizer.pos), env);
              r == G.Dropped(s) && (s.Ok? ==> tokenizer.pos == s.next && warnings == old(warnings) + s.value.warnings)
    {
      var t := SkipToBlock();
      if t.Fail? { return Fail(t.error); }
      if t.value.kind == Eof {
        return Ok(None, tokenizer.pos);
      }
      var b := ParseBlockBody();
      if b.Fail? { return Fail(b.error); }
      return Ok(Some(b.value), tokenizer.pos);
    }

    /** parseDefinition: the next class with a colour, after storing those without. */
    method ParseDefinition() returns (r: Res<Option<EntityDefinition>>)
      requires Valid()
      modifies this, tokenizer
      ensures Valid()
      ensures var s := G.ParseDefinition(tokenizer.input, old(tokenizer.pos), old(baseClasses), env);
              (s.Ok? ==> r == Ok(s.value.definition, s.next) && tokenizer.pos == s.next
                         && baseClasses == s.value.baseClasses && warnings == old(warnings) + s.value.warnings)
              && (s.Fail? ==> r == Fail(s.error))
      decreases |tokenizer.input| - tokenizer.pos
    {
      ghost var input := tokenizer.input;
      ghost var nb := G.NextBlock(input, tokenizer.pos, env);
      G.ParseDefinitionCases(input, tokenizer.pos, baseClasses, env);
      var b := NextBlock();
      if b.Fail? { return Fail(b.error); }
      if b.value.None? {
        return Ok(None, tokenizer.pos);
      }
      var block := b.value.value;
      if block.info.color.Some? {
        var info := env.resolve(block.info, baseClasses, block.superClasses);
        return Ok(Some(Finalize(info, env.defaultColor)), tokenizer.pos);
      }
      baseClasses := baseClasses[block.info.name := block.info];
      ghost var rest := G.ParseDefinition(input, tokenizer.pos, baseClasses, env);
      r := ParseDefinition();
      if rest.Ok? {
        AppendAssociative(old(warnings), nb.value.warnings, rest.value.warnings);
      }
    }

    /** doParseDefinitions: every class descriptor in the input, or the first error. */
    method ParseDefinitions() returns (r: Result<seq<EntityDefinition>>)
      requires Valid()
      modifies this, tokenizer
      ensures Valid()
      ensures var s := G.ParseDefinitions(tokenizer.input, old(tokenizer.pos), old(baseClasses), env);
              (s.Ok? ==> r == Success(s.value.definitions) && tokenizer.pos == s.next
                         && baseClasses == s.value.baseClasses && warnings == old(warnings) + s.value.warnings)
              && (s.Fail? ==> r == Failure(s.error))
    {
      ghost var input := tokenizer.input;
      ghost var goal := G.ParseDefinitions(input, tokenizer.pos, baseClasses, env);
      var definitions: seq<EntityDefinition> := [];
      ghost var logged: seq<Warning> := [];
      G.ExtendedNothing(goal);
      while true
        invariant Valid() && warnings == old(warnings) + logged
        invariant goal == G.Extended(definitions, logged, G.ParseDefinitions(input, tokenizer.pos, baseClasses, env))
        decreases |input| - tokenizer.pos
      {
        ghost var s := G.ParseDefinition(input, tokenizer.pos, baseClasses, env);
        G.DefinitionsStep(input, tokenizer.pos, baseClasses, env, definitions, logged);
        var d := ParseDefinition();
        if d.Fail? {
          return Failure(d.error);
        }
        AppendAssociative(old(warnings), logged, s.value.warnings);
        logged := logged + s.value.warnings;
        if d.value.None? {
          return Success(definitions);
        }
        definitions := definitions + [d.value.value];
      }
    }
  }
}
