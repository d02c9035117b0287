/** What DefParser promises about what it reads: the first-match searches,
    spawnflag bit numbering, the numbers of vectors, bounds and colours, the
    header, the attribute block, the model fallback, and the list of class
    descriptors as a function of the blocks in the input. */
module GrammarProperties {
  import opened DefSyntax
  import opened DefLexer
  import opened EntityModel
  import opened DefGrammar
  import LexerProperties

  // ---- token searches ----------------------------------------------------------

  /** Reading from q to e passes over newline tokens only. */
  predicate NewlinesBetween(input: seq<char>, q: nat, e: nat)
    requires q <= e <= |input|
    decreases e - q
  {
    q == e
    || (Emit(input, q).Ok? && Emit(input, q).value.kind == Newline
        && q < Emit(input, q).next <= e && NewlinesBetween(input, Emit(input, q).next, e))
  }

  /** nextTokenIgnoringNewlines gives the first token that is not a newline: the one
      read at some s that only newlines precede. */
  lemma {:induction false} SkippingNewlinesFirst(input: seq<char>, p: nat)
    requires p <= |input|
    requires NextSkippingNewlines(input, p).Ok?
    ensures exists s :: p <= s <= |input| && NewlinesBetween(input, p, s)
                        && Emit(input, s) == NextSkippingNewlines(input, p)
    decreases |input| - p
  {
    var t := Emit(input, p);
    if t.value.kind == Newline {
      SkippingNewlinesFirst(input, t.next);
      var s :| t.next <= s <= |input| && NewlinesBetween(input, t.next, s)
                && Emit(input, s) == NextSkippingNewlines(input, t.next);
      assert NewlinesBetween(input, p, s);
    } else {
      assert NewlinesBetween(input, p, p);
    }
  }

  /** Conversely, after newlines only, the first other token read (or the error
      raised reading it) is what nextTokenIgnoringNewlines gives. */
  lemma {:induction false} SkippingNewlinesAt(input: seq<char>, p: nat, s: nat)
    requires p <= s <= |input| && NewlinesBetween(input, p, s)
    requires Emit(input, s).Fail? || Emit(input, s).value.kind != Newline
    ensures NextSkippingNewlines(input, p) == Emit(input, s)
    decreases s - p
  {
    if p != s {
      SkippingNewlinesAt(input, Emit(input, p).next, s);
    }
  }

  /** expect after nextTokenIgnoringNewlines: a token of another kind is reported as
      not being one of kinds, and an error reading it is passed on. */
  lemma SkippingOfFails(input: seq<char>, p: nat, kinds: seq<TokenKind>)
    requires p <= |input|
    ensures var t := NextSkippingNewlines(input, p);
            && (t.Ok? && t.value.kind !in kinds ==> NextSkippingOf(input, p, kinds) == Fail(Mismatch(input, kinds, t.value)))
            && (t.Fail? ==> NextSkippingOf(input, p, kinds) == Fail(t.error))
  {
  }

  /** Reading from q to e passes over no open marker and not the end of the input. */
  predicate NoOpenBetween(input: seq<char>, q: nat, e: nat)
    requires q <= e <= |input|
    decreases e - q
  {
    q == e
    || (Emit(input, q).Ok? && Emit(input, q).value.kind != ODefinition && Emit(input, q).value.kind != Eof
        && q < Emit(input, q).next <= e && NoOpenBetween(input, Emit(input, q).next, e))
  }

  /** The skipping loop of parseDefinition stops at the first open marker or the end
      of the input: the token read at some s that no open marker precedes. */
  lemma {:induction false} SkipToBlockFirst(input: seq<char>, p: nat)
    requires p <= |input|
    requires SkipToBlock(input, p).Ok?
    ensures exists s :: p <= s <= |input| && NoOpenBetween(input, p, s)
                        && Emit(input, s) == SkipToBlock(input, p)
    decreases |input| - p
  {
    var t := Emit(input, p);
    if t.value.kind != Eof && t.value.kind != ODefinition {
      SkipToBlockFirst(input, t.next);
      var s :| t.next <= s <= |input| && NoOpenBetween(input, t.next, s)
                && Emit(input, s) == SkipToBlock(input, t.next);
      assert NoOpenBetween(input, p, s);
    } else {
      assert NoOpenBetween(input, p, p);
    }
  }

  /** Conversely, past tokens that are no open marker, the open marker or end of input
      read next (or the error raised reading it) is where the loop stops. */
  lemma {:induction false} SkipToBlockAt(input: seq<char>, p: nat, s: nat)
    requires p <= s <= |input| && NoOpenBetween(input, p, s)
    requires Emit(input, s).Fail? || Emit(input, s).value.kind in {Eof, ODefinition}
    ensures SkipToBlock(input, p) == Emit(input, s)
    decreases s - p
  {
    if p != s {
      SkipToBlockAt(input, Emit(input, p).next, s);
    }
  }

  /** Input with no open marker up to its end holds no further block: parseDefinition
      returns nothing, warns of nothing, and leaves the cursor at the end. */
  lemma NoBlockLeft(input: seq<char>, p: nat, env: Collaborators)
    requires p <= |input| && NoOpenBetween(input, p, |input|)
    ensures NextBlock(input, p, env) == Ok(Logged(None, []), |input|)
  {
    SkipToBlockAt(input, p, |input|);
  }

  // ---- spawnflags -------------------------------------------------------------

  /** Each bit position is worth twice the one before. */
  lemma {:induction false} Pow2Increasing(i: nat, j: nat)
    requires i < j
    ensures Pow2(i) < Pow2(j)
    decreases j
  {
    if i < j - 1 {
      Pow2Increasing(i, j - 1);
    }
  }

  /** Options numbered from bit position k on, one position each, in order. */
  predicate BitsFrom(opts: seq<FlagOption>, k: nat)
  {
    forall i :: 0 <= i < |opts| ==> opts[i].value == Pow2(k + i)
  }

  lemma BitsFromCons(o: FlagOption, rest: seq<FlagOption>, k: nat)
    requires o.value == Pow2(k) && BitsFrom(rest, k + 1)
    ensures BitsFrom([o] + rest, k)
  {
    var opts := [o] + rest;
    forall i | 0 <= i < |opts|
      ensures opts[i].value == Pow2(k + i)
    {
      if i > 0 {
        var j := i - 1;
        assert opts[i] == rest[j];
      }
    }
  }

  /** The options read from the k-th on carry the bit values 1 << k, 1 << (k + 1), ...
      in declaration order, and the run stops at the first token that is neither a
      word nor a minus. */
  lemma {:induction false} SpawnflagsBits(input: seq<char>, p: nat, k: nat)
    requires p <= |input|
    requires Spawnflags(input, p, k).Ok?
    ensures BitsFrom(Spawnflags(input, p, k).value, k)
    ensures var q := Spawnflags(input, p, k).next;
            Emit(input, q).Ok? && Emit(input, q).value.kind != Word && Emit(input, q).value.kind != Minus
    decreases |input| - p
  {
    var t := Emit(input, p);
    var r := Spawnflags(input, p, k);
    if t.value.kind == Word || t.value.kind == Minus {
      var name := if t.value.kind == Word then Text(input, t.value) else "";
      var rest := Spawnflags(input, t.next, k + 1);
      assert r == Ok([FlagOption(Pow2(k), name)] + rest.value, rest.next);
      SpawnflagsBits(input, t.next, k + 1);
      BitsFromCons(FlagOption(Pow2(k), name), rest.value, k);
    } else {
      assert r == Ok([], p);
    }
  }

  /** All options of a spawnflags clause have different bits, increasing in order. */
  lemma SpawnflagsDistinctBits(input: seq<char>, p: nat)
    requires p <= |input|
    requires Spawnflags(input, p, 0).Ok?
    ensures var r := Spawnflags(input, p, 0).value;
            forall i, j :: 0 <= i < j < |r| ==> r[i].value < r[j].value
  {
    SpawnflagsBits(input, p, 0);
    var r := Spawnflags(input, p, 0).value;
    forall i, j | 0 <= i < j < |r|
      ensures r[i].value < r[j].value
    {
      Pow2Increasing(i, j);
    }
  }

  /** The word and minus tokens a spawnflags clause consists of, in order: the run
      of such tokens from p on. They follow one another without overlapping. */
  function FlagRun(input: seq<char>, p: nat): (run: seq<Token>)
    requires p <= |input|
    ensures forall i :: 0 <= i < |run| ==> p <= run[i].begin <= run[i].end <= |input|
    ensures forall i :: 0 <= i < |run| - 1 ==> run[i].end <= run[i + 1].begin
    decreases |input| - p
  {
    match Emit(input, p)
    case Fail(_) => []
    case Ok(t, q) => if t.kind == Word || t.kind == Minus then [t] + FlagRun(input, q) else []
  }

  /** The short description a flag token gives: a word's text, nothing for a minus. */
  function FlagName(input: seq<char>, t: Token): string
    requires t.begin <= t.end <= |input|
  {
    if t.kind == Word then Text(input, t) else ""
  }

  /** opts are the options made of the tokens run, numbered from bit position k. */
  predicate OptionsOf(input: seq<char>, opts: seq<FlagOption>, run: seq<Token>, k: nat)
  {
    |opts| == |run|
    && forall i :: 0 <= i < |run| ==>
         run[i].kind in {Word, Minus} && run[i].begin <= run[i].end <= |input|
         && opts[i] == FlagOption(Pow2(k + i), FlagName(input, run[i]))
  }

  lemma OptionsOfCons(input: seq<char>, o: FlagOption, opts: seq<FlagOption>, t: Token, run: seq<Token>, k: nat)
    requires t.kind in {Word, Minus} && t.begin <= t.end <= |input|
    requires o == FlagOption(Pow2(k), FlagName(input, t)) && OptionsOf(input, opts, run, k + 1)
    ensures OptionsOf(input, [o] + opts, [t] + run, k)
  {
    var opts', run' := [o] + opts, [t] + run;
    forall i | 0 <= i < |run'|
      ensures run'[i].kind in {Word, Minus} && run'[i].begin <= run'[i].end <= |input|
              && opts'[i] == FlagOption(Pow2(k + i), FlagName(input, run'[i]))
    {
      if i > 0 {
        var j := i - 1;
        assert opts'[i] == opts[j] && run'[i] == run[j];
      }
    }
  }

  /** Every option of a spawnflags clause comes from one word or minus token of the
      run, in declaration order: the i-th option has bit 1 << (k + i) and is named
      by the i-th token's text when it is a word, and has an empty name when it is
      a minus. */
  lemma {:induction false} SpawnflagsOptions(input: seq<char>, p: nat, k: nat)
    requires p <= |input|
    requires Spawnflags(input, p, k).Ok?
    ensures OptionsOf(input, Spawnflags(input, p, k).value, FlagRun(input, p), k)
    decreases |input| - p
  {
    var t := Emit(input, p);
    var r := Spawnflags(input, p, k);
    if t.value.kind == Word || t.value.kind == Minus {
      var rest := Spawnflags(input, t.next, k + 1);
      var o := FlagOption(Pow2(k), FlagName(input, t.value));
      assert r == Ok([o] + rest.value, rest.next);
      var run' := FlagRun(input, t.next);
      assert FlagRun(input, p) == [t.value] + run';
      SpawnflagsOptions(input, t.next, k + 1);
      OptionsOfCons(input, o, rest.value, t.value, run', k);
    } else {
      assert r == Ok([], p);
      assert FlagRun(input, p) == [];
    }
  }

  // ---- numbers, vectors and bounds ---------------------------------------------

  /** The n tokens read one after another from p (fewer if a read fails). */
  function NumberRun(input: seq<char>, p: nat, n: nat): (run: seq<Token>)
    requires p <= |input|
    ensures |run| <= n
    ensures forall i :: 0 <= i < |run| ==> p <= run[i].begin <= run[i].end <= |input|
    ensures forall i :: 0 <= i < |run| - 1 ==> run[i].end <= run[i + 1].begin
    decreases n
  {
    if n == 0 then []
    else
      match Emit(input, p)
      case Fail(_) => []
      case Ok(t, q) => [t] + NumberRun(input, q, n - 1)
  }

  /** The values of the tokens of run, in order. */
  function RunValues(input: seq<char>, run: seq<Token>): (xs: seq<real>)
    requires forall i :: 0 <= i < |run| ==> run[i].begin <= run[i].end <= |input|
    ensures |xs| == |run|
  {
    if run == [] then [] else [NumberValue(Text(input, run[0]))] + RunValues(input, run[1..])
  }

  /** The i-th value is the value of the i-th token's text. */
  lemma {:induction false} RunValuesAt(input: seq<char>, run: seq<Token>, i: nat)
    requires forall k :: 0 <= k < |run| ==> run[k].begin <= run[k].end <= |input|
    requires i < |run|
    ensures RunValues(input, run)[i] == NumberValue(Text(input, run[i]))
    decreases i
  {
    if i > 0 {
      RunValuesAt(input, run[1..], i - 1);
      assert run[1..][i - 1] == run[i];
    }
  }

  /** xs are the values of the number tokens run, whose kinds are among kinds. */
  predicate ValuesOf(input: seq<char>, xs: seq<real>, run: seq<Token>, kinds: seq<TokenKind>)
  {
    && (forall i :: 0 <= i < |run| ==> run[i].kind in kinds && run[i].begin <= run[i].end <= |input|)
    && xs == RunValues(input, run)
  }

  lemma ValuesOfCons(input: seq<char>, x: real, xs: seq<real>, t: Token, run: seq<Token>, kinds: seq<TokenKind>)
    requires t.kind in kinds && t.begin <= t.end <= |input|
    requires x == NumberValue(Text(input, t)) && ValuesOf(input, xs, run, kinds)
    ensures ValuesOf(input, [x] + xs, [t] + run, kinds)
  {
    var run' := [t] + run;
    assert run'[0] == t && run'[1..] == run;
    forall i | 0 <= i < |run'|
      ensures run'[i].kind in kinds && run'[i].begin <= run'[i].end <= |input|
    {
      if i > 0 {
        assert run'[i] == run[i - 1];
      }
    }
  }

  /** The components read are the values of the next n tokens, in order, each of
      an expected kind. */
  lemma {:induction false} NumbersRead(input: seq<char>, p: nat, n: nat, kinds: seq<TokenKind>)
    requires p <= |input| && Eof !in kinds
    requires Numbers(input, p, n, kinds).Ok?
    ensures |NumberRun(input, p, n)| == n
    ensures ValuesOf(input, Numbers(input, p, n, kinds).value, NumberRun(input, p, n), kinds)
    decreases n
  {
    if n == 0 {
      assert Numbers(input, p, n, kinds).value == [];
      assert NumberRun(input, p, n) == [];
    } else {
      var t := Emit(input, p);
      var x := Number(input, p, kinds);
      var rest := Numbers(input, x.next, n - 1, kinds);
      assert x == Ok(NumberValue(Text(input, t.value)), t.next);
      assert Numbers(input, p, n, kinds).value == [x.value] + rest.value;
      assert NumberRun(input, p, n) == [t.value] + NumberRun(input, t.next, n - 1);
      NumbersRead(input, x.next, n - 1, kinds);
      ValuesOfCons(input, x.value, rest.value, t.value, NumberRun(input, t.next, n - 1), kinds);
    }
  }

  /** Three values of three number tokens, one by one. */
  lemma ValuesOfThree(input: seq<char>, xs: seq<real>, run: seq<Token>, kinds: seq<TokenKind>)
    requires |run| == 3 && ValuesOf(input, xs, run, kinds)
    ensures forall i :: 0 <= i < 3 ==> run[i].kind in kinds && run[i].begin <= run[i].end <= |input|
    ensures |xs| == 3
    ensures xs[0] == NumberValue(Text(input, run[0]))
    ensures xs[1] == NumberValue(Text(input, run[1]))
    ensures xs[2] == NumberValue(Text(input, run[2]))
  {
    RunValuesAt(input, run, 0);
    RunValuesAt(input, run, 1);
    RunValuesAt(input, run, 2);
  }

  /** A vector is the values of the next three integer or decimal tokens. */
  lemma VectorComponents(input: seq<char>, p: nat)
    requires p <= |input|
    requires ParseVector(input, p).Ok?
    ensures var run := NumberRun(input, p, 3);
            |run| == 3 && (forall i :: 0 <= i < 3 ==> run[i].kind in [Integer, Decimal])
            && ParseVector(input, p).value
               == Vec3(NumberValue(Text(input, run[0])), NumberValue(Text(input, run[1])),
                       NumberValue(Text(input, run[2])))
  {
    var ns := Numbers(input, p, 3, [Integer, Decimal]);
    NumbersRead(input, p, 3, [Integer, Decimal]);
    ValuesOfThree(input, ns.value, NumberRun(input, p, 3), [Integer, Decimal]);
  }

  /** A box is "(" vector ")" "(" vector ")", and on every axis its low and high
      ends are the two vectors' components, in whichever order makes min <= max. */
  lemma BoundsCorners(input: seq<char>, p: nat)
    requires p <= |input|
    requires ParseBounds(input, p).Ok?
    ensures var o1 := Emit(input, p);
            o1.Ok? && o1.value.kind == OParenthesis
            && var lo := ParseVector(input, o1.next);
               lo.Ok? && var c1 := Emit(input, lo.next);
               c1.Ok? && c1.value.kind == CParenthesis
               && var o2 := Emit(input, c1.next);
                  o2.Ok? && o2.value.kind == OParenthesis
                  && var hi := ParseVector(input, o2.next);
                     hi.Ok? && var c2 := Emit(input, hi.next);
                     && c2.Ok? && c2.value.kind == CParenthesis
                     && var r := ParseBounds(input, p);
                        && r.next == c2.next
                        && {r.value.min.x, r.value.max.x} == {lo.value.x, hi.value.x}
                        && {r.value.min.y, r.value.max.y} == {lo.value.y, hi.value.y}
                        && {r.value.min.z, r.value.max.z} == {lo.value.z, hi.value.z}
  {
  }

  // ---- colour -----------------------------------------------------------------

  /** A channel given in [0, 255] ends up in [0, 1], and scaling it again changes nothing. */
  lemma ScaledChannel(raw: real)
    requires 0.0 <= raw <= 255.0
    ensures 0.0 <= ScaleComponent(raw) <= 1.0
    ensures ScaleComponent(ScaleComponent(raw)) == ScaleComponent(raw)
  {
  }

  /** parseColor unfolded: "(", the three components, ")". */
  lemma ColorRead(input: seq<char>, p: nat)
    requires p <= |input|
    requires ParseColor(input, p).Ok?
    ensures var o := Emit(input, p);
            o.Ok? && o.value.kind == OParenthesis
            && var ns := Numbers(input, o.next, 3, [Decimal, Integer]);
               && ns.Ok? && var c := Emit(input, ns.next);
               && c.Ok? && c.value.kind == CParenthesis
               && ParseColor(input, p)
                  == Ok(Color(ScaleComponent(ns.value[0]), ScaleComponent(ns.value[1]), ScaleComponent(ns.value[2]), 1.0), c.next)
  {
  }

  /** A colour is "(" followed by three number tokens: channel i is the value of
      the i-th token, scaled on its own, and alpha is 1. */
  lemma ColorChannels(input: seq<char>, p: nat)
    requires p <= |input|
    requires ParseColor(input, p).Ok?
    ensures var o := Emit(input, p);
            o.Ok? && o.value.kind == OParenthesis
            && var run := NumberRun(input, o.next, 3);
               && |run| == 3 && (forall i :: 0 <= i < 3 ==> run[i].kind in [Decimal, Integer])
               && var c := ParseColor(input, p).value;
                  && c.r == ScaleComponent(NumberValue(Text(input, run[0])))
                  && c.g == ScaleComponent(NumberValue(Text(input, run[1])))
                  && c.b == ScaleComponent(NumberValue(Text(input, run[2])))
                  && c.a == 1.0
  {
    var o := Emit(input, p);
    var ns := Numbers(input, o.next, 3, [Decimal, Integer]);
    ColorRead(input, p);
    NumbersRead(input, o.next, 3, [Decimal, Integer]);
    ValuesOfThree(input, ns.value, NumberRun(input, o.next, 3), [Decimal, Integer]);
  }

  /** The colour's ")" comes right after the three numbers, and reading it ends the colour. */
  lemma ColorClosed(input: seq<char>, p: nat)
    requires p <= |input|
    requires ParseColor(input, p).Ok?
    ensures var o := Emit(input, p);
            o.Ok? && var ns := Numbers(input, o.next, 3, [Decimal, Integer]);
            && ns.Ok? && var c := Emit(input, ns.next);
            && c.Ok? && c.value.kind == CParenthesis && ParseColor(input, p).next == c.next
  {
    ColorRead(input, p);
  }

  // ---- choice attribute -------------------------------------------------------

  /** From s on, the non-newline tokens are an integer, ",", a quoted string and ")",
      and o is the option they make: the integer's text and the string's text. */
  predicate OptionGroup(input: seq<char>, s: nat, o: ChoiceOption)
    requires s <= |input|
  {
    var k := NextSkippingNewlines(input, s);
    k.Ok? && k.value.kind == Integer && o.key == Text(input, k.value)
    && var c := NextSkippingNewlines(input, k.next);
       c.Ok? && c.value.kind == Comma
       && var v := NextSkippingNewlines(input, c.next);
          v.Ok? && v.value.kind == QuotedString && o.value == Text(input, v.value)
          && var e := NextSkippingNewlines(input, v.next);
             e.Ok? && e.value.kind == CParenthesis
  }

  /** Where the groups of a choice list start: just after each "(", for as long as
      groups are read. */
  function ChoiceStarts(input: seq<char>, t: Token, q: nat): (starts: seq<nat>)
    requires t.begin <= t.end <= q <= |input|
    ensures forall i :: 0 <= i < |starts| ==> q <= starts[i] <= |input|
    decreases |input| - q
  {
    if t.kind != OParenthesis then []
    else
      var o := ChoiceOptionAt(input, q);
      if o.Fail? then []
      else
        var u := NextSkippingNewlines(input, o.next);
        if u.Fail? then [q]
        else
          var rest := ChoiceStarts(input, u.value, u.next);
          assert q < u.next;
          [q] + rest
  }

  /** A start below every later start keeps a list of starts ascending. */
  lemma AscendingCons(q: nat, lo: nat, rest: seq<nat>)
    requires q < lo
    requires forall i :: 0 <= i < |rest| ==> lo <= rest[i]
    requires forall i :: 0 <= i < |rest| - 1 ==> rest[i] < rest[i + 1]
    ensures var starts := [q] + rest;
            forall i :: 0 <= i < |starts| - 1 ==> starts[i] < starts[i + 1]
  {
    var starts := [q] + rest;
    forall i | 0 <= i < |starts| - 1
      ensures starts[i] < starts[i + 1]
    {
      assert starts[i + 1] == rest[i];
      if i > 0 {
        assert starts[i] == rest[i - 1];
      }
    }
  }

  /** One more group: the starts after "(" are q and then the starts after the
      token that follows the option read at q. */
  lemma ChoiceStartsCons(input: seq<char>, t: Token, q: nat)
    requires t.begin <= t.end <= q <= |input|
    requires t.kind == OParenthesis && ChoiceOptionAt(input, q).Ok?
    requires NextSkippingNewlines(input, ChoiceOptionAt(input, q).next).Ok?
    ensures var u := NextSkippingNewlines(input, ChoiceOptionAt(input, q).next);
            q < u.next && ChoiceStarts(input, t, q) == [q] + ChoiceStarts(input, u.value, u.next)
  {
  }

  /** The groups follow one another. */
  lemma {:induction false} ChoiceStartsAscending(input: seq<char>, t: Token, q: nat)
    requires t.begin <= t.end <= q <= |input|
    ensures var starts := ChoiceStarts(input, t, q);
            forall i :: 0 <= i < |starts| - 1 ==> starts[i] < starts[i + 1]
    decreases |input| - q
  {
    if t.kind == OParenthesis {
      var o := ChoiceOptionAt(input, q);
      if o.Ok? {
        var u := NextSkippingNewlines(input, o.next);
        if u.Ok? {
          ChoiceStartsAscending(input, u.value, u.next);
          ChoiceStartsCons(input, t, q);
          AscendingCons(q, u.next, ChoiceStarts(input, u.value, u.next));
        }
      }
    }
  }

  /** One more option: after "(" the options are the one read at q and then those
      read after the token that follows it. */
  lemma ChoiceOptionsCons(input: seq<char>, t: Token, q: nat)
    requires t.begin <= t.end <= q <= |input|
    requires t.kind == OParenthesis && ChoiceOptions(input, t, q).Ok?
    ensures var o := ChoiceOptionAt(input, q);
            o.Ok? && var u := NextSkippingNewlines(input, o.next);
            u.Ok? && ChoiceOptions(input, u.value, u.next).Ok?
            && ChoiceOptions(input, t, q).value == [o.value] + ChoiceOptions(input, u.value, u.next).value
  {
  }

  /** One option read is exactly one group. */
  lemma ChoiceOptionGroup(input: seq<char>, p: nat)
    requires p <= |input|
    requires ChoiceOptionAt(input, p).Ok?
    ensures OptionGroup(input, p, ChoiceOptionAt(input, p).value)
  {
  }

  /** The options of a choice list are read at its group starts, in order: there
      are as many options as groups, and the i-th option is the one read at the
      i-th start. */
  lemma {:induction false} ChoiceOptionsGroups(input: seq<char>, t: Token, q: nat, i: nat)
    requires t.begin <= t.end <= q <= |input|
    requires ChoiceOptions(input, t, q).Ok?
    ensures var opts := ChoiceOptions(input, t, q).value;
            var starts := ChoiceStarts(input, t, q);
            |starts| == |opts|
            && (i < |opts| ==> starts[i] <= |input| && ChoiceOptionAt(input, starts[i]).Ok?
                               && ChoiceOptionAt(input, starts[i]).value == opts[i])
    decreases |input| - q
  {
    if t.kind == OParenthesis {
      var o := ChoiceOptionAt(input, q);
      var u := NextSkippingNewlines(input, o.next);
      ChoiceOptionsCons(input, t, q);
      ChoiceStartsCons(input, t, q);
      var opts, rest := ChoiceOptions(input, t, q).value, ChoiceOptions(input, u.value, u.next).value;
      var starts, later := ChoiceStarts(input, t, q), ChoiceStarts(input, u.value, u.next);
      assert opts == [o.value] + rest && starts == [q] + later;
      ChoiceOptionsGroups(input, u.value, u.next, if i == 0 then 0 else i - 1);
      if 0 < i < |opts| {
        assert opts[i] == rest[i - 1] && starts[i] == later[i - 1];
      }
    } else {
      assert ChoiceOptions(input, t, q) == Ok([], q);
      assert ChoiceStarts(input, t, q) == [];
    }
  }

  /** A choice attribute is named by the quoted string that opens it, and its
      options are the groups of its list, in order. */
  lemma ChoiceAttributeShape(input: seq<char>, p: nat)
    requires p <= |input|
    requires ParseChoiceAttribute(input, p).Ok?
    ensures var n := Emit(input, p);
            var o := NextSkippingNewlines(input, n.next);
            var t := NextSkippingNewlines(input, o.next);
            var r := ParseChoiceAttribute(input, p).value;
            n.Ok? && n.value.kind == QuotedString && r.name == Text(input, n.value)
            && o.Ok? && o.value.kind == OParenthesis && t.Ok?
            && var starts := ChoiceStarts(input, t.value, t.next);
               && |starts| == |r.choices|
               && (forall i :: 0 <= i < |r.choices| ==> OptionGroup(input, starts[i], r.choices[i]))
               && (forall i :: 0 <= i < |starts| - 1 ==> starts[i] < starts[i + 1])
  {
    var n := Emit(input, p);
    var o := NextSkippingNewlines(input, n.next);
    var t := NextSkippingNewlines(input, o.next);
    var r := ParseChoiceAttribute(input, p).value;
    var starts := ChoiceStarts(input, t.value, t.next);
    ChoiceOptionsGroups(input, t.value, t.next, 0);
    forall i | 0 <= i < |r.choices|
      ensures OptionGroup(input, starts[i], r.choices[i])
    {
      ChoiceOptionsGroups(input, t.value, t.next, i);
      ChoiceOptionGroup(input, starts[i]);
    }
    ChoiceStartsAscending(input, t.value, t.next);
  }

  // ---- header -----------------------------------------------------------------

  /** Where the spawnflags clause of a header starts: after the bounds, after a "?"
      word, or right after the colour when the word there is not "?". */
  function FlagsStart(input: seq<char>, c: nat): (s: nat)
    requires c <= |input|
    ensures c <= s <= |input|
  {
    var u := Emit(input, c);
    if u.Ok? && u.value.kind == OParenthesis && ParseBounds(input, c).Ok? then ParseBounds(input, c).next
    else if u.Ok? && Text(input, u.value) == "?" then u.next
    else c
  }

  /** parseDefinition's header reading unfolded: a newline, or colour, bounds
      position and spawnflags clause. */
  lemma HeaderRead(input: seq<char>, p: nat, name: string)
    requires p <= |input|
    requires ParseHeader(input, p, name).Ok?
    ensures var t := Emit(input, p);
            t.Ok? && t.value.kind in [OParenthesis, Newline]
            && (t.value.kind == Newline ==> ParseHeader(input, p, name) == Ok(ClassInfo(name, None, None, "", [], None), p))
            && (t.value.kind == OParenthesis ==>
                  var c := ParseColor(input, p);
                  && c.Ok?
                  && var u := Emit(input, c.next);
                     && u.Ok? && u.value.kind in [OParenthesis, Word]
                     && var size := ParseSize(input, c.next, u.value, u.next);
                        && size.Ok?
                        && var flags := ParseFlagsClause(input, size.next);
                           && flags.Ok?
                           && ParseHeader(input, p, name)
                              == Ok(ClassInfo(name, Some(c.value), size.value, "", flags.value, None), flags.next))
  {
  }

  /** The bounds position: a size exactly when it holds "(", read as bounds there;
      the spawnflags clause starts where FlagsStart says. */
  lemma SizeRead(input: seq<char>, c: nat)
    requires c <= |input| && Emit(input, c).Ok?
    requires ParseSize(input, c, Emit(input, c).value, Emit(input, c).next).Ok?
    ensures var u := Emit(input, c); var size := ParseSize(input, c, u.value, u.next);
            && (size.value.Some? <==> u.value.kind == OParenthesis)
            && (size.value.Some? ==> ParseBounds(input, c).Ok? && size.value.value == ParseBounds(input, c).value)
            && size.next == FlagsStart(input, c)
  {
    var u := Emit(input, c);
    if u.value.kind == OParenthesis {
      assert ParseBounds(input, c).Ok?;
    } else {
      assert ParseSize(input, c, u.value, u.next).value.None?;
    }
  }

  /** The spawnflags clause: present exactly when a word or a minus comes next, and
      then the options read there; otherwise nothing is read. */
  lemma FlagsClauseRead(input: seq<char>, s: nat)
    requires s <= |input| && ParseFlagsClause(input, s).Ok?
    ensures var f := Emit(input, s); var r := ParseFlagsClause(input, s);
            && f.Ok?
            && (r.value != [] <==> f.value.kind in [Word, Minus])
            && (r.value != [] ==>
                  Spawnflags(input, s, 0).Ok?
                  && r == Ok([FlagsAttribute(SpawnflagsName, Spawnflags(input, s, 0).value)], Spawnflags(input, s, 0).next))
            && (r.value == [] ==> r.next == s)
  {
  }

  /** A header has a colour exactly when it starts with "(" (a newline instead leaves
      it empty and unread); then the colour is the one read there, and a size follows
      exactly when the next token is "(" rather than a word ("?" or another). */
  lemma HeaderColor(input: seq<char>, p: nat, name: string)
    requires p <= |input|
    requires ParseHeader(input, p, name).Ok?
    ensures var h := ParseHeader(input, p, name); var t := Emit(input, p);
            t.Ok? && t.value.kind in [OParenthesis, Newline]
            && (h.value.color.Some? <==> t.value.kind == OParenthesis)
            && (t.value.kind == Newline ==> h.next == p)
            && (h.value.color.Some? ==>
                  var c := ParseColor(input, p);
                  && c.Ok? && h.value.color.value == c.value
                  && var u := Emit(input, c.next);
                     && u.Ok? && u.value.kind in [OParenthesis, Word]
                     && (h.value.size.Some? <==> u.value.kind == OParenthesis)
                     && (h.value.size.Some? ==>
                           (ParseBounds(input, c.next).Ok? && h.value.size.value == ParseBounds(input, c.next).value)))
  {
    HeaderRead(input, p, name);
    if Emit(input, p).value.kind == OParenthesis {
      SizeRead(input, ParseColor(input, p).next);
    }
  }

  /** After the colour and size, the header has the spawnflags attribute exactly when
      a word or a minus follows, and reads nothing more otherwise. */
  lemma HeaderFlags(input: seq<char>, p: nat, name: string)
    requires p <= |input|
    requires ParseHeader(input, p, name).Ok? && ParseHeader(input, p, name).value.color.Some?
    ensures var h := ParseHeader(input, p, name); var c := ParseColor(input, p);
            c.Ok? && var s := FlagsStart(input, c.next); var f := Emit(input, s);
            && f.Ok?
            && (h.value.attributes != [] <==> f.value.kind in [Word, Minus])
            && (h.value.attributes != [] ==>
                  Spawnflags(input, s, 0).Ok?
                  && h.value.attributes == [FlagsAttribute(SpawnflagsName, Spawnflags(input, s, 0).value)]
                  && h.next == Spawnflags(input, s, 0).next)
            && (h.value.attributes == [] ==> h.next == s)
  {
    HeaderRead(input, p, name);
    var c := ParseColor(input, p);
    SizeRead(input, c.next);
    FlagsClauseRead(input, FlagsStart(input, c.next));
  }

  // ---- attribute block --------------------------------------------------------

  /** Without "{" there is no attribute block: nothing is read and nothing changes. */
  lemma NoBraceNoAttributes(input: seq<char>, p: nat, b: Block, env: Collaborators)
    requires p <= |input|
    requires Emit(input, p).Ok? && Emit(input, p).value.kind != OBrace
    ensures ParseAttributes(input, p, b, env) == Ok(Logged(b, []), p)
  {
  }

  /** What the attribute block may change: it appends attribute definitions and
      base-class names in order and may set the model; the name, colour, size and
      description stay as they were. */
  predicate Extends(b: Block, b': Block)
  {
    b'.info.name == b.info.name && b'.info.color == b.info.color && b'.info.size == b.info.size
    && b'.info.description == b.info.description
    && b.info.attributes <= b'.info.attributes && b.superClasses <= b'.superClasses
  }

  lemma BodyExtends(input: seq<char>, p: nat, keyword: string, b: Block, env: Collaborators)
    requires p <= |input|
    requires AttributeBody(input, p, keyword, b, env).Ok?
    ensures Extends(b, AttributeBody(input, p, keyword, b, env).value.value)
    ensures var r := AttributeBody(input, p, keyword, b, env).value.value;
            && (keyword == "default" ==> r == b)
            && (keyword == "base" ==> r == b.(superClasses := b.superClasses + [ParseBaseAttribute(input, p).value]))
            && (keyword == "choice" ==> r.info.attributes == b.info.attributes + [ParseChoiceAttribute(input, p).value])
            && (keyword == "model" ==> r.info.model == Some(ParseModel(input, p, env).value.value))
            && (keyword !in ["default", "base", "choice", "model"] ==> r == b)
  {
    var r := AttributeBody(input, p, keyword, b, env);
    if keyword == "default" {
      assert r.value.value == b;
    } else if keyword == "base" {
      var n := ParseBaseAttribute(input, p);
      assert r.value.value == b.(superClasses := b.superClasses + [n.value]);
    } else if keyword == "choice" {
      var c := ParseChoiceAttribute(input, p);
      assert r.value.value == b.(info := b.info.(attributes := b.info.attributes + [c.value]));
    } else if keyword == "model" {
      var m := ParseModel(input, p, env);
      assert r.value.value == b.(info := b.info.(model := Some(m.value.value)));
    } else {
      assert r.value.value == b;
    }
  }

  lemma {:induction false} AttributeListExtends(input: seq<char>, p: nat, b: Block, env: Collaborators)
    requires p <= |input|
    requires AttributeList(input, p, b, env).Ok?
    ensures Extends(b, AttributeList(input, p, b, env).value.value)
    decreases |input| - p
  {
    var s := ParseAttribute(input, p, b, env);
    var t := NextSkippingOf(input, p, [Word, CBrace]);
    if t.value.kind == Word {
      BodyExtends(input, t.next, Text(input, t.value), b, env);
    }
    if s.value.value.more {
      AttributeListExtends(input, s.next, s.value.value.block, env);
    }
  }

  /** An unknown keyword is accepted exactly when ";" follows it (newlines aside),
      and then it changes nothing. */
  lemma UnknownKeyword(input: seq<char>, p: nat, b: Block, env: Collaborators)
    requires p <= |input|
    requires var t := NextSkippingNewlines(input, p);
             t.Ok? && t.value.kind == Word && Text(input, t.value) !in ["default", "base", "choice", "model"]
    ensures var t := NextSkippingNewlines(input, p);
            var semi := NextSkippingNewlines(input, t.next);
            var r := ParseAttribute(input, p, b, env);
            (r.Ok? <==> semi.Ok? && semi.value.kind == Semicolon)
            && (r.Ok? ==> r == Ok(Logged(Step(true, b), []), semi.next))
  {
  }

  /** A newline-skipping read of a ";" token ends just after a ";" character. */
  lemma {:induction false} SkippedSemicolon(input: seq<char>, p: nat)
    requires p <= |input|
    requires NextSkippingNewlines(input, p).Ok? && NextSkippingNewlines(input, p).value.kind == Semicolon
    ensures var r := NextSkippingNewlines(input, p);
            0 < r.next <= |input| && input[r.next - 1] == ';'
    decreases |input| - p
  {
    var t := Emit(input, p);
    if t.value.kind == Newline {
      assert NextSkippingNewlines(input, p) == NextSkippingNewlines(input, t.next);
      SkippedSemicolon(input, t.next);
    } else {
      assert NextSkippingNewlines(input, p) == t;
      LexerProperties.SingleCharTokens(input, p);
      assert LexerProperties.SingleChar(Semicolon) == Some(';');
    }
  }

  /** An expected ";" ends just after a ";" character. */
  lemma SemicolonRead(input: seq<char>, q: nat)
    requires q <= |input|
    requires NextSkippingOf(input, q, [Semicolon]).Ok?
    ensures 0 < NextSkippingOf(input, q, [Semicolon]).next <= |input|
    ensures input[NextSkippingOf(input, q, [Semicolon]).next - 1] == ';'
  {
    SkippedSemicolon(input, q);
  }

  /** parseAttribute unfolded for a keyword whose body reads: the ";" decides. */
  lemma AttributeRead(input: seq<char>, p: nat, b: Block, env: Collaborators)
    requires p <= |input|
    requires var t := NextSkippingOf(input, p, [Word, CBrace]);
             t.Ok? && t.value.kind == Word && AttributeBody(input, t.next, Text(input, t.value), b, env).Ok?
    ensures var t := NextSkippingOf(input, p, [Word, CBrace]);
            var body := AttributeBody(input, t.next, Text(input, t.value), b, env);
            var s := NextSkippingOf(input, body.next, [Semicolon]);
            ParseAttribute(input, p, b, env)
            == if s.Ok? then Ok(Logged(Step(true, body.value.value), body.value.warnings), s.next) else Fail(s.error)
  {
  }

  /** A keyword and its body make an attribute only when ";" follows (newlines
      aside);
      the attribute then ends just after that ";" character, and any other token
      there is reported as not being a ";". */
  lemma AttributeNeedsSemicolon(input: seq<char>, p: nat, b: Block, env: Collaborators)
    requires p <= |input|
    requires var t := NextSkippingOf(input, p, [Word, CBrace]);
             t.Ok? && t.value.kind == Word && AttributeBody(input, t.next, Text(input, t.value), b, env).Ok?
    ensures var t := NextSkippingOf(input, p, [Word, CBrace]);
            var body := AttributeBody(input, t.next, Text(input, t.value), b, env);
            var semi := NextSkippingNewlines(input, body.next);
            var r := ParseAttribute(input, p, b, env);
            (r.Ok? <==> semi.Ok? && semi.value.kind == Semicolon)
            && (r.Ok? ==> r.value.value.more && r.next == semi.next && 0 < r.next && input[r.next - 1] == ';')
            && (semi.Ok? && semi.value.kind != Semicolon ==> r == Fail(Mismatch(input, [Semicolon], semi.value)))
  {
    var t := NextSkippingOf(input, p, [Word, CBrace]);
    var body := AttributeBody(input, t.next, Text(input, t.value), b, env);
    AttributeRead(input, p, b, env);
    SkippingOfFails(input, body.next, [Semicolon]);
    var s := NextSkippingOf(input, body.next, [Semicolon]);
    if s.Ok? {
      SemicolonRead(input, body.next);
      var r := ParseAttribute(input, p, b, env);
      assert r.next == s.next;
      assert input[r.next - 1] == ';';
    }
  }

  // ---- model clause -----------------------------------------------------------

  /** The expression grammar wins without a warning; the legacy grammar wins with
      exactly one, placed just after "("; when both fail the expression grammar's
      error is the one reported. */
  lemma ModelFallback(input: seq<char>, p: nat, env: Collaborators)
    requires p <= |input|
    requires NextOf(input, p, [OParenthesis]).Ok?
    ensures var s := NextOf(input, p, [OParenthesis]).next;
            var e := TryModel(input, s, env.expressionParser);
            var l := TryModel(input, s, env.legacyParser);
            var r := ParseModel(input, p, env);
            (e.Ok? ==> r.Ok? && r.value.value == e.value && r.value.warnings == [])
            && (e.Fail? && l.Ok? ==>
                  r.Ok? && r.value.value == l.value && |r.value.warnings| == 1
                  && (r.value.warnings[0].line, r.value.warnings[0].column) == LineCol(input, s))
            && (e.Fail? && l.Fail? ==> r == Fail(e.error))
  {
  }

  /** A model clause emits at most one warning. */
  lemma ModelWarnsAtMostOnce(input: seq<char>, p: nat, env: Collaborators)
    requires p <= |input|
    requires ParseModel(input, p, env).Ok?
    ensures |ParseModel(input, p, env).value.warnings| <= 1
  {
  }

  // ---- description -------------------------------------------------------------

  /** The description is empty when the block closes at once; otherwise it is the
      text from the first token to the end of the last one read (its stop position,
      or one short of it), every token up to the first close marker (or the end of
      the input) is read, and that marker is left for the caller. */
  lemma DescriptionShape(input: seq<char>, p: nat)
    requires p <= |input|
    requires ParseDescription(input, p).Ok?
    ensures var r := ParseDescription(input, p);
            var t := Emit(input, p);
            t.Ok?
            && (t.value.kind == CDefinition ==> r == Ok("", p))
            && (t.value.kind != CDefinition ==>
                  t.value.begin + |r.value| <= r.next <= t.value.begin + |r.value| + 1
                  && r.value == input[t.value.begin..t.value.begin + |r.value|]
                  && LexerProperties.NoCloseBetween(input, p, r.next)
                  && (r.next == |input| || (Emit(input, r.next).Ok? && Emit(input, r.next).value.kind == CDefinition)))
  {
    var t := Emit(input, p);
    if t.value.kind != CDefinition {
      LexerProperties.RemainderShape(input, p);
      if p < |input| {
        assert Remainder(input, p) == RemainderAfter(input, t.value.begin, t.value, t.next);
      }
    }
  }

  // ---- the list of class descriptors -------------------------------------------

  /** Every class block from p to the end of the input, in order, with the warnings
      reading each one produced. */
  function Blocks(input: seq<char>, p: nat, env: Collaborators): (r: Res<seq<Logged<Block>>>)
    requires p <= |input|
    ensures r.Ok? ==> p <= r.next <= |input|
    decreases |input| - p
  {
    var nb :- NextBlock(input, p, env);
    match nb.value.value
    case None => Ok([], nb.next)
    case Some(b) =>
      var rest :- Blocks(input, nb.next, env);
      Ok([Logged(b, nb.value.warnings)] + rest.value, rest.next)
  }

  /** What a list of blocks amounts to, read against the registry bases: a block
      with a colour is described against the registry as it stands; one without
      is stored in it under its name. */
  function CatalogOf(blocks: seq<Logged<Block>>, bases: map<string, ClassInfo>, env: Collaborators): Catalog
    decreases |blocks|
  {
    if blocks == [] then Catalog([], bases, [])
    else
      var b := blocks[0].value;
      if b.info.color.Some? then
        var rest := CatalogOf(blocks[1..], bases, env);
        Catalog([Describe(b, bases, env)] + rest.definitions, rest.baseClasses, blocks[0].warnings + rest.warnings)
      else
        var rest := CatalogOf(blocks[1..], bases[b.info.name := b.info], env);
        Catalog(rest.definitions, rest.baseClasses, blocks[0].warnings + rest.warnings)
  }

  function CatalogOfBlocks(r: Res<seq<Logged<Block>>>, bases: map<string, ClassInfo>, env: Collaborators): Res<Catalog>
  {
    match r
    case Ok(bs, q) => Ok(CatalogOf(bs, bases, env), q)
    case Fail(e) => Fail(e)
  }

  /** r's catalog with the warnings ws in front. */
  function CatalogWarnedFirst(ws: seq<Warning>, r: Res<Catalog>): Res<Catalog>
  {
    match r
    case Ok(c, q) => Ok(c.(warnings := ws + c.warnings), q)
    case Fail(e) => Fail(e)
  }

  /** A block without a colour only adds to the registry before the rest is read. */
  lemma ColourlessBlockDefers(input: seq<char>, p: nat, bases: map<string, ClassInfo>, env: Collaborators)
    requires p <= |input|
    requires var nb := NextBlock(input, p, env);
             nb.Ok? && nb.value.value.Some? && nb.value.value.value.info.color.None?
    ensures var nb := NextBlock(input, p, env);
            var b := nb.value.value.value;
            ParseDefinitions(input, p, bases, env)
            == CatalogWarnedFirst(nb.value.warnings, ParseDefinitions(input, nb.next, bases[b.info.name := b.info], env))
  {
    var nb := NextBlock(input, p, env);
    var b := nb.value.value.value;
    var ws := nb.value.warnings;
    var bases' := bases[b.info.name := b.info];
    ParseDefinitionCases(input, p, bases, env);
    var d' := ParseDefinition(input, nb.next, bases', env);
    if d'.Ok? && d'.value.definition.Some? {
      var rest := ParseDefinitions(input, d'.next, d'.value.baseClasses, env);
      if rest.Ok? {
        AppendAssociative(ws, d'.value.warnings, rest.value.warnings);
      }
    }
  }

  /** doParseDefinitions reads exactly the blocks of the input: it fails with the
      first error any block raises, and otherwise returns the descriptors, the
      registry and the warnings that the list of blocks amounts to. */
  lemma {:induction false} ParseDefinitionsCatalogsBlocks(input: seq<char>, p: nat, bases: map<string, ClassInfo>, env: Collaborators)
    requires p <= |input|
    ensures ParseDefinitions(input, p, bases, env) == CatalogOfBlocks(Blocks(input, p, env), bases, env)
    decreases |input| - p
  {
    var nb := NextBlock(input, p, env);
    ParseDefinitionCases(input, p, bases, env);
    if nb.Ok? && nb.value.value.Some? {
      var b := nb.value.value.value;
      var lb := Logged(b, nb.value.warnings);
      if b.info.color.Some? {
        ParseDefinitionsCatalogsBlocks(input, nb.next, bases, env);
      } else {
        ColourlessBlockDefers(input, p, bases, env);
        ParseDefinitionsCatalogsBlocks(input, nb.next, bases[b.info.name := b.info], env);
      }
      var rest := Blocks(input, nb.next, env);
      if rest.Ok? {
        assert ([lb] + rest.value)[0] == lb && ([lb] + rest.value)[1..] == rest.value;
      }
    }
  }

  function CountColoured(blocks: seq<Logged<Block>>): nat
  {
    if blocks == [] then 0 else (if blocks[0].value.info.color.Some? then 1 else 0) + CountColoured(blocks[1..])
  }

  /** One descriptor per block with a colour, and the warnings of every block in order. */
  lemma {:induction false} CatalogCounts(blocks: seq<Logged<Block>>, bases: map<string, ClassInfo>, env: Collaborators)
    ensures |CatalogOf(blocks, bases, env).definitions| == CountColoured(blocks)
    decreases |blocks|
  {
    if blocks != [] {
      var b := blocks[0].value;
      if b.info.color.Some? {
        CatalogCounts(blocks[1..], bases, env);
      } else {
        CatalogCounts(blocks[1..], bases[b.info.name := b.info], env);
      }
    }
  }

  /** The class info of the last block without a colour that has the given name. */
  function LastBase(blocks: seq<Logged<Block>>, name: string): Option<ClassInfo>
    decreases |blocks|
  {
    if blocks == [] then None
    else
      match LastBase(blocks[1..], name)
      case Some(info) => Some(info)
      case None =>
        var b := blocks[0].value;
        if b.info.color.None? && b.info.name == name then Some(b.info) else None
  }

  /** The registry afterwards: a name stored by some block maps to the info of the
      last such block, and every other entry is the one it had before. */
  lemma {:induction false} RegistryLastWriteWins(blocks: seq<Logged<Block>>, bases: map<string, ClassInfo>, env: Collaborators, name: string)
    ensures var reg := CatalogOf(blocks, bases, env).baseClasses;
            (LastBase(blocks, name).Some? ==> name in reg && reg[name] == LastBase(blocks, name).value)
            && (LastBase(blocks, name).None? ==> (name in reg <==> name in bases) && (name in bases ==> reg[name] == bases[name]))
    decreases |blocks|
  {
    if blocks != [] {
      var b := blocks[0].value;
      if b.info.color.Some? {
        RegistryLastWriteWins(blocks[1..], bases, env, name);
      } else {
        RegistryLastWriteWins(blocks[1..], bases[b.info.name := b.info], env, name);
      }
    }
  }
}
