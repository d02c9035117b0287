/** The values the reader produces: colours, boxes, attribute definitions, class
    descriptors, and the collaborators it calls but does not define. */
module EntityModel {
  import opened DefSyntax
  import opened DefLexer

  datatype Vec3 = Vec3(x: real, y: real, z: real)

  /** An axis-aligned box given by two corners. */
  datatype Bounds = Bounds(min: Vec3, max: Vec3)

  /** An RGBA colour. */
  datatype Color = Color(r: real, g: real, b: real, a: real)

  /** One option of a flags attribute: its bit value and its short description. */
  datatype FlagOption = FlagOption(value: nat, shortDescription: string)

  /** One option of a choice attribute: its key (the integer's text) and its description. */
  datatype ChoiceOption = ChoiceOption(key: string, value: string)

  /** The attribute definitions this reader builds. */
  datatype AttributeDefinition =
    | FlagsAttribute(name: string, flags: seq<FlagOption>)
    | ChoiceAttribute(name: string, choices: seq<ChoiceOption>)

  /** A model definition: the (already optimised) expression of a model clause,
      kept as its textual rendering. */
  datatype ModelDefinition = ModelDefinition(expression: string)

  /** EntityDefinitionClassInfo: one class declaration as it is being read. */
  datatype ClassInfo = ClassInfo(
    name: string,
    color: Option<Color>,
    size: Option<Bounds>,
    description: string,
    attributes: seq<AttributeDefinition>,
    model: Option<ModelDefinition>)

  /** The finished class descriptors. */
  datatype EntityDefinition =
    | PointDefinition(name: string, color: Color, size: Bounds, description: string,
                      attributes: seq<AttributeDefinition>, model: Option<ModelDefinition>)
    | BrushDefinition(name: string, color: Color, description: string,
                      attributes: seq<AttributeDefinition>)

  /** A non-fatal diagnostic sent to the parser status. */
  datatype Warning = Warning(line: nat, column: nat, message: string)

  /** What a model sub-parser (ELParser or LegacyModelDefinitionParser) does when run
      on the shared tokenizer from some position: it accepts an expression and leaves
      the cursor at position end, or it throws. */
  datatype Attempt = Accepted(model: ModelDefinition, end: nat) | Rejected(error: ParseError)

  type SubParser = (seq<char>, nat) -> Attempt

  /** EntityDefinitionClassInfo::resolveBaseClasses: the class info after merging in
      the named base classes found in the registry. */
  type Resolver = (ClassInfo, map<string, ClassInfo>, seq<string>) -> ClassInfo

  /** Everything the reader is given besides the input text. */
  datatype Collaborators = Collaborators(
    expressionParser: SubParser,
    legacyParser: SubParser,
    resolve: Resolver,
    defaultColor: Color)

  /** Model::AttributeNames::Spawnflags. */
  const SpawnflagsName: string := "spawnflags"

  /** 1 << k. */
  function Pow2(k: nat): (v: nat)
    ensures v >= 1
  {
    if k == 0 then 1 else 2 * Pow2(k - 1)
  }

  function Pow10(k: nat): (v: nat)
    ensures v >= 1
  {
    if k == 0 then 1 else 10 * Pow10(k - 1)
  }

  function DigitValue(c: char): nat
  {
    if '0' <= c <= '9' then (c as int - '0' as int) as nat else 0
  }

  /** The value of a run of decimal digits. */
  function DigitsValue(s: string): nat
  {
    if s == [] then 0 else 10 * DigitsValue(s[..|s| - 1]) + DigitValue(s[|s| - 1])
  }

  /** Token::toFloat: the value of an integer or decimal token's text (an optional
      sign, digits, an optional fraction and an optional exponent), as an exact real. */
  function NumberValue(text: string): real
  {
    var i0 := if |text| > 0 && text[0] in Signs then 1 else 0;
    var i1 := SpanIn(text, i0, Digits);
    var i2 := FractionEnd(text, i1);
    var i3 := ExponentEnd(text, i2);
    var whole := DigitsValue(text[i0..i1]) as real;
    var fraction := if i2 > i1 then DigitsValue(text[i1 + 1..i2]) as real / Pow10(i2 - i1 - 1) as real else 0.0;
    var negativeExponent := i3 > i2 + 1 && text[i2 + 1] == '-';
    var exponentDigits := if i3 > i2 + 1 && text[i2 + 1] in Signs then text[i2 + 2..i3] else if i3 > i2 then text[i2 + 1..i3] else "";
    var scale := Pow10(DigitsValue(exponentDigits)) as real;
    var magnitude := if negativeExponent then (whole + fraction) / scale else (whole + fraction) * scale;
    if |text| > 0 && text[0] == '-' then -magnitude else magnitude
  }

  /** parseColor's per-component rule: a value above 1 is an 8-bit channel. */
  function ScaleComponent(raw: real): (c: real)
    ensures raw >= 0.0 ==> 0.0 <= c <= raw
    ensures raw <= 255.0 ==> c <= 1.0
  {
    if raw > 1.0 then raw / 255.0 else raw
  }

  function Min(a: real, b: real): real { if a <= b then a else b }
  function Max(a: real, b: real): real { if a <= b then b else a }

  /** vm::repair: the box whose corners are the component-wise minimum and maximum. */
  function Repair(b: Bounds): (r: Bounds)
    ensures r.min.x <= r.max.x && r.min.y <= r.max.y && r.min.z <= r.max.z
    ensures {r.min.x, r.max.x} == {b.min.x, b.max.x}
    ensures {r.min.y, r.max.y} == {b.min.y, b.max.y}
    ensures {r.min.z, r.max.z} == {b.min.z, b.max.z}
  {
    Bounds(Vec3(Min(b.min.x, b.max.x), Min(b.min.y, b.max.y), Min(b.min.z, b.max.z)),
           Vec3(Max(b.min.x, b.max.x), Max(b.min.y, b.max.y), Max(b.min.z, b.max.z)))
  }

  /** The class descriptor a resolved class info with a colour becomes: a point
      class when it has a size, a brush class otherwise. */
  function Finalize(info: ClassInfo, defaultColor: Color): (d: EntityDefinition)
    ensures d.PointDefinition? <==> info.size.Some?
    ensures d.name == info.name && d.description == info.description && d.attributes == info.attributes
    ensures d.color == if info.color.Some? then info.color.value else defaultColor
    ensures d.PointDefinition? ==> d.size == info.size.value && d.model == info.model
  {
    var color := if info.color.Some? then info.color.value else defaultColor;
    if info.size.Some? then
      PointDefinition(info.name, color, info.size.value, info.description, info.attributes, info.model)
    else
      BrushDefinition(info.name, color, info.description, info.attributes)
  }

  /** kdl::str_trim: s without leading and trailing spaces, tabs and line ends. */
  function Trim(s: string): (r: string)
    ensures |r| > 0 ==> r[0] !in Whitespace && r[|r| - 1] !in Whitespace
    ensures exists i, j :: 0 <= i <= j <= |s| && r == s[i..j]
              && (forall k :: 0 <= k < i ==> s[k] in Whitespace)
              && (forall k :: j <= k < |s| ==> s[k] in Whitespace)
  {
    var i := SpanIn(s, 0, Whitespace);
    var j := TrimEnd(s, i, |s|);
    s[i..j]
  }

  /** The end of s[i..j] once trailing whitespace is dropped. */
  function TrimEnd(s: string, i: nat, j: nat): (r: nat)
    requires i <= j <= |s|
    ensures i <= r <= j
    ensures r > i ==> s[r - 1] !in Whitespace
    ensures forall k :: r <= k < j ==> s[k] in Whitespace
    decreases j
  {
    if j > i && s[j - 1] in Whitespace then TrimEnd(s, i, j - 1) else j
  }
}
