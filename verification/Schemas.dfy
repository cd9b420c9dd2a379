/** Response schemas: inference from example values, validation and rendering (examplegen/mock_schema.go,
    mocking/schema_runtime.go, mocking/template.go). */
module Schemas {
  import opened Json
  import opened Templates
  import opened Text

  /***** Templates as token lists *****/

  // A string cut at its {{ }} tokens: the text before the first one, the token, and so on.
  datatype Template =
    | End(text: string)
    | Token(text: string, raw: string, group: string, rest: Template)

  function Find(s: string, pattern: string): Option<nat>
    decreases |s|
  {
    if HasPrefix(s, pattern) then Some(0)
    else if s == "" then None
    else
      var k := Find(s[1..], pattern);
      if k.None? then None else Some(k.value + 1)
  }

  lemma {:induction false} FindIsFound(s: string, pattern: string)
    ensures Find(s, pattern).Some? ==>
      var k := Find(s, pattern).value; k + |pattern| <= |s| && s[k..k + |pattern|] == pattern
    decreases |s|
  {
    if !HasPrefix(s, pattern) && s != "" {
      FindIsFound(s[1..], pattern);
      var k := Find(s[1..], pattern);
      assert k.Some? ==> s[1..][k.value..k.value + |pattern|] == s[k.value + 1..k.value + 1 + |pattern|];
    }
  }

  // The white space \s matches.
  predicate RegexSpace(c: char) {
    c in {'\t', '\n', '\U{000C}', '\r', ' '}
  }

  function RegexTrim(s: string): string {
    if s != "" && RegexSpace(s[0]) then RegexTrim(s[1..])
    else if s != "" && RegexSpace(s[|s| - 1]) then RegexTrim(s[..|s| - 1])
    else s
  }

  // The matches of (?s)\{\{\s*(.*?)\s*\}\}: each ends at the first closing braces after its opening ones.
  function Tokens(s: string): Template
    decreases |s|
  {
    FindIsFound(s, "{{");
    var i := Find(s, "{{");
    if i.None? then End(s) else
      var inner := s[i.value + 2..];
      FindIsFound(inner, "}}");
      var j := Find(inner, "}}");
      if j.None? then End(s) else
        Token(s[..i.value], s[i.value..i.value + 2 + j.value + 2], RegexTrim(inner[..j.value]), Tokens(inner[j.value + 2..]))
  }

  function TextOf(t: Template): string {
    match t
    case End(text) => text
    case Token(text, raw, _, rest) => text + raw + TextOf(rest)
  }

  /** Cutting a string into tokens loses nothing. */
  lemma {:induction false} TokensKeepTheText(s: string)
    ensures TextOf(Tokens(s)) == s
    decreases |s|
  {
    FindIsFound(s, "{{");
    var i := Find(s, "{{");
    if i.Some? {
      var inner := s[i.value + 2..];
      FindIsFound(inner, "}}");
      var j := Find(inner, "}}");
      if j.Some? {
        TokensKeepTheText(inner[j.value + 2..]);
        assert s == s[..i.value] + s[i.value..i.value + 2 + j.value + 2] + inner[j.value + 2..];
      }
    }
  }

  predicate OccursAt(s: string, pattern: string, k: int) {
    0 <= k && k + |pattern| <= |s| && s[k..k + |pattern|] == pattern
  }

  ghost predicate FirstAt(s: string, pattern: string, k: int) {
    OccursAt(s, pattern, k) && forall j :: j < k ==> !OccursAt(s, pattern, j)
  }

  lemma {:induction false} FindIsFirst(s: string, pattern: string, k: nat)
    requires FirstAt(s, pattern, k)
    ensures Find(s, pattern) == Some(k)
    decreases |s|
  {
    if k > 0 {
      assert !OccursAt(s, pattern, 0);
      assert s[1..][k - 1..k - 1 + |pattern|] == s[k..k + |pattern|];
      forall j | j < k - 1
        ensures !OccursAt(s[1..], pattern, j)
      {
        assert !OccursAt(s, pattern, j + 1);
        assert 0 <= j && j + |pattern| <= |s[1..]| ==> s[1..][j..j + |pattern|] == s[j + 1..j + 1 + |pattern|];
      }
      FindIsFirst(s[1..], pattern, k - 1);
    } else {
      assert s[0..0 + |pattern|] == s[..|pattern|];
    }
  }

  ghost predicate AllMatchSpace(s: string) {
    forall c :: c in s ==> c in {'\t', '\n', '\U{000C}', '\r', ' '}
  }

  // g is the text without the white space around it that \s matches.
  ghost predicate IsTrimmedTo(text: string, g: string) {
    && (exists l, r :: IsPadded(text, l, g, r))
    && (g != "" ==> !AllMatchSpace(g[..1]) && !AllMatchSpace(g[|g| - 1..]))
  }

  ghost predicate IsPadded(text: string, l: string, g: string, r: string) {
    text == l + g + r && AllMatchSpace(l) && AllMatchSpace(r)
  }

  lemma {:induction false} RegexTrimMeans(s: string)
    ensures IsTrimmedTo(s, RegexTrim(s))
    decreases |s|
  {
    if s != "" && RegexSpace(s[0]) {
      RegexTrimMeans(s[1..]);
      PadLeft(s, RegexTrim(s));
    } else if s != "" && RegexSpace(s[|s| - 1]) {
      RegexTrimMeans(s[..|s| - 1]);
      PadRight(s, RegexTrim(s));
    } else {
      assert s == "" + s + "" && IsPadded(s, "", s, "");
      assert s != "" ==> s[0] in s[..1] && s[|s| - 1] in s[|s| - 1..];
    }
  }

  lemma PadLeft(s: string, g: string)
    requires s != "" && RegexSpace(s[0]) && IsTrimmedTo(s[1..], g)
    ensures IsTrimmedTo(s, g)
  {
    var l, r :| IsPadded(s[1..], l, g, r);
    var c := s[..1];
    assert s == c + s[1..] && c + (l + g + r) == c + l + g + r;
    assert IsPadded(s, c + l, g, r);
  }

  lemma PadRight(s: string, g: string)
    requires s != "" && RegexSpace(s[|s| - 1]) && IsTrimmedTo(s[..|s| - 1], g)
    ensures IsTrimmedTo(s, g)
  {
    var init, c := s[..|s| - 1], s[|s| - 1..];
    var l, r :| IsPadded(init, l, g, r);
    assert s == init + c;
    ConcatAssoc(l + g, r, c);
    assert IsPadded(s, l, g, r + c);
  }

  // The first token of a text: what stands before its braces, what they enclose, and what stands after them.
  ghost predicate StartsWithToken(s: string, pre: string, inner: string, post: string) {
    var more := inner + ("}}" + post);
    s == pre + ("{{" + more) && FirstAt(s, "{{", |pre|) && FirstAt(more, "}}", |inner|)
  }

  /** That is the token read. */
  lemma FirstToken(s: string, pre: string, inner: string, post: string)
    requires StartsWithToken(s, pre, inner, post)
    ensures Tokens(s) == Token(pre, "{{" + inner + "}}", RegexTrim(inner), Tokens(post))
  {
    var more := inner + ("}}" + post);
    FindIsFirst(s, "{{", |pre|);
    FindIsFirst(more, "}}", |inner|);
    Slices(s, pre, "{{", more);
    Slices(more, inner, "}}", post);
    WholeToken(s, pre, inner, post);
    TokenIsRead(s, |pre|, more, |inner|);
  }

  lemma Slices(s: string, a: string, b: string, c: string)
    requires s == a + (b + c)
    ensures |a| + |b| <= |s| && s[..|a|] == a && s[|a| + |b|..] == c
  {
  }

  lemma WholeToken(s: string, pre: string, inner: string, post: string)
    requires s == pre + ("{{" + (inner + ("}}" + post)))
    ensures s[|pre|..|pre| + 2 + |inner| + 2] == "{{" + inner + "}}"
  {
  }

  lemma TokenIsRead(s: string, i: nat, inner: string, j: nat)
    requires Find(s, "{{") == Some(i) && i + 2 <= |s| && s[i + 2..] == inner
    requires Find(inner, "}}") == Some(j) && j + 2 <= |inner|
    ensures Tokens(s) == Token(s[..i], s[i..i + 2 + j + 2], RegexTrim(inner[..j]), Tokens(inner[j + 2..]))
  {
  }

  // There are no braces that close after others have opened.
  ghost predicate NoToken(s: string) {
    forall i, j :: OccursAt(s, "{{", i) && OccursAt(s, "}}", j) ==> j < i + 2
  }

  lemma NoTokens(s: string)
    requires NoToken(s)
    ensures Tokens(s) == End(s)
  {
    if Tokens(s).Token? {
      TokenHasBraces(s);
      assert false;
    }
  }

  lemma TokenHasBraces(s: string)
    requires Tokens(s).Token?
    ensures exists i, j :: OccursAt(s, "{{", i) && OccursAt(s, "}}", j) && i + 2 <= j
  {
    FindIsFound(s, "{{");
    var i := Find(s, "{{").value;
    var inner := s[i + 2..];
    FindIsFound(inner, "}}");
    OccursLater(s, inner, i + 2, Find(inner, "}}").value);
    assert OccursAt(s, "{{", i);
  }

  lemma OccursLater(s: string, tail: string, n: nat, j: nat)
    requires n <= |s| && s[n..] == tail && OccursAt(tail, "}}", j)
    ensures OccursAt(s, "}}", n + j)
  {
    assert s[n + j..n + j + 2] == tail[j..j + 2];
  }

  // What renderTemplate puts in place of a token.
  function Replacement(group: string, ctx: Context): string {
    var value := Evaluate(group, ctx);
    if value.Some? then value.value else ""
  }

  function RenderTokens(t: Template, ctx: Context): string {
    match t
    case End(text) => text
    case Token(text, _, group, rest) => text + Replacement(group, ctx) + RenderTokens(rest, ctx)
  }

  function RenderTemplate(input: string, ctx: Context): string {
    if Blank(input) then input else RenderTokens(Tokens(input), ctx)
  }

  /***** Rules *****/

  datatype Resolve = Resolve(path: string, fallback: Option<string>, prefix: string, suffix: string)

  datatype Generate = Generate(name: string, args: seq<string>, prefix: string, suffix: string)

  datatype Part = Literal(text: string) | Resolved(resolve: Resolve) | Generated(generate: Generate)

  // unicode.ToLower, as far as it can lead to a lower-case ASCII letter.
  function Lower(s: string): string {
    if s == "" then "" else
      [if 'A' <= s[0] <= 'Z' then s[0] - 'A' + 'a'
       else if s[0] == '\U{212A}' then 'k'
       else if s[0] == '\U{0130}' then 'i'
       else s[0]] + Lower(s[1..])
  }

  /** Letters in upper case become those in lower case, which stay. */
  lemma {:induction false} LowerMeans(s: string)
    ensures |Lower(s)| == |s|
    ensures forall k :: 0 <= k < |s| && 'a' <= s[k] <= 'z' ==> Lower(s)[k] == s[k]
    ensures forall k :: 0 <= k < |s| && 'A' <= s[k] <= 'Z' ==> Lower(s)[k] == s[k] - 'A' + 'a'
  {
    if s != "" {
      LowerMeans(s[1..]);
    }
  }

  // parseTemplateFunction finds a call, and its name is one of the generators'.
  predicate IsGenerator(expression: string) {
    var call := TrimSpace(expression);
    var open := IndexOf(call, '(');
    0 < open < |call| && call[|call| - 1] == ')' &&
    IsGeneratorName(Lower(TrimSpace(call[..open])))
  }

  predicate IsGeneratorName(name: string) {
    name in ["mockuuid", "mocknow", "mockint", "mockstring", "mockpick", "mockbool"]
  }

  predicate IsContextReference(value: string) {
    var s := TrimSpace(value);
    || HasPrefix(s, "request.") || HasPrefix(s, "state.") || HasPrefix(s, "suite.")
    || HasPrefix(s, "operation.") || HasPrefix(s, "match.") || HasPrefix(s, "response.")
  }

  function TrimLiteral(value: string): string {
    if Quoted(TrimSpace(value)) then Unquoted(TrimSpace(value)) else TrimSpace(value)
  }

  // The rule for a call whose arguments begin after the open parenthesis at that place.
  function CallRule(call: string, open: nat, prefix: string, suffix: string): Generate
    requires open < |call| - 1
  {
    Generate(Lower(TrimSpace(call[..open])), Split(call[open + 1..|call| - 1], ","), prefix, suffix)
  }

  function InferGenerate(expression: string, prefix: string, suffix: string): Option<Generate> {
    if !IsGenerator(expression) then None else
      var call := TrimSpace(expression);
      assert call[|call| - 1] != call[IndexOf(call, '(')];
      Some(CallRule(call, IndexOf(call, '('), prefix, suffix))
  }

  function InferResolve(expression: string, prefix: string, suffix: string): Option<Resolve> {
    var options := Split(expression, "||");
    if |options| == 0 || |options| > 2 || !IsContextReference(TrimSpace(options[0])) then None
    else if |options| == 1 then Some(Resolve(TrimSpace(options[0]), None, prefix, suffix))
    else if TrimLiteral(options[1]) == "" && TrimSpace(options[1]) != "\"\"" && TrimSpace(options[1]) != "''" then None
    else Some(Resolve(TrimSpace(options[0]), Some(TrimLiteral(options[1])), prefix, suffix))
  }

  function LiteralPart(text: string): seq<Part> {
    if text == "" then [] else [Literal(text)]
  }

  function TokenPart(group: string): Option<Part> {
    var expression := TrimSpace(group);
    if InferGenerate(expression, "", "").Some? then Some(Generated(InferGenerate(expression, "", "").value))
    else if InferResolve(expression, "", "").Some? then Some(Resolved(InferResolve(expression, "", "").value))
    else None
  }

  function Compose(t: Template): Option<seq<Part>> {
    match t
    case End(text) => Some(LiteralPart(text))
    case Token(text, _, group, rest) =>
      if TokenPart(group).None? || Compose(rest).None? then None
      else Some(LiteralPart(text) + [TokenPart(group).value] + Compose(rest).value)
  }

  function After(parts: seq<Part>, rest: Option<seq<Part>>): Option<seq<Part>> {
    if rest.None? then None else Some(parts + rest.value)
  }

  lemma ComposeAfter(parts: seq<Part>, t: Template)
    requires t.Token?
    ensures After(parts, Compose(t)) ==
      if TokenPart(t.group).None? then None
      else After(parts + LiteralPart(t.text) + [TokenPart(t.group).value], Compose(t.rest))
  {
    if TokenPart(t.group).Some? && Compose(t.rest).Some? {
      var literal, token, rest := LiteralPart(t.text), [TokenPart(t.group).value], Compose(t.rest).value;
      ConcatAssoc(parts, literal + token, rest);
      ConcatAssoc(parts, literal, token);
    }
  }

  /** inferComposedStringRule: the loop over the matches. */
  method InferComposedStringRule(template: Template) returns (r: Option<seq<Part>>)
    ensures r == if template.End? then None else Compose(template)
  {
    if template.End? {
      return None;
    }
    var parts: seq<Part> := [];
    var t := template;
    assert Compose(t).Some? ==> parts + Compose(t).value == Compose(t).value;
    while t.Token?
      invariant Compose(template) == After(parts, Compose(t))
      decreases t
    {
      ComposeAfter(parts, t);
      parts := parts + LiteralPart(t.text);
      var expression := TrimSpace(t.group);
      var generate := InferGenerate(expression, "", "");
      var resolve := InferResolve(expression, "", "");
      if generate.Some? {
        parts := parts + [Generated(generate.value)];
      } else if resolve.Some? {
        parts := parts + [Resolved(resolve.value)];
      } else {
        return None;
      }
      t := t.rest;
    }
    return Some(parts + LiteralPart(t.text));
  }

  /***** Schemas *****/

  datatype Type = NullType | BooleanType | IntegerType | NumberType | StringType | ArrayType | ObjectType

  // The keys of the schema map that the two packages use; an absent key is None or empty.
  datatype Schema = Schema(
    schemaType: Type, compose: Option<seq<Part>>, generate: Option<Generate>, resolve: Option<Resolve>,
    template: Option<string>, example: Option<Json>, properties: map<string, Schema>, items: Option<Schema>,
    required: seq<string>)

  function Plain(schemaType: Type): Schema {
    Schema(schemaType, None, None, None, None, None, map[], None, [])
  }

  // inferStringRuleSchema and the string case of inferJSONSchemaValue.
  function InferString(value: string): Schema {
    var t := Tokens(value);
    var lone := t.Token? && t.rest.End?;
    if Find(value, "{{").None? then Plain(StringType).(example := Some(Str(value)))
    else if lone && InferGenerate(TrimSpace(t.group), t.text, t.rest.text).Some? then
      Plain(StringType).(generate := InferGenerate(TrimSpace(t.group), t.text, t.rest.text))
    else if lone && InferResolve(TrimSpace(t.group), t.text, t.rest.text).Some? then
      Plain(StringType).(resolve := InferResolve(TrimSpace(t.group), t.text, t.rest.text))
    else if t.Token? && Compose(t).Some? then Plain(StringType).(compose := Compose(t))
    else Plain(StringType).(template := Some(value))
  }

  predicate Whole(n: real) {
    n == n.Floor as real
  }

  // inferJSONSchemaValue
  function Infer(v: Json): Schema {
    match v
    case Null => Plain(NullType)
    case Bool(_) => Plain(BooleanType).(example := Some(v))
    case Num(n) => if Whole(n) then Plain(IntegerType).(example := Some(v)) else Plain(NumberType).(example := Some(v))
    case Str(s) => InferString(s)
    case Arr(items) => Plain(ArrayType).(items := if |items| > 0 then Some(Infer(items[0])) else None)
    case Obj(fields) => Plain(ObjectType).(properties := map k | k in fields :: Infer(fields[k]))
  }

  /***** Validation *****/

  // A required field must be there and say something; false and numbers do.
  predicate Supplied(fields: map<string, Json>, key: string) {
    key in fields && fields[key] != Null && (fields[key].Str? ==> !Blank(fields[key].s))
  }

  // validateSchemaValue returns no message.
  predicate Accepts(schema: Schema, v: Json) {
    match schema.schemaType
    case NullType => v == Null
    case BooleanType => v == Null || v.Bool?
    case IntegerType => v == Null || (v.Num? && Whole(v.n))
    case NumberType => v == Null || v.Num?
    case StringType => v == Null || v.Str?
    case ArrayType => v == Null || (v.Arr? &&
      (schema.items.Some? ==> forall i | 0 <= i < |v.items| :: Accepts(schema.items.value, v.items[i])))
    case ObjectType => (
      && v.Obj?
      && (forall key :: key in schema.required && !Blank(key) ==> Supplied(v.fields, TrimSpace(key)))
      && (forall key | key in schema.properties && key in v.fields :: Accepts(schema.properties[key], v.fields[key])))
  }

  /***** Rendering *****/

  // coerceSchemaAny for the type string, the only one that inferred rules carry.
  function CoerceToString(v: Json, ctx: Context): Json {
    match v
    case Null => Null
    case Str(_) => v
    case _ => Str(ctx.show(v))
  }

  // renderSchemaResolvedValue
  function RenderResolved(r: Resolve, ctx: Context): Option<Json> {
    var path := TrimSpace(r.path);
    if path == "" then None else
      var found := Lookup(ctx.root, PathSegments(path));
      var missing := found.None? || found.value == Null || Blank(Sprint(found.value, ctx.show));
      var value := if missing && r.fallback.Some? then Some(Str(r.fallback.value)) else found;
      if value.None? then None else
        var prefix, suffix := TrimSpace(r.prefix), TrimSpace(r.suffix);
        Some(if prefix != "" || suffix != "" then Str(prefix + Sprint(value.value, ctx.show) + suffix)
             else CoerceToString(value.value, ctx))
  }

  // renderSchemaGeneratedValue, for the type string: a pick needs options, and the text around an id or a
  // time is dropped.
  function RenderGenerated(g: Generate, ctx: Context): Option<string> {
    var value := ctx.random(g.name, g.args);
    if g.name == "mockpick" && g.args == [] then None
    else if g.name == "mockuuid" || g.name == "mocknow" then Some(value)
    else Some(TrimSpace(g.prefix) + value + TrimSpace(g.suffix))
  }

  function RenderPart(p: Part, ctx: Context): Option<string> {
    match p
    case Literal(text) => Some(text)
    case Generated(g) => RenderGenerated(g, ctx)
    case Resolved(r) => var v := RenderResolved(r, ctx); if v.None? then None else Some(Sprint(v.value, ctx.show))
  }

  function RenderParts(parts: seq<Part>, ctx: Context): Option<string> {
    if parts == [] then Some("") else
      var init, last := RenderParts(parts[..|parts| - 1], ctx), RenderPart(parts[|parts| - 1], ctx);
      if init.None? || last.None? then None else Some(init.value + last.value)
  }

  /** renderSchemaComposedValue: the loop that fills the builder. */
  method RenderComposed(parts: seq<Part>, ctx: Context) returns (r: Option<string>)
    ensures r == if parts == [] then None else RenderParts(parts, ctx)
  {
    if |parts| == 0 {
      return None;
    }
    var builder := "";
    for i := 0 to |parts|
      invariant RenderParts(parts[..i], ctx) == Some(builder)
    {
      assert parts[..i + 1][..i] == parts[..i];
      var text := RenderPart(parts[i], ctx);
      if text.None? {
        NoPartNoText(parts, i, ctx);
        return None;
      }
      builder := builder + text.value;
    }
    assert parts[..|parts|] == parts;
    return Some(builder);
  }

  lemma {:induction false} NoPartNoText(parts: seq<Part>, i: nat, ctx: Context)
    requires i < |parts| && RenderPart(parts[i], ctx).None?
    ensures RenderParts(parts, ctx).None?
  {
    if i < |parts| - 1 {
      NoPartNoText(parts[..|parts| - 1], i, ctx);
    }
  }

  function DefaultOf(t: Type): Json {
    match t
    case NullType => Null
    case BooleanType => Bool(false)
    case IntegerType => Num(0.0)
    case NumberType => Num(0.0)
    case ArrayType => Arr([])
    case ObjectType => Obj(map[])
    case StringType => Str("")
  }

  // renderSchemaValue
  function Render(schema: Schema, ctx: Context): Json {
    if schema.compose.Some? && schema.compose.value != [] && RenderParts(schema.compose.value, ctx).Some? then
      Str(RenderParts(schema.compose.value, ctx).value)
    else if schema.generate.Some? && RenderGenerated(schema.generate.value, ctx).Some? then
      Str(RenderGenerated(schema.generate.value, ctx).value)
    else if schema.resolve.Some? && RenderResolved(schema.resolve.value, ctx).Some? then
      RenderResolved(schema.resolve.value, ctx).value
    else if schema.template.Some? then Str(RenderTemplate(schema.template.value, ctx))
    else if schema.example.Some? then schema.example.value
    else if schema.schemaType == ObjectType then
      Obj(map k | k in schema.properties :: Render(schema.properties[k], ctx))
    else if schema.schemaType == ArrayType && schema.items.Some? then Arr([Render(schema.items.value, ctx)])
    else DefaultOf(schema.schemaType)
  }
}
