/** Compiling a template keeps its meaning, and an inferred schema fits the value it came from. */
module SchemaTheorems {
  import opened Json
  import opened Schemas
  import opened Templates
  import opened Text

  /***** Rendering a template *****/

  lemma {:induction false} BlankHasNoBraces(s: string)
    requires Blank(s)
    ensures Find(s, "{{").None?
  {
    FindIsFound(s, "{{");
    if Find(s, "{{").Some? {
      BracesAreVisible(s);
    }
  }

  lemma RenderIsOfTokens(s: string, ctx: Context)
    ensures RenderTemplate(s, ctx) == RenderTokens(Tokens(s), ctx)
  {
    if Blank(s) {
      BlankHasNoBraces(s);
    }
  }

  ghost predicate RendersTo(s: string, pre: string, expression: string, post: string, ctx: Context) {
    RenderTemplate(s, ctx) ==
      pre + (if Evaluate(expression, ctx).Some? then Evaluate(expression, ctx).value else "") + RenderTemplate(post, ctx)
  }

  /** A template is rendered as its text up to the first token, then the value of what the braces enclose without the
      white space around it, or nothing, and then the rendering of the rest. */
  lemma RenderAtTheFirstToken(s: string, pre: string, inner: string, post: string, ctx: Context)
    requires StartsWithToken(s, pre, inner, post)
    ensures exists g :: IsTrimmedTo(inner, g) && RendersTo(s, pre, g, post, ctx)
  {
    RegexTrimMeans(inner);
    FirstToken(s, pre, inner, post);
    RenderIsOfTokens(s, ctx);
    RenderIsOfTokens(post, ctx);
    assert IsTrimmedTo(inner, RegexTrim(inner));
  }

  /** Without a token it is its own rendering. */
  lemma RenderWithoutTokens(s: string, ctx: Context)
    requires NoToken(s)
    ensures RenderTemplate(s, ctx) == s
  {
    NoTokens(s);
  }

  /***** One token *****/

  function ValueOf(path: string, ctx: Context): Option<Json> {
    Lookup(ctx.root, PathSegments(path))
  }

  lemma OptionIsTrimmed(group: string, option: string)
    requires option in Split(group, "||")
    ensures TrimSpace(option) == option && !Blank(option) && option != ""
  {
    PartResplitsToItself(group, "||", option);
  }

  function TextOfValue(value: Option<Json>, ctx: Context): Option<string> {
    if value.None? then None else Some(Sprint(value.value, ctx.show))
  }

  function OrEmpty(text: Option<string>): string {
    if text.Some? then text.value else ""
  }

  predicate Missing(value: Option<Json>, ctx: Context) {
    value.None? || Blank(Sprint(value.value, ctx.show))
  }

  // The token compiles to a rule for a context reference, with or without a fallback.
  predicate IsReference(group: string) {
    InferResolve(TrimSpace(group), "", "").Some?
  }

  predicate HasFallback(group: string) {
    |Split(group, "||")| == 2
  }

  function ReferenceOf(group: string): string
    requires IsReference(group)
  {
    SplitOfTrimmed(group, "||");
    Split(group, "||")[0]
  }

  function FallbackOf(group: string): Option<string> {
    if HasFallback(group) then Some(TrimLiteral(Split(group, "||")[1])) else None
  }

  /** What the rule of a token is made of. */
  lemma RuleOf(group: string, prefix: string, suffix: string)
    requires IsReference(group)
    ensures InferResolve(TrimSpace(group), prefix, suffix)
      == Some(Resolve(ReferenceOf(group), FallbackOf(group), prefix, suffix))
    ensures IsContextReference(ReferenceOf(group)) && TrimSpace(ReferenceOf(group)) == ReferenceOf(group) != ""
    ensures !HasFallback(group) ==> Split(group, "||") == [ReferenceOf(group)]
  {
    SplitOfTrimmed(group, "||");
    OptionIsTrimmed(group, Split(group, "||")[0]);
  }

  // What the template takes for a fallback.
  function FallbackText(option: string, ctx: Context): Option<string> {
    if UnquoteLiteral(option, ctx).Some? then UnquoteLiteral(option, ctx) else TextOfValue(ValueOf(option, ctx), ctx)
  }

  // What a fallback option says is what it stands for: quoted, it is empty or not blank, and has no escape
  // sequences that mean something else; unquoted, it is a path to its own text.
  predicate FallbackStands(option: string, ctx: Context) {
    if Quoted(option) && '\\' !in Unquoted(option) then Unquoted(option) == "" || !Blank(Unquoted(option))
    else if Quoted(option) then
      var text := FallbackText(option, ctx); TrimLiteral(option) == if Usable(text) then text.value else ""
    else TextOfValue(ValueOf(option, ctx), ctx) == Some(option)
  }

  // What the context must hold for the rule of a token to say what the template says. Without a fallback the
  // reference must be there and, if there are stray bars, print what the whole token prints as a path.
  predicate ContextSuits(group: string, ctx: Context)
    requires IsReference(group)
  {
    var value := ValueOf(ReferenceOf(group), ctx);
    if !HasFallback(group) then
      value.Some? && Sprint(value.value, ctx.show) == OrEmpty(TextOfValue(ValueOf(TrimSpace(group), ctx), ctx))
    else if value == Some(Null) then FallbackOf(group) == Some("<nil>")
    else Missing(value, ctx) ==> FallbackStands(Split(group, "||")[1], ctx)
  }

  /***** What the template says *****/

  lemma ReferenceIsNotQuoted(s: string, ctx: Context)
    requires IsContextReference(s) && TrimSpace(s) == s
    ensures UnquoteLiteral(s, ctx).None? && s != ""
  {
  }

  lemma EvaluateReference(s: string, ctx: Context)
    requires IsContextReference(s) && TrimSpace(s) == s
    ensures EvaluateOne(s, ctx) == TextOfValue(ValueOf(s, ctx), ctx)
  {
    ReferenceIsNotQuoted(s, ctx);
  }

  lemma EvaluateOption(s: string, ctx: Context)
    requires TrimSpace(s) == s != ""
    ensures EvaluateOne(s, ctx) == FallbackText(s, ctx)
  {
  }

  // A quote at the start is the start of the first option, which is no reference then.
  lemma QuoteStartsTheFirstOption(s: string)
    requires s != "" && s[0] in "'\"" && TrimSpace(s) == s
    ensures var options := Split(s, "||"); options != [] && options[0] != "" && options[0][0] == s[0]
  {
    VisibleIsNotBlank(s, 0);
    var m := Step(TOP, s[0]);
    CurJoinsTheFirstPiece(s[1..], [s[0]], "", m, "||");
    assert [s[0]] + "" == [s[0]] && "" + [s[0]] == [s[0]];
    var piece := Cut(s, "", TOP, "||")[0];
    assert piece[0] == s[0];
    VisibleIsNotBlank(piece, 0);
    TrimKeepsTheFirst(piece);
  }

  lemma TrimKeepsTheFirst(s: string)
    requires s != "" && !IsSpace(s[0])
    ensures TrimSpace(s) != "" && TrimSpace(s)[0] == s[0]
  {
    VisibleIsNotBlank(s, 0);
    TrimRightSplits(s);
  }

  lemma ReferenceTokenIsNotQuoted(group: string)
    requires IsReference(group)
    ensures TrimSpace(group) != "" && !Quoted(TrimSpace(group))
  {
    var s := TrimSpace(group);
    RuleOf(group, "", "");
    TrimTwice(group);
    SplitOfTrimmed(group, "||");
    if s != "" && s[0] in "'\"" {
      QuoteStartsTheFirstOption(s);
    }
  }

  lemma LoneReplacement(group: string, ctx: Context)
    requires IsReference(group) && !HasFallback(group)
    ensures Replacement(group, ctx) == OrEmpty(TextOfValue(ValueOf(TrimSpace(group), ctx), ctx))
  {
    RuleOf(group, "", "");
    ReferenceTokenIsNotQuoted(group);
    TrimTwice(group);
    LoneEvaluates(group, ctx);
  }

  lemma LoneEvaluates(group: string, ctx: Context)
    requires |Split(group, "||")| == 1 && TrimSpace(group) != "" && !Quoted(TrimSpace(group))
    ensures Evaluate(group, ctx) == TextOfValue(ValueOf(TrimSpace(group), ctx), ctx)
  {
  }

  // Of a value and a fallback, the template takes the value unless it is missing, and then a usable fallback.
  function TemplateChoice(value: Option<Json>, fallback: Option<string>, ctx: Context): string {
    if !Missing(value, ctx) then Sprint(value.value, ctx.show) else if Usable(fallback) then fallback.value else ""
  }

  // The rule takes the value unless it is missing or null.
  function RuleChoice(value: Option<Json>, fallback: string, ctx: Context): string {
    if Missing(value, ctx) || value == Some(Null) then fallback else Sprint(value.value, ctx.show)
  }

  lemma FallbackReplacement(group: string, ctx: Context)
    requires IsReference(group) && HasFallback(group)
    ensures Replacement(group, ctx) ==
      TemplateChoice(ValueOf(ReferenceOf(group), ctx), FallbackText(Split(group, "||")[1], ctx), ctx)
  {
    var options := Split(group, "||");
    RuleOf(group, "", "");
    OptionIsTrimmed(group, options[1]);
    EvaluateReference(options[0], ctx);
    EvaluateOption(options[1], ctx);
    TwoOptions(group, ctx);
  }

  lemma NilIsNotBlank()
    ensures !Blank("<nil>")
  {
    VisibleIsNotBlank("<nil>", 0);
  }

  lemma StandsExactlyWhen(option: string, ctx: Context)
    requires TrimSpace(option) == option && !Blank(option)
    ensures FallbackStands(option, ctx) <==>
      var text := FallbackText(option, ctx); TrimLiteral(option) == if Usable(text) then text.value else ""
  {
  }

  lemma ChoicesAgree(value: Option<Json>, literal: string, text: Option<string>, ctx: Context)
    ensures RuleChoice(value, literal, ctx) == TemplateChoice(value, text, ctx) <==>
      if value == Some(Null) then literal == "<nil>"
      else Missing(value, ctx) ==> literal == if Usable(text) then text.value else ""
  {
    NilIsNotBlank();
  }

  /***** What the rule says *****/

  // What a rule resolves to before the text around the token is added.
  function Chosen(path: string, fallback: Option<string>, ctx: Context): Option<Json> {
    var value := ValueOf(path, ctx);
    if fallback.Some? && (value.None? || value.value == Null || Blank(Sprint(value.value, ctx.show)))
    then Some(Str(fallback.value)) else value
  }

  lemma RuleRenders(rule: Resolve, ctx: Context)
    requires TrimSpace(rule.path) == rule.path != ""
    ensures var value := Chosen(rule.path, rule.fallback, ctx);
      var prefix, suffix := TrimSpace(rule.prefix), TrimSpace(rule.suffix);
      RenderResolved(rule, ctx) ==
        if value.None? then None
        else if prefix == "" && suffix == "" && value == Some(Null) then Some(Null)
        else Some(Str(prefix + Sprint(value.value, ctx.show) + suffix))
  {
    var value := Chosen(rule.path, rule.fallback, ctx);
    if value.Some? {
      var text := Sprint(value.value, ctx.show);
      assert "" + text + "" == text;
    }
  }

  lemma TextRenders(path: string, fallback: Option<string>, ctx: Context)
    requires TrimSpace(path) == path != ""
    ensures RenderPart(Resolved(Resolve(path, fallback, "", "")), ctx) == TextOfValue(Chosen(path, fallback, ctx), ctx)
  {
    RuleRenders(Resolve(path, fallback, "", ""), ctx);
    var value := Chosen(path, fallback, ctx);
    if value.Some? {
      var text := Sprint(value.value, ctx.show);
      assert "" + text + "" == text;
    }
  }

  lemma ChoiceRenders(path: string, fallback: string, ctx: Context)
    requires TrimSpace(path) == path != ""
    ensures RenderPart(Resolved(Resolve(path, Some(fallback), "", "")), ctx)
      == Some(RuleChoice(ValueOf(path, ctx), fallback, ctx))
  {
    TextRenders(path, Some(fallback), ctx);
  }

  function RuleText(group: string, ctx: Context): Option<string> {
    var rule := InferResolve(TrimSpace(group), "", "");
    if rule.None? then None else RenderPart(Resolved(rule.value), ctx)
  }

  lemma LoneRuleText(group: string, ctx: Context)
    requires IsReference(group) && !HasFallback(group)
    ensures RuleText(group, ctx) == TextOfValue(ValueOf(ReferenceOf(group), ctx), ctx)
  {
    RuleOf(group, "", "");
    TextRenders(ReferenceOf(group), None, ctx);
  }

  lemma FallbackRuleText(group: string, ctx: Context)
    requires IsReference(group) && HasFallback(group)
    ensures RuleText(group, ctx) == Some(RuleChoice(ValueOf(ReferenceOf(group), ctx), FallbackOf(group).value, ctx))
  {
    RuleOf(group, "", "");
    ChoiceRenders(ReferenceOf(group), FallbackOf(group).value, ctx);
  }

  /** The rule of a token, whichever way the token is written, says what the template says exactly when the
      context suits it. */
  lemma RuleAgreesExactlyWhen(group: string, ctx: Context)
    requires IsReference(group)
    ensures RuleText(group, ctx) == Some(Replacement(group, ctx)) <==> ContextSuits(group, ctx)
  {
    if HasFallback(group) {
      FallbackAgrees(group, ctx);
    } else {
      LoneRuleText(group, ctx);
      LoneReplacement(group, ctx);
    }
  }

  lemma FallbackAgrees(group: string, ctx: Context)
    requires IsReference(group) && HasFallback(group)
    ensures RuleText(group, ctx) == Some(Replacement(group, ctx)) <==> ContextSuits(group, ctx)
  {
    var option := Split(group, "||")[1];
    FallbackRuleText(group, ctx);
    FallbackReplacement(group, ctx);
    OptionIsTrimmed(group, option);
    StandsExactlyWhen(option, ctx);
    ChoicesAgree(ValueOf(ReferenceOf(group), ctx), FallbackOf(group).value, FallbackText(option, ctx), ctx);
  }

  // Around a lone token, the rule trims the text, and without any it passes null on as it is.
  predicate FrameSuits(prefix: string, group: string, suffix: string, ctx: Context)
    requires IsReference(group)
  {
    && TrimSpace(prefix) == prefix
    && TrimSpace(suffix) == suffix
    && (prefix == "" && suffix == "" ==> HasFallback(group) || ValueOf(ReferenceOf(group), ctx) != Some(Null))
  }

  /** A lone token and the text around it. */
  lemma LoneRuleAgreesExactlyWhen(prefix: string, group: string, suffix: string, ctx: Context)
    requires IsReference(group) && ContextSuits(group, ctx)
    ensures var rule := InferResolve(TrimSpace(group), prefix, suffix);
      && rule.Some?
      && (RenderResolved(rule.value, ctx) == Some(Str(prefix + Replacement(group, ctx) + suffix))
          <==> FrameSuits(prefix, group, suffix, ctx))
  {
    RuleAgreesExactlyWhen(group, ctx);
    RuleOf(group, "", "");
    RuleOf(group, prefix, suffix);
    TextRenders(ReferenceOf(group), FallbackOf(group), ctx);
    RuleRenders(Resolve(ReferenceOf(group), FallbackOf(group), prefix, suffix), ctx);
    SameFrame(prefix, Replacement(group, ctx), suffix);
  }

  lemma SameFrame(prefix: string, text: string, suffix: string)
    ensures TrimSpace(prefix) + text + TrimSpace(suffix) == prefix + text + suffix
      <==> TrimSpace(prefix) == prefix && TrimSpace(suffix) == suffix
  {
    var a, b := TrimSplits(prefix);
    var c, d := TrimSplits(suffix);
    if TrimSpace(prefix) + text + TrimSpace(suffix) == prefix + text + suffix {
      assert |TrimSpace(prefix)| == |prefix| && |TrimSpace(suffix)| == |suffix|;
      assert prefix == TrimSpace(prefix) && suffix == TrimSpace(suffix);
    }
  }

  /** A generated value and the text around it: an id or a time has none, the other kinds trim it. */
  lemma GeneratedAgreesExactlyWhen(rule: Generate, ctx: Context)
    requires RenderGenerated(rule, ctx).Some?
    ensures RenderGenerated(rule, ctx) == Some(rule.prefix + ctx.random(rule.name, rule.args) + rule.suffix) <==>
      if rule.name == "mockuuid" || rule.name == "mocknow" then rule.prefix == "" && rule.suffix == ""
      else TrimSpace(rule.prefix) == rule.prefix && TrimSpace(rule.suffix) == rule.suffix
  {
    var value := ctx.random(rule.name, rule.args);
    SameFrame(rule.prefix, value, rule.suffix);
    assert rule.prefix + value + rule.suffix == value ==> |rule.prefix| == 0 && |rule.suffix| == 0;
    assert "" + value + "" == value;
  }

  /** So a lone id or time with text around it renders without the text. */
  lemma LoneGeneratedAgreesExactlyWhen(value: string, ctx: Context)
    requires Find(value, "{{").Some? && InferString(value).generate.Some?
    requires RenderGenerated(InferString(value).generate.value, ctx).Some?
    ensures var t, rule := Tokens(value), InferString(value).generate.value;
      && t.Token? && t.rest.End? && rule.prefix == t.text && rule.suffix == t.rest.text
      && (Render(InferString(value), ctx) == Str(t.text + ctx.random(rule.name, rule.args) + t.rest.text) <==>
            if rule.name == "mockuuid" || rule.name == "mocknow" then t.text == "" && t.rest.text == ""
            else TrimSpace(t.text) == t.text && TrimSpace(t.rest.text) == t.rest.text)
  {
    GeneratedAgreesExactlyWhen(InferString(value).generate.value, ctx);
  }

  /***** Whole strings *****/

  lemma {:induction false} PartsConcat(a: seq<Part>, b: seq<Part>, ctx: Context)
    ensures RenderParts(a + b, ctx) ==
      var x, y := RenderParts(a, ctx), RenderParts(b, ctx);
      if x.None? || y.None? then None else Some(x.value + y.value)
    decreases |b|
  {
    if b == [] {
      assert a + b == a;
      var x := RenderParts(a, ctx);
      assert x.Some? ==> x.value + "" == x.value;
    } else {
      var init, last := b[..|b| - 1], b[|b| - 1];
      assert (a + b)[..|a + b| - 1] == a + init;
      PartsConcat(a, init, ctx);
      var x, y, z := RenderParts(a, ctx), RenderParts(init, ctx), RenderPart(last, ctx);
      assert x.Some? && y.Some? && z.Some? ==> x.value + (y.value + z.value) == x.value + y.value + z.value;
    }
  }

  lemma OnePart(part: Part, ctx: Context)
    ensures RenderParts([part], ctx) == RenderPart(part, ctx)
  {
    assert [part][..0] == [];
    var text := RenderPart(part, ctx);
    assert text.Some? ==> "" + text.value == text.value;
  }

  lemma LiteralRenders(text: string, ctx: Context)
    ensures RenderParts(LiteralPart(text), ctx) == Some(text)
  {
    if text != "" {
      OnePart(Literal(text), ctx);
    }
  }

  // Every token is a reference, and the context suits it.
  predicate TokensSuit(t: Template, ctx: Context) {
    t.Token? ==>
      && IsReference(t.group)
      && InferGenerate(TrimSpace(t.group), "", "").None?
      && ContextSuits(t.group, ctx)
      && TokensSuit(t.rest, ctx)
  }

  lemma {:induction false} ComposeMeansTheSame(t: Template, ctx: Context)
    requires TokensSuit(t, ctx)
    ensures Compose(t).Some? && RenderParts(Compose(t).value, ctx) == Some(RenderTokens(t, ctx))
  {
    LiteralRenders(t.text, ctx);
    if t.Token? {
      ComposeMeansTheSame(t.rest, ctx);
      RuleAgreesExactlyWhen(t.group, ctx);
      var part := TokenPart(t.group).value;
      OnePart(part, ctx);
      PartsConcat(LiteralPart(t.text), [part], ctx);
      PartsConcat(LiteralPart(t.text) + [part], Compose(t.rest).value, ctx);
    }
  }

  lemma BracesAreVisible(s: string)
    requires Find(s, "{{").Some?
    ensures !Blank(s)
  {
    FindIsFound(s, "{{");
    var k := Find(s, "{{").value;
    assert s[k] == s[k..k + 2][0];
    VisibleIsNotBlank(s, k);
  }

  lemma LoneTemplateRenders(t: Template, ctx: Context)
    requires t.Token? && t.rest.End?
    ensures RenderTokens(t, ctx) == t.text + Replacement(t.group, ctx) + t.rest.text
  {
  }

  /** Compiling a string of references and rendering the rules gives what the template gives. */
  lemma CompiledMeansTheSame(value: string, ctx: Context)
    requires TokensSuit(Tokens(value), ctx)
    requires var t := Tokens(value); t.Token? && t.rest.End? ==> FrameSuits(t.text, t.group, t.rest.text, ctx)
    ensures Render(InferString(value), ctx) == Str(RenderTemplate(value, ctx))
  {
    var t := Tokens(value);
    if Find(value, "{{").Some? {
      BracesAreVisible(value);
      if t.Token? && t.rest.End? {
        LoneRuleAgreesExactlyWhen(t.text, t.group, t.rest.text, ctx);
        LoneTemplateRenders(t, ctx);
      } else if t.Token? {
        ComposeMeansTheSame(t, ctx);
      }
    }
  }

  // Every token compiles to a generator or a reference.
  predicate AllCompile(t: Template) {
    t.Token? ==> (IsGenerator(TrimSpace(t.group)) || IsReference(t.group)) && AllCompile(t.rest)
  }

  lemma {:induction false} ComposesExactlyWhen(t: Template)
    ensures Compose(t).Some? <==> AllCompile(t)
  {
    if t.Token? {
      ComposesExactlyWhen(t.rest);
    }
  }

  /** Which rule a string gets: none without braces; that of its token if it has one; a composition of several if all
      compile; and otherwise its template. */
  lemma RuleExactlyWhen(value: string)
    ensures var s, t := InferString(value), Tokens(value);
      var braces, lone := Find(value, "{{").Some?, t.Token? && t.rest.End?;
      && s.schemaType == StringType
      && (s.example == if braces then None else Some(Str(value)))
      && (s.generate.Some? <==> lone && IsGenerator(TrimSpace(t.group)))
      && (s.resolve.Some? <==> lone && !IsGenerator(TrimSpace(t.group)) && IsReference(t.group))
      && (s.compose.Some? <==> t.Token? && !lone && AllCompile(t))
      && (s.template == if braces && !(t.Token? && AllCompile(t)) then Some(value) else None)
  {
    var t := Tokens(value);
    FindIsFound(value, "{{");
    ComposesExactlyWhen(t);
    if t.Token? && t.rest.End? {
      RuleOnAnyFrame(t.group, t.text, t.rest.text);
    }
  }

  lemma RuleOnAnyFrame(group: string, prefix: string, suffix: string)
    ensures InferResolve(TrimSpace(group), prefix, suffix).Some? <==> IsReference(group)
  {
  }

  /** A string that does not compile renders as its template. */
  lemma UncompiledKeepsItsTemplate(value: string, ctx: Context)
    requires !(Tokens(value).Token? && AllCompile(Tokens(value)))
    ensures Render(InferString(value), ctx) == Str(RenderTemplate(value, ctx))
  {
    RuleExactlyWhen(value);
    if Find(value, "{{").None? {
      RenderIsOfTokens(value, ctx);
    } else {
      OnlyTheTemplate(InferString(value), ctx);
    }
  }

  lemma OnlyTheTemplate(s: Schema, ctx: Context)
    requires s.compose.None? && s.generate.None? && s.resolve.None? && s.template.Some?
    ensures Render(s, ctx) == Str(RenderTemplate(s.template.value, ctx))
  {
  }

  /** A call of a generator, with its name in any case, becomes a rule with the arguments in the parentheses. */
  lemma GeneratorIsCalled(name: string, args: string, prefix: string, suffix: string)
    requires name != "" && Trimmed(name) && '(' !in name
    requires Lower(name) in ["mockuuid", "mocknow", "mockint", "mockstring", "mockpick", "mockbool"]
    ensures InferGenerate(name + ("(" + (args + ")")), prefix, suffix)
      == Some(Generate(Lower(name), Split(args, ","), prefix, suffix))
  {
    var call := name + ("(" + (args + ")"));
    CallText(call, name, args);
    CallIsRule(call, name, args, prefix, suffix);
  }

  /** A pick with nothing to pick from renders as the empty string. */
  lemma NothingToPick(value: string, ctx: Context)
    requires InferString(value).generate.Some?
    requires InferString(value).generate.value.name == "mockpick" && InferString(value).generate.value.args == []
    ensures Render(InferString(value), ctx) == Str("")
  {
  }

  /** A reference starts with one of six roots. */
  lemma ReferenceStarts(s: string)
    requires TrimSpace(s) == s
    ensures IsContextReference(s) <==>
      || (|s| >= 8 && s[..8] == "request.") || (|s| >= 6 && s[..6] == "state.") || (|s| >= 6 && s[..6] == "suite.")
      || (|s| >= 10 && s[..10] == "operation.") || (|s| >= 6 && s[..6] == "match.") || (|s| >= 9 && s[..9] == "response.")
  {
  }

  lemma CallText(call: string, name: string, args: string)
    requires name != "" && Trimmed(name) && '(' !in name && call == name + ("(" + (args + ")"))
    ensures TrimSpace(call) == call && IndexOf(call, '(') == |name| && 0 < |name| < |call| - 1 && call[|call| - 1] == ')'
    ensures call[..|name|] == name && TrimSpace(name) == name && call[|name| + 1..|call| - 1] == args
  {
    CallSlices(call, name, args);
    assert call[0] == name[0];
    TrimmedIsFixed(call);
    TrimmedIsFixed(name);
    FirstParenthesis(name, args + ")");
  }

  lemma CallSlices(call: string, name: string, args: string)
    requires call == name + ("(" + (args + ")"))
    ensures |call| == |name| + |args| + 2 && call[|call| - 1] == ')'
    ensures call[..|name|] == name && call[|name| + 1..|call| - 1] == args
  {
  }

  lemma CallIsRule(call: string, name: string, args: string, prefix: string, suffix: string)
    requires TrimSpace(call) == call && IndexOf(call, '(') == |name| && 0 < |name| < |call| - 1 && call[|call| - 1] == ')'
    requires call[..|name|] == name && TrimSpace(name) == name && call[|name| + 1..|call| - 1] == args
    requires IsGeneratorName(Lower(name))
    ensures InferGenerate(call, prefix, suffix) == Some(Generate(Lower(name), Split(args, ","), prefix, suffix))
  {
    IsCall(call, name);
    CallIsRead(call, |name|, prefix, suffix);
  }

  lemma IsCall(call: string, name: string)
    requires TrimSpace(call) == call && IndexOf(call, '(') == |name| && 0 < |name| < |call| && call[|call| - 1] == ')'
    requires call[..|name|] == name && TrimSpace(name) == name && IsGeneratorName(Lower(name))
    ensures IsGenerator(call)
  {
  }

  lemma CallIsRead(call: string, open: nat, prefix: string, suffix: string)
    requires IsGenerator(call) && TrimSpace(call) == call && IndexOf(call, '(') == open < |call| - 1
    ensures InferGenerate(call, prefix, suffix) == Some(CallRule(call, open, prefix, suffix))
  {
  }

  lemma {:induction false} FirstParenthesis(name: string, more: string)
    requires '(' !in name
    ensures IndexOf(name + ("(" + more), '(') == |name|
    decreases |name|
  {
    var s := name + ("(" + more);
    if name != "" {
      assert s[0] == name[0] && s[1..] == name[1..] + ("(" + more);
      FirstParenthesis(name[1..], more);
    }
  }

  /***** Contexts that do not suit *****/

  lemma TwoSegments(a: string, b: string)
    requires a != "" && PlainName(a) && Trimmed(a) && b != "" && PlainName(b) && Trimmed(b)
    ensures PathSegments(a + "." + b) == [a, b]
  {
    var path := a + "." + b;
    TrimmedIsFixed(path);
    ConcatAssoc(a, ".", b);
    NameIsOneSegment(a, "." + b, "");
    assert "" + a == a;
    DotEndsSegment(a, b);
    VisibleParts(a, b);
  }

  lemma DotEndsSegment(a: string, b: string)
    requires a != "" && b != "" && PlainName(b)
    ensures RawSegments("." + b, a) == [a, b]
  {
    var rest := "." + b;
    assert rest[1..] == b && "" + b == b && b + "" == b;
    NameIsOneSegment(b, "", "");
    assert RawSegments(rest, a) == Flush(a) + RawSegments(b, "");
    assert RawSegments("", b) == [b];
  }

  // A context in which only state.name has a value.
  function StateOf(name: string, v: Json): Context {
    Context(Obj(map["state" := Obj(map[name := v])]), (_: Json) => "", (_: string) => None,
            (_: string, _: seq<string>) => "")
  }

  predicate Unmarked(s: string) {
    forall c :: c in s ==> c !in "'\"()|,"
  }

  // A name that can stand in a path without brackets.
  predicate Name(s: string) {
    s != "" && Trimmed(s) && PlainName(s) && Unmarked(s)
  }

  lemma {:induction false} UnmarkedIsUncut(s: string, d: string)
    requires Delimiter(d) && Unmarked(s)
    ensures Uncut(s, TOP, d) && ModeAfter(TOP, s) == TOP
    decreases |s|
  {
    if s != "" {
      assert s[0] in s && d[0] in "|,";
      assert |d| <= |s| ==> s[..|d|][0] == s[0];
      UnmarkedIsUncut(s[1..], d);
    }
  }

  lemma StateReferenceIsPart(name: string)
    requires Name(name)
    ensures var s := "state." + name;
      IsPart(s, "||") && CanBeFollowed(s, "||") && IsContextReference(s)
  {
    var s := "state." + name;
    TrimmedIsFixed(s);
    VisibleIsNotBlank(s, 0);
    assert HasPrefix(s, "state.");
    UnmarkedIsUncut(s, "||");
    assert s[|s| - 1] in s;
  }

  lemma StateValue(name: string, asked: string, v: Json)
    requires asked != "" && Trimmed(asked) && PlainName(asked)
    ensures ValueOf("state." + asked, StateOf(name, v)) == if asked == name then Some(v) else None
  {
    assert "state." + asked == "state" + "." + asked;
    TwoSegments("state", asked);
    var inner := Obj(map[name := v]);
    assert Lookup(inner, [asked]) == if asked == name then Some(v) else None by {
      assert [asked][1..] == [];
    }
    assert ["state", asked][1..] == [asked];
  }

  lemma SplitWithFallback(reference: string, option: string)
    requires IsPart(reference, "||") && CanBeFollowed(reference, "||") && IsContextReference(reference)
    requires IsPart(option, "||") && (Quoted(option) ==> Unquoted(option) != "")
    ensures var group := reference + "||" + option;
      && Split(group, "||") == [reference, option]
      && IsReference(group) && ReferenceOf(group) == reference && FallbackOf(group) == Some(TrimLiteral(option))
  {
    var group, parts := reference + "||" + option, [reference, option];
    SplitOfJoin(parts, "||");
    assert parts[1..] == [option];
    SplitOfTrimmed(group, "||");
  }

  lemma LetterIsPart(quoted: string)
    requires quoted == "'b'"
    ensures IsPart(quoted, "||") && Quoted(quoted) && Unquoted(quoted) == "b"
  {
    TrimmedIsFixed(quoted);
    VisibleIsNotBlank(quoted, 0);
    assert quoted[1..] == "b'" && "b'"[1..] == "'" && "'"[1..] == "";
  }

  /** A null value counts as missing for the rule only: state.name||'b'. */
  lemma NullDisagrees(name: string)
    requires Name(name)
    ensures var group, ctx := "state." + name + "||" + "'b'", StateOf(name, Null);
      RuleText(group, ctx) == Some("b") && Replacement(group, ctx) == "<nil>"
  {
    var quoted := "'b'";
    var group, ctx := "state." + name + "||" + quoted, StateOf(name, Null);
    StateReferenceIsPart(name);
    StateValue(name, name, Null);
    LetterIsPart(quoted);
    SplitWithFallback("state." + name, quoted);
    FallbackRuleText(group, ctx);
    FallbackReplacement(group, ctx);
    NilIsNotBlank();
  }

  /** A fallback without quotes is text for the rule and a path for the template: state.name||state.other, where
      only the second has a value. */
  lemma UnquotedFallbackDisagreesExactlyWhen(name: string, other: string, value: string)
    requires Name(name) && Name(other) && name != other
    ensures var group, ctx := "state." + name + "||" + ("state." + other), StateOf(other, Str(value));
      && RuleText(group, ctx) == Some("state." + other)
      && Replacement(group, ctx) == (if Blank(value) then "" else value)
      && (RuleText(group, ctx) != Some(Replacement(group, ctx)) <==> value != "state." + other)
  {
    var option := "state." + other;
    var group, ctx := "state." + name + "||" + option, StateOf(other, Str(value));
    StateReferenceIsPart(name);
    StateReferenceIsPart(other);
    StateValue(other, name, Str(value));
    StateValue(other, other, Str(value));
    SplitWithFallback("state." + name, option);
    FallbackRuleText(group, ctx);
    FallbackReplacement(group, ctx);
    ReferenceIsNotQuoted(option, ctx);
    assert !Blank(option);
  }

  lemma SplitWithBars(reference: string)
    requires IsPart(reference, "||") && CanBeFollowed(reference, "||") && IsContextReference(reference)
    ensures var group := reference + "||";
      Split(group, "||") == [reference] && IsReference(group) && ReferenceOf(group) == reference
  {
    var group := reference + "||";
    assert group == reference + "||" + "" && "" + reference == reference;
    CutAfter(reference, "", "", TOP, "||");
    assert Cut(group, "", TOP, "||") == [reference, ""];
    assert [reference, ""][1..] == [""] && [""][1..] == [];
    assert Compact([""]) == [];
    PartStartsVisible(reference);
    VisibleIsNotBlank(group, 0);
    SplitOfTrimmed(group, "||");
  }

  lemma PartStartsVisible(p: string)
    requires TrimSpace(p) == p && !Blank(p)
    ensures p != "" && !IsSpace(p[0])
  {
    var l, r := TrimSplits(p);
  }

  /** Trailing bars are dropped by the rule and are part of the path for the template: state.name||. */
  lemma TrailingBarsDisagreeExactlyWhen(name: string, value: string)
    requires Name(name)
    ensures var group, ctx := "state." + name + "||", StateOf(name, Str(value));
      && RuleText(group, ctx) == Some(value) && Replacement(group, ctx) == ""
      && (RuleText(group, ctx) != Some(Replacement(group, ctx)) <==> value != "")
  {
    var group, ctx := "state." + name + "||", StateOf(name, Str(value));
    StateReferenceIsPart(name);
    SplitWithBars("state." + name);
    StateValue(name, name, Str(value));
    TrimmedIsFixed(group);
    assert group == "state." + (name + "||") && |name + "||"| != |name|;
    StateValue(name, name + "||", Str(value));
    LoneRuleText(group, ctx);
    LoneReplacement(group, ctx);
  }

  /***** Schemas of values *****/

  // b has the shape of a: fields may be missing or new, and null stands for anything but an object.
  predicate Like(a: Json, b: Json) {
    match a
    case Null => b == Null
    case Bool(_) => b == Null || b.Bool?
    case Num(n) => b == Null || (b.Num? && (Whole(n) ==> Whole(b.n)))
    case Str(_) => b == Null || b.Str?
    case Arr(items) => b == Null || (b.Arr? && (items != [] ==> forall e :: e in b.items ==> Like(items[0], e)))
    case Obj(fields) => b.Obj? && forall k :: k in fields && k in b.fields ==> Like(fields[k], b.fields[k])
  }

  lemma StringSchema(value: string)
    ensures var s := InferString(value); s.schemaType == StringType && (s.example.Some? ==> s.example.value.Str?)
  {
  }

  /** An inferred schema accepts exactly the values of the same shape. */
  lemma {:induction false} AcceptsExactlyTheLike(a: Json, b: Json)
    ensures Accepts(Infer(a), b) <==> Like(a, b)
  {
    match a
    case Str(s) => StringSchema(s);
    case Arr(items) =>
      if items != [] && b.Arr? {
        forall e | e in b.items
          ensures Accepts(Infer(items[0]), e) <==> Like(items[0], e)
        {
          AcceptsExactlyTheLike(items[0], e);
        }
      }
    case Obj(fields) =>
      if b.Obj? {
        forall k | k in fields && k in b.fields
          ensures Accepts(Infer(fields[k]), b.fields[k]) <==> Like(fields[k], b.fields[k])
        {
          AcceptsExactlyTheLike(fields[k], b.fields[k]);
        }
      }
    case _ =>
  }

  /** Required keys ask in addition that the object has them, with a value that is neither null nor a blank string. */
  lemma RequiredExactlyWhen(s: Schema, keys: seq<string>, v: Json)
    requires s.schemaType == ObjectType && s.required == [] && v.Obj?
    ensures Accepts(s.(required := keys), v) <==>
      && Accepts(s, v)
      && forall key :: key in keys && TrimSpace(key) != "" ==>
           && TrimSpace(key) in v.fields && v.fields[TrimSpace(key)] != Null
           && (v.fields[TrimSpace(key)].Str? ==> TrimSpace(v.fields[TrimSpace(key)].s) != "")
  {
  }

  // In every array, the elements have the shape of the first one.
  predicate Even(v: Json) {
    match v
    case Arr(items) => items != [] ==> Even(items[0]) && forall i | 1 <= i < |items| :: Like(items[0], items[i])
    case Obj(fields) => forall k | k in fields :: Even(fields[k])
    case _ => true
  }

  /** A value fits the schema inferred from it exactly when its arrays are even. */
  lemma {:induction false} FitsItsOwnSchema(v: Json)
    ensures Accepts(Infer(v), v) <==> Even(v)
  {
    AcceptsExactlyTheLike(v, v);
    LikeItself(v);
  }

  lemma {:induction false} LikeItself(v: Json)
    ensures Like(v, v) <==> Even(v)
  {
    match v
    case Arr(items) =>
      if items != [] {
        LikeItself(items[0]);
        assert items[0] in items;
      }
    case Obj(fields) =>
      forall k | k in fields
        ensures Like(fields[k], fields[k]) <==> Even(fields[k])
      {
        LikeItself(fields[k]);
      }
    case _ =>
  }

  /** Whatever the templates in it, the example that a schema renders fits the schema. */
  lemma {:induction false} RenderedFits(v: Json, ctx: Context)
    ensures Accepts(Infer(v), Render(Infer(v), ctx))
  {
    match v
    case Str(s) => StringRendersToString(s, ctx);
    case Arr(items) =>
      if items != [] {
        RenderedFits(items[0], ctx);
      }
    case Obj(fields) =>
      forall k | k in fields
        ensures Accepts(Infer(fields[k]), Render(Infer(fields[k]), ctx))
      {
        RenderedFits(fields[k], ctx);
      }
    case _ =>
  }

  lemma StringRendersToString(value: string, ctx: Context)
    ensures var s := InferString(value);
      s.schemaType == StringType && (Render(s, ctx).Str? || Render(s, ctx) == Null)
  {
    StringSchema(value);
    StringSchemaRenders(InferString(value), ctx);
  }

  lemma StringSchemaRenders(s: Schema, ctx: Context)
    requires s.schemaType == StringType && (s.example.Some? ==> s.example.value.Str?)
    ensures Render(s, ctx).Str? || Render(s, ctx) == Null
  {
  }

  predicate TemplateFree(v: Json) {
    match v
    case Str(s) => Find(s, "{{").None?
    case Arr(items) => forall i | 0 <= i < |items| :: TemplateFree(items[i])
    case Obj(fields) => forall k | k in fields :: TemplateFree(fields[k])
    case _ => true
  }

  // Every array cut to its first element.
  function FirstOnly(v: Json): Json {
    match v
    case Arr(items) => Arr(if items == [] then [] else [FirstOnly(items[0])])
    case Obj(fields) => Obj(map k | k in fields :: FirstOnly(fields[k]))
    case _ => v
  }

  /** A template-free value comes back with every array cut to its first element. */
  lemma {:induction false} RenderOfInfer(v: Json, ctx: Context)
    requires TemplateFree(v)
    ensures Render(Infer(v), ctx) == FirstOnly(v)
  {
    match v
    case Str(s) => LiteralString(s, ctx);
    case Arr(items) =>
      if items != [] {
        RenderOfInfer(items[0], ctx);
        ListRenders(Infer(items[0]), ctx);
      }
    case Obj(fields) =>
      forall k | k in fields
        ensures Render(Infer(fields[k]), ctx) == FirstOnly(fields[k])
      {
        RenderOfInfer(fields[k], ctx);
      }
      ObjectRenders(Infer(v), ctx);
    case _ => ScalarRenders(v, ctx);
  }

  lemma LiteralString(s: string, ctx: Context)
    requires Find(s, "{{").None?
    ensures Render(InferString(s), ctx) == Str(s)
  {
  }

  lemma ScalarRenders(v: Json, ctx: Context)
    requires !v.Str? && !v.Arr? && !v.Obj?
    ensures Render(Infer(v), ctx) == v
  {
  }

  lemma ListRenders(items: Schema, ctx: Context)
    ensures Render(Plain(ArrayType).(items := Some(items)), ctx) == Arr([Render(items, ctx)])
  {
  }

  lemma ObjectRenders(s: Schema, ctx: Context)
    requires s == Plain(ObjectType).(properties := s.properties)
    ensures Render(s, ctx) == Obj(map k | k in s.properties :: Render(s.properties[k], ctx))
  {
  }

  predicate ShortArrays(v: Json) {
    match v
    case Arr(items) => |items| <= 1 && forall i | 0 <= i < |items| :: ShortArrays(items[i])
    case Obj(fields) => forall k | k in fields :: ShortArrays(fields[k])
    case _ => true
  }

  lemma {:induction false} CutIsSame(v: Json)
    ensures FirstOnly(v) == v <==> ShortArrays(v)
  {
    match v
    case Arr(items) =>
      if |items| == 1 {
        CutIsSame(items[0]);
        assert items == [items[0]];
      }
    case Obj(fields) =>
      forall k | k in fields
        ensures FirstOnly(fields[k]) == fields[k] <==> ShortArrays(fields[k])
      {
        CutIsSame(fields[k]);
      }
      if FirstOnly(v) == v {
        forall k | k in fields
          ensures ShortArrays(fields[k])
        {
          assert FirstOnly(v).fields[k] == FirstOnly(fields[k]);
        }
      }
    case _ =>
  }

  /** It comes back as it was exactly when no array has two elements. */
  lemma {:induction false} RenderUndoesInferExactlyWhen(v: Json, ctx: Context)
    requires TemplateFree(v)
    ensures Render(Infer(v), ctx) == v <==> ShortArrays(v)
  {
    RenderOfInfer(v, ctx);
    CutIsSame(v);
  }
}
