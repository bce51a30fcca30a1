/** The lambda tests of the suite, from the template text to what is
    written. The text a lambda returns is compiled and rendered in its
    place: with the default delimiters for a variable, and with the
    delimiters of its section for a section. A lambda with a render callback
    writes what it builds from the callback's result. The names and the
    texts of each test are parameters fixed by its precondition, so that the
    template reads as the test writes it. */
module LambdaCases {
  import opened Text
  import opened Syntax
  import opened Parser
  import opened ParseFacts
  import opened MarkerFacts
  import opened Escape
  import opened Data
  import opened Scope
  import opened Render
  import opened RenderFacts
  import opened RenderCases
  import opened SectionCases

  /** The pair that `{{= | | =}}` switches to. */
  const Bars: Delims := Delimiters("|", "|")

  // ---------------------------------------------------------------------
  // Shared steps

  /** Both values of a data object with two keys of plain letters. */
  lemma TwoKeys(ctx: Context, k1: string, v1: Value, k2: string, v2: Value)
    requires Lowercase(k1) && Lowercase(k2) && k1 != k2
    requires ctx == Root(Object(map[k1 := v1, k2 := v2]))
    ensures Lookup(ctx, k1) == Some(v1) && Lookup(ctx, k2) == Some(v2)
  {
    var m := map[k1 := v1, k2 := v2];
    assert '.' !in k1 && k1 != "." && '.' !in k2 && k2 != ".";
    assert ctx == Push(Frames([]), Object(m));
    PushShadows(Frames([]), m, k1);
    PushShadows(Frames([]), m, k2);
  }

  /** Text with none of the five characters the HTML escape rewrites. */
  predicate Plain(s: string) {
    forall i :: 0 <= i < |s| ==> !HtmlSpecial(s[i])
  }

  /** A string value without a character the escaper changes, under an
      escaped tag, is written as it is. */
  lemma PlainString(fuel: nat, n: string, s: string, ctx: Context, calls: nat)
    requires Lookup(ctx, n) == Some(Str(s)) && Plain(s)
    ensures RenderNode(fuel, Variable(n, true), ctx, Html, calls) == Ok(s, calls)
  {
    StringVariable(fuel, n, s, ctx, calls);
    HtmlEscapePlain(s);
  }

  /** Text, one node, text: the node's output between the two texts. */
  lemma Between(fuel: nat, a: string, n: Node, b: string, ctx: Context, esc: Escaper, calls: nat, w: string, c: nat)
    requires RenderNode(fuel, n, ctx, esc, calls) == Ok(w, c)
    ensures RenderNodes(fuel, [Text(a), n, Text(b)], ctx, esc, calls) == Ok(a + w + b, c)
  {
    var last: seq<Node> := [Text(b)];
    assert RenderNodes(fuel, [n] + last, ctx, esc, calls) == Ok(w + b, c) by {
      RenderText(fuel, b, ctx, esc, c);
      RenderPair(fuel, n, last, ctx, esc, calls, w, c, b, c);
    }
    TextThen(fuel, a, [n] + last, ctx, esc, calls);
    assert [Text(a), n, Text(b)] == [Text(a)] + ([n] + last);
  }

  /** A node that writes nothing, then three more. */
  lemma SilentFirst(fuel: nat, first: Node, rest: seq<Node>, ctx: Context, esc: Escaper, calls: nat, w: string, c: nat)
    requires RenderNode(fuel, first, ctx, esc, calls) == Ok([], calls)
    requires RenderNodes(fuel, rest, ctx, esc, calls) == Ok(w, c)
    ensures RenderNodes(fuel, [first] + rest, ctx, esc, calls) == Ok(w, c)
  {
    RenderPair(fuel, first, rest, ctx, esc, calls, [], calls, w, c);
    assert [] + w == w;
  }

  /** A tag whose lambda returns a text that compiles to nodes writing `w`:
      `w`, which an escaped tag leaves alone when it is plain. */
  lemma TextLambdaTag(fuel: nat, n: string, escaped: bool, x: string, ctx: Context, calls: nat, nodes: seq<Node>, w: string)
    requires fuel > 0 && Lookup(ctx, n) == Some(Lambda(Lit(x)))
    requires Parse(x, Braces) == Parsed(nodes)
    requires RenderNodes(fuel - 1, nodes, ctx, Html, calls) == Ok(w, calls) && (escaped ==> Plain(w))
    ensures RenderNode(fuel, Variable(n, escaped), ctx, Html, calls) == Ok(w, calls)
  {
    LambdaVariableWrites(fuel, n, escaped, Lit(x), ctx, Html, calls, nodes, w, calls);
    if escaped {
      HtmlEscapePlain(w);
    }
  }

  /** A name of plain letters holds no bar. */
  lemma BarFree(n: string)
    requires Lowercase(n)
    ensures TagName(n) && '|' !in n
  {
    PlainName(n);
  }

  /** A section whose lambda, given the body, returns a text `y` that
      compiles with the section's delimiters to nodes writing `w`: `w`. */
  lemma TextLambdaSection(fuel: nat, n: string, e: LambdaExpr, children: seq<Node>, x: string, d: Delims, pos: nat,
                          ctx: Context, calls: nat, y: string, nodes: seq<Node>, w: string)
    requires fuel > 0 && Lookup(ctx, n) == Some(Lambda(e)) && EvalLambda(e, x, calls) == (y, calls)
    requires Parse(y, d) == Parsed(nodes)
    requires RenderNodes(fuel - 1, nodes, ctx, Html, calls) == Ok(w, calls)
    ensures RenderNode(fuel, Section(n, false, children, x, d, pos, true), ctx, Html, calls) == Ok(w, calls)
  {
    LambdaSectionWrites(fuel, n, e, children, x, d, pos, true, ctx, Html, calls, nodes, w, calls);
  }

  /** A lambda that puts `mid` between two copies of its argument. */
  lemma AroundArg(e: LambdaExpr, x: string, mid: string, calls: nat)
    requires e == Join(Join(Arg, Lit(mid)), Arg)
    ensures EvalLambda(e, x, calls) == (x + mid + x, calls)
  {
    assert EvalLambda(Join(Arg, Lit(mid)), x, calls) == (x + mid, calls);
  }

  /** The switch to bars, then text, one node, text. */
  lemma SwitchThenBetween(fuel: nat, a: string, n: Node, b: string, ctx: Context, esc: Escaper, calls: nat,
                          w: string, c: nat)
    requires RenderNode(fuel, n, ctx, esc, calls) == Ok(w, c)
    ensures RenderNodes(fuel, [SetDelimiter(Bars), Text(a), n, Text(b)], ctx, esc, calls) == Ok(a + w + b, c)
  {
    Between(fuel, a, n, b, ctx, esc, calls, w, c);
    SilentFirst(fuel, SetDelimiter(Bars), [Text(a), n, Text(b)], ctx, esc, calls, a + w + b, c);
    assert [SetDelimiter(Bars)] + [Text(a), n, Text(b)] == [SetDelimiter(Bars), Text(a), n, Text(b)];
  }

  /** The switch `{{= | | =}}` as contents the directive reader takes apart. */
  lemma BarsDirective(b: string)
    requires b == "=" + Spaces(1) + "|" + Spaces(0 + 1) + "|" + Spaces(1) + "="
    ensures b == "= | | =" && "{{= | | =}}" == [] + "{{" + b + "}}"
    ensures '}' !in b && Edges("|", "|") && DelimiterToken("|")
  {
    assert Spaces(1) == " ";
  }

  /** The state after `{{= | | =}}` at the start of a template. */
  lemma BarsHead(s: string, u: string, st2: State)
    requires s == "{{= | | =}}" + u
    requires st2 == State(11, Bars, [], [SetDelimiter(Bars)], [])
    ensures Good(s, st2) && Parse(s, Braces) == Scan(s, st2) && s[st2.pos..] == u
  {
    var b := "=" + Spaces(1) + "|" + Spaces(0 + 1) + "|" + Spaces(1) + "=";
    BarsDirective(b);
    assert s == [] + "{{" + b + "}}" + u;
    assert Texts([]) + [SetDelimiter(Bars)] == [SetDelimiter(Bars)];
    DirectiveHead(s, [], b, "|", "|", 0, 1, 1, u, st2);
    Suffix(s, "{{= | | =}}", u);
  }

  // ---------------------------------------------------------------------
  // basic: `{{lambda}}` returning `Hello {{planet}}`

  /** `{{n}}` is one escaped variable. */
  lemma LambdaTagCompiles(s: string, n: string)
    requires Lowercase(n) && s == "{{" + n + "}}"
    ensures Parse(s, Braces) == Parsed([Variable(n, true)])
  {
    PlainName(n);
    assert s == [] + "{{" + n + "}}" + [];
    assert '{' !in [];
    VariableIn(s, [], n, []);
    assert Texts([]) + [Variable(n, true)] + Texts([]) == [Variable(n, true)];
  }

  /** `Hello {{p}}` is text and one escaped variable. */
  lemma HelloPlanetCompiles(x: string, p: string)
    requires Lowercase(p) && x == "Hello {{" + p + "}}"
    ensures Parse(x, Braces) == Parsed([Text("Hello "), Variable(p, true)])
  {
    PlainName(p);
    var t := "Hello ";
    assert x == t + "{{" + p + "}}" + [];
    assert '{' !in t;
    VariableIn(x, t, p, []);
    assert Texts(t) + [Variable(p, true)] + Texts([]) == [Text(t), Variable(p, true)];
  }

  /** `{{lambda}}` whose lambda returns `Hello {{planet}}`: the text is
      compiled and rendered in the tag's context, so with `planet` set to
      `world` the template writes `Hello world`. */
  lemma BasicRenders(fuel: nat, calls: nat, s: string, n: string, x: string, p: string, v: string, ctx: Context)
    requires fuel > 1 && Lowercase(n) && Lowercase(p) && n != p && Plain(v)
    requires s == "{{" + n + "}}" && x == "Hello {{" + p + "}}"
    requires ctx == Root(Object(map[n := Lambda(Lit(x)), p := Str(v)]))
    ensures RenderSource(fuel, s, Braces, ctx, Html, calls) == Ok("Hello " + v, calls)
  {
    var tag := Variable(n, true);
    LambdaTagCompiles(s, n);
    BasicTag(fuel - 1, calls, n, x, p, v, ctx);
    OneNode(fuel - 1, tag, ctx, Html, calls, "Hello " + v, calls);
    CompiledSource(fuel, s, Braces, ctx, Html, calls, [tag]);
  }


  /** The lambda tag of that test. */
  lemma BasicTag(fuel: nat, calls: nat, n: string, x: string, p: string, v: string, ctx: Context)
    requires fuel > 0 && Lowercase(n) && Lowercase(p) && n != p && Plain(v) && x == "Hello {{" + p + "}}"
    requires ctx == Root(Object(map[n := Lambda(Lit(x)), p := Str(v)]))
    ensures RenderNode(fuel, Variable(n, true), ctx, Html, calls) == Ok("Hello " + v, calls)
  {
    var nodes := [Text("Hello "), Variable(p, true)];
    var w := "Hello " + v;
    TwoKeys(ctx, n, Lambda(Lit(x)), p, Str(v));
    TextThenString(fuel - 1, "Hello ", p, v, ctx, calls);
    assert Plain(w);
    HelloPlanetCompiles(x, p);
    TextLambdaTag(fuel, n, true, x, ctx, calls, nodes, w);
  }

  /** Text, then an escaped variable holding a plain string. */
  lemma TextThenString(fuel: nat, t: string, p: string, v: string, ctx: Context, calls: nat)
    requires Lookup(ctx, p) == Some(Str(v)) && Plain(v)
    ensures RenderNodes(fuel, [Text(t), Variable(p, true)], ctx, Html, calls) == Ok(t + v, calls)
  {
    PlainString(fuel, p, v, ctx, calls);
    TextThenVariable(fuel, t, p, ctx, Html, calls, v, calls);
  }

  // ---------------------------------------------------------------------
  // delimiters: `{{= | | =}}Hello, (|&lambda|)!` returning `|planet| => {{planet}}`

  /** `{{= | | =}}t|&n|u`: after the switch, `|&n|` is an unescaped variable
      between two texts. */
  lemma BarsAmpersandIn(s: string, t: string, n: string, u: string)
    requires TagName(n) && '|' !in n && '|' !in t && '|' !in u && s == "{{= | | =}}" + t + "|&" + n + "|" + u
    ensures Parse(s, Braces) == Parsed([SetDelimiter(Bars)] + Texts(t) + [Variable(n, false)] + Texts(u))
  {
    var st3 := State(11 + |t|, Bars, t, [SetDelimiter(Bars)], []);
    assert Good(s, st3) && Parse(s, Braces) == Scan(s, st3) && s[st3.pos..] == "|" + ("&" + n) + "|" + u by {
      assert s == "{{= | | =}}" + (t + ("|" + ("&" + n) + "|" + u));
      BarsText(s, t, "|" + ("&" + n) + "|" + u, st3);
    }
    AmpersandToEnd(s, st3, n, u);
  }

  /** The state after `{{= | | =}}` and a text without a bar. */
  lemma BarsText(s: string, t: string, u: string, st3: State)
    requires '|' !in t && s == "{{= | | =}}" + (t + u)
    requires st3 == State(11 + |t|, Bars, t, [SetDelimiter(Bars)], [])
    ensures Good(s, st3) && Parse(s, Braces) == Scan(s, st3) && s[st3.pos..] == u
  {
    var st2 := State(11, Bars, [], [SetDelimiter(Bars)], []);
    BarsHead(s, t + u, st2);
    assert st2.pending + t == t;
    TextAhead(s, st2, t, u, st3);
  }

  /** `|p| => {{p}}` is text and one escaped variable. */
  lemma BarsAnswerCompiles(y: string, p: string)
    requires Lowercase(p) && y == "|" + p + "| => {{" + p + "}}"
    ensures Parse(y, Braces) == Parsed([Text("|" + p + "| => "), Variable(p, true)])
  {
    PlainName(p);
    var t := "|" + p + "| => ";
    assert y == t + "{{" + p + "}}" + [];
    assert '{' !in t;
    VariableIn(y, t, p, []);
    assert Texts(t) + [Variable(p, true)] + Texts([]) == [Text(t), Variable(p, true)];
  }

  /** The template of that test compiles to the switch, text, the variable
      and text. */
  lemma DelimitersCompiles(s: string, t: string, n: string, u: string)
    requires Lowercase(n) && t != [] && u != [] && '|' !in t && '|' !in u
    requires s == "{{= | | =}}" + t + "|&" + n + "|" + u
    ensures Parse(s, Braces) == Parsed([SetDelimiter(Bars), Text(t), Variable(n, false), Text(u)])
  {
    BarFree(n);
    BarsAmpersandIn(s, t, n, u);
    assert [SetDelimiter(Bars)] + Texts(t) + [Variable(n, false)] + Texts(u)
        == [SetDelimiter(Bars), Text(t), Variable(n, false), Text(u)];
  }

  /** A variable lambda's text is compiled with the default delimiters,
      whatever the template switched to: `{{= | | =}}t|&lambda|u`, with the
      lambda returning `|planet| => {{planet}}`, writes `t|planet| => `, the
      escaped value of `planet`, and `u`. With `t` = `Hello, (`, `u` = `)!`
      and `planet` set to `world` that is `Hello, (|planet| => world)!`. */
  lemma DelimitersRenders(fuel: nat, calls: nat, s: string, t: string, n: string, u: string, y: string, p: string,
                          v: string, ctx: Context)
    requires fuel > 1 && Lowercase(n) && Lowercase(p) && n != p && t != [] && u != [] && '|' !in t && '|' !in u
    requires s == "{{= | | =}}" + t + "|&" + n + "|" + u && y == "|" + p + "| => {{" + p + "}}"
    requires ctx == Root(Object(map[n := Lambda(Lit(y)), p := Str(v)]))
    ensures RenderSource(fuel, s, Braces, ctx, Html, calls) == Ok(t + ("|" + p + "| => " + HtmlEscape(v)) + u, calls)
  {
    var w := "|" + p + "| => " + HtmlEscape(v);
    var nodes := [SetDelimiter(Bars), Text(t), Variable(n, false), Text(u)];
    DelimitersCompiles(s, t, n, u);
    BarsTag(fuel - 1, calls, n, y, p, v, ctx);
    SwitchThenBetween(fuel - 1, t, Variable(n, false), u, ctx, Html, calls, w, calls);
    CompiledSource(fuel, s, Braces, ctx, Html, calls, nodes);
  }

  /** The unescaped lambda tag of that test. */
  lemma BarsTag(fuel: nat, calls: nat, n: string, y: string, p: string, v: string, ctx: Context)
    requires fuel > 0 && Lowercase(n) && Lowercase(p) && n != p && y == "|" + p + "| => {{" + p + "}}"
    requires ctx == Root(Object(map[n := Lambda(Lit(y)), p := Str(v)]))
    ensures RenderNode(fuel, Variable(n, false), ctx, Html, calls) == Ok("|" + p + "| => " + HtmlEscape(v), calls)
  {
    var t := "|" + p + "| => ";
    var nodes := [Text(t), Variable(p, true)];
    TwoKeys(ctx, n, Lambda(Lit(y)), p, Str(v));
    StringVariable(fuel - 1, p, v, ctx, calls);
    TextThenVariable(fuel - 1, t, p, ctx, Html, calls, HtmlEscape(v), calls);
    BarsAnswerCompiles(y, p);
    TextLambdaTag(fuel, n, false, y, ctx, calls, nodes, t + HtmlEscape(v));
  }

  // ---------------------------------------------------------------------
  // section_expansion: `<{{#lambda}}-{{/lambda}}>` returning body, `{{planet}}`, body

  /** `{{#` written as the tag's two parts. */
  lemma OpenerSplit(s: string, t: string, n: string, x: string, u: string)
    requires s == t + "{{#" + n + "}}" + x + "{{/" + n + "}}" + u
    ensures s == t + "{{" + ['#'] + n + "}}" + x + "{{/" + n + "}}" + u
  {
    assert "{{#" == "{{" + ['#'];
  }

  /** `t{{#n}}x{{/n}}u` is text, the closed section around its body, text. */
  lemma ExpansionCompiles(s: string, t: string, n: string, x: string, u: string)
    requires Lowercase(n) && t != [] && x != [] && u != [] && '{' !in t && '{' !in x && '{' !in u
    requires s == t + "{{#" + n + "}}" + x + "{{/" + n + "}}" + u
    ensures Parse(s, Braces) == Parsed([Text(t), Section(n, false, [Text(x)], x, Braces, |t|, true), Text(u)])
  {
    PlainName(n);
    OpenerSplit(s, t, n, x, u);
    MatchedSectionIn(s, t, '#', n, x, u);
    assert Texts(t) + [Section(n, false, Texts(x), x, Braces, |t|, true)] + Texts(u)
        == [Text(t), Section(n, false, [Text(x)], x, Braces, |t|, true), Text(u)];
  }

  /** `x{{p}}x` is the body twice around an escaped variable. */
  lemma ExpandedCompiles(y: string, x: string, p: string)
    requires Lowercase(p) && x != [] && '{' !in x && y == x + ("{{" + p + "}}") + x
    ensures Parse(y, Braces) == Parsed([Text(x), Variable(p, true), Text(x)])
  {
    PlainName(p);
    assert y == x + "{{" + p + "}}" + x;
    VariableIn(y, x, p, x);
    assert Texts(x) + [Variable(p, true)] + Texts(x) == [Text(x), Variable(p, true), Text(x)];
  }

  /** A section lambda's text is compiled and rendered in place:
      `t{{#lambda}}x{{/lambda}}u`, with the lambda returning its body, then
      `{{planet}}`, then its body again, writes `t`, `x`, the escaped value of
      `planet`, `x` and `u`. With `<`, `-`, `>` and `planet` set to `Earth`
      that is `<-Earth->`. */
  lemma ExpansionRenders(fuel: nat, calls: nat, s: string, t: string, n: string, x: string, u: string, p: string,
                         v: string, ctx: Context)
    requires fuel > 1 && Lowercase(n) && Lowercase(p) && n != p
    requires t != [] && x != [] && u != [] && '{' !in t && '{' !in x && '{' !in u
    requires s == t + "{{#" + n + "}}" + x + "{{/" + n + "}}" + u
    requires ctx == Root(Object(map[n := Lambda(Join(Join(Arg, Lit("{{" + p + "}}")), Arg)), p := Str(v)]))
    ensures RenderSource(fuel, s, Braces, ctx, Html, calls) == Ok(t + (x + HtmlEscape(v) + x) + u, calls)
  {
    var section := Section(n, false, [Text(x)], x, Braces, |t|, true);
    ExpansionCompiles(s, t, n, x, u);
    ExpansionSection(fuel - 1, calls, n, x, |t|, p, v, ctx);
    Between(fuel - 1, t, section, u, ctx, Html, calls, x + HtmlEscape(v) + x, calls);
    CompiledSource(fuel, s, Braces, ctx, Html, calls, [Text(t), section, Text(u)]);
  }

  /** The section of that test. */
  lemma ExpansionSection(fuel: nat, calls: nat, n: string, x: string, pos: nat, p: string, v: string, ctx: Context)
    requires fuel > 0 && Lowercase(n) && Lowercase(p) && n != p && x != [] && '{' !in x
    requires ctx == Root(Object(map[n := Lambda(Join(Join(Arg, Lit("{{" + p + "}}")), Arg)), p := Str(v)]))
    ensures RenderNode(fuel, Section(n, false, [Text(x)], x, Braces, pos, true), ctx, Html, calls)
         == Ok(x + HtmlEscape(v) + x, calls)
  {
    var e := Join(Join(Arg, Lit("{{" + p + "}}")), Arg);
    var y := x + ("{{" + p + "}}") + x;
    var nodes := [Text(x), Variable(p, true), Text(x)];
    TwoKeys(ctx, n, Lambda(e), p, Str(v));
    AroundString(fuel - 1, calls, x, p, v, ctx);
    AroundArg(e, x, "{{" + p + "}}", calls);
    ExpandedCompiles(y, x, p);
    TextLambdaSection(fuel, n, e, [Text(x)], x, Braces, pos, ctx, calls, y, nodes, x + HtmlEscape(v) + x);
  }

  /** A plain text twice around an escaped string variable. */
  lemma AroundString(fuel: nat, calls: nat, x: string, p: string, v: string, ctx: Context)
    requires Lookup(ctx, p) == Some(Str(v))
    ensures RenderNodes(fuel, [Text(x), Variable(p, true), Text(x)], ctx, Html, calls) == Ok(x + HtmlEscape(v) + x, calls)
  {
    StringVariable(fuel, p, v, ctx, calls);
    Between(fuel, x, Variable(p, true), x, ctx, Html, calls, HtmlEscape(v), calls);
  }

  // ---------------------------------------------------------------------
  // section_alternate_delimiters: `{{= | | =}}<|#lambda|-|/lambda|>`

  /** The section tags under bars written as the pieces they are read in. */
  lemma BarsSectionSplit(s: string, t: string, n: string, x: string, u: string)
    requires s == "{{= | | =}}" + t + "|#" + n + "|" + x + "|/" + n + "|" + u
    ensures s == "{{= | | =}}" + (t + ("|" + ['#'] + n + "|" + x + "|" + ['/'] + n + "|" + u))
  {
    assert "|#" == "|" + ['#'] && "|/" == "|" + ['/'];
  }

  /** `{{= | | =}}t|#n|x|/n|u`: the switch, text, a closed section under bars
      around its body, text. */
  lemma BarsSectionCompiles(s: string, t: string, n: string, x: string, u: string)
    requires Lowercase(n) && t != [] && x != [] && u != [] && '|' !in t && '|' !in x && '|' !in u
    requires s == "{{= | | =}}" + t + "|#" + n + "|" + x + "|/" + n + "|" + u
    ensures Parse(s, Braces)
         == Parsed([SetDelimiter(Bars), Text(t), Section(n, false, [Text(x)], x, Bars, 11 + |t|, true), Text(u)])
  {
    BarFree(n);
    BarsSectionIn(s, t, n, x, u);
    BarsSectionShape(t, n, x, u);
  }

  /** The nodes that lemma gives, written out. */
  lemma BarsSectionShape(t: string, n: string, x: string, u: string)
    requires t != [] && x != [] && u != []
    ensures [SetDelimiter(Bars)] + Texts(t) + [Section(n, false, Texts(x), x, Bars, 11 + |t|, true)] + Texts(u)
         == [SetDelimiter(Bars), Text(t), Section(n, false, [Text(x)], x, Bars, 11 + |t|, true), Text(u)]
  {
  }

  /** The same for any text and a tag name without a bar. */
  lemma BarsSectionIn(s: string, t: string, n: string, x: string, u: string)
    requires TagName(n) && '|' !in n && '|' !in t && '|' !in x && '|' !in u
    requires s == "{{= | | =}}" + t + "|#" + n + "|" + x + "|/" + n + "|" + u
    ensures Parse(s, Braces)
         == Parsed([SetDelimiter(Bars)] + Texts(t) + [Section(n, false, Texts(x), x, Bars, 11 + |t|, true)] + Texts(u))
  {
    var rest := "|" + ['#'] + n + "|" + x + "|" + ['/'] + n + "|" + u;
    var st3 := State(11 + |t|, Bars, t, [SetDelimiter(Bars)], []);
    assert Good(s, st3) && Parse(s, Braces) == Scan(s, st3) && s[st3.pos..] == rest by {
      BarsSectionSplit(s, t, n, x, u);
      BarsText(s, t, rest, st3);
    }
    assert '|' !in ['#'] + n && '|' !in ['/'] + n;
    SectionToEnd(s, st3, '#', n, x, u);
  }

  /** `x{{p}} => |p|x` under bars: only `|p|` is a tag. */
  lemma BarsExpandedCompiles(y: string, x: string, p: string)
    requires Lowercase(p) && x != [] && '|' !in x && y == x + ("{{" + p + "}} => |" + p + "|") + x
    ensures Parse(y, Bars) == Parsed([Text(x + "{{" + p + "}} => "), Variable(p, true), Text(x)])
  {
    var t := x + "{{" + p + "}} => ";
    BarFree(p);
    PlainName(p);
    assert y == t + Bars.open + p + Bars.close + x;
    assert '|' !in t;
    VariableUnder(y, Bars, t, p, x);
    assert Texts(t) + [Variable(p, true)] + Texts(x) == [Text(t), Variable(p, true), Text(x)];
  }

  /** A section lambda's text is compiled with the delimiters in force at the
      section: `{{= | | =}}t|#lambda|x|/lambda|u`, with the lambda returning
      its body, `{{planet}} => |planet|` and its body again, writes `t`, then
      `x{{planet}} => `, the escaped value of `planet` and `x`, then `u`. With
      `<`, `-`, `>` and `planet` set to `Earth` that is
      `<-{{planet}} => Earth->`. */
  lemma BarsSectionRenders(fuel: nat, calls: nat, s: string, t: string, n: string, x: string, u: string, p: string,
                           v: string, ctx: Context)
    requires fuel > 1 && Lowercase(n) && Lowercase(p) && n != p
    requires t != [] && x != [] && u != [] && '|' !in t && '|' !in x && '|' !in u
    requires s == "{{= | | =}}" + t + "|#" + n + "|" + x + "|/" + n + "|" + u
    requires ctx == Root(Object(map[n := Lambda(Join(Join(Arg, Lit("{{" + p + "}} => |" + p + "|")), Arg)), p := Str(v)]))
    ensures RenderSource(fuel, s, Braces, ctx, Html, calls)
         == Ok(t + (x + "{{" + p + "}} => " + HtmlEscape(v) + x) + u, calls)
  {
    var section := Section(n, false, [Text(x)], x, Bars, 11 + |t|, true);
    BarsSectionCompiles(s, t, n, x, u);
    BarsSection(fuel - 1, calls, n, x, 11 + |t|, p, v, ctx);
    SwitchThenBetween(fuel - 1, t, section, u, ctx, Html, calls, x + "{{" + p + "}} => " + HtmlEscape(v) + x, calls);
    CompiledSource(fuel, s, Braces, ctx, Html, calls, [SetDelimiter(Bars), Text(t), section, Text(u)]);
  }

  /** The section of that test. */
  lemma BarsSection(fuel: nat, calls: nat, n: string, x: string, pos: nat, p: string, v: string, ctx: Context)
    requires fuel > 0 && Lowercase(n) && Lowercase(p) && n != p && x != [] && '|' !in x
    requires ctx == Root(Object(map[n := Lambda(Join(Join(Arg, Lit("{{" + p + "}} => |" + p + "|")), Arg)), p := Str(v)]))
    ensures RenderNode(fuel, Section(n, false, [Text(x)], x, Bars, pos, true), ctx, Html, calls)
         == Ok(x + "{{" + p + "}} => " + HtmlEscape(v) + x, calls)
  {
    var mid := "{{" + p + "}} => |" + p + "|";
    var e := Join(Join(Arg, Lit(mid)), Arg);
    var t := x + "{{" + p + "}} => ";
    var nodes := [Text(t), Variable(p, true), Text(x)];
    TwoKeys(ctx, n, Lambda(e), p, Str(v));
    StringVariable(fuel - 1, p, v, ctx, calls);
    Between(fuel - 1, t, Variable(p, true), x, ctx, Html, calls, HtmlEscape(v), calls);
    AroundArg(e, x, mid, calls);
    BarsExpandedCompiles(x + mid + x, x, p);
    TextLambdaSection(fuel, n, e, [Text(x)], x, Bars, pos, ctx, calls, x + mid + x, nodes, t + HtmlEscape(v) + x);
  }

  // ---------------------------------------------------------------------
  // section_multiple_calls: `{{#lambda}}FILE{{/lambda}} != {{#lambda}}LINE{{/lambda}}`

  /** The one value of a data object with a single key of plain letters. */
  lemma OneKey(ctx: Context, k: string, v: Value)
    requires Lowercase(k) && ctx == Root(Object(map[k := v]))
    ensures Lookup(ctx, k) == Some(v)
  {
    var m := map[k := v];
    assert '.' !in k && k != ".";
    assert ctx == Push(Frames([]), Object(m));
    PushShadows(Frames([]), m, k);
  }

  /** A lambda that puts its argument between `l` and `r`. */
  lemma WrapArg(e: LambdaExpr, x: string, l: string, r: string, calls: nat)
    requires e == Join(Join(Lit(l), Arg), Lit(r))
    ensures EvalLambda(e, x, calls) == (l + x + r, calls)
  {
    assert EvalLambda(Join(Lit(l), Arg), x, calls) == (l + x, calls);
  }

  /** The template of that test written as the pieces its first section is
      read in. */
  lemma TwoSectionsSplit(s: string, n: string, a: string, m: string, b: string, tail: string)
    requires s == "{{#" + n + "}}" + a + "{{/" + n + "}}" + m + "{{#" + n + "}}" + b + "{{/" + n + "}}"
    requires tail == "{{" + ['#'] + n + "}}" + b + "{{" + ['/'] + n + "}}" + []
    ensures s == "{{" + ['#'] + n + "}}" + a + "{{" + ['/'] + n + "}}" + (m + tail)
  {
    assert "{{#" == "{{" + ['#'] && "{{/" == "{{" + ['/'];
  }

  /** The state after the first section and the text behind it. */
  lemma FirstSectionAhead(s: string, n: string, a: string, m: string, tail: string, st4: State)
    requires TagName(n) && '{' !in a && '{' !in m
    requires s == "{{" + ['#'] + n + "}}" + a + "{{" + ['/'] + n + "}}" + (m + tail)
    requires st4 == State(10 + 2 * |n| + |a| + |m|, Braces, m, [Section(n, false, Texts(a), a, Braces, 0, true)], [])
    ensures Good(s, st4) && Parse(s, Braces) == Scan(s, st4) && s[st4.pos..] == tail
  {
    var st0 := Initial(Braces);
    var sa := Section(n, false, Texts(a), a, Braces, 0, true);
    var st3 := State(10 + 2 * |n| + |a|, Braces, [], [sa], []);
    assert Good(s, st3) && Parse(s, Braces) == Scan(s, st3) && s[st3.pos..] == m + tail by {
      assert s[st0.pos..] == s && st0.root + Texts(st0.pending) + [sa] == [sa];
      assert '}' !in ['#'] + n && '}' !in ['/'] + n;
      SectionAhead(s, st0, '#', n, a, m + tail, st3);
    }
    assert st3.pending + m == m;
    TextAhead(s, st3, m, tail, st4);
  }

  /** `{{#n}}a{{/n}}m{{#n}}b{{/n}}`: two closed sections over their bodies
      with the text between them. */
  lemma TwoSectionsIn(s: string, n: string, a: string, m: string, b: string)
    requires TagName(n) && '{' !in a && '{' !in m && '{' !in b
    requires s == "{{#" + n + "}}" + a + "{{/" + n + "}}" + m + "{{#" + n + "}}" + b + "{{/" + n + "}}"
    ensures Parse(s, Braces)
         == Parsed([Section(n, false, Texts(a), a, Braces, 0, true)] + Texts(m)
                   + [Section(n, false, Texts(b), b, Braces, 10 + 2 * |n| + |a| + |m|, true)] + Texts([]))
  {
    var tail := "{{" + ['#'] + n + "}}" + b + "{{" + ['/'] + n + "}}" + [];
    var st4 := State(10 + 2 * |n| + |a| + |m|, Braces, m, [Section(n, false, Texts(a), a, Braces, 0, true)], []);
    assert Good(s, st4) && Parse(s, Braces) == Scan(s, st4) && s[st4.pos..] == tail by {
      TwoSectionsSplit(s, n, a, m, b, tail);
      FirstSectionAhead(s, n, a, m, tail, st4);
    }
    assert '}' !in ['#'] + n && '}' !in ['/'] + n && '{' !in [];
    assert FlatClosed(st4.root);
    SectionToEnd(s, st4, '#', n, b, []);
  }

  /** The template of that test compiles to the two sections and the text
      between them. */
  lemma MultipleCompiles(s: string, n: string, a: string, m: string, b: string)
    requires Lowercase(n) && m != [] && '{' !in a && '{' !in m && '{' !in b
    requires s == "{{#" + n + "}}" + a + "{{/" + n + "}}" + m + "{{#" + n + "}}" + b + "{{/" + n + "}}"
    ensures Parse(s, Braces)
         == Parsed([Section(n, false, Texts(a), a, Braces, 0, true), Text(m),
                    Section(n, false, Texts(b), b, Braces, 10 + 2 * |n| + |a| + |m|, true)])
  {
    var sa := Section(n, false, Texts(a), a, Braces, 0, true);
    var sb := Section(n, false, Texts(b), b, Braces, 10 + 2 * |n| + |a| + |m|, true);
    PlainName(n);
    TwoSectionsIn(s, n, a, m, b);
    assert [sa] + Texts(m) + [sb] + Texts([]) == [sa, Text(m), sb];
  }

  /** A section lambda is called once per section, each time with that
      section's own body: `{{#lambda}}a{{/lambda}}m{{#lambda}}b{{/lambda}}`,
      with the lambda returning its body between two copies of `w`, writes
      `waw`, `m`, `wbw`. With `FILE`, ` != `, `LINE` and `__` that is
      `__FILE__ != __LINE__`. */
  lemma MultipleRenders(fuel: nat, calls: nat, s: string, n: string, a: string, m: string, b: string, w: string,
                        ctx: Context)
    requires fuel > 1 && Lowercase(n) && m != [] && '{' !in a && '{' !in m && '{' !in b && '{' !in w
    requires s == "{{#" + n + "}}" + a + "{{/" + n + "}}" + m + "{{#" + n + "}}" + b + "{{/" + n + "}}"
    requires ctx == Root(Object(map[n := Lambda(Join(Join(Lit(w), Arg), Lit(w)))]))
    ensures RenderSource(fuel, s, Braces, ctx, Html, calls) == Ok((w + a + w) + m + (w + b + w), calls)
  {
    assert RenderNodes(fuel - 1, [Section(n, false, Texts(a), a, Braces, 0, true), Text(m),
                                   Section(n, false, Texts(b), b, Braces, 10 + 2 * |n| + |a| + |m|, true)], ctx, Html, calls)
      == Ok((w + a + w) + m + (w + b + w), calls) by {
      MultipleNodes(fuel - 1, calls, n, a, m, b, 10 + 2 * |n| + |a| + |m|, w, ctx);
    }
    MultipleSource(fuel, calls, s, n, a, m, b, ctx);
  }

  /** Any data renders the template of that test as its three nodes. */
  lemma MultipleSource(fuel: nat, calls: nat, s: string, n: string, a: string, m: string, b: string, ctx: Context)
    requires fuel > 0 && Lowercase(n) && m != [] && '{' !in a && '{' !in m && '{' !in b
    requires s == "{{#" + n + "}}" + a + "{{/" + n + "}}" + m + "{{#" + n + "}}" + b + "{{/" + n + "}}"
    ensures RenderSource(fuel, s, Braces, ctx, Html, calls)
         == RenderNodes(fuel - 1, [Section(n, false, Texts(a), a, Braces, 0, true), Text(m),
                                   Section(n, false, Texts(b), b, Braces, 10 + 2 * |n| + |a| + |m|, true)], ctx, Html, calls)
  {
    MultipleCompiles(s, n, a, m, b);
    CompiledSource(fuel, s, Braces, ctx, Html, calls, [Section(n, false, Texts(a), a, Braces, 0, true), Text(m),
                   Section(n, false, Texts(b), b, Braces, 10 + 2 * |n| + |a| + |m|, true)]);
  }

  /** The nodes of that test. */
  lemma MultipleNodes(fuel: nat, calls: nat, n: string, a: string, m: string, b: string, q: nat, w: string, ctx: Context)
    requires fuel > 0 && Lowercase(n) && '{' !in a && '{' !in b && '{' !in w
    requires ctx == Root(Object(map[n := Lambda(Join(Join(Lit(w), Arg), Lit(w)))]))
    ensures RenderNodes(fuel, [Section(n, false, Texts(a), a, Braces, 0, true), Text(m),
                               Section(n, false, Texts(b), b, Braces, q, true)], ctx, Html, calls)
         == Ok((w + a + w) + m + (w + b + w), calls)
  {
    var sa := Section(n, false, Texts(a), a, Braces, 0, true);
    var sb := Section(n, false, Texts(b), b, Braces, q, true);
    var last := [Text(m), sb];
    WrappedSection(fuel, calls, n, a, 0, w, ctx);
    assert RenderNodes(fuel, last, ctx, Html, calls) == Ok(m + (w + b + w), calls) by {
      WrappedSection(fuel, calls, n, b, q, w, ctx);
      OneNode(fuel, sb, ctx, Html, calls, w + b + w, calls);
      TextThen(fuel, m, [sb], ctx, Html, calls);
      assert last == [Text(m)] + [sb];
    }
    RenderPair(fuel, sa, last, ctx, Html, calls, w + a + w, calls, m + (w + b + w), calls);
    assert [sa] + last == [sa, Text(m), sb];
    assert (w + a + w) + (m + (w + b + w)) == (w + a + w) + m + (w + b + w);
  }

  /** A section of that test: its body between two copies of `w`, as it is,
      since that text holds no tag. */
  lemma WrappedSection(fuel: nat, calls: nat, n: string, x: string, pos: nat, w: string, ctx: Context)
    requires fuel > 0 && Lowercase(n) && '{' !in x && '{' !in w
    requires ctx == Root(Object(map[n := Lambda(Join(Join(Lit(w), Arg), Lit(w)))]))
    ensures RenderNode(fuel, Section(n, false, Texts(x), x, Braces, pos, true), ctx, Html, calls) == Ok(w + x + w, calls)
  {
    var e := Join(Join(Lit(w), Arg), Lit(w));
    OneKey(ctx, n, Lambda(e));
    WrapArg(e, x, w, w, calls);
    assert '{' !in w + x + w;
    FirstCharFree(w + x + w, Braces.open);
    PlainLambdaSection(fuel, n, e, Texts(x), x, Braces, pos, true, ctx, Html, calls);
  }

  // ---------------------------------------------------------------------
  // lambda_render: `{{#wrapped}}{{name}} is awesome.{{/wrapped}}`

  /** `{{#n}}{{m}}b{{/n}}`: one closed section whose children are the
      variable and the text, and whose body is the raw text between the
      tags. */
  lemma WrappedCompiles(s: string, n: string, m: string, b: string)
    requires Lowercase(n) && Lowercase(m) && b != [] && '{' !in b
    requires s == "{{#" + n + "}}{{" + m + "}}" + b + "{{/" + n + "}}"
    ensures Parse(s, Braces)
         == Parsed([Section(n, false, [Variable(m, true), Text(b)], "{{" + m + "}}" + b, Braces, 0, true)])
  {
    WrappedIn(s, n, m, b);
    WrappedShape(n, m, b);
  }

  /** The nodes that lemma gives, written out. */
  lemma WrappedShape(n: string, m: string, b: string)
    requires b != []
    ensures Texts([]) + [Section(n, false, Texts([]) + [Variable(m, true)] + Texts(b), [] + "{{" + m + "}}" + b, Braces, 0, true)] + Texts([])
         == [Section(n, false, [Variable(m, true), Text(b)], "{{" + m + "}}" + b, Braces, 0, true)]
  {
    assert Texts([]) + [Variable(m, true)] + Texts(b) == [Variable(m, true), Text(b)];
    assert [] + "{{" + m + "}}" + b == "{{" + m + "}}" + b;
  }

  /** The same, in the shape the general section lemma gives it. */
  lemma WrappedIn(s: string, n: string, m: string, b: string)
    requires Lowercase(n) && Lowercase(m) && b != [] && '{' !in b
    requires s == "{{#" + n + "}}{{" + m + "}}" + b + "{{/" + n + "}}"
    ensures Parse(s, Braces)
         == Parsed(Texts([]) + [Section(n, false, Texts([]) + [Variable(m, true)] + Texts(b), [] + "{{" + m + "}}" + b, Braces, 0, true)] + Texts([]))
  {
    PlainName(n);
    PlainName(m);
    WrappedSplit(s, n, m, b);
    assert '{' !in [];
    MatchedVariableSectionIn(s, [], '#', n, [], m, b, [], ['#'] + n, ['/'] + n);
  }

  /** The template of that test written as the pieces it is read in. */
  lemma WrappedSplit(s: string, n: string, m: string, b: string)
    requires s == "{{#" + n + "}}{{" + m + "}}" + b + "{{/" + n + "}}"
    ensures s == [] + "{{" + (['#'] + n) + "}}" + [] + "{{" + m + "}}" + b + "{{" + (['/'] + n) + "}}" + []
  {
    assert "{{#" == "{{" + ['#'] && "{{/" == "{{" + ['/'];
  }

  /** The body `{{m}}b` compiled on its own: the variable, then the text. */
  lemma BodyCompiles(x: string, m: string, b: string)
    requires Lowercase(m) && b != [] && '{' !in b && x == "{{" + m + "}}" + b
    ensures Parse(x, Braces) == Parsed([Variable(m, true), Text(b)])
  {
    PlainName(m);
    assert x == [] + "{{" + m + "}}" + b;
    assert '{' !in [];
    VariableIn(x, [], m, b);
    assert Texts([]) + [Variable(m, true)] + Texts(b) == [Variable(m, true), Text(b)];
  }

  /** An escaped string variable, then text. */
  lemma StringThenText(fuel: nat, m: string, v: string, b: string, ctx: Context, calls: nat)
    requires Lookup(ctx, m) == Some(Str(v))
    ensures RenderNodes(fuel, [Variable(m, true), Text(b)], ctx, Html, calls) == Ok(HtmlEscape(v) + b, calls)
  {
    StringVariable(fuel, m, v, ctx, calls);
    OneNode(fuel, Text(b), ctx, Html, calls, b, calls);
    RenderPair(fuel, Variable(m, true), [Text(b)], ctx, Html, calls, HtmlEscape(v), calls, b, calls);
    assert [Variable(m, true)] + [Text(b)] == [Variable(m, true), Text(b)];
  }

  /** What the auto-rendering lambda returns, `l{{m}}br`, compiled: text,
      the variable, text. */
  lemma WrappedTextCompiles(y: string, l: string, m: string, b: string, r: string)
    requires Lowercase(m) && l != [] && b != [] && '{' !in l && '{' !in b && '{' !in r
    requires y == l + ("{{" + m + "}}" + b) + r
    ensures Parse(y, Braces) == Parsed([Text(l), Variable(m, true), Text(b + r)])
  {
    PlainName(m);
    assert y == l + "{{" + m + "}}" + (b + r);
    assert '{' !in b + r;
    VariableIn(y, l, m, b + r);
    assert Texts(l) + [Variable(m, true)] + Texts(b + r) == [Text(l), Variable(m, true), Text(b + r)];
  }

  /** A section lambda's result is compiled and rendered: with the body
      `{{m}}b` and a lambda returning it between `l` and `r`, the variable
      in the returned text is filled in. With `wrapped`, `name`,
      ` is awesome.`, `<b>`, `</b>` and `Willy` that writes
      `<b>Willy is awesome.</b>`. */
  lemma AutoRenders(fuel: nat, calls: nat, s: string, n: string, m: string, b: string, l: string, r: string,
                    v: string, ctx: Context)
    requires fuel > 1 && Lowercase(n) && Lowercase(m) && n != m && l != [] && b != []
    requires '{' !in l && '{' !in b && '{' !in r
    requires s == "{{#" + n + "}}{{" + m + "}}" + b + "{{/" + n + "}}"
    requires ctx == Root(Object(map[n := Lambda(Join(Join(Lit(l), Arg), Lit(r))), m := Str(v)]))
    ensures RenderSource(fuel, s, Braces, ctx, Html, calls) == Ok(l + HtmlEscape(v) + b + r, calls)
  {
    var sec := Section(n, false, [Variable(m, true), Text(b)], "{{" + m + "}}" + b, Braces, 0, true);
    assert RenderNodes(fuel - 1, [sec], ctx, Html, calls) == Ok(l + HtmlEscape(v) + b + r, calls) by {
      AutoSection(fuel - 1, calls, n, m, b, l, r, v, ctx);
      OneNode(fuel - 1, sec, ctx, Html, calls, l + HtmlEscape(v) + b + r, calls);
    }
    WrappedCompiles(s, n, m, b);
    CompiledSource(fuel, s, Braces, ctx, Html, calls, [sec]);
  }

  /** The section of that test. */
  lemma AutoSection(fuel: nat, calls: nat, n: string, m: string, b: string, l: string, r: string, v: string,
                    ctx: Context)
    requires fuel > 0 && Lowercase(n) && Lowercase(m) && n != m && l != [] && b != []
    requires '{' !in l && '{' !in b && '{' !in r
    requires ctx == Root(Object(map[n := Lambda(Join(Join(Lit(l), Arg), Lit(r))), m := Str(v)]))
    ensures RenderNode(fuel, Section(n, false, [Variable(m, true), Text(b)], "{{" + m + "}}" + b, Braces, 0, true),
                       ctx, Html, calls)
         == Ok(l + HtmlEscape(v) + b + r, calls)
  {
    var e := Join(Join(Lit(l), Arg), Lit(r));
    var x := "{{" + m + "}}" + b;
    TwoKeys(ctx, n, Lambda(e), m, Str(v));
    WrapArg(e, x, l, r, calls);
    WrappedTextCompiles(l + x + r, l, m, b, r);
    AutoLookedUp(fuel, calls, n, e, [Variable(m, true), Text(b)], x, l + x + r, l, m, b, r, v, ctx);
  }

  /** A section whose lambda returns, for its body, a text `y` that
      compiles to `l`, the escaped variable `m` and `br`, with `m` a string:
      `l`, the escaped string, `b` and `r`. */
  lemma AutoLookedUp(fuel: nat, calls: nat, n: string, e: LambdaExpr, kids: seq<Node>, x: string, y: string,
                     l: string, m: string, b: string, r: string, v: string, ctx: Context)
    requires fuel > 0 && Lookup(ctx, n) == Some(Lambda(e)) && Lookup(ctx, m) == Some(Str(v))
    requires EvalLambda(e, x, calls) == (y, calls)
    requires Parse(y, Braces) == Parsed([Text(l), Variable(m, true), Text(b + r)])
    ensures RenderNode(fuel, Section(n, false, kids, x, Braces, 0, true), ctx, Html, calls)
         == Ok(l + HtmlEscape(v) + b + r, calls)
  {
    AutoText(fuel - 1, calls, l, m, b, r, v, ctx);
    TextLambdaSection(fuel, n, e, kids, x, Braces, 0, ctx, calls, y,
                      [Text(l), Variable(m, true), Text(b + r)], l + HtmlEscape(v) + b + r);
  }

  /** What that lambda returns, rendered. */
  lemma AutoText(fuel: nat, calls: nat, l: string, m: string, b: string, r: string, v: string, ctx: Context)
    requires Lookup(ctx, m) == Some(Str(v))
    ensures RenderNodes(fuel, [Text(l), Variable(m, true), Text(b + r)], ctx, Html, calls)
         == Ok(l + HtmlEscape(v) + b + r, calls)
  {
    StringVariable(fuel, m, v, ctx, calls);
    Between(fuel, l, Variable(m, true), b + r, ctx, Html, calls, HtmlEscape(v), calls);
    assert l + HtmlEscape(v) + (b + r) == l + HtmlEscape(v) + b + r;
  }

  /** A lambda with a render callback that returns its body between `l`
      and `r` without calling the callback: the body's tags are written as
      they are. With the names and texts above that writes
      `<b>{{name}} is awesome.</b>`. */
  lemma VerbatimRenders(fuel: nat, calls: nat, s: string, n: string, m: string, b: string, l: string, r: string,
                        v: string, ctx: Context)
    requires fuel > 1 && Lowercase(n) && Lowercase(m) && n != m && b != [] && '{' !in b
    requires s == "{{#" + n + "}}{{" + m + "}}" + b + "{{/" + n + "}}"
    requires ctx == Root(Object(map[n := Lambda2(Out(Join(Join(Lit(l), Arg), Lit(r)))), m := Str(v)]))
    ensures RenderSource(fuel, s, Braces, ctx, Html, calls) == Ok(l + ("{{" + m + "}}" + b) + r, calls)
  {
    var x := "{{" + m + "}}" + b;
    var e := Join(Join(Lit(l), Arg), Lit(r));
    var sec := Section(n, false, [Variable(m, true), Text(b)], x, Braces, 0, true);
    assert RenderNodes(fuel - 1, [sec], ctx, Html, calls) == Ok(l + x + r, calls) by {
      TwoKeys(ctx, n, Lambda2(Out(e)), m, Str(v));
      WrapArg(e, x, l, r, calls);
      VerbatimLambda2(fuel - 1, n, e, [Variable(m, true), Text(b)], x, Braces, 0, true, ctx, Html, calls);
      OneNode(fuel - 1, sec, ctx, Html, calls, l + x + r, calls);
    }
    WrappedCompiles(s, n, m, b);
    CompiledSource(fuel, s, Braces, ctx, Html, calls, [sec]);
  }

  /** The lambda of the manual-render tests: `l`, then its body through the
      render callback, then `r` as it is. */
  function ManualLambda(l: string, r: string): Lambda2Expr {
    Cat(Cat(Out(Lit(l)), Rendered(Arg, false)), Out(Lit(r)))
  }

  /** A lambda that renders its body through the callback writes the
      rendered body between `l` and `r`, and what it adds after the
      callback is not compiled again. With the names and texts above and
      `r` of `</b>` that writes `<b>Willy is awesome.</b>`; with `r` of
      `</b>Hello {{name}}.` it writes `<b>Willy is awesome.</b>Hello {{name}}.`. */
  lemma ManualRenders(fuel: nat, calls: nat, s: string, n: string, m: string, b: string, l: string, r: string,
                      v: string, ctx: Context)
    requires fuel > 2 && Lowercase(n) && Lowercase(m) && n != m && b != [] && '{' !in b
    requires s == "{{#" + n + "}}{{" + m + "}}" + b + "{{/" + n + "}}"
    requires ctx == Root(Object(map[n := Lambda2(ManualLambda(l, r)), m := Str(v)]))
    ensures RenderSource(fuel, s, Braces, ctx, Html, calls) == Ok(l + (HtmlEscape(v) + b) + r, calls)
  {
    var sec := Section(n, false, [Variable(m, true), Text(b)], "{{" + m + "}}" + b, Braces, 0, true);
    assert RenderNodes(fuel - 1, [sec], ctx, Html, calls) == Ok(l + (HtmlEscape(v) + b) + r, calls) by {
      ManualSection(fuel - 1, calls, n, m, b, l, r, v, ctx);
      OneNode(fuel - 1, sec, ctx, Html, calls, l + (HtmlEscape(v) + b) + r, calls);
    }
    WrappedCompiles(s, n, m, b);
    CompiledSource(fuel, s, Braces, ctx, Html, calls, [sec]);
  }

  /** The section of those tests. */
  lemma ManualSection(fuel: nat, calls: nat, n: string, m: string, b: string, l: string, r: string, v: string,
                      ctx: Context)
    requires fuel > 1 && Lowercase(n) && Lowercase(m) && n != m && b != [] && '{' !in b
    requires ctx == Root(Object(map[n := Lambda2(ManualLambda(l, r)), m := Str(v)]))
    ensures RenderNode(fuel, Section(n, false, [Variable(m, true), Text(b)], "{{" + m + "}}" + b, Braces, 0, true),
                       ctx, Html, calls)
         == Ok(l + (HtmlEscape(v) + b) + r, calls)
  {
    var x := "{{" + m + "}}" + b;
    var e := ManualLambda(l, r);
    TwoKeys(ctx, n, Lambda2(e), m, Str(v));
    Lambda2SectionSource(fuel, n, e, [Variable(m, true), Text(b)], x, Braces, 0, true, ctx, Html, calls);
    assert EvalLambda2(fuel, Rendered(Arg, false), x, Braces, ctx, Html, calls) == Ok(HtmlEscape(v) + b, calls) by {
      BodyCompiles(x, m, b);
      StringThenText(fuel - 1, m, v, b, ctx, calls);
      CallbackWrites(fuel, Arg, false, x, Braces, ctx, Html, calls, [Variable(m, true), Text(b)], HtmlEscape(v) + b, calls);
    }
    CleanCat(fuel, Out(Lit(l)), Rendered(Arg, false), x, Braces, ctx, Html, calls, l, calls, HtmlEscape(v) + b, calls);
    CleanCat(fuel, Cat(Out(Lit(l)), Rendered(Arg, false)), Out(Lit(r)), x, Braces, ctx, Html, calls,
             l + (HtmlEscape(v) + b), calls, r, calls);
  }

  // ---------------------------------------------------------------------
  // lambda2 and partial2: `Hello {{lambda}}!` and `Hello {{>partial}}!`
  // whose text `{{what}}` names a lambda returning `{{#blah}}`

  /** `{{w}}` alone compiles to the escaped variable. */
  lemma TagOnlyCompiles(y: string, w: string)
    requires Lowercase(w) && y == "{{" + w + "}}"
    ensures Parse(y, Braces) == Parsed([Variable(w, true)])
  {
    PlainName(w);
    assert y == [] + "{{" + w + "}}" + [];
    assert '{' !in [];
    VariableIn(y, [], w, []);
    assert Texts([]) + [Variable(w, true)] + Texts([]) == [Variable(w, true)];
  }

  /** A text that compiles to the tag `{{w}}` alone, where that tag faults
      with nothing written: the same fault. */
  lemma TagOnlyFault(fuel: nat, calls: nat, y: string, w: string, f: Fault, ctx: Context)
    requires fuel > 0 && Parse(y, Braces) == Parsed([Variable(w, true)])
    requires RenderNode(fuel - 1, Variable(w, true), ctx, Html, calls) == Outcome([], Some(f), calls)
    ensures RenderSource(fuel, y, Braces, ctx, Html, calls) == Outcome([], Some(f), calls)
  {
    CompiledSource(fuel, y, Braces, ctx, Html, calls, [Variable(w, true)]);
    FaultFirst(fuel - 1, Variable(w, true), [], ctx, Html, calls);
    assert [Variable(w, true)] + [] == [Variable(w, true)];
  }

  /** A variable lambda whose text is `{{w}}`, where the tag `{{w}}` faults
      with nothing written (as a lambda whose own text does not compile
      does): the fault reaches the outer tag, which writes nothing. */
  lemma NestedLambdaFault(fuel: nat, calls: nat, k: string, y: string, w: string, f: Fault, ctx: Context)
    requires fuel > 0 && Lowercase(w) && y == "{{" + w + "}}"
    requires Lookup(ctx, k) == Some(Lambda(Lit(y)))
    requires RenderNode(fuel - 1, Variable(w, true), ctx, Html, calls) == Outcome([], Some(f), calls)
    ensures RenderNode(fuel, Variable(k, true), ctx, Html, calls) == Outcome([], Some(f), calls)
  {
    TagOnlyCompiles(y, w);
    TagOnlyFault(fuel, calls, y, w, f, ctx);
    assert Rerender(fuel, y, Braces, true, ctx, Html, calls) == Outcome([], Some(f), calls);
    LambdaVariableSource(fuel, k, true, Lit(y), ctx, Html, calls);
  }

  /** A partial whose text is `{{w}}`, where that tag faults with nothing
      written: the fault reaches the partial tag, which writes nothing. */
  lemma NestedPartialFault(fuel: nat, calls: nat, k: string, y: string, w: string, f: Fault, ctx: Context)
    requires fuel > 0 && Lowercase(w) && y == "{{" + w + "}}"
    requires LookupPartial(ctx, k) == Some(Partial(y))
    requires RenderNode(fuel - 1, Variable(w, true), ctx, Html, calls) == Outcome([], Some(f), calls)
    ensures RenderNode(fuel, PartialRef(k), ctx, Html, calls) == Outcome([], Some(f), calls)
  {
    TagOnlyCompiles(y, w);
    TagOnlyFault(fuel, calls, y, w, f, ctx);
    PartialSource(fuel, k, Partial(y), y, ctx, Html, calls);
  }

  /** A name of plain letters is looked up the same way by a partial tag
      and by a variable tag in a stack of frames. */
  lemma PartialByName(ctx: Context, k: string)
    requires ctx.Frames? && Lowercase(k)
    ensures LookupPartial(ctx, k) == Lookup(ctx, k)
  {
    assert '.' !in k && k != ".";
  }

  /** `t{{>p}}u`, literal text around one partial tag: the text, the
      partial reference, the text. */
  lemma PartialIn(s: string, t: string, p: string, u: string)
    requires t != [] && u != [] && '{' !in t && '{' !in u && Lowercase(p)
    requires s == t + "{{>" + p + "}}" + u
    ensures Parse(s, Braces) == Parsed([Text(t), PartialRef(p), Text(u)])
  {
    var b := ['>'] + p;
    var st2 := State(|t| + 4 + |b|, Braces, [], [Text(t), PartialRef(p)], []);
    assert s == t + "{{" + b + "}}" + u;
    PlainName(p);
    PartialHead(s, t, b, p, u, st2);
    assert s[st2.pos..] == u;
    TextToEnd(s, st2, u);
    assert st2.root + Texts(u) == [Text(t), PartialRef(p), Text(u)];
  }

  /** The state after `t{{>p}}`. */
  lemma PartialHead(s: string, t: string, b: string, p: string, u: string, st2: State)
    requires t != [] && '{' !in t && TagName(p) && b == ['>'] + p && s == t + "{{" + b + "}}" + u
    requires st2 == State(|t| + 4 + |b|, Braces, [], [Text(t), PartialRef(p)], [])
    ensures Good(s, st2) && Parse(s, Braces) == Scan(s, st2)
  {
    var st1 := State(|t|, Braces, t, [], []);
    assert Parse(s, Braces) == Scan(s, st1) by {
      assert s[..|t|] == t;
      LeadingText(s, t, Braces);
    }
    assert Good(s, st2) && Scan(s, st1) == Scan(s, st2) by {
      assert [] + Texts(t) + [PartialRef(p)] == [Text(t), PartialRef(p)];
      FlatPartial(s, st1, t, b, p, u, st2);
    }
  }

  /** `Hello {{>partial}}!` whose partial is `{{what}}`, where `what` is a
      lambda returning `{{#blah}}`: `t` is written and the render stops
      with the inner text's error, `Unclosed section "blah" at 0`. */
  lemma NestedPartialRenders(fuel: nat, calls: nat, s: string, t: string, k: string, u: string, w: string,
                             b: string, ctx: Context)
    requires fuel > 1 && Lowercase(k) && Lowercase(w) && Lowercase(b) && k != w
    requires t != [] && u != [] && '{' !in t && '{' !in u
    requires s == t + "{{>" + k + "}}" + u
    requires ctx == Root(Object(map[k := Partial("{{" + w + "}}"), w := Lambda(Lit("{{#" + b + "}}"))]))
    ensures RenderSource(fuel, s, Braces, ctx, Html, calls)
         == Outcome(t, Some(Invalid(Message(UnclosedSection(b, 0)))), calls)
  {
    var nodes := [Text(t), PartialRef(k), Text(u)];
    PartialIn(s, t, k, u);
    assert RenderNodes(fuel - 1, nodes, ctx, Html, calls)
        == Outcome(t, Some(Invalid(Message(UnclosedSection(b, 0)))), calls) by {
      NestedPartialNodes(fuel - 1, calls, t, k, u, w, b, ctx);
    }
    CompiledSource(fuel, s, Braces, ctx, Html, calls, nodes);
  }

  /** The nodes of that test. */
  lemma NestedPartialNodes(fuel: nat, calls: nat, t: string, k: string, u: string, w: string, b: string, ctx: Context)
    requires fuel > 0 && Lowercase(k) && Lowercase(w) && Lowercase(b) && k != w
    requires ctx == Root(Object(map[k := Partial("{{" + w + "}}"), w := Lambda(Lit("{{#" + b + "}}"))]))
    ensures RenderNodes(fuel, [Text(t), PartialRef(k), Text(u)], ctx, Html, calls)
         == Outcome(t, Some(Invalid(Message(UnclosedSection(b, 0)))), calls)
  {
    var f := Invalid(Message(UnclosedSection(b, 0)));
    TwoKeys(ctx, k, Partial("{{" + w + "}}"), w, Lambda(Lit("{{#" + b + "}}")));
    PartialByName(ctx, k);
    assert RenderNode(fuel, PartialRef(k), ctx, Html, calls) == Outcome([], Some(f), calls) by {
      InnerUnclosed(fuel - 1, calls, w, b, ctx);
      NestedPartialFault(fuel, calls, k, "{{" + w + "}}", w, f, ctx);
    }
    FaultBetween(fuel, calls, t, PartialRef(k), u, ctx, f);
  }

  /** `{{#b}}` on its own, for a name of plain letters: unclosed at 0. */
  lemma UnclosedAlone(src: string, b: string)
    requires Lowercase(b) && src == "{{#" + b + "}}"
    ensures Parse(src, Braces) == Failed(UnclosedSection(b, 0))
  {
    PlainName(b);
    assert src == [] + "{{#" + b + "}}";
    UnclosedSectionAt([], b);
  }

  /** A lambda returning `{{#b}}`, as a tag: unclosed at 0. */
  lemma InnerUnclosed(fuel: nat, calls: nat, w: string, b: string, ctx: Context)
    requires Lowercase(b) && Lookup(ctx, w) == Some(Lambda(Lit("{{#" + b + "}}")))
    ensures RenderNode(fuel, Variable(w, true), ctx, Html, calls)
         == Outcome([], Some(Invalid(Message(UnclosedSection(b, 0)))), calls)
  {
    UnclosedAlone("{{#" + b + "}}", b);
    InvalidLambdaVariable(fuel, w, true, Lit("{{#" + b + "}}"), ctx, Html, calls, UnclosedSection(b, 0));
  }

  /** `t`, a tag that faults with nothing written, `u`: `t` and the fault. */
  lemma FaultBetween(fuel: nat, calls: nat, t: string, n: Node, u: string, ctx: Context, f: Fault)
    requires RenderNode(fuel, n, ctx, Html, calls) == Outcome([], Some(f), calls)
    ensures RenderNodes(fuel, [Text(t), n, Text(u)], ctx, Html, calls) == Outcome(t, Some(f), calls)
  {
    var tail: seq<Node> := [n, Text(u)];
    assert tail == [n] + [Text(u)];
    FaultFirst(fuel, n, [Text(u)], ctx, Html, calls);
    assert [Text(t), n, Text(u)] == [Text(t)] + tail;
    TextThen(fuel, t, tail, ctx, Html, calls);
    assert t + [] == t;
  }

  /** `Hello {{lambda}}!` whose lambda returns `{{what}}`, where `what` is a
      lambda returning `{{#blah}}`: `t` is written and the render stops with
      the inner text's error, `Unclosed section "blah" at 0`. */
  lemma NestedLambdaRenders(fuel: nat, calls: nat, s: string, t: string, k: string, u: string, w: string,
                            b: string, ctx: Context)
    requires fuel > 1 && Lowercase(k) && Lowercase(w) && Lowercase(b) && k != w
    requires t != [] && u != [] && '{' !in t && '{' !in u
    requires s == t + "{{" + k + "}}" + u
    requires ctx == Root(Object(map[k := Lambda(Lit("{{" + w + "}}")), w := Lambda(Lit("{{#" + b + "}}"))]))
    ensures RenderSource(fuel, s, Braces, ctx, Html, calls)
         == Outcome(t, Some(Invalid(Message(UnclosedSection(b, 0)))), calls)
  {
    var nodes := [Text(t), Variable(k, true), Text(u)];
    assert Parse(s, Braces) == Parsed(nodes) by {
      PlainName(k);
      TextVariableText(s, t, k, u);
    }
    assert RenderNodes(fuel - 1, nodes, ctx, Html, calls)
        == Outcome(t, Some(Invalid(Message(UnclosedSection(b, 0)))), calls) by {
      NestedLambdaNodes(fuel - 1, calls, t, k, u, w, b, ctx);
    }
    CompiledSource(fuel, s, Braces, ctx, Html, calls, nodes);
  }

  /** The nodes of that test. */
  lemma NestedLambdaNodes(fuel: nat, calls: nat, t: string, k: string, u: string, w: string, b: string, ctx: Context)
    requires fuel > 0 && Lowercase(k) && Lowercase(w) && Lowercase(b) && k != w
    requires ctx == Root(Object(map[k := Lambda(Lit("{{" + w + "}}")), w := Lambda(Lit("{{#" + b + "}}"))]))
    ensures RenderNodes(fuel, [Text(t), Variable(k, true), Text(u)], ctx, Html, calls)
         == Outcome(t, Some(Invalid(Message(UnclosedSection(b, 0)))), calls)
  {
    var f := Invalid(Message(UnclosedSection(b, 0)));
    TwoKeys(ctx, k, Lambda(Lit("{{" + w + "}}")), w, Lambda(Lit("{{#" + b + "}}")));
    assert RenderNode(fuel, Variable(k, true), ctx, Html, calls) == Outcome([], Some(f), calls) by {
      InnerUnclosed(fuel - 1, calls, w, b, ctx);
      NestedLambdaFault(fuel, calls, k, "{{" + w + "}}", w, f, ctx);
    }
    FaultBetween(fuel, calls, t, Variable(k, true), u, ctx, f);
  }

  // ---------------------------------------------------------------------
  // Lambdas whose output does not compile, and a render-callback lambda
  // used as a variable

  /** `{{` followed by a name and no closing braces. */
  lemma OpenTagOnly(y: string, w: string)
    requires '}' !in w && y == "{{" + w
    ensures Parse(y, Braces) == Failed(UnclosedTag(0))
  {
    assert y == [] + "{{" + w;
    UnclosedTagIn(y, [], w);
  }

  lemma TagAtStartMessage()
    ensures Message(UnclosedTag(0)) == "Unclosed tag at 0"
  {
    assert NatToString(0) == "0";
  }

  /** `{{#n}}x{{/n}}` where `n` is a lambda returning `{{w`, a tag that is
      never closed: nothing is written and the render stops with
      `Unclosed tag at 0`. With `what`, `asdf` and `blah` this is the
      `section_lambda` test. */
  lemma SectionLambdaUnclosed(fuel: nat, calls: nat, s: string, n: string, x: string, w: string, ctx: Context, msg: string)
    requires fuel > 1 && Lowercase(n) && x != [] && '{' !in x && '}' !in w
    requires s == "{{#" + n + "}}" + x + "{{/" + n + "}}"
    requires ctx == Root(Object(map[n := Lambda(Lit("{{" + w))])) && msg == "Unclosed tag at 0"
    ensures RenderSource(fuel, s, Braces, ctx, Html, calls) == Outcome([], Some(Invalid(msg)), calls)
  {
    var sec := Section(n, false, [Text(x)], x, Braces, 0, true);
    assert "{{#" == "{{" + ['#'];
    SectionAlone(s, '#', "{{#", n, x);
    UnclosedLambdaSection(fuel - 1, calls, n, x, w, ctx, msg);
    assert [sec] == [sec] + [];
    FaultFirst(fuel - 1, sec, [], ctx, Html, calls);
    CompiledSource(fuel, s, Braces, ctx, Html, calls, [sec]);
  }

  /** The section of that test. */
  lemma UnclosedLambdaSection(fuel: nat, calls: nat, n: string, x: string, w: string, ctx: Context, msg: string)
    requires Lowercase(n) && '}' !in w
    requires ctx == Root(Object(map[n := Lambda(Lit("{{" + w))])) && msg == "Unclosed tag at 0"
    ensures RenderNode(fuel, Section(n, false, [Text(x)], x, Braces, 0, true), ctx, Html, calls)
         == Outcome([], Some(Invalid(msg)), calls)
  {
    OneKey(ctx, n, Lambda(Lit("{{" + w)));
    OpenTagOnly("{{" + w, w);
    TagAtStartMessage();
    InvalidLambdaSection(fuel, n, Lit("{{" + w), [Text(x)], x, Braces, 0, true, ctx, Html, calls, UnclosedTag(0));
  }

  /** `{{#n}}{{m}}b{{/n}}` where `n` is a render-callback lambda that renders
      `{{w`, a tag never closed, and returns nothing of its own: nothing is
      written and the render stops with `Unclosed tag at 0`, the error of the
      callback. With `wrapped`, `name`, ` is awesome.` and `name is awesome`
      this is the `manual-render-error` section of the `lambda_render` test. */
  lemma CallbackUnclosed(fuel: nat, calls: nat, s: string, n: string, m: string, b: string, w: string, v: string,
                         ctx: Context, msg: string)
    requires fuel > 1 && Lowercase(n) && Lowercase(m) && n != m && b != [] && '{' !in b && '}' !in w
    requires s == "{{#" + n + "}}{{" + m + "}}" + b + "{{/" + n + "}}"
    requires ctx == Root(Object(map[n := Lambda2(Discard(Rendered(Lit("{{" + w), false))), m := Str(v)]))
    requires msg == "Unclosed tag at 0"
    ensures RenderSource(fuel, s, Braces, ctx, Html, calls) == Outcome([], Some(Invalid(msg)), calls)
  {
    var x := "{{" + m + "}}" + b;
    var sec := Section(n, false, [Variable(m, true), Text(b)], x, Braces, 0, true);
    WrappedCompiles(s, n, m, b);
    UnclosedCallbackSection(fuel - 1, calls, n, m, b, w, v, ctx, msg);
    assert [sec] == [sec] + [];
    FaultFirst(fuel - 1, sec, [], ctx, Html, calls);
    CompiledSource(fuel, s, Braces, ctx, Html, calls, [sec]);
  }

  /** The section of that test. */
  lemma UnclosedCallbackSection(fuel: nat, calls: nat, n: string, m: string, b: string, w: string, v: string,
                                ctx: Context, msg: string)
    requires Lowercase(n) && Lowercase(m) && n != m && '}' !in w
    requires ctx == Root(Object(map[n := Lambda2(Discard(Rendered(Lit("{{" + w), false))), m := Str(v)]))
    requires msg == "Unclosed tag at 0"
    ensures RenderNode(fuel, Section(n, false, [Variable(m, true), Text(b)], "{{" + m + "}}" + b, Braces, 0, true),
                       ctx, Html, calls)
         == Outcome([], Some(Invalid(msg)), calls)
  {
    var x := "{{" + m + "}}" + b;
    var e := Discard(Rendered(Lit("{{" + w), false));
    TwoKeys(ctx, n, Lambda2(e), m, Str(v));
    Lambda2SectionSource(fuel, n, e, [Variable(m, true), Text(b)], x, Braces, 0, true, ctx, Html, calls);
    OpenTagOnly("{{" + w, w);
    TagAtStartMessage();
    InvalidCallback(fuel, Lit("{{" + w), false, x, Braces, ctx, Html, calls, UnclosedTag(0));
  }

  /** `{{n}}u` where `n` is a render-callback lambda: such a lambda may only
      open a section, so nothing is written and the render stops with the
      error saying so. With `name` and ` is awesome.` this is the
      `lambda-render-variable` section of the `lambda_render` test. */
  lemma CallbackAsVariable(fuel: nat, calls: nat, s: string, n: string, u: string, e: Lambda2Expr, ctx: Context)
    requires fuel > 1 && Lowercase(n) && u != [] && '{' !in u
    requires s == "{{" + n + "}}" + u && ctx == Root(Object(map[n := Lambda2(e)]))
    ensures RenderSource(fuel, s, Braces, ctx, Html, calls) == Outcome([], Some(Invalid(Lambda2VariableMessage)), calls)
  {
    CallbackTagCompiles(s, n, u);
    OneKey(ctx, n, Lambda2(e));
    CallbackTagFaults(fuel - 1, calls, n, u, e, ctx);
    CompiledSource(fuel, s, Braces, ctx, Html, calls, [Variable(n, true)] + [Text(u)]);
  }

  /** The tag of that test stops the render before the text. */
  lemma CallbackTagFaults(fuel: nat, calls: nat, n: string, u: string, e: Lambda2Expr, ctx: Context)
    requires Lookup(ctx, n) == Some(Lambda2(e))
    ensures RenderNodes(fuel, [Variable(n, true)] + [Text(u)], ctx, Html, calls)
         == Outcome([], Some(Invalid(Lambda2VariableMessage)), calls)
  {
    Lambda2Variable(fuel, n, true, e, ctx, Html, calls);
    FaultFirst(fuel, Variable(n, true), [Text(u)], ctx, Html, calls);
  }

  /** The template of that test: the tag, then the text. */
  lemma CallbackTagCompiles(s: string, n: string, u: string)
    requires Lowercase(n) && u != [] && '{' !in u && s == "{{" + n + "}}" + u
    ensures Parse(s, Braces) == Parsed([Variable(n, true)] + [Text(u)])
  {
    PlainName(n);
    assert s == [] + "{{" + n + "}}" + u;
    VariableIn(s, [], n, u);
    assert Texts([]) + [Variable(n, true)] + Texts(u) == [Variable(n, true)] + [Text(u)];
  }
}
