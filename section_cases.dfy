/** Sections as the test suite writes them, from the template text to what
    is written: a section closed by its own name, its inverted form, and a
    lambda that is handed the raw text of its section. The names and the
    text of each test are parameters fixed by its precondition, so that the
    template reads as the test writes it. */
module SectionCases {
  import opened Text
  import opened Syntax
  import opened Parser
  import opened ParseFacts
  import opened Escape
  import opened Data
  import opened Scope
  import opened Render
  import opened RenderFacts
  import opened RenderCases

  /** A non-empty name of lower-case letters. */
  predicate Lowercase(n: string) {
    |n| >= 1 && forall i :: 0 <= i < |n| ==> 'a' <= n[i] <= 'z'
  }

  /** A name of plain letters is a tag name that starts with no sigil. */
  lemma PlainName(n: string)
    requires Lowercase(n)
    ensures TagName(n) && n[0] !in "#^/>&!="
  {
    assert !IsSpace(n[0]) && !IsSpace(n[|n| - 1]);
  }

  // ---------------------------------------------------------------------
  // `{{#var}}not shown{{/var}}` and `{{^var}}shown{{/var}}`

  /** `{{#n}}x{{/n}}` or `{{^n}}x{{/n}}` with nothing around it compiles to
      one closed section holding the text. */
  lemma SectionAlone(s: string, sigil: char, o: string, n: string, x: string)
    requires Opener(sigil) && o == "{{" + [sigil] && Lowercase(n) && x != [] && '{' !in x
    requires s == o + n + "}}" + x + "{{/" + n + "}}"
    ensures Parse(s, Braces) == Parsed([Section(n, sigil == '^', [Text(x)], x, Braces, 0, true)])
  {
    PlainName(n);
    assert s == [] + "{{" + [sigil] + n + "}}" + x + "{{/" + n + "}}" + [];
    MatchedSectionIn(s, [], sigil, n, x, []);
    SingleSection(Section(n, sigil == '^', [Text(x)], x, Braces, 0, true));
  }

  /** No text before or after. */
  lemma SingleSection(sec: Node)
    ensures Texts([]) + [sec] + Texts([]) == [sec]
  {
  }

  /** `{{#var}}not shown{{/var}}` is one closed section around its text. */
  lemma NotShownCompiles(s: string, n: string, x: string)
    requires n == "var" && x == "not shown" && s == "{{#" + n + "}}" + x + "{{/" + n + "}}"
    ensures Parse(s, Braces) == Parsed([Section(n, false, [Text(x)], x, Braces, 0, true)])
  {
    SectionAlone(s, '#', "{{#", n, x);
  }

  /** With the name missing, false or an empty list, a section such as
      `{{#var}}not shown{{/var}}` writes nothing. */
  lemma NotShown(fuel: nat, ctx: Context, esc: Escaper, calls: nat, s: string, n: string, x: string)
    requires fuel > 0 && Lowercase(n) && x != [] && '{' !in x && s == "{{#" + n + "}}" + x + "{{/" + n + "}}"
    requires Skips(Lookup(ctx, n))
    ensures RenderSource(fuel, s, Braces, ctx, esc, calls) == Ok([], calls)
  {
    SectionAlone(s, '#', "{{#", n, x);
    NotShownFrom(fuel, ctx, esc, calls, s, n, x);
  }

  /** Any template that compiles to that one section writes nothing. */
  lemma NotShownFrom(fuel: nat, ctx: Context, esc: Escaper, calls: nat, s: string, n: string, x: string)
    requires fuel > 0 && Skips(Lookup(ctx, n))
    requires Parse(s, Braces) == Parsed([Section(n, false, [Text(x)], x, Braces, 0, true)])
    ensures RenderSource(fuel, s, Braces, ctx, esc, calls) == Ok([], calls)
  {
    NotShownNodes(fuel - 1, ctx, esc, calls, n, x);
    CompiledSource(fuel, s, Braces, ctx, esc, calls, [Section(n, false, [Text(x)], x, Braces, 0, true)]);
  }

  /** The section writes nothing when the name is skipped. */
  lemma NotShownNodes(fuel: nat, ctx: Context, esc: Escaper, calls: nat, n: string, x: string)
    requires Skips(Lookup(ctx, n))
    ensures RenderNodes(fuel, [Section(n, false, [Text(x)], x, Braces, 0, true)], ctx, esc, calls) == Ok([], calls)
  {
    SkippedSection(fuel, n, [Text(x)], x, Braces, 0, true, ctx, esc, calls);
    OneNode(fuel, Section(n, false, [Text(x)], x, Braces, 0, true), ctx, esc, calls, [], calls);
  }

  /** `{{^var}}shown{{/var}}` is one closed inverted section around its text. */
  lemma ShownCompiles(s: string, n: string, x: string)
    requires n == "var" && x == "shown" && s == "{{^" + n + "}}" + x + "{{/" + n + "}}"
    ensures Parse(s, Braces) == Parsed([Section(n, true, [Text(x)], x, Braces, 0, true)])
  {
    SectionAlone(s, '^', "{{^", n, x);
  }

  /** With the name missing, false or an empty list, an inverted section
      such as `{{^var}}shown{{/var}}` writes its text. */
  lemma Shown(fuel: nat, ctx: Context, esc: Escaper, calls: nat, s: string, n: string, x: string)
    requires fuel > 0 && Lowercase(n) && x != [] && '{' !in x && s == "{{^" + n + "}}" + x + "{{/" + n + "}}"
    requires Skips(Lookup(ctx, n))
    ensures RenderSource(fuel, s, Braces, ctx, esc, calls) == Ok(x, calls)
  {
    SectionAlone(s, '^', "{{^", n, x);
    ShownFrom(fuel, ctx, esc, calls, s, n, x);
  }

  /** Any template that compiles to that one inverted section writes its text. */
  lemma ShownFrom(fuel: nat, ctx: Context, esc: Escaper, calls: nat, s: string, n: string, x: string)
    requires fuel > 0 && Skips(Lookup(ctx, n)) && x != []
    requires Parse(s, Braces) == Parsed([Section(n, true, [Text(x)], x, Braces, 0, true)])
    ensures RenderSource(fuel, s, Braces, ctx, esc, calls) == Ok(x, calls)
  {
    ShownNodes(fuel - 1, ctx, esc, calls, n, x);
    CompiledSource(fuel, s, Braces, ctx, esc, calls, [Section(n, true, [Text(x)], x, Braces, 0, true)]);
  }

  /** The inverted section's text is written when the name is skipped. */
  lemma ShownNodes(fuel: nat, ctx: Context, esc: Escaper, calls: nat, n: string, x: string)
    requires Skips(Lookup(ctx, n)) && x != []
    ensures RenderNodes(fuel, [Section(n, true, [Text(x)], x, Braces, 0, true)], ctx, esc, calls) == Ok(x, calls)
  {
    SkippedSection(fuel, n, [Text(x)], x, Braces, 0, true, ctx, esc, calls);
    RenderText(fuel, x, ctx, esc, calls);
    assert Texts(x) == [Text(x)];
    OneNode(fuel, Section(n, true, [Text(x)], x, Braces, 0, true), ctx, esc, calls, x, calls);
  }

  // ---------------------------------------------------------------------
  // Lambdas as sections

  /** `<{{#n}}{{m}}{{/n}}>` or `<{{^n}}{{m}}{{/n}}>` for lower-case names: one
      section between two texts, whose raw body is the variable tag. */
  lemma VariableSectionBetween(s: string, sigil: char, o: string, n: string, m: string)
    requires Opener(sigil) && o == "<{{" + [sigil] && Lowercase(n) && Lowercase(m)
    requires s == o + n + "}}{{" + m + "}}{{/" + n + "}}>"
    ensures Parse(s, Braces)
         == Parsed([Text("<"), Section(n, sigil == '^', [Variable(m, true)], "{{" + m + "}}", Braces, 1, true),
                    Text(">")])
  {
    PlainName(n);
    PlainName(m);
    var bo, bc := [sigil] + n, ['/'] + n;
    LambdaPieces(s, sigil, o, n, m, bo, bc);
    MatchedVariableSectionIn(s, "<", sigil, n, [], m, [], ">", bo, bc);
    assert [] + "{{" + m + "}}" + [] == "{{" + m + "}}";
    assert Texts([]) + [Variable(m, true)] + Texts([]) == [Variable(m, true)];
  }

  /** The lambda templates, piece by piece. */
  lemma LambdaPieces(s: string, sigil: char, o: string, n: string, m: string, bo: string, bc: string)
    requires o == "<{{" + [sigil] && bo == [sigil] + n && bc == ['/'] + n
    requires s == o + n + "}}{{" + m + "}}{{/" + n + "}}>"
    ensures s == "<" + "{{" + bo + "}}" + [] + "{{" + m + "}}" + [] + "{{" + bc + "}}" + ">"
  {
    assert o == "<" + "{{" + [sigil];
    assert "}}{{" == "}}" + "{{" && "}}{{/" == "}}" + "{{" + ['/'] && "}}>" == "}}" + ">";
    LambdaShape("<", "{{", [sigil], n, "}}", m, ['/'], ">");
  }

  /** The regrouping of the lambda templates' pieces. */
  lemma LambdaShape(lt: string, oo: string, sg: string, n: string, cc: string, m: string, sl: string, gt: string)
    ensures (lt + oo + sg) + n + (cc + oo) + m + (cc + oo + sl) + n + (cc + gt)
         == lt + oo + (sg + n) + cc + [] + oo + m + cc + [] + oo + (sl + n) + cc + gt
  {
    assert cc + [] == cc;
  }

  /** `<{{#lambda}}{{x}}{{/lambda}}>`: the section's body is the raw `{{x}}`. */
  lemma LambdaSectionCompiles(s: string, n: string, m: string)
    requires n == "lambda" && m == "x" && s == "<{{#" + n + "}}{{" + m + "}}{{/" + n + "}}>"
    ensures Parse(s, Braces)
         == Parsed([Text("<"), Section(n, false, [Variable(m, true)], "{{" + m + "}}", Braces, 1, true), Text(">")])
  {
    VariableSectionBetween(s, '#', "<{{#", n, m);
  }

  /** The lambda of that test: `yes` exactly when it is given `{{x}}`. */
  function IsRawBody(): LambdaExpr {
    IfArgIs("{{x}}", Lit("yes"), Lit("no"))
  }

  /** The lambda is called with the raw text `{{x}}`, not with what `{{x}}`
      would render to, and its answer is written in place of the section. */
  lemma LambdaSectionGetsRawBody(fuel: nat, calls: nat, ctx: Context, esc: Escaper, s: string, n: string, m: string)
    requires fuel > 1 && n == "lambda" && m == "x" && s == "<{{#" + n + "}}{{" + m + "}}{{/" + n + "}}>"
    requires ctx == Root(Object(map[n := Lambda(IsRawBody())]))
    ensures RenderSource(fuel, s, Braces, ctx, esc, calls) == Ok("<yes>", calls)
  {
    LambdaSectionCompiles(s, n, m);
    LambdaLookup(ctx, n, IsRawBody());
    RawBodyFrom(fuel, calls, ctx, esc, s, n, m, "{{" + m + "}}", "yes");
    assert "<" + "yes" + ">" == "<yes>";
  }

  /** Any template that compiles to that section lambda between `<` and `>`
      writes the lambda's answer between them. */
  lemma RawBodyFrom(fuel: nat, calls: nat, ctx: Context, esc: Escaper, s: string, n: string, m: string,
                    body: string, yes: string)
    requires fuel > 1 && Lookup(ctx, n) == Some(Lambda(IsRawBody())) && body == "{{x}}" && yes == "yes"
    requires Parse(s, Braces)
          == Parsed([Text("<"), Section(n, false, [Variable(m, true)], body, Braces, 1, true), Text(">")])
    ensures RenderSource(fuel, s, Braces, ctx, esc, calls) == Ok("<" + yes + ">", calls)
  {
    RawBodyNodes(fuel - 1, calls, ctx, esc, n, m, body, yes);
    CompiledSource(fuel, s, Braces, ctx, esc, calls,
                   [Text("<"), Section(n, false, [Variable(m, true)], body, Braces, 1, true), Text(">")]);
  }

  /** A section lambda between two characters of text, on nodes. */
  lemma RawBodyNodes(fuel: nat, calls: nat, ctx: Context, esc: Escaper, n: string, m: string,
                     body: string, yes: string)
    requires fuel > 0 && Lookup(ctx, n) == Some(Lambda(IsRawBody())) && body == "{{x}}" && yes == "yes"
    ensures RenderNodes(fuel, [Text("<"), Section(n, false, [Variable(m, true)], body, Braces, 1, true), Text(">")],
                        ctx, esc, calls)
         == Ok("<" + yes + ">", calls)
  {
    var sec := Section(n, false, [Variable(m, true)], body, Braces, 1, true);
    assert RenderNode(fuel, sec, ctx, esc, calls) == Ok(yes, calls) by {
      assert EvalLambda(IsRawBody(), body, calls) == (yes, calls);
      FirstCharFree(yes, Braces.open);
      PlainLambdaSection(fuel, n, IsRawBody(), [Variable(m, true)], body, Braces, 1, true, ctx, esc, calls);
    }
    AroundNode(fuel, calls, ctx, esc, sec, yes);
  }

  /** One node that writes `w` between `<` and `>`. */
  lemma AroundNode(fuel: nat, calls: nat, ctx: Context, esc: Escaper, n: Node, w: string)
    requires RenderNode(fuel, n, ctx, esc, calls) == Ok(w, calls)
    ensures RenderNodes(fuel, [Text("<"), n, Text(">")], ctx, esc, calls) == Ok("<" + w + ">", calls)
  {
    var last: seq<Node> := [Text(">")];
    assert RenderNodes(fuel, [n] + last, ctx, esc, calls) == Ok(w + ">", calls) by {
      RenderText(fuel, ">", ctx, esc, calls);
      RenderPair(fuel, n, last, ctx, esc, calls, w, calls, ">", calls);
    }
    TextThen(fuel, "<", [n] + last, ctx, esc, calls);
    assert [Text("<"), n, Text(">")] == [Text("<")] + ([n] + last);
  }

  /** `<{{^lambda}}{{static}}{{/lambda}}>`: an inverted section around a variable. */
  lemma InvertedLambdaCompiles(s: string, n: string, m: string)
    requires n == "lambda" && m == "static" && s == "<{{^" + n + "}}{{" + m + "}}{{/" + n + "}}>"
    ensures Parse(s, Braces)
         == Parsed([Text("<"), Section(n, true, [Variable(m, true)], "{{" + m + "}}", Braces, 1, true), Text(">")])
  {
    VariableSectionBetween(s, '^', "<{{^", n, m);
  }

  /** A lambda under the name hides an inverted section such as
      `<{{^lambda}}{{static}}{{/lambda}}>`: only `<>` is written, and the
      lambda is never called. */
  lemma InvertedLambdaHidden(fuel: nat, calls: nat, ctx: Context, esc: Escaper, s: string, n: string, m: string)
    requires fuel > 0 && Lowercase(n) && Lowercase(m) && s == "<{{^" + n + "}}{{" + m + "}}{{/" + n + "}}>"
    requires Lookup(ctx, n).Some? && Lookup(ctx, n).value.Lambda?
    ensures RenderSource(fuel, s, Braces, ctx, esc, calls) == Ok("<>", calls)
  {
    VariableSectionBetween(s, '^', "<{{^", n, m);
    HiddenFrom(fuel, calls, ctx, esc, s, n, m, "{{" + m + "}}");
    assert "<" + [] + ">" == "<>";
  }

  /** Any template that compiles to that inverted section between `<` and
      `>` writes only those two characters. */
  lemma HiddenFrom(fuel: nat, calls: nat, ctx: Context, esc: Escaper, s: string, n: string, m: string, body: string)
    requires fuel > 0 && Lookup(ctx, n).Some? && Lookup(ctx, n).value.Lambda?
    requires Parse(s, Braces)
          == Parsed([Text("<"), Section(n, true, [Variable(m, true)], body, Braces, 1, true), Text(">")])
    ensures RenderSource(fuel, s, Braces, ctx, esc, calls) == Ok("<" + [] + ">", calls)
  {
    HiddenNodes(fuel - 1, calls, ctx, esc, n, m, body);
    CompiledSource(fuel, s, Braces, ctx, esc, calls,
                   [Text("<"), Section(n, true, [Variable(m, true)], body, Braces, 1, true), Text(">")]);
  }

  /** The inverted section between two characters of text, on nodes. */
  lemma HiddenNodes(fuel: nat, calls: nat, ctx: Context, esc: Escaper, n: string, m: string, body: string)
    requires Lookup(ctx, n).Some? && Lookup(ctx, n).value.Lambda?
    ensures RenderNodes(fuel, [Text("<"), Section(n, true, [Variable(m, true)], body, Braces, 1, true), Text(">")],
                        ctx, esc, calls)
         == Ok("<" + [] + ">", calls)
  {
    var sec := Section(n, true, [Variable(m, true)], body, Braces, 1, true);
    HiddenInverted(fuel, n, [Variable(m, true)], body, Braces, 1, true, ctx, esc, calls);
    AroundNode(fuel, calls, ctx, esc, sec, []);
  }
}
