/** Whole renders the test suite asserts: a custom context, a lambda whose
    text does not compile, and partials read from files. */
module RenderCases {
  import opened Text
  import opened Syntax
  import opened Parser
  import opened ParseFacts
  import opened Escape
  import opened Data
  import opened Scope
  import opened Render
  import opened RenderFacts
  import Cases

  /** Text, then a variable that writes `v`. */
  lemma TextThenVariable(fuel: nat, t: string, n: string, ctx: Context, esc: Escaper, calls: nat, v: string, c: nat)
    requires RenderNode(fuel, Variable(n, true), ctx, esc, calls) == Ok(v, c)
    ensures RenderNodes(fuel, [Text(t), Variable(n, true)], ctx, esc, calls) == Ok(t + v, c)
  {
    var last: seq<Node> := [Variable(n, true)];
    assert RenderNodes(fuel, last, ctx, esc, calls) == Ok(v, c) by {
      assert last == [Variable(n, true)] + [];
      RenderPair(fuel, Variable(n, true), [], ctx, esc, calls, v, c, [], c);
      assert v + [] == v;
    }
    assert [Text(t), Variable(n, true)] == [Text(t)] + last;
    RenderPair(fuel, Text(t), last, ctx, esc, calls, t, calls, v, c);
  }

  /** `Hello {{what}}` compiles to its text and one escaped variable. */
  lemma HelloWhat(s: string)
    requires s == "Hello {{what}}"
    ensures Parse(s, Braces) == Parsed([Text("Hello "), Variable("what", true)])
  {
    var t, n := "Hello ", "what";
    assert s == t + "{{" + n + "}}" + [];
    assert '{' !in t;
    assert TagName(n) && n[0] !in "#^/>&!=" by {
      assert !IsSpace(n[0]) && !IsSpace(n[|n| - 1]);
    }
    VariableIn(s, t, n, []);
    assert Texts(t) + [Variable(n, true)] + Texts([]) == [Text(t), Variable(n, true)];
  }

  /** A context that knows only `what`, as `Steve`: `Hello {{what}}` writes
      `Hello Steve`. */
  lemma CustomContext(fuel: nat, calls: nat, ctx: Context, steve: string)
    requires steve == "Steve" && ctx == Fixed("what", Str(steve))
    ensures RenderNodes(fuel, [Text("Hello "), Variable("what", true)], ctx, Html, calls) == Ok("Hello Steve", calls)
  {
    assert HtmlEscape(steve) == steve by {
      assert forall i :: 0 <= i < |steve| ==> !HtmlSpecial(steve[i]);
      HtmlEscapePlain(steve);
    }
    assert RenderNode(fuel, Variable("what", true), ctx, Html, calls) == Ok(steve, calls) by {
      StringVariable(fuel, "what", steve, ctx, calls);
    }
    TextThenVariable(fuel, "Hello ", "what", ctx, Html, calls, steve, calls);
  }

  /** The same context knows no `world`: `Hello {{world}}` writes `Hello `. */
  lemma CustomContextUnknown(fuel: nat, calls: nat, ctx: Context, v: Value)
    requires ctx == Fixed("what", v)
    ensures RenderNodes(fuel, [Text("Hello "), Variable("world", true)], ctx, Html, calls) == Ok("Hello ", calls)
  {
    assert RenderNode(fuel, Variable("world", true), ctx, Html, calls) == Ok([], calls) by {
      assert "world" != "what" by {
        assert "world"[1] != "what"[1];
      }
      MissingVariable(fuel, "world", true, ctx, Html, calls);
    }
    TextThenVariable(fuel, "Hello ", "world", ctx, Html, calls, [], calls);
    assert "Hello " + [] == "Hello ";
  }

  /** A node that faults ends the render there. */
  lemma FaultFirst(fuel: nat, n: Node, rest: seq<Node>, ctx: Context, esc: Escaper, calls: nat)
    requires RenderNode(fuel, n, ctx, esc, calls).fault.Some?
    ensures RenderNodes(fuel, [n] + rest, ctx, esc, calls) == RenderNode(fuel, n, ctx, esc, calls)
  {
    assert ([n] + rest)[0] == n;
  }

  /** Text, then whatever the rest does. */
  lemma TextThen(fuel: nat, t: string, rest: seq<Node>, ctx: Context, esc: Escaper, calls: nat)
    ensures var r := RenderNodes(fuel, rest, ctx, esc, calls);
      RenderNodes(fuel, [Text(t)] + rest, ctx, esc, calls) == Outcome(t + r.out, r.fault, r.calls)
  {
    assert ([Text(t)] + rest)[0] == Text(t) && ([Text(t)] + rest)[1..] == rest;
  }

  lemma WhatName()
    ensures TagName("what") && "what"[0] !in "#^/>&!="
  {
    var n := "what";
    assert !IsSpace(n[0]) && !IsSpace(n[|n| - 1]);
  }

  /** `{{#what}}` on its own: the section is unclosed at offset 0. */
  lemma WhatUnclosed(src: string)
    requires src == "{{#what}}"
    ensures Parse(src, Braces) == Failed(UnclosedSection("what", 0))
  {
    WhatName();
    assert src == [] + "{{#" + "what" + "}}";
    UnclosedSectionAt([], "what");
  }

  lemma WhatMessage()
    ensures Message(UnclosedSection("what", 0)) == "Unclosed section \"what\" at 0"
  {
    assert NatToString(0) == "0";
  }

  /** The one value of a data object whose single key is `lambda`. */
  lemma LambdaLookup(ctx: Context, k: string, e: LambdaExpr)
    requires k == "lambda" && ctx == Root(Object(map[k := Lambda(e)]))
    ensures Lookup(ctx, k) == Some(Lambda(e))
  {
    var m := map[k := Lambda(e)];
    assert '.' !in k && k != ".";
    assert ctx == Push(Frames([]), Object(m));
    PushShadows(Frames([]), m, k);
  }

  /** `Hello {{lambda}}!` where the lambda returns `{{#what}}`: `Hello ` is
      written, then the lambda's text fails to compile and the render stops
      with that message; the `!` is never reached. */
  lemma LambdaError(fuel: nat, calls: nat, src: string, ctx: Context, msg: string)
    requires src == "{{#what}}" && ctx == Root(Object(map["lambda" := Lambda(Lit(src))]))
    requires msg == "Unclosed section \"what\" at 0"
    ensures RenderNodes(fuel, [Text("Hello "), Variable("lambda", true), Text("!")], ctx, Html, calls)
         == Outcome("Hello ", Some(Invalid(msg)), calls)
  {
    var v := Variable("lambda", true);
    assert RenderNode(fuel, v, ctx, Html, calls) == Outcome([], Some(Invalid(msg)), calls) by {
      LambdaTagFails(fuel, calls, src, ctx, msg);
    }
    var tail: seq<Node> := [v, Text("!")];
    assert RenderNodes(fuel, tail, ctx, Html, calls) == Outcome([], Some(Invalid(msg)), calls) by {
      assert tail == [v] + [Text("!")];
      FaultFirst(fuel, v, [Text("!")], ctx, Html, calls);
    }
    assert [Text("Hello "), v, Text("!")] == [Text("Hello ")] + tail;
    TextThen(fuel, "Hello ", tail, ctx, Html, calls);
    assert "Hello " + [] == "Hello ";
  }

  /** The lambda tag on its own. */
  lemma LambdaTagFails(fuel: nat, calls: nat, src: string, ctx: Context, msg: string)
    requires src == "{{#what}}" && ctx == Root(Object(map["lambda" := Lambda(Lit(src))]))
    requires msg == "Unclosed section \"what\" at 0"
    ensures RenderNode(fuel, Variable("lambda", true), ctx, Html, calls) == Outcome([], Some(Invalid(msg)), calls)
  {
    var err := UnclosedSection("what", 0);
    assert Parse(EvalLambda(Lit(src), [], calls).0, Braces) == Failed(err) by {
      WhatUnclosed(src);
    }
    assert Message(err) == msg by {
      WhatMessage();
    }
    LambdaLookup(ctx, "lambda", Lit(src));
    InvalidLambdaVariable(fuel, "lambda", true, Lit(src), ctx, Html, calls, err);
  }

  /** `Hello {{>what}}{{punctuation}}` in a context whose data has
      `punctuation` as `!` and whose file `what` holds `World`: the file's
      text is written in place of the partial tag. */
  lemma FilePartial(fuel: nat, calls: nat, ctx: Context, world: string)
    requires fuel > 0 && world == "World"
    requires ctx == Files([Object(map["punctuation" := Str("!")])], map["what" := world])
    ensures RenderNodes(fuel, [Text("Hello "), PartialRef("what"), Variable("punctuation", true)], ctx, Html, calls)
         == Ok("Hello World!", calls)
  {
    var pv := Variable("punctuation", true);
    var last: seq<Node> := [pv];
    assert RenderNodes(fuel, last, ctx, Html, calls) == Ok("!", calls) by {
      Punctuation(fuel, calls, ctx, world);
      assert last == [pv] + [];
      RenderPair(fuel, pv, [], ctx, Html, calls, "!", calls, [], calls);
      assert "!" + [] == "!";
    }
    var tail := [PartialRef("what")] + last;
    assert RenderNodes(fuel, tail, ctx, Html, calls) == Ok(world + "!", calls) by {
      assert RenderNode(fuel, PartialRef("what"), ctx, Html, calls) == Ok(world, calls) by {
        FirstCharFree(world, Braces.open);
        PlainPartial(fuel, "what", Str(world), world, ctx, Html, calls);
      }
      RenderPair(fuel, PartialRef("what"), last, ctx, Html, calls, world, calls, "!", calls);
    }
    TextThen(fuel, "Hello ", tail, ctx, Html, calls);
    assert [Text("Hello "), PartialRef("what"), pv] == [Text("Hello ")] + tail;
    assert "Hello " + (world + "!") == "Hello World!";
  }

  /** The same from the template text `Hello {{>what}}{{punctuation}}`. */
  lemma FilePartialRenders(fuel: nat, calls: nat, s: string, ctx: Context, world: string)
    requires fuel > 1 && world == "World" && s == "Hello " + "{{>" + "what" + "}}" + "{{" + "punctuation" + "}}"
    requires ctx == Files([Object(map["punctuation" := Str("!")])], map["what" := world])
    ensures RenderSource(fuel, s, Braces, ctx, Html, calls) == Ok("Hello World!", calls)
  {
    var nodes := [Text("Hello "), PartialRef("what"), Variable("punctuation", true)];
    Cases.FilePartialCompiles(s, "Hello ", "what", "punctuation");
    FilePartial(fuel - 1, calls, ctx, world);
    CompiledSource(fuel, s, Braces, ctx, Html, calls, nodes);
  }

  /** `{{punctuation}}` in that context. */
  lemma Punctuation(fuel: nat, calls: nat, ctx: Context, world: string)
    requires ctx == Files([Object(map["punctuation" := Str("!")])], map["what" := world])
    ensures RenderNode(fuel, Variable("punctuation", true), ctx, Html, calls) == Ok("!", calls)
  {
    var bang := "!";
    PunctuationLookup(ctx, world, "punctuation");
    assert HtmlEscape(bang) == bang by {
      assert !HtmlSpecial(bang[0]);
      HtmlEscapePlain(bang);
    }
    StringVariable(fuel, "punctuation", bang, ctx, calls);
  }

  lemma PunctuationLookup(ctx: Context, world: string, k: string)
    requires k == "punctuation" && ctx == Files([Object(map[k := Str("!")])], map["what" := world])
    ensures Lookup(ctx, k) == Some(Str("!"))
  {
    var files := map["what" := world];
    var m := map[k := Str("!")];
    assert '.' !in k && k != ".";
    assert ctx == Push(Files([], files), Object(m));
    PushShadows(Files([], files), m, k);
  }
  /** Text, then an unescaped variable bound to a string: the string is
      written as it is, whatever the escaper. */
  lemma TextThenRaw(fuel: nat, t: string, n: string, ctx: Context, esc: Escaper, calls: nat, v: string)
    requires Lookup(ctx, n) == Some(Str(v))
    ensures RenderNodes(fuel, [Text(t), Variable(n, false)], ctx, esc, calls) == Ok(t + v, calls)
  {
    var last: seq<Node> := [Variable(n, false)];
    assert RenderNodes(fuel, last, ctx, esc, calls) == Ok(v, calls) by {
      StringVariable(fuel, n, v, ctx, calls);
      assert last == [Variable(n, false)] + [];
      RenderPair(fuel, Variable(n, false), [], ctx, esc, calls, v, calls, [], calls);
      assert v + [] == v;
    }
    assert [Text(t), Variable(n, false)] == [Text(t)] + last;
    RenderPair(fuel, Text(t), last, ctx, esc, calls, t, calls, v, calls);
  }

  /** A template that compiles to text and one unescaped variable writes the
      text and the variable's string as it is. */
  lemma UnescapedFrom(fuel: nat, calls: nat, esc: Escaper, s: string, t: string, n: string, v: string, ctx: Context)
    requires fuel > 0 && Parse(s, Braces) == Parsed([Text(t), Variable(n, false)])
    requires Lookup(ctx, n) == Some(Str(v))
    ensures RenderSource(fuel, s, Braces, ctx, esc, calls) == Ok(t + v, calls)
  {
    TextThenRaw(fuel - 1, t, n, ctx, esc, calls, v);
    CompiledSource(fuel, s, Braces, ctx, esc, calls, [Text(t), Variable(n, false)]);
  }

  lemma NameLookup(ctx: Context, n: string, v: string)
    requires n == "name" && ctx == Root(Object(map[n := Str(v)]))
    ensures Lookup(ctx, n) == Some(Str(v))
  {
    var m := map[n := Str(v)];
    assert '.' !in n && n != ".";
    assert ctx == Push(Frames([]), Object(m));
    PushShadows(Frames([]), m, n);
  }

  /** `Hello {{{name}}}` writes the name's string unescaped. */
  lemma TripleUnescaped(fuel: nat, calls: nat, esc: Escaper, s: string, t: string, n: string, v: string, ctx: Context)
    requires fuel > 0 && t == "Hello " && n == "name" && s == t + "{{{" + n + "}}}"
    requires ctx == Root(Object(map[n := Str(v)]))
    ensures RenderSource(fuel, s, Braces, ctx, esc, calls) == Ok(t + v, calls)
  {
    Cases.TripleName(s, t, n);
    NameLookup(ctx, n, v);
    UnescapedFrom(fuel, calls, esc, s, t, n, v, ctx);
  }

  /** `Hello {{&name}}` does the same. */
  lemma AmpersandUnescaped(fuel: nat, calls: nat, esc: Escaper, s: string, t: string, n: string, v: string, ctx: Context)
    requires fuel > 0 && t == "Hello " && n == "name" && s == t + "{{&" + n + "}}"
    requires ctx == Root(Object(map[n := Str(v)]))
    ensures RenderSource(fuel, s, Braces, ctx, esc, calls) == Ok(t + v, calls)
  {
    Cases.AmpersandName(s, t, n);
    NameLookup(ctx, n, v);
    UnescapedFrom(fuel, calls, esc, s, t, n, v, ctx);
  }

  /** `Hello {{   &      name  }}` does the same. */
  lemma SpacedAmpersandUnescaped(fuel: nat, calls: nat, esc: Escaper, s: string, t: string, n: string, v: string,
                                 ctx: Context)
    requires fuel > 0 && t == "Hello " && n == "name" && s == t + "{{   &      " + n + "  }}"
    requires ctx == Root(Object(map[n := Str(v)]))
    ensures RenderSource(fuel, s, Braces, ctx, esc, calls) == Ok(t + v, calls)
  {
    Cases.SpacedAmpersand(s, t, n);
    NameLookup(ctx, n, v);
    UnescapedFrom(fuel, calls, esc, s, t, n, v, ctx);
  }

  /** `|{{= @   @ =}}|` renders the two bars and nothing for the directive. */
  lemma SpacedDirectiveRenders(fuel: nat, ctx: Context, esc: Escaper, calls: nat, s: string, t: string, o: string)
    requires fuel > 0 && t == "|" && o == "@" && s == t + "{{= " + o + "   " + o + " =}}" + t
    ensures RenderSource(fuel, s, Braces, ctx, esc, calls) == Ok(t + t, calls)
  {
    Cases.SpacedDirective(s, t, o);
    DirectiveBetween(fuel - 1, ctx, esc, calls, t, Delimiters(o, o), t);
    CompiledSource(fuel, s, Braces, ctx, esc, calls, [Text(t), SetDelimiter(Delimiters(o, o)), Text(t)]);
  }

  /** A set-delimiter node between two texts adds nothing of its own. */
  lemma DirectiveBetween(fuel: nat, ctx: Context, esc: Escaper, calls: nat, a: string, d: Delims, b: string)
    requires b != []
    ensures RenderNodes(fuel, [Text(a), SetDelimiter(d), Text(b)], ctx, esc, calls) == Ok(a + b, calls)
  {
    SilentBetween(fuel, ctx, esc, calls, a, SetDelimiter(d), b);
  }

  /** A node that writes nothing, between two texts: the two texts. */
  lemma SilentBetween(fuel: nat, ctx: Context, esc: Escaper, calls: nat, a: string, n: Node, b: string)
    requires RenderNode(fuel, n, ctx, esc, calls) == Ok([], calls)
    ensures RenderNodes(fuel, [Text(a), n, Text(b)], ctx, esc, calls) == Ok(a + b, calls)
  {
    var last: seq<Node> := [Text(b)];
    assert RenderNodes(fuel, [n] + last, ctx, esc, calls) == Ok([] + b, calls) by {
      RenderText(fuel, b, ctx, esc, calls);
      RenderPair(fuel, n, last, ctx, esc, calls, [], calls, b, calls);
    }
    assert [] + b == b;
    TextThen(fuel, a, [n] + last, ctx, esc, calls);
    assert [Text(a), n, Text(b)] == [Text(a)] + ([n] + last);
  }

  /** `t{{!c}}u` with neither text empty compiles to the two texts around
      one comment node. */
  lemma CommentCompiles(s: string, t: string, c: string, u: string)
    requires t != [] && u != [] && '{' !in t && '{' !in u && c != [] && c[0] == '!' && '}' !in c
    requires s == t + "{{" + c + "}}" + u
    ensures Parse(s, Braces) == Parsed([Text(t), Comment, Text(u)])
  {
    CommentIn(s, t, c, u);
    assert Texts(t) + [Comment] + Texts(u) == [Text(t), Comment, Text(u)];
  }

  /** A comment between two texts, from the template text: the comment,
      spaces and all, writes nothing and the texts are joined. */
  lemma CommentRenders(fuel: nat, calls: nat, esc: Escaper, ctx: Context, s: string, t: string, c: string, u: string)
    requires fuel > 0 && t != [] && u != [] && '{' !in t && '{' !in u && c != [] && c[0] == '!' && '}' !in c
    requires s == t + "{{" + c + "}}" + u
    ensures RenderSource(fuel, s, Braces, ctx, esc, calls) == Ok(t + u, calls)
  {
    CommentCompiles(s, t, c, u);
    assert RenderNodes(fuel - 1, [Text(t), Comment, Text(u)], ctx, esc, calls) == Ok(t + u, calls) by {
      CommentNode(fuel - 1, ctx, esc, calls);
      SilentBetween(fuel - 1, ctx, esc, calls, t, Comment, u);
    }
    CompiledSource(fuel, s, Braces, ctx, esc, calls, [Text(t), Comment, Text(u)]);
  }

  /** `<h1>Today{{! ignore me }}.</h1>` writes `<h1>Today.</h1>`. */
  lemma CommentSimple(fuel: nat, calls: nat, esc: Escaper, ctx: Context, s: string)
    requires fuel > 0 && s == "<h1>Today" + "{{" + "! ignore me " + "}}" + ".</h1>"
    ensures RenderSource(fuel, s, Braces, ctx, esc, calls) == Ok("<h1>Today.</h1>", calls)
  {
    assert '{' !in "<h1>Today" && '{' !in ".</h1>" && '}' !in "! ignore me ";
    CommentRenders(fuel, calls, esc, ctx, s, "<h1>Today", "! ignore me ", ".</h1>");
  }

  /** `Hello\n{{! ignore me }}\nWorld\n` keeps both line breaks around the
      comment: `Hello\n\nWorld\n`. */
  lemma CommentNewlines(fuel: nat, calls: nat, esc: Escaper, ctx: Context, s: string)
    requires fuel > 0 && s == "Hello\n" + "{{" + "! ignore me " + "}}" + "\nWorld\n"
    ensures RenderSource(fuel, s, Braces, ctx, esc, calls) == Ok("Hello\n\nWorld\n", calls)
  {
    assert '{' !in "Hello\n" && '{' !in "\nWorld\n" && '}' !in "! ignore me ";
    CommentRenders(fuel, calls, esc, ctx, s, "Hello\n", "! ignore me ", "\nWorld\n");
  }

  /** `t{{n}}u` with neither text empty compiles to the two texts around
      one escaped variable. */
  lemma TextVariableText(s: string, t: string, n: string, u: string)
    requires t != [] && u != [] && '{' !in t && '{' !in u && TagName(n) && n[0] !in "#^/>&!="
    requires s == t + "{{" + n + "}}" + u
    ensures Parse(s, Braces) == Parsed([Text(t), Variable(n, true), Text(u)])
  {
    VariableIn(s, t, n, u);
    assert Texts(t) + [Variable(n, true)] + Texts(u) == [Text(t), Variable(n, true), Text(u)];
  }

  /** The lambda error from the template text: `Hello {{lambda}}!` writes
      `Hello ` and faults with the message of `{{#what}}`. */
  lemma LambdaErrorRenders(fuel: nat, calls: nat, s: string, src: string, ctx: Context, msg: string)
    requires fuel > 0 && s == "Hello " + "{{" + "lambda" + "}}" + "!"
    requires src == "{{#what}}" && ctx == Root(Object(map["lambda" := Lambda(Lit(src))]))
    requires msg == "Unclosed section \"what\" at 0"
    ensures RenderSource(fuel, s, Braces, ctx, Html, calls) == Outcome("Hello ", Some(Invalid(msg)), calls)
  {
    var nodes := [Text("Hello "), Variable("lambda", true), Text("!")];
    assert Parse(s, Braces) == Parsed(nodes) by {
      var n := "lambda";
      assert '{' !in "Hello " && '{' !in "!" && !IsSpace(n[0]) && !IsSpace(n[|n| - 1]);
      TextVariableText(s, "Hello ", n, "!");
    }
    assert RenderNodes(fuel - 1, nodes, ctx, Html, calls) == Outcome("Hello ", Some(Invalid(msg)), calls) by {
      LambdaError(fuel - 1, calls, src, ctx, msg);
    }
    CompiledSource(fuel, s, Braces, ctx, Html, calls, nodes);
  }

  /** `{{lambda}} == {{{lambda}}} == {{lambda}}` with the counting lambda, from
      the template text: `1 == 2 == 3` when no call came before. */
  lemma NoCachingRenders(fuel: nat, calls: nat, s: string, n: string, sep: string, ctx: Context)
    requires fuel > 1 && n == "lambda" && sep == " == "
    requires s == "{{" + n + "}}" + sep + "{{{" + n + "}}}" + sep + "{{" + n + "}}"
    requires ctx == Root(Object(map[n := Lambda(Tally)]))
    ensures RenderSource(fuel, s, Braces, ctx, Html, calls)
         == Ok(NatToString(calls + 1) + sep + NatToString(calls + 2) + sep + NatToString(calls + 3), calls + 3)
  {
    var nodes := [Variable(n, true), Text(sep), Variable(n, false), Text(sep), Variable(n, true)];
    Cases.NoCachingCompiles(s, n, sep);
    LambdaLookup(ctx, n, Tally);
    NoCaching(fuel - 1, n, ctx, calls);
    CompiledSource(fuel, s, Braces, ctx, Html, calls, nodes);
  }

  /** `<{{lambda}}{{{lambda}}}` compiles to the text, the escaped lambda tag
      and the unescaped one. */
  lemma LambdaEscapeCompiles(s: string, t: string, n: string)
    requires t == "<" && n == "lambda" && s == t + "{{" + n + "}}" + "{{{" + n + "}}}"
    ensures Parse(s, Braces) == Parsed([Text(t), Variable(n, true), Variable(n, false)])
  {
    assert '{' !in t && !IsSpace(n[0]) && !IsSpace(n[|n| - 1]);
    TextVariableTriple(s, t, n);
  }

  /** The lambda output `>` through the HTML escape. */
  lemma EscapedGreater(g: string)
    requires g == ">"
    ensures HtmlEscape(g) == "&gt;"
  {
    assert g[0] == '>' && g[1..] == [];
  }

  /** `<{{lambda}}{{{lambda}}}` whose lambda returns `>`: the escaped tag
      writes `&gt;` and the triple writes `>`, so the template writes
      `<&gt;>`. */
  lemma LambdaEscapeRenders(fuel: nat, calls: nat, s: string, t: string, n: string, g: string, ctx: Context)
    requires fuel > 1 && t == "<" && n == "lambda" && g == ">"
    requires s == t + "{{" + n + "}}" + "{{{" + n + "}}}" && ctx == Root(Object(map[n := Lambda(Lit(g))]))
    ensures RenderSource(fuel, s, Braces, ctx, Html, calls) == Ok(t + "&gt;" + g, calls)
  {
    var nodes := [Text(t), Variable(n, true), Variable(n, false)];
    LambdaEscapeCompiles(s, t, n);
    assert RenderNodes(fuel - 1, nodes, ctx, Html, calls) == Ok(t + ("&gt;" + g), calls) by {
      LambdaLookup(ctx, n, Lit(g));
      LambdaEscapeNodes(fuel - 1, calls, t, n, g, ctx);
    }
    assert t + ("&gt;" + g) == t + "&gt;" + g;
    CompiledSource(fuel, s, Braces, ctx, Html, calls, nodes);
  }

  /** The nodes of that test. */
  lemma LambdaEscapeNodes(fuel: nat, calls: nat, t: string, n: string, g: string, ctx: Context)
    requires fuel > 0 && g == ">" && Lookup(ctx, n) == Some(Lambda(Lit(g)))
    ensures RenderNodes(fuel, [Text(t), Variable(n, true), Variable(n, false)], ctx, Html, calls)
         == Ok(t + ("&gt;" + g), calls)
  {
    var last: seq<Node> := [Variable(n, false)];
    FirstCharFree(g, Braces.open);
    assert RenderNodes(fuel, last, ctx, Html, calls) == Ok(g, calls) by {
      PlainLambdaVariable(fuel, n, false, Lit(g), ctx, Html, calls);
      OneNode(fuel, Variable(n, false), ctx, Html, calls, g, calls);
    }
    assert RenderNode(fuel, Variable(n, true), ctx, Html, calls) == Ok("&gt;", calls) by {
      PlainLambdaVariable(fuel, n, true, Lit(g), ctx, Html, calls);
      EscapedGreater(g);
    }
    RenderPair(fuel, Variable(n, true), last, ctx, Html, calls, "&gt;", calls, g, calls);
    assert [Text(t), Variable(n, true), Variable(n, false)] == [Text(t)] + ([Variable(n, true)] + last);
    RenderPair(fuel, Text(t), [Variable(n, true)] + last, ctx, Html, calls, t, calls, "&gt;" + g, calls);
  }

  /** `{{>a.b}}` with the partial `test` stored under the key `a.b` writes
      `test`. */
  lemma DottedPartialRenders(fuel: nat, calls: nat, esc: Escaper, s: string, n: string, src: string, ctx: Context)
    requires fuel > 1 && n == "a.b" && src == "test" && s == "{{>" + n + "}}"
    requires ctx == Root(Object(map[n := Partial(src)]))
    ensures RenderSource(fuel, s, Braces, ctx, esc, calls) == Ok(src, calls)
  {
    Cases.DottedPartialCompiles(s, n);
    DottedPartialKey(n, ctx, Partial(src));
    assert RenderNode(fuel - 1, PartialRef(n), ctx, esc, calls) == Ok(src, calls) by {
      FirstCharFree(src, Braces.open);
      PlainPartial(fuel - 1, n, Partial(src), src, ctx, esc, calls);
    }
    OneNode(fuel - 1, PartialRef(n), ctx, esc, calls, src, calls);
    CompiledSource(fuel, s, Braces, ctx, esc, calls, [PartialRef(n)]);
  }
}
