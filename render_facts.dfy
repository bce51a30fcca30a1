/** What rendering does with each kind of node, and how the parts of a
    template combine: sequencing and the first fault, variables and escaping,
    sections and inverted sections, lists, lambdas, partials. */
module RenderFacts {
  import opened Text
  import opened Syntax
  import opened Parser
  import opened ParseFacts
  import opened Escape
  import opened Data
  import opened Scope
  import opened Render

  // ---------------------------------------------------------------------
  // Sequencing

  /** Nodes render left to right: a fault in the first part ends the render,
      keeping what was written before it; otherwise the second part follows
      with the counter the first part left. */
  lemma {:induction false} RenderNodesAppend(fuel: nat, a: seq<Node>, b: seq<Node>, ctx: Context, esc: Escaper, calls: nat)
    ensures var first := RenderNodes(fuel, a, ctx, esc, calls);
      RenderNodes(fuel, a + b, ctx, esc, calls)
        == if first.fault.Some? then first else Then(first, RenderNodes(fuel, b, ctx, esc, first.calls))
    decreases |a|
  {
    if a == [] {
      assert a + b == b;
      var r := RenderNodes(fuel, b, ctx, esc, calls);
      assert [] + r.out == r.out;
    } else {
      assert (a + b)[0] == a[0] && (a + b)[1..] == a[1..] + b;
      var h := RenderNode(fuel, a[0], ctx, esc, calls);
      if h.fault.None? {
        RenderNodesAppend(fuel, a[1..], b, ctx, esc, h.calls);
        var t := RenderNodes(fuel, a[1..], ctx, esc, h.calls);
        if t.fault.None? {
          var r := RenderNodes(fuel, b, ctx, esc, t.calls);
          assert h.out + (t.out + r.out) == (h.out + t.out) + r.out;
        }
      }
    }
  }

  /** Literal text is written as it is, whatever it contains. */
  lemma RenderText(fuel: nat, t: string, ctx: Context, esc: Escaper, calls: nat)
    ensures RenderNodes(fuel, Texts(t), ctx, esc, calls) == Ok(t, calls)
  {
    if t != [] {
      var r := RenderNodes(fuel, [], ctx, esc, calls);
      assert t + r.out == t;
    }
  }

  /** Text that a lambda or a partial produces without any open marker is
      written as it is (given a level of re-compilation to spare). */
  lemma RenderPlainSource(fuel: nat, t: string, d: Delims, ctx: Context, esc: Escaper, calls: nat)
    requires fuel > 0 && MarkerFree(t, d.open)
    ensures RenderSource(fuel, t, d, ctx, esc, calls) == Ok(t, calls)
  {
    TagFree(t, d);
    RenderText(fuel - 1, t, ctx, esc, calls);
  }

  /** Text that compiles is rendered as its nodes, one level of fuel down. */
  lemma CompiledSource(fuel: nat, t: string, d: Delims, ctx: Context, esc: Escaper, calls: nat, nodes: seq<Node>)
    requires fuel > 0 && Parse(t, d) == Parsed(nodes)
    ensures RenderSource(fuel, t, d, ctx, esc, calls) == RenderNodes(fuel - 1, nodes, ctx, esc, calls)
  {
  }

  /** A single node renders as itself. */
  lemma OneNode(fuel: nat, n: Node, ctx: Context, esc: Escaper, calls: nat, w: string, c: nat)
    requires RenderNode(fuel, n, ctx, esc, calls) == Ok(w, c)
    ensures RenderNodes(fuel, [n], ctx, esc, calls) == Ok(w, c)
  {
    assert [n][0] == n && [n][1..] == [];
    assert w + [] == w;
  }

  /** Text that does not compile stops the render with the compile error's
      message, and writes nothing. */
  lemma RenderInvalidSource(fuel: nat, t: string, d: Delims, ctx: Context, esc: Escaper, calls: nat, e: ParseError)
    requires Parse(t, d) == Failed(e)
    ensures RenderSource(fuel, t, d, ctx, esc, calls) == Outcome([], Some(Invalid(Message(e))), calls)
  {
  }

  // ---------------------------------------------------------------------
  // Text handed back for rendering

  /** Text that a lambda or a render callback hands back is compiled with
      `d` and its nodes are rendered in the same context, one level of fuel
      down: what they write goes out through the escaper when `escaped`, and
      on a fault nothing of it is kept and the fault stands. */
  lemma RerenderCompiled(fuel: nat, t: string, d: Delims, escaped: bool, ctx: Context, esc: Escaper, calls: nat,
                         nodes: seq<Node>)
    requires fuel > 0 && Parse(t, d) == Parsed(nodes)
    ensures var r := RenderNodes(fuel - 1, nodes, ctx, esc, calls);
      Rerender(fuel, t, d, escaped, ctx, esc, calls)
        == if r.fault.Some? then Outcome([], r.fault, r.calls) else Emit(esc, r.out, escaped, r.calls)
  {
    CompiledSource(fuel, t, d, ctx, esc, calls, nodes);
  }

  /** A lambda used as a variable is called with the empty string, and the
      text it returns is compiled with the default delimiters, whatever pair
      is in force at the tag, rendered in the tag's context and escaped as
      the tag says. */
  lemma LambdaVariableSource(fuel: nat, name: string, escaped: bool, e: LambdaExpr, ctx: Context, esc: Escaper,
                             calls: nat)
    requires Lookup(ctx, name) == Some(Lambda(e))
    ensures var x := EvalLambda(e, [], calls);
      RenderNode(fuel, Variable(name, escaped), ctx, esc, calls) == Rerender(fuel, x.0, Braces, escaped, ctx, esc, x.1)
  {
    var x := EvalLambda(e, [], calls);
    assert RenderVariable(fuel, name, escaped, ctx, esc, calls) == Rerender(fuel, x.0, Braces, escaped, ctx, esc, x.1);
  }

  /** A lambda as a section is called with the section's raw text, and the
      text it returns is compiled with the delimiters in force at the open
      tag and rendered, unescaped, in the section's context. */
  lemma LambdaSectionSource(fuel: nat, name: string, e: LambdaExpr, children: seq<Node>, body: string, delims: Delims,
                            pos: nat, closed: bool, ctx: Context, esc: Escaper, calls: nat)
    requires Lookup(ctx, name) == Some(Lambda(e))
    ensures var x := EvalLambda(e, body, calls);
      RenderNode(fuel, Section(name, false, children, body, delims, pos, closed), ctx, esc, calls)
        == Rerender(fuel, x.0, delims, false, ctx, esc, x.1)
  {
    assert RenderTruthy(fuel, Lambda(e), children, body, delims, ctx, esc, calls)
        == Rerender(fuel, EvalLambda(e, body, calls).0, delims, false, ctx, esc, EvalLambda(e, body, calls).1);
  }

  /** A lambda with a render callback as a section is run on the section's
      raw text, with the delimiters in force at the open tag; what it
      returns is written as it is. */
  lemma Lambda2SectionSource(fuel: nat, name: string, e: Lambda2Expr, children: seq<Node>, body: string,
                             delims: Delims, pos: nat, closed: bool, ctx: Context, esc: Escaper, calls: nat)
    requires Lookup(ctx, name) == Some(Lambda2(e))
    ensures RenderNode(fuel, Section(name, false, children, body, delims, pos, closed), ctx, esc, calls)
         == EvalLambda2(fuel, e, body, delims, ctx, esc, calls)
  {
    assert RenderTruthy(fuel, Lambda2(e), children, body, delims, ctx, esc, calls)
        == EvalLambda2(fuel, e, body, delims, ctx, esc, calls);
  }

  /** The render callback compiles the text it is given with the
      delimiters in force at the section and renders it in the section's
      context, escaped when asked. */
  lemma CallbackSource(fuel: nat, x: LambdaExpr, escaped: bool, arg: string, delims: Delims, ctx: Context,
                       esc: Escaper, calls: nat)
    ensures var t := EvalLambda(x, arg, calls);
      EvalLambda2(fuel, Rendered(x, escaped), arg, delims, ctx, esc, calls)
        == Rerender(fuel, t.0, delims, escaped, ctx, esc, t.1)
  {
  }

  /** Two parts of a lambda with a render callback that both succeed: their
      texts are joined, in order, and the counter runs through both. */
  lemma CleanCat(fuel: nat, a: Lambda2Expr, b: Lambda2Expr, arg: string, delims: Delims, ctx: Context,
                 esc: Escaper, calls: nat, x: string, c1: nat, y: string, c2: nat)
    requires EvalLambda2(fuel, a, arg, delims, ctx, esc, calls) == Ok(x, c1)
    requires EvalLambda2(fuel, b, arg, delims, ctx, esc, c1) == Ok(y, c2)
    ensures EvalLambda2(fuel, Cat(a, b), arg, delims, ctx, esc, calls) == Ok(x + y, c2)
  {
  }

  /** A variable lambda whose text compiles, with the default delimiters, to
      nodes that write `w`: the tag writes `w`, through the escaper when it
      escapes. */
  lemma LambdaVariableWrites(fuel: nat, name: string, escaped: bool, e: LambdaExpr, ctx: Context, esc: Escaper,
                             calls: nat, nodes: seq<Node>, w: string, c: nat)
    requires fuel > 0 && Lookup(ctx, name) == Some(Lambda(e))
    requires Parse(EvalLambda(e, [], calls).0, Braces) == Parsed(nodes)
    requires RenderNodes(fuel - 1, nodes, ctx, esc, EvalLambda(e, [], calls).1) == Ok(w, c)
    ensures RenderNode(fuel, Variable(name, escaped), ctx, esc, calls) == Emit(esc, w, escaped, c)
  {
    var x := EvalLambda(e, [], calls);
    LambdaVariableSource(fuel, name, escaped, e, ctx, esc, calls);
    RerenderCompiled(fuel, x.0, Braces, escaped, ctx, esc, x.1, nodes);
  }

  /** A variable lambda whose text compiles to nodes that fault: the tag
      writes nothing and the fault stands, the text written before it lost. */
  lemma LambdaVariableFaults(fuel: nat, name: string, escaped: bool, e: LambdaExpr, ctx: Context, esc: Escaper,
                             calls: nat, nodes: seq<Node>)
    requires fuel > 0 && Lookup(ctx, name) == Some(Lambda(e))
    requires Parse(EvalLambda(e, [], calls).0, Braces) == Parsed(nodes)
    requires RenderNodes(fuel - 1, nodes, ctx, esc, EvalLambda(e, [], calls).1).fault.Some?
    ensures var r := RenderNodes(fuel - 1, nodes, ctx, esc, EvalLambda(e, [], calls).1);
      RenderNode(fuel, Variable(name, escaped), ctx, esc, calls) == Outcome([], r.fault, r.calls)
  {
    var x := EvalLambda(e, [], calls);
    LambdaVariableSource(fuel, name, escaped, e, ctx, esc, calls);
    RerenderCompiled(fuel, x.0, Braces, escaped, ctx, esc, x.1, nodes);
  }

  /** A section lambda whose text compiles, with the section's delimiters,
      to nodes that write `w`: the section writes `w`, unescaped. */
  lemma LambdaSectionWrites(fuel: nat, name: string, e: LambdaExpr, children: seq<Node>, body: string, delims: Delims,
                            pos: nat, closed: bool, ctx: Context, esc: Escaper, calls: nat, nodes: seq<Node>,
                            w: string, c: nat)
    requires fuel > 0 && Lookup(ctx, name) == Some(Lambda(e))
    requires Parse(EvalLambda(e, body, calls).0, delims) == Parsed(nodes)
    requires RenderNodes(fuel - 1, nodes, ctx, esc, EvalLambda(e, body, calls).1) == Ok(w, c)
    ensures RenderNode(fuel, Section(name, false, children, body, delims, pos, closed), ctx, esc, calls) == Ok(w, c)
  {
    var x := EvalLambda(e, body, calls);
    LambdaSectionSource(fuel, name, e, children, body, delims, pos, closed, ctx, esc, calls);
    RerenderCompiled(fuel, x.0, delims, false, ctx, esc, x.1, nodes);
  }

  /** The render callback on text that compiles to nodes that write `w`
      gives `w` back, through the escaper when asked. */
  lemma CallbackWrites(fuel: nat, x: LambdaExpr, escaped: bool, arg: string, delims: Delims, ctx: Context,
                       esc: Escaper, calls: nat, nodes: seq<Node>, w: string, c: nat)
    requires fuel > 0 && Parse(EvalLambda(x, arg, calls).0, delims) == Parsed(nodes)
    requires RenderNodes(fuel - 1, nodes, ctx, esc, EvalLambda(x, arg, calls).1) == Ok(w, c)
    ensures EvalLambda2(fuel, Rendered(x, escaped), arg, delims, ctx, esc, calls) == Emit(esc, w, escaped, c)
  {
    var t := EvalLambda(x, arg, calls);
    CallbackSource(fuel, x, escaped, arg, delims, ctx, esc, calls);
    RerenderCompiled(fuel, t.0, delims, escaped, ctx, esc, t.1, nodes);
  }

  /** A comment writes nothing. */
  lemma CommentNode(fuel: nat, ctx: Context, esc: Escaper, calls: nat)
    ensures RenderNode(fuel, Comment, ctx, esc, calls) == Ok([], calls)
  {
  }

  // ---------------------------------------------------------------------
  // Variables

  /** A name that resolves to nothing writes nothing. */
  lemma MissingVariable(fuel: nat, name: string, escaped: bool, ctx: Context, esc: Escaper, calls: nat)
    requires Lookup(ctx, name).None?
    ensures RenderNode(fuel, Variable(name, escaped), ctx, esc, calls) == Ok([], calls)
  {
  }

  /** A string value is written once, never compiled: through the escaper for
      `{{name}}`, as it is for `{{&name}}` and `{{{name}}}`; an empty
      handler stops the render. */
  lemma StringVariable(fuel: nat, name: string, s: string, ctx: Context, calls: nat)
    requires Lookup(ctx, name) == Some(Str(s))
    ensures forall esc :: RenderNode(fuel, Variable(name, false), ctx, esc, calls) == Ok(s, calls)
    ensures RenderNode(fuel, Variable(name, true), ctx, Html, calls) == Ok(HtmlEscape(s), calls)
    ensures RenderNode(fuel, Variable(name, true), ctx, BackslashQuotes, calls) == Ok(Backslashed(s), calls)
    ensures RenderNode(fuel, Variable(name, true), ctx, EmptyHandler, calls) == Outcome([], Some(NoEscapeHandler([])), calls)
  {
  }

  /** A value that is neither a string nor a lambda writes nothing. */
  lemma OtherVariable(fuel: nat, name: string, escaped: bool, v: Value, ctx: Context, esc: Escaper, calls: nat)
    requires Lookup(ctx, name) == Some(v) && !v.Str? && !v.Lambda? && !v.Lambda2?
    ensures RenderNode(fuel, Variable(name, escaped), ctx, esc, calls) == Ok([], calls)
  {
  }

  /** A lambda with a render callback used as a variable is an error. */
  lemma Lambda2Variable(fuel: nat, name: string, escaped: bool, e: Lambda2Expr, ctx: Context, esc: Escaper, calls: nat)
    requires Lookup(ctx, name) == Some(Lambda2(e))
    ensures RenderNode(fuel, Variable(name, escaped), ctx, esc, calls)
         == Outcome([], Some(Invalid(Lambda2VariableMessage)), calls)
  {
  }

  /** A lambda used as a variable is called with the empty string, once per
      tag; text it returns without tags is written through the escaper when
      the tag escapes. */
  lemma PlainLambdaVariable(fuel: nat, name: string, escaped: bool, e: LambdaExpr, ctx: Context, esc: Escaper, calls: nat)
    requires fuel > 0 && Lookup(ctx, name) == Some(Lambda(e)) && MarkerFree(EvalLambda(e, [], calls).0, Braces.open)
    ensures var x := EvalLambda(e, [], calls);
      RenderNode(fuel, Variable(name, escaped), ctx, esc, calls) == Emit(esc, x.0, escaped, x.1)
  {
    var x := EvalLambda(e, [], calls);
    RenderPlainSource(fuel, x.0, Braces, ctx, esc, x.1);
    assert Rerender(fuel, x.0, Braces, escaped, ctx, esc, x.1) == Emit(esc, x.0, escaped, x.1);
    assert RenderVariable(fuel, name, escaped, ctx, esc, calls) == Rerender(fuel, x.0, Braces, escaped, ctx, esc, x.1);
  }

  /** A lambda used as a variable whose text does not compile stops the
      render with that error; nothing of it is written. */
  lemma InvalidLambdaVariable(fuel: nat, name: string, escaped: bool, e: LambdaExpr, ctx: Context, esc: Escaper,
                              calls: nat, err: ParseError)
    requires Lookup(ctx, name) == Some(Lambda(e)) && Parse(EvalLambda(e, [], calls).0, Braces) == Failed(err)
    ensures RenderNode(fuel, Variable(name, escaped), ctx, esc, calls)
         == Outcome([], Some(Invalid(Message(err))), EvalLambda(e, [], calls).1)
  {
    var x := EvalLambda(e, [], calls);
    assert Rerender(fuel, x.0, Braces, escaped, ctx, esc, x.1) == Outcome([], Some(Invalid(Message(err))), x.1);
    assert RenderVariable(fuel, name, escaped, ctx, esc, calls) == Rerender(fuel, x.0, Braces, escaped, ctx, esc, x.1);
  }

  /** Digits pass through both escapes unchanged. */
  lemma DigitsUnescaped(s: string)
    requires forall i :: 0 <= i < |s| ==> '0' <= s[i] <= '9'
    ensures HtmlEscape(s) == s && Backslashed(s) == s
  {
    HtmlEscapePlain(s);
    BackslashPlain(s);
  }

  /** The counting lambda as a variable: each tag calls it afresh and writes
      the new count; nothing is cached between tags. */
  lemma CountingVariable(fuel: nat, name: string, escaped: bool, ctx: Context, esc: Escaper, calls: nat)
    requires fuel > 0 && Lookup(ctx, name) == Some(Lambda(Tally)) && !esc.EmptyHandler?
    ensures RenderNode(fuel, Variable(name, escaped), ctx, esc, calls) == Ok(NatToString(calls + 1), calls + 1)
  {
    var s := NatToString(calls + 1);
    FirstCharFree(s, Braces.open);
    PlainLambdaVariable(fuel, name, escaped, Tally, ctx, esc, calls);
    DigitsUnescaped(s);
  }

  /** `{{lambda}} == {{{lambda}}} == {{lambda}}` with the counting lambda:
      three calls, three different numbers, in order. */
  lemma NoCaching(fuel: nat, name: string, ctx: Context, calls: nat)
    requires fuel > 0 && Lookup(ctx, name) == Some(Lambda(Tally))
    ensures var sep := " == ";
      RenderNodes(fuel, [Variable(name, true), Text(sep), Variable(name, false), Text(sep), Variable(name, true)], ctx, Html, calls)
        == Ok(NatToString(calls + 1) + sep + NatToString(calls + 2) + sep + NatToString(calls + 3), calls + 3)
  {
    var sep := " == ";
    var n1, n2 := Variable(name, true), Variable(name, false);
    var s1, s2, s3 := NatToString(calls + 1), NatToString(calls + 2), NatToString(calls + 3);
    var l5: seq<Node> := [n1];
    var l4 := [Text(sep)] + l5;
    var l3 := [n2] + l4;
    var l2 := [Text(sep)] + l3;
    var l1 := [n1] + l2;
    assert RenderNodes(fuel, l5, ctx, Html, calls + 2) == Ok(s3, calls + 3) by {
      CountingVariable(fuel, name, true, ctx, Html, calls + 2);
      assert l5 == [n1] + [];
      RenderPair(fuel, n1, [], ctx, Html, calls + 2, s3, calls + 3, [], calls + 3);
      assert s3 + [] == s3;
    }
    assert RenderNodes(fuel, l4, ctx, Html, calls + 2) == Ok(sep + s3, calls + 3) by {
      RenderPair(fuel, Text(sep), l5, ctx, Html, calls + 2, sep, calls + 2, s3, calls + 3);
    }
    assert RenderNodes(fuel, l3, ctx, Html, calls + 1) == Ok(s2 + (sep + s3), calls + 3) by {
      CountingVariable(fuel, name, false, ctx, Html, calls + 1);
      RenderPair(fuel, n2, l4, ctx, Html, calls + 1, s2, calls + 2, sep + s3, calls + 3);
    }
    assert RenderNodes(fuel, l2, ctx, Html, calls + 1) == Ok(sep + (s2 + (sep + s3)), calls + 3) by {
      RenderPair(fuel, Text(sep), l3, ctx, Html, calls + 1, sep, calls + 1, s2 + (sep + s3), calls + 3);
    }
    assert RenderNodes(fuel, l1, ctx, Html, calls) == Ok(s1 + (sep + (s2 + (sep + s3))), calls + 3) by {
      CountingVariable(fuel, name, true, ctx, Html, calls);
      RenderPair(fuel, n1, l2, ctx, Html, calls, s1, calls + 1, sep + (s2 + (sep + s3)), calls + 3);
    }
    assert l1 == [n1, Text(sep), n2, Text(sep), n1];
    Flatten(s1, sep, s2, sep, s3);
  }

  /** One node that succeeds, then the rest. */
  lemma RenderPair(fuel: nat, n: Node, rest: seq<Node>, ctx: Context, esc: Escaper, calls: nat,
                   x: string, c1: nat, y: string, c2: nat)
    requires RenderNode(fuel, n, ctx, esc, calls) == Ok(x, c1)
    requires RenderNodes(fuel, rest, ctx, esc, c1) == Ok(y, c2)
    ensures RenderNodes(fuel, [n] + rest, ctx, esc, calls) == Ok(x + y, c2)
  {
    assert ([n] + rest)[0] == n && ([n] + rest)[1..] == rest;
  }

  // ---------------------------------------------------------------------
  // Sections

  /** A missing, false or empty-list value skips a section and shows the
      inverted one, in the same context. */
  lemma SkippedSection(fuel: nat, name: string, children: seq<Node>, body: string, delims: Delims, pos: nat,
                       closed: bool, ctx: Context, esc: Escaper, calls: nat)
    requires Skips(Lookup(ctx, name))
    ensures RenderNode(fuel, Section(name, false, children, body, delims, pos, closed), ctx, esc, calls) == Ok([], calls)
    ensures RenderNode(fuel, Section(name, true, children, body, delims, pos, closed), ctx, esc, calls)
         == RenderNodes(fuel, children, ctx, esc, calls)
  {
  }

  /** Any other value hides an inverted section; a lambda there is never
      called, so the counter does not move. */
  lemma HiddenInverted(fuel: nat, name: string, children: seq<Node>, body: string, delims: Delims, pos: nat,
                       closed: bool, ctx: Context, esc: Escaper, calls: nat)
    requires !Skips(Lookup(ctx, name))
    ensures RenderNode(fuel, Section(name, true, children, body, delims, pos, closed), ctx, esc, calls) == Ok([], calls)
  {
  }

  /** A string, `true`, an object or a partial value shows the section once,
      with the value pushed as the innermost frame. */
  lemma ValueSection(fuel: nat, name: string, v: Value, children: seq<Node>, body: string, delims: Delims, pos: nat,
                     closed: bool, ctx: Context, esc: Escaper, calls: nat)
    requires Lookup(ctx, name) == Some(v) && !IsFalsy(v) && !v.List? && !v.Lambda? && !v.Lambda2?
    ensures RenderNode(fuel, Section(name, false, children, body, delims, pos, closed), ctx, esc, calls)
         == RenderNodes(fuel, children, Push(ctx, v), esc, calls)
  {
  }

  /** A non-empty list shows the section once per item, in order, each item
      pushed in turn. */
  lemma ListSection(fuel: nat, name: string, items: seq<Value>, children: seq<Node>, body: string, delims: Delims,
                    pos: nat, closed: bool, ctx: Context, esc: Escaper, calls: nat)
    requires Lookup(ctx, name) == Some(List(items)) && items != []
    ensures RenderNode(fuel, Section(name, false, children, body, delims, pos, closed), ctx, esc, calls)
         == RenderEach(fuel, children, items, ctx, esc, calls)
  {
  }

  /** The strings of a list, each between `pre` and `sep`. */
  function JoinItems(items: seq<Value>, pre: string, sep: string): string
    requires forall i :: 0 <= i < |items| ==> items[i].Str?
  {
    if items == [] then [] else pre + items[0].s + sep + JoinItems(items[1..], pre, sep)
  }

  /** The same, with each string passed through an escaper that does not throw. */
  function EachEscaped(items: seq<Value>, pre: string, sep: string, esc: Escaper): string
    requires forall i :: 0 <= i < |items| ==> items[i].Str?
    requires !esc.EmptyHandler?
  {
    if items == [] then [] else pre + Apply(esc, items[0].s).value + sep + EachEscaped(items[1..], pre, sep, esc)
  }

  /** `{{#list}}pre{{.}}sep{{/list}}` over a list of strings writes, item
      after item, `pre`, the escaped string and `sep`. */
  lemma {:induction false} EachDot(fuel: nat, items: seq<Value>, pre: string, sep: string, ctx: Context, esc: Escaper,
                                   calls: nat)
    requires !ctx.Fixed? && !esc.EmptyHandler? && forall i :: 0 <= i < |items| ==> items[i].Str?
    ensures RenderEach(fuel, [Text(pre), Variable(".", true), Text(sep)], items, ctx, esc, calls)
         == Ok(EachEscaped(items, pre, sep, esc), calls)
    decreases |items|
  {
    if items != [] {
      DotItem(fuel, items[0], pre, sep, ctx, esc, calls);
      assert forall i :: 0 <= i < |items[1..]| ==> items[1..][i] == items[i + 1];
      EachDot(fuel, items[1..], pre, sep, ctx, esc, calls);
    }
  }

  /** One item of that list: `pre`, the item's escaped string and `sep`. */
  lemma DotItem(fuel: nat, v: Value, pre: string, sep: string, ctx: Context, esc: Escaper, calls: nat)
    requires !ctx.Fixed? && !esc.EmptyHandler? && v.Str?
    ensures RenderNodes(fuel, [Text(pre), Variable(".", true), Text(sep)], Push(ctx, v), esc, calls)
         == Ok(pre + Apply(esc, v.s).value + sep, calls)
  {
    var dot := Variable(".", true);
    var inner := Push(ctx, v);
    var w := Apply(esc, v.s).value;
    DotIsInnermost(ctx, v);
    assert RenderNode(fuel, dot, inner, esc, calls) == Ok(w, calls);
    assert RenderNodes(fuel, [Text(sep)], inner, esc, calls) == Ok(sep, calls) by {
      RenderPair(fuel, Text(sep), [], inner, esc, calls, sep, calls, [], calls);
      assert [Text(sep)] + [] == [Text(sep)];
    }
    RenderPair(fuel, dot, [Text(sep)], inner, esc, calls, w, calls, sep, calls);
    RenderPair(fuel, Text(pre), [dot] + [Text(sep)], inner, esc, calls, pre, calls, w + sep, calls);
    assert [Text(pre)] + ([dot] + [Text(sep)]) == [Text(pre), dot, Text(sep)];
  }

  /** Under the HTML escape, strings without special characters are written
      as they are: the escaped join is the plain one. */
  lemma {:induction false} EachPlain(items: seq<Value>, pre: string, sep: string)
    requires forall i :: 0 <= i < |items| ==> items[i].Str? && forall k :: 0 <= k < |items[i].s| ==> !HtmlSpecial(items[i].s[k])
    ensures EachEscaped(items, pre, sep, Html) == JoinItems(items, pre, sep)
    decreases |items|
  {
    if items != [] {
      HtmlEscapePlain(items[0].s);
      assert forall i :: 0 <= i < |items[1..]| ==> items[1..][i] == items[i + 1];
      EachPlain(items[1..], pre, sep);
    }
  }

  /** A lambda as a section is called with the section's raw text; text
      it returns without open markers is written as it is, unescaped. */
  lemma PlainLambdaSection(fuel: nat, name: string, e: LambdaExpr, children: seq<Node>, body: string, delims: Delims,
                           pos: nat, closed: bool, ctx: Context, esc: Escaper, calls: nat)
    requires fuel > 0 && Lookup(ctx, name) == Some(Lambda(e)) && MarkerFree(EvalLambda(e, body, calls).0, delims.open)
    ensures var x := EvalLambda(e, body, calls);
      RenderNode(fuel, Section(name, false, children, body, delims, pos, closed), ctx, esc, calls) == Ok(x.0, x.1)
  {
    var x := EvalLambda(e, body, calls);
    RenderPlainSource(fuel, x.0, delims, ctx, esc, x.1);
    assert Rerender(fuel, x.0, delims, false, ctx, esc, x.1) == Ok(x.0, x.1);
    assert RenderTruthy(fuel, Lambda(e), children, body, delims, ctx, esc, calls) == Ok(x.0, x.1);
  }

  /** A lambda as a section whose text does not compile, with the delimiters
      in force at the section, stops the render with that error. */
  lemma InvalidLambdaSection(fuel: nat, name: string, e: LambdaExpr, children: seq<Node>, body: string, delims: Delims,
                             pos: nat, closed: bool, ctx: Context, esc: Escaper, calls: nat, err: ParseError)
    requires Lookup(ctx, name) == Some(Lambda(e)) && Parse(EvalLambda(e, body, calls).0, delims) == Failed(err)
    ensures RenderNode(fuel, Section(name, false, children, body, delims, pos, closed), ctx, esc, calls)
         == Outcome([], Some(Invalid(Message(err))), EvalLambda(e, body, calls).1)
  {
    var x := EvalLambda(e, body, calls);
    assert Rerender(fuel, x.0, delims, false, ctx, esc, x.1) == Outcome([], Some(Invalid(Message(err))), x.1);
    assert RenderTruthy(fuel, Lambda(e), children, body, delims, ctx, esc, calls) == Rerender(fuel, x.0, delims, false, ctx, esc, x.1);
  }

  /** A lambda with a render callback that returns text directly: the text is
      written verbatim, tags and all, and nothing is compiled. */
  lemma VerbatimLambda2(fuel: nat, name: string, e: LambdaExpr, children: seq<Node>, body: string, delims: Delims,
                        pos: nat, closed: bool, ctx: Context, esc: Escaper, calls: nat)
    requires Lookup(ctx, name) == Some(Lambda2(Out(e)))
    ensures var x := EvalLambda(e, body, calls);
      RenderNode(fuel, Section(name, false, children, body, delims, pos, closed), ctx, esc, calls) == Ok(x.0, x.1)
  {
    assert RenderTruthy(fuel, Lambda2(Out(e)), children, body, delims, ctx, esc, calls)
        == EvalLambda2(fuel, Out(e), body, delims, ctx, esc, calls);
  }

  /** A callback whose text did not compile leaves its message behind: a
      later part of the lambda that succeeds does not clear it, and the text
      of both parts is kept. */
  lemma StickyCallbackFault(fuel: nat, a: Lambda2Expr, b: Lambda2Expr, arg: string, delims: Delims, ctx: Context,
                            esc: Escaper, calls: nat, m: string)
    requires EvalLambda2(fuel, a, arg, delims, ctx, esc, calls).fault == Some(Invalid(m))
    requires EvalLambda2(fuel, b, arg, delims, ctx, esc, EvalLambda2(fuel, a, arg, delims, ctx, esc, calls).calls).fault.None?
    ensures var x := EvalLambda2(fuel, a, arg, delims, ctx, esc, calls);
      var y := EvalLambda2(fuel, b, arg, delims, ctx, esc, x.calls);
      EvalLambda2(fuel, Cat(a, b), arg, delims, ctx, esc, calls) == Outcome(x.out + y.out, Some(Invalid(m)), y.calls)
  {
  }

  /** A throw after a callback whose text did not compile keeps the
      message that callback recorded: the render aborts, and the template
      still ends up invalid with that message. */
  lemma ThrowKeepsCallbackError(fuel: nat, a: Lambda2Expr, b: Lambda2Expr, arg: string, delims: Delims, ctx: Context,
                                esc: Escaper, calls: nat, m: string)
    requires EvalLambda2(fuel, a, arg, delims, ctx, esc, calls).fault == Some(Invalid(m))
    requires EvalLambda2(fuel, b, arg, delims, ctx, esc, EvalLambda2(fuel, a, arg, delims, ctx, esc, calls).calls).fault
             == Some(NoEscapeHandler([]))
    ensures var x := EvalLambda2(fuel, a, arg, delims, ctx, esc, calls);
      var y := EvalLambda2(fuel, b, arg, delims, ctx, esc, x.calls);
      EvalLambda2(fuel, Cat(a, b), arg, delims, ctx, esc, calls) == Outcome(x.out + y.out, Some(NoEscapeHandler(m)), y.calls)
  {
  }

  /** A callback that renders text without tags gives that text back,
      escaped when asked. */
  lemma PlainCallback(fuel: nat, x: LambdaExpr, escaped: bool, arg: string, delims: Delims, ctx: Context,
                      esc: Escaper, calls: nat)
    requires fuel > 0 && MarkerFree(EvalLambda(x, arg, calls).0, delims.open)
    ensures var t := EvalLambda(x, arg, calls);
      EvalLambda2(fuel, Rendered(x, escaped), arg, delims, ctx, esc, calls) == Emit(esc, t.0, escaped, t.1)
  {
    var t := EvalLambda(x, arg, calls);
    RenderPlainSource(fuel, t.0, delims, ctx, esc, t.1);
  }

  /** A callback whose text does not compile returns nothing and records the
      error's message. */
  lemma InvalidCallback(fuel: nat, x: LambdaExpr, escaped: bool, arg: string, delims: Delims, ctx: Context,
                        esc: Escaper, calls: nat, err: ParseError)
    requires Parse(EvalLambda(x, arg, calls).0, delims) == Failed(err)
    ensures EvalLambda2(fuel, Rendered(x, escaped), arg, delims, ctx, esc, calls)
         == Outcome([], Some(Invalid(Message(err))), EvalLambda(x, arg, calls).1)
  {
    var t := EvalLambda(x, arg, calls);
    assert Rerender(fuel, t.0, delims, escaped, ctx, esc, t.1) == Outcome([], Some(Invalid(Message(err))), t.1);
  }

  // ---------------------------------------------------------------------
  // Partials

  /** A partial that is not there writes nothing. */
  lemma MissingPartial(fuel: nat, name: string, ctx: Context, esc: Escaper, calls: nat)
    requires LookupPartial(ctx, name).None?
    ensures RenderNode(fuel, PartialRef(name), ctx, esc, calls) == Ok([], calls)
  {
  }

  /** A partial value that holds no text writes nothing. */
  lemma TextlessPartial(fuel: nat, name: string, p: Value, ctx: Context, esc: Escaper, calls: nat)
    requires LookupPartial(ctx, name) == Some(p) && PartialText(p).None?
    ensures RenderNode(fuel, PartialRef(name), ctx, esc, calls) == Ok([], calls)
  {
  }

  /** A partial is compiled with the default delimiters and rendered in the
      context of its tag; text without tags is written as it is. */
  lemma PlainPartial(fuel: nat, name: string, p: Value, src: string, ctx: Context, esc: Escaper, calls: nat)
    requires fuel > 0 && LookupPartial(ctx, name) == Some(p) && PartialText(p) == Some(src) && MarkerFree(src, Braces.open)
    ensures RenderNode(fuel, PartialRef(name), ctx, esc, calls) == Ok(src, calls)
  {
    PartialSource(fuel, name, p, src, ctx, esc, calls);
    RenderPlainSource(fuel, src, Braces, ctx, esc, calls);
  }

  /** A partial that does not compile stops the render with its error. */
  lemma InvalidPartial(fuel: nat, name: string, p: Value, src: string, ctx: Context, esc: Escaper, calls: nat,
                       err: ParseError)
    requires LookupPartial(ctx, name) == Some(p) && PartialText(p) == Some(src) && Parse(src, Braces) == Failed(err)
    ensures RenderNode(fuel, PartialRef(name), ctx, esc, calls) == Outcome([], Some(Invalid(Message(err))), calls)
  {
    PartialSource(fuel, name, p, src, ctx, esc, calls);
    RenderInvalidSource(fuel, src, Braces, ctx, esc, calls, err);
  }

  /** A partial with text renders as that text compiled with the default
      delimiters, in the context of the tag. */
  lemma PartialSource(fuel: nat, name: string, p: Value, src: string, ctx: Context, esc: Escaper, calls: nat)
    requires LookupPartial(ctx, name) == Some(p) && PartialText(p) == Some(src)
    ensures RenderNode(fuel, PartialRef(name), ctx, esc, calls) == RenderSource(fuel, src, Braces, ctx, esc, calls)
  {
    var n := PartialRef(name);
    assert n.PartialRef? && n.name == name;
  }
}
