/** Rendering a compiled template against a context. Text that a lambda or a
    partial produces is compiled and rendered in turn; `fuel` bounds how deep
    that re-compilation may go. The first fault stops the whole render; the text
    written before it is kept. */
module Render {
  import opened Text
  import opened Syntax
  import opened Parser
  import opened Escape
  import opened Data
  import opened Scope

  /** Why a render stopped: a message that makes the template invalid, or an
      escape through an empty handler. The latter carries the message of a
      callback compile error recorded before it in the same lambda, or `[]`
      when there was none: the throw does not undo that record. */
  datatype Fault = Invalid(message: string) | NoEscapeHandler(recorded: string)

  /** The text written, the fault that stopped the render if any, and the
      lambda call counter after it. */
  datatype Outcome = Outcome(out: string, fault: Option<Fault>, calls: nat)

  /** A fault that invalidates the template always says why. */
  predicate Explained(o: Outcome) {
    o.fault.Some? && o.fault.value.Invalid? ==> o.fault.value.message != []
  }

  function Ok(out: string, calls: nat): Outcome {
    Outcome(out, None, calls)
  }

  /** Sequencing: the second part runs only if the first did not fault. */
  function Then(first: Outcome, rest: Outcome): Outcome {
    Outcome(first.out + rest.out, rest.fault, rest.calls)
  }

  /** A size for nodes that a section's children are below. */
  function Weight(n: Node): (w: nat)
    ensures w >= 1
  {
    match n
    case Section(_, _, children, _, _, _, _) => 1 + WeightSeq(children)
    case _ => 1
  }

  function WeightSeq(ns: seq<Node>): nat {
    if ns == [] then 0 else Weight(ns[0]) + WeightSeq(ns[1..])
  }

  function Lambda2Size(e: Lambda2Expr): nat {
    match e
    case Out(_) => 1
    case Rendered(_, _) => 1
    case Cat(a, b) => 1 + Lambda2Size(a) + Lambda2Size(b)
    case Discard(b) => 1 + Lambda2Size(b)
  }

  /** Writes `s`, through the escaper when `escaped`. */
  function Emit(esc: Escaper, s: string, escaped: bool, calls: nat): (r: Outcome)
    ensures Explained(r)
    ensures r.calls == calls
    ensures !escaped ==> r == Ok(s, calls)
    ensures escaped && esc.EmptyHandler? ==> r.fault == Some(NoEscapeHandler([]))
  {
    if !escaped then Ok(s, calls)
    else match Apply(esc, s)
      case None => Outcome([], Some(NoEscapeHandler([])), calls)
      case Some(t) => Ok(t, calls)
  }

  /** Compiles `text` with `delims` and renders it in `ctx`. A compile error
      becomes a fault carrying its message; no fuel left writes nothing. */
  function RenderSource(fuel: nat, text: string, delims: Delims, ctx: Context, esc: Escaper, calls: nat): (r: Outcome)
    ensures Explained(r)
    decreases fuel, 0, 0, 0
  {
    match Parse(text, delims)
    case Failed(e) => Outcome([], Some(Invalid(Message(e))), calls)
    case Parsed(nodes) => if fuel == 0 then Ok([], calls) else RenderNodes(fuel - 1, nodes, ctx, esc, calls)
  }

  /** A lambda result handed back through the render callback: its text is lost
      on a fault. */
  function Rerender(fuel: nat, text: string, delims: Delims, escaped: bool, ctx: Context, esc: Escaper, calls: nat): (r: Outcome)
    ensures Explained(r)
    decreases fuel, 0, 1, 0
  {
    var r := RenderSource(fuel, text, delims, ctx, esc, calls);
    if r.fault.Some? then Outcome([], r.fault, r.calls) else Emit(esc, r.out, escaped, r.calls)
  }

  /** A sequence of nodes, left to right. */
  function RenderNodes(fuel: nat, nodes: seq<Node>, ctx: Context, esc: Escaper, calls: nat): (r: Outcome)
    ensures Explained(r)
    decreases fuel, WeightSeq(nodes), 4, 0
  {
    if nodes == [] then Ok([], calls)
    else
      var first := RenderNode(fuel, nodes[0], ctx, esc, calls);
      if first.fault.Some? then first
      else Then(first, RenderNodes(fuel, nodes[1..], ctx, esc, first.calls))
  }

  /** A section's children once per list item, each item pushed in turn. */
  function RenderEach(fuel: nat, children: seq<Node>, items: seq<Value>, ctx: Context, esc: Escaper, calls: nat): (r: Outcome)
    ensures Explained(r)
    decreases fuel, WeightSeq(children), 5, |items|
  {
    if items == [] then Ok([], calls)
    else
      var first := RenderNodes(fuel, children, Push(ctx, items[0]), esc, calls);
      if first.fault.Some? then first
      else Then(first, RenderEach(fuel, children, items[1..], ctx, esc, first.calls))
  }

  /** One node. */
  function RenderNode(fuel: nat, n: Node, ctx: Context, esc: Escaper, calls: nat): (r: Outcome)
    ensures Explained(r)
    decreases fuel, Weight(n), 3, 0
  {
    match n
    case Text(t) => Ok(t, calls)
    case Variable(name, escaped) => RenderVariable(fuel, name, escaped, ctx, esc, calls)
    case Section(name, inverted, children, body, delims, _, _) =>
      var v := Lookup(ctx, name);
      if inverted then
        if Skips(v) then RenderNodes(fuel, children, ctx, esc, calls) else Ok([], calls)
      else if Skips(v) then Ok([], calls)
      else RenderTruthy(fuel, v.value, children, body, delims, ctx, esc, calls)
    case PartialRef(name) =>
      (match LookupPartial(ctx, name)
       case None => Ok([], calls)
       case Some(p) =>
         match PartialText(p)
         case None => Ok([], calls)
         case Some(src) => RenderSource(fuel, src, Braces, ctx, esc, calls))
    case Comment => Ok([], calls)
    case SetDelimiter(_) => Ok([], calls)
  }

  /** A section whose value is neither missing nor false nor an empty list. */
  function RenderTruthy(fuel: nat, v: Value, children: seq<Node>, body: string, delims: Delims,
                        ctx: Context, esc: Escaper, calls: nat): (r: Outcome)
    ensures Explained(r)
    decreases fuel, WeightSeq(children), 6, 0
  {
    match v
    case Lambda(e) =>
      var x := EvalLambda(e, body, calls);
      Rerender(fuel, x.0, delims, false, ctx, esc, x.1)
    case Lambda2(e) => EvalLambda2(fuel, e, body, delims, ctx, esc, calls)
    case List(items) => RenderEach(fuel, children, items, ctx, esc, calls)
    case other => RenderNodes(fuel, children, Push(ctx, other), esc, calls)
  }

  /** `{{name}}`, `{{&name}}`, `{{{name}}}`. */
  function RenderVariable(fuel: nat, name: string, escaped: bool, ctx: Context, esc: Escaper, calls: nat): (r: Outcome)
    ensures Explained(r)
    decreases fuel, 0, 2, 0
  {
    match Lookup(ctx, name)
    case None => Ok([], calls)
    case Some(v) =>
      match v
      case Str(s) => Emit(esc, s, escaped, calls)
      case Lambda(e) =>
        var x := EvalLambda(e, [], calls);
        Rerender(fuel, x.0, Braces, escaped, ctx, esc, x.1)
      case Lambda2(_) => Outcome([], Some(Invalid(Lambda2VariableMessage)), calls)
      case _ => Ok([], calls)
  }

  /** The fault that stands after two parts of a lambda: the later part's,
      if it has one, else the earlier part's. A throw in the later part keeps
      the message an earlier callback recorded, unless it already carries
      one of its own. */
  function Later(earlier: Option<Fault>, later: Option<Fault>): (f: Option<Fault>)
    ensures later.None? ==> f == earlier
    ensures later.Some? ==> f.Some? && (f.value.Invalid? <==> later.value.Invalid?)
    ensures later.Some? && later.value.Invalid? ==> f == later
    ensures later.Some? && later.value.NoEscapeHandler? && later.value.recorded != [] ==> f == later
    ensures later == Some(NoEscapeHandler([])) && earlier.Some? && earlier.value.Invalid?
            ==> f == Some(NoEscapeHandler(earlier.value.message))
  {
    match later
    case None => earlier
    case Some(Invalid(_)) => later
    case Some(NoEscapeHandler(rec)) =>
      if rec == [] && earlier.Some? && earlier.value.Invalid? then Some(NoEscapeHandler(earlier.value.message))
      else later
  }

  /** A lambda with a render callback: the text it returns, and the fault its
      callbacks left behind. A failing callback records its message and
      returns ""; the lambda goes on and the last message stands. An empty
      escape handler aborts it. */
  function EvalLambda2(fuel: nat, e: Lambda2Expr, arg: string, delims: Delims, ctx: Context, esc: Escaper, calls: nat): (r: Outcome)
    ensures Explained(r)
    decreases fuel, 0, 1, Lambda2Size(e)
  {
    match e
    case Out(x) =>
      var t := EvalLambda(x, arg, calls);
      Ok(t.0, t.1)
    case Rendered(x, escaped) =>
      var t := EvalLambda(x, arg, calls);
      Rerender(fuel, t.0, delims, escaped, ctx, esc, t.1)
    case Cat(a, b) =>
      var x := EvalLambda2(fuel, a, arg, delims, ctx, esc, calls);
      if x.fault.Some? && x.fault.value.NoEscapeHandler? then x
      else
        var y := EvalLambda2(fuel, b, arg, delims, ctx, esc, x.calls);
        Outcome(x.out + y.out, Later(x.fault, y.fault), y.calls)
    case Discard(b) =>
      var x := EvalLambda2(fuel, b, arg, delims, ctx, esc, calls);
      Outcome([], x.fault, x.calls)
  }
}
