/** The `mustache` object: a template compiled once, rendered many times.
    It owns the compiled nodes, the validity flag and error message, and the
    escape function; a render can invalidate it when text that a lambda or a
    partial produces does not compile. */
module Templates {
  import opened Text
  import opened Syntax
  import opened Parser
  import opened Scanner
  import opened Escape
  import opened Data
  import opened Scope
  import opened Render

  class Template {
    var nodes: seq<Node>
    var valid: bool
    var error: string
    var escaper: Escaper

    /** The error message is empty exactly while the template is valid. */
    ghost predicate Valid()
      reads this
    {
      valid <==> error == []
    }

    /** Compiles `input` with `{{ }}`; a compile error leaves the template
        invalid with that error's message and nothing to render. */
    constructor(input: string)
      ensures Valid()
      ensures Parse(input, Braces).Parsed? ==> valid && nodes == Parse(input, Braces).nodes
      ensures Parse(input, Braces).Failed? ==> !valid && nodes == [] && error == Message(Parse(input, Braces).error)
      ensures escaper == Html
    {
      escaper := Html;
      var r := Compile(input, Braces);
      match r
      case Parsed(ns) =>
        nodes, valid, error := ns, true, [];
      case Failed(e) =>
        nodes, valid, error := [], false, Message(e);
    }

    /** `is_valid()`. */
    method IsValid() returns (b: bool)
      requires Valid()
      ensures b <==> error == []
    {
      b := valid;
    }

    /** `error_message()`: empty while valid. */
    method ErrorMessage() returns (m: string)
      requires Valid()
      ensures m == [] <==> valid
      ensures m == error
    {
      m := error;
    }

    /** `set_custom_escape`: replaces the escape function, which may be the
        empty handler. */
    method SetCustomEscape(esc: Escaper)
      modifies this
      ensures escaper == esc
      ensures nodes == old(nodes) && valid == old(valid) && error == old(error)
    {
      escaper := esc;
    }

    /** `render(ctx)`, with the lambdas' call counter passed in and out and
        `fuel` bounding re-compilation. An invalid template writes nothing.
        Otherwise the text written up to the first fault is returned; a
        compile error met along the way invalidates the template with its
        message, and an empty escape handler throws instead of returning,
        leaving the template as it was except for a compile error that a
        callback recorded before the throw. */
    method Render(ctx: Context, fuel: nat, calls: nat) returns (out: string, threw: bool, callsAfter: nat)
      requires Valid()
      modifies this
      ensures Valid()
      ensures nodes == old(nodes) && escaper == old(escaper)
      ensures !old(valid) ==> out == [] && !threw && callsAfter == calls && !valid && error == old(error)
      ensures old(valid) ==>
        var o := RenderNodes(fuel, old(nodes), ctx, old(escaper), calls);
        && callsAfter == o.calls
        && threw == (o.fault.Some? && o.fault.value.NoEscapeHandler?)
        && out == (if threw then [] else o.out)
        && (o.fault.None? ==> valid && error == [])
        && (o.fault == Some(NoEscapeHandler([])) ==> valid && error == [])
        && (threw && o.fault.value.recorded != [] ==> !valid && error == o.fault.value.recorded)
        && (o.fault.Some? && o.fault.value.Invalid? ==> !valid && error == o.fault.value.message)
    {
      if !valid {
        return [], false, calls;
      }
      var o := RenderNodes(fuel, nodes, ctx, escaper, calls);
      callsAfter := o.calls;
      match o.fault
      case None =>
        out, threw := o.out, false;
      case Some(f) =>
        match f
        case NoEscapeHandler(recorded) =>
          out, threw := [], true;
          if recorded != [] {
            valid, error := false, recorded;
          }
        case Invalid(m) =>
          out, threw := o.out, false;
          valid, error := false, m;
    }
  }
}
