/** The data a template is rendered against: strings, booleans, lists,
    objects, partials and the two kinds of lambda. A host callable is modelled
    by a small expression language, so that its result is a function of its
    argument and, for the counting lambda, of an explicit call counter. */
module Data {
  import opened Text

  /** The body of a lambda that receives the section text (or "" as a variable). */
  datatype LambdaExpr =
    | Lit(text: string)                                   // a fixed string
    | Arg                                                 // the text it was given
    | Join(left: LambdaExpr, right: LambdaExpr)           // concatenation
    | IfArgIs(test: string, yes: LambdaExpr, no: LambdaExpr)  // a comparison of the text
    | Tally                                               // `++calls`, returned in decimal

  /** The body of a lambda that also receives a render callback. */
  datatype Lambda2Expr =
    | Out(e: LambdaExpr)                                  // returns text as it is
    | Rendered(e: LambdaExpr, escaped: bool)              // returns `render(text, escaped)`
    | Cat(first: Lambda2Expr, second: Lambda2Expr)        // concatenation, left first
    | Discard(body: Lambda2Expr)                          // evaluates, returns ""

  /** A data value. `Object` is the default (empty) value. */
  datatype Value =
    | Str(s: string)
    | Bool(b: bool)
    | List(items: seq<Value>)
    | Object(fields: map<string, Value>)
    | Partial(source: string)
    | Lambda(body: LambdaExpr)
    | Lambda2(body2: Lambda2Expr)

  /** The values for which a section is skipped and an inverted section shown
      (a missing name counts too; see `Skips`). */
  predicate IsFalsy(v: Value) {
    v == Bool(false) || v == List([])
  }

  predicate Skips(v: Option<Value>) {
    v.None? || IsFalsy(v.value)
  }

  /** A member of an object; every other kind of value has none. */
  function Member(v: Value, key: string): (r: Option<Value>)
    ensures r.Some? <==> v.Object? && key in v.fields
    ensures r.Some? ==> r.value == v.fields[key]
  {
    if v.Object? && key in v.fields then Some(v.fields[key]) else None
  }

  /** A lambda's result for `arg`, with the counter before and after the call. */
  function EvalLambda(e: LambdaExpr, arg: string, calls: nat): (r: (string, nat))
    ensures r.1 >= calls
    ensures !Counts(e) ==> r.1 == calls
  {
    match e
    case Lit(t) => (t, calls)
    case Arg => (arg, calls)
    case Join(a, b) =>
      var x := EvalLambda(a, arg, calls);
      var y := EvalLambda(b, arg, x.1);
      (x.0 + y.0, y.1)
    case IfArgIs(t, yes, no) => if arg == t then EvalLambda(yes, arg, calls) else EvalLambda(no, arg, calls)
    case Tally => (NatToString(calls + 1), calls + 1)
  }

  /** Whether a lambda body touches the counter at all. */
  predicate Counts(e: LambdaExpr) {
    match e
    case Lit(_) => false
    case Arg => false
    case Join(a, b) => Counts(a) || Counts(b)
    case IfArgIs(_, yes, no) => Counts(yes) || Counts(no)
    case Tally => true
  }

  /** A lambda that does not count gives the same text whatever the counter
      says: only an explicit counter makes repeated calls differ. */
  lemma {:induction false} PureLambda(e: LambdaExpr, arg: string, c1: nat, c2: nat)
    requires !Counts(e)
    ensures EvalLambda(e, arg, c1).0 == EvalLambda(e, arg, c2).0
  {
    match e
    case Join(a, b) =>
      PureLambda(a, arg, c1, c2);
      PureLambda(b, arg, EvalLambda(a, arg, c1).1, EvalLambda(a, arg, c2).1);
    case IfArgIs(_, yes, no) =>
      PureLambda(yes, arg, c1, c2);
      PureLambda(no, arg, c1, c2);
    case _ =>
  }

  /** The counting lambda: each call returns one more than the last. */
  lemma TallyCounts(calls: nat)
    ensures EvalLambda(Tally, [], calls) == (NatToString(calls + 1), calls + 1)
    ensures DecimalValue(EvalLambda(Tally, [], calls).0) == calls + 1
  {
    DecimalRoundTrip(calls + 1);
  }
}
