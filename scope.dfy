/** Name resolution against the render context: a stack of data frames, the
    fixed one-name context a caller can supply instead, and the context that
    reads partials from files. */
module Scope {
  import opened Text
  import opened Data

  /** The context a render consults.
      `Frames`: the default context, innermost frame first; sections push onto it.
      `Fixed`: a context that knows one name, ignores pushes and has no partials.
      `Files`: the default context with partials read from a file store. */
  datatype Context =
    | Frames(frames: seq<Value>)
    | Fixed(key: string, value: Value)
    | Files(frames: seq<Value>, files: map<string, string>)

  /** The context of a plain render: the data is the only frame. */
  function Root(data: Value): Context {
    Frames([data])
  }

  /** A section entering a value. */
  function Push(ctx: Context, v: Value): (r: Context)
    ensures r.Fixed? ==> r == ctx
    ensures !ctx.Fixed? ==> r.frames == [v] + ctx.frames
  {
    match ctx
    case Frames(fs) => Frames([v] + fs)
    case Fixed(_, _) => ctx
    case Files(fs, d) => Files([v] + fs, d)
  }

  /** The value of a plain (undotted) name: the first frame, innermost first,
      that is an object holding it. */
  function FindInFrames(fs: seq<Value>, name: string): (r: Option<Value>)
    ensures r.Some? ==> exists i :: 0 <= i < |fs| && Member(fs[i], name) == r
                                    && forall j :: 0 <= j < i ==> Member(fs[j], name).None?
    ensures r.None? <==> forall i :: 0 <= i < |fs| ==> Member(fs[i], name).None?
  {
    if fs == [] then None
    else if Member(fs[0], name).Some? then Member(fs[0], name)
    else
      var r := FindInFrames(fs[1..], name);
      assert forall i :: 1 <= i < |fs| ==> fs[1..][i - 1] == fs[i];
      r
  }

  /** Follows the remaining segments of a dotted name, each strictly inside the
      value the previous one found. */
  function Walk(v: Option<Value>, names: seq<string>): (r: Option<Value>)
    ensures v.None? ==> r.None?
    decreases |names|
  {
    if v.None? || names == [] then v
    else Walk(Member(v.value, names[0]), names[1..])
  }

  /** A name containing `.` splits into at least one segment. */
  lemma {:induction false} SplitDotted(s: string, d: char)
    requires d in s
    ensures |Split(s, d)| >= 1
    ensures |SplitAll(s, d)| >= 2
  {
    if s[0] != d {
      SplitDotted(s[1..], d);
    }
  }

  /** Resolves a name in a frame stack: `.` is the innermost frame; a plain
      name is searched frame by frame; a dotted name has its first segment
      searched that way and the rest walked inside it. */
  function LookupFrames(fs: seq<Value>, name: string): (r: Option<Value>)
    ensures name == "." ==> r == (if fs == [] then None else Some(fs[0]))
    ensures name != "." && '.' !in name ==> r == FindInFrames(fs, name)
  {
    if name == "." then (if fs == [] then None else Some(fs[0]))
    else if '.' !in name then FindInFrames(fs, name)
    else
      SplitDotted(name, '.');
      var parts := Split(name, '.');
      Walk(FindInFrames(fs, parts[0]), parts[1..])
  }

  /** `get`: the value a variable or section tag names. */
  function Lookup(ctx: Context, name: string): Option<Value> {
    match ctx
    case Frames(fs) => LookupFrames(fs, name)
    case Fixed(k, v) => if name == k then Some(v) else None
    case Files(fs, _) => LookupFrames(fs, name)
  }

  /** `get_partial`: the value a partial tag names. The name is never split. */
  function LookupPartial(ctx: Context, name: string): Option<Value> {
    match ctx
    case Frames(fs) => FindInFrames(fs, name)
    case Fixed(_, _) => None
    case Files(_, d) => if name in d then Some(Str(d[name])) else None
  }

  /** The text a partial value produces: its source, or a string read from a file. */
  function PartialText(v: Value): Option<string> {
    match v
    case Partial(src) => Some(src)
    case Str(s) => Some(s)
    case _ => None
  }

  // ---------------------------------------------------------------------
  // Properties of resolution

  /** A pushed object's keys shadow every outer frame. */
  lemma PushShadows(ctx: Context, m: map<string, Value>, name: string)
    requires !ctx.Fixed? && name in m && name != "." && '.' !in name
    ensures Lookup(Push(ctx, Object(m)), name) == Some(m[name])
  {
  }

  /** A pushed value that lacks the name leaves its resolution to the outer frames. */
  lemma PushTransparent(ctx: Context, v: Value, name: string)
    requires !ctx.Fixed? && Member(v, name).None? && name != "." && '.' !in name
    ensures Lookup(Push(ctx, v), name) == Lookup(ctx, name)
  {
    var fs := [v] + ctx.frames;
    assert fs[1..] == ctx.frames;
  }

  /** `{{.}}` names the value most recently pushed. */
  lemma DotIsInnermost(ctx: Context, v: Value)
    requires !ctx.Fixed?
    ensures Lookup(Push(ctx, v), ".") == Some(v)
  {
  }

  /** A dotted name resolves its first segment through the frames and every
      later segment inside the previous result, and nowhere else. */
  lemma DottedLookup(fs: seq<Value>, parts: seq<string>)
    requires |parts| >= 2 && parts[|parts| - 1] != []
    requires forall i :: 0 <= i < |parts| ==> '.' !in parts[i]
    ensures LookupFrames(fs, JoinWith(parts, '.')) == Walk(FindInFrames(fs, parts[0]), parts[1..])
  {
    var name := JoinWith(parts, '.');
    var d0 := '.';
    SplitAllJoin(parts, '.');
    JoinHasSeparator(parts, '.');
    assert |name| >= 2 by {
      assert name == parts[0] + [d0] + JoinWith(parts[1..], '.');
      LastPieceInJoin(parts[1..], '.');
    }
    assert Split(name, '.') == parts;
  }

  /** A join is at least as long as its last piece. */
  lemma {:induction false} LastPieceInJoin(parts: seq<string>, d: char)
    requires |parts| >= 1
    ensures |JoinWith(parts, d)| >= |parts[|parts| - 1]|
  {
    if |parts| > 1 {
      LastPieceInJoin(parts[1..], d);
    }
  }

  lemma JoinHasSeparator(parts: seq<string>, d: char)
    requires |parts| >= 2
    ensures d in JoinWith(parts, d)
  {
    var j := JoinWith(parts, d);
    assert j == parts[0] + [d] + JoinWith(parts[1..], d);
    assert j[|parts[0]|] == d;
  }

  /** Nested single-key objects, outermost key first, around `leaf`. */
  function Nest(names: seq<string>, leaf: Value): Value
    decreases |names|
  {
    if names == [] then leaf else Object(map[names[0] := Nest(names[1..], leaf)])
  }

  /** Walking a chain of names through objects nested along it reaches the leaf. */
  lemma {:induction false} WalkNest(names: seq<string>, leaf: Value)
    ensures Walk(Some(Nest(names, leaf)), names) == Some(leaf)
    decreases |names|
  {
    if names != [] {
      WalkNest(names[1..], leaf);
    }
  }

  /** A chain that reaches a value without the next segment yields nothing,
      whatever segments follow. */
  lemma BrokenChain(v: Value, names: seq<string>)
    requires names != [] && Member(v, names[0]).None?
    ensures Walk(Some(v), names) == None
  {
  }

  /** The one-name context: only its key resolves, pushes change nothing,
      and it supplies no partials. */
  lemma FixedContext(key: string, v: Value, name: string, pushed: Value)
    ensures Lookup(Fixed(key, v), name) == (if name == key then Some(v) else None)
    ensures Push(Fixed(key, v), pushed) == Fixed(key, v)
    ensures LookupPartial(Fixed(key, v), name) == None
  {
  }

  /** A partial name is taken whole: `a.b` finds the partial stored under the
      key `a.b`, where the variable lookup of the same name splits it at the
      dot, looks for `a` and finds nothing. */
  lemma DottedPartialKey(n: string, ctx: Context, p: Value)
    requires n == "a.b" && ctx == Root(Object(map[n := p]))
    ensures LookupPartial(ctx, n) == Some(p)
    ensures Lookup(ctx, n) == None
  {
    SplitCases();
    assert Split(n, '.')[0] == "a";
    assert "a" != n;
  }
}
