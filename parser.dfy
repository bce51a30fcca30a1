/** The template compiler as a specification: scanning and parsing are one
    pass over the input, a character at a time, that recognises tags with the
    delimiter pair currently in force, keeps a stack of open sections, and stops
    at the first structural error. */
module Parser {
  import opened Text
  import opened Syntax

  /** A section whose close tag has not been read yet. */
  datatype OpenSection = OpenSection(name: string, inverted: bool, pos: nat, bodyStart: nat,
                                     delims: Delims, children: seq<Node>)

  /** Where the pass stands: the next offset to read, the delimiters in force,
      the literal text not yet turned into a node, the finished top-level nodes
      and the open sections, innermost last. */
  datatype State = State(pos: nat, delims: Delims, pending: string, root: seq<Node>,
                         open: seq<OpenSection>)

  datatype ParseResult = Parsed(nodes: seq<Node>) | Failed(error: ParseError)

  datatype StepResult = Next(state: State) | Stop(error: ParseError)

  /** What every reachable state satisfies for `input`. */
  predicate Good(input: string, st: State) {
    && st.pos <= |input|
    && forall i :: 0 <= i < |st.open| ==> st.open[i].bodyStart <= st.pos
  }

  function Initial(delims: Delims): State {
    State(0, delims, [], [], [])
  }

  /** `r` holds the nodes of `st` with `n` added last to the children of the
      innermost open section, or to the top level when no section is open;
      every other part of the tree is as it was. */
  predicate Appended(st: State, n: Node, r: State) {
    if st.open == [] then r.root == st.root + [n] && r.open == []
    else
      var k := |st.open| - 1;
      && r.root == st.root && |r.open| == |st.open| && r.open[..k] == st.open[..k]
      && r.open[k] == st.open[k].(children := st.open[k].children + [n])
  }

  /** Adds a finished node to the innermost open section, or to the top level. */
  function Attach(st: State, n: Node): (r: State)
    ensures r.pos == st.pos && r.delims == st.delims && r.pending == st.pending
    ensures |r.open| == |st.open|
    ensures forall i :: 0 <= i < |r.open| ==> r.open[i].bodyStart == st.open[i].bodyStart
  {
    if st.open == [] then st.(root := st.root + [n])
    else
      var top := st.open[|st.open| - 1];
      st.(open := st.open[..|st.open| - 1] + [top.(children := top.children + [n])])
  }

  /** Turns the pending literal run into a text node. */
  function Flush(st: State): (r: State)
    ensures r.pos == st.pos && r.delims == st.delims && r.pending == []
    ensures |r.open| == |st.open|
    ensures forall i :: 0 <= i < |r.open| ==> r.open[i].bodyStart == st.open[i].bodyStart
  {
    if st.pending == [] then st else Attach(st.(pending := []), Text(st.pending))
  }

  /** A finished node goes last into the innermost open section, or to the
      top level when none is open. */
  lemma AttachPlaces(st: State, n: Node)
    ensures Appended(st, n, Attach(st, n))
  {
  }

  /** Flushing moves the pending literal run, if there is one, into a text
      node placed as `Attach` places it; an empty run leaves the tree alone. */
  lemma FlushPlaces(st: State)
    ensures st.pending == [] ==> Flush(st) == st
    ensures st.pending != [] ==> Appended(st, Text(st.pending), Flush(st))
  {
    if st.pending != [] {
      AttachPlaces(st.(pending := []), Text(st.pending));
    }
  }

  /** With the brace delimiters, `{{{` opens a triple mustache closed by `}}}`. */
  predicate IsTriple(input: string, st: State) {
    st.delims == Braces && st.pos + 2 < |input| && input[st.pos + 2] == '{'
  }

  /** Where the tag's contents begin. */
  function ContentsFrom(input: string, st: State): nat {
    st.pos + |st.delims.open| + (if IsTriple(input, st) then 1 else 0)
  }

  /** The marker that ends the tag opened at `st.pos`. */
  function Closer(input: string, st: State): (c: string)
    ensures |c| > 0
  {
    if IsTriple(input, st) then "}}}" else st.delims.close
  }

  /** Reads the tag that opens at `st.pos` and acts on it. */
  function TagStep(input: string, st: State): (r: StepResult)
    requires Good(input, st) && st.pos < |input| && OccursAt(st.delims.open, input, st.pos)
    ensures r.Next? ==> Good(input, r.state) && st.pos < r.state.pos
  {
    match FindFrom(input, Closer(input, st), ContentsFrom(input, st))
    case None => Stop(UnclosedTag(st.pos))
    case Some(end) => TagAt(input, st, end)
  }

  /** The tag at `st.pos` whose closer starts at `end`. */
  function TagAt(input: string, st: State, end: nat): (r: StepResult)
    requires Good(input, st) && ContentsFrom(input, st) <= end && end + |Closer(input, st)| <= |input|
    ensures r.Next? ==> Good(input, r.state) && st.pos < r.state.pos
  {
    TagAction(input, AfterTag(input, st, end), st.pos, IsTriple(input, st), TagContents(input, st, end))
  }

  /** The state after the tag: the literal run before it flushed, the position past its closer. */
  function AfterTag(input: string, st: State, end: nat): (base: State)
    requires Good(input, st) && ContentsFrom(input, st) <= end && end + |Closer(input, st)| <= |input|
    ensures base.pos <= |input| && st.pos < base.pos
    ensures forall i :: 0 <= i < |base.open| ==> base.open[i].bodyStart <= st.pos
  {
    Flush(st).(pos := end + |Closer(input, st)|)
  }

  /** What stands between the markers, trimmed. */
  function TagContents(input: string, st: State, end: nat): string
    requires ContentsFrom(input, st) <= end <= |input|
  {
    Trim(input[ContentsFrom(input, st)..end])
  }

  /** What a tag does, given its trimmed contents. `base` is the state after
      the tag, with the literal run before it already flushed. */
  function TagAction(input: string, base: State, start: nat, triple: bool, contents: string): (r: StepResult)
    requires base.pos <= |input| && start < base.pos
    requires forall i :: 0 <= i < |base.open| ==> base.open[i].bodyStart <= start
    ensures r.Next? ==> Good(input, r.state) && start < r.state.pos
  {
    if contents != [] && contents[0] == '=' then
      match ParseSetDelimiter(contents)
      case None => Stop(InvalidSetDelimiter(start))
      case Some(d) => Next(Attach(base, SetDelimiter(d)).(delims := d))
    else
      match Classify(triple, contents)
      case VariableTag(name, escaped) => Next(Attach(base, Variable(name, escaped)))
      case PartialTag(name) => Next(Attach(base, PartialRef(name)))
      case CommentTag => Next(Attach(base, Comment))
      case OpenTag(name, inverted) =>
        Next(base.(open := base.open + [OpenSection(name, inverted, start, base.pos, base.delims, [])]))
      case CloseTag(name) =>
        if base.open == [] then Stop(UnopenedSection(name, start))
        else Next(CloseSection(input, base, start, name))
  }

  /** A close tag at `start` ends the innermost open section, whatever its
      name; a mismatch is recorded and reported once the input is read. */
  function CloseSection(input: string, base: State, start: nat, name: string): (r: State)
    requires base.pos <= |input| && start < base.pos && base.open != []
    requires forall i :: 0 <= i < |base.open| ==> base.open[i].bodyStart <= start
    ensures Good(input, r) && r.pos == base.pos
  {
    var top := base.open[|base.open| - 1];
    var section := Section(top.name, top.inverted, top.children, input[top.bodyStart..start],
                           top.delims, top.pos, name == top.name);
    Attach(base.(open := base.open[..|base.open| - 1]), section)
  }

  /** The close tag pops the innermost open section and places it, with the
      raw text between its open and close tags as its body, where `Attach`
      places a node; it counts as closed exactly when the names agree. */
  lemma CloseSectionPlaces(input: string, base: State, start: nat, name: string)
    requires base.pos <= |input| && start < base.pos && base.open != []
    requires forall i :: 0 <= i < |base.open| ==> base.open[i].bodyStart <= start
    ensures var k := |base.open| - 1; var top := base.open[k];
      var section := Section(top.name, top.inverted, top.children, input[top.bodyStart..start],
                             top.delims, top.pos, name == top.name);
      Appended(base.(open := base.open[..k]), section, CloseSection(input, base, start, name))
  {
    var k := |base.open| - 1;
    var top := base.open[k];
    var section := Section(top.name, top.inverted, top.children, input[top.bodyStart..start],
                           top.delims, top.pos, name == top.name);
    AttachPlaces(base.(open := base.open[..k]), section);
  }

  /** One step: a tag if the open marker starts here, else one literal character. */
  function Step(input: string, st: State): (r: StepResult)
    requires Good(input, st) && st.pos < |input|
    ensures r.Next? ==> Good(input, r.state) && st.pos < r.state.pos
  {
    if OccursAt(st.delims.open, input, st.pos) then TagStep(input, st)
    else Next(st.(pos := st.pos + 1, pending := st.pending + [input[st.pos]]))
  }

  /** Closes every section still open at the end of the input, marking each as
      unclosed, and returns the finished top level. */
  function CloseAll(st: State): seq<Node>
    decreases |st.open|
  {
    if st.open == [] then st.root
    else
      var top := st.open[|st.open| - 1];
      var section := Section(top.name, top.inverted, top.children, [], top.delims, top.pos, false);
      CloseAll(Attach(st.(open := st.open[..|st.open| - 1]), section))
  }

  /** The first section, in document order of open tags, that was not closed by
      a close tag of the same name. */
  function FirstUnclosed(nodes: seq<Node>): (r: Option<ParseError>)
    ensures r.Some? ==> r.value.UnclosedSection?
  {
    if nodes == [] then None
    else match nodes[0]
      case Section(name, _, children, _, _, pos, closed) =>
        if !closed then Some(UnclosedSection(name, pos))
        else if FirstUnclosed(children).Some? then FirstUnclosed(children)
        else FirstUnclosed(nodes[1..])
      case _ => FirstUnclosed(nodes[1..])
  }

  /** A section as it appears in the outline of a compiled template. */
  datatype Mark = Mark(name: string, pos: nat, closed: bool)

  /** Every section of `nodes`, recursively, in the order of their open tags. */
  function Outline(nodes: seq<Node>): (ms: seq<Mark>)
    ensures nodes == [] ==> ms == []
  {
    if nodes == [] then []
    else match nodes[0]
      case Section(name, _, children, _, _, pos, closed) =>
        [Mark(name, pos, closed)] + Outline(children) + Outline(nodes[1..])
      case _ => Outline(nodes[1..])
  }

  /** The index of the first mark that is not closed, or `|ms|` when all are. */
  function FirstOpen(ms: seq<Mark>): (k: nat)
    ensures k <= |ms| && (k < |ms| ==> !ms[k].closed)
    ensures forall j :: 0 <= j < k ==> ms[j].closed
  {
    if ms == [] || !ms[0].closed then 0 else 1 + FirstOpen(ms[1..])
  }

  /** The properties of `FirstOpen` fix it. */
  lemma FirstOpenUnique(ms: seq<Mark>, k: nat)
    requires k <= |ms| && (k < |ms| ==> !ms[k].closed)
    requires forall j :: 0 <= j < k ==> ms[j].closed
    ensures FirstOpen(ms) == k
  {
  }

  lemma FirstOpenAppend(a: seq<Mark>, b: seq<Mark>)
    ensures FirstOpen(a + b) == if FirstOpen(a) < |a| then FirstOpen(a) else |a| + FirstOpen(b)
  {
    var fa, fb := FirstOpen(a), FirstOpen(b);
    var k := if fa < |a| then fa else |a| + fb;
    forall j | 0 <= j < k ensures (a + b)[j].closed {
      if j >= |a| {
        assert (a + b)[j] == b[j - |a|];
      }
    }
    if k < |a + b| {
      if fa == |a| {
        assert (a + b)[k] == b[fb];
      }
    }
    FirstOpenUnique(a + b, k);
  }

  /** The section reported at the end of input is the first one in the
      outline that was not closed by a close tag of its own name, and none is
      reported exactly when every section was. */
  lemma {:induction false} FirstUnclosedInOrder(nodes: seq<Node>)
    ensures OutlineFirst(nodes)
  {
    if nodes != [] {
      var rest := nodes[1..];
      FirstUnclosedInOrder(rest);
      if nodes[0].Section? {
        FirstUnclosedInOrder(nodes[0].children);
        SectionFirst(nodes);
      } else {
        assert Outline(nodes) == Outline(rest);
        assert FirstUnclosed(nodes) == FirstUnclosed(rest);
      }
    }
  }

  /** What `FirstUnclosedInOrder` states about `nodes`. */
  predicate OutlineFirst(nodes: seq<Node>) {
    var ms := Outline(nodes); var k := FirstOpen(ms);
    FirstUnclosed(nodes) == if k < |ms| then Some(UnclosedSection(ms[k].name, ms[k].pos)) else None
  }

  /** The inductive step for a section that comes first. */
  lemma SectionFirst(nodes: seq<Node>)
    requires nodes != [] && nodes[0].Section?
    requires OutlineFirst(nodes[0].children) && OutlineFirst(nodes[1..])
    ensures OutlineFirst(nodes)
  {
    var n := nodes[0];
    var m := Mark(n.name, n.pos, n.closed);
    var oc, orr := Outline(n.children), Outline(nodes[1..]);
    OutlineOfSection(nodes);
    FirstOpenMarks(m, oc, orr);
  }

  lemma OutlineOfSection(nodes: seq<Node>)
    requires nodes != [] && nodes[0].Section?
    ensures Outline(nodes) == [Mark(nodes[0].name, nodes[0].pos, nodes[0].closed)]
                              + (Outline(nodes[0].children) + Outline(nodes[1..]))
    ensures FirstUnclosed(nodes)
      == if !nodes[0].closed then Some(UnclosedSection(nodes[0].name, nodes[0].pos))
         else if FirstUnclosed(nodes[0].children).Some? then FirstUnclosed(nodes[0].children)
         else FirstUnclosed(nodes[1..])
  {
  }

  lemma FirstOpenMarks(m: Mark, oc: seq<Mark>, orr: seq<Mark>)
    ensures var ms := [m] + (oc + orr); var k := FirstOpen(ms);
      && (!m.closed ==> k == 0)
      && (m.closed && FirstOpen(oc) < |oc| ==> k == 1 + FirstOpen(oc) && ms[k] == oc[FirstOpen(oc)])
      && (m.closed && FirstOpen(oc) == |oc| ==>
            k == 1 + |oc| + FirstOpen(orr) && (k < |ms| ==> ms[k] == orr[FirstOpen(orr)]))
  {
    FirstOpenAppend(oc, orr);
    FirstOpenAppend([m], oc + orr);
  }

  /** Every section in the outline was closed by a close tag of its own name. */
  predicate AllClosed(ms: seq<Mark>) {
    forall j :: 0 <= j < |ms| ==> ms[j].closed
  }

  /** No section is reported exactly when every section in the outline is closed. */
  lemma NoneUnclosed(nodes: seq<Node>)
    ensures FirstUnclosed(nodes).None? <==> AllClosed(Outline(nodes))
  {
    FirstUnclosedInOrder(nodes);
    assert OutlineFirst(nodes);
    var ms := Outline(nodes);
    var k := FirstOpen(ms);
    if k < |ms| {
      assert !ms[k].closed;
    }
  }

  /** End of input: flush the last literal run, then check the sections. */
  function Finish(st: State): ParseResult {
    var nodes := CloseAll(Flush(st));
    match FirstUnclosed(nodes)
    case Some(e) => Failed(e)
    case None => Parsed(nodes)
  }

  /** The rest of the pass from `st`. */
  function Scan(input: string, st: State): ParseResult
    requires Good(input, st)
    decreases |input| - st.pos
  {
    if st.pos == |input| then Finish(st)
    else match Step(input, st)
      case Stop(e) => Failed(e)
      case Next(st') => Scan(input, st')
  }

  /** Compiles `input` starting with the delimiters `delims`. */
  function Parse(input: string, delims: Delims): ParseResult {
    Scan(input, Initial(delims))
  }

  /** A run of characters at which no open marker starts is copied into the
      pending literal text unchanged. */
  lemma {:induction false} LiteralRun(input: string, st: State, t: string)
    requires Good(input, st) && st.pos + |t| <= |input| && input[st.pos..st.pos + |t|] == t
    requires forall j :: st.pos <= j < st.pos + |t| ==> !OccursAt(st.delims.open, input, j)
    ensures Good(input, st.(pos := st.pos + |t|, pending := st.pending + t))
    ensures Scan(input, st) == Scan(input, st.(pos := st.pos + |t|, pending := st.pending + t))
    decreases |t|
  {
    if t != [] {
      var st1 := st.(pos := st.pos + 1, pending := st.pending + [t[0]]);
      LiteralHead(input, st, t, st1);
      LiteralRun(input, st1, t[1..]);
      assert st1.(pos := st1.pos + |t[1..]|, pending := st1.pending + t[1..])
          == st.(pos := st.pos + |t|, pending := st.pending + t);
    } else {
      assert st.pending + t == st.pending;
    }
  }

  /** The first character of such a run. */
  lemma LiteralHead(input: string, st: State, t: string, st1: State)
    requires Good(input, st) && st.pos + |t| <= |input| && input[st.pos..st.pos + |t|] == t && t != []
    requires forall j :: st.pos <= j < st.pos + |t| ==> !OccursAt(st.delims.open, input, j)
    requires st1 == st.(pos := st.pos + 1, pending := st.pending + [t[0]])
    ensures Good(input, st1) && st1.pos + |t[1..]| <= |input| && input[st1.pos..st1.pos + |t[1..]|] == t[1..]
    ensures forall j :: st1.pos <= j < st1.pos + |t[1..]| ==> !OccursAt(st1.delims.open, input, j)
    ensures Scan(input, st) == Scan(input, st1)
    ensures st1.pending + t[1..] == st.pending + t
  {
    SliceTail(input, st.pos, t);
    assert st1 == st.(pos := st.pos + 1, pending := st.pending + [input[st.pos]]);
    PlainStep(input, st);
    ConsTail(st.pending, t);
  }

  lemma ConsTail(p: string, t: string)
    requires t != []
    ensures p + [t[0]] + t[1..] == p + t
  {
    assert [t[0]] + t[1..] == t;
  }

  lemma SliceTail(s: string, p: nat, t: string)
    requires p + |t| <= |s| && s[p..p + |t|] == t && t != []
    ensures s[p] == t[0] && s[p + 1..p + 1 + |t[1..]|] == t[1..]
  {
    assert s[p] == s[p..p + |t|][0];
  }

  /** Where no open marker starts, the step copies one character. */
  lemma PlainStep(input: string, st: State)
    requires Good(input, st) && st.pos < |input| && !OccursAt(st.delims.open, input, st.pos)
    ensures Scan(input, st) == Scan(input, st.(pos := st.pos + 1, pending := st.pending + [input[st.pos]]))
  {
  }

  /** The pass takes one step at a time. */
  lemma ScanStep(input: string, st: State)
    requires Good(input, st) && st.pos < |input|
    ensures Step(input, st).Stop? ==> Scan(input, st) == Failed(Step(input, st).error)
    ensures Step(input, st).Next? ==> Scan(input, st) == Scan(input, Step(input, st).state)
  {
  }

  /** At an open marker with no closer after it, the step fails. */
  lemma UnclosedTagStep(input: string, st: State)
    requires Good(input, st) && st.pos < |input| && OccursAt(st.delims.open, input, st.pos)
    requires FindFrom(input, Closer(input, st), ContentsFrom(input, st)).None?
    ensures Step(input, st) == Stop(UnclosedTag(st.pos))
  {
  }

  /** At an open marker, the step finds the closer and acts on the trimmed contents. */
  lemma TagStepAt(input: string, st: State, end: nat, base: State, contents: string)
    requires Good(input, st) && st.pos < |input| && OccursAt(st.delims.open, input, st.pos)
    requires FindFrom(input, Closer(input, st), ContentsFrom(input, st)) == Some(end)
    requires ContentsFrom(input, st) <= end && end + |Closer(input, st)| <= |input|
    requires base == Flush(st).(pos := end + |Closer(input, st)|)
    requires contents == Trim(input[ContentsFrom(input, st)..end])
    ensures base == AfterTag(input, st, end)
    ensures base.pos <= |input| && st.pos < base.pos
    ensures forall i :: 0 <= i < |base.open| ==> base.open[i].bodyStart <= st.pos
    ensures Step(input, st) == TagAction(input, base, st.pos, IsTriple(input, st), contents)
  {
    assert AfterTag(input, st, end) == base;
    assert TagContents(input, st, end) == contents;
    assert TagStep(input, st) == TagAt(input, st, end);
  }
}
