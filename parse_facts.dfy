/** What the compiler makes of templates of a given shape: literal text, the
    error positions and messages, sections, variables and delimiter changes.
    Each statement is about every template of its shape; the step lemmas at
    the top let the pass be followed piece by piece. */
module ParseFacts {
  import opened Text
  import opened Syntax
  import opened Parser

  /** The text node a literal run becomes (none for an empty run). */
  function Texts(t: string): seq<Node> {
    if t == [] then [] else [Text(t)]
  }

  /** A tag name as written between the markers: non-empty, not blank at
      either end, and free of braces. */
  predicate TagName(n: string) {
    n != [] && !IsSpace(n[0]) && !IsSpace(n[|n| - 1]) && '{' !in n && '}' !in n
  }

  // ---------------------------------------------------------------------
  // Following the pass piece by piece

  /** A literal run with no character that could start the open marker is
      collected whole. */
  lemma LitStep(input: string, st: State, t: string)
    requires Good(input, st) && st.pos + |t| <= |input| && input[st.pos..st.pos + |t|] == t
    requires st.delims.open[0] !in t
    ensures Good(input, st.(pos := st.pos + |t|, pending := st.pending + t))
    ensures Scan(input, st) == Scan(input, st.(pos := st.pos + |t|, pending := st.pending + t))
  {
    NoMarkerIn(input, st.pos, t, st.delims.open);
    LiteralRun(input, st, t);
  }

  /** No marker starts inside a run that lacks the marker's first character. */
  lemma NoMarkerIn(input: string, from: nat, t: string, marker: string)
    requires from + |t| <= |input| && input[from..from + |t|] == t
    requires |marker| > 0 && marker[0] !in t
    ensures forall j :: from <= j < from + |t| ==> !OccursAt(marker, input, j)
  {
    forall j | from <= j < from + |t|
      ensures !OccursAt(marker, input, j)
    {
      assert input[j] == t[j - from];
      NoOccurrence(marker, input, j);
    }
  }

  /** `find` stops at the first position where the pattern occurs, given that
      no earlier position even holds its first character. */
  lemma {:induction false} FindAt(s: string, pat: string, from: nat, at: nat)
    requires |pat| > 0 && from <= at && OccursAt(pat, s, at)
    requires forall k :: from <= k < at ==> s[k] != pat[0]
    ensures FindFrom(s, pat, from) == Some(at)
    decreases at - from
  {
    if from < at {
      NoOccurrence(pat, s, from);
      FindAt(s, pat, from + 1, at);
    }
  }

  /** The input holds `open + body + close` at `st.pos`, with the current markers. */
  predicate TagHere(input: string, st: State, body: string) {
    var o := st.delims.open;
    var c := st.delims.close;
    var from := st.pos + |o|;
    && from + |body| + |c| <= |input|
    && input[st.pos..from] == o
    && input[from..from + |body|] == body
    && input[from + |body|..from + |body| + |c|] == c
    && c[0] !in body
  }

  /** A closer right after a piece that lacks its first character is the
      first one found. */
  lemma CloserAt(input: string, from: nat, piece: string, c: string)
    requires |c| > 0 && from + |piece| + |c| <= |input| && c[0] !in piece
    requires input[from..from + |piece|] == piece && input[from + |piece|..from + |piece| + |c|] == c
    ensures FindFrom(input, c, from) == Some(from + |piece|)
  {
    SliceAvoids(input, from, piece, c[0]);
    FindAt(input, c, from, from + |piece|);
  }

  /** A character missing from a piece of the input is at none of its positions. */
  lemma SliceAvoids(input: string, from: nat, piece: string, ch: char)
    requires from + |piece| <= |input| && input[from..from + |piece|] == piece && ch !in piece
    ensures forall k :: from <= k < from + |piece| ==> input[k] != ch
  {
    forall k | from <= k < from + |piece| ensures input[k] != ch {
      assert input[k] == piece[k - from];
    }
  }

  /** What a non-triple tag written out in full gives the step: where its
      closer is and what its contents are. */
  lemma PlainTagFacts(input: string, st: State, body: string)
    requires TagHere(input, st, body) && !IsTriple(input, st)
    ensures OccursAt(st.delims.open, input, st.pos)
    ensures FindFrom(input, Closer(input, st), ContentsFrom(input, st))
            == Some(st.pos + |st.delims.open| + |body|)
    ensures input[ContentsFrom(input, st)..st.pos + |st.delims.open| + |body|] == body
    ensures |Closer(input, st)| == |st.delims.close|
  {
    var from, c := st.pos + |st.delims.open|, st.delims.close;
    assert ContentsFrom(input, st) == from && Closer(input, st) == c;
    assert input[from..from + |body|] == body && input[from + |body|..from + |body| + |c|] == c;
    CloserAt(input, from, body, c);
  }

  /** A non-triple tag: the step acts on its trimmed body. */
  lemma TagStepPlain(input: string, st: State, body: string, base: State)
    requires Good(input, st) && st.pos < |input| && TagHere(input, st, body) && !IsTriple(input, st)
    requires base == Flush(st).(pos := st.pos + |st.delims.open| + |body| + |st.delims.close|)
    ensures Step(input, st) == TagAction(input, base, st.pos, false, Trim(body))
  {
    PlainTagFacts(input, st, body);
    TagStepAt(input, st, st.pos + |st.delims.open| + |body|, base, Trim(body));
  }

  /** A sigil followed by a name: the body of `{{#n}}`, `{{^n}}`, `{{/n}}`,
      `{{>n}}`, `{{&n}}`. It is already trimmed, and so is the name after it. */
  lemma SigilFacts(b: string, sigil: char, n: string)
    requires TagName(n) && !IsSpace(sigil) && b == [sigil] + n
    ensures b != [] && b[0] == sigil && Trim(b) == b && Trim(b[1..]) == n
  {
    assert b[|b| - 1] == n[|n| - 1];
    TrimNonBlank(b);
    assert b[1..] == n;
    TrimNonBlank(n);
  }

  lemma TrimmedSigil(b: string, sigil: char, n: string)
    requires TagName(n) && !IsSpace(sigil) && b == [sigil] + n
    ensures Trim(b) == b
  {
    SigilFacts(b, sigil, n);
  }

  /** What each sigil makes of the tag. */
  lemma ClassifySigil(b: string, sigil: char, n: string)
    requires TagName(n) && b == [sigil] + n
    ensures sigil == '#' ==> Classify(false, b) == OpenTag(n, false)
    ensures sigil == '^' ==> Classify(false, b) == OpenTag(n, true)
    ensures sigil == '/' ==> Classify(false, b) == CloseTag(n)
    ensures sigil == '>' ==> Classify(false, b) == PartialTag(n)
    ensures sigil == '&' ==> Classify(false, b) == VariableTag(n, false)
  {
    if !IsSpace(sigil) {
      SigilFacts(b, sigil, n);
    }
  }

  /** `find` fails when no position from `from` on holds the pattern's first character. */
  lemma {:induction false} FindNone(s: string, pat: string, from: nat)
    requires |pat| > 0 && forall k :: from <= k < |s| ==> s[k] != pat[0]
    ensures FindFrom(s, pat, from) == None
    decreases |s| - from
  {
    if from < |s| {
      NoOccurrence(pat, s, from);
      FindNone(s, pat, from + 1);
    } else {
      NoOccurrence(pat, s, from);
    }
  }

  /** What is left at the end of the input: flushed text, sections closed as unclosed, then checked. */
  lemma FinishFlat(st: State, root: seq<Node>)
    requires st.open == [] && forall i :: 0 <= i < |root| ==> !root[i].Section?
    requires root == st.root + Texts(st.pending)
    ensures Finish(st) == Parsed(root)
  {
    assert CloseAll(Flush(st)) == root;
    NoSectionsNoneUnclosed(root);
  }

  lemma {:induction false} NoSectionsNoneUnclosed(nodes: seq<Node>)
    requires forall i :: 0 <= i < |nodes| ==> !nodes[i].Section?
    ensures FirstUnclosed(nodes) == None
  {
    if nodes != [] {
      NoSectionsNoneUnclosed(nodes[1..]);
    }
  }

  // ---------------------------------------------------------------------
  // Literal text and the end of the input

  /** A template in which the open marker never occurs compiles to its own text. */
  lemma TagFree(t: string, d: Delims)
    requires MarkerFree(t, d.open)
    ensures Parse(t, d) == Parsed(Texts(t))
  {
    var st := Initial(d);
    assert t[0..|t|] == t;
    LiteralRun(t, st, t);
    assert st.pending + t == t && st.pos + |t| == |t|;
    var st1 := st.(pos := |t|, pending := t);
    assert st1.root + Texts(t) == Texts(t);
    FinishFlat(st1, Texts(t));
    assert Parse(t, d) == Scan(t, st) == Scan(t, st1) == Finish(st1);
  }

  /** Nodes without sections in front of others change nothing in the check. */
  lemma {:induction false} FlatPrefix(prefix: seq<Node>, rest: seq<Node>)
    requires forall i :: 0 <= i < |prefix| ==> !prefix[i].Section?
    ensures FirstUnclosed(prefix + rest) == FirstUnclosed(rest)
  {
    if prefix != [] {
      assert (prefix + rest)[1..] == prefix[1..] + rest;
      FlatPrefix(prefix[1..], rest);
    } else {
      assert prefix + rest == rest;
    }
  }

  /** A single section left open at the end is attached to the top level,
      marked unclosed. */
  lemma CloseLast(st: State)
    requires |st.open| == 1
    ensures CloseAll(st) == st.root + [Section(st.open[0].name, st.open[0].inverted, st.open[0].children,
                                               [], st.open[0].delims, st.open[0].pos, false)]
  {
    var top := st.open[0];
    var section := Section(top.name, top.inverted, top.children, [], top.delims, top.pos, false);
    var st' := Attach(st.(open := []), section);
    assert st.open[..|st.open| - 1] == [];
    assert CloseAll(st) == CloseAll(st');
  }

  /** Closing what is left at the end keeps the top level and adds the
      outermost open section after it, marked unclosed. */
  lemma {:induction false} CloseAllBottom(st: State)
    requires st.open != []
    ensures var nodes := CloseAll(st);
      && |nodes| == |st.root| + 1 && nodes[..|st.root|] == st.root
      && nodes[|st.root|].Section? && !nodes[|st.root|].closed
      && nodes[|st.root|].name == st.open[0].name && nodes[|st.root|].pos == st.open[0].pos
    decreases |st.open|
  {
    var top := st.open[|st.open| - 1];
    var section := Section(top.name, top.inverted, top.children, [], top.delims, top.pos, false);
    var st' := Attach(st.(open := st.open[..|st.open| - 1]), section);
    assert CloseAll(st) == CloseAll(st');
    if |st.open| == 1 {
      CloseLast(st);
    } else {
      assert st'.root == st.root && st'.open[0].name == st.open[0].name && st'.open[0].pos == st.open[0].pos;
      CloseAllBottom(st');
    }
  }

  /** End of input with sections still open and only text at the top level:
      the outermost open section is reported. */
  lemma BottomUnclosed(st: State)
    requires st.open != [] && forall i :: 0 <= i < |st.root| ==> !st.root[i].Section?
    ensures Finish(st) == Failed(UnclosedSection(st.open[0].name, st.open[0].pos))
  {
    var f := Flush(st);
    assert f.root == st.root && f.open[0].name == st.open[0].name && f.open[0].pos == st.open[0].pos;
    CloseAllBottom(f);
    var nodes := CloseAll(f);
    var k := |st.root|;
    assert nodes == st.root + nodes[k..];
    FlatPrefix(st.root, nodes[k..]);
    assert nodes[k..][0] == nodes[k];
  }

  // ---------------------------------------------------------------------
  // Single tags with the brace delimiters

  /** Reading the literal text in front of the first tag. */
  lemma LeadingText(input: string, t: string, d: Delims)
    requires |t| <= |input| && input[..|t|] == t && d.open[0] !in t
    ensures Parse(input, d) == Scan(input, State(|t|, d, t, [], []))
  {
    var st := Initial(d);
    assert input[0..|t|] == t;
    LitStep(input, st, t);
    assert st.pending + t == t;
  }

  /** `{{body}}` standing at offset `|pre|`, where the pass stands. */
  lemma BracesTagAt(input: string, st: State, pre: string, body: string, post: string)
    requires input == pre + "{{" + body + "}}" + post && st.pos == |pre| && st.delims == Braces
    requires '}' !in body && (body == [] || body[0] != '{')
    ensures TagHere(input, st, body) && !IsTriple(input, st) && st.pos < |input|
  {
    var k := |pre|;
    assert input[k..k + 2] == "{{";
    assert input[k + 2..k + 2 + |body|] == body;
    assert input[k + 2 + |body|..k + 4 + |body|] == "}}";
    assert body != [] ==> input[k + 2] == body[0];
    assert body == [] ==> input[k + 2] == '}';
  }

  /** The two sigils that open a section; `^` opens an inverted one. */
  predicate Opener(sigil: char) {
    sigil == '#' || sigil == '^'
  }

  /** An open tag's action: a section is pushed on top of the stack, with the
      delimiters in force and its body starting after the tag. */
  lemma OpenAction(input: string, base: State, start: nat, sigil: char, b: string, n: string)
    requires base.pos <= |input| && start < base.pos
    requires forall i :: 0 <= i < |base.open| ==> base.open[i].bodyStart <= start
    requires Opener(sigil) && TagName(n) && b == [sigil] + n
    ensures TagAction(input, base, start, false, b)
         == Next(base.(open := base.open + [OpenSection(n, sigil == '^', start, base.pos, base.delims, [])]))
  {
    OpenTagOf(sigil, b, n);
  }

  lemma OpenTagOf(sigil: char, b: string, n: string)
    requires Opener(sigil) && TagName(n) && b == [sigil] + n
    ensures b != [] && b[0] == sigil && Classify(false, b) == OpenTag(n, sigil == '^')
  {
    SigilFacts(b, sigil, n);
    ClassifySigil(b, sigil, n);
  }

  /** A close tag's action: an error with nothing open, else the innermost
      section is closed. */
  lemma CloseAction(input: string, base: State, start: nat, b: string, n: string)
    requires base.pos <= |input| && start < base.pos
    requires forall i :: 0 <= i < |base.open| ==> base.open[i].bodyStart <= start
    requires TagName(n) && b == ['/'] + n
    ensures base.open == [] ==> TagAction(input, base, start, false, b) == Stop(UnopenedSection(n, start))
    ensures base.open != [] ==> TagAction(input, base, start, false, b) == Next(CloseSection(input, base, start, n))
  {
    CloseTagOf(b, n);
  }

  lemma CloseTagOf(b: string, n: string)
    requires TagName(n) && b == ['/'] + n
    ensures b != [] && b[0] == '/' && Classify(false, b) == CloseTag(n)
  {
    SigilFacts(b, '/', n);
    ClassifySigil(b, '/', n);
  }

  /** A well-formed directive written as two tokens with spaces between
      them: a set-delimiter node, and the new pair in force from the end of
      the tag on. */
  lemma DirectiveAction(input: string, base: State, start: nat, triple: bool, b: string,
                        open: string, close: string, gap: nat, l: nat, r: nat)
    requires base.pos <= |input| && start < base.pos
    requires forall i :: 0 <= i < |base.open| ==> base.open[i].bodyStart <= start
    requires Edges(open, close) && DelimiterToken(open) && DelimiterToken(close)
    requires b == "=" + Spaces(l) + open + Spaces(gap + 1) + close + Spaces(r) + "="
    ensures var d := Delimiters(open, close);
      TagAction(input, base, start, triple, b) == Next(Attach(base, SetDelimiter(d)).(delims := d))
  {
    var d := Delimiters(open, close);
    assert ParseSetDelimiter(b) == Some(d) by {
      DirectiveOfTokens(open, close, gap, l, r);
    }
    assert b[0] == '=';
    DelimiterStep(input, base, start, triple, b, d);
  }

  /** What a directive the delimiter syntax accepts does. */
  lemma DelimiterStep(input: string, base: State, start: nat, triple: bool, b: string, d: Delims)
    requires base.pos <= |input| && start < base.pos
    requires forall i :: 0 <= i < |base.open| ==> base.open[i].bodyStart <= start
    requires b != [] && b[0] == '=' && ParseSetDelimiter(b) == Some(d)
    ensures TagAction(input, base, start, triple, b) == Next(Attach(base, SetDelimiter(d)).(delims := d))
  {
  }

  /** `{{=open close=}}` read by the pass: the node is attached and the new
      pair is the one the rest of the input is read with. */
  lemma DirectiveStep(input: string, st: State, b: string, open: string, close: string, gap: nat, l: nat, r: nat,
                      base: State)
    requires Good(input, st) && st.pos < |input| && TagHere(input, st, b) && !IsTriple(input, st)
    requires Edges(open, close) && DelimiterToken(open) && DelimiterToken(close)
    requires b == "=" + Spaces(l) + open + Spaces(gap + 1) + close + Spaces(r) + "="
    requires base == Flush(st).(pos := st.pos + |st.delims.open| + |b| + |st.delims.close|)
    ensures var d := Delimiters(open, close);
      Step(input, st) == Next(Attach(base, SetDelimiter(d)).(delims := d))
  {
    assert Trim(b) == b by {
      assert b[0] == '=' && b[|b| - 1] == '=';
      TrimNonBlank(b);
    }
    TagStepPlain(input, st, b, base);
    DirectiveAction(input, base, st.pos, false, b, open, close, gap, l, r);
  }

  /** A plain name's action: an escaped variable. */
  lemma VariableAction(input: string, base: State, start: nat, n: string)
    requires base.pos <= |input| && start < base.pos
    requires forall i :: 0 <= i < |base.open| ==> base.open[i].bodyStart <= start
    requires TagName(n) && n[0] !in "#^/>&!="
    ensures TagAction(input, base, start, false, n) == Next(Attach(base, Variable(n, true)))
  {
  }

  /** `{{#n}}` or `{{^n}}` read by the pass; `base` is the state after the tag. */
  lemma OpenStep(input: string, st: State, sigil: char, b: string, n: string, base: State)
    requires Good(input, st) && st.pos < |input| && Opener(sigil) && TagName(n) && b == [sigil] + n
    requires TagHere(input, st, b) && !IsTriple(input, st)
    requires base == Flush(st).(pos := st.pos + |st.delims.open| + |b| + |st.delims.close|)
    ensures Step(input, st)
         == Next(base.(open := base.open + [OpenSection(n, sigil == '^', st.pos, base.pos, base.delims, [])]))
  {
    assert !IsSpace(sigil);
    SigilStep(input, st, sigil, b, n, base);
    OpenAction(input, base, st.pos, sigil, b, n);
  }

  /** A tag made of a sigil and a name is acted on as it is written. */
  lemma SigilStep(input: string, st: State, sigil: char, b: string, n: string, base: State)
    requires Good(input, st) && st.pos < |input| && TagName(n) && !IsSpace(sigil) && b == [sigil] + n
    requires TagHere(input, st, b) && !IsTriple(input, st)
    requires base == Flush(st).(pos := st.pos + |st.delims.open| + |b| + |st.delims.close|)
    ensures Step(input, st) == TagAction(input, base, st.pos, false, b)
  {
    TrimmedSigil(b, sigil, n);
    TagStepPlain(input, st, b, base);
  }

  /** `{{/n}}` read by the pass. */
  lemma CloseStep(input: string, st: State, b: string, n: string, end: nat)
    requires Good(input, st) && st.pos < |input| && TagName(n) && b == ['/'] + n
    requires TagHere(input, st, b) && !IsTriple(input, st)
    requires end == st.pos + |st.delims.open| + |b| + |st.delims.close|
    ensures st.open == [] ==> Step(input, st) == Stop(UnopenedSection(n, st.pos))
    ensures st.open != [] ==> Step(input, st) == Next(CloseSection(input, Flush(st).(pos := end), st.pos, n))
  {
    var base := Flush(st).(pos := end);
    SigilStep(input, st, '/', b, n, base);
    CloseAction(input, base, st.pos, b, n);
  }

  /** `{{n}}` read by the pass, for a name that starts with no sigil. */
  lemma VariableStep(input: string, st: State, n: string, end: nat)
    requires Good(input, st) && st.pos < |input| && TagName(n) && n[0] !in "#^/>&!="
    requires TagHere(input, st, n) && !IsTriple(input, st)
    requires end == st.pos + |st.delims.open| + |n| + |st.delims.close|
    ensures Step(input, st) == Next(Attach(Flush(st).(pos := end), Variable(n, true)))
  {
    var base := Flush(st).(pos := end);
    TagStepPlain(input, st, n, base);
    TrimNonBlank(n);
    VariableAction(input, base, st.pos, n);
  }

  /** `{{>n}}` read by the pass: a partial reference takes its place. */
  lemma PartialStep(input: string, st: State, b: string, n: string, end: nat)
    requires Good(input, st) && st.pos < |input| && TagName(n) && b == ['>'] + n
    requires TagHere(input, st, b) && !IsTriple(input, st)
    requires end == st.pos + |st.delims.open| + |b| + |st.delims.close|
    ensures Step(input, st) == Next(Attach(Flush(st).(pos := end), PartialRef(n)))
  {
    var base := Flush(st).(pos := end);
    SigilStep(input, st, '>', b, n, base);
    PartialAction(input, base, st.pos, b, n);
  }

  /** A `>` and a name: a partial reference. */
  lemma PartialAction(input: string, base: State, start: nat, b: string, n: string)
    requires base.pos <= |input| && start < base.pos
    requires forall i :: 0 <= i < |base.open| ==> base.open[i].bodyStart <= start
    requires TagName(n) && b == ['>'] + n
    ensures TagAction(input, base, start, false, b) == Next(Attach(base, PartialRef(n)))
  {
    ClassifySigil(b, '>', n);
  }

  // ---------------------------------------------------------------------
  // Whole templates

  /** An open tag that ends the input, with nothing open before it and only
      text finished, leaves its section unclosed. */
  lemma OpenAtEnd(input: string, st: State, b: string, n: string)
    requires Good(input, st) && st.pos < |input| && TagName(n) && b == ['#'] + n
    requires TagHere(input, st, b) && !IsTriple(input, st)
    requires st.pos + |st.delims.open| + |b| + |st.delims.close| == |input|
    requires st.open == [] && forall i :: 0 <= i < |Flush(st).root| ==> !Flush(st).root[i].Section?
    ensures Scan(input, st) == Failed(UnclosedSection(n, st.pos))
  {
    var base := Flush(st).(pos := |input|);
    OpenStep(input, st, '#', b, n, base);
    ScanStep(input, st);
    var st2 := base.(open := [OpenSection(n, false, st.pos, base.pos, base.delims, [])]);
    assert Step(input, st) == Next(st2);
    BottomUnclosed(st2);
  }

  /** The section opened by `t{{#n}}` at the end of the input is reported as
      unclosed. */
  lemma UnclosedSectionIn(input: string, t: string, b: string, n: string)
    requires '{' !in t && TagName(n) && b == ['#'] + n && input == t + "{{" + b + "}}" + []
    ensures Parse(input, Braces) == Failed(UnclosedSection(n, |t|))
  {
    assert input[..|t|] == t;
    LeadingText(input, t, Braces);
    var st1 := State(|t|, Braces, t, [], []);
    BracesTagAt(input, st1, t, b, []);
    OpenAtEnd(input, st1, b, n);
  }

  /** `t{{#n}}` at the end of the input: "Unclosed section" at the offset of
      the open tag, which is the length of the text before it. */
  lemma UnclosedSectionAt(t: string, n: string)
    requires '{' !in t && TagName(n)
    ensures Parse(t + "{{#" + n + "}}", Braces) == Failed(UnclosedSection(n, |t|))
  {
    var b := ['#'] + n;
    var input := t + "{{" + b + "}}" + [];
    assert input == t + "{{#" + n + "}}";
    UnclosedSectionIn(input, t, b, n);
  }

  lemma UnopenedSectionIn(input: string, t: string, b: string, n: string, post: string)
    requires '{' !in t && TagName(n) && b == ['/'] + n && input == t + "{{" + b + "}}" + post
    ensures Parse(input, Braces) == Failed(UnopenedSection(n, |t|))
  {
    assert input[..|t|] == t;
    LeadingText(input, t, Braces);
    var st1 := State(|t|, Braces, t, [], []);
    BracesTagAt(input, st1, t, b, post);
    CloseStep(input, st1, b, n, |t| + 4 + |b|);
    ScanStep(input, st1);
  }

  /** `t{{/n}}` with nothing open: "Unopened section" at the tag, whatever follows. */
  lemma UnopenedSectionAt(t: string, n: string, post: string)
    requires '{' !in t && TagName(n)
    ensures Parse(t + "{{/" + n + "}}" + post, Braces) == Failed(UnopenedSection(n, |t|))
  {
    var b := ['/'] + n;
    var input := t + "{{" + b + "}}" + post;
    assert input == t + "{{/" + n + "}}" + post;
    UnopenedSectionIn(input, t, b, n, post);
  }

  /** `t{{n}}u`, literal text around one plain name: the text, an escaped
      variable, the text. */
  lemma VariableIn(input: string, t: string, n: string, u: string)
    requires '{' !in t && '{' !in u && TagName(n) && n[0] !in "#^/>&!="
    requires input == t + "{{" + n + "}}" + u
    ensures Parse(input, Braces) == Parsed(Texts(t) + [Variable(n, true)] + Texts(u))
  {
    var st2 := State(|t| + 4 + |n|, Braces, [], Texts(t) + [Variable(n, true)], []);
    VariableHead(input, t, n, u, st2);
    assert input[st2.pos..] == u;
    TextToEnd(input, st2, u);
  }

  /** The state after `t{{n}}`. */
  lemma VariableHead(input: string, t: string, n: string, u: string, st2: State)
    requires '{' !in t && TagName(n) && n[0] !in "#^/>&!="
    requires input == t + "{{" + n + "}}" + u
    requires st2 == State(|t| + 4 + |n|, Braces, [], Texts(t) + [Variable(n, true)], [])
    ensures Good(input, st2) && Parse(input, Braces) == Scan(input, st2)
  {
    var st1 := State(|t|, Braces, t, [], []);
    assert Parse(input, Braces) == Scan(input, st1) by {
      assert input[..|t|] == t;
      LeadingText(input, t, Braces);
    }
    var base := State(st2.pos, Braces, [], Texts(t), []);
    assert Flush(st1).(pos := st2.pos) == base;
    assert Attach(base, Variable(n, true)) == st2;
    assert TagHere(input, st1, n) && !IsTriple(input, st1) && st1.pos < |input| by {
      BracesTagAt(input, st1, t, n, u);
    }
    assert Scan(input, st1) == Scan(input, st2) by {
      VariableStep(input, st1, n, st2.pos);
      ScanStep(input, st1);
    }
  }

  // ---------------------------------------------------------------------
  // Comments

  /** Contents that start with `!` make a comment, whatever follows. */
  lemma ClassifyComment(b: string)
    requires b != [] && b[0] == '!'
    ensures Classify(false, b) == CommentTag
  {
  }

  /** Trimming contents that start with `!` leaves the `!` first. */
  lemma TrimmedBang(c: string)
    requires c != [] && c[0] == '!'
    ensures Trim(c) != [] && Trim(c)[0] == '!'
  {
    assert TrimLeft(c) == c;
    var r := TrimRight(c);
    assert r != [];
    assert r == c[..|r|];
  }

  /** `{{!c}}` read by the pass: a comment node takes its place. */
  lemma CommentStep(input: string, st: State, c: string, base: State)
    requires Good(input, st) && st.pos < |input| && c != [] && c[0] == '!'
    requires TagHere(input, st, c) && !IsTriple(input, st)
    requires base == Flush(st).(pos := st.pos + |st.delims.open| + |c| + |st.delims.close|)
    ensures Step(input, st) == Next(Attach(base, Comment))
  {
    var k := Trim(c);
    assert k != [] && k[0] == '!' by { TrimmedBang(c); }
    assert Step(input, st) == TagAction(input, base, st.pos, false, k) by {
      TagStepPlain(input, st, c, base);
    }
    CommentAction(input, base, st.pos, k);
  }

  /** A comment's action: the node is attached and nothing else changes. */
  lemma CommentAction(input: string, base: State, start: nat, k: string)
    requires base.pos <= |input| && start < base.pos
    requires forall i :: 0 <= i < |base.open| ==> base.open[i].bodyStart <= start
    requires k != [] && k[0] == '!'
    ensures TagAction(input, base, start, false, k) == Next(Attach(base, Comment))
  {
    ClassifyComment(k);
  }

  /** `t{{!c}}u`: the text, one comment node, the text; what the comment
      says, spaces included, is dropped. */
  lemma CommentIn(input: string, t: string, c: string, u: string)
    requires '{' !in t && '{' !in u && c != [] && c[0] == '!' && '}' !in c
    requires input == t + "{{" + c + "}}" + u
    ensures Parse(input, Braces) == Parsed(Texts(t) + [Comment] + Texts(u))
  {
    var st2 := State(|t| + 4 + |c|, Braces, [], Texts(t) + [Comment], []);
    CommentHead(input, t, c, u, st2);
    assert input[st2.pos..] == u by { Suffix(input, t + "{{" + c + "}}", u); }
    TextToEnd(input, st2, u);
  }

  /** The state after `t{{!c}}`. */
  lemma CommentHead(input: string, t: string, c: string, u: string, st2: State)
    requires '{' !in t && c != [] && c[0] == '!' && '}' !in c
    requires input == t + "{{" + c + "}}" + u
    requires st2 == State(|t| + 4 + |c|, Braces, [], Texts(t) + [Comment], [])
    ensures Good(input, st2) && Parse(input, Braces) == Scan(input, st2)
  {
    var st1 := State(|t|, Braces, t, [], []);
    assert Parse(input, Braces) == Scan(input, st1) by {
      assert input[..|t|] == t;
      LeadingText(input, t, Braces);
    }
    var base := State(st2.pos, Braces, [], Texts(t), []);
    assert Flush(st1).(pos := st2.pos) == base;
    assert Attach(base, Comment) == st2;
    assert TagHere(input, st1, c) && !IsTriple(input, st1) && st1.pos < |input| by {
      BracesTagAt(input, st1, t, c, u);
    }
    assert Scan(input, st1) == Scan(input, st2) by {
      CommentStep(input, st1, c, base);
      ScanStep(input, st1);
    }
  }

  /** The pass stands at a triple mustache `{{{n}}}`: the closer `}}}` is
      found right after `n`. */
  predicate TripleHere(input: string, st: State, n: string) {
    && st.pos < |input| && OccursAt(st.delims.open, input, st.pos) && IsTriple(input, st)
    && ContentsFrom(input, st) == st.pos + 3 && Closer(input, st) == "}}}"
    && FindFrom(input, "}}}", st.pos + 3) == Some(st.pos + 3 + |n|)
    && st.pos + 6 + |n| <= |input| && input[st.pos + 3..st.pos + 3 + |n|] == n
  }


  /** Five pieces, regrouped the two ways the step lemmas take them apart.
      Since `+` groups to the left, the first piece may itself be a chain. */
  lemma Regroup(a: string, b: string, c: string, d: string, e: string)
    ensures a + b + c + d + e == a + b + (c + d + e)
    ensures a + b + c + d + e == (a + b) + c + (d + e)
  {
  }

  /** Five pieces joined from the right, as the render lemmas build an
      output piece by piece, are the same text joined from the left. */
  lemma Flatten(a: string, b: string, c: string, d: string, e: string)
    ensures a + (b + (c + (d + e))) == a + b + c + d + e
  {
  }

  /** `{{{n}}}` standing at offset `|pre|`: a triple mustache whose closer
      `}}}` comes right after the name. */
  lemma TripleTagAt(input: string, st: State, pre: string, n: string, post: string)
    requires input == pre + "{{{" + n + "}}}" + post && st.pos == |pre| && st.delims == Braces && '}' !in n
    ensures TripleHere(input, st, n)
  {
    var k := |pre|;
    Regroup(pre, "{{{", n, "}}}", post);
    Infix(input, pre, "{{{", n + "}}}" + post);
    Infix(input, pre + "{{{", n, "}}}" + post);
    Infix(input, pre + "{{{" + n, "}}}", post);
    assert input[k..k + 2] == "{{" && input[k + 2] == '{' by {
      assert input[k..k + 2] == input[k..k + 3][..2];
      assert input[k + 2] == input[k..k + 3][2];
    }
    CloserAt(input, k + 3, n, "}}}");
  }

  /** A triple mustache's contents name a variable that is not escaped,
      unless they start with `=`. */
  lemma TripleAction(input: string, base: State, start: nat, n: string)
    requires base.pos <= |input| && start < base.pos
    requires forall i :: 0 <= i < |base.open| ==> base.open[i].bodyStart <= start
    requires n != [] && n[0] != '='
    ensures TagAction(input, base, start, true, n) == Next(Attach(base, Variable(n, false)))
  {
  }

  /** `{{{n}}}` read by the pass. */
  lemma TripleStep(input: string, st: State, n: string)
    requires Good(input, st) && TripleHere(input, st, n) && TagName(n) && n[0] != '='
    ensures Step(input, st) == Next(Attach(Flush(st).(pos := st.pos + 6 + |n|), Variable(n, false)))
  {
    var base := Flush(st).(pos := st.pos + 6 + |n|);
    assert Trim(input[ContentsFrom(input, st)..st.pos + 3 + |n|]) == n by { TrimNonBlank(n); }
    TagStepAt(input, st, st.pos + 3 + |n|, base, n);
    TripleAction(input, base, st.pos, n);
  }

  /** `t{{{n}}}u`: one unescaped variable between the text around it. */
  lemma TripleIn(input: string, t: string, n: string, u: string)
    requires '{' !in t && '{' !in u && TagName(n) && n[0] != '='
    requires input == t + "{{{" + n + "}}}" + u
    ensures Parse(input, Braces) == Parsed(Texts(t) + [Variable(n, false)] + Texts(u))
  {
    var st1 := State(|t|, Braces, t, [], []);
    var st2 := State(|t| + 6 + |n|, Braces, [], Texts(t) + [Variable(n, false)], []);
    assert |t| <= |input| && input[..|t|] == t;
    TripleTagAt(input, st1, t, n, u);
    TripleHead(input, t, n, st2);
    assert input[st2.pos..] == u by { Suffix(input, t + "{{{" + n + "}}}", u); }
    TextToEnd(input, st2, u);
  }

  /** The state after `t{{{n}}}`. */
  lemma TripleHead(input: string, t: string, n: string, st2: State)
    requires '{' !in t && TagName(n) && n[0] != '='
    requires |t| <= |input| && input[..|t|] == t && TripleHere(input, State(|t|, Braces, t, [], []), n)
    requires st2 == State(|t| + 6 + |n|, Braces, [], Texts(t) + [Variable(n, false)], [])
    ensures Good(input, st2) && Parse(input, Braces) == Scan(input, st2)
  {
    var st1 := State(|t|, Braces, t, [], []);
    LeadingText(input, t, Braces);
    var base := State(st2.pos, Braces, [], Texts(t), []);
    assert Flush(st1).(pos := st2.pos) == base;
    assert Attach(base, Variable(n, false)) == st2;
    assert Step(input, st1) == Next(st2) by { TripleStep(input, st1, n); }
    ScanStep(input, st1);
  }

  /** `&` then what trims to a name: a variable that is not escaped. */
  lemma AmpersandAction(input: string, base: State, start: nat, contents: string, rest: string, n: string)
    requires base.pos <= |input| && start < base.pos
    requires forall i :: 0 <= i < |base.open| ==> base.open[i].bodyStart <= start
    requires contents == ['&'] + rest && Trim(rest) == n
    ensures TagAction(input, base, start, false, contents) == Next(Attach(base, Variable(n, false)))
  {
    assert contents != [] && contents[0] == '&' && Trim(contents[1..]) == n by {
      assert contents[1..] == rest;
    }
    AmpersandClassify(contents, n);
  }

  /** `t{{ & n }}u`, with any spaces around and after the `&`: one unescaped
      variable between the text around it. */
  lemma AmpersandIn(input: string, t: string, b: string, a: nat, k: nat, c: nat, n: string, u: string)
    requires '{' !in t && '{' !in u && TagName(n)
    requires b == Spaces(a) + "&" + Spaces(k) + n + Spaces(c) && input == t + "{{" + b + "}}" + u
    ensures Parse(input, Braces) == Parsed(Texts(t) + [Variable(n, false)] + Texts(u))
  {
    var st2 := State(|t| + 4 + |b|, Braces, [], Texts(t) + [Variable(n, false)], []);
    AmpersandHead(input, t, b, a, k, c, n, u, st2);
    assert input[st2.pos..] == u by { Suffix(input, t + "{{" + b + "}}", u); }
    TextToEnd(input, st2, u);
  }

  /** The state after `t{{ & n }}`. */
  lemma AmpersandHead(input: string, t: string, b: string, a: nat, k: nat, c: nat, n: string, u: string,
                      st2: State)
    requires '{' !in t && TagName(n)
    requires b == Spaces(a) + "&" + Spaces(k) + n + Spaces(c) && input == t + "{{" + b + "}}" + u
    requires st2 == State(|t| + 4 + |b|, Braces, [], Texts(t) + [Variable(n, false)], [])
    ensures Good(input, st2) && Parse(input, Braces) == Scan(input, st2)
  {
    var st1 := State(|t|, Braces, t, [], []);
    assert Parse(input, Braces) == Scan(input, st1) by {
      assert input[..|t|] == t;
      LeadingText(input, t, Braces);
    }
    assert TagHere(input, st1, b) && !IsTriple(input, st1) && st1.pos < |input| by {
      AmpersandPieces(b, a, k, c, n);
      BracesTagAt(input, st1, t, b, u);
    }
    var base := State(st2.pos, Braces, [], Texts(t), []);
    assert Flush(st1).(pos := st2.pos) == base;
    assert Attach(base, Variable(n, false)) == st2;
    assert Step(input, st1) == Next(st2) by {
      AmpersandStep(input, st1, b, a, k, c, n, base);
    }
    ScanStep(input, st1);
  }

  /** `{{ & n }}` read by the pass. */
  lemma AmpersandStep(input: string, st: State, b: string, a: nat, k: nat, c: nat, n: string, base: State)
    requires Good(input, st) && st.pos < |input| && TagHere(input, st, b) && !IsTriple(input, st)
    requires TagName(n) && b == Spaces(a) + "&" + Spaces(k) + n + Spaces(c)
    requires base == Flush(st).(pos := st.pos + |st.delims.open| + |b| + |st.delims.close|)
    ensures Step(input, st) == Next(Attach(base, Variable(n, false)))
  {
    var rest := Spaces(k) + n;
    AmpersandTrim(b, a, k, c, n);
    TagStepPlain(input, st, b, base);
    AmpersandAction(input, base, st.pos, Trim(b), rest, n);
  }

  // ---------------------------------------------------------------------
  // Tags at the top level, one after another

  /** With no section open, the state after flushing the pending run is the
      top level with that run's text node added. */
  lemma FlatFlush(st: State, pos: nat)
    requires st.open == []
    ensures Flush(st).(pos := pos) == State(pos, st.delims, [], st.root + Texts(st.pending), [])
  {
    if st.pending == [] {
      assert st.root + Texts(st.pending) == st.root;
    }
  }

  /** `{{n}}` at the top level, after the nodes and the text read so far. */
  lemma FlatVariable(input: string, st: State, pre: string, n: string, post: string, st2: State)
    requires Good(input, st) && st.pos == |pre| && st.delims == Braces && st.open == []
    requires TagName(n) && n[0] !in "#^/>&!=" && input == pre + "{{" + n + "}}" + post
    requires st2 == State(|pre| + 4 + |n|, Braces, [], st.root + Texts(st.pending) + [Variable(n, true)], [])
    ensures Good(input, st2) && Scan(input, st) == Scan(input, st2)
  {
    assert TagHere(input, st, n) && !IsTriple(input, st) && st.pos < |input| by {
      BracesTagAt(input, st, pre, n, post);
    }
    var base := State(st2.pos, Braces, [], st.root + Texts(st.pending), []);
    assert Flush(st).(pos := st2.pos) == base by { FlatFlush(st, st2.pos); }
    assert Attach(base, Variable(n, true)) == st2;
    assert Step(input, st) == Next(st2) by { VariableStep(input, st, n, st2.pos); }
    ScanStep(input, st);
  }

  /** `{{{n}}}` at the top level, after the nodes and the text read so far. */
  lemma FlatTriple(input: string, st: State, pre: string, n: string, post: string, st2: State)
    requires Good(input, st) && st.pos == |pre| && st.delims == Braces && st.open == []
    requires TagName(n) && n[0] != '=' && input == pre + "{{{" + n + "}}}" + post
    requires st2 == State(|pre| + 6 + |n|, Braces, [], st.root + Texts(st.pending) + [Variable(n, false)], [])
    ensures Good(input, st2) && Scan(input, st) == Scan(input, st2)
  {
    assert TripleHere(input, st, n) by { TripleTagAt(input, st, pre, n, post); }
    var base := State(st2.pos, Braces, [], st.root + Texts(st.pending), []);
    assert Flush(st).(pos := st2.pos) == base by { FlatFlush(st, st2.pos); }
    assert Attach(base, Variable(n, false)) == st2;
    assert Step(input, st) == Next(st2) by { TripleStep(input, st, n); }
    ScanStep(input, st);
  }

  /** `{{>n}}` at the top level, after the nodes and the text read so far. */
  lemma FlatPartial(input: string, st: State, pre: string, b: string, n: string, post: string, st2: State)
    requires Good(input, st) && st.pos == |pre| && st.delims == Braces && st.open == []
    requires TagName(n) && b == ['>'] + n && input == pre + "{{" + b + "}}" + post
    requires st2 == State(|pre| + 4 + |b|, Braces, [], st.root + Texts(st.pending) + [PartialRef(n)], [])
    ensures Good(input, st2) && Scan(input, st) == Scan(input, st2)
  {
    assert TagHere(input, st, b) && !IsTriple(input, st) && st.pos < |input| by {
      assert b[0] == '>' && '}' !in b;
      BracesTagAt(input, st, pre, b, post);
    }
    var base := State(st2.pos, Braces, [], st.root + Texts(st.pending), []);
    assert Flush(st).(pos := st2.pos) == base by { FlatFlush(st, st2.pos); }
    assert Attach(base, PartialRef(n)) == st2;
    assert Step(input, st) == Next(st2) by { PartialStep(input, st, b, n, st2.pos); }
    ScanStep(input, st);
  }

  /** Marker-free text at the top level joins the pending run. */
  lemma FlatText(input: string, st: State, pre: string, x: string, post: string, st2: State)
    requires Good(input, st) && st.pos == |pre| && st.delims == Braces && '{' !in x
    requires input == pre + x + post && st2 == st.(pos := st.pos + |x|, pending := st.pending + x)
    ensures Good(input, st2) && Scan(input, st) == Scan(input, st2)
  {
    Infix(input, pre, x, post);
    LitStep(input, st, x);
  }

  /** `{{n}}sep{{{n}}}sep{{n}}` compiles to the escaped, unescaped and escaped
      variable with the separator text between each pair. */
  lemma SameNameThrice(s: string, n: string, sep: string)
    requires TagName(n) && n[0] !in "#^/>&!=" && '{' !in sep && sep != []
    requires s == "{{" + n + "}}" + sep + "{{{" + n + "}}}" + sep + "{{" + n + "}}"
    ensures Parse(s, Braces)
         == Parsed([Variable(n, true), Text(sep), Variable(n, false), Text(sep), Variable(n, true)])
  {
    var p1, p3 := "{{" + n + "}}", "{{{" + n + "}}}";
    var v, r := Variable(n, true), Variable(n, false);
    var st0 := State(0, Braces, [], [], []);
    var st2 := State(|p1| + |sep|, Braces, sep, [v], []);
    var st4 := State(|p1| + |sep| + |p3| + |sep|, Braces, sep, [v, Text(sep), r], []);
    var st5 := State(|s|, Braces, [], [v, Text(sep), r, Text(sep), v], []);
    ThricePieces(s, p1, sep, p3, "{{", "}}", "{{{", "}}}", n);
    assert Parse(s, Braces) == Scan(s, st0);
    ThriceFirst(s, n, sep, p1, p3, st0, st2);
    ThriceMiddle(s, n, sep, p1, p3, st2, st4);
    ThriceLast(s, n, sep, p1, p3, st4, st5);
    NoSectionInFive(v, Text(sep), r);
    AtEnd(s, st5);
  }

  /** The first escaped use and the separator after it. */
  lemma ThriceFirst(s: string, n: string, sep: string, p1: string, p3: string, st0: State, st2: State)
    requires TagName(n) && n[0] !in "#^/>&!=" && '{' !in sep && p1 == "{{" + n + "}}"
    requires s == [] + "{{" + n + "}}" + (sep + p3 + sep + p1) && s == p1 + sep + (p3 + sep + p1)
    requires st0 == State(0, Braces, [], [], [])
    requires st2 == State(|p1| + |sep|, Braces, sep, [Variable(n, true)], [])
    ensures Scan(s, st0) == Scan(s, st2) && Good(s, st2)
  {
    var st1 := State(|p1|, Braces, [], [Variable(n, true)], []);
    assert [] + Texts([]) + [Variable(n, true)] == [Variable(n, true)];
    assert Good(s, st0);
    FlatVariable(s, st0, [], n, sep + p3 + sep + p1, st1);
    FlatText(s, st1, p1, sep, p3 + sep + p1, st2);
  }

  /** The unescaped use and the separator after it. */
  lemma ThriceMiddle(s: string, n: string, sep: string, p1: string, p3: string, st2: State, st4: State)
    requires TagName(n) && n[0] != '=' && '{' !in sep && sep != [] && p3 == "{{{" + n + "}}}"
    requires s == (p1 + sep) + "{{{" + n + "}}}" + (sep + p1) && s == (p1 + sep + p3) + sep + p1
    requires Good(s, st2) && st2 == State(|p1| + |sep|, Braces, sep, [Variable(n, true)], [])
    requires st4 == State(|p1| + |sep| + |p3| + |sep|, Braces, sep, [Variable(n, true), Text(sep), Variable(n, false)], [])
    ensures Scan(s, st2) == Scan(s, st4) && Good(s, st4)
  {
    var v, r := Variable(n, true), Variable(n, false);
    var st3 := State(|p1| + |sep| + |p3|, Braces, [], [v, Text(sep), r], []);
    assert [v] + Texts(sep) + [r] == [v, Text(sep), r];
    assert |p1 + sep| == st2.pos;
    FlatTriple(s, st2, p1 + sep, n, sep + p1, st3);
    assert st3.pos == |p1 + sep + p3|;
    FlatText(s, st3, p1 + sep + p3, sep, p1, st4);
  }

  /** The last escaped use, which ends the template. */
  lemma ThriceLast(s: string, n: string, sep: string, p1: string, p3: string, st4: State, st5: State)
    requires TagName(n) && n[0] !in "#^/>&!=" && sep != []
    requires s == (p1 + sep + p3 + sep) + "{{" + n + "}}" + [] && |s| == |p1 + sep + p3 + sep| + 4 + |n|
    requires Good(s, st4) && st4 == State(|p1| + |sep| + |p3| + |sep|, Braces, sep, [Variable(n, true), Text(sep), Variable(n, false)], [])
    requires st5 == State(|s|, Braces, [], [Variable(n, true), Text(sep), Variable(n, false), Text(sep), Variable(n, true)], [])
    ensures Scan(s, st4) == Scan(s, st5) && Good(s, st5)
  {
    var v, r := Variable(n, true), Variable(n, false);
    assert [v, Text(sep), r] + Texts(sep) + [v] == [v, Text(sep), r, Text(sep), v];
    assert |p1 + sep + p3 + sep| == st4.pos;
    FlatVariable(s, st4, p1 + sep + p3 + sep, n, [], st5);
  }

  /** `[v, t, r, t, v]` holds no section when its three nodes are none. */
  lemma NoSectionInFive(v: Node, t: Node, r: Node)
    requires !v.Section? && !t.Section? && !r.Section?
    ensures forall i :: 0 <= i < 5 ==> ![v, t, r, t, v][i].Section?
  {
    var ns := [v, t, r, t, v];
    assert forall i :: 0 <= i < 5 ==> ns[i] == v || ns[i] == t || ns[i] == r;
  }

  /** `t{{>p}}{{m}}` compiles to the text, the partial and the escaped
      variable. */
  lemma TextPartialVariable(s: string, t: string, b: string, p: string, m: string)
    requires '{' !in t && t != [] && TagName(p) && b == ['>'] + p
    requires TagName(m) && m[0] !in "#^/>&!="
    requires s == t + "{{" + b + "}}" + "{{" + m + "}}"
    ensures Parse(s, Braces) == Parsed([Text(t), PartialRef(p), Variable(m, true)])
  {
    var w := "{{" + b + "}}";
    var st2 := State(|t| + |w|, Braces, [], [Text(t), PartialRef(p)], []);
    var st3 := State(|s|, Braces, [], [Text(t), PartialRef(p), Variable(m, true)], []);
    PartialPieces(s, t, w, "{{", b, "}}", m);
    TextThenPartial(s, t, w, b, p, m, st2);
    PartialThenVariable(s, t, w, p, m, st2, st3);
    NoSectionInThree(Text(t), PartialRef(p), Variable(m, true));
    AtEnd(s, st3);
  }

  /** `t{{n}}{{{n}}}` compiles to the text, the escaped variable and the
      unescaped one. */
  lemma TextVariableTriple(s: string, t: string, n: string)
    requires '{' !in t && t != [] && TagName(n) && n[0] !in "#^/>&!="
    requires s == t + "{{" + n + "}}" + "{{{" + n + "}}}"
    ensures Parse(s, Braces) == Parsed([Text(t), Variable(n, true), Variable(n, false)])
  {
    var w, rest := "{{" + n + "}}", "{{{" + n + "}}}";
    var st2 := State(|t| + |w|, Braces, [], [Text(t), Variable(n, true)], []);
    var st3 := State(|s|, Braces, [], [Text(t), Variable(n, true), Variable(n, false)], []);
    TriplePieces(s, t, w, n, rest);
    TextThenVariableTag(s, t, n, w, rest, st2);
    VariableThenTriple(s, t, w, n, st2, st3);
    NoSectionInThree(Text(t), Variable(n, true), Variable(n, false));
    AtEnd(s, st3);
  }

  /** The cuts of `t{{n}}{{{n}}}` at its text and at each tag. */
  lemma TriplePieces(s: string, t: string, w: string, n: string, rest: string)
    requires w == "{{" + n + "}}" && rest == "{{{" + n + "}}}" && s == t + "{{" + n + "}}" + "{{{" + n + "}}}"
    ensures s == [] + t + (w + rest) && s == t + "{{" + n + "}}" + rest && s == (t + w) + "{{{" + n + "}}}" + []
  {
  }

  /** The leading text and the variable tag after it. */
  lemma TextThenVariableTag(s: string, t: string, n: string, w: string, rest: string, st2: State)
    requires '{' !in t && t != [] && TagName(n) && n[0] !in "#^/>&!=" && w == "{{" + n + "}}"
    requires s == [] + t + (w + rest) && s == t + "{{" + n + "}}" + rest
    requires st2 == State(|t| + |w|, Braces, [], [Text(t), Variable(n, true)], [])
    ensures Parse(s, Braces) == Scan(s, st2) && Good(s, st2)
  {
    var st0 := State(0, Braces, [], [], []);
    assert Parse(s, Braces) == Scan(s, st0);
    var st1 := State(|t|, Braces, t, [], []);
    assert Good(s, st0);
    FlatText(s, st0, [], t, w + rest, st1);
    assert [] + Texts(t) + [Variable(n, true)] == [Text(t), Variable(n, true)];
    FlatVariable(s, st1, t, n, rest, st2);
  }

  /** The triple mustache that ends `t{{n}}{{{n}}}`. */
  lemma VariableThenTriple(s: string, t: string, w: string, n: string, st2: State, st3: State)
    requires TagName(n) && n[0] !in "#^/>&!=" && s == (t + w) + "{{{" + n + "}}}" + [] && |s| == |t + w| + 6 + |n|
    requires Good(s, st2) && st2 == State(|t| + |w|, Braces, [], [Text(t), Variable(n, true)], [])
    requires st3 == State(|s|, Braces, [], [Text(t), Variable(n, true), Variable(n, false)], [])
    ensures Scan(s, st2) == Scan(s, st3) && Good(s, st3)
  {
    assert [Text(t), Variable(n, true)] + Texts([]) + [Variable(n, false)] == st3.root;
    FlatTriple(s, st2, t + w, n, [], st3);
  }

  /** The leading text and the partial tag after it. */
  lemma TextThenPartial(s: string, t: string, w: string, b: string, p: string, m: string, st2: State)
    requires '{' !in t && t != [] && TagName(p) && b == ['>'] + p && w == "{{" + b + "}}"
    requires s == [] + t + (w + "{{" + m + "}}") && s == t + "{{" + b + "}}" + ("{{" + m + "}}")
    requires st2 == State(|t| + |w|, Braces, [], [Text(t), PartialRef(p)], [])
    ensures Parse(s, Braces) == Scan(s, st2) && Good(s, st2)
  {
    var st0 := State(0, Braces, [], [], []);
    assert Parse(s, Braces) == Scan(s, st0);
    var st1 := State(|t|, Braces, t, [], []);
    assert Good(s, st0);
    FlatText(s, st0, [], t, w + "{{" + m + "}}", st1);
    assert [] + Texts(t) + [PartialRef(p)] == [Text(t), PartialRef(p)];
    FlatPartial(s, st1, t, b, p, "{{" + m + "}}", st2);
  }

  /** The variable tag that ends `t{{>p}}{{m}}`. */
  lemma PartialThenVariable(s: string, t: string, w: string, p: string, m: string, st2: State, st3: State)
    requires TagName(m) && m[0] !in "#^/>&!="
    requires s == (t + w) + "{{" + m + "}}" + [] && |s| == |t + w| + 4 + |m|
    requires Good(s, st2) && st2 == State(|t| + |w|, Braces, [], [Text(t), PartialRef(p)], [])
    requires st3 == State(|s|, Braces, [], [Text(t), PartialRef(p), Variable(m, true)], [])
    ensures Scan(s, st2) == Scan(s, st3) && Good(s, st3)
  {
    assert [Text(t), PartialRef(p)] + Texts([]) + [Variable(m, true)] == st3.root;
    assert |t + w| == st2.pos;
    FlatVariable(s, st2, t + w, m, [], st3);
  }

  /** The cuts of `t o b c o m c` at each of its parts. */
  lemma PartialPieces(s: string, t: string, w: string, o: string, b: string, c: string, m: string)
    requires w == o + b + c && s == t + o + b + c + (o + m + c)
    ensures s == [] + t + (w + (o + m + c))
    ensures s == t + o + b + c + (o + m + c)
    ensures s == (t + w) + o + m + c + []
    ensures |s| == |t + w| + |o| + |m| + |c|
  {
    assert s == t + w + (o + m + c);
  }

  /** Three nodes none of which is a section. */
  lemma NoSectionInThree(a: Node, b: Node, c: Node)
    requires !a.Section? && !b.Section? && !c.Section?
    ensures forall i :: 0 <= i < 3 ==> ![a, b, c][i].Section?
  {
    var ns := [a, b, c];
    assert forall i :: 0 <= i < 3 ==> ns[i] == a || ns[i] == b || ns[i] == c;
  }

  /** A scan that has consumed the whole input with nothing open or pending
      yields the nodes it has built. */
  lemma AtEnd(input: string, st: State)
    requires Good(input, st) && st.pos == |input| && st.open == [] && st.pending == []
    requires forall i :: 0 <= i < |st.root| ==> !st.root[i].Section?
    ensures Scan(input, st) == Parsed(st.root)
  {
    assert input[st.pos..] == [];
    TextToEnd(input, st, []);
    assert st.root + Texts([]) == st.root;
  }

  /** The cuts of `a sep b sep a` at each of its parts. */
  lemma ThricePieces(s: string, a: string, sep: string, b: string, o: string, c: string, o3: string, c3: string, n: string)
    requires a == o + n + c && b == o3 + n + c3 && s == o + n + c + sep + (o3 + n + c3) + sep + (o + n + c)
    ensures s == [] + o + n + c + (sep + b + sep + a)
    ensures s == a + sep + (b + sep + a)
    ensures s == (a + sep) + o3 + n + c3 + (sep + a)
    ensures s == (a + sep + b) + sep + a
    ensures s == (a + sep + b + sep) + o + n + c + []
    ensures |s| == |a| + |sep| + |b| + |sep| + |o| + |n| + |c|
  {
    assert s == a + sep + b + sep + a;
  }

  /** `t{{= open  close =}}u`, padded or not: a set-delimiter node between
      the text around it, and the text after it is read under the new pair. */
  lemma DirectiveIn(input: string, t: string, b: string, open: string, close: string, gap: nat, l: nat, r: nat,
                    u: string)
    requires '{' !in t && '}' !in b && Edges(open, close) && DelimiterToken(open) && DelimiterToken(close)
    requires b == "=" + Spaces(l) + open + Spaces(gap + 1) + close + Spaces(r) + "="
    requires open[0] !in u && input == t + "{{" + b + "}}" + u
    ensures Parse(input, Braces)
         == Parsed(Texts(t) + [SetDelimiter(Delimiters(open, close))] + Texts(u))
  {
    var d: Delims := Delimiters(open, close);
    var st2 := State(|t| + 4 + |b|, d, [], Texts(t) + [SetDelimiter(d)], []);
    DirectiveHead(input, t, b, open, close, gap, l, r, u, st2);
    assert input[st2.pos..] == u by { Suffix(input, t + "{{" + b + "}}", u); }
    TextToEnd(input, st2, u);
  }

  /** The state after `t{{= open  close =}}`. */
  lemma DirectiveHead(input: string, t: string, b: string, open: string, close: string, gap: nat, l: nat, r: nat,
                      u: string, st2: State)
    requires '{' !in t && '}' !in b && Edges(open, close) && DelimiterToken(open) && DelimiterToken(close)
    requires b == "=" + Spaces(l) + open + Spaces(gap + 1) + close + Spaces(r) + "="
    requires input == t + "{{" + b + "}}" + u
    requires st2 == State(|t| + 4 + |b|, Delimiters(open, close), [], Texts(t) + [SetDelimiter(Delimiters(open, close))], [])
    ensures Good(input, st2) && Parse(input, Braces) == Scan(input, st2)
  {
    var st1 := State(|t|, Braces, t, [], []);
    assert Parse(input, Braces) == Scan(input, st1) by {
      assert input[..|t|] == t;
      LeadingText(input, t, Braces);
    }
    BracesTagAt(input, st1, t, b, u);
    var base := State(st2.pos, Braces, [], Texts(t), []);
    assert Flush(st1).(pos := st2.pos) == base;
    DirectiveStep(input, st1, b, open, close, gap, l, r, base);
    ScanStep(input, st1);
  }

  /** `t{{#n}}x{{/n}}u`, and the same with `^`: one section, closed by its
      own name, whose children are the text inside and whose body is that
      raw text, between the text around it. */
  lemma MatchedSectionIn(input: string, t: string, sigil: char, n: string, x: string, u: string)
    requires '{' !in t && '{' !in x && '{' !in u && Opener(sigil) && TagName(n)
    requires input == t + "{{" + [sigil] + n + "}}" + x + "{{/" + n + "}}" + u
    ensures Parse(input, Braces)
         == Parsed(Texts(t) + [Section(n, sigil == '^', Texts(x), x, Braces, |t|, true)] + Texts(u))
  {
    var bo, bc := [sigil] + n, ['/'] + n;
    var p1 := |t| + 4 + |bo|;
    var p2 := p1 + |x|;
    var st2 := State(p2, Braces, x, Texts(t), [OpenSection(n, sigil == '^', |t|, p1, Braces, [])]);
    var section := Section(n, sigil == '^', Texts(x), x, Braces, |t|, true);
    var st3 := State(p2 + 4 + |bc|, Braces, [], Texts(t) + [section], []);
    assert input == t + "{{" + bo + "}}" + x + "{{" + bc + "}}" + u by {
      MatchedSpelling(t, sigil, n, x, u);
    }
    assert Good(input, st2) && Parse(input, Braces) == Scan(input, st2) && input[p1..p2] == x by {
      Regroup(t + "{{" + bo + "}}" + x, "{{", bc, "}}", u);
      MatchedOpen(input, t, sigil, bo, n, x, bc + "}}" + u, st2);
    }
    assert Good(input, st3) && Scan(input, st2) == Scan(input, st3) by {
      assert [] + Texts(x) == Texts(x);
      MatchedClose(input, t + "{{" + bo + "}}" + x, bc, n, u, st2, st3);
    }
    Suffix(input, t + "{{" + bo + "}}" + x + "{{" + bc + "}}", u);
    MatchedTail(input, u, Texts(t), section, st3);
  }

  /** After the close tag, the rest `u` is one more text node. */
  lemma MatchedTail(input: string, u: string, head: seq<Node>, section: Node, st3: State)
    requires '{' !in u && Good(input, st3) && input[st3.pos..] == u
    requires st3 == State(st3.pos, Braces, [], head + [section], [])
    requires forall i :: 0 <= i < |head| ==> !head[i].Section?
    requires section.Section? && section.closed
    requires forall i :: 0 <= i < |section.children| ==> !section.children[i].Section?
    ensures Scan(input, st3) == Parsed(head + [section] + Texts(u))
  {
    ClosedOnlySection(head, section, Texts(u));
    TextToEndClosed(input, st3, u);
  }

  /** The matched section's source, with the sigils grouped with the name. */
  lemma MatchedSpelling(t: string, sigil: char, n: string, x: string, u: string)
    ensures t + "{{" + [sigil] + n + "}}" + x + "{{/" + n + "}}" + u
         == t + "{{" + ([sigil] + n) + "}}" + x + "{{" + (['/'] + n) + "}}" + u
  {
    assert "{{/" == "{{" + ['/'];
  }

  /** The pass over `t{{#n}}x` or `t{{^n}}x`: the section is open and `x` is pending. */
  lemma MatchedOpen(input: string, t: string, sigil: char, bo: string, n: string, x: string, rest: string,
                    st2: State)
    requires '{' !in t && '{' !in x && Opener(sigil) && TagName(n) && bo == [sigil] + n
    requires input == t + "{{" + bo + "}}" + x + "{{" + rest
    requires st2 == State(|t| + 4 + |bo| + |x|, Braces, x, Texts(t),
                          [OpenSection(n, sigil == '^', |t|, |t| + 4 + |bo|, Braces, [])])
    ensures Good(input, st2) && Parse(input, Braces) == Scan(input, st2)
    ensures input[|t| + 4 + |bo|..st2.pos] == x
  {
    var st1 := State(|t|, Braces, t, [], []);
    var p1 := |t| + 4 + |bo|;
    assert Parse(input, Braces) == Scan(input, st1) by {
      Infix(input, [], t, "{{" + bo + "}}" + x + "{{" + rest);
      LeadingText(input, t, Braces);
    }
    Regroup(t + "{{" + bo, "}}", x, "{{", rest);
    assert TagHere(input, st1, bo) && !IsTriple(input, st1) && st1.pos < |input| by {
      BracesTagAt(input, st1, t, bo, x + "{{" + rest);
    }
    assert p1 + |x| <= |input| && input[p1..p1 + |x|] == x by {
      Infix(input, t + "{{" + bo + "}}", x, "{{" + rest);
    }
    OpenAfterText(input, t, sigil, bo, n, x, st1, st2);
  }

  /** The open tag after a leading literal run `t`, then text `x`. */
  lemma OpenAfterText(input: string, t: string, sigil: char, bo: string, n: string, x: string,
                      st1: State, st2: State)
    requires Opener(sigil) && TagName(n) && bo == [sigil] + n && '{' !in x
    requires st1 == State(|t|, Braces, t, [], []) && st1.pos < |input|
    requires TagHere(input, st1, bo) && !IsTriple(input, st1)
    requires |t| + 4 + |bo| + |x| <= |input| && input[|t| + 4 + |bo|..|t| + 4 + |bo| + |x|] == x
    requires st2 == State(|t| + 4 + |bo| + |x|, Braces, x, Texts(t),
                          [OpenSection(n, sigil == '^', |t|, |t| + 4 + |bo|, Braces, [])])
    ensures Good(input, st2) && Scan(input, st1) == Scan(input, st2)
  {
    var p1 := |t| + 4 + |bo|;
    var base := State(p1, Braces, [], Texts(t), []);
    assert base == Flush(st1).(pos := p1) by {
      FlatFlush(st1, p1);
      assert [] + Texts(t) == Texts(t);
    }
    var os := OpenSection(n, sigil == '^', |t|, p1, Braces, []);
    assert base.pos == st1.pos + |st1.delims.open| + |bo| + |st1.delims.close|;
    assert base.pos + |x| <= |input| && input[base.pos..base.pos + |x|] == x && st1.delims.open[0] !in x;
    assert st2 == base.(open := base.open + [os], pos := base.pos + |x|, pending := x) by {
      assert base.open + [os] == [os];
    }
    OpenThenText(input, st1, sigil, bo, n, x, base, st2);
  }

  /** What follows a prefix. */
  lemma Suffix(s: string, p: string, z: string)
    requires s == p + z
    ensures s[|p|..] == z
  {
  }

  /** Where a piece stands in a concatenation. */
  lemma Infix(s: string, a: string, m: string, z: string)
    requires s == a + m + z
    ensures |a| + |m| <= |s| && s[..|a|] == a && s[|a|..|a| + |m|] == m
  {
  }

  /** The close tag with the section's own name ends it: the section, with
      the raw text between the tags as its body, is finished at the top level. */
  lemma MatchedClose(input: string, pre: string, bc: string, n: string, u: string, st2: State, st3: State)
    requires TagName(n) && bc == ['/'] + n
    requires input == pre + "{{" + bc + "}}" + u && st2.pos == |pre| && st2.delims == Braces
    requires |st2.open| == 1 && st2.open[0].name == n && Good(input, st2)
    requires var o := st2.open[0];
      st3 == State(st2.pos + 4 + |bc|, Braces, [],
                   st2.root + [Section(n, o.inverted, o.children + Texts(st2.pending), input[o.bodyStart..st2.pos],
                                       o.delims, o.pos, true)], [])
    ensures Good(input, st3) && Scan(input, st2) == Scan(input, st3)
  {
    BracesTagAt(input, st2, pre, bc, u);
    var end := st2.pos + 4 + |bc|;
    CloseStep(input, st2, bc, n, end);
    ScanStep(input, st2);
    var f := Flush(st2).(pos := end);
    FlushOne(st2);
    CloseSectionPlaces(input, f, st2.pos, n);
    assert CloseSection(input, f, st2.pos, n) == st3;
  }

  /** Flushing with one section open adds the pending run to its children. */
  lemma FlushOne(st: State)
    requires |st.open| == 1
    ensures Flush(st) == st.(pending := [], open := [st.open[0].(children := st.open[0].children + Texts(st.pending))])
  {
    var o := st.open[0];
    if st.pending == [] {
      assert o.children + [] == o.children;
      assert o.(children := o.children) == o;
      assert st.open == [o];
    } else {
      var tx := Texts(st.pending);
      assert tx == [Text(st.pending)];
      assert st.open[..0] + [o.(children := o.children + tx)] == [o.(children := o.children + tx)];
    }
  }

  /** A variable tag inside the one open section, then text: the pending run
      and the variable join the section's children, and the text is pending. */
  lemma VariableThenText(input: string, pre: string, m: string, b: string, rest: string, st2: State, st4: State)
    requires TagName(m) && m[0] !in "#^/>&!=" && '{' !in b
    requires input == pre + "{{" + m + "}}" + b + rest
    requires Good(input, st2) && st2.pos == |pre| && st2.delims == Braces && |st2.open| == 1
    requires var o := st2.open[0];
      st4 == State(|pre| + 4 + |m| + |b|, Braces, b, st2.root,
                   [o.(children := o.children + Texts(st2.pending) + [Variable(m, true)])])
    ensures Good(input, st4) && Scan(input, st2) == Scan(input, st4)
  {
    var end := |pre| + 4 + |m|;
    var st3 := State(end, Braces, [], st4.root, st4.open);
    assert Good(input, st3) && Scan(input, st2) == Scan(input, st3) by {
      Regroup(pre + "{{", m, "}}", b, rest);
      VariableTagScan(input, pre, m, b + rest, st2, st3);
    }
    assert end + |b| <= |input| && input[end..end + |b|] == b by {
      Infix(input, pre + "{{" + m + "}}", b, rest);
    }
    TextAfterTag(input, st3, b, st4);
  }

  /** Text without an open brace after a tag, up to the next tag. */
  lemma TextAfterTag(input: string, st3: State, b: string, st4: State)
    requires Good(input, st3) && st3.delims == Braces && st3.pending == [] && '{' !in b
    requires st3.pos + |b| <= |input| && input[st3.pos..st3.pos + |b|] == b
    requires st4 == st3.(pos := st3.pos + |b|, pending := b)
    ensures Good(input, st4) && Scan(input, st3) == Scan(input, st4)
  {
    LitStep(input, st3, b);
    assert st3.pending + b == b;
  }

  /** A plain variable tag inside the one open section is appended to its
      children after the pending text. */
  lemma VariableTagScan(input: string, pre: string, m: string, z: string, st2: State, st3: State)
    requires TagName(m) && m[0] !in "#^/>&!="
    requires input == pre + "{{" + m + "}}" + z
    requires Good(input, st2) && st2.pos == |pre| && st2.delims == Braces && |st2.open| == 1
    requires var o := st2.open[0];
      st3 == State(|pre| + 4 + |m|, Braces, [], st2.root,
                   [o.(children := o.children + Texts(st2.pending) + [Variable(m, true)])])
    ensures Good(input, st3) && Scan(input, st2) == Scan(input, st3)
  {
    var end := |pre| + 4 + |m|;
    assert TagHere(input, st2, m) && !IsTriple(input, st2) && st2.pos < |input| by {
      BracesTagAt(input, st2, pre, m, z);
    }
    assert Attach(Flush(st2).(pos := end), Variable(m, true)) == st3 by {
      FlushOne(st2);
      AttachPlaces(Flush(st2).(pos := end), Variable(m, true));
    }
    VariableStep(input, st2, m, end);
    ScanStep(input, st2);
  }

  /** `t{{#n}}a{{m}}b{{/n}}u`, and the same with `^` (`bo` is the open tag's
      contents and `bc` the close tag's): the section's children are the text
      and the variable inside it, and its body is the raw text between the
      tags, tag included. */
  lemma MatchedVariableSectionIn(input: string, t: string, sigil: char, n: string, a: string, m: string, b: string,
                                 u: string, bo: string, bc: string)
    requires '{' !in t && '{' !in a && '{' !in b && '{' !in u && Opener(sigil) && TagName(n)
    requires TagName(m) && m[0] !in "#^/>&!=" && bo == [sigil] + n && bc == ['/'] + n
    requires input == t + "{{" + bo + "}}" + a + "{{" + m + "}}" + b + "{{" + bc + "}}" + u
    ensures Parse(input, Braces)
         == Parsed(Texts(t) + [Section(n, sigil == '^', Texts(a) + [Variable(m, true)] + Texts(b),
                                       a + "{{" + m + "}}" + b, Braces, |t|, true)] + Texts(u))
  {
    var p1 := |t| + 4 + |bo|;
    var h := t + "{{" + bo + "}}";
    var os := OpenSection(n, sigil == '^', |t|, p1, Braces, []);
    var st4 := State(p1 + |a| + 4 + |m| + |b|, Braces, b, Texts(t), [os.(children := Texts(a) + [Variable(m, true)])]);
    var body := a + "{{" + m + "}}" + b;
    var section := Section(n, sigil == '^', Texts(a) + [Variable(m, true)] + Texts(b), body, Braces, |t|, true);
    var st5 := State(st4.pos + 4 + |bc|, Braces, [], Texts(t) + [section], []);
    VariableSectionOpen(input, t, sigil, n, a, m, b, u, bo, bc, st4);
    assert input[st5.pos..] == u by {
      VariableSectionPieces(h, a, "{{", m, "}}", b, "{{", bc, "}}", u);
      Suffix(input, h + body + "{{" + bc + "}}", u);
    }
    assert Good(input, st5) && Scan(input, st4) == Scan(input, st5) by {
      VariableSectionPieces(h, a, "{{", m, "}}", b, "{{", bc, "}}", u);
      MatchedClose(input, h + body, bc, n, u, st4, st5);
    }
    FlatAround(Texts(a), Variable(m, true), Texts(b));
    MatchedTail(input, u, Texts(t), section, st5);
  }

  /** The pass over `t{{#n}}a{{m}}b`: the section is open, holding `a` and the
      variable, `b` is pending, and the text since the open tag is the body. */
  lemma VariableSectionOpen(input: string, t: string, sigil: char, n: string, a: string, m: string, b: string,
                            u: string, bo: string, bc: string, st4: State)
    requires '{' !in t && '{' !in a && '{' !in b && Opener(sigil) && TagName(n)
    requires TagName(m) && m[0] !in "#^/>&!=" && bo == [sigil] + n && bc == ['/'] + n
    requires input == t + "{{" + bo + "}}" + a + "{{" + m + "}}" + b + "{{" + bc + "}}" + u
    requires st4 == State(|t| + 4 + |bo| + |a| + 4 + |m| + |b|, Braces, b, Texts(t),
                          [OpenSection(n, sigil == '^', |t|, |t| + 4 + |bo|, Braces, Texts(a) + [Variable(m, true)])])
    ensures Good(input, st4) && Parse(input, Braces) == Scan(input, st4)
    ensures input[|t| + 4 + |bo|..st4.pos] == a + "{{" + m + "}}" + b
  {
    var p1 := |t| + 4 + |bo|;
    var h := t + "{{" + bo + "}}";
    var st2 := State(p1 + |a|, Braces, a, Texts(t), [OpenSection(n, sigil == '^', |t|, p1, Braces, [])]);
    var tail := "{{" + bc + "}}" + u;
    assert Good(input, st2) && Parse(input, Braces) == Scan(input, st2) by {
      VariableSectionPieces(h, a, "{{", m, "}}", b, "{{", bc, "}}", u);
      MatchedOpen(input, t, sigil, bo, n, a, m + "}}" + b + "{{" + bc + "}}" + u, st2);
    }
    assert Good(input, st4) && Scan(input, st2) == Scan(input, st4) by {
      VariableSectionPieces(h, a, "{{", m, "}}", b, "{{", bc, "}}", u);
      assert [] + Texts(a) + [Variable(m, true)] == Texts(a) + [Variable(m, true)];
      VariableThenText(input, h + a, m, b, tail, st2, st4);
    }
    VariableSectionPieces(h, a, "{{", m, "}}", b, "{{", bc, "}}", u);
    Infix(input, h, a + "{{" + m + "}}" + b, tail);
  }

  /** A section's text cut into the pieces it is read in: the heading `h`,
      the text and the variable tag inside, and the close tag, regrouped the
      ways the steps over it take them. */
  lemma VariableSectionPieces(h: string, a: string, o: string, m: string, c: string, b: string, o2: string, bc: string,
                              c2: string, u: string)
    ensures var s := h + a + o + m + c + b + o2 + bc + c2 + u;
      && s == h + a + o + (m + c + b + o2 + bc + c2 + u)
      && s == h + a + o + m + c + b + (o2 + bc + c2 + u)
      && s == h + (a + o + m + c + b) + (o2 + bc + c2 + u)
      && s == h + (a + o + m + c + b) + o2 + bc + c2 + u
  {
  }


  /** Text nodes around one node that is not a section: no section at all. */
  lemma FlatAround(pre: seq<Node>, n: Node, post: seq<Node>)
    requires |pre| <= 1 && |post| <= 1 && !n.Section?
    requires forall i :: 0 <= i < |pre| ==> pre[i].Text?
    requires forall i :: 0 <= i < |post| ==> post[i].Text?
    ensures forall i :: 0 <= i < |pre + [n] + post| ==> !(pre + [n] + post)[i].Section?
  {
  }

  /** Flat text around one closed section whose children are flat. */
  lemma ClosedOnlySection(pre: seq<Node>, section: Node, post: seq<Node>)
    requires forall i :: 0 <= i < |pre| ==> !pre[i].Section?
    requires forall i :: 0 <= i < |post| ==> !post[i].Section?
    requires section.Section? && section.closed
    requires forall i :: 0 <= i < |section.children| ==> !section.children[i].Section?
    ensures FirstUnclosed(pre + [section] + post) == None
  {
    assert pre + [section] + post == pre + ([section] + post);
    FlatPrefix(pre, [section] + post);
    NoSectionsNoneUnclosed(section.children);
    NoSectionsNoneUnclosed(post);
    assert ([section] + post)[1..] == post;
  }

  /** Text without markers up to the end of the input, after top-level
      nodes in which every section is closed. */
  lemma TextToEndClosed(input: string, st: State, u: string)
    requires Good(input, st) && st.open == [] && st.pending == [] && input[st.pos..] == u
    requires st.delims.open[0] !in u && FirstUnclosed(st.root + Texts(u)) == None
    ensures Scan(input, st) == Parsed(st.root + Texts(u))
  {
    var st3 := st.(pos := |input|, pending := u);
    assert Scan(input, st) == Scan(input, st3) by {
      assert input[st.pos..st.pos + |u|] == u;
      LitStep(input, st, u);
      assert st.pending + u == u;
    }
    assert CloseAll(Flush(st3)) == st.root + Texts(u);
  }

  /** Text without markers up to the end of the input, after top-level
      nodes without sections. */
  lemma TextToEnd(input: string, st: State, u: string)
    requires Good(input, st) && st.open == [] && st.pending == [] && input[st.pos..] == u
    requires st.delims.open[0] !in u && forall i :: 0 <= i < |st.root| ==> !st.root[i].Section?
    ensures Scan(input, st) == Parsed(st.root + Texts(u))
  {
    var st3 := st.(pos := |input|, pending := u);
    assert Scan(input, st) == Scan(input, st3) by {
      assert input[st.pos..st.pos + |u|] == u;
      LitStep(input, st, u);
      assert st.pending + u == u;
    }
    FinishFlat(st3, st.root + Texts(u));
  }

  /** An open marker with no `}` after it fails the pass at the marker. */
  lemma UnclosedTagIn(input: string, t: string, u: string)
    requires '{' !in t && '}' !in u && input == t + "{{" + u
    ensures Parse(input, Braces) == Failed(UnclosedTag(|t|))
  {
    assert input[..|t|] == t;
    LeadingText(input, t, Braces);
    var st1 := State(|t|, Braces, t, [], []);
    assert input[|t|..|t| + 2] == "{{";
    assert OccursAt(Braces.open, input, |t|);
    forall k | ContentsFrom(input, st1) <= k < |input| ensures input[k] != Closer(input, st1)[0] {
      assert input[k] == u[k - |t| - 2];
    }
    FindNone(input, Closer(input, st1), ContentsFrom(input, st1));
    UnclosedTagStep(input, st1);
    ScanStep(input, st1);
  }

  /** `t{{u` with no `}` in `u`: "Unclosed tag" at the offset of the marker. */
  lemma UnclosedTagAt(t: string, u: string)
    requires '{' !in t && '}' !in u
    ensures Parse(t + "{{" + u, Braces) == Failed(UnclosedTag(|t|))
  {
    UnclosedTagIn(t + "{{" + u, t, u);
  }

  /** A `{{=…}}` directive the delimiter syntax rejects fails the pass at the tag. */
  lemma InvalidDelimiterIn(input: string, t: string, b: string, post: string)
    requires '{' !in t && '}' !in b && b != [] && b[0] == '=' && Trim(b) == b
    requires ParseSetDelimiter(b) == None && input == t + "{{" + b + "}}" + post
    ensures Parse(input, Braces) == Failed(InvalidSetDelimiter(|t|))
  {
    assert input[..|t|] == t;
    LeadingText(input, t, Braces);
    var st1 := State(|t|, Braces, t, [], []);
    BracesTagAt(input, st1, t, b, post);
    var base := Flush(st1).(pos := |t| + 4 + |b|);
    TagStepPlain(input, st1, b, base);
    ScanStep(input, st1);
  }

  /** `t{{b}}…` for a malformed directive `b`: "Invalid set delimiter tag" at the tag. */
  lemma InvalidDelimiterAt(t: string, b: string, post: string)
    requires '{' !in t && '}' !in b && b != [] && b[0] == '=' && Trim(b) == b
    requires ParseSetDelimiter(b) == None
    ensures Parse(t + "{{" + b + "}}" + post, Braces) == Failed(InvalidSetDelimiter(|t|))
  {
    InvalidDelimiterIn(t + "{{" + b + "}}" + post, t, b, post);
  }

  // ---------------------------------------------------------------------
  // Nested sections

  /** An open tag read by the pass, as a step of the scan. */
  lemma OpenScan(input: string, st: State, sigil: char, b: string, n: string, base: State)
    requires Good(input, st) && st.pos < |input| && Opener(sigil) && TagName(n) && b == [sigil] + n
    requires TagHere(input, st, b) && !IsTriple(input, st)
    requires base == Flush(st).(pos := st.pos + |st.delims.open| + |b| + |st.delims.close|)
    ensures var next := base.(open := base.open + [OpenSection(n, sigil == '^', st.pos, base.pos, base.delims, [])]);
      Good(input, next) && Scan(input, st) == Scan(input, next)
  {
    OpenStep(input, st, sigil, b, n, base);
    ScanStep(input, st);
  }

  /** An open tag followed by literal text: the section is pushed and the
      text is collected as its first pending run. */
  lemma OpenThenText(input: string, st: State, sigil: char, b: string, n: string, x: string, base: State, next: State)
    requires Good(input, st) && st.pos < |input| && Opener(sigil) && TagName(n) && b == [sigil] + n
    requires TagHere(input, st, b) && !IsTriple(input, st)
    requires base == Flush(st).(pos := st.pos + |st.delims.open| + |b| + |st.delims.close|)
    requires base.pos + |x| <= |input| && input[base.pos..base.pos + |x|] == x && st.delims.open[0] !in x
    requires next == base.(open := base.open + [OpenSection(n, sigil == '^', st.pos, base.pos, base.delims, [])],
                           pos := base.pos + |x|, pending := x)
    ensures Good(input, next) && Scan(input, st) == Scan(input, next)
  {
    var st2 := base.(open := base.open + [OpenSection(n, sigil == '^', st.pos, base.pos, base.delims, [])]);
    assert Good(input, st2) && Scan(input, st) == Scan(input, st2) by {
      OpenScan(input, st, sigil, b, n, base);
    }
    assert next == st2.(pos := st2.pos + |x|, pending := st2.pending + x) by {
      assert st2.pending + x == x;
    }
    LitStep(input, st2, x);
  }

  /** A close tag pops the innermost section into the one below it; the
      outermost section and the top level stay as they were. */
  lemma CloseKeepsBottom(input: string, base: State, start: nat, name: string)
    requires base.pos <= |input| && start < base.pos && |base.open| >= 2
    requires forall i :: 0 <= i < |base.open| ==> base.open[i].bodyStart <= start
    ensures var r := CloseSection(input, base, start, name);
      r.root == base.root && r.open != [] && r.open[0].name == base.open[0].name && r.open[0].pos == base.open[0].pos
  {
  }

  /** `{{#a}}x{{#b}}y` at the end of the input: the outer section is reported,
      at offset 0. */
  lemma NestedUnclosedIn(input: string, ba: string, a: string, x: string, bb: string, b: string, y: string)
    requires TagName(a) && TagName(b) && ba == ['#'] + a && bb == ['#'] + b && '{' !in x && '{' !in y
    requires input == ("{{" + ba + "}}" + x) + ("{{" + bb + "}}" + y)
    ensures Parse(input, Braces) == Failed(UnclosedSection(a, 0))
  {
    assert input == "{{" + ba + "}}" + x + "{{" + bb + "}}" + y + [];
    var st1 := NestedPrefix(input, ba, a, x, bb, b, y, []);
    assert st1.pos == |input|;
    BottomUnclosed(st1);
  }

  /** `{{#a}}x{{#b}}y{{/c}}`: the close tag ends the inner section whatever
      `c` is, and the outer one is left unclosed, at offset 0. */
  lemma NestedClosedOnceIn(input: string, ba: string, a: string, x: string, bb: string, b: string, y: string,
                           bc: string, c: string)
    requires TagName(a) && TagName(b) && TagName(c) && ba == ['#'] + a && bb == ['#'] + b && bc == ['/'] + c
    requires '{' !in x && '{' !in y
    requires input == ("{{" + ba + "}}" + x) + ("{{" + bb + "}}" + y) + ("{{" + bc + "}}")
    ensures Parse(input, Braces) == Failed(UnclosedSection(a, 0))
  {
    var pre := "{{" + ba + "}}" + x + "{{" + bb + "}}" + y;
    assert ("{{" + ba + "}}" + x) + ("{{" + bb + "}}" + y) == pre;
    var st2 := NestedPrefix(input, ba, a, x, bb, b, y, "{{" + bc + "}}");
    CloseInnerAtEnd(input, pre, bc, c, st2);
  }

  /** A close tag that ends the input, read with two sections open and no
      section finished at the top level: the outer one is reported. */
  lemma CloseInnerAtEnd(input: string, pre: string, bc: string, c: string, st: State)
    requires TagName(c) && bc == ['/'] + c && input == pre + ("{{" + bc + "}}")
    requires Good(input, st) && st.pos == |pre| && st.delims == Braces && st.root == [] && |st.open| == 2
    ensures Scan(input, st) == Failed(UnclosedSection(st.open[0].name, st.open[0].pos))
  {
    var f := Flush(st).(pos := |input|);
    CloseAtEnd(input, pre, bc, c, st, f);
    assert f.root == [] && f.open[0] == st.open[0] && |f.open| == 2;
    assert f.pos <= |input| && st.pos < f.pos;
    assert forall i :: 0 <= i < |f.open| ==> f.open[i].bodyStart <= st.pos;
    CloseKeepsBottom(input, f, st.pos, c);
    var r := CloseSection(input, f, st.pos, c);
    assert r.open != [] && r.root == [];
    BottomUnclosed(r);
  }

  /** The close tag that ends the input, as a step of the scan. */
  lemma CloseAtEnd(input: string, pre: string, bc: string, c: string, st: State, f: State)
    requires TagName(c) && bc == ['/'] + c && input == pre + ("{{" + bc + "}}")
    requires Good(input, st) && st.pos == |pre| && st.delims == Braces && st.open != []
    requires f == Flush(st).(pos := |input|)
    ensures Scan(input, st) == Scan(input, CloseSection(input, f, st.pos, c))
  {
    assert input == pre + "{{" + bc + "}}" + [];
    BracesTagAt(input, st, pre, bc, []);
    CloseStep(input, st, bc, c, |input|);
    ScanStep(input, st);
  }

  /** The pass over `{{#a}}x{{#b}}y`, followed by anything: two sections open,
      the outer one `a` at offset 0, nothing finished at the top level. */
  lemma NestedPrefix(input: string, ba: string, a: string, x: string, bb: string, b: string, y: string,
                     rest: string) returns (st: State)
    requires TagName(a) && TagName(b) && ba == ['#'] + a && bb == ['#'] + b && '{' !in x && '{' !in y
    requires input == "{{" + ba + "}}" + x + "{{" + bb + "}}" + y + rest
    ensures Good(input, st) && Parse(input, Braces) == Scan(input, st)
    ensures st.pos == |input| - |rest| && st.delims == Braces && st.root == []
    ensures |st.open| == 2 && st.open[0].name == a && st.open[0].pos == 0
  {
    assert input == "{{" + ba + "}}" + x + "{{" + (bb + "}}" + y + rest);
    var st1 := OuterOpen(input, ba, a, x, bb + "}}" + y + rest);
    var pre := "{{" + ba + "}}" + x;
    st := InnerOpen(input, pre, bb, b, y, rest, st1);
  }

  /** An open tag at the pass's position, with one section already open,
      followed by text free of markers: a second section is pushed above it. */
  lemma InnerOpen(input: string, pre: string, bb: string, b: string, y: string, rest: string,
                  st1: State) returns (st: State)
    requires TagName(b) && bb == ['#'] + b && '{' !in y
    requires input == pre + "{{" + bb + "}}" + y + rest
    requires Good(input, st1) && st1.pos == |pre| && st1.delims == Braces && |st1.open| == 1
    ensures Good(input, st) && Scan(input, st1) == Scan(input, st)
    ensures st.pos == |pre| + |bb| + 4 + |y| && st.delims == Braces && st.root == st1.root
    ensures |st.open| == 2 && st.open[0].name == st1.open[0].name && st.open[0].pos == st1.open[0].pos
  {
    var base := Flush(st1).(pos := |pre| + |bb| + 4);
    st := base.(open := base.open + [OpenSection(b, false, |pre|, base.pos, Braces, [])],
                pos := base.pos + |y|, pending := y);
    assert Good(input, st) && Scan(input, st1) == Scan(input, st) by {
      assert input == pre + "{{" + bb + "}}" + (y + rest);
      BracesTagAt(input, st1, pre, bb, y + rest);
      assert input[base.pos..base.pos + |y|] == y;
      OpenThenText(input, st1, '#', bb, b, y, base, st);
    }
    FlushSingle(st1);
  }

  /** Flushing with one section open changes only that section's children. */
  lemma FlushSingle(st: State)
    requires |st.open| == 1
    ensures Flush(st).root == st.root
    ensures Flush(st).open[0].name == st.open[0].name && Flush(st).open[0].pos == st.open[0].pos
  {
  }

  /** The pass over `{{#a}}x`, followed by an open marker. */
  lemma OuterOpen(input: string, ba: string, a: string, x: string, rest: string) returns (st: State)
    requires TagName(a) && ba == ['#'] + a && '{' !in x
    requires input == "{{" + ba + "}}" + x + "{{" + rest
    ensures Good(input, st) && Parse(input, Braces) == Scan(input, st)
    ensures st == State(|ba| + 4 + |x|, Braces, x, [], [OpenSection(a, false, 0, |ba| + 4, Braces, [])])
  {
    var st0 := Initial(Braces);
    var p1 := |ba| + 4;
    var base := State(p1, Braces, [], [], []);
    var os := [OpenSection(a, false, 0, p1, Braces, [])];
    st := State(p1 + |x|, Braces, x, [], os);
    assert Good(input, st) && Scan(input, st0) == Scan(input, st) by {
      assert input == [] + "{{" + ba + "}}" + (x + "{{" + rest);
      BracesTagAt(input, st0, [], ba, x + "{{" + rest);
      assert input[p1..p1 + |x|] == x;
      assert base == Flush(st0).(pos := p1);
      OpenThenText(input, st0, '#', ba, a, x, base, st);
      assert base.open + os == os;
    }
  }
}
