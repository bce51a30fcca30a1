/** The pass followed one piece at a time from any state, under whatever
    delimiters are in force, with the input still to read given as its
    pieces. This is how the text after a set-delimiter tag is read, and the
    text a section lambda returns under its section's delimiters, and a
    template with more than one section. */
module MarkerFacts {
  import opened Text
  import opened Syntax
  import opened Parser
  import opened ParseFacts

  /** A state with no section open and nothing pending. */
  predicate Settled(input: string, st: State) {
    Good(input, st) && st.open == [] && st.pending == []
  }

  /** A tag in the delimiters in force, with contents `body`, comes next. With
      the default delimiters its contents must not start with a third `{`. */
  lemma TagAhead(input: string, st: State, body: string, rest: string)
    requires st.pos <= |input| && input[st.pos..] == st.delims.open + body + st.delims.close + rest
    requires st.delims.close[0] !in body && (st.delims == Braces ==> body != [] && body[0] != '{')
    ensures st.pos < |input| && TagHere(input, st, body) && !IsTriple(input, st)
    ensures input[st.pos + |st.delims.open| + |body| + |st.delims.close|..] == rest
  {
    var o, c := st.delims.open, st.delims.close;
    var from := st.pos + |o|;
    Ahead(input, st.pos, [], o, body + c + rest);
    Ahead(input, st.pos, o, body, c + rest);
    Ahead(input, st.pos, o + body, c, rest);
    if st.delims == Braces {
      assert input[from..from + |body|][0] == body[0];
    }
  }

  /** The piece `m` of what is left to read, after `a`. */
  lemma Ahead(input: string, p: nat, a: string, m: string, z: string)
    requires p <= |input| && input[p..] == a + m + z
    ensures p + |a| + |m| <= |input| && input[p + |a|..p + |a| + |m|] == m && input[p + |a| + |m|..] == z
  {
    assert input[p..][|a|..|a| + |m|] == m;
    assert input[p..][|a| + |m|..] == z;
  }

  /** Text without markers comes next: it joins the pending run. */
  lemma TextAhead(input: string, st: State, x: string, rest: string, st2: State)
    requires Good(input, st) && input[st.pos..] == x + rest && st.delims.open[0] !in x
    requires st2 == st.(pos := st.pos + |x|, pending := st.pending + x)
    ensures Good(input, st2) && Scan(input, st) == Scan(input, st2) && input[st2.pos..] == rest
  {
    var s := input[st.pos..];
    assert input[st.pos..st.pos + |x|] == s[..|x|] == x;
    assert input[st2.pos..] == s[|x|..] == rest;
    LitStep(input, st, x);
  }

  /** An escaped variable tag comes next, with no section open. */
  lemma VariableAhead(input: string, st: State, n: string, rest: string, st2: State)
    requires Good(input, st) && st.open == [] && TagName(n) && n[0] !in "#^/>&!="
    requires input[st.pos..] == st.delims.open + n + st.delims.close + rest && st.delims.close[0] !in n
    requires st2 == State(st.pos + |st.delims.open| + |n| + |st.delims.close|, st.delims, [],
                          st.root + Texts(st.pending) + [Variable(n, true)], [])
    ensures Settled(input, st2) && Scan(input, st) == Scan(input, st2) && input[st2.pos..] == rest
  {
    var base := State(st2.pos, st.delims, [], st.root + Texts(st.pending), []);
    assert st.pos < |input| && TagHere(input, st, n) && !IsTriple(input, st) && input[st2.pos..] == rest by {
      TagAhead(input, st, n, rest);
    }
    assert Flush(st).(pos := st2.pos) == base by {
      FlatFlush(st, st2.pos);
    }
    assert Step(input, st) == Next(st2) by {
      VariableStep(input, st, n, st2.pos);
      assert Attach(base, Variable(n, true)) == st2;
    }
    assert Scan(input, st) == Scan(input, st2) by {
      ScanStep(input, st);
    }
  }

  /** An `&` tag comes next, with no section open. */
  lemma AmpersandAhead(input: string, st: State, b: string, n: string, rest: string, st2: State)
    requires Good(input, st) && st.open == [] && TagName(n) && b == "&" + n
    requires input[st.pos..] == st.delims.open + b + st.delims.close + rest && st.delims.close[0] !in b
    requires st2 == State(st.pos + |st.delims.open| + |b| + |st.delims.close|, st.delims, [],
                          st.root + Texts(st.pending) + [Variable(n, false)], [])
    ensures Settled(input, st2) && Scan(input, st) == Scan(input, st2) && input[st2.pos..] == rest
  {
    var base := State(st2.pos, st.delims, [], st.root + Texts(st.pending), []);
    assert st.pos < |input| && TagHere(input, st, b) && !IsTriple(input, st) && input[st2.pos..] == rest by {
      TagAhead(input, st, b, rest);
    }
    assert Flush(st).(pos := st2.pos) == base by {
      FlatFlush(st, st2.pos);
    }
    assert Step(input, st) == Next(st2) by {
      UnpaddedAmpersand(b, n);
      AmpersandStep(input, st, b, 0, 0, 0, n, base);
      assert Attach(base, Variable(n, false)) == st2;
    }
    assert Scan(input, st) == Scan(input, st2) by {
      ScanStep(input, st);
    }
  }

  /** An unescaped variable, then text to the end of the input. */
  lemma AmpersandToEnd(input: string, st: State, n: string, u: string)
    requires Good(input, st) && st.open == [] && TagName(n) && st.delims.close[0] !in "&" + n
    requires input[st.pos..] == st.delims.open + ("&" + n) + st.delims.close + u && st.delims.open[0] !in u
    requires forall i :: 0 <= i < |st.root| ==> !st.root[i].Section?
    ensures Scan(input, st) == Parsed(st.root + Texts(st.pending) + [Variable(n, false)] + Texts(u))
  {
    var b := "&" + n;
    var st2 := State(st.pos + |st.delims.open| + |b| + |st.delims.close|, st.delims, [],
                     st.root + Texts(st.pending) + [Variable(n, false)], []);
    assert Settled(input, st2) && Scan(input, st) == Scan(input, st2) && input[st2.pos..] == u by {
      AmpersandAhead(input, st, b, n, u, st2);
    }
    assert forall i :: 0 <= i < |st2.root| ==> !st2.root[i].Section?;
    TextToEnd(input, st2, u);
  }

  /** An `&` tag with no spaces in it. */
  lemma UnpaddedAmpersand(b: string, n: string)
    requires b == "&" + n
    ensures b == Spaces(0) + "&" + Spaces(0) + n + Spaces(0)
  {
    assert Spaces(0) == [];
  }

  /** A section opens, with no other section open, and text without markers
      follows the open tag. */
  lemma OpenAhead(input: string, st: State, sigil: char, bo: string, n: string, x: string, rest: string, st2: State)
    requires Good(input, st) && st.open == [] && Opener(sigil) && TagName(n) && bo == [sigil] + n
    requires input[st.pos..] == st.delims.open + bo + st.delims.close + x + rest && st.delims.close[0] !in bo
    requires st.delims.open[0] !in x
    requires var p1 := st.pos + |st.delims.open| + |bo| + |st.delims.close|;
      st2 == State(p1 + |x|, st.delims, x, st.root + Texts(st.pending),
                   [OpenSection(n, sigil == '^', st.pos, p1, st.delims, [])])
    ensures Good(input, st2) && Scan(input, st) == Scan(input, st2) && input[st2.pos..] == rest
    ensures input[st2.open[0].bodyStart..st2.pos] == x
  {
    OpenTagStep(input, st, sigil, bo, n, x, rest, st2);
    OpenSlices(input, st, sigil, bo, n, x, rest, st2);
  }

  /** Where the body and the rest sit after the open tag. */
  lemma OpenSlices(input: string, st: State, sigil: char, bo: string, n: string, x: string, rest: string, st2: State)
    requires Good(input, st) && st.open == [] && Opener(sigil) && TagName(n) && bo == [sigil] + n
    requires input[st.pos..] == st.delims.open + bo + st.delims.close + x + rest && st.delims.close[0] !in bo
    requires var p1 := st.pos + |st.delims.open| + |bo| + |st.delims.close|;
      st2 == State(p1 + |x|, st.delims, x, st.root + Texts(st.pending),
                   [OpenSection(n, sigil == '^', st.pos, p1, st.delims, [])])
    ensures input[st2.pos..] == rest && input[st2.open[0].bodyStart..st2.pos] == x
  {
    OpenTagAhead(input, st, bo, x, rest);
  }

  /** The scanner state after the open tag and the text behind it. */
  lemma OpenTagStep(input: string, st: State, sigil: char, bo: string, n: string, x: string, rest: string, st2: State)
    requires Good(input, st) && st.open == [] && Opener(sigil) && TagName(n) && bo == [sigil] + n
    requires input[st.pos..] == st.delims.open + bo + st.delims.close + x + rest && st.delims.close[0] !in bo
    requires st.delims.open[0] !in x
    requires var p1 := st.pos + |st.delims.open| + |bo| + |st.delims.close|;
      st2 == State(p1 + |x|, st.delims, x, st.root + Texts(st.pending),
                   [OpenSection(n, sigil == '^', st.pos, p1, st.delims, [])])
    ensures Good(input, st2) && Scan(input, st) == Scan(input, st2)
  {
    var p1 := st.pos + |st.delims.open| + |bo| + |st.delims.close|;
    var base := State(p1, st.delims, [], st.root + Texts(st.pending), []);
    var o := OpenSection(n, sigil == '^', st.pos, p1, st.delims, []);
    assert base.open + [o] == [o];
    assert st2 == base.(open := base.open + [o], pos := base.pos + |x|, pending := x);
    OpenTagAhead(input, st, bo, x, rest);
    FlatFlush(st, p1);
    OpenThenText(input, st, sigil, bo, n, x, base, st2);
  }

  /** An open tag, then text, then the rest. */
  lemma OpenTagAhead(input: string, st: State, bo: string, x: string, rest: string)
    requires st.pos <= |input| && input[st.pos..] == st.delims.open + bo + st.delims.close + x + rest
    requires st.delims.close[0] !in bo && bo != [] && bo[0] != '{'
    ensures var p1 := st.pos + |st.delims.open| + |bo| + |st.delims.close|;
      && st.pos < |input| && TagHere(input, st, bo) && !IsTriple(input, st)
      && p1 + |x| <= |input| && input[p1..p1 + |x|] == x && input[p1 + |x|..] == rest
  {
    var o, c := st.delims.open, st.delims.close;
    Ahead(input, st.pos, o + bo + c, x, rest);
    assert input[st.pos..] == o + bo + c + (x + rest);
    TagAhead(input, st, bo, x + rest);
  }

  /** The close tag of the one open section comes next: the section is closed
      and placed at the top level. */
  lemma CloseAhead(input: string, st: State, bc: string, n: string, rest: string, st2: State)
    requires Good(input, st) && |st.open| == 1 && st.open[0].name == n && TagName(n) && bc == ['/'] + n
    requires input[st.pos..] == st.delims.open + bc + st.delims.close + rest && st.delims.close[0] !in bc
    requires var o := st.open[0];
      st2 == State(st.pos + |st.delims.open| + |bc| + |st.delims.close|, st.delims, [],
                   st.root + [Section(n, o.inverted, o.children + Texts(st.pending), input[o.bodyStart..st.pos],
                                      o.delims, o.pos, true)], [])
    ensures Settled(input, st2) && Scan(input, st) == Scan(input, st2) && input[st2.pos..] == rest
  {
    assert st.pos < |input| && TagHere(input, st, bc) && !IsTriple(input, st) && input[st2.pos..] == rest by {
      TagAhead(input, st, bc, rest);
    }
    var f := Flush(st).(pos := st2.pos);
    assert Step(input, st) == Next(CloseSection(input, f, st.pos, n)) by {
      CloseStep(input, st, bc, n, st2.pos);
    }
    assert CloseSection(input, f, st.pos, n) == st2 by {
      FlushOne(st);
      CloseSectionPlaces(input, f, st.pos, n);
    }
    assert Scan(input, st) == Scan(input, st2) by {
      ScanStep(input, st);
    }
  }

  /** A section holding only text, from its open tag to its close tag. */
  lemma SectionAhead(input: string, st: State, sigil: char, n: string, x: string, rest: string, st3: State)
    requires Good(input, st) && st.open == [] && Opener(sigil) && TagName(n)
    requires st.delims.close[0] !in [sigil] + n && st.delims.close[0] !in ['/'] + n && st.delims.open[0] !in x
    requires input[st.pos..]
          == st.delims.open + [sigil] + n + st.delims.close + x + st.delims.open + ['/'] + n + st.delims.close + rest
    requires st3 == State(st.pos + 2 * (|st.delims.open| + |st.delims.close| + 1 + |n|) + |x|, st.delims, [],
                          st.root + Texts(st.pending) + [Section(n, sigil == '^', Texts(x), x, st.delims, st.pos, true)], [])
    ensures Settled(input, st3) && Scan(input, st) == Scan(input, st3) && input[st3.pos..] == rest
  {
    var o, c := st.delims.open, st.delims.close;
    var tail := o + (['/'] + n) + c + rest;
    assert input[st.pos..] == o + ([sigil] + n) + c + x + tail && tail == o + ['/'] + n + c + rest by {
      SectionPieces(o, sigil, n, c, x, rest);
    }
    OpenThenClose(input, st, sigil, n, x, tail, rest, st3);
  }

  /** The same, with the text after the open tag given as `tail`. */
  lemma OpenThenClose(input: string, st: State, sigil: char, n: string, x: string, tail: string, rest: string, st3: State)
    requires Good(input, st) && st.open == [] && Opener(sigil) && TagName(n)
    requires st.delims.close[0] !in [sigil] + n && st.delims.close[0] !in ['/'] + n && st.delims.open[0] !in x
    requires input[st.pos..] == st.delims.open + ([sigil] + n) + st.delims.close + x + tail
    requires tail == st.delims.open + ['/'] + n + st.delims.close + rest
    requires st3 == State(st.pos + 2 * (|st.delims.open| + |st.delims.close| + 1 + |n|) + |x|, st.delims, [],
                          st.root + Texts(st.pending) + [Section(n, sigil == '^', Texts(x), x, st.delims, st.pos, true)], [])
    ensures Settled(input, st3) && Scan(input, st) == Scan(input, st3) && input[st3.pos..] == rest
  {
    var o, c := st.delims.open, st.delims.close;
    var bo := [sigil] + n;
    var p1 := st.pos + |o| + |bo| + |c|;
    var st2 := State(p1 + |x|, st.delims, x, st.root + Texts(st.pending),
                     [OpenSection(n, sigil == '^', st.pos, p1, st.delims, [])]);
    OpenAhead(input, st, sigil, bo, n, x, tail, st2);
    SectionClose(input, st2, st.delims, st.root + Texts(st.pending), n, sigil == '^', x, st.pos, p1, rest, st3);
  }

  /** The close tag of a section opened at the top level over text `x`. */
  lemma SectionClose(input: string, st2: State, d: Delims, root: seq<Node>, n: string, inverted: bool, x: string,
                     p0: nat, p1: nat, rest: string, st3: State)
    requires Good(input, st2) && TagName(n) && d.close[0] !in ['/'] + n
    requires st2 == State(p1 + |x|, d, x, root, [OpenSection(n, inverted, p0, p1, d, [])])
    requires input[st2.pos..] == d.open + ['/'] + n + d.close + rest && input[p1..st2.pos] == x
    requires st3 == State(st2.pos + |d.open| + 1 + |n| + |d.close|, d, [],
                          root + [Section(n, inverted, Texts(x), x, d, p0, true)], [])
    ensures Settled(input, st3) && Scan(input, st2) == Scan(input, st3) && input[st3.pos..] == rest
  {
    var bc := ['/'] + n;
    assert st2.open[0].children + Texts(st2.pending) == Texts(x) && |bc| == 1 + |n|;
    assert input[st2.pos..] == d.open + bc + d.close + rest by {
      assert d.open + ['/'] + n == d.open + bc;
    }
    CloseAhead(input, st2, bc, n, rest, st3);
  }

  /** Nodes whose sections are all closed and hold no section. */
  predicate FlatClosed(nodes: seq<Node>) {
    forall i :: 0 <= i < |nodes| ==> nodes[i].Section? ==>
      nodes[i].closed && forall j :: 0 <= j < |nodes[i].children| ==> !nodes[i].children[j].Section?
  }

  /** Such nodes leave no section unclosed. */
  lemma {:induction false} FlatClosedNone(nodes: seq<Node>)
    requires FlatClosed(nodes)
    ensures FirstUnclosed(nodes) == None
  {
    if nodes != [] {
      assert FlatClosed(nodes[1..]);
      FlatClosedNone(nodes[1..]);
      if nodes[0].Section? {
        NoSectionsNoneUnclosed(nodes[0].children);
      }
    }
  }

  /** A section around text, then text to the end of the input, after
      top-level nodes without sections. */
  lemma SectionToEnd(input: string, st: State, sigil: char, n: string, x: string, u: string)
    requires Good(input, st) && st.open == [] && Opener(sigil) && TagName(n)
    requires st.delims.close[0] !in [sigil] + n && st.delims.close[0] !in ['/'] + n
    requires st.delims.open[0] !in x && st.delims.open[0] !in u
    requires input[st.pos..]
          == st.delims.open + [sigil] + n + st.delims.close + x + st.delims.open + ['/'] + n + st.delims.close + u
    requires FlatClosed(st.root)
    ensures Scan(input, st)
         == Parsed(st.root + Texts(st.pending) + [Section(n, sigil == '^', Texts(x), x, st.delims, st.pos, true)] + Texts(u))
  {
    var sec := Section(n, sigil == '^', Texts(x), x, st.delims, st.pos, true);
    var pre := st.root + Texts(st.pending);
    var st3 := State(st.pos + 2 * (|st.delims.open| + |st.delims.close| + 1 + |n|) + |x|, st.delims, [], pre + [sec], []);
    SectionAhead(input, st, sigil, n, x, u, st3);
    FlatClosedSection(st.root, st.pending, sec, x, u);
    TextToEndClosed(input, st3, u);
  }

  /** Closed flat nodes, text, one closed section over text, and text leave
      no section unclosed. */
  lemma FlatClosedSection(root: seq<Node>, pending: string, sec: Node, x: string, u: string)
    requires FlatClosed(root) && sec.Section? && sec.closed && sec.children == Texts(x)
    ensures FirstUnclosed(root + Texts(pending) + [sec] + Texts(u)) == None
  {
    assert FlatClosed(root + Texts(pending) + [sec] + Texts(u));
    FlatClosedNone(root + Texts(pending) + [sec] + Texts(u));
  }

  /** A section's two tags cut as they are written, regrouped around its text. */
  lemma SectionPieces(o: string, sigil: char, n: string, c: string, x: string, rest: string)
    ensures o + [sigil] + n + c + x + o + ['/'] + n + c + rest == o + ([sigil] + n) + c + x + (o + (['/'] + n) + c + rest)
  {
  }

  /** Any template of the form `t` open-marker `n` close-marker `u` in the
      delimiters `d` compiles to its text and one escaped variable. */
  lemma VariableUnder(input: string, d: Delims, t: string, n: string, u: string)
    requires d.open[0] !in t && d.open[0] !in u && d.close[0] !in n
    requires TagName(n) && n[0] !in "#^/>&!="
    requires input == t + d.open + n + d.close + u
    ensures Parse(input, d) == Parsed(Texts(t) + [Variable(n, true)] + Texts(u))
  {
    var st2 := State(|t| + |d.open| + |n| + |d.close|, d, [], Texts(t) + [Variable(n, true)], []);
    VariableUnderHead(input, d, t, n, u, st2);
    TextToEnd(input, st2, u);
  }

  /** The state after the variable tag. */
  lemma VariableUnderHead(input: string, d: Delims, t: string, n: string, u: string, st2: State)
    requires d.open[0] !in t && d.close[0] !in n && TagName(n) && n[0] !in "#^/>&!="
    requires input == t + d.open + n + d.close + u
    requires st2 == State(|t| + |d.open| + |n| + |d.close|, d, [], Texts(t) + [Variable(n, true)], [])
    ensures Settled(input, st2) && Parse(input, d) == Scan(input, st2) && input[st2.pos..] == u
  {
    var st1 := State(|t|, d, t, [], []);
    assert input[..|t|] == t && input[|t|..] == d.open + n + d.close + u by {
      Ahead(input, 0, [], t, d.open + n + d.close + u);
    }
    assert Parse(input, d) == Scan(input, st1) by {
      LeadingText(input, t, d);
    }
    assert [] + Texts(t) == Texts(t);
    VariableAhead(input, st1, n, u, st2);
  }
}
