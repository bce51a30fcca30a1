/** The vocabulary of a compiled template: delimiter pairs, tags, parse-tree
    nodes and the four structural errors with their exact message texts. */
module Syntax {
  import opened Text

  /** The open and close markers of a tag. */
  datatype Delimiters = Delimiters(open: string, close: string)

  /** The marker state is always a pair of non-empty tokens. */
  predicate NonEmpty(d: Delimiters) {
    |d.open| > 0 && |d.close| > 0
  }

  type Delims = d: Delimiters | NonEmpty(d) witness Delimiters("{{", "}}")

  /** The default delimiters. */
  const Braces: Delims := Delimiters("{{", "}}")

  /** A custom delimiter may not contain whitespace or `=`. */
  predicate DelimiterToken(t: string) {
    forall i :: 0 <= i < |t| ==> t[i] != '=' && !IsSpace(t[i])
  }

  /** One element of the parse tree. A section keeps the exact raw text between
      its open and close tags (`body`, handed to lambdas), the delimiters that
      were active at its open tag, the offset of that tag, and whether the close
      tag that ended it carried the same name. */
  datatype Node =
    | Text(text: string)
    | Variable(name: string, escaped: bool)
    | Section(name: string, inverted: bool, children: seq<Node>, body: string,
              delims: Delims, pos: nat, closed: bool)
    | PartialRef(name: string)
    | Comment
    | SetDelimiter(delims: Delims)

  /** What a tag's trimmed contents say, before sections are matched up. */
  datatype Tag =
    | VariableTag(name: string, escaped: bool)
    | OpenTag(name: string, inverted: bool)
    | CloseTag(name: string)
    | PartialTag(name: string)
    | CommentTag

  /** A structural error, anchored at a zero-based offset of the parsed text. */
  datatype ParseError =
    | UnclosedTag(pos: nat)
    | UnclosedSection(name: string, pos: nat)
    | UnopenedSection(name: string, pos: nat)
    | InvalidSetDelimiter(pos: nat)

  /** The error message as the template reports it. */
  function Message(e: ParseError): (m: string)
    ensures |m| > 0
  {
    match e
    case UnclosedTag(p) => "Unclosed tag at " + NatToString(p)
    case UnclosedSection(n, p) => "Unclosed section \"" + n + "\" at " + NatToString(p)
    case UnopenedSection(n, p) => "Unopened section \"" + n + "\" at " + NatToString(p)
    case InvalidSetDelimiter(p) => "Invalid set delimiter tag at " + NatToString(p)
  }

  /** The render-time error for a lambda with a render argument used as a variable. */
  const Lambda2VariableMessage := "Lambda with render argument is not allowed for regular variables"

  /** Classifies a tag by the first character of its trimmed contents; every
      kind but a plain variable drops that character and trims again. A triple
      mustache is an unescaped variable whatever its contents. */
  function Classify(triple: bool, contents: string): (t: Tag)
    ensures triple ==> t == VariableTag(contents, false)
    ensures !triple && contents == [] ==> t == VariableTag([], true)
    ensures !triple && contents != [] && contents[0] !in "#^/>&!" ==> t == VariableTag(contents, true)
  {
    if triple then VariableTag(contents, false)
    else if contents == [] then VariableTag([], true)
    else
      var rest := Trim(contents[1..]);
      match contents[0]
      case '#' => OpenTag(rest, false)
      case '^' => OpenTag(rest, true)
      case '/' => CloseTag(rest)
      case '>' => PartialTag(rest)
      case '&' => VariableTag(rest, false)
      case '!' => CommentTag
      case _ => VariableTag(contents, true)
  }

  /** Reads the contents of a `{{=open close=}}` directive (already trimmed and
      starting with `=`): at least five characters, ending with `=`; between
      the two `=` the trimmed text is split at its first space and the second
      token starts at the next non-space; neither token may contain whitespace
      or `=`. */
  function ParseSetDelimiter(contents: string): (r: Option<Delims>)
    ensures r.Some? ==> DelimiterToken(r.value.open) && DelimiterToken(r.value.close)
  {
    if |contents| < 5 || contents[|contents| - 1] != '=' then None
    else SplitDirective(Trim(contents[1..|contents| - 1]))
  }

  /** Splits the trimmed middle of a directive into its two tokens. */
  function SplitDirective(inner: string): (r: Option<Delims>)
    requires inner == [] || !IsSpace(inner[0])
    ensures r.Some? ==> DelimiterToken(r.value.open) && DelimiterToken(r.value.close)
  {
    match IndexOf(inner, ' ')
    case None => None
    case Some(sp) =>
      match IndexNotOf(inner, ' ', sp + 1)
      case None => None
      case Some(ns) =>
        var open := inner[..sp];
        var close := inner[ns..];
        if DelimiterToken(open) && DelimiterToken(close) then
          Some(Delimiters(open, close))
        else None
  }

  /** A directive written as two space-free-edged tokens with spaces between
      them, and any spaces just inside its two `=`, is accepted exactly when
      both tokens are valid delimiter tokens, and then it yields those
      tokens: the directive syntax loses nothing. */
  lemma DirectiveOfTokens(open: string, close: string, gap: nat, a: nat, b: nat)
    requires Edges(open, close)
    ensures ParseSetDelimiter("=" + Spaces(a) + open + Spaces(gap + 1) + close + Spaces(b) + "=")
            == if DelimiterToken(open) && DelimiterToken(close) then Some(Delimiters(open, close)) else None
  {
    var mid := open + (Spaces(gap + 1) + close);
    var padded := Spaces(a) + mid + Spaces(b);
    assert "=" + Spaces(a) + open + Spaces(gap + 1) + close + Spaces(b) + "=" == "=" + padded + "=";
    DirectiveFrame(padded);
    assert Trim(padded) == mid by {
      assert mid[0] == open[0] && mid[|mid| - 1] == close[|close| - 1];
      TrimPadded(a, mid, b);
    }
    MiddleSplits(open, close, gap);
  }

  /** Blanks added around text with non-blank ends are what trimming removes. */
  lemma TrimPadded(a: nat, s: string, b: nat)
    requires s != [] && !IsSpace(s[0]) && !IsSpace(s[|s| - 1])
    ensures Trim(Spaces(a) + s + Spaces(b)) == s
  {
    TrimBetween(Spaces(a), s, Spaces(b));
  }

  /** Spaces on both sides of a word not blank at either end are trimmed away. */
  lemma TrimBetween(p: string, s: string, q: string)
    requires forall i :: 0 <= i < |p| ==> p[i] == ' '
    requires forall i :: 0 <= i < |q| ==> q[i] == ' '
    requires s != [] && !IsSpace(s[0]) && !IsSpace(s[|s| - 1])
    ensures Trim(p + s + q) == s
  {
    var y := s + q;
    assert p + s + q == p + y;
    assert y != [] && y[0] == s[0];
    TrimLeftBlank(p, y);
    TrimRightBlank(s, q);
  }

  /** The body of `{{ & n }}` is the padded `&n`, and it has no `}`. */
  lemma AmpersandPieces(b: string, a: nat, k: nat, c: nat, n: string)
    requires n != [] && '}' !in n && b == Spaces(a) + "&" + Spaces(k) + n + Spaces(c)
    ensures b == Spaces(a) + (['&'] + (Spaces(k) + n)) + Spaces(c)
    ensures '}' !in b && b != [] && b[0] != '{'
  {
    PaddedAmpersand(b, Spaces(a), "&", Spaces(k), n, Spaces(c));
  }

  lemma PaddedAmpersand(b: string, sa: string, amp: string, sk: string, n: string, sc: string)
    requires n != [] && '}' !in n && b == sa + amp + sk + n + sc && amp == ['&']
    requires forall i :: 0 <= i < |sa| ==> sa[i] == ' '
    requires forall i :: 0 <= i < |sk| ==> sk[i] == ' '
    requires forall i :: 0 <= i < |sc| ==> sc[i] == ' '
    ensures b == sa + (amp + (sk + n)) + sc
    ensures '}' !in b && b != [] && b[0] != '{'
  {
    assert '}' !in sa && '}' !in sk && '}' !in sc;
    assert b[0] == if sa == [] then '&' else ' ';
  }

  /** The padded `&n` trims to `&`, spaces and the name, and those spaces trim away. */
  lemma AmpersandTrim(b: string, a: nat, k: nat, c: nat, n: string)
    requires n != [] && !IsSpace(n[0]) && !IsSpace(n[|n| - 1]) && '}' !in n
    requires b == Spaces(a) + "&" + Spaces(k) + n + Spaces(c)
    ensures Trim(b) == ['&'] + (Spaces(k) + n) && Trim(Spaces(k) + n) == n
  {
    var rest := Spaces(k) + n;
    assert Trim(rest) == n by { TrimAfterSpaces(k, n); }
    assert b == Spaces(a) + (['&'] + rest) + Spaces(c) by { AmpersandPieces(b, a, k, c, n); }
    TrimPadded(a, ['&'] + rest, c);
  }

  /** `&` and then what trims to a name: an unescaped variable of that name. */
  lemma AmpersandClassify(contents: string, n: string)
    requires contents != [] && contents[0] == '&' && Trim(contents[1..]) == n
    ensures Classify(false, contents) == VariableTag(n, false)
  {
    AmpersandRest(contents);
  }

  lemma AmpersandRest(contents: string)
    requires contents != [] && contents[0] == '&'
    ensures Classify(false, contents) == VariableTag(Trim(contents[1..]), false)
  {
    assert contents[0] != '#' && contents[0] != '^' && contents[0] != '/' && contents[0] != '>';
  }

  /** Spaces before a word that is not blank at either end are trimmed away. */
  lemma TrimAfterSpaces(k: nat, s: string)
    requires s != [] && !IsSpace(s[0]) && !IsSpace(s[|s| - 1])
    ensures Trim(Spaces(k) + s) == s
  {
    TrimLeftPadded(k, s);
    TrimNonBlank(s);
    assert TrimLeft(s) == s;
  }

  lemma TrimLeftPadded(a: nat, s: string)
    requires s != [] && !IsSpace(s[0])
    ensures TrimLeft(Spaces(a) + s) == s
  {
    TrimLeftBlank(Spaces(a), s);
  }

  /** Leading spaces are all that `TrimLeft` removes. */
  lemma {:induction false} TrimLeftBlank(p: string, s: string)
    requires forall i :: 0 <= i < |p| ==> p[i] == ' '
    requires s != [] && !IsSpace(s[0])
    ensures TrimLeft(p + s) == s
    decreases |p|
  {
    if p == [] {
      assert p + s == s;
    } else {
      var q := p[1..];
      assert p + s == [p[0]] + (q + s);
      assert (p + s)[0] == ' ' && (p + s)[1..] == q + s;
      TrimLeftBlank(q, s);
    }
  }

  lemma TrimRightPadded(s: string, b: nat)
    requires s != [] && !IsSpace(s[|s| - 1])
    ensures TrimRight(s + Spaces(b)) == s
  {
    TrimRightBlank(s, Spaces(b));
  }

  /** Trailing spaces are all that `TrimRight` removes. */
  lemma {:induction false} TrimRightBlank(s: string, p: string)
    requires forall i :: 0 <= i < |p| ==> p[i] == ' '
    requires s != [] && !IsSpace(s[|s| - 1])
    ensures TrimRight(s + p) == s
    decreases |p|
  {
    if p == [] {
      assert s + p == s;
    } else {
      var q := p[..|p| - 1];
      assert s + p == (s + q) + [p[|p| - 1]];
      assert (s + p)[|s + p| - 1] == ' ' && (s + p)[..|s + p| - 1] == s + q;
      TrimRightBlank(s, q);
    }
  }

  /** A directive with no space at all between its `=` has no second token. */
  lemma NoSeparator(c: string)
    requires |c| >= 5 && ' ' !in c && !IsSpace(c[1]) && !IsSpace(c[|c| - 2])
    ensures ParseSetDelimiter(c) == None
  {
    var mid := c[1..|c| - 1];
    assert mid[0] == c[1] && mid[|mid| - 1] == c[|c| - 2];
    TrimNonBlank(mid);
    assert ' ' !in mid by {
      forall i | 0 <= i < |mid| ensures mid[i] != ' ' {
        assert mid[i] == c[i + 1];
      }
    }
    assert IndexOf(mid, ' ') == None;
  }

  /** Writing a directive from two valid tokens and reading it back gives the tokens. */
  lemma SetDelimiterRoundTrip(open: string, close: string, gap: nat, a: nat, b: nat)
    requires |open| > 0 && |close| > 0
    requires DelimiterToken(open) && DelimiterToken(close)
    ensures ParseSetDelimiter("=" + Spaces(a) + open + Spaces(gap + 1) + close + Spaces(b) + "=")
            == Some(Delimiters(open, close))
  {
    assert ' ' !in open by {
      forall i | 0 <= i < |open| ensures open[i] != ' ' {
        assert !IsSpace(open[i]);
      }
    }
    DirectiveOfTokens(open, close, gap, a, b);
  }

  /** The shape of the two tokens of a directive: neither empty, the open one
      free of spaces, and no whitespace at the outer edges or where the close
      one starts. */
  predicate Edges(open: string, close: string) {
    && |open| > 0 && |close| > 0 && ' ' !in open
    && !IsSpace(open[0]) && !IsSpace(close[0]) && !IsSpace(close[|close| - 1])
  }

  /** A directive is read by what stands between its two `=`. */
  lemma DirectiveFrame(mid: string)
    requires |mid| >= 3
    ensures ParseSetDelimiter("=" + mid + "=") == SplitDirective(Trim(mid))
  {
    var c := "=" + mid + "=";
    assert c[1..|c| - 1] == mid;
  }

  lemma MiddleSplits(open: string, close: string, gap: nat)
    requires Edges(open, close)
    ensures var mid := open + (Spaces(gap + 1) + close);
      !IsSpace(mid[0]) && SplitDirective(mid)
        == if DelimiterToken(open) && DelimiterToken(close) then Some(Delimiters(open, close)) else None
  {
    var mid := open + (Spaces(gap + 1) + close);
    var sp, ns := |open|, |open| + gap + 1;
    assert mid[0] == open[0];
    MiddleFirstSpace(open, close, gap, mid);
    MiddleSecondToken(open, close, gap, mid);
    PartsOf(open, Spaces(gap + 1), close);
    assert sp <= ns <= |mid| && mid[..sp] == open && mid[ns..] == close;
    SplitDirectiveAt(mid, sp, ns, open, close);
  }

  lemma PartsOf(a: string, b: string, c: string)
    ensures (a + (b + c))[..|a|] == a && (a + (b + c))[|a| + |b|..] == c
  {
  }

  /** The two tokens are cut at the first space and the next non-space after it. */
  lemma SplitDirectiveAt(inner: string, sp: nat, ns: nat, open: string, close: string)
    requires inner == [] || !IsSpace(inner[0])
    requires IndexOf(inner, ' ') == Some(sp) && IndexNotOf(inner, ' ', sp + 1) == Some(ns)
    requires sp <= ns <= |inner| && inner[..sp] == open && inner[ns..] == close
    ensures SplitDirective(inner)
      == if DelimiterToken(open) && DelimiterToken(close) then Some(Delimiters(open, close)) else None
  {
  }

  /** The text between the two `=` of such a directive is already trimmed. */
  lemma MiddleTrimmed(open: string, close: string, gap: nat)
    requires Edges(open, close)
    ensures var mid := open + (Spaces(gap + 1) + close); Trim(mid) == mid
  {
    var mid := open + (Spaces(gap + 1) + close);
    assert mid[0] == open[0] && mid[|mid| - 1] == close[|close| - 1];
    TrimNonBlank(mid);
  }

  /** Its first space ends the open token. */
  lemma MiddleFirstSpace(open: string, close: string, gap: nat, mid: string)
    requires Edges(open, close) && mid == open + (Spaces(gap + 1) + close)
    ensures IndexOf(mid, ' ') == Some(|open|)
  {
    IndexOfAfter(open, Spaces(gap + 1) + close, ' ');
  }

  /** The first non-space after it starts the close token. */
  lemma MiddleSecondToken(open: string, close: string, gap: nat, mid: string)
    requires Edges(open, close) && mid == open + (Spaces(gap + 1) + close)
    ensures IndexNotOf(mid, ' ', |open| + 1) == Some(|open| + gap + 1)
  {
    var sp := Spaces(gap + 1);
    var tail := sp + close;
    assert mid[|open| + gap + 1] == close[0];
    forall k | |open| + 1 <= k < |open| + gap + 1 ensures mid[k] == ' ' {
      assert mid[k] == tail[k - |open|];
      assert tail[k - |open|] == sp[k - |open|];
    }
    IndexNotOfSkips(mid, ' ', |open| + 1, |open| + gap + 1);
  }

  function Spaces(n: nat): (r: string)
    ensures |r| == n && forall i :: 0 <= i < n ==> r[i] == ' '
  {
    if n == 0 then [] else [' '] + Spaces(n - 1)
  }

  lemma {:induction false} IndexOfAfter(p: string, q: string, c: char)
    requires c !in p && q != [] && q[0] == c
    ensures IndexOf(p + q, c) == Some(|p|)
  {
    if p != [] {
      assert (p + q)[1..] == p[1..] + q;
      IndexOfAfter(p[1..], q, c);
    } else {
      assert p + q == q;
    }
  }

  lemma {:induction false} IndexNotOfSkips(s: string, c: char, from: nat, at: nat)
    requires from <= at < |s| && s[at] != c
    requires forall k :: from <= k < at ==> s[k] == c
    decreases at - from
    ensures IndexNotOf(s, c, from) == Some(at)
  {
    if from < at {
      IndexNotOfSkips(s, c, from + 1, at);
    }
  }
}
