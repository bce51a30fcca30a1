/** Output escaping: the default HTML escape, the backslash escape a caller can
    install in its place, and the choice between them that a template holds. */
module Escape {
  import opened Text

  /** The five characters the HTML escape rewrites. */
  predicate HtmlSpecial(c: char) {
    c == '&' || c == '<' || c == '>' || c == '"' || c == '\''
  }

  /** The entity written for one character, or the character itself. */
  function EscapeChar(c: char): (r: string)
    ensures HtmlSpecial(c) ==> |r| >= 4 && r[0] == '&' && r[|r| - 1] == ';'
    ensures !HtmlSpecial(c) ==> r == [c]
  {
    match c
    case '&' => "&amp;"
    case '<' => "&lt;"
    case '>' => "&gt;"
    case '"' => "&quot;"
    case '\'' => "&apos;"
    case _ => [c]
  }

  /** The default escape of `{{name}}` output. */
  function HtmlEscape(s: string): string {
    if s == [] then [] else EscapeChar(s[0]) + HtmlEscape(s[1..])
  }

  /** Escaping works character by character, so it distributes over `+`. */
  lemma {:induction false} HtmlEscapeAppend(a: string, b: string)
    ensures HtmlEscape(a + b) == HtmlEscape(a) + HtmlEscape(b)
  {
    if a != [] {
      assert (a + b)[1..] == a[1..] + b;
      HtmlEscapeAppend(a[1..], b);
    } else {
      assert a + b == b;
    }
  }

  /** No markup-significant character survives except `&`, which only starts an entity. */
  lemma {:induction false} HtmlEscapeSafe(s: string)
    ensures forall i :: 0 <= i < |HtmlEscape(s)| ==> HtmlEscape(s)[i] !in "<>\"'"
  {
    if s != [] {
      HtmlEscapeSafe(s[1..]);
      var e := EscapeChar(s[0]);
      assert forall i :: 0 <= i < |e| ==> e[i] !in "<>\"'";
    }
  }

  /** Text with none of the five characters is written as it is. */
  lemma {:induction false} HtmlEscapePlain(s: string)
    requires forall i :: 0 <= i < |s| ==> !HtmlSpecial(s[i])
    ensures HtmlEscape(s) == s
  {
    if s != [] {
      HtmlEscapePlain(s[1..]);
      assert [s[0]] + s[1..] == s;
    }
  }

  /** Reading the five entities back, left to right. */
  function HtmlUnescape(t: string): string
    decreases |t|
  {
    if t == [] then []
    else if |t| >= 5 && t[..5] == "&amp;" then "&" + HtmlUnescape(t[5..])
    else if |t| >= 4 && t[..4] == "&lt;" then "<" + HtmlUnescape(t[4..])
    else if |t| >= 4 && t[..4] == "&gt;" then ">" + HtmlUnescape(t[4..])
    else if |t| >= 6 && t[..6] == "&quot;" then "\"" + HtmlUnescape(t[6..])
    else if |t| >= 6 && t[..6] == "&apos;" then "'" + HtmlUnescape(t[6..])
    else [t[0]] + HtmlUnescape(t[1..])
  }

  /** One escaped character is read back as that character. */
  lemma UnescapeChar(c: char, rest: string)
    ensures HtmlUnescape(EscapeChar(c) + rest) == [c] + HtmlUnescape(rest)
  {
    match c
    case '&' => UnescapeAmp(rest);
    case '<' => UnescapeLt(rest);
    case '>' => UnescapeGt(rest);
    case '"' => UnescapeQuot(rest);
    case '\'' => UnescapeApos(rest);
    case _ =>
      assert EscapeChar(c) == [c];
      UnescapeOther(c, rest);
  }

  /** A character that does not start an entity is read as itself. */
  lemma UnescapeOther(c: char, rest: string)
    requires c != '&'
    ensures HtmlUnescape([c] + rest) == [c] + HtmlUnescape(rest)
  {
    var t := [c] + rest;
    assert t[0] == c && t[1..] == rest;
    assert |t| >= 4 ==> t[..4][0] != '&';
    assert |t| >= 5 ==> t[..5][0] != '&';
    assert |t| >= 6 ==> t[..6][0] != '&';
  }

  lemma UnescapeAmp(rest: string)
    ensures HtmlUnescape("&amp;" + rest) == "&" + HtmlUnescape(rest)
  {
    var t := "&amp;" + rest;
    assert t[..5] == "&amp;" && t[5..] == rest;
  }

  lemma UnescapeLt(rest: string)
    ensures HtmlUnescape("&lt;" + rest) == "<" + HtmlUnescape(rest)
  {
    var t := "&lt;" + rest;
    assert t[1] == 'l' && t[..4] == "&lt;" && t[4..] == rest;
  }

  lemma UnescapeGt(rest: string)
    ensures HtmlUnescape("&gt;" + rest) == ">" + HtmlUnescape(rest)
  {
    var t := "&gt;" + rest;
    assert t[1] == 'g' && t[..4] == "&gt;" && t[4..] == rest;
  }

  lemma UnescapeQuot(rest: string)
    ensures HtmlUnescape("&quot;" + rest) == "\"" + HtmlUnescape(rest)
  {
    var t := "&quot;" + rest;
    assert t[..6] == "&quot;" && t[6..] == rest;
    assert t[..5][1] == 'q' && t[..4][1] == 'q';
  }

  lemma UnescapeApos(rest: string)
    ensures HtmlUnescape("&apos;" + rest) == "'" + HtmlUnescape(rest)
  {
    var t := "&apos;" + rest;
    assert t[..6] == "&apos;" && t[6..] == rest;
    assert t[..5][2] == 'p' && t[..4][1] == 'a' && t[..6][1] == 'a';
  }

  /** The HTML escape loses nothing: unescaping its output gives the input back. */
  lemma {:induction false} HtmlRoundTrip(s: string)
    ensures HtmlUnescape(HtmlEscape(s)) == s
  {
    if s != [] {
      HtmlRoundTrip(s[1..]);
      UnescapeChar(s[0], HtmlEscape(s[1..]));
      assert [s[0]] + s[1..] == s;
    }
  }

  /** The custom escape: a backslash before each `"` and each newline. */
  function Backslashed(s: string): string {
    if s == [] then [] else BackslashChar(s[0]) + Backslashed(s[1..])
  }

  function BackslashChar(c: char): (r: string)
    ensures c == '"' || c == '\n' ==> r == ['\\', c]
    ensures c != '"' && c != '\n' ==> r == [c]
  {
    if c == '"' || c == '\n' then ['\\', c] else [c]
  }

  /** The custom escape as the loop that writes it, appending to a result buffer. */
  method BackslashEscape(s: string) returns (ret: string)
    ensures ret == Backslashed(s)
  {
    ret := [];
    var i := 0;
    while i < |s|
      invariant 0 <= i <= |s|
      invariant ret + Backslashed(s[i..]) == Backslashed(s)
    {
      var ch := s[i];
      ghost var before := ret;
      if ch == '"' || ch == '\n' {
        ret := ret + ['\\', ch];
      } else {
        ret := ret + [ch];
      }
      BackslashStep(s, i, before, ret);
      i := i + 1;
    }
  }

  /** One turn of the loop keeps its invariant. */
  lemma BackslashStep(s: string, i: nat, before: string, after: string)
    requires i < |s| && before + Backslashed(s[i..]) == Backslashed(s)
    requires after == before + BackslashChar(s[i])
    ensures after + Backslashed(s[i + 1..]) == Backslashed(s)
  {
    var head, tail := BackslashChar(s[i]), Backslashed(s[i + 1..]);
    BackslashedFrom(s, i);
    Reassociate(before, head, tail);
  }

  lemma Reassociate(a: string, b: string, c: string)
    ensures (a + b) + c == a + (b + c)
  {
  }

  /** The escape of a suffix, one character at a time. */
  lemma BackslashedFrom(s: string, i: nat)
    requires i < |s|
    ensures Backslashed(s[i..]) == BackslashChar(s[i]) + Backslashed(s[i + 1..])
  {
    assert s[i..][1..] == s[i + 1..];
  }

  /** Every character other than `"` and newline is copied unchanged. */
  lemma {:induction false} BackslashPlain(s: string)
    requires forall i :: 0 <= i < |s| ==> s[i] != '"' && s[i] != '\n'
    ensures Backslashed(s) == s
  {
    if s != [] {
      BackslashPlain(s[1..]);
      assert [s[0]] + s[1..] == s;
    }
  }

  /** The output grows by exactly one backslash per escaped character. */
  function CountEscaped(s: string): nat {
    if s == [] then 0 else (if s[0] == '"' || s[0] == '\n' then 1 else 0) + CountEscaped(s[1..])
  }

  lemma {:induction false} BackslashLength(s: string)
    ensures |Backslashed(s)| == |s| + CountEscaped(s)
  {
    if s != [] {
      BackslashLength(s[1..]);
    }
  }

  /** No output starts with a bare `"` or newline: such characters always follow a backslash. */
  lemma BackslashedHead(s: string)
    ensures Backslashed(s) == [] || (Backslashed(s)[0] != '"' && Backslashed(s)[0] != '\n')
  {
  }

  /** Reads the custom escape back: a backslash before `"` or newline is dropped. */
  function Unbackslash(t: string): string
    decreases |t|
  {
    if t == [] then []
    else if |t| >= 2 && t[0] == '\\' && (t[1] == '"' || t[1] == '\n') then [t[1]] + Unbackslash(t[2..])
    else [t[0]] + Unbackslash(t[1..])
  }

  /** The custom escape loses nothing, backslashes in the input included. */
  lemma {:induction false} BackslashRoundTrip(s: string)
    ensures Unbackslash(Backslashed(s)) == s
  {
    if s != [] {
      BackslashRoundTrip(s[1..]);
      var rest := Backslashed(s[1..]);
      var t := BackslashChar(s[0]) + rest;
      BackslashedHead(s[1..]);
      if s[0] == '"' || s[0] == '\n' {
        assert t[2..] == rest;
      } else {
        assert t[1..] == rest;
      }
      assert [s[0]] + s[1..] == s;
    }
  }

  /** The escape a template applies to `{{name}}` output: HTML by default, the
      backslash escape once installed, or an empty handler, whose use is an error. */
  datatype Escaper = Html | BackslashQuotes | EmptyHandler

  /** Applies the escaper; `None` when the handler is empty. */
  function Apply(e: Escaper, s: string): (r: Option<string>)
    ensures r.None? <==> e.EmptyHandler?
  {
    match e
    case Html => Some(HtmlEscape(s))
    case BackslashQuotes => Some(Backslashed(s))
    case EmptyHandler => None
  }
}
