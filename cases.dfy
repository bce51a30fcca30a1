/** The behaviour the test suite asserts, case by case, derived from the
    general statements about compilation and rendering. */
module Cases {
  import opened Text
  import opened Syntax
  import opened Parser
  import opened ParseFacts

  lemma EmployeesName()
    ensures TagName("employees")
  {
    var n := "employees";
    assert !IsSpace(n[0]) && !IsSpace(n[|n| - 1]);
    assert forall i :: 0 <= i < |n| ==> n[i] != '{' && n[i] != '}';
  }

  /** `test {{#employees}}` fails with an unclosed section at 5. */
  lemma UnclosedSectionError(s: string)
    requires s == "test {{#employees}}"
    ensures Parse(s, Braces) == Failed(UnclosedSection("employees", 5))
  {
    EmployeesName();
    assert s == "test " + "{{#" + "employees" + "}}";
    UnclosedSectionAt("test ", "employees");
  }

  /** `test {{employees` fails with an unclosed tag at 5. */
  lemma UnclosedTagError(s: string)
    requires s == "test {{employees"
    ensures Parse(s, Braces) == Failed(UnclosedTag(5))
  {
    assert s == "test " + "{{" + "employees";
    UnclosedTagAt("test ", "employees");
  }

  /** `test {{/employees}}` fails with an unopened section at 5. */
  lemma UnopenedSectionError(s: string)
    requires s == "test {{/employees}}"
    ensures Parse(s, Braces) == Failed(UnopenedSection("employees", 5))
  {
    EmployeesName();
    assert s == "test " + "{{/" + "employees" + "}}" + "";
    UnopenedSectionAt("test ", "employees", "");
  }

  /** The messages those errors carry. */
  lemma UnclosedMessage()
    ensures Message(UnclosedSection("employees", 5)) == "Unclosed section \"employees\" at 5"
  {
    assert NatToString(5) == "5";
  }

  lemma UnopenedMessage()
    ensures Message(UnopenedSection("employees", 5)) == "Unopened section \"employees\" at 5"
  {
    assert NatToString(5) == "5";
  }

  lemma TagMessages()
    ensures Message(UnclosedTag(5)) == "Unclosed tag at 5"
    ensures Message(InvalidSetDelimiter(5)) == "Invalid set delimiter tag at 5"
  {
    assert NatToString(5) == "5";
  }

  lemma NestedMessage()
    ensures Message(UnclosedSection("var1", 0)) == "Unclosed section \"var1\" at 0"
  {
    assert NatToString(0) == "0";
  }

  // ---------------------------------------------------------------------
  // The seven malformed directives

  /** `=< =`: fewer than five characters. */
  lemma TooShort(c: string)
    requires c == "=< ="
    ensures '}' !in c && c != [] && c[0] == '=' && Trim(c) == c && ParseSetDelimiter(c) == None
  {
    assert '}' !in c;
    TrimNonBlank(c);
  }

  /** `=....`: does not end with `=`. */
  lemma NotTerminated(c: string)
    requires c == "=...."
    ensures '}' !in c && c != [] && c[0] == '=' && Trim(c) == c && ParseSetDelimiter(c) == None
  {
    assert '}' !in c;
    TrimNonBlank(c);
  }

  /** `=...=`: no space between the tokens. */
  lemma NoSpace(c: string)
    requires c == "=...="
    ensures '}' !in c && c != [] && c[0] == '=' && Trim(c) == c && ParseSetDelimiter(c) == None
  {
    assert '}' !in c && ' ' !in c && |c| == 5 && c[1] == '.' && c[3] == '.';
    NoSeparator(c);
    TrimNonBlank(c);
  }

  /** A directive of two tokens with a run of spaces between them, one of the
      tokens unusable. */
  lemma TwoTokens(c: string, open: string, close: string, gap: nat)
    requires c == "=" + open + Spaces(gap + 1) + close + "=" && Edges(open, close) && '}' !in c
    requires !DelimiterToken(open) || !DelimiterToken(close)
    ensures '}' !in c && c != [] && c[0] == '=' && Trim(c) == c && ParseSetDelimiter(c) == None
  {
    assert ParseSetDelimiter(c) == None by {
      var sp := Spaces(gap + 1);
      assert "=" + Spaces(0) + open + sp + close + Spaces(0) + "=" == c by {
        assert Spaces(0) == [];
        Unpadded("=", open, sp, close);
      }
      DirectiveOfTokens(open, close, gap, 0, 0);
    }
    assert Trim(c) == c by {
      assert c[0] == '=' && c[|c| - 1] == '=';
      TrimNonBlank(c);
    }
  }

  /** A padded directive between two texts, regrouped. */
  lemma DirectivePieces(t: string, oo: string, e: string, sp: string, o: string, gap: string, cc: string)
    ensures t + (oo + e + sp) + o + gap + o + (sp + e + cc) + t
         == t + oo + (e + sp + o + gap + o + sp + e) + cc + t
  {
  }

  /** No padding inside a directive's `=`. */
  lemma Unpadded(e: string, open: string, sp: string, close: string)
    ensures e + [] + open + sp + close + [] + e == e + open + sp + close + e
  {
    assert e + [] == e;
  }

  /** `=.  ==`: `=` as the close token. */
  lemma EqualInClose(c: string)
    requires c == "=.  =="
    ensures '}' !in c && c != [] && c[0] == '=' && Trim(c) == c && ParseSetDelimiter(c) == None
  {
    var open, close := ".", "=";
    assert Spaces(2) == "  ";
    assert c == "=" + open + Spaces(2) + close + "=";
    assert !DelimiterToken(close) by { assert close[0] == '='; }
    TwoTokens(c, open, close, 1);
  }

  /** `==  .=`: `=` as the open token. */
  lemma EqualInOpen(c: string)
    requires c == "==  .="
    ensures '}' !in c && c != [] && c[0] == '=' && Trim(c) == c && ParseSetDelimiter(c) == None
  {
    var open, close := "=", ".";
    assert Spaces(2) == "  ";
    assert c == "=" + open + Spaces(2) + close + "=";
    assert !DelimiterToken(open) by { assert open[0] == '='; }
    TwoTokens(c, open, close, 1);
  }

  /** `=[ ] ] ]=`: spaces inside the close token. */
  lemma SpaceInClose(c: string)
    requires c == "=[ ] ] ]="
    ensures '}' !in c && c != [] && c[0] == '=' && Trim(c) == c && ParseSetDelimiter(c) == None
  {
    var open, close := "[", "] ] ]";
    assert Spaces(1) == " ";
    assert c == "=" + open + Spaces(1) + close + "=";
    assert !DelimiterToken(close) by { assert IsSpace(close[1]); }
    TwoTokens(c, open, close, 0);
  }

  /** `=[ [ ]=`: a space inside the close token. */
  lemma SpaceInClose2(c: string)
    requires c == "=[ [ ]="
    ensures '}' !in c && c != [] && c[0] == '=' && Trim(c) == c && ParseSetDelimiter(c) == None
  {
    var open, close := "[", "[ ]";
    assert Spaces(1) == " ";
    assert c == "=" + open + Spaces(1) + close + "=";
    assert !DelimiterToken(close) by { assert IsSpace(close[1]); }
    TwoTokens(c, open, close, 0);
  }

  // Each of the seven malformed directives reports "Invalid set delimiter tag at 5".

  lemma ShortDirectiveError(s: string)
    requires s == "test {{=< =}}"
    ensures Parse(s, Braces) == Failed(InvalidSetDelimiter(5))
  {
    var t, c := "test ", "=< =";
    assert s == t + "{{" + c + "}}" + [];
    assert '{' !in t && |t| == 5;
    TooShort(c);
    InvalidDelimiterAt(t, c, []);
  }

  lemma UnterminatedDirectiveError(s: string)
    requires s == "test {{=....}}"
    ensures Parse(s, Braces) == Failed(InvalidSetDelimiter(5))
  {
    var t, c := "test ", "=....";
    assert s == t + "{{" + c + "}}" + [];
    assert '{' !in t && |t| == 5;
    NotTerminated(c);
    InvalidDelimiterAt(t, c, []);
  }

  lemma UnseparatedDirectiveError(s: string)
    requires s == "test {{=...=}}"
    ensures Parse(s, Braces) == Failed(InvalidSetDelimiter(5))
  {
    var t, c := "test ", "=...=";
    assert s == t + "{{" + c + "}}" + [];
    assert '{' !in t && |t| == 5;
    NoSpace(c);
    InvalidDelimiterAt(t, c, []);
  }

  lemma EqualInCloseError(s: string)
    requires s == "test {{=.  ==}}"
    ensures Parse(s, Braces) == Failed(InvalidSetDelimiter(5))
  {
    var t, c := "test ", "=.  ==";
    assert s == t + "{{" + c + "}}" + [];
    assert '{' !in t && |t| == 5;
    EqualInClose(c);
    InvalidDelimiterAt(t, c, []);
  }

  lemma EqualInOpenError(s: string)
    requires s == "test {{==  .=}}"
    ensures Parse(s, Braces) == Failed(InvalidSetDelimiter(5))
  {
    var t, c := "test ", "==  .=";
    assert s == t + "{{" + c + "}}" + [];
    assert '{' !in t && |t| == 5;
    EqualInOpen(c);
    InvalidDelimiterAt(t, c, []);
  }

  lemma SpaceInCloseError(s: string)
    requires s == "test {{=[ ] ] ]=}}"
    ensures Parse(s, Braces) == Failed(InvalidSetDelimiter(5))
  {
    var t, c := "test ", "=[ ] ] ]=";
    assert s == t + "{{" + c + "}}" + [];
    assert '{' !in t && |t| == 5;
    SpaceInClose(c);
    InvalidDelimiterAt(t, c, []);
  }

  lemma SpaceInClose2Error(s: string)
    requires s == "test {{=[ [ ]=}}"
    ensures Parse(s, Braces) == Failed(InvalidSetDelimiter(5))
  {
    var t, c := "test ", "=[ [ ]=";
    assert s == t + "{{" + c + "}}" + [];
    assert '{' !in t && |t| == 5;
    SpaceInClose2(c);
    InvalidDelimiterAt(t, c, []);
  }

  // ---------------------------------------------------------------------
  // The three unescaped forms

  lemma HelloName(t: string, n: string)
    requires t == "Hello " && n == "name"
    ensures '{' !in t && TagName(n) && n[0] !in "#^/>&!="
  {
    assert !IsSpace(n[0]) && !IsSpace(n[|n| - 1]);
  }

  /** `Hello {{{name}}}`: the text, then an unescaped variable. */
  lemma TripleName(s: string, t: string, n: string)
    requires t == "Hello " && n == "name" && s == t + "{{{" + n + "}}}"
    ensures Parse(s, Braces) == Parsed([Text(t), Variable(n, false)])
  {
    HelloName(t, n);
    assert s == t + "{{{" + n + "}}}" + [];
    TripleIn(s, t, n, []);
    assert Texts(t) + [Variable(n, false)] + Texts([]) == [Text(t), Variable(n, false)];
  }

  /** `Hello {{&name}}`: the same. */
  lemma AmpersandName(s: string, t: string, n: string)
    requires t == "Hello " && n == "name" && s == t + "{{&" + n + "}}"
    ensures Parse(s, Braces) == Parsed([Text(t), Variable(n, false)])
  {
    HelloName(t, n);
    var b := Spaces(0) + "&" + Spaces(0) + n + Spaces(0);
    assert s == t + "{{" + b + "}}" + [] by {
      assert Spaces(0) == [];
      assert "{{&" == "{{" + Spaces(0) + "&" + Spaces(0) && "}}" == Spaces(0) + "}}";
      assert s == t + "{{" + (Spaces(0) + "&" + Spaces(0) + n + Spaces(0)) + "}}" + [];
    }
    AmpersandIn(s, t, b, 0, 0, 0, n, []);
    assert Texts(t) + [Variable(n, false)] + Texts([]) == [Text(t), Variable(n, false)];
  }

  /** `Hello {{   &      name  }}`: spaces around and after the `&` change nothing. */
  lemma SpacedAmpersand(s: string, t: string, n: string)
    requires t == "Hello " && n == "name" && s == t + "{{   &      " + n + "  }}"
    ensures Parse(s, Braces) == Parsed([Text(t), Variable(n, false)])
  {
    HelloName(t, n);
    var b := Spaces(3) + "&" + Spaces(6) + n + Spaces(2);
    assert s == t + "{{" + b + "}}" + [] by {
      assert Spaces(3) == "   " && Spaces(6) == "      " && Spaces(2) == "  ";
      assert "{{   &      " == "{{" + Spaces(3) + "&" + Spaces(6) && "  }}" == Spaces(2) + "}}";
      assert s == t + "{{" + (Spaces(3) + "&" + Spaces(6) + n + Spaces(2)) + "}}" + [];
    }
    AmpersandIn(s, t, b, 3, 6, 2, n, []);
    assert Texts(t) + [Variable(n, false)] + Texts([]) == [Text(t), Variable(n, false)];
  }

  /** `|{{= @   @ =}}|`: padding inside the directive is allowed, the
      template compiles to the two bars around a switch to `@`/`@`. */
  lemma SpacedDirective(s: string, t: string, o: string)
    requires t == "|" && o == "@" && s == t + "{{= " + o + "   " + o + " =}}" + t
    ensures Parse(s, Braces) == Parsed([Text(t), SetDelimiter(Delimiters(o, o)), Text(t)])
  {
    var b := "=" + Spaces(1) + o + Spaces(3) + o + Spaces(1) + "=";
    SpacedPieces(s, t, o, b);
    assert Edges(o, o) && DelimiterToken(o) && '}' !in b;
    DirectiveIn(s, t, b, o, o, 2, 1, 1, t);
  }

  lemma SpacedPieces(s: string, t: string, o: string, b: string)
    requires t == "|" && o == "@" && s == t + "{{= " + o + "   " + o + " =}}" + t
    requires b == "=" + Spaces(1) + o + Spaces(3) + o + Spaces(1) + "="
    ensures s == t + "{{" + b + "}}" + t
  {
    assert Spaces(1) == " " && Spaces(3) == "   ";
    assert "{{= " == "{{" + "=" + " " && " =}}" == " " + "=" + "}}";
    DirectivePieces(t, "{{", "=", " ", o, "   ", "}}");
  }

  // ---------------------------------------------------------------------
  // Templates the lambda and partial cases render

  lemma LambdaName(n: string)
    requires n == "lambda"
    ensures TagName(n) && n[0] !in "#^/>&!="
  {
    assert !IsSpace(n[0]) && !IsSpace(n[|n| - 1]);
  }

  /** `{{lambda}} == {{{lambda}}} == {{lambda}}`: an escaped, an unescaped
      and an escaped use of the same name, with the separators between. */
  lemma NoCachingCompiles(s: string, n: string, sep: string)
    requires n == "lambda" && sep == " == "
    requires s == "{{" + n + "}}" + sep + "{{{" + n + "}}}" + sep + "{{" + n + "}}"
    ensures Parse(s, Braces)
         == Parsed([Variable(n, true), Text(sep), Variable(n, false), Text(sep), Variable(n, true)])
  {
    LambdaName(n);
    assert '{' !in sep;
    SameNameThrice(s, n, sep);
  }

  /** `Hello {{>what}}{{punctuation}}`: the text, the partial `what` and the
      escaped variable `punctuation`. */
  lemma FilePartialCompiles(s: string, t: string, p: string, m: string)
    requires t == "Hello " && p == "what" && m == "punctuation"
    requires s == t + "{{>" + p + "}}" + "{{" + m + "}}"
    ensures Parse(s, Braces) == Parsed([Text(t), PartialRef(p), Variable(m, true)])
  {
    var b := ['>'] + p;
    assert '{' !in t;
    assert TagName(p) by { assert !IsSpace(p[0]) && !IsSpace(p[|p| - 1]); }
    assert TagName(m) && m[0] !in "#^/>&!=" by { assert !IsSpace(m[0]) && !IsSpace(m[|m| - 1]); }
    assert "{{>" + p + "}}" == "{{" + b + "}}";
    TextPartialVariable(s, t, b, p, m);
  }

  // ---------------------------------------------------------------------
  // Nested sections left open

  /** `{{#var1}}hello`, piece by piece. */
  lemma FirstHalf(h: string, ba: string, a: string, x: string)
    requires h == "{{#var1}}hello" && ba == "#var1" && a == "var1" && x == "hello"
    ensures h == "{{" + ba + "}}" + x && TagName(a) && ba == ['#'] + a && '{' !in x
  {
    assert !IsSpace(a[0]) && !IsSpace(a[|a| - 1]) && '{' !in a && '}' !in a;
    assert '{' !in x;
  }

  /** `{{#var2}}world`, piece by piece. */
  lemma SecondHalf(h: string, bb: string, b: string, y: string)
    requires h == "{{#var2}}world" && bb == "#var2" && b == "var2" && y == "world"
    ensures h == "{{" + bb + "}}" + y && TagName(b) && bb == ['#'] + b && '{' !in y
  {
    assert !IsSpace(b[0]) && !IsSpace(b[|b| - 1]) && '{' !in b && '}' !in b;
    assert '{' !in y;
  }

  /** `{{/var1}}`, piece by piece. */
  lemma ClosePieces(u: string, bc: string, a: string)
    requires u == "{{/var1}}" && bc == "/var1" && a == "var1"
    ensures u == "{{" + bc + "}}" && bc == ['/'] + a
  {
  }

  /** `{{#var1}}hello{{#var2}}world`: the outer section is reported, at 0. */
  lemma NestedUnclosedError(s: string)
    requires s == "{{#var1}}hello{{#var2}}world"
    ensures Parse(s, Braces) == Failed(UnclosedSection("var1", 0))
  {
    var h1, h2 := "{{#var1}}hello", "{{#var2}}world";
    assert s == h1 + h2;
    var ba, a, x, bb, b, y := "#var1", "var1", "hello", "#var2", "var2", "world";
    FirstHalf(h1, ba, a, x);
    SecondHalf(h2, bb, b, y);
    NestedUnclosedIn(s, ba, a, x, bb, b, y);
  }

  /** `{{#var1}}hello{{#var2}}world{{/var1}}`: the close tag ends `var2`, so
      `var1` is still the section reported, at 0. */
  lemma NestedMisclosedError(s: string)
    requires s == "{{#var1}}hello{{#var2}}world{{/var1}}"
    ensures Parse(s, Braces) == Failed(UnclosedSection("var1", 0))
  {
    var h1, h2, u := "{{#var1}}hello", "{{#var2}}world", "{{/var1}}";
    assert s == h1 + h2 + u;
    var ba, a, x, bb, b, y, bc := "#var1", "var1", "hello", "#var2", "var2", "world", "/var1";
    FirstHalf(h1, ba, a, x);
    SecondHalf(h2, bb, b, y);
    ClosePieces(u, bc, a);
    NestedClosedOnceIn(s, ba, a, x, bb, b, y, bc, a);
  }

  /** `{{>a.b}}` alone compiles to one reference to the partial `a.b`; the
      dot stays in the name. */
  lemma DottedPartialCompiles(s: string, n: string)
    requires n == "a.b" && s == "{{>" + n + "}}"
    ensures Parse(s, Braces) == Parsed([PartialRef(n)])
  {
    var b := ['>'] + n;
    assert TagName(n) by { assert !IsSpace(n[0]) && !IsSpace(n[|n| - 1]); }
    assert s == [] + "{{" + b + "}}" + [];
    var st2 := State(4 + |b|, Braces, [], [PartialRef(n)], []);
    assert [] + Texts([]) + [PartialRef(n)] == [PartialRef(n)];
    FlatPartial(s, Initial(Braces), [], b, n, [], st2);
    AtEnd(s, st2);
  }
}
