/** Character and string helpers shared by the scanner, the context and the
    renderer: whitespace trimming, substring search, the dotted-name splitter
    and decimal formatting. */
module Text {

  datatype Option<+T> = None | Some(value: T)

  /** The characters `std::isspace` accepts in the "C" locale. */
  predicate IsSpace(c: char) {
    c == ' ' || c == '\t' || c == '\n' || c == '\r' || c == '\U{000B}' || c == '\U{000C}'
  }

  /** Drops leading whitespace. */
  function TrimLeft(s: string): (r: string)
    ensures |r| <= |s| && r == s[|s| - |r|..]
    ensures r == [] || !IsSpace(r[0])
    ensures forall i :: 0 <= i < |s| - |r| ==> IsSpace(s[i])
  {
    if s != [] && IsSpace(s[0]) then TrimLeft(s[1..]) else s
  }

  /** Drops trailing whitespace. */
  function TrimRight(s: string): (r: string)
    ensures |r| <= |s| && r == s[..|r|]
    ensures r == [] || !IsSpace(r[|r| - 1])
    ensures forall i :: |r| <= i < |s| ==> IsSpace(s[i])
  {
    if s != [] && IsSpace(s[|s| - 1]) then TrimRight(s[..|s| - 1]) else s
  }

  /** Drops whitespace on both ends. */
  function Trim(s: string): (r: string)
    ensures r == [] || (!IsSpace(r[0]) && !IsSpace(r[|r| - 1]))
    ensures |r| <= |s|
  {
    TrimRight(TrimLeft(s))
  }

  /** Trimming keeps the run of `s` that starts after its leading blanks and
      drops only blanks on either side of it; the result is empty exactly
      when `s` is all blank. With the non-blank ends `Trim` promises, this
      fixes the result. */
  lemma TrimDrops(s: string, l: string, r: string)
    requires l == TrimLeft(s) && r == Trim(s)
    ensures var a := |s| - |l|;
      && a + |r| <= |s| && (forall i :: 0 <= i < |r| ==> r[i] == s[a + i])
      && (forall i :: 0 <= i < a ==> IsSpace(s[i]))
      && (forall i :: a + |r| <= i < |s| ==> IsSpace(s[i]))
      && (r == [] <==> forall i :: 0 <= i < |s| ==> IsSpace(s[i]))
  {
    TrimSides(s, l, r);
    TrimParts(s, l, r);
  }

  /** The contracts of the two one-sided trims, for `TrimParts`. */
  lemma TrimSides(s: string, l: string, r: string)
    requires l == TrimLeft(s) && r == TrimRight(l)
    ensures |l| <= |s| && l == s[|s| - |l|..] && (l == [] || !IsSpace(l[0]))
    ensures forall i :: 0 <= i < |s| - |l| ==> IsSpace(s[i])
    ensures |r| <= |l| && r == l[..|r|] && forall i :: |r| <= i < |l| ==> IsSpace(l[i])
  {
  }

  /** What the two one-sided trims promise, put together. */
  lemma TrimParts(s: string, l: string, r: string)
    requires |l| <= |s| && l == s[|s| - |l|..] && (l == [] || !IsSpace(l[0]))
    requires forall i :: 0 <= i < |s| - |l| ==> IsSpace(s[i])
    requires |r| <= |l| && r == l[..|r|] && forall i :: |r| <= i < |l| ==> IsSpace(l[i])
    ensures var a := |s| - |l|;
      && a + |r| <= |s| && (forall i :: 0 <= i < |r| ==> r[i] == s[a + i])
      && (forall i :: a + |r| <= i < |s| ==> IsSpace(s[i]))
      && (r == [] <==> forall i :: 0 <= i < |s| ==> IsSpace(s[i]))
  {
    var a := |s| - |l|;
    forall i | a + |r| <= i < |s| ensures IsSpace(s[i]) {
      assert s[i] == l[i - a];
    }
    if r == [] {
      assert l == [];
    } else {
      assert s[a] == l[0] == r[0];
    }
  }

  /** A string whose ends are not blank is its own trimming. */
  lemma TrimNonBlank(s: string)
    requires s == [] || (!IsSpace(s[0]) && !IsSpace(s[|s| - 1]))
    ensures Trim(s) == s
  {
  }

  /** `pat` occurs in `s` starting at index `i`. */
  predicate OccursAt(pat: string, s: string, i: nat) {
    i + |pat| <= |s| && s[i..i + |pat|] == pat
  }

  /** No occurrence of `marker` starts anywhere in `s`. */
  predicate MarkerFree(s: string, marker: string) {
    forall j :: 0 <= j < |s| ==> !OccursAt(marker, s, j)
  }

  /** Text without the marker's first character is free of the marker. */
  lemma FirstCharFree(s: string, marker: string)
    requires |marker| > 0 && marker[0] !in s
    ensures MarkerFree(s, marker)
  {
    forall j | 0 <= j < |s| ensures !OccursAt(marker, s, j) {
      NoOccurrence(marker, s, j);
    }
  }

  /** A position whose character differs from the pattern's first is no match. */
  lemma NoOccurrence(pat: string, s: string, i: nat)
    requires |pat| > 0 && (i >= |s| || s[i] != pat[0])
    ensures !OccursAt(pat, s, i)
  {
  }

  /** The first occurrence of `pat` in `s` at or after `from` (`std::string::find`). */
  function FindFrom(s: string, pat: string, from: nat): (r: Option<nat>)
    requires |pat| > 0
    decreases |s| - from
    ensures r.Some? ==> from <= r.value && OccursAt(pat, s, r.value)
    ensures r.Some? ==> forall k :: from <= k < r.value ==> !OccursAt(pat, s, k)
    ensures r.None? ==> forall k :: from <= k ==> !OccursAt(pat, s, k)
  {
    if from + |pat| > |s| then None
    else if OccursAt(pat, s, from) then Some(from)
    else FindFrom(s, pat, from + 1)
  }

  /** The first index of `c` in `s`. */
  function IndexOf(s: string, c: char): (r: Option<nat>)
    ensures r.Some? ==> r.value < |s| && s[r.value] == c && c !in s[..r.value]
    ensures r.None? <==> c !in s
  {
    if s == [] then None
    else if s[0] == c then Some(0)
    else match IndexOf(s[1..], c)
      case None => None
      case Some(k) => assert s[1..][..k] == s[1..k + 1]; Some(k + 1)
  }

  /** The first index at or after `from` whose character is not `c`. */
  function IndexNotOf(s: string, c: char, from: nat): (r: Option<nat>)
    decreases |s| - from
    ensures r.Some? ==> from <= r.value < |s| && s[r.value] != c
    ensures r.Some? ==> forall k :: from <= k < r.value ==> s[k] == c
    ensures r.None? ==> forall k :: from <= k < |s| ==> s[k] == c
  {
    if from >= |s| then None
    else if s[from] != c then Some(from)
    else IndexNotOf(s, c, from + 1)
  }

  /** Splits `s` at every `d`: always one more piece than there are separators. */
  function SplitAll(s: string, d: char): (r: seq<string>)
    ensures |r| >= 1
  {
    if s == [] then [[]]
    else
      var rest := SplitAll(s[1..], d);
      if s[0] == d then [[]] + rest else [[s[0]] + rest[0]] + rest[1..]
  }

  /** Joins pieces with the separator `d` between them. */
  function JoinWith(pieces: seq<string>, d: char): string
    requires |pieces| >= 1
  {
    if |pieces| == 1 then pieces[0] else pieces[0] + [d] + JoinWith(pieces[1..], d)
  }

  /** The dotted-name splitter: `std::getline` over `d`, which reads every
      piece but does not produce the empty piece that follows a final
      separator (or that is all there is in an empty string). */
  function Split(s: string, d: char): (r: seq<string>)
  {
    var pieces := SplitAll(s, d);
    if pieces[|pieces| - 1] == [] then pieces[..|pieces| - 1] else pieces
  }

  /** No piece of a split contains the separator. */
  lemma {:induction false} SplitAllPiecesFree(s: string, d: char)
    ensures forall i :: 0 <= i < |SplitAll(s, d)| ==> d !in SplitAll(s, d)[i]
  {
    if s != [] {
      SplitAllPiecesFree(s[1..], d);
    }
  }

  /** Joining the pieces again gives back the string. */
  lemma {:induction false} JoinSplitAll(s: string, d: char)
    ensures JoinWith(SplitAll(s, d), d) == s
  {
    if s != [] {
      var rest := SplitAll(s[1..], d);
      JoinSplitAll(s[1..], d);
      if s[0] == d {
        assert ([[]] + rest)[1..] == rest;
      } else {
        if |rest| > 1 {
          assert ([[s[0]] + rest[0]] + rest[1..])[1..] == rest[1..];
          assert JoinWith(rest, d) == rest[0] + [d] + JoinWith(rest[1..], d);
        }
      }
    }
  }

  /** Splitting a join of separator-free pieces gives back the pieces. */
  lemma {:induction false} SplitAllJoin(pieces: seq<string>, d: char)
    requires |pieces| >= 1
    requires forall i :: 0 <= i < |pieces| ==> d !in pieces[i]
    ensures SplitAll(JoinWith(pieces, d), d) == pieces
  {
    if |pieces| == 1 {
      SplitAllFree(pieces[0], d);
    } else {
      SplitAllJoin(pieces[1..], d);
      SplitAllPrefix(pieces[0], JoinWith(pieces[1..], d), d);
      assert pieces[0] + [d] + JoinWith(pieces[1..], d) == pieces[0] + ([d] + JoinWith(pieces[1..], d));
      var s := SplitAll([d] + JoinWith(pieces[1..], d), d);
      assert s == [[]] + pieces[1..] by {
        assert ([d] + JoinWith(pieces[1..], d))[1..] == JoinWith(pieces[1..], d);
      }
      assert s[0] == [] && s[1..] == pieces[1..];
      assert pieces[0] + s[0] == pieces[0];
      assert [pieces[0]] + pieces[1..] == pieces;
    }
  }

  lemma {:induction false} SplitAllFree(s: string, d: char)
    requires d !in s
    ensures SplitAll(s, d) == [s]
  {
    if s != [] {
      assert d !in s[1..] by { assert forall i :: 0 <= i < |s[1..]| ==> s[1..][i] == s[i + 1]; }
      SplitAllFree(s[1..], d);
      assert [s[0]] + s[1..] == s;
    }
  }

  lemma {:induction false} SplitAllPrefix(p: string, rest: string, d: char)
    requires d !in p
    ensures SplitAll(p + [d] + rest, d) == [p + SplitAll([d] + rest, d)[0]] + SplitAll([d] + rest, d)[1..]
  {
    if p == [] {
      assert p + [d] + rest == [d] + rest;
    } else {
      assert (p + [d] + rest)[1..] == p[1..] + [d] + rest;
      assert d !in p[1..] by { assert forall i :: 0 <= i < |p[1..]| ==> p[1..][i] == p[i + 1]; }
      SplitAllPrefix(p[1..], rest, d);
      var s := SplitAll([d] + rest, d);
      assert [p[0]] + (p[1..] + s[0]) == p + s[0];
    }
  }

  /** The five splits the test suite pins down. */
  lemma SplitCases()
    ensures |Split("", '.')| == 0
    ensures |Split("test", '.')| == 1 && Split("test", '.')[0] == "test"
    ensures |Split("a.b", '.')| == 2 && Split("a.b", '.')[0] == "a" && Split("a.b", '.')[1] == "b"
    ensures |Split(".", '.')| == 1 && Split(".", '.')[0] == ""
    ensures |Split("a.", '.')| == 1 && Split("a.", '.')[0] == "a"
  {
  }

  /** Split differs from SplitAll only by a trailing empty piece. */
  lemma SplitDropsOnlyTrailingEmpty(s: string, d: char)
    ensures SplitAll(s, d) == Split(s, d) || SplitAll(s, d) == Split(s, d) + [[]]
  {
  }

  function DigitChar(n: nat): char
    requires n < 10
  {
    "0123456789"[n]
  }

  function DigitValue(c: char): nat {
    if '0' <= c <= '9' then (c as int - '0' as int) as nat else 0
  }

  /** Decimal notation of `n`, as `operator<<` and `std::to_string` produce it. */
  function NatToString(n: nat): (r: string)
    ensures |r| >= 1
    ensures forall i :: 0 <= i < |r| ==> '0' <= r[i] <= '9'
  {
    if n < 10 then [DigitChar(n)] else NatToString(n / 10) + [DigitChar(n % 10)]
  }

  /** Reads a decimal numeral. */
  function DecimalValue(s: string): nat {
    if s == [] then 0 else DecimalValue(s[..|s| - 1]) * 10 + DigitValue(s[|s| - 1])
  }

  /** Decimal notation loses nothing: reading it back gives the number. */
  lemma {:induction false} DecimalRoundTrip(n: nat)
    ensures DecimalValue(NatToString(n)) == n
  {
    var s := NatToString(n);
    if n < 10 {
      assert s[..0] == [];
      DigitRoundTrip(n);
    } else {
      assert s[..|s| - 1] == NatToString(n / 10);
      assert s[|s| - 1] == DigitChar(n % 10);
      DecimalRoundTrip(n / 10);
      DigitRoundTrip(n % 10);
    }
  }

  /** A digit reads back as its value. */
  lemma DigitRoundTrip(n: nat)
    requires n < 10
    ensures DigitValue(DigitChar(n)) == n
  {
  }
}
