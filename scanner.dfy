/** The template compiler as the loop that runs it: a position advanced over
    the input, the delimiter pair in force, the literal run being collected and
    the stack of open sections, updated in place. It computes exactly what the
    specification in `Parser` describes. */
module Scanner {
  import opened Text
  import opened Syntax
  import opened Parser

  /** `std::string::find`: the first occurrence of `pat` at or after `from`. */
  method Find(s: string, pat: string, from: nat) returns (r: Option<nat>)
    requires |pat| > 0
    ensures r == FindFrom(s, pat, from)
  {
    var i := from;
    while i + |pat| <= |s|
      invariant from <= i
      invariant FindFrom(s, pat, from) == FindFrom(s, pat, i)
      decreases |s| - i
    {
      if s[i..i + |pat|] == pat {
        return Some(i);
      }
      i := i + 1;
    }
    return None;
  }

  /** Compiles `input`, starting with the delimiters `initial`. */
  method Compile(input: string, initial: Delims) returns (r: ParseResult)
    ensures r == Parse(input, initial)
  {
    var st := Initial(initial);
    while st.pos < |input|
      invariant Good(input, st)
      invariant Scan(input, st) == Parse(input, initial)
      decreases |input| - st.pos
    {
      var pos := st.pos;
      var open := st.delims.open;
      ScanStep(input, st);
      if pos + |open| <= |input| && input[pos..pos + |open|] == open {
        var next := ReadTag(input, st);
        if next.Stop? {
          return Failed(next.error);
        }
        st := next.state;
      } else {
        st := st.(pos := pos + 1, pending := st.pending + [input[pos]]);
      }
    }
    r := Finish(st);
  }

  /** Reads the tag whose open marker starts at `st.pos`: finds its closer
      (`}}}` for a triple mustache), trims what lies between, and acts on it. */
  method ReadTag(input: string, st: State) returns (r: StepResult)
    requires Good(input, st) && st.pos < |input| && OccursAt(st.delims.open, input, st.pos)
    ensures r == Step(input, st)
  {
    var closer, from := Closer(input, st), ContentsFrom(input, st);
    var end := Find(input, closer, from);
    if end.None? {
      UnclosedTagStep(input, st);
      return Stop(UnclosedTag(st.pos));
    }
    var e := end.value;
    assert from <= e && e + |closer| <= |input| by {
      assert OccursAt(closer, input, e);
    }
    var base := Flush(st).(pos := e + |closer|);
    var contents := Trim(input[from..e]);
    TagStepAt(input, st, e, base, contents);
    r := TagAction(input, base, st.pos, IsTriple(input, st), contents);
  }
}
