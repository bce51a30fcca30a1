# Mustache templates, modelled in Dafny

This project models the Mustache template engine that `include/mustache/tests.cpp`
exercises: a template class that compiles its text once and can then render it
many times against a context. The engine header itself is not part of this
model, so the engine's behaviour is reconstructed from what the test suite
asserts. Where a test settles a behaviour that could be read another way, the
model follows the test (see the end of "## Left out").

What is modelled:

- **Compilation** (`Parser`, `Scanner`, `Syntax`):
  - One pass over the input, with named states: literal text, tags between the
    current delimiters, and triple mustaches.
  - Tag classification (`#`, `^`, `/`, `>`, `&`, `!`, `=`, plain variable).
  - Set-delimiter directives.
  - The four compile errors, each with its offset and its exact message.
  - `Scanner.Compile` is the imperative scanning loop; it is proved equal to the
    functional pass `Parser.Parse`.
  - `ParseFacts` and `MarkerFacts` state what the pass does, tag by tag;
    `MarkerFacts` states it under any pair of delimiters.
- **Data and contexts** (`Data`, `Scope`):
  - Values: strings, booleans, lists, objects, partials, and two kinds of lambda.
  - The frame stack, with lookup of `.` and of dotted names.
  - The fixed context of the `my_context` test.
  - A context whose partials come from files.
- **Rendering** (`Render`):
  - Variables: escaped or not, through the template's escape function.
  - Sections over values and over lists, and inverted sections.
  - Lambdas whose output is compiled and rendered, and render-callback
    lambdas (`lambda2`) whose output is emitted as is, with a callback that
    compiles and renders the text it is given.
  - Partials.
  - Errors: the first fault stops the render.
- **The template object** (`Templates.Template`): validity, the error message,
  the custom escape function, and `render`. A compile error met during a
  render invalidates the template.
- **Escaping** (`Escape`):
  - HTML escaping, with an unescaping partner.
  - The test suite's backslash-escape loop, as an imperative method.
- **Utilities** (`Text`): `split` and the other string helpers the engine uses.
- **The file-partial cache** (`FilePartials.PartialCache`): the test suite's
  caching `get_partial`.
- **Test cases** (`Cases`, `RenderCases`, `SectionCases`, `LambdaCases`): a
  selection of the test suite's assertions, derived as lemmas from the
  general ones. The test groups without a lemma of their own are listed under
  "## Left out" with the general lemmas that cover them.
  `LambdaCases` follows each lambda test from the template text to the
  output or the error, including lambda output that holds tags.

## Model

| member | source | states |
|---|---|---|
| Text.SplitCases | include/mustache/tests.cpp:42-61 | `split` gives no piece for `""`, one for `"test"`, two for `"a.b"`, `[""]` for `"."` and `["a"]` for `"a."` |
| Text.SplitDropsOnlyTrailingEmpty | include/mustache/tests.cpp:42-61 | `split` is the full split on the separator, less at most one trailing empty piece |
| Text.JoinSplitAll | include/mustache/tests.cpp:42-61 | joining the full split's pieces with the separator gives back the input |
| Text.SplitAllJoin | include/mustache/tests.cpp:42-61 | splitting pieces that are joined with a separator they do not contain gives back the pieces |
| Text.SplitAllPiecesFree | include/mustache/tests.cpp:42-61 | no piece of a split contains the separator |
| Text.SplitAllFree | include/mustache/tests.cpp:42-61 | a string without the separator splits into itself alone |
| Text.SplitAllPrefix | include/mustache/tests.cpp:42-61 | a separator-free prefix joins the first piece and leaves the other pieces alone |
| Text.SplitAll | include/mustache/tests.cpp:42-61 | there is always at least one piece; `JoinSplitAll` and `SplitAllJoin` state that the pieces are the text between separators |
| Text.TrimLeft | include/mustache/tests.cpp:132-137 | the result is a suffix of the input, everything dropped is blank, and the result does not start blank |
| Text.TrimRight | include/mustache/tests.cpp:132-137 | the result is a prefix of the input, everything dropped is blank, and the result does not end blank |
| Text.Trim | include/mustache/tests.cpp:132-137 | the result is no longer than the input and is blank at neither end |
| Text.TrimDrops | include/mustache/tests.cpp:132-137 | the result is the input's run after its leading blanks, every character dropped before or after it is blank, and the result is empty exactly when the input is all blank |
| Text.TrimNonBlank | include/mustache/tests.cpp:132-137 | trimming a string that is blank at neither end changes nothing |
| Text.FindFrom | include/mustache/tests.cpp:471-475 | the position found is the first occurrence at or after the start; `None` means there is no occurrence at all |
| Text.IndexOf | include/mustache/tests.cpp:483-501 | the first index of a character, or `None` exactly when the character is absent |
| Text.IndexNotOf | include/mustache/tests.cpp:483-501 | the first index at or after the start holding another character; `None` means the rest is that character only |
| Text.NatToString | include/mustache/tests.cpp:448 | decimal notation: one or more digits |
| Text.DecimalRoundTrip | include/mustache/tests.cpp:448 | reading the decimal notation back gives the number |
| Syntax.Message | include/mustache/tests.cpp:443-501 | every compile error has a non-empty message |
| Syntax.Classify | include/mustache/tests.cpp:104-137 | a triple mustache is an unescaped variable; an empty tag is an escaped variable with the empty name; a tag without a sigil is an escaped variable |
| Syntax.ParseSetDelimiter | include/mustache/tests.cpp:157-190 | a directive accepted by the parser names two valid delimiters |
| Syntax.SplitDirective | include/mustache/tests.cpp:157-190 | the two tokens around the first run of spaces, accepted only when both are valid delimiters |
| Syntax.DirectiveOfTokens | include/mustache/tests.cpp:157-190 | `=open close=` with any number of spaces before, between and after the two tokens parses to that pair exactly when both tokens are valid delimiters |
| Syntax.SetDelimiterRoundTrip | include/mustache/tests.cpp:157-190 | writing a valid pair as a directive, padded or not, and parsing it gives the pair back |
| Syntax.NoSeparator | include/mustache/tests.cpp:487 | a directive without a space is rejected |
| Syntax.TrimPadded | include/mustache/tests.cpp:118-123 | spaces added on both sides of a word that is blank at neither end are exactly what trimming removes |
| Syntax.TrimBetween | include/mustache/tests.cpp:118-123 | any run of blanks before and after such a word trims away |
| Syntax.TrimLeftBlank | include/mustache/tests.cpp:118-123 | leading blanks are all that left trimming removes from text that starts with a non-blank |
| Syntax.TrimRightBlank | include/mustache/tests.cpp:118-123 | trailing blanks are all that right trimming removes from text that ends with a non-blank |
| Syntax.TrimAfterSpaces | include/mustache/tests.cpp:118-123 | spaces in front of a word that is blank at neither end trim away |
| Syntax.AmpersandTrim | include/mustache/tests.cpp:118-123 | the padded tag `  &   name  ` trims to `&`, the inner spaces and the name, and what follows the `&` trims to the name |
| Syntax.AmpersandClassify | include/mustache/tests.cpp:111-123 | a tag whose contents start with `&` and whose rest trims to a name is an unescaped variable of that name |
| Cases.TooShort | include/mustache/tests.cpp:485 | `=< =` is rejected |
| Cases.NotTerminated | include/mustache/tests.cpp:486 | `=....` is rejected |
| Cases.NoSpace | include/mustache/tests.cpp:487 | `=...=` is rejected |
| Cases.TwoTokens | include/mustache/tests.cpp:488-491 | two space-separated tokens are rejected when either is not a valid delimiter |
| Cases.EqualInClose | include/mustache/tests.cpp:488 | `=.  ==` is rejected |
| Cases.EqualInOpen | include/mustache/tests.cpp:489 | `==  .=` is rejected |
| Cases.SpaceInClose | include/mustache/tests.cpp:490 | `=[ ] ] ]=` is rejected |
| Cases.SpaceInClose2 | include/mustache/tests.cpp:491 | `=[ [ ]=` is rejected |
| Cases.ShortDirectiveError | include/mustache/tests.cpp:485 | `test {{=< =}}` fails with an invalid set-delimiter tag at 5 |
| Cases.UnterminatedDirectiveError | include/mustache/tests.cpp:486 | `test {{=....}}` fails with an invalid set-delimiter tag at 5 |
| Cases.UnseparatedDirectiveError | include/mustache/tests.cpp:487 | `test {{=...=}}` fails with an invalid set-delimiter tag at 5 |
| Cases.EqualInCloseError | include/mustache/tests.cpp:488 | `test {{=.  ==}}` fails with an invalid set-delimiter tag at 5 |
| Cases.EqualInOpenError | include/mustache/tests.cpp:489 | `test {{==  .=}}` fails with an invalid set-delimiter tag at 5 |
| Cases.SpaceInCloseError | include/mustache/tests.cpp:490 | `test {{=[ ] ] ]=}}` fails with an invalid set-delimiter tag at 5 |
| Cases.SpaceInClose2Error | include/mustache/tests.cpp:491 | `test {{=[ [ ]=}}` fails with an invalid set-delimiter tag at 5 |
| Cases.SpacedDirective | include/mustache/tests.cpp:183-188 | `{{= @   @ =}}` between two bar characters compiles to the two bars around a switch to `@` and `@` |
| Cases.TripleName | include/mustache/tests.cpp:104-109 | `Hello {{{name}}}` compiles to its text and one unescaped variable |
| Cases.AmpersandName | include/mustache/tests.cpp:111-116 | `Hello {{&name}}` compiles to its text and one unescaped variable |
| Cases.SpacedAmpersand | include/mustache/tests.cpp:118-123 | `Hello {{   &      name  }}` compiles to its text and one unescaped variable |
| Cases.NoCachingCompiles | include/mustache/tests.cpp:659-667 | `{{lambda}} == {{{lambda}}} == {{lambda}}` compiles to an escaped, an unescaped and an escaped variable with ` == ` between them |
| Cases.FilePartialCompiles | include/mustache/tests.cpp:1162-1170 | `Hello {{>what}}{{punctuation}}` compiles to its text, the partial `what` and an escaped variable |
| Cases.UnclosedSectionError | include/mustache/tests.cpp:445-449 | `test {{#employees}}` fails with an unclosed section `employees` at 5 |
| Cases.UnclosedMessage | include/mustache/tests.cpp:448 | the message of that error is `Unclosed section "employees" at 5` |
| Cases.UnclosedTagError | include/mustache/tests.cpp:471-475 | `test {{employees` fails with an unclosed tag at 5 |
| Cases.UnopenedSectionError | include/mustache/tests.cpp:477-481 | `test {{/employees}}` fails with an unopened section `employees` at 5 |
| Cases.UnopenedMessage | include/mustache/tests.cpp:480 | the message of that error is `Unopened section "employees" at 5` |
| Cases.TagMessages | include/mustache/tests.cpp:471-501 | the messages `Unclosed tag at 5` and `Invalid set delimiter tag at 5` |
| Cases.NestedUnclosedError | include/mustache/tests.cpp:451-459 | `{{#var1}}hello{{#var2}}world` fails with an unclosed section `var1` at 0 |
| Cases.NestedMisclosedError | include/mustache/tests.cpp:461-469 | `{{#var1}}hello{{#var2}}world{{/var1}}` fails with an unclosed section `var1` at 0 |
| Cases.NestedMessage | include/mustache/tests.cpp:451-469 | the message `Unclosed section "var1" at 0` |
| Parser.Attach | include/mustache/tests.cpp:192-222 | adding a node keeps the position, the delimiters, the pending text and every open section's start |
| Parser.Flush | include/mustache/tests.cpp:192-222 | flushing the pending text keeps the position, the delimiters and the open sections' starts, and leaves nothing pending |
| Parser.AttachPlaces | include/mustache/tests.cpp:192-222 | the node goes last into the children of the innermost open section, or last at the top level when no section is open; nothing else changes |
| Parser.FlushPlaces | include/mustache/tests.cpp:192-222 | with nothing pending the state is unchanged; otherwise the pending text becomes a text node, placed where `Attach` places a node |
| Parser.Step | include/mustache/tests.cpp:141-190 | a step that goes on leaves a well-formed state strictly further into the input |
| Parser.TagStep | include/mustache/tests.cpp:141-190 | reading a tag that goes on leaves a well-formed state past the tag's start |
| Parser.TagAction | include/mustache/tests.cpp:192-243 | acting on a classified tag that goes on leaves a well-formed state |
| Parser.CloseSection | include/mustache/tests.cpp:192-222 | closing the innermost section leaves a well-formed state at the same position |
| Parser.CloseSectionPlaces | include/mustache/tests.cpp:192-222 | the innermost open section is finished and placed where `Attach` places a node, with the raw text between its tags as its body, closed exactly when the close tag carries its name |
| Parser.FirstUnclosed | include/mustache/tests.cpp:451-469 | the error found among the compiled nodes is always an unclosed section |
| Parser.FirstUnclosedInOrder | include/mustache/tests.cpp:451-469 | the section reported is the first one, in the order of the open tags and at any depth, that was not closed by a close tag of its own name |
| Parser.NoneUnclosed | include/mustache/tests.cpp:451-469 | nothing is reported exactly when every section, at any depth, was closed by a close tag of its own name |
| Parser.LiteralRun | include/mustache/tests.cpp:63-102 | text at which no open marker starts is collected into the pending literal unchanged |
| Parser.UnclosedTagStep | include/mustache/tests.cpp:471-475 | an open marker with no closer after it fails with an unclosed tag at the marker |
| Parser.TagStepAt | include/mustache/tests.cpp:132-190 | a tag is acted on with its trimmed contents, and the pass resumes after its closer |
| Scanner.Find | include/mustache/tests.cpp:471-475 | the imperative search returns what `FindFrom` specifies |
| Scanner.Compile | include/mustache/tests.cpp:63-501 | the imperative compile loop returns exactly what the functional pass `Parse` specifies |
| Scanner.ReadTag | include/mustache/tests.cpp:141-190 | the imperative tag reader returns exactly the pass's step |
| ParseFacts.TagFree | include/mustache/tests.cpp:63-71 | text without the open marker compiles to that text alone |
| ParseFacts.VariableIn | include/mustache/tests.cpp:63-102 | text, `{{name}}`, text compiles to the two texts around one escaped variable |
| ParseFacts.TripleIn | include/mustache/tests.cpp:104-109 | text, `{{{name}}}`, text compiles to the two texts around one unescaped variable |
| ParseFacts.TripleStep | include/mustache/tests.cpp:104-109 | the pass reads a triple mustache as an unescaped variable and resumes after its `}}}` |
| ParseFacts.AmpersandIn | include/mustache/tests.cpp:111-123 | text, `{{&name}}` with any spaces around the `&` and the name, text compiles to the two texts around one unescaped variable |
| ParseFacts.AmpersandStep | include/mustache/tests.cpp:111-123 | the pass reads a padded `&` tag as an unescaped variable and resumes after it |
| ParseFacts.DirectiveIn | include/mustache/tests.cpp:183-188 | text, a directive padded or not, text compiles to a set-delimiter node between the texts, the text after it read under the new pair |
| ParseFacts.MatchedSectionIn | include/mustache/tests.cpp:192-243 | text, `{{#n}}x{{/n}}` (or `^`), text compiles to one section closed by its own name, whose children are the text inside and whose body is that raw text |
| ParseFacts.MatchedVariableSectionIn | include/mustache/tests.cpp:677-683 | a section around text and a variable compiles to one closed section whose children are those nodes and whose body is the raw text between its tags, tag included |
| ParseFacts.MatchedClose | include/mustache/tests.cpp:192-222 | a close tag with the open section's name finishes it at the top level with the raw text between the tags as its body |
| ParseFacts.VariableTagScan | include/mustache/tests.cpp:677-683 | a variable tag inside the open section joins its children after the pending text |
| ParseFacts.SameNameThrice | include/mustache/tests.cpp:659-667 | `{{n}}sep{{{n}}}sep{{n}}` compiles to the escaped, unescaped and escaped variable with the separator text between |
| ParseFacts.TextPartialVariable | include/mustache/tests.cpp:1162-1170 | text, `{{>p}}`, `{{m}}` compiles to the text, a partial reference and an escaped variable |
| ParseFacts.FlatVariable | include/mustache/tests.cpp:63-102 | a variable tag at the top level is added after the text read so far, and the pass resumes after it |
| ParseFacts.FlatTriple | include/mustache/tests.cpp:104-109 | a triple mustache at the top level is added as an unescaped variable after the text read so far |
| ParseFacts.FlatPartial | include/mustache/tests.cpp:571-624 | a partial tag at the top level is added as a partial reference after the text read so far |
| ParseFacts.FlatText | include/mustache/tests.cpp:63-71 | text without an open brace is added to the pending literal, and the pass resumes after it |
| ParseFacts.OpenAction | include/mustache/tests.cpp:192-222 | `#name` opens a section that records its start, its body start and the delimiters in force |
| ParseFacts.CloseAction | include/mustache/tests.cpp:477-481 | `/name` with nothing open fails as an unopened section; otherwise it closes the innermost section |
| ParseFacts.DirectiveStep | include/mustache/tests.cpp:157-190 | a well-formed directive, padded or not, adds a set-delimiter node and puts the new pair in force for the rest of the input |
| ParseFacts.VariableStep | include/mustache/tests.cpp:63-102 | a plain tag adds an escaped variable and the pass resumes after it |
| ParseFacts.UnclosedSectionAt | include/mustache/tests.cpp:445-449 | a section opened at the end of the input fails as unclosed, at its own offset |
| ParseFacts.UnopenedSectionAt | include/mustache/tests.cpp:477-481 | a close tag with nothing open fails as unopened, at its own offset, whatever follows |
| ParseFacts.UnclosedTagAt | include/mustache/tests.cpp:471-475 | an open marker with no closer in the rest of the input fails as an unclosed tag |
| ParseFacts.InvalidDelimiterAt | include/mustache/tests.cpp:483-501 | a directive the parser rejects fails as an invalid set-delimiter tag at the tag's offset |
| ParseFacts.BottomUnclosed | include/mustache/tests.cpp:451-469 | when no section has been finished at the top level, the outermost open section is the one reported unclosed at the end of the input |
| ParseFacts.CloseKeepsBottom | include/mustache/tests.cpp:461-469 | with two sections open, a close tag of any name keeps the outermost section open |
| ParseFacts.NestedUnclosedIn | include/mustache/tests.cpp:451-459 | two nested opens and no close report the outer section, at 0 |
| ParseFacts.NestedClosedOnceIn | include/mustache/tests.cpp:461-469 | two nested opens and one close report the outer section, at 0 |
| ParseFacts.ClassifyComment | include/mustache/tests.cpp:141-155 | contents that start with `!` classify as a comment, whatever follows the `!` |
| ParseFacts.CommentStep | include/mustache/tests.cpp:141-155 | one step of the pass over `{{!c}}` flushes the pending text and attaches a comment node after it |
| ParseFacts.CommentIn | include/mustache/tests.cpp:141-155 | `t{{!c}}u` compiles to the text, one comment node and the text: what the comment says, spaces included, leaves no node |
| ParseFacts.TextVariableTriple | include/mustache/tests.cpp:669-675 | `t{{n}}{{{n}}}` compiles to the text, the escaped variable and the unescaped one |
| Escape.EscapeChar | include/mustache/tests.cpp:97-102 | special characters become an entity `&…;`; every other character is kept |
| Escape.HtmlEscapeAppend | include/mustache/tests.cpp:97-102 | escaping distributes over concatenation |
| Escape.HtmlEscapeSafe | include/mustache/tests.cpp:97-102 | escaped text contains no `<`, `>`, `"` or `'` |
| Escape.HtmlEscapePlain | include/mustache/tests.cpp:97-102 | text without special characters escapes to itself |
| Escape.UnescapeChar | include/mustache/tests.cpp:97-102 | unescaping undoes one escaped character, whatever follows |
| Escape.HtmlRoundTrip | include/mustache/tests.cpp:97-102 | unescaping escaped text gives the text back |
| Escape.BackslashChar | include/mustache/tests.cpp:955-963 | a quote or a newline gets a backslash in front; every other character is kept |
| Escape.BackslashEscape | include/mustache/tests.cpp:952-966 | the loop returns the input with each quote and newline preceded by a backslash |
| Escape.BackslashLength | include/mustache/tests.cpp:952-966 | the output is longer by the number of quotes and newlines |
| Escape.BackslashPlain | include/mustache/tests.cpp:952-966 | text without quotes or newlines is returned unchanged |
| Escape.BackslashedHead | include/mustache/tests.cpp:952-966 | the output never starts with a bare quote or newline |
| Escape.BackslashRoundTrip | include/mustache/tests.cpp:952-966 | removing the added backslashes gives the input back |
| Escape.Apply | include/mustache/tests.cpp:1074-1081 | applying the escape function fails exactly when it is the empty handler |
| Data.Member | include/mustache/tests.cpp:303-327 | an object's member when the key is present; nothing for a missing key or a value that is not an object |
| Data.EvalLambda | include/mustache/tests.cpp:626-667 | calling a lambda never lowers the call counter and leaves it alone unless the lambda counts |
| Data.PureLambda | include/mustache/tests.cpp:626-648 | a lambda that does not count returns the same text whatever the counter |
| Data.TallyCounts | include/mustache/tests.cpp:659-667 | the counting lambda returns the next count in decimal |
| Scope.Push | include/mustache/tests.cpp:1093-1096 | entering a value puts it on top of the frames; the fixed context ignores entering |
| Scope.FindInFrames | include/mustache/tests.cpp:303-327 | the innermost frame that has the name wins; `None` means no frame has it |
| Scope.LookupFrames | include/mustache/tests.cpp:722-777 | `.` is the innermost frame; a name without dots is searched frame by frame |
| Scope.Walk | include/mustache/tests.cpp:748-760 | a missing link gives nothing |
| Scope.DottedLookup | include/mustache/tests.cpp:722-777 | `a.b.c` finds `a` in the frames and then walks `b` and `c` strictly inside it |
| Scope.WalkNest | include/mustache/tests.cpp:742-768 | walking a chain of nested objects by their keys reaches the leaf |
| Scope.BrokenChain | include/mustache/tests.cpp:748-760 | a chain whose first link is missing resolves to nothing |
| Scope.PushShadows | include/mustache/tests.cpp:303-327 | a key of the entered object hides every outer frame |
| Scope.PushTransparent | include/mustache/tests.cpp:770-776 | a name the entered value does not have resolves as it did outside |
| Scope.DotIsInnermost | include/mustache/tests.cpp:279-287 | `.` is the value just entered |
| Scope.FixedContext | include/mustache/tests.cpp:1085-1111 | the fixed context knows one name, ignores entering, and has no partials |
| Render.Emit | include/mustache/tests.cpp:971-1081 | unescaped text is written as is; escaped text through the empty handler faults with nothing recorded; the counter is unchanged |
| Render.RenderNodes | include/mustache/tests.cpp:443-569 | every fault that invalidates the template carries a non-empty message |
| Render.RenderNode | include/mustache/tests.cpp:443-569 | every fault that invalidates the template carries a non-empty message |
| Render.EvalLambda2 | include/mustache/tests.cpp:920-945 | every fault that invalidates the template carries a non-empty message |
| Render.RenderSource | include/mustache/tests.cpp:503-569 | every fault that invalidates the template carries a non-empty message |
| Render.Rerender | include/mustache/tests.cpp:876-933 | every fault that invalidates the template carries a non-empty message |
| Render.RenderEach | include/mustache/tests.cpp:245-301 | every fault that invalidates the template carries a non-empty message |
| Render.RenderTruthy | include/mustache/tests.cpp:303-327 | every fault that invalidates the template carries a non-empty message |
| Render.RenderVariable | include/mustache/tests.cpp:63-139 | every fault that invalidates the template carries a non-empty message |
| Render.Later | include/mustache/tests.cpp:920-933 | the later part's fault stands, except that a throw with nothing recorded keeps the message an earlier callback recorded |
| RenderFacts.RenderNodesAppend | include/mustache/tests.cpp:503-513 | rendering `a + b` renders `a`, and then `b` only if `a` did not fault |
| RenderFacts.RenderText | include/mustache/tests.cpp:63-71 | literal text is written as is |
| RenderFacts.RenderPlainSource | include/mustache/tests.cpp:579-586 | text without the open marker re-renders to itself |
| RenderFacts.RenderInvalidSource | include/mustache/tests.cpp:503-567 | text that does not compile faults with its compile error's message and writes nothing |
| RenderFacts.MissingVariable | include/mustache/tests.cpp:1121-1125 | a name that resolves to nothing writes nothing |
| RenderFacts.StringVariable | include/mustache/tests.cpp:948-1081 | a string is written as is by an unescaped tag, HTML-escaped or backslash-escaped by an escaped tag, and faults through the empty handler |
| RenderFacts.OtherVariable | include/mustache/tests.cpp:63-139 | a variable that names a non-string, non-lambda value writes nothing |
| RenderFacts.Lambda2Variable | include/mustache/tests.cpp:935-945 | a render-callback lambda used as a variable faults with `Lambda with render argument is not allowed for regular variables` |
| RenderFacts.PlainLambdaVariable | include/mustache/tests.cpp:626-657 | a variable lambda's text without tags is written, escaped as the tag says |
| RenderFacts.InvalidLambdaVariable | include/mustache/tests.cpp:503-513 | a variable lambda whose text does not compile faults with that error's message |
| RenderFacts.CountingVariable | include/mustache/tests.cpp:659-667 | each use of the counting lambda writes the next count |
| RenderFacts.NoCaching | include/mustache/tests.cpp:659-667 | the five nodes of `{{x}} == {{{x}}} == {{x}}` write three successive counts with the counting lambda: lambda results are not cached |
| RenderFacts.SkippedSection | include/mustache/tests.cpp:192-243 | a section on a missing or false value writes nothing; the inverted one renders its children in the current context |
| RenderFacts.HiddenInverted | include/mustache/tests.cpp:224-243 | an inverted section on a truthy value writes nothing |
| RenderFacts.ValueSection | include/mustache/tests.cpp:303-327 | a section on a truthy non-list value renders its children with that value entered |
| RenderFacts.ListSection | include/mustache/tests.cpp:245-301 | a section on a non-empty list renders its children once per item |
| RenderFacts.EachDot | include/mustache/tests.cpp:279-287 | `{{#list}}pre{{.}}sep{{/list}}`, with the escaped `{{.}}`, over a list of strings writes, item after item, `pre`, the string as the escaper writes it, and `sep` |
| RenderFacts.DotItem | include/mustache/tests.cpp:279-287 | one item of that list: `pre`, the item's string as the escaper writes it, and `sep` |
| RenderFacts.EachPlain | include/mustache/tests.cpp:279-287 | under the HTML escape, a list of strings without HTML special characters is written as the plain join: each string between `pre` and `sep`, as it is |
| RenderFacts.PlainLambdaSection | include/mustache/tests.cpp:677-705 | a section lambda is called with the body its node holds; text it returns without the open marker is written unescaped |
| RenderFacts.InvalidLambdaSection | include/mustache/tests.cpp:557-567 | a section lambda whose text does not compile with the section's delimiters faults with that message |
| RenderFacts.VerbatimLambda2 | include/mustache/tests.cpp:850-859 | a render-callback lambda that ignores the callback has its text written verbatim, tags included |
| RenderFacts.PlainCallback | include/mustache/tests.cpp:876-887 | the render callback on tag-free text writes that text, escaped as asked |
| RenderFacts.InvalidCallback | include/mustache/tests.cpp:920-933 | the render callback on text that does not compile faults with that message |
| RenderFacts.StickyCallbackFault | include/mustache/tests.cpp:920-933 | a fault raised by the callback survives the rest of the lambda's output |
| RenderFacts.ThrowKeepsCallbackError | include/mustache/tests.cpp:920-933 | a throw after a callback whose text did not compile aborts the lambda and keeps the message that callback recorded |
| RenderFacts.MissingPartial | include/mustache/tests.cpp:573-577 | a partial that resolves to nothing writes nothing |
| RenderFacts.TextlessPartial | include/mustache/tests.cpp:571-624 | a partial tag naming a value with no text writes nothing |
| RenderFacts.PartialSource | include/mustache/tests.cpp:571-624 | a partial with text renders as that text compiled with the default delimiters, in the context of its tag |
| RenderFacts.PlainPartial | include/mustache/tests.cpp:579-586 | a partial's tag-free text is written |
| RenderFacts.InvalidPartial | include/mustache/tests.cpp:530-540 | a partial whose text does not compile faults with that message |
| RenderFacts.RenderPair | include/mustache/tests.cpp:63-102 | a node followed by others writes both outputs when neither faults |
| RenderFacts.CompiledSource | include/mustache/tests.cpp:503-569 | rendering a template text that compiles is rendering its nodes |
| RenderFacts.OneNode | include/mustache/tests.cpp:63-102 | a single node renders, as a sequence, to what it renders alone |
| RenderFacts.RerenderCompiled | include/mustache/tests.cpp:626-717 | text handed back by a lambda or by the render callback is compiled and its nodes are rendered in the same context; their output is escaped when asked, and on a fault none of it is kept and the fault stands |
| RenderFacts.LambdaVariableSource | include/mustache/tests.cpp:650-657 | a lambda used as a variable is called with the empty string, and its text is compiled with the default delimiters, whatever pair is in force at the tag, then rendered and escaped as the tag says |
| RenderFacts.LambdaVariableWrites | include/mustache/tests.cpp:626-657 | a variable lambda whose text compiles to nodes that write `w` makes the tag write `w`, escaped when the tag escapes |
| RenderFacts.LambdaVariableFaults | include/mustache/tests.cpp:515-528 | a variable lambda whose text compiles to nodes that fault makes the tag write nothing and keeps that fault |
| RenderFacts.LambdaSectionSource | include/mustache/tests.cpp:694-705 | a section lambda is called with the raw body, and its text is compiled with the delimiters in force at the open tag and rendered unescaped |
| RenderFacts.LambdaSectionWrites | include/mustache/tests.cpp:685-711 | a section lambda whose text compiles to nodes that write `w` makes the section write `w`, unescaped |
| RenderFacts.Lambda2SectionSource | include/mustache/tests.cpp:839-917 | a render-callback lambda as a section is run on the raw body with the section's delimiters, and what it returns is the section's output |
| RenderFacts.CallbackSource | include/mustache/tests.cpp:876-917 | the render callback compiles its text with the section's delimiters and renders it in the section's context, escaped when asked |
| RenderFacts.CallbackWrites | include/mustache/tests.cpp:876-887 | the render callback on text that compiles to nodes writing `w` gives back `w`, escaped when asked |
| RenderFacts.CleanCat | include/mustache/tests.cpp:906-917 | two parts of a render-callback lambda that both succeed give their texts joined in order, with the counter carried through both |
| RenderFacts.CommentNode | include/mustache/tests.cpp:141-155 | a comment node writes nothing and leaves the counter alone |
| RenderCases.HelloWhat | include/mustache/tests.cpp:1117 | `Hello {{what}}` compiles to its text and one escaped variable |
| RenderCases.CustomContext | include/mustache/tests.cpp:1115-1119 | `Hello {{what}}` in the fixed context writes `Hello Steve` |
| RenderCases.CustomContextUnknown | include/mustache/tests.cpp:1121-1125 | `Hello {{world}}` in the fixed context writes `Hello ` |
| RenderCases.FaultFirst | include/mustache/tests.cpp:503-513 | a node that faults ends the render there |
| RenderCases.WhatUnclosed | include/mustache/tests.cpp:503-513 | `{{#what}}` fails with an unclosed section at 0 |
| RenderCases.LambdaError | include/mustache/tests.cpp:503-513 | the compiled nodes of `Hello {{lambda}}!` (the text, the lambda tag and `!`), with a lambda returning `{{#what}}`, write `Hello ` and fault with `Unclosed section "what" at 0`; the `!` is never reached |
| Scope.DottedPartialKey | include/mustache/tests.cpp:616-623 | the partial name `a.b` is taken whole and finds the value stored under the key `a.b`, while the variable lookup of `a.b` splits it at the dot and finds nothing |
| Cases.DottedPartialCompiles | include/mustache/tests.cpp:616-623 | `{{>a.b}}` compiles to one reference to the partial `a.b`, dot included |
| RenderCases.DottedPartialRenders | include/mustache/tests.cpp:616-623 | `{{>a.b}}` with the partial `test` stored under `a.b` writes `test` |
| RenderCases.FilePartial | include/mustache/tests.cpp:1162-1170 | the three nodes of `Hello {{>what}}{{punctuation}}`, with file `what` holding `World`, write `Hello World!` |
| RenderCases.FilePartialRenders | include/mustache/tests.cpp:1162-1170 | the template text `Hello {{>what}}{{punctuation}}` in that context writes `Hello World!` |
| RenderCases.NoCachingRenders | include/mustache/tests.cpp:659-667 | the template text `{{lambda}} == {{{lambda}}} == {{lambda}}` writes three successive counts, `1 == 2 == 3` from a fresh counter |
| RenderCases.TripleUnescaped | include/mustache/tests.cpp:104-109 | `Hello {{{name}}}` writes the value of `name` without escaping |
| RenderCases.AmpersandUnescaped | include/mustache/tests.cpp:111-116 | `Hello {{&name}}` writes the value of `name` without escaping |
| RenderCases.SpacedAmpersandUnescaped | include/mustache/tests.cpp:118-123 | `Hello {{   &      name  }}` writes the value of `name` without escaping |
| RenderCases.SpacedDirectiveRenders | include/mustache/tests.cpp:183-188 | `{{= @   @ =}}` between two bar characters compiles and writes the two bars alone |
| RenderCases.DirectiveBetween | include/mustache/tests.cpp:157-190 | a set-delimiter node writes nothing between the texts around it |
| RenderCases.CommentCompiles | include/mustache/tests.cpp:141-155 | `t{{!c}}u` with neither text empty compiles to the two texts around one comment node |
| RenderCases.CommentRenders | include/mustache/tests.cpp:141-155 | `t{{!c}}u` writes `t` followed by `u`: the comment writes nothing, whatever it says |
| RenderCases.CommentSimple | include/mustache/tests.cpp:143-147 | `<h1>Today{{! ignore me }}.</h1>` writes `<h1>Today.</h1>` |
| RenderCases.CommentNewlines | include/mustache/tests.cpp:149-154 | `Hello\n{{! ignore me }}\nWorld\n` writes `Hello\n\nWorld\n`, keeping the line breaks on both sides of the comment |
| RenderCases.LambdaErrorRenders | include/mustache/tests.cpp:503-513 | the template text `Hello {{lambda}}!`, with a lambda returning `{{#what}}`, writes `Hello ` and faults with `Unclosed section "what" at 0` |
| RenderCases.LambdaEscapeCompiles | include/mustache/tests.cpp:669-675 | `<{{lambda}}{{{lambda}}}` compiles to the text, the escaped lambda tag and the unescaped one |
| RenderCases.LambdaEscapeRenders | include/mustache/tests.cpp:669-675 | `<{{lambda}}{{{lambda}}}` with a lambda returning `>` writes `<&gt;>`: the escaped tag escapes the lambda's text and the triple does not |
| SectionCases.NotShownCompiles | include/mustache/tests.cpp:194-212 | `{{#var}}not shown{{/var}}` compiles to one closed section holding its text |
| SectionCases.NotShown | include/mustache/tests.cpp:194-212 | that section writes nothing when `var` is missing, false or an empty list |
| SectionCases.ShownCompiles | include/mustache/tests.cpp:226-241 | `{{^var}}shown{{/var}}` compiles to one closed inverted section holding its text |
| SectionCases.Shown | include/mustache/tests.cpp:226-241 | that inverted section writes `shown` when `var` is missing, false or an empty list |
| SectionCases.SectionAlone | include/mustache/tests.cpp:192-243 | a lone `{{#n}}x{{/n}}` or `{{^n}}x{{/n}}` compiles to one closed section whose body is the raw text |
| SectionCases.VariableSectionBetween | include/mustache/tests.cpp:677-719 | `<{{#n}}{{m}}{{/n}}>` or the `^` form compiles to one section between `<` and `>` whose raw body is the variable tag |
| SectionCases.LambdaSectionCompiles | include/mustache/tests.cpp:677-683 | `<{{#lambda}}{{x}}{{/lambda}}>` compiles to a section whose body is the raw `{{x}}` |
| SectionCases.LambdaSectionGetsRawBody | include/mustache/tests.cpp:677-683 | the section lambda is called with the raw text `{{x}}` and the template writes `<yes>` |
| SectionCases.InvertedLambdaCompiles | include/mustache/tests.cpp:713-719 | `<{{^lambda}}{{static}}{{/lambda}}>` compiles to an inverted section around the variable |
| SectionCases.InvertedLambdaHidden | include/mustache/tests.cpp:713-719 | a lambda under the name hides the inverted section: `<>` is written and the lambda is never called |
| FilePartials.PartialCache.AsContext | include/mustache/tests.cpp:1130-1135 | names resolve through the data frames |
| FilePartials.PartialCache.constructor | include/mustache/tests.cpp:1132-1135 | the cache starts empty and consistent with the files |
| FilePartials.PartialCache.GetPartial | include/mustache/tests.cpp:1137-1147 | the value returned is what an uncached lookup gives; it is found exactly when the file exists; the cache gains that file's entry only on a first successful read, and every entry stays the contents of its file |
| Templates.Template.constructor | include/mustache/tests.cpp:445-501 | a template that compiles is valid and holds the compiled nodes; one that fails is invalid, holds no nodes and keeps the error's message |
| Templates.Template.IsValid | include/mustache/tests.cpp:503-513 | valid exactly when the error message is empty |
| Templates.Template.ErrorMessage | include/mustache/tests.cpp:503-513 | the message, which is empty exactly while valid |
| Templates.Template.SetCustomEscape | include/mustache/tests.cpp:1074-1081 | replaces the escape function and nothing else |
| Templates.Template.Render | include/mustache/tests.cpp:443-569 | an invalid template writes nothing; otherwise the text up to the first fault is returned, a compile fault invalidates the template with its message, and the empty handler throws, leaving the template as it was unless a callback recorded a compile error before the throw, which then invalidates it |
| LambdaCases.HelloPlanetCompiles | include/mustache/tests.cpp:628-635 | `Hello {{p}}` compiles to the text and one escaped variable |
| LambdaCases.BasicTag | include/mustache/tests.cpp:628-635 | the tag of a lambda returning `Hello {{p}}` writes `Hello ` and the value of `p` |
| LambdaCases.BasicRenders | include/mustache/tests.cpp:628-648 | the template `{{lambda}}`, with the lambda returning `Hello {{planet}}` and `planet` set to a plain string, writes `Hello ` and that string: the lambda's text is rendered (the `basic` and `basic_t` sections, which differ only in how the one-argument lambda is spelled) |
| LambdaCases.DelimitersCompiles | include/mustache/tests.cpp:650-657 | a template that switches to bar delimiters and then holds text, an `&` tag between bars and text compiles to the switch, the text, an unescaped variable and the text |
| LambdaCases.BarsTag | include/mustache/tests.cpp:650-657 | under bar delimiters, the unescaped tag of a lambda whose text is the name `p` between bars, ` => ` and `{{p}}` writes the barred name as is, ` => ` and the escaped value of `p`: the lambda's text is compiled with the default delimiters |
| LambdaCases.DelimitersRenders | include/mustache/tests.cpp:650-657 | the whole `delimiters` template writes `t`, the barred name `planet` as is, ` => `, the escaped value of `planet`, and `u` |
| LambdaCases.ExpansionCompiles | include/mustache/tests.cpp:685-692 | `t{{#n}}x{{/n}}u` compiles to the text, the closed section around its body, and the text |
| LambdaCases.ExpansionSection | include/mustache/tests.cpp:685-692 | a section whose lambda returns its body, `{{planet}}` and its body again writes the body, the escaped value of `planet` and the body |
| LambdaCases.ExpansionRenders | include/mustache/tests.cpp:685-692 | the `section_expansion` template writes `t`, the expanded section and `u`; with the test's texts that is `<-Earth->` |
| LambdaCases.BarsSectionCompiles | include/mustache/tests.cpp:694-705 | a template that switches to bar delimiters and then holds text, a section between bar tags and text compiles to the switch, the text, a closed section that records the bar delimiters, and the text |
| LambdaCases.BarsSection | include/mustache/tests.cpp:694-705 | under bar delimiters, a section lambda returning its body, `{{planet}} => `, the name `planet` between bars and its body again writes `{{planet}}` as is and fills in the barred tag |
| LambdaCases.BarsSectionRenders | include/mustache/tests.cpp:694-705 | the `section_alternate_delimiters` template writes `t`, the rendered section and `u`; with the test's texts that is `<-{{planet}} => Earth->` |
| LambdaCases.MultipleCompiles | include/mustache/tests.cpp:707-711 | two sections on the same lambda with text between them compile to the two sections, each with its own body, and the text |
| LambdaCases.WrappedSection | include/mustache/tests.cpp:707-711 | a section whose lambda wraps its body in two copies of `w` writes that wrapped body |
| LambdaCases.MultipleRenders | include/mustache/tests.cpp:707-711 | the lambda is called once per section, each time with that section's body; with the test's texts the template writes `__FILE__ != __LINE__` |
| LambdaCases.WrappedCompiles | include/mustache/tests.cpp:839-848 | `{{#n}}{{m}}b{{/n}}` compiles to one closed section whose children are the variable and the text, and whose body is the raw text between the tags |
| LambdaCases.AutoRenders | include/mustache/tests.cpp:839-848 | a section lambda returning its body between `l` and `r` has that text rendered, so the variable is filled in: `<b>Willy is awesome.</b>` |
| LambdaCases.VerbatimRenders | include/mustache/tests.cpp:850-859 | a render-callback lambda that returns its body between `l` and `r` without calling the callback writes the body's tags as they are: `<b>{{name}} is awesome.</b>` |
| LambdaCases.ManualRenders | include/mustache/tests.cpp:876-917 | a render-callback lambda that renders its body through the callback writes the rendered body between `l` and `r`, and `r` is not compiled again: `<b>Willy is awesome.</b>`, or with the appended tag `<b>Willy is awesome.</b>Hello {{name}}.` |
| LambdaCases.NestedLambdaRenders | include/mustache/tests.cpp:515-528 | `Hello {{lambda}}!` whose lambda returns `{{what}}`, where `what` returns `{{#blah}}`, writes `Hello ` and faults with `Unclosed section "blah" at 0` |
| LambdaCases.NestedPartialRenders | include/mustache/tests.cpp:542-555 | `Hello {{>partial}}!` whose partial is `{{what}}`, where `what` returns `{{#blah}}`, writes `Hello ` and faults with `Unclosed section "blah" at 0` |
| LambdaCases.SectionLambdaUnclosed | include/mustache/tests.cpp:557-567 | `{{#what}}asdf{{/what}}` whose lambda returns `{{blah` writes nothing and faults with `Unclosed tag at 0` |
| LambdaCases.CallbackUnclosed | include/mustache/tests.cpp:920-933 | a render-callback lambda whose callback is given `{{name is awesome` and which returns nothing writes nothing, and the render faults with `Unclosed tag at 0` |
| LambdaCases.CallbackAsVariable | include/mustache/tests.cpp:935-945 | `{{name}} is awesome.` with a render-callback lambda under `name` writes nothing and faults with `Lambda with render argument is not allowed for regular variables` |
| MarkerFacts.TextAhead | include/mustache/tests.cpp:157-190 | under any delimiters, text without the open marker joins the pending text and the pass goes on after it |
| MarkerFacts.VariableAhead | include/mustache/tests.cpp:157-190 | under any delimiters, a plain tag next attaches an escaped variable after the pending text, and the pass goes on after the close marker |
| MarkerFacts.AmpersandAhead | include/mustache/tests.cpp:650-657 | under any delimiters, an `&` tag next attaches an unescaped variable, and the pass goes on after the close marker |
| MarkerFacts.OpenTagStep | include/mustache/tests.cpp:694-705 | under any delimiters, an open tag pushes a section that records its offset, where its body starts and the delimiters in force |
| MarkerFacts.CloseAhead | include/mustache/tests.cpp:694-705 | under any delimiters, the close tag of the one open section finishes it with its children, its raw body and the delimiters it was opened under |
| MarkerFacts.SectionAhead | include/mustache/tests.cpp:694-705 | under any delimiters, a section around text is read from its open tag to its close tag into one closed section |
| MarkerFacts.SectionToEnd | include/mustache/tests.cpp:694-705 | under any delimiters, a section around text followed by text to the end compiles to the nodes before it, the section and the text |
| MarkerFacts.VariableUnder | include/mustache/tests.cpp:157-190 | under any delimiters, text, one plain tag and text compile to the text, an escaped variable and the text |

## Left out

- Wide-character strings and output streams as render targets are not modelled. Strings are sequences of characters, and a render returns its text.
- Copying and moving `data` values (tests.cpp:396-439) are not modelled. Values are immutable Dafny datatypes here, so a copy is the same value and there is no moved-from object left in an invalid state.
- Exceptions are not modelled as control flow. The empty escape handler's `std::bad_function_call` is a `NoEscapeHandler` fault, reported by `Templates.Template.Render` as `threw`.
- Reading files is not modelled. `read_file` becomes a lookup in a map from names to contents that `FilePartials.PartialCache` is built with: a name that is not in the map is a file that cannot be read.
- Lambdas are host functions in the library. Here they are a small expression language whose expressions return literal text, the section body, decorated text, or the next count of a counter (`Data.LambdaExpr`, `Data.Lambda2Expr`). The counter is passed into and out of every render, in place of a lambda's captured state.
- Render functions take a `fuel` bound on how deep the re-compilation of lambda and partial output may go. The engine has no such bound, so a render that runs out of fuel writes nothing further.
- The test framework's macros and the `bustache_benchmark` test case are not modelled.
- The concrete HTML escape example of the `escape` section of the `variables` test (tests.cpp:97-102) is not stated as a lemma. Evaluating the escape function on a literal is too costly for the verifier. The general lemmas `Escape.HtmlEscapeSafe`, `Escape.HtmlRoundTrip` and `Escape.HtmlEscapePlain` state what escaping guarantees instead.
- Templates.Template.SetCustomEscape: the library accepts any function as the escape; the model accepts only one of three, the HTML escape, the test suite's backslash escape and the empty handler (`Escape.Escaper`). `RenderFacts.CountingVariable` relies on this closed set when it states that the digits of a count are written unchanged.
- Text.Trim: its own contract states only that the result is no longer than the input and is blank at neither end. `Text.TrimDrops` states that it is the input less exactly its leading and trailing blanks.
- Parser.Attach: its own contract states only what the step keeps. `Parser.AttachPlaces` states where the node goes.
- Parser.Flush: its own contract states only what the step keeps. `Parser.FlushPlaces` states where the pending text goes.
- Parser.CloseSection: its own contract states only that the state stays well formed. `Parser.CloseSectionPlaces` states what the finished section holds and where it goes.
- Parser.FirstUnclosed: its own contract states only that a reported error is an unclosed section. `Parser.FirstUnclosedInOrder` and `Parser.NoneUnclosed` state which section is reported and when none is.
- Text.SplitAll: its own contract states only that there is at least one piece. `Text.JoinSplitAll`, `Text.SplitAllJoin` and `Text.SplitAllPiecesFree` state what the pieces are.
- RenderFacts.NoCaching: stated for the node list; `Cases.NoCachingCompiles` compiles the template to that list and `RenderCases.NoCachingRenders` joins the two.
- RenderCases.FilePartial: stated for the node list; `Cases.FilePartialCompiles` compiles the template to that list and `RenderCases.FilePartialRenders` joins the two.
- RenderCases.LambdaError: stated for the node list; `RenderCases.LambdaErrorRenders` compiles the template text `Hello {{lambda}}!` to that list and joins the two.
- Escape.EscapeChar: states only the shape of an entity (`&` first, `;` last) and not each entity's spelling. `Escape.UnescapeChar` and `Escape.HtmlRoundTrip` pin the entities down by requiring them to decode to the character escaped.
- Render.RenderNodes: its own contract only says that every invalidating fault has a message. What each kind of node renders to is stated by the lemmas in `RenderFacts`.
- Render.RenderNode: the same. The `RenderFacts` lemmas state what it does for text (`RenderText`), comments (`CommentNode`), variables (`StringVariable`, `MissingVariable`, `OtherVariable`, `LambdaVariableSource`, `LambdaVariableWrites`, `LambdaVariableFaults`, `Lambda2Variable`), sections (`SkippedSection`, `HiddenInverted`, `ValueSection`, `ListSection`, `LambdaSectionSource`, `LambdaSectionWrites`, `Lambda2SectionSource`) and partials (`MissingPartial`, `TextlessPartial`, `PartialSource`); `RenderCases.DirectiveBetween` states that a set-delimiter switch writes nothing.
- Render.EvalLambda2: the same. `RenderFacts.CallbackSource` states that the render callback compiles and renders its text; `RenderFacts.CallbackWrites`, `RenderFacts.PlainCallback` and `RenderFacts.InvalidCallback` state what it gives back; `RenderFacts.CleanCat`, `RenderFacts.StickyCallbackFault` and `RenderFacts.ThrowKeepsCallbackError` state how the parts of a lambda combine; `RenderFacts.VerbatimLambda2` covers a lambda that skips the callback.
- Render.RenderSource, Render.Rerender, Render.RenderEach, Render.RenderTruthy, Render.RenderVariable: the same. `RenderFacts.CompiledSource` and `RenderFacts.RenderInvalidSource` state `RenderSource`; `RenderFacts.RerenderCompiled` states `Rerender`, which re-renders lambda and callback output that holds tags; `RenderFacts.ListSection` and `RenderFacts.EachDot` state `RenderEach`; `RenderFacts.ValueSection`, `RenderFacts.SkippedSection` and the section-lambda lemmas state `RenderTruthy`; the variable lemmas listed for `Render.RenderNode` state `RenderVariable`. The `LambdaCases` lemmas follow lambda output that holds tags through a whole render, test by test.
- Test groups without a lemma of their own are covered by the general lemmas only, as follows. The `variables` sections `single_miss`, `single_exist`, `empty_name` and `braces` (tests.cpp:77-89, 125-137): `RenderFacts.MissingVariable` and `RenderFacts.StringVariable`. The `sections` section `nested` (tests.cpp:214-222): `RenderFacts.ValueSection`. `section_lists` (tests.cpp:245-301): `RenderFacts.ListSection` and `RenderFacts.EachDot`. `section_object` (tests.cpp:303-327): `RenderFacts.ValueSection`, `Scope.PushShadows` and `Scope.PushTransparent`. `examples` (tests.cpp:329-361): `RenderFacts.StringVariable` for section `one`, and `RenderFacts.ListSection` with `Scope.PushShadows` for section `two`; section `three` writes through an output callback, which is not modelled. The `errors` section `partial` (tests.cpp:530-540): `RenderFacts.InvalidPartial`. The `partials` sections `empty`, `basic`, `context` and `nested` (tests.cpp:571-615): `RenderFacts.MissingPartial`, `RenderFacts.PartialSource` and `RenderFacts.PlainPartial`. `dotted_names` (tests.cpp:722-777): `Scope.DottedLookup`, `Scope.WalkNest` and `Scope.BrokenChain`. `custom_escape` (tests.cpp:948-1082): the escaper is a parameter of every render lemma; `RenderFacts.StringVariable` covers the variables, `RenderFacts.LambdaVariableWrites` the `lambda` section, `RenderFacts.CallbackWrites` (whose `escaped` flag is the render callback's second argument) the `#lambda` section, `RenderFacts.PartialSource` the `partial` section, and the `threw` result of `Templates.Template.Render` the empty handler.
- Whole-template set-delimiter renders (the `set_delimiter` test cases) are not restated one by one, except the padded directive of tests.cpp:183-188. `ParseFacts.DirectiveStep` states the general step for a well-formed directive, and `Syntax.SetDelimiterRoundTrip` states that the pair written in it is recovered.
- Where a test settles a behaviour that could be read another way, the model follows the test:
  - Text that a variable lambda returns is compiled with the default `{{ }}` delimiters, not with those in force at the tag. In tests.cpp:650-657, `|planet|` stays literal while `{{planet}}` is substituted.
  - Text that a section lambda returns is compiled with the delimiters in force at the section's open tag (tests.cpp:694-705). Those delimiters are recorded in the section node when it is opened.
  - Text written before a render fault is kept, rather than the whole output being dropped: `Hello ` in tests.cpp:503-513 and 515-528.
  - Several sections may be left open, or a close tag may end the wrong section. Either way the outermost such section is reported, at its own offset: `var1` at 0 in tests.cpp:451-469.
  - Text that a render-callback lambda returns is written even when its callback faulted. The tests only show that this text is empty in that case (tests.cpp:920-933).
