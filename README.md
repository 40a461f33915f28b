# node-templates in Dafny

A model of the template engine of `node-templates.js` and proofs about it. A template is
text with `<% ... %>` spans of JavaScript. `render(projectRoot)(file, text, templateArgs)`
splits the text into lines. It then repeats one step until it returns or throws:

- find the next `<%` at or after a cursor (`lineIndexOf`);
- copy the static text before it (`linesSubstring`);
- find the `%>`, searching from the `<%` itself;
- run the code between them in a fresh VM sandbox (`processCode`);
- append the span's result when it is truthy;
- move the cursor past the `%>`.

A span beginning with `=` is shorthand for `return`. Each sandbox carries a `require`
closure. That closure resolves paths against the template's directory or the project root,
turns `.ejs` paths into sub-template invokers, and loads anything else through Node,
falling back to the original specifier when loading fails.

Files:

- `wrappers.dfy`: `Option` and `Result`.
- `js_text.dfy`: the JavaScript string built-ins the engine uses:
  - `split('\n')` with its round trip to `join`;
  - `substring`, which clamps and swaps its bounds;
  - `indexOf` with a start column, which clamps that column;
  - `startsWith` and `endsWith`.
- `scanner.dfy`: positions, `lineIndexOf` and `linesSubstring`, each as a method with a loop
  proved against a specification function. Lemmas relate positions in the lines to offsets
  in the original text.
- `evaluation.dfy`: JavaScript values and truthiness, the `=` rewrite, the sandbox, and the
  `require` closure's path rules, argument merge and fallback. The VM, string coercion,
  Node's `path` helpers and Node's loader are the uninterpreted functions of a `Host` value.
- `templates.dfy`: the render loop. It has two parts:
  - `NextStep` is one pass of the loop body, proved equal to the function `StepAt`.
  - `Render` is the loop, proved equal to `RenderSpec`, which folds `StepAt` over the document.

  The lemmas prove termination, the output for documents without tags, document order, and
  the failure conditions.

The engine's header comment (node-templates.js:15 and 20-22) says a span's returned string
is used in place of the snippet. That suggests the text around a span is kept as it is. The
code does otherwise, and the model follows the code:

- `linesSubstring` appends `'\n'` when both positions are on the same line.
  - So static text or code that lies on a single line gains a newline.
  - `<h1><%= '1'+'2' %></h1>` renders as `"<h1>\n12</h1>\n"`, not `"<h1>12</h1>"`.
  - The lemmas `SliceOnOneLineIsTextAndNewline` and `IdentityWithoutTags` state this.

Two more behaviours of the code are worth knowing:

- The `=` test is made on the code exactly as sliced. No leading whitespace is skipped, so
  `<% = x %>` is not shorthand (`NoTrimBeforeShorthand`).
- The search for `%>` starts at the `<%` position itself, not after it. So a `<%` followed
  by `>` is a start tag and an end tag at once (`OverlappingTags`).

## Model

| member | source | states |
|---|---|---|
| JsText.SplitLines | node-templates.js:125 | `text.split('\n')` gives at least one line; no line contains a newline; joining the lines with newlines gives the text back |
| JsText.SplitJoin | node-templates.js:125 | the other round trip: splitting the join of newline-free lines gives those lines back |
| JsText.SeveralLinesIffNewline | node-templates.js:125 | a text splits into more than one line exactly when it contains a newline |
| JsText.Substring | node-templates.js:80 | `substring(a, b)` with `a <= b <= length` is the characters from `a` up to `b`; the result is never longer than the string |
| JsText.SubstringSwaps | node-templates.js:142 | `substring` gives the same result whichever bound comes first, which is what a code slice with its start after its end relies on |
| JsText.SubstringFrom | node-templates.js:83 | `substring(a)` with `a` inside the string is its suffix from `a` |
| JsText.IndexOf | node-templates.js:67 | `indexOf(needle, from)` is -1 or an index at or after `from` (clamped to the length) where the needle occurs |
| JsText.IndexOfIsFirst | node-templates.js:67 | `indexOf` returns the first such index, and -1 exactly when the needle does not occur at or after the clamped column |
| JsText.SearchFromIsFirst | node-templates.js:67 | the search behind `indexOf` skips no occurrence, and reports none only when none exists |
| Scanner.FindFrom | node-templates.js:65-75 | the search from line `i` returns an occurrence on line `i` or later, at or after the start column on the start line |
| Scanner.FindFromIsEarliest | node-templates.js:65-75 | the search from line `i` returns the earliest occurrence on lines `i` onward, and nothing only when there is none on those lines |
| Scanner.FirstAtOrAfter | node-templates.js:64-76 | the position `lineIndexOf` finds is an occurrence of the needle at or after `start`, on line `start.line` or later |
| Scanner.FirstAtOrAfterIsEarliest | node-templates.js:64-76 | `lineIndexOf` returns the earliest occurrence at or after `start`, and `null` exactly when there is none |
| Scanner.CandidateIsOccurrenceAfter | node-templates.js:67 | for a cursor inside its line, "found by the search" means exactly "an occurrence at or after the cursor" in (line, column) order |
| Scanner.LineIndexOf | node-templates.js:64-76 | the loop over the lines, with its early return, computes `FirstAtOrAfter` |
| Scanner.LinesSubstring | node-templates.js:78-89 | the loop that accumulates the middle lines computes `LinesSlice`: on one line the columns between the positions plus `'\n'`; across lines the rest of the first line, each middle line with `'\n'`, and the head of the last line |
| Scanner.SliceAcrossLinesIsText | node-templates.js:83-88 | across lines, `linesSubstring` is exactly the original text between the offsets of the two positions |
| Scanner.SliceOnOneLineIsTextAndNewline | node-templates.js:79-80 | on one line, `linesSubstring` is the original text between the two positions followed by an extra newline |
| Scanner.OccursInText | node-templates.js:67 | an occurrence found in a line is an occurrence in the original text at that position's offset |
| Evaluation.Truthy | node-templates.js:147 | a span result is falsy exactly when it is `undefined`, `null`, `false`, `0`, `NaN` or `''` |
| Evaluation.Emitted | node-templates.js:147 | a falsy span result (`undefined`, `null`, `false`, `0`, `NaN`, `''`) adds nothing; a string adds itself; `true` adds `"true"` |
| Evaluation.ExpandShorthand | node-templates.js:92 | code is rewritten exactly when it starts with `=`, into `return ` followed by the rest; the result never starts with `=` |
| Evaluation.ShorthandIsExplicitReturn | node-templates.js:92 | `=e` and `return e` become the same code |
| Evaluation.NoTrimBeforeShorthand | node-templates.js:92 | a `=` after a space is not shorthand: such code is passed unchanged |
| Evaluation.Wrapped | node-templates.js:114 | the code becomes the body of a function called at once, on lines of its own: the wrapper's prefix and suffix surround the code unchanged |
| Evaluation.MakeSandbox | node-templates.js:93-97 | the sandbox binds every template argument plus `__filename`, `__dirname` and `require`; those three override arguments of the same names; every other argument keeps its value |
| Evaluation.ProcessCode | node-templates.js:91-122 | the VM runs, in the span's sandbox and at origin (file, tag line - 1, tag column), the wrapped code: unchanged when it does not start with `=`, and `return ` plus the rest when it does |
| Evaluation.ShorthandRunsAsReturn | node-templates.js:91-122 | running `<%= e %>` in the VM is running `<% return e %>`, in the same sandbox and at the same origin |
| Evaluation.Resolve | node-templates.js:98-104 | the path rules of `require`: a leading `.` is dropped and the rest joined to the template directory; a path not starting with `/` is resolved against the project root; the path names a sub-template exactly when it ends in `.ejs`; a sub-template inherits the template's arguments; a module keeps the original specifier as its fallback |
| Evaluation.ParentSpecifierStaysInDirectory | node-templates.js:100 | `../x` is joined to the template's own directory as `./x`, not to its parent |
| Evaluation.MergeArgs | node-templates.js:104 | `{...templateArgs, ...inlineArgs}`: keys of both; inline values win; parent values are kept where the inline arguments do not mention the key |
| Evaluation.InlineArgsOverrideInherited | node-templates.js:104 | parent `{a: 1, b: 2}` with inline `{b: 3}` gives `{a: 1, b: 3}` |
| Evaluation.Invoke | node-templates.js:104 | calling a sub-template invoker renders its path with the keys of both argument maps; inline values win and inherited values are kept where the inline arguments do not mention the key |
| Evaluation.RequireModule | node-templates.js:97-111 | a sub-template path yields an invoker; another path is loaded, and when that throws the original specifier is loaded instead |
| Evaluation.SubTemplateCallMergesArgs | node-templates.js:103-104 | for a path ending in `.ejs`, `require` returns an invoker, and calling it with inline arguments renders that path with the span's template arguments overridden key by key by the inline ones |
| Templates.Digits | node-templates.js:139 | a line or column number prints as its decimal numeral: digits only, spelling the number, with no leading zero |
| Templates.UnterminatedMessage | node-templates.js:139 | the error for an unterminated tag begins `[node-templates] END_TAG not found! Starting ` followed by the file name and `:` |
| Templates.LastPos | node-templates.js:133 | the end of the document is a valid position: the length of the last line |
| Templates.StepAt | node-templates.js:131-151 | an iteration that continues moves the cursor strictly forward in (line, column) order and leaves it inside its line |
| Templates.NextStep | node-templates.js:131-151 | one pass of the loop body computes `StepAt`: finished with the rest of the document, failed, or advanced with static text plus spliced result and a new cursor two columns past `%>` |
| Templates.Render | node-templates.js:124-153 | the `do … while` loop, which leaves only by its `return` or its `throw`, computes `RenderSpec` (file defaults to `?`, arguments to `{}`) |
| Templates.ScanFinishes | node-templates.js:131-134 | with no `<%` left, the result is what was produced plus the rest of the document |
| Templates.ScanUnterminated | node-templates.js:138-139 | a `<%` with no `%>` after it fails the render with that tag's position and the file, whatever was produced |
| Templates.ScanThrows | node-templates.js:142-145 | a span that throws fails the render with its error |
| Templates.ScanAdvances | node-templates.js:136-149 | a span that returns appends the static text and then the spliced result, and the loop continues past its `%>` |
| Templates.UnterminatedIsGenuine | node-templates.js:131-139 | an unterminated-tag failure names the file and a `<%` at or after the cursor that no `%>` follows, and no earlier `<%` from the cursor on is unclosed |
| Templates.FirstUnclosedTag | node-templates.js:131-139 | the `<%` at which an iteration finds no `%>` is an occurrence at or after the cursor that no `%>` follows, and no `<%` from the cursor on comes before it |
| Templates.UnclosedLiesPastSpan | node-templates.js:131-149 | a `<%` at or after the cursor that no `%>` follows lies past the end of the span an iteration consumes |
| Templates.NoStartInsideEnd | node-templates.js:61-62 | a `<%` cannot begin on the `>` of a `%>` |
| Templates.SuccessClosesEveryTag | node-templates.js:130-152 | when the loop returns normally, every `<%` at or after the cursor has a `%>` at or after it |
| Templates.ClosedBeforeSpan | node-templates.js:131-149 | a `<%` skipped over while consuming a span is itself closed by that span's `%>` |
| Templates.UnclosedTagFails | node-templates.js:138-139 | a document with a `<%` that no `%>` follows cannot render successfully |
| Templates.UnterminatedErrorNamesOpenTag | node-templates.js:124-139 | the unterminated-tag error names the file (`?` when none is given) and the first `<%` of the document that no `%>` follows |
| Templates.WholeDocumentSlice | node-templates.js:133 | the slice from (0, 0) to the end of the document is the text itself, plus a newline when it has one line |
| Templates.IdentityWithoutTags | node-templates.js:125-134 | a document without `<%` renders as itself when it contains a newline, and as itself plus `'\n'` otherwise |
| Templates.OutputOnlyGrows | node-templates.js:126-147 | output is only appended to: a successful result starts with everything produced before |
| Templates.StaticTextComesFirst | node-templates.js:136 | in a successful render the static text up to the next `<%` follows what was produced before, whatever the span returns |
| Templates.OverlappingTags | node-templates.js:138-142 | for any `<%` followed by `>`, the `%>` search from that tag finds the position one column after it, and the code slice from two columns after the tag back to that position is `"%\n"` |

## Left out

- Running JavaScript (`vm.createContext`, `vm.runInContext`) is the uninterpreted `Host.run`. It receives the sandbox, the wrapped code and the origin (file, line offset, column offset), and returns a value or a thrown error. A syntax error is one more thrown error.
- The string coercion in `result += codeResult` is the uninterpreted `Host.show` for values other than strings and `true`.
- Numbers are reals plus a separate `NaN`. `Infinity`, `-0`, `BigInt`, `Symbol` and the `document.all` oddity are not modelled.
- A total `Host.show` cannot express a string coercion that throws, as `'' + Symbol()` or an object without a prototype does in `result += codeResult`. In the model, appending a span's result never fails.
- Columns are counted in characters (Unicode scalar values), not in UTF-16 code units as JavaScript's `indexOf`, `substring` and `length` count them. A character outside the Basic Multilingual Plane before a tag therefore shifts the column in the unterminated-tag error and in the VM's column offset. The text that is copied and spliced is unaffected, because every cut falls on an ASCII delimiter or a line end.
- Evaluation.Emitted: a truthy number or object is coerced by `Host.show`, not by JavaScript's `Number.prototype.toString` or `toString` lookup.
- Node's `path.join`, `path.resolve`, `path.normalize` and `path.basename` are the uninterpreted `Host.join`, `Host.resolve` and `Host.dirOf`. The directory computation on line 144 is `Host.dirOf(file)` as a whole.
- Node's `require` is the uninterpreted `Host.load`. Module caching and loader side effects are not modelled.
- `renderFile` (lines 155-158) reads a file from disk and is not part of this model. Nor is the `module.exports` wrapper (lines 160-163).
- Evaluation.Invoke: the sub-template invoker returns a `SubRender` request (path and merged arguments) instead of rendering that file recursively. The recursion goes through file I/O and has no termination argument.
- The sandbox is a map from names to bindings. Object identity, property order, prototype keys and the VM's contextified global object are not modelled.
- Templates.UnterminatedMessage: the thrown `Error` object is the `Unterminated(file, position)` value, and the contract states the message text only up to the file name and colon. The line and column that follow are printed by `Digits`.
- A span's error propagates as `EvaluationFailed(error)`. The VM's `displayErrors` decoration of the stack is not modelled.
- The dead statements after the advance (`start = end` and the loop test `end !== null`, lines 151-152) have no effect: the model's loop condition is always true, as the code's is.
