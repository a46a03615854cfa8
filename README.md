# curriculum-helpers in Dafny

This project models the core of freeCodeCamp's `curriculum-helpers`: the
helpers that challenge tests use to inspect the code a camper wrote, and the
pieces of the test runner that surround them. It covers:

- **The comment stripper behind `removeJSComments`** (lib/parse.ts,
  lib/compile.ts, lib/class/node.ts, with the language table of
  lib/languages.ts). `parse` tokenizes the input into a tree of `CodeNode`s
  and `Block`s. `compile` walks the tree and drops or keeps comment nodes
  according to its options.
- **The text helpers of lib/index.ts**: `removeHtmlComments`,
  `removeCssComments`, `removeJSComments`, `removeWhiteSpace`, `escapeRegExp`
  and `python.removeComments`. Each global `replace` is modelled as the scan
  the regular-expression engine performs.
- **The AST lookups.** These are the Python helpers of python/py_helpers.py,
  the `Babeliser` scope walker (lib/class/babeliser.ts) and the `Tower`
  lookups (lib/class/tower.ts). Syntax trees are datatypes given as inputs.
- **The browser-side doubles.** These are `MockLocalStorage`, the
  `ProxyConsole` with `createLogFlusher`, the response side of the fetch
  proxy, and `getFullAssetPath` of the test runner.

`parse`, `walk`, `_recurse`, `_recurseBodiesForType`, `assertIsResponse`,
`getFullAssetPath` and the `ProxyConsole` and `MockLocalStorage` methods work
by updating state. They are methods with loops, or class methods. Each one
is proved equal to a specification function (`ParseF`, `WalkF`, `RecurseF`,
`BodiesF`, `CheckResponse`, `FullAssetPath`) or states its new state
outright. The properties are proved about those functions.

Modules, one per source file: `StripNode`, `StripLanguages`, `StripParse`,
`StripCompile`, `StripTheorems` (the stripper's end-to-end guarantees),
`CurriculumHelpers`, `PyHelpers`, `Babeliser`, `Tower`, `MockStorage`,
`ProxyConsole`, `ProxyFetch` and `TestRunner`. `Wrappers` holds
`Option`/`Result`, and `JsStrings` holds the `String.prototype` operations
the models share.

Behaviours the model keeps because the code has them:

- An escaped character is a text token. Directly after text it is merged
  into that text like any other text. Otherwise `parse` pushes it as a
  `Block` of type `text`, and that block becomes both the current frame and
  the previous node. Text that follows directly is merged into the escape
  node's own value, and `compile` emits it; a quoted string is scanned as
  text too, so it is merged the same way. The first token that is not text
  (a line break, a comment opener, a line comment) is pushed into the
  escape node's children instead, and so is everything after it. `compile`
  emits only a text node's own value, so all of that is lost. The
  stripper's end-to-end guarantees are therefore stated for inputs without
  a backslash.
- `_isInScope` compares the dot-joined scopes as strings. A target scope
  therefore also matches inside a longer name: `["ab"]` is in
  `["global", "cab"]`.
- The mock storage is an ordinary object. `setItem("__proto__", v)` reaches
  the inherited setter and stores nothing. `Object.keys` lists array-index
  keys first, in numeric order.

## Model

| member | source | states |
|---|---|---|
| StripNode.NewCodeNode | lib/class/node.ts:17-22 | type and match are copied; the value is kept only when it is a non-empty string; `newline` defaults to `""` |
| StripNode.NewBlock | lib/class/node.ts:32-35 | a block has the fields of a `CodeNode` and its given children, or none |
| StripNode.Push | lib/class/node.ts:37-39 | `push` appends the node after the existing children; every other field is unchanged |
| StripNode.PushText | lib/class/node.ts:37-39 | the text a block holds after `push` is its old text followed by the pushed node's text |
| StripNode.PushProtected | lib/class/node.ts:41-43 | a block is protected iff its first child is; pushing onto a non-empty block does not change that |
| StripNode.ShapedBlockProtected | lib/class/node.ts:24-43 | a comment block is protected exactly when its opening token's capture group 1 is `!` |
| StripLanguages.Exec | lib/parse.ts:7-14 | every anchored expression matches a prefix of the remaining input, and a non-empty one for every expression of the tokenizer and the table |
| StripLanguages.LanguageNamed | lib/parse.ts:23-28 | the lookup yields the table entry; it is undefined exactly for names outside the table other than the two inherited `Object.prototype` members |
| StripLanguages.TableWellFormed | lib/languages.ts:4-115 | every language's expressions match only non-empty text, and its line-comment expression never crosses a line end |
| StripLanguages.OpenProtectedIffBang | lib/languages.ts:24-24 | a JavaScript block-comment opener is protected iff the input starts with `/*!` or `/**!` |
| StripLanguages.LineProtectedIffBang | lib/languages.ts:26-26 | a JavaScript line comment is protected iff it starts with `//!` |
| StripLanguages.LiteralsNeverProtected | lib/class/node.ts:24-26 | an expression without a capture group never yields a protected node |
| StripParse.PushNode | lib/parse.ts:67-80 | `push` keeps the stack well formed; a leaf (merged or appended) leaves the depth and the current block unchanged |
| StripParse.PushNodeMergesText | lib/parse.ts:67-71 | text after text: nothing is appended, the previous node keeps its place and its value becomes the two values joined |
| StripParse.PushNodeAppends | lib/parse.ts:73-79 | any other node is appended to the current block and becomes the previous node; a block also becomes the current block |
| StripParse.PopFrame | lib/parse.ts:82-89 | `pop` fails exactly at the root; otherwise it removes one frame |
| StripParse.OpenScan | lib/parse.ts:121-132 | a block-comment opener is recognised only when the language has one and `options.block` is set |
| StripParse.CloseScan | lib/parse.ts:134-142 | a closer is recognised only inside a comment block and only with `options.block` |
| StripParse.LineScan | lib/parse.ts:144-150 | a line comment is recognised only when the language has one, `options.line` is set and the current block is not a comment block |
| StripParse.NextToken | lib/parse.ts:96-158 | each iteration consumes a non-empty prefix of the remaining input; a close token occurs only inside a comment block |
| StripParse.Step | lib/parse.ts:96-159 | one iteration keeps the stack well formed and strictly shortens the remaining input, so the loop ends |
| StripParse.Run | lib/parse.ts:96-161 | the loop leaves a root block |
| StripParse.Nest | lib/parse.ts:159-161 | returning `cst` with blocks still open yields the root block, each open block attached inside its parent |
| StripParse.Apply | lib/parse.ts:98-158 | pushing the node a token makes keeps the stack of open blocks well formed |
| StripParse.ApplyOpen | lib/parse.ts:124-133 | a comment opener opens a new comment block whose only child is the opener, one level deeper |
| StripParse.ApplyClose | lib/parse.ts:136-143 | a comment closer is appended to the comment block with its swallowed line feed (or `""`), then the block is closed as the last child of the block below, one level up |
| StripParse.Parse | lib/parse.ts:16-162 | the tokenizer loop computes exactly `ParseF` |
| StripTheorems.StepInv | lib/parse.ts:96-159 | the loop invariant: the text of the open frames followed by the remaining input is the input, and every frame has the tokenizer's shape |
| StripTheorems.RunParsed | lib/parse.ts:96-161 | from any state meeting the loop invariant, the finished tree holds exactly the input and has the tokenizer's shape |
| StripTheorems.ParseCorrect | lib/parse.ts:16-162 | `parse` fails iff the lower-cased language (default `javascript`) is unknown, with the source's message; otherwise the tree holds the whole input in order and contains no node kind the options switch off |
| StripTheorems.StripRemovesComments | lib/compile.ts:4-64 | with default options, stripping a parsed input yields exactly the input with every top-level comment cut out |
| StripTheorems.NoCommentOptionsIdentity | lib/parse.ts:121-150 | with `block` and `line` both off, stripping returns the input unchanged |
| StripTheorems.StripPreservesLineCount | lib/compile.ts:22-27 | with `preserveNewlines`, the output has as many line feeds as the input |
| StripCompile.Walk | lib/compile.ts:8-61 | the loop over the children computes `WalkF`, output and `firstSeen` flag together |
| StripCompile.Compile | lib/compile.ts:4-64 | `compile` starts the walk with `firstSeen` false |
| StripCompile.WalkWithoutFirst | lib/compile.ts:13-56 | without `first` and `preserveNewlines`, the walk equals the reference that keeps a comment only when it is protected and protection is asked for |
| StripCompile.DefaultsDropComments | lib/compile.ts:13-56 | with default options every block and line comment emits nothing and every other child emits its text, in order |
| StripCompile.PreserveNewlinesKeepsLines | lib/compile.ts:22-27 | with `preserveNewlines` a comment block is replaced by as many line feeds as it contains |
| StripCompile.FirstSeenCopiesAll | lib/compile.ts:17-20 | once a comment has been dropped under `first`, every later node is copied verbatim |
| StripCompile.FirstDropsOnlyFirst | lib/compile.ts:6-47 | with `first`, only the first comment is dropped and the text before and after it is kept |
| StripCompile.CodeTextNoComments | lib/compile.ts:48-54 | when no child is a comment, the stripped text is the children's full text |
| CurriculumHelpers.FindFrom | lib/index.ts:10-10 | the lazy `[\s\S]*?` stops at the first occurrence of the terminator at or after the start |
| CurriculumHelpers.RemoveHtmlComments | lib/index.ts:9-11 | removing comments never lengthens the text |
| CurriculumHelpers.RemoveHtmlCommentsNoComment | lib/index.ts:9-11 | text without `<!--` is returned unchanged |
| CurriculumHelpers.RemoveHtmlCommentsClosed | lib/index.ts:9-11 | a comment is removed up to its first `-->` and scanning resumes after it |
| CurriculumHelpers.RemoveHtmlCommentsUnterminated | lib/index.ts:9-11 | an unterminated comment is removed to the end of the input |
| CurriculumHelpers.RemoveHtmlCommentsPrefix | lib/index.ts:9-11 | text before the first `<!--` is kept verbatim |
| CurriculumHelpers.CssCommentEnd | lib/index.ts:20-20 | the lazy `[\s\S]+?` ends at the first `*/` that leaves at least one character inside |
| CurriculumHelpers.RemoveCssComments | lib/index.ts:19-21 | removing comments never lengthens the text |
| CurriculumHelpers.CssPlainStep | lib/index.ts:19-21 | a character that does not start a comment is kept and the scan moves on |
| CurriculumHelpers.RemoveCssCommentsPrefix | lib/index.ts:19-21 | text containing no comment opener is kept in front of whatever the rest becomes |
| CurriculumHelpers.RemoveCssCommentsMiddle | lib/index.ts:19-21 | a comment with a non-empty body between plain text and the rest is removed up to its first closer, and the text around it is kept |
| CurriculumHelpers.RemoveCssCommentsExample | lib/index.ts:19-21 | `a`, a comment holding `x`, then `b` becomes `ab` |
| CurriculumHelpers.RemoveCssCommentsNoClose | lib/index.ts:19-21 | text without `*/` is returned unchanged |
| CurriculumHelpers.RemoveCssCommentsClosed | lib/index.ts:19-21 | a comment with a non-empty body is removed up to its first `*/` |
| CurriculumHelpers.RemoveCssCommentsKeepsEmpty | lib/index.ts:19-21 | `/**/` is not a comment to this expression: with no later `*/` it is kept |
| CurriculumHelpers.RemoveJsComments | lib/index.ts:29-36 | the stripper's result, or the input unchanged when the stripper throws |
| CurriculumHelpers.RemoveWhiteSpace | lib/index.ts:44-46 | the result contains no white space and is no longer than the input |
| CurriculumHelpers.RemoveWhiteSpaceKeepsOthers | lib/index.ts:44-46 | every other character keeps its number of occurrences; white space occurs zero times |
| CurriculumHelpers.RemoveWhiteSpaceAppend | lib/index.ts:44-46 | removal works piecewise on a concatenation, so the order of the kept characters is the input's |
| CurriculumHelpers.RemoveWhiteSpaceKeepsClean | lib/index.ts:44-46 | text without white space is returned unchanged |
| CurriculumHelpers.RemoveWhiteSpaceIdempotent | lib/index.ts:44-46 | removing white space twice is removing it once |
| CurriculumHelpers.EscapeRegExp | lib/index.ts:54-56 | the result is longer by one character per special character, and unchanged when there is none |
| CurriculumHelpers.EscapeRegExpRoundTrip | lib/index.ts:54-56 | dropping each backslash escape gives the input back |
| CurriculumHelpers.EscapeRegExpAppend | lib/index.ts:54-56 | escaping works piecewise on a concatenation |
| CurriculumHelpers.RemovePythonComments | lib/index.ts:127-129 | removing comments never lengthens the text |
| CurriculumHelpers.PythonPlainStep | lib/index.ts:127-129 | a character that starts no comment is kept and the scan moves on |
| CurriculumHelpers.RemovePythonCommentsPrefix | lib/index.ts:127-129 | text where no comment starts is kept in front of whatever the rest becomes |
| CurriculumHelpers.RemovePythonCommentsSpan | lib/index.ts:127-129 | a block comment is removed up to its first closer |
| CurriculumHelpers.RemovePythonCommentsMiddle | lib/index.ts:127-129 | a block comment between plain text and the rest is removed, and the text around it is kept |
| CurriculumHelpers.RemovePythonCommentsExample | lib/index.ts:127-129 | `a`, a block comment holding `x`, then `b` becomes `ab` |
| CurriculumHelpers.RemovePythonCommentsLine | lib/index.ts:127-129 | a `#` or `//` comment is removed up to, not including, the line end |
| CurriculumHelpers.RemovePythonCommentsKeepsLineBreaks | lib/index.ts:127-129 | without `/*`, every line terminator survives, so the line count is kept |
| PyHelpers.GetFunction | python/py_helpers.py:4-9 | a `def` with that name directly in the body, or `None` iff there is none |
| PyHelpers.GetFunctionFirst | python/py_helpers.py:4-9 | the first such `def` is the one returned |
| PyHelpers.TargetsName | python/py_helpers.py:15-18 | true iff `Name(name)` is among the targets |
| PyHelpers.LocalVariableInFunction | python/py_helpers.py:12-19 | true iff some statement of the body is an `Assign` with a `Name(name)` target |
| PyHelpers.LocalVariableIgnoresNested | python/py_helpers.py:12-19 | assignments in nested blocks, to attributes, or augmented ones do not count |
| PyHelpers.HasLocalVariable | python/py_helpers.py:25-30 | false when the function is missing |
| PyHelpers.HasLocalVariableFirstDef | python/py_helpers.py:25-30 | decided by a direct assignment in the first top-level `def` of that name |
| PyHelpers.ValueIsInteger | python/py_helpers.py:42-42 | true only for an `int` constant (not `bool`); raises `AttributeError` for nodes without a `value` field |
| PyHelpers.VariableIsInteger | python/py_helpers.py:36-44 | false when nothing assigns the name |
| PyHelpers.VariableIsIntegerFirst | python/py_helpers.py:36-44 | the first assignment to the name decides |
| PyHelpers.VariableIsIntegerExamples | python/py_helpers.py:36-44 | `True`, `None` are not integers, `7` is, and `-1` raises |
| PyHelpers.LocalVariableIsInteger | python/py_helpers.py:50-54 | false when the function is missing |
| PyHelpers.LocalVariableIsIntegerFirst | python/py_helpers.py:50-54 | the first assignment inside the first `def` of that name decides |
| PyHelpers.FunctionsAreEquivalent | python/py_helpers.py:60-67 | true if and only if both modules define the function and the two definitions are equal |
| PyHelpers.FunctionsAreEquivalentComparesAllFields | python/py_helpers.py:60-67 | definitions that differ in their body or in any other field (decorators, defaults, annotations, `returns`) are not equivalent |
| PyHelpers.FunctionsAreEquivalentReflexive | python/py_helpers.py:60-67 | a module is equivalent to itself iff it defines the function |
| PyHelpers.FunctionsAreEquivalentSymmetric | python/py_helpers.py:60-67 | the comparison is symmetric |
| PyHelpers.FunctionsAreEquivalentTransitive | python/py_helpers.py:60-67 | the comparison is transitive |
| Babeliser.MaxScopeDepth | lib/class/babeliser.ts:21-33 | the default depth 4 is replaced only by a truthy (non-zero) option |
| Babeliser.NewBabeliser | lib/class/babeliser.ts:23-36 | the constructor keeps the code, the parsed program and the effective depth |
| Babeliser.NearestIdentifier | lib/class/babeliser.ts:179-181 | the position of the first child that is an `Identifier` node; none iff no child is one |
| Babeliser.ChildScope | lib/class/babeliser.ts:178-184 | the children's scope extends the node's scope by at most one name |
| Babeliser.LookupFirst | lib/class/babeliser.ts:180-183 | a property read gives the first field with that key |
| Babeliser.LookupAbsent | lib/class/babeliser.ts:180-183 | a property read gives nothing exactly when no field has that key |
| Babeliser.ChildScopeNearestName | lib/class/babeliser.ts:179-184 | the name added is that of the first `Identifier` child; with no such child the scope is unchanged |
| Babeliser.RecurseF | lib/class/babeliser.ts:156-196 | every match is a node of the target type, found at a scope that extends the starting one and is shallower than the limit |
| Babeliser.Recurse | lib/class/babeliser.ts:156-196 | the loop over the children computes `RecurseF` |
| Babeliser.RecursePreOrder | lib/class/babeliser.ts:173-176 | a matching node comes first in its own results, with its own scope |
| Babeliser.RecurseDepthLimit | lib/class/babeliser.ts:164-166 | at the depth limit nothing is found |
| Babeliser.RecurseFindsChild | lib/class/babeliser.ts:186-192 | a matching child within the depth limit is found, with the child scope |
| Babeliser.BodiesF | lib/class/babeliser.ts:142-154 | every match is of the type, in a scope starting with `global` and shallower than the limit |
| Babeliser.RecurseBodiesForType | lib/class/babeliser.ts:142-154 | the loop over the program body computes `BodiesF` |
| Babeliser.BodiesFindsTopLevel | lib/class/babeliser.ts:142-154 | a top-level statement of the type is found with scope `["global"]` |
| Babeliser.IsInScope | lib/class/babeliser.ts:128-140 | `["global"]` accepts everything; a scope shorter than the target is rejected |
| Babeliser.IsInScopePrefix | lib/class/babeliser.ts:128-140 | a scope that starts with the target scope is in it |
| Babeliser.IsInScopeSubstring | lib/class/babeliser.ts:128-140 | the test is a substring test on the joined scopes, even across name boundaries |
| Babeliser.DottedCallMatch | lib/class/babeliser.ts:84-93 | the early answer exists only for a dotted name and a member-expression callee |
| Babeliser.FindCall | lib/class/babeliser.ts:78-113 | the statement found is in scope and calls the name; none iff no statement does |
| Babeliser.FindCallFirst | lib/class/babeliser.ts:78-113 | the first statement that matches is the one returned |
| Babeliser.GetExpressionStatement | lib/class/babeliser.ts:74-115 | the result is an expression statement in scope that calls the name |
| Babeliser.DottedNameMatch | lib/class/babeliser.ts:84-93 | a dotted name matches only `object.property` of two identifiers equal to the two pieces of the name |
| Babeliser.PlainNameMatch | lib/class/babeliser.ts:96-110 | a name without a dot matches exactly a direct call of an identifier with that name, awaited or not |
| Babeliser.SliceEnd | lib/class/babeliser.ts:122-122 | `slice(0, index)` ends at the index when in range, counting a negative index from the end |
| Babeliser.GetLineAndColumnFromIndex | lib/class/babeliser.ts:121-126 | the line is one more than the line feeds before the index; the column is the length of the text after the last one |
| Tower.NewTower | lib/class/tower.ts:22-32 | a tower holds the parsed program, or the node it was given |
| Tower.ExtractBody | lib/class/tower.ts:71-82 | the body of a program, a function or a variable declaration; `Unimplemented for <type>` for anything else |
| Tower.FindNamed | lib/class/tower.ts:37-55 | the node found has the type and name; none iff no node of the body has them |
| Tower.FindNamedFirst | lib/class/tower.ts:37-55 | the first such node is the one found |
| Tower.GetType | lib/class/tower.ts:35-61 | the result wraps a node of the immediate body with the type and name, else `No AST found with name <name>` |
| Tower.GetFunction | lib/class/tower.ts:63-65 | the result is a function declaration with that name |
| Tower.GetVariable | lib/class/tower.ts:67-69 | the result is a declaration whose first declarator binds that identifier |
| Tower.GetFunctionFirst | lib/class/tower.ts:63-65 | the first function of that name in the body is returned, `async` ones included |
| Tower.GetVariableFirstDeclaratorOnly | lib/class/tower.ts:42-52 | later declarators and destructuring patterns are not found |
| Tower.LookupIsShallow | lib/class/tower.ts:35-61 | only the immediate body is searched; nested functions are reached by chaining |
| Tower.VariableTowerFindsNothing | lib/class/tower.ts:76-78 | a tower around a variable declaration finds nothing |
| Tower.TypeOfDeterminesKind | lib/class/tower.ts:38-42 | in a well-kinded tree, testing `node.type` is testing which kind of node it is |
| MockStorage.ObjectKeys | packages/dom-evaluator/src/mock-local-storage.ts:12-15 | the keys are a permutation of the own keys: the array indices first, in ascending numeric order, then exactly the other keys in creation order |
| MockStorage.NameKeysAppend | packages/dom-evaluator/src/mock-local-storage.ts:12-15 | the keys that are not array indices keep their creation order: those of `a + b` are those of `a`, then those of `b` |
| MockStorage.IndexKeysAppend | packages/dom-evaluator/src/mock-local-storage.ts:12-15 | the array-index keys of `a + b` are those of `a`, then those of `b` |
| MockStorage.ObjectKeysAppendName | packages/dom-evaluator/src/mock-local-storage.ts:12-15 | a key that is not an array index, created last, is listed last |
| MockStorage.ObjectKeysInsertionOrder | packages/dom-evaluator/src/mock-local-storage.ts:12-15 | without index-like keys the listing is the creation order |
| MockStorage.ObjectKeysIndexFirst | packages/dom-evaluator/src/mock-local-storage.ts:12-15 | keys created as `b`, `1`, `a`, `0` are listed `0`, `1`, `b`, `a` |
| MockStorage.KeyFollowsOrder | packages/dom-evaluator/src/mock-local-storage.ts:12-15 | on any valid storage without index-like keys, `key(i)` is the `i`-th key in creation order and `null` past the end |
| MockStorage.MockLocalStorage.constructor | packages/dom-evaluator/src/mock-local-storage.ts:2-2 | a new storage is empty |
| MockStorage.MockLocalStorage.Length | packages/dom-evaluator/src/mock-local-storage.ts:4-6 | `length` is the number of stored keys |
| MockStorage.MockLocalStorage.SetItem | packages/dom-evaluator/src/mock-local-storage.ts:8-10 | the key maps to the value and is listed once, at its first creation; `__proto__` stores nothing |
| MockStorage.MockLocalStorage.Key | packages/dom-evaluator/src/mock-local-storage.ts:12-15 | `null` exactly for an index out of range; otherwise the `index`-th key that `Object.keys` lists, which is a stored key |
| MockStorage.KeyAfterIndexKey | packages/dom-evaluator/src/mock-local-storage.ts:8-15 | after setting `b`, `1`, `a`, `key(0)`, `key(1)`, `key(2)` are `1`, `b`, `a` |
| MockStorage.MockLocalStorage.GetItem | packages/dom-evaluator/src/mock-local-storage.ts:17-19 | the own value, else an inherited `Object.prototype` member, else `null` |
| MockStorage.MockLocalStorage.GetOwnItem | packages/dom-evaluator/src/mock-local-storage.ts:17-19 | the stored value exactly for a stored key, `null` otherwise |
| MockStorage.MockLocalStorage.RemoveItem | packages/dom-evaluator/src/mock-local-storage.ts:21-23 | the key is gone; every other entry and the order of the rest are kept |
| MockStorage.MockLocalStorage.Clear | packages/dom-evaluator/src/mock-local-storage.ts:25-27 | nothing is stored afterwards |
| MockStorage.FreshIsEmpty | packages/dom-evaluator/src/mock-local-storage.ts:2-19 | a fresh storage has length 0, no key and no item |
| MockStorage.SetThenGet | packages/dom-evaluator/src/mock-local-storage.ts:8-19 | a set value is read back; setting a key again keeps the length |
| MockStorage.EmptyStringIsKept | packages/dom-evaluator/src/mock-local-storage.ts:17-19 | `??` keeps an empty string instead of turning it into `null` |
| MockStorage.RemoveThenClear | packages/dom-evaluator/src/mock-local-storage.ts:21-27 | `removeItem` deletes only its key, `clear` deletes them all |
| MockStorage.KeysInInsertionOrder | packages/dom-evaluator/src/mock-local-storage.ts:12-15 | non-index keys are listed in creation order, and a key set twice is listed once |
| MockStorage.InheritedNamesLeak | packages/dom-evaluator/src/mock-local-storage.ts:17-19 | on a fresh storage `getItem("toString")` is the inherited member and `__proto__` cannot be stored |
| ProxyConsole.ProxyConsole.constructor | packages/shared/src/proxy-console.ts:18-21 | the proxy saves the console's methods and starts off with no calls |
| ProxyConsole.ProxyConsole.On | packages/shared/src/proxy-console.ts:23-36 | fails with `Console is already on…` when on; otherwise every level gets a recorder |
| ProxyConsole.ProxyConsole.Off | packages/shared/src/proxy-console.ts:38-45 | every level is back to the saved original; the recorded calls stay |
| ProxyConsole.ProxyConsole.ConsoleCall | packages/shared/src/proxy-console.ts:30-35 | while on, a call is appended to the record; while off, nothing is recorded |
| ProxyConsole.ProxyConsole.Flush | packages/shared/src/proxy-console.ts:47-51 | the recorded calls come out in order and the record is emptied |
| ProxyConsole.LogsOf | packages/shared/src/proxy-console.ts:56-61 | `{}` iff nothing was recorded; otherwise one line per call with its level and its formatted arguments joined by spaces |
| ProxyConsole.MessageSplitsIntoArgs | packages/shared/src/proxy-console.ts:59-59 | when no formatted argument holds a space, the message splits back into exactly the formatted arguments |
| ProxyConsole.FlushLogs | packages/shared/src/proxy-console.ts:54-62 | the flusher empties the record and returns its log lines |
| ProxyConsole.FlushTwice | packages/shared/src/proxy-console.ts:18-51 | two calls made while on are flushed in order, a second flush is empty, a second `on` throws, and after `off` the console's methods are its own again and nothing is recorded |
| ProxyFetch.FirstMissing | packages/shared/src/proxy-fetch.ts:44-51 | the first key, in check order, that is absent or `undefined` |
| ProxyFetch.CheckResponse | packages/shared/src/proxy-fetch.ts:32-52 | a non-object or `null` is invalid; an object passes iff all four keys are present, else the first missing key is reported |
| ProxyFetch.AssertIsResponse | packages/shared/src/proxy-fetch.ts:32-52 | the loop over the required keys computes `CheckResponse` |
| ProxyFetch.ResponseParser | packages/shared/src/proxy-fetch.ts:58-66 | it fails exactly as the check does; otherwise the four fields are copied verbatim |
| ProxyFetch.NotImplemented | packages/shared/src/proxy-fetch.ts:54-56 | always throws `<name> is not implemented yet` |
| ProxyFetch.Get | packages/shared/src/proxy-fetch.ts:61-101 | the five data members can be read; every other member throws with its own name |
| ProxyFetch.ParsedResponseMembers | packages/shared/src/proxy-fetch.ts:61-100 | a parsed response returns the given fields, `ok` iff the status is a number in [200, 300), and throws for the rest |
| ProxyFetch.ParseResponseData | packages/shared/src/proxy-fetch.ts:37-51 | four keys none of which is `undefined`, `null` included, make a response |
| ProxyFetch.ResponseParserOk | packages/shared/src/proxy-fetch.ts:66-66 | with every key present, `ok` of the parsed response is decided by the status alone, as `IsOk` says |
| ProxyFetch.ResponseParserOkBounds | packages/shared/src/proxy-fetch.ts:66-66 | `ok` holds for 200 and 299 and not for 199 and 300 |
| ProxyFetch.ResponseParserMissingKeys | packages/shared/src/proxy-fetch.ts:32-51 | an `undefined` key is missing; the first missing key in check order is reported; `null` is invalid |
| TestRunner.GetFullAssetPath | packages/main/src/test-runner.ts:28-40 | the method, with its default `"/dist/"` and two guarded reassignments, computes `FullAssetPath` |
| TestRunner.FullAssetPathSlashes | packages/main/src/test-runner.ts:29-37 | the result starts and ends with `/` |
| TestRunner.FullAssetPathKeepsPath | packages/main/src/test-runner.ts:31-37 | the path is kept whole in the middle, with one `/` added in front or behind exactly where it lacked one |
| TestRunner.FullAssetPathFixed | packages/main/src/test-runner.ts:28-39 | a path that starts and ends with `/` is returned unchanged |
| TestRunner.FullAssetPathIdempotent | packages/main/src/test-runner.ts:28-40 | applying it twice is applying it once |
| TestRunner.FullAssetPathExamples | packages/main/src/test-runner.ts:29-37 | `""` becomes `//`, `/` stays `/`, `dist` becomes `/dist/` |

## Left out

- Parsers and generators: Babel's `parse` and `generate` and Python's `ast.parse` are not modelled. Trees are inputs. `ast.dump` equality is datatype equality: each node datatype names the fields the helpers read, and an `attrs` field holds every other field of the node, already dumped. `generateCode` and the `Tower.generate` getter are left out.
- ./strip (lib/strip) is not part of this model. `removeJSComments` receives the stripper as a parameter. The model of lib/parse.ts and lib/compile.ts is that stripper's core.
- `isCalledWithNoArgs` depends on ./strip.
- `python.getDef` and `python.getBlock` are left out: their behaviour lies in regular-expression backtracking with lookahead and named back-references.
- `CSSHelp` and `getIsDeclaredAfter` work on the DOM.
- The `Babeliser` typed getters (`getArrowFunctionExpressions`, `getType` and the others) each call `_recurseBodiesForType` with one type name. They are covered by `BodiesF` with the type as a parameter.
- The Python AST query class that the Python tests exercise is not part of this model.
- The test runner's frames, workers, messaging and timeouts are I/O and concurrency, and so is `createFetchProxy`.
- `json()` of the fetch response needs `JSON.parse` and is left out.
- packages/shared/src/format.ts is not part of this model. `createLogFlusher`'s formatter is a parameter.
- StripParse.Parse: the `TypeError` for a non-string input cannot arise, because the input is typed.
- StripParse.Parse: the source links each block into its parent when the block opens and keeps aliases to it. The model keeps the open blocks as a stack of values and attaches each one when it is popped or at the end. The resulting tree is the same.
- StripParse.PopFrame: the `Unclosed block comment` error is modelled but unreachable from `parse`, because `pop` is tried only when the current block is a comment block.
- StripTheorems.StripRemovesComments: stated only for inputs without a backslash. An escaped character can open a text frame that swallows the rest of the input (see above).
- StripTheorems.NoCommentOptionsIdentity: the same backslash restriction applies.
- StripTheorems.StripPreservesLineCount: the same backslash restriction applies.
- Babeliser.GetLineAndColumnFromIndex: offsets and columns count Unicode scalar values, not UTF-16 code units; a character outside the Basic Multilingual Plane counts once here and twice in the source.
- JsStrings.ToLower: lower-cases ASCII letters only. The table's names are ASCII, but a caller's name need not be: a non-ASCII name whose JavaScript lower case is ASCII (`"HAS\u212AELL"`, with the Kelvin sign, lower-cases to `haskell`) selects a language in the source and is reported as not supported here.
- Babeliser.RecurseF: the write of `scope` into every visited node is not modelled. Each match carries its scope in the returned pair instead.
- Babeliser.IdentifierName: an `Identifier` node without a string name is read as the empty name.
- Babeliser.MaxScopeDepth: a `NaN` or fractional `maxScopeDepth` is not modelled. The option is an integer.
- MockStorage.MockLocalStorage.SetItem: takes string values; the `String(value)` conversion of other values is left out.
- MockStorage.MockLocalStorage.Key: takes an integer index; a fractional index, which JavaScript also answers with `null`, is not modelled.
- ProxyConsole.ProxyConsole.ConsoleCall: forwarding the call to the original console method is output and is left out.
- ProxyConsole.ProxyConsole.constructor: requires the console's methods to be the environment's own. A console already patched by another proxy is not modelled.
- ProxyFetch.ResponseParser: `ok` is computed for number statuses only. A non-number status gives `false`; JavaScript would coerce a numeric string such as `"250"` to a number.
- ProxyFetch.Get: `text()` and the getters return promises or throw synchronously. The model returns the resolved value or the thrown message.

## Findings

| source | as written | input that shows it | evidently intended | confidence | as-written member | corrected member |
|---|---|---|---|---|---|---|
| packages/dom-evaluator/src/mock-local-storage.ts:17-19 | `getItem` reads `#storage[key]` on an ordinary object, so names inherited from `Object.prototype` are found too | `getItem("toString")` on an empty storage returns the inherited function instead of `null` | `null` for every key that was never set, as the `Storage` interface specifies | medium, not executed | MockStorage.InheritedNamesLeak | MockStorage.MockLocalStorage.GetOwnItem |
