# LocalInterpreter, modelled in Dafny

This project models the local Synapse interpreter of the mobile app, the class
`LocalInterpreter` in `src/services/LocalInterpreter/index.ts`. The interpreter
keeps a variable map for as long as the instance lives. Its `execute` method
works in four steps:

1. It removes comments, trims the lines and drops the empty ones.
2. It hands each remaining statement, in order, to the handler that
   `executeLine` chooses: assignment, circuit definition, `parallel`, `run`, or echo.
3. It stops at the first statement whose result is an error and returns that error.
4. Otherwise it reports the most recently inserted entry of the map, as
   `<name> = <formatted value>`, or `Execution completed` when the map is empty.

The model is split into these modules:

- `Text` (`text.dfy`): the JavaScript string primitives the code relies on:
  `trim` with the ECMAScript whitespace set, `indexOf`, `startsWith`,
  `endsWith`, and `split` on one character. It also proves the split/join
  round trip.
- `Numbers` (`numbers.dfy`): `parseFloat`, which reads the longest prefix of
  its text that is a decimal literal. A number is kept as the literal it was
  read from, and the model proves that its rendering is read back as the same
  literal.
- `Patterns` (`patterns.dfy`): the three regular expressions of the source,
  as a leftmost search with greedy runs:
  - `([0-9.]+)\s*±\s*([0-9.]+)`
  - `quantum circuit (\w+):`
  - `run (\w+)`

  Each comes with a declarative characterisation of what it matches.
- `OrderedMap` (`ordered_map.dfy`): a JavaScript `Map` as an insertion-ordered
  sequence. `set` on a key already present keeps that key's position, so the
  last entry is always the most recently *inserted* key.
- `Values` (`values.dfy`): the stored values, the tagged result object and
  `formatValue`.
- `Semantics` (`semantics.dfy`): every handler, `executeLine` and `execute` as
  functions of the variable map. This module holds the properties of a whole
  run:
  - normalisation and source order;
  - classification priority;
  - fail-fast;
  - empty input;
  - which key the report names;
  - persistence across calls.
- `Interpreter` (`interpreter.dfy`): the class itself. Its `variables` field is
  updated in place by methods that mirror the source's stateful methods
  (`execute`, `executeLine`, `handleAssignment`, `handleQuantumCircuit`,
  `clear`); the stateless handlers `handleRun` and `formatValue` stay the
  functions `Semantics.HandleRun` and `Values.FormatValue`. The loop of
  `execute` carries its invariant. Each method is proved to leave the
  map and return the result that `Semantics` prescribes.
- `Scenarios` (`scenarios.dfy`): what `execute` returns for each kind of input
  the repository's test suite uses. Each lemma is stated for every name and
  text of the same shape, and for every number written the way JavaScript
  itself displays it.

Where the tests and the code disagree, the model follows the code. `execute`
drops every per-line result that is not an error and returns a `success`
built from the map. So:

- the tests that expect an `uncertain`, `quantum_circuit` or `parallel`
  result from `execute` describe what the line *handler* returns, not what
  `execute` returns;
- the string test expects the quotes, but the report shows the stored text
  without them.

The scenario lemmas state both results: the handler's and `execute`'s.

Two more behaviours of the code are easy to miss, and the model has both:

- The report names the newest key of the whole map. That need not be a key
  bound by the current call: a call that only echoes, runs or re-binds an
  existing key reports the map's existing last entry.
- An `uncertain` left side whose right side does not match the pattern is
  not an error. It falls through to the number, string and raw branches and
  is bound under the whole left side, `uncertain` included.

## Model

| member | source | states |
|---|---|---|
| Text.IndexOf | src/services/LocalInterpreter/index.ts:20 | -1 exactly when the character is absent; otherwise a position holding it with no earlier occurrence |
| Text.Trim | src/services/LocalInterpreter/index.ts:21 | the result has no whitespace at either end, is no longer than the input, uses only its characters, and is empty exactly when the input is all whitespace |
| Text.TrimPadded | src/services/LocalInterpreter/index.ts:21 | trimming a trimmed text padded with whitespace on both sides gives the text back |
| Text.TrimIdempotent | src/services/LocalInterpreter/index.ts:21 | trimming twice is trimming once |
| Text.Split | src/services/LocalInterpreter/index.ts:19 | there is at least one part and no part contains the separator |
| Text.SplitJoin | src/services/LocalInterpreter/index.ts:19 | joining the parts with the separator gives the original text back |
| Text.JoinSplit | src/services/LocalInterpreter/index.ts:81 | splitting separator-free parts joined by the separator gives the parts back |
| Text.SplitAppend | src/services/LocalInterpreter/index.ts:19 | splitting `a + sep + b` gives the parts of `a` followed by the parts of `b` |
| Text.SplitCount | src/services/LocalInterpreter/index.ts:81-82 | there is one more part than there are separators, so two parts means exactly one `=` |
| Text.TrimAll | src/services/LocalInterpreter/index.ts:81 | every part is trimmed, in place, and the number of parts is kept |
| Numbers.ParsePrefix | src/services/LocalInterpreter/index.ts:107 | a literal that is read is well formed and its rendering is a prefix of the text |
| Numbers.ParseFloat | src/services/LocalInterpreter/index.ts:107-108 | whatever number it gives is a well-formed literal |
| Numbers.ParsePrefixLongest | src/services/LocalInterpreter/index.ts:107 | the literal parser fails exactly when no well-formed literal starts the text; otherwise every other literal that starts the text is strictly shorter than the one it reads |
| Numbers.ParseFloatLongest | src/services/LocalInterpreter/index.ts:107-108 | `parseFloat` is NaN exactly when no literal follows the leading whitespace, and otherwise gives the longest literal there |
| Numbers.RenderParse | src/services/LocalInterpreter/index.ts:107-110 | the literal parser reads every well-formed literal back whole from its rendering |
| Numbers.ParseFloatRender | src/services/LocalInterpreter/index.ts:107-110 | `parseFloat` of a rendered literal is that literal |
| Numbers.QuotedIsNaN | src/services/LocalInterpreter/index.ts:107-114 | text starting with `"` is not a number, so quoted text reaches the string branch |
| Patterns.Leftmost | src/services/LocalInterpreter/index.ts:91 | a match found is at the first position where the pattern matches, and no match means no position matches |
| Patterns.UncertainAt | src/services/LocalInterpreter/index.ts:91 | both captured groups are non-empty runs of `[0-9.]`, and the first starts where the match starts |
| Patterns.RunLengthSpan | src/services/LocalInterpreter/index.ts:91 | a greedy run takes every matching character and stops only at the end or at a non-matching one |
| Patterns.UncertainAtIff | src/services/LocalInterpreter/index.ts:91 | the uncertain pattern captures `v` and `u` at a position exactly when a non-empty numeral `v`, whitespace, `±`, whitespace and a non-empty numeral `u` not followed by another numeral character stand there |
| Patterns.UncertainMatchLeftmost | src/services/LocalInterpreter/index.ts:91 | `match` gives nothing exactly when the pattern matches at no position, and otherwise the groups of the leftmost position where it matches |
| Patterns.CircuitHeaderMatchLeftmost | src/services/LocalInterpreter/index.ts:126 | `match` gives nothing exactly when the header matches at no position, and otherwise the name at the leftmost position where it matches |
| Patterns.RunCommandMatchLeftmost | src/services/LocalInterpreter/index.ts:143 | `match` gives nothing exactly when the run pattern matches at no position, and otherwise the name at the leftmost position where it matches |
| Patterns.UncertainMatchStart | src/services/LocalInterpreter/index.ts:91 | a numeral run, optional whitespace, `±`, optional whitespace and a maximal numeral run at the start of the text are the two captured groups |
| Patterns.CircuitHeaderAtIff | src/services/LocalInterpreter/index.ts:126 | the header pattern captures `name` at a position exactly when `quantum circuit <name>:` stands there and `name` is a non-empty run of word characters |
| Patterns.RunCommandAtIff | src/services/LocalInterpreter/index.ts:143 | the run pattern captures `name` at a position exactly when `run <name>` stands there, `name` is non-empty word characters, and no word character follows it |
| OrderedMap.Get | src/services/LocalInterpreter/index.ts:14 | a key is found exactly when the map holds it |
| OrderedMap.Set | src/services/LocalInterpreter/index.ts:109 | a present key keeps its position and takes the new value; a new key goes at the end; every other key keeps its value and position; keys stay unique |
| OrderedMap.LastKey | src/services/LocalInterpreter/index.ts:33 | the key of the last entry is in the map, and with unique keys it is found at the last position |
| OrderedMap.LastKeyAfterSet | src/services/LocalInterpreter/index.ts:33 | re-binding a key leaves the last key as it was, and binding a new key makes it the last |
| Semantics.StripComment | src/services/LocalInterpreter/index.ts:20-21 | the result is trimmed, has no `#`, uses only characters of the line, and is empty exactly when the line is blank or a comment |
| Semantics.Lines | src/services/LocalInterpreter/index.ts:19-22 | every statement is non-empty, trimmed and free of `#` |
| Semantics.NormaliseLines | src/services/LocalInterpreter/index.ts:19-22 | every kept line is a statement and no line is added |
| Semantics.NormaliseAppend | src/services/LocalInterpreter/index.ts:19-22 | normalisation works line by line, so the statements keep source order |
| Semantics.LinesAppend | src/services/LocalInterpreter/index.ts:19-22 | the statements of two texts joined by a line break are those of the first and then those of the second |
| Semantics.LinesOfStatement | src/services/LocalInterpreter/index.ts:19-22 | a clean one-line statement is its own normal form |
| Semantics.NoStatements | src/services/LocalInterpreter/index.ts:19-22 | there are no statements exactly when every raw line is blank or a comment |
| Semantics.ClassifyPriority | src/services/LocalInterpreter/index.ts:50-77 | a line with `=` goes to the assignment handler whatever it starts with; otherwise `quantum circuit` goes to the circuit handler, then `parallel` gets the fixed reply, then `run` the run handler, and anything else is echoed as a success, each of the last three with the map unchanged |
| Semantics.Unquote | src/services/LocalInterpreter/index.ts:115 | a text of two or more characters is its first character, the result and its last character; a shorter text gives the empty text |
| Semantics.Resolve | src/services/LocalInterpreter/index.ts:88-104 | the value is uncertain exactly when the left side starts with `uncertain` and the pattern matches; it is then bound under the trimmed rest of the left side to the two parsed groups and shown as `name = v ± u`; otherwise the plain resolution applies |
| Semantics.ResolvePlain | src/services/LocalInterpreter/index.ts:106-122 | the binding is under the whole left side and succeeds; it is a number exactly when `parseFloat` gives one, and then it is that number, shown as the literal read from the start of the text; otherwise it is text: the inside of a quoted text, shown inside quotes, or the raw text itself |
| Semantics.TextShownVerbatim | src/services/LocalInterpreter/index.ts:113-122 | text is shown back exactly as written, quotes included, unless it is a lone `"` |
| Semantics.Assign | src/services/LocalInterpreter/index.ts:80-123 | the assignment fails exactly when the line does not hold one `=`; a failure is `Invalid assignment syntax` with the map unchanged |
| Semantics.InvalidAssignment | src/services/LocalInterpreter/index.ts:81-84 | a statement with `=` whose count of `=` is not one fails and leaves the map unchanged |
| Semantics.AssignmentBindsOneName | src/services/LocalInterpreter/index.ts:86-122 | a successful assignment binds the resolved name to the resolved value and leaves every other name as it was |
| Semantics.DefineCircuit | src/services/LocalInterpreter/index.ts:125-140 | the definition fails exactly when the header pattern does not match, and then leaves the map unchanged; on success it names the circuit, binds `circuit_<name>` to the circuit reference, and leaves every other key as it was |
| Semantics.ParallelReply | src/services/LocalInterpreter/index.ts:61-69 | a `parallel` line gets a parallel result with exactly the two mock branches `A` and `B` |
| Semantics.HandleRun | src/services/LocalInterpreter/index.ts:142-159 | the run fails exactly when the run pattern does not match; otherwise it names the captured circuit, reports 2 qubits and exactly the counts `00`: 512 and `11`: 512, which total 1024 |
| Semantics.Step | src/services/LocalInterpreter/index.ts:49-78 | an error leaves the map unchanged; only assignments and circuit definitions change it; at most one key is added, old keys keep their positions, and keys stay unique |
| Semantics.RunLines | src/services/LocalInterpreter/index.ts:24-29 | a halted run carries an error; the map grows by at most one key per statement, old keys keep their positions, and keys stay unique |
| Semantics.RunLinesAppend | src/services/LocalInterpreter/index.ts:24-29 | running two lists of statements is running the first and then, unless it failed, the second |
| Semantics.FailFast | src/services/LocalInterpreter/index.ts:24-28 | when the statements before a failing one succeed, the run returns that failure, with the map as those statements left it, and runs nothing after it |
| Semantics.HaltedByOneLine | src/services/LocalInterpreter/index.ts:24-28 | every run that stops was stopped by one statement; all statements before it succeeded, and its error is the one returned |
| Semantics.Report | src/services/LocalInterpreter/index.ts:31-40 | the report is a success; on an empty map it is `Execution completed`, otherwise a text that starts with the last key and ` = ` |
| Semantics.Conclude | src/services/LocalInterpreter/index.ts:26-40 | the result is an error exactly when the run halted, and is then the error that halted it; the map is the one the run left |
| Semantics.Execute | src/services/LocalInterpreter/index.ts:16-47 | the result is an error or a success, never a handler's own type, and keys stay unique |
| Semantics.EmptyInput | src/services/LocalInterpreter/index.ts:40 | blank or comment-only input leaves the map unchanged, and on an empty map yields `Execution completed` |
| Semantics.ReportNamesNewestKey | src/services/LocalInterpreter/index.ts:31-38 | after a successful run the report is on the final map: it names a key the run added if it added any, otherwise the map's previous last key |
| Semantics.ExecuteReportsLastEntry | src/services/LocalInterpreter/index.ts:31-40 | after a successful run, `execute` returns `<last key> = <formatted last value>` for the final map, or `Execution completed` when that map is empty |
| Semantics.NewestKey | src/services/LocalInterpreter/index.ts:33 | the last key of an extended map with unique keys is new exactly when keys were added |
| Semantics.ExecuteInSequence | src/services/LocalInterpreter/index.ts:14 | the map persists between calls: when the first text does not fail, running it and then another ends as running them joined by a line break |
| Interpreter.LocalInterpreter.constructor | src/services/LocalInterpreter/index.ts:14 | a new interpreter starts with an empty map |
| Interpreter.LocalInterpreter.Execute | src/services/LocalInterpreter/index.ts:16-47 | the new map and the result are those of `Semantics.Execute` on the old map |
| Interpreter.LocalInterpreter.RunStatements | src/services/LocalInterpreter/index.ts:24-29 | the loop stops at the first error and returns it, and the map follows `Semantics.RunLines` |
| Interpreter.LocalInterpreter.ExecuteLine | src/services/LocalInterpreter/index.ts:49-78 | the new map and the result are those of `Semantics.Step` |
| Interpreter.LocalInterpreter.HandleAssignment | src/services/LocalInterpreter/index.ts:80-123 | the new map and the result are those of `Semantics.Assign` |
| Interpreter.LocalInterpreter.AssignPlain | src/services/LocalInterpreter/index.ts:106-122 | the name is bound as `Semantics.ResolvePlain` resolves it, with that result |
| Interpreter.LocalInterpreter.HandleQuantumCircuit | src/services/LocalInterpreter/index.ts:125-140 | the new map and the result are those of `Semantics.DefineCircuit` |
| Interpreter.LocalInterpreter.Clear | src/services/LocalInterpreter/index.ts:171-173 | the map is empty afterwards |
| Scenarios.OneStatement | src/services/LocalInterpreter/index.ts:24-40 | a text of one statement runs it, then returns its error, or otherwise the report on the map it leaves |
| Scenarios.SpacedAssignment | src/services/LocalInterpreter/index.ts:81-86 | `name = rhs` binds the resolution of `rhs` under `name` |
| Scenarios.NumberAssignment | __tests__/LocalInterpreter.test.ts:11-15 | `x = 42` on a fresh interpreter binds the number, and both the handler and `execute` show `x = 42`, for every digit string JavaScript displays unchanged |
| Scenarios.QuotedAssignment | __tests__/LocalInterpreter.test.ts:17-21 | the handler shows `name = "text"`, but `execute` binds the text without quotes and shows `name = text` |
| Scenarios.UncertainAssignment | __tests__/LocalInterpreter.test.ts:23-27 | the handler's result has the `uncertain` type; `execute` binds the uncertain value under the bare name and reports it as a success `name = v ± u`, for decimals JavaScript displays unchanged |
| Scenarios.CircuitScenario | __tests__/LocalInterpreter.test.ts:30-37 | the header's handler names the circuit; `execute` on the header and an echoed body line reports `circuit_<name>` bound to the circuit reference shown as JSON |
| Scenarios.RunScenario | __tests__/LocalInterpreter.test.ts:39-45 | the handler returns the fixed counts 512 and 512; `execute` on a fresh interpreter reports `Execution completed` with the map empty |
| Scenarios.ParallelScenario | __tests__/LocalInterpreter.test.ts:49-53 | the handler returns the fixed parallel reply; `execute` leaves the map unchanged and reports on it |
| Scenarios.InvalidAssignmentScenario | __tests__/LocalInterpreter.test.ts:57-60 | a one-line text whose statement has more than one `=` yields `Invalid assignment syntax` with the map unchanged |
| Scenarios.CommentsIgnored | __tests__/LocalInterpreter.test.ts:69-75 | a comment line before a statement and a comment after it change nothing |
| Scenarios.BareRunFails | src/services/LocalInterpreter/index.ts:143-158 | a `run` statement without a space, such as `run` or `running`, fails with `Invalid run syntax` and leaves the map unchanged |
| Scenarios.CircuitHeaderOf | src/services/LocalInterpreter/index.ts:126-128 | the header pattern captures the name of a well-formed header |
| Scenarios.NumberShownReadsBack | src/services/LocalInterpreter/index.ts:161-168 | a stored number is shown as text that `parseFloat` reads back as the same literal |
| Scenarios.UncertainShownReadsBack | src/services/LocalInterpreter/index.ts:161-164 | an uncertain value is shown as `v ± u`, which the uncertain pattern splits back into the two literals |
| Scenarios.FormatValueReadsBack | src/services/LocalInterpreter/index.ts:161-169 | text is shown as itself; a circuit reference as `{"type":"quantum_circuit","name":"<name>"}`; a number as text `parseFloat` reads back as that number; an uncertain value whose two parts are decimals JavaScript displays unchanged as text the uncertain pattern splits back into those two numbers |
| Scenarios.CircuitReport | src/services/LocalInterpreter/index.ts:165-166 | a circuit reference is shown as `{"type":"quantum_circuit","name":"<name>"}` |

## Left out

- Numbers.ParseFloat: it gives the literal that was read, not its IEEE-754
  double, so rounding, overflow to `Infinity` and the loss of precision of
  long digit strings are not modelled.
- Semantics.ResolvePlain: a number is shown as the literal it was read from,
  not by JavaScript's `String(number)`. So `x = 42.0` shows `42.0` here, where
  JavaScript shows `42`. Canonical number formatting needs the IEEE-754 value,
  which is not modelled.
- Interpreter.LocalInterpreter.AssignPlain: shows numbers the same way, and for
  the same reason.
- Values.FormatValue: shows numbers the same way, and for the same reason.
  A plain number is never `NaN`, because the code stores one only when
  `parseFloat` succeeds. The parts of an uncertain value can be `NaN`, as in
  `uncertain x = . ± 1`, and are then shown as `NaN`, as JavaScript does.
- Scenarios.NumberAssignment: stated only for digit strings that JavaScript
  displays unchanged (no leading zero, at most fifteen digits). The model
  shows a number as the literal it read, and for other digit strings that
  differs from `String(number)`.
- Scenarios.UncertainAssignment: stated only for decimals that JavaScript
  displays unchanged, for the same reason. The handler's own result shows
  the matched text and holds for any decimal, but it is stated under the
  same restriction.
- Scenarios.UncertainShownReadsBack: stated only for decimals that
  JavaScript displays unchanged, for the same reason.
- Scenarios.FormatValueReadsBack: the uncertain case is stated only when both
  parts are decimals that JavaScript displays unchanged. A `NaN` part is shown
  as `NaN`, which the uncertain pattern does not match, and a part with an
  exponent is shown with letters the pattern does not accept. Other decimals
  are shown by JavaScript differently from the literal the model keeps.
- The `try`/`catch` of `execute` is left out: nothing inside it throws on
  string input, so `execute` is total.
- `async`/`await` is left out. `execute` awaits `executeLine` on every line,
  so two overlapping `execute` calls on one instance could interleave their
  updates to the map. The model assumes that calls on one instance do not
  overlap and runs each one to completion.
- The result object's `message`, `circuit_name`, `qubits`, `counts` and
  `branches` fields are the fields of the result variants. The `branches`
  object is a sequence of pairs.
- Quoted strings and raw expressions are both stored as JavaScript strings,
  so one `Text` variant stands for both.
- Strings are sequences of code points. JavaScript strings are UTF-16, which
  matters only for characters outside the Basic Multilingual Plane.
- The cloud executor, the screens, the editor's keyword highlighting and the
  result display are not part of this model. They are networking and
  user-interface code.
