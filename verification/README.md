# radare2 regression harness (`new/index.js`) in Dafny

This project models the core of the JavaScript regression runner of
radare2, `new/index.js`, and proves properties of it:

- **`runTests`**, the parser of a test document. It walks the lines with a cursor. Blank lines and `#` comments are skipped. `KEY=VALUE` directives fill in a test record. A `RUN` line hands the record to the runner that the document's path routes to (`callbackFromPath`). A record left at the end is run when it names a file and has a command list. In an assembler document (one whose path mentions `asm`), every line is expanded by **`parseTestAsm`** into one test per `d` (disassemble) or `a` (assemble) character of its type code. The parser is given twice:
  - as functions (`Database.StepAt` for one line, `Database.ParseFrom` and `Database.Parse` for the whole walk);
  - as the method `Database.RunTests`, whose `while` loop (the JavaScript's `for` loop, whose body also moves the cursor) moves the cursor back and forth as `runTests` does. It is proved to produce exactly what `Parse` produces: the same dispatches and the same error.
- **`checkTest`**: the verdict on a finished run (stdout fails, stderr fails, passes). A `Report` class holds the counters that `checkTest` increments, and its invariant is that every checked record is counted under exactly one outcome.
- **The fuzz runner's forced failure**: when `radare2` cannot be spawned on a fuzzed file, the record is marked so that it fails on stderr.
- **The suggestions `checkTestResult` prints** for a failing record (`EXPECT64=…`, `EXPECT=<<…`, `EXPECT=%…%`, `EXPECT_ERR=…`). Each suggestion is read back with the parser, to show what a maintainer gets by pasting it into a document.
- **The argument vector of `runTest`** (script mode with `-i`, command mode with `-c`), the one `runTestFuzz` uses, and `binPath`.
- **The `String.prototype.padStart` fallback** the harness installs on old engines.

Files:

| file | module | contents |
|---|---|---|
| `common.dfy` | `Common` | `Option`, `Result` |
| `strings.dfy` | `Strings` | the JavaScript string operations used (`trim`, `indexOf`, `split`, `join`, `repeat`, `replace`), with lemmas about them |
| `routing.dfy` | `Routing` | `callbackFromPath` |
| `asm_lines.dfy` | `AsmLines` | the tokenizer regular expression, and `parseTestAsm` as a function and as a method |
| `database.dfy` | `Database` | the test record, `runTests` as functions, and the imperative parser |
| `database_props.dfy` | `DatabaseFacts` | what each kind of line does |
| `parse_shape.dfy` | `ParseShape` | what a whole walk can dispatch, and what small documents do |
| `invocation.dfy` | `Invocation` | the argument vectors and `binPath` |
| `classifier.dfy` | `Classifier` | `checkTest`, the report, and the fuzz failure |
| `suggestions.dfy` | `Suggestions` | the suggestions, and the lemmas that read them back |
| `pad_start.dfy` | `PadStart` | the `padStart` fallback |

## How the code behaves in places a reader may not expect

The model follows the code in all of these. Some of them differ from how the harness's documentation describes the format.

- After a heredoc (`CMDS=<<EOF` … `EOF`), the loop steps back one line (`i--`, lines 391 and 441). The terminator line is then read again as an ordinary line. There is no end-of-file special case: a terminator such as `EOF` has no `=` and is not `RUN`, so the parser throws "Invalid database" right after reading the value (`ParseShape.TerminatorRescanned`).
  - A line ends the heredoc when it *starts with* the terminator, not only when it equals it.
  - A `CMDS` heredoc that is never closed reads past the end of the lines. That is a TypeError, modelled as `PastEndOfInput`.
  - An `EXPECT` heredoc that is never closed throws "Unexpected EOF".
- A delimited value closed on its own line (`EXPECT='text'`) gets a trailing newline (lines 406 and 457).
- A delimited value that runs onto later lines ends with the text before the closing delimiter, with no newline (lines 404 and 455).
- A plain `CMDS` value gets a newline unless it is empty. Plain `EXPECT` and `EXPECT_ERR` values always get one.
- `EXPECT_ERR64` stores its decoded value in `expect`, not in `expectErr` (line 475).
- `new Error(message, x)` ignores its second argument, so neither the offending line nor the unknown key is part of the thrown message (`Database.Message`).
- The record left at the end is run when it names a file and has a command list. An empty command list counts, because `[]` is truthy in JavaScript (lines 484-488). It is dispatched without the result callback. The check `Object.keys(test) !== 0` is always true.
- The heredoc suggestion is printed without a terminator line, so pasting it as printed makes the parser throw "Unexpected EOF" (`Suggestions.HeredocAsPrinted`). With the terminator line added, it reads the output back exactly (`Suggestions.HeredocRoundTrip`).
- In an assembler line the tokens are, in order: the type code, the quoted assembly text, the hex bytes and an optional offset. Every character of the type code other than `d` and `a` produces nothing. `B` marks all of the line's tests as broken, and `E` marks them all as big endian.

## Model

| member | source | states |
|---|---|---|
| `Strings.Find` | new/index.js:362 | `indexOf`: -1 exactly when the character does not occur from `from` on; otherwise the first occurrence |
| `Strings.StartsWith` | new/index.js:387 | `startsWith`: the string begins with the prefix; `DatabaseFacts.HeredocStopAt` and `Database.HeredocStopIs` use it to end a heredoc |
| `Strings.TrimLeft` | new/index.js:334 | the suffix of the string starting at its first non-space; everything cut off is white space |
| `Strings.TrimRight` | new/index.js:334 | the prefix ending at the last non-space; everything cut off is white space |
| `Strings.Trim` | new/index.js:334 | `trim`: `TrimLeft` then `TrimRight`; `Strings.TrimSlice` states it is the slice between the leading and the trailing white space |
| `Strings.Split` | new/index.js:412 | `split` gives at least one piece |
| `Strings.JoinSplit` | new/index.js:229 | the pieces of `split(c)` joined with `c` give back the string |
| `Strings.Join` | new/index.js:242 | `join(sep)`: `Strings.JoinSplit` and `Strings.SplitJoin` state it undoes `split` and is undone by it for separator-free pieces |
| `Strings.Lines` | new/index.js:388 | each line followed by a newline, as the heredoc loop appends them; `Strings.SplitLines` states that splitting it on newlines gives the lines back, followed by the pieces of any text after it |
| `Strings.IndexOf` | new/index.js:88 | `indexOf` for a string: -1 exactly when it occurs nowhere from `from` on; otherwise its first occurrence |
| `Strings.RemoveAll` | new/index.js:735 | `split('"').join('')`: the same characters as the input, every quote removed |
| `Strings.Replace` | new/index.js:242 | the same length, with every occurrence of one character replaced |
| `Strings.Repeat` | new/index.js:36 | `repeat(n)`: `n` copies, of length `n` times the length; `Strings.RepeatAt` states which character sits at each position |
| `Routing.FirstRoute` | new/index.js:77-92 | -1 exactly when no later row matches; otherwise the first matching row |
| `Routing.CallbackFromPath` | new/index.js:77-92 | `runTest` exactly when one of the first five directories occurs in the path; `runTestBin` exactly when only `db/bin` does; `null` exactly when none does |
| `Routing.Mentions` | new/index.js:87 | `indexOf(dir) !== -1`; `Routing.CallbackFromPath` states the routing in terms of it |
| `AsmLines.QuoteClose` | new/index.js:716 | the closing quote of a quoted section is the nearest `"` with no line terminator before it |
| `AsmLines.TokenEnd` | new/index.js:716 | a match ends within the line, at or after where it starts |
| `AsmLines.TokensFrom` | new/index.js:716 | every match is non-empty |
| `AsmLines.Tokens` | new/index.js:716 | `line.match(...)` with the `g` flag; `AsmLines.TokensPlain`, `TokensSkip`, `TokensQuoted` and `AsmLineTokens` state which tokens it yields |
| `AsmLines.FileNameParts` | new/index.js:721-722 | the last path segment split on `_` has at least one part |
| `AsmLines.Kinds` | new/index.js:745-769 | one test kind per `d` or `a` of the type code |
| `AsmLines.KindOf` | new/index.js:751-765 | `d` and `a` each ask for one test; every other character asks for none |
| `AsmLines.ParseTestAsm` | new/index.js:713-772 | the method building the settings list and the test list by appending returns exactly `AsmTests` |
| `AsmLines.AsmTests` | new/index.js:713-772 | `parseTestAsm` as a function: `AsmLines.AsmTestsShape` states no match gives `None` (the TypeError of `args.length`) and otherwise the tests of `FromTokens` |
| `AsmLines.FromTokens` | new/index.js:717-771 | the cut-offs for fewer than three tokens and more than three `_` parts, then the expansion; stated by `AsmLines.AsmTestsShape` |
| `AsmLines.Settings` | new/index.js:721-741 | the `r2args` list: bits, or cpu and bits, then arch, then the seek; stated by `AsmLines.ArchBitsSettings` and `AsmLines.AsmTestsShape` |
| `AsmLines.TestFor` | new/index.js:746-769 | the test one type-code character adds; stated by `AsmLines.TestForFits` |
| `AsmLines.Expand` | new/index.js:745-770 | the tests of the whole type code, in order; stated by `AsmLines.ExpandShape` |
| `AsmLines.TestForFits` | new/index.js:746-768 | one type-code character gives the test of its kind, with its command, its expected output and its `B`/`E` flags |
| `AsmLines.ExpandShape` | new/index.js:745-771 | the type code gives one test per `d`/`a`, in order, each with the right kind, command, expected output, and broken and endianness flags |
| `AsmLines.AsmTestsShape` | new/index.js:713-772 | no match throws; fewer than three tokens, or more than three `_` parts, gives no tests; otherwise a test per `d`/`a` with the settings joined by `;` |
| `AsmLines.TokensPlain` | new/index.js:716 | a run of plain characters followed by white space is one token |
| `AsmLines.TokensSkip` | new/index.js:716 | white space starts no token |
| `AsmLines.TokensQuoted` | new/index.js:716 | a quoted section followed by white space is one token |
| `AsmLines.AsmLineTokens` | new/index.js:716 | a line `type "asm text" hex` gives exactly three tokens, with the quoted text as one token even when it holds spaces |
| `AsmLines.ArchBitsParts` | new/index.js:721-732 | the file name `arch_bits` gives the architecture and the bits |
| `AsmLines.Unquoted` | new/index.js:735 | the quotes around the assembly token are dropped |
| `AsmLines.ArchBitsSettings` | new/index.js:724-741 | an `arch_bits` document without an offset token gives the settings bits, arch, `s 0` |
| `AsmLines.DisassembleAssemble` | new/index.js:745-769 | the type code `da` gives a disassemble test and then an assemble test |
| `AsmLines.ArchBitsLine` | new/index.js:713-772 | a whole `da "asm" hex` line of an `arch_bits` document expands into exactly those two little-endian, not-broken tests |
| `Database.Message` | new/index.js:364 | the thrown messages; the TypeErrors have none of their own; "Unexpected EOF" names the terminator |
| `Database.Fresh` | new/index.js:318 | `{from: source}`: every field unset; `ParseShape.FreshEnd` states such a record is not run at the end |
| `Database.KeyOf` | new/index.js:369-481 | the case label a key selects, `OtherKey` for the `default` case; `DatabaseFacts.UnknownKey` and `DatabaseFacts.StepKnownKey` state what each selects |
| `Database.CmdList` | new/index.js:412 | `cmdScript ? cmdScript.trim().split('\n') : []`; stated by `DatabaseFacts.CommandList` |
| `Database.WithScript` | new/index.js:382-416 | the record with a new `cmdScript` and its `cmds`; used by `DatabaseFacts.CmdsHeredoc` and `DatabaseFacts.PlainCmds` |
| `Database.Leftover` | new/index.js:484-488 | the record left at the end is run when it names a file and has a command list; stated by `ParseShape.ParseEnd` |
| `Database.Parse` | new/index.js:317-489 | the whole walk from line 0 with a fresh record; `Database.RunTests` is proved equal to it and `ParseShape.ParseFits` states what it dispatches |
| `Database.HeredocStop` | new/index.js:387-390 | the line found starts with the terminator |
| `Database.HeredocStopIs` | new/index.js:387-390 | the heredoc ends at the first line that starts with the terminator, or is never closed when no line does |
| `Database.DelimClose` | new/index.js:400-403 | the line found holds the delimiter |
| `Database.DelimCloseIs` | new/index.js:400-403 | a delimited value ends at the first later line that holds the delimiter, or is never closed |
| `Database.Delimited` | new/index.js:393-408 | a delimited value leaves the cursor after line `i` and within the lines |
| `Database.CmdsScript` | new/index.js:382-411 | the `CMDS` value leaves the cursor after line `i` and within the lines |
| `Database.CmdsValue` | new/index.js:382-413 | a `CMDS` line dispatches nothing, keeps `from`, and moves forward |
| `Database.ExpectValue` | new/index.js:427-463 | an `EXPECT` line dispatches nothing, keeps `from`, and moves forward |
| `Database.Directive` | new/index.js:369-481 | no directive dispatches or changes `from`; every directive moves the cursor forward |
| `Database.AsmDispatches` | new/index.js:348-351 | one dispatch per expanded test, in order |
| `Database.AsmDispatchesSnoc` | new/index.js:349-351 | one more test, one more dispatch at the end |
| `Database.StepAt` | new/index.js:332-482 | every line that does not throw moves the cursor forward within the lines |
| `Database.DirectiveLine` | new/index.js:362-368 | a `KEY=VALUE` line dispatches nothing, keeps `from`, and moves forward |
| `Database.ParseFrom` | new/index.js:332-489 | what was pushed before a throw stays pushed: the result extends the accumulated dispatches |
| `Database.ReadHeredoc` | new/index.js:383-390 | the heredoc loop gathers exactly the lines up to the terminator, and leaves the cursor one line before it |
| `Database.ReadDelimited` | new/index.js:393-408 | the delimited loop returns exactly the `Delimited` value and the closing line |
| `Database.ReadCmdScript` | new/index.js:383-411 | the script and the cursor are exactly those of `CmdsScript` |
| `Database.ApplyCmds` | new/index.js:382-413 | the `CMDS` case does exactly what `CmdsValue` says |
| `Database.ApplyExpect` | new/index.js:427-463 | the `EXPECT` case does exactly what `ExpectValue` says |
| `Database.ApplyDirective` | new/index.js:369-481 | the `switch` does exactly what `Directive` says, for every key |
| `Database.PushAsm` | new/index.js:349-351 | the `for` loop pushes exactly `AsmDispatches` |
| `Database.ParseLine` | new/index.js:333-481 | the loop body does exactly what `StepAt` says |
| `Database.ApplyLine` | new/index.js:362-481 | splitting at the first `=` and applying the directive does exactly what `DirectiveLine` says |
| `Database.RunTests` | new/index.js:317-489 | the imperative parser returns exactly `Parse`: the same dispatches, and the same error or none |
| `DatabaseFacts.SkippedLine` | new/index.js:335-337 | blank lines and comments change nothing |
| `DatabaseFacts.RunLine` | new/index.js:354-364 | a routed `RUN` dispatches the record to its runner and starts a fresh record; an unrouted `RUN` throws "Invalid database" |
| `DatabaseFacts.RunRouted` | new/index.js:354-360 | a `RUN` routed to `h` dispatches to `h` |
| `DatabaseFacts.StrayLine` | new/index.js:362-365 | any other line without `=` throws "Invalid database" |
| `DatabaseFacts.StepDirective` | new/index.js:362-368 | the key is the text before the first `=`, and the value is everything after it |
| `DatabaseFacts.SplitAtKey` | new/index.js:362-367 | the first `=` of `key=v` is the one after the key |
| `DatabaseFacts.UnknownKey` | new/index.js:480-481 | any key outside the `switch` throws |
| `DatabaseFacts.UnknownDirective` | new/index.js:480-481 | the `default` case throws with the key |
| `DatabaseFacts.HeredocStopAt` | new/index.js:387-390 | the heredoc ends at `stop` |
| `DatabaseFacts.CmdsHeredoc` | new/index.js:383-391 | `CMDS=v` with `v` trimming to `<<term`: the script is the following lines up to the terminator, and the terminator line is read next |
| `DatabaseFacts.ExpectHeredoc` | new/index.js:429-442 | `EXPECT=v` with `v` trimming to `<<term`: the expected output is the lines up to the terminator, which is remembered and read next |
| `DatabaseFacts.HeredocUnterminated` | new/index.js:383-442 | an unclosed heredoc: `CMDS` reads past the end and `EXPECT` throws "Unexpected EOF" |
| `DatabaseFacts.HeredocTrim` | new/index.js:368-384 | `<<term` with any white space around it trims to `<<term`, takes the heredoc branch and ends at `term` |
| `DatabaseFacts.PlainValue` | new/index.js:408-472 | a plain `CMDS` gets a newline unless empty; `EXPECT` and `EXPECT_ERR` always get one |
| `DatabaseFacts.PlainCmds` | new/index.js:409-412 | a plain `CMDS` value and its command list |
| `DatabaseFacts.FieldValue` | new/index.js:370-481 | `NAME`, `PATH`, `ARGS`, `ARCH`, `BITS` and `FILE` store their value and move one line on |
| `DatabaseFacts.ExpectErrRejected` | new/index.js:468-471 | `EXPECT_ERR` given as a heredoc or a delimited value throws |
| `DatabaseFacts.StepKnownKey` | new/index.js:362-481 | a line with a key of the `switch` is read by the `switch` |
| `DatabaseFacts.DirectiveValue` | new/index.js:382-463 | `CMDS` and `EXPECT` are read by their value functions |
| `DatabaseFacts.DelimitedBranch` | new/index.js:393-396 | a value starting with a delimiter takes the delimited branch, not the heredoc one |
| `DatabaseFacts.ClosedOnLine` | new/index.js:395-396 | the closing delimiter on the same line is the first one after the opening one |
| `DatabaseFacts.DelimitedSameLine` | new/index.js:405-406 | a value closed on its own line is the text between the delimiters, with a newline |
| `DatabaseFacts.DelimCloseAt` | new/index.js:400-403 | the value closes on the first later line that holds the delimiter |
| `DatabaseFacts.ClosedAt` | new/index.js:404-455 | the closing line contributes the text before its first delimiter |
| `DatabaseFacts.DelimitedManyLines` | new/index.js:397-404 | the rest of the opening line, then the lines in between, each with a newline, then the text before the closing delimiter |
| `DatabaseFacts.DelimitedStep` | new/index.js:393-459 | `CMDS` takes the value as its script; `EXPECT` takes it as the expected output and remembers the delimiter |
| `DatabaseFacts.DelimitedValue` | new/index.js:393-459 | a one-line delimited `CMDS` or `EXPECT` value, read through the whole line |
| `DatabaseFacts.DelimitedBlock` | new/index.js:393-459 | a delimited value spanning lines `i` to `c`, read through the whole line; the line after `c` is read next |
| `DatabaseFacts.BlockValue` | new/index.js:397-459 | the same for the value functions |
| `DatabaseFacts.DelimitedUnclosed` | new/index.js:399-403 | a delimited value that no later line closes reads past the end |
| `DatabaseFacts.CommandList` | new/index.js:412 | the command list is empty exactly for an empty script, holds no newlines, and joins back into the trimmed script |
| `ParseShape.StepFits` | new/index.js:332-481 | one line keeps the record's `from` and pushes only dispatches that fit the document |
| `ParseShape.FitsConcat` | new/index.js:350 | pushing more fitting dispatches keeps the list fitting |
| `ParseShape.ParseFromFits` | new/index.js:332-489 | the walk from any line pushes only fitting dispatches, with the leftover record at most last and only when nothing was thrown |
| `ParseShape.ParseFits` | new/index.js:317-489 | `runTests`: routed records come from the document and go to the runner its path routes to; assembler tests appear exactly in assembler documents; the leftover record appears at most once, last, and only without a throw |
| `ParseShape.ParseNext` | new/index.js:332 | a line that steps on continues the walk from where it leads |
| `ParseShape.ParseStop` | new/index.js:364 | a line that throws ends the walk with what was pushed before it |
| `ParseShape.TerminatorRescanned` | new/index.js:383-442 | a heredoc terminator line is read again and throws "Invalid database" |
| `ParseShape.ParseEnd` | new/index.js:484-488 | at the end the leftover record is added if it names a file and has commands |
| `ParseShape.OneRecord` | new/index.js:317-489 | `NAME`, `FILE`, `CMDS`, `EXPECT` and `RUN` dispatch exactly that record to the routed runner, and nothing else |
| `ParseShape.LastRun` | new/index.js:354-360 | a final `RUN` dispatches the record, and the fresh record left behind is not run |
| `ParseShape.ParseRun` | new/index.js:354-360 | a routed `RUN` line continues with a fresh record |
| `ParseShape.FreshEnd` | new/index.js:484-488 | a fresh record at the end is not run |
| `ParseShape.FourDirectives` | new/index.js:369-461 | the four directives build the record |
| `ParseShape.TwoFields` | new/index.js:370-478 | `NAME` and `FILE` on lines 0 and 1 |
| `ParseShape.TwoValues` | new/index.js:382-461 | plain `CMDS` and `EXPECT` on lines 2 and 3 |
| `ParseShape.ParseField` | new/index.js:370-478 | the walk after a `NAME` or `FILE` line |
| `ParseShape.ParsePlain` | new/index.js:409-461 | the walk after a plain `CMDS` or `EXPECT` line |
| `Invocation.BinPath` | new/index.js:782-787 | a file starting with `.` is joined to the harness directory; anything else, `undefined` included, is returned as it is |
| `Invocation.ExtraArgs` | new/index.js:228-230 | the `ARGS` words; `Invocation.RunArgvLayout` states they join back into the `ARGS` text |
| `Invocation.Commands` | new/index.js:239-241 | the record's command list or its script cut at newlines; `Invocation.ScriptAsCommands` states the `-c` argument it gives |
| `Invocation.RunArgv` | new/index.js:217-245 | `runTest`'s argument vector as a function; `Invocation.BuildArgv` is proved equal to it and `Invocation.RunArgvLayout` states its layout |
| `Invocation.BuildArgv` | new/index.js:217-245 | the `args.push` sequence gives exactly `RunArgv`, and the record gets the command list that `-c` mode rebuilds |
| `Invocation.RunArgvLayout` | new/index.js:217-245 | the five fixed flags, then the `ARGS` words (which join back into `ARGS`), then `-i` with the script file or `-c` with the commands joined by `;`, then the file; it fails exactly in `-c` mode without commands |
| `Invocation.ScriptAsCommands` | new/index.js:239-242 | in `-c` mode a record without a command list runs its script with every newline turned into `;` |
| `Invocation.CommandsRoundTrip` | new/index.js:242 | the `-c` argument splits back on `;` into the command list when no command holds a `;` |
| `Invocation.BinPathIdempotent` | new/index.js:782-787 | `binPath` of its own result changes nothing when `join` makes absolute paths |
| `Invocation.FuzzArgv` | new/index.js:188 | the fuzz runner's five arguments end with the fuzzed file |
| `Classifier.StripCr` | new/index.js:545-554 | on Windows every `\r` is removed and every other character kept in order (`Strings.RemoveAll`, with the same multiset minus the `\r`); elsewhere the stream is unchanged |
| `Classifier.Truthy` | new/index.js:555 | a JavaScript-true string: defined and non-empty; `Classifier.Check` states the verdict in terms of it |
| `Classifier.StdoutFails` | new/index.js:555-561 | the stdout verdict; `Classifier.Check` states when it fails |
| `Classifier.StderrFails` | new/index.js:562 | the stderr verdict; `Classifier.Check` states when it fails |
| `Classifier.Check` | new/index.js:555-563 | stdout can fail only against a non-empty `expect`: compared trimmed on both sides unless `expect64` is `false`, exactly when it is; stderr fails exactly when `expectErr` is non-empty and differs from the output; a TypeError exactly for a trimmed comparison without stdout; passes exactly when neither fails |
| `Classifier.StatusOf` | new/index.js:564-566 | ok or fixed exactly when the record passes; fixed or broken exactly when it is marked broken |
| `Classifier.Report.constructor` | new/index.js:52-59 | all counters start at zero |
| `Classifier.Report.CheckTest` | new/index.js:544-593 | returns `Check`'s verdict; counts the record once under its outcome and keeps total = sum of the outcomes; a TypeError leaves the report unchanged |
| `Classifier.Report.Tally` | new/index.js:567-580 | one more record, counted under exactly its outcome |
| `Classifier.NoExpectations` | new/index.js:555-563 | a record with no expectations always passes |
| `Classifier.TrailingNewline` | new/index.js:460-560 | the output `v` passes a plain `EXPECT=v` exactly when the format is not declared literal, because only the trimmed comparison ignores the added newline |
| `Classifier.CarriageReturn` | new/index.js:545-560 | `\r\n` output matches an expected `\n` exactly on Windows |
| `Classifier.FuzzRecord` | new/index.js:491-497 | the fuzz record expects nothing, is not broken, and comes from the fuzz directory |
| `Classifier.ForceFailure` | new/index.js:193-199 | a failed spawn expects `N` on stderr and records `X` there |
| `Classifier.ForcedFails` | new/index.js:193-199 | a forced record with no `EXPECT` fails on stderr only, whatever its output |
| `Classifier.ForcedFuzzFails` | new/index.js:184-199 | a fuzz case whose spawn errored always counts as failed: `runFuzz`'s record, forced, is checked without a TypeError and lands under `[XX]` |
| `Suggestions.ExpectSuggestion` | new/index.js:641-654 | no `EXPECT` suggestion exactly when the record's format is unknown |
| `Suggestions.SuggestDelim` | new/index.js:647-650 | the record's delimiter, `%` when it had none; `Suggestions.DelimitedRoundTrip` states the parser remembers it again |
| `Suggestions.NewlineCount` | new/index.js:660 | how many newlines `match(/\n/g)` finds; `Suggestions.OneNewline` states a single trailing newline counts once |
| `Suggestions.ErrSuggestion` | new/index.js:659-663 | the notice or the `EXPECT_ERR` directive; `Suggestions.ErrRoundTrip` states the directive reads back as the error output |
| `Suggestions.Suggestions` | new/index.js:595-672 | nothing for a passing record, or for a broken one unless verbose outside CI; otherwise exactly one line per failed stream that has a suggestion (stdout when its format is known, stderr unless fuzzing): the stdout suggestion first, the stderr one last |
| `Suggestions.KeyLineOneLine` | new/index.js:643-663 | a directive with a one-line value is one line |
| `Suggestions.DelimitedLines` | new/index.js:647-652 | a delimited suggestion's lines: blank, the directive with the first output line, the middle lines, the last line with the delimiter, blank |
| `Suggestions.DelimitedLine` | new/index.js:647-652 | a one-line output's delimited suggestion is a blank line, the directive and a blank line |
| `Suggestions.HeredocLines` | new/index.js:645-646 | a heredoc suggestion's lines: blank, the directive, the output's lines |
| `Suggestions.HeredocLinesClosed` | new/index.js:645-646 | with a terminator added: blank, the directive, the output's lines and the terminator |
| `Suggestions.DelimitedRoundTrip` | new/index.js:647-652 | a multi-line output's delimited suggestion reads back as exactly that output, with the delimiter remembered |
| `Suggestions.DelimitedLineRoundTrip` | new/index.js:647-652 | a one-line output's delimited suggestion reads back as that output with a newline |
| `Suggestions.HeredocAsPrinted` | new/index.js:645-646 | the heredoc suggestion as printed, with no terminator line, reads back as "Unexpected EOF" |
| `Suggestions.HeredocRoundTrip` | new/index.js:645-646 | with the terminator line added, the heredoc suggestion reads back as exactly the output, and the terminator line is read next |
| `Suggestions.ClosedSuggestion` | new/index.js:645-646 | the closed heredoc suggestion line by line |
| `Suggestions.Base64RoundTrip` | new/index.js:642-643 | the `EXPECT64` suggestion reads back as the output whenever `debase64` undoes `base64` |
| `Suggestions.Base64Step` | new/index.js:464-466 | an `EXPECT64` line stores the decoded value and marks it as base64 |
| `Suggestions.ErrRoundTrip` | new/index.js:655-664 | a one-line error output's suggestion reads back as exactly that error output |
| `Suggestions.ErrLines` | new/index.js:659-663 | the `EXPECT_ERR` suggestion for a one-line error output is the directive and a blank line |
| `Suggestions.OneNewline` | new/index.js:660 | a line with its newline counts as a single newline, so it is not refused as multi-line |
| `PadStart.ToInt32` | new/index.js:29 | `n >> 0` is the signed 32-bit value congruent to `n` |
| `PadStart.PadText` | new/index.js:30 | a missing or empty pad string is one space |
| `PadStart.Pad` | new/index.js:27-40 | the result is the original string padded on the left to the target length (or longer when the string already is), and it ends with the string |
| `PadStart.PadCycles` | new/index.js:34-39 | the padding repeats the pad string: position `q*len + j` holds character `j` |
| `PadStart.LongAt` | new/index.js:36-37 | the pad string and its repetitions hold `p[j]` at `q*len + j` |
| `PadStart.QuotientBound` | new/index.js:37 | the number of whole copies needed is at most the quotient |
| `PadStart.LongEnough` | new/index.js:31-33 | a string at least as long as the target comes back unchanged |

## Left out

- Spawning `radare2`, `r2pipe`, temporary files, timeouts, the promise limiter, file reading and `gunzip`, `console` output and colours. The model works on the lines, records and outputs these produce.
- `debase64` and `base64` (Node's `Buffer`) are function parameters (`decode`, `encode`). `Suggestions.Base64RoundTrip` assumes that the first undoes the second.
- `path.join` and `path.sep`: the separator is `/`. Joining a test file to the harness directory is a parameter `join` of `Invocation.BinPath`.
- JavaScript strings are sequences of UTF-16 code units; here they are sequences of characters. No surrogate pair is modelled.
- `PadStart.ToInt32`: models `>> 0` on integral numbers only, not on fractional numbers or non-numbers.
- `Suggestions.Suggestions`: takes the captured `stdout` and `stderr` as strings; the case where a stream is `undefined` is not modelled. The environment toggles `TRAVIS`, `APPVEYOR` and `NOOK` appear only as the parameter `ci`. `NOOK` only affects printing.
- `Suggestions.DelimitedRoundTrip`, `Suggestions.DelimitedLineRoundTrip`, `DatabaseFacts.DelimitedValue` and `DatabaseFacts.DelimitedBlock`: state only values whose delimiter directly follows `=`. That is the form the suggestions print; white space before the delimiter is not covered by these lemmas. `Database.Delimited` itself handles it.
- `Suggestions.HeredocAsPrinted` and `Suggestions.HeredocRoundTrip`: state only a remembered terminator without white space. A terminator such as `END OF` prints as `EXPECT=<<END OF` and reads back the same, but these lemmas do not cover it. The parser lemmas (`DatabaseFacts.CmdsHeredoc`, `DatabaseFacts.ExpectHeredoc`, `DatabaseFacts.HeredocUnterminated`, `ParseShape.TerminatorRescanned`) take any value that trims to `<<term`.
- The edit mode (`-e`), which exits the process, and the `-l` listing mode of `runTest`.
- `runTestBin`, `runTestBinFile` and `runTestAsm`, which walk directories or call `r2pipe`. Their records are the ones dispatched here.
- Rewriting lines on Windows when loading a document (`/dev/null`, `${VAR}`, `awk`): this happens before `runTests` and is string substitution on I/O.
- `ARGS=` with an empty value stores `[]` in the JavaScript and `""` here. Both give no extra arguments (`Invocation.ExtraArgs`).
- `printReport`, `quit`, `fixTest`, `editTest` and timing (`birth`, `death`, `lifetime`).
- The C unit tests (`unit/test_bin.c`): they test radare2's C library, not the harness.
