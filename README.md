# Dart/Flutter analyze-and-format action: a Dafny model

The action runs `dartanalyzer --format machine` and `dartfmt format --dry-run`
over a project. It turns each reported problem into a GitHub workflow
annotation (`::error …` / `::warning …`) and fails the job when the analyzer
reports an error. When the `fail-on-warnings` input is the string `true`, it
also fails on any warning. Everything it does lives in `src/index.js`:

- `analyze` parses the analyzer's `|`-separated machine output;
- `format` keeps the formatter's lines that name a `.dart` file;
- `run` adds the counts up, decides, and reports the outcome.

The model has six modules:

- `Wrappers`: the `Option` and `Result` values.
- `JsString`: the JavaScript string operations the code relies on.
  - `trim`, with the ECMAScript white-space and line-terminator set.
  - `split('|')` and `split(/\r?\n/)`. An empty string gives one empty piece.
  - ASCII `toLowerCase`.
  - `replace(string, '')`, which removes the first occurrence only.
  - `endsWith`.
  - Decimal rendering of a count.
- `Annotations`: a `Finding` (severity, lint, file, line, column, message) and
  the annotation built from it.
  - `DocUrl` picks the documentation link.
  - `Text` gives the exact console line.
  - `Tally` counts a log by level.
- `Analyzer`: `analyze`.
  - `ParseLine` reads one line. It fails with the `TypeError` message that the
    code throws when field 2 or field 3 is missing.
  - `AnalyzeLines` is the loop over the lines. It keeps the annotations it has
    logged and the two counters.
  - `Analyze` applies trim-and-split to the output, then runs that loop.
- `Formatter`: `format`, as the loop `FormatLines` and its specification
  `FormatLog`.
- `Runner`: `run`.
  - `Decide` is the fail decision and its message.
  - `Run` chains the two steps. A thrown exception becomes the failure message.

A step's console output is a sequence of `Annotation` values. `Text` renders
each one as the line the code prints. The tool runs are parameters. Each one
either exited with its captured output or threw with a message. The captured
output is the stdout and stderr chunks in arrival order, as one string. The
working directory and the raw `fail-on-warnings` input are parameters too.

Where the action's documented design and its code differ, the model follows
the code:

- Empty or all-white-space analyzer output is not "zero findings".
  - Trimmed and split, it is one empty line.
  - `lint.toLowerCase()` then throws, so the run fails. See the finding below.
- Blank lines are not skipped.
  - A blank line anywhere, also between two findings, has no lint field, so
    `lint.toLowerCase()` throws at it and the run fails.
  - The corrected step below fixes only wholly blank output; such a line
    inside other output still throws.
- `trim` cuts white space at both ends.
- The working directory is removed where it first occurs in the file field,
  not only as a prefix.

## Model

| member | source | states |
|---|---|---|
| JsString.IsSpace | src/index.js:40 | the characters `trim` removes: the ECMAScript white space (TAB, VT, FF, ZWNBSP, every Zs space separator) and line terminators (LF, CR, LS, PS); `Trim`, `TrimIsInfix` and `TrimEmptyIff` are stated over it |
| JsString.SpaceFrom | src/index.js:40 | scanning forward from a position stops at the first character that is not white space, or at the end, and passes only white space |
| JsString.SpaceUntil | src/index.js:40 | scanning backward to a position stops after the last character that is not white space, or at that position, and passes only white space |
| JsString.LeadingSpace | src/index.js:40 | the white space cut from the front is all white space and stops at the first other character |
| JsString.Trim | src/index.js:40 | the trimmed output begins and ends with no white space or line terminator |
| JsString.TrimIsInfix | src/index.js:40 | the trimmed text is the input minus an all-white-space prefix and an all-white-space suffix |
| JsString.TrimEmptyIff | src/index.js:40 | trimming gives the empty string exactly when the output is all white space |
| JsString.TrimIdempotent | src/index.js:40 | trimming an already trimmed text changes nothing |
| JsString.SplitOn | src/index.js:43 | `split` on one character always gives at least one piece; `SplitOnSpec` and `JoinSplitOn` pin the pieces down |
| JsString.SplitOnSpec | src/index.js:43 | splitting on a character gives one more piece than it has occurrences, and no piece holds it |
| JsString.JoinSplitOn | src/index.js:43 | the split pieces joined by the separator give back the line |
| JsString.SplitOnJoin | src/index.js:43 | fields that hold no separator, once joined, split back into the same fields |
| JsString.SplitLines | src/index.js:40 | `split(/\r?\n/)` always gives at least one line; `SplitLinesSpec` counts the lines and `SplitLinesOfJoin` gives them back for any mix of LF and CRLF line ends |
| JsString.SplitLinesSpec | src/index.js:40 | the output splits into one line more than it has LF characters, and no line holds an LF |
| JsString.SplitLinesOfJoin | src/index.js:40 | lines without LF, each ended by LF or CRLF as `JoinLines` writes them, split back into themselves, provided no line ended by a bare LF ends in CR |
| JsString.JoinLinesAtLF | src/index.js:40 | a text with mixed line ends is the LF-join of its lines with a CR put back on each CRLF-ended line |
| JsString.JoinLinesUniform | src/index.js:40 | the same end on every line is a plain join with LF or with CRLF |
| JsString.SplitLinesOfLF | src/index.js:40 | lines without LF, joined by LF, split back into themselves when none but the last ends in CR |
| JsString.SplitLinesOfCRLF | src/index.js:40 | lines without LF, joined by CRLF, split back into themselves with the CRs dropped |
| JsString.OutputLines | src/index.js:40 | the trimmed and split output always has at least one line |
| JsString.OutputLinesOfBlank | src/index.js:40 | blank output becomes the single empty line |
| JsString.ToLowerCase | src/index.js:45 | lower-casing keeps the length |
| JsString.ToLowerCaseSpec | src/index.js:45 | each upper-case ASCII letter becomes its lower-case letter and nothing else changes |
| JsString.LowerFixedIff | src/index.js:45-47 | an id equals its lower-cased form exactly when it has no upper-case letter |
| JsString.IndexOfFrom | src/index.js:46 | the result is the first position at or after the start where the pattern occurs, or none when it occurs nowhere there |
| JsString.ReplaceFirst | src/index.js:46 | a file field that does not contain the working directory is kept as it is |
| JsString.ReplaceFirstAt | src/index.js:46 | removing the first occurrence and putting the pattern back at that place gives the original |
| JsString.ReplaceFirstPrefix | src/index.js:46 | a field made of the working directory and a relative path becomes the relative path |
| JsString.EndsWith | src/index.js:83 | `endsWith`: the last characters of the text are the suffix; `EndsWithIff` states it |
| JsString.EndsWithIff | src/index.js:83 | a text ends with a suffix exactly when it is some text followed by that suffix |
| JsString.NatToString | src/index.js:16 | a count is written as decimal digits with no leading zero, and zero as `0` |
| JsString.ParseNatToString | src/index.js:16 | reading the decimal digits back gives the count |
| Annotations.DocUrl | src/index.js:47-49 | the documentation link of a lint id; its two forms are stated by `DocUrlForms` |
| Annotations.Body | src/index.js:50 | the text after the marker: `file=…,line=…,col=…::message` and the link for a finding, the fixed format message for a file (src/index.js:85); stated by `AnnotationOfLine` and `FormatAnnotationText` |
| Annotations.DocUrlForms | src/index.js:47-49 | an id with no upper-case letter links to its linter-rule page; any other id links to the diagnostic anchor of its lower-cased form; the two forms exclude each other |
| Annotations.LevelOf | src/index.js:52-56 | the marker choice: an analyzer finding whose severity is exactly `ERROR` is an error; every other finding, and every formatter annotation (src/index.js:85), is a warning; stated by `Text`, `LineAnnotation` and `FormatLogWarnsOnly` |
| Annotations.Text | src/index.js:52-56 | a console line starts with `::error ` exactly for an error annotation and with `::warning ` exactly for a warning |
| Annotations.Tally | src/index.js:52-58 | no more annotations of a level are counted than are logged |
| Annotations.TallyLevels | src/index.js:52-58 | errors counted plus warnings counted is the number of annotations |
| Annotations.TallyAppend | src/index.js:9-10 | counting the concatenated logs of the two steps adds their counts |
| Analyzer.Fields | src/index.js:43 | a line always has at least one field |
| Analyzer.FieldText | src/index.js:50 | a field past the end of the line is rendered as `undefined` |
| Analyzer.ParseLine | src/index.js:43-46 | a line parses exactly when it has at least four fields; with fewer than three it fails at `lint.toLowerCase()`, with three at `.replace` |
| Analyzer.ParseLineOfFields | src/index.js:43-50 | fields joined by `\|` are read back field by field, and the file loses its working-directory prefix |
| Analyzer.FieldsPastSevenIgnored | src/index.js:43-50 | two lines that agree on their first eight fields give the same finding |
| Analyzer.IsErrorLine | src/index.js:52 | the `lineData[0] === 'ERROR'` test: the first `\|`-separated field is exactly `ERROR`; stated by `LineAnnotation`, `ErrorCountExtremes` and `TallyAnnotations` |
| Analyzer.LineAnnotation | src/index.js:52-58 | a line's annotation is an error exactly when its first field is `ERROR` |
| Analyzer.AnnotationOfLine | src/index.js:45-56 | the console line is the marker, then the file relative to the working directory, line, column, message, and documentation link |
| Analyzer.ErrorCount | src/index.js:52-54 | the error count is at most the number of lines; `ErrorCountExtremes` and `ErrorsAndWarnings` state the rest |
| Analyzer.WarningCount | src/index.js:55-57 | the warning count, one per line whose first field is not `ERROR`, is at most the number of lines |
| Analyzer.ErrorsAndWarnings | src/index.js:52-58 | every line is counted once: errors plus warnings is the number of lines |
| Analyzer.ErrorCountExtremes | src/index.js:52-58 | the error count is zero exactly when no line is an `ERROR` line, and it is all lines exactly when every line is one |
| Analyzer.FirstMalformed | src/index.js:42-46 | the lines before the first one with fewer than four fields are well formed, and that line is not |
| Analyzer.LineAnnotations | src/index.js:42-59 | one annotation is logged per line |
| Analyzer.AnnotationsAt | src/index.js:42-59 | the i-th logged annotation is the annotation of the i-th line |
| Analyzer.TallyAnnotations | src/index.js:52-58 | error annotations logged equal the `ERROR` lines counted, and warning annotations equal the remaining lines |
| Analyzer.AnalysisOfLinesCounts | src/index.js:42-61 | the step throws exactly when some line is malformed; otherwise errors plus warnings equals the number of lines and of annotations |
| Analyzer.AnalysisOfLines | src/index.js:42-61 | the loop as a specification: the annotations of the lines before the first malformed one and its exception, or all annotations and the two counts; stated by `AnalysisOfLinesCounts`, `TallyAnnotations` and `AnnotationsAt` |
| Analyzer.BlankLineThrows | src/index.js:42-45 | a blank line anywhere in the output makes the step throw, at that line or at a malformed line before it, with the missing-lint `TypeError` when all lines before it parse |
| Analyzer.AnalysisOfParsed | src/index.js:38-61 | when every line parses, the step counts the `ERROR` lines as errors and all other lines as warnings |
| Analyzer.NoneMalformed | src/index.js:42-45 | when every line parses, the loop runs through all of them |
| Analyzer.ScanStep | src/index.js:42-58 | one more line that parses extends the logged annotations by its annotation and the error count by one exactly for an `ERROR` line |
| Analyzer.ScanStop | src/index.js:43-46 | a line that does not parse, reached after well-formed lines, ends the step with the annotations logged so far and that line's exception |
| Analyzer.ScanDone | src/index.js:42-61 | when the loop has passed every line, the step returns the annotations of all lines, the `ERROR` count, and the rest as warnings |
| Analyzer.AnalysisOfBlank | src/index.js:40-45 | blank analyzer output throws the missing-lint `TypeError` before logging anything |
| Analyzer.AnalysisCountsMatchLog | src/index.js:52-61 | the returned counters equal the error and warning annotations logged |
| Analyzer.AnalyzeLines | src/index.js:42-61 | the loop logs the annotations of the lines before the first malformed one and then throws its message; if no line is malformed, it returns the counts of `ERROR` lines and of the other lines |
| Analyzer.AnalysisOf | src/index.js:38-61 | the analyzer step on the captured output: the loop on its trimmed, split lines; stated by `Analyze`, `AnalysisOfBlank`, `AnalysisCountsMatchLog` and `IntendedAnalysisOf` |
| Analyzer.Analyze | src/index.js:38-61 | the step on the captured output is the loop on its trimmed, split lines |
| Analyzer.IntendedAnalysisOf | src/index.js:38-61 | corrected step: blank output counts zero errors and zero warnings and logs nothing; any other output is analyzed as the code does |
| Formatter.FormatLog | src/index.js:82-87 | the formatter never logs more annotations than it has lines |
| Formatter.FormatLogSpec | src/index.js:82-87 | every annotation names a line ending in `.dart`, and every such line is annotated |
| Formatter.FormatLogWarnsOnly | src/index.js:85 | the formatter logs warnings only, never errors |
| Formatter.FormatLogEmptyIff | src/index.js:82-87 | nothing is logged exactly when no line ends in `.dart` |
| Formatter.IsDartFile | src/index.js:83 | `line.endsWith('.dart')`; stated by `FormatLogSpec`, `FormatLogEmptyIff` and `FormatLogCount` |
| Formatter.DartCount | src/index.js:83 | the number of lines ending in `.dart` is at most the number of lines |
| Formatter.FormatLogCount | src/index.js:82-87 | exactly one annotation is logged per `.dart` line, repeated lines included |
| Formatter.FormatLogAppend | src/index.js:82-87 | the log of two runs of lines is the log of the first followed by the log of the second, so lines are handled one at a time and in order |
| Formatter.FormatAnnotationText | src/index.js:85 | the printed line is `::warning file=<line>::Invalid format. For more details, see https://flutter.dev/docs/development/tools/formatting` |
| Formatter.FormatReportOf | src/index.js:79-89 | the formatter's warning count equals the number of annotations it logs and the number of `.dart` lines in its output |
| Formatter.FormatReportOfBlank | src/index.js:79-89 | blank formatter output logs nothing and counts zero |
| Formatter.FormatLines | src/index.js:82-89 | the loop logs the formatter annotations of its lines, one per `.dart` line in line order, and returns how many it logged |
| Formatter.Format | src/index.js:79-89 | the step on the captured output is the loop on its trimmed, split lines |
| Runner.IssueMessageForms | src/index.js:16 | the message is `1 issue found.` for one issue, and `<n> issues found.` for any other count |
| Runner.IssueMessageInjective | src/index.js:16 | different issue counts give different messages |
| Runner.IssueMessage | src/index.js:16 | the failure message; stated by `IssueMessageForms` and `IssueMessageInjective` |
| Runner.Decide | src/index.js:12-17 | any analyzer error fails; with no errors and the flag not exactly `true`, the run succeeds; with the flag `true`, it fails exactly when some issue was found; a failure reports the sum of the three counts |
| Runner.DecideNeverReportsZero | src/index.js:15-16 | a failure decided on the counts never reports `0 issues found.` |
| Runner.DecideExamples | src/index.js:12-16 | without the flag, 2 errors and 1 warning fail with `3 issues found.`, and warnings alone pass |
| Runner.DecideFlagExample | src/index.js:12-16 | with the flag, one analyzer and one format warning fail with `2 issues found.` |
| Runner.DecideSingularExample | src/index.js:12-16 | with the flag, a single format warning fails with `1 issue found.` |
| Runner.Run | src/index.js:5-21 | the run is the analyzer step, then the formatter step, then the decision, with a thrown exception caught as the failure |
| Runner.RunReportOf | src/index.js:5-21 | the run as a specification: an analyzer exception fails it with an empty log, otherwise `ReportAfter` takes over; stated by `RunReportsThrownMessage`, `RunSucceedsIff` and `RunLog` |
| Runner.ReportAfter | src/index.js:9-19 | after the analyzer step: its exception, the formatter's exception, or the decision on the counts with both logs |
| Runner.RunReportsThrownMessage | src/index.js:18-19 | an exception fails the run with its own message, after the annotations logged before it was thrown |
| Runner.RunSucceedsIff | src/index.js:9-17 | the run succeeds exactly when both tools ran, every analyzer line has four fields, none is an `ERROR`, and the flag is not `true` |
| Runner.RunWithFlagNeverSucceeds | src/index.js:13-15 | with the flag `true`, no analyzer and formatter output lets the run succeed |
| Runner.CleanRunFails | src/index.js:40-45 | a project on which the analyzer reports nothing fails with the missing-lint `TypeError` message |
| Runner.RunLog | src/index.js:9-17 | when both steps get through, the log is the analyzer annotations followed by the formatter annotations, its error annotations equal the analyzer's `ERROR` lines, and the verdict is `Decide` on the `ERROR` lines, the other analyzer lines as warnings, and the formatter's `.dart` lines |
| Runner.ReportAfterParsed | src/index.js:9-10 | after an analyzer step whose lines all parse, the log is both steps' annotations and its error annotations are the analyzer's `ERROR` lines |
| Runner.ParsedOutcome | src/index.js:9-17 | after an analyzer step whose lines all parse, the verdict is `Decide` on its `ERROR` lines, its warning lines, and the formatter's `.dart` lines |
| Runner.ReportAfterOutcome | src/index.js:10-17 | after an analyzer step that returned its two counters and a formatter run that exits, the verdict is `Decide` on those counters and the formatter's `.dart` lines |
| Runner.IntendedCleanRunSucceeds | src/index.js:5-21 | in the corrected run, a project on which neither tool reports anything passes, whatever the flag |
| Runner.IntendedRunReportOf | src/index.js:5-21 | corrected run: the run with the corrected analyzer step |
| Runner.IntendedAgreesElsewhere | src/index.js:5-21 | the corrected run equals the run as written on every input except blank analyzer output |

## Left out

- Starting the tools is not modelled. This covers `exec.exec` with its
  arguments (src/index.js:36, src/index.js:77) and the output listeners that
  gather stdout and stderr (src/index.js:27-34, src/index.js:68-75).
  - Each run is a `ToolRun` parameter: either the gathered text or the
    exception thrown.
  - Whether a non-zero exit code throws is decided by `@actions/exec`, which
    is not part of this model. The caller picks `Exited` or `Threw`.
  - How stdout and stderr chunks interleave is not modelled. The output is
    taken as one string.
- The runtime services are parameters or values.
  - `path.resolve(GITHUB_WORKSPACE, …)` (src/index.js:7) gives the
    `workingDirectory` parameter.
  - `core.getInput('fail-on-warnings')` (src/index.js:13) gives the
    `failOnWarningsInput` parameter. Any trimming it does happens before that
    value.
  - `core.setFailed` becomes `Outcome.Failed`.
  - `console.log` becomes the log of `Annotation` values. `Annotations.Text`
    gives the exact printed line.
- `async`/`await` and the top-level `run()` call (src/index.js:92) are not
  modelled. The steps run one after another, as they are awaited.
- JsString.ToLowerCase: only ASCII letters are lower-cased. JavaScript also
  lower-cases other Unicode letters. Analyzer ids are ASCII.
- Strings are sequences of Unicode characters, not of UTF-16 code units. Lone
  surrogates cannot occur.
- Analyzer.ParseLine: the `TypeError` texts are the ones current Node
  versions produce. Older engines word them differently.
- Counters are unbounded naturals. JavaScript numbers stay exact far beyond
  any possible line count.
- Workflow-command escaping of `%`, CR, LF, `:` and `,` is absent from the
  code and from the model alike.

## Findings

| source | as written | input that shows it | evidently intended | confidence | as-written member | corrected member |
|---|---|---|---|---|---|---|
| src/index.js:40-45 | trimmed and split, blank analyzer output becomes one empty line; `lineData[2]` is `undefined`, so `lint.toLowerCase()` throws and the run fails with `Cannot read properties of undefined (reading 'toLowerCase')`; with `fail-on-warnings: true`, no run can ever succeed | analyzer output `""` (a project without findings) | blank output means zero findings, so a clean project passes | not executed | Runner.CleanRunFails | Runner.IntendedCleanRunSucceeds |

`Runner.Run` and `Analyzer.Analyze` keep the behaviour as written, so every
other property above describes the action as it runs. The corrected step is
`Analyzer.IntendedAnalysisOf`, used by `Runner.IntendedRunReportOf`. For blank
output it counts nothing, and on any other output it agrees with the step as
written (`Runner.IntendedAgreesElsewhere`). It fixes only wholly blank output:
a blank line between findings still makes the step throw
(`Analyzer.BlankLineThrows`), as the code does.
