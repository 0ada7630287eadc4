/**
  The top level of the action (src/index.js:5-21): the analyzer step, then
  the formatter step, then the pass/fail decision; an exception thrown by
  either step ends the run as a failure carrying the exception's message.
 */
module Runner {
  import opened Wrappers
  import opened JsString
  import opened Annotations
  import opened Analyzer
  import opened Formatter

  /** What running an external tool gave: the text it wrote to its two
      streams, or the exception `exec` threw (for instance when the binary
      cannot be launched). */
  datatype ToolRun = Exited(output: string) | Threw(message: string)

  /** The terminal state: success, or failure with the message handed to
      `setFailed`. */
  datatype Outcome = Succeeded | Failed(message: string)

  /** The annotations logged during the run, in order, and its outcome. */
  datatype RunReport = RunReport(log: seq<Annotation>, outcome: Outcome)

  /** `${issueCount} issue${issueCount === 1 ? '' : 's'} found.` */
  function IssueMessage(issueCount: nat): string {
    NatToString(issueCount) + " issue" + (if issueCount == 1 then "" else "s") + " found."
  }

  /** The singular form is used for one issue and only for one. */
  lemma IssueMessageForms(issueCount: nat)
    ensures issueCount == 1 <==> IssueMessage(issueCount) == "1 issue found."
    ensures issueCount != 1 ==> IssueMessage(issueCount) == NatToString(issueCount) + " issues found."
  {
  }

  /** Different issue counts give different messages: the message states the
      count. */
  lemma IssueMessageInjective(a: nat, b: nat)
    requires IssueMessage(a) == IssueMessage(b)
    ensures a == b
  {
    var da, db := NatToString(a), NatToString(b);
    var ra := " issue" + (if a == 1 then "" else "s") + " found.";
    var rb := " issue" + (if b == 1 then "" else "s") + " found.";
    assert IssueMessage(a) == da + ra && IssueMessage(b) == db + rb;
    LeadingDigitsOf(da, ra);
    LeadingDigitsOf(db, rb);
    assert da == IssueMessage(a)[..|da|];
    assert db == IssueMessage(b)[..|db|];
    ParseNatToString(a);
    ParseNatToString(b);
  }

  /** The decision of src/index.js:12-17. The flag is on only for the exact
      input `true`. Any analyzer error fails the run; without the flag,
      warnings alone never do; a failure states the total number of issues,
      which is never zero. */
  function Decide(errors: nat, warnings: nat, formatWarnings: nat, failOnWarningsInput: string): (o: Outcome)
    ensures errors > 0 ==> o.Failed?
    ensures errors == 0 && failOnWarningsInput != "true" ==> o == Succeeded
    ensures failOnWarningsInput == "true" ==> (o.Failed? <==> errors + warnings + formatWarnings > 0)
    ensures o.Failed? ==>
      (errors + warnings + formatWarnings > 0 && o.message == IssueMessage(errors + warnings + formatWarnings))
  {
    var issueCount := errors + warnings + formatWarnings;
    var failOnWarnings := failOnWarningsInput == "true";
    if errors > 0 || (failOnWarnings && issueCount > 0) then Failed(IssueMessage(issueCount))
    else Succeeded
  }

  /** A failed decision never reports zero issues. */
  lemma DecideNeverReportsZero(errors: nat, warnings: nat, formatWarnings: nat, failOnWarningsInput: string)
    requires Decide(errors, warnings, formatWarnings, failOnWarningsInput).Failed?
    ensures Decide(errors, warnings, formatWarnings, failOnWarningsInput).message != "0 issues found."
  {
    var total := errors + warnings + formatWarnings;
    if IssueMessage(total) == "0 issues found." {
      IssueMessageInjective(total, 0);
    }
  }

  /** Worked decisions without the flag: errors fail the run, warnings alone
      do not. */
  lemma DecideExamples()
    ensures Decide(2, 1, 0, "false") == Failed("3 issues found.")
    ensures Decide(0, 1, 1, "false") == Succeeded
  {
    assert IssueMessage(3) == "3" + " issues found.";
  }

  /** A worked decision with the flag: warnings alone fail the run. */
  lemma DecideFlagExample()
    ensures Decide(0, 1, 1, "true") == Failed("2 issues found.")
  {
    assert IssueMessage(2) == "2" + " issues found.";
  }

  /** A worked decision with the flag: one issue is reported in the
      singular. */
  lemma DecideSingularExample()
    ensures Decide(0, 0, 1, "true") == Failed("1 issue found.")
  {
    assert IssueMessage(1) == "1" + " issue found.";
  }

  /** The run as a specification (src/index.js:5-21). */
  function RunReportOf(workingDirectory: string, analyzer: ToolRun, formatter: ToolRun,
                       failOnWarningsInput: string): RunReport
  {
    match analyzer
    case Threw(m) => RunReport([], Failed(m))
    case Exited(output) => ReportAfter(AnalysisOf(output, workingDirectory), formatter, failOnWarningsInput)
  }

  /** The run once the analyzer step has given `analysis`: its exception
      ends the run; otherwise the formatter step, whose exception ends the
      run too, and the decision on the counts. */
  function ReportAfter(analysis: Analysis, formatter: ToolRun, failOnWarningsInput: string): RunReport {
    if analysis.result.Err? then RunReport(analysis.log, Failed(analysis.result.message))
    else
      match formatter
      case Threw(m) => RunReport(analysis.log, Failed(m))
      case Exited(formatOutput) =>
        var format := FormatReportOf(formatOutput);
        var counts := analysis.result.value;
        RunReport(analysis.log + format.log,
                  Decide(counts.errors, counts.warnings, format.warnings, failOnWarningsInput))
  }

  /** src/index.js:5-21: the analyzer step, the formatter step, the decision;
      an exception from either step is caught and becomes the failure. */
  method Run(workingDirectory: string, analyzer: ToolRun, formatter: ToolRun,
             failOnWarningsInput: string) returns (r: RunReport)
    ensures r == RunReportOf(workingDirectory, analyzer, formatter, failOnWarningsInput)
  {
    if analyzer.Threw? {
      return RunReport([], Failed(analyzer.message));
    }
    var analysis := Analyze(analyzer.output, workingDirectory);
    if analysis.result.Err? {
      return RunReport(analysis.log, Failed(analysis.result.message));
    }
    if formatter.Threw? {
      return RunReport(analysis.log, Failed(formatter.message));
    }
    var format := Format(formatter.output);
    var counts := analysis.result.value;
    var outcome := Decide(counts.errors, counts.warnings, format.warnings, failOnWarningsInput);
    return RunReport(analysis.log + format.log, outcome);
  }

  /** An exception ends the run with its own message: one from running the
      analyzer before anything is logged, one from parsing after the
      annotations of the lines before it, one from running the formatter
      after all analyzer annotations. */
  lemma RunReportsThrownMessage(workingDirectory: string, analyzer: ToolRun, formatter: ToolRun,
                                failOnWarningsInput: string)
    ensures var r := RunReportOf(workingDirectory, analyzer, formatter, failOnWarningsInput);
      && (analyzer.Threw? ==> r == RunReport([], Failed(analyzer.message)))
      && (analyzer.Exited? && !Parses(analyzer.output) ==>
            var lines := OutputLines(analyzer.output);
            var k := FirstMalformed(lines);
            && k < |lines|
            && r == RunReport(LineAnnotations(lines[..k], workingDirectory),
                              Failed(if |Fields(lines[k])| < 3 then LintUndefined else FileUndefined)))
      && (analyzer.Exited? && Parses(analyzer.output) && formatter.Threw? ==>
            r == RunReport(LineAnnotations(OutputLines(analyzer.output), workingDirectory),
                           Failed(formatter.message)))
  {
    if analyzer.Exited? {
      AnalysisOfLinesCounts(OutputLines(analyzer.output), workingDirectory);
    }
  }

  /** Every analyzer line is well formed. */
  predicate Parses(output: string) {
    forall i :: 0 <= i < |OutputLines(output)| ==> WellFormed(OutputLines(output)[i])
  }

  /** The run succeeds exactly when both tools ran, every analyzer line is
      well formed, none of them is an error, and the flag is off. */
  lemma RunSucceedsIff(workingDirectory: string, analyzer: ToolRun, formatter: ToolRun,
                       failOnWarningsInput: string)
    ensures RunReportOf(workingDirectory, analyzer, formatter, failOnWarningsInput).outcome == Succeeded
      <==> && analyzer.Exited? && formatter.Exited? && Parses(analyzer.output)
           && ErrorCount(OutputLines(analyzer.output)) == 0
           && failOnWarningsInput != "true"
  {
    if analyzer.Exited? {
      AnalysisOfLinesCounts(OutputLines(analyzer.output), workingDirectory);
    }
  }

  /** With the flag on, the run never succeeds: an analyzer step that gets
      through counts each of its lines, and there is always at least one. */
  lemma RunWithFlagNeverSucceeds(workingDirectory: string, analyzer: ToolRun, formatter: ToolRun)
    ensures RunReportOf(workingDirectory, analyzer, formatter, "true").outcome.Failed?
  {
    RunSucceedsIff(workingDirectory, analyzer, formatter, "true");
  }

  /** Blank analyzer output, which is what a project without findings gives,
      fails the run with the TypeError of the missing lint. */
  lemma CleanRunFails(workingDirectory: string, output: string, formatter: ToolRun,
                      failOnWarningsInput: string)
    requires AllSpace(output)
    ensures RunReportOf(workingDirectory, Exited(output), formatter, failOnWarningsInput)
      == RunReport([], Failed(LintUndefined))
  {
    AnalysisOfBlank(output, workingDirectory);
  }

  /** When both steps get through, the log holds the analyzer annotations and
      then the formatter annotations, the error annotations logged are as
      many as the analyzer errors counted, and the verdict is taken on the
      analyzer's error lines, its other lines as warnings, and the
      formatter's `.dart` lines. */
  lemma RunLog(workingDirectory: string, output: string, formatOutput: string,
               failOnWarningsInput: string)
    requires Parses(output)
    ensures var lines, r := OutputLines(output),
      RunReportOf(workingDirectory, Exited(output), Exited(formatOutput), failOnWarningsInput);
      && r.log == LineAnnotations(lines, workingDirectory) + FormatLog(OutputLines(formatOutput))
      && Tally(r.log, ErrorLevel) == ErrorCount(lines)
      && r.outcome == Decide(ErrorCount(lines), WarningCount(lines),
                             DartCount(OutputLines(formatOutput)), failOnWarningsInput)
  {
    var lines := OutputLines(output);
    var analysis := AnalysisOf(output, workingDirectory);
    assert analysis == AnalysisOfLines(lines, workingDirectory);
    assert RunReportOf(workingDirectory, Exited(output), Exited(formatOutput), failOnWarningsInput)
      == ReportAfter(analysis, Exited(formatOutput), failOnWarningsInput);
    ReportAfterParsed(analysis, lines, workingDirectory, formatOutput, failOnWarningsInput);
    ParsedOutcome(analysis, lines, workingDirectory, formatOutput, failOnWarningsInput);
  }

  /** After an analyzer step over lines that all parse, and a formatter that
      exited, the log holds both steps' annotations and its error annotations
      are the analyzer's error lines. */
  lemma ReportAfterParsed(analysis: Analysis, lines: seq<string>, workingDirectory: string,
                          formatOutput: string, failOnWarningsInput: string)
    requires forall i :: 0 <= i < |lines| ==> WellFormed(lines[i])
    requires analysis == AnalysisOfLines(lines, workingDirectory)
    ensures var r := ReportAfter(analysis, Exited(formatOutput), failOnWarningsInput);
      && r.log == LineAnnotations(lines, workingDirectory) + FormatLog(OutputLines(formatOutput))
      && Tally(r.log, ErrorLevel) == ErrorCount(lines)
  {
    var log := LineAnnotations(lines, workingDirectory);
    var format := FormatReportOf(formatOutput);
    AnalysisOfParsed(lines, workingDirectory);
    assert format.log == FormatLog(OutputLines(formatOutput));
    TallyAnnotations(lines, workingDirectory);
    FormatLogWarnsOnly(OutputLines(formatOutput));
    TallyAppend(log, format.log, ErrorLevel);
  }

  /** After an analyzer step over lines that all parse, and a formatter that
      exited, the verdict is taken on the analyzer's error lines, its other
      lines as warnings, and the formatter's `.dart` lines. */
  lemma ParsedOutcome(analysis: Analysis, lines: seq<string>, workingDirectory: string,
                      formatOutput: string, failOnWarningsInput: string)
    requires forall i :: 0 <= i < |lines| ==> WellFormed(lines[i])
    requires analysis == AnalysisOfLines(lines, workingDirectory)
    ensures ReportAfter(analysis, Exited(formatOutput), failOnWarningsInput).outcome
      == Decide(ErrorCount(lines), WarningCount(lines), DartCount(OutputLines(formatOutput)), failOnWarningsInput)
  {
    AnalysisOfParsed(lines, workingDirectory);
    ErrorsAndWarnings(lines);
    ReportAfterOutcome(analysis, ErrorCount(lines), WarningCount(lines), formatOutput, failOnWarningsInput);
  }

  /** After an analyzer step that counted, and a formatter that exited, the
      verdict is taken on the analyzer's counts and the formatter's `.dart`
      lines. */
  lemma ReportAfterOutcome(analysis: Analysis, errors: nat, warnings: nat,
                           formatOutput: string, failOnWarningsInput: string)
    requires analysis.result.Ok?
    requires analysis.result.value.errors == errors && analysis.result.value.warnings == warnings
    ensures ReportAfter(analysis, Exited(formatOutput), failOnWarningsInput).outcome
      == Decide(errors, warnings, DartCount(OutputLines(formatOutput)), failOnWarningsInput)
  {
    var format := FormatReportOf(formatOutput);
    assert format.warnings == DartCount(OutputLines(formatOutput));
  }

  /** The run as evidently intended: blank analyzer output counts nothing. */
  function IntendedRunReportOf(workingDirectory: string, analyzer: ToolRun, formatter: ToolRun,
                               failOnWarningsInput: string): RunReport
  {
    match analyzer
    case Threw(m) => RunReport([], Failed(m))
    case Exited(output) => ReportAfter(IntendedAnalysisOf(output, workingDirectory), formatter, failOnWarningsInput)
  }

  /** The corrected run differs from the run as written only on blank
      analyzer output. */
  lemma IntendedAgreesElsewhere(workingDirectory: string, analyzer: ToolRun, formatter: ToolRun,
                                failOnWarningsInput: string)
    requires analyzer.Exited? ==> !AllSpace(analyzer.output)
    ensures IntendedRunReportOf(workingDirectory, analyzer, formatter, failOnWarningsInput)
      == RunReportOf(workingDirectory, analyzer, formatter, failOnWarningsInput)
  {
  }

  /** As intended, a project on which neither tool reports anything passes,
      whatever the flag. */
  lemma IntendedCleanRunSucceeds(workingDirectory: string, output: string, formatOutput: string,
                                 failOnWarningsInput: string)
    requires AllSpace(output) && AllSpace(formatOutput)
    ensures IntendedRunReportOf(workingDirectory, Exited(output), Exited(formatOutput), failOnWarningsInput)
      == RunReport([], Succeeded)
  {
    FormatReportOfBlank(formatOutput);
  }
}
