/**
  The analyzer step (src/index.js:38-61): the captured output of the static
  analyzer in its machine format, one finding per line with `|`-separated
  fields `SEVERITY|TYPE|CODE|FILE|LINE|COLUMN|LENGTH|MESSAGE`, becomes one
  workflow-command annotation per line and a pair of counters.
 */
module Analyzer {
  import opened Wrappers
  import opened JsString
  import opened Annotations

  /** How a template literal renders a missing array element. */
  const Undefined := "undefined"

  /** The messages of the TypeError thrown when the lint (field 2) or the
      file (field 3) is missing and a method is called on `undefined`. */
  const LintUndefined := "Cannot read properties of undefined (reading 'toLowerCase')"
  const FileUndefined := "Cannot read properties of undefined (reading 'replace')"

  /** `line.split('|')`. */
  function Fields(line: string): (fields: seq<string>)
    ensures |fields| >= 1
  {
    SplitOn(line, '|')
  }

  /** `${fields[i]}`: an index past the end renders as `undefined`. */
  function FieldText(fields: seq<string>, i: nat): (r: string)
    ensures i >= |fields| ==> r == Undefined
  {
    if i < |fields| then fields[i] else Undefined
  }

  /** Reads the fields of one analyzer line as src/index.js:43-50 does. Field
      0 is always there; a missing field 2 throws at `toLowerCase`, a missing
      field 3 at `replace`; missing fields 4, 5 and 7 read as `undefined`. The
      file is field 3 with the first occurrence of the working directory cut
      out. */
  function ParseLine(text: string, workingDirectory: string): (r: Result<Finding>)
    ensures r.Ok? <==> |Fields(text)| >= 4
    ensures |Fields(text)| < 3 ==> r == Err(LintUndefined)
    ensures |Fields(text)| == 3 ==> r == Err(FileUndefined)
  {
    var fields := Fields(text);
    if |fields| < 3 then Err(LintUndefined)
    else if |fields| < 4 then Err(FileUndefined)
    else Ok(Finding(fields[0], fields[2], ReplaceFirst(fields[3], workingDirectory),
                    FieldText(fields, 4), FieldText(fields, 5), FieldText(fields, 7)))
  }

  /** A line the loop body gets through without throwing. */
  predicate WellFormed(text: string) {
    |Fields(text)| >= 4
  }

  /** A line that the loop counts as an error. */
  predicate IsErrorLine(text: string) {
    Fields(text)[0] == "ERROR"
  }

  /** The annotation logged for a well-formed line; it is an error exactly
      when the line is an error line. */
  function LineAnnotation(text: string, workingDirectory: string): (a: Annotation)
    requires WellFormed(text)
    ensures LevelOf(a) == ErrorLevel <==> IsErrorLine(text)
  {
    FindingAnnotation(ParseLine(text, workingDirectory).value)
  }

  /** The annotation of a well-formed line, field by field: the severity
      marker, the file with the working directory cut out, fields 4 and 5 as
      line and column, field 7 as the message and the link derived from field
      2. Fields past index 7 play no part. */
  lemma AnnotationOfLine(text: string, workingDirectory: string)
    requires WellFormed(text)
    ensures var f := Fields(text);
      Text(LineAnnotation(text, workingDirectory))
      == (if f[0] == "ERROR" then ErrorMarker else WarningMarker)
         + ("file=" + ReplaceFirst(f[3], workingDirectory)
            + ",line=" + FieldText(f, 4) + ",col=" + FieldText(f, 5)
            + "::" + FieldText(f, 7) + SeeAlso + DocUrl(f[2]))
  {
    var f := Fields(text);
    assert ParseLine(text, workingDirectory).value
      == Finding(f[0], f[2], ReplaceFirst(f[3], workingDirectory), FieldText(f, 4), FieldText(f, 5), FieldText(f, 7));
  }

  /** A line written as `|`-separated fields, none holding a `|`, is read
      back field by field; with the working directory in front of the file,
      the file comes out relative to it. */
  lemma ParseLineOfFields(fields: seq<string>, workingDirectory: string, relative: string)
    requires |fields| >= 4
    requires forall k :: 0 <= k < |fields| ==> '|' !in fields[k]
    requires fields[3] == workingDirectory + relative
    ensures ParseLine(JoinWith(fields, "|"), workingDirectory)
      == Ok(Finding(fields[0], fields[2], relative,
                    FieldText(fields, 4), FieldText(fields, 5), FieldText(fields, 7)))
  {
    SplitOnJoin(fields, '|');
    ReplaceFirstPrefix(workingDirectory, relative);
  }

  /** Two lines that agree on their first eight fields are parsed alike. */
  lemma FieldsPastSevenIgnored(a: string, b: string, workingDirectory: string)
    requires |Fields(a)| >= 8 && |Fields(b)| >= 8
    requires Fields(a)[..8] == Fields(b)[..8]
    ensures ParseLine(a, workingDirectory) == ParseLine(b, workingDirectory)
  {
    var fa, fb := Fields(a), Fields(b);
    assert forall i :: 0 <= i < 8 ==> fa[i] == fa[..8][i] && fb[i] == fb[..8][i];
  }

  /** Number of error lines; every other line is a warning line. */
  function ErrorCount(lines: seq<string>): (n: nat)
    ensures n <= |lines|
  {
    if lines == [] then 0
    else ErrorCount(lines[..|lines| - 1]) + (if IsErrorLine(lines[|lines| - 1]) then 1 else 0)
  }

  /** Number of warning lines: the loop counts every line whose severity is
      not `ERROR` as a warning. */
  function WarningCount(lines: seq<string>): (n: nat)
    ensures n <= |lines|
  {
    if lines == [] then 0
    else WarningCount(lines[..|lines| - 1]) + (if IsErrorLine(lines[|lines| - 1]) then 0 else 1)
  }

  /** Every line is counted once, as an error or as a warning. */
  lemma {:induction false} ErrorsAndWarnings(lines: seq<string>)
    ensures ErrorCount(lines) + WarningCount(lines) == |lines|
  {
    if lines != [] {
      ErrorsAndWarnings(lines[..|lines| - 1]);
    }
  }

  /** The error count is zero exactly when no line is an error line, and
      all the lines exactly when every line is one. */
  lemma {:induction false} ErrorCountExtremes(lines: seq<string>)
    ensures ErrorCount(lines) == 0 <==> forall i :: 0 <= i < |lines| ==> !IsErrorLine(lines[i])
    ensures ErrorCount(lines) == |lines| <==> forall i :: 0 <= i < |lines| ==> IsErrorLine(lines[i])
  {
    if lines != [] {
      var init := lines[..|lines| - 1];
      ErrorCountExtremes(init);
      assert forall i :: 0 <= i < |init| ==> init[i] == lines[i];
    }
  }

  /** Index of the first line the loop body throws on, or the number of
      lines when there is none. */
  function FirstMalformed(lines: seq<string>): (k: nat)
    ensures k <= |lines|
    ensures forall i :: 0 <= i < k ==> WellFormed(lines[i])
    ensures k < |lines| ==> !WellFormed(lines[k])
  {
    if lines == [] || !WellFormed(lines[0]) then 0
    else 1 + FirstMalformed(lines[1..])
  }

  /** The annotations logged for a run of well-formed lines, one per line, in
      order. */
  function LineAnnotations(lines: seq<string>, workingDirectory: string): (log: seq<Annotation>)
    requires forall i :: 0 <= i < |lines| ==> WellFormed(lines[i])
    ensures |log| == |lines|
  {
    if lines == [] then []
    else
      var n := |lines| - 1;
      LineAnnotations(lines[..n], workingDirectory) + [LineAnnotation(lines[n], workingDirectory)]
  }

  /** The `i`-th annotation is the one of the `i`-th line. */
  lemma {:induction false} AnnotationsAt(lines: seq<string>, workingDirectory: string, i: nat)
    requires forall j :: 0 <= j < |lines| ==> WellFormed(lines[j])
    requires i < |lines|
    ensures LineAnnotations(lines, workingDirectory)[i] == LineAnnotation(lines[i], workingDirectory)
  {
    var n := |lines| - 1;
    if i < n {
      AnnotationsAt(lines[..n], workingDirectory, i);
    }
  }

  /** The error counter equals the number of error annotations logged, and
      the warning counter the number of warning annotations. */
  lemma {:induction false} TallyAnnotations(lines: seq<string>, workingDirectory: string)
    requires forall i :: 0 <= i < |lines| ==> WellFormed(lines[i])
    ensures Tally(LineAnnotations(lines, workingDirectory), ErrorLevel) == ErrorCount(lines)
    ensures Tally(LineAnnotations(lines, workingDirectory), WarningLevel) == |lines| - ErrorCount(lines)
  {
    if lines != [] {
      var n := |lines| - 1;
      var log := LineAnnotations(lines, workingDirectory);
      TallyAnnotations(lines[..n], workingDirectory);
      assert log[..n] == LineAnnotations(lines[..n], workingDirectory);
    }
  }

  datatype Counts = Counts(errors: nat, warnings: nat)

  /** What the analyzer step leaves behind: the annotations it logged and
      either its counters or the exception it threw. */
  datatype Analysis = Analysis(log: seq<Annotation>, result: Result<Counts>)

  /** The loop of the analyzer step as a specification: the lines before
      the first malformed one are annotated; a malformed line throws,
      otherwise every line is counted once, as an error or as a warning. */
  function AnalysisOfLines(lines: seq<string>, workingDirectory: string): Analysis {
    var k := FirstMalformed(lines);
    if k < |lines| then
      Analysis(LineAnnotations(lines[..k], workingDirectory), Err(ParseLine(lines[k], workingDirectory).message))
    else
      Analysis(LineAnnotations(lines, workingDirectory),
               Ok(Counts(ErrorCount(lines), |lines| - ErrorCount(lines))))
  }

  /** The step throws exactly when some line is malformed; otherwise every
      line is counted once and logged once. */
  lemma AnalysisOfLinesCounts(lines: seq<string>, workingDirectory: string)
    ensures var a := AnalysisOfLines(lines, workingDirectory);
      && (a.result.Err? <==> exists i :: 0 <= i < |lines| && !WellFormed(lines[i]))
      && (a.result.Ok? ==> a.result.value.errors + a.result.value.warnings == |lines| == |a.log|)
  {
  }

  /** A blank line inside the output is not skipped: the step throws at it,
      or at a malformed line before it, and with the missing-lint `TypeError`
      when every line before it parses. */
  lemma BlankLineThrows(lines: seq<string>, workingDirectory: string, i: nat)
    requires i < |lines| && lines[i] == ""
    ensures FirstMalformed(lines) <= i
    ensures AnalysisOfLines(lines, workingDirectory).result.Err?
    ensures (forall j :: 0 <= j < i ==> WellFormed(lines[j])) ==>
      AnalysisOfLines(lines, workingDirectory).result == Err(LintUndefined)
  {
    assert Fields(lines[i]) == [""];
    if forall j :: 0 <= j < i ==> WellFormed(lines[j]) {
      FirstMalformedAt(lines, i);
    }
  }

  /** Lines that all parse are all logged and counted: errors by severity,
      the rest as warnings. */
  lemma AnalysisOfParsed(lines: seq<string>, workingDirectory: string)
    requires forall i :: 0 <= i < |lines| ==> WellFormed(lines[i])
    ensures AnalysisOfLines(lines, workingDirectory)
      == Analysis(LineAnnotations(lines, workingDirectory),
                  Ok(Counts(ErrorCount(lines), |lines| - ErrorCount(lines))))
  {
    assert lines[..|lines|] == lines;
    ScanDone(lines, workingDirectory, LineAnnotations(lines, workingDirectory), ErrorCount(lines));
  }

  lemma {:induction false} NoneMalformed(lines: seq<string>)
    requires forall i :: 0 <= i < |lines| ==> WellFormed(lines[i])
    ensures FirstMalformed(lines) == |lines|
  {
    if lines != [] {
      assert forall i :: 0 <= i < |lines| - 1 ==> lines[1..][i] == lines[i + 1];
      NoneMalformed(lines[1..]);
    }
  }

  /** The analyzer step on the captured output. */
  function AnalysisOf(output: string, workingDirectory: string): Analysis {
    AnalysisOfLines(OutputLines(output), workingDirectory)
  }

  /** Empty or all-white-space output throws at the lint of its one empty
      line, before anything is logged. */
  lemma AnalysisOfBlank(output: string, workingDirectory: string)
    requires AllSpace(output)
    ensures AnalysisOf(output, workingDirectory) == Analysis([], Err(LintUndefined))
  {
    OutputLinesOfBlank(output);
    var lines := OutputLines(output);
    assert Fields(lines[0]) == [""];
    assert FirstMalformed(lines) == 0;
    assert lines[..0] == [];
  }

  /** On success the counters agree with the annotations: as many errors as
      error annotations and as many warnings as warning annotations. */
  lemma AnalysisCountsMatchLog(output: string, workingDirectory: string)
    requires AnalysisOf(output, workingDirectory).result.Ok?
    ensures var a := AnalysisOf(output, workingDirectory);
      && a.result.value.errors == Tally(a.log, ErrorLevel)
      && a.result.value.warnings == Tally(a.log, WarningLevel)
  {
    TallyAnnotations(OutputLines(output), workingDirectory);
  }

  /** src/index.js:38-61: splits the trimmed output into lines and runs the
      loop over them. */
  method Analyze(output: string, workingDirectory: string) returns (a: Analysis)
    ensures a == AnalysisOf(output, workingDirectory)
  {
    var lines := OutputLines(output);
    a := AnalyzeLines(lines, workingDirectory);
  }

  /** The loop of src/index.js:42-59: logs one annotation per line and counts
      it, until a line throws. */
  method AnalyzeLines(lines: seq<string>, workingDirectory: string) returns (a: Analysis)
    ensures a == AnalysisOfLines(lines, workingDirectory)
  {
    var errorCount, warningCount: nat := 0, 0;
    var log: seq<Annotation> := [];
    var i := 0;
    while i < |lines|
      invariant Scanned(lines, workingDirectory, i, log, errorCount)
      invariant warningCount == i - errorCount
    {
      var parsed := ParseLine(lines[i], workingDirectory);
      if parsed.Err? {
        ScanStop(lines, workingDirectory, i, log, errorCount);
        return Analysis(log, Err(parsed.message));
      }
      var finding := parsed.value;
      ScanStep(lines, workingDirectory, i, log, errorCount);
      log := log + [FindingAnnotation(finding)];
      if finding.severity == "ERROR" {
        errorCount := errorCount + 1;
      } else {
        warningCount := warningCount + 1;
      }
      i := i + 1;
    }
    ScanDone(lines, workingDirectory, log, errorCount);
    return Analysis(log, Ok(Counts(errorCount, warningCount)));
  }

  /** The loop invariant: the first `i` lines parsed, `log` holds their
      annotations and `errors` counts their error lines. */
  predicate Scanned(lines: seq<string>, workingDirectory: string, i: int,
                    log: seq<Annotation>, errors: nat)
  {
    && 0 <= i <= |lines|
    && (forall j :: 0 <= j < i ==> WellFormed(lines[j]))
    && log == LineAnnotations(lines[..i], workingDirectory)
    && errors == ErrorCount(lines[..i])
  }

  /** A well-formed line extends the scanned prefix by its annotation and,
      when its severity is `ERROR`, one error. */
  lemma ScanStep(lines: seq<string>, workingDirectory: string, i: nat,
                 log: seq<Annotation>, errors: nat)
    requires Scanned(lines, workingDirectory, i, log, errors)
    requires i < |lines| && ParseLine(lines[i], workingDirectory).Ok?
    ensures var finding := ParseLine(lines[i], workingDirectory).value;
      Scanned(lines, workingDirectory, i + 1, log + [FindingAnnotation(finding)],
              errors + (if finding.severity == "ERROR" then 1 else 0))
  {
    PrefixStep(lines, workingDirectory, i);
  }

  /** A malformed line after a scanned prefix ends the step with that prefix
      logged and the line's exception. */
  lemma ScanStop(lines: seq<string>, workingDirectory: string, i: nat,
                 log: seq<Annotation>, errors: nat)
    requires Scanned(lines, workingDirectory, i, log, errors)
    requires i < |lines| && ParseLine(lines[i], workingDirectory).Err?
    ensures AnalysisOfLines(lines, workingDirectory)
      == Analysis(log, Err(ParseLine(lines[i], workingDirectory).message))
  {
    FirstMalformedAt(lines, i);
  }

  /** Once every line is scanned, the step logs them all and counts their
      errors and warnings. */
  lemma ScanDone(lines: seq<string>, workingDirectory: string, log: seq<Annotation>, errors: nat)
    requires Scanned(lines, workingDirectory, |lines|, log, errors)
    ensures AnalysisOfLines(lines, workingDirectory) == Analysis(log, Ok(Counts(errors, |lines| - errors)))
  {
    assert lines[..|lines|] == lines;
    NoneMalformed(lines);
  }

  /** A line the loop throws on, after well-formed lines only, is the first
      malformed one. */
  lemma FirstMalformedAt(lines: seq<string>, i: nat)
    requires i < |lines| && !WellFormed(lines[i])
    requires forall j :: 0 <= j < i ==> WellFormed(lines[j])
    ensures FirstMalformed(lines) == i
  {
  }

  /** One more well-formed line adds its annotation to the log and, when its
      severity is `ERROR`, one to the error count. */
  lemma PrefixStep(lines: seq<string>, workingDirectory: string, i: nat)
    requires i < |lines|
    requires forall j :: 0 <= j <= i ==> WellFormed(lines[j])
    ensures ParseLine(lines[i], workingDirectory).Ok?
      && ParseLine(lines[i], workingDirectory).value.severity == Fields(lines[i])[0]
    ensures LineAnnotations(lines[..i + 1], workingDirectory)
      == LineAnnotations(lines[..i], workingDirectory) + [LineAnnotation(lines[i], workingDirectory)]
    ensures ErrorCount(lines[..i + 1]) == ErrorCount(lines[..i]) + (if IsErrorLine(lines[i]) then 1 else 0)
  {
    assert lines[..i + 1][..i] == lines[..i];
  }

  /** The analyzer step as evidently intended: blank output is no findings
      and zero counts; any other output is handled as the code does. */
  function IntendedAnalysisOf(output: string, workingDirectory: string): (a: Analysis)
    ensures AllSpace(output) ==> a == Analysis([], Ok(Counts(0, 0)))
    ensures !AllSpace(output) ==> a == AnalysisOf(output, workingDirectory)
  {
    TrimEmptyIff(output);
    if Trim(output) == [] then Analysis([], Ok(Counts(0, 0))) else AnalysisOf(output, workingDirectory)
  }
}
