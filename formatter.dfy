/**
  The formatter step (src/index.js:79-89): of the captured output of the
  formatter's dry run, every line naming a Dart source file becomes one
  warning annotation; banners and summaries are skipped.
 */
module Formatter {
  import opened JsString
  import opened Annotations

  /** `line.endsWith('.dart')`. */
  predicate IsDartFile(line: string) {
    EndsWith(line, ".dart")
  }

  /** The annotations the loop logs: one per `.dart` line, in order. */
  function FormatLog(lines: seq<string>): (log: seq<Annotation>)
    ensures |log| <= |lines|
  {
    if lines == [] then []
    else
      var last := lines[|lines| - 1];
      FormatLog(lines[..|lines| - 1]) + (if IsDartFile(last) then [FormatAnnotation(last)] else [])
  }

  /** Every logged annotation is a warning about a `.dart` line of the
      output, and every `.dart` line is logged. */
  lemma {:induction false} FormatLogSpec(lines: seq<string>)
    ensures forall a :: a in FormatLog(lines) ==>
      a.FormatAnnotation? && IsDartFile(a.file) && a.file in lines
    ensures forall i :: 0 <= i < |lines| && IsDartFile(lines[i]) ==>
      FormatAnnotation(lines[i]) in FormatLog(lines)
  {
    if lines != [] {
      var n := |lines| - 1;
      FormatLogSpec(lines[..n]);
      forall i | 0 <= i < |lines| && IsDartFile(lines[i])
        ensures FormatAnnotation(lines[i]) in FormatLog(lines)
      {
        if i < n {
          assert lines[i] == lines[..n][i];
        }
      }
    }
  }

  /** The formatter step logs warnings only. */
  lemma {:induction false} FormatLogWarnsOnly(lines: seq<string>)
    ensures Tally(FormatLog(lines), ErrorLevel) == 0
    ensures Tally(FormatLog(lines), WarningLevel) == |FormatLog(lines)|
  {
    if lines != [] {
      var n := |lines| - 1;
      FormatLogWarnsOnly(lines[..n]);
      var log := FormatLog(lines);
      if IsDartFile(lines[n]) {
        assert log[..|log| - 1] == FormatLog(lines[..n]);
      } else {
        assert log == FormatLog(lines[..n]);
      }
    }
  }

  /** Nothing is logged exactly when no line names a `.dart` file. */
  lemma {:induction false} FormatLogEmptyIff(lines: seq<string>)
    ensures FormatLog(lines) == [] <==> forall i :: 0 <= i < |lines| ==> !IsDartFile(lines[i])
  {
    if lines != [] {
      var n := |lines| - 1;
      FormatLogEmptyIff(lines[..n]);
      assert forall i :: 0 <= i < n ==> lines[..n][i] == lines[i];
    }
  }

  /** Number of lines that end with `.dart`. */
  function DartCount(lines: seq<string>): (n: nat)
    ensures n <= |lines|
  {
    if lines == [] then 0
    else DartCount(lines[..|lines| - 1]) + (if IsDartFile(lines[|lines| - 1]) then 1 else 0)
  }

  /** One annotation is logged per `.dart` line, repeated lines included. */
  lemma {:induction false} FormatLogCount(lines: seq<string>)
    ensures |FormatLog(lines)| == DartCount(lines)
  {
    if lines != [] {
      FormatLogCount(lines[..|lines| - 1]);
    }
  }

  /** The log of two runs of lines is the log of the first followed by the
      log of the second: lines are handled one at a time, in order. */
  lemma {:induction false} FormatLogAppend(a: seq<string>, b: seq<string>)
    ensures FormatLog(a + b) == FormatLog(a) + FormatLog(b)
  {
    if b == [] {
      assert a + b == a;
    } else {
      var n := |b| - 1;
      FormatLogAppend(a, b[..n]);
      assert (a + b)[..|a + b| - 1] == a + b[..n];
      assert (a + b)[|a + b| - 1] == b[n];
    }
  }

  /** The line printed for a badly formatted file (src/index.js:85). */
  lemma FormatAnnotationText(line: string)
    ensures Text(FormatAnnotation(line)) == "::warning file=" + line + "::" + FormatHelp
  {
    assert WarningMarker + ("file=" + line + "::" + FormatHelp)
      == "::warning file=" + line + "::" + FormatHelp;
  }

  /** What the formatter step leaves behind: the annotations it logged and
      its warning counter. */
  datatype FormatReport = FormatReport(log: seq<Annotation>, warnings: nat)

  /** The formatter step as a specification: one warning per `.dart` line. */
  function FormatReportOf(output: string): (r: FormatReport)
    ensures r.warnings == |r.log|
    ensures r.warnings == DartCount(OutputLines(output))
  {
    FormatLogCount(OutputLines(output));
    var log := FormatLog(OutputLines(output));
    FormatReport(log, |log|)
  }

  /** Empty or all-white-space output logs nothing and counts nothing; unlike
      the analyzer step it does not throw. */
  lemma FormatReportOfBlank(output: string)
    requires AllSpace(output)
    ensures FormatReportOf(output) == FormatReport([], 0)
  {
    OutputLinesOfBlank(output);
    assert !IsDartFile("");
    assert FormatLog([""]) == FormatLog([]) + [];
  }

  /** src/index.js:79-89: splits the trimmed output into lines and runs the
      loop over them. */
  method Format(output: string) returns (r: FormatReport)
    ensures r == FormatReportOf(output)
  {
    var lines := OutputLines(output);
    r := FormatLines(lines);
  }

  /** The loop of src/index.js:82-87: skips every line that does not end with
      `.dart`, logs a warning for every line that does and counts it. */
  method FormatLines(lines: seq<string>) returns (r: FormatReport)
    ensures r == FormatReport(FormatLog(lines), |FormatLog(lines)|)
  {
    var warningCount := 0;
    var log: seq<Annotation> := [];
    for i := 0 to |lines|
      invariant log == FormatLog(lines[..i])
      invariant warningCount == |log|
    {
      var line := lines[i];
      assert lines[..i + 1][..i] == lines[..i];
      if !IsDartFile(line) {
        continue;
      }
      log := log + [FormatAnnotation(line)];
      warningCount := warningCount + 1;
    }
    assert lines[..|lines|] == lines;
    return FormatReport(log, warningCount);
  }
}
