/**
  The workflow commands the action writes to the build log
  (`::error file=…,line=…,col=…::message` and `::warning …`), and the
  documentation link an analyzer annotation ends with. A logged command is
  kept as a value; `Text` gives the exact line it prints.
 */
module Annotations {
  import opened JsString

  const ErrorMarker := "::error "
  const WarningMarker := "::warning "
  const SeeAlso := " For more details, see "
  const LinterDocs := "https://dart-lang.github.io/linter/lints/"
  const DiagnosticDocs := "https://dart.dev/tools/diagnostic-messages#"
  const FormatHelp := "Invalid format. For more details, see https://flutter.dev/docs/development/tools/formatting"

  /** One analyzer line once its fields have been read. */
  datatype Finding = Finding(
    severity: string, lint: string, file: string,
    line: string, column: string, message: string)

  /** What one `console.log` call of the action writes: an analyzer finding
      (src/index.js:53, src/index.js:56) or a file the formatter would change
      (src/index.js:85). */
  datatype Annotation = FindingAnnotation(finding: Finding) | FormatAnnotation(file: string)

  datatype Level = ErrorLevel | WarningLevel

  /** Only an analyzer finding whose severity is the literal `ERROR` is an
      error; everything else, every formatter annotation included, is a
      warning. */
  function LevelOf(a: Annotation): Level {
    if a.FindingAnnotation? && a.finding.severity == "ERROR" then ErrorLevel else WarningLevel
  }

  /** The documentation link of a lint (src/index.js:47-49). */
  function DocUrl(lint: string): string {
    var lower := ToLowerCase(lint);
    if lint == lower then LinterDocs + lint + ".html" else DiagnosticDocs + lower
  }

  /** An all-lower-case id is a linter rule with a page of its own; any other
      id is a diagnostic, an anchor on the diagnostic-messages page keyed by
      the lower-cased id. Exactly one of the two forms is produced. */
  lemma DocUrlForms(lint: string)
    ensures var url := DocUrl(lint);
      && (StartsWith(url, LinterDocs) <==> !HasUpper(lint))
      && (StartsWith(url, DiagnosticDocs) <==> HasUpper(lint))
      && (!HasUpper(lint) ==> url == LinterDocs + lint + ".html")
      && (HasUpper(lint) ==> url == DiagnosticDocs + ToLowerCase(lint))
  {
    LowerFixedIff(lint);
    var url := DocUrl(lint);
    assert LinterDocs[12] != DiagnosticDocs[12];
    assert url[..|LinterDocs|][12] == url[12] && url[..|DiagnosticDocs|][12] == url[12];
  }

  /** The text after the severity marker: `message` at src/index.js:50 for a
      finding, the fixed property and message at src/index.js:85 for a file. */
  function Body(a: Annotation): string {
    match a
    case FindingAnnotation(f) =>
      "file=" + f.file + ",line=" + f.line + ",col=" + f.column
        + "::" + f.message + SeeAlso + DocUrl(f.lint)
    case FormatAnnotation(file) =>
      "file=" + file + "::" + FormatHelp
  }

  /** The line written to the log: an error command exactly for error-level
      annotations, a warning command for all others. */
  function Text(a: Annotation): (t: string)
    ensures StartsWith(t, ErrorMarker) <==> LevelOf(a) == ErrorLevel
    ensures StartsWith(t, WarningMarker) <==> LevelOf(a) == WarningLevel
  {
    var marker := if LevelOf(a) == ErrorLevel then ErrorMarker else WarningMarker;
    var t := marker + Body(a);
    assert t[..|marker|] == marker;
    assert t[..|ErrorMarker|][2] == t[2] && t[..|WarningMarker|][2] == t[2];
    t
  }

  /** Number of annotations of a level. */
  function Tally(log: seq<Annotation>, level: Level): (n: nat)
    ensures n <= |log|
  {
    if log == [] then 0
    else Tally(log[..|log| - 1], level) + (if LevelOf(log[|log| - 1]) == level then 1 else 0)
  }

  /** Every annotation has one of the two levels. */
  lemma {:induction false} TallyLevels(log: seq<Annotation>)
    ensures Tally(log, ErrorLevel) + Tally(log, WarningLevel) == |log|
  {
    if log != [] {
      TallyLevels(log[..|log| - 1]);
    }
  }

  /** Tallies add up over concatenated logs. */
  lemma {:induction false} TallyAppend(a: seq<Annotation>, b: seq<Annotation>, level: Level)
    ensures Tally(a + b, level) == Tally(a, level) + Tally(b, level)
  {
    if b != [] {
      var n := |b| - 1;
      TallyAppend(a, b[..n], level);
      assert (a + b)[..|a + b| - 1] == a + b[..n];
    } else {
      assert a + b == a;
    }
  }
}
