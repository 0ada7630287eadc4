/**
  The JavaScript string built-ins the action relies on: `trim`, `split` with a
  one-character separator and with the pattern /\r?\n/, `toLowerCase`,
  `replace` with a string pattern, `endsWith`, and the decimal rendering of a
  non-negative integer in a template literal.
 */
module JsString {
  import opened Wrappers

  // ---------------------------------------------------------------- trim

  /** The characters `String.prototype.trim` removes: ECMAScript WhiteSpace
      (TAB, VT, FF, ZWNBSP and every space separator of category Zs) and
      LineTerminator (LF, CR, LS, PS). */
  predicate IsSpace(c: char) {
    c == '\t' || c == '\n' || c == '\U{B}' || c == '\U{C}' || c == '\r' || c == ' '
    || c == '\U{A0}' || c == '\U{1680}' || ('\U{2000}' <= c <= '\U{200A}')
    || c == '\U{2028}' || c == '\U{2029}' || c == '\U{202F}' || c == '\U{205F}'
    || c == '\U{3000}' || c == '\U{FEFF}'
  }

  predicate AllSpace(s: string) {
    forall i :: 0 <= i < |s| ==> IsSpace(s[i])
  }

  /** End of the run of white space that starts at index `i`. */
  function SpaceFrom(s: string, i: nat): (n: nat)
    requires i <= |s|
    ensures i <= n <= |s|
    ensures forall j :: i <= j < n ==> IsSpace(s[j])
    ensures n == |s| || !IsSpace(s[n])
    decreases |s| - i
  {
    if i < |s| && IsSpace(s[i]) then SpaceFrom(s, i + 1) else i
  }

  /** Start of the run of white space that ends just before index `j`,
      looking no further back than index `lo`. */
  function SpaceUntil(s: string, lo: nat, j: nat): (m: nat)
    requires lo <= j <= |s|
    ensures lo <= m <= j
    ensures forall x :: m <= x < j ==> IsSpace(s[x])
    ensures m == lo || !IsSpace(s[m - 1])
    decreases j - lo
  {
    if lo < j && IsSpace(s[j - 1]) then SpaceUntil(s, lo, j - 1) else j
  }

  /** Length of the run of white space `s` starts with. */
  function LeadingSpace(s: string): (n: nat)
    ensures n <= |s| && AllSpace(s[..n])
    ensures n == |s| || !IsSpace(s[n])
  {
    SpaceFrom(s, 0)
  }

  /** `String.prototype.trim`: the leading white space is cut off, then the
      trailing white space of what is left. */
  function Trim(s: string): (r: string)
    ensures |r| <= |s|
    ensures r == [] || (!IsSpace(r[0]) && !IsSpace(r[|r| - 1]))
  {
    var lead := LeadingSpace(s);
    s[lead..SpaceUntil(s, lead, |s|)]
  }

  /** `Trim(s)` is the piece of `s` between a white-space prefix and a
      white-space suffix. */
  lemma TrimIsInfix(s: string)
    ensures var lead, r := LeadingSpace(s), Trim(s);
      && lead + |r| <= |s|
      && r == s[lead..lead + |r|]
      && AllSpace(s[..lead])
      && AllSpace(s[lead + |r|..])
  {
    var lead := LeadingSpace(s);
    var end := SpaceUntil(s, lead, |s|);
    assert Trim(s) == s[lead..end];
    assert forall x :: 0 <= x < |s| - end ==> s[end..][x] == s[end + x];
  }

  /** The trimmed text is empty exactly when the input is all white space. */
  lemma TrimEmptyIff(s: string)
    ensures Trim(s) == [] <==> AllSpace(s)
  {
    var lead := LeadingSpace(s);
    var end := SpaceUntil(s, lead, |s|);
    assert Trim(s) == s[lead..end];
    if Trim(s) == [] {
      forall i | 0 <= i < |s| ensures IsSpace(s[i]) {
        if i < lead {
          assert s[..lead][i] == s[i];
        }
      }
    }
  }

  /** Trimming twice is trimming once. */
  lemma TrimIdempotent(s: string)
    ensures Trim(Trim(s)) == Trim(s)
  {
    var r := Trim(s);
    if r != [] {
      assert LeadingSpace(r) == 0;
      assert SpaceUntil(r, 0, |r|) == |r|;
      assert r[0..|r|] == r;
    }
  }

  // ---------------------------------------------------------------- split

  /** Number of occurrences of `c` in `s`. */
  function Occurrences(s: string, c: char): nat {
    if s == [] then 0 else (if s[0] == c then 1 else 0) + Occurrences(s[1..], c)
  }

  /** `s.split(sep)` for a one-character string `sep`. */
  function SplitOn(s: string, sep: char): (pieces: seq<string>)
    ensures |pieces| >= 1
  {
    if s == [] then [""]
    else
      var rest := SplitOn(s[1..], sep);
      if s[0] == sep then [""] + rest else [[s[0]] + rest[0]] + rest[1..]
  }

  /** There is one more piece than there are separators, and no piece
      contains the separator. */
  lemma {:induction false} SplitOnSpec(s: string, sep: char)
    ensures |SplitOn(s, sep)| == Occurrences(s, sep) + 1
    ensures forall k :: 0 <= k < |SplitOn(s, sep)| ==> sep !in SplitOn(s, sep)[k]
  {
    if s != [] {
      SplitOnSpec(s[1..], sep);
      var rest := SplitOn(s[1..], sep);
      if s[0] != sep {
        assert forall k :: 1 <= k < |rest| ==> sep !in rest[k];
      }
    }
  }

  /** `pieces.join(sep)`. */
  function JoinWith(pieces: seq<string>, sep: string): string
    requires |pieces| >= 1
  {
    if |pieces| == 1 then pieces[0] else pieces[0] + sep + JoinWith(pieces[1..], sep)
  }

  /** Joining the pieces of a split with the separator gives back the input. */
  lemma {:induction false} JoinSplitOn(s: string, sep: char)
    ensures JoinWith(SplitOn(s, sep), [sep]) == s
  {
    if s != [] {
      var rest := SplitOn(s[1..], sep);
      JoinSplitOn(s[1..], sep);
      var pieces := SplitOn(s, sep);
      if s[0] == sep {
        assert pieces[1..] == rest;
      } else if |rest| == 1 {
        assert pieces == [[s[0]] + rest[0]];
      } else {
        assert pieces[1..] == rest[1..];
        assert JoinWith(rest, [sep]) == rest[0] + [sep] + JoinWith(rest[1..], [sep]);
      }
    }
  }

  /** Splitting `p + t` where `p` holds no separator glues `p` to the first
      piece of `t`. */
  lemma {:induction false} SplitOnPrefix(p: string, t: string, sep: char)
    requires sep !in p
    ensures SplitOn(p + t, sep) == [p + SplitOn(t, sep)[0]] + SplitOn(t, sep)[1..]
  {
    if p != [] {
      assert (p + t)[1..] == p[1..] + t;
      SplitOnPrefix(p[1..], t, sep);
      assert [p[0]] + (p[1..] + SplitOn(t, sep)[0]) == p + SplitOn(t, sep)[0];
    } else {
      var pieces := SplitOn(t, sep);
      assert p + t == t;
      assert p + pieces[0] == pieces[0];
      assert pieces == [pieces[0]] + pieces[1..];
    }
  }

  /** Splitting the join of separator-free pieces gives back the pieces. */
  lemma {:induction false} SplitOnJoin(pieces: seq<string>, sep: char)
    requires |pieces| >= 1
    requires forall k :: 0 <= k < |pieces| ==> sep !in pieces[k]
    ensures SplitOn(JoinWith(pieces, [sep]), sep) == pieces
  {
    var p := pieces[0];
    if |pieces| == 1 {
      SplitOnPrefix(p, "", sep);
      assert p + "" == p;
    } else {
      var j := JoinWith(pieces[1..], [sep]);
      SplitOnJoin(pieces[1..], sep);
      assert JoinWith(pieces, [sep]) == p + ([sep] + j);
      assert ([sep] + j)[1..] == j;
      assert SplitOn([sep] + j, sep) == [""] + pieces[1..];
      SplitOnPrefix(p, [sep] + j, sep);
      assert p + "" == p;
      assert pieces == [p] + pieces[1..];
    }
  }

  /** Drops one trailing carriage return. */
  function DropCR(p: string): (r: string)
    ensures r == p || p == r + "\r"
  {
    if p != [] && p[|p| - 1] == '\r' then p[..|p| - 1] else p
  }

  /** `s.split(/\r?\n/)`: the split points are the line feeds, and a carriage
      return just before a line feed belongs to the separator. A carriage
      return at the very end of `s` is not followed by a line feed and stays. */
  function SplitLines(s: string): (lines: seq<string>)
    ensures |lines| >= 1
  {
    var pieces := SplitOn(s, '\n');
    seq(|pieces|, k requires 0 <= k < |pieces| =>
      if k < |pieces| - 1 then DropCR(pieces[k]) else pieces[k])
  }

  /** There is one line per line feed, plus one, and no line holds a line
      feed. */
  lemma SplitLinesSpec(s: string)
    ensures |SplitLines(s)| == Occurrences(s, '\n') + 1
    ensures forall k :: 0 <= k < |SplitLines(s)| ==> '\n' !in SplitLines(s)[k]
  {
    SplitOnSpec(s, '\n');
  }

  /** How one line of a text is ended: by a bare line feed or by CR LF. */
  datatype LineEnd = LF | CRLF

  function EndText(e: LineEnd): string
  {
    if e == LF then "\n" else "\r\n"
  }

  /** The text whose lines are `ls`, line `k` ended by `ends[k]`; the last
      line has no end. */
  function JoinLines(ls: seq<string>, ends: seq<LineEnd>): string
    requires |ls| >= 1 && |ends| == |ls| - 1
  {
    if |ls| == 1 then ls[0] else ls[0] + EndText(ends[0]) + JoinLines(ls[1..], ends[1..])
  }

  /** Every line ended by CR LF gets its carriage return back. */
  function WithEnds(ls: seq<string>, ends: seq<LineEnd>): (r: seq<string>)
    requires |ends| == |ls| - 1
    ensures |r| == |ls|
  {
    seq(|ls|, k requires 0 <= k < |ls| =>
      if k < |ls| - 1 && ends[k] == CRLF then ls[k] + "\r" else ls[k])
  }

  /** A text with mixed line ends is the same text split at line feeds only,
      with the carriage returns kept in the pieces. */
  lemma {:induction false} JoinLinesAtLF(ls: seq<string>, ends: seq<LineEnd>)
    requires |ls| >= 1 && |ends| == |ls| - 1
    ensures JoinLines(ls, ends) == JoinWith(WithEnds(ls, ends), "\n")
  {
    if |ls| > 1 {
      JoinLinesAtLF(ls[1..], ends[1..]);
      assert WithEnds(ls, ends)[1..] == WithEnds(ls[1..], ends[1..]);
      var rest := JoinLines(ls[1..], ends[1..]);
      if ends[0] == CRLF {
        assert ls[0] + "\r\n" + rest == ls[0] + "\r" + "\n" + rest;
      }
    }
  }

  lemma WithEndsHasNoLF(ls: seq<string>, ends: seq<LineEnd>)
    requires |ends| == |ls| - 1
    requires forall k :: 0 <= k < |ls| ==> '\n' !in ls[k]
    ensures forall k :: 0 <= k < |ls| ==> '\n' !in WithEnds(ls, ends)[k]
  {
    forall k | 0 <= k < |ls| ensures '\n' !in WithEnds(ls, ends)[k] {
      if k < |ls| - 1 && ends[k] == CRLF {
        var w := ls[k] + "\r";
        assert forall i :: 0 <= i < |w| ==> (i < |ls[k]| && w[i] == ls[k][i]) || w[i] == '\r';
      }
    }
  }

  /** The lines of a text come back from `split(/\r?\n/)` whichever end each
      line has, provided no line ended by a bare line feed itself ends with a
      carriage return (that one would be taken as part of a CR LF). */
  lemma SplitLinesOfJoin(ls: seq<string>, ends: seq<LineEnd>)
    requires |ls| >= 1 && |ends| == |ls| - 1
    requires forall k :: 0 <= k < |ls| ==> '\n' !in ls[k]
    requires forall k :: 0 <= k < |ls| - 1 && ends[k] == LF ==> DropCR(ls[k]) == ls[k]
    ensures SplitLines(JoinLines(ls, ends)) == ls
  {
    var w := WithEnds(ls, ends);
    JoinLinesAtLF(ls, ends);
    WithEndsHasNoLF(ls, ends);
    SplitOnJoin(w, '\n');
    assert SplitOn(JoinLines(ls, ends), '\n') == w;
    var lines := SplitLines(JoinLines(ls, ends));
    forall k | 0 <= k < |ls| ensures lines[k] == ls[k] {
      if k < |ls| - 1 && ends[k] == CRLF {
        assert lines[k] == DropCR(ls[k] + "\r");
        assert (ls[k] + "\r")[..|ls[k]|] == ls[k];
      }
    }
  }

  /** The same end on every line is a plain join with that end. */
  lemma {:induction false} JoinLinesUniform(ls: seq<string>, e: LineEnd)
    requires |ls| >= 1
    ensures JoinLines(ls, seq(|ls| - 1, _ => e)) == JoinWith(ls, EndText(e))
  {
    if |ls| > 1 {
      JoinLinesUniform(ls[1..], e);
      assert seq(|ls| - 1, _ => e)[1..] == seq(|ls[1..]| - 1, _ => e);
    }
  }

  /** The lines of a text written with bare line feeds come back, provided no
      line but the last ends with a carriage return. */
  lemma SplitLinesOfLF(ls: seq<string>)
    requires |ls| >= 1
    requires forall k :: 0 <= k < |ls| ==> '\n' !in ls[k]
    requires forall k :: 0 <= k < |ls| - 1 ==> DropCR(ls[k]) == ls[k]
    ensures SplitLines(JoinWith(ls, "\n")) == ls
  {
    JoinLinesUniform(ls, LF);
    SplitLinesOfJoin(ls, seq(|ls| - 1, _ => LF));
  }

  /** The lines of a text written with CR LF line ends come back, whatever
      they hold besides line feeds. */
  lemma SplitLinesOfCRLF(ls: seq<string>)
    requires |ls| >= 1
    requires forall k :: 0 <= k < |ls| ==> '\n' !in ls[k]
    ensures SplitLines(JoinWith(ls, "\r\n")) == ls
  {
    JoinLinesUniform(ls, CRLF);
    SplitLinesOfJoin(ls, seq(|ls| - 1, _ => CRLF));
  }

  /** The lines of captured tool output: `output.trim().split(/\r?\n/)`. */
  function OutputLines(output: string): (lines: seq<string>)
    ensures |lines| >= 1
  {
    SplitLines(Trim(output))
  }

  /** Empty or all-white-space output still yields one line, the empty one. */
  lemma OutputLinesOfBlank(output: string)
    requires AllSpace(output)
    ensures OutputLines(output) == [""]
  {
    TrimEmptyIff(output);
  }

  // ---------------------------------------------------------------- toLowerCase

  predicate IsUpper(c: char) {
    'A' <= c <= 'Z'
  }

  predicate HasUpper(s: string) {
    exists i :: 0 <= i < |s| && IsUpper(s[i])
  }

  function LowerChar(c: char): char {
    if IsUpper(c) then (c as int + 32) as char else c
  }

  /** `toLowerCase`, on the ASCII letters. */
  function ToLowerCase(s: string): (r: string)
    ensures |r| == |s|
  {
    seq(|s|, i requires 0 <= i < |s| => LowerChar(s[i]))
  }

  /** Every upper-case letter is replaced by its lower-case partner, every
      other character is kept, and no upper-case letter is left. */
  lemma ToLowerCaseSpec(s: string)
    ensures !HasUpper(ToLowerCase(s))
    ensures forall i :: 0 <= i < |s| && !IsUpper(s[i]) ==> ToLowerCase(s)[i] == s[i]
    ensures forall i :: 0 <= i < |s| && IsUpper(s[i]) ==> ToLowerCase(s)[i] as int == s[i] as int + 32
  {
  }

  /** A string equals its lower-case form exactly when it has no upper-case
      letter. */
  lemma LowerFixedIff(s: string)
    ensures ToLowerCase(s) == s <==> !HasUpper(s)
  {
    if HasUpper(s) {
      var i :| 0 <= i < |s| && IsUpper(s[i]);
      assert ToLowerCase(s)[i] != s[i];
    } else {
      assert forall i :: 0 <= i < |s| ==> ToLowerCase(s)[i] == s[i];
    }
  }

  // ---------------------------------------------------------------- replace

  predicate OccursAt(s: string, pat: string, i: nat) {
    i + |pat| <= |s| && s[i..i + |pat|] == pat
  }

  /** `s.indexOf(pat, from)`: the first position at or after `from` where
      `pat` occurs. */
  function IndexOfFrom(s: string, pat: string, from: nat): (r: Option<nat>)
    requires from <= |s|
    ensures r.Some? ==> from <= r.value && OccursAt(s, pat, r.value)
    ensures r.Some? ==> forall j :: from <= j < r.value ==> !OccursAt(s, pat, j)
    ensures r.None? ==> forall j :: from <= j <= |s| ==> !OccursAt(s, pat, j)
    decreases |s| - from
  {
    if OccursAt(s, pat, from) then Some(from)
    else if from == |s| then None
    else IndexOfFrom(s, pat, from + 1)
  }

  /** `s.replace(pat, '')` with a string pattern: the first occurrence of
      `pat` is cut out; without one, `s` is returned unchanged. */
  function ReplaceFirst(s: string, pat: string): (r: string)
    ensures (forall j :: 0 <= j <= |s| ==> !OccursAt(s, pat, j)) ==> r == s
  {
    match IndexOfFrom(s, pat, 0)
    case None => s
    case Some(k) => s[..k] + s[k + |pat|..]
  }

  /** Where `k` is the first occurrence of `pat`, the result is `s` with that
      occurrence removed, and putting `pat` back at `k` restores `s`. */
  lemma ReplaceFirstAt(s: string, pat: string, k: nat)
    requires OccursAt(s, pat, k)
    requires forall j :: 0 <= j < k ==> !OccursAt(s, pat, j)
    ensures var r := ReplaceFirst(s, pat);
      && |r| == |s| - |pat|
      && r == s[..k] + s[k + |pat|..]
      && s == r[..k] + pat + r[k..]
  {
    var r := ReplaceFirst(s, pat);
    assert IndexOfFrom(s, pat, 0) == Some(k);
    assert r[..k] == s[..k];
    assert r[k..] == s[k + |pat|..];
    assert s == s[..k] + s[k..k + |pat|] + s[k + |pat|..];
  }

  /** When `s` starts with `pat`, the replacement strips that prefix. */
  lemma ReplaceFirstPrefix(pat: string, rest: string)
    ensures ReplaceFirst(pat + rest, pat) == rest
  {
    var s := pat + rest;
    assert s[0..|pat|] == pat;
    ReplaceFirstAt(s, pat, 0);
  }

  // ---------------------------------------------------------------- endsWith

  /** `s.endsWith(suffix)`. */
  predicate EndsWith(s: string, suffix: string) {
    |suffix| <= |s| && s[|s| - |suffix|..] == suffix
  }

  /** A text ends with a suffix exactly when it is some text followed by
      that suffix. */
  lemma EndsWithIff(s: string, suffix: string)
    ensures EndsWith(s, suffix) <==> exists p :: p + suffix == s
  {
    if EndsWith(s, suffix) {
      var p := s[..|s| - |suffix|];
      assert p + suffix == s;
    }
  }

  predicate StartsWith(s: string, prefix: string) {
    |prefix| <= |s| && s[..|prefix|] == prefix
  }

  // ---------------------------------------------------------------- numbers

  predicate IsDigit(c: char) {
    '0' <= c <= '9'
  }

  predicate AllDigits(s: string) {
    forall i :: 0 <= i < |s| ==> IsDigit(s[i])
  }

  function DigitChar(d: nat): (c: char)
    requires d < 10
    ensures IsDigit(c)
  {
    ('0' as int + d) as char
  }

  /** `${n}` for a non-negative integer: its decimal digits, without leading
      zeros; zero is the single digit `0`. */
  function NatToString(n: nat): (s: string)
    ensures |s| >= 1 && AllDigits(s)
    ensures s[0] == '0' ==> n == 0
    ensures n == 0 ==> s == "0"
  {
    if n < 10 then [DigitChar(n)] else NatToString(n / 10) + [DigitChar(n % 10)]
  }

  /** The value of a string of decimal digits. */
  function ParseDecimal(s: string): nat
    requires AllDigits(s)
  {
    if s == [] then 0
    else 10 * ParseDecimal(s[..|s| - 1]) + (s[|s| - 1] as int - '0' as int)
  }

  /** Reading the digits back gives the number, so distinct numbers render
      distinctly. */
  lemma {:induction false} ParseNatToString(n: nat)
    ensures ParseDecimal(NatToString(n)) == n
  {
    if n >= 10 {
      ParseNatToString(n / 10);
      var s := NatToString(n);
      assert s[..|s| - 1] == NatToString(n / 10);
    }
  }

  /** Length of the run of digits a string starts with. */
  function LeadingDigits(s: string): (n: nat)
    ensures n <= |s|
  {
    if s == [] || !IsDigit(s[0]) then 0 else 1 + LeadingDigits(s[1..])
  }

  /** Digits followed by a non-digit: the digit run is exactly the digits. */
  lemma {:induction false} LeadingDigitsOf(d: string, rest: string)
    requires AllDigits(d)
    requires rest != [] && !IsDigit(rest[0])
    ensures LeadingDigits(d + rest) == |d|
  {
    if d == [] {
      assert d + rest == rest;
    } else {
      assert (d + rest)[1..] == d[1..] + rest;
      LeadingDigitsOf(d[1..], rest);
    }
  }
}
