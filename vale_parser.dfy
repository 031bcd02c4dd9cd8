/**
 * `parse_vale_output`: Vale's terminal report read back into one record per
 * finding.
 *
 * The report, once stripped and cut into lines with ANSI colour codes
 * removed, may open with the name of the checked file. Each finding starts
 * with a header line `L:C  severity  message  Rule`; the lines after it that
 * are neither blank, nor a new `L:C` location, nor a `✖` summary continue its
 * message.
 *
 * The scan is specified by the functions `StepAt` (what one position of the
 * cursor yields and where the cursor goes next), `Scan` and `ParseOutput`;
 * the method `ParseValeOutput` is the cursor loop itself, proved to compute
 * `ParseOutput`.
 */
module ValeParser {
  import opened Wrappers
  import opened Text
  import opened Ansi
  import opened ValeHeader

  /** `✖`, the mark that opens Vale's summary line. */
  const SummaryMark: char := '✖'

  /** One row of the result table. */
  datatype Issue = Issue(
    filename: Option<string>,
    line: nat,
    col: nat,
    errorType: string,
    message: string,
    checkName: string)

  predicate EndsWith(s: string, suffix: string) {
    |suffix| <= |s| && s[|s| - |suffix|..] == suffix
  }

  /** A name ending in `.mdx` or `.md`. */
  predicate IsDocPath(s: string) {
    EndsWith(s, ".mdx") || EndsWith(s, ".md")
  }

  /** The stdout split into lines, each with its ANSI codes removed. */
  function OutputLines(stdout: string): (lines: seq<Line>)
    ensures |lines| >= 1
  {
    var raw := SplitLines(Strip(stdout));
    seq(|raw|, k requires 0 <= k < |raw| => StripAnsi(raw[k]))
  }

  /** The file name the records carry: the one given, unless it is missing
      or empty and the stripped first line names a Markdown file. */
  function ResolveFilename(filename: Option<string>, lines: seq<Line>): Option<string> {
    if (filename.None? || filename.value == "") && |lines| > 0 && IsDocPath(Strip(lines[0]))
    then Some(Strip(lines[0]))
    else filename
  }

  /** Where the scan starts: after the first line when it is a file name and
      more lines follow. */
  function StartIndex(lines: seq<Line>): nat {
    if |lines| > 1 && IsDocPath(lines[0]) then 1 else 0
  }

  /** A line that is blank or a summary once stripped. */
  predicate Skippable(raw: string) {
    var line := Strip(raw);
    |line| == 0 || line[0] == SummaryMark
  }

  /** `re.match(r'^\d+:\d+', s)`. */
  predicate StartsWithLocation(s: string) {
    var d := Span(s, Digit);
    0 < d && d + 1 < |s| && s[d] == ':' && IsDigit(s[d + 1])
  }

  /** The test of the lookahead loop: a non-blank line whose raw text starts
      neither with a location nor with the summary mark. */
  predicate IsContinuation(raw: string) {
    |Strip(raw)| > 0 && !StartsWithLocation(raw) && !(|raw| > 0 && raw[0] == SummaryMark)
  }

  /** The first line at or after `j` that does not continue a message. */
  function ContinuationEnd(lines: seq<Line>, j: nat): (e: nat)
    requires j <= |lines|
    ensures j <= e <= |lines|
    ensures e == |lines| || !IsContinuation(lines[e])
    decreases |lines| - j
  {
    if j == |lines| || !IsContinuation(lines[j]) then j else ContinuationEnd(lines, j + 1)
  }

  /** Every line the lookahead passes over continues the message. */
  lemma {:induction false} ContinuationEndAll(lines: seq<Line>, j: nat)
    requires j <= |lines|
    ensures forall k :: j <= k < ContinuationEnd(lines, j) ==> IsContinuation(lines[k])
    decreases |lines| - j
  {
    if j < |lines| && IsContinuation(lines[j]) {
      ContinuationEndAll(lines, j + 1);
    }
  }

  /** The continuation lines `j..e`, each stripped. */
  function ContinuationLines(lines: seq<Line>, j: nat, e: nat): (cs: seq<string>)
    requires j <= e <= |lines|
    ensures |cs| == e - j
  {
    seq(e - j, k requires 0 <= k < e - j => Strip(lines[j + k]))
  }

  /** The message `head` after the lines `j..e` are absorbed: each,
      stripped and with leading whitespace removed, is appended after one
      space when anything is left of it. */
  function Absorb(head: string, lines: seq<Line>, j: nat, e: nat): string
    requires j <= e <= |lines|
    decreases e - j
  {
    if e == j then head
    else
      var prev := Absorb(head, lines, j, e - 1);
      var a := TrimStart(Strip(lines[e - 1]));
      if |a| > 0 then prev + (" " + a) else prev
  }

  /** A header line: its groups and the pieces of its rest. */
  datatype Heading = Heading(header: Header, parts: seq<string>)

  /** The stripped line matches the header pattern and its rest holds at
      least two pieces. */
  function ParseHeading(raw: Line): (r: Option<Heading>)
    ensures r.Some? ==> |r.value.parts| >= 2
  {
    match MatchHeader(Strip(raw))
    case None => None
    case Some(h) =>
      var parts := SplitWide(h.rest);
      if |parts| >= 2 then Some(Heading(h, parts)) else None
  }

  /** The record a header line at `i` yields, its message completed by the
      continuation lines after it. */
  function Record(lines: seq<Line>, i: nat, fname: Option<string>, hd: Heading): Issue
    requires i < |lines| && |hd.parts| >= 2
  {
    var n := |hd.parts|;
    var msg := JoinWith(" ", hd.parts[..n - 1]);
    var e := ContinuationEnd(lines, i + 1);
    Issue(fname, DigitsValue(hd.header.lineDigits), DigitsValue(hd.header.colDigits),
          hd.header.errorType, Strip(Absorb(Strip(msg), lines, i + 1, e)),
          Strip(hd.parts[n - 1]))
  }

  /** What the cursor at `i` yields, and where it goes next. */
  datatype Step = Step(issue: Option<Issue>, next: nat)

  function StepAt(lines: seq<Line>, i: nat, fname: Option<string>): (st: Step)
    requires i < |lines|
    ensures i < st.next <= |lines|
  {
    if Skippable(lines[i]) then Step(None, i + 1)
    else match ParseHeading(lines[i])
      case None => Step(None, i + 1)
      case Some(hd) => Step(Some(Record(lines, i, fname, hd)), ContinuationEnd(lines, i + 1))
  }

  /** The records found from the cursor `i` on. */
  function Scan(lines: seq<Line>, i: nat, fname: Option<string>): seq<Issue>
    requires i <= |lines|
    decreases |lines| - i
  {
    if i == |lines| then []
    else
      var st := StepAt(lines, i, fname);
      match st.issue
      case None => Scan(lines, st.next, fname)
      case Some(r) => [r] + Scan(lines, st.next, fname)
  }

  /** The records of a whole report. */
  function ParseOutput(stdout: string, filename: Option<string>): seq<Issue> {
    var lines := OutputLines(stdout);
    Scan(lines, StartIndex(lines), ResolveFilename(filename, lines))
  }

  /** A header line yields its record, and the cursor moves past its
      continuation lines. */
  lemma StepAtHeading(lines: seq<Line>, i: nat, fname: Option<string>, hd: Heading)
    requires i < |lines| && !Skippable(lines[i]) && ParseHeading(lines[i]) == Some(hd)
    ensures StepAt(lines, i, fname) == Step(Some(Record(lines, i, fname, hd)), ContinuationEnd(lines, i + 1))
  {
  }

  /** The record of a header, given its message with the continuation lines
      absorbed. */
  lemma RecordOf(lines: seq<Line>, i: nat, fname: Option<string>, h: Header, parts: seq<string>, fullMsg: string)
    requires i < |lines| && |parts| >= 2
    requires fullMsg == Absorb(Strip(JoinWith(" ", parts[..|parts| - 1])), lines, i + 1, ContinuationEnd(lines, i + 1))
    ensures Record(lines, i, fname, Heading(h, parts))
            == Issue(fname, DigitsValue(h.lineDigits), DigitsValue(h.colDigits), h.errorType,
                     Strip(fullMsg), Strip(parts[|parts| - 1]))
  {
  }

  /** The lookahead loop after a header at `i`: it absorbs the continuation
      lines into the message and stops at the first line that is not one. */
  method Lookahead(lines: seq<Line>, i: nat, msg: string) returns (fullMsg: string, next: nat)
    requires i < |lines|
    ensures next == ContinuationEnd(lines, i + 1)
    ensures fullMsg == Absorb(Strip(msg), lines, i + 1, next)
  {
    fullMsg := Strip(msg);
    next := i + 1;
    while next < |lines| && IsContinuation(lines[next])
      invariant i + 1 <= next <= |lines|
      invariant ContinuationEnd(lines, next) == ContinuationEnd(lines, i + 1)
      invariant fullMsg == Absorb(Strip(msg), lines, i + 1, next)
      decreases |lines| - next
    {
      var additional := TrimStart(Strip(lines[next]));
      if |additional| > 0 {
        fullMsg := fullMsg + (" " + additional);
      }
      next := next + 1;
    }
  }

  /** One turn of the cursor loop at `i`: skip the line, or read the record
      it opens together with its continuation lines. */
  method ReadStep(lines: seq<Line>, i: nat, fname: Option<string>) returns (issue: Option<Issue>, next: nat)
    requires i < |lines|
    ensures Step(issue, next) == StepAt(lines, i, fname)
  {
    var line := Strip(lines[i]);
    if |line| == 0 || line[0] == SummaryMark {
      return None, i + 1;
    }
    var m := MatchHeader(line);
    if m.Some? {
      var parts := SplitWide(m.value.rest);
      if |parts| >= 2 {
        var msg := JoinWith(" ", parts[..|parts| - 1]);
        var checkName := parts[|parts| - 1];
        var fullMsg;
        fullMsg, next := Lookahead(lines, i, msg);
        var r := Issue(fname, DigitsValue(m.value.lineDigits), DigitsValue(m.value.colDigits),
                       m.value.errorType, Strip(fullMsg), Strip(checkName));
        StepAtHeading(lines, i, fname, Heading(m.value, parts));
        RecordOf(lines, i, fname, m.value, parts, fullMsg);
        return Some(r), next;
      }
    }
    return None, i + 1;
  }

  /** The cursor loop from `start` on: every turn moves the cursor forward
      and adds the record it read, if any. */
  method ScanLines(lines: seq<Line>, start: nat, fname: Option<string>) returns (records: seq<Issue>)
    requires start <= |lines|
    ensures records == Scan(lines, start, fname)
  {
    records := [];
    var i := start;
    while i < |lines|
      invariant start <= i <= |lines|
      invariant records + Scan(lines, i, fname) == Scan(lines, start, fname)
      decreases |lines| - i
    {
      var issue, next := ReadStep(lines, i, fname);
      if issue.Some? {
        ConcatAssoc(records, [issue.value], Scan(lines, next, fname));
        records := records + [issue.value];
      }
      i := next;
    }
  }

  /** `parse_vale_output`: the lines, the file name, the start of the scan,
      then the cursor loop. */
  method ParseValeOutput(stdout: string, filename: Option<string>) returns (records: seq<Issue>)
    ensures records == ParseOutput(stdout, filename)
  {
    var lines := OutputLines(stdout);
    var fname := filename;
    if (fname.None? || fname.value == "") && |lines| > 0 && IsDocPath(Strip(lines[0])) {
      fname := Some(Strip(lines[0]));
    }
    var start := if |lines| > 1 && (EndsWith(lines[0], ".mdx") || EndsWith(lines[0], ".md")) then 1 else 0;
    records := ScanLines(lines, start, fname);
  }
}
