/**
 * The report layout that `parse_vale_output` reads back, as its own branches
 * define it (not a full account of Vale's output): the file name on the first
 * line, one header line
 * `L:C  severity  message  Rule` per finding (the message in pieces separated
 * by wide gaps), the finding's wrapped message lines indented under it, and
 * the `✖` summary line last. Every finding of such a report comes back as one
 * record, in order, with its message pieces and wrapped lines joined by
 * single spaces.
 */
module ValeFormat {
  import opened Wrappers
  import opened Text
  import opened Ansi
  import opened ValeHeader
  import opened ValeParser
  import opened ParserProperties

  /** Text that ANSI stripping and line splitting leave alone. */
  predicate Plain(s: string) {
    Esc !in s && '\n' !in s
  }

  /** A message piece or rule name as Vale prints it between wide gaps. */
  predicate IsPiece(p: string) {
    |p| > 0 && Trimmed(p) && NoWideGap(p) && Plain(p)
  }

  predicate AllPieces(ps: seq<string>) {
    forall k :: 0 <= k < |ps| ==> IsPiece(ps[k])
  }

  /** The text of a wrapped message line, without its indentation. */
  predicate IsWrapped(t: string) {
    |t| > 0 && Trimmed(t) && Plain(t)
  }

  predicate AllWrapped(ts: seq<string>) {
    forall k :: 0 <= k < |ts| ==> IsWrapped(ts[k])
  }

  /** One finding as Vale reports it. */
  datatype Finding = Finding(
    line: nat,
    col: nat,
    severity: string,
    message: seq<string>,
    rule: string,
    more: seq<string>)

  predicate ValidFinding(f: Finding) {
    |f.severity| > 0 && AllWord(f.severity)
    && |f.message| >= 1 && AllPieces(f.message) && IsPiece(f.rule)
    && AllWrapped(f.more)
  }

  predicate AllValid(fs: seq<Finding>) {
    forall k :: 0 <= k < |fs| ==> ValidFinding(fs[k])
  }

  /** The message pieces and the rule, separated by wide gaps. */
  function HeaderRest(f: Finding): string {
    JoinWith("  ", f.message + [f.rule])
  }

  /** A header line: the location, the severity and the rest, separated by
      two spaces. */
  function Layout(d1: string, d2: string, w: string, r: string): string {
    d1 + (":" + (d2 + ("  " + (w + ("  " + r)))))
  }

  /** The header line of a finding. */
  function HeaderLine(f: Finding): string {
    Layout(Decimal(f.line), Decimal(f.col), f.severity, HeaderRest(f))
  }

  /** A wrapped message line, indented under the message. */
  function Wrapped(t: string): string {
    "  " + t
  }

  /** The lines of one finding: its header, then its wrapped lines. */
  function FindingLines(f: Finding): seq<string> {
    [HeaderLine(f)] + seq(|f.more|, k requires 0 <= k < |f.more| => Wrapped(f.more[k]))
  }

  /** The lines of all findings, in order. */
  function AllLines(fs: seq<Finding>): seq<string> {
    if |fs| == 0 then [] else FindingLines(fs[0]) + AllLines(fs[1..])
  }

  /** The whole report: the file name, the findings, the summary. */
  function RenderReport(name: string, fs: seq<Finding>, summary: string): string {
    JoinLines([name] + AllLines(fs) + [summary])
  }

  /** The record a finding should give: its message pieces and wrapped lines
      joined by single spaces, its rule as the check name. */
  function Expected(fname: Option<string>, f: Finding): Issue {
    Issue(fname, f.line, f.col, f.severity, JoinWith(" ", f.message + f.more), f.rule)
  }

  function ExpectedAll(fname: Option<string>, fs: seq<Finding>): seq<Issue> {
    if |fs| == 0 then [] else [Expected(fname, fs[0])] + ExpectedAll(fname, fs[1..])
  }

  // ---------------------------------------------------------------------
  // Plain text

  lemma DigitsPlain(s: string)
    requires AllDigits(s)
    ensures Plain(s)
  {
  }

  lemma WordPlain(s: string)
    requires AllWord(s)
    ensures Plain(s)
  {
  }

  /** Plain pieces joined by a plain separator are plain. */
  lemma {:induction false} JoinWithPlain(sep: string, parts: seq<string>)
    requires Plain(sep) && forall k :: 0 <= k < |parts| ==> Plain(parts[k])
    ensures Plain(JoinWith(sep, parts))
    decreases |parts|
  {
    if |parts| > 1 {
      JoinWithPlain(sep, parts[..|parts| - 1]);
    }
  }

  // ---------------------------------------------------------------------
  // The header line

  /** The rest of a header: trimmed, plain, and split back into the message
      pieces and the rule. */
  lemma HeaderRestFacts(f: Finding)
    requires ValidFinding(f)
    ensures var r := HeaderRest(f);
            |r| > 0 && Trimmed(r) && Plain(r) && SplitWide(r) == f.message + [f.rule]
  {
    var ps := f.message + [f.rule];
    assert AllPieces(ps) by {
      forall k | 0 <= k < |ps|
        ensures IsPiece(ps[k])
      {
        if k < |f.message| {
          assert ps[k] == f.message[k];
        }
      }
    }
    JoinWithTrimmed("  ", ps);
    JoinWithPlain("  ", ps);
    SplitWideJoin("  ", ps);
  }

  /** What a laid-out header line needs from its parts. */
  predicate LayoutParts(d1: string, d2: string, w: string, r: string) {
    |d1| > 0 && AllDigits(d1) && |d2| > 0 && AllDigits(d2) && |w| > 0 && AllWord(w)
    && |r| > 0 && Trimmed(r) && Plain(r)
  }

  /** A laid-out header line is plain and trimmed and starts on a digit. */
  lemma LayoutTrimmed(d1: string, d2: string, w: string, r: string)
    requires LayoutParts(d1, d2, w, r)
    ensures var s := Layout(d1, d2, w, r);
            Plain(s) && |s| > 0 && IsDigit(s[0]) && Trimmed(s)
  {
    DigitsPlain(d1);
    DigitsPlain(d2);
    WordPlain(w);
    var s := Layout(d1, d2, w, r);
    var t := ":" + (d2 + ("  " + (w + ("  " + r))));
    assert s == d1 + t;
    assert s[0] == d1[0];
    var u := "  " + (w + ("  " + r));
    assert s == (d1 + (":" + d2)) + u;
    assert u == ("  " + w + "  ") + r;
    assert u[|u| - 1] == r[|r| - 1];
    assert s[|s| - 1] == u[|u| - 1];
  }

  /** A laid-out header line starts with a location, so it never continues
      a message. */
  lemma LayoutLocation(d1: string, d2: string, w: string, r: string)
    requires LayoutParts(d1, d2, w, r)
    ensures StartsWithLocation(Layout(d1, d2, w, r)) && !IsContinuation(Layout(d1, d2, w, r))
  {
    var t := ":" + (d2 + ("  " + (w + ("  " + r))));
    var s := Layout(d1, d2, w, r);
    assert s == d1 + t;
    SpanOfConcat(d1, t, Digit);
    assert s[|d1|] == ':' && s[|d1| + 1] == d2[0];
  }

  /** A laid-out header line is matched, and its groups are its parts. */
  lemma LayoutMatches(d1: string, d2: string, w: string, r: string, s: Line)
    requires LayoutParts(d1, d2, w, r) && !IsSpace(r[0]) && s == Layout(d1, d2, w, r)
    ensures MatchHeader(s) == Some(Header(d1, d2, w, r))
  {
    var h := Header(d1, d2, w, r);
    assert s == "" + (h.lineDigits + (":" + (h.colDigits + ("  " + (h.errorType + ("  " + h.rest))))));
    MatchHeaderOf(s, "", h, "  ", "  ");
  }

  /** The header of a finding, as the pattern's groups. */
  function HeaderOf(f: Finding): Header {
    Header(Decimal(f.line), Decimal(f.col), f.severity, HeaderRest(f))
  }

  /** The header line of a valid finding is plain and trimmed, and never
      continues a message. */
  lemma HeaderLineFacts(f: Finding)
    requires ValidFinding(f)
    ensures Plain(HeaderLine(f)) && Strip(HeaderLine(f)) == HeaderLine(f)
    ensures |HeaderLine(f)| > 0 && HeaderLine(f)[0] != SummaryMark
    ensures !IsContinuation(HeaderLine(f))
  {
    var d1 := Decimal(f.line);
    var d2 := Decimal(f.col);
    var r := HeaderRest(f);
    HeaderRestFacts(f);
    LayoutTrimmed(d1, d2, f.severity, r);
    LayoutLocation(d1, d2, f.severity, r);
    StripTrimmed(HeaderLine(f));
  }

  /** The header line of a valid finding is matched with the finding's
      fields as its groups, and the pieces of its rest are the message
      pieces and the rule. */
  lemma HeaderLineParses(f: Finding)
    requires ValidFinding(f)
    ensures Plain(HeaderLine(f))
    ensures ParseHeading(HeaderLine(f)) == Some(Heading(HeaderOf(f), f.message + [f.rule]))
  {
    HeaderLineFacts(f);
    HeaderRestFacts(f);
    var s: Line := HeaderLine(f);
    LayoutMatches(Decimal(f.line), Decimal(f.col), f.severity, HeaderRest(f), s);
    HeadingOf(s, HeaderOf(f), f.message + [f.rule]);
  }

  /** A line whose stripped text is matched, with a rest of at least two
      pieces, is a heading. */
  lemma HeadingOf(raw: Line, h: Header, parts: seq<string>)
    requires Strip(raw) == raw && MatchHeader(raw) == Some(h)
    requires SplitWide(h.rest) == parts && |parts| >= 2
    ensures ParseHeading(raw) == Some(Heading(h, parts))
  {
  }

  // ---------------------------------------------------------------------
  // One finding

  /** A wrapped line continues the message, and stripping gives its text. */
  lemma WrappedFacts(t: string)
    requires IsWrapped(t)
    ensures IsContinuation(Wrapped(t)) && Strip(Wrapped(t)) == t && Plain(Wrapped(t))
  {
    IndentedContinues("  ", t);
  }

  /** The lines of finding `f` stand at `i`. */
  predicate LaidOut(lines: seq<string>, i: nat, f: Finding) {
    i + 1 + |f.more| <= |lines| && lines[i] == HeaderLine(f)
    && forall k :: 0 <= k < |f.more| ==> lines[i + 1 + k] == Wrapped(f.more[k])
  }

  /** The wrapped lines of a finding are continuation lines, and stripped
      they are its wrapped texts. */
  lemma WrappedLines(lines: seq<Line>, i: nat, f: Finding)
    requires ValidFinding(f) && LaidOut(lines, i, f)
    ensures forall k :: i + 1 <= k < i + 1 + |f.more| ==> IsContinuation(lines[k])
    ensures ContinuationLines(lines, i + 1, i + 1 + |f.more|) == f.more
  {
    forall k | i + 1 <= k < i + 1 + |f.more|
      ensures IsContinuation(lines[k]) && Strip(lines[k]) == f.more[k - i - 1]
    {
      assert lines[i + 1 + (k - i - 1)] == Wrapped(f.more[k - i - 1]);
      WrappedFacts(f.more[k - i - 1]);
    }
  }

  /** Message pieces and the rule are stripped, non-empty texts. */
  lemma PiecesStripped(f: Finding)
    requires ValidFinding(f)
    ensures AllStripped(f.message + [f.rule])
  {
    var ps := f.message + [f.rule];
    forall k | 0 <= k < |ps|
      ensures |ps[k]| > 0 && Trimmed(ps[k])
    {
      if k < |f.message| {
        assert ps[k] == f.message[k];
      }
    }
  }

  /** The lookahead after the header of a laid-out finding stops after its
      wrapped lines, which make up the rest of its message. */
  lemma LookaheadOf(lines: seq<Line>, i: nat, f: Finding)
    requires ValidFinding(f) && LaidOut(lines, i, f)
    requires var j := i + 1 + |f.more|; j == |lines| || !IsContinuation(lines[j])
    ensures ContinuationEnd(lines, i + 1) == i + 1 + |f.more|
    ensures ContinuationLines(lines, i + 1, ContinuationEnd(lines, i + 1)) == f.more
  {
    WrappedLines(lines, i, f);
    ContinuationEndOf(lines, i + 1, i + 1 + |f.more|);
  }

  /** The record the header of a laid-out finding yields is the finding's
      expected record. */
  lemma RecordIs(lines: seq<Line>, i: nat, fname: Option<string>, f: Finding)
    requires ValidFinding(f) && LaidOut(lines, i, f)
    requires var j := i + 1 + |f.more|; j == |lines| || !IsContinuation(lines[j])
    ensures Record(lines, i, fname, Heading(HeaderOf(f), f.message + [f.rule])) == Expected(fname, f)
  {
    var hd := Heading(HeaderOf(f), f.message + [f.rule]);
    LookaheadOf(lines, i, f);
    PiecesStripped(f);
    RecordFields(lines, i, fname, hd);
    assert hd.parts[..|hd.parts| - 1] == f.message;
    SameIssue(Record(lines, i, fname, hd), Expected(fname, f));
  }

  /** Records with the same fields are the same. */
  lemma SameIssue(r: Issue, s: Issue)
    requires r.filename == s.filename && r.line == s.line && r.col == s.col
    requires r.errorType == s.errorType && r.message == s.message && r.checkName == s.checkName
    ensures r == s
  {
  }

  /** At the header of a laid-out finding the cursor yields the finding's
      record and moves past its wrapped lines. */
  lemma StepFinding(lines: seq<Line>, i: nat, fname: Option<string>, f: Finding)
    requires ValidFinding(f) && LaidOut(lines, i, f)
    requires var j := i + 1 + |f.more|; j == |lines| || !IsContinuation(lines[j])
    ensures StepAt(lines, i, fname) == Step(Some(Expected(fname, f)), i + 1 + |f.more|)
  {
    var hd := Heading(HeaderOf(f), f.message + [f.rule]);
    HeaderLineFacts(f);
    HeaderLineParses(f);
    assert !Skippable(lines[i]);
    StepAtHeading(lines, i, fname, hd);
    RecordIs(lines, i, fname, f);
    LookaheadOf(lines, i, f);
  }

  // ---------------------------------------------------------------------
  // All findings

  /** The findings `fs` stand one after the other from `i`, ending at `e`. */
  predicate LaidOutAll(lines: seq<string>, i: nat, fs: seq<Finding>, e: nat)
    decreases |fs|
  {
    if |fs| == 0 then i == e
    else
      var j := i + 1 + |fs[0].more|;
      j <= e && LaidOut(lines, i, fs[0]) && LaidOutAll(lines, j, fs[1..], e)
  }

  /** The line after a finding does not continue its message: it is the next
      header, or the line at `e`, which does not either. */
  lemma NextStops(lines: seq<Line>, j: nat, fs: seq<Finding>, e: nat)
    requires AllValid(fs) && LaidOutAll(lines, j, fs, e)
    requires e < |lines| && !IsContinuation(lines[e])
    ensures j < |lines| && !IsContinuation(lines[j])
  {
    if |fs| > 0 {
      assert ValidFinding(fs[0]);
      HeaderLineFacts(fs[0]);
    }
  }

  /** The scan over laid-out findings yields their expected records, in
      order, and goes on at `e`. */
  lemma {:induction false} ScanFindings(lines: seq<Line>, i: nat, fname: Option<string>, fs: seq<Finding>, e: nat)
    requires AllValid(fs) && LaidOutAll(lines, i, fs, e)
    requires i <= e < |lines| && !IsContinuation(lines[e])
    ensures Scan(lines, i, fname) == ExpectedAll(fname, fs) + Scan(lines, e, fname)
    decreases |fs|
  {
    if |fs| == 0 {
      assert ExpectedAll(fname, fs) == [];
    } else {
      var f := fs[0];
      var j := i + 1 + |f.more|;
      var rest := fs[1..];
      assert AllValid(rest) by {
        forall k | 0 <= k < |rest|
          ensures ValidFinding(rest[k])
        {
          assert rest[k] == fs[k + 1];
        }
      }
      assert ValidFinding(f);
      NextStops(lines, j, rest, e);
      LaidOutAllBound(lines, j, rest, e);
      StepFinding(lines, i, fname, f);
      ScanStep(lines, i, fname);
      ScanFindings(lines, j, fname, rest, e);
      ConcatAssoc([Expected(fname, f)], ExpectedAll(fname, rest), Scan(lines, e, fname));
    }
  }

  lemma {:induction false} LaidOutAllBound(lines: seq<string>, i: nat, fs: seq<Finding>, e: nat)
    requires LaidOutAll(lines, i, fs, e)
    ensures i <= e
    decreases |fs|
  {
    if |fs| > 0 {
      LaidOutAllBound(lines, i + 1 + |fs[0].more|, fs[1..], e);
    }
  }

  /** The lines of a finding, wherever they stand, are laid out there. */
  lemma FindingAt(pre: seq<string>, f: Finding, post: seq<string>)
    ensures LaidOut(pre + FindingLines(f) + post, |pre|, f)
  {
    var lines := pre + FindingLines(f) + post;
    var fl := FindingLines(f);
    assert lines[|pre|] == fl[0];
    forall k | 0 <= k < |f.more|
      ensures lines[|pre| + 1 + k] == Wrapped(f.more[k])
    {
      assert lines[|pre| + 1 + k] == fl[1 + k];
    }
  }

  /** The lines of the findings, wherever they stand, are laid out there one
      after the other. */
  lemma {:induction false} AllLinesLaidOut(pre: seq<string>, fs: seq<Finding>, post: seq<string>)
    ensures LaidOutAll(pre + AllLines(fs) + post, |pre|, fs, |pre| + |AllLines(fs)|)
    decreases |fs|
  {
    if |fs| > 0 {
      var f := fs[0];
      var fl := FindingLines(f);
      var rest := AllLines(fs[1..]);
      assert AllLines(fs) == fl + rest;
      ConcatAssoc(pre, fl, rest);
      ConcatAssoc(pre + fl, rest, post);
      FindingAt(pre, f, rest + post);
      AllLinesLaidOut(pre + fl, fs[1..], post);
    }
  }

  predicate AllPlain(ls: seq<string>) {
    forall k :: 0 <= k < |ls| ==> Plain(ls[k])
  }

  lemma AllPlainConcat(a: seq<string>, b: seq<string>)
    requires AllPlain(a) && AllPlain(b)
    ensures AllPlain(a + b)
  {
    forall k | 0 <= k < |a + b|
      ensures Plain((a + b)[k])
    {
      if k >= |a| {
        assert (a + b)[k] == b[k - |a|];
      }
    }
  }

  /** Every line of a valid finding is plain. */
  lemma FindingPlain(f: Finding)
    requires ValidFinding(f)
    ensures AllPlain(FindingLines(f))
  {
    var fl := FindingLines(f);
    HeaderLineFacts(f);
    forall k | 0 <= k < |fl|
      ensures Plain(fl[k])
    {
      if k > 0 {
        WrappedFacts(f.more[k - 1]);
      }
    }
  }

  /** Every line of the findings is plain. */
  lemma {:induction false} AllLinesPlain(fs: seq<Finding>)
    requires AllValid(fs)
    ensures AllPlain(AllLines(fs))
    decreases |fs|
  {
    if |fs| > 0 {
      var rest := fs[1..];
      assert AllValid(rest) by {
        forall k | 0 <= k < |rest|
          ensures ValidFinding(rest[k])
        {
          assert rest[k] == fs[k + 1];
        }
      }
      assert ValidFinding(fs[0]);
      FindingPlain(fs[0]);
      AllLinesPlain(rest);
      AllPlainConcat(FindingLines(fs[0]), AllLines(rest));
    }
  }

  // ---------------------------------------------------------------------
  // The whole report

  /** A joined text starts with the first line. */
  lemma JoinLinesStart(ls: seq<string>)
    requires |ls| >= 1 && |ls[0]| > 0
    ensures var s := JoinLines(ls); |s| > 0 && s[0] == ls[0][0]
  {
  }

  /** A joined text ends with the last line. */
  lemma {:induction false} JoinLinesLast(ls: seq<string>)
    requires |ls| >= 1 && |ls[|ls| - 1]| > 0
    ensures var s := JoinLines(ls); var last := ls[|ls| - 1];
            |s| > 0 && s[|s| - 1] == last[|last| - 1]
    decreases |ls|
  {
    if |ls| > 1 {
      var rest := ls[1..];
      assert rest[|rest| - 1] == ls[|ls| - 1];
      JoinLinesLast(rest);
    }
  }

  /** The lines `parse_vale_output` reads from a report are the report's
      lines. */
  lemma ReportLines(name: string, fs: seq<Finding>, summary: string)
    requires |name| > 0 && Trimmed(name) && Plain(name)
    requires |summary| > 0 && Trimmed(summary) && Plain(summary)
    requires AllValid(fs)
    ensures OutputLines(RenderReport(name, fs, summary)) == [name] + AllLines(fs) + [summary]
  {
    var all := [name] + AllLines(fs) + [summary];
    AllLinesPlain(fs);
    AllPlainConcat([name], AllLines(fs));
    AllPlainConcat([name] + AllLines(fs), [summary]);
    var ls: seq<Line> := all;
    var stdout := JoinLines(all);
    JoinLinesStart(all);
    JoinLinesLast(all);
    StripTrimmed(stdout);
    SplitJoinLines(ls);
    forall k | 0 <= k < |ls|
      ensures StripAnsi(ls[k]) == ls[k]
    {
      StripAnsiNoEsc(ls[k]);
    }
  }

  /** The summary line ends the scan without a record. */
  lemma ScanAtSummary(lines: seq<Line>, e: nat, fname: Option<string>)
    requires e + 1 == |lines| && |lines[e]| > 0 && lines[e][0] == SummaryMark && Trimmed(lines[e])
    ensures Scan(lines, e, fname) == []
  {
    StripTrimmed(lines[e]);
    assert Skippable(lines[e]);
    assert StepAt(lines, e, fname) == Step(None, e + 1);
  }

  /** The first line of a report names the file and the scan starts after
      it. */
  lemma ReportHead(lines: seq<Line>, name: string, filename: Option<string>)
    requires |lines| > 1 && lines[0] == name && IsDocPath(name) && Trimmed(name)
    ensures StartIndex(lines) == 1
    ensures ResolveFilename(filename, lines)
            == if filename.None? || filename.value == "" then Some(name) else filename
  {
    StripTrimmed(name);
  }

  /** A summary line does not continue a message. */
  lemma SummaryStops(summary: Line)
    requires |summary| > 0 && summary[0] == SummaryMark
    ensures !IsContinuation(summary)
  {
  }

  /** The lines of a report: its file name, its findings laid out one
      after another, and its summary. */
  lemma ReportShape(lines: seq<Line>, name: string, fs: seq<Finding>, summary: string)
    requires lines == [name] + AllLines(fs) + [summary]
    ensures |lines| >= 2 && lines[0] == name && lines[|lines| - 1] == summary
    ensures LaidOutAll(lines, 1, fs, |lines| - 1)
  {
    AllLinesLaidOut([name], fs, [summary]);
  }

  /** The scan of a report's lines yields the expected records. */
  lemma ScanReport(lines: seq<Line>, name: string, fs: seq<Finding>, filename: Option<string>)
    requires IsDocPath(name) && Trimmed(name) && AllValid(fs)
    requires |lines| >= 2 && lines[0] == name && LaidOutAll(lines, 1, fs, |lines| - 1)
    requires var last := lines[|lines| - 1]; |last| > 0 && last[0] == SummaryMark && Trimmed(last)
    ensures Scan(lines, StartIndex(lines), ResolveFilename(filename, lines))
            == ExpectedAll(if filename.None? || filename.value == "" then Some(name) else filename, fs)
  {
    var e := |lines| - 1;
    var fname := if filename.None? || filename.value == "" then Some(name) else filename;
    ReportHead(lines, name, filename);
    SummaryStops(lines[e]);
    ScanFindings(lines, 1, fname, fs, e);
    ScanAtSummary(lines, e, fname);
    assert ExpectedAll(fname, fs) + [] == ExpectedAll(fname, fs);
  }

  /** Reading back a report: every finding comes back as one record, in
      order, with its location, severity and rule, its message pieces and
      wrapped lines joined by single spaces, and the file name given or,
      when none is given, the one on the report's first line. */
  lemma ParseReport(name: string, fs: seq<Finding>, summary: string, filename: Option<string>)
    requires IsDocPath(name) && Trimmed(name) && Plain(name)
    requires |summary| > 0 && summary[0] == SummaryMark && Trimmed(summary) && Plain(summary)
    requires AllValid(fs)
    ensures ParseOutput(RenderReport(name, fs, summary), filename)
            == ExpectedAll(if filename.None? || filename.value == "" then Some(name) else filename, fs)
  {
    ReportLines(name, fs, summary);
    var lines := OutputLines(RenderReport(name, fs, summary));
    ReportShape(lines, name, fs, summary);
    ScanReport(lines, name, fs, filename);
  }

  /** The lines read from a single header line: that line alone. */
  lemma SingleLines(f: Finding)
    requires ValidFinding(f)
    ensures OutputLines(HeaderLine(f)) == [HeaderLine(f)]
  {
    HeaderLineFacts(f);
    var l: Line := HeaderLine(f);
    assert JoinLines([l]) == l;
    SplitJoinLines([l]);
    StripAnsiNoEsc(l);
  }

  /** Output made of one header line alone yields its record. The file name
      is the one given, or, when none is given and the line itself ends in
      `.md` or `.mdx`, that line: the first line is taken for a file name
      and still scanned, since no other line follows it. */
  lemma ParseSingle(f: Finding, filename: Option<string>)
    requires ValidFinding(f) && |f.more| == 0
    ensures var l := HeaderLine(f);
            var fname := if (filename.None? || filename.value == "") && IsDocPath(l) then Some(l) else filename;
            ParseOutput(l, filename) == [Expected(fname, f)]
  {
    var l := HeaderLine(f);
    var fname := if (filename.None? || filename.value == "") && IsDocPath(l) then Some(l) else filename;
    SingleLines(f);
    HeaderLineFacts(f);
    var lines: seq<Line> := [l];
    assert StartIndex(lines) == 0;
    assert ResolveFilename(filename, lines) == fname;
    StepFinding(lines, 0, fname, f);
    ScanStep(lines, 0, fname);
  }

  /** The finding of the example below: `3:5  error  Avoid  Vale.Terms`,
      its message wrapped onto a second line `  it.`. */
  const ExampleFinding := Finding(3, 5, "error", ["Avoid"], "Vale.Terms", ["it."])

  lemma ExamplePieces()
    ensures IsPiece("Avoid") && IsWrapped("it.")
  {
  }

  lemma ExampleRule()
    ensures IsPiece("Vale.Terms") && AllWord("error")
  {
  }

  lemma ExampleValid()
    ensures ValidFinding(ExampleFinding)
  {
    ExamplePieces();
    ExampleRule();
  }

  /** The record the example finding should give. */
  lemma ExampleExpected(fname: Option<string>)
    ensures Expected(fname, ExampleFinding) == Issue(fname, 3, 5, "error", "Avoid it.", "Vale.Terms")
  {
    var f := ExampleFinding;
    assert f.message + f.more == ["Avoid", "it."];
    assert JoinWith(" ", ["Avoid", "it."]) == JoinWith(" ", ["Avoid"]) + (" " + "it.");
  }

  /** A report on any Markdown file with the example finding and a summary,
      read back without a file name given: one record, named after the
      file, its message joined across the two lines. */
  lemma ParseReportExample(name: string, summary: string)
    requires IsDocPath(name) && Trimmed(name) && Plain(name)
    requires |summary| > 0 && summary[0] == SummaryMark && Trimmed(summary) && Plain(summary)
    ensures ParseOutput(RenderReport(name, [ExampleFinding], summary), None)
            == [Issue(Some(name), 3, 5, "error", "Avoid it.", "Vale.Terms")]
  {
    ExampleValid();
    ParseReport(name, [ExampleFinding], summary, None);
    assert ExpectedAll(Some(name), [ExampleFinding]) == [Expected(Some(name), ExampleFinding)];
    ExampleExpected(Some(name));
  }

  /** The single finding `3:10  error  Some message  RuleName`. */
  const OneLineFinding := Finding(3, 10, "error", ["Some message"], "RuleName", [])

  lemma MessagePiece()
    ensures IsPiece("Some message")
  {
  }

  lemma RulePiece()
    ensures IsPiece("RuleName")
  {
  }

  lemma OneLineValid()
    ensures ValidFinding(OneLineFinding)
  {
    MessagePiece();
    RulePiece();
  }

  lemma OneLineDigits()
    ensures Decimal(3) == "3" && Decimal(10) == "10"
  {
    assert Decimal(1) == "1";
  }

  lemma OneLineRest()
    ensures HeaderRest(OneLineFinding) == "Some message  RuleName"
  {
    assert ["Some message"] + ["RuleName"] == ["Some message", "RuleName"];
    assert JoinWith("  ", ["Some message", "RuleName"]) == JoinWith("  ", ["Some message"]) + ("  " + "RuleName");
  }

  lemma OneLineLayout()
    ensures Layout("3", "10", "error", "Some message  RuleName") == "3:10  error  Some message  RuleName"
  {
  }

  lemma OneLineText()
    ensures HeaderLine(OneLineFinding) == "3:10  error  Some message  RuleName"
  {
    OneLineDigits();
    OneLineRest();
    OneLineLayout();
  }

  /** The output `3:10  error  Some message  RuleName` alone, no file name
      given: one record with line 3, column 10, severity `error`, message
      `Some message` and rule `RuleName`, and no file name. */
  lemma OneLineExample(stdout: string)
    requires stdout == "3:10  error  Some message  RuleName"
    ensures ParseOutput(stdout, None) == [Issue(None, 3, 10, "error", "Some message", "RuleName")]
  {
    OneLineValid();
    OneLineText();
    assert !IsDocPath(stdout);
    ParseSingle(OneLineFinding, None);
    assert JoinWith(" ", ["Some message"] + []) == "Some message";
  }
}
