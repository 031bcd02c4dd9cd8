/**
 * What the scan of `parse_vale_output` guarantees: which lines yield a
 * record and what the record holds, how far the cursor moves, the order and
 * number of the records, the file name they carry, and the empty report.
 */
module ParserProperties {
  import opened Wrappers
  import opened Text
  import opened ValeHeader
  import opened ValeParser

  /** Stripped text keeps no leading whitespace to remove. */
  lemma TrimStartTrimmed(s: string)
    requires Trimmed(s)
    ensures TrimStart(s) == s
  {
    if |s| > 0 {
      assert Span(s, Space) == 0;
    }
  }

  /** Absorbing lines that are non-blank once stripped appends each of them,
      stripped, after one space: the message is the space-join of the head's
      pieces followed by those lines. */
  lemma {:induction false} AbsorbJoins(parts: seq<string>, lines: seq<Line>, j: nat, e: nat)
    requires |parts| >= 1 && j <= e <= |lines|
    requires forall k :: j <= k < e ==> |Strip(lines[k])| > 0
    ensures Absorb(JoinWith(" ", parts), lines, j, e) == JoinWith(" ", parts + ContinuationLines(lines, j, e))
    decreases e - j
  {
    if e == j {
      assert parts + ContinuationLines(lines, j, e) == parts;
    } else {
      var c := Strip(lines[e - 1]);
      AbsorbJoins(parts, lines, j, e - 1);
      ContinuationLinesSnoc(lines, j, e);
      JoinOneMore(parts, ContinuationLines(lines, j, e - 1), c);
    }
  }

  /** The continuation lines up to `e` are those up to `e - 1` and one more. */
  lemma ContinuationLinesSnoc(lines: seq<Line>, j: nat, e: nat)
    requires j < e <= |lines|
    ensures ContinuationLines(lines, j, e) == ContinuationLines(lines, j, e - 1) + [Strip(lines[e - 1])]
  {
  }

  /** One more stripped non-blank piece joins after a space. */
  lemma JoinOneMore(parts: seq<string>, init: seq<string>, c: string)
    requires |parts| >= 1 && |c| > 0 && Trimmed(c)
    ensures JoinWith(" ", parts + init) + (" " + TrimStart(c)) == JoinWith(" ", parts + (init + [c]))
    ensures |TrimStart(c)| > 0
  {
    TrimStartTrimmed(c);
    ConcatAssoc(parts, init, [c]);
    JoinWithSnoc(" ", parts + init, c);
  }

  /** The lines the lookahead passes over, stripped, are non-blank and
      trimmed. */
  lemma ContinuationLinesNonBlank(lines: seq<Line>, j: nat)
    requires j <= |lines|
    ensures AllStripped(ContinuationLines(lines, j, ContinuationEnd(lines, j)))
  {
    ContinuationEndAll(lines, j);
    var cs := ContinuationLines(lines, j, ContinuationEnd(lines, j));
    forall k | 0 <= k < |cs|
      ensures |cs[k]| > 0 && Trimmed(cs[k])
    {
      assert IsContinuation(lines[j + k]);
    }
  }

  /** A line yields a record exactly when, stripped, it is neither blank nor
      a summary and it is a header whose rest has at least two pieces;
      otherwise the cursor moves by one. */
  lemma StepYields(lines: seq<Line>, i: nat, fname: Option<string>)
    requires i < |lines|
    ensures StepAt(lines, i, fname).issue.Some? <==> !Skippable(lines[i]) && ParseHeading(lines[i]).Some?
    ensures StepAt(lines, i, fname).issue.None? ==> StepAt(lines, i, fname).next == i + 1
  {
  }

  /** The message of a record: the pieces of the header before the check
      name, then the continuation lines up to the first line that is not
      one, all stripped and joined by single spaces. */
  lemma MessageJoins(parts: seq<string>, lines: seq<Line>, j: nat)
    requires |parts| >= 2 && j <= |lines|
    requires AllStripped(parts)
    ensures var e := ContinuationEnd(lines, j);
            Strip(Absorb(Strip(JoinWith(" ", parts[..|parts| - 1])), lines, j, e))
            == JoinWith(" ", parts[..|parts| - 1] + ContinuationLines(lines, j, e))
  {
    var cs := ContinuationLines(lines, j, ContinuationEnd(lines, j));
    ContinuationLinesNonBlank(lines, j);
    var init := parts[..|parts| - 1];
    JoinWithTrimmed(" ", init);
    StripTrimmed(JoinWith(" ", init));
    ContinuationEndAll(lines, j);
    AbsorbJoins(init, lines, j, ContinuationEnd(lines, j));
    var all := init + cs;
    JoinWithTrimmed(" ", all);
    StripTrimmed(JoinWith(" ", all));
  }

  /** What the record of a heading at `i` holds: the file name of the scan,
      the line and column numbers and the severity word of the header, its
      last piece as the check name, and as the message its other pieces
      followed by the continuation lines, all stripped and joined by single
      spaces. */
  lemma RecordFields(lines: seq<Line>, i: nat, fname: Option<string>, hd: Heading)
    requires i < |lines| && |hd.parts| >= 2
    requires AllStripped(hd.parts)
    ensures var r := Record(lines, i, fname, hd);
            var parts := hd.parts;
            var e := ContinuationEnd(lines, i + 1);
            r.filename == fname
            && r.line == DigitsValue(hd.header.lineDigits) && r.col == DigitsValue(hd.header.colDigits)
            && r.errorType == hd.header.errorType
            && r.checkName == parts[|parts| - 1]
            && r.message == JoinWith(" ", parts[..|parts| - 1] + ContinuationLines(lines, i + 1, e))
  {
    StripTrimmed(hd.parts[|hd.parts| - 1]);
    MessageJoins(hd.parts, lines, i + 1);
  }

  /** A heading holds the groups of the stripped line and the pieces of its
      rest, each non-empty and stripped. */
  lemma HeadingFacts(raw: Line, hd: Heading)
    requires ParseHeading(raw) == Some(hd)
    ensures MatchHeader(Strip(raw)) == Some(hd.header) && hd.parts == SplitWide(hd.header.rest)
    ensures |hd.parts| >= 2 && GroupsWellFormed(hd.header)
    ensures AllStripped(hd.parts)
  {
    MatchHeaderSound(Strip(raw));
    HeaderRestTrimmed(Strip(raw));
    SplitWideTrimmed(hd.header.rest);
  }

  /** A record carries the file name of its scan. */
  lemma StepFilename(lines: seq<Line>, i: nat, fname: Option<string>)
    requires i < |lines| && StepAt(lines, i, fname).issue.Some?
    ensures StepAt(lines, i, fname).issue.value.filename == fname
  {
    StepYields(lines, i, fname);
    StepAtHeading(lines, i, fname, ParseHeading(lines[i]).value);
  }

  /** The records found from `i` on are at most the lines left. */
  lemma {:induction false} ScanLength(lines: seq<Line>, i: nat, fname: Option<string>)
    requires i <= |lines|
    ensures |Scan(lines, i, fname)| <= |lines| - i
    decreases |lines| - i
  {
    if i < |lines| {
      ScanLength(lines, StepAt(lines, i, fname).next, fname);
    }
  }

  /** One turn of the scan: the record of the cursor's line, if any, then the
      records found after it. */
  lemma ScanStep(lines: seq<Line>, i: nat, fname: Option<string>)
    requires i < |lines|
    ensures var st := StepAt(lines, i, fname);
            Scan(lines, i, fname) == (if st.issue.Some? then [st.issue.value] else []) + Scan(lines, st.next, fname)
  {
    var st := StepAt(lines, i, fname);
    if st.issue.None? {
      assert [] + Scan(lines, st.next, fname) == Scan(lines, st.next, fname);
    }
  }

  /** Every record carries the file name `fname`. */
  predicate AllNamed(rs: seq<Issue>, fname: Option<string>) {
    forall k :: 0 <= k < |rs| ==> rs[k].filename == fname
  }

  lemma AllNamedConcat(a: seq<Issue>, b: seq<Issue>, fname: Option<string>)
    requires AllNamed(a, fname) && AllNamed(b, fname)
    ensures AllNamed(a + b, fname)
  {
  }

  /** Every record of a scan carries the scan's file name. */
  lemma {:induction false} ScanFilename(lines: seq<Line>, i: nat, fname: Option<string>)
    requires i <= |lines|
    ensures AllNamed(Scan(lines, i, fname), fname)
    decreases |lines| - i
  {
    if i < |lines| {
      var st := StepAt(lines, i, fname);
      ScanFilename(lines, st.next, fname);
      ScanStep(lines, i, fname);
      if st.issue.Some? {
        StepFilename(lines, i, fname);
      }
      AllNamedConcat(if st.issue.Some? then [st.issue.value] else [], Scan(lines, st.next, fname), fname);
    }
  }

  /** The lines that yield the records of a scan, in the order the cursor
      reaches them. */
  function HeaderLines(lines: seq<Line>, i: nat, fname: Option<string>): seq<nat>
    requires i <= |lines|
    decreases |lines| - i
  {
    if i == |lines| then []
    else
      var st := StepAt(lines, i, fname);
      if st.issue.Some? then [i] + HeaderLines(lines, st.next, fname)
      else HeaderLines(lines, st.next, fname)
  }

  lemma HeaderLinesStep(lines: seq<Line>, i: nat, fname: Option<string>)
    requires i < |lines|
    ensures var st := StepAt(lines, i, fname);
            HeaderLines(lines, i, fname) == (if st.issue.Some? then [i] else []) + HeaderLines(lines, st.next, fname)
  {
    var st := StepAt(lines, i, fname);
    if st.issue.None? {
      assert [] + HeaderLines(lines, st.next, fname) == HeaderLines(lines, st.next, fname);
    }
  }

  /** Every position lies in `lo..hi`. */
  predicate AllWithin(hs: seq<nat>, lo: nat, hi: nat) {
    forall k :: 0 <= k < |hs| ==> lo <= hs[k] < hi
  }

  predicate Increasing(hs: seq<nat>) {
    forall a, b :: 0 <= a < b < |hs| ==> hs[a] < hs[b]
  }

  /** The records the lines at the positions `hs` yield, in that order. */
  function RecordsAt(lines: seq<Line>, fname: Option<string>, hs: seq<nat>): seq<Issue>
    requires AllWithin(hs, 0, |lines|)
    decreases |hs|
  {
    if |hs| == 0 then []
    else
      var own := match StepAt(lines, hs[0], fname).issue case Some(r) => [r] case None => [];
      own + RecordsAt(lines, fname, hs[1..])
  }

  lemma IncreasingCons(i: nat, hs: seq<nat>, lo: nat, hi: nat)
    requires i < lo && AllWithin(hs, lo, hi) && Increasing(hs)
    ensures Increasing([i] + hs)
  {
    var hs' := [i] + hs;
    forall a, b | 0 <= a < b < |hs'|
      ensures hs'[a] < hs'[b]
    {
      assert hs'[b] == hs[b - 1];
      if a > 0 { assert hs'[a] == hs[a - 1]; }
    }
  }

  lemma AllWithinCons(i: nat, hs: seq<nat>, lo: nat, hi: nat)
    requires i < lo && i < hi && AllWithin(hs, lo, hi)
    ensures AllWithin([i] + hs, i, hi)
  {
    var hs' := [i] + hs;
    forall k | 0 <= k < |hs'|
      ensures i <= hs'[k] < hi
    {
      if k > 0 { assert hs'[k] == hs[k - 1]; }
    }
  }

  /** Records come in the order of their header lines: the records of a
      scan are what its header lines yield, one each, and the header lines
      strictly increase from the cursor on. */
  lemma {:induction false} ScanOrder(lines: seq<Line>, i: nat, fname: Option<string>)
    requires i <= |lines|
    ensures var hs := HeaderLines(lines, i, fname);
            AllWithin(hs, i, |lines|) && Increasing(hs)
            && |hs| == |Scan(lines, i, fname)|
            && Scan(lines, i, fname) == RecordsAt(lines, fname, hs)
    decreases |lines| - i
  {
    if i < |lines| {
      var st := StepAt(lines, i, fname);
      ScanOrder(lines, st.next, fname);
      ScanStep(lines, i, fname);
      HeaderLinesStep(lines, i, fname);
      var hs := HeaderLines(lines, st.next, fname);
      if st.issue.Some? {
        IncreasingCons(i, hs, st.next, |lines|);
        AllWithinCons(i, hs, st.next, |lines|);
        assert ([i] + hs)[1..] == hs;
      } else {
        assert [] + hs == hs;
        assert AllWithin(hs, i, |lines|);
      }
    }
  }

  /** Every record of a report carries the same file name: the one given,
      or, when none or an empty one is given, the stripped first line if it
      names a Markdown file. */
  lemma ParseOutputFilename(stdout: string, filename: Option<string>)
    ensures var lines := OutputLines(stdout); var rs := ParseOutput(stdout, filename);
            AllNamed(rs, ResolveFilename(filename, lines))
  {
    var lines := OutputLines(stdout);
    ScanFilename(lines, StartIndex(lines), ResolveFilename(filename, lines));
  }

  /** Empty or all-whitespace output holds no record. */
  lemma EmptyOutput(stdout: string, filename: Option<string>)
    requires AllSpace(stdout)
    ensures ParseOutput(stdout, filename) == []
  {
    StripEmptyIff(stdout);
    assert SplitLines(Strip(stdout)) == [""];
    var lines := OutputLines(stdout);
    assert lines == [""];
    var fname := ResolveFilename(filename, lines);
    assert Skippable(lines[0]) by { StripEmptyIff(""); }
    assert StepAt(lines, 0, fname) == Step(None, 1);
    assert Scan(lines, 1, fname) == [];
    assert Scan(lines, 0, fname) == [];
  }

  /** The quirk of the lookahead: it tests the raw line, so an indented line
      is absorbed into the message before it even when, stripped, it is a
      header of its own. */
  lemma IndentedHeaderAbsorbed(lines: seq<Line>, i: nat, fname: Option<string>, indent: string, h: string)
    requires i + 1 < |lines| && StepAt(lines, i, fname).issue.Some?
    requires |indent| > 0 && AllSpace(indent) && |h| > 0 && Trimmed(h)
    requires lines[i + 1] == indent + h
    ensures StepAt(lines, i, fname).next > i + 1
    ensures Strip(lines[i + 1]) == h
  {
    StepNext(lines, i, fname);
    IndentedContinues(indent, h);
  }

  /** A record moves the cursor to the end of its lookahead. */
  lemma StepNext(lines: seq<Line>, i: nat, fname: Option<string>)
    requires i < |lines| && StepAt(lines, i, fname).issue.Some?
    ensures StepAt(lines, i, fname).next == ContinuationEnd(lines, i + 1)
  {
  }

  /** An indented non-blank line continues a message, whatever it holds. */
  lemma IndentedContinues(indent: string, h: string)
    requires |indent| > 0 && AllSpace(indent) && |h| > 0 && Trimmed(h)
    ensures IsContinuation(indent + h) && Strip(indent + h) == h
  {
    StripIndented(indent, h);
    assert !IsDigit((indent + h)[0]);
  }

  /** The lookahead from `a` stops at `b` when every line in between
      continues the message and line `b` does not (or there is none). */
  lemma {:induction false} ContinuationEndOf(lines: seq<Line>, a: nat, b: nat)
    requires a <= b <= |lines|
    requires forall k :: a <= k < b ==> IsContinuation(lines[k])
    requires b == |lines| || !IsContinuation(lines[b])
    ensures ContinuationEnd(lines, a) == b
    decreases b - a
  {
    if a < b {
      ContinuationEndOf(lines, a + 1, b);
    }
  }

  /** A line that starts with a location ends the message before it. */
  lemma LocationEndsMessage(lines: seq<Line>, i: nat, fname: Option<string>)
    requires i + 1 < |lines| && StepAt(lines, i, fname).issue.Some?
    requires StartsWithLocation(lines[i + 1])
    ensures StepAt(lines, i, fname).next == i + 1
  {
  }
}
