/**
 * The two regular expressions that read one finding header of Vale's
 * terminal output:
 *   `^\s*(\d+):(\d+)\s+(\w+)\s+(.+)$`   the location, severity and the rest,
 *   `re.split(r'\s{2,}', rest)`          the rest cut at runs of two or more
 *                                        whitespace characters.
 * Both are written out as scans over ASCII character classes.
 */
module ValeHeader {
  import opened Wrappers
  import opened Text

  /** The four groups of the header pattern, as the strings they capture. */
  datatype Header = Header(lineDigits: string, colDigits: string, errorType: string, rest: string)

  predicate AllWord(s: string) {
    forall k :: 0 <= k < |s| ==> IsWordChar(s[k])
  }

  /** What the groups `(\d+)`, `(\d+)`, `(\w+)` and `(.+)` can hold. */
  predicate GroupsWellFormed(h: Header) {
    |h.lineDigits| > 0 && AllDigits(h.lineDigits)
    && |h.colDigits| > 0 && AllDigits(h.colDigits)
    && |h.errorType| > 0 && AllWord(h.errorType)
    && |h.rest| > 0
  }

  /** `line` reads `<ws*><line>:<col><ws+><type><ws+><rest>`. */
  ghost predicate HeaderLayout(line: string, h: Header) {
    exists lead: string, gap1: string, gap2: string ::
      AllSpace(lead) && |gap1| > 0 && AllSpace(gap1) && |gap2| > 0 && AllSpace(gap2)
      && line == lead + (h.lineDigits + (":" + (h.colDigits + (gap1 + (h.errorType + (gap2 + h.rest))))))
  }

  lemma DropSplit(s: string, i: nat, j: nat)
    requires i <= j <= |s|
    ensures s[i..] == s[i..j] + s[j..]
  {
  }

  /** The slices at the group boundaries put the line back together. */
  lemma SliceChain(line: string, a: nat, b: nat, c: nat, d: nat, e: nat, q: nat)
    requires a < b && b + 1 < c <= d <= e <= q <= |line| && line[b] == ':'
    ensures line == line[..a] + (line[a..b] + (":" + (line[b + 1..c] + (line[c..d] + (line[d..e] + (line[e..q] + line[q..]))))))
  {
    DropSplit(line, e, q);
    DropSplit(line, d, e);
    DropSplit(line, c, d);
    DropSplit(line, b + 1, c);
    assert line[b..] == ":" + line[b + 1..];
    DropSplit(line, a, b);
    assert line == line[..a] + line[a..];
  }

  /** The groups cut out of a line at run boundaries are well formed. */
  lemma SliceGroups(line: string, a: nat, b: nat, c: nat, d: nat, e: nat, q: nat)
    requires a < b && b + 1 < c <= d < e <= q < |line| && line[b] == ':'
    requires forall k :: a <= k < b ==> InClass(Digit, line[k])
    requires forall k :: b + 1 <= k < c ==> InClass(Digit, line[k])
    requires forall k :: d <= k < e ==> InClass(Word, line[k])
    ensures GroupsWellFormed(Header(line[a..b], line[b + 1..c], line[d..e], line[q..]))
  {
    var h := Header(line[a..b], line[b + 1..c], line[d..e], line[q..]);
    assert AllDigits(h.lineDigits) by {
      forall k | 0 <= k < |h.lineDigits| ensures IsDigit(h.lineDigits[k]) { assert h.lineDigits[k] == line[a + k]; }
    }
    assert AllDigits(h.colDigits) by {
      forall k | 0 <= k < |h.colDigits| ensures IsDigit(h.colDigits[k]) { assert h.colDigits[k] == line[b + 1 + k]; }
    }
    assert AllWord(h.errorType) by {
      forall k | 0 <= k < |h.errorType| ensures IsWordChar(h.errorType[k]) { assert h.errorType[k] == line[d + k]; }
    }
  }

  /** The pieces between run boundaries lay the line out as the pattern reads. */
  lemma SliceLayout(line: string, a: nat, b: nat, c: nat, d: nat, e: nat, q: nat)
    requires a < b && b + 1 < c < d < e < q < |line| && line[b] == ':'
    requires forall k :: 0 <= k < a ==> IsSpace(line[k])
    requires forall k :: c <= k < d ==> IsSpace(line[k])
    requires forall k :: e <= k < q ==> IsSpace(line[k])
    ensures HeaderLayout(line, Header(line[a..b], line[b + 1..c], line[d..e], line[q..]))
  {
    var lead, gap1, gap2 := line[..a], line[c..d], line[e..q];
    SliceChain(line, a, b, c, d, e, q);
    assert AllSpace(lead) by {
      forall k | 0 <= k < |lead| ensures IsSpace(lead[k]) { assert lead[k] == line[k]; }
    }
    assert AllSpace(gap1) by {
      forall k | 0 <= k < |gap1| ensures IsSpace(gap1[k]) { assert gap1[k] == line[c + k]; }
    }
    assert AllSpace(gap2) by {
      forall k | 0 <= k < |gap2| ensures IsSpace(gap2[k]) { assert gap2[k] == line[e + k]; }
    }
  }

  /** Where a match of the header pattern cuts a line: the groups are
      `[a, b)`, `[b + 1, c)`, `[d, e)` and `[q, |line|)`. */
  datatype Cuts = Cuts(a: nat, b: nat, c: nat, d: nat, e: nat, q: nat)

  /** The cut positions of `re.match(r'^\s*(\d+):(\d+)\s+(\w+)\s+(.+)$', line)`
      on a line without a line feed. Every greedy run here is followed by a
      character outside its class, so backtracking cannot shorten it, except
      the last `\s+`: when the whitespace after the severity reaches the end
      of the line, `(.+)` takes back its last character. */
  function HeaderCuts(line: Line): (r: Option<Cuts>)
    ensures r.Some? ==> var k := r.value;
      k.a < k.b && k.b + 1 < k.c < k.d < k.e < k.q < |line| && line[k.b] == ':'
      && (k.q + 1 == |line| || !IsSpace(line[k.q]))
  {
    var a := RunEnd(line, 0, Space);
    var b := RunEnd(line, a, Digit);
    if b == a || b == |line| || line[b] != ':' then None
    else
      var c := RunEnd(line, b + 1, Digit);
      var d := RunEnd(line, c, Space);
      var e := RunEnd(line, d, Word);
      var f := RunEnd(line, e, Space);
      if c == b + 1 || d == c || e == d || f == e || (f == |line| && f - e < 2) then None
      else Some(Cuts(a, b, c, d, e, if f < |line| then f else f - 1))
  }

  /** The header pattern: the location, the severity and the rest, as the
      strings its four groups capture. */
  function MatchHeader(line: Line): (r: Option<Header>)
    ensures r.Some? ==> |r.value.rest| > 0
    ensures r.Some? ==> !IsSpace(r.value.rest[0]) || |r.value.rest| == 1
  {
    match HeaderCuts(line)
    case None => None
    case Some(k) =>
      assert line[k.q..][0] == line[k.q];
      Some(Header(line[k.a..k.b], line[k.b + 1..k.c], line[k.d..k.e], line[k.q..]))
  }

  /** Soundness of the header pattern: the groups hold digits, digits, word
      characters and a non-empty rest, and a match lays the line out as
      `<ws*><line>:<col><ws+><type><ws+><rest>`. */
  lemma MatchHeaderSound(line: Line)
    requires MatchHeader(line).Some?
    ensures GroupsWellFormed(MatchHeader(line).value)
    ensures HeaderLayout(line, MatchHeader(line).value)
  {
    CutsGroups(line);
    CutsLayout(line);
  }

  lemma CutsGroups(line: Line)
    requires HeaderCuts(line).Some?
    ensures var k := HeaderCuts(line).value;
      GroupsWellFormed(Header(line[k.a..k.b], line[k.b + 1..k.c], line[k.d..k.e], line[k.q..]))
  {
    var k := HeaderCuts(line).value;
    CutsRuns(line);
    RunEndAll(line, k.a, Digit);
    RunEndAll(line, k.b + 1, Digit);
    RunEndAll(line, k.d, Word);
    SliceGroups(line, k.a, k.b, k.c, k.d, k.e, k.q);
  }

  lemma CutsLayout(line: Line)
    requires HeaderCuts(line).Some?
    ensures var k := HeaderCuts(line).value;
      HeaderLayout(line, Header(line[k.a..k.b], line[k.b + 1..k.c], line[k.d..k.e], line[k.q..]))
  {
    var k := HeaderCuts(line).value;
    CutsRuns(line);
    RunEndAll(line, 0, Space);
    RunEndAll(line, k.c, Space);
    RunEndAll(line, k.e, Space);
    SliceLayout(line, k.a, k.b, k.c, k.d, k.e, k.q);
  }

  /** The cuts are the ends of the greedy runs. */
  lemma CutsRuns(line: Line)
    requires HeaderCuts(line).Some?
    ensures var k := HeaderCuts(line).value;
      k.a == RunEnd(line, 0, Space) && k.b == RunEnd(line, k.a, Digit) && k.c == RunEnd(line, k.b + 1, Digit)
      && k.d == RunEnd(line, k.c, Space) && k.e == RunEnd(line, k.d, Word) && k.q <= RunEnd(line, k.e, Space)
  {
  }

  /** On a stripped line the rest group is stripped too. */
  lemma HeaderRestTrimmed(line: Line)
    requires Trimmed(line) && MatchHeader(line).Some?
    ensures Trimmed(MatchHeader(line).value.rest)
  {
  }

  /** A run of `p` at position `i`, followed by a character outside `p`,
      ends there, and the slices on both sides of its end are the two pieces. */
  lemma RunPiece(line: string, i: nat, x: string, y: string, cls: CharClass)
    requires i <= |line| && line[i..] == x + y
    requires forall k :: 0 <= k < |x| ==> InClass(cls, x[k])
    requires |y| == 0 || !InClass(cls, y[0])
    ensures var j := RunEnd(line, i, cls);
            j == i + |x| && line[i..j] == x && line[j..] == y
  {
    forall k | i <= k < i + |x|
      ensures InClass(cls, line[k])
    {
      assert line[k] == line[i..][k - i];
    }
    if |y| > 0 {
      assert line[i + |x|] == line[i..][|x|];
    }
    RunEndOf(line, i, i + |x|, cls);
    SplitAtLen(x, y);
  }

  /** Completeness of the header pattern: a line laid out as
      `<ws*><digits>:<digits><ws+><word><ws+><rest>`, with the rest starting
      on a non-space character, is matched, and the groups are exactly those
      pieces. */
  lemma MatchHeaderOf(line: Line, lead: string, h: Header, gap1: string, gap2: string)
    requires GroupsWellFormed(h) && !IsSpace(h.rest[0])
    requires AllSpace(lead) && |gap1| > 0 && AllSpace(gap1) && |gap2| > 0 && AllSpace(gap2)
    requires line == lead + (h.lineDigits + (":" + (h.colDigits + (gap1 + (h.errorType + (gap2 + h.rest))))))
    ensures MatchHeader(line) == Some(h)
  {
    var a, b, c, d, e, f := RunsOf(line, lead, h, gap1, gap2);
    MatchHeaderOfRuns(line, h, a, b, c, d, e, f);
  }

  /** A line whose runs end at `a`..`f` is matched, and the groups are the
      slices between them. */
  lemma MatchHeaderOfRuns(line: Line, h: Header, a: nat, b: nat, c: nat, d: nat, e: nat, f: nat)
    requires a < b < |line| && line[b] == ':' && b + 1 < c < d < e < f < |line|
    requires a == RunEnd(line, 0, Space) && b == RunEnd(line, a, Digit) && c == RunEnd(line, b + 1, Digit)
    requires d == RunEnd(line, c, Space) && e == RunEnd(line, d, Word) && f == RunEnd(line, e, Space)
    requires h == Header(line[a..b], line[b + 1..c], line[d..e], line[f..])
    ensures MatchHeader(line) == Some(h)
  {
    MatchHeaderAt(line, a, b, c, d, e, f);
    MatchHeaderOfCuts(line, Cuts(a, b, c, d, e, f));
  }

  /** Where the runs of a laid-out line end, and the groups between them. */
  lemma RunsOf(line: Line, lead: string, h: Header, gap1: string, gap2: string)
    returns (a: nat, b: nat, c: nat, d: nat, e: nat, f: nat)
    requires GroupsWellFormed(h) && !IsSpace(h.rest[0])
    requires AllSpace(lead) && |gap1| > 0 && AllSpace(gap1) && |gap2| > 0 && AllSpace(gap2)
    requires line == lead + (h.lineDigits + (":" + (h.colDigits + (gap1 + (h.errorType + (gap2 + h.rest))))))
    ensures a < b < |line| && line[b] == ':' && b + 1 < c < d < e < f < |line|
    ensures a == RunEnd(line, 0, Space) && b == RunEnd(line, a, Digit) && c == RunEnd(line, b + 1, Digit)
    ensures d == RunEnd(line, c, Space) && e == RunEnd(line, d, Word) && f == RunEnd(line, e, Space)
    ensures h == Header(line[a..b], line[b + 1..c], line[d..e], line[f..])
  {
    assert line[0..] == line;
    a, b, c := LocationOf(line, lead, h.lineDigits, h.colDigits, gap1 + (h.errorType + (gap2 + h.rest)));
    d, e, f := TailOf(line, c, gap1, h.errorType, gap2, h.rest);
  }

  /** The groups are the slices between the cuts. */
  lemma MatchHeaderOfCuts(line: Line, k: Cuts)
    requires HeaderCuts(line) == Some(k)
    ensures MatchHeader(line) == Some(Header(line[k.a..k.b], line[k.b + 1..k.c], line[k.d..k.e], line[k.q..]))
  {
  }

  /** The match when every run ends before the end of the line. */
  lemma MatchHeaderAt(line: Line, a: nat, b: nat, c: nat, d: nat, e: nat, f: nat)
    requires a < b < |line| && line[b] == ':' && b + 1 < c < d < e < f < |line|
    requires a == RunEnd(line, 0, Space) && b == RunEnd(line, a, Digit) && c == RunEnd(line, b + 1, Digit)
    requires d == RunEnd(line, c, Space) && e == RunEnd(line, d, Word) && f == RunEnd(line, e, Space)
    ensures HeaderCuts(line) == Some(Cuts(a, b, c, d, e, f))
  {
  }

  /** The location groups of a laid-out line: where each run ends. */
  lemma LocationOf(line: string, lead: string, d1: string, d2: string, t: string) returns (a: nat, b: nat, c: nat)
    requires |d1| > 0 && AllDigits(d1) && |d2| > 0 && AllDigits(d2) && AllSpace(lead)
    requires |t| > 0 && IsSpace(t[0])
    requires line[0..] == lead + (d1 + (":" + (d2 + t)))
    ensures a < b && b + 1 < c <= |line| && line[b] == ':'
    ensures a == RunEnd(line, 0, Space) && b == RunEnd(line, a, Digit) && c == RunEnd(line, b + 1, Digit)
    ensures line[a..b] == d1 && line[b + 1..c] == d2 && line[c..] == t
  {
    RunPiece(line, 0, lead, d1 + (":" + (d2 + t)), Space);
    a := RunEnd(line, 0, Space);
    RunPiece(line, a, d1, ":" + (d2 + t), Digit);
    b := RunEnd(line, a, Digit);
    ColonAt(line, b, d2 + t);
    RunPiece(line, b + 1, d2, t, Digit);
    c := RunEnd(line, b + 1, Digit);
  }

  lemma ColonAt(line: string, b: nat, u: string)
    requires b <= |line| && line[b..] == ":" + u
    ensures b < |line| && line[b] == ':' && line[b + 1..] == u
  {
    assert line[b] == line[b..][0];
    assert line[b + 1..] == line[b..][1..];
  }

  /** The severity and rest groups after the location: where each run ends. */
  lemma TailOf(line: string, c: nat, gap1: string, word: string, gap2: string, rest: string) returns (d: nat, e: nat, f: nat)
    requires c <= |line| && |gap1| > 0 && AllSpace(gap1) && |word| > 0 && AllWord(word)
    requires |gap2| > 0 && AllSpace(gap2) && |rest| > 0 && !IsSpace(rest[0])
    requires line[c..] == gap1 + (word + (gap2 + rest))
    ensures c < d < e < f < |line| && line[d..e] == word && line[f..] == rest
    ensures d == RunEnd(line, c, Space) && e == RunEnd(line, d, Word) && f == RunEnd(line, e, Space)
  {
    RunPiece(line, c, gap1, word + (gap2 + rest), Space);
    d := RunEnd(line, c, Space);
    RunPiece(line, d, word, gap2 + rest, Word);
    e := RunEnd(line, d, Word);
    RunPiece(line, e, gap2, rest, Space);
    f := RunEnd(line, e, Space);
  }

  /** No run of two or more whitespace characters inside `s`. */
  predicate NoWideGap(s: string) {
    forall k :: 0 <= k < |s| - 1 ==> !(IsSpace(s[k]) && IsSpace(s[k + 1]))
  }

  /** Where the leftmost match of `\s{2,}` at or after `i` starts in `s`, or
      `|s|` if none. */
  function GapFrom(s: string, i: nat): (k: nat)
    requires i <= |s|
    ensures i <= k <= |s|
    ensures k < |s| ==> k + 1 < |s| && IsSpace(s[k]) && IsSpace(s[k + 1])
    ensures i < k < |s| ==> !IsSpace(s[k - 1])
    decreases |s| - i
  {
    if i + 1 >= |s| then |s|
    else if IsSpace(s[i]) && IsSpace(s[i + 1]) then i
    else GapFrom(s, i + 1)
  }

  /** Where the leftmost match of `\s{2,}` starts in `s`, or `|s|` if none. */
  function FirstGap(s: string): (k: nat)
    ensures k <= |s|
    ensures k < |s| ==> k + 1 < |s| && IsSpace(s[k]) && IsSpace(s[k + 1])
    ensures 0 < k < |s| ==> !IsSpace(s[k - 1])
  {
    GapFrom(s, 0)
  }

  /** No match starts between `i` and the one found. */
  lemma {:induction false} GapFromNoGap(s: string, i: nat)
    requires i <= |s|
    ensures forall k :: i <= k && k + 1 < GapFrom(s, i) ==> !(IsSpace(s[k]) && IsSpace(s[k + 1]))
    decreases |s| - i
  {
    if i + 1 < |s| && !(IsSpace(s[i]) && IsSpace(s[i + 1])) {
      GapFromNoGap(s, i + 1);
    }
  }

  /** The text before the first gap holds no gap. */
  lemma FirstGapNoGap(s: string)
    ensures NoWideGap(s[..FirstGap(s)])
  {
    GapFromNoGap(s, 0);
    var k := FirstGap(s);
    forall j | 0 <= j && j + 1 < k
      ensures !(IsSpace(s[..k][j]) && IsSpace(s[..k][j + 1]))
    {
      assert s[..k][j] == s[j] && s[..k][j + 1] == s[j + 1];
    }
  }

  /** The search passes over positions where no match starts. */
  lemma {:induction false} GapFromSkip(s: string, i: nat, m: nat)
    requires i <= m <= |s|
    requires forall k :: i <= k < m && k + 1 < |s| ==> !(IsSpace(s[k]) && IsSpace(s[k + 1]))
    ensures GapFrom(s, i) == GapFrom(s, m)
    decreases m - i
  {
    if i < m && i + 1 < |s| {
      GapFromSkip(s, i + 1, m);
    }
  }

  /** The search in `p + t` from inside `t` is the search in `t`, shifted. */
  lemma {:induction false} GapFromShift(p: string, t: string, j: nat)
    requires j <= |t|
    ensures GapFrom(p + t, |p| + j) == |p| + GapFrom(t, j)
    decreases |t| - j
  {
    var s := p + t;
    if j + 1 < |t| {
      assert s[|p| + j] == t[j] && s[|p| + j + 1] == t[j + 1];
      if !(IsSpace(t[j]) && IsSpace(t[j + 1])) {
        GapFromShift(p, t, j + 1);
      }
    }
  }

  /** Where the text after the first gap starts: the greedy `\s{2,}` takes
      the whole whitespace run. */
  function GapEnd(s: string): (j: nat)
    ensures j <= |s|
    ensures FirstGap(s) < |s| ==> FirstGap(s) + 2 <= j
    ensures FirstGap(s) < |s| ==> j == |s| || !IsSpace(s[j])
    ensures FirstGap(s) < |s| ==> forall t :: FirstGap(s) <= t < j ==> IsSpace(s[t])
  {
    var k := FirstGap(s);
    if k == |s| then k
    else
      assert RunEnd(s, k, Space) == RunEnd(s, k + 1, Space);
      RunEndAll(s, k, Space);
      RunEnd(s, k, Space)
  }

  /** `re.split(r'\s{2,}', s)`: cut at the leftmost run of two or more
      whitespace characters, then go on after it. */
  function SplitWide(s: string): (parts: seq<string>)
    ensures |parts| >= 1
    decreases |s|
  {
    var k := FirstGap(s);
    if k == |s| then [s] else [s[..k]] + SplitWide(s[GapEnd(s)..])
  }

  /** No piece holds a run of two or more whitespace characters. */
  lemma {:induction false} SplitWideNoGap(s: string)
    ensures forall k :: 0 <= k < |SplitWide(s)| ==> NoWideGap(SplitWide(s)[k])
    decreases |s|
  {
    var k := FirstGap(s);
    FirstGapNoGap(s);
    if k < |s| {
      var t := s[GapEnd(s)..];
      SplitWideNoGap(t);
      assert SplitWide(s) == [s[..k]] + SplitWide(t);
    }
  }

  /** Cutting a trimmed text at its first wide gap leaves a trimmed head
      and a trimmed, non-empty remainder. */
  lemma GapPieces(s: string)
    requires |s| > 0 && Trimmed(s) && FirstGap(s) < |s|
    ensures var k := FirstGap(s); var t := s[GapEnd(s)..];
      0 < k && Trimmed(s[..k]) && |t| > 0 && Trimmed(t)
  {
    var k := FirstGap(s);
    var g := GapEnd(s);
    assert s[..k][k - 1] == s[k - 1];
    assert g < |s| by {
      RunEndAll(s, k, Space);
    }
    var t := s[g..];
    assert t[0] == s[g];
    assert t[|t| - 1] == s[|s| - 1];
  }

  /** The pieces of text without leading or trailing whitespace are non-empty
      and trimmed themselves. */
  lemma {:induction false} SplitWideTrimmed(s: string)
    requires |s| > 0 && Trimmed(s)
    ensures AllStripped(SplitWide(s))
    decreases |s|
  {
    var k := FirstGap(s);
    if k < |s| {
      GapPieces(s);
      var t := s[GapEnd(s)..];
      SplitWideTrimmed(t);
      assert SplitWide(s) == [s[..k]] + SplitWide(t);
    }
  }

  /** Cutting undoes joining: pieces that are non-empty, trimmed and free of
      wide gaps, joined by a run of at least two whitespace characters, split
      back into the same pieces. */
  lemma {:induction false} SplitWideJoin(sep: string, parts: seq<string>)
    requires |sep| >= 2 && AllSpace(sep) && |parts| >= 1
    requires forall k :: 0 <= k < |parts| ==> |parts[k]| > 0 && Trimmed(parts[k]) && NoWideGap(parts[k])
    ensures SplitWide(JoinWith(sep, parts)) == parts
  {
    if |parts| == 1 {
      NoGapFirstGap(parts[0], "");
      assert parts[0] + "" == parts[0];
    } else {
      SplitWideJoin(sep, parts[1..]);
      JoinWithCons(sep, parts);
      JoinWithStarts(sep, parts[1..]);
      SplitWideCons(parts[0], sep, JoinWith(sep, parts[1..]));
      assert parts == [parts[0]] + parts[1..];
    }
  }

  /** One step of the split: a gap-free trimmed head, a separator run and a
      remainder starting on a non-space character. */
  lemma SplitWideCons(p: string, sep: string, rest: string)
    requires |p| > 0 && Trimmed(p) && NoWideGap(p)
    requires |sep| >= 2 && AllSpace(sep) && |rest| > 0 && !IsSpace(rest[0])
    ensures SplitWide(p + (sep + rest)) == [p] + SplitWide(rest)
  {
    ConsGap(p, sep, rest);
    SplitAtLen(p, sep + rest);
    SuffixOfSuffix(p, sep, rest);
    SplitWideStep(p + (sep + rest), p, rest);
  }

  /** Where the first gap of `p + (sep + rest)` starts and ends: it is `sep`. */
  lemma ConsGap(p: string, sep: string, rest: string)
    requires |p| > 0 && Trimmed(p) && NoWideGap(p)
    requires |sep| >= 2 && AllSpace(sep) && |rest| > 0 && !IsSpace(rest[0])
    ensures FirstGap(p + (sep + rest)) == |p|
    ensures GapEnd(p + (sep + rest)) == |p| + |sep|
  {
    var s := p + (sep + rest);
    NoGapFirstGap(p, sep + rest);
    assert FirstGap(sep + rest) == 0;
    forall j | |p| <= j < |p| + |sep|
      ensures IsSpace(s[j])
    {
      assert s[j] == sep[j - |p|];
    }
    assert s[|p| + |sep|] == rest[0];
    GapEndAt(s, |p| + |sep|);
  }

  /** One step of the split, at a gap. */
  lemma SplitWideStep(s: string, head: string, tail: string)
    requires FirstGap(s) < |s| && s[..FirstGap(s)] == head && s[GapEnd(s)..] == tail
    ensures SplitWide(s) == [head] + SplitWide(tail)
  {
  }

  /** The gap ends at the first non-space character after its start. */
  lemma GapEndAt(s: string, e: nat)
    requires FirstGap(s) <= e < |s| && !IsSpace(s[e])
    requires forall t :: FirstGap(s) <= t < e ==> IsSpace(s[t])
    ensures GapEnd(s) == e
  {
  }

  lemma SuffixOfSuffix(a: string, b: string, c: string)
    ensures (a + (b + c))[|a| + |b|..] == c
  {
  }

  lemma SplitAtLen(a: string, b: string)
    ensures (a + b)[..|a|] == a && (a + b)[|a|..] == b
  {
  }

  /** A gap-free piece ending on a non-space character holds no match. */
  lemma NoGapFirstGap(p: string, t: string)
    requires |p| > 0 && NoWideGap(p) && !IsSpace(p[|p| - 1])
    ensures FirstGap(p + t) == |p| + FirstGap(t)
  {
    var s := p + t;
    forall k | 0 <= k < |p| && k + 1 < |s|
      ensures !(IsSpace(s[k]) && IsSpace(s[k + 1]))
    {
      assert s[k] == p[k];
      if k + 1 < |p| {
        assert s[k + 1] == p[k + 1];
      }
    }
    GapFromSkip(s, 0, |p|);
    GapFromShift(p, t, 0);
    assert |p| + 0 == |p|;
  }
}
