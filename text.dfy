/**
 * The Python string operations the linter wrapper relies on, restricted to ASCII:
 * `str.isspace`, `str.strip`, `str.lstrip`-style trimming, `str.split('\n')`,
 * `sep.join(parts)` and `int()` of a run of decimal digits.
 */
module Text {

  /** Python's `str.isspace()` (and the regex class `\s`) on ASCII characters:
      space, tab, line feed, vertical tab, form feed, carriage return (0x09
      to 0x0D) and the separators 0x1C to 0x1F. */
  predicate IsSpace(c: char) {
    c == ' ' || ('\t' <= c <= '\r') || ('\U{1C}' <= c <= '\U{1F}')
  }

  /** The regex class `\d` on ASCII. */
  predicate IsDigit(c: char) {
    '0' <= c <= '9'
  }

  /** The regex class `\w` on ASCII. */
  predicate IsWordChar(c: char) {
    ('a' <= c <= 'z') || ('A' <= c <= 'Z') || IsDigit(c) || c == '_'
  }

  /** The parameter characters of an ANSI control sequence, as the linter's
      pattern admits them: digits and `;`. */
  predicate IsParamChar(c: char) {
    IsDigit(c) || c == ';'
  }

  /** The character classes the greedy scans run over. */
  datatype CharClass = Space | Digit | Word | Param

  predicate InClass(cls: CharClass, c: char) {
    match cls
    case Space => IsSpace(c)
    case Digit => IsDigit(c)
    case Word => IsWordChar(c)
    case Param => IsParamChar(c)
  }

  predicate AllSpace(s: string) {
    forall k :: 0 <= k < |s| ==> IsSpace(s[k])
  }

  predicate AllDigits(s: string) {
    forall k :: 0 <= k < |s| ==> IsDigit(s[k])
  }

  /** One physical line of output: what `str.split('\n')` produces. */
  type Line = s: string | '\n' !in s

  /** Neither end of `s` is whitespace: what `str.strip()` leaves. */
  predicate Trimmed(s: string) {
    |s| == 0 || (!IsSpace(s[0]) && !IsSpace(s[|s| - 1]))
  }

  /** Every piece is non-empty and has no whitespace at either end. */
  predicate AllStripped(parts: seq<string>) {
    forall k :: 0 <= k < |parts| ==> |parts[k]| > 0 && Trimmed(parts[k])
  }

  /** Where the greedy run of class `cls` that starts at position `i` of `s` ends:
      what `[class]*` matches from `i` on. */
  function RunEnd(s: string, i: nat, cls: CharClass): (j: nat)
    requires i <= |s|
    ensures i <= j <= |s|
    ensures j == |s| || !InClass(cls, s[j])
    decreases |s| - i
  {
    if i == |s| || !InClass(cls, s[i]) then i else RunEnd(s, i + 1, cls)
  }

  /** Every character of the run is in the class. */
  lemma {:induction false} RunEndAll(s: string, i: nat, cls: CharClass)
    requires i <= |s|
    ensures forall k :: i <= k < RunEnd(s, i, cls) ==> InClass(cls, s[k])
    decreases |s| - i
  {
    if i < |s| && InClass(cls, s[i]) {
      RunEndAll(s, i + 1, cls);
      assert RunEnd(s, i, cls) == RunEnd(s, i + 1, cls);
      forall k | i <= k < RunEnd(s, i, cls)
        ensures InClass(cls, s[k])
      {
        if k > i {
          assert i + 1 <= k < RunEnd(s, i + 1, cls);
        }
      }
    }
  }

  /** The run ends exactly at the first character outside the class. */
  lemma {:induction false} RunEndOf(s: string, i: nat, j: nat, cls: CharClass)
    requires i <= j <= |s| && (j == |s| || !InClass(cls, s[j]))
    requires forall k :: i <= k < j ==> InClass(cls, s[k])
    ensures RunEnd(s, i, cls) == j
    decreases j - i
  {
    if i < j {
      assert InClass(cls, s[i]);
      RunEndOf(s, i + 1, j, cls);
    }
  }

  /** Where the greedy run of class `cls` that ends at position `j` of `s` starts,
      scanning backwards. */
  function RunStart(s: string, j: nat, cls: CharClass): (i: nat)
    requires j <= |s|
    ensures i <= j
    ensures i == 0 || !InClass(cls, s[i - 1])
    decreases j
  {
    if j == 0 || !InClass(cls, s[j - 1]) then j else RunStart(s, j - 1, cls)
  }

  /** Every character of the backward run is in the class. */
  lemma {:induction false} RunStartAll(s: string, j: nat, cls: CharClass)
    requires j <= |s|
    ensures forall k :: RunStart(s, j, cls) <= k < j ==> InClass(cls, s[k])
    decreases j
  {
    if j > 0 && InClass(cls, s[j - 1]) {
      RunStartAll(s, j - 1, cls);
      assert RunStart(s, j, cls) == RunStart(s, j - 1, cls);
      forall k | RunStart(s, j, cls) <= k < j
        ensures InClass(cls, s[k])
      {
        if k < j - 1 {
          assert RunStart(s, j - 1, cls) <= k < j - 1;
        }
      }
    }
  }

  /** Length of the longest prefix of `s` whose characters are all
      in the class (what a greedy `[class]*` matches at the start of `s`). */
  function Span(s: string, cls: CharClass): (n: nat)
    ensures n <= |s|
    ensures n == |s| || !InClass(cls, s[n])
  {
    RunEnd(s, 0, cls)
  }

  /** Every character of the span is in the class. */
  lemma SpanAll(s: string, cls: CharClass)
    ensures forall k :: 0 <= k < Span(s, cls) ==> InClass(cls, s[k])
  {
    RunEndAll(s, 0, cls);
  }

  /** The span is determined by where `p` first fails. */
  lemma SpanOfConcat(a: string, b: string, cls: CharClass)
    requires forall k :: 0 <= k < |a| ==> InClass(cls, a[k])
    requires |b| == 0 || !InClass(cls, b[0])
    ensures Span(a + b, cls) == |a|
  {
    var s := a + b;
    forall k | 0 <= k < |a|
      ensures InClass(cls, s[k])
    {
      assert s[k] == a[k];
    }
    if |b| > 0 {
      assert s[|a|] == b[0];
    }
    RunEndOf(s, 0, |a|, cls);
  }

  /** Leading whitespace removed (`re.sub(r'^\s+', '', s)`). */
  function TrimStart(s: string): (r: string)
    ensures |r| <= |s|
    ensures |r| == 0 || !IsSpace(r[0])
    ensures '\n' !in s ==> '\n' !in r
    decreases |s|
  {
    if |s| > 0 && IsSpace(s[0]) then TrimStart(s[1..]) else s
  }

  /** Trimming the start of the suffix from `i` on drops exactly the
      whitespace run there. */
  lemma {:induction false} TrimStartRun(s: string, i: nat)
    requires i <= |s|
    ensures TrimStart(s[i..]) == s[RunEnd(s, i, Space)..]
    decreases |s| - i
  {
    if i < |s| && IsSpace(s[i]) {
      assert s[i..][0] == s[i] && s[i..][1..] == s[i + 1..];
      TrimStartRun(s, i + 1);
    } else if i < |s| {
      assert s[i..][0] == s[i];
    }
  }

  /** Leading whitespace is the span of whitespace at the start. */
  lemma TrimStartSpan(s: string)
    ensures TrimStart(s) == s[Span(s, Space)..]
  {
    TrimStartRun(s, 0);
    assert s[0..] == s;
  }

  /** Only whitespace is removed at the start. */
  lemma TrimStartSpace(s: string)
    ensures AllSpace(s[..|s| - |TrimStart(s)|])
  {
    TrimStartSpan(s);
    SpanAll(s, Space);
    assert |s| - |TrimStart(s)| == Span(s, Space);
  }

  /** Trailing whitespace removed (`str.rstrip()`). */
  function TrimEnd(s: string): (r: string)
    ensures |r| <= |s| && r == s[..|r|]
    ensures |r| == 0 || !IsSpace(r[|r| - 1])
  {
    s[..RunStart(s, |s|, Space)]
  }

  /** Only whitespace is removed at the end. */
  lemma TrimEndSpace(s: string)
    ensures AllSpace(s[|TrimEnd(s)|..])
  {
    RunStartAll(s, |s|, Space);
    var n := |TrimEnd(s)|;
    assert n == RunStart(s, |s|, Space);
    forall k | 0 <= k < |s| - n
      ensures IsSpace(s[n..][k])
    {
      assert s[n..][k] == s[n + k];
    }
  }

  /** Python's `str.strip()`: whitespace removed at both ends. */
  function Strip(s: string): (r: string)
    ensures Trimmed(r)
    ensures '\n' !in s ==> '\n' !in r
  {
    TrimEnd(TrimStart(s))
  }

  /** What `strip()` keeps: the slice of `s` that starts after its leading
      whitespace and leaves out only whitespace at the end. */
  lemma StripSlice(s: string)
    ensures var a := Span(s, Space); var r := Strip(s);
            a + |r| <= |s| && r == s[a..a + |r|] && AllSpace(s[a + |r|..])
  {
    var t := TrimStart(s);
    var r := TrimEnd(t);
    TrimStartSpan(s);
    TrimEndSpace(t);
    SuffixTrim(s, Span(s, Space), t, r);
  }

  /** A prefix of the suffix from `a`, followed by whitespace only, is a
      slice of the whole followed by whitespace only. */
  lemma SuffixTrim(s: string, a: nat, t: string, r: string)
    requires a <= |s| && t == s[a..] && |r| <= |t| && r == t[..|r|] && AllSpace(t[|r|..])
    ensures a + |r| <= |s| && r == s[a..a + |r|] && AllSpace(s[a + |r|..])
  {
    assert t[|r|..] == s[a + |r|..];
  }

  /** `s.strip()` is falsy exactly when `s` is all whitespace. */
  lemma StripEmptyIff(s: string)
    ensures Strip(s) == [] <==> AllSpace(s)
  {
    StripSlice(s);
    var r := Strip(s);
    var a := Span(s, Space);
    if r == [] {
      SpanAll(s, Space);
      assert a == |s|;
    } else {
      assert s[a] == r[0];
    }
  }

  /** Text already trimmed is left alone by `strip()`. */
  lemma StripTrimmed(s: string)
    requires Trimmed(s)
    ensures Strip(s) == s
  {
    StripSlice(s);
    var r := Strip(s);
    if |s| > 0 {
      assert Span(s, Space) == 0;
      assert r == s[..|r|];
    }
  }

  /** `strip()` removes an indentation in front of trimmed text. */
  lemma StripIndented(indent: string, t: string)
    requires AllSpace(indent) && Trimmed(t)
    ensures Strip(indent + t) == t
  {
    var s := indent + t;
    if |t| == 0 {
      assert s == indent;
      StripEmptyIff(s);
    } else {
      SpanOfConcat(indent, t, Space);
      StripSlice(s);
      var r := Strip(s);
      var a := |indent|;
      assert r == s[a..a + |r|];
      assert s[a..] == t;
    }
  }

  /** `"\n".join(lines)`. */
  function JoinLines(lines: seq<string>): string
  {
    if |lines| == 0 then "" else if |lines| == 1 then lines[0]
    else lines[0] + "\n" + JoinLines(lines[1..])
  }

  /** `s.split('\n')`: never empty, and joining the pieces gives `s` back. */
  function SplitLines(s: string): (lines: seq<Line>)
    ensures |lines| >= 1
    ensures JoinLines(lines) == s
    decreases |s|
  {
    if |s| == 0 then [""]
    else if s[0] == '\n' then
      var rest := SplitLines(s[1..]);
      assert JoinLines([""] + rest) == "" + "\n" + JoinLines(rest);
      [""] + rest
    else
      var rest := SplitLines(s[1..]);
      var first: Line := [s[0]] + rest[0];
      var lines := [first] + rest[1..];
      assert lines[1..] == rest[1..];
      assert JoinLines(lines) == [s[0]] + JoinLines(rest) by {
        if |rest| > 1 {
          assert JoinLines(rest) == rest[0] + "\n" + JoinLines(rest[1..]);
        }
      }
      assert s == [s[0]] + s[1..];
      lines
  }

  lemma {:induction false} SplitLinesPrefix(a: Line, rest: string)
    ensures SplitLines(a + rest) == [a + SplitLines(rest)[0]] + SplitLines(rest)[1..]
    decreases |a|
  {
    if |a| > 0 {
      assert (a + rest)[0] == a[0];
      assert (a + rest)[1..] == a[1..] + rest;
      var tail: Line := a[1..];
      SplitLinesPrefix(tail, rest);
      assert [a[0]] + (tail + SplitLines(rest)[0]) == a + SplitLines(rest)[0];
    } else {
      var lines := SplitLines(rest);
      assert a + rest == rest;
      assert a + lines[0] == lines[0];
      assert lines == [lines[0]] + lines[1..];
    }
  }

  /** Splitting undoes joining: `"\n".join(ls).split('\n') == ls` when no line
      holds a line feed. */
  lemma {:induction false} SplitJoinLines(lines: seq<Line>)
    requires |lines| >= 1
    ensures SplitLines(JoinLines(lines)) == lines
  {
    if |lines| == 1 {
      SplitLinesPrefix(lines[0], "");
      assert lines[0] + "" == lines[0];
    } else {
      var rest := JoinLines(lines[1..]);
      SplitJoinLines(lines[1..]);
      SplitLinesPrefix(lines[0], "\n" + rest);
      assert ("\n" + rest)[1..] == rest;
      assert SplitLines("\n" + rest) == [""] + SplitLines(rest);
      assert lines[0] + "" == lines[0];
      assert lines == [lines[0]] + lines[1..];
    }
  }

  /** `sep.join(parts)`. */
  function JoinWith(sep: string, parts: seq<string>): string
    decreases |parts|
  {
    if |parts| == 0 then "" else if |parts| == 1 then parts[0]
    else JoinWith(sep, parts[..|parts| - 1]) + (sep + parts[|parts| - 1])
  }

  lemma ConcatAssoc<T>(a: seq<T>, b: seq<T>, c: seq<T>)
    ensures (a + b) + c == a + (b + c)
  {
  }

  /** A joined text starts with the first piece. */
  lemma {:induction false} JoinWithStarts(sep: string, parts: seq<string>)
    requires |parts| >= 1 && |parts[0]| > 0
    ensures |JoinWith(sep, parts)| > 0 && JoinWith(sep, parts)[0] == parts[0][0]
    decreases |parts|
  {
    if |parts| > 1 {
      var init := parts[..|parts| - 1];
      assert init[0] == parts[0];
      JoinWithStarts(sep, init);
    }
  }

  /** A joined text ends with the last piece. */
  lemma JoinWithEnds(sep: string, parts: seq<string>)
    requires |parts| >= 1 && |parts[|parts| - 1]| > 0
    ensures var j := JoinWith(sep, parts); var last := parts[|parts| - 1];
            |j| > 0 && j[|j| - 1] == last[|last| - 1]
  {
  }

  /** Trimmed non-empty pieces joined by any separator give a trimmed
      non-empty text. */
  lemma JoinWithTrimmed(sep: string, parts: seq<string>)
    requires |parts| >= 1
    requires AllStripped(parts)
    ensures |JoinWith(sep, parts)| > 0 && Trimmed(JoinWith(sep, parts))
  {
    JoinWithStarts(sep, parts);
    JoinWithEnds(sep, parts);
  }

  /** Joining one more piece appends the separator and the piece. */
  lemma JoinWithSnoc(sep: string, xs: seq<string>, y: string)
    requires |xs| >= 1
    ensures JoinWith(sep, xs + [y]) == JoinWith(sep, xs) + (sep + y)
  {
    assert (xs + [y])[..|xs|] == xs;
  }

  /** Joining puts the first piece before the separator and the join of the
      others. */
  lemma {:induction false} JoinWithCons(sep: string, parts: seq<string>)
    requires |parts| >= 2
    ensures JoinWith(sep, parts) == parts[0] + (sep + JoinWith(sep, parts[1..]))
    decreases |parts|
  {
    var n := |parts|;
    var init := parts[..n - 1];
    var tail := parts[1..];
    assert tail[..n - 2] == init[1..];
    assert tail[n - 2] == parts[n - 1];
    if n > 2 {
      JoinWithCons(sep, init);
      var mid := JoinWith(sep, init[1..]);
      ConcatAssoc(parts[0], sep + mid, sep + parts[n - 1]);
      ConcatAssoc(sep, mid, sep + parts[n - 1]);
    } else {
      assert init == [parts[0]] && tail == [parts[1]];
    }
  }

  /** Value of a digit character. */
  function DigitValue(c: char): (v: nat)
    ensures v < 10
    ensures IsDigit(c) ==> v == c as int - '0' as int
  {
    if IsDigit(c) then c as int - '0' as int else 0
  }

  function DigitChar(d: nat): (c: char)
    requires d < 10
    ensures IsDigit(c) && DigitValue(c) == d
  {
    (d + '0' as int) as char
  }

  /** Python's `int(s)` on a non-empty run of ASCII digits (leading zeros
      allowed); only ever applied to such runs. */
  function DigitsValue(s: string): nat
    decreases |s|
  {
    if |s| == 0 then 0
    else DigitsValue(s[..|s| - 1]) * 10 + DigitValue(s[|s| - 1])
  }

  /** One more digit at the end multiplies the value by ten and adds it. */
  lemma DigitsSnoc(init: string, d: nat)
    requires AllDigits(init) && d < 10
    ensures AllDigits(init + [DigitChar(d)])
    ensures DigitsValue(init + [DigitChar(d)]) == DigitsValue(init) * 10 + d
  {
    var s := init + [DigitChar(d)];
    assert s[..|s| - 1] == init;
  }

  /** `str(n)`: the decimal numeral, whose value is `n` again. */
  function Decimal(n: nat): (s: string)
    ensures |s| > 0 && AllDigits(s)
    ensures DigitsValue(s) == n
  {
    var init := if n < 10 then "" else Decimal(n / 10);
    DigitsSnoc(init, n % 10);
    init + [DigitChar(n % 10)]
  }
}
