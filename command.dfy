/**
 * The only escaping the runner performs before handing a path to the shell:
 * `re.sub(r'[()]', lambda m: f'\\{m.group(0)}', path)`, and the command line
 * `f"{command} {path}"` built from it. The path is appended, not substituted
 * into a placeholder.
 */
module ShellCommand {

  const Backslash: char := '\\'

  predicate IsParen(c: char) {
    c == '(' || c == ')'
  }

  /** Number of parentheses in `s`. */
  function ParenCount(s: string): nat {
    if |s| == 0 then 0 else (if IsParen(s[0]) then 1 else 0) + ParenCount(s[1..])
  }

  /** One character escaped: a parenthesis gains a backslash before it. */
  function EscapeChar(c: char): (r: string)
    ensures 1 <= |r| <= 2 && r[|r| - 1] == c && (|r| == 2 <==> IsParen(c))
    ensures |r| == 2 ==> r[0] == Backslash
  {
    if IsParen(c) then [Backslash, c] else [c]
  }

  /** Each `(` and `)` gains one preceding backslash; nothing else changes. */
  function EscapeParens(path: string): (r: string)
    ensures |r| == |path| + ParenCount(path)
    ensures |r| > 0 ==> !IsParen(r[0])
  {
    if |path| == 0 then "" else EscapeChar(path[0]) + EscapeParens(path[1..])
  }

  /** Every parenthesis in `r` comes right after a backslash. */
  predicate ParensMarked(r: string) {
    forall k :: 0 <= k < |r| && IsParen(r[k]) ==> k > 0 && r[k - 1] == Backslash
  }

  /** Every parenthesis of the escaped path comes right after a backslash. */
  lemma {:induction false} EscapeMarks(path: string)
    ensures ParensMarked(EscapeParens(path))
  {
    if |path| > 0 {
      EscapeMarks(path[1..]);
      var head := EscapeChar(path[0]);
      var rest := EscapeParens(path[1..]);
      var r := EscapeParens(path);
      assert r == head + rest;
      var off := |head|;
      forall k | 0 <= k < |r| && IsParen(r[k])
        ensures k > 0 && r[k - 1] == Backslash
      {
        if k > off {
          assert r[k] == rest[k - off] && r[k - 1] == rest[k - off - 1];
        } else if k == off {
          // the escaped rest starts with no parenthesis
          assert false;
        } else {
          assert k != 0 && r[0] == head[0];
        }
      }
    }
  }

  /** Reads an escaped path back: a backslash directly before a parenthesis
      is dropped, everything else is copied. */
  function UnescapeParens(s: string): string
    decreases |s|
  {
    if |s| == 0 then ""
    else if |s| >= 2 && s[0] == Backslash && IsParen(s[1]) then [s[1]] + UnescapeParens(s[2..])
    else [s[0]] + UnescapeParens(s[1..])
  }

  /** One escaped character, followed by text that does not start with a
      parenthesis, reads back as that character. */
  lemma UnescapeChar(c: char, rest: string)
    requires |rest| == 0 || !IsParen(rest[0])
    ensures UnescapeParens(EscapeChar(c) + rest) == [c] + UnescapeParens(rest)
  {
    var r := EscapeChar(c) + rest;
    if IsParen(c) {
      assert r[2..] == rest;
    } else {
      // an original backslash is never read as an escape: what follows it
      // in the output is not a parenthesis
      assert r[1..] == rest;
    }
  }

  /** The escaped path determines the original one. */
  lemma {:induction false} UnescapeEscape(path: string)
    ensures UnescapeParens(EscapeParens(path)) == path
  {
    if |path| > 0 {
      UnescapeChar(path[0], EscapeParens(path[1..]));
      UnescapeEscape(path[1..]);
      assert path == [path[0]] + path[1..];
    }
  }

  /** Escaping works character by character. */
  lemma {:induction false} EscapeConcat(a: string, b: string)
    ensures EscapeParens(a + b) == EscapeParens(a) + EscapeParens(b)
  {
    if |a| > 0 {
      assert (a + b)[0] == a[0];
      assert (a + b)[1..] == a[1..] + b;
      EscapeConcat(a[1..], b);
    } else {
      assert a + b == b;
    }
  }

  /** A path without parentheses is passed through verbatim. */
  lemma {:induction false} EscapeNoParens(path: string)
    requires ParenCount(path) == 0
    ensures EscapeParens(path) == path
  {
    if |path| > 0 {
      EscapeNoParens(path[1..]);
      assert path == [path[0]] + path[1..];
    }
  }

  /** `f"{command} {escaped}"`. */
  function CommandLine(command: string, path: string): (line: string)
    ensures |line| == |command| + 1 + |path| + ParenCount(path)
    ensures line[..|command| + 1] == command + " "
    ensures UnescapeParens(line[|command| + 1..]) == path
  {
    var line := command + " " + EscapeParens(path);
    assert line[|command| + 1..] == EscapeParens(path);
    UnescapeEscape(path);
    line
  }
}
