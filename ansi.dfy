/**
 * `strip_ansi_codes`: a left-to-right, non-overlapping removal of the CSI
 * sequences ESC `[` (digits or `;`)* letter, the subset of the control
 * sequences of section 5.4 of ECMA-48 that terminals use for colour.
 */
module Ansi {
  import opened Text

  const Esc: char := '\U{1B}'

  /** The final byte class `[a-zA-Z]`. */
  predicate IsAsciiLetter(c: char) {
    ('a' <= c <= 'z') || ('A' <= c <= 'Z')
  }

  /** Length of the escape sequence the pattern matches at the start of `s`,
      or 0 when it does not match there. The parameter run is greedy and a
      shorter run would leave a parameter character where the letter must be,
      so backtracking cannot find another match. */
  function CsiLength(s: string): (n: nat)
    ensures n == 0 || (3 <= n <= |s| && s[0] == Esc && s[1] == '['
                       && (forall k :: 2 <= k < n - 1 ==> IsParamChar(s[k]))
                       && IsAsciiLetter(s[n - 1]))
  {
    if |s| >= 2 && s[0] == Esc && s[1] == '[' then
      var k := RunEnd(s, 2, Param);
      RunEndAll(s, 2, Param);
      if k < |s| && IsAsciiLetter(s[k]) then k + 1 else 0
    else 0
  }

  /** `ansi_pattern.sub('', s)`: each match is removed, the scan resumes after
      it, and every other character is copied in order. */
  function StripAnsi(s: string): (r: string)
    ensures |r| <= |s|
    ensures forall c :: c in r ==> c in s
    decreases |s|
  {
    if |s| == 0 then ""
    else
      var n := CsiLength(s);
      if n > 0 then StripAnsi(s[n..]) else [s[0]] + StripAnsi(s[1..])
  }

  /** A piece of terminal output: plain text, or one colour/control sequence
      ESC `[` params final. */
  datatype Piece = Text(text: string) | Csi(params: string, final: char)

  predicate WellFormed(p: Piece) {
    match p
    case Text(t) => true
    case Csi(params, final) =>
      (forall k :: 0 <= k < |params| ==> IsParamChar(params[k])) && IsAsciiLetter(final)
  }

  /** The characters a piece stands for on the wire. */
  function PieceChars(p: Piece): string {
    match p
    case Text(t) => t
    case Csi(params, final) => [Esc, '['] + params + [final]
  }

  function Render(ps: seq<Piece>): string {
    if |ps| == 0 then "" else PieceChars(ps[0]) + Render(ps[1..])
  }

  /** The text pieces only, in order. */
  function PlainText(ps: seq<Piece>): string {
    if |ps| == 0 then ""
    else (if ps[0].Text? then ps[0].text else "") + PlainText(ps[1..])
  }

  /** How the pattern cuts `s`: a sequence that matched, or one character
      copied through. */
  function Tokens(s: string): (ps: seq<Piece>)
    ensures forall k :: 0 <= k < |ps| ==> WellFormed(ps[k]) && (ps[k].Text? ==> |ps[k].text| == 1)
    decreases |s|
  {
    if |s| == 0 then []
    else
      var n := CsiLength(s);
      if n > 0 then [Csi(s[2..n - 1], s[n - 1])] + Tokens(s[n..])
      else [Text([s[0]])] + Tokens(s[1..])
  }

  /** A character that does not start a sequence is copied. */
  lemma StripAnsiCopies(s: string)
    requires |s| > 0 && CsiLength(s) == 0
    ensures StripAnsi(s) == [s[0]] + StripAnsi(s[1..])
  {
  }

  /** A sequence at the front is dropped. */
  lemma StripAnsiDrops(s: string)
    requires CsiLength(s) > 0
    ensures StripAnsi(s) == StripAnsi(s[CsiLength(s)..])
  {
  }

  /** The characters of a matched sequence, read back from its parts. */
  lemma CsiChars(s: string, n: nat)
    requires 3 <= n <= |s| && s[0] == Esc && s[1] == '['
    ensures PieceChars(Csi(s[2..n - 1], s[n - 1])) == s[..n]
  {
    assert s[..n] == [s[0], s[1]] + s[2..n - 1] + [s[n - 1]];
  }

  /** The tokens cover the input: `s` is their concatenation. */
  lemma {:induction false} TokensCover(s: string)
    ensures Render(Tokens(s)) == s
    decreases |s|
  {
    if |s| > 0 {
      var n := CsiLength(s);
      if n > 0 {
        TokensCover(s[n..]);
        CoverCsi(s);
      } else {
        TokensCover(s[1..]);
        CoverChar(s);
      }
    }
  }

  lemma CoverCsi(s: string)
    requires CsiLength(s) > 0
    requires Render(Tokens(s[CsiLength(s)..])) == s[CsiLength(s)..]
    ensures Render(Tokens(s)) == s
  {
    var n := CsiLength(s);
    var p := Csi(s[2..n - 1], s[n - 1]);
    TokensCsi(s);
    CsiChars(s, n);
    CoverSplit(s, n, p, Tokens(s[n..]));
  }

  lemma CoverSplit(s: string, n: nat, p: Piece, ts: seq<Piece>)
    requires n <= |s| && PieceChars(p) == s[..n] && Render(ts) == s[n..]
    ensures Render([p] + ts) == s
  {
    RenderPrepend(p, ts);
    assert s == s[..n] + s[n..];
  }

  lemma CoverChar(s: string)
    requires |s| > 0 && CsiLength(s) == 0
    requires Render(Tokens(s[1..])) == s[1..]
    ensures Render(Tokens(s)) == s
  {
    TokensChar(s);
    RenderPrepend(Text([s[0]]), Tokens(s[1..]));
    assert s == [s[0]] + s[1..];
  }

  /** A sequence at the front becomes the first token. */
  lemma TokensCsi(s: string)
    requires CsiLength(s) > 0
    ensures Tokens(s) == [Csi(s[2..CsiLength(s) - 1], s[CsiLength(s) - 1])] + Tokens(s[CsiLength(s)..])
  {
  }

  /** Any other character becomes a text token of its own. */
  lemma TokensChar(s: string)
    requires |s| > 0 && CsiLength(s) == 0
    ensures Tokens(s) == [Text([s[0]])] + Tokens(s[1..])
  {
  }

  lemma RenderPrepend(p: Piece, ps: seq<Piece>)
    ensures Render([p] + ps) == PieceChars(p) + Render(ps)
  {
    assert ([p] + ps)[1..] == ps;
  }

  /** The output is the input with exactly the matched sequences cut out:
      `s` is the concatenation of its tokens, and stripping keeps precisely
      the characters of the text tokens, in their order. */
  lemma {:induction false} StripAnsiRemovesMatches(s: string)
    ensures Render(Tokens(s)) == s
    ensures StripAnsi(s) == PlainText(Tokens(s))
    decreases |s|
  {
    TokensCover(s);
    if |s| > 0 {
      var n := CsiLength(s);
      var ps := Tokens(s);
      if n > 0 {
        StripAnsiRemovesMatches(s[n..]);
        StripAnsiDrops(s);
        assert ps[1..] == Tokens(s[n..]);
      } else {
        StripAnsiRemovesMatches(s[1..]);
        StripAnsiCopies(s);
        assert ps[1..] == Tokens(s[1..]);
      }
    }
  }

  /** Text with no escape character is returned unchanged. */
  lemma {:induction false} StripAnsiNoEsc(s: string)
    requires Esc !in s
    ensures StripAnsi(s) == s
    decreases |s|
  {
    if |s| > 0 {
      assert s[0] != Esc;
      assert Esc !in s[1..];
      StripAnsiNoEsc(s[1..]);
      StripAnsiCopies(s);
      assert s == [s[0]] + s[1..];
    }
  }

  /** Escape-free text in front of the rest passes through untouched. */
  lemma {:induction false} StripAnsiTextPrefix(t: string, rest: string)
    requires Esc !in t
    ensures StripAnsi(t + rest) == t + StripAnsi(rest)
    decreases |t|
  {
    if |t| > 0 {
      var s := t + rest;
      assert s[0] == t[0];
      StripAnsiCopies(s);
      assert s[1..] == t[1..] + rest;
      assert Esc !in t[1..];
      StripAnsiTextPrefix(t[1..], rest);
      assert t == [t[0]] + t[1..];
    } else {
      assert t + rest == rest;
    }
  }

  /** A well-formed sequence in front of the rest is removed whole. */
  lemma StripAnsiCsiPrefix(p: Piece, rest: string)
    requires p.Csi? && WellFormed(p)
    ensures StripAnsi(PieceChars(p) + rest) == StripAnsi(rest)
  {
    var s := PieceChars(p) + rest;
    CsiLengthOf(p, rest);
    assert s[|p.params| + 3..] == rest;
    StripAnsiDrops(s);
  }

  /** Completeness of the match: whenever a well-formed sequence stands at the
      front, the pattern matches exactly that sequence. So a length of 0
      means that no sequence starts there. */
  lemma CsiLengthOf(p: Piece, rest: string)
    requires p.Csi? && WellFormed(p)
    ensures CsiLength(PieceChars(p) + rest) == |PieceChars(p)|
  {
    var s := PieceChars(p) + rest;
    var n := |p.params| + 2;
    forall k | 2 <= k < n
      ensures IsParamChar(s[k])
    {
      assert s[k] == p.params[k - 2];
    }
    assert s[n] == p.final;
    RunEndOf(s, 2, n, Param);
  }

  /** Round trip: colouring escape-free text with well-formed sequences and
      then stripping gives the text back. */
  lemma {:induction false} StripAnsiRender(ps: seq<Piece>)
    requires forall k :: 0 <= k < |ps| ==> WellFormed(ps[k])
    requires forall k :: 0 <= k < |ps| ==> ps[k].Text? ==> Esc !in ps[k].text
    ensures StripAnsi(Render(ps)) == PlainText(ps)
  {
    if |ps| > 0 {
      StripAnsiRender(ps[1..]);
      match ps[0]
      case Text(t) => StripAnsiTextPrefix(t, Render(ps[1..]));
      case Csi(_, _) => StripAnsiCsiPrefix(ps[0], Render(ps[1..]));
    }
  }
}
