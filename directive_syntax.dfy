/** Pieces of the regular expressions the header scripts use to recognise
    preprocessor lines. Each predicate states, for any string, when the pattern
    piece matches, following Python's `re` semantics for `match` (anchored at the
    start) and `$` without MULTILINE (end of text, or just before a final newline).
    `\s` is `str.isspace` for Unicode patterns and ` \t\n\r\f\v` under re.ASCII.
    Case-insensitive matching, `\b`, `\w` and `\d` are modelled for ASCII text only:
    case folding maps `A`-`Z` alone, and every other character counts as a non-word,
    non-digit character. */
module DirectiveSyntax {
  import opened PyText
  import opened Wrappers

  function LowerAscii(c: char): char
  {
    if 'A' <= c <= 'Z' then (c as int + 32) as char else c
  }

  /** `s` starts with the lower-case word `p`, letters compared ignoring ASCII case. */
  predicate StartsWithNoCase(s: string, p: string)
  {
    |p| <= |s| && forall i :: 0 <= i < |p| ==> LowerAscii(s[i]) == p[i]
  }

  predicate IsAsciiDigit(c: char)
  {
    '0' <= c <= '9'
  }

  predicate IsIdentStart(c: char)
  {
    'A' <= c <= 'Z' || 'a' <= c <= 'z' || c == '_'
  }

  /** A word character for `\b`: an ASCII letter, digit or underscore. */
  predicate IsWordChar(c: char)
  {
    IsIdentStart(c) || IsAsciiDigit(c)
  }

  /** `\b` right after a word ends at index `k` of `s`. */
  predicate WordEndsAt(s: string, k: nat)
  {
    k <= |s| && (k == |s| || !IsWordChar(s[k]))
  }

  /** The number of leading characters that `\s*` skips: Unicode whitespace, or
      ASCII whitespace under re.ASCII. */
  function SpaceRun(s: string, ascii: bool): (n: nat)
    ensures n <= |s|
    ensures forall i :: 0 <= i < n ==> (if ascii then IsAsciiSpace(s[i]) else IsSpace(s[i]))
    ensures n < |s| ==> !(if ascii then IsAsciiSpace(s[n]) else IsSpace(s[n]))
    decreases |s|
  {
    if |s| > 0 && (if ascii then IsAsciiSpace(s[0]) else IsSpace(s[0])) then 1 + SpaceRun(s[1..], ascii)
    else 0
  }

  /** `s` with the `\s*` prefix skipped. */
  function SkipSpace(s: string, ascii: bool): string
  {
    s[SpaceRun(s, ascii)..]
  }

  /** What follows `^\s*#\s*` on a line, if the line has that prefix. */
  function DirectiveRest(line: string, ascii: bool): (r: Option<string>)
    ensures r.Some? ==> |r.value| < |line|
  {
    var a := SpaceRun(line, ascii);
    if a < |line| && line[a] == '#' then Some(SkipSpace(line[a + 1..], ascii)) else None
  }

  function DigitRun(s: string): (n: nat)
    ensures n <= |s|
    decreases |s|
  {
    if |s| > 0 && IsAsciiDigit(s[0]) then 1 + DigitRun(s[1..]) else 0
  }

  /** The length of the identifier `[A-Za-z_][A-Za-z0-9_]*` at the start of `s`, or 0. */
  function IdentLen(s: string): (n: nat)
    ensures n <= |s|
    ensures n > 0 ==> IsIdentStart(s[0])
    ensures WordEndsAt(s, n) || n == 0
  {
    if |s| > 0 && IsIdentStart(s[0]) then 1 + WordRun(s[1..]) else 0
  }

  function WordRun(s: string): (n: nat)
    ensures n <= |s|
    ensures WordEndsAt(s, n)
    decreases |s|
  {
    if |s| > 0 && IsWordChar(s[0]) then 1 + WordRun(s[1..]) else 0
  }

  predicate NoNewline(s: string)
  {
    forall i :: 0 <= i < |s| ==> s[i] != '\n'
  }

  /** `.*$`: characters other than a newline up to the end, or up to a final newline. */
  predicate DotsToEnd(s: string)
  {
    NoNewline(s) || (|s| > 0 && s[|s| - 1] == '\n' && NoNewline(s[..|s| - 1]))
  }

  /** `.*\r?\n?$`: as `.*$`, but one more newline may close the line. */
  predicate DotsToEndNl(s: string)
  {
    DotsToEnd(s) || (|s| > 1 && s[|s| - 2] == '\n' && s[|s| - 1] == '\n' && NoNewline(s[..|s| - 2]))
  }
}
