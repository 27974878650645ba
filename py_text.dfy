/** The parts of Python's `str` the header-maintenance scripts rely on, over
    `seq<char>`: whitespace as `str.isspace` sees it, `strip`, `startswith`,
    `endswith`, `find`, `splitlines` (with and without the line ends) and `join`. */
module PyText {

  /** A character `str.isspace` accepts and `str.strip` removes: ASCII whitespace, the
      separators U+001C..U+001F, and the Unicode space and line separators. */
  predicate IsSpace(c: char)
  {
    c == ' ' || '\t' <= c <= '\r' || '\U{1c}' <= c <= '\U{1f}' || c == '\U{85}' || c == '\U{a0}'
    || c == '\U{1680}' || '\U{2000}' <= c <= '\U{200a}' || c == '\U{2028}' || c == '\U{2029}'
    || c == '\U{202f}' || c == '\U{205f}' || c == '\U{3000}'
  }

  /** `\s` in a pattern compiled with `re.ASCII`. */
  predicate IsAsciiSpace(c: char)
  {
    c == ' ' || '\t' <= c <= '\r'
  }

  /** A line boundary for `str.splitlines`; `\r\n` counts as one boundary. */
  predicate IsLineBreak(c: char)
  {
    c == '\n' || c == '\r' || c == '\U{0b}' || c == '\U{0c}' || '\U{1c}' <= c <= '\U{1e}'
    || c == '\U{85}' || c == '\U{2028}' || c == '\U{2029}'
  }

  predicate AllSpace(s: string)
  {
    forall i :: 0 <= i < |s| ==> IsSpace(s[i])
  }

  /** A line `s.strip() == ''` holds for (see `StripEmptyIffBlank`). */
  predicate IsBlank(s: string)
  {
    AllSpace(s)
  }

  /** `str.isspace`: false on the empty string. */
  predicate IsSpaceStr(s: string)
  {
    |s| > 0 && AllSpace(s)
  }

  predicate NoBreaks(s: string)
  {
    forall i :: 0 <= i < |s| ==> !IsLineBreak(s[i])
  }

  lemma AllSpaceAppend(a: string, b: string)
    requires AllSpace(a) && AllSpace(b)
    ensures AllSpace(a + b)
  {
    forall k | 0 <= k < |a + b|
      ensures IsSpace((a + b)[k])
    {
      if k < |a| {
        assert (a + b)[k] == a[k];
      } else {
        assert (a + b)[k] == b[k - |a|];
      }
    }
  }

  /** One more white-space character in front of a white-space run. */
  lemma LeadingStep(s: string, m: nat)
    requires |s| > 0 && IsSpace(s[0])
    requires m <= |s| - 1 && AllSpace(s[1..][..m]) && (m < |s| - 1 ==> !IsSpace(s[1..][m]))
    ensures var n := m + 1;
      n <= |s| && AllSpace(s[..n]) && (n < |s| ==> !IsSpace(s[n]))
  {
    var t := s[1..];
    assert s[..m + 1] == [s[0]] + t[..m];
    AllSpaceAppend([s[0]], t[..m]);
  }

  /** One more white-space character behind a white-space run. */
  lemma TrailingStep(s: string, m: nat)
    requires |s| > 0 && IsSpace(s[|s| - 1])
    requires var t := s[..|s| - 1];
      m <= |t| && AllSpace(t[|t| - m..]) && (m < |t| ==> !IsSpace(t[|t| - m - 1]))
    ensures var n := m + 1;
      n <= |s| && AllSpace(s[|s| - n..]) && (n < |s| ==> !IsSpace(s[|s| - n - 1]))
  {
    var t := s[..|s| - 1];
    var tail := t[|t| - m..];
    assert s[|s| - (m + 1)..] == tail + [s[|s| - 1]];
    AllSpaceAppend(tail, [s[|s| - 1]]);
    if m + 1 < |s| {
      assert s[|s| - (m + 1) - 1] == t[|t| - m - 1];
    }
  }

  /** How many characters `str.lstrip` removes. */
  function LeadingSpaces(s: string): (n: nat)
    ensures n <= |s|
    ensures AllSpace(s[..n])
    ensures n < |s| ==> !IsSpace(s[n])
    decreases |s|
  {
    if |s| == 0 || !IsSpace(s[0]) then 0
    else
      var m := LeadingSpaces(s[1..]);
      LeadingStep(s, m);
      m + 1
  }

  /** How many characters `str.rstrip` removes. */
  function TrailingSpaces(s: string): (n: nat)
    ensures n <= |s|
    ensures AllSpace(s[|s| - n..])
    ensures n < |s| ==> !IsSpace(s[|s| - n - 1])
    decreases |s|
  {
    if |s| == 0 || !IsSpace(s[|s| - 1]) then 0
    else
      var m := TrailingSpaces(s[..|s| - 1]);
      TrailingStep(s, m);
      m + 1
  }

  function LStrip(s: string): string
  {
    s[LeadingSpaces(s)..]
  }

  function RStrip(s: string): (r: string)
    ensures |r| <= |s| && r == s[..|r|]
    ensures AllSpace(s[|r|..])
    ensures |r| == 0 || !IsSpace(r[|r| - 1])
  {
    s[..|s| - TrailingSpaces(s)]
  }

  function Strip(s: string): string
  {
    RStrip(LStrip(s))
  }

  /** `s.strip() == ''` exactly when every character of `s` is whitespace. */
  lemma StripEmptyIffBlank(s: string)
    ensures Strip(s) == [] <==> IsBlank(s)
  {
    if IsBlank(s) {
      BlankStripsEmpty(s);
    }
    if Strip(s) == [] {
      EmptyStripIsBlank(s);
    }
  }

  lemma BlankStripsEmpty(s: string)
    requires AllSpace(s)
    ensures Strip(s) == []
  {
    var n := LeadingSpaces(s);
    assert n == |s|;
    var t := s[n..];
    assert t == [];
    assert LStrip(s) == t;
    assert TrailingSpaces(t) == 0;
  }

  lemma EmptyStripIsBlank(s: string)
    requires Strip(s) == []
    ensures AllSpace(s)
  {
    var n := LeadingSpaces(s);
    var t := s[n..];
    assert RStrip(t) == [];
    assert t[0..] == t;
    assert AllSpace(t);
    assert n == |s|;
    assert s[..n] == s;
  }

  predicate StartsWith(s: string, p: string)
  {
    |p| <= |s| && s[..|p|] == p
  }

  predicate EndsWith(s: string, p: string)
  {
    |p| <= |s| && s[|s| - |p|..] == p
  }

  /** `p` occurs in `s` at index `j`. */
  predicate OccursAt(s: string, p: string, j: nat)
  {
    j + |p| <= |s| && s[j..j + |p|] == p
  }

  /** `str.find` from a start index: the first index at or after `from` where `p`
      occurs, or -1. */
  function FindFrom(s: string, p: string, from: nat): (r: int)
    requires from <= |s|
    ensures r == -1 || (from <= r && OccursAt(s, p, r))
    ensures forall j: nat :: from <= j && (r == -1 || j < r) ==> !OccursAt(s, p, j)
    decreases |s| - from
  {
    if from + |p| > |s| then -1
    else if s[from..from + |p|] == p then from
    else FindFrom(s, p, from + 1)
  }

  /** `str.find`. */
  function Find(s: string, p: string): int
  {
    FindFrom(s, p, 0)
  }

  /** Where the first line of `s` ends: its first line boundary, or `|s|`. */
  function LineEnd(s: string): (n: nat)
    ensures n <= |s|
    ensures NoBreaks(s[..n])
    ensures n < |s| ==> IsLineBreak(s[n])
    decreases |s|
  {
    if |s| == 0 || IsLineBreak(s[0]) then 0
    else
      var m := LineEnd(s[1..]);
      assert s[..m + 1] == [s[0]] + s[1..][..m];
      m + 1
  }

  /** How many characters the boundary at `n` takes: two for `\r\n`. */
  function BreakWidth(s: string, n: nat): nat
  {
    if n < |s| then (if s[n] == '\r' && n + 1 < |s| && s[n + 1] == '\n' then 2 else 1) else 0
  }

  /** `str.splitlines()`. */
  function SplitLines(s: string): seq<string>
    decreases |s|
  {
    if |s| == 0 then []
    else
      var n := LineEnd(s);
      [s[..n]] + SplitLines(s[n + BreakWidth(s, n)..])
  }

  /** `str.splitlines(keepends=True)`. */
  function SplitLinesKeepEnds(s: string): seq<string>
    decreases |s|
  {
    if |s| == 0 then []
    else
      var n := LineEnd(s);
      [s[..n + BreakWidth(s, n)]] + SplitLinesKeepEnds(s[n + BreakWidth(s, n)..])
  }

  /** `sep.join(lines)`. */
  function Join(lines: seq<string>, sep: string): string
    decreases |lines|
  {
    if |lines| == 0 then []
    else if |lines| == 1 then lines[0]
    else lines[0] + sep + Join(lines[1..], sep)
  }

  /** `''.join(lines)`. */
  function Concat(lines: seq<string>): string
    decreases |lines|
  {
    if |lines| == 0 then [] else lines[0] + Concat(lines[1..])
  }

  /** No line `splitlines` returns holds a line boundary. */
  lemma {:induction false} SplitLinesNoBreaks(s: string)
    ensures forall k :: 0 <= k < |SplitLines(s)| ==> NoBreaks(SplitLines(s)[k])
    decreases |s|
  {
    if |s| > 0 {
      var n := LineEnd(s);
      SplitLinesNoBreaks(s[n + BreakWidth(s, n)..]);
    }
  }

  /** Splitting with the line ends kept loses nothing: joining the pieces gives the
      text back. */
  lemma {:induction false} KeepEndsConcat(s: string)
    ensures Concat(SplitLinesKeepEnds(s)) == s
    decreases |s|
  {
    if |s| > 0 {
      var n := LineEnd(s);
      var w := BreakWidth(s, n);
      KeepEndsConcat(s[n + w..]);
      assert s == s[..n + w] + s[n + w..];
    }
  }

  /** `"\n".join` undoes `splitlines` on lines without boundaries whose last line is
      not empty, with or without a final newline. */
  lemma SplitJoin(lines: seq<string>)
    requires |lines| > 0 && lines[|lines| - 1] != []
    requires forall k :: 0 <= k < |lines| ==> NoBreaks(lines[k])
    ensures SplitLines(Join(lines, "\n")) == lines
    ensures SplitLines(Join(lines, "\n") + "\n") == lines
  {
    SplitJoinPlain(lines);
    var last := lines[|lines| - 1];
    JoinLastChar(lines);
    assert !IsLineBreak(last[|last| - 1]);
    SplitFinalNewline(Join(lines, "\n"));
  }

  lemma {:induction false} SplitJoinPlain(lines: seq<string>)
    requires |lines| > 0 && lines[|lines| - 1] != []
    requires forall k :: 0 <= k < |lines| ==> NoBreaks(lines[k])
    ensures SplitLines(Join(lines, "\n")) == lines
    decreases |lines|
  {
    var a := lines[0];
    if |lines| == 1 {
      SplitLastLine(a);
    } else {
      SplitJoinPlain(lines[1..]);
      assert Join(lines, "\n") == a + "\n" + Join(lines[1..], "\n");
      SplitAfterLine(a, Join(lines[1..], "\n"));
      assert lines == [a] + lines[1..];
    }
  }

  /** A newline after a text that does not already end in a boundary adds no line. */
  lemma {:induction false} SplitFinalNewline(x: string)
    requires |x| > 0 && !IsLineBreak(x[|x| - 1])
    ensures SplitLines(x + "\n") == SplitLines(x)
    decreases |x|
  {
    var y := x + "\n";
    var n := LineEnd(x);
    if n == |x| {
      NoBreakLineEnd(x, "\n");
      assert y[..|x|] == x && x[..n] == x;
      assert y[|x|] == '\n' && BreakWidth(y, |x|) == 1;
      assert y[|x| + 1..] == [];
      assert x[n + BreakWidth(x, n)..] == [];
    } else {
      assert y[..n + 1] == x[..n + 1];
      assert LineEnd(y) == n by { LineEndPrefix(x, "\n", n); }
      var w := BreakWidth(x, n);
      assert BreakWidth(y, n) == w;
      var x' := x[n + w..];
      assert y[n + w..] == x' + "\n";
      assert x'[|x'| - 1] == x[|x| - 1];
      SplitFinalNewline(x');
      assert y[..n] == x[..n];
    }
  }

  /** Text appended after the first boundary leaves that boundary where it was. */
  lemma {:induction false} LineEndPrefix(x: string, t: string, n: nat)
    requires n < |x| && LineEnd(x) == n
    ensures LineEnd(x + t) == n
    decreases |x|
  {
    if n > 0 {
      LineEndPrefix(x[1..], t, n - 1);
      assert (x + t)[1..] == x[1..] + t;
    }
  }

  lemma SplitLastLine(a: string)
    requires NoBreaks(a) && a != []
    ensures SplitLines(a) == [a]
  {
    NoBreakLineEnd(a, []);
    assert a + [] == a;
    assert a[..|a|] == a;
  }

  /** A line without boundaries followed by a newline is the first line. */
  lemma SplitAfterLine(a: string, rest: string)
    requires NoBreaks(a)
    ensures SplitLines(a + "\n" + rest) == [a] + SplitLines(rest)
  {
    var s := a + "\n" + rest;
    assert s == a + ("\n" + rest);
    NoBreakLineEnd(a, "\n" + rest);
    assert s[|a|] == '\n';
    assert BreakWidth(s, |a|) == 1;
    assert s[..|a|] == a;
    assert s[|a| + 1..] == rest;
  }

  /** The first boundary of a boundary-free line followed by `tail` is where `tail`
      starts, if `tail` starts with one. */
  lemma {:induction false} NoBreakLineEnd(a: string, tail: string)
    requires NoBreaks(a)
    requires tail == [] || IsLineBreak(tail[0])
    ensures LineEnd(a + tail) == |a|
    decreases |a|
  {
    if |a| > 0 {
      assert (a + tail)[0] == a[0];
      NoBreakLineEnd(a[1..], tail);
      assert (a + tail)[1..] == a[1..] + tail;
    } else {
      assert a + tail == tail;
    }
  }

  /** The joined text ends in a newline only when its last line does. */
  lemma {:induction false} JoinLastChar(lines: seq<string>)
    requires |lines| > 0 && lines[|lines| - 1] != []
    ensures |Join(lines, "\n")| > 0
    ensures Join(lines, "\n")[|Join(lines, "\n")| - 1] == lines[|lines| - 1][|lines[|lines| - 1]| - 1]
    decreases |lines|
  {
    if |lines| > 1 {
      JoinLastChar(lines[1..]);
    }
  }

  /** How many byte-order marks (U+FEFF) lead the text; `StripBom` drops them. */
  function LeadingBoms(s: string): (n: nat)
    ensures n <= |s|
    ensures forall i :: 0 <= i < n ==> s[i] == '\U{feff}'
    ensures n < |s| ==> s[n] != '\U{feff}'
    decreases |s|
  {
    if |s| == 0 || s[0] != '\U{feff}' then 0 else 1 + LeadingBoms(s[1..])
  }

  function StripBom(s: string): string
  {
    s[LeadingBoms(s)..]
  }

  /** Byte-order marks that end before `b` begins are all that `StripBom` drops. */
  lemma {:induction false} StripBomAppend(a: string, b: string)
    requires LeadingBoms(a) < |a| || |b| == 0 || b[0] != '\U{feff}'
    ensures StripBom(a + b) == StripBom(a) + b
    decreases |a|
  {
    if |a| == 0 {
      assert a + b == b;
    } else if a[0] == '\U{feff}' {
      assert (a + b)[1..] == a[1..] + b;
      StripBomAppend(a[1..], b);
    }
  }

  /** Stripping byte-order marks twice is stripping them once. */
  lemma StripBomTwice(s: string)
    ensures LeadingBoms(StripBom(s)) == 0 && StripBom(StripBom(s)) == StripBom(s)
  {
    assert LeadingBoms(StripBom(s)) == 0;
  }

  /** What follows the first line in lines joined with newlines. */
  function JoinTail(rest: seq<string>): string
  {
    if |rest| == 0 then [] else "\n" + Join(rest, "\n")
  }

  /** Joining a line in front of more lines puts a newline between them. */
  lemma JoinCons(x: string, rest: seq<string>, tail: string)
    ensures Join([x] + rest, "\n") + tail == x + (JoinTail(rest) + tail)
  {
    assert ([x] + rest)[1..] == rest;
  }

  lemma JoinTailStart(rest: seq<string>, tail: string)
    requires tail == [] || tail[0] == '\n'
    ensures JoinTail(rest) + tail == [] || (JoinTail(rest) + tail)[0] == '\n'
  {
    if |rest| == 0 {
      assert JoinTail(rest) + tail == tail;
    }
  }

  /** In text joined from lines, only the first line can lose byte-order marks. */
  lemma {:induction false} StripBomJoin(lines: seq<string>, tail: string)
    requires |lines| > 0 && (tail == [] || tail[0] == '\n')
    ensures StripBom(Join(lines, "\n") + tail) == Join([StripBom(lines[0])] + lines[1..], "\n") + tail
  {
    var rest := lines[1..];
    var b := JoinTail(rest) + tail;
    calc {
      StripBom(Join(lines, "\n") + tail);
    == { assert lines == [lines[0]] + rest; JoinCons(lines[0], rest, tail); }
      StripBom(lines[0] + b);
    == { JoinTailStart(rest, tail); StripBomAppend(lines[0], b); }
      StripBom(lines[0]) + b;
    == { JoinCons(StripBom(lines[0]), rest, tail); }
      Join([StripBom(lines[0])] + rest, "\n") + tail;
    }
  }
}
