/** `normalize_pragma_once_spacing`: exactly one blank line after every `#pragma once`
    line, exactly one blank line before it when non-blank content is above it, and
    none before it when it is the first non-blank line. Only blank lines are inserted
    or deleted. */
module PragmaSpacing {
  import opened PyText
  import opened DirectiveSyntax
  import opened IncludeGuards

  /** How the script sees a line: blank (`strip() == ""`), a `#pragma once` line, or
      any other content. */
  datatype LineClass = Blank | Pragma | Content

  /** `^\s*#\s*pragma\s+once\s*$`, ignoring case: only white space may follow `once`. */
  predicate IsSpacedPragma(line: string)
  {
    match DirectiveRest(line, false)
    case None => false
    case Some(r) =>
      StartsWithNoCase(r, "pragma") && SpaceRun(r[6..], false) > 0 &&
      var u := SkipSpace(r[6..], false);
      StartsWithNoCase(u, "once") && AllSpace(u[4..])
  }

  function Class(line: string): LineClass
  {
    if Strip(line) == [] then Blank else if IsSpacedPragma(line) then Pragma else Content
  }

  /** Each class is exactly its test: a pragma line is never blank. */
  lemma ClassExact(line: string)
    ensures Class(line) == Blank <==> Strip(line) == []
    ensures Class(line) == Pragma <==> IsSpacedPragma(line)
  {
    if Strip(line) == [] {
      BlankHasNoDirective(line, false);
    }
  }

  lemma PragmaLineClass()
    ensures Class(PragmaLine) == Pragma
  {
    PragmaLineNotBlank();
    PragmaLineRest();
    assert "pragma once"[6..] == " once";
    PragmaGap();
    PragmaWordsNoCase();
  }

  // ---- The two walks over neighbouring blank lines ----

  /** How many blank lines lie right above index `i` (the walk of `j` downwards). */
  function BlanksAbove(cls: string -> LineClass, lines: seq<string>, i: nat): (n: nat)
    requires i <= |lines|
    ensures n <= i
    ensures forall k :: i - n <= k < i ==> cls(lines[k]) == Blank
    ensures n < i ==> cls(lines[i - n - 1]) != Blank
  {
    if i > 0 && cls(lines[i - 1]) == Blank then 1 + BlanksAbove(cls, lines, i - 1) else 0
  }

  /** How many blank lines start at index `i` (the walk of `k` upwards). */
  function BlanksFrom(cls: string -> LineClass, lines: seq<string>, i: nat): (n: nat)
    requires i <= |lines|
    ensures i + n <= |lines|
    ensures forall k :: i <= k < i + n ==> cls(lines[k]) == Blank
    ensures i + n < |lines| ==> cls(lines[i + n]) != Blank
    decreases |lines| - i
  {
    if i < |lines| && cls(lines[i]) == Blank then 1 + BlanksFrom(cls, lines, i + 1) else 0
  }

  method CountBlanksAbove(cls: string -> LineClass, lines: seq<string>, i: nat) returns (n: nat)
    requires i <= |lines|
    ensures n == BlanksAbove(cls, lines, i)
  {
    var j := i - 1;
    n := 0;
    while j >= 0 && cls(lines[j]) == Blank
      invariant -1 <= j < i && n == i - 1 - j
      invariant BlanksAbove(cls, lines, i) == n + BlanksAbove(cls, lines, j + 1)
      decreases j
    {
      n := n + 1;
      j := j - 1;
    }
  }

  method CountBlanksFrom(cls: string -> LineClass, lines: seq<string>, i: nat) returns (n: nat)
    requires i <= |lines|
    ensures n == BlanksFrom(cls, lines, i)
  {
    var k := i;
    n := 0;
    while k < |lines| && cls(lines[k]) == Blank
      invariant i <= k <= |lines| && n == k - i
      invariant BlanksFrom(cls, lines, i) == n + BlanksFrom(cls, lines, k)
      decreases |lines| - k
    {
      n := n + 1;
      k := k + 1;
    }
  }

  // ---- One pass of the loop body at a pragma line ----

  /** The list, the index of the line being handled and the `changed` flag. */
  datatype Scan = Scan(lines: seq<string>, at: nat, changed: bool)

  /** The blank lines above the line at `i`: with content above, surplus blanks are
      deleted down to the last one, or one empty line is inserted when there is none;
      without content above, all of them are deleted. */
  function SpaceBefore(cls: string -> LineClass, lines: seq<string>, i: nat, changed: bool): (s: Scan)
    requires i < |lines|
    ensures s.at < |s.lines| && s.lines[s.at..] == lines[i..]
    ensures !s.changed ==> s.lines == lines && !changed
  {
    var b := BlanksAbove(cls, lines, i);
    if i - b > 0 then
      var s1 := if b > 1 then Scan(lines[..i - b] + lines[i - 1..], i - (b - 1), true)
                else Scan(lines, i, changed);
      if s1.at == 0 || cls(s1.lines[s1.at - 1]) != Blank then
        Scan(s1.lines[..s1.at] + [""] + s1.lines[s1.at..], s1.at + 1, true)
      else s1
    else if b > 0 then Scan(lines[..i - b] + lines[i..], i - b, true)
    else Scan(lines, i, changed)
  }

  /** The blank lines below the line at `i`: unless there is exactly one, they are
      all deleted and one empty line is inserted. The scan resumes two lines on. */
  function SpaceAfter(cls: string -> LineClass, lines: seq<string>, i: nat, changed: bool): (s: Scan)
    requires i < |lines|
    ensures s.at <= |s.lines| && |s.lines| - s.at < |lines| - i
    ensures !s.changed ==> s.lines == lines && !changed
  {
    var a := BlanksFrom(cls, lines, i + 1);
    if a != 1 then
      var kept := if a > 0 then lines[..i + 1] + lines[i + 1 + a..] else lines;
      Scan(kept[..i + 1] + [""] + kept[i + 1..], i + 2, true)
    else Scan(lines, i + 2, changed)
  }

  /** `idxs` with every entry at least `start` moved by `delta`. */
  function Shifted(idxs: seq<int>, start: int, delta: int): seq<int>
  {
    seq(|idxs|, k requires 0 <= k < |idxs| => if idxs[k] >= start then idxs[k] + delta else idxs[k])
  }

  /** How the remembered pragma positions change while the line at `i` is handled:
      they move down after the insertion above it, and up after the deletion above a
      first pragma line; the deletion of surplus blanks above it and both edits below
      it leave them as they were. */
  function Reindexed(cls: string -> LineClass, lines: seq<string>, i: nat, idxs: seq<int>): seq<int>
    requires i < |lines|
  {
    var b := BlanksAbove(cls, lines, i);
    if i - b > 0 && b == 0 then Shifted(idxs, i, 1)
    else if i - b == 0 && b > 0 then Shifted(idxs, i - b, -(b as int))
    else idxs
  }

  /** The indices of the pragma lines at or after `k`. */
  function PragmaIndices(cls: string -> LineClass, lines: seq<string>, k: nat): (r: seq<int>)
    requires k <= |lines|
    ensures forall p :: p in r <==> k <= p < |lines| && cls(lines[p]) == Pragma
    decreases |lines| - k
  {
    if k == |lines| then []
    else (if cls(lines[k]) == Pragma then [k as int] else []) + PragmaIndices(cls, lines, k + 1)
  }

  predicate HasPragma(cls: string -> LineClass, lines: seq<string>)
  {
    exists k :: 0 <= k < |lines| && cls(lines[k]) == Pragma
  }

  /** The loop as written: a line is handled as a pragma line when its index is among
      the remembered positions, which the edits can leave stale. */
  function RunAsWritten(cls: string -> LineClass, lines: seq<string>, idxs: seq<int>, i: nat,
                        changed: bool): (seq<string>, bool)
    requires i <= |lines|
    decreases |lines| - i
  {
    if i == |lines| then (lines, changed)
    else if i in idxs then
      var s := SpaceBefore(cls, lines, i, changed);
      var t := SpaceAfter(cls, s.lines, s.at, s.changed);
      RunAsWritten(cls, t.lines, Reindexed(cls, lines, i, idxs), t.at, t.changed)
    else RunAsWritten(cls, lines, idxs, i + 1, changed)
  }

  /** `normalize_pragma_once_spacing` as written. */
  function NormalizedAsWritten(cls: string -> LineClass, text: string): (string, bool)
  {
    var lines := SplitLines(text);
    var idxs := PragmaIndices(cls, lines, 0);
    if |idxs| == 0 then (text, false)
    else
      var r := RunAsWritten(cls, lines, idxs, 0, false);
      (JoinedText(r.0, text), r.1)
  }

  // ---- The intended result ----

  /** What precedes the lines still to be spaced: only blank lines, or last a content
      line, or last a pragma line. */
  datatype Mode = Top | AfterContent | AfterPragma

  /** The blank line kept below a pragma line whose blank lines below are `gap`: that
      line if there is exactly one, else one empty line. */
  function GapAfter(gap: seq<string>): (r: seq<string>)
    ensures |r| == 1
  {
    if |gap| == 1 then gap else [""]
  }

  /** What is kept of the run of blank lines `gap` that ends at a non-blank line, a
      pragma line when `pragma` holds. Above a pragma line: nothing at the top of the
      file, the last of them (or one empty line) below content, the one kept blank
      line below another pragma line. Above content: all of them, except below a
      pragma line. */
  function Kept(gap: seq<string>, mode: Mode, pragma: bool): seq<string>
  {
    match mode
    case Top => if pragma then [] else gap
    case AfterContent => if !pragma then gap else if |gap| > 0 then [gap[|gap| - 1]] else [""]
    case AfterPragma => GapAfter(gap)
  }

  /** The lines the loop produces from `lines` when the blank lines `gap`, and before
      them what `mode` says, precede them. */
  function Spaced(cls: string -> LineClass, lines: seq<string>, gap: seq<string>, mode: Mode): seq<string>
    decreases |lines|
  {
    if |lines| == 0 then (if mode == AfterPragma then GapAfter(gap) else gap)
    else if cls(lines[0]) == Blank then Spaced(cls, lines[1..], gap + [lines[0]], mode)
    else
      var pragma := cls(lines[0]) == Pragma;
      Kept(gap, mode, pragma) + [lines[0]]
        + Spaced(cls, lines[1..], [], if pragma then AfterPragma else AfterContent)
  }

  function Normalized(cls: string -> LineClass, lines: seq<string>): seq<string>
  {
    Spaced(cls, lines, [], Top)
  }

  /** Where the loop stands at index `i`: the lines from `g` up to `i` are blank, and
      before them lies what `mode` says; below a pragma line exactly one blank line has
      been kept and a non-blank line (or the end) follows it. */
  predicate Pending(cls: string -> LineClass, lines: seq<string>, g: nat, i: nat, mode: Mode)
  {
    g <= i <= |lines| && (forall k :: g <= k < i ==> cls(lines[k]) == Blank)
    && (mode == Top ==> g == 0)
    && (mode == AfterContent ==> 0 < g && cls(lines[g - 1]) == Content)
    && (mode == AfterPragma ==>
          0 < g && i == g + 1 && cls(lines[g - 1]) == Pragma && (i == |lines| || cls(lines[i]) != Blank))
  }

  // ---- The loop, corrected ----

  /** The script's fix-up of the blank lines above the pragma line at `i`: a run of
      blanks collapses to one, a missing blank is inserted, and blanks at the top of the
      file are dropped. */
  method SpacePragmaBefore(cls: string -> LineClass, lines: seq<string>, i: nat, changed: bool)
    returns (out: seq<string>, next: nat, changedOut: bool)
    requires i < |lines|
    ensures Scan(out, next, changedOut) == SpaceBefore(cls, lines, i, changed)
  {
    out, next, changedOut := lines, i, changed;
    var blanksBefore := CountBlanksAbove(cls, out, next);
    if next - blanksBefore > 0 {
      if blanksBefore > 1 {
        out := out[..next - blanksBefore] + out[next - 1..];
        next := next - (blanksBefore - 1);
        changedOut := true;
      }
      if next == 0 || cls(out[next - 1]) != Blank {
        out := out[..next] + [""] + out[next..];
        next := next + 1;
        changedOut := true;
      }
    } else if blanksBefore > 0 {
      out := out[..next - blanksBefore] + out[next..];
      next := next - blanksBefore;
      changedOut := true;
    }
  }

  /** The script's fix-up of the blank lines below the pragma line at `i`: a run of
      more than one blank collapses to one. */
  method SpacePragmaAfter(cls: string -> LineClass, lines: seq<string>, i: nat, changed: bool)
    returns (out: seq<string>, next: nat, changedOut: bool)
    requires i < |lines|
    ensures Scan(out, next, changedOut) == SpaceAfter(cls, lines, i, changed)
  {
    out, changedOut := lines, changed;
    var blanksAfter := CountBlanksFrom(cls, out, i + 1);
    if blanksAfter != 1 {
      if blanksAfter > 0 {
        out := out[..i + 1] + out[i + 1 + blanksAfter..];
        changedOut := true;
      }
      out := out[..i + 1] + [""] + out[i + 1..];
      changedOut := true;
    }
    next := i + 2;
  }

  /** Both scans around a pragma line at `i`, with the blank lines from `g` above it:
      what is kept above the line, the line, one blank line below it, and the lines
      after the blank run below it. */
  method SpacePragmaScans(cls: string -> LineClass, lines: seq<string>, i: nat, changed: bool,
                          ghost g: nat, ghost mode: Mode)
    returns (out: seq<string>, next: nat, changedOut: bool)
    requires Pending(cls, lines, g, i, mode) && i < |lines| && cls(lines[i]) == Pragma
    ensures var rest := lines[i + 1..];
      var a := BlanksFrom(cls, rest, 0);
      out == (lines[..g] + Kept(lines[g..i], mode, true) + [lines[i]]) + GapAfter(rest[..a]) + rest[a..]
      && next == g + |Kept(lines[g..i], mode, true)| + 2
    ensures !changedOut ==> out == lines && !changed
  {
    var mid, at, c := SpacePragmaBefore(cls, lines, i, changed);
    out, next, changedOut := SpacePragmaAfter(cls, mid, at, c);
    PragmaScanShape(cls, lines, g, i, mode, changed, mid, at, c, out, next, changedOut);
  }

  /** The loop body for a pragma line at `i`: the lines up to the kept blank line below
      it are those of the intended result. */
  method SpacePragma(cls: string -> LineClass, lines: seq<string>, i: nat, changed: bool,
                     ghost g: nat, ghost mode: Mode)
    returns (out: seq<string>, next: nat, changedOut: bool, ghost g': nat, ghost mode': Mode)
    requires cls([]) == Blank
    requires Pending(cls, lines, g, i, mode) && i < |lines| && cls(lines[i]) == Pragma
    ensures g' == next - 1 && mode' == AfterPragma
    ensures Pending(cls, out, g', next, mode')
    ensures lines[..g] + Spaced(cls, lines[i..], lines[g..i], mode)
      == out[..g'] + Spaced(cls, out[next..], out[g'..next], mode')
    ensures |out| - next < |lines| - i
    ensures !changedOut ==> out == lines && !changed
  {
    out, next, changedOut := SpacePragmaScans(cls, lines, i, changed, g, mode);
    PragmaStep(cls, lines, g, i, mode, out, next);
    g', mode' := next - 1, AfterPragma;
  }

  /** One pass of the loop body at `i`. */
  method SpaceLine(cls: string -> LineClass, lines: seq<string>, i: nat, changed: bool,
                   ghost g: nat, ghost mode: Mode)
    returns (out: seq<string>, next: nat, changedOut: bool, ghost g': nat, ghost mode': Mode)
    requires cls([]) == Blank && Pending(cls, lines, g, i, mode) && i < |lines|
    ensures Pending(cls, out, g', next, mode')
    ensures lines[..g] + Spaced(cls, lines[i..], lines[g..i], mode)
      == out[..g'] + Spaced(cls, out[next..], out[g'..next], mode')
    ensures |out| - next < |lines| - i
    ensures !changedOut ==> out == lines && !changed
  {
    if cls(lines[i]) == Pragma {
      out, next, changedOut, g', mode' := SpacePragma(cls, lines, i, changed, g, mode);
    } else {
      g', mode' := PassLine(cls, lines, g, i, mode);
      out, next, changedOut := lines, i + 1, changed;
    }
  }

  /** The script's loop over the pragma lines, with a line handled as a pragma line when it is one
      rather than when its index was remembered as one. */
  method SpaceLines(cls: string -> LineClass, orig: seq<string>) returns (lines: seq<string>, changed: bool)
    requires cls([]) == Blank
    ensures lines == Normalized(cls, orig)
    ensures !changed ==> lines == orig
  {
    lines := orig;
    changed := false;
    var i: nat := 0;
    ghost var g: nat := 0;
    ghost var mode := Top;
    assert lines[..0] + Spaced(cls, lines[0..], lines[0..0], Top) == Normalized(cls, orig);
    while i < |lines|
      invariant Pending(cls, lines, g, i, mode)
      invariant Normalized(cls, orig) == lines[..g] + Spaced(cls, lines[i..], lines[g..i], mode)
      invariant !changed ==> lines == orig
      decreases |lines| - i
    {
      lines, i, changed, g, mode := SpaceLine(cls, lines, i, changed, g, mode);
    }
    EndStep(cls, lines, g, mode);
  }

  /** `normalize_pragma_once_spacing`, corrected: every pragma line is found on the lines
      as they stand after the earlier rewrites (`SpaceLines`), where the script as written
      keeps the indices of the original text (`RunAsWritten`). */
  method NormalizePragmaOnceSpacing(cls: string -> LineClass, text: string) returns (newText: string, changed: bool)
    requires cls([]) == Blank
    ensures !HasPragma(cls, SplitLines(text)) ==> newText == text && !changed
    ensures HasPragma(cls, SplitLines(text)) ==>
      newText == JoinedText(Normalized(cls, SplitLines(text)), text)
    ensures !changed ==> Normalized(cls, SplitLines(text)) == SplitLines(text)
  {
    var hadTrailingNewline := EndsWith(text, "\n");
    var lines := SplitLines(text);
    var pragmaIdxs := PragmaIndices(cls, lines, 0);
    if |pragmaIdxs| == 0 {
      SpacedWithoutPragma(cls, lines, [], Top);
      return text, false;
    }
    assert pragmaIdxs[0] in pragmaIdxs;
    assert cls(lines[pragmaIdxs[0]]) == Pragma;
    lines, changed := SpaceLines(cls, lines);
    newText := Join(lines, "\n") + (if hadTrailingNewline then "\n" else "");
  }

  /** The script with its own line tests. */
  method NormalizeHeaderSpacing(text: string) returns (newText: string, changed: bool)
    ensures !HasPragma(Class, SplitLines(text)) ==> newText == text && !changed
    ensures HasPragma(Class, SplitLines(text)) ==>
      newText == JoinedText(Normalized(Class, SplitLines(text)), text)
    ensures !changed ==> Normalized(Class, SplitLines(text)) == SplitLines(text)
  {
    assert Class([]) == Blank;
    newText, changed := NormalizePragmaOnceSpacing(Class, text);
  }

  // ---- The loop body against the intended result ----

  predicate AllBlank(cls: string -> LineClass, s: seq<string>)
  {
    forall k :: 0 <= k < |s| ==> cls(s[k]) == Blank
  }

  /** What is kept of a blank run is blank. */
  lemma KeptBlank(cls: string -> LineClass, gap: seq<string>, mode: Mode, pragma: bool)
    requires cls([]) == Blank && AllBlank(cls, gap)
    ensures AllBlank(cls, Kept(gap, mode, pragma)) && AllBlank(cls, GapAfter(gap))
  {
  }

  /** Above the first non-blank line every blank line goes. */
  lemma SpaceBeforeTop(cls: string -> LineClass, lines: seq<string>, i: nat, c: bool)
    requires i < |lines| && cls(lines[i]) != Blank
    requires forall k :: 0 <= k < i ==> cls(lines[k]) == Blank
    ensures SpaceBefore(cls, lines, i, c) == Scan([lines[i]] + lines[i + 1..], 0, c || i > 0)
  {
    assert BlanksAbove(cls, lines, i) == i;
    assert lines[i..] == [lines[i]] + lines[i + 1..];
  }

  /** Below content, the last blank line stays, or one empty line is inserted. */
  lemma SpaceBeforeContent(cls: string -> LineClass, lines: seq<string>, g: nat, i: nat, c: bool)
    requires 0 < g <= i < |lines| && cls(lines[i]) != Blank && cls(lines[g - 1]) != Blank
    requires forall k :: g <= k < i ==> cls(lines[k]) == Blank
    ensures var kept := if g < i then [lines[i - 1]] else [""];
      var s := SpaceBefore(cls, lines, i, c);
      s.lines == (lines[..g] + kept + [lines[i]]) + lines[i + 1..] && s.at == g + 1
  {
    var b := BlanksAbove(cls, lines, i);
    var rest := lines[i + 1..];
    assert b == i - g;
    assert lines[i..] == [lines[i]] + rest;
    if b > 1 {
      assert lines[..i - b] + lines[i - 1..] == lines[..g] + [lines[i - 1]] + [lines[i]] + rest;
    } else if b == 1 {
      assert lines == lines[..g] + [lines[g]] + [lines[i]] + rest;
    } else {
      assert lines[..i] + [""] + lines[i..] == lines[..g] + [""] + [lines[i]] + rest;
    }
  }

  /** Below the kept blank line of a pragma line nothing changes. */
  lemma SpaceBeforePragma(cls: string -> LineClass, lines: seq<string>, g: nat, i: nat, c: bool)
    requires 0 < g && i == g + 1 < |lines| && cls(lines[g - 1]) != Blank && cls(lines[g]) == Blank
    ensures SpaceBefore(cls, lines, i, c) == Scan((lines[..g] + [lines[g]] + [lines[i]]) + lines[i + 1..], i, c)
  {
    assert BlanksAbove(cls, lines, i) == 1;
    assert lines == lines[..g] + [lines[g]] + [lines[i]] + lines[i + 1..];
  }

  lemma {:induction false} SpaceBeforeShape(cls: string -> LineClass, lines: seq<string>, g: nat, i: nat,
                                            mode: Mode, c: bool)
    requires Pending(cls, lines, g, i, mode) && i < |lines| && cls(lines[i]) != Blank
    ensures var kept := Kept(lines[g..i], mode, true);
      var s := SpaceBefore(cls, lines, i, c);
      s.lines == (lines[..g] + kept + [lines[i]]) + lines[i + 1..] && s.at == g + |kept|
  {
    var gap := lines[g..i];
    match mode
    case AfterPragma =>
      assert Kept(gap, mode, true) == [lines[g]] by {
        assert |gap| == 1 && gap[0] == lines[g];
      }
      SpaceBeforePragma(cls, lines, g, i, c);
    case AfterContent =>
      assert Kept(gap, mode, true) == if g < i then [lines[i - 1]] else [""] by {
        if g < i {
          assert gap[|gap| - 1] == lines[i - 1];
        }
      }
      SpaceBeforeContent(cls, lines, g, i, c);
    case Top =>
      assert Kept(gap, mode, true) == [];
      assert (lines[..g] + [] + [lines[i]]) + lines[i + 1..] == [lines[i]] + lines[i + 1..] by {
        assert lines[..g] == [];
      }
      SpaceBeforeTop(cls, lines, i, c);
  }

  lemma {:induction false} SpaceAfterShape(cls: string -> LineClass, lines: seq<string>, p: nat, c: bool)
    requires p < |lines|
    ensures var rest := lines[p + 1..];
      var a := BlanksFrom(cls, rest, 0);
      var t := SpaceAfter(cls, lines, p, c);
      a == BlanksFrom(cls, lines, p + 1) && t.at == p + 2
      && t.lines == lines[..p + 1] + GapAfter(rest[..a]) + rest[a..]
  {
    var rest := lines[p + 1..];
    var a := BlanksFrom(cls, rest, 0);
    var a' := BlanksFrom(cls, lines, p + 1);
    assert a == a';
    if a == 1 {
      assert lines == lines[..p + 1] + rest[..1] + rest[1..];
    } else if a > 0 {
      var kept := lines[..p + 1] + lines[p + 1 + a..];
      assert kept[..p + 1] == lines[..p + 1];
      assert kept[p + 1..] == rest[a..];
    } else {
      assert lines[p + 1..] == rest[0..];
    }
  }

  /** Blank lines are gathered into the pending run. */
  lemma {:induction false} SpacedGathers(cls: string -> LineClass, blanks: seq<string>, lines: seq<string>,
                                         gap: seq<string>, mode: Mode)
    requires AllBlank(cls, blanks)
    ensures Spaced(cls, blanks + lines, gap, mode) == Spaced(cls, lines, gap + blanks, mode)
    decreases |blanks|
  {
    if |blanks| == 0 {
      assert blanks + lines == lines && gap + blanks == gap;
    } else {
      assert (blanks + lines)[1..] == blanks[1..] + lines;
      SpacedGathers(cls, blanks[1..], lines, gap + [blanks[0]], mode);
      assert gap + [blanks[0]] + blanks[1..] == gap + blanks;
    }
  }

  /** Below a pragma line, when a non-blank line or the end follows, only the blank
      line that will be kept matters. */
  lemma SettledGap(cls: string -> LineClass, lines: seq<string>, gap1: seq<string>, gap2: seq<string>)
    requires |lines| > 0 ==> cls(lines[0]) != Blank
    requires GapAfter(gap1) == GapAfter(gap2)
    ensures Spaced(cls, lines, gap1, AfterPragma) == Spaced(cls, lines, gap2, AfterPragma)
  {
  }

  /** Reading a pragma line: what is kept above it, the line, and the rest below it. */
  lemma PragmaUnfold(cls: string -> LineClass, lines: seq<string>, i: nat, gap: seq<string>, mode: Mode)
    requires i < |lines| && cls(lines[i]) == Pragma
    ensures Spaced(cls, lines[i..], gap, mode)
      == Kept(gap, mode, true) + [lines[i]] + Spaced(cls, lines[i + 1..], [], AfterPragma)
  {
    assert lines[i..][1..] == lines[i + 1..];
  }

  lemma SplitTwo(pre: seq<string>, post: seq<string>, l: seq<string>)
    requires l == pre + post
    ensures l[..|pre|] == pre && l[|pre|..] == post
  {
  }

  lemma SplitThree(pre: seq<string>, mid: seq<string>, post: seq<string>, l: seq<string>)
    requires l == pre + mid + post
    ensures l[..|pre|] == pre && l[|pre|..|pre| + |mid|] == mid && l[|pre| + |mid|..] == post
  {
  }

  /** The lines after both scans around a pragma line at `i`. */
  lemma {:induction false} PragmaScanShape(cls: string -> LineClass, lines: seq<string>, g: nat, i: nat,
                                           mode: Mode, changed: bool, mid: seq<string>, at: nat, c: bool,
                                           out: seq<string>, next: nat, changedOut: bool)
    requires Pending(cls, lines, g, i, mode) && i < |lines| && cls(lines[i]) == Pragma
    requires Scan(mid, at, c) == SpaceBefore(cls, lines, i, changed)
    requires Scan(out, next, changedOut) == SpaceAfter(cls, mid, at, c)
    ensures var rest := lines[i + 1..];
      var a := BlanksFrom(cls, rest, 0);
      out == (lines[..g] + Kept(lines[g..i], mode, true) + [lines[i]]) + GapAfter(rest[..a]) + rest[a..]
      && next == g + |Kept(lines[g..i], mode, true)| + 2
    ensures !changedOut ==> out == lines && !changed
  {
    SpaceBeforeShape(cls, lines, g, i, mode, changed);
    var pre := lines[..g] + Kept(lines[g..i], mode, true) + [lines[i]];
    SplitTwo(pre, lines[i + 1..], mid);
    SpaceAfterShape(cls, mid, at, c);
  }

  /** The blank lines at the start of `rest`, and what follows them. */
  lemma BlankRun(cls: string -> LineClass, rest: seq<string>)
    requires cls([]) == Blank
    ensures var a := BlanksFrom(cls, rest, 0);
      AllBlank(cls, GapAfter(rest[..a])) && (|rest[a..]| > 0 ==> cls(rest[a..][0]) != Blank)
  {
    var a := BlanksFrom(cls, rest, 0);
    if a == 1 {
      assert rest[..a][0] == rest[0];
    }
    if a < |rest| {
      assert rest[a..][0] == rest[a];
    }
  }

  /** Where the loop stands after a pragma line. */
  lemma {:induction false} PragmaStepPending(cls: string -> LineClass, l: seq<string>, at: nat,
                                             above: seq<string>, p: string, after: seq<string>,
                                             rest: seq<string>)
    requires cls([]) == Blank && cls(p) == Pragma && AllBlank(cls, after)
    requires 2 <= at <= |l| && l[..at - 1] == above + [p] && l[at - 1..at] == after && l[at..] == rest
    requires |rest| > 0 ==> cls(rest[0]) != Blank
    ensures Pending(cls, l, at - 1, at, AfterPragma)
  {
    assert l[at - 2] == l[..at - 1][at - 2];
    assert l[at - 1] == after[0];
    if at < |l| {
      assert l[at] == rest[0];
    }
  }

  /** What the intended result makes of a pragma line at `i`, with the blank lines
      from `g` above it: the part above the line, the line, its one blank line below,
      and the rest after the blank lines below it. */
  lemma {:induction false} PragmaSpacedStep(cls: string -> LineClass, lines: seq<string>, g: nat, i: nat,
                                            mode: Mode)
    requires g <= i < |lines| && cls(lines[i]) == Pragma
    ensures var rest := lines[i + 1..];
      var a := BlanksFrom(cls, rest, 0);
      lines[..g] + Spaced(cls, lines[i..], lines[g..i], mode)
        == (lines[..g] + Kept(lines[g..i], mode, true) + [lines[i]])
           + Spaced(cls, rest[a..], GapAfter(rest[..a]), AfterPragma)
  {
    var rest := lines[i + 1..];
    var a := BlanksFrom(cls, rest, 0);
    var head := Kept(lines[g..i], mode, true) + [lines[i]];
    PragmaUnfold(cls, lines, i, lines[g..i], mode);
    PragmaTail(cls, rest);
    var x := Spaced(cls, rest[a..], GapAfter(rest[..a]), AfterPragma);
    assert Spaced(cls, lines[i..], lines[g..i], mode) == head + x;
    assert lines[..g] + (head + x) == (lines[..g] + head) + x;
  }

  /** Below a pragma line, the blank run is replaced by the one blank line kept. */
  lemma PragmaTail(cls: string -> LineClass, rest: seq<string>)
    ensures var a := BlanksFrom(cls, rest, 0);
      Spaced(cls, rest, [], AfterPragma) == Spaced(cls, rest[a..], GapAfter(rest[..a]), AfterPragma)
  {
    var a := BlanksFrom(cls, rest, 0);
    var blanks, post := rest[..a], rest[a..];
    assert rest == blanks + post;
    assert AllBlank(cls, blanks) by {
      forall k | 0 <= k < |blanks| ensures cls(blanks[k]) == Blank {
        assert blanks[k] == rest[k];
      }
    }
    SpacedGathers(cls, blanks, post, [], AfterPragma);
    assert [] + blanks == blanks;
    if |post| > 0 {
      assert post[0] == rest[a];
    }
    SettledGap(cls, post, blanks, GapAfter(blanks));
  }

  /** Handling a pragma line at `i`, which turns the lines into `out`, completes the
      lines up to the kept blank line below it, as the intended result has them. */
  lemma {:induction false} PragmaStep(cls: string -> LineClass, lines: seq<string>, g: nat, i: nat,
                                      mode: Mode, out: seq<string>, next: nat)
    requires cls([]) == Blank
    requires Pending(cls, lines, g, i, mode) && i < |lines| && cls(lines[i]) == Pragma
    requires var rest := lines[i + 1..];
      var a := BlanksFrom(cls, rest, 0);
      out == (lines[..g] + Kept(lines[g..i], mode, true) + [lines[i]]) + GapAfter(rest[..a]) + rest[a..]
      && next == g + |Kept(lines[g..i], mode, true)| + 2
    ensures 2 <= next && Pending(cls, out, next - 1, next, AfterPragma)
    ensures lines[..g] + Spaced(cls, lines[i..], lines[g..i], mode)
      == out[..next - 1] + Spaced(cls, out[next..], out[next - 1..next], AfterPragma)
    ensures |out| - next < |lines| - i
  {
    var pre := lines[..g] + Kept(lines[g..i], mode, true) + [lines[i]];
    var rest := lines[i + 1..];
    var a := BlanksFrom(cls, rest, 0);
    var after := GapAfter(rest[..a]);
    SplitThree(pre, after, rest[a..], out);
    PragmaSpacedStep(cls, lines, g, i, mode);
    BlankRun(cls, rest);
    PragmaStepPending(cls, out, next, pre[..|pre| - 1], lines[i], after, rest[a..]);
  }

  /** Passing a content line at `i` completes the lines up to it. */
  lemma {:induction false} ContentStep(cls: string -> LineClass, lines: seq<string>, g: nat, i: nat, mode: Mode)
    requires Pending(cls, lines, g, i, mode) && i < |lines| && cls(lines[i]) == Content
    ensures Pending(cls, lines, i + 1, i + 1, AfterContent)
    ensures lines[..g] + Spaced(cls, lines[i..], lines[g..i], mode)
      == lines[..i + 1] + Spaced(cls, lines[i + 1..], lines[i + 1..i + 1], AfterContent)
  {
    assert lines[i..][1..] == lines[i + 1..];
    assert Kept(lines[g..i], mode, false) == lines[g..i];
    assert lines[..g] + lines[g..i] + [lines[i]] == lines[..i + 1];
    assert lines[i + 1..i + 1] == [];
  }

  /** Passing a blank line at `i` adds it to the pending run. */
  lemma {:induction false} BlankStep(cls: string -> LineClass, lines: seq<string>, g: nat, i: nat, mode: Mode)
    requires Pending(cls, lines, g, i, mode) && i < |lines| && cls(lines[i]) == Blank
    ensures Pending(cls, lines, g, i + 1, mode)
    ensures Spaced(cls, lines[i..], lines[g..i], mode) == Spaced(cls, lines[i + 1..], lines[g..i + 1], mode)
  {
    assert lines[i..][1..] == lines[i + 1..];
    assert lines[g..i] + [lines[i]] == lines[g..i + 1];
  }

  /** Passing a line at `i` that is not a pragma line. */
  lemma PassLine(cls: string -> LineClass, lines: seq<string>, g: nat, i: nat, mode: Mode)
    returns (g': nat, mode': Mode)
    requires Pending(cls, lines, g, i, mode) && i < |lines| && cls(lines[i]) != Pragma
    ensures Pending(cls, lines, g', i + 1, mode')
    ensures lines[..g] + Spaced(cls, lines[i..], lines[g..i], mode)
      == lines[..g'] + Spaced(cls, lines[i + 1..], lines[g'..i + 1], mode')
  {
    if cls(lines[i]) == Content {
      ContentStep(cls, lines, g, i, mode);
      g', mode' := i + 1, AfterContent;
    } else {
      BlankStep(cls, lines, g, i, mode);
      g', mode' := g, mode;
    }
  }

  /** At the end, the pending blank lines stay as they are. */
  lemma {:induction false} EndStep(cls: string -> LineClass, lines: seq<string>, g: nat, mode: Mode)
    requires Pending(cls, lines, g, |lines|, mode)
    ensures lines[..g] + Spaced(cls, lines[|lines|..], lines[g..|lines|], mode) == lines
  {
    assert lines[|lines|..] == [];
    assert lines[..g] + lines[g..|lines|] == lines;
  }

  // ---- What the intended result promises ----

  /** The lines that are not blank, in order. */
  function NonBlankLines(cls: string -> LineClass, lines: seq<string>): seq<string>
    decreases |lines|
  {
    if |lines| == 0 then []
    else (if cls(lines[0]) == Blank then [] else [lines[0]]) + NonBlankLines(cls, lines[1..])
  }

  lemma {:induction false} NonBlankAppend(cls: string -> LineClass, a: seq<string>, b: seq<string>)
    ensures NonBlankLines(cls, a + b) == NonBlankLines(cls, a) + NonBlankLines(cls, b)
    decreases |a|
  {
    if |a| == 0 {
      assert a + b == b;
    } else {
      assert (a + b)[1..] == a[1..] + b;
      NonBlankAppend(cls, a[1..], b);
    }
  }

  lemma {:induction false} NonBlankOfBlanks(cls: string -> LineClass, a: seq<string>)
    requires AllBlank(cls, a)
    ensures NonBlankLines(cls, a) == []
    decreases |a|
  {
    if |a| > 0 {
      NonBlankOfBlanks(cls, a[1..]);
    }
  }

  /** Only blank lines are inserted or deleted: the other lines keep their order. */
  lemma {:induction false} SpacedKeepsNonBlank(cls: string -> LineClass, lines: seq<string>,
                                               gap: seq<string>, mode: Mode)
    requires cls([]) == Blank && AllBlank(cls, gap)
    ensures NonBlankLines(cls, Spaced(cls, lines, gap, mode)) == NonBlankLines(cls, lines)
    decreases |lines|
  {
    if |lines| == 0 {
      KeptBlank(cls, gap, mode, false);
      NonBlankOfBlanks(cls, Spaced(cls, lines, gap, mode));
    } else if cls(lines[0]) == Blank {
      assert AllBlank(cls, gap + [lines[0]]);
      SpacedKeepsNonBlank(cls, lines[1..], gap + [lines[0]], mode);
    } else {
      var pragma := cls(lines[0]) == Pragma;
      var m := if pragma then AfterPragma else AfterContent;
      var kept := Kept(gap, mode, pragma);
      var tail := Spaced(cls, lines[1..], [], m);
      KeptBlank(cls, gap, mode, pragma);
      SpacedKeepsNonBlank(cls, lines[1..], [], m);
      NonBlankAppend(cls, kept + [lines[0]], tail);
      NonBlankAppend(cls, kept, [lines[0]]);
      NonBlankOfBlanks(cls, kept);
      assert NonBlankLines(cls, [lines[0]]) == [lines[0]] by {
        assert [lines[0]][1..] == [];
      }
      assert NonBlankLines(cls, kept + [lines[0]]) == [lines[0]];
    }
  }

  /** The line at `k` has exactly one blank line below it. */
  predicate OneBlankBelow(cls: string -> LineClass, out: seq<string>, k: int)
  {
    0 <= k && k + 1 < |out| && cls(out[k + 1]) == Blank && (k + 2 == |out| || cls(out[k + 2]) != Blank)
  }

  /** The line at `k` has exactly one blank line above it, below a non-blank line. */
  predicate OneBlankAbove(cls: string -> LineClass, out: seq<string>, k: int)
  {
    2 <= k <= |out| && cls(out[k - 1]) == Blank && cls(out[k - 2]) != Blank
  }

  /** Every pragma line is followed by exactly one blank line. */
  predicate PragmaFollowed(cls: string -> LineClass, out: seq<string>)
  {
    forall k :: 0 <= k < |out| && cls(out[k]) == Pragma ==> OneBlankBelow(cls, out, k)
  }

  /** Below a pragma line comes exactly one blank line, then a non-blank line or the end. */
  lemma {:induction false} HeadAfterPragma(cls: string -> LineClass, lines: seq<string>, gap: seq<string>)
    requires cls([]) == Blank && AllBlank(cls, gap)
    ensures var out := Spaced(cls, lines, gap, AfterPragma);
      |out| >= 1 && cls(out[0]) == Blank && (|out| == 1 || cls(out[1]) != Blank)
    decreases |lines|
  {
    KeptBlank(cls, gap, AfterPragma, true);
    if |lines| > 0 && cls(lines[0]) == Blank {
      HeadAfterPragma(cls, lines[1..], gap + [lines[0]]);
    }
  }

  lemma {:induction false} SpacedFollowed(cls: string -> LineClass, lines: seq<string>, gap: seq<string>, mode: Mode)
    requires cls([]) == Blank && AllBlank(cls, gap)
    ensures PragmaFollowed(cls, Spaced(cls, lines, gap, mode))
    decreases |lines|
  {
    KeptBlank(cls, gap, mode, false);
    if |lines| > 0 && cls(lines[0]) == Blank {
      SpacedFollowed(cls, lines[1..], gap + [lines[0]], mode);
    } else if |lines| > 0 {
      var out := Spaced(cls, lines, gap, mode);
      var pragma := cls(lines[0]) == Pragma;
      var m := if pragma then AfterPragma else AfterContent;
      var kept := Kept(gap, mode, pragma);
      var pre := kept + [lines[0]];
      var tail := Spaced(cls, lines[1..], [], m);
      KeptBlank(cls, gap, mode, pragma);
      SpacedFollowed(cls, lines[1..], [], m);
      if pragma {
        HeadAfterPragma(cls, lines[1..], []);
      }
      assert out == pre + tail;
      forall k | 0 <= k < |out| && cls(out[k]) == Pragma
        ensures OneBlankBelow(cls, out, k)
      {
        if k == |kept| {
          assert out[k + 1] == tail[0];
          if k + 2 < |out| {
            assert out[k + 2] == tail[1];
          }
        } else if k > |kept| {
          var t := k - |pre|;
          assert out[k] == tail[t];
          assert out[k + 1] == tail[t + 1];
          if k + 2 < |out| {
            assert out[k + 2] == tail[t + 2];
          }
        }
      }
    }
  }

  /** Where a pragma line may sit in what `Spaced` produces after `mode`: first, at the
      top of the file; second, after one blank line, below earlier lines; or after one
      blank line that follows a non-blank line. */
  predicate PragmaPreceded(cls: string -> LineClass, out: seq<string>, mode: Mode)
  {
    forall k :: 0 <= k < |out| && cls(out[k]) == Pragma ==>
      (k == 0 && mode == Top) || (k == 1 && mode != Top && cls(out[0]) == Blank) || OneBlankAbove(cls, out, k)
  }

  /** A non-blank line `x` below the blank lines `kept`, above `tail`: a pragma line is
      placed as `mode` allows when `kept` is what the intended result keeps above it. */
  lemma PrecededConcat(cls: string -> LineClass, kept: seq<string>, x: string, tail: seq<string>,
                       mode: Mode, m: Mode)
    requires AllBlank(cls, kept) && cls(x) != Blank && m != Top
    requires cls(x) == Pragma ==> |kept| == (if mode == Top then 0 else 1)
    requires PragmaPreceded(cls, tail, m)
    ensures PragmaPreceded(cls, kept + [x] + tail, mode)
  {
    var pre := kept + [x];
    var out := pre + tail;
    forall k | 0 <= k < |out| && cls(out[k]) == Pragma
      ensures (k == 0 && mode == Top) || (k == 1 && mode != Top && cls(out[0]) == Blank)
        || OneBlankAbove(cls, out, k)
    {
      if k == |kept| {
        assert out[k] == x;
        if mode != Top {
          assert out[0] == kept[0];
        }
      } else if k > |kept| {
        var t := k - |pre|;
        assert out[k] == tail[t];
        if t == 1 {
          assert out[k - 1] == tail[0];
          assert out[k - 2] == x;
        } else if t >= 2 {
          assert out[k - 1] == tail[t - 1];
          assert out[k - 2] == tail[t - 2];
        }
      }
    }
  }

  lemma {:induction false} SpacedPreceded(cls: string -> LineClass, lines: seq<string>, gap: seq<string>, mode: Mode)
    requires cls([]) == Blank && AllBlank(cls, gap)
    ensures PragmaPreceded(cls, Spaced(cls, lines, gap, mode), mode)
    decreases |lines|
  {
    KeptBlank(cls, gap, mode, false);
    if |lines| > 0 && cls(lines[0]) == Blank {
      SpacedPreceded(cls, lines[1..], gap + [lines[0]], mode);
    } else if |lines| > 0 {
      var pragma := cls(lines[0]) == Pragma;
      var m := if pragma then AfterPragma else AfterContent;
      KeptBlank(cls, gap, mode, pragma);
      SpacedPreceded(cls, lines[1..], [], m);
      PrecededConcat(cls, Kept(gap, mode, pragma), lines[0], Spaced(cls, lines[1..], [], m), mode, m);
    }
  }

  /** The spacing rules hold in the result, and the non-blank lines are those of the
      input in their order. */
  lemma NormalizedSpacing(cls: string -> LineClass, lines: seq<string>)
    requires cls([]) == Blank
    ensures var out := Normalized(cls, lines);
      PragmaFollowed(cls, out)
      && (forall k :: 0 <= k < |out| && cls(out[k]) == Pragma ==> k == 0 || OneBlankAbove(cls, out, k))
      && NonBlankLines(cls, out) == NonBlankLines(cls, lines)
  {
    SpacedFollowed(cls, lines, [], Top);
    SpacedPreceded(cls, lines, [], Top);
    SpacedKeepsNonBlank(cls, lines, [], Top);
  }

  /** A content line cuts the result in two: what comes after it is spaced as if it
      followed content. */
  lemma {:induction false} SpacedSplitsAtContent(cls: string -> LineClass, a: seq<string>, x: string,
                                                 c: seq<string>, gap: seq<string>, mode: Mode)
    requires cls(x) == Content
    ensures Spaced(cls, a + [x] + c, gap, mode)
      == Spaced(cls, a + [x], gap, mode) + Spaced(cls, c, [], AfterContent)
    decreases |a|
  {
    if |a| == 0 {
      assert a + [x] + c == [x] + c && a + [x] == [x];
      assert ([x] + c)[1..] == c && [x][1..] == [];
    } else {
      var h, t := a[0], a[1..];
      assert a + [x] + c == [h] + (t + [x] + c) && a + [x] == [h] + (t + [x]);
      assert ([h] + (t + [x] + c))[1..] == t + [x] + c;
      assert ([h] + (t + [x]))[1..] == t + [x];
      var after := Spaced(cls, c, [], AfterContent);
      if cls(h) == Blank {
        SpacedSplitsAtContent(cls, t, x, c, gap + [h], mode);
      } else {
        var m := if cls(h) == Pragma then AfterPragma else AfterContent;
        SpacedSplitsAtContent(cls, t, x, c, [], m);
        var head := Kept(gap, mode, cls(h) == Pragma) + [h];
        var mid := Spaced(cls, t + [x], [], m);
        assert head + (mid + after) == (head + mid) + after;
      }
    }
  }

  /** The blank lines between two content lines are left as they are. */
  lemma {:induction false} SpacedKeepsContentGap(cls: string -> LineClass, a: seq<string>, x: string,
                                                 blanks: seq<string>, y: string, c: seq<string>,
                                                 gap: seq<string>, mode: Mode)
    requires cls(x) == Content && cls(y) == Content && AllBlank(cls, blanks)
    ensures Spaced(cls, a + [x] + blanks + [y] + c, gap, mode)
      == Spaced(cls, a + [x], gap, mode) + blanks + [y] + Spaced(cls, c, [], AfterContent)
  {
    var t := blanks + ([y] + c);
    assert a + [x] + blanks + [y] + c == a + [x] + t;
    SpacedSplitsAtContent(cls, a, x, t, gap, mode);
    SpacedGathers(cls, blanks, [y] + c, [], AfterContent);
    assert [] + blanks == blanks;
    assert ([y] + c)[1..] == c;
  }

  /** The result is empty only for an empty input, and its last line is the input's
      last line or an inserted empty line. */
  lemma {:induction false} SpacedLast(cls: string -> LineClass, lines: seq<string>, gap: seq<string>, mode: Mode)
    ensures var out := Spaced(cls, lines, gap, mode);
      (|out| == 0 ==> |lines| == 0)
      && (|out| > 0 ==>
            (out[|out| - 1] == [] || (|lines| > 0 && out[|out| - 1] == lines[|lines| - 1])
             || (|lines| == 0 && |gap| > 0 && out[|out| - 1] == gap[|gap| - 1])))
    decreases |lines|
  {
    if |lines| > 0 {
      var rest := lines[1..];
      if |rest| > 0 {
        assert rest[|rest| - 1] == lines[|lines| - 1];
      }
      if cls(lines[0]) == Blank {
        SpacedLast(cls, rest, gap + [lines[0]], mode);
      } else {
        var pragma := cls(lines[0]) == Pragma;
        var m := if pragma then AfterPragma else AfterContent;
        SpacedLast(cls, rest, [], m);
        var tail := Spaced(cls, rest, [], m);
        var out := Kept(gap, mode, pragma) + [lines[0]] + tail;
        if |tail| > 0 {
          assert out[|out| - 1] == tail[|tail| - 1];
        }
      }
    }
  }

  /** Without a pragma line nothing changes. */
  lemma {:induction false} SpacedWithoutPragma(cls: string -> LineClass, lines: seq<string>,
                                               gap: seq<string>, mode: Mode)
    requires !HasPragma(cls, lines) && mode != AfterPragma
    ensures Spaced(cls, lines, gap, mode) == gap + lines
    decreases |lines|
  {
    if |lines| > 0 {
      assert cls(lines[0]) != Pragma;
      assert !HasPragma(cls, lines[1..]) by {
        forall k | 0 <= k < |lines[1..]|
          ensures cls(lines[1..][k]) != Pragma
        {
          assert lines[1..][k] == lines[k + 1];
        }
      }
      if cls(lines[0]) == Blank {
        SpacedWithoutPragma(cls, lines[1..], gap + [lines[0]], mode);
      } else {
        SpacedWithoutPragma(cls, lines[1..], [], AfterContent);
      }
      assert gap + lines == gap + [lines[0]] + lines[1..];
    }
  }

  /** A trailing newline is kept; none is added unless the result ends with an
      inserted empty line (below a pragma line at the end of the file). */
  lemma NormalizedEnding(cls: string -> LineClass, text: string)
    ensures var out := Normalized(cls, SplitLines(text));
      (EndsWith(text, "\n") ==> EndsWith(JoinedText(out, text), "\n"))
      && ((|out| == 0 || out[|out| - 1] != []) ==>
            (EndsWith(JoinedText(out, text), "\n") <==> EndsWith(text, "\n")))
  {
    var lines := SplitLines(text);
    var out := Normalized(cls, lines);
    SpacedLast(cls, lines, [], Top);
    SplitLinesNoBreaks(text);
    if |out| == 0 || out[|out| - 1] != [] {
      JoinedEnding(out, text);
    } else {
      var j := Join(out, "\n");
      if EndsWith(text, "\n") {
        assert (j + "\n")[|j + "\n"| - 1..] == "\n";
      }
    }
  }

  // ---- The stale positions ----

  /** A line that starts with neither white space nor `#` is content. */
  lemma PlainLineClass(line: string)
    requires |line| > 0 && !IsSpace(line[0]) && line[0] != '#'
    ensures Class(line) == Content
  {
    StripEmptyIffBlank(line);
    assert SpaceRun(line, false) == 0;
  }

  /** The empty line is blank. */
  lemma EmptyLineClass()
    ensures Class("") == Blank
  {
    StripEmptyIffBlank("");
  }

  lemma SampleIndices(cls: string -> LineClass, x: string, p: string, a: string, b: string)
    requires cls("") == Blank && cls(p) == Pragma
    requires cls(x) == Content && cls(a) == Content && cls(b) == Content
    ensures PragmaIndices(cls, [x, "", "", "", p, a, b], 0) == [4]
  {
    var lines := [x, "", "", "", p, a, b];
    assert PragmaIndices(cls, lines, 5) == [] by {
      assert PragmaIndices(cls, lines, 6) == [];
    }
    assert PragmaIndices(cls, lines, 3) == [4];
    assert PragmaIndices(cls, lines, 1) == [4];
  }

  /** The pass at the pragma line: the surplus blank lines above it go and one is
      inserted below it; the remembered index 4 is left as it was. */
  lemma SampleFirstPass(cls: string -> LineClass, x: string, p: string, a: string, b: string)
    requires cls("") == Blank && cls(p) == Pragma
    requires cls(x) == Content && cls(a) == Content && cls(b) == Content
    ensures RunAsWritten(cls, [x, "", "", "", p, a, b], [4], 4, false)
      == RunAsWritten(cls, [x, "", p, "", a, b], [4], 4, true)
  {
    var lines := [x, "", "", "", p, a, b];
    assert BlanksAbove(cls, lines, 1) == 0;
    assert BlanksAbove(cls, lines, 2) == 1;
    assert BlanksAbove(cls, lines, 4) == 3;
    var l2 := [x, "", p, a, b];
    assert lines[..1] + lines[3..] == l2;
    assert SpaceBefore(cls, lines, 4, false) == Scan(l2, 2, true);
    assert BlanksFrom(cls, l2, 3) == 0;
    var l3 := [x, "", p, "", a, b];
    assert l2[..3] + [""] + l2[3..] == l3;
    assert SpaceAfter(cls, l2, 2, true) == Scan(l3, 4, true);
    assert Reindexed(cls, lines, 4, [4]) == [4];
  }

  /** The stale pass: index 4 now holds `a`, which gets a blank line inserted below it. */
  lemma SampleStalePass(cls: string -> LineClass, x: string, p: string, a: string, b: string)
    requires cls("") == Blank && cls(p) == Pragma
    requires cls(x) == Content && cls(a) == Content && cls(b) == Content
    ensures RunAsWritten(cls, [x, "", p, "", a, b], [4], 4, true) == ([x, "", p, "", a, "", b], true)
  {
    var l3 := [x, "", p, "", a, b];
    assert BlanksAbove(cls, l3, 4) == 1;
    assert SpaceBefore(cls, l3, 4, true) == Scan(l3, 4, true);
    assert BlanksFrom(cls, l3, 5) == 0;
    var l4 := [x, "", p, "", a, "", b];
    assert l3[..5] + [""] + l3[5..] == l4;
    assert SpaceAfter(cls, l3, 4, true) == Scan(l4, 6, true);
    assert Reindexed(cls, l3, 4, [4]) == [4];
    assert RunAsWritten(cls, l4, [4], 6, true) == (l4, true);
  }

  /** Three blank lines between a content line `x` and the pragma line `p`: the
      surplus blanks go, but the pragma line's old index stays remembered, so the line
      `a` that now sits there is handled as a pragma line too and gets a blank line
      inserted below it. */
  lemma AsWrittenSplitsContentFor(cls: string -> LineClass, x: string, p: string, a: string, b: string)
    requires cls("") == Blank && cls(p) == Pragma
    requires cls(x) == Content && cls(a) == Content && cls(b) == Content
    ensures var lines := [x, "", "", "", p, a, b];
      RunAsWritten(cls, lines, PragmaIndices(cls, lines, 0), 0, false) == ([x, "", p, "", a, "", b], true)
  {
    var lines := [x, "", "", "", p, a, b];
    SampleIndices(cls, x, p, a, b);
    SampleFirstPass(cls, x, p, a, b);
    SampleStalePass(cls, x, p, a, b);
    assert RunAsWritten(cls, lines, [4], 2, false) == RunAsWritten(cls, lines, [4], 4, false);
    assert RunAsWritten(cls, lines, [4], 0, false) == RunAsWritten(cls, lines, [4], 2, false);
  }

  /** The intended result of the same input keeps `a` and `b` together. */
  lemma NormalizedKeepsContentFor(cls: string -> LineClass, x: string, p: string, a: string, b: string)
    requires cls("") == Blank && cls(p) == Pragma
    requires cls(x) == Content && cls(a) == Content && cls(b) == Content
    ensures Normalized(cls, [x, "", "", "", p, a, b]) == [x, "", p, "", a, b]
  {
    var tail := [a, b];
    assert Spaced(cls, [b], [], AfterContent) == [b];
    assert Spaced(cls, tail, [], AfterPragma) == [""] + tail;
    var l := [p] + tail;
    assert Spaced(cls, l, ["", "", ""], AfterContent) == [""] + [p] + [""] + tail;
    SpacedGathers(cls, ["", "", ""], l, [], AfterContent);
    assert ["", "", ""] + l == ["", "", "", p, a, b];
    assert [x, "", "", "", p, a, b][1..] == ["", "", "", p, a, b];
  }

  /** The script's loop on a header with one pragma line below three blank lines and
      two content lines after it, such as `int a;` (see `PlainLineClass`): the second
      content line is split from the first by an inserted blank line. */
  lemma AsWrittenSplitsContent(c: string)
    requires Class(c) == Content
    ensures var lines := [c, "", "", "", PragmaLine, c, c];
      RunAsWritten(Class, lines, PragmaIndices(Class, lines, 0), 0, false)
        == ([c, "", PragmaLine, "", c, "", c], true)
  {
    EmptyLineClass();
    PragmaLineClass();
    AsWrittenSplitsContentFor(Class, c, PragmaLine, c, c);
  }

  /** The intended result on the same header keeps the two content lines together. */
  lemma NormalizedKeepsContent(c: string)
    requires Class(c) == Content
    ensures Normalized(Class, [c, "", "", "", PragmaLine, c, c]) == [c, "", PragmaLine, "", c, c]
  {
    EmptyLineClass();
    PragmaLineClass();
    NormalizedKeepsContentFor(Class, c, PragmaLine, c, c);
  }

}
