/** `replace_guard_with_pragma_once`: a header without `#pragma once` whose classic
    include guard encloses real content gets the guard replaced by a single
    `#pragma once` line. */
module ReplaceGuards {
  import opened PyText
  import opened Wrappers
  import opened IncludeGuards

  /** The guard's `#if` must be among the first 200 lines ... */
  const SearchWindow: nat := 200
  /** ... and its `#define` within 12 lines of it. */
  const DefineLookahead: nat := 12

  /** Some line at index `s` or later survives the removals. */
  predicate KeptFrom(n: nat, remove: set<nat>, s: nat)
  {
    exists k :: s <= k < n && k !in remove
  }

  /** The kept lines with `#pragma once` where the guard's `#if` stood, after the
      kept lines that came before it; first when no line from the `#if` on is kept. */
  function WithPragma(lines: seq<string>, remove: set<nat>, iIf: nat): seq<string>
    requires iIf <= |lines|
  {
    if KeptFrom(|lines|, remove, iIf) then Keep(lines[..iIf], remove) + [PragmaLine] + KeepFrom(lines, remove, iIf)
    else [PragmaLine] + Keep(lines, remove)
  }

  /** The `for ... else` loop that computes where `#pragma once` is inserted: the
      number of kept lines before the first kept line at or after the `#if`. */
  method InsertionIndex(lines: seq<string>, remove: set<nat>, iIf: nat) returns (ins: nat)
    requires iIf <= |lines|
    ensures KeptFrom(|lines|, remove, iIf) ==> ins == |Keep(lines[..iIf], remove)|
    ensures !KeptFrom(|lines|, remove, iIf) ==> ins == 0
  {
    var count := 0;
    var idx := 0;
    while idx < |lines|
      invariant idx <= |lines|
      invariant count == |Keep(lines[..idx], remove)|
      invariant forall k :: iIf <= k < idx ==> k in remove
    {
      KeepSnoc(lines, remove, idx);
      if idx in remove {
        idx := idx + 1;
        continue;
      }
      if idx >= iIf {
        KeepRemovedRange(lines, remove, iIf, idx);
        return count;
      }
      count := count + 1;
      idx := idx + 1;
    }
    return 0;
  }

  /** The lines a change produces. */
  function ChangedLines(info: string -> LineInfo, lines: seq<string>, g: Guard): seq<string>
    requires g.ifLine < g.defineLine < g.endifLine < |lines|
  {
    Trimmed(info, WithPragma(lines, RemovalSet(info, lines, g), g.ifLine))
  }

  /** What the script returns for the text `t`, already without byte-order marks,
      split into `lines`. */
  function ReplacedLines(info: string -> LineInfo, t: string, lines: seq<string>): Outcome
  {
    if HasPragmaOnce(info, lines) then Outcome(t, false, Some("already has #pragma once"))
    else
      match FirstGuard(info, lines, SearchWindow, DefineLookahead)
      case None => Outcome(t, false, Some("no classic guard detected"))
      case Some(g) =>
        if !Substantive(info, lines, g.defineLine + 1, g.endifLine) then
          Outcome(t, false, Some("guard region has no content (macro wrapper)"))
        else
          Outcome(JoinedText(ChangedLines(info, lines, g), t), true, None)
  }

  /** What the script returns for `text`. */
  function Replaced(info: string -> LineInfo, text: string): Outcome
  {
    ReplacedLines(info, StripBom(text), SplitLines(StripBom(text)))
  }

  /** `replace_guard_with_pragma_once`. */
  method ReplaceGuardWithPragmaOnce(info: string -> LineInfo, text: string) returns (r: Outcome)
    ensures r == Replaced(info, text)
    ensures !r.changed ==> r.text == StripBom(text) && r.reason.Some?
  {
    var t := StripBom(text);
    var lines := SplitLines(t);
    if HasPragmaOnce(info, lines) {
      return Outcome(t, false, Some("already has #pragma once"));
    }
    var found := FindGuard(info, lines, SearchWindow, DefineLookahead);
    if found.None? {
      return Outcome(t, false, Some("no classic guard detected"));
    }
    var g := found.value;
    var substantive := HasSubstantiveContent(info, lines, g.defineLine + 1, g.endifLine);
    if !substantive {
      return Outcome(t, false, Some("guard region has no content (macro wrapper)"));
    }
    var newLines := RebuildLines(info, lines, g);
    return Outcome(JoinedText(newLines, t), true, None);
  }

  /** The rebuild: drop the removal set, insert `#pragma once`, trim blank edges. */
  method RebuildLines(info: string -> LineInfo, lines: seq<string>, g: Guard) returns (newLines: seq<string>)
    requires g.ifLine < g.defineLine < g.endifLine < |lines|
    ensures newLines == ChangedLines(info, lines, g)
  {
    var remove := RemovalSet(info, lines, g);
    newLines := Keep(lines, remove);
    var ins := InsertionIndex(lines, remove, g.ifLine);
    KeepSplit(lines, remove, g.ifLine);
    newLines := newLines[..ins] + [PragmaLine] + newLines[ins..];
    assert newLines == WithPragma(lines, remove, g.ifLine);
    newLines := TrimBlankEdges(info, newLines);
  }

  /** The fallback of the insertion loop never happens: the substantive line of the
      guarded region is kept, and it comes after the `#if`. */
  lemma {:induction false} FallbackUnreachable(info: string -> LineInfo, lines: seq<string>, g: Guard)
    requires Sound(info)
    requires g.ifLine < g.defineLine < g.endifLine < |lines|
    requires Substantive(info, lines, g.defineLine + 1, g.endifLine)
    ensures KeptFrom(|lines|, RemovalSet(info, lines, g), g.ifLine)
  {
    var k :| g.defineLine + 1 <= k < g.endifLine && !info(lines[k]).commentOrBlank;
    RemovalSetShape(info, lines, g);
    assert k !in RemovalSet(info, lines, g);
  }

  /** With no pragma line among the input lines, the rebuilt lines hold exactly
      one: the inserted `#pragma once`. */
  lemma {:induction false} WithPragmaHasOne(info: string -> LineInfo, lines: seq<string>, remove: set<nat>, iIf: nat)
    requires Sound(info) && iIf <= |lines| && AllNoBreaks(lines)
    requires PragmaCount(info, lines) == 0
    ensures var body := WithPragma(lines, remove, iIf);
      PragmaCount(info, body) == 1 && PragmaLine in body && AllNoBreaks(body)
  {
    var body := WithPragma(lines, remove, iIf);
    var before := Keep(lines[..iIf], remove);
    var after := KeepFrom(lines, remove, iIf);
    assert lines == lines[..iIf] + lines[iIf..];
    PragmaCountAppend(info, lines[..iIf], lines[iIf..]);
    assert lines[..iIf][0..] == lines[..iIf];
    assert lines[0..] == lines;
    PragmaCountKeep(info, lines[..iIf], remove, 0);
    PragmaCountKeep(info, lines, remove, iIf);
    PragmaCountKeep(info, lines, remove, 0);
    assert AllNoBreaks(lines[..iIf]);
    KeepNoBreaks(lines[..iIf], remove, 0);
    KeepNoBreaks(lines, remove, iIf);
    KeepNoBreaks(lines, remove, 0);
    PragmaLineNoBreaks();
    if KeptFrom(|lines|, remove, iIf) {
      PragmaCountAppend(info, before + [PragmaLine], after);
      PragmaCountAppend(info, before, [PragmaLine]);
      assert body[|before|] == PragmaLine;
    } else {
      PragmaCountAppend(info, [PragmaLine], Keep(lines, remove));
      assert body[0] == PragmaLine;
    }
  }

  /** Trimming keeps the single pragma line and the absence of line boundaries,
      and leaves a non-blank last line. */
  lemma {:induction false} TrimmedHasOne(info: string -> LineInfo, body: seq<string>)
    requires Sound(info) && AllNoBreaks(body)
    requires PragmaCount(info, body) == 1 && PragmaLine in body
    ensures var out := Trimmed(info, body);
      PragmaCount(info, out) == 1 && PragmaLine in out && AllNoBreaks(out)
      && |out| > 0 && !info(out[|out| - 1]).blank && out[|out| - 1] != []
  {
    TrimmedShape(info, body);
    PragmaCountTrimmed(info, body);
    TrimmedNoBreaks(info, body);
    var k :| 0 <= k < |body| && body[k] == PragmaLine;
    var a, b := TrimStart(info, body), TrimEnd(info, body);
    assert a <= k < b;
    assert Trimmed(info, body)[k - a] == PragmaLine;
  }

  /** What a change requires of the input: no pragma line, a guard, and content
      inside it. */
  lemma {:induction false} ReplacedChangedShape(info: string -> LineInfo, t: string, lines: seq<string>)
    requires ReplacedLines(info, t, lines).changed
    ensures !HasPragmaOnce(info, lines) && FirstGuard(info, lines, SearchWindow, DefineLookahead).Some?
      && var g := FirstGuard(info, lines, SearchWindow, DefineLookahead).value;
      Substantive(info, lines, g.defineLine + 1, g.endifLine)
      && ReplacedLines(info, t, lines).text == JoinedText(ChangedLines(info, lines, g), t)
  {
  }

  /** The lines of a change hold exactly one pragma line, the inserted one, and
      end with a non-blank line. */
  lemma {:induction false} ChangedLinesFacts(info: string -> LineInfo, t: string)
    requires Sound(info)
    requires ReplacedLines(info, t, SplitLines(t)).changed
    ensures var lines := SplitLines(t);
      FirstGuard(info, lines, SearchWindow, DefineLookahead).Some?
      && var out := ChangedLines(info, lines, FirstGuard(info, lines, SearchWindow, DefineLookahead).value);
      ReplacedLines(info, t, lines).text == JoinedText(out, t)
      && PragmaCount(info, out) == 1 && PragmaLine in out && AllNoBreaks(out)
      && |out| > 0 && out[|out| - 1] != []
  {
    var lines := SplitLines(t);
    ReplacedChangedShape(info, t, lines);
    var g := FirstGuard(info, lines, SearchWindow, DefineLookahead).value;
    assert PragmaCount(info, lines) == 0 by {
      HasPragmaIffCount(info, lines);
    }
    assert AllNoBreaks(lines) by {
      SplitLinesNoBreaks(t);
    }
    ChangedLinesOne(info, lines, g);
  }

  lemma {:induction false} ChangedLinesOne(info: string -> LineInfo, lines: seq<string>, g: Guard)
    requires Sound(info) && AllNoBreaks(lines) && PragmaCount(info, lines) == 0
    requires g.ifLine < g.defineLine < g.endifLine < |lines|
    requires Substantive(info, lines, g.defineLine + 1, g.endifLine)
    ensures var out := ChangedLines(info, lines, g);
      PragmaCount(info, out) == 1 && PragmaLine in out && AllNoBreaks(out)
      && |out| > 0 && out[|out| - 1] != []
  {
    var remove := RemovalSet(info, lines, g);
    FallbackUnreachable(info, lines, g);
    WithPragmaHasOne(info, lines, remove, g.ifLine);
    TrimmedHasOne(info, WithPragma(lines, remove, g.ifLine));
  }

  /** On a change, the output's lines are the input's with the guard's `#if`,
      `#define` and `#endif` (and their adjacent blanks) gone, `#pragma once` in the
      `#if`'s place and no blank edge lines; exactly one line is a pragma line, and
      the output ends with a newline exactly when the input does. */
  lemma {:induction false} ReplacedChange(info: string -> LineInfo, text: string)
    requires Sound(info)
    requires Replaced(info, text).changed
    ensures var t := StripBom(text);
      var lines := SplitLines(t);
      var out := SplitLines(Replaced(info, text).text);
      FirstGuard(info, lines, SearchWindow, DefineLookahead).Some?
      && var g := FirstGuard(info, lines, SearchWindow, DefineLookahead).value;
      var remove := RemovalSet(info, lines, g);
      out == Trimmed(info, Keep(lines[..g.ifLine], remove) + [PragmaLine] + KeepFrom(lines, remove, g.ifLine))
      && PragmaCount(info, out) == 1 && PragmaLine in out
      && (EndsWith(Replaced(info, text).text, "\n") <==> EndsWith(t, "\n"))
  {
    var t := StripBom(text);
    ChangedLinesFacts(info, t);
    var lines := SplitLines(t);
    var g := FirstGuard(info, lines, SearchWindow, DefineLookahead).value;
    FallbackUnreachable(info, lines, g);
    var out := ChangedLines(info, lines, g);
    RejoinedLines(out, t);
    JoinedEnding(out, t);
  }

  /** A second run on changed output finds `#pragma once` and changes nothing. */
  lemma {:induction false} ReplaceAgainAfterChange(info: string -> LineInfo, text: string)
    requires Sound(info) && Replaced(info, text).changed
    ensures Replaced(info, Replaced(info, text).text)
      == Outcome(StripBom(Replaced(info, text).text), false, Some("already has #pragma once"))
  {
    var r := Replaced(info, text);
    var t := StripBom(text);
    ChangedLinesFacts(info, t);
    var lines := SplitLines(t);
    var out := ChangedLines(info, lines, FirstGuard(info, lines, SearchWindow, DefineLookahead).value);
    RejoinedKeepsPragma(out, t);
    var again := SplitLines(StripBom(r.text));
    var k :| 0 <= k < |again| && again[k] == PragmaLine;
    assert info(again[k]).pragmaOnce;
  }

  /** A second run on unchanged output gives the same answer. */
  lemma {:induction false} ReplaceAgainAfterNoChange(info: string -> LineInfo, text: string)
    requires !Replaced(info, text).changed
    ensures Replaced(info, Replaced(info, text).text) == Replaced(info, text)
  {
    var t := StripBom(text);
    assert Replaced(info, text).text == t by {
      UnchangedText(info, t, SplitLines(t));
    }
    StripBomTwice(text);
    assert Replaced(info, t) == ReplacedLines(info, t, SplitLines(t));
  }

  /** Unchanged text is the input without byte-order marks, with a reason. */
  lemma {:induction false} UnchangedText(info: string -> LineInfo, t: string, lines: seq<string>)
    requires !ReplacedLines(info, t, lines).changed
    ensures ReplacedLines(info, t, lines).text == t && ReplacedLines(info, t, lines).reason.Some?
  {
  }

  /** Running the script on its own output changes nothing: the output already
      has `#pragma once`, and unchanged text comes back as it was. */
  lemma ReplaceIdempotent(info: string -> LineInfo, text: string)
    requires Sound(info)
    ensures var r := Replaced(info, text);
      var again := Replaced(info, r.text);
      !again.changed && again.text == StripBom(r.text)
      && (r.changed ==> again.reason == Some("already has #pragma once"))
      && (!r.changed ==> again == r)
  {
    if Replaced(info, text).changed {
      ReplaceAgainAfterChange(info, text);
    } else {
      ReplaceAgainAfterNoChange(info, text);
      StripBomTwice(text);
    }
  }

  /** The script with its own patterns. */
  method ReplaceIncludeGuard(text: string) returns (r: Outcome)
    ensures r == Replaced(Info, text)
    ensures r.changed ==> PragmaCount(Info, SplitLines(r.text)) == 1
    ensures !Replaced(Info, r.text).changed
  {
    InfoSound();
    r := ReplaceGuardWithPragmaOnce(Info, text);
    if r.changed {
      ReplacedChange(Info, text);
    }
    ReplaceIdempotent(Info, text);
  }
}
