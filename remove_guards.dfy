/** `remove_guard_from_text`: a header that already has `#pragma once` and whose
    classic include guard encloses real content loses the guard's `#if`, `#define`
    and `#endif` lines. */
module RemoveGuards {
  import opened PyText
  import opened Wrappers
  import opened IncludeGuards

  /** The guard's `#if` must be among the first 150 lines ... */
  const SearchWindow: nat := 150
  /** ... and its `#define` within 10 lines of it. */
  const DefineLookahead: nat := 10

  /** The lines without the guard, blank edges trimmed. */
  function GuardlessLines(info: string -> LineInfo, lines: seq<string>, g: Guard): seq<string>
    requires g.ifLine < g.defineLine < g.endifLine < |lines|
  {
    Trimmed(info, Keep(lines, RemovalSet(info, lines, g)))
  }

  /** What the script returns for the text `t`, already without byte-order marks,
      split into `lines`. */
  function RemovedLines(info: string -> LineInfo, t: string, lines: seq<string>): Outcome
  {
    if !HasPragmaOnce(info, lines) then Outcome(t, false, Some("no #pragma once"))
    else
      match FirstGuard(info, lines, SearchWindow, DefineLookahead)
      case None => Outcome(t, false, Some("no classic guard detected"))
      case Some(g) =>
        if !Substantive(info, lines, g.defineLine + 1, g.endifLine) then
          Outcome(t, false, Some("guard region has no content (macro wrapper)"))
        else
          Outcome(JoinedText(GuardlessLines(info, lines, g), t), true, None)
  }

  /** What the script returns for `text`. */
  function Removed(info: string -> LineInfo, text: string): Outcome
  {
    RemovedLines(info, StripBom(text), SplitLines(StripBom(text)))
  }

  /** `remove_guard_from_text`. */
  method RemoveGuardFromText(info: string -> LineInfo, text: string) returns (r: Outcome)
    ensures r == Removed(info, text)
    ensures !r.changed ==> r.text == StripBom(text) && r.reason.Some?
  {
    var t := StripBom(text);
    var lines := SplitLines(t);
    if !HasPragmaOnce(info, lines) {
      return Outcome(t, false, Some("no #pragma once"));
    }
    var found := FindGuard(info, lines, SearchWindow, DefineLookahead);
    if found.None? {
      return Outcome(t, false, Some("no classic guard detected"));
    }
    var g := found.value;
    var substantive := HasSubstantiveContent(info, lines, g.defineLine + 1, g.endifLine);
    if !substantive {
      return Outcome(t, false, Some("guard region has no content (macro wrapper)"));
    }
    var newLines := Keep(lines, RemovalSet(info, lines, g));
    newLines := TrimBlankEdges(info, newLines);
    return Outcome(JoinedText(newLines, t), true, None);
  }

  /** What a change requires of the input: a pragma line, a guard, and content
      inside it. */
  lemma {:induction false} RemovedChangedShape(info: string -> LineInfo, t: string, lines: seq<string>)
    requires RemovedLines(info, t, lines).changed
    ensures HasPragmaOnce(info, lines) && FirstGuard(info, lines, SearchWindow, DefineLookahead).Some?
      && var g := FirstGuard(info, lines, SearchWindow, DefineLookahead).value;
      Substantive(info, lines, g.defineLine + 1, g.endifLine)
      && RemovedLines(info, t, lines).text == JoinedText(GuardlessLines(info, lines, g), t)
  {
  }

  /** None of the deleted lines is a pragma line: the guard's three lines are an
      opening, a `#define` and an `#endif`, and the others are blank. */
  lemma {:induction false} RemovalSparesPragma(info: string -> LineInfo, lines: seq<string>, g: Guard)
    requires Sound(info) && IsGuard(info, lines, g, DefineLookahead)
    ensures forall idx :: idx in RemovalSet(info, lines, g) ==> idx < |lines| && !info(lines[idx]).pragmaOnce
  {
    RemovalSetShape(info, lines, g);
    EndifFirst(info, lines, g.defineLine + 1, 1);
  }

  /** The guard-free lines keep every pragma line and end with a non-blank line. */
  lemma {:induction false} GuardlessKeepsPragma(info: string -> LineInfo, lines: seq<string>, g: Guard)
    requires Sound(info) && AllNoBreaks(lines) && IsGuard(info, lines, g, DefineLookahead)
    ensures var out := GuardlessLines(info, lines, g);
      PragmaCount(info, out) == PragmaCount(info, lines) && AllNoBreaks(out)
      && (|out| > 0 ==> out[|out| - 1] != [])
  {
    var remove := RemovalSet(info, lines, g);
    RemovalSparesPragma(info, lines, g);
    PragmaCountKeep(info, lines, remove, 0);
    assert lines[0..] == lines;
    KeepNoBreaks(lines, remove, 0);
    PragmaCountTrimmed(info, Keep(lines, remove));
    TrimmedNoBreaks(info, Keep(lines, remove));
    TrimmedShape(info, Keep(lines, remove));
  }

  /** On a change, the output's lines are the input's without the guard's lines and
      their adjacent blanks, in their order, with no blank edge lines; every pragma
      line stays, and the output ends with a newline exactly when the input does. */
  lemma {:induction false} RemovedChange(info: string -> LineInfo, text: string)
    requires Sound(info)
    requires Removed(info, text).changed
    ensures var t := StripBom(text);
      var lines := SplitLines(t);
      var out := SplitLines(Removed(info, text).text);
      FirstGuard(info, lines, SearchWindow, DefineLookahead).Some?
      && var g := FirstGuard(info, lines, SearchWindow, DefineLookahead).value;
      out == Trimmed(info, Keep(lines, RemovalSet(info, lines, g)))
      && PragmaCount(info, out) == PragmaCount(info, lines) > 0
      && (EndsWith(Removed(info, text).text, "\n") <==> EndsWith(t, "\n"))
  {
    var t := StripBom(text);
    var lines := SplitLines(t);
    RemovedChangedShape(info, t, lines);
    var g := FirstGuard(info, lines, SearchWindow, DefineLookahead).value;
    FirstGuardIsFirst(info, lines, SearchWindow, DefineLookahead);
    assert AllNoBreaks(lines) by {
      SplitLinesNoBreaks(t);
    }
    HasPragmaIffCount(info, lines);
    GuardlessKeepsPragma(info, lines, g);
    var out := GuardlessLines(info, lines, g);
    assert |out| > 0;
    RejoinedLines(out, t);
    JoinedEnding(out, t);
  }

  /** The script with its own patterns. */
  method RemoveIncludeGuard(text: string) returns (r: Outcome)
    ensures r == Removed(Info, text)
    ensures r.changed ==> PragmaCount(Info, SplitLines(r.text)) == PragmaCount(Info, SplitLines(StripBom(text))) > 0
  {
    InfoSound();
    r := RemoveGuardFromText(Info, text);
    if r.changed {
      RemovedChange(Info, text);
    }
  }
}
