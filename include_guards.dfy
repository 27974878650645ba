/** What the two include-guard scripts share: the regular expressions they
    classify lines with, the guard search (`find_guard`, with its `#define`
    lookahead and the depth counter of `match_endif`), the substantive-content test,
    the set of lines a guard removal deletes, the trimming of blank edge lines and
    the final join. The search is written over any line classification; `Info` is
    the scripts' own. */
module IncludeGuards {
  import opened PyText
  import opened Wrappers
  import opened DirectiveSyntax

  /** What the scripts' patterns say about one line. */
  datatype LineInfo = LineInfo(
    guardOpen: Option<string>,  // RE_IFNDEF or RE_IF_NOT_DEFINED, with its macro
    defines: Option<string>,    // RE_DEFINE, with its macro
    hashFirst: bool,            // the line, left-stripped, starts with '#'
    opensIf: bool,              // RE_IF: #if, #ifdef or #ifndef
    closesIf: bool,             // RE_ENDIF
    commentOrBlank: bool,       // is_comment_or_blank
    blank: bool,                // the stripped line is empty
    pragmaOnce: bool)           // RE_PRAGMA_ONCE

  /** The line the replacing script inserts. */
  const PragmaLine: string := "#pragma once"

  // ---- The patterns (re.ASCII except RE_PRAGMA_ONCE) ----

  // A block comment spans r[..m] (opened at 0, closed just before m), and only
  // spaces follow it.
  predicate BlockCommentEndsAt(r: string, m: nat)
  {
    4 <= m <= |r| && r[0] == '/' && r[1] == '*' && r[m - 2] == '*' && r[m - 1] == '/'
    && NoNewline(r[2..m - 2]) && forall q :: m <= q < |r| ==> IsAsciiSpace(r[q])
  }

  // The tail of the guard patterns: optional spaces, then nothing, a line
  // comment or a single-line block comment, up to the end.
  predicate GuardTail(t: string)
  {
    var r := SkipSpace(t, true);
    r == [] || (StartsWith(r, "//") && DotsToEnd(r[2..]))
    || exists m :: 4 <= m <= |r| && BlockCommentEndsAt(r, m)
  }

  /** RE_IFNDEF after `^\s*#\s*`: `ifndef\s+MACRO` and the tail. */
  function IfndefMacro(r: string): Option<string>
  {
    if StartsWith(r, "ifndef") && SpaceRun(r[6..], true) > 0 then
      var u := SkipSpace(r[6..], true);
      var n := IdentLen(u);
      if n > 0 && GuardTail(u[n..]) then Some(u[..n]) else None
    else None
  }

  function BangRun(s: string): (n: nat)
    ensures n <= |s|
    decreases |s|
  {
    if |s| > 0 && s[0] == '!' then 1 + BangRun(s[1..]) else 0
  }

  /** RE_IF_NOT_DEFINED after `^\s*#\s*`: `if\s*!+\s*defined\s*\(\s*MACRO\s*\)` and
      the tail. */
  function IfNotDefinedMacro(r: string): Option<string>
  {
    if !StartsWith(r, "if") then None
    else
      var v := SkipSpace(r[2..], true);
      var b := BangRun(v);
      if b == 0 then None
      else
        var w := SkipSpace(v[b..], true);
        if !StartsWith(w, "defined") then None
        else
          var x := SkipSpace(w[7..], true);
          if |x| == 0 || x[0] != '(' then None
          else
            var y := SkipSpace(x[1..], true);
            var n := IdentLen(y);
            if n == 0 then None
            else
              var z := SkipSpace(y[n..], true);
              if |z| > 0 && z[0] == ')' && GuardTail(z[1..]) then Some(y[..n]) else None
  }

  /** The macro of a guard's opening line; RE_IFNDEF is tried first. */
  function GuardOpenMacro(line: string): Option<string>
  {
    match DirectiveRest(line, true)
    case None => None
    case Some(r) => if IfndefMacro(r).Some? then IfndefMacro(r) else IfNotDefinedMacro(r)
  }

  /** RE_DEFINE: `^\s*#\s*define\s+MACRO\b.*$`, with the macro. */
  function DefinedMacro(line: string): Option<string>
  {
    match DirectiveRest(line, true)
    case None => None
    case Some(r) =>
      if StartsWith(r, "define") && SpaceRun(r[6..], true) > 0 then
        var u := SkipSpace(r[6..], true);
        var n := IdentLen(u);
        if n > 0 && DotsToEnd(u[n..]) then Some(u[..n]) else None
      else None
  }

  /** RE_IF: `^\s*#\s*if(n?def)?\b`. */
  predicate OpensIf(line: string)
  {
    match DirectiveRest(line, true)
    case None => false
    case Some(r) =>
      StartsWith(r, "if") &&
      (WordEndsAt(r, 2) || (StartsWith(r, "ifdef") && WordEndsAt(r, 5))
       || (StartsWith(r, "ifndef") && WordEndsAt(r, 6)))
  }

  /** RE_ENDIF: `^\s*#\s*endif\b`. */
  predicate ClosesIf(line: string)
  {
    match DirectiveRest(line, true)
    case None => false
    case Some(r) => StartsWith(r, "endif") && WordEndsAt(r, 5)
  }

  /** RE_PRAGMA_ONCE: `^\s*#\s*pragma\s+once\b`, ignoring case. */
  predicate IsPragmaOnce(line: string)
  {
    match DirectiveRest(line, false)
    case None => false
    case Some(r) => PragmaOnceRest(r)
  }

  /** `pragma\s+once\b`, ignoring case, after the `#`. */
  predicate PragmaOnceRest(r: string)
  {
    StartsWithNoCase(r, "pragma") && SpaceRun(r[6..], false) > 0 &&
    var u := SkipSpace(r[6..], false);
    StartsWithNoCase(u, "once") && WordEndsAt(u, 4)
  }

  /** `is_comment_or_blank`: the stripped line is empty, starts a comment or ends
      a block comment. */
  predicate IsCommentOrBlank(line: string)
  {
    var t := Strip(line);
    |t| == 0 || StartsWith(t, "//") || StartsWith(t, "/*") || EndsWith(t, "*/")
  }

  function Info(line: string): LineInfo
  {
    var t := LStrip(line);
    LineInfo(GuardOpenMacro(line), DefinedMacro(line), |t| > 0 && t[0] == '#',
             OpensIf(line), ClosesIf(line), IsCommentOrBlank(line), Strip(line) == [],
             IsPragmaOnce(line))
  }

  /** What the scripts rely on about a classification: the inserted line is a
      non-blank pragma line, and a pragma line is neither blank nor one of the lines
      a guard removal deletes. */
  ghost predicate Sound(info: string -> LineInfo)
  {
    info(PragmaLine).pragmaOnce && !info(PragmaLine).blank && info([]).blank
    && (forall line :: info(line).blank ==> info(line).commentOrBlank)
    && forall line :: info(line).pragmaOnce ==>
      !info(line).blank && info(line).guardOpen.None? && info(line).defines.None? && !info(line).closesIf
  }

  // ---- Facts about the patterns ----

  /** `SpaceRun` is the length of the space run that ends where a non-space is. */
  lemma {:induction false} SpaceRunExact(s: string, ascii: bool, n: nat)
    requires n <= |s|
    requires forall i :: 0 <= i < n ==> (if ascii then IsAsciiSpace(s[i]) else IsSpace(s[i]))
    requires n < |s| ==> !(if ascii then IsAsciiSpace(s[n]) else IsSpace(s[n]))
    ensures SpaceRun(s, ascii) == n
    decreases n
  {
    if n > 0 {
      SpaceRunExact(s[1..], ascii, n - 1);
    }
  }

  /** When the ASCII reading of `^\s*#\s*` stops at a character that is not a
      Unicode space either, both readings leave the same rest. */
  lemma {:induction false} AsciiRestAgrees(line: string)
    requires DirectiveRest(line, true).Some?
    requires |DirectiveRest(line, true).value| > 0 && !IsSpace(DirectiveRest(line, true).value[0])
    ensures DirectiveRest(line, false) == DirectiveRest(line, true)
  {
    var a := SpaceRun(line, true);
    SpaceRunExact(line, false, a);
    var t := line[a + 1..];
    var b := SpaceRun(t, true);
    SpaceRunExact(t, false, b);
  }

  /** An empty stripped line has no directive. */
  lemma {:induction false} BlankHasNoDirective(line: string, ascii: bool)
    requires Strip(line) == []
    ensures DirectiveRest(line, ascii).None?
  {
    StripEmptyIffBlank(line);
  }

  lemma PragmaLineRest()
    ensures DirectiveRest(PragmaLine, false) == Some("pragma once")
  {
    assert SpaceRun(PragmaLine, false) == 0;
    assert PragmaLine[1..] == "pragma once";
    assert SpaceRun("pragma once", false) == 0;
  }

  lemma PragmaLineIsPragma()
    ensures IsPragmaOnce(PragmaLine)
  {
    PragmaLineRest();
    var r := "pragma once";
    assert r[6..] == " once";
    PragmaGap();
    PragmaWordsNoCase();
    assert PragmaOnceRest(r);
  }

  lemma PragmaGap()
    ensures SpaceRun(" once", false) == 1 && SkipSpace(" once", false) == "once"
  {
    SpaceRunExact(" once", false, 1);
  }

  lemma PragmaWordsNoCase()
    ensures StartsWithNoCase("pragma once", "pragma") && StartsWithNoCase("once", "once")
  {
    assert forall i :: 0 <= i < 6 ==> 'a' <= "pragma"[i] <= 'z';
    assert forall i :: 0 <= i < 4 ==> 'a' <= "once"[i] <= 'z';
  }

  lemma PragmaLineNotBlank()
    ensures Strip(PragmaLine) != []
  {
    StripEmptyIffBlank(PragmaLine);
    assert !IsSpace(PragmaLine[0]);
  }

  /** A pragma line is not blank. */
  lemma {:induction false} PragmaNotBlank(line: string)
    requires IsPragmaOnce(line)
    ensures Strip(line) != []
  {
    if Strip(line) == [] {
      BlankHasNoDirective(line, false);
    }
  }

  /** Under re.ASCII, what follows `#` on a pragma line does not start with the
      first letter of `if`, `define` or `endif`. */
  lemma {:induction false} PragmaAsciiRest(line: string)
    requires IsPragmaOnce(line)
    ensures var r := DirectiveRest(line, true);
      r.None? || |r.value| == 0 || (r.value[0] != 'i' && r.value[0] != 'd' && r.value[0] != 'e')
  {
    var r := DirectiveRest(line, true);
    if r.Some? && |r.value| > 0 && !IsSpace(r.value[0]) {
      AsciiRestAgrees(line);
      assert LowerAscii(r.value[0]) == 'p';
    }
  }

  lemma NotStartsWith(r: string, p: string)
    requires |p| > 0 && (|r| == 0 || r[0] != p[0])
    ensures !StartsWith(r, p)
  {
  }

  lemma NoLetterNoGuard(r: string)
    requires |r| == 0 || (r[0] != 'i' && r[0] != 'd' && r[0] != 'e')
    ensures IfndefMacro(r).None? && IfNotDefinedMacro(r).None?
    ensures !(StartsWith(r, "define") && SpaceRun(r[6..], true) > 0)
    ensures !StartsWith(r, "endif")
  {
    NotStartsWith(r, "if");
    NotStartsWith(r, "ifndef");
    NotStartsWith(r, "define");
    NotStartsWith(r, "endif");
  }

  /** A pragma line is none of the lines a guard removal deletes. */
  lemma {:induction false} PragmaIsNoGuardLine(line: string)
    requires IsPragmaOnce(line)
    ensures Strip(line) != [] && GuardOpenMacro(line).None? && DefinedMacro(line).None? && !ClosesIf(line)
  {
    PragmaNotBlank(line);
    PragmaAsciiRest(line);
    var r := DirectiveRest(line, true);
    if r.Some? {
      NoLetterNoGuard(r.value);
    }
  }

  lemma InfoSound()
    ensures Sound(Info)
  {
    PragmaLineIsPragma();
    PragmaLineNotBlank();
    assert Strip([]) == [];
    forall line | Info(line).pragmaOnce
      ensures !Info(line).blank && Info(line).guardOpen.None? && Info(line).defines.None? && !Info(line).closesIf
    {
      PragmaIsNoGuardLine(line);
    }
  }

  // ---- has_pragma_once and has_substantive_content ----

  predicate HasPragmaOnce(info: string -> LineInfo, lines: seq<string>)
  {
    exists k :: 0 <= k < |lines| && info(lines[k]).pragmaOnce
  }

  /** Some line in `[start, end)` is neither blank nor comment-only. */
  predicate Substantive(info: string -> LineInfo, lines: seq<string>, start: nat, end: nat)
    requires end <= |lines|
  {
    exists k :: start <= k < end && !info(lines[k]).commentOrBlank
  }

  /** `has_substantive_content`. */
  method HasSubstantiveContent(info: string -> LineInfo, lines: seq<string>, start: nat, end: nat)
    returns (r: bool)
    requires end <= |lines|
    ensures r <==> Substantive(info, lines, start, end)
  {
    var k := start;
    while k < end
      invariant start <= k
      invariant forall m :: start <= m < k && m < end ==> info(lines[m]).commentOrBlank
    {
      if !info(lines[k]).commentOrBlank {
        return true;
      }
      k := k + 1;
    }
    return false;
  }

  // ---- match_endif ----

  /** How a line moves the depth counter: only lines whose first non-space
      character is '#' count; `#if` lines open, `#endif` lines close. */
  function Step(info: string -> LineInfo, line: string): int
  {
    var i := info(line);
    if !i.hashFirst then 0 else if i.opensIf then 1 else if i.closesIf then -1 else 0
  }

  predicate Closes(info: string -> LineInfo, line: string)
  {
    var i := info(line);
    i.hashFirst && !i.opensIf && i.closesIf
  }

  /** The counter after the lines in `[start, stop)`, from `d0`. */
  function DepthAfter(info: string -> LineInfo, lines: seq<string>, start: nat, stop: nat, d0: int): int
    requires start <= stop <= |lines|
    decreases stop - start
  {
    if stop == start then d0 else DepthAfter(info, lines, start, stop - 1, d0) + Step(info, lines[stop - 1])
  }

  /** The scan of `match_endif` from line `k` with the counter at `depth`. */
  function EndifFrom(info: string -> LineInfo, lines: seq<string>, k: nat, depth: int): (r: Option<nat>)
    ensures r.Some? ==> k <= r.value < |lines|
    decreases |lines| - k
  {
    if k >= |lines| then None
    else
      var d := depth + Step(info, lines[k]);
      if Closes(info, lines[k]) && d == 0 then Some(k) else EndifFrom(info, lines, k + 1, d)
  }

  /** `match_endif`. */
  method MatchEndif(info: string -> LineInfo, lines: seq<string>, start: nat, initialDepth: int)
    returns (r: Option<nat>)
    ensures r == EndifFrom(info, lines, start, initialDepth)
  {
    var depth := initialDepth;
    var k := start;
    while k < |lines|
      invariant start <= k
      invariant EndifFrom(info, lines, k, depth) == EndifFrom(info, lines, start, initialDepth)
    {
      var line := lines[k];
      if info(line).hashFirst {
        if info(line).opensIf {
          depth := depth + 1;
        } else if info(line).closesIf {
          depth := depth - 1;
          if depth == 0 {
            return Some(k);
          }
        }
      }
      k := k + 1;
    }
    return None;
  }

  /** The line `match_endif` returns is the first `#endif` at which the counter
      reaches 0; it returns nothing when the counter never reaches 0 there. */
  lemma {:induction false} EndifFirst(info: string -> LineInfo, lines: seq<string>, start: nat, d0: int)
    requires start <= |lines|
    ensures var r := EndifFrom(info, lines, start, d0);
      (r.Some? ==>
        Closes(info, lines[r.value]) && DepthAfter(info, lines, start, r.value + 1, d0) == 0
        && forall m :: start <= m < r.value && Closes(info, lines[m]) ==> DepthAfter(info, lines, start, m + 1, d0) != 0)
      && (r.None? ==>
        forall m :: start <= m < |lines| && Closes(info, lines[m]) ==> DepthAfter(info, lines, start, m + 1, d0) != 0)
  {
    EndifFirstFrom(info, lines, start, start, d0);
  }

  lemma {:induction false} EndifFirstFrom(info: string -> LineInfo, lines: seq<string>, start: nat, k: nat, d0: int)
    requires start <= k <= |lines|
    requires forall m :: start <= m < k && Closes(info, lines[m]) ==> DepthAfter(info, lines, start, m + 1, d0) != 0
    ensures var r := EndifFrom(info, lines, k, DepthAfter(info, lines, start, k, d0));
      (r.Some? ==>
        Closes(info, lines[r.value]) && DepthAfter(info, lines, start, r.value + 1, d0) == 0
        && forall m :: start <= m < r.value && Closes(info, lines[m]) ==> DepthAfter(info, lines, start, m + 1, d0) != 0)
      && (r.None? ==>
        forall m :: start <= m < |lines| && Closes(info, lines[m]) ==> DepthAfter(info, lines, start, m + 1, d0) != 0)
    decreases |lines| - k
  {
    if k < |lines| {
      var d := DepthAfter(info, lines, start, k + 1, d0);
      assert d == DepthAfter(info, lines, start, k, d0) + Step(info, lines[k]);
      if !(Closes(info, lines[k]) && d == 0) {
        EndifFirstFrom(info, lines, start, k + 1, d0);
      }
    }
  }

  // ---- find_guard ----

  /** A guard: its `#if` line, its `#define` line, its macro and its `#endif` line. */
  datatype Guard = Guard(ifLine: nat, defineLine: nat, macro: string, endifLine: nat)

  /** The `#define` search of `find_guard` from line `j` to line `last`: blank and
      comment lines are skipped, and the first other line must define `macro`. */
  function DefineFrom(info: string -> LineInfo, lines: seq<string>, j: nat, last: int, macro: string): (r: Option<nat>)
    requires last < |lines|
    ensures r.Some? ==> j <= r.value <= last
    decreases last + 1 - j
  {
    if j > last then None
    else if info(lines[j]).commentOrBlank then DefineFrom(info, lines, j + 1, last, macro)
    else if info(lines[j]).defines == Some(macro) then Some(j)
    else None
  }

  function Min(a: int, b: int): int
  {
    if a < b then a else b
  }

  /** The guard whose `#if` is line `i`, if there is one. */
  function GuardAt(info: string -> LineInfo, lines: seq<string>, i: nat, lookahead: nat): (g: Option<Guard>)
    requires i < |lines|
    ensures g.Some? ==> g.value.ifLine == i < g.value.defineLine < g.value.endifLine < |lines|
  {
    match info(lines[i]).guardOpen
    case None => None
    case Some(macro) =>
      match DefineFrom(info, lines, i + 1, Min(i + lookahead, |lines| - 1), macro)
      case None => None
      case Some(d) =>
        match EndifFrom(info, lines, d + 1, 1)
        case None => None
        case Some(e) => Some(Guard(i, d, macro, e))
  }

  /** The first guard whose `#if` is in `[i, lim)`. */
  function GuardFrom(info: string -> LineInfo, lines: seq<string>, i: nat, lim: nat, lookahead: nat): (g: Option<Guard>)
    requires lim <= |lines|
    ensures g.Some? ==> i <= g.value.ifLine < lim && g.value.ifLine < g.value.defineLine < g.value.endifLine < |lines|
    decreases lim - i
  {
    if i >= lim then None
    else
      match GuardAt(info, lines, i, lookahead)
      case Some(g) => Some(g)
      case None => GuardFrom(info, lines, i + 1, lim, lookahead)
  }

  function SearchLimit(lines: seq<string>, window: nat): (lim: nat)
    ensures lim <= |lines|
  {
    if window < |lines| then window else |lines|
  }

  /** The guard `find_guard` returns. */
  function FirstGuard(info: string -> LineInfo, lines: seq<string>, window: nat, lookahead: nat): (g: Option<Guard>)
    ensures g.Some? ==> g.value.ifLine < window && g.value.ifLine < g.value.defineLine < g.value.endifLine < |lines|
  {
    GuardFrom(info, lines, 0, SearchLimit(lines, window), lookahead)
  }

  /** The body of `find_guard`'s loop for line `i`. */
  method GuardAtLine(info: string -> LineInfo, lines: seq<string>, i: nat, lookahead: nat)
    returns (g: Option<Guard>)
    requires i < |lines|
    ensures g == GuardAt(info, lines, i, lookahead)
  {
    var macro := info(lines[i]).guardOpen;
    if macro.None? {
      return None;
    }
    var j := i + 1;
    var maxLookahead := Min(i + lookahead, |lines| - 1);
    var foundDefine: Option<nat> := None;
    while j <= maxLookahead
      invariant i + 1 <= j
      invariant foundDefine.None?
      invariant DefineFrom(info, lines, j, maxLookahead, macro.value)
        == DefineFrom(info, lines, i + 1, maxLookahead, macro.value)
    {
      if info(lines[j]).commentOrBlank {
        j := j + 1;
        continue;
      }
      if info(lines[j]).defines == Some(macro.value) {
        foundDefine := Some(j);
      }
      break;
    }
    assert foundDefine == DefineFrom(info, lines, i + 1, maxLookahead, macro.value);
    if foundDefine.None? {
      return None;
    }
    var iEndif := MatchEndif(info, lines, foundDefine.value + 1, 1);
    if iEndif.None? {
      return None;
    }
    return Some(Guard(i, foundDefine.value, macro.value, iEndif.value));
  }

  /** `find_guard` with the given search window and `#define` lookahead. */
  method FindGuard(info: string -> LineInfo, lines: seq<string>, window: nat, lookahead: nat)
    returns (found: Option<Guard>)
    ensures found == FirstGuard(info, lines, window, lookahead)
  {
    var lim := SearchLimit(lines, window);
    var i := 0;
    while i < lim
      invariant i <= lim
      invariant GuardFrom(info, lines, i, lim, lookahead) == FirstGuard(info, lines, window, lookahead)
    {
      var g := GuardAtLine(info, lines, i, lookahead);
      if g.Some? {
        return g;
      }
      i := i + 1;
    }
    return None;
  }

  /** A guard as the search defines one: an opening line naming the macro, the
      first later line that is not blank or a comment defines that macro within the
      lookahead, and the `#endif` is where the counter started after the `#define`
      first reaches 0. */
  predicate IsGuard(info: string -> LineInfo, lines: seq<string>, g: Guard, lookahead: nat)
  {
    g.ifLine < g.defineLine < g.endifLine < |lines|
    && info(lines[g.ifLine]).guardOpen == Some(g.macro)
    && g.defineLine <= g.ifLine + lookahead
    && info(lines[g.defineLine]).defines == Some(g.macro) && !info(lines[g.defineLine]).commentOrBlank
    && (forall k :: g.ifLine < k < g.defineLine ==> info(lines[k]).commentOrBlank)
    && EndifFrom(info, lines, g.defineLine + 1, 1) == Some(g.endifLine)
  }

  lemma {:induction false} DefineFound(info: string -> LineInfo, lines: seq<string>, j: nat, last: int, macro: string)
    requires last < |lines| && DefineFrom(info, lines, j, last, macro).Some?
    ensures var d := DefineFrom(info, lines, j, last, macro).value;
      info(lines[d]).defines == Some(macro) && !info(lines[d]).commentOrBlank && forall k :: j <= k < d ==> info(lines[k]).commentOrBlank
    decreases last + 1 - j
  {
    if info(lines[j]).commentOrBlank {
      DefineFound(info, lines, j + 1, last, macro);
    }
  }

  lemma {:induction false} DefineExact(info: string -> LineInfo, lines: seq<string>, j: nat, last: int, macro: string, d: nat)
    requires j <= d <= last < |lines|
    requires info(lines[d]).defines == Some(macro) && !info(lines[d]).commentOrBlank
    requires forall k :: j <= k < d ==> info(lines[k]).commentOrBlank
    ensures DefineFrom(info, lines, j, last, macro) == Some(d)
    decreases d - j
  {
    if j < d {
      DefineExact(info, lines, j + 1, last, macro, d);
    }
  }

  /** The guard at line `i` is exactly a guard in the sense of `IsGuard`. */
  lemma {:induction false} GuardAtIsGuard(info: string -> LineInfo, lines: seq<string>, i: nat, lookahead: nat)
    requires i < |lines| && GuardAt(info, lines, i, lookahead).Some?
    ensures IsGuard(info, lines, GuardAt(info, lines, i, lookahead).value, lookahead)
  {
    var macro := info(lines[i]).guardOpen.value;
    DefineFound(info, lines, i + 1, Min(i + lookahead, |lines| - 1), macro);
  }

  lemma {:induction false} GuardIsGuardAt(info: string -> LineInfo, lines: seq<string>, g: Guard, lookahead: nat)
    requires IsGuard(info, lines, g, lookahead)
    ensures GuardAt(info, lines, g.ifLine, lookahead) == Some(g)
  {
    DefineExact(info, lines, g.ifLine + 1, Min(g.ifLine + lookahead, |lines| - 1), g.macro, g.defineLine);
  }

  lemma {:induction false} GuardFromIsFirst(info: string -> LineInfo, lines: seq<string>, i: nat, lim: nat, lookahead: nat)
    requires i <= lim <= |lines|
    ensures var r := GuardFrom(info, lines, i, lim, lookahead);
      (r.Some? ==>
        GuardAt(info, lines, r.value.ifLine, lookahead) == r
        && forall k :: i <= k < r.value.ifLine ==> GuardAt(info, lines, k, lookahead).None?)
      && (r.None? ==> forall k :: i <= k < lim ==> GuardAt(info, lines, k, lookahead).None?)
    decreases lim - i
  {
    if i < lim && GuardAt(info, lines, i, lookahead).None? {
      GuardFromIsFirst(info, lines, i + 1, lim, lookahead);
    }
  }

  /** `find_guard` returns a guard whose opening line is the first in the window
      that opens one, or nothing when no line of the window opens a guard. */
  lemma {:induction false} FirstGuardIsFirst(info: string -> LineInfo, lines: seq<string>, window: nat, lookahead: nat)
    ensures var r := FirstGuard(info, lines, window, lookahead);
      (r.Some? ==>
        IsGuard(info, lines, r.value, lookahead)
        && forall k :: 0 <= k < r.value.ifLine ==> GuardAt(info, lines, k, lookahead).None?)
      && (r.None? ==> forall k :: 0 <= k < SearchLimit(lines, window) ==> GuardAt(info, lines, k, lookahead).None?)
  {
    var r := FirstGuard(info, lines, window, lookahead);
    GuardFromIsFirst(info, lines, 0, SearchLimit(lines, window), lookahead);
    if r.Some? {
      GuardAtIsGuard(info, lines, r.value.ifLine, lookahead);
    }
  }

  // ---- Removal, trimming, joining ----

  /** What a transform returns: the new text, whether it changed, and why not. */
  datatype Outcome = Outcome(text: string, changed: bool, reason: Option<string>)

  /** The lines a guard removal deletes: the `#if`, `#define` and `#endif` lines,
      a blank line after the `#define`, before the `#if` and before the `#endif`. */
  function RemovalSet(info: string -> LineInfo, lines: seq<string>, g: Guard): set<nat>
    requires g.ifLine < g.defineLine < g.endifLine < |lines|
  {
    {g.ifLine, g.defineLine}
    + (if g.defineLine + 1 < |lines| && info(lines[g.defineLine + 1]).blank then {g.defineLine + 1} else {})
    + (if g.ifLine >= 1 && info(lines[g.ifLine - 1]).blank then {g.ifLine - 1} else {})
    + {g.endifLine}
    + (if g.endifLine >= 1 && info(lines[g.endifLine - 1]).blank then {g.endifLine - 1} else {})
  }

  /** Only the guard's three lines and blank lines next to them are deleted. */
  lemma RemovalSetShape(info: string -> LineInfo, lines: seq<string>, g: Guard)
    requires g.ifLine < g.defineLine < g.endifLine < |lines|
    ensures forall idx :: idx in RemovalSet(info, lines, g) ==>
      idx < |lines|
      && (idx == g.ifLine || idx == g.defineLine || idx == g.endifLine
          || ((idx + 1 == g.ifLine || idx == g.defineLine + 1 || idx + 1 == g.endifLine) && info(lines[idx]).blank))
    ensures g.ifLine in RemovalSet(info, lines, g) && g.defineLine in RemovalSet(info, lines, g)
      && g.endifLine in RemovalSet(info, lines, g)
  {
  }

  /** The list comprehension that drops the removed indices, from index `k`. */
  function KeepFrom(lines: seq<string>, remove: set<nat>, k: nat): seq<string>
    decreases |lines| - k
  {
    if k >= |lines| then [] else (if k in remove then [] else [lines[k]]) + KeepFrom(lines, remove, k + 1)
  }

  function Keep(lines: seq<string>, remove: set<nat>): seq<string>
  {
    KeepFrom(lines, remove, 0)
  }

  /** The kept lines are lines of the input. */
  lemma {:induction false} KeepFromElements(lines: seq<string>, remove: set<nat>, k: nat)
    ensures forall x :: x in KeepFrom(lines, remove, k) ==> exists m :: k <= m < |lines| && m !in remove && lines[m] == x
    decreases |lines| - k
  {
    if k < |lines| {
      KeepFromElements(lines, remove, k + 1);
    }
  }

  /** Exactly the lines at indices outside `remove` are kept. */
  lemma {:induction false} KeepFromLength(lines: seq<string>, remove: set<nat>, k: nat)
    ensures |KeepFrom(lines, remove, k)| == |set m | k <= m < |lines| && m !in remove|
    decreases |lines| - k
  {
    if k < |lines| {
      KeepFromLength(lines, remove, k + 1);
      var here := set m | k <= m < |lines| && m !in remove;
      var later := set m | k + 1 <= m < |lines| && m !in remove;
      if k in remove {
        assert here == later;
      } else {
        assert here == later + {k};
      }
    } else {
      assert (set m | k <= m < |lines| && m !in remove) == {};
    }
  }

  function LeadingBlankLines(info: string -> LineInfo, lines: seq<string>): (n: nat)
    ensures n <= |lines|
    ensures forall k :: 0 <= k < n ==> info(lines[k]).blank
    ensures n < |lines| ==> !info(lines[n]).blank
    decreases |lines|
  {
    if |lines| > 0 && info(lines[0]).blank then 1 + LeadingBlankLines(info, lines[1..]) else 0
  }

  function TrailingBlankLines(info: string -> LineInfo, lines: seq<string>): (n: nat)
    ensures n <= |lines|
    ensures forall k :: |lines| - n <= k < |lines| ==> info(lines[k]).blank
    ensures n < |lines| ==> !info(lines[|lines| - n - 1]).blank
    decreases |lines|
  {
    if |lines| > 0 && info(lines[|lines| - 1]).blank then 1 + TrailingBlankLines(info, lines[..|lines| - 1]) else 0
  }

  /** The lines without blank lines at either end. */
  function Trimmed(info: string -> LineInfo, lines: seq<string>): seq<string>
  {
    var rest := lines[LeadingBlankLines(info, lines)..];
    rest[..|rest| - TrailingBlankLines(info, rest)]
  }

  /** The first tidy-up loop: pop blank lines from the front. */
  method DropLeadingBlank(info: string -> LineInfo, lines: seq<string>) returns (r: seq<string>)
    ensures r == lines[LeadingBlankLines(info, lines)..]
  {
    r := lines;
    while |r| > 0 && info(r[0]).blank
      invariant |r| <= |lines| && r == lines[|lines| - |r|..]
      invariant LeadingBlankLines(info, lines) == (|lines| - |r|) + LeadingBlankLines(info, r)
    {
      assert r[1..] == lines[|lines| - |r| + 1..];
      r := r[1..];
    }
  }

  /** The second tidy-up loop: pop blank lines from the back. */
  method DropTrailingBlank(info: string -> LineInfo, lines: seq<string>) returns (r: seq<string>)
    ensures r == lines[..|lines| - TrailingBlankLines(info, lines)]
  {
    r := lines;
    while |r| > 0 && info(r[|r| - 1]).blank
      invariant |r| <= |lines| && r == lines[..|r|]
      invariant TrailingBlankLines(info, lines) == (|lines| - |r|) + TrailingBlankLines(info, r)
    {
      assert r[..|r| - 1] == lines[..|r| - 1];
      r := r[..|r| - 1];
    }
  }

  /** Both tidy-up loops. */
  method TrimBlankEdges(info: string -> LineInfo, lines: seq<string>) returns (r: seq<string>)
    ensures r == Trimmed(info, lines)
  {
    r := DropLeadingBlank(info, lines);
    r := DropTrailingBlank(info, r);
  }

  /** Where the trimmed lines start and end in the untrimmed ones. */
  function TrimStart(info: string -> LineInfo, lines: seq<string>): nat
  {
    LeadingBlankLines(info, lines)
  }

  function TrimEnd(info: string -> LineInfo, lines: seq<string>): nat
  {
    |lines| - TrailingBlankLines(info, lines[LeadingBlankLines(info, lines)..])
  }

  /** Trimming drops only blank lines, from the ends, and leaves none there. */
  lemma {:induction false} TrimmedShape(info: string -> LineInfo, lines: seq<string>)
    ensures TrimStart(info, lines) <= TrimEnd(info, lines) <= |lines|
    ensures Trimmed(info, lines) == lines[TrimStart(info, lines)..TrimEnd(info, lines)]
    ensures forall k :: 0 <= k < TrimStart(info, lines) ==> info(lines[k]).blank
    ensures forall k :: TrimEnd(info, lines) <= k < |lines| ==> info(lines[k]).blank
    ensures var t := Trimmed(info, lines);
      |t| > 0 ==> !info(t[0]).blank && !info(t[|t| - 1]).blank
  {
    var a := LeadingBlankLines(info, lines);
    var rest := lines[a..];
    var n := TrailingBlankLines(info, rest);
    var b := a + |rest| - n;
    assert rest[..|rest| - n] == lines[a..b];
    forall k | b <= k < |lines| ensures info(lines[k]).blank {
      assert lines[k] == rest[k - a];
    }
  }

  /** `"\n".join(lines)`, plus a newline when the input text ended with one. */
  function JoinedText(lines: seq<string>, text: string): string
  {
    Join(lines, "\n") + (if EndsWith(text, "\n") then "\n" else "")
  }

  /** The output ends with a newline iff the input did, when its last line is a
      non-empty line without line boundaries. */
  lemma {:induction false} JoinedEnding(lines: seq<string>, text: string)
    requires |lines| == 0 || (lines[|lines| - 1] != [] && NoBreaks(lines[|lines| - 1]))
    ensures EndsWith(JoinedText(lines, text), "\n") <==> EndsWith(text, "\n")
  {
    var j := Join(lines, "\n");
    if EndsWith(text, "\n") {
      assert (j + "\n")[|j + "\n"| - 1..] == "\n";
    } else {
      assert j + "" == j;
      if |lines| > 0 {
        JoinLastChar(lines);
        var last := lines[|lines| - 1];
        assert !IsLineBreak(last[|last| - 1]);
        assert j[|j| - 1..] != "\n" by {
          assert j[|j| - 1..][0] == j[|j| - 1];
        }
      }
    }
  }

  // ---- Facts about the kept lines ----

  /** Keeping from a longer list adds the last line unless it is removed. */
  lemma {:induction false} KeepFromSnoc(lines: seq<string>, x: string, remove: set<nat>, k: nat)
    requires k <= |lines|
    ensures KeepFrom(lines + [x], remove, k)
      == KeepFrom(lines, remove, k) + (if |lines| in remove then [] else [x])
    decreases |lines| - k
  {
    if k < |lines| {
      KeepFromSnoc(lines, x, remove, k + 1);
      assert (lines + [x])[k] == lines[k];
    }
  }

  lemma {:induction false} KeepSnoc(lines: seq<string>, remove: set<nat>, i: nat)
    requires i < |lines|
    ensures Keep(lines[..i + 1], remove) == Keep(lines[..i], remove) + (if i in remove then [] else [lines[i]])
  {
    assert lines[..i + 1] == lines[..i] + [lines[i]];
    KeepFromSnoc(lines[..i], lines[i], remove, 0);
  }

  /** The kept lines are the kept lines before index `s` followed by those from `s`. */
  lemma {:induction false} KeepFromSplit(lines: seq<string>, remove: set<nat>, k: nat, s: nat)
    requires k <= s <= |lines|
    ensures KeepFrom(lines, remove, k) == KeepFrom(lines[..s], remove, k) + KeepFrom(lines, remove, s)
    decreases s - k
  {
    if k < s {
      KeepFromSplit(lines, remove, k + 1, s);
      assert lines[..s][k] == lines[k];
    }
  }

  lemma {:induction false} KeepSplit(lines: seq<string>, remove: set<nat>, s: nat)
    requires s <= |lines|
    ensures Keep(lines, remove) == Keep(lines[..s], remove) + KeepFrom(lines, remove, s)
  {
    KeepFromSplit(lines, remove, 0, s);
  }

  /** Removed lines in `[a, b)` add nothing to the kept lines. */
  lemma {:induction false} KeepRemovedRange(lines: seq<string>, remove: set<nat>, a: nat, b: nat)
    requires a <= b <= |lines|
    requires forall k :: a <= k < b ==> k in remove
    ensures Keep(lines[..b], remove) == Keep(lines[..a], remove)
    decreases b - a
  {
    if a < b {
      KeepSnoc(lines, remove, b - 1);
      KeepRemovedRange(lines, remove, a, b - 1);
    }
  }

  predicate AllNoBreaks(lines: seq<string>)
  {
    forall k :: 0 <= k < |lines| ==> NoBreaks(lines[k])
  }

  lemma {:induction false} KeepNoBreaks(lines: seq<string>, remove: set<nat>, k: nat)
    requires AllNoBreaks(lines)
    ensures AllNoBreaks(KeepFrom(lines, remove, k))
  {
    KeepFromElements(lines, remove, k);
    var kept := KeepFrom(lines, remove, k);
    forall j | 0 <= j < |kept| ensures NoBreaks(kept[j]) {
      assert kept[j] in kept;
    }
  }

  lemma PragmaLineNoBreaks()
    ensures NoBreaks(PragmaLine)
  {
  }

  // ---- Counting pragma lines ----

  function PragmaCount(info: string -> LineInfo, lines: seq<string>): nat
    decreases |lines|
  {
    if |lines| == 0 then 0 else (if info(lines[0]).pragmaOnce then 1 else 0) + PragmaCount(info, lines[1..])
  }

  lemma {:induction false} PragmaCountAppend(info: string -> LineInfo, a: seq<string>, b: seq<string>)
    ensures PragmaCount(info, a + b) == PragmaCount(info, a) + PragmaCount(info, b)
    decreases |a|
  {
    if |a| == 0 {
      assert a + b == b;
    } else {
      assert (a + b)[1..] == a[1..] + b;
      PragmaCountAppend(info, a[1..], b);
    }
  }

  /** `has_pragma_once` holds exactly when some line counts. */
  lemma {:induction false} HasPragmaIffCount(info: string -> LineInfo, lines: seq<string>)
    ensures HasPragmaOnce(info, lines) <==> PragmaCount(info, lines) > 0
    decreases |lines|
  {
    if |lines| > 0 {
      HasPragmaIffCount(info, lines[1..]);
      if HasPragmaOnce(info, lines[1..]) {
        var k :| 0 <= k < |lines[1..]| && info(lines[1..][k]).pragmaOnce;
        assert info(lines[k + 1]).pragmaOnce;
      }
      if HasPragmaOnce(info, lines) && !info(lines[0]).pragmaOnce {
        var k :| 0 <= k < |lines| && info(lines[k]).pragmaOnce;
        assert info(lines[1..][k - 1]).pragmaOnce;
      }
    }
  }

  /** Blank lines are never pragma lines. */
  lemma {:induction false} BlankCountZero(info: string -> LineInfo, lines: seq<string>)
    requires Sound(info)
    requires forall k :: 0 <= k < |lines| ==> info(lines[k]).blank
    ensures PragmaCount(info, lines) == 0
    decreases |lines|
  {
    if |lines| > 0 {
      BlankCountZero(info, lines[1..]);
    }
  }

  /** Keeping lines never adds pragma lines, and loses none when no removed line
      is one. */
  lemma {:induction false} PragmaCountKeep(info: string -> LineInfo, lines: seq<string>, remove: set<nat>, k: nat)
    requires k <= |lines|
    ensures PragmaCount(info, KeepFrom(lines, remove, k)) <= PragmaCount(info, lines[k..])
    ensures (forall idx :: idx in remove && k <= idx < |lines| ==> !info(lines[idx]).pragmaOnce)
      ==> PragmaCount(info, KeepFrom(lines, remove, k)) == PragmaCount(info, lines[k..])
    decreases |lines| - k
  {
    if k < |lines| {
      PragmaCountKeep(info, lines, remove, k + 1);
      PragmaCountAppend(info, if k in remove then [] else [lines[k]], KeepFrom(lines, remove, k + 1));
      assert lines[k..][1..] == lines[k + 1..];
    }
  }

  /** Trimming blank edges keeps every pragma line. */
  lemma {:induction false} PragmaCountTrimmed(info: string -> LineInfo, lines: seq<string>)
    requires Sound(info)
    ensures PragmaCount(info, Trimmed(info, lines)) == PragmaCount(info, lines)
  {
    TrimmedShape(info, lines);
    var a, b := TrimStart(info, lines), TrimEnd(info, lines);
    assert lines == lines[..a] + lines[a..b] + lines[b..];
    PragmaCountAppend(info, lines[..a] + lines[a..b], lines[b..]);
    PragmaCountAppend(info, lines[..a], lines[a..b]);
    BlankCountZero(info, lines[..a]);
    BlankCountZero(info, lines[b..]);
  }

  /** Trimming keeps the lines free of line boundaries. */
  lemma {:induction false} TrimmedNoBreaks(info: string -> LineInfo, lines: seq<string>)
    requires AllNoBreaks(lines)
    ensures AllNoBreaks(Trimmed(info, lines))
  {
    TrimmedShape(info, lines);
  }

  /** Joined lines split back into the same lines. */
  lemma {:induction false} RejoinedLines(lines: seq<string>, text: string)
    requires AllNoBreaks(lines)
    requires |lines| > 0 && lines[|lines| - 1] != []
    ensures SplitLines(JoinedText(lines, text)) == lines
  {
    SplitJoin(lines);
    var j := Join(lines, "\n");
    if !EndsWith(text, "\n") {
      assert JoinedText(lines, text) == j;
    }
  }

  lemma {:induction false} SuffixNoBreaks(s: string, n: nat)
    requires NoBreaks(s) && n <= |s|
    ensures NoBreaks(s[n..])
  {
    assert forall i :: 0 <= i < |s| - n ==> s[n..][i] == s[i + n];
  }

  /** Lines holding the inserted pragma line keep it through joining, stripping
      byte-order marks and splitting again. */
  lemma {:induction false} RejoinedKeepsPragma(lines: seq<string>, text: string)
    requires AllNoBreaks(lines)
    requires PragmaLine in lines
    requires lines[|lines| - 1] != []
    ensures PragmaLine in SplitLines(StripBom(JoinedText(lines, text)))
  {
    var nl := if EndsWith(text, "\n") then "\n" else "";
    var stripped := [StripBom(lines[0])] + lines[1..];
    StripBomJoin(lines, nl);
    assert JoinedText(lines, text) == Join(lines, "\n") + nl;
    assert StripBom(JoinedText(lines, text)) == Join(stripped, "\n") + nl;
    var k :| 0 <= k < |lines| && lines[k] == PragmaLine;
    assert stripped[k] == PragmaLine by {
      if k == 0 {
        assert LeadingBoms(PragmaLine) == 0;
        assert StripBom(PragmaLine) == PragmaLine;
      }
    }
    SuffixNoBreaks(lines[0], LeadingBoms(lines[0]));
    assert AllNoBreaks(stripped) by {
      assert forall j :: 1 <= j < |stripped| ==> stripped[j] == lines[j];
    }
    assert stripped[|stripped| - 1] != [] by {
      if |lines| == 1 {
        assert stripped[0] == PragmaLine;
      } else {
        assert stripped[|stripped| - 1] == lines[|lines| - 1];
      }
    }
    RejoinedLines(stripped, text);
    assert JoinedText(stripped, text) == Join(stripped, "\n") + nl;
    assert SplitLines(StripBom(JoinedText(lines, text))) == stripped;
  }
}
