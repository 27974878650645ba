/** The `_MSC_VER` unguarding pass over a header. A block made of an `#if` that
    tests `_MSC_VER`, blank lines, `#pragma once`, blank lines and an `#endif`
    collapses to its pragma line; every other line is kept, line endings included. */
module MscPragma {
  import opened PyText
  import opened Wrappers
  import opened DirectiveSyntax

  /** How the pass sees a line. The four patterns below never match the same line
      (`KindExact`), so one classification stands for all of them. */
  datatype LineKind = MscIf | PragmaOnce | Endif | Blank | Other

  /** `\s*(?://.*)?\r?\n?$`: spaces, then the end or a `//` comment. */
  predicate CommentTail(s: string)
  {
    var k := SpaceRun(s, false);
    k == |s| || (StartsWith(s[k..], "//") && DotsToEndNl(s[k + 2..]))
  }

  /** `if\s+defined\s*\(\s*_MSC_VER\s*\)` and the tail, ignoring case. */
  predicate IfDefinedMsc(r: string)
  {
    StartsWithNoCase(r, "if") && SpaceRun(r[2..], false) > 0 &&
    var u := SkipSpace(r[2..], false);
    StartsWithNoCase(u, "defined") &&
    var v := SkipSpace(u[7..], false);
    |v| > 0 && v[0] == '(' &&
    var w := SkipSpace(v[1..], false);
    StartsWithNoCase(w, "_msc_ver") &&
    var x := SkipSpace(w[8..], false);
    |x| > 0 && x[0] == ')' && CommentTail(x[1..])
  }

  /** `ifdef\s+_MSC_VER` and the tail, ignoring case. */
  predicate IfdefMsc(r: string)
  {
    StartsWithNoCase(r, "ifdef") && SpaceRun(r[5..], false) > 0 &&
    var u := SkipSpace(r[5..], false);
    StartsWithNoCase(u, "_msc_ver") && CommentTail(u[8..])
  }

  /** `\s*[<>!=]=?\s*\d+` and the tail. */
  predicate CompareTail(t: string)
  {
    var s1 := SkipSpace(t, false);
    |s1| > 0 && (s1[0] == '<' || s1[0] == '>' || s1[0] == '!' || s1[0] == '=') &&
    var o := if |s1| > 1 && s1[1] == '=' then 2 else 1;
    var s2 := SkipSpace(s1[o..], false);
    var d := DigitRun(s2);
    d > 0 && CommentTail(s2[d..])
  }

  /** `if\s+_MSC_VER`, an optional comparison with a number, and the tail. */
  predicate IfMscCompare(r: string)
  {
    StartsWithNoCase(r, "if") && SpaceRun(r[2..], false) > 0 &&
    var u := SkipSpace(r[2..], false);
    StartsWithNoCase(u, "_msc_ver") && (CommentTail(u[8..]) || CompareTail(u[8..]))
  }

  /** The `#if` pattern of remove_mscver_from_pragma.py. */
  predicate IsMscIf(line: string)
  {
    match DirectiveRest(line, false)
    case None => false
    case Some(r) => IfDefinedMsc(r) || IfdefMsc(r) || IfMscCompare(r)
  }

  /** `^\s*\#\s*pragma\s+once\s*\r?\n?$`, ignoring case. */
  predicate IsPragmaOnce(line: string)
  {
    match DirectiveRest(line, false)
    case None => false
    case Some(r) =>
      StartsWithNoCase(r, "pragma") && SpaceRun(r[6..], false) > 0 &&
      var u := SkipSpace(r[6..], false);
      StartsWithNoCase(u, "once") && AllSpace(u[4..])
  }

  /** `^\s*\#\s*endif\b.*\r?\n?$`, ignoring case. */
  predicate IsEndif(line: string)
  {
    match DirectiveRest(line, false)
    case None => false
    case Some(r) => StartsWithNoCase(r, "endif") && WordEndsAt(r, 5) && DotsToEndNl(r[5..])
  }

  function TabSpaceRun(s: string): (n: nat)
    ensures n <= |s|
    ensures forall i :: 0 <= i < n ==> s[i] == ' ' || s[i] == '\t'
    decreases |s|
  {
    if |s| > 0 && (s[0] == ' ' || s[0] == '\t') then 1 + TabSpaceRun(s[1..]) else 0
  }

  /** `^[ \t]*\r?\n?$`. */
  predicate IsBlankLine(line: string)
  {
    var e := line[TabSpaceRun(line)..];
    var e' := if |e| > 0 && e[0] == '\r' then e[1..] else e;
    e' == "" || e' == "\n" || e' == "\n\n"
  }

  function Kind(line: string): LineKind
  {
    if IsMscIf(line) then MscIf
    else if IsPragmaOnce(line) then PragmaOnce
    else if IsEndif(line) then Endif
    else if IsBlankLine(line) then Blank
    else Other
  }

  /** A blank line has no directive. */
  lemma BlankIsNoDirective(line: string)
    requires IsBlankLine(line)
    ensures DirectiveRest(line, false).None?
  {
    var t := TabSpaceRun(line);
    forall i | 0 <= i < |line| ensures IsSpace(line[i]) {
      if i >= t {
        var e := line[t..];
        assert line[i] == e[i - t];
      }
    }
    assert SpaceRun(line, false) == |line|;
  }

  /** Each kind is exactly its pattern: the patterns are pairwise exclusive. */
  lemma KindExact(line: string)
    ensures Kind(line) == MscIf <==> IsMscIf(line)
    ensures Kind(line) == PragmaOnce <==> IsPragmaOnce(line)
    ensures Kind(line) == Endif <==> IsEndif(line)
    ensures Kind(line) == Blank <==> IsBlankLine(line)
  {
    if IsBlankLine(line) {
      BlankIsNoDirective(line);
    }
  }

  predicate Droppable(k: LineKind)
  {
    k == MscIf || k == Blank || k == Endif
  }

  /** The number of blank lines from index `from` on. */
  function BlankRun(kind: string -> LineKind, lines: seq<string>, from: nat): (n: nat)
    requires from <= |lines|
    ensures from + n <= |lines|
    ensures forall k :: from <= k < from + n ==> kind(lines[k]) == Blank
    ensures from + n < |lines| ==> kind(lines[from + n]) != Blank
    decreases |lines| - from
  {
    if from < |lines| && kind(lines[from]) == Blank then 1 + BlankRun(kind, lines, from + 1) else 0
  }

  /** Where a block's pragma and `#endif` lines are. */
  datatype Block = Block(pragma: nat, endif: nat)

  /** The block shape: `#if`, blanks, pragma, blanks, `#endif`. */
  predicate IsBlock(kind: string -> LineKind, lines: seq<string>, i: nat, p: nat, e: nat)
  {
    i < p < e < |lines| && kind(lines[i]) == MscIf && kind(lines[p]) == PragmaOnce
    && kind(lines[e]) == Endif
    && (forall k :: i < k < p ==> kind(lines[k]) == Blank)
    && (forall k :: p < k < e ==> kind(lines[k]) == Blank)
  }

  /** The block starting at line `i`, as the scan recognises it. */
  function BlockAt(kind: string -> LineKind, lines: seq<string>, i: nat): (b: Option<Block>)
    requires i < |lines|
    ensures b.Some? ==> i < b.value.pragma < b.value.endif < |lines|
  {
    if kind(lines[i]) != MscIf then None
    else
      var p := i + 1 + BlankRun(kind, lines, i + 1);
      if p >= |lines| || kind(lines[p]) != PragmaOnce then None
      else
        var e := p + 1 + BlankRun(kind, lines, p + 1);
        if e >= |lines| || kind(lines[e]) != Endif then None
        else Some(Block(p, e))
  }

  /** A block the scan finds has the block shape. */
  lemma BlockAtShape(kind: string -> LineKind, lines: seq<string>, i: nat)
    requires i < |lines| && BlockAt(kind, lines, i).Some?
    ensures IsBlock(kind, lines, i, BlockAt(kind, lines, i).value.pragma, BlockAt(kind, lines, i).value.endif)
  {
  }

  /** A blank run that ends where a non-blank line (or the end) is. */
  lemma {:induction false} BlankRunExact(kind: string -> LineKind, lines: seq<string>, from: nat, stop: nat)
    requires from <= stop <= |lines|
    requires forall k :: from <= k < stop ==> kind(lines[k]) == Blank
    requires stop < |lines| ==> kind(lines[stop]) != Blank
    ensures BlankRun(kind, lines, from) == stop - from
    decreases stop - from
  {
    if from < stop {
      BlankRunExact(kind, lines, from + 1, stop);
    }
  }

  /** The scan recognises exactly the block shape. */
  lemma BlockAtExact(kind: string -> LineKind, lines: seq<string>, i: nat, p: nat, e: nat)
    requires IsBlock(kind, lines, i, p, e)
    ensures BlockAt(kind, lines, i) == Some(Block(p, e))
  {
    BlankRunExact(kind, lines, i + 1, p);
    BlankRunExact(kind, lines, p + 1, e);
  }

  /** Lines before the `#if`, the pragma line, and lines after the `#endif`. */
  function Rewrite(lines: seq<string>, i: nat, b: Block): seq<string>
    requires i < b.pragma < b.endif < |lines|
  {
    lines[..i] + ([lines[b.pragma]] + lines[b.endif + 1..])
  }

  /** The scan from line `i`: the final lines, and whether a block was rewritten. */
  function UnguardFrom(kind: string -> LineKind, lines: seq<string>, i: nat): (seq<string>, bool)
    decreases |lines|, |lines| - i
  {
    if i >= |lines| then (lines, false)
    else
      match BlockAt(kind, lines, i)
      case None => UnguardFrom(kind, lines, i + 1)
      case Some(b) =>
        (UnguardFrom(kind, Rewrite(lines, i, b), if i == 0 then 0 else i - 1).0, true)
  }

  /** One step of the scan at line `i`. */
  lemma UnguardStep(kind: string -> LineKind, lines: seq<string>, i: nat)
    requires i < |lines|
    ensures BlockAt(kind, lines, i).None? ==> UnguardFrom(kind, lines, i) == UnguardFrom(kind, lines, i + 1)
    ensures BlockAt(kind, lines, i).Some? ==>
      var b := BlockAt(kind, lines, i).value;
      UnguardFrom(kind, lines, i) == (UnguardFrom(kind, Rewrite(lines, i, b), if i == 0 then 0 else i - 1).0, true)
  {
  }

  /** The pragma line the scan looks for after the `#if` and its blanks. */
  lemma PragmaSought(kind: string -> LineKind, lines: seq<string>, i: nat, j: nat)
    requires i < j <= |lines| && kind(lines[i]) == MscIf
    requires BlankRun(kind, lines, i + 1) == (j - (i + 1)) + BlankRun(kind, lines, j)
    requires j == |lines| || kind(lines[j]) != Blank
    ensures j == i + 1 + BlankRun(kind, lines, i + 1)
    ensures j == |lines| || kind(lines[j]) != PragmaOnce ==> BlockAt(kind, lines, i).None?
  {
  }

  /** The `#endif` line the scan looks for after the pragma and its blanks. */
  lemma EndifSought(kind: string -> LineKind, lines: seq<string>, i: nat, p: nat, j: nat)
    requires i < p < j <= |lines| && kind(lines[i]) == MscIf && kind(lines[p]) == PragmaOnce
    requires p == i + 1 + BlankRun(kind, lines, i + 1)
    requires BlankRun(kind, lines, p + 1) == (j - (p + 1)) + BlankRun(kind, lines, j)
    requires j == |lines| || kind(lines[j]) != Blank
    ensures j == |lines| || kind(lines[j]) != Endif ==> BlockAt(kind, lines, i).None?
    ensures j < |lines| && kind(lines[j]) == Endif ==> BlockAt(kind, lines, i) == Some(Block(p, j))
  {
  }

  /** The block test of `unguard_msc_pragma_once` at line `i`: an `#if`, blanks,
      the pragma, blanks and an `#endif`. */
  method FindBlock(kind: string -> LineKind, lines: seq<string>, i: nat) returns (found: Option<Block>)
    requires i < |lines|
    ensures found == BlockAt(kind, lines, i)
  {
    if kind(lines[i]) != MscIf {
      return None;
    }
    var j := i + 1;
    while j < |lines| && kind(lines[j]) == Blank
      invariant i + 1 <= j <= |lines|
      invariant BlankRun(kind, lines, i + 1) == (j - (i + 1)) + BlankRun(kind, lines, j)
    {
      j := j + 1;
    }
    PragmaSought(kind, lines, i, j);
    if j >= |lines| || kind(lines[j]) != PragmaOnce {
      return None;
    }
    var pragmaIdx := j;
    j := j + 1;
    while j < |lines| && kind(lines[j]) == Blank
      invariant pragmaIdx + 1 <= j <= |lines|
      invariant BlankRun(kind, lines, pragmaIdx + 1) == (j - (pragmaIdx + 1)) + BlankRun(kind, lines, j)
    {
      j := j + 1;
    }
    EndifSought(kind, lines, i, pragmaIdx, j);
    if j >= |lines| || kind(lines[j]) != Endif {
      return None;
    }
    return Some(Block(pragmaIdx, j));
  }

  /** One pass of the loop at line `i`: rewrite the block found there and step back
      one line, or move on to the next line. */
  method UnguardAt(kind: string -> LineKind, lines: seq<string>, i: nat)
    returns (out: seq<string>, next: nat, found: bool)
    requires i < |lines|
    ensures UnguardFrom(kind, out, next).0 == UnguardFrom(kind, lines, i).0
    ensures (found || UnguardFrom(kind, out, next).1) == UnguardFrom(kind, lines, i).1
    ensures next <= |out|
    ensures |out| < |lines| || (|out| == |lines| && |out| - next < |lines| - i)
  {
    UnguardStep(kind, lines, i);
    var block := FindBlock(kind, lines, i);
    match block {
      case None =>
        out, next, found := lines, i + 1, false;
      case Some(b) =>
        out := lines[..i] + ([lines[b.pragma]] + lines[b.endif + 1..]);
        assert out == Rewrite(lines, i, b);
        next, found := if i == 0 then 0 else i - 1, true;
    }
  }

  /** The loop of `unguard_msc_pragma_once`: rewrite each block found, and resume
      one line before the removed `#if`. */
  method UnguardLines(kind: string -> LineKind, input: seq<string>) returns (lines: seq<string>, changed: bool)
    ensures (lines, changed) == UnguardFrom(kind, input, 0)
  {
    lines := input;
    changed := false;
    var i: nat := 0;
    while i < |lines|
      invariant i <= |lines|
      invariant UnguardFrom(kind, lines, i).0 == UnguardFrom(kind, input, 0).0
      invariant (changed || UnguardFrom(kind, lines, i).1) == UnguardFrom(kind, input, 0).1
      decreases |lines|, |lines| - i
    {
      var found;
      lines, i, found := UnguardAt(kind, lines, i);
      changed := changed || found;
    }
  }

  /** `unguard_msc_pragma_once`: split with line ends kept, scan, join with "". */
  method UnguardMscPragmaOnce(text: string) returns (result: string, changed: bool)
    ensures var lines := SplitLinesKeepEnds(text);
      result == Concat(UnguardFrom(Kind, lines, 0).0)
      && (changed <==> exists k :: 0 <= k < |lines| && BlockAt(Kind, lines, k).Some?)
    ensures !changed ==> result == text
  {
    var lines := SplitLinesKeepEnds(text);
    var out;
    out, changed := UnguardLines(Kind, lines);
    ChangedIffBlock(Kind, lines, 0);
    UnchangedIdentity(Kind, lines, 0);
    KeepEndsConcat(text);
    result := Concat(out);
  }

  /** A block is rewritten iff one starts at or after line `i`. */
  lemma ChangedIffBlock(kind: string -> LineKind, lines: seq<string>, i: nat)
    ensures UnguardFrom(kind, lines, i).1 <==> exists k :: i <= k < |lines| && BlockAt(kind, lines, k).Some?
  {
    if UnguardFrom(kind, lines, i).1 {
      var k := ChangedAtBlock(kind, lines, i);
    }
    if exists k :: i <= k < |lines| && BlockAt(kind, lines, k).Some? {
      var k :| i <= k < |lines| && BlockAt(kind, lines, k).Some?;
      BlockMeansChanged(kind, lines, i, k);
    }
  }

  /** A rewrite happens at the first block at or after line `i`. */
  lemma {:induction false} ChangedAtBlock(kind: string -> LineKind, lines: seq<string>, i: nat) returns (k: nat)
    requires UnguardFrom(kind, lines, i).1
    ensures i <= k < |lines| && BlockAt(kind, lines, k).Some?
    decreases |lines| - i
  {
    if BlockAt(kind, lines, i).Some? {
      k := i;
    } else {
      assert UnguardFrom(kind, lines, i) == UnguardFrom(kind, lines, i + 1);
      k := ChangedAtBlock(kind, lines, i + 1);
    }
  }

  /** The scan cannot pass a block at line `k` without a rewrite. */
  lemma {:induction false} BlockMeansChanged(kind: string -> LineKind, lines: seq<string>, i: nat, k: nat)
    requires i <= k < |lines| && BlockAt(kind, lines, k).Some?
    ensures UnguardFrom(kind, lines, i).1
    decreases k - i
  {
    if BlockAt(kind, lines, i).None? {
      assert UnguardFrom(kind, lines, i) == UnguardFrom(kind, lines, i + 1);
      BlockMeansChanged(kind, lines, i + 1, k);
    }
  }

  /** Without a rewrite the lines come back as they were. */
  lemma {:induction false} UnchangedIdentity(kind: string -> LineKind, lines: seq<string>, i: nat)
    ensures !UnguardFrom(kind, lines, i).1 ==> UnguardFrom(kind, lines, i).0 == lines
    decreases |lines| - i
  {
    if i < |lines| && BlockAt(kind, lines, i).None? {
      UnchangedIdentity(kind, lines, i + 1);
    }
  }

  /** `a` is `b` with some `#if`, blank and `#endif` lines deleted. */
  predicate Thinned(kind: string -> LineKind, a: seq<string>, b: seq<string>)
    decreases |b|
  {
    if |b| == 0 then |a| == 0
    else
      (|a| > 0 && a[0] == b[0] && Thinned(kind, a[1..], b[1..]))
      || (Droppable(kind(b[0])) && Thinned(kind, a, b[1..]))
  }

  /** The lines the pass never deletes: pragma lines and all other content. */
  function Kept(kind: string -> LineKind, lines: seq<string>): seq<string>
    decreases |lines|
  {
    if |lines| == 0 then []
    else (if Droppable(kind(lines[0])) then [] else [lines[0]]) + Kept(kind, lines[1..])
  }

  lemma {:induction false} ThinnedRefl(kind: string -> LineKind, a: seq<string>)
    ensures Thinned(kind, a, a)
    decreases |a|
  {
    if |a| > 0 {
      ThinnedRefl(kind, a[1..]);
    }
  }

  lemma {:induction false} ThinnedTrans(kind: string -> LineKind, a: seq<string>, b: seq<string>, c: seq<string>)
    requires Thinned(kind, a, b) && Thinned(kind, b, c)
    ensures Thinned(kind, a, c)
    decreases |c|
  {
    if |c| > 0 {
      if |b| > 0 && b[0] == c[0] && Thinned(kind, b[1..], c[1..]) {
        if |a| > 0 && a[0] == b[0] && Thinned(kind, a[1..], b[1..]) {
          ThinnedTrans(kind, a[1..], b[1..], c[1..]);
        } else {
          ThinnedTrans(kind, a, b[1..], c[1..]);
        }
      } else {
        ThinnedTrans(kind, a, b, c[1..]);
      }
    }
  }

  /** Deleting droppable lines in front keeps the relation. */
  predicate AllDroppable(kind: string -> LineKind, d: seq<string>)
  {
    forall k :: 0 <= k < |d| ==> Droppable(kind(d[k]))
  }

  lemma {:induction false} DropDroppable(kind: string -> LineKind, a: seq<string>, d: seq<string>, b: seq<string>)
    requires AllDroppable(kind, d)
    requires Thinned(kind, a, b)
    ensures Thinned(kind, a, d + b)
    decreases |d|
  {
    if |d| > 0 {
      DropDroppable(kind, a, d[1..], b);
      var db := d + b;
      assert db[0] == d[0] && db[1..] == d[1..] + b;
      assert Droppable(kind(db[0])) && Thinned(kind, a, db[1..]);
    } else {
      assert d + b == b;
    }
  }

  /** A common prefix keeps the relation. */
  lemma {:induction false} KeepPrefix(kind: string -> LineKind, x: seq<string>, a: seq<string>, b: seq<string>)
    requires Thinned(kind, a, b)
    ensures Thinned(kind, x + a, x + b)
    decreases |x|
  {
    if |x| > 0 {
      KeepPrefix(kind, x[1..], a, b);
      var xa, xb := x + a, x + b;
      assert xa[0] == x[0] && xa[1..] == x[1..] + a;
      assert xb[0] == x[0] && xb[1..] == x[1..] + b;
      assert |xa| > 0 && xa[0] == xb[0] && Thinned(kind, xa[1..], xb[1..]);
    } else {
      assert x + a == a && x + b == b;
    }
  }

  lemma SliceJoin<T>(s: seq<T>, lo: nat, mid: nat)
    requires lo <= mid <= |s|
    ensures s[lo..mid] + s[mid..] == s[lo..]
  {
  }

  /** The `#if` and the blanks before the pragma may all be deleted. */
  lemma OpeningDroppable(kind: string -> LineKind, lines: seq<string>, i: nat, p: nat, e: nat)
    requires IsBlock(kind, lines, i, p, e)
    ensures AllDroppable(kind, lines[i..p])
  {
    var opening := lines[i..p];
    forall k | 0 <= k < |opening| ensures Droppable(kind(opening[k])) {
      assert opening[k] == lines[i + k];
    }
  }

  /** The blanks after the pragma and the `#endif` may all be deleted. */
  lemma ClosingDroppable(kind: string -> LineKind, lines: seq<string>, i: nat, p: nat, e: nat)
    requires IsBlock(kind, lines, i, p, e)
    ensures AllDroppable(kind, lines[p + 1..e + 1])
  {
    var closing := lines[p + 1..e + 1];
    forall k | 0 <= k < |closing| ensures Droppable(kind(closing[k])) {
      assert closing[k] == lines[p + 1 + k];
    }
  }

  /** Keeping a first line that both sides share keeps the relation. */
  lemma KeepFirst(kind: string -> LineKind, lines: seq<string>, p: nat, after: seq<string>)
    requires p < |lines| && Thinned(kind, after, lines[p + 1..])
    ensures Thinned(kind, [lines[p]] + after, lines[p..])
  {
    var tail, kept := lines[p..], [lines[p]] + after;
    assert tail[0] == lines[p] && tail[1..] == lines[p + 1..];
    assert kept[0] == lines[p] && kept[1..] == after;
  }

  /** The pragma line with what follows the `#endif` is what is left of the lines from
      the pragma line on. */
  lemma BlockTailThinned(kind: string -> LineKind, lines: seq<string>, i: nat, p: nat, e: nat)
    requires IsBlock(kind, lines, i, p, e)
    ensures Thinned(kind, [lines[p]] + lines[e + 1..], lines[p..])
  {
    var after := lines[e + 1..];
    ThinnedRefl(kind, after);
    ClosingDroppable(kind, lines, i, p, e);
    DropDroppable(kind, after, lines[p + 1..e + 1], after);
    SliceJoin(lines, p + 1, e + 1);
    KeepFirst(kind, lines, p, after);
  }

  /** The pragma line with what follows the `#endif` is what is left of the lines from
      the `#if` on. */
  lemma BlockThinned(kind: string -> LineKind, lines: seq<string>, i: nat, p: nat, e: nat)
    requires IsBlock(kind, lines, i, p, e)
    ensures Thinned(kind, [lines[p]] + lines[e + 1..], lines[i..])
  {
    var tail := [lines[p]] + lines[e + 1..];
    BlockTailThinned(kind, lines, i, p, e);
    OpeningDroppable(kind, lines, i, p, e);
    DropDroppable(kind, tail, lines[i..p], lines[p..]);
    SliceJoin(lines, i, p);
  }

  /** One rewrite deletes only the `#if`, the `#endif` and the blanks between. */
  lemma RewriteThinned(kind: string -> LineKind, lines: seq<string>, i: nat, p: nat, e: nat)
    requires IsBlock(kind, lines, i, p, e)
    ensures Thinned(kind, Rewrite(lines, i, Block(p, e)), lines)
  {
    var tail := [lines[p]] + lines[e + 1..];
    BlockThinned(kind, lines, i, p, e);
    KeepPrefix(kind, lines[..i], tail, lines[i..]);
    assert Rewrite(lines, i, Block(p, e)) == lines[..i] + tail;
    assert lines[..i] + lines[i..] == lines;
  }

  /** The whole pass deletes only `#if`, blank and `#endif` lines. */
  lemma {:induction false} UnguardThinned(kind: string -> LineKind, lines: seq<string>, i: nat)
    ensures Thinned(kind, UnguardFrom(kind, lines, i).0, lines)
    decreases |lines|, |lines| - i
  {
    if i >= |lines| {
      ThinnedRefl(kind, lines);
    } else {
      match BlockAt(kind, lines, i)
      case None =>
        UnguardThinned(kind, lines, i + 1);
      case Some(b) =>
        var next := Rewrite(lines, i, b);
        UnguardThinned(kind, next, if i == 0 then 0 else i - 1);
        BlockAtShape(kind, lines, i);
        RewriteThinned(kind, lines, i, b.pragma, b.endif);
        ThinnedTrans(kind, UnguardFrom(kind, lines, i).0, next, lines);
    }
  }

  /** Deleting only droppable lines keeps every other line, in order. */
  lemma {:induction false} ThinnedKept(kind: string -> LineKind, a: seq<string>, b: seq<string>)
    requires Thinned(kind, a, b)
    ensures Kept(kind, a) == Kept(kind, b)
    ensures |a| <= |b|
    decreases |b|
  {
    if |b| > 0 {
      if |a| > 0 && a[0] == b[0] && Thinned(kind, a[1..], b[1..]) {
        ThinnedKept(kind, a[1..], b[1..]);
      } else {
        ThinnedKept(kind, a, b[1..]);
      }
    }
  }

  /** Pragma lines and every line that is not `#if`, blank or `#endif` survive the
      pass in their order, and a rewrite always makes the text at least two lines
      shorter. */
  lemma UnguardKeepsContent(kind: string -> LineKind, lines: seq<string>)
    ensures Kept(kind, UnguardFrom(kind, lines, 0).0) == Kept(kind, lines)
    ensures UnguardFrom(kind, lines, 0).1 ==> |UnguardFrom(kind, lines, 0).0| <= |lines| - 2
  {
    UnguardThinned(kind, lines, 0);
    ThinnedKept(kind, UnguardFrom(kind, lines, 0).0, lines);
    ChangedShortens(kind, lines, 0);
  }

  lemma {:induction false} ChangedShortens(kind: string -> LineKind, lines: seq<string>, i: nat)
    ensures UnguardFrom(kind, lines, i).1 ==> |UnguardFrom(kind, lines, i).0| <= |lines| - 2
    decreases |lines| - i
  {
    if i < |lines| {
      match BlockAt(kind, lines, i)
      case None =>
        ChangedShortens(kind, lines, i + 1);
      case Some(b) =>
        var next := Rewrite(lines, i, b);
        UnguardThinned(kind, next, if i == 0 then 0 else i - 1);
        ThinnedKept(kind, UnguardFrom(kind, next, if i == 0 then 0 else i - 1).0, next);
    }
  }
}
