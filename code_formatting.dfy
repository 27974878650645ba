/** The per-line cleanup of the code-formatting script. A comment trailing a closing
    brace (the brace first on its line, then only semicolons and whitespace) is
    dropped unless some comment on the line names a namespace. Trailing whitespace
    goes, and the line ends in exactly one newline. */
module CodeFormatting {
  import opened PyText

  /** Where the run of ';' that starts at `from` ends. */
  function SemicolonRun(line: string, from: nat): (k: nat)
    requires from <= |line|
    ensures from <= k <= |line|
    ensures forall i :: from <= i < k ==> line[i] == ';'
    ensures k < |line| ==> line[k] != ';'
    decreases |line| - from
  {
    if from < |line| && line[from] == ';' then SemicolonRun(line, from + 1) else from
  }

  /** The line's first '}' is its first non-whitespace character. */
  predicate BraceLeads(line: string, scopeEnd: int)
  {
    0 <= scopeEnd <= |line| && (scopeEnd == 0 || IsSpaceStr(line[..scopeEnd]))
  }

  /** The line's first `//` comment goes: it follows a leading '}' and its semicolons
      with nothing but whitespace between, and no `// namespace` occurs. */
  predicate CommentRemovable(line: string)
  {
    var scopeEnd := Find(line, "}");
    BraceLeads(line, scopeEnd) &&
    var after := SemicolonRun(line, scopeEnd + 1);
    var commentBegin := Find(line, "//");
    commentBegin >= 0 && Find(line, "// namespace") < 0
    && (after == commentBegin || (after <= commentBegin && IsSpaceStr(line[after..commentBegin])))
  }

  /** Where the line is cut before trailing whitespace is removed: at its first `//`
      when that comment goes, at its end otherwise. */
  function CommentCut(line: string): (cut: nat)
    ensures cut <= |line|
    ensures cut < |line| ==> cut == Find(line, "//") && Find(line, "// namespace") < 0
  {
    if CommentRemovable(line) then Find(line, "//") else |line|
  }

  /** The formatted line: cut, right-stripped, one newline. */
  function Formatted(line: string): (r: string)
    ensures |r| >= 1 && r[|r| - 1] == '\n'
    ensures |r| == 1 || !IsSpace(r[|r| - 2])
  {
    RStrip(line[..CommentCut(line)]) + "\n"
  }

  /** `apply_formatting`. */
  method ApplyFormatting(line: string) returns (r: string)
    ensures r == Formatted(line)
    ensures r[|r| - 1] == '\n' && (|r| == 1 || !IsSpace(r[|r| - 2]))
  {
    var cut := |line|;
    var scopeEnd := Find(line, "}");
    if scopeEnd >= 0 {
      if scopeEnd == 0 || IsSpaceStr(line[..scopeEnd]) {
        var after := scopeEnd + 1;
        while after < |line| && line[after] == ';'
          invariant scopeEnd + 1 <= after <= |line|
          invariant forall i :: scopeEnd + 1 <= i < after ==> line[i] == ';'
          decreases |line| - after
        {
          after := after + 1;
        }
        assert after == SemicolonRun(line, scopeEnd + 1);
        var commentBegin := Find(line, "//");
        var namespaceCommentBegin := Find(line, "// namespace");
        if commentBegin >= 0 && namespaceCommentBegin < 0 {
          if after == commentBegin || (after <= commentBegin && IsSpaceStr(line[after..commentBegin])) {
            cut := commentBegin;
          }
        }
      }
    }
    assert cut == CommentCut(line);
    r := RStrip(line[..cut]) + "\n";
  }

  /** A line with a `// namespace` comment only loses its trailing whitespace. */
  lemma NamespaceCommentKept(line: string)
    requires Find(line, "// namespace") >= 0
    ensures Formatted(line) == RStrip(line) + "\n"
  {
    assert line[..|line|] == line;
  }

  /** A line whose first '}' is not its first non-whitespace character (or that has
      none) only loses its trailing whitespace. */
  lemma NoLeadingBraceKept(line: string)
    requires !BraceLeads(line, Find(line, "}"))
    ensures Formatted(line) == RStrip(line) + "\n"
  {
    assert line[..|line|] == line;
  }

  /** A line without a `//` comment only loses its trailing whitespace. */
  lemma NoCommentKept(line: string)
    requires Find(line, "//") < 0
    ensures Formatted(line) == RStrip(line) + "\n"
  {
    assert line[..|line|] == line;
  }

  /** A leading '}', its semicolons, then only whitespace before the first `//`: the
      comment and that whitespace go, and the brace and its semicolons stay. */
  lemma BraceCommentStripped(line: string, indent: string, semis: string, gap: string)
    requires Find(line, "//") >= 0 && Find(line, "// namespace") < 0
    requires line[..Find(line, "//")] == indent + "}" + semis + gap
    requires AllSpace(indent) && AllSpace(gap)
    requires forall i :: 0 <= i < |semis| ==> semis[i] == ';'
    ensures Formatted(line) == indent + "}" + semis + "\n"
  {
    var c := Find(line, "//");
    var kept := indent + "}" + semis;
    assert line[..c] == kept + gap;
    assert forall i :: 0 <= i < |kept| ==> line[i] == kept[i] by {
      forall i | 0 <= i < |kept| ensures line[i] == kept[i] {
        assert line[i] == line[..c][i] == (kept + gap)[i];
      }
    }
    var scopeEnd := |indent|;
    assert line[scopeEnd] == '}';
    FirstBrace(line, indent);
    assert scopeEnd == 0 || IsSpaceStr(line[..scopeEnd]) by {
      assert line[..scopeEnd] == indent;
    }
    var k := |kept|;
    forall i | scopeEnd + 1 <= i < k ensures line[i] == ';' {
      assert line[i] == kept[i] == semis[i - scopeEnd - 1];
    }
    if k < |line| {
      if |gap| > 0 {
        assert line[k] == (kept + gap)[k] == gap[0];
      } else {
        assert line[c..c + 2] == "//";
        assert line[k] == '/';
      }
    }
    SemicolonRunEnds(line, scopeEnd + 1, k);
    if k < c {
      assert line[k..c] == gap;
    }
    assert CommentCut(line) == c;
    RStripKeepsLastNonSpace(kept, gap);
  }

  /** A string of whitespace has no '}', so the first '}' is the one after it. */
  lemma FirstBrace(line: string, indent: string)
    requires |indent| < |line| && line[|indent|] == '}'
    requires AllSpace(indent) && line[..|indent|] == indent
    ensures Find(line, "}") == |indent|
  {
    assert OccursAt(line, "}", |indent|) by {
      assert line[|indent|..|indent| + 1] == ['}'];
    }
    forall j: nat | j < |indent| ensures !OccursAt(line, "}", j) {
      assert line[j..j + 1][0] == line[j] == indent[j];
    }
  }

  /** A run of ';' from `from` that stops at `k` is the semicolon run. */
  lemma SemicolonRunEnds(line: string, from: nat, k: nat)
    requires from <= k <= |line|
    requires forall i :: from <= i < k ==> line[i] == ';'
    requires k < |line| ==> line[k] != ';'
    ensures SemicolonRun(line, from) == k
  {
  }

  /** Right-stripping a string that ends in a non-whitespace character and then
      whitespace leaves the part before the whitespace. */
  lemma {:induction false} RStripKeepsLastNonSpace(kept: string, gap: string)
    requires |kept| > 0 && !IsSpace(kept[|kept| - 1]) && AllSpace(gap)
    ensures TrailingSpaces(kept + gap) == |gap|
    ensures RStrip(kept + gap) == kept
    decreases |gap|
  {
    var s := kept + gap;
    if |gap| > 0 {
      var g := gap[..|gap| - 1];
      RStripKeepsLastNonSpace(kept, g);
      assert s[..|s| - 1] == kept + g;
    }
    assert s[..|s| - |gap|] == kept;
  }

  /** Formatting a formatted line changes nothing. */
  lemma FormattedIdempotent(line: string)
    ensures Formatted(Formatted(line)) == Formatted(line)
  {
    var cut := CommentCut(line);
    var x := line[..cut];
    var stripped := RStrip(x);
    var r := stripped + "\n";
    if cut < |line| {
      SecondPassAfterCut(line);
    } else {
      assert x == line;
      SecondPassWithoutCut(line);
    }
    assert r[..|r|] == r;
    if |stripped| > 0 {
      RStripKeepsLastNonSpace(stripped, "\n");
    } else {
      assert TrailingSpaces("\n") == 1;
    }
  }

  /** After a cut, the formatted line holds no `//` at all. */
  lemma SecondPassAfterCut(line: string)
    requires CommentCut(line) < |line|
    ensures !CommentRemovable(Formatted(line))
  {
    var c := CommentCut(line);
    var x := line[..c];
    forall j: nat ensures !OccursAt(x, "//", j) {
      OccursInPrefix(line, c, "//", j);
    }
    StripNlOccurs(x, "//");
    FindSameOccurrences(RStrip(x) + "\n", x, "//");
  }

  /** Without a cut, the stripped line gives the second pass no reason to cut either. */
  lemma SecondPassWithoutCut(line: string)
    requires CommentCut(line) == |line|
    ensures !CommentRemovable(RStrip(line) + "\n")
  {
    RemovableTransfers(line);
    assert Find(line, "//") < |line|;
  }

  /** A reason to cut the stripped line is a reason to cut the line itself. */
  lemma RemovableTransfers(line: string)
    ensures CommentRemovable(RStrip(line) + "\n") ==> CommentRemovable(line)
  {
    var stripped := RStrip(line);
    var r := stripped + "\n";
    if CommentRemovable(r) {
      FindsAgree(line);
      var f := Find(line, "}");
      OccursChar(r, "}", f, 0);
      assert f < |stripped|;
      assert r[..f] == line[..f];
      SemicolonRunOfStripped(line, f + 1);
      var c := Find(line, "//");
      OccursChar(r, "//", c, 1);
      assert c + 2 <= |stripped|;
      var after := SemicolonRun(line, f + 1);
      if after <= c {
        assert r[after..c] == line[after..c];
      }
    }
  }

  /** The three patterns the decision looks for are found at the same places in a
      line and in the line right-stripped with a newline added. */
  lemma FindsAgree(line: string)
    ensures Find(RStrip(line) + "\n", "}") == Find(line, "}")
    ensures Find(RStrip(line) + "\n", "//") == Find(line, "//")
    ensures Find(RStrip(line) + "\n", "// namespace") == Find(line, "// namespace")
  {
    var r := RStrip(line) + "\n";
    StripNlOccurs(line, "}");
    FindSameOccurrences(r, line, "}");
    StripNlOccurs(line, "//");
    FindSameOccurrences(r, line, "//");
    StripNlOccurs(line, "// namespace");
    FindSameOccurrences(r, line, "// namespace");
  }

  /** An occurrence puts the pattern's characters at their places. */
  lemma OccursChar(s: string, p: string, j: nat, i: nat)
    requires OccursAt(s, p, j) && i < |p|
    ensures s[j + i] == p[i]
  {
    assert s[j..j + |p|][i] == s[j + i];
  }

  /** An occurrence inside a prefix is an occurrence that ends within it. */
  lemma OccursInPrefix(line: string, k: nat, p: string, j: nat)
    requires k <= |line|
    ensures OccursAt(line[..k], p, j) <==> OccursAt(line, p, j) && j + |p| <= k
  {
    if j + |p| <= k {
      assert line[..k][j..j + |p|] == line[j..j + |p|];
    }
  }

  /** Everything `RStrip` removed is whitespace. */
  lemma StrippedTailSpace(x: string)
    ensures forall i :: |RStrip(x)| <= i < |x| ==> IsSpace(x[i])
  {
    var n := |RStrip(x)|;
    forall i | n <= i < |x| ensures IsSpace(x[i]) {
      assert x[i] == x[n..][i - n];
    }
  }

  /** The semicolon run of a right-stripped line with a newline added is the
      line's own. */
  lemma SemicolonRunOfStripped(line: string, from: nat)
    requires from <= |RStrip(line)|
    ensures SemicolonRun(RStrip(line) + "\n", from) == SemicolonRun(line, from)
  {
    var stripped := RStrip(line);
    var r := stripped + "\n";
    var k := SemicolonRun(line, from);
    StrippedTailSpace(line);
    if |stripped| < |line| {
      RunStopsAtSpace(line, from, |stripped|);
    }
    forall i | from <= i < k ensures r[i] == ';' {
      assert r[i] == line[i];
    }
    SemicolonRunEnds(r, from, k);
  }

  /** A semicolon run stops at the first whitespace character. */
  lemma RunStopsAtSpace(line: string, from: nat, i: nat)
    requires from <= i < |line| && IsSpace(line[i])
    ensures SemicolonRun(line, from) <= i
  {
  }

  /** A pattern whose last character is not whitespace occurs in a right-stripped
      line with a newline added exactly where it occurs in the line. */
  lemma StripNlOccurs(x: string, p: string)
    requires |p| > 0 && !IsSpace(p[|p| - 1])
    ensures forall j: nat :: OccursAt(RStrip(x) + "\n", p, j) <==> OccursAt(x, p, j)
  {
    var stripped := RStrip(x);
    var r := stripped + "\n";
    StrippedTailSpace(x);
    forall j: nat ensures OccursAt(r, p, j) <==> OccursAt(x, p, j) {
      var e := j + |p| - 1;
      if OccursAt(r, p, j) {
        assert r[e] == p[|p| - 1] by { assert r[j..j + |p|][|p| - 1] == r[e]; }
        assert e < |stripped|;
        assert r[j..j + |p|] == x[j..j + |p|];
      }
      if OccursAt(x, p, j) {
        assert x[e] == p[|p| - 1] by { assert x[j..j + |p|][|p| - 1] == x[e]; }
        assert e < |stripped|;
        assert r[j..j + |p|] == x[j..j + |p|];
      }
    }
  }

  /** Two strings with the same occurrences of a pattern find it at the same index. */
  lemma FindSameOccurrences(s: string, t: string, p: string)
    requires forall j: nat :: OccursAt(s, p, j) <==> OccursAt(t, p, j)
    ensures Find(s, p) == Find(t, p)
  {
    var a := Find(s, p);
    var b := Find(t, p);
    assert a >= 0 ==> OccursAt(t, p, a);
    assert b >= 0 ==> OccursAt(s, p, b);
  }
}
