/** The duplicate-include pass. A source file's lines are read once, top to bottom.
    An include directive whose stripped text was already seen is dropped; every
    other line is kept as it is. Only C and C++ source and header files are
    processed. */
module IncludeDedup {
  import opened PyText
  import opened Wrappers

  /** The include pattern: optional whitespace, '#', optional whitespace, `include`,
      whitespace, then '<' or '"', at least one character, and '>' or '"', all on
      one line. */
  predicate IsInclude(line: string)
  {
    var a := LeadingSpaces(line);
    a < |line| && line[a] == '#' &&
    var r := LStrip(line[a + 1..]);
    StartsWith(r, "include") && |r| > 7 && IsSpace(r[7]) &&
    var target := LStrip(r[7..]);
    |target| > 0 && (target[0] == '<' || target[0] == '"') && ClosesFrom(target, 1)
  }

  /** Some '>' or '"' at index 2 or later of `target` ends a run of characters other
      than a newline that starts at index `i`. */
  predicate ClosesFrom(target: string, i: nat)
    decreases |target| - i
  {
    i < |target| &&
    if 2 <= i && (target[i] == '>' || target[i] == '"') then true
    else target[i] != '\n' && ClosesFrom(target, i + 1)
  }

  /** What the pass remembers of a line: the stripped text of an include
      directive, nothing for any other line. */
  function IncludeKey(line: string): Option<string>
  {
    if IsInclude(line) then Some(Strip(line)) else None
  }

  /** The keys of the lines, as a set. The pass and its lemmas below take the key
      function as a parameter; the pass proper uses `IncludeKey`. */
  function Keys(key: string -> Option<string>, lines: seq<string>): set<string>
    decreases |lines|
  {
    if |lines| == 0 then {}
    else (match key(lines[0]) case Some(k) => {k} case None => {}) + Keys(key, lines[1..])
  }

  /** The lines the pass keeps, given the keys already seen: a keyed line whose key
      was seen is dropped, every other line is kept. */
  function Deduped(key: string -> Option<string>, lines: seq<string>, seen: set<string>): seq<string>
    decreases |lines|
  {
    if |lines| == 0 then []
    else
      match key(lines[0])
      case Some(k) =>
        if k in seen then Deduped(key, lines[1..], seen)
        else [lines[0]] + Deduped(key, lines[1..], seen + {k})
      case None => [lines[0]] + Deduped(key, lines[1..], seen)
  }

  /** The loop of `remove_duplicate_includes_from_file` over the file's lines, for
      any key function. */
  method DedupByKey(key: string -> Option<string>, lines: seq<string>) returns (output: seq<string>)
    ensures output == Deduped(key, lines, {})
  {
    var seen: set<string> := {};
    output := [];
    var i := 0;
    while i < |lines|
      invariant 0 <= i <= |lines|
      invariant output + Deduped(key, lines[i..], seen) == Deduped(key, lines, {})
    {
      var line := lines[i];
      ghost var rest := lines[i + 1..];
      assert lines[i..][0] == line && lines[i..][1..] == rest;
      DedupedStep(key, lines[i..], seen);
      match key(line) {
        case Some(normalized) =>
          if normalized !in seen {
            ghost var tail := Deduped(key, rest, seen + {normalized});
            assert output + ([line] + tail) == (output + [line]) + tail;
            seen := seen + {normalized};
            output := output + [line];
          }
        case None =>
          ghost var tail := Deduped(key, rest, seen);
          assert output + ([line] + tail) == (output + [line]) + tail;
          output := output + [line];
      }
      i := i + 1;
    }
    assert lines[|lines|..] == [];
  }

  /** `remove_duplicate_includes_from_file` on the file's lines: the loop above keyed
      by the include pattern and the stripped line. */
  method RemoveDuplicateIncludes(lines: seq<string>) returns (output: seq<string>)
    ensures output == Deduped(IncludeKey, lines, {})
  {
    output := DedupByKey(IncludeKey, lines);
  }

  predicate IsSubsequence<T(==)>(a: seq<T>, b: seq<T>)
    decreases |b|
  {
    |a| == 0 || (|b| > 0 && ((a[0] == b[0] && IsSubsequence(a[1..], b[1..])) || IsSubsequence(a, b[1..])))
  }

  /** The lines without a key, in order. */
  function Unkeyed(key: string -> Option<string>, lines: seq<string>): seq<string>
    decreases |lines|
  {
    if |lines| == 0 then []
    else (if key(lines[0]).Some? then [] else [lines[0]]) + Unkeyed(key, lines[1..])
  }

  /** No two keyed lines share a key, and no key is in `seen`. */
  predicate DistinctKeys(key: string -> Option<string>, lines: seq<string>, seen: set<string>)
  {
    (forall i :: 0 <= i < |lines| && key(lines[i]).Some? ==> key(lines[i]).value !in seen)
    && forall i, j :: 0 <= i < j < |lines| && key(lines[i]).Some? && key(lines[j]).Some? ==>
      key(lines[i]).value != key(lines[j]).value
  }

  /** The seen set after the first line. */
  function SeenAfter(key: string -> Option<string>, line: string, seen: set<string>): set<string>
  {
    match key(line) case Some(k) => seen + {k} case None => seen
  }

  /** One step of the pass: the first line is dropped exactly when its key was seen. */
  lemma DedupedStep(key: string -> Option<string>, lines: seq<string>, seen: set<string>)
    requires |lines| > 0
    ensures key(lines[0]).Some? && key(lines[0]).value in seen ==>
      Deduped(key, lines, seen) == Deduped(key, lines[1..], seen)
    ensures !(key(lines[0]).Some? && key(lines[0]).value in seen) ==>
      Deduped(key, lines, seen) == [lines[0]] + Deduped(key, lines[1..], SeenAfter(key, lines[0], seen))
  {
  }

  /** The kept lines are the input's lines in their order, minus some. */
  lemma {:induction false} DedupedIsSubsequence(key: string -> Option<string>, lines: seq<string>, seen: set<string>)
    ensures IsSubsequence(Deduped(key, lines, seen), lines)
    decreases |lines|
  {
    if |lines| > 0 {
      DedupedStep(key, lines, seen);
      DedupedIsSubsequence(key, lines[1..], SeenAfter(key, lines[0], seen));
      DedupedIsSubsequence(key, lines[1..], seen);
      var out := Deduped(key, lines, seen);
      if !(key(lines[0]).Some? && key(lines[0]).value in seen) {
        assert out[0] == lines[0] && out[1..] == Deduped(key, lines[1..], SeenAfter(key, lines[0], seen));
      }
    }
  }

  /** Every line without a key is kept, in order. */
  lemma {:induction false} UnkeyedKept(key: string -> Option<string>, lines: seq<string>, seen: set<string>)
    ensures Unkeyed(key, Deduped(key, lines, seen)) == Unkeyed(key, lines)
    decreases |lines|
  {
    if |lines| > 0 {
      DedupedStep(key, lines, seen);
      UnkeyedKept(key, lines[1..], SeenAfter(key, lines[0], seen));
      UnkeyedKept(key, lines[1..], seen);
      var out := Deduped(key, lines, seen);
      if !(key(lines[0]).Some? && key(lines[0]).value in seen) {
        assert out[1..] == Deduped(key, lines[1..], SeenAfter(key, lines[0], seen));
      }
    }
  }

  /** Every key not seen before survives: the kept keys are the input's, minus the
      seen ones. */
  lemma {:induction false} KeysKept(key: string -> Option<string>, lines: seq<string>, seen: set<string>)
    ensures Keys(key, Deduped(key, lines, seen)) == Keys(key, lines) - seen
    decreases |lines|
  {
    if |lines| > 0 {
      DedupedStep(key, lines, seen);
      KeysKept(key, lines[1..], SeenAfter(key, lines[0], seen));
      KeysKept(key, lines[1..], seen);
      var out := Deduped(key, lines, seen);
      if !(key(lines[0]).Some? && key(lines[0]).value in seen) {
        assert out[1..] == Deduped(key, lines[1..], SeenAfter(key, lines[0], seen));
      }
    }
  }

  /** After the pass no key repeats. */
  lemma {:induction false} DedupedDistinct(key: string -> Option<string>, lines: seq<string>, seen: set<string>)
    ensures DistinctKeys(key, Deduped(key, lines, seen), seen)
    decreases |lines|
  {
    if |lines| > 0 {
      DedupedStep(key, lines, seen);
      var seen' := SeenAfter(key, lines[0], seen);
      DedupedDistinct(key, lines[1..], seen');
      DedupedDistinct(key, lines[1..], seen);
      var out := Deduped(key, lines, seen);
      if !(key(lines[0]).Some? && key(lines[0]).value in seen) {
        var rest := Deduped(key, lines[1..], seen');
        assert out == [lines[0]] + rest;
        forall i | 0 <= i < |out| && key(out[i]).Some? ensures key(out[i]).value !in seen {
          if i > 0 {
            assert out[i] == rest[i - 1];
          }
        }
        forall i, j | 0 <= i < j < |out| && key(out[i]).Some? && key(out[j]).Some?
          ensures key(out[i]).value != key(out[j]).value
        {
          assert out[j] == rest[j - 1];
          if i > 0 {
            assert out[i] == rest[i - 1];
          }
        }
      }
    }
  }

  /** Lines whose keys are already distinct (and unseen) pass unchanged. */
  lemma {:induction false} DistinctUnchanged(key: string -> Option<string>, lines: seq<string>, seen: set<string>)
    requires DistinctKeys(key, lines, seen)
    ensures Deduped(key, lines, seen) == lines
    decreases |lines|
  {
    if |lines| > 0 {
      DedupedStep(key, lines, seen);
      var seen' := SeenAfter(key, lines[0], seen);
      var rest := lines[1..];
      forall i | 0 <= i < |rest| && key(rest[i]).Some? ensures key(rest[i]).value !in seen' {
        assert rest[i] == lines[i + 1];
      }
      forall i, j | 0 <= i < j < |rest| && key(rest[i]).Some? && key(rest[j]).Some?
        ensures key(rest[i]).value != key(rest[j]).value
      {
        assert rest[i] == lines[i + 1] && rest[j] == lines[j + 1];
      }
      DistinctUnchanged(key, rest, seen');
      assert lines == [lines[0]] + rest;
    }
  }

  /** A second pass changes nothing. */
  lemma SecondPassIdentity(key: string -> Option<string>, lines: seq<string>)
    ensures Deduped(key, Deduped(key, lines, {}), {}) == Deduped(key, lines, {})
  {
    DedupedDistinct(key, lines, {});
    DistinctUnchanged(key, Deduped(key, lines, {}), {});
  }

  /** The pass decides line by line: a line is dropped exactly when it has a key
      that `seen` or an earlier line already has. */
  lemma {:induction false} DedupedAppend(key: string -> Option<string>, lines: seq<string>, line: string, seen: set<string>)
    ensures Deduped(key, lines + [line], seen) ==
      Deduped(key, lines, seen) +
      (if key(line).Some? && key(line).value in seen + Keys(key, lines) then [] else [line])
    decreases |lines|
  {
    if |lines| == 0 {
      assert [] + [line] == [line];
      DedupedStep(key, [line], seen);
      assert [line][1..] == [];
    } else {
      var all := lines + [line];
      assert all[0] == lines[0];
      assert all[1..] == lines[1..] + [line];
      DedupedStep(key, all, seen);
      DedupedStep(key, lines, seen);
      var seen' := SeenAfter(key, lines[0], seen);
      DedupedAppend(key, lines[1..], line, seen');
      DedupedAppend(key, lines[1..], line, seen);
      assert SeenAfter(key, lines[0], seen) + Keys(key, lines[1..]) == seen + Keys(key, lines);
    }
  }

  /** The file kinds the pass is applied to. */
  predicate HasSourceExtension(name: string)
  {
    EndsWith(name, ".cpp") || EndsWith(name, ".h") || EndsWith(name, ".hpp")
    || EndsWith(name, ".c") || EndsWith(name, ".inl")
  }

  /** The names a directory walk yields that the pass processes, in order. */
  function SourceFiles(files: seq<string>): seq<string>
    decreases |files|
  {
    if |files| == 0 then []
    else (if HasSourceExtension(files[0]) then [files[0]] else []) + SourceFiles(files[1..])
  }

  /** The file filter of `process_directory`. */
  method SelectSourceFiles(files: seq<string>) returns (chosen: seq<string>)
    ensures chosen == SourceFiles(files)
  {
    chosen := [];
    var i := 0;
    while i < |files|
      invariant 0 <= i <= |files|
      invariant chosen + SourceFiles(files[i..]) == SourceFiles(files)
    {
      assert files[i..][1..] == files[i + 1..];
      if HasSourceExtension(files[i]) {
        chosen := chosen + [files[i]];
      }
      i := i + 1;
    }
    assert files[|files|..] == [];
  }

  /** Exactly the C and C++ sources and headers are chosen, in the walk's order. */
  lemma {:induction false} SourceFilesChosen(files: seq<string>)
    ensures forall f :: f in SourceFiles(files) <==> f in files && HasSourceExtension(f)
    ensures IsSubsequence(SourceFiles(files), files)
    decreases |files|
  {
    if |files| > 0 {
      SourceFilesChosen(files[1..]);
      assert files == [files[0]] + files[1..];
      var out := SourceFiles(files);
      if HasSourceExtension(files[0]) {
        assert out == [files[0]] + SourceFiles(files[1..]);
        assert out[0] == files[0] && out[1..] == SourceFiles(files[1..]);
      } else {
        assert out == SourceFiles(files[1..]);
      }
    }
  }
}
