/** Character and string helpers with the meaning the engine's AsciiString gives them:
    ASCII-only case folding (as the C library's `tolower` in the "C" locale) and
    prefix/suffix tests with and without case folding. */
module AsciiText {
  import opened Wrappers

  /** The lower-case form of one character; only 'A'..'Z' change. */
  function LowerChar(c: char): (r: char)
    ensures 'A' <= c <= 'Z' ==> r as int == c as int + 32
    ensures !('A' <= c <= 'Z') ==> r == c
    ensures !('A' <= r <= 'Z')
  {
    if 'A' <= c <= 'Z' then (c as int + 32) as char else c
  }

  /** AsciiString::toLower: every character lower-cased, length kept. */
  function ToLower(s: string): (r: string)
    ensures |r| == |s|
    ensures forall i :: 0 <= i < |s| ==> r[i] == LowerChar(s[i])
  {
    seq(|s|, i requires 0 <= i < |s| => LowerChar(s[i]))
  }

  predicate Contains(s: string, c: char)
  {
    exists i :: 0 <= i < |s| && s[i] == c
  }

  predicate StartsWith(s: string, prefix: string)
  {
    |prefix| <= |s| && s[..|prefix|] == prefix
  }

  predicate EndsWith(s: string, suffix: string)
  {
    |suffix| <= |s| && s[|s| - |suffix|..] == suffix
  }

  predicate EqualsNoCase(a: string, b: string)
  {
    ToLower(a) == ToLower(b)
  }

  predicate StartsWithNoCase(s: string, prefix: string)
  {
    |prefix| <= |s| && EqualsNoCase(s[..|prefix|], prefix)
  }

  predicate EndsWithNoCase(s: string, suffix: string)
  {
    |suffix| <= |s| && EqualsNoCase(s[|s| - |suffix|..], suffix)
  }

  /** Folding twice is folding once, so a lower-cased path is its own key. */
  lemma ToLowerIdempotent(s: string)
    ensures ToLower(ToLower(s)) == ToLower(s)
  {
  }

  /** Folding commutes with slicing, which lets a no-case test be run on a lower-cased string. */
  lemma ToLowerSlice(s: string, i: nat, j: nat)
    requires i <= j <= |s|
    ensures ToLower(s[i..j]) == ToLower(s)[i..j]
  {
  }

  lemma ToLowerAppend(a: string, b: string)
    ensures ToLower(a + b) == ToLower(a) + ToLower(b)
  {
  }

  /** `strrchr(s, c)`, `AsciiString::reverseFind`: the position of the last `c`, if any. */
  function LastIndexOf(s: string, c: char): (r: Option<nat>)
    ensures r.Some? ==> r.value < |s| && s[r.value] == c
    ensures r.Some? ==> forall j :: r.value < j < |s| ==> s[j] != c
    ensures r.None? ==> forall j :: 0 <= j < |s| ==> s[j] != c
  {
    if |s| == 0 then None
    else if s[|s| - 1] == c then Some(|s| - 1)
    else LastIndexOf(s[..|s| - 1], c)
  }

  /** The last `c` is at `b` when `c` is at `b` and nowhere after it. */
  lemma {:induction false} LastIndexOfIs(s: string, c: char, b: nat)
    requires b < |s| && s[b] == c
    requires forall j :: b < j < |s| ==> s[j] != c
    ensures LastIndexOf(s, c) == Some(b)
  {
    if b < |s| - 1 {
      var t := s[..|s| - 1];
      assert forall j :: b < j < |t| ==> t[j] == s[j];
      LastIndexOfIs(t, c, b);
    }
  }
}
