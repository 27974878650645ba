/** How the archive file system cuts a path into directory tokens and a last token.

    Paths are lower-cased and then split with AsciiString::nextToken using the
    separators `\` and `/`. A token is taken as a directory while it holds no '.'
    or the rest of the path still holds a '.'; the token in hand when that stops
    is the last token (the file name for a file path). */
module ArchivePath {
  import opened AsciiText

  predicate IsSeparator(c: char) { c == '\\' || c == '/' }

  predicate NoSeparator(s: string)
  {
    forall i :: 0 <= i < |s| ==> !IsSeparator(s[i])
  }

  /** Length of the run of separators at the start of `s`. */
  function SeparatorRun(s: string): (k: nat)
    ensures k <= |s|
    ensures forall i :: 0 <= i < k ==> IsSeparator(s[i])
    ensures k < |s| ==> !IsSeparator(s[k])
  {
    if s == [] || !IsSeparator(s[0]) then 0 else 1 + SeparatorRun(s[1..])
  }

  /** Length of the run of non-separators at the start of `s`. */
  function TokenRun(s: string): (k: nat)
    ensures k <= |s|
    ensures NoSeparator(s[..k])
    ensures k < |s| ==> IsSeparator(s[k])
  {
    if s == [] || IsSeparator(s[0]) then 0
    else
      var k := 1 + TokenRun(s[1..]);
      assert s[..k] == [s[0]] + s[1..][..k - 1];
      k
  }

  /** The state of one tokenising step: whether a token was found, the token, and the
      unconsumed rest of the tokenizer string. */
  datatype Tokenizer = Tokenizer(ok: bool, token: string, rest: string)

  /** AsciiString::nextToken(&token, "\\/") applied to the tokenizer string `s` while
      `token` holds the previous token. An empty tokenizer string fails and leaves the
      token as it was; a string of separators only fails and clears both. */
  function NextToken(s: string, token: string): (t: Tokenizer)
    ensures t.ok ==> t.token != [] && NoSeparator(t.token) && |t.token| + |t.rest| <= |s|
    ensures !t.ok ==> t.rest == [] && t.token == (if s == [] then token else [])
  {
    if s == [] then Tokenizer(false, token, s)
    else
      var start := SeparatorRun(s);
      var len := TokenRun(s[start..]);
      if len > 0 then
        assert s[start..][..len] == s[start..start + len];
        Tokenizer(true, s[start..start + len], s[start + len..])
      else
        Tokenizer(false, "", "")
  }

  /** A successful step takes the first maximal run of non-separators after the leading
      separators and leaves the rest, which starts at a separator; a failed step means
      the string held separators only. */
  lemma NextTokenTakesFirstRun(s: string, token: string)
    ensures var t := NextToken(s, token);
      && (t.ok ==> s[|s| - |t.token| - |t.rest|..] == t.token + t.rest
                   && (forall i :: 0 <= i < |s| - |t.token| - |t.rest| ==> IsSeparator(s[i]))
                   && (t.rest == [] || IsSeparator(t.rest[0])))
      && (!t.ok ==> forall i :: 0 <= i < |s| ==> IsSeparator(s[i]))
  {
    if s != [] {
      var start := SeparatorRun(s);
      var len := TokenRun(s[start..]);
      var t := NextToken(s, token);
      if len > 0 {
        assert t == Tokenizer(true, s[start..start + len], s[start + len..]);
        assert |s| - |t.token| - |t.rest| == start;
        assert s[start..] == t.token + t.rest;
        assert start + len < |s| ==> t.rest[0] == s[start..][len];
      } else {
        assert start == |s|;
      }
    }
  }

  /** The loop condition shared by insertion and lookup: descend into `t.token` as a
      directory while it has no '.' or the unconsumed rest still has one. */
  predicate Descends(t: Tokenizer)
  {
    t.ok && (!Contains(t.token, '.') || Contains(t.rest, '.'))
  }

  /** The directory tokens and the last token of a path. */
  datatype SplitPath = SplitPath(dirs: seq<string>, last: string)

  function Measure(t: Tokenizer): nat { 2 * |t.rest| + (if t.ok then 1 else 0) }

  lemma NextTokenShrinks(t: Tokenizer)
    requires t.ok
    ensures Measure(NextToken(t.rest, t.token)) < Measure(t)
  {
  }

  /** Continue splitting from tokenizer state `t` with the directory tokens `dirs` taken so far. */
  function SplitFrom(t: Tokenizer, dirs: seq<string>): SplitPath
    decreases Measure(t)
  {
    if Descends(t) then
      NextTokenShrinks(t);
      SplitFrom(NextToken(t.rest, t.token), dirs + [t.token])
    else SplitPath(dirs, t.token)
  }

  /** The split of `path` after lower-casing, starting with an empty token. */
  function Split(path: string): SplitPath
  {
    SplitFrom(NextToken(ToLower(path), ""), [])
  }

  predicate TokensOk(dirs: seq<string>)
  {
    forall i :: 0 <= i < |dirs| ==> dirs[i] != [] && NoSeparator(dirs[i])
  }

  /** Splitting only extends the tokens already taken, and a token the loop descends
      into is the next directory token. */
  lemma {:induction false} SplitFromExtends(t: Tokenizer, dirs: seq<string>)
    ensures var r := SplitFrom(t, dirs).dirs;
      && |dirs| <= |r|
      && (forall i :: 0 <= i < |dirs| ==> r[i] == dirs[i])
      && (Descends(t) ==> |dirs| < |r| && r[|dirs|] == t.token)
    decreases Measure(t)
  {
    if Descends(t) {
      NextTokenShrinks(t);
      SplitFromExtends(NextToken(t.rest, t.token), dirs + [t.token]);
    }
  }

  /** Every directory token that splitting adds is a non-empty run of non-separators. */
  lemma {:induction false} SplitFromTokensOk(t: Tokenizer, dirs: seq<string>)
    requires TokensOk(dirs)
    requires t.ok ==> t.token != [] && NoSeparator(t.token)
    ensures TokensOk(SplitFrom(t, dirs).dirs)
    decreases Measure(t)
  {
    if Descends(t) {
      NextTokenShrinks(t);
      var d := dirs + [t.token];
      assert TokensOk(d) by {
        forall i | 0 <= i < |d| ensures d[i] != [] && NoSeparator(d[i]) {
          if i < |dirs| { assert d[i] == dirs[i]; }
        }
      }
      SplitFromTokensOk(NextToken(t.rest, t.token), d);
    }
  }

  /** Directory tokens are non-empty and never contain a separator, so a node's path
      (its tokens each followed by `\`) determines them. */
  lemma SplitTokensOk(path: string)
    ensures TokensOk(Split(path).dirs)
  {
    SplitFromTokensOk(NextToken(ToLower(path), ""), []);
  }

  /** Splitting ignores case: both insertion and lookup see only the lower-cased path. */
  lemma SplitIgnoresCase(p: string, q: string)
    requires EqualsNoCase(p, q)
    ensures Split(p) == Split(q)
  {
  }
}
