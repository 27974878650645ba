/** Bounded C-string routines over character buffers: the length of a zero-terminated
    string, and copy and concatenation that never write past the destination's size and
    always leave the destination terminated when it has room. Every routine returns the
    length of the string it tried to create, so a result of at least the size signals
    truncation.

    Buffers are arrays of characters; a pointer into a buffer is the array and an offset.
    The sequence functions below state what each routine computes; the methods carry out
    the pointer loops and the `memcpy`/`memmove` calls of the C routines `strlcpy_t`,
    `strlcat_t`, `strlmove_t` and `strlmcat_t`. */
module StringEx {

  const Nul: char := '\0'

  function Min(a: nat, b: nat): nat { if a < b then a else b }

  /** `strnlen_t`: the number of characters before the first zero among the first `n`. */
  function NLen(s: seq<char>, n: nat): (r: nat)
    requires n <= |s|
    ensures r <= n
    ensures forall i :: 0 <= i < r ==> s[i] != Nul
    ensures r < n ==> s[r] == Nul
  {
    if n == 0 || s[0] == Nul then 0 else 1 + NLen(s[1..], n - 1)
  }

  /** `strlen_t`: the index of the first zero of a terminated string. */
  function StrLen(s: seq<char>): (r: nat)
    requires Nul in s
    ensures r < |s| && s[r] == Nul
    ensures forall i :: 0 <= i < r ==> s[i] != Nul
  {
    var r := NLen(s, |s|);
    assert r < |s| by {
      var k :| 0 <= k < |s| && s[k] == Nul;
      assert !(k < r);
    }
    r
  }

  /** `d` with `piece` written over it from position `at` on. */
  function Put(d: seq<char>, at: nat, piece: seq<char>): (r: seq<char>)
    requires at + |piece| <= |d|
    ensures |r| == |d|
  {
    d[..at] + piece + d[at + |piece|..]
  }

  /** What `strlcpy_t(dst, src, size)` leaves in `d`: the first min(strlen(src), size-1)
      characters of `src` and a terminator, or `d` untouched when `size` is 0. */
  function LCpy(d: seq<char>, s: seq<char>, size: nat): (r: seq<char>)
    requires size <= |d| && Nul in s
    ensures |r| == |d|
  {
    if size == 0 then d
    else
      var c := Min(StrLen(s), size - 1);
      Put(d, 0, s[..c] + [Nul])
  }

  /** What `strlcat_t(dst, src, size)` leaves in `d`: nothing changes when `d` has no
      terminator within `size`; otherwise as much of `src` as fits before the last
      position is written at the old terminator, followed by a new terminator. */
  function LCat(d: seq<char>, s: seq<char>, size: nat): (r: seq<char>)
    requires size <= |d| && Nul in s
    ensures |r| == |d|
  {
    var dl := NLen(d, size);
    if dl == size then d
    else
      var c := Min(size - dl - 1, StrLen(s));
      if c > 0 then Put(d, dl, s[..c] + [Nul]) else d
  }

  /** The number of characters a concatenation appends. */
  function CatCount(d: seq<char>, s: seq<char>, size: nat): nat
    requires size <= |d| && Nul in s
  {
    var dl := NLen(d, size);
    if dl == size then 0 else Min(size - dl - 1, StrLen(s))
  }

  // ---------------------------------------------------------------------------
  // Properties

  /** A copy into a non-empty buffer is terminated within `size`, holds the copied prefix
      of `src` and changes nothing from `size` on. */
  lemma LCpyTerminatedWithin(d: seq<char>, s: seq<char>, size: nat)
    requires 0 < size <= |d| && Nul in s
    ensures var r, c := LCpy(d, s, size), Min(StrLen(s), size - 1);
      NLen(r, size) == c && c < size && r[..c] == s[..c] && r[size..] == d[size..]
  {
    var c := Min(StrLen(s), size - 1);
    var piece := s[..c] + [Nul];
    var r := Put(d, 0, piece);
    LCpyIsPut(d, s, size, c);
    PutPrefix(d, s[..c]);
    assert forall i :: 0 <= i < c ==> r[i] != Nul by {
      assert forall i :: 0 <= i < c ==> r[i] == r[..c][i];
    }
    NLenIs(r, size, c);
    PutKeepsSuffix(d, 0, piece, size);
  }

  /** The length `strlcpy_t` returns is below `size` exactly when all of `src` fitted. */
  lemma LCpyTruncationSignal(d: seq<char>, s: seq<char>, size: nat)
    requires 0 < size <= |d| && Nul in s
    ensures StrLen(s) < size <==> NLen(LCpy(d, s, size), size) == StrLen(s)
  {
    LCpyTerminatedWithin(d, s, size);
  }

  /** A concatenation keeps the existing string and everything from `size` on, appends
      `CatCount` characters of `src`, and is terminated within `size` whenever the
      destination was. */
  lemma LCatKeepsAndAppends(d: seq<char>, s: seq<char>, size: nat)
    requires size <= |d| && Nul in s
    ensures var r, dl, c := LCat(d, s, size), NLen(d, size), CatCount(d, s, size);
      r[..dl] == d[..dl] && r[size..] == d[size..] &&
      r[dl..dl + c] == s[..c] &&
      (dl < size ==> NLen(r, size) == dl + c && dl + c < size)
  {
    var r, dl, c := LCat(d, s, size), NLen(d, size), CatCount(d, s, size);
    if dl < size && c > 0 {
      PutIndices(d, dl, s[..c] + [Nul]);
      assert r[dl + c] == Nul;
      assert forall i :: 0 <= i < dl ==> r[i] == d[i];
      assert forall i :: dl <= i < dl + c ==> r[i] == s[i - dl];
      NLenIs(r, size, dl + c);
    }
  }

  /** The value `strlcat_t` returns is below `size` exactly when all of `src` was
      appended. */
  lemma LCatTruncationSignal(d: seq<char>, s: seq<char>, size: nat)
    requires size <= |d| && Nul in s
    ensures NLen(d, size) + StrLen(s) < size <==> NLen(d, size) < size && CatCount(d, s, size) == StrLen(s)
  {
  }

  /** `NLen` is the first zero among the first `n` characters. */
  lemma {:induction false} NLenIs(s: seq<char>, n: nat, k: nat)
    requires k <= n <= |s|
    requires forall i :: 0 <= i < k ==> s[i] != Nul
    requires k < n ==> s[k] == Nul
    ensures NLen(s, n) == k
    decreases n
  {
    if k > 0 {
      assert s[0] != Nul;
      NLenIs(s[1..], n - 1, k - 1);
    }
  }

  /** Inside the written range `Put` holds the piece, elsewhere the original. */
  lemma PutIndices(d: seq<char>, at: nat, piece: seq<char>)
    requires at + |piece| <= |d|
    ensures forall i :: 0 <= i < at ==> Put(d, at, piece)[i] == d[i]
    ensures forall i :: at <= i < at + |piece| ==> Put(d, at, piece)[i] == piece[i - at]
    ensures forall i :: at + |piece| <= i < |d| ==> Put(d, at, piece)[i] == d[i]
  {
  }

  /** A terminated piece written at `at` follows the buffer's first `at` characters. */
  lemma PutTerminated(d: seq<char>, at: nat, p: seq<char>)
    requires at + |p| < |d|
    ensures Put(d, at, p + [Nul])[..at + |p|] == d[..at] + p && Put(d, at, p + [Nul])[at + |p|] == Nul
  {
    PutIndices(d, at, p + [Nul]);
    assert Put(d, at, p + [Nul])[..at + |p|] == d[..at] + p;
  }

  /** A terminated piece written at the start leads the buffer. */
  lemma PutPrefix(d: seq<char>, p: seq<char>)
    requires |p| < |d|
    ensures Put(d, 0, p + [Nul])[..|p|] == p && Put(d, 0, p + [Nul])[|p|] == Nul
  {
    PutTerminated(d, 0, p);
    assert d[..0] + p == p;
  }

  /** Past the written range the buffer is unchanged. */
  lemma PutKeepsSuffix(d: seq<char>, at: nat, piece: seq<char>, from: nat)
    requires at + |piece| <= from <= |d|
    ensures Put(d, at, piece)[from..] == d[from..]
  {
    var r := Put(d, at, piece);
    forall j | 0 <= j < |d| - from
      ensures r[from..][j] == d[from..][j]
    {
      PutIndices(d, at, piece);
      assert r[from + j] == d[from + j];
    }
  }

  /** A copy into a non-empty buffer writes the copied part and a terminator at its
      start. */
  lemma LCpyIsPut(d: seq<char>, s: seq<char>, size: nat, c: nat)
    requires 0 < size <= |d| && Nul in s
    requires c == Min(StrLen(s), size - 1)
    ensures LCpy(d, s, size) == Put(d, 0, s[..c] + [Nul])
  {
  }

  /** Writing into a suffix of a buffer is writing into the buffer. */
  lemma PutSuffix(a: seq<char>, off: nat, at: nat, piece: seq<char>)
    requires off + at + |piece| <= |a|
    ensures Put(a, off + at, piece) == a[..off] + Put(a[off..], at, piece)
  {
    var e := off + at + |piece|;
    assert a[..off + at] == a[..off] + a[off..][..at];
    assert a[e..] == a[off..][at + |piece|..];
  }

  // ---------------------------------------------------------------------------
  // The routines

  /** `strlen_t(a + off)`. */
  method StrLenT(a: array<char>, off: nat) returns (n: nat)
    requires off <= a.Length && Nul in a[off..]
    ensures off + n < a.Length && a[off + n] == Nul
    ensures forall i :: off <= i < off + n ==> a[i] != Nul
    ensures n == StrLen(a[off..])
  {
    var p := off;
    while a[p] != Nul
      invariant off <= p < a.Length && Nul in a[p..]
      invariant forall i :: off <= i < p ==> a[i] != Nul
      decreases a.Length - p
    {
      assert a[p + 1..] == a[p..][1..];
      p := p + 1;
    }
    n := p - off;
    NLenIs(a[off..], a.Length - off, n);
  }

  /** `strnlen_t(a + off, maxlen)`: reads no further than `maxlen` characters. */
  method StrNLenT(a: array<char>, off: nat, maxlen: nat) returns (n: nat)
    requires off + maxlen <= a.Length
    ensures n <= maxlen && forall i :: off <= i < off + n ==> a[i] != Nul
    ensures n < maxlen ==> a[off + n] == Nul
    ensures n == NLen(a[off..], maxlen)
  {
    var p := off;
    while p < off + maxlen && a[p] != Nul
      invariant off <= p <= off + maxlen
      invariant forall i :: off <= i < p ==> a[i] != Nul
    {
      p := p + 1;
    }
    n := p - off;
    NLenIs(a[off..], maxlen, n);
  }

  /** A buffer that agrees with `orig` except on the range `piece` was written to. */
  lemma Splice(buf: seq<char>, orig: seq<char>, off: nat, piece: seq<char>)
    requires |buf| == |orig| && off + |piece| <= |orig|
    requires forall j :: off <= j < off + |piece| ==> buf[j] == piece[j - off]
    requires forall j :: 0 <= j < |buf| && !(off <= j < off + |piece|) ==> buf[j] == orig[j]
    ensures buf == Put(orig, off, piece)
  {
    PutIndices(orig, off, piece);
  }

  /** `memcpy(dst + dOff, src + sOff, n)` between distinct buffers, followed by a
      terminator after the copied characters. */
  method CopyTerminated(dst: array<char>, dOff: nat, src: array<char>, sOff: nat, n: nat)
    requires dst != src && dOff + n < dst.Length && sOff + n <= src.Length
    modifies dst
    ensures dst[..] == Put(old(dst[..]), dOff, src[sOff..sOff + n] + [Nul])
  {
    ghost var orig := dst[..];
    var i := 0;
    while i < n
      invariant 0 <= i <= n
      invariant forall j :: dOff <= j < dOff + i ==> dst[j] == src[sOff + j - dOff]
      invariant forall j :: 0 <= j < dst.Length && !(dOff <= j < dOff + i) ==> dst[j] == orig[j]
    {
      dst[dOff + i] := src[sOff + i];
      i := i + 1;
    }
    dst[dOff + n] := Nul;
    ghost var piece := src[sOff..sOff + n] + [Nul];
    assert forall j :: dOff <= j < dOff + n + 1 ==> dst[..][j] == piece[j - dOff];
    Splice(dst[..], orig, dOff, piece);
  }

  /** `memmove(buf + dOff, buf + sOff, n)`, followed by a terminator after the moved
      characters: the destination receives the source as it was before the call, however
      the two ranges overlap. */
  method MoveTerminated(buf: array<char>, dOff: nat, sOff: nat, n: nat, ghost orig: seq<char>)
    requires dOff + n < buf.Length && sOff + n <= buf.Length && orig == buf[..]
    modifies buf
    ensures buf[..] == Put(orig, dOff, orig[sOff..sOff + n] + [Nul])
  {
    if dOff <= sOff {
      var i := 0;
      while i < n
        invariant 0 <= i <= n
        invariant forall j :: dOff <= j < dOff + i ==> buf[j] == orig[sOff + j - dOff]
        invariant forall j :: 0 <= j < buf.Length && !(dOff <= j < dOff + i) ==> buf[j] == orig[j]
      {
        var v := buf[sOff + i];
        assert v == orig[sOff + i];
        buf[dOff + i] := v;
        i := i + 1;
      }
    } else {
      var i := n;
      while i > 0
        invariant 0 <= i <= n
        invariant forall j :: dOff + i <= j < dOff + n ==> buf[j] == orig[sOff + j - dOff]
        invariant forall j :: 0 <= j < buf.Length && !(dOff + i <= j < dOff + n) ==> buf[j] == orig[j]
      {
        var v := buf[sOff + i - 1];
        assert v == orig[sOff + i - 1];
        buf[dOff + i - 1] := v;
        i := i - 1;
      }
    }
    buf[dOff + n] := Nul;
    ghost var piece := orig[sOff..sOff + n] + [Nul];
    assert forall j :: dOff <= j < dOff + n + 1 ==> buf[..][j] == piece[j - dOff];
    Splice(buf[..], orig, dOff, piece);
  }

  /** `strlcpy_t(dst, src, dstsize)`. */
  method StrLCpyT(dst: array<char>, src: array<char>, dstsize: nat) returns (r: nat)
    requires dst != src && dstsize <= dst.Length && Nul in src[..]
    modifies dst
    ensures r == StrLen(src[..])
    ensures dst[..] == LCpy(old(dst[..]), src[..], dstsize)
  {
    r := StrLenT(src, 0);
    assert src[0..] == src[..];
    if dstsize != 0 {
      var copylen := if r >= dstsize then dstsize - 1 else r;
      assert src[0..copylen] == src[..][..copylen];
      CopyTerminated(dst, 0, src, 0, copylen);
    }
  }

  /** `strlcat_t(dst, src, dstsize)`. */
  method StrLCatT(dst: array<char>, src: array<char>, dstsize: nat) returns (r: nat)
    requires dst != src && dstsize <= dst.Length && Nul in src[..]
    modifies dst
    ensures r == NLen(old(dst[..]), dstsize) + StrLen(src[..])
    ensures dst[..] == LCat(old(dst[..]), src[..], dstsize)
  {
    var dstlen := StrNLenT(dst, 0, dstsize);
    var srclen := StrLenT(src, 0);
    assert dst[0..] == dst[..] && src[0..] == src[..];
    if dstlen == dstsize {
      return dstsize + srclen;
    }
    var copylen := dstsize - dstlen - 1;
    if copylen > srclen {
      copylen := srclen;
    }
    ghost var d := dst[..];
    if copylen > 0 {
      assert src[0..copylen] == src[..][..copylen];
      LCatIsPut(d, src[..], dstsize, dstlen, copylen);
      CopyTerminated(dst, dstlen, src, 0, copylen);
    } else {
      LCatUnchanged(d, src[..], dstsize);
    }
    r := dstlen + srclen;
  }

  /** A move of the source's first `c` characters into a suffix of the buffer is the
      copy into that suffix. */
  lemma MovedIsLCpy(orig: seq<char>, dOff: nat, sOff: nat, size: nat, c: nat, after: seq<char>)
    requires 0 < size && dOff + size <= |orig| && sOff <= |orig| && Nul in orig[sOff..]
    requires c == Min(StrLen(orig[sOff..]), size - 1)
    requires after == Put(orig, dOff, orig[sOff..sOff + c] + [Nul])
    ensures after == orig[..dOff] + LCpy(orig[dOff..], orig[sOff..], size)
  {
    var piece := orig[sOff..sOff + c] + [Nul];
    assert orig[sOff..][..c] + [Nul] == piece;
    LCpyIsPut(orig[dOff..], orig[sOff..], size, c);
    PutSuffix(orig, dOff, 0, piece);
  }

  /** A move of the source's first `c` characters to the terminator of a string in a
      suffix of the buffer is the concatenation onto that suffix. */
  lemma MovedIsLCat(orig: seq<char>, dOff: nat, sOff: nat, size: nat, dl: nat, c: nat, after: seq<char>)
    requires dOff + size <= |orig| && sOff <= |orig| && Nul in orig[sOff..]
    requires dl == NLen(orig[dOff..], size) < size
    requires c == Min(size - dl - 1, StrLen(orig[sOff..])) && c > 0
    requires after == Put(orig, dOff + dl, orig[sOff..sOff + c] + [Nul])
    ensures after == orig[..dOff] + LCat(orig[dOff..], orig[sOff..], size)
  {
    var piece := orig[sOff..sOff + c] + [Nul];
    assert orig[sOff..][..c] + [Nul] == piece;
    LCatIsPut(orig[dOff..], orig[sOff..], size, dl, c);
    PutSuffix(orig, dOff, dl, piece);
  }

  /** A concatenation that appends something writes the appended part and a terminator
      at the old terminator. */
  lemma LCatIsPut(d: seq<char>, s: seq<char>, size: nat, dl: nat, c: nat)
    requires size <= |d| && Nul in s
    requires dl == NLen(d, size) < size
    requires c == Min(size - dl - 1, StrLen(s)) && c > 0
    ensures LCat(d, s, size) == Put(d, dl, s[..c] + [Nul])
  {
  }

  /** `strlmove_t(buf + dOff, buf + sOff, dstsize)`: the same result as copying from a
      separate copy of the source, so the ranges may overlap. */
  method StrLMoveT(buf: array<char>, dOff: nat, sOff: nat, dstsize: nat) returns (r: nat)
    requires dOff + dstsize <= buf.Length && sOff <= buf.Length && Nul in buf[sOff..]
    modifies buf
    ensures r == StrLen(old(buf[sOff..]))
    ensures buf[..] == old(buf[..dOff]) + LCpy(old(buf[dOff..]), old(buf[sOff..]), dstsize)
  {
    ghost var orig := buf[..];
    assert orig[sOff..] == buf[sOff..] && orig[dOff..] == buf[dOff..] && orig[..dOff] == buf[..dOff];
    r := StrLenT(buf, sOff);
    if dstsize > 0 {
      var copylen := if r >= dstsize then dstsize - 1 else r;
      MoveTerminated(buf, dOff, sOff, copylen, orig);
      MovedIsLCpy(orig, dOff, sOff, dstsize, copylen, buf[..]);
    } else {
      assert orig == orig[..dOff] + orig[dOff..];
    }
  }

  lemma LCatUnchanged(d: seq<char>, s: seq<char>, size: nat)
    requires size <= |d| && Nul in s && CatCount(d, s, size) == 0
    ensures LCat(d, s, size) == d
  {
  }

  /** The append step of `strlmcat_t`, once the destination is known to be terminated
      within its size. */
  method MoveAppend(buf: array<char>, dOff: nat, sOff: nat, dstsize: nat, dstlen: nat, srclen: nat)
    requires dOff + dstsize <= buf.Length && sOff <= buf.Length && Nul in buf[sOff..]
    requires dstlen == NLen(buf[dOff..], dstsize) < dstsize && srclen == StrLen(buf[sOff..])
    modifies buf
    ensures buf[..] == old(buf[..dOff]) + LCat(old(buf[dOff..]), old(buf[sOff..]), dstsize)
  {
    ghost var orig := buf[..];
    assert orig[dOff..] == buf[dOff..] && orig[sOff..] == buf[sOff..] && orig[..dOff] == buf[..dOff];
    var copylen := dstsize - dstlen - 1;
    if copylen > srclen {
      copylen := srclen;
    }
    assert copylen == Min(dstsize - dstlen - 1, StrLen(orig[sOff..]));
    if copylen > 0 {
      assert srclen < |orig[sOff..]|;
      assert dstlen == NLen(orig[dOff..], dstsize) && Nul in orig[sOff..];
      MoveTerminated(buf, dOff + dstlen, sOff, copylen, orig);
      MovedIsLCat(orig, dOff, sOff, dstsize, dstlen, copylen, buf[..]);
    } else {
      assert orig == orig[..dOff] + orig[dOff..];
      LCatUnchanged(orig[dOff..], orig[sOff..], dstsize);
    }
  }

  /** `strlmcat_t(buf + dOff, buf + sOff, dstsize)`: the same result as `strlcat_t` from a
      separate copy of the source. */
  method StrLMCatT(buf: array<char>, dOff: nat, sOff: nat, dstsize: nat) returns (r: nat)
    requires dOff + dstsize <= buf.Length && sOff <= buf.Length && Nul in buf[sOff..]
    modifies buf
    ensures r == NLen(old(buf[dOff..]), dstsize) + StrLen(old(buf[sOff..]))
    ensures buf[..] == old(buf[..dOff]) + LCat(old(buf[dOff..]), old(buf[sOff..]), dstsize)
  {
    var dstlen := StrNLenT(buf, dOff, dstsize);
    var srclen := StrLenT(buf, sOff);
    r := dstlen + srclen;
    if dstlen == dstsize {
      assert buf[..] == buf[..dOff] + buf[dOff..];
      LCatUnchanged(buf[dOff..], buf[sOff..], dstsize);
      return dstsize + srclen;
    }
    MoveAppend(buf, dOff, sOff, dstsize, dstlen, srclen);
  }
}
