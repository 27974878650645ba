/** The save/load/CRC transfer protocol. One `Xfer` object either writes values to a
    stream (save), reads them back in the same order (load) or feeds them to a checksum
    (CRC). Every transfer method takes the value in and hands a value back: saving and
    CRC leave it as it was, loading replaces it with what the stream holds.

    The raw byte transfer is abstracted to tokens: saving and CRC append one token per
    primitive, loading consumes one token of the same kind from the front of the stream
    and fails with a read error when there is none. */
module XferEngine {
  import opened Wrappers

  datatype XferMode = Invalid | Save | Load | Crc

  /** One primitive transferred value: an integer of any width, a `Real`, an ASCII string
      or a raw bit mask. */
  datatype Token = Num(n: int) | Real(x: real) | Text(s: string) | Bits(b: set<nat>)

  /** The `XferStatus` values thrown by this layer. */
  datatype XferError = ReadError | InvalidVersion | ListNotEmpty | ModeUnknown | UnknownString

  /** What a transfer yields: the value handed back and the stream afterwards, or the
      error thrown. */
  type Outcome<T> = Result<(T, seq<Token>), XferError>

  /** `XO_NONE`. */
  const NoOptions: nat := 0

  /** Highest value plus one of an `UnsignedShort`. */
  const UShortRange: nat := 0x1_0000

  function Wrap16(n: int): nat { n % UShortRange }

  /** Counting one more in an `UnsignedShort` wraps from 65535 to 0. */
  lemma Wrap16Step(n: nat)
    ensures Wrap16(n + 1) == if Wrap16(n) + 1 == UShortRange then 0 else Wrap16(n) + 1
  {
  }

  predicate SameKind(a: Token, b: Token)
  {
    (a.Num? && b.Num?) || (a.Real? && b.Real?) || (a.Text? && b.Text?) || (a.Bits? && b.Bits?)
  }

  /** An outcome seen through a method's out-parameters and new stream. */
  predicate Agrees<T(==)>(o: Outcome<T>, r: T, s: seq<Token>, err: Option<XferError>)
  {
    (o.Ok? ==> err == None && r == o.value.0 && s == o.value.1) &&
    (o.Err? ==> err == Some(o.error))
  }

  /** Puts `front` before the values of a successful outcome. */
  function Prepend<T>(front: seq<T>, o: Outcome<seq<T>>): Outcome<seq<T>>
  {
    match o
    case Ok((xs, s)) => Ok((front + xs, s))
    case Err(e) => Err(e)
  }

  // ---------------------------------------------------------------------------
  // Primitives

  /** `xferImplementation` on one value: save and CRC append it, load takes the next token
      of the same kind, an object with no mode transfers nothing. */
  function TokenOutcome(m: XferMode, s: seq<Token>, t: Token): (o: Outcome<Token>)
    ensures o.Ok? ==> SameKind(o.value.0, t)
    ensures o.Err? <==> m.Load? && (s == [] || !SameKind(s[0], t))
    ensures o.Ok? && m.Load? ==> o.value.0 == s[0] && o.value.1 == s[1..]
    ensures o.Ok? && !m.Load? ==> o.value.0 == t
  {
    match m
    case Save => Ok((t, s + [t]))
    case Crc => Ok((t, s + [t]))
    case Load => if s != [] && SameKind(s[0], t) then Ok((s[0], s[1..])) else Err(ReadError)
    case Invalid => Ok((t, s))
  }

  /** `xferInt`, `xferUnsignedShort`, `xferObjectID` and the other integer transfers. */
  function NumOutcome(m: XferMode, s: seq<Token>, v: int): Outcome<int>
  {
    match TokenOutcome(m, s, Num(v))
    case Ok((t, s')) => Ok((t.n, s'))
    case Err(e) => Err(e)
  }

  function RealOutcome(m: XferMode, s: seq<Token>, v: real): Outcome<real>
  {
    match TokenOutcome(m, s, Real(v))
    case Ok((t, s')) => Ok((t.x, s'))
    case Err(e) => Err(e)
  }

  /** `xferAsciiString`. */
  function TextOutcome(m: XferMode, s: seq<Token>, v: string): Outcome<string>
  {
    match TokenOutcome(m, s, Text(v))
    case Ok((t, s')) => Ok((t.s, s'))
    case Err(e) => Err(e)
  }

  /** `xferVersion`: the version is transferred, then refused when it is newer than the
      version this code knows. */
  function VersionOutcome(m: XferMode, s: seq<Token>, v: int, current: int): (o: Outcome<int>)
    ensures o.Ok? ==> o.value.0 <= current
    ensures NumOutcome(m, s, v).Ok? && NumOutcome(m, s, v).value.0 > current ==> o == Err(InvalidVersion)
    ensures NumOutcome(m, s, v).Ok? && NumOutcome(m, s, v).value.0 <= current ==> o == NumOutcome(m, s, v)
  {
    match NumOutcome(m, s, v)
    case Ok((v', s')) => if v' > current then Err(InvalidVersion) else Ok((v', s'))
    case Err(e) => Err(e)
  }

  /** The tokens saving a sequence of integers writes, in order. */
  function Nums(xs: seq<int>): (ts: seq<Token>)
    ensures |ts| == |xs| && forall i :: 0 <= i < |xs| ==> ts[i] == Num(xs[i])
  {
    seq(|xs|, i requires 0 <= i < |xs| => Num(xs[i]))
  }

  lemma NumsAppend(xs: seq<int>, x: int)
    ensures Nums(xs + [x]) == Nums(xs) + [Num(x)]
  {
    assert Nums(xs + [x]) == Nums(xs) + [Num(x)];
  }

  /** Loading `k` integers one after the other. */
  function LoadedNums(s: seq<Token>, k: nat): Outcome<seq<int>>
    decreases k
  {
    if k == 0 then Ok(([], s))
    else match NumOutcome(Load, s, 0)
      case Ok((v, s')) => Prepend([v], LoadedNums(s', k - 1))
      case Err(e) => Err(e)
  }

  /** A successful load of `k` integers yields exactly `k` of them. */
  lemma {:induction false} LoadedNumsLength(s: seq<Token>, k: nat)
    ensures LoadedNums(s, k).Ok? ==> |LoadedNums(s, k).value.0| == k
    decreases k
  {
    if k > 0 {
      match NumOutcome(Load, s, 0)
      case Ok((v, s')) => LoadedNumsLength(s', k - 1);
      case Err(e) =>
    }
  }

  lemma {:induction false} LoadedNumsOfSaved(xs: seq<int>, rest: seq<Token>)
    ensures LoadedNums(Nums(xs) + rest, |xs|) == Ok((xs, rest))
    decreases |xs|
  {
    if xs != [] {
      var s := Nums(xs) + rest;
      assert s[0] == Num(xs[0]);
      assert s[1..] == Nums(xs[1..]) + rest;
      assert NumOutcome(Load, s, 0) == Ok((xs[0], s[1..]));
      LoadedNumsOfSaved(xs[1..], rest);
      assert LoadedNums(s, |xs|) == Prepend([xs[0]], LoadedNums(s[1..], |xs[1..]|));
      assert [xs[0]] + xs[1..] == xs;
    } else {
      assert Nums(xs) + rest == rest;
    }
  }

  lemma PrependNothing<T>(o: Outcome<seq<T>>)
    ensures Prepend([], o) == o
  {
    match o {
      case Ok((xs, s)) => assert [] + xs == xs;
      case Err(_) =>
    }
  }

  lemma PrependJoin<T>(a: seq<T>, b: seq<T>, o: Outcome<seq<T>>)
    ensures Prepend(a, Prepend(b, o)) == Prepend(a + b, o)
  {
    match o {
      case Ok((xs, s)) => assert a + (b + xs) == (a + b) + xs;
      case Err(_) =>
    }
  }

  // ---------------------------------------------------------------------------
  // Composite values

  datatype Coord3D = Coord3D(x: real, y: real, z: real)
  datatype Region3D = Region3D(lo: Coord3D, hi: Coord3D)
  datatype Vector4 = Vector4(x: real, y: real, z: real, w: real)
  /** The three stored rows of a `Matrix3D`. */
  datatype Matrix3D = Matrix3D(row0: Vector4, row1: Vector4, row2: Vector4)

  /** `xferCoord3D`: x, then y, then z. */
  function Coord3DOutcome(m: XferMode, s: seq<Token>, c: Coord3D): Outcome<Coord3D>
  {
    match RealOutcome(m, s, c.x)
    case Err(e) => Err(e)
    case Ok((x, s1)) =>
      match RealOutcome(m, s1, c.y)
      case Err(e) => Err(e)
      case Ok((y, s2)) =>
        match RealOutcome(m, s2, c.z)
        case Err(e) => Err(e)
        case Ok((z, s3)) => Ok((Coord3D(x, y, z), s3))
  }

  /** `xferRegion3D`: the low corner, then the high corner. */
  function Region3DOutcome(m: XferMode, s: seq<Token>, r: Region3D): Outcome<Region3D>
  {
    match Coord3DOutcome(m, s, r.lo)
    case Err(e) => Err(e)
    case Ok((lo, s1)) =>
      match Coord3DOutcome(m, s1, r.hi)
      case Err(e) => Err(e)
      case Ok((hi, s2)) => Ok((Region3D(lo, hi), s2))
  }

  /** One row of `xferMatrix3D`: X, Y, Z, W. */
  function Vector4Outcome(m: XferMode, s: seq<Token>, v: Vector4): Outcome<Vector4>
  {
    match RealOutcome(m, s, v.x)
    case Err(e) => Err(e)
    case Ok((x, s1)) =>
      match RealOutcome(m, s1, v.y)
      case Err(e) => Err(e)
      case Ok((y, s2)) =>
        match RealOutcome(m, s2, v.z)
        case Err(e) => Err(e)
        case Ok((z, s3)) =>
          match RealOutcome(m, s3, v.w)
          case Err(e) => Err(e)
          case Ok((w, s4)) => Ok((Vector4(x, y, z, w), s4))
  }

  /** `xferMatrix3D`: version 1, then the three rows in order. */
  function Matrix3DOutcome(m: XferMode, s: seq<Token>, mtx: Matrix3D): Outcome<Matrix3D>
  {
    match VersionOutcome(m, s, 1, 1)
    case Err(e) => Err(e)
    case Ok((_, s0)) =>
      match Vector4Outcome(m, s0, mtx.row0)
      case Err(e) => Err(e)
      case Ok((r0, s1)) =>
        match Vector4Outcome(m, s1, mtx.row1)
        case Err(e) => Err(e)
        case Ok((r1, s2)) =>
          match Vector4Outcome(m, s2, mtx.row2)
          case Err(e) => Err(e)
          case Ok((r2, s3)) => Ok((Matrix3D(r0, r1, r2), s3))
  }

  function CoordTokens(c: Coord3D): seq<Token> { [Real(c.x), Real(c.y), Real(c.z)] }
  function Vector4Tokens(v: Vector4): seq<Token> { [Real(v.x), Real(v.y), Real(v.z), Real(v.w)] }
  function Matrix3DTokens(mtx: Matrix3D): seq<Token>
  {
    [Num(1)] + Vector4Tokens(mtx.row0) + Vector4Tokens(mtx.row1) + Vector4Tokens(mtx.row2)
  }

  /** Saving a coordinate writes x, y, z; loading those tokens gives the coordinate back
      whatever the destination held. */
  lemma Coord3DRoundTrip(c: Coord3D, d: Coord3D, s: seq<Token>, rest: seq<Token>)
    ensures Coord3DOutcome(Save, s, c) == Ok((c, s + CoordTokens(c)))
    ensures Coord3DOutcome(Load, CoordTokens(c) + rest, d) == Ok((c, rest))
  {
    assert s + [Real(c.x)] + [Real(c.y)] + [Real(c.z)] == s + CoordTokens(c);
    var l := CoordTokens(c) + rest;
    assert l[1..][1..][1..] == rest;
  }

  lemma Region3DRoundTrip(r: Region3D, d: Region3D, s: seq<Token>, rest: seq<Token>)
    ensures Region3DOutcome(Save, s, r) == Ok((r, s + CoordTokens(r.lo) + CoordTokens(r.hi)))
    ensures Region3DOutcome(Load, CoordTokens(r.lo) + CoordTokens(r.hi) + rest, d) == Ok((r, rest))
  {
    Coord3DRoundTrip(r.lo, d.lo, s, CoordTokens(r.hi) + rest);
    Coord3DRoundTrip(r.hi, d.hi, s + CoordTokens(r.lo), rest);
    assert CoordTokens(r.lo) + CoordTokens(r.hi) + rest == CoordTokens(r.lo) + (CoordTokens(r.hi) + rest);
  }

  lemma Vector4Saved(v: Vector4, s: seq<Token>)
    ensures Vector4Outcome(Save, s, v) == Ok((v, s + Vector4Tokens(v)))
  {
    assert s + [Real(v.x)] + [Real(v.y)] + [Real(v.z)] + [Real(v.w)] == s + Vector4Tokens(v);
  }

  lemma Vector4Loaded(v: Vector4, d: Vector4, rest: seq<Token>)
    ensures Vector4Outcome(Load, Vector4Tokens(v) + rest, d) == Ok((v, rest))
  {
    var l := Vector4Tokens(v) + rest;
    assert l[1..][1..][1..][1..] == rest;
  }

  lemma Vector4RoundTrip(v: Vector4, d: Vector4, s: seq<Token>, rest: seq<Token>)
    ensures Vector4Outcome(Save, s, v) == Ok((v, s + Vector4Tokens(v)))
    ensures Vector4Outcome(Load, Vector4Tokens(v) + rest, d) == Ok((v, rest))
  {
    Vector4Saved(v, s);
    Vector4Loaded(v, d, rest);
  }

  lemma Matrix3DSaved(mtx: Matrix3D, s: seq<Token>)
    ensures Matrix3DOutcome(Save, s, mtx) == Ok((mtx, s + Matrix3DTokens(mtx)))
  {
    var t0, t1, t2 := Vector4Tokens(mtx.row0), Vector4Tokens(mtx.row1), Vector4Tokens(mtx.row2);
    var s0 := s + [Num(1)];
    var s1, s2 := s0 + t0, s0 + t0 + t1;
    assert VersionOutcome(Save, s, 1, 1) == Ok((1, s0));
    Vector4Saved(mtx.row0, s0);
    Vector4Saved(mtx.row1, s1);
    Vector4Saved(mtx.row2, s2);
    assert s2 + t2 == s + Matrix3DTokens(mtx);
  }

  lemma Matrix3DLoaded(mtx: Matrix3D, d: Matrix3D, rest: seq<Token>)
    ensures Matrix3DOutcome(Load, Matrix3DTokens(mtx) + rest, d) == Ok((mtx, rest))
  {
    var t0, t1, t2 := Vector4Tokens(mtx.row0), Vector4Tokens(mtx.row1), Vector4Tokens(mtx.row2);
    var l2 := t2 + rest;
    var l1 := t1 + l2;
    var l0 := t0 + l1;
    Vector4Loaded(mtx.row0, d.row0, l1);
    Vector4Loaded(mtx.row1, d.row1, l2);
    Vector4Loaded(mtx.row2, d.row2, rest);
    var l := Matrix3DTokens(mtx) + rest;
    AppendRight([Num(1)], t0, t1, t2, rest);
    assert VersionOutcome(Load, l, 1, 1) == Ok((1, l0));
  }

  /** Re-bracketing a concatenation of five sequences to the right. */
  lemma AppendRight(a: seq<Token>, b: seq<Token>, c: seq<Token>, d: seq<Token>, e: seq<Token>)
    ensures a + b + c + d + e == a + (b + (c + (d + e)))
  {
    assert a + b + c + d + e == a + (b + c + d + e);
    assert b + c + d + e == b + (c + d + e);
    assert c + d + e == c + (d + e);
  }

  /** A matrix is saved as its version and twelve reals, row by row, and loads back
      unchanged. */
  lemma Matrix3DRoundTrip(mtx: Matrix3D, d: Matrix3D, s: seq<Token>, rest: seq<Token>)
    ensures Matrix3DOutcome(Save, s, mtx) == Ok((mtx, s + Matrix3DTokens(mtx)))
    ensures Matrix3DOutcome(Load, Matrix3DTokens(mtx) + rest, d) == Ok((mtx, rest))
  {
    Matrix3DSaved(mtx, s);
    Matrix3DLoaded(mtx, d, rest);
  }

  /** A saved matrix whose version token is newer than 1 is refused on load. */
  lemma Matrix3DRejectsNewerVersion(v: int, d: Matrix3D, rest: seq<Token>)
    requires v > 1
    ensures Matrix3DOutcome(Load, [Num(v)] + rest, d) == Err(InvalidVersion)
  {
    assert ([Num(v)] + rest)[0] == Num(v);
  }

  /** `xferMapName`: saving writes the portable form of the path and keeps the value,
      loading reads a portable path and hands back the real one, and any other mode
      transfers nothing. */
  function MapNameOutcome(m: XferMode, s: seq<Token>, name: string,
                          toPortable: string -> string, toReal: string -> string): (o: Outcome<string>)
    ensures !(m.Save? || m.Load?) ==> o == Ok((name, s))
    ensures m.Save? ==> o == Ok((name, s + [Text(toPortable(name))]))
    ensures m.Load? && o.Ok? ==> s != [] && s[0].Text? && o.value.0 == toReal(s[0].s) && o.value.1 == s[1..]
    ensures m.Load? ==> (o.Err? <==> s == [] || !s[0].Text?)
  {
    if m.Save? then
      match TextOutcome(m, s, toPortable(name))
      case Ok((_, s')) => Ok((name, s'))
      case Err(e) => Err(e)
    else if m.Load? then
      match TextOutcome(m, s, name)
      case Ok((n, s')) => Ok((toReal(n), s'))
      case Err(e) => Err(e)
    else Ok((name, s))
  }

  // ---------------------------------------------------------------------------
  // Lists of integers

  /** `xferSTLObjectIDVector`, `xferSTLObjectIDList` and a non-null `xferSTLIntList`:
      version 1, the element count as an `UnsignedShort`, then the elements. Loading
      requires an empty destination and appends exactly `count` elements. */
  function IntListOutcome(m: XferMode, s: seq<Token>, xs: seq<int>): Outcome<seq<int>>
  {
    match VersionOutcome(m, s, 1, 1)
    case Err(e) => Err(e)
    case Ok((_, s1)) =>
      match NumOutcome(m, s1, Wrap16(|xs|))
      case Err(e) => Err(e)
      case Ok((count, s2)) =>
        if m.Save? || m.Crc? then Ok((xs, s2 + Nums(xs)))
        else if m.Load? then
          if xs != [] then Err(ListNotEmpty) else LoadedNums(s2, Wrap16(count))
        else Err(ModeUnknown)
  }

  /** `xferSTLIntList(NULL)` transfers nothing. */
  function OptionalIntListOutcome(m: XferMode, s: seq<Token>, xs: Option<seq<int>>): (o: Outcome<Option<seq<int>>>)
    ensures xs.None? ==> o == Ok((None, s))
    ensures xs.Some? ==> (o.Ok? <==> IntListOutcome(m, s, xs.value).Ok?)
    ensures xs.Some? && o.Ok? ==> o.value == (Some(IntListOutcome(m, s, xs.value).value.0), IntListOutcome(m, s, xs.value).value.1)
  {
    match xs
    case None => Ok((None, s))
    case Some(l) =>
      match IntListOutcome(m, s, l)
      case Ok((l', s')) => Ok((Some(l'), s'))
      case Err(e) => Err(e)
  }

  function IntListTokens(xs: seq<int>): seq<Token> { [Num(1), Num(Wrap16(|xs|))] + Nums(xs) }

  /** Saving a list of fewer than 65536 elements and loading the tokens into an empty
      list gives the list back, in order, and leaves the stream after it. */
  lemma IntListRoundTrip(xs: seq<int>, s: seq<Token>, rest: seq<Token>)
    requires |xs| < UShortRange
    ensures IntListOutcome(Save, s, xs) == Ok((xs, s + IntListTokens(xs)))
    ensures IntListOutcome(Load, IntListTokens(xs) + rest, []) == Ok((xs, rest))
  {
    assert s + [Num(1)] + [Num(Wrap16(|xs|))] + Nums(xs) == s + IntListTokens(xs);
    var l := IntListTokens(xs) + rest;
    assert l[0] == Num(1);
    assert l[1..][0] == Num(|xs|);
    assert l[1..][1..] == Nums(xs) + rest;
    LoadedNumsOfSaved(xs, rest);
  }

  /** The count is truncated to 16 bits while every element is still written: a list of
      exactly 65536 elements loads back empty and leaves all its elements unread. */
  lemma IntListCountTruncated(xs: seq<int>, rest: seq<Token>)
    requires |xs| == UShortRange
    ensures IntListTokens(xs)[1] == Num(0)
    ensures IntListOutcome(Load, IntListTokens(xs) + rest, []) == Ok(([], Nums(xs) + rest))
  {
    var l := IntListTokens(xs) + rest;
    assert l[0] == Num(1);
    assert l[1..][0] == Num(0);
    assert l[1..][1..] == Nums(xs) + rest;
  }

  /** Loading into a list that already holds elements is refused once the version and the
      count have been read. */
  lemma IntListLoadNeedsEmptyTarget(xs: seq<int>, n: int, rest: seq<Token>)
    requires xs != []
    ensures IntListOutcome(Load, [Num(1), Num(n)] + rest, xs) == Err(ListNotEmpty)
  {
    var l := [Num(1), Num(n)] + rest;
    assert l[0] == Num(1);
    assert l[1..][0] == Num(n);
  }

  /** An object with no mode still transfers the version and count, then refuses. */
  lemma IntListInvalidMode(xs: seq<int>, s: seq<Token>)
    ensures IntListOutcome(Invalid, s, xs) == Err(ModeUnknown)
  {
  }

  // ---------------------------------------------------------------------------
  // Names through registries

  /** `xferScienceType`: saving writes the science's internal name, loading looks the name
      up (`None` is `SCIENCE_INVALID`) and CRC transfers the raw value. */
  function ScienceOutcome(m: XferMode, s: seq<Token>, sci: int,
                          nameOf: int -> string, lookup: string -> Option<int>): (o: Outcome<int>)
    ensures m.Invalid? ==> o == Err(ModeUnknown)
    ensures m.Save? ==> o == Ok((sci, s + [Text(nameOf(sci))]))
    ensures m.Crc? ==> o == Ok((sci, s + [Num(sci)]))
    ensures m.Load? && o.Ok? ==> s != [] && s[0].Text? && lookup(s[0].s) == Some(o.value.0) && o.value.1 == s[1..]
    ensures m.Load? && s != [] && s[0].Text? && lookup(s[0].s).None? ==> o == Err(UnknownString)
  {
    if m.Save? then
      match TextOutcome(m, s, nameOf(sci))
      case Ok((_, s')) => Ok((sci, s'))
      case Err(e) => Err(e)
    else if m.Load? then ScienceFromName(s, lookup)
    else if m.Crc? then NumOutcome(m, s, sci)
    else Err(ModeUnknown)
  }

  /** Loading a science: its name is read and looked up. */
  function ScienceFromName(s: seq<Token>, lookup: string -> Option<int>): Outcome<int>
  {
    match TextOutcome(Load, s, "")
    case Err(e) => Err(e)
    case Ok((name, s')) =>
      match lookup(name)
      case None => Err(UnknownString)
      case Some(x) => Ok((x, s'))
  }

  function ScienceNames(xs: seq<int>, nameOf: int -> string): (ts: seq<Token>)
    ensures |ts| == |xs| && forall i :: 0 <= i < |xs| ==> ts[i] == Text(nameOf(xs[i]))
  {
    seq(|xs|, i requires 0 <= i < |xs| => Text(nameOf(xs[i])))
  }

  function LoadedSciences(s: seq<Token>, k: nat, lookup: string -> Option<int>): Outcome<seq<int>>
    decreases k
  {
    if k == 0 then Ok(([], s))
    else match ScienceFromName(s, lookup)
      case Ok((v, s')) => Prepend([v], LoadedSciences(s', k - 1, lookup))
      case Err(e) => Err(e)
  }

  /** `xferScienceVec`: version 1 and the count, then the names on save, the raw values
      on CRC; loading first clears the destination instead of refusing it. */
  function ScienceVecOutcome(m: XferMode, s: seq<Token>, xs: seq<int>,
                             nameOf: int -> string, lookup: string -> Option<int>): Outcome<seq<int>>
  {
    match VersionOutcome(m, s, 1, 1)
    case Err(e) => Err(e)
    case Ok((_, s1)) =>
      match NumOutcome(m, s1, Wrap16(|xs|))
      case Err(e) => Err(e)
      case Ok((count, s2)) =>
        if m.Save? then Ok((xs, s2 + ScienceNames(xs, nameOf)))
        else if m.Load? then LoadedSciences(s2, Wrap16(count), lookup)
        else if m.Crc? then Ok((xs, s2 + Nums(xs)))
        else Err(ModeUnknown)
  }

  /** Every science of `xs` is found again under its own name. */
  predicate NamesLookUp(xs: seq<int>, nameOf: int -> string, lookup: string -> Option<int>)
  {
    forall i :: 0 <= i < |xs| ==> lookup(nameOf(xs[i])) == Some(xs[i])
  }

  lemma {:induction false} LoadedSciencesOfSaved(xs: seq<int>, rest: seq<Token>,
                                                 nameOf: int -> string, lookup: string -> Option<int>)
    requires NamesLookUp(xs, nameOf, lookup)
    ensures LoadedSciences(ScienceNames(xs, nameOf) + rest, |xs|, lookup) == Ok((xs, rest))
    decreases |xs|
  {
    if xs != [] {
      assert lookup(nameOf(xs[0])) == Some(xs[0]);
      assert NamesLookUp(xs[1..], nameOf, lookup);
      var s := ScienceNames(xs, nameOf) + rest;
      assert s[0] == Text(nameOf(xs[0]));
      assert s[1..] == ScienceNames(xs[1..], nameOf) + rest;
      assert TextOutcome(Load, s, "") == Ok((nameOf(xs[0]), s[1..]));
      assert ScienceFromName(s, lookup) == Ok((xs[0], s[1..]));
      LoadedSciencesOfSaved(xs[1..], rest, nameOf, lookup);
      assert LoadedSciences(s, |xs|, lookup) == Prepend([xs[0]], LoadedSciences(s[1..], |xs[1..]|, lookup));
      assert [xs[0]] + xs[1..] == xs;
    } else {
      assert ScienceNames(xs, nameOf) + rest == rest;
    }
  }

  /** When every science's name looks up to that science, a saved vector of fewer than
      65536 sciences loads back unchanged, whatever the destination held before. */
  lemma ScienceVecRoundTrip(xs: seq<int>, d: seq<int>, s: seq<Token>, rest: seq<Token>,
                            nameOf: int -> string, lookup: string -> Option<int>)
    requires |xs| < UShortRange
    requires NamesLookUp(xs, nameOf, lookup)
    ensures ScienceVecOutcome(Save, s, xs, nameOf, lookup) ==
            Ok((xs, s + [Num(1), Num(|xs|)] + ScienceNames(xs, nameOf)))
    ensures ScienceVecOutcome(Load, [Num(1), Num(|xs|)] + ScienceNames(xs, nameOf) + rest, d, nameOf, lookup) == Ok((xs, rest))
  {
    ScienceVecSaved(xs, s, nameOf, lookup);
    ScienceVecLoaded(xs, d, rest, nameOf, lookup);
  }

  lemma ScienceVecSaved(xs: seq<int>, s: seq<Token>, nameOf: int -> string, lookup: string -> Option<int>)
    requires |xs| < UShortRange
    ensures ScienceVecOutcome(Save, s, xs, nameOf, lookup) ==
            Ok((xs, s + [Num(1), Num(|xs|)] + ScienceNames(xs, nameOf)))
  {
    assert s + [Num(1)] + [Num(|xs|)] + ScienceNames(xs, nameOf) == s + [Num(1), Num(|xs|)] + ScienceNames(xs, nameOf);
  }

  lemma ScienceVecLoaded(xs: seq<int>, d: seq<int>, rest: seq<Token>,
                         nameOf: int -> string, lookup: string -> Option<int>)
    requires |xs| < UShortRange
    requires NamesLookUp(xs, nameOf, lookup)
    ensures ScienceVecOutcome(Load, [Num(1), Num(|xs|)] + ScienceNames(xs, nameOf) + rest, d, nameOf, lookup) == Ok((xs, rest))
  {
    var l := [Num(1), Num(|xs|)] + ScienceNames(xs, nameOf) + rest;
    var l2 := ScienceNames(xs, nameOf) + rest;
    assert l[0] == Num(1) && l[1..][0] == Num(|xs|) && l[1..][1..] == l2;
    LoadedSciencesOfSaved(xs, rest, nameOf, lookup);
  }

  /** `xferKindOf`: version 1, then the bit's name on save; on load a known name sets the
      value and an unknown one leaves it as it was; CRC transfers the raw value. */
  function KindOfOutcome(m: XferMode, s: seq<Token>, k: int,
                         nameOf: int -> string, bitOf: string -> Option<int>): Outcome<int>
  {
    match VersionOutcome(m, s, 1, 1)
    case Err(e) => Err(e)
    case Ok((_, s1)) =>
      if m.Save? then
        match TextOutcome(m, s1, nameOf(k))
        case Ok((_, s2)) => Ok((k, s2))
        case Err(e) => Err(e)
      else if m.Load? then
        match TextOutcome(m, s1, "")
        case Err(e) => Err(e)
        case Ok((name, s2)) => Ok((if bitOf(name).Some? then bitOf(name).value else k, s2))
      else if m.Crc? then NumOutcome(m, s1, k)
      else Err(ModeUnknown)
  }

  lemma KindOfRoundTrip(k: int, d: int, s: seq<Token>, rest: seq<Token>,
                        nameOf: int -> string, bitOf: string -> Option<int>)
    requires bitOf(nameOf(k)) == Some(k)
    ensures KindOfOutcome(Save, s, k, nameOf, bitOf) == Ok((k, s + [Num(1), Text(nameOf(k))]))
    ensures KindOfOutcome(Load, [Num(1), Text(nameOf(k))] + rest, d, nameOf, bitOf) == Ok((k, rest))
  {
    assert s + [Num(1)] + [Text(nameOf(k))] == s + [Num(1), Text(nameOf(k))];
    var l := [Num(1), Text(nameOf(k))] + rest;
    assert l[0] == Num(1);
    assert l[1..][0] == Text(nameOf(k));
    assert l[1..][1..] == rest;
  }

  /** Loading an unknown kind-of name keeps the destination's value. */
  lemma KindOfUnknownNameKeepsValue(name: string, d: int, rest: seq<Token>,
                                    nameOf: int -> string, bitOf: string -> Option<int>)
    requires bitOf(name).None?
    ensures KindOfOutcome(Load, [Num(1), Text(name)] + rest, d, nameOf, bitOf) == Ok((d, rest))
  {
    var l := [Num(1), Text(name)] + rest;
    assert l[0] == Num(1);
    assert l[1..][0] == Text(name);
    assert l[1..][1..] == rest;
  }

  // ---------------------------------------------------------------------------
  // Upgrade masks

  /** An upgrade template: its name and the bits of its mask. */
  datatype UpgradeTemplate = UpgradeTemplate(name: string, mask: set<nat>)

  /** The templates, in template order, whose bits are all set in `mask` (`testForAll`). */
  function Covered(templates: seq<UpgradeTemplate>, mask: set<nat>): (c: seq<UpgradeTemplate>)
    ensures |c| <= |templates|
  {
    if templates == [] then []
    else (if templates[0].mask <= mask then [templates[0]] else []) + Covered(templates[1..], mask)
  }

  lemma {:induction false} CoveredMembers(templates: seq<UpgradeTemplate>, mask: set<nat>)
    ensures forall t :: t in Covered(templates, mask) <==> t in templates && t.mask <= mask
    decreases |templates|
  {
    if templates != [] {
      CoveredMembers(templates[1..], mask);
      forall t
        ensures t in templates <==> t == templates[0] || t in templates[1..]
      {
        if t in templates {
          var i :| 0 <= i < |templates| && templates[i] == t;
          if i > 0 { assert templates[1..][i - 1] == t; }
        }
      }
    }
  }

  function Names(ts: seq<UpgradeTemplate>): (r: seq<Token>)
    ensures |r| == |ts| && forall i :: 0 <= i < |ts| ==> r[i] == Text(ts[i].name)
  {
    seq(|ts|, i requires 0 <= i < |ts| => Text(ts[i].name))
  }

  /** `findUpgrade`: the first template with that name. */
  function FindUpgrade(templates: seq<UpgradeTemplate>, name: string): (r: Option<UpgradeTemplate>)
    ensures r.Some? ==> r.value in templates && r.value.name == name
    ensures r.None? ==> forall t :: t in templates ==> t.name != name
  {
    if templates == [] then None
    else if templates[0].name == name then Some(templates[0])
    else FindUpgrade(templates[1..], name)
  }

  function UnionOfMasks(ts: seq<UpgradeTemplate>): set<nat>
  {
    if ts == [] then {} else ts[0].mask + UnionOfMasks(ts[1..])
  }

  /** Loading `k` upgrade names, each adding its template's bits to `mask`. */
  function LoadedUpgrades(s: seq<Token>, k: nat, mask: set<nat>, templates: seq<UpgradeTemplate>): Outcome<set<nat>>
    decreases k
  {
    if k == 0 then Ok((mask, s))
    else match TextOutcome(Load, s, "")
      case Err(e) => Err(e)
      case Ok((name, s')) =>
        match FindUpgrade(templates, name)
        case None => Err(UnknownString)
        case Some(t) => LoadedUpgrades(s', k - 1, mask + t.mask, templates)
  }

  /** `xferUpgradeMask`: version 1; saving writes how many templates the mask covers and
      then their names in template order; loading clears the mask and sets the bits of
      each named template; CRC transfers the raw mask. */
  function UpgradeMaskOutcome(m: XferMode, s: seq<Token>, mask: set<nat>,
                              templates: seq<UpgradeTemplate>): Outcome<set<nat>>
  {
    match VersionOutcome(m, s, 1, 1)
    case Err(e) => Err(e)
    case Ok((_, s1)) =>
      if m.Save? then
        var c := Covered(templates, mask);
        Ok((mask, s1 + [Num(Wrap16(|c|))] + Names(c)))
      else if m.Load? then
        match NumOutcome(m, s1, 0)
        case Err(e) => Err(e)
        case Ok((count, s2)) => LoadedUpgrades(s2, Wrap16(count), {}, templates)
      else if m.Crc? then
        match TokenOutcome(m, s1, Bits(mask))
        case Ok((_, s2)) => Ok((mask, s2))
        case Err(e) => Err(e)
      else Err(ModeUnknown)
  }

  predicate DistinctNames(templates: seq<UpgradeTemplate>)
  {
    forall i, j :: 0 <= i < |templates| && 0 <= j < |templates| && templates[i].name == templates[j].name ==> i == j
  }

  lemma FindUpgradeDistinct(templates: seq<UpgradeTemplate>, t: UpgradeTemplate)
    requires DistinctNames(templates) && t in templates
    ensures FindUpgrade(templates, t.name) == Some(t)
  {
    var i :| 0 <= i < |templates| && templates[i] == t;
    var r := FindUpgrade(templates, t.name);
    var j :| 0 <= j < |templates| && templates[j] == r.value;
  }

  lemma {:induction false} LoadedUpgradesOfNames(cs: seq<UpgradeTemplate>, mask: set<nat>,
                                                 templates: seq<UpgradeTemplate>, rest: seq<Token>)
    requires DistinctNames(templates)
    requires forall t :: t in cs ==> t in templates
    ensures LoadedUpgrades(Names(cs) + rest, |cs|, mask, templates) == Ok((mask + UnionOfMasks(cs), rest))
    decreases |cs|
  {
    if cs != [] {
      var s := Names(cs) + rest;
      assert s[0] == Text(cs[0].name);
      assert s[1..] == Names(cs[1..]) + rest;
      assert cs[0] in cs;
      FindUpgradeDistinct(templates, cs[0]);
      assert TextOutcome(Load, s, "") == Ok((cs[0].name, s[1..]));
      assert forall t :: t in cs[1..] ==> t in cs;
      LoadedUpgradesOfNames(cs[1..], mask + cs[0].mask, templates, rest);
      assert LoadedUpgrades(s, |cs|, mask, templates) == LoadedUpgrades(s[1..], |cs[1..]|, mask + cs[0].mask, templates);
      assert mask + cs[0].mask + UnionOfMasks(cs[1..]) == mask + UnionOfMasks(cs);
    } else {
      assert Names(cs) + rest == rest;
      assert mask + UnionOfMasks(cs) == mask;
    }
  }

  lemma {:induction false} CoveredUnionWithin(templates: seq<UpgradeTemplate>, mask: set<nat>)
    ensures UnionOfMasks(Covered(templates, mask)) <= mask
    decreases |templates|
  {
    if templates != [] {
      CoveredUnionWithin(templates[1..], mask);
      var head := if templates[0].mask <= mask then [templates[0]] else [];
      UnionAppend(head, Covered(templates[1..], mask));
    }
  }

  lemma {:induction false} UnionAppend(a: seq<UpgradeTemplate>, b: seq<UpgradeTemplate>)
    ensures UnionOfMasks(a + b) == UnionOfMasks(a) + UnionOfMasks(b)
    decreases |a|
  {
    if a != [] {
      assert (a + b)[0] == a[0];
      assert (a + b)[1..] == a[1..] + b;
      UnionAppend(a[1..], b);
    } else {
      assert a + b == b;
    }
  }

  function UpgradeMaskTokens(mask: set<nat>, templates: seq<UpgradeTemplate>): seq<Token>
  {
    var c := Covered(templates, mask);
    [Num(1), Num(Wrap16(|c|))] + Names(c)
  }

  /** With distinct template names and fewer than 65536 templates, loading a saved mask
      gives exactly the bits of the templates the mask covered, which lie within the
      original mask, whatever the destination held. */
  lemma UpgradeMaskRoundTrip(mask: set<nat>, d: set<nat>, templates: seq<UpgradeTemplate>,
                             s: seq<Token>, rest: seq<Token>)
    requires DistinctNames(templates) && |templates| < UShortRange
    ensures UpgradeMaskOutcome(Save, s, mask, templates) == Ok((mask, s + UpgradeMaskTokens(mask, templates)))
    ensures UpgradeMaskOutcome(Load, UpgradeMaskTokens(mask, templates) + rest, d, templates) ==
            Ok((UnionOfMasks(Covered(templates, mask)), rest))
    ensures UnionOfMasks(Covered(templates, mask)) <= mask
  {
    UpgradeMaskSaved(mask, templates, s);
    UpgradeMaskLoaded(mask, d, templates, rest);
    CoveredUnionWithin(templates, mask);
  }

  lemma UpgradeMaskSaved(mask: set<nat>, templates: seq<UpgradeTemplate>, s: seq<Token>)
    ensures UpgradeMaskOutcome(Save, s, mask, templates) == Ok((mask, s + UpgradeMaskTokens(mask, templates)))
  {
    var c := Covered(templates, mask);
    assert s + [Num(1)] + [Num(Wrap16(|c|))] + Names(c) == s + UpgradeMaskTokens(mask, templates);
  }

  lemma UpgradeMaskLoaded(mask: set<nat>, d: set<nat>, templates: seq<UpgradeTemplate>, rest: seq<Token>)
    requires DistinctNames(templates) && |templates| < UShortRange
    ensures UpgradeMaskOutcome(Load, UpgradeMaskTokens(mask, templates) + rest, d, templates) ==
            Ok((UnionOfMasks(Covered(templates, mask)), rest))
  {
    var c := Covered(templates, mask);
    var l := UpgradeMaskTokens(mask, templates) + rest;
    var l2 := Names(c) + rest;
    assert l[0] == Num(1) && l[1..][0] == Num(|c|) && l[1..][1..] == l2;
    assert LoadedUpgrades(l2, |c|, {}, templates) == Ok((UnionOfMasks(c), rest)) by {
      CoveredMembers(templates, mask);
      LoadedUpgradesOfNames(c, {}, templates, rest);
      assert {} + UnionOfMasks(c) == UnionOfMasks(c);
    }
  }

  /** A name no template carries makes the load fail. */
  lemma UpgradeMaskUnknownName(name: string, templates: seq<UpgradeTemplate>, d: set<nat>, rest: seq<Token>)
    requires forall t :: t in templates ==> t.name != name
    ensures UpgradeMaskOutcome(Load, [Num(1), Num(1), Text(name)] + rest, d, templates) == Err(UnknownString)
  {
    var l := [Num(1), Num(1), Text(name)] + rest;
    assert l[0] == Num(1);
    assert l[1..][0] == Num(1);
    assert l[1..][1..][0] == Text(name);
  }

  // ---------------------------------------------------------------------------
  // The transfer object

  class Xfer {
    var mode: XferMode
    var options: nat
    var identifier: string
    /** Tokens written so far (save, CRC) or still to be read (load). */
    var stream: seq<Token>

    /** A new object has no mode and no options. */
    constructor ()
      ensures mode == Invalid && options == NoOptions && stream == []
    {
      mode := Invalid;
      options := NoOptions;
      identifier := "";
      stream := [];
    }

    /** `open`: records the identifier. */
    method Open(id: string)
      modifies this
      ensures identifier == id && mode == old(mode) && stream == old(stream) && options == old(options)
    {
      identifier := id;
    }

    method XferToken(t: Token) returns (r: Token, err: Option<XferError>)
      modifies this
      ensures mode == old(mode)
      ensures Agrees(TokenOutcome(old(mode), old(stream), t), r, stream, err)
    {
      r, err := t, None;
      if mode == Save || mode == Crc {
        stream := stream + [t];
      } else if mode == Load {
        if stream != [] && SameKind(stream[0], t) {
          r := stream[0];
          stream := stream[1..];
        } else {
          err := Some(ReadError);
        }
      }
    }

    method XferNum(v: int) returns (r: int, err: Option<XferError>)
      modifies this
      ensures mode == old(mode)
      ensures Agrees(NumOutcome(old(mode), old(stream), v), r, stream, err)
    {
      var t;
      t, err := XferToken(Num(v));
      r := if t.Num? then t.n else v;
    }

    method XferReal(v: real) returns (r: real, err: Option<XferError>)
      modifies this
      ensures mode == old(mode)
      ensures Agrees(RealOutcome(old(mode), old(stream), v), r, stream, err)
    {
      var t;
      t, err := XferToken(Real(v));
      r := if t.Real? then t.x else v;
    }

    method XferAsciiString(v: string) returns (r: string, err: Option<XferError>)
      modifies this
      ensures mode == old(mode)
      ensures Agrees(TextOutcome(old(mode), old(stream), v), r, stream, err)
    {
      var t;
      t, err := XferToken(Text(v));
      r := if t.Text? then t.s else v;
    }

    method XferVersion(v: int, current: int) returns (r: int, err: Option<XferError>)
      modifies this
      ensures mode == old(mode)
      ensures Agrees(VersionOutcome(old(mode), old(stream), v, current), r, stream, err)
    {
      r, err := XferNum(v);
      if err.None? && r > current {
        err := Some(InvalidVersion);
      }
    }

    method XferMapName(name: string, toPortable: string -> string, toReal: string -> string)
      returns (r: string, err: Option<XferError>)
      modifies this
      ensures mode == old(mode)
      ensures Agrees(MapNameOutcome(old(mode), old(stream), name, toPortable, toReal), r, stream, err)
    {
      r, err := name, None;
      if mode == Save {
        var _, e := XferAsciiString(toPortable(name));
        err := e;
      } else if mode == Load {
        var n;
        n, err := XferAsciiString(name);
        r := toReal(n);
      }
    }

    method XferCoord3D(c: Coord3D) returns (r: Coord3D, err: Option<XferError>)
      modifies this
      ensures mode == old(mode)
      ensures Agrees(Coord3DOutcome(old(mode), old(stream), c), r, stream, err)
    {
      r := c;
      var x, y, z;
      x, err := XferReal(c.x);
      if err.Some? { return; }
      y, err := XferReal(c.y);
      if err.Some? { return; }
      z, err := XferReal(c.z);
      if err.Some? { return; }
      r := Coord3D(x, y, z);
    }

    method XferRegion3D(g: Region3D) returns (r: Region3D, err: Option<XferError>)
      modifies this
      ensures mode == old(mode)
      ensures Agrees(Region3DOutcome(old(mode), old(stream), g), r, stream, err)
    {
      r := g;
      var lo, hi;
      lo, err := XferCoord3D(g.lo);
      if err.Some? { return; }
      hi, err := XferCoord3D(g.hi);
      if err.Some? { return; }
      r := Region3D(lo, hi);
    }

    method XferVector4(v: Vector4) returns (r: Vector4, err: Option<XferError>)
      modifies this
      ensures mode == old(mode)
      ensures Agrees(Vector4Outcome(old(mode), old(stream), v), r, stream, err)
    {
      r := v;
      var x, y, z, w;
      x, err := XferReal(v.x);
      if err.Some? { return; }
      y, err := XferReal(v.y);
      if err.Some? { return; }
      z, err := XferReal(v.z);
      if err.Some? { return; }
      w, err := XferReal(v.w);
      if err.Some? { return; }
      r := Vector4(x, y, z, w);
    }

    method XferMatrix3D(mtx: Matrix3D) returns (r: Matrix3D, err: Option<XferError>)
      modifies this
      ensures mode == old(mode)
      ensures Agrees(Matrix3DOutcome(old(mode), old(stream), mtx), r, stream, err)
    {
      r := mtx;
      var r0, r1, r2;
      var version;
      version, err := XferVersion(1, 1);
      if err.Some? { return; }
      r0, err := XferVector4(mtx.row0);
      if err.Some? { return; }
      r1, err := XferVector4(mtx.row1);
      if err.Some? { return; }
      r2, err := XferVector4(mtx.row2);
      if err.Some? { return; }
      r := Matrix3D(r0, r1, r2);
    }

    /** Loads `count` integers, appending each to the result. */
    method LoadNums(count: nat) returns (r: seq<int>, err: Option<XferError>)
      requires mode == Load
      modifies this
      ensures mode == old(mode)
      ensures Agrees(LoadedNums(old(stream), count), r, stream, err)
    {
      r, err := [], None;
      PrependNothing(LoadedNums(stream, count));
      var i := 0;
      while i < count
        invariant 0 <= i <= count && mode == Load
        invariant LoadedNums(old(stream), count) == Prepend(r, LoadedNums(stream, count - i))
      {
        var v, e := XferNum(0);
        if e.Some? {
          err := e;
          return;
        }
        PrependJoin(r, [v], LoadedNums(stream, count - i - 1));
        r := r + [v];
        i := i + 1;
      }
      assert r + [] == r;
    }

    /** Writes every integer of `xs`, in order. */
    method SaveNums(xs: seq<int>)
      requires mode == Save || mode == Crc
      modifies this
      ensures mode == old(mode) && stream == old(stream) + Nums(xs)
    {
      var i := 0;
      while i < |xs|
        invariant 0 <= i <= |xs| && mode == old(mode)
        invariant stream == old(stream) + Nums(xs[..i])
      {
        var _, _ := XferNum(xs[i]);
        NumsAppend(xs[..i], xs[i]);
        assert xs[..i + 1] == xs[..i] + [xs[i]];
        i := i + 1;
      }
      assert xs[..i] == xs;
    }

    /** `xferSTLObjectIDVector` and `xferSTLObjectIDList`, which share one layout, and a
        non-null `xferSTLIntList`. */
    method XferIntList(xs: seq<int>) returns (r: seq<int>, err: Option<XferError>)
      modifies this
      ensures mode == old(mode)
      ensures Agrees(IntListOutcome(old(mode), old(stream), xs), r, stream, err)
    {
      r := xs;
      var count;
      var version;
      version, err := XferVersion(1, 1);
      if err.Some? { return; }
      count, err := XferNum(Wrap16(|xs|));
      if err.Some? { return; }
      if mode == Save || mode == Crc {
        SaveNums(xs);
      } else if mode == Load {
        if xs != [] {
          err := Some(ListNotEmpty);
          return;
        }
        r, err := LoadNums(Wrap16(count));
      } else {
        err := Some(ModeUnknown);
      }
    }

    /** `xferSTLIntList`, where `None` is a null list pointer. */
    method XferOptionalIntList(xs: Option<seq<int>>) returns (r: Option<seq<int>>, err: Option<XferError>)
      modifies this
      ensures mode == old(mode)
      ensures Agrees(OptionalIntListOutcome(old(mode), old(stream), xs), r, stream, err)
    {
      r, err := xs, None;
      if xs.Some? {
        var l;
        l, err := XferIntList(xs.value);
        r := Some(l);
      }
    }

    method XferScienceType(sci: int, nameOf: int -> string, lookup: string -> Option<int>)
      returns (r: int, err: Option<XferError>)
      modifies this
      ensures mode == old(mode)
      ensures Agrees(ScienceOutcome(old(mode), old(stream), sci, nameOf, lookup), r, stream, err)
    {
      r, err := sci, None;
      if mode == Save {
        var _, e := XferAsciiString(nameOf(sci));
        err := e;
      } else if mode == Load {
        var name;
        name, err := XferAsciiString("");
        if err.Some? { return; }
        match lookup(name) {
          case None => err := Some(UnknownString);
          case Some(x) => r := x;
        }
      } else if mode == Crc {
        r, err := XferNum(sci);
      } else {
        err := Some(ModeUnknown);
      }
    }

    method XferScienceVec(xs: seq<int>, nameOf: int -> string, lookup: string -> Option<int>)
      returns (r: seq<int>, err: Option<XferError>)
      modifies this
      ensures mode == old(mode)
      ensures Agrees(ScienceVecOutcome(old(mode), old(stream), xs, nameOf, lookup), r, stream, err)
    {
      r := xs;
      var count;
      var version;
      version, err := XferVersion(1, 1);
      if err.Some? { return; }
      count, err := XferNum(Wrap16(|xs|));
      if err.Some? { return; }
      if mode == Save {
        ghost var s2 := stream;
        var i := 0;
        while i < |xs|
          invariant 0 <= i <= |xs| && mode == Save
          invariant stream == s2 + ScienceNames(xs[..i], nameOf)
        {
          var _, _ := XferScienceType(xs[i], nameOf, lookup);
          assert ScienceNames(xs[..i + 1], nameOf) == ScienceNames(xs[..i], nameOf) + [Text(nameOf(xs[i]))];
          i := i + 1;
        }
        assert xs[..i] == xs;
      } else if mode == Load {
        ghost var s2 := stream;
        var k := Wrap16(count);
        r := [];
        PrependNothing(LoadedSciences(stream, k, lookup));
        var i := 0;
        while i < k
          invariant 0 <= i <= k && mode == Load
          invariant LoadedSciences(s2, k, lookup) == Prepend(r, LoadedSciences(stream, k - i, lookup))
        {
          var v, e := XferScienceType(0, _ => "", lookup);
          if e.Some? {
            err := e;
            return;
          }
          PrependJoin(r, [v], LoadedSciences(stream, k - i - 1, lookup));
          r := r + [v];
          i := i + 1;
        }
        assert r + [] == r;
      } else if mode == Crc {
        SaveNums(xs);
      } else {
        err := Some(ModeUnknown);
      }
    }

    method XferKindOf(k: int, nameOf: int -> string, bitOf: string -> Option<int>)
      returns (r: int, err: Option<XferError>)
      modifies this
      ensures mode == old(mode)
      ensures Agrees(KindOfOutcome(old(mode), old(stream), k, nameOf, bitOf), r, stream, err)
    {
      r := k;
      var version;
      version, err := XferVersion(1, 1);
      if err.Some? { return; }
      if mode == Save {
        var _, e := XferAsciiString(nameOf(k));
        err := e;
      } else if mode == Load {
        var name;
        name, err := XferAsciiString("");
        if err.None? && bitOf(name).Some? {
          r := bitOf(name).value;
        }
      } else if mode == Crc {
        r, err := XferNum(k);
      } else {
        err := Some(ModeUnknown);
      }
    }

    method XferUpgradeMask(mask: set<nat>, templates: seq<UpgradeTemplate>)
      returns (r: set<nat>, err: Option<XferError>)
      modifies this
      ensures mode == old(mode)
      ensures Agrees(UpgradeMaskOutcome(old(mode), old(stream), mask, templates), r, stream, err)
    {
      r := mask;
      var version;
      version, err := XferVersion(1, 1);
      if err.Some? { return; }
      if mode == Save {
        var count := CountCovered(mask, templates);
        var written;
        written, err := XferNum(count);
        SaveCoveredNames(mask, templates);
      } else if mode == Load {
        var count;
        count, err := XferNum(0);
        if err.Some? { return; }
        r, err := LoadUpgrades(Wrap16(count), templates);
      } else if mode == Crc {
        var raw;
        raw, err := XferToken(Bits(mask));
      } else {
        err := Some(ModeUnknown);
      }
    }

    /** Counts, as an `UnsignedShort`, the templates whose bits are all set in `mask`. */
    static method CountCovered(mask: set<nat>, templates: seq<UpgradeTemplate>) returns (count: nat)
      ensures count == Wrap16(|Covered(templates, mask)|)
    {
      count := 0;
      var i := 0;
      while i < |templates|
        invariant 0 <= i <= |templates| && 0 <= count < UShortRange
        invariant count == Wrap16(|Covered(templates[..i], mask)|)
      {
        CoveredAppend(templates[..i], templates[i], mask);
        assert templates[..i + 1] == templates[..i] + [templates[i]];
        if templates[i].mask <= mask {
          Wrap16Step(|Covered(templates[..i], mask)|);
          count := if count + 1 == UShortRange then 0 else count + 1;
        }
        i := i + 1;
      }
      assert templates[..i] == templates;
    }

    /** Writes the names of the templates `mask` covers, in template order. */
    method SaveCoveredNames(mask: set<nat>, templates: seq<UpgradeTemplate>)
      requires mode == Save
      modifies this
      ensures mode == Save && stream == old(stream) + Names(Covered(templates, mask))
    {
      var i := 0;
      while i < |templates|
        invariant 0 <= i <= |templates| && mode == Save
        invariant stream == old(stream) + Names(Covered(templates[..i], mask))
      {
        CoveredAppend(templates[..i], templates[i], mask);
        assert templates[..i + 1] == templates[..i] + [templates[i]];
        if templates[i].mask <= mask {
          var written, _ := XferAsciiString(templates[i].name);
          NamesAppend(Covered(templates[..i], mask), templates[i]);
        }
        i := i + 1;
      }
      assert templates[..i] == templates;
    }

    /** Reads `k` upgrade names into a cleared mask. */
    method LoadUpgrades(k: nat, templates: seq<UpgradeTemplate>) returns (r: set<nat>, err: Option<XferError>)
      requires mode == Load
      modifies this
      ensures mode == Load
      ensures Agrees(LoadedUpgrades(old(stream), k, {}, templates), r, stream, err)
    {
      r, err := {}, None;
      var i := 0;
      while i < k
        invariant 0 <= i <= k && mode == Load
        invariant err == None
        invariant LoadedUpgrades(old(stream), k, {}, templates) == LoadedUpgrades(stream, k - i, r, templates)
      {
        var name;
        name, err := XferAsciiString("");
        if err.Some? { return; }
        match FindUpgrade(templates, name) {
          case None =>
            err := Some(UnknownString);
            return;
          case Some(t) =>
            r := r + t.mask;
        }
        i := i + 1;
      }
    }
  }

  lemma {:induction false} CoveredAppend(ts: seq<UpgradeTemplate>, t: UpgradeTemplate, mask: set<nat>)
    ensures Covered(ts + [t], mask) == Covered(ts, mask) + (if t.mask <= mask then [t] else [])
    decreases |ts|
  {
    if ts == [] {
      assert ts + [t] == [t];
      assert [t][1..] == [];
    } else {
      assert (ts + [t])[1..] == ts[1..] + [t];
      CoveredAppend(ts[1..], t, mask);
    }
  }

  lemma NamesAppend(ts: seq<UpgradeTemplate>, t: UpgradeTemplate)
    ensures Names(ts + [t]) == Names(ts) + [Text(t.name)]
  {
    assert Names(ts + [t]) == Names(ts) + [Text(t.name)];
  }
}
