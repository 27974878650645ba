/** The W3D library's file factory: asset names are classified by extension, looked up in
    a fixed chain of art directories, and opened read-only through the engine's file
    system. Also the size-based reprioritisation of textures that two game archives both
    provide.

    The engine file system is a set of parameters here: `Env.isFile` answers
    `doesFileExist`, `openFile` produces a handle or nothing, and reading, seeking and
    sizing an open handle are functions of the handle. Path buffers hold C strings of at
    most `MaxPath - 1` characters; the strings here are their contents. */
module W3DFileSystem {
  import opened Wrappers
  import opened AsciiText
  import opened ArchiveTree
  import StringEx

  datatype GameFileType = CompletelyUnknown | W3d | Tga | Dds

  /** `_MAX_PATH`, the size of both name buffers of a game file. */
  const MaxPath: nat := 260

  const W3dDirPath: string := "Art/W3D/"
  const TgaDirPath: string := "Art/Textures/"
  /** The user-directory formats take the user data path, which ends in a separator. */
  const UserW3dDir: string := "W3D/"
  const UserTgaDir: string := "Textures/"
  const MapPreviewDir: string := "MapPreviews/"

  // ---------------------------------------------------------------------------
  // Classification

  /** The extension of a name: everything from its last '.', the dot included. */
  function Extension(name: string): Option<string>
  {
    match LastIndexOf(name, '.')
    case None => None
    case Some(i) => Some(name[i..])
  }

  predicate ExtensionIs(name: string, ext: string)
  {
    Extension(name).Some? && EqualsNoCase(Extension(name).value, ext)
  }

  /** `getFileType`: the extension decides, compared without case. */
  function GetFileType(name: string): GameFileType
  {
    if ExtensionIs(name, ".w3d") then W3d
    else if ExtensionIs(name, ".tga") then Tga
    else if ExtensionIs(name, ".dds") then Dds
    else CompletelyUnknown
  }

  predicate IsImageFileType(t: GameFileType)
  {
    t == Tga || t == Dds
  }

  /** An extension written in lower case with one leading dot. */
  predicate PlainExtension(ext: string)
  {
    |ext| > 0 && ext[0] == '.' && ToLower(ext) == ext &&
    forall k :: 0 < k < |ext| ==> ext[k] != '.'
  }

  /** Comparing the part after the last dot is the same as comparing the name's ending,
      for an extension with a single dot: the ending's dot is then the last one. */
  lemma ExtensionIsSuffix(name: string, ext: string)
    requires PlainExtension(ext)
    ensures ExtensionIs(name, ext) <==> EndsWithNoCase(name, ext)
  {
    var n, m := |name|, |ext|;
    if ExtensionIs(name, ext) {
      var i := LastIndexOf(name, '.').value;
      assert |ToLower(name[i..])| == m;
    }
    if EndsWithNoCase(name, ext) {
      var t := name[n - m..];
      assert ToLower(t) == ext;
      assert LowerChar(name[n - m]) == '.';
      assert name[n - m] == '.';
      forall j | n - m < j < n
        ensures name[j] != '.'
      {
        assert LowerChar(t[j - (n - m)]) == ext[j - (n - m)];
      }
      var r := LastIndexOf(name, '.');
      assert r.Some? && r.value == n - m;
    }
  }

  lemma PlainExtensions()
    ensures PlainExtension(".w3d") && PlainExtension(".tga") && PlainExtension(".dds")
    ensures ToLower(".w3d") != ToLower(".tga") && ToLower(".w3d") != ToLower(".dds")
    ensures ToLower(".tga") != ToLower(".dds")
  {
    assert ToLower(".w3d") == ".w3d" by { assert LowerChar('w') == 'w' && LowerChar('3') == '3' && LowerChar('d') == 'd'; }
    assert ToLower(".tga") == ".tga" by { assert LowerChar('t') == 't' && LowerChar('g') == 'g' && LowerChar('a') == 'a'; }
    assert ToLower(".dds") == ".dds" by { assert LowerChar('d') == 'd' && LowerChar('s') == 's'; }
    assert ".w3d"[1] != ".tga"[1] && ".w3d"[1] != ".dds"[1] && ".tga"[1] != ".dds"[1];
  }

  /** The type of a name is decided by how it ends: ".w3d", ".tga" and ".dds" in any case,
      and anything else, a name without a dot included, is unknown. */
  lemma FileTypeBySuffix(name: string)
    ensures GetFileType(name) == W3d <==> EndsWithNoCase(name, ".w3d")
    ensures GetFileType(name) == Tga <==> EndsWithNoCase(name, ".tga")
    ensures GetFileType(name) == Dds <==> EndsWithNoCase(name, ".dds")
    ensures GetFileType(name) == CompletelyUnknown <==>
      !EndsWithNoCase(name, ".w3d") && !EndsWithNoCase(name, ".tga") && !EndsWithNoCase(name, ".dds")
  {
    PlainExtensions();
    ExtensionIsSuffix(name, ".w3d");
    ExtensionIsSuffix(name, ".tga");
    ExtensionIsSuffix(name, ".dds");
  }

  /** Images are exactly the names ending in ".tga" or ".dds". */
  lemma ImageBySuffix(name: string)
    ensures IsImageFileType(GetFileType(name)) <==>
      EndsWithNoCase(name, ".tga") || EndsWithNoCase(name, ".dds")
  {
    FileTypeBySuffix(name);
  }

  // ---------------------------------------------------------------------------
  // Bounded path buffers

  /** The contents of a `MaxPath` buffer after a bounded copy or append: at most
      `MaxPath - 1` characters survive. */
  function Bounded(s: string): (r: string)
    ensures |r| < MaxPath
    ensures |s| < MaxPath ==> r == s
    ensures r == s[..|r|]
  {
    if |s| < MaxPath then s else s[..MaxPath - 1]
  }

  /** A directory prefix followed by a name, as `strcpy`/`sprintf` then `strlcat` build it. */
  function InDir(dir: string, name: string): string
  {
    Bounded(dir + name)
  }

  /** The C string a buffer holds: the characters before its first terminator. */
  function Contents(buf: seq<char>): (r: string)
    requires StringEx.Nul in buf
  {
    buf[..StringEx.StrLen(buf)]
  }

  /** `strlcpy(m_filename, filename, _MAX_PATH)` leaves the name's `Bounded` form. */
  lemma CopyIsBounded(buf: seq<char>, name: string)
    requires |buf| == MaxPath && StringEx.Nul !in name
    ensures StringEx.Nul in StringEx.LCpy(buf, name + [StringEx.Nul], MaxPath)
    ensures Contents(StringEx.LCpy(buf, name + [StringEx.Nul], MaxPath)) == Bounded(name)
  {
    var s := name + [StringEx.Nul];
    StringEx.NLenIs(s, |s|, |name|);
    StringEx.LCpyTerminatedWithin(buf, s, MaxPath);
    var r := StringEx.LCpy(buf, s, MaxPath);
    var c := StringEx.Min(|name|, MaxPath - 1);
    assert r[c] == StringEx.Nul;
    StringEx.NLenIs(r, |r|, c);
    assert r[..c] == name[..c];
  }

  /** `strlcat` of a name onto a buffer holding a directory prefix leaves `InDir`. */
  lemma AppendIsInDir(buf: seq<char>, dir: string, name: string)
    requires |buf| == MaxPath && |dir| < MaxPath && buf[..|dir|] == dir && buf[|dir|] == StringEx.Nul
    requires StringEx.Nul !in dir && StringEx.Nul !in name
    ensures StringEx.Nul in StringEx.LCat(buf, name + [StringEx.Nul], MaxPath)
    ensures Contents(StringEx.LCat(buf, name + [StringEx.Nul], MaxPath)) == InDir(dir, name)
  {
    var r := StringEx.LCat(buf, name + [StringEx.Nul], MaxPath);
    var c := AppendedTerminated(buf, dir, name);
    assert forall i :: 0 <= i < |dir| + c ==> r[i] != StringEx.Nul by {
      assert forall i :: 0 <= i < |dir| + c ==> r[i] == (dir + name[..c])[i];
    }
    StringEx.NLenIs(r, |r|, |dir| + c);
    assert (dir + name)[..|dir| + c] == dir + name[..c];
  }

  /** The appended buffer holds the directory, the first `c` characters of the name and
      a terminator, where `c` is as many as fit. */
  lemma AppendedTerminated(buf: seq<char>, dir: string, name: string) returns (c: nat)
    requires |buf| == MaxPath && |dir| < MaxPath && buf[..|dir|] == dir && buf[|dir|] == StringEx.Nul
    requires StringEx.Nul !in dir && StringEx.Nul !in name
    ensures |dir| + c < MaxPath && c <= |name| && |dir| + c == |InDir(dir, name)|
    ensures var r := StringEx.LCat(buf, name + [StringEx.Nul], MaxPath);
      r[..|dir| + c] == dir + name[..c] && r[|dir| + c] == StringEx.Nul
  {
    var s := name + [StringEx.Nul];
    StringEx.NLenIs(s, |s|, |name|);
    assert forall i :: 0 <= i < |dir| ==> buf[i] == dir[i];
    StringEx.NLenIs(buf, MaxPath, |dir|);
    c := StringEx.Min(MaxPath - |dir| - 1, |name|);
    if c > 0 {
      assert s[..c] == name[..c];
      StringEx.LCatIsPut(buf, s, MaxPath, |dir|, c);
      StringEx.PutTerminated(buf, |dir|, name[..c]);
    } else {
      StringEx.LCatUnchanged(buf, s, MaxPath);
    }
  }

  // ---------------------------------------------------------------------------
  // Name resolution

  /** What the engine offers `Set_Name`: the existence test, the user data path when the
      global data exists, and the registry language. */
  datatype Env = Env(isFile: string -> bool, userData: Option<string>, language: string)

  /** The first path tried: the W3D directory for models, the texture directory for
      images, the name itself otherwise. */
  function PrimaryPath(name: string): string
  {
    var t := GetFileType(name);
    if t == W3d then InDir(W3dDirPath, name)
    else if IsImageFileType(t) then InDir(TgaDirPath, name)
    else name
  }

  /** The second path tried, under the user data directory: models and images have a
      directory there, anything else keeps the primary path. */
  function UserPath(name: string, u: string): string
  {
    var t := GetFileType(name);
    if t == W3d then InDir(u + UserW3dDir, name)
    else if IsImageFileType(t) then InDir(u + UserTgaDir, name)
    else PrimaryPath(name)
  }

  /** The third path tried: map previews for `.tga` files, the user path otherwise. */
  function PreviewPath(name: string, u: string): string
  {
    if GetFileType(name) == Tga then InDir(u + MapPreviewDir, name) else UserPath(name, u)
  }

  /** The last path tried: the localised texture directory for images, the path held
      before otherwise. */
  function TexturePath(name: string, env: Env, before: string): string
  {
    if IsImageFileType(GetFileType(name)) then InDir("Data/" + env.language + "/Art/Textures/", name)
    else before
  }

  /** Every path `Set_Name` asks about, in order, when none of them exists. A step that
      has no directory for the name's type asks again about the path already held. */
  function Candidates(name: string, env: Env): (r: seq<string>)
    ensures 2 <= |r| && r[0] == PrimaryPath(name)
  {
    var c0 := PrimaryPath(name);
    if env.userData.Some? then
      var u := env.userData.value;
      [c0, UserPath(name, u), PreviewPath(name, u), TexturePath(name, env, PreviewPath(name, u))]
    else [c0, TexturePath(name, env, c0)]
  }

  /** Asking in order and stopping at the first path that exists: the path held at the
      end and whether it exists. */
  function Probe(paths: seq<string>, present: string -> bool): (string, bool)
    requires |paths| > 0
  {
    if |paths| == 1 || present(paths[0]) then (paths[0], present(paths[0]))
    else Probe(paths[1..], present)
  }

  /** The probe finds a path iff one of them exists, and then it is the first that does;
      otherwise it ends on the last path. */
  lemma {:induction false} ProbeFindsFirst(paths: seq<string>, present: string -> bool)
    requires |paths| > 0
    ensures Probe(paths, present).1 <==> exists i :: 0 <= i < |paths| && present(paths[i])
    ensures Probe(paths, present).1 ==>
      exists i :: 0 <= i < |paths| && paths[i] == Probe(paths, present).0 && present(paths[i]) &&
                  forall j :: 0 <= j < i ==> !present(paths[j])
    ensures !Probe(paths, present).1 ==> Probe(paths, present).0 == paths[|paths| - 1]
  {
    if |paths| == 1 || present(paths[0]) {
      if !present(paths[0]) {
        assert |paths| == 1;
      }
    } else {
      var rest := paths[1..];
      ProbeFindsFirst(rest, present);
      assert forall i :: 0 < i < |paths| ==> paths[i] == rest[i - 1];
      if Probe(rest, present).1 {
        var i :| 0 <= i < |rest| && rest[i] == Probe(rest, present).0 &&
          present(rest[i]) && forall j :: 0 <= j < i ==> !present(rest[j]);
        assert paths[i + 1] == rest[i];
        assert forall j :: 0 <= j < i + 1 ==> !present(paths[j]) by {
          forall j | 0 < j < i + 1 ensures !present(paths[j]) { assert paths[j] == rest[j - 1]; }
        }
      } else {
        forall i | 0 <= i < |paths| ensures !present(paths[i]) {
          if i > 0 { assert paths[i] == rest[i - 1]; }
        }
      }
    }
  }

  /** A name that exists where it is first looked for is found there. */
  lemma PrimaryWins(name: string, env: Env)
    requires env.isFile(PrimaryPath(name))
    ensures Probe(Candidates(name, env), env.isFile) == (PrimaryPath(name), true)
  {
  }

  /** A name of unknown type is only ever looked for as given. */
  lemma {:induction false} UnknownStaysAsGiven(name: string, env: Env)
    requires GetFileType(name) == CompletelyUnknown
    ensures Probe(Candidates(name, env), env.isFile) == (name, env.isFile(name))
  {
    var cs := Candidates(name, env);
    assert forall i :: 0 <= i < |cs| ==> cs[i] == name;
    ProbeFindsFirst(cs, env.isFile);
    if Probe(cs, env.isFile).1 {
      var i :| 0 <= i < |cs| && cs[i] == Probe(cs, env.isFile).0 && env.isFile(cs[i]);
    }
  }

  /** Without global data the chain is the primary path, then the localised texture
      directory for images (the primary path again otherwise). */
  lemma NoGlobalDataChain(name: string, env: Env)
    requires env.userData.None?
    ensures Candidates(name, env) == [PrimaryPath(name),
      if IsImageFileType(GetFileType(name)) then InDir("Data/" + env.language + "/Art/Textures/", name)
      else PrimaryPath(name)]
  {
  }

  /** The directory walk of `Set_Name`: each step that runs replaces the held path and
      asks whether it exists, and a step runs only while nothing has been found. */
  method ResolvePath(name: string, env: Env) returns (path: string, found: bool)
    ensures (path, found) == Probe(Candidates(name, env), env.isFile)
  {
    ghost var cs := Candidates(name, env);
    path := PrimaryStep(name);
    found := env.isFile(path);
    ghost var k := 0;
    if !found && env.userData.Some? {
      path := UserStep(name, env.userData.value, path);
      found := env.isFile(path);
      k := 1;
    }
    if !found && env.userData.Some? {
      path := PreviewStep(name, env.userData.value, path);
      found := env.isFile(path);
      k := 2;
    }
    assert path == cs[k] && forall j :: 0 <= j < k ==> !env.isFile(cs[j]);
    if !found {
      path := TextureStep(name, env, path);
      found := env.isFile(path);
      k := |cs| - 1;
    }
    ProbeAt(cs, env.isFile, k, path, found);
  }

  /** The models or texture directory, or the name as given. */
  method PrimaryStep(name: string) returns (path: string)
    ensures path == PrimaryPath(name)
  {
    var t := GetFileType(name);
    if t == W3d {
      path := InDir(W3dDirPath, name);
    } else if IsImageFileType(t) {
      path := InDir(TgaDirPath, name);
    } else {
      path := name;
    }
  }

  /** The user data directory for models and images; other names keep the held path. */
  method UserStep(name: string, u: string, held: string) returns (path: string)
    requires held == PrimaryPath(name)
    ensures path == UserPath(name, u)
  {
    var t := GetFileType(name);
    path := held;
    if t == W3d {
      path := InDir(u + UserW3dDir, name);
    } else if IsImageFileType(t) {
      path := InDir(u + UserTgaDir, name);
    }
  }

  /** The map preview directory for `.tga` files; other names keep the held path. */
  method PreviewStep(name: string, u: string, held: string) returns (path: string)
    requires held == UserPath(name, u)
    ensures path == PreviewPath(name, u)
  {
    path := held;
    if GetFileType(name) == Tga {
      path := InDir(u + MapPreviewDir, name);
    }
  }

  /** The localised texture directory for images; other names keep the held path. */
  method TextureStep(name: string, env: Env, held: string) returns (path: string)
    ensures path == TexturePath(name, env, held)
  {
    path := held;
    if IsImageFileType(GetFileType(name)) {
      path := InDir("Data/" + env.language + "/Art/Textures/", name);
    }
  }

  // ---------------------------------------------------------------------------
  // The file class

  type FileHandle = nat

  /** WWLib's `FileClass::READ`. */
  const ReadRights: int := 1

  /** The C library's `SEEK_SET`, `SEEK_CUR` and `SEEK_END`. */
  const SeekSet: int := 0
  const SeekCur: int := 1
  const SeekEnd: int := 2

  datatype SeekMode = Start | Current | End

  /** `0xFFFFFFFF` returned as an `int`: -1. */
  const NoFileResult: int := -1

  /** The seek origin for a C `whence` value; anything unrecognised counts from the
      current position. */
  function SeekModeOf(dir: int): (r: SeekMode)
    ensures r == Start <==> dir == SeekSet
    ensures r == End <==> dir == SeekEnd
    ensures r == Current <==> dir != SeekSet && dir != SeekEnd
  {
    if dir == SeekSet then Start else if dir == SeekEnd then End else Current
  }

  /** `GameFileClass`: a name, the path it resolved to, whether that path exists, and
      the open file if any. */
  class GameFile {
    var filename: string
    var filePath: string
    var fileExists: bool
    var theFile: Option<FileHandle>

    constructor ()
      ensures filename == "" && filePath == "" && !fileExists && theFile == None
    {
      filename := "";
      filePath := "";
      fileExists := false;
      theFile := None;
    }

    constructor Named(name: string, env: Env)
      ensures filename == Bounded(name) && theFile == None
      ensures (filePath, fileExists) == Probe(Candidates(name, env), env.isFile)
    {
      filename := "";
      filePath := "";
      fileExists := false;
      theFile := None;
      new;
      var _ := SetName(name, env);
    }

    predicate IsOpen()
      reads this
    {
      theFile.Some?
    }

    /** `Is_Available`: whether the resolved path exists. */
    function IsAvailable(): (r: bool)
      reads this
      ensures r == fileExists
    {
      fileExists
    }

    /** `Set_Name`: closes an open file, keeps the bounded name and walks the directory
      chain, stopping at the first path that exists. */
    method SetName(name: string, env: Env) returns (r: string)
      modifies this
      ensures r == filename == Bounded(name) && theFile == None
      ensures (filePath, fileExists) == Probe(Candidates(name, env), env.isFile)
    {
      if IsOpen() {
        Close();
      }
      filename := Bounded(name);
      filePath, fileExists := ResolvePath(name, env);
      r := filename;
    }

    /** `Open(filename, rights)`: resolve the name, then open it if it exists. */
    method OpenNamed(name: string, rights: int, env: Env, openFile: string -> Option<FileHandle>)
      returns (ok: bool)
      modifies this
      ensures filename == Bounded(name)
      ensures (filePath, fileExists) == Probe(Candidates(name, env), env.isFile)
      ensures ok <==> fileExists && rights == ReadRights && openFile(filePath).Some?
      ensures theFile == if fileExists && rights == ReadRights then openFile(filePath) else None
    {
      var _ := SetName(name, env);
      if IsAvailable() {
        ok := Open(rights, openFile);
      } else {
        ok := false;
      }
    }

    /** `Open(rights)`: only reading is supported; the handle replaces any held one. */
    method Open(rights: int, openFile: string -> Option<FileHandle>) returns (ok: bool)
      modifies this
      ensures filename == old(filename) && filePath == old(filePath) && fileExists == old(fileExists)
      ensures rights != ReadRights ==> !ok && theFile == old(theFile)
      ensures rights == ReadRights ==> theFile == openFile(filePath) && (ok <==> theFile.Some?)
    {
      if rights != ReadRights {
        return false;
      }
      theFile := openFile(filePath);
      ok := theFile != None;
    }

    /** `Read`: what the open file reads, or 0 with no file. */
    method Read(len: int, read: (FileHandle, int) -> int) returns (n: int)
      ensures theFile.None? ==> n == 0
      ensures theFile.Some? ==> n == read(theFile.value, len)
    {
      if theFile.Some? {
        return read(theFile.value, len);
      }
      return 0;
    }

    /** `Seek`: the open file's seek from the mapped origin, or `0xFFFFFFFF` with no file. */
    method Seek(pos: int, dir: int, seek: (FileHandle, int, SeekMode) -> int) returns (n: int)
      ensures theFile.None? ==> n == NoFileResult
      ensures theFile.Some? ==> n == seek(theFile.value, pos, SeekModeOf(dir))
    {
      var mode := SeekModeOf(dir);
      if theFile.Some? {
        return seek(theFile.value, pos, mode);
      }
      return NoFileResult;
    }

    /** `Size`: the open file's size, or `0xFFFFFFFF` with no file. */
    method Size(size: FileHandle -> int) returns (n: int)
      ensures theFile.None? ==> n == NoFileResult
      ensures theFile.Some? ==> n == size(theFile.value)
    {
      if theFile.Some? {
        return size(theFile.value);
      }
      return NoFileResult;
    }

    /** `Write`: game files are read-only; nothing is written. */
    method Write(len: int) returns (n: int)
      ensures n == 0
    {
      return 0;
    }

    /** `Close`: releases the open file, if any; closing again changes nothing. */
    method Close()
      modifies this
      ensures theFile == None
      ensures filename == old(filename) && filePath == old(filePath) && fileExists == old(fileExists)
    {
      if theFile.Some? {
        theFile := None;
      }
    }
  }

  /** The probe over a chain of paths stops at position `k` when the paths before `k`
      are missing and `k` is the last path or exists. */
  lemma {:induction false} ProbeAt(paths: seq<string>, present: string -> bool, k: nat, p: string, found: bool)
    requires k < |paths| && p == paths[k] && found == present(p)
    requires forall j :: 0 <= j < k ==> !present(paths[j])
    requires k == |paths| - 1 || found
    ensures Probe(paths, present) == (p, found)
    decreases k
  {
    if k > 0 {
      assert !present(paths[0]);
      ProbeAt(paths[1..], present, k - 1, p, found);
    }
  }

  // ---------------------------------------------------------------------------
  // Texture reprioritisation

  const SuperiorArchive: string := "Textures.big"
  const InferiorArchive: string := "TexturesZH.big"

  /** The archive facts the pass consults: a file's size in an archive (absent when the
      archive has no information for it) and an archive's file name. */
  datatype Archives = Archives(sizeOf: (ArchiveId, string) -> Option<nat>, nameOf: ArchiveId -> string)

  /** The swap condition for the anchor `a0` and a later entry `a1` of the file at `path`. */
  predicate ShouldSwap(key: string, path: string, a0: ArchiveId, a1: ArchiveId, arcs: Archives)
  {
    IsImageFileType(GetFileType(key)) &&
    arcs.sizeOf(a0, path).Some? && arcs.sizeOf(a1, path).Some? &&
    arcs.sizeOf(a0, path).value < arcs.sizeOf(a1, path).value &&
    EndsWithNoCase(arcs.nameOf(a0), InferiorArchive) &&
    EndsWithNoCase(arcs.nameOf(a1), SuperiorArchive)
  }

  function Swapped(g: seq<ArchiveId>, j: nat): (r: seq<ArchiveId>)
    requires 0 < j < |g|
  {
    g[0 := g[j]][j := g[0]]
  }

  /** The pass over one file's entries from position `j` on, against the anchor at 0. */
  function PrioritizedFrom(g: seq<ArchiveId>, j: nat, key: string, path: string, arcs: Archives): seq<ArchiveId>
    requires 0 < j <= |g|
    decreases |g| - j
  {
    if j == |g| then g
    else if ShouldSwap(key, path, g[0], g[j], arcs) then PrioritizedFrom(Swapped(g, j), j + 1, key, path, arcs)
    else PrioritizedFrom(g, j + 1, key, path, arcs)
  }

  /** The entries of file `key` after the pass. */
  function Prioritized(g: seq<ArchiveId>, key: string, path: string, arcs: Archives): seq<ArchiveId>
  {
    if |g| <= 1 then g else PrioritizedFrom(g, 1, key, path, arcs)
  }

  /** Both archive names cannot hold at once, so an anchor taken from the superior
      archive is never swapped again. */
  lemma SuperiorIsNotInferior(n: string)
    requires EndsWithNoCase(n, SuperiorArchive)
    ensures !EndsWithNoCase(n, InferiorArchive)
  {
    var k := |n|;
    assert LowerChar(n[k - 12]) == ToLower(n[k - 12..])[0] == ToLower(SuperiorArchive)[0] == 't';
    if k >= 14 {
      assert ToLower(n[k - 14..])[2] == LowerChar(n[k - 12]);
      assert ToLower(InferiorArchive)[2] == 'x';
    }
  }

  /** Once no swap applies before position `j` and none can apply after, the pass ends
      unchanged. */
  lemma {:induction false} NoSwapFrom(g: seq<ArchiveId>, j: nat, key: string, path: string, arcs: Archives)
    requires 0 < j <= |g|
    requires forall i :: j <= i < |g| ==> !ShouldSwap(key, path, g[0], g[i], arcs)
    ensures PrioritizedFrom(g, j, key, path, arcs) == g
    decreases |g| - j
  {
    if j < |g| {
      NoSwapFrom(g, j + 1, key, path, arcs);
    }
  }

  /** The index of the first later entry that the anchor swaps with, if any. */
  function FirstSwap(g: seq<ArchiveId>, j: nat, key: string, path: string, arcs: Archives): (r: Option<nat>)
    requires 0 < j <= |g|
    ensures r.Some? ==> j <= r.value < |g| && ShouldSwap(key, path, g[0], g[r.value], arcs)
    ensures r.Some? ==> forall i :: j <= i < r.value ==> !ShouldSwap(key, path, g[0], g[i], arcs)
    ensures r.None? ==> forall i :: j <= i < |g| ==> !ShouldSwap(key, path, g[0], g[i], arcs)
    decreases |g| - j
  {
    if j == |g| then None
    else if ShouldSwap(key, path, g[0], g[j], arcs) then Some(j)
    else FirstSwap(g, j + 1, key, path, arcs)
  }

  /** The pass swaps at most once: the anchor trades places with the first later entry
      that is larger and comes from the superior archive while the anchor comes from the
      inferior one; otherwise nothing moves. */
  lemma {:induction false} PrioritizedIsOneSwap(g: seq<ArchiveId>, j: nat, key: string, path: string, arcs: Archives)
    requires 0 < j <= |g|
    ensures PrioritizedFrom(g, j, key, path, arcs) ==
      match FirstSwap(g, j, key, path, arcs)
      case None => g
      case Some(i) => Swapped(g, i)
    decreases |g| - j
  {
    if j < |g| {
      if ShouldSwap(key, path, g[0], g[j], arcs) {
        var s := Swapped(g, j);
        SuperiorIsNotInferior(arcs.nameOf(g[j]));
        NoSwapFrom(s, j + 1, key, path, arcs);
      } else {
        PrioritizedIsOneSwap(g, j + 1, key, path, arcs);
      }
    } else {
      NoSwapFrom(g, j, key, path, arcs);
    }
  }

  /** The pass only trades entries of one file: the multiset of archives is kept. */
  lemma PrioritizedPermutes(g: seq<ArchiveId>, key: string, path: string, arcs: Archives)
    ensures |Prioritized(g, key, path, arcs)| == |g|
    ensures multiset(Prioritized(g, key, path, arcs)) == multiset(g)
  {
    if |g| > 1 {
      PrioritizedIsOneSwap(g, 1, key, path, arcs);
      match FirstSwap(g, 1, key, path, arcs)
      case None =>
      case Some(i) =>
        assert multiset(g[0 := g[i]]) == multiset(g) - multiset{g[0]} + multiset{g[i]};
    }
  }

  /** Entries of a file that is not an image, or whose first entry does not come from
      the inferior archive, are left as they are. */
  lemma PrioritizedKeepsOthers(g: seq<ArchiveId>, key: string, path: string, arcs: Archives)
    requires !IsImageFileType(GetFileType(key)) || (|g| > 0 && !EndsWithNoCase(arcs.nameOf(g[0]), InferiorArchive))
    ensures Prioritized(g, key, path, arcs) == g
  {
    if |g| > 1 {
      NoSwapFrom(g, 1, key, path, arcs);
    }
  }

  /** The whole directory after the pass: each file's entries are prioritised on their
      own, with the directory's path prefixed to the name for the size lookups. */
  function ReprioritizedFiles(dir: DirNode, arcs: Archives): (r: map<string, seq<ArchiveId>>)
    ensures r.Keys == dir.files.Keys
  {
    map k | k in dir.files :: Prioritized(dir.files[k], k, dir.path + k, arcs)
  }

  /** The pass keeps every file name and each name's archives up to order. */
  lemma ReprioritizedKeepsEntries(dir: DirNode, arcs: Archives)
    ensures ReprioritizedFiles(dir, arcs).Keys == dir.files.Keys
    ensures forall k :: k in dir.files ==>
      multiset(ReprioritizedFiles(dir, arcs)[k]) == multiset(dir.files[k])
  {
    forall k | k in dir.files
      ensures multiset(ReprioritizedFiles(dir, arcs)[k]) == multiset(dir.files[k])
    {
      PrioritizedPermutes(dir.files[k], k, dir.path + k, arcs);
    }
  }

  /** The anchored swap loop over one file's entries, in place. */
  method PrioritizeGroup(a: array<ArchiveId>, key: string, path: string, arcs: Archives)
    modifies a
    ensures a[..] == Prioritized(old(a[..]), key, path, arcs)
  {
    if a.Length <= 1 {
      return;
    }
    var j := 1;
    while j < a.Length
      invariant 1 <= j <= a.Length
      invariant PrioritizedFrom(a[..], j, key, path, arcs) == Prioritized(old(a[..]), key, path, arcs)
    {
      if ShouldSwap(key, path, a[0], a[j], arcs) {
        ghost var before := a[..];
        a[0], a[j] := a[j], a[0];
        assert a[..] == Swapped(before, j);
      }
      j := j + 1;
    }
  }

  /** `reprioritizeTexturesBySize(dirInfo)`: the anchor restarts at each new file name,
      so every name's entries are processed on their own. */
  method ReprioritizeTexturesBySize(dir: DirNode, arcs: Archives) returns (r: DirNode)
    ensures r == dir.(files := ReprioritizedFiles(dir, arcs))
  {
    var files := dir.files;
    var todo := dir.files.Keys;
    while todo != {}
      invariant todo <= dir.files.Keys && files.Keys == dir.files.Keys
      invariant forall k :: k in todo ==> files[k] == dir.files[k]
      invariant forall k :: k in files && k !in todo ==> files[k] == ReprioritizedFiles(dir, arcs)[k]
      decreases todo
    {
      var k :| k in todo;
      var g := files[k];
      var a := new ArchiveId[|g|](i requires 0 <= i < |g| => g[i]);
      assert a[..] == g;
      PrioritizeGroup(a, k, dir.path + k, arcs);
      files := files[k := a[..]];
      todo := todo - {k};
    }
    r := dir.(files := files);
  }
}
