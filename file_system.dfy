/** The file system facade: a loose-file layer (files on disk) in front of the archive
    layer, addressed by file name and instance, with a cache of what is known about the
    existence of each name's instances.

    Instance 0 of a name is the loose file when one exists; every other instance is an
    archived copy, numbered from 0 in the archive layer after the loose file has taken
    its slot. The loose layer is the set of names it holds; the archive layer is the
    directory tree of the archive file system. */
module FileSystem {
  import opened Wrappers
  import opened AsciiText
  import ArchiveTree
  import ArchivePath
  import ArchiveFileSystem

  /** `~FileInstance(0)`: the bound that means "no instance known not to exist". */
  const NoBound: nat := 0xFFFF_FFFF

  /** A `FileInstance`: an unsigned 32-bit instance number. */
  type Instance = k: nat | k <= NoBound

  /** `FileExistData`: instances up to `instanceExists` exist; from
      `instanceDoesNotExist` on they do not. */
  datatype FileExistData = FileExistData(instanceExists: Instance, instanceDoesNotExist: Instance)

  /** A default-constructed `FileExistData`: instance 0 exists, no upper bound known. */
  const DefaultExistData := FileExistData(0, NoBound)

  /** `m_fileExist`. */
  type Cache = map<string, FileExistData>

  /** `++` on a `FileInstance`: wraps to 0 past the largest value. */
  function Inc(a: Instance): Instance { if a < NoBound then a + 1 else 0 }

  function Max(a: Instance, b: Instance): Instance { if a < b then b else a }
  function Min(a: Instance, b: Instance): Instance { if a < b then a else b }

  /** The entry for `name`, created with the defaults when absent (`m_fileExist[name]`). */
  function EntryOf(cache: Cache, name: string): FileExistData
  {
    if name in cache then cache[name] else DefaultExistData
  }

  // ---------------------------------------------------------------------------
  // What exists

  /** How many instances of `name` exist: the loose file, then the archived copies. */
  function Count(local: set<string>, root: ArchiveTree.DirNode, name: string): nat
  {
    (if name in local then 1 else 0) + |ArchiveTree.Instances(root, name)|
  }

  /** The loose-then-archive rule: instance 0 is the loose file when it exists, which
      then shifts every archived instance up by one. */
  predicate Exists(local: set<string>, root: ArchiveTree.DirNode, name: string, instance: nat)
  {
    if name in local then instance == 0 || ArchiveTree.DoesFileExist(root, name, instance - 1)
    else ArchiveTree.DoesFileExist(root, name, instance)
  }

  /** Instances of a name are numbered without gaps: instance k exists iff k is below
      the number of copies. */
  lemma ExistsBelowCount(local: set<string>, root: ArchiveTree.DirNode, name: string, instance: nat)
    ensures Exists(local, root, name, instance) <==> instance < Count(local, root, name)
  {
  }

  // ---------------------------------------------------------------------------
  // The existence cache

  /** The answer a cache entry gives without probing: the does-not-exist bound is tested
      before the exists bound. */
  function CachedAnswer(e: FileExistData, instance: Instance): Option<bool>
  {
    if instance >= e.instanceDoesNotExist then Some(false)
    else if instance <= e.instanceExists then Some(true)
    else None
  }

  /** An entry is sound when every answer it gives is the true one for `count` copies. */
  predicate Sound(e: FileExistData, count: nat)
  {
    forall k: Instance :: CachedAnswer(e, k).Some? ==> CachedAnswer(e, k).value == (k < count)
  }

  /** The two bounds are sound exactly when no instance at or past `instanceDoesNotExist`
      exists and, below it, every instance up to `instanceExists` does (all of them,
      when the exists bound reaches past the other). */
  lemma SoundBounds(e: FileExistData, count: nat)
    requires count <= NoBound
    ensures Sound(e, count) <==> count <= e.instanceDoesNotExist
                                 && (e.instanceExists < e.instanceDoesNotExist ==> e.instanceExists < count)
                                 && (e.instanceDoesNotExist <= e.instanceExists ==> e.instanceDoesNotExist == count)
  {
    if Sound(e, count) {
      var k0: Instance := e.instanceDoesNotExist;
      assert CachedAnswer(e, k0) == Some(false);
      if e.instanceExists < e.instanceDoesNotExist {
        var k1: Instance := e.instanceExists;
        assert CachedAnswer(e, k1) == Some(true);
      } else if 0 < e.instanceDoesNotExist {
        var k2: Instance := e.instanceDoesNotExist - 1;
        assert CachedAnswer(e, k2) == Some(true);
      }
    } else {
      var k: Instance :| CachedAnswer(e, k).Some? && CachedAnswer(e, k).value != (k < count);
    }
  }

  predicate CacheSound(cache: Cache, local: set<string>, root: ArchiveTree.DirNode)
  {
    forall name :: name in cache ==> Sound(cache[name], Count(local, root, name))
  }

  /** The outcome of one existence query: the answer and the cache afterwards. */
  datatype Probe = Probe(found: bool, cache: Cache)

  /** `FileSystem::doesFileExist` as written: on a probe it records the instance AFTER the
      loose file took its slot, and a miss always creates the entry. */
  function DoesFileExistAsWritten(cache: Cache, local: set<string>, root: ArchiveTree.DirNode,
                                  name: string, instance: Instance): (p: Probe)
    ensures name in cache && CachedAnswer(cache[name], instance).Some? ==> p == Probe(CachedAnswer(cache[name], instance).value, cache)
    ensures p.cache.Keys == cache.Keys + (if p.cache == cache then {} else {name})
  {
    if name in cache && CachedAnswer(cache[name], instance).Some? then Probe(CachedAnswer(cache[name], instance).value, cache)
    else if name in local && instance == 0 then Probe(true, cache[name := EntryOf(cache, name)])
    else
      var k: Instance := if name in local then instance - 1 else instance;
      var e := EntryOf(cache, name);
      if ArchiveTree.DoesFileExist(root, name, k) then Probe(true, cache[name := e.(instanceExists := Max(e.instanceExists, k))])
      else Probe(false, cache[name := e.(instanceDoesNotExist := Min(e.instanceDoesNotExist, k))])
  }

  /** `FileSystem::doesFileExist` with the cache kept sound: the bounds record the
      instance as the caller numbered it, and a miss on a name without an entry is
      recorded only when it is about instance 0. */
  function DoesFileExistChecked(cache: Cache, local: set<string>, root: ArchiveTree.DirNode,
                                name: string, instance: Instance): (p: Probe)
    requires CacheSound(cache, local, root) && Count(local, root, name) < NoBound
    ensures p.found == Exists(local, root, name, instance)
    ensures CacheSound(p.cache, local, root)
    ensures p.cache.Keys <= cache.Keys + {name}
  {
    ExistsBelowCount(local, root, name, instance);
    var count := Count(local, root, name);
    if name in cache && CachedAnswer(cache[name], instance).Some? then
      Probe(CachedAnswer(cache[name], instance).value, cache)
    else if name in local && instance == 0 then
      SoundBounds(DefaultExistData, count);
      Probe(true, cache[name := EntryOf(cache, name)])
    else
      var k: Instance := if name in local then instance - 1 else instance;
      var e := EntryOf(cache, name);
      SoundBounds(e, count);
      if ArchiveTree.DoesFileExist(root, name, k) then
        var e' := e.(instanceExists := Max(e.instanceExists, instance));
        SoundBounds(e', count);
        Probe(true, cache[name := e'])
      else if name in cache || instance == 0 then
        var e' := e.(instanceDoesNotExist := Min(e.instanceDoesNotExist, instance));
        SoundBounds(e', count);
        Probe(false, cache[name := e'])
      else
        Probe(false, cache)
  }

  /** The bump `openFile` applies when a loose file is opened with CREATE, as written:
      whether or not the file existed before. */
  function CreateBumpAsWritten(cache: Cache, name: string): (c: Cache)
    ensures c.Keys == cache.Keys + {name}
  {
    if name in cache then
      var e := cache[name];
      cache[name := FileExistData(Inc(e.instanceExists),
                                  if e.instanceDoesNotExist != NoBound then Inc(e.instanceDoesNotExist) else NoBound)]
    else cache[name := DefaultExistData]
  }

  /** The CREATE bump applied only when the loose file did not exist before, so that it
      matches the new loose instance shifting every archived one up. */
  function CreateBumpChecked(cache: Cache, local: set<string>, root: ArchiveTree.DirNode, name: string): (c: Cache)
    requires CacheSound(cache, local, root) && Count(local, root, name) < NoBound
    ensures CacheSound(c, local + {name}, root)
  {
    var local' := local + {name};
    assert forall n :: n != name ==> Count(local', root, n) == Count(local, root, n);
    if name in local then cache
    else if name in cache then
      var e := cache[name];
      SoundBounds(e, Count(local, root, name));
      var e' := FileExistData(Inc(e.instanceExists),
                              if e.instanceDoesNotExist != NoBound then Inc(e.instanceDoesNotExist) else NoBound);
      SoundBounds(e', Count(local', root, name));
      cache[name := e']
    else
      SoundBounds(DefaultExistData, Count(local', root, name));
      cache[name := DefaultExistData]
  }

  // ---------------------------------------------------------------------------
  // Counterexamples to the cache as written

  /** A one-archive tree holding `name` once. */
  lemma OneArchivedCopy(name: string, a: ArchiveTree.ArchiveId)
    ensures ArchiveTree.Instances(ArchiveTree.Insert(ArchiveTree.EmptyRoot, name, a, false), name) == [a]
  {
    ArchiveTree.InsertInstances(ArchiveTree.EmptyRoot, name, a, false, name);
    ArchiveTree.EmptyHasNoInstances(ArchiveTree.EmptyRoot, ArchivePathDirs(name), ArchivePathLast(name));
  }

  function ArchivePathDirs(name: string): seq<string> { ArchivePath.Split(name).dirs }
  function ArchivePathLast(name: string): string { ArchivePath.Split(name).last }

  /** With a loose file and one archived copy there are two instances; asking for
      instance 2 records "instance 1 does not exist", and the next query for instance 1
      answers FALSE from the cache. */
  lemma LooseFileShiftsMissBound(name: string)
    ensures var local := {name};
            var root := ArchiveTree.Insert(ArchiveTree.EmptyRoot, name, 0, false);
            var first := DoesFileExistAsWritten(map[], local, root, name, 2);
            var second := DoesFileExistAsWritten(first.cache, local, root, name, 1);
            Exists(local, root, name, 1) && !second.found
  {
    OneArchivedCopy(name, 0);
  }

  /** For a name that exists nowhere, a miss on instance 3 creates an entry whose default
      exists bound still claims instance 0, so the next query for instance 0 answers TRUE. */
  lemma MissCreatesExistingEntry(name: string)
    ensures var first := DoesFileExistAsWritten(map[], {}, ArchiveTree.EmptyRoot, name, 3);
            var second := DoesFileExistAsWritten(first.cache, {}, ArchiveTree.EmptyRoot, name, 0);
            !Exists({}, ArchiveTree.EmptyRoot, name, 0) && second.found
  {
    ArchiveTree.EmptyHasNoInstances(ArchiveTree.EmptyRoot, ArchivePathDirs(name), ArchivePathLast(name));
  }

  /** Opening an existing loose file with CREATE adds no instance, yet the bump makes
      the cache claim instance 1 of a name that has only its loose file. */
  lemma RecreateClaimsMissingInstance(name: string)
    ensures var first := DoesFileExistAsWritten(map[], {name}, ArchiveTree.EmptyRoot, name, 0);
            var bumped := CreateBumpAsWritten(first.cache, name);
            var second := DoesFileExistAsWritten(bumped, {name}, ArchiveTree.EmptyRoot, name, 1);
            !Exists({name}, ArchiveTree.EmptyRoot, name, 1) && second.found
  {
    ArchiveTree.EmptyHasNoInstances(ArchiveTree.EmptyRoot, ArchivePathDirs(name), ArchivePathLast(name));
  }

  // ---------------------------------------------------------------------------
  // The facade

  /** What `openFile` hands back: the loose file, a file opened by an archive, or NULL. */
  datatype OpenedFile = LooseFile | ArchivedFile(archive: ArchiveTree.ArchiveId) | NoFile

  class FileSystem {
    /** The names the loose-file layer holds. */
    var local: set<string>
    /** The directory tree of the archive layer. */
    var archiveRoot: ArchiveTree.DirNode
    /** `m_fileExist`. */
    var fileExist: Cache

    ghost predicate Valid()
      reads this
    {
      CacheSound(fileExist, local, archiveRoot)
    }

    constructor (local: set<string>, archiveRoot: ArchiveTree.DirNode)
      ensures Valid() && this.local == local && this.archiveRoot == archiveRoot && fileExist == map[]
    {
      this.local := local;
      this.archiveRoot := archiveRoot;
      fileExist := map[];
    }

    /** `doesFileExist`, with the corrected cache update (`DoesFileExistChecked`): answer
        from the cache when an entry decides it, else probe the loose layer and then the
        archive layer, recording the instance the caller asked about rather than the one
        moved down past a loose file (`DoesFileExistAsWritten` records the latter). */
    method DoesFileExist(filename: string, instance: Instance) returns (found: bool)
      requires Valid() && Count(local, archiveRoot, filename) < NoBound
      modifies this`fileExist
      ensures Valid()
      ensures found == Exists(local, archiveRoot, filename, instance)
      ensures Probe(found, fileExist) == DoesFileExistChecked(old(fileExist), local, archiveRoot, filename, instance)
    {
      ghost var expected := DoesFileExistChecked(fileExist, local, archiveRoot, filename, instance);
      if filename in fileExist {
        var e := fileExist[filename];
        if instance >= e.instanceDoesNotExist {
          assert expected == Probe(false, fileExist);
          return false;
        }
        if instance <= e.instanceExists {
          assert expected == Probe(true, fileExist);
          return true;
        }
      }
      var k := instance;
      if filename in local {
        if instance == 0 {
          fileExist := fileExist[filename := EntryOf(fileExist, filename)];
          assert expected == Probe(true, fileExist);
          return true;
        }
        k := instance - 1;
      }
      var e := EntryOf(fileExist, filename);
      if ArchiveTree.DoesFileExist(archiveRoot, filename, k) {
        fileExist := fileExist[filename := e.(instanceExists := Max(e.instanceExists, instance))];
        assert expected == Probe(true, fileExist);
        return true;
      }
      if filename in fileExist || instance == 0 {
        fileExist := fileExist[filename := e.(instanceDoesNotExist := Min(e.instanceDoesNotExist, instance))];
      }
      assert expected == Probe(false, fileExist);
      return false;
    }

    /** `openFile`, with the corrected cache update on creation (`CreateBumpChecked`, where
        the code as written is `CreateBumpAsWritten`): instance 0 goes to the loose layer
        first (which opens an existing file, or creates one when asked to); the archive
        layer is asked only when no file was produced, with the instance moved down past
        an existing loose file. */
    method OpenFile(filename: string, create: bool, instance: Instance, hasLocal: bool, hasArchive: bool)
      returns (f: OpenedFile)
      requires Valid() && Count(local, archiveRoot, filename) < NoBound
      modifies this`local, this`fileExist
      ensures Valid()
      ensures var loose := hasLocal && instance == 0 && (filename in old(local) || create);
              var k := if hasLocal && instance != 0 && filename in old(local) then instance - 1 else instance;
              && f == (if loose then LooseFile
                       else if hasArchive && ArchiveFileSystem.OpenFile(archiveRoot, filename, k).Some?
                       then ArchivedFile(ArchiveFileSystem.OpenFile(archiveRoot, filename, k).value)
                       else NoFile)
              && local == (if loose && create then old(local) + {filename} else old(local))
              && fileExist == (if loose && create then CreateBumpChecked(old(fileExist), old(local), archiveRoot, filename)
                               else old(fileExist))
      ensures hasLocal && hasArchive && !create ==> (f != NoFile <==> Exists(local, archiveRoot, filename, instance))
    {
      f := NoFile;
      var k := instance;
      if hasLocal {
        if instance != 0 {
          if filename in local {
            k := k - 1;
          }
        } else if filename in local || create {
          f := LooseFile;
          if create {
            fileExist := CreateBumpChecked(fileExist, local, archiveRoot, filename);
            local := local + {filename};
          }
        }
      }
      if hasArchive && f == NoFile {
        match ArchiveFileSystem.OpenFile(archiveRoot, filename, k)
        case Some(a) => f := ArchivedFile(a);
        case None => f := NoFile;
      }
    }
  }

  /** `getFileInfo`: FALSE (None) without a record to fill; otherwise the loose file's
      information for instance 0 when it exists, else the archive layer's answer for the
      instance moved down past an existing loose file. */
  function GetFileInfo(localFileInfo: string -> Option<ArchiveTree.FileInfo>, root: ArchiveTree.DirNode,
                       archiveFileInfo: (ArchiveTree.ArchiveId, string) -> Option<ArchiveTree.FileInfo>,
                       filename: string, hasRecord: bool, instance: Instance): (r: Option<ArchiveTree.FileInfo>)
    ensures !hasRecord ==> r == None
    ensures hasRecord && localFileInfo(filename).Some? && instance == 0 ==> r == localFileInfo(filename)
    ensures hasRecord && !(localFileInfo(filename).Some? && instance == 0) ==>
              var k := if localFileInfo(filename).Some? then instance - 1 else instance;
              r == ArchiveFileSystem.GetFileInfo(root, filename, true, k, archiveFileInfo)
  {
    if !hasRecord then None
    else
      var k := instance;
      if localFileInfo(filename).Some? && k == 0 then localFileInfo(filename)
      else
        var k' := if localFileInfo(filename).Some? then k - 1 else k;
        ArchiveFileSystem.GetFileInfo(root, filename, true, k', archiveFileInfo)
  }

  /** `getFileInfo` finds a record exactly where `doesFileExist` finds a file, once the
      loose layer reports information for the loose files and only for them, and every
      archive holding a copy of the name reports information for it. */
  lemma GetFileInfoFindsExisting(local: set<string>, localFileInfo: string -> Option<ArchiveTree.FileInfo>,
                                 root: ArchiveTree.DirNode,
                                 archiveFileInfo: (ArchiveTree.ArchiveId, string) -> Option<ArchiveTree.FileInfo>,
                                 filename: string, instance: Instance)
    requires filename != ""
    requires localFileInfo(filename).Some? <==> filename in local
    requires forall a :: a in ArchiveTree.Instances(root, filename) ==> archiveFileInfo(a, filename).Some?
    ensures GetFileInfo(localFileInfo, root, archiveFileInfo, filename, true, instance).Some?
            <==> Exists(local, root, filename, instance)
  {
    var ins := ArchiveTree.Instances(root, filename);
    if !(filename in local && instance == 0) {
      var k := if filename in local then instance - 1 else instance;
      if k < |ins| {
        assert ins[k] in ins;
      }
    }
  }

  /** The test path `t` lies below the non-empty base path `b`: it starts with `b`
      (ignoring case on Windows) and, unless `b` already ends with the separator, the
      separator comes next. */
  predicate Below(t: string, b: string, sep: char, windows: bool)
    requires b != ""
  {
    |b| < |t| + (if b[|b| - 1] == sep then 1 else 0)
    && (if windows then EqualsNoCase(t[..|b|], b) else t[..|b|] == b)
    && (b[|b| - 1] != sep ==> t[|b|] == sep)
  }

  /** The prefix test on the base path with the separator appended is `Below`. */
  lemma BaseWithSeparator(t: string, b: string, sep: char, windows: bool)
    requires b != "" && (sep == '\\' || sep == '/')
    ensures var base := if EndsWith(b, [sep]) then b else b + [sep];
            (if windows then StartsWithNoCase(t, base) else StartsWith(t, base)) <==> Below(t, b, sep, windows)
  {
    if !EndsWith(b, [sep]) {
      var base := b + [sep];
      assert base[..|b|] == b && base[|b|] == sep;
      if |base| <= |t| {
        assert t[..|base|] == t[..|b|] + [t[|b|]];
        assert t[..|base|][..|b|] == t[..|b|];
        assert ToLower(t[..|base|]) == ToLower(t[..|b|]) + [LowerChar(t[|b|])];
        assert ToLower(base) == ToLower(b) + [LowerChar(sep)];
      }
    } else {
      assert b[|b| - 1] == sep by { assert b[|b| - 1..] == [sep]; }
    }
  }

  /** `isPathInDirectory`: both normalised paths non-empty, and the test path starts with
      the base path followed by the platform separator (ignoring case on Windows). */
  function IsPathInDirectory(testPath: string, basePath: string, normalize: string -> string, windows: bool): (r: bool)
    ensures var t, b := normalize(testPath), normalize(basePath);
            r <==> t != "" && b != "" && Below(t, b, if windows then '\\' else '/', windows)
  {
    var t := normalize(testPath);
    var b := normalize(basePath);
    if b == "" then false
    else if t == "" then false
    else
      var sep := if windows then '\\' else '/';
      var base := if EndsWith(b, [sep]) then b else b + [sep];
      BaseWithSeparator(t, b, sep, windows);
      if windows then StartsWithNoCase(t, base) else StartsWith(t, base)
  }

  /** A directory is never inside itself, and a sibling whose name merely extends the
      directory's name is not inside it either: the separator appended to the base makes
      the test stop at a whole path component. */
  lemma NotInsideSelfOrSibling(dir: string, sibling: string, normalize: string -> string, windows: bool)
    requires var b := normalize(dir);
             var sep := if windows then '\\' else '/';
             b != "" && b[|b| - 1] != sep
    requires var b, s := normalize(dir), normalize(sibling);
             var sep := if windows then '\\' else '/';
             |b| < |s| && s[..|b|] == b && s[|b|] != sep
    ensures !IsPathInDirectory(dir, dir, normalize, windows)
    ensures !IsPathInDirectory(sibling, dir, normalize, windows)
  {
  }
}
