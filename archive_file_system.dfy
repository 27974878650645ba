/** The archive file system: the directory tree built from the listings of the loaded
    archives, the map of open archives by file name, and the queries that find the
    n-th archive holding a file. */
module ArchiveFileSystem {
  import opened Wrappers
  import opened AsciiText
  import opened ArchivePath
  import opened ArchiveTree
  import StlUtils

  /** An archive as `openArchiveFile` hands it back: its handle and its file listing. */
  datatype OpenedArchive = OpenedArchive(id: ArchiveId, listing: seq<string>)

  /** The tokenising loop of `loadIntoDirectoryTree`: the directory tokens of a listed
      file name and its last token. */
  method TokenizePath(filename: string) returns (dirs: seq<string>, last: string)
    ensures SplitPath(dirs, last) == Split(filename)
    ensures TokensOk(dirs)
  {
    var t := NextToken(ToLower(filename), "");
    dirs := [];
    while Descends(t)
      invariant SplitFrom(t, dirs) == Split(filename)
      invariant TokensOk(dirs)
      invariant t.ok ==> t.token != [] && NoSeparator(t.token)
      decreases Measure(t)
    {
      NextTokenShrinks(t);
      assert TokensOk(dirs + [t.token]) by {
        forall i | 0 <= i < |dirs| + 1 ensures (dirs + [t.token])[i] != [] && NoSeparator((dirs + [t.token])[i]) {
          if i < |dirs| { assert (dirs + [t.token])[i] == dirs[i]; }
        }
      }
      dirs := dirs + [t.token];
      t := NextToken(t.rest, t.token);
    }
    last := t.token;
  }

  class ArchiveFileSystem {
    /** `m_rootDirectory`. */
    var root: DirNode
    /** `m_archiveFileMap`: at most one archive per archive file name. */
    var archives: map<string, ArchiveId>

    ghost predicate Valid()
      reads this
    {
      WellFormed(root) && root.path == ""
    }

    constructor ()
      ensures Valid() && root == EmptyRoot && archives == map[]
    {
      root := EmptyRoot;
      archives := map[];
    }

    /** `loadIntoDirectoryTree`: every file name of the archive's listing inserted in
        listing order, after (or, when overwriting, before) the same-name entries of the
        archives loaded before it. */
    method LoadIntoDirectoryTree(archive: ArchiveId, listing: seq<string>, overwrite: bool)
      requires Valid()
      modifies this
      ensures Valid()
      ensures root == InsertAll(old(root), listing, archive, overwrite)
      ensures archives == old(archives)
    {
      var i := 0;
      while i < |listing|
        invariant 0 <= i <= |listing|
        invariant InsertAll(old(root), listing, archive, overwrite) == InsertAll(root, listing[i..], archive, overwrite)
        invariant WellFormed(root) && root.path == ""
        invariant archives == old(archives)
      {
        var dirs, last := TokenizePath(listing[i]);
        InsertAtWellFormed(root, "", dirs, last, archive, overwrite);
        assert listing[i..][1..] == listing[i + 1..];
        root := InsertAt(root, "", dirs, last, archive, overwrite);
        i := i + 1;
      }
    }

    /** `getArchivedDirectoryInfo`: walk the tokens of the lower-cased path from the root
        and stop with the default result at the first missing directory. */
    method GetArchivedDirectoryInfo(directory: string) returns (r: DirResult)
      ensures r == Resolve(root, directory)
    {
      var node := root;
      ghost var taken: seq<string> := [];
      var t := NextToken(ToLower(directory), "");
      while Descends(t)
        invariant Descend(root, taken) == Some(node)
        invariant SplitFrom(t, taken) == Split(directory)
        decreases Measure(t)
      {
        if t.token in node.dirs {
          DescendAppend(root, taken, [t.token]);
          NextTokenShrinks(t);
          taken := taken + [t.token];
          node := node.dirs[t.token];
          t := NextToken(t.rest, t.token);
        } else {
          var d := Split(directory).dirs;
          SplitFromExtends(t, taken);
          assert d == taken + d[|taken|..];
          DescendAppend(root, taken, d[|taken|..]);
          return NoDirectory;
        }
      }
      return DirResult(Some(node), t.token);
    }

    /** `loadMods`: a configured mod archive is loaded with overwrite and registered
        under its name; then every `*.big` archive of a configured mod directory is
        loaded with overwrite (`loadBigFilesFromDirectory`, given here as the archives
        it opens, by name) and registered the same way. */
    method LoadMods(modBig: string, openArchiveFile: string -> Option<OpenedArchive>,
                    modDir: string, modDirArchives: seq<(string, OpenedArchive)>)
      requires Valid()
      modifies this
      ensures Valid()
      ensures var big := if modBig != "" then openArchiveFile(modBig) else None;
              var root1 := if big.Some? then InsertAll(old(root), big.value.listing, big.value.id, true) else old(root);
              var map1 := if big.Some? then old(archives)[modBig := big.value.id] else old(archives);
              && root == (if modDir != "" then LoadEach(root1, modDirArchives) else root1)
              && archives == (if modDir != "" then RegisterEach(map1, modDirArchives) else map1)
    {
      if modBig != "" {
        var archive := openArchiveFile(modBig);
        if archive.Some? {
          LoadIntoDirectoryTree(archive.value.id, archive.value.listing, true);
          archives := archives[modBig := archive.value.id];
        }
      }
      if modDir != "" {
        ghost var start := root;
        ghost var registered := archives;
        var i := 0;
        while i < |modDirArchives|
          invariant 0 <= i <= |modDirArchives|
          invariant Valid()
          invariant LoadEach(start, modDirArchives) == LoadEach(root, modDirArchives[i..])
          invariant RegisterEach(registered, modDirArchives) == RegisterEach(archives, modDirArchives[i..])
        {
          var (name, archive) := modDirArchives[i];
          LoadIntoDirectoryTree(archive.id, archive.listing, true);
          archives := archives[name := archive.id];
          assert modDirArchives[i..][1..] == modDirArchives[i + 1..];
          i := i + 1;
        }
      }
    }
  }

  /** Each opened archive registered under its name in turn; a later one replaces an
      earlier one of the same name. */
  function RegisterEach(archives: map<string, ArchiveId>, loaded: seq<(string, OpenedArchive)>): map<string, ArchiveId>
    decreases |loaded|
  {
    if loaded == [] then archives
    else RegisterEach(archives[loaded[0].0 := loaded[0].1.id], loaded[1..])
  }

  /** Each archive's listing loaded in turn with overwrite. */
  function LoadEach(root: DirNode, archives: seq<(string, OpenedArchive)>): DirNode
    decreases |archives|
  {
    if archives == [] then root
    else LoadEach(InsertAll(root, archives[0].1.listing, archives[0].1.id, true), archives[1..])
  }

  /** `openFile`: the archive that is asked to open the file, or None (NULL) when no
      archive holds that instance. */
  function OpenFile(root: DirNode, filename: string, instance: nat): (r: Option<ArchiveId>)
    ensures r.Some? <==> DoesFileExist(root, filename, instance)
    ensures r.Some? ==> r.value == Instances(root, filename)[instance]
  {
    GetArchiveFile(root, filename, instance)
  }

  /** `getFileInfo`: FALSE (None) for a missing record or an empty file name before any
      lookup, and when no archive holds the instance; otherwise the holding archive's
      answer (`archiveFileInfo`, the archive's own lookup, which is not modelled). */
  function GetFileInfo(root: DirNode, filename: string, hasRecord: bool, instance: nat,
                       archiveFileInfo: (ArchiveId, string) -> Option<FileInfo>): (r: Option<FileInfo>)
    ensures !hasRecord || filename == "" ==> r == None
    ensures r.Some? ==> instance < |Instances(root, filename)|
                        && r == archiveFileInfo(Instances(root, filename)[instance], filename)
    ensures hasRecord && filename != "" && instance < |Instances(root, filename)| ==>
              r == archiveFileInfo(Instances(root, filename)[instance], filename)
  {
    if !hasRecord then None
    else if |filename| <= 0 then None
    else match GetArchiveFile(root, filename, instance)
      case None => None
      case Some(a) => archiveFileInfo(a, filename)
  }
}
