/** The archive directory tree: `ArchivedDirectoryInfo` nodes, each with its full
    path, its own name, its child directories and a multimap from file name to the
    archives that hold a file of that name. The C++ maps hold their child nodes by
    value, so the tree is a value here and an update builds the new tree. */
module ArchiveTree {
  import opened Wrappers
  import opened AsciiText
  import opened ArchivePath
  import StlUtils

  /** An `ArchiveFile*`, told apart by identity. */
  type ArchiveId = nat

  /** `ArchivedDirectoryInfo`. */
  datatype DirNode = DirNode(path: string, name: string, dirs: map<string, DirNode>, files: map<string, seq<ArchiveId>>)

  /** `ArchivedFileInfo`: where one archived file sits inside its archive. */
  datatype ArchivedFileInfo = ArchivedFileInfo(filename: string, archiveFilename: string, offset: nat, size: nat)

  /** The `FileInfo` record the file systems fill in. */
  datatype FileInfo = FileInfo(sizeHigh: int, sizeLow: int, timestampHigh: int, timestampLow: int)

  /** The default `ArchivedFileInfo`: empty names at offset 0 with size 0. */
  function NewArchivedFileInfo(): (r: ArchivedFileInfo)
    ensures r.offset == 0 && r.size == 0 && r.filename == "" && r.archiveFilename == ""
  {
    ArchivedFileInfo("", "", 0, 0)
  }

  /** The root directory of an empty tree. */
  const EmptyRoot := DirNode("", "", map[], map[])

  /** Every child is stored under its own name and its path is its parent's path
      followed by its name and `\`. */
  predicate WellFormed(n: DirNode)
    decreases n
  {
    forall k :: k in n.dirs ==> n.dirs[k].name == k && n.dirs[k].path == n.path + k + "\\" && WellFormed(n.dirs[k])
  }

  /** A file entry added to the list of same-name entries: after them normally, before
      them when overwriting. */
  function AddEntry(entries: seq<ArchiveId>, a: ArchiveId, overwrite: bool): (r: seq<ArchiveId>)
    ensures |r| == |entries| + 1
    ensures overwrite ==> r[0] == a && r[1..] == entries
    ensures !overwrite ==> r[..|entries|] == entries && r[|entries|] == a
  {
    if overwrite then [a] + entries else entries + [a]
  }

  /** One listed file inserted below `n`: walk the directory tokens, creating each missing
      directory with the path built so far (`prefix`), and add the entry under `last`. */
  function InsertAt(n: DirNode, prefix: string, dirs: seq<string>, last: string, a: ArchiveId, overwrite: bool): DirNode
    decreases |dirs|
  {
    if dirs == [] then
      n.(files := n.files[last := AddEntry(StlUtils.Entries(n.files, last), a, overwrite)])
    else
      var path := prefix + dirs[0] + "\\";
      var child := if dirs[0] in n.dirs then n.dirs[dirs[0]] else DirNode(path, dirs[0], map[], map[]);
      n.(dirs := n.dirs[dirs[0] := InsertAt(child, path, dirs[1..], last, a, overwrite)])
  }

  /** One listed file name of an archive inserted into the tree rooted at `root`. */
  function Insert(root: DirNode, filename: string, a: ArchiveId, overwrite: bool): DirNode
  {
    var sp := Split(filename);
    InsertAt(root, "", sp.dirs, sp.last, a, overwrite)
  }

  /** Every file name of an archive's listing inserted in order. */
  function InsertAll(root: DirNode, listing: seq<string>, a: ArchiveId, overwrite: bool): DirNode
    decreases |listing|
  {
    if listing == [] then root
    else InsertAll(Insert(root, listing[0], a, overwrite), listing[1..], a, overwrite)
  }

  /** The node reached by following `dirs` from `n`, if every component exists. */
  function Descend(n: DirNode, dirs: seq<string>): Option<DirNode>
    decreases |dirs|
  {
    if dirs == [] then Some(n)
    else if dirs[0] in n.dirs then Descend(n.dirs[dirs[0]], dirs[1..])
    else None
  }

  /** `ArchivedDirectoryInfoResult`: the directory found (None for NULL) and the last token. */
  datatype DirResult = DirResult(dirInfo: Option<DirNode>, lastToken: string)
  {
    /** `ArchivedDirectoryInfoResult::valid`. */
    predicate Valid() { dirInfo.Some? }
  }

  /** The default `ArchivedDirectoryInfoResult`. */
  const NoDirectory := DirResult(None, "")

  /** `getArchivedDirectoryInfo`: the directory a path leads to and its last token; a
      missing directory component gives the default, invalid result. */
  function Resolve(root: DirNode, path: string): (r: DirResult)
    ensures !r.Valid() ==> r == NoDirectory
    ensures r.Valid() ==> r.lastToken == Split(path).last
  {
    var sp := Split(path);
    match Descend(root, sp.dirs)
    case None => NoDirectory
    case Some(n) => DirResult(Some(n), sp.last)
  }

  /** The archives that hold the file `dirs`/`last`, in lookup order. */
  function InstancesAt(n: DirNode, dirs: seq<string>, last: string): seq<ArchiveId>
  {
    match Descend(n, dirs)
    case None => []
    case Some(d) => StlUtils.Entries(d.files, last)
  }

  /** The archives that hold the file at `path`, in lookup order: instance k is element k. */
  function Instances(root: DirNode, path: string): seq<ArchiveId>
  {
    InstancesAt(root, Split(path).dirs, Split(path).last)
  }

  /** `doesFileExist(filename, instance)`: the directory resolves and `get_range` from
      the instance is not empty. */
  function DoesFileExist(root: DirNode, filename: string, instance: nat): (b: bool)
    ensures b <==> instance < |Instances(root, filename)|
  {
    var r := Resolve(root, filename);
    if !r.Valid() then false
    else
      StlUtils.GetRangeSelectsInstance(r.dirInfo.value.files, r.lastToken, instance);
      StlUtils.GetRange(r.dirInfo.value.files, r.lastToken, instance).Valid()
  }

  /** `getArchiveFile(filename, instance)`: the archive at the start of the range. */
  function GetArchiveFile(root: DirNode, filename: string, instance: nat): (r: Option<ArchiveId>)
    ensures r.Some? <==> instance < |Instances(root, filename)|
    ensures r.Some? ==> r.value == Instances(root, filename)[instance]
  {
    var d := Resolve(root, filename);
    if !d.Valid() then None
    else
      var entries := StlUtils.Entries(d.dirInfo.value.files, d.lastToken);
      var range := StlUtils.GetRange(d.dirInfo.value.files, d.lastToken, instance);
      StlUtils.GetRangeSelectsInstance(d.dirInfo.value.files, d.lastToken, instance);
      if !range.Valid() then None
      else
        assert entries[range.Get()..][0] == entries[instance..][0];
        Some(entries[range.Get()])
  }

  // ---------------------------------------------------------------------------
  // Properties of insertion and lookup

  /** Descending along `a + b` is descending along `a`, then along `b`. */
  lemma {:induction false} DescendAppend(n: DirNode, a: seq<string>, b: seq<string>)
    ensures Descend(n, a + b) == match Descend(n, a) case None => None case Some(m) => Descend(m, b)
    decreases |a|
  {
    if a == [] {
      assert a + b == b;
    } else {
      assert (a + b)[0] == a[0] && (a + b)[1..] == a[1..] + b;
      if a[0] in n.dirs { DescendAppend(n.dirs[a[0]], a[1..], b); }
    }
  }

  /** Inserting one entry changes only the entries of that exact directory path and
      name: there the new archive goes after the old entries (or in front of them when
      overwriting); every other directory path and name keeps its entries. */
  lemma {:induction false} InsertAtInstances(n: DirNode, prefix: string, dirs: seq<string>, last: string,
                                             a: ArchiveId, overwrite: bool, dirs2: seq<string>, last2: string)
    ensures InstancesAt(InsertAt(n, prefix, dirs, last, a, overwrite), dirs2, last2)
         == if dirs2 == dirs && last2 == last then AddEntry(InstancesAt(n, dirs, last), a, overwrite)
            else InstancesAt(n, dirs2, last2)
    decreases |dirs|
  {
    var n' := InsertAt(n, prefix, dirs, last, a, overwrite);
    if dirs == [] {
      if dirs2 != [] {
        assert Descend(n', dirs2) == Descend(n, dirs2);
      }
    } else if dirs2 == [] {
      assert n'.files == n.files;
    } else {
      var path := prefix + dirs[0] + "\\";
      var child := if dirs[0] in n.dirs then n.dirs[dirs[0]] else DirNode(path, dirs[0], map[], map[]);
      if dirs2[0] == dirs[0] {
        InsertAtInstances(child, path, dirs[1..], last, a, overwrite, dirs2[1..], last2);
        assert Descend(n', dirs2) == Descend(n'.dirs[dirs[0]], dirs2[1..]);
        if dirs[0] !in n.dirs {
          EmptyHasNoInstances(child, dirs2[1..], last2);
          EmptyHasNoInstances(child, dirs[1..], last);
        }
        if dirs2 == dirs {
          assert dirs2[1..] == dirs[1..];
        } else {
          assert dirs2[1..] != dirs[1..];
        }
      } else {
        assert Descend(n', dirs2) == Descend(n, dirs2);
      }
    }
  }

  /** A freshly created directory holds no files anywhere below it. */
  lemma {:induction false} EmptyHasNoInstances(n: DirNode, dirs: seq<string>, last: string)
    requires n.dirs == map[] && n.files == map[]
    ensures InstancesAt(n, dirs, last) == []
  {
  }

  /** Loading one file name puts the archive at instance 0 when overwriting and after
      every earlier archive otherwise, and leaves every other file's instances alone. */
  lemma InsertInstances(root: DirNode, filename: string, a: ArchiveId, overwrite: bool, other: string)
    ensures Instances(Insert(root, filename, a, overwrite), other)
         == if Split(other) == Split(filename) then AddEntry(Instances(root, filename), a, overwrite)
            else Instances(root, other)
  {
    var sp, sq := Split(filename), Split(other);
    InsertAtInstances(root, "", sp.dirs, sp.last, a, overwrite, sq.dirs, sq.last);
  }

  /** A mod archive loaded with overwrite wins: instance 0 of every file it lists is that archive. */
  lemma {:induction false} OverwritingArchiveComesFirst(root: DirNode, listing: seq<string>, a: ArchiveId, filename: string)
    requires filename in listing
    ensures GetArchiveFile(InsertAll(root, listing, a, true), filename, 0) == Some(a)
    decreases |listing|
  {
    var r1 := Insert(root, listing[0], a, true);
    if filename == listing[0] {
      InsertInstances(root, listing[0], a, true, filename);
      KeepsFirst(r1, listing[1..], a, filename);
    } else {
      OverwritingArchiveComesFirst(r1, listing[1..], a, filename);
    }
  }

  /** Once instance 0 of a file is `a`, loading more of `a`'s entries with overwrite keeps it so. */
  lemma {:induction false} KeepsFirst(root: DirNode, listing: seq<string>, a: ArchiveId, filename: string)
    requires GetArchiveFile(root, filename, 0) == Some(a)
    ensures GetArchiveFile(InsertAll(root, listing, a, true), filename, 0) == Some(a)
    decreases |listing|
  {
    if listing != [] {
      var r1 := Insert(root, listing[0], a, true);
      InsertInstances(root, listing[0], a, true, filename);
      KeepsFirst(r1, listing[1..], a, filename);
    }
  }

  /** An archive loaded without overwrite never displaces what was there: every file's
      earlier instances stay, in order, in front of the new ones. */
  lemma {:induction false} AppendingKeepsEarlierInstances(root: DirNode, listing: seq<string>, a: ArchiveId, filename: string)
    ensures var before := Instances(root, filename);
            var after := Instances(InsertAll(root, listing, a, false), filename);
            |before| <= |after| && after[..|before|] == before
    decreases |listing|
  {
    if listing != [] {
      var r1 := Insert(root, listing[0], a, false);
      InsertInstances(root, listing[0], a, false, filename);
      AppendingKeepsEarlierInstances(r1, listing[1..], a, filename);
    }
  }

  /** Insertion keeps the tree well formed when started at a node whose path is the
      prefix built so far: created nodes record their name and the path of every
      token from the root; existing nodes are reused. */
  lemma {:induction false} InsertAtWellFormed(n: DirNode, prefix: string, dirs: seq<string>, last: string, a: ArchiveId, overwrite: bool)
    requires WellFormed(n) && n.path == prefix
    ensures WellFormed(InsertAt(n, prefix, dirs, last, a, overwrite))
    ensures InsertAt(n, prefix, dirs, last, a, overwrite).path == n.path
    ensures InsertAt(n, prefix, dirs, last, a, overwrite).name == n.name
    ensures n.dirs.Keys <= InsertAt(n, prefix, dirs, last, a, overwrite).dirs.Keys
    decreases |dirs|
  {
    if dirs != [] {
      var path := prefix + dirs[0] + "\\";
      var child := if dirs[0] in n.dirs then n.dirs[dirs[0]] else DirNode(path, dirs[0], map[], map[]);
      InsertAtWellFormed(child, path, dirs[1..], last, a, overwrite);
    }
  }

  lemma InsertAllWellFormed(root: DirNode, listing: seq<string>, a: ArchiveId, overwrite: bool)
    requires WellFormed(root) && root.path == ""
    ensures WellFormed(InsertAll(root, listing, a, overwrite)) && InsertAll(root, listing, a, overwrite).path == ""
    decreases |listing|
  {
    if listing != [] {
      var sp := Split(listing[0]);
      InsertAtWellFormed(root, "", sp.dirs, sp.last, a, overwrite);
      InsertAllWellFormed(Insert(root, listing[0], a, overwrite), listing[1..], a, overwrite);
    }
  }

  /** Lookup ignores case, as insertion does. */
  lemma ResolveIgnoresCase(root: DirNode, p: string, q: string)
    requires EqualsNoCase(p, q)
    ensures Resolve(root, p) == Resolve(root, q)
  {
    SplitIgnoresCase(p, q);
  }
}
