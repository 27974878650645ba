/** The map cache's bookkeeping: counting a map's start spots from its waypoints, the
    mark-and-sweep that drops cached maps no longer on disk, which files on disk count as
    maps, when a cached entry is current, the lookups for a valid or default map, and
    the file name of a map's preview image.

    Loading a map file, computing its CRC, listing a directory and reading file
    information are I/O: their results are parameters (`LoadedMap`, the list of paths,
    `infoOf`). */
module MapUtil {
  import opened Wrappers
  import opened AsciiText
  import opened ArchiveTree

  /** `MAX_SLOTS`, the number of player slots. */
  const MaxSlots: nat := 8
  /** The name `TheKey_InitialCameraPosition` stands for. */
  const InitialCameraPosition: string := "InitialCameraPosition"
  /** `mapExtension`. */
  const MapExtension: string := ".map"

  datatype Coord3D = Coord3D(x: real, y: real, z: real)

  type Waypoints = map<string, Coord3D>

  // ---------------------------------------------------------------------------
  // Start spots

  /** `Player_<n>_Start`, the waypoint of the n-th player's start position. */
  function StartName(n: nat): string
    requires 1 <= n <= MaxSlots
  {
    "Player_" + [('0' as int + n) as char] + "_Start"
  }

  function StartNames(n: nat): set<string>
    requires n <= MaxSlots
  {
    set j | 1 <= j <= n :: StartName(j)
  }

  /** How many start waypoints follow slot `i` without a gap. */
  function StartRun(w: Waypoints, i: nat): nat
    requires i <= MaxSlots
    decreases MaxSlots - i
  {
    if i < MaxSlots && StartName(i + 1) in w then 1 + StartRun(w, i + 1) else 0
  }

  /** The run from slot `i` names present waypoints and stops at the first missing one or
      at the last slot. */
  lemma {:induction false} StartRunMeaning(w: Waypoints, i: nat)
    requires i <= MaxSlots
    ensures i + StartRun(w, i) <= MaxSlots
    ensures forall j :: i < j <= i + StartRun(w, i) ==> StartName(j) in w
    ensures i + StartRun(w, i) < MaxSlots ==> StartName(i + StartRun(w, i) + 1) !in w
    decreases MaxSlots - i
  {
    if i < MaxSlots && StartName(i + 1) in w {
      StartRunMeaning(w, i + 1);
    }
  }

  /** What `update` keeps of the parsed waypoints: the initial camera and the first `n`
      start positions. */
  function Kept(w: Waypoints, n: nat): Waypoints
    requires n <= MaxSlots
  {
    map k | k in w && (k == InitialCameraPosition || k in StartNames(n)) :: w[k]
  }

  /** The start-spot count `update` arrives at: 1 without parsed waypoints, otherwise the
      length of the gap-free run of start positions, but at least 1. */
  function NumStartSpots(parsed: Option<Waypoints>): (r: nat)
    ensures 1 <= r <= MaxSlots
  {
    if parsed.None? then 1
    else
      StartRunMeaning(parsed.value, 0);
      var n := StartRun(parsed.value, 0);
      if n > 1 then n else 1
  }

  /** The start-spot count is the number of players whose start waypoints Player_1_Start,
      Player_2_Start, ... are present before the first gap, and never 0. */
  lemma NumStartSpotsCounts(w: Waypoints)
    ensures var n := NumStartSpots(Some(w));
      (forall j :: 1 <= j <= n && n > 1 ==> StartName(j) in w)
      && (n < MaxSlots && (n > 1 || StartName(1) in w) ==> StartName(n + 1) !in w)
      && (StartName(1) !in w ==> n == 1)
  {
    StartRunMeaning(w, 0);
  }

  lemma {:induction false} KeptStep(w: Waypoints, i: nat)
    requires i < MaxSlots && StartName(i + 1) in w
    ensures Kept(w, i + 1) == Kept(w, i)[StartName(i + 1) := w[StartName(i + 1)]]
  {
    assert StartNames(i + 1) == StartNames(i) + {StartName(i + 1)} by {
      forall j | 1 <= j <= i + 1 ensures StartName(j) in StartNames(i) + {StartName(i + 1)} {
        if j <= i {
          assert StartName(j) in StartNames(i);
        }
      }
    }
  }

  class WaypointMap {
    var points: Waypoints
    var numStartSpots: nat

    constructor ()
      ensures points == map[] && numStartSpots == 0
    {
      points := map[];
      numStartSpots := 0;
    }

    /** `WaypointMap::update`, with the waypoints parsed from the loaded map (none when no
      map is loaded) as a parameter. */
    method Update(parsed: Option<Waypoints>)
      modifies this
      ensures numStartSpots == NumStartSpots(parsed)
      ensures parsed.None? ==> points == old(points)
      ensures parsed.Some? ==> points == Kept(parsed.value, StartRun(parsed.value, 0))
    {
      if parsed.None? {
        numStartSpots := 1;
        return;
      }
      var w := parsed.value;
      points := map[];
      if InitialCameraPosition in w {
        points := points[InitialCameraPosition := w[InitialCameraPosition]];
      }
      assert points == Kept(w, 0);
      numStartSpots := 0;
      var i := 0;
      while i < MaxSlots
        invariant 0 <= i <= MaxSlots
        invariant numStartSpots == i
        invariant StartRun(w, 0) == i + StartRun(w, i)
        invariant points == Kept(w, i)
      {
        var name := StartName(i + 1);
        if name in w {
          KeptStep(w, i);
          points := points[name := w[name]];
          numStartSpots := numStartSpots + 1;
        } else {
          break;
        }
        i := i + 1;
      }
      numStartSpots := if numStartSpots > 1 then numStartSpots else 1;
    }
  }

  // ---------------------------------------------------------------------------
  // Cache entries

  datatype MapMetaData = MapMetaData(
    fileName: string,
    fileSize: int,
    crc: int,
    isOfficial: bool,
    doesExist: bool,
    numPlayers: nat,
    isMultiplayer: bool,
    timestampHigh: int,
    timestampLow: int,
    nameLookupTag: string,
    waypoints: Waypoints)

  /** What loading a map file yields: its waypoints (if it has any), its CRC and its name
      tag. */
  datatype LoadedMap = LoadedMap(waypoints: Option<Waypoints>, crc: int, nameLookupTag: string)

  type Cache = map<string, MapMetaData>

  /** A cached entry is current when its size matches the file and its CRC has been
      computed. */
  predicate CacheHit(m: Cache, key: string, info: FileInfo)
  {
    key in m && m[key].fileSize == info.sizeLow && m[key].crc != 0
  }

  /** An entry under `dir` that was not seen in the last pass. */
  predicate Stale(key: string, md: MapMetaData, dir: string)
  {
    StartsWithNoCase(key, dir) && !md.doesExist
  }

  /** The cache after `prepareUnseenMaps(dir)`. */
  function Unseen(m: Cache, dir: string): Cache
  {
    map k | k in m :: if StartsWithNoCase(k, dir) then m[k].(doesExist := false) else m[k]
  }

  /** The cache after `clearUnseenMaps(dir)`. */
  function Swept(m: Cache, dir: string): Cache
  {
    map k | k in m && !Stale(k, m[k], dir) :: m[k]
  }

  /** A pass that sees no map under `dir` drops every entry under `dir` and keeps every
      other entry as it was. */
  lemma SweepWithoutSightings(m: Cache, dir: string)
    ensures Swept(Unseen(m, dir), dir) == map k | k in m && !StartsWithNoCase(k, dir) :: m[k]
  {
  }

  /** An entry under `dir` marked as seen after the preparation survives the sweep with
      the data it was marked with. */
  lemma SeenSurvives(m: Cache, dir: string, key: string, md: MapMetaData)
    requires md.doesExist
    ensures key in Swept(Unseen(m, dir)[key := md], dir)
    ensures Swept(Unseen(m, dir)[key := md], dir)[key] == md
  {
  }

  /** The entry `addMap` stores for a map it had to load. */
  function Recached(lowerFname: string, info: FileInfo, isOfficial: bool, loaded: LoadedMap, wps: Waypoints): MapMetaData
  {
    var n := NumStartSpots(loaded.waypoints);
    MapMetaData(lowerFname, info.sizeLow, loaded.crc, isOfficial, true, n, n >= 2,
                info.timestampHigh, info.timestampLow, loaded.nameLookupTag, wps)
  }

  // ---------------------------------------------------------------------------
  // Files on disk

  /** `AsciiString::truncateBy`: drops the last `n` characters, or all of them. */
  function TruncateBy(s: string, n: nat): (r: string)
    ensures |r| == if n <= |s| then |s| - n else 0
    ensures r == s[..|r|]
  {
    if n <= |s| then s[..|s| - n] else []
  }

  /** The checks `loadMapsFromDisk` makes of a listed path: it must contain a '\', the
      map's name must be allowed (when `allowed` filters), and the lower-cased path must
      end in `<name>\<name>.map`. The result is the name. */
  function MapPathName(path: string, allowed: Option<set<string>>): Option<string>
  {
    var lower := ToLower(path);
    match LastIndexOf(lower, '\\')
    case None => None
    case Some(i) => NameAfter(lower, i, allowed)
  }

  /** The checks after the last '\' of the lower-cased path, which sits at `i`. */
  function NameAfter(lower: string, i: nat, allowed: Option<set<string>>): Option<string>
    requires i < |lower|
  {
    var name := TruncateBy(lower[i + 1..], |MapExtension|);
    if allowed.Some? && name !in allowed.value then None
    else if !EndsWithNoCase(lower, name + "\\" + name + MapExtension) then None
    else Some(name)
  }

  predicate IsLower(s: string)
  {
    ToLower(s) == s
  }

  lemma LowerSliceIsLower(s: string, i: nat, j: nat)
    requires i <= j <= |s|
    ensures IsLower(ToLower(s)[i..j])
  {
    ToLowerIdempotent(s);
    ToLowerSlice(ToLower(s), i, j);
  }

  lemma {:induction false} LowerEndsWith(lower: string, suffix: string)
    requires IsLower(lower) && IsLower(suffix)
    ensures EndsWithNoCase(lower, suffix) <==> EndsWith(lower, suffix)
  {
    if |suffix| <= |lower| {
      ToLowerSlice(lower, |lower| - |suffix|, |lower|);
    }
  }

  lemma AppendIsLower(a: string, b: string)
    requires IsLower(a) && IsLower(b)
    ensures IsLower(a + b)
  {
    ToLowerAppend(a, b);
  }

  /** The map's expected place in lower case: `<name>\<name>.map`. */
  function Ending(name: string): string
  {
    name + "\\" + name + MapExtension
  }

  /** A name taken from a path holds no '\', passed the filter, and its expected place
      ends the lower-cased path. */
  lemma MapPathNameSound(path: string, allowed: Option<set<string>>, name: string)
    requires MapPathName(path, allowed) == Some(name)
    ensures EndsWith(ToLower(path), Ending(name)) && !Contains(name, '\\')
    ensures allowed.Some? ==> name in allowed.value
  {
    var lower := ToLower(path);
    ToLowerIdempotent(path);
    NameAfterSound(lower, LastIndexOf(lower, '\\').value, allowed, name);
  }

  lemma NameAfterSound(lower: string, i: nat, allowed: Option<set<string>>, name: string)
    requires IsLower(lower) && i < |lower|
    requires forall j :: i < j < |lower| ==> lower[j] != '\\'
    requires NameAfter(lower, i, allowed) == Some(name)
    ensures EndsWith(lower, Ending(name)) && !Contains(name, '\\')
    ensures allowed.Some? ==> name in allowed.value
  {
    var n := i + 1 + |name|;
    assert n <= |lower| && name == lower[i + 1..n] by {
      assert name == lower[i + 1..][..|name|];
    }
    forall k | 0 <= k < |name| ensures name[k] != '\\' {
      assert name[k] == lower[i + 1 + k];
    }
    assert IsLower(name) by {
      ToLowerSlice(lower, i + 1, n);
    }
    assert EndsWith(lower, Ending(name)) by {
      EndingIsLower(name);
      LowerEndsWith(lower, Ending(name));
    }
  }

  lemma EndingIsLower(name: string)
    requires IsLower(name)
    ensures IsLower(Ending(name))
  {
    AppendIsLower(name, "\\");
    AppendIsLower(name + "\\", name);
    AppendIsLower(name + "\\" + name, MapExtension);
  }

  /** Where the '\' before the file name sits in a path ending in `<name>\<name>.map`. */
  lemma EndingSplit(lower: string, name: string) returns (b: nat)
    requires EndsWith(lower, Ending(name))
    ensures b + 1 + |name| + |MapExtension| == |lower|
    ensures lower[b] == '\\' && lower[b + 1..] == name + MapExtension
  {
    var f := name + MapExtension;
    var e := Ending(name);
    assert e == name + "\\" + f;
    b := |lower| - |f| - 1;
    assert lower[|lower| - |e|..] == e;
    assert lower[b] == e[|name|];
  }

  /** The last '\' of a path ending in `<name>\<name>.map` is the one before the file name. */
  lemma LastSeparatorOfEnding(lower: string, name: string) returns (b: nat)
    requires EndsWith(lower, Ending(name)) && !Contains(name, '\\')
    ensures b + 1 + |name| + |MapExtension| == |lower|
    ensures lower[b + 1..] == name + MapExtension
    ensures LastIndexOf(lower, '\\') == Some(b)
  {
    b := EndingSplit(lower, name);
    SeparatorBeforeFileName(lower, name, b);
  }

  lemma SeparatorBeforeFileName(lower: string, name: string, b: nat)
    requires b < |lower| && lower[b] == '\\' && lower[b + 1..] == name + MapExtension
    requires !Contains(name, '\\')
    ensures LastIndexOf(lower, '\\') == Some(b)
  {
    var f := name + MapExtension;
    forall j | b < j < |lower| ensures lower[j] != '\\' {
      var k := j - b - 1;
      assert lower[j] == f[k];
      if k < |name| {
        assert f[k] == name[k];
      } else {
        assert f[k] == MapExtension[k - |name|];
      }
    }
    LastIndexOfIs(lower, '\\', b);
  }

  /** A path ending in `<name>\<name>.map` (lower-cased) with an allowed `name` holding no
      '\' is taken as the map `name`. */
  lemma MapPathNameComplete(path: string, allowed: Option<set<string>>, name: string)
    requires EndsWith(ToLower(path), Ending(name)) && !Contains(name, '\\')
    requires allowed.Some? ==> name in allowed.value
    ensures MapPathName(path, allowed) == Some(name)
  {
    NameAfterComplete(ToLower(path), allowed, name);
  }

  lemma NameAfterComplete(lower: string, allowed: Option<set<string>>, name: string)
    requires EndsWith(lower, Ending(name)) && !Contains(name, '\\')
    requires allowed.Some? ==> name in allowed.value
    ensures LastIndexOf(lower, '\\').Some?
    ensures NameAfter(lower, LastIndexOf(lower, '\\').value, allowed) == Some(name)
  {
    var e := Ending(name);
    var b := LastSeparatorOfEnding(lower, name);
    assert TruncateBy(lower[b + 1..], |MapExtension|) == name by {
      assert lower[b + 1..] == name + MapExtension;
    }
    assert lower[|lower| - |e|..] == e;
  }

  /** The key `loadMapsFromDisk` adds a listed path under, if the path passes the checks
      and its file information can be read. */
  function AddedKey(path: string, allowed: Option<set<string>>, infoOf: string -> Option<FileInfo>): Option<string>
  {
    if MapPathName(path, allowed).Some? && infoOf(path).Some? then Some(ToLower(path)) else None
  }

  function AddedKeys(paths: seq<string>, n: nat, allowed: Option<set<string>>, infoOf: string -> Option<FileInfo>): set<string>
    requires n <= |paths|
  {
    set j | 0 <= j < n && AddedKey(paths[j], allowed, infoOf).Some? :: AddedKey(paths[j], allowed, infoOf).value
  }

  lemma AddedKeysStep(paths: seq<string>, i: nat, allowed: Option<set<string>>, infoOf: string -> Option<FileInfo>)
    requires i < |paths|
    ensures AddedKeys(paths, i + 1, allowed, infoOf) == AddedKeys(paths, i, allowed, infoOf) +
      (if AddedKey(paths[i], allowed, infoOf).Some? then {AddedKey(paths[i], allowed, infoOf).value} else {})
  {
  }

  /** `after` keeps every entry of `before` outside `added` and holds every key of
      `added` as seen, and nothing else. */
  predicate Extends(before: Cache, after: Cache, added: set<string>)
  {
    (forall k :: k in added ==> k in after && after[k].doesExist)
    && (forall k :: k in before && k !in added ==> k in after && after[k] == before[k])
    && (forall k :: k in after ==> k in before || k in added)
  }

  lemma ExtendsStep(before: Cache, mid: Cache, after: Cache, added: set<string>, key: Option<string>)
    requires Extends(before, mid, added)
    requires key.None? ==> after == mid
    requires key.Some? ==> key.value in after && after[key.value].doesExist && after == mid[key.value := after[key.value]]
    ensures Extends(before, after, added + (if key.Some? then {key.value} else {}))
  {
  }

  class MapCache {
    var entries: Cache
    var allowedMaps: set<string>

    constructor ()
      ensures entries == map[] && allowedMaps == {}
    {
      entries := map[];
      allowedMaps := {};
    }

    /** `MapCache::prepareUnseenMaps`: every entry under `mapDir` is marked as not seen. */
    method PrepareUnseenMaps(mapDir: string)
      modifies this
      ensures entries == Unseen(old(entries), mapDir)
      ensures entries.Keys == old(entries).Keys
      ensures forall k :: k in entries && StartsWithNoCase(k, mapDir) ==> !entries[k].doesExist
      ensures allowedMaps == old(allowedMaps)
    {
      var todo := entries.Keys;
      while todo != {}
        invariant todo <= entries.Keys == old(entries).Keys
        invariant forall k :: k in entries && k in todo ==> entries[k] == old(entries)[k]
        invariant forall k :: k in entries && k !in todo ==> entries[k] == Unseen(old(entries), mapDir)[k]
        invariant allowedMaps == old(allowedMaps)
        decreases todo
      {
        var k :| k in todo;
        if StartsWithNoCase(k, mapDir) {
          entries := entries[k := entries[k].(doesExist := false)];
        }
        todo := todo - {k};
      }
    }

    /** `MapCache::clearUnseenMaps`: erases exactly the entries under `mapDir` not seen,
      and says whether there were any. */
    method ClearUnseenMaps(mapDir: string) returns (erasedSomething: bool)
      modifies this
      ensures entries == Swept(old(entries), mapDir)
      ensures erasedSomething <==> exists k :: k in old(entries) && Stale(k, old(entries)[k], mapDir)
      ensures !erasedSomething ==> entries == old(entries)
      ensures forall k :: k in entries ==> !Stale(k, entries[k], mapDir)
      ensures allowedMaps == old(allowedMaps)
    {
      erasedSomething := false;
      var todo := entries.Keys;
      while todo != {}
        invariant todo <= entries.Keys <= old(entries).Keys
        invariant forall k :: k in entries ==> entries[k] == old(entries)[k]
        invariant forall k :: k in old(entries) && k !in todo ==> (k in entries <==> !Stale(k, old(entries)[k], mapDir))
        invariant forall k :: k in todo ==> k in entries
        invariant erasedSomething <==> exists k :: k in old(entries) && k !in todo && Stale(k, old(entries)[k], mapDir)
        invariant allowedMaps == old(allowedMaps)
        decreases todo
      {
        var k :| k in todo;
        if Stale(k, entries[k], mapDir) {
          entries := entries - {k};
          erasedSomething := true;
        }
        todo := todo - {k};
      }
      assert entries.Keys == Swept(old(entries), mapDir).Keys;
    }

    /** `MapCache::addMap`: a current entry is only marked as seen; anything else is
      loaded and cached again, multiplayer when it has two start spots or more. */
    method AddMap(mapDir: string, fname: string, lowerFname: string, info: FileInfo, isOfficial: bool, loaded: LoadedMap)
      returns (changed: bool)
      modifies this
      ensures changed <==> !CacheHit(old(entries), lowerFname, info)
      ensures !changed ==> entries == old(entries)[lowerFname := old(entries)[lowerFname].(doesExist := true)]
      ensures changed ==> lowerFname in entries && entries == old(entries)[lowerFname := entries[lowerFname]]
      ensures changed ==> var md := entries[lowerFname];
        md.doesExist && md.fileName == lowerFname && md.fileSize == info.sizeLow && md.crc == loaded.crc
        && md.isOfficial == isOfficial && md.numPlayers == NumStartSpots(loaded.waypoints)
        && (md.isMultiplayer <==> md.numPlayers >= 2)
      ensures lowerFname in entries && entries[lowerFname].doesExist
      ensures allowedMaps == old(allowedMaps)
    {
      if CacheHit(entries, lowerFname, info) {
        entries := entries[lowerFname := entries[lowerFname].(doesExist := true)];
        return false;
      }
      var wm := new WaypointMap();
      wm.Update(loaded.waypoints);
      var md := Recached(lowerFname, info, isOfficial, loaded, wm.points);
      entries := entries[lowerFname := md];
      return true;
    }

    /** The loop of `loadMapsFromDisk`: every listed path that passes the checks and has
      file information is added. */
    method AddListedMaps(mapDir: string, isOfficial: bool, allowed: Option<set<string>>, paths: seq<string>,
                         infoOf: string -> Option<FileInfo>, loadOf: string -> LoadedMap)
      returns (changed: bool)
      modifies this
      ensures Extends(old(entries), entries, AddedKeys(paths, |paths|, allowed, infoOf))
      ensures !changed ==> entries.Keys == old(entries).Keys
      ensures allowedMaps == old(allowedMaps)
    {
      changed := false;
      var i := 0;
      while i < |paths|
        invariant 0 <= i <= |paths|
        invariant allowedMaps == old(allowedMaps)
        invariant Extends(old(entries), entries, AddedKeys(paths, i, allowed, infoOf))
        invariant !changed ==> entries.Keys == old(entries).Keys
      {
        AddedKeysStep(paths, i, allowed, infoOf);
        ghost var before := entries;
        var c := AddListed(mapDir, isOfficial, allowed, paths[i], infoOf, loadOf);
        ExtendsStep(old(entries), before, entries, AddedKeys(paths, i, allowed, infoOf), AddedKey(paths[i], allowed, infoOf));
        changed := changed || c;
        i := i + 1;
      }
    }

    /** One listed path: added when it passes the checks and has file information. */
    method AddListed(mapDir: string, isOfficial: bool, allowed: Option<set<string>>, p: string,
                     infoOf: string -> Option<FileInfo>, loadOf: string -> LoadedMap)
      returns (changed: bool)
      modifies this
      ensures AddedKey(p, allowed, infoOf).None? ==> entries == old(entries) && !changed
      ensures AddedKey(p, allowed, infoOf).Some? ==> var k := AddedKey(p, allowed, infoOf).value;
        k in entries && entries[k].doesExist && entries == old(entries)[k := entries[k]]
        && (!changed ==> k in old(entries))
      ensures allowedMaps == old(allowedMaps)
    {
      var name := MapPathName(p, allowed);
      var info := infoOf(p);
      changed := false;
      if name.Some? && info.Some? {
        changed := AddMap(mapDir, p, ToLower(p), info.value, isOfficial, loadOf(p));
      }
    }

    /** `MapCache::loadMapsFromDisk` over the paths the directory listing returned: marks
      the entries under `mapDir` unseen, adds every listed path that passes the checks,
      then sweeps what was not seen. */
    method LoadMapsFromDisk(mapDir: string, isOfficial: bool, filterByAllowedMaps: bool, paths: seq<string>,
                            infoOf: string -> Option<FileInfo>, loadOf: string -> LoadedMap)
      returns (mapListChanged: bool)
      modifies this
      ensures forall k :: k in entries && StartsWithNoCase(k, mapDir) ==> entries[k].doesExist
      ensures var allowed := if filterByAllowedMaps then Some(allowedMaps) else None;
        forall k :: k in AddedKeys(paths, |paths|, allowed, infoOf) ==> k in entries && entries[k].doesExist
      ensures var allowed := if filterByAllowedMaps then Some(allowedMaps) else None;
        forall k :: k in old(entries) && !StartsWithNoCase(k, mapDir) && k !in AddedKeys(paths, |paths|, allowed, infoOf) ==>
          k in entries && entries[k] == old(entries)[k]
      ensures var allowed := if filterByAllowedMaps then Some(allowedMaps) else None;
        forall k :: k in old(entries) && StartsWithNoCase(k, mapDir) && k !in AddedKeys(paths, |paths|, allowed, infoOf) ==>
          k !in entries
      ensures !mapListChanged ==> entries.Keys == old(entries).Keys
      ensures allowedMaps == old(allowedMaps)
    {
      PrepareUnseenMaps(mapDir);
      var allowed := if filterByAllowedMaps then Some(allowedMaps) else None;
      mapListChanged := AddListedMaps(mapDir, isOfficial, allowed, paths, infoOf, loadOf);
      var erased := ClearUnseenMaps(mapDir);
      if erased {
        mapListChanged := true;
      }
    }
  }

  // ---------------------------------------------------------------------------
  // Lookups

  /** `isValidMap`: no cache or an empty name is never valid; otherwise the lower-cased
      name must be cached with the requested multiplayer flag. */
  function IsValidMap(cache: MapCache?, mapName: string, isMultiplayer: bool): (r: bool)
    reads cache
    ensures r ==> cache != null && |mapName| > 0 && ToLower(mapName) in cache.entries
    ensures r ==> cache.entries[ToLower(mapName)].isMultiplayer == isMultiplayer
    ensures (cache != null && |mapName| > 0 && ToLower(mapName) in cache.entries
             && cache.entries[ToLower(mapName)].isMultiplayer == isMultiplayer) ==> r
  {
    if cache == null || |mapName| == 0 then false
    else
      var key := ToLower(mapName);
      key in cache.entries && cache.entries[key].isMultiplayer == isMultiplayer
  }

  /** Validity ignores case, and a lower-case cached key is valid for exactly its own
      multiplayer flag. */
  lemma ValidMapOfCachedKey(cache: MapCache, key: string, other: string)
    requires key in cache.entries && |key| > 0 && IsLower(key)
    requires EqualsNoCase(other, key)
    ensures IsValidMap(cache, other, cache.entries[key].isMultiplayer)
    ensures !IsValidMap(cache, other, !cache.entries[key].isMultiplayer)
  {
  }

  /** `AsciiString`'s `operator<` (the C library's `strcmp` order), the order the cache's
      entries are visited in. */
  predicate Below(a: string, b: string)
  {
    if |a| == 0 then |b| > 0
    else if |b| == 0 then false
    else a[0] < b[0] || (a[0] == b[0] && Below(a[1..], b[1..]))
  }

  lemma {:induction false} BelowTransitive(a: string, b: string, c: string)
    requires Below(a, b) && Below(b, c)
    ensures Below(a, c)
  {
    if |a| > 0 && a[0] == b[0] && b[0] == c[0] {
      BelowTransitive(a[1..], b[1..], c[1..]);
    }
  }

  lemma {:induction false} BelowTotal(a: string, b: string)
    ensures a == b || Below(a, b) || Below(b, a)
    ensures !(Below(a, b) && Below(b, a))
  {
    if |a| > 0 && |b| > 0 && a[0] == b[0] {
      BelowTotal(a[1..], b[1..]);
      if a[1..] == b[1..] {
        assert a == [a[0]] + a[1..] && b == [b[0]] + b[1..];
      }
    }
  }

  predicate Matches(m: Cache, k: string, isMultiplayer: bool)
  {
    k in m && m[k].isMultiplayer == isMultiplayer
  }

  /** `getDefaultMap`: the first entry in key order with the requested multiplayer flag,
      or the empty name. */
  method GetDefaultMap(cache: MapCache?, isMultiplayer: bool) returns (r: string)
    ensures cache == null ==> r == []
    ensures cache != null && (exists k :: Matches(cache.entries, k, isMultiplayer)) ==>
      Matches(cache.entries, r, isMultiplayer)
      && forall k :: Matches(cache.entries, k, isMultiplayer) && k != r ==> Below(r, k)
    ensures cache != null && !(exists k :: Matches(cache.entries, k, isMultiplayer)) ==> r == []
  {
    if cache == null {
      return [];
    }
    var m := cache.entries;
    var todo := m.Keys;
    var found := false;
    r := [];
    while todo != {}
      invariant todo <= m.Keys
      invariant found <==> exists k :: k !in todo && Matches(m, k, isMultiplayer)
      invariant found ==> Matches(m, r, isMultiplayer) && r !in todo
      invariant found ==> forall k :: k !in todo && Matches(m, k, isMultiplayer) && k != r ==> Below(r, k)
      invariant !found ==> r == []
      decreases todo
    {
      var k :| k in todo;
      if Matches(m, k, isMultiplayer) {
        if !found {
          r := k;
          found := true;
        } else {
          BelowTotal(k, r);
          if Below(k, r) {
            forall j | j !in todo && Matches(m, j, isMultiplayer) && j != k ensures Below(k, j) {
              if j != r {
                BelowTransitive(k, r, j);
              }
            }
            r := k;
          }
        }
      }
      todo := todo - {k};
    }
  }

  // ---------------------------------------------------------------------------
  // Preview images

  /** The preview image name of a map: every '\' and ':' of its portable path becomes '_'. */
  method PreviewName(portableName: string) returns (r: string)
    ensures |r| == |portableName|
    ensures forall i :: 0 <= i < |r| ==>
      r[i] == if portableName[i] == '\\' || portableName[i] == ':' then '_' else portableName[i]
    ensures !Contains(r, '\\') && !Contains(r, ':')
  {
    r := [];
    var i := 0;
    while i < |portableName|
      invariant 0 <= i <= |portableName|
      invariant |r| == i
      invariant forall j :: 0 <= j < i ==>
        r[j] == if portableName[j] == '\\' || portableName[j] == ':' then '_' else portableName[j]
    {
      var c := portableName[i];
      if c == '\\' || c == ':' {
        r := r + ['_'];
      } else {
        r := r + [c];
      }
      i := i + 1;
    }
  }
}
