# A verified model of the engine's file resolution, save/load transfer and header scripts

This project models, in Dafny, the core of the Command & Conquer Generals / Zero Hour
engine code that decides where a file comes from, how game state is written to and read
back from a saved game, and a handful of self-contained engine utilities, together with
the Python scripts that maintain the C++ headers. Most modules follow one source file;
`ArchiveFileSystem.cpp` is split into `ArchivePath` (tokenising), `ArchiveTree` (the
directory tree as values) and `ArchiveFileSystem` (the object that owns it), and
`Wrappers`, `AsciiText`, `PyText`, `DirectiveSyntax` and `IncludeGuards` are shared
layers used by several modules rather than source files of their own:

- **Archive file system** (`ArchivePath`, `ArchiveTree`, `ArchiveFileSystem`, `StlUtils`):
  the lower-cased, tokenised directory tree built from the listings of the `.big`
  archives, where one file name may be held by several archives in multimap order, the
  instanced lookup (`doesFileExist`, `getArchiveFile`, `getFileInfo`, `openFile`), the
  mod archives loaded with overwrite, and the `stl` container helpers the lookup uses.
- **File system facade** (`FileSystem`): loose files on disk in front of the archives,
  addressed by name and instance, with the existence cache and `isPathInDirectory`.
- **Xfer** (`XferEngine`): the save/load/CRC transfer object and its composite
  transfers (versions, lists, sciences, kind-of masks, upgrade masks, map names,
  matrices), with round-trip lemmas.
- **Bounded strings** (`StringEx`): `strlen_t`, `strnlen_t`, `strlcpy_t`, `strlcat_t`,
  `strlmove_t` and `strlmcat_t` over character arrays, overlapping moves included.
- **Game utilities**: `RtsMoney` (balance and the per-second income ring buffer with
  32-bit wrap-around), `FrameRateLimit` (render and logic frame-rate presets),
  `FramePacing` (which limit is in effect), `MapUtil` (map cache bookkeeping) and
  `W3DFileSystem` (texture and model lookup through the art directories, and the
  size-based reprioritisation of textures).
- **Ghost objects** (`GhostObjects`): the pool of fogged-memory ghosts on two intrusive
  doubly linked lists, as classes whose links are updated in place.
- **Header scripts** (`PyText`, `DirectiveSyntax`, `IncludeGuards`, `ReplaceGuards`,
  `RemoveGuards`, `PragmaSpacing`, `MscPragma`, `CodeFormatting`, `IncludeDedup`): the
  Python passes that replace or remove include guards, space `#pragma once`, unguard
  `_MSC_VER` pragmas, tidy lines and drop duplicate includes, each proved against a
  specification function with content-preservation lemmas; the guard replacement, the
  line formatting and the include deduplication are also proved idempotent.

Where the code does something other than what it evidently intends, the model keeps a
member for the code as written, exhibits the discrepancy, and uses a corrected member
elsewhere; see "## Findings".

## Model

| member | source | states |
|---|---|---|
| ArchiveFileSystem.TokenizePath | Core/GameEngine/Source/Common/System/ArchiveFileSystem.cpp:130-156 | the tokenising loop yields exactly the directory tokens and last token of `Split(filename)`, and every directory token is a non-empty run without separators |
| ArchiveFileSystem.ArchiveFileSystem.constructor | Core/GameEngine/Source/Common/System/ArchiveFileSystem.cpp:104-106 | a new archive file system has an empty directory tree and no registered archives |
| ArchiveFileSystem.ArchiveFileSystem.LoadIntoDirectoryTree | Core/GameEngine/Source/Common/System/ArchiveFileSystem.cpp:118-211 | the tree afterwards is every listed name inserted in listing order with the given overwrite flag; the archive map is unchanged; the tree stays well formed |
| ArchiveFileSystem.ArchiveFileSystem.GetArchivedDirectoryInfo | Core/GameEngine/Source/Common/System/ArchiveFileSystem.cpp:260-290 | the step-by-step walk returns exactly `Resolve(root, directory)` |
| ArchiveFileSystem.ArchiveFileSystem.LoadMods | Core/GameEngine/Source/Common/System/ArchiveFileSystem.cpp:213-239 | a configured mod archive is inserted with overwrite and registered under its name, then each archive of the mod directory is loaded with overwrite and registered, in order |
| ArchiveFileSystem.OpenFile | Core/GameEngine/Source/Common/System/ArchiveFileSystem.cpp:292-300 | an archive is returned iff the instance exists, and it is the instance-th archive holding the name |
| ArchiveFileSystem.GetFileInfo | Core/GameEngine/Source/Common/System/ArchiveFileSystem.cpp:302-318 | no record or an empty name gives FALSE before any lookup; a result comes only from the archive holding that instance, and every existing instance gives that archive's answer |
| ArchivePath.NextToken | Core/GameEngine/Source/Common/System/ArchiveFileSystem.cpp:135-154 | a successful step yields a non-empty token without separators and a shorter rest; a failed step clears the rest, and keeps the old token only when the string was already empty |
| ArchivePath.NextTokenTakesFirstRun | Core/GameEngine/Source/Common/System/ArchiveFileSystem.cpp:135-154 | the token is the first maximal run of non-separators after the leading separators, the rest starts at a separator, and a failed step means the string held only separators |
| ArchivePath.SplitFromExtends | Core/GameEngine/Source/Common/System/ArchiveFileSystem.cpp:137-155 | the tokenising loop only extends the tokens already taken, and a token the loop descends into becomes the next directory token |
| ArchivePath.SplitTokensOk | Core/GameEngine/Source/Common/System/ArchiveFileSystem.cpp:137-155 | every directory token is non-empty and contains no separator |
| ArchivePath.SplitIgnoresCase | Core/GameEngine/Source/Common/System/ArchiveFileSystem.cpp:131-135 | two paths equal up to ASCII case split into the same tokens |
| ArchiveTree.NewArchivedFileInfo | Core/GameEngine/Include/Common/ArchiveFileSystem.h:107-119 | the default file record has offset 0, size 0 and empty names |
| ArchiveTree.AddEntry | Core/GameEngine/Source/Common/System/ArchiveFileSystem.cpp:158-169 | one entry is added to the same-name entries: in front of them when overwriting, after all of them otherwise, with the old entries kept in order |
| ArchiveTree.Resolve | Core/GameEngine/Source/Common/System/ArchiveFileSystem.cpp:260-290 | a missing directory gives the default invalid result (no directory, empty last token); a valid result carries the path's last token |
| ArchiveTree.DoesFileExist | Core/GameEngine/Source/Common/System/ArchiveFileSystem.cpp:241-251 | true iff the instance is below the number of archives holding the name |
| ArchiveTree.GetArchiveFile | Core/GameEngine/Source/Common/System/ArchiveFileSystem.cpp:320-333 | an archive is returned iff the instance exists, and it is the instance-th archive in multimap order |
| ArchiveTree.DescendAppend | Core/GameEngine/Source/Common/System/ArchiveFileSystem.cpp:270-281 | descending along `a + b` is descending along `a` and then along `b` |
| ArchiveTree.InsertAtInstances | Core/GameEngine/Source/Common/System/ArchiveFileSystem.cpp:137-169 | inserting an entry changes only the entries of that exact directory path and name, where it adds the new archive as `AddEntry` does |
| ArchiveTree.EmptyHasNoInstances | Core/GameEngine/Source/Common/System/ArchiveFileSystem.cpp:144-150 | a freshly created directory holds no files anywhere below it |
| ArchiveTree.InsertInstances | Core/GameEngine/Source/Common/System/ArchiveFileSystem.cpp:118-169 | loading a name puts the archive at instance 0 when overwriting and after every earlier archive otherwise, and leaves every other name's instances alone |
| ArchiveTree.OverwritingArchiveComesFirst | Core/GameEngine/Source/Common/System/ArchiveFileSystem.cpp:158-169 | after loading an archive with overwrite, instance 0 of every name it lists is that archive |
| ArchiveTree.KeepsFirst | Core/GameEngine/Source/Common/System/ArchiveFileSystem.cpp:158-169 | loading more entries of the archive at instance 0 with overwrite keeps it at instance 0 |
| ArchiveTree.AppendingKeepsEarlierInstances | Core/GameEngine/Source/Common/System/ArchiveFileSystem.cpp:158-169 | loading without overwrite keeps every name's earlier instances, in order, in front of the new ones |
| ArchiveTree.InsertAtWellFormed | Core/GameEngine/Source/Common/System/ArchiveFileSystem.cpp:139-152 | insertion keeps the tree well formed: each created node records its own token and the path of every token from the root followed by `\`, and existing children are kept, never duplicated |
| ArchiveTree.InsertAllWellFormed | Core/GameEngine/Source/Common/System/ArchiveFileSystem.cpp:118-211 | loading a whole listing keeps the tree well formed and the root's path empty |
| ArchiveTree.ResolveIgnoresCase | Core/GameEngine/Source/Common/System/ArchiveFileSystem.cpp:266-268 | lookup gives the same result for paths equal up to ASCII case |
| StlUtils.AdvanceInRange | Core/Libraries/Source/WWVegas/WWLib/STLUtils.h:112-125 | the result stays within `[first, last]`: `first` for n ≤ 0, `last` for n ≥ the distance, else exactly n steps on |
| StlUtils.GetRange | Core/Libraries/Source/WWVegas/WWLib/STLUtils.h:127-143 | the range lies within the key's equal range and ends at its end |
| StlUtils.GetRangeSelectsInstance | Core/Libraries/Source/WWVegas/WWLib/STLUtils.h:127-143 | the range is valid iff the key has more than n entries, and then it is exactly the entries from the n-th on |
| StlUtils.FindAndErase | Core/Libraries/Source/WWVegas/WWLib/STLUtils.h:63-77 | found iff the value is present; the first occurrence is removed and the others keep their order; nothing changes otherwise |
| StlUtils.FindAndEraseUnordered | Core/Libraries/Source/WWVegas/WWLib/STLUtils.h:79-95 | found iff present; the first occurrence is overwritten with the back element and the back dropped, so one copy is lost and every other position is kept |
| StlUtils.PushBackUnique | Core/Libraries/Source/WWVegas/WWLib/STLUtils.h:97-109 | appends iff the value is absent, reports that, and the value is present afterwards |
| AsciiText.LowerChar | Core/GameEngine/Source/Common/System/ArchiveFileSystem.cpp:134 | `A`-`Z` map to their lower-case letters, every other character is kept, and no upper-case ASCII letter remains |
| AsciiText.ToLower | Core/GameEngine/Source/Common/System/ArchiveFileSystem.cpp:134 | same length, with each character lowered by `LowerChar` |
| AsciiText.ToLowerIdempotent | Core/GameEngine/Source/Common/System/ArchiveFileSystem.cpp:267 | lowering twice is lowering once, so lookups of already lowered keys see the same key |
| AsciiText.LastIndexOf | Generals/Code/GameEngineDevice/Source/W3DDevice/GameClient/W3DFileSystem.cpp:128 | the last position holding the character, or None when it does not occur |
| FileSystem.ExistsBelowCount | Core/GameEngine/Source/Common/System/FileSystem.cpp:244-260 | instance k of a name exists (loose file first, then the archived copies shifted up by one) iff k is below the number of copies |
| FileSystem.SoundBounds | Core/GameEngine/Source/Common/System/FileSystem.cpp:231-241 | a cache entry answers only truthfully iff its does-not-exist bound is at least the copy count and, when the bounds do not overlap, its exists bound is below that count |
| FileSystem.DoesFileExistAsWritten | Core/GameEngine/Source/Common/System/FileSystem.cpp:225-280 | as written: a deciding cache entry answers without probing, and a probe adds at most the queried name to the cache |
| FileSystem.DoesFileExistChecked | Core/GameEngine/Source/Common/System/FileSystem.cpp:225-280 | corrected: the answer is `Exists` for every instance, the cache stays sound, and at most the queried name is added |
| FileSystem.CreateBumpAsWritten | Core/GameEngine/Source/Common/System/FileSystem.cpp:192-207 | as written: creating a loose file leaves an entry for the name |
| FileSystem.CreateBumpChecked | Core/GameEngine/Source/Common/System/FileSystem.cpp:192-207 | corrected: after a loose file is created the cache is still sound for the grown loose set |
| FileSystem.LooseFileShiftsMissBound | Core/GameEngine/Source/Common/System/FileSystem.cpp:256-278 | with a loose file and one archived copy, probing instance 2 records the miss bound 1, after which the existing instance 1 is reported missing |
| FileSystem.MissCreatesExistingEntry | Core/GameEngine/Source/Common/System/FileSystem.cpp:272-278 | a miss on a name never seen before creates an entry whose default exists bound 0 then reports the missing instance 0 as existing |
| FileSystem.RecreateClaimsMissingInstance | Core/GameEngine/Source/Common/System/FileSystem.cpp:192-207 | bumping both bounds on CREATE of an already cached loose file makes the missing instance 1 report as existing |
| FileSystem.FileSystem.constructor | Core/GameEngine/Source/Common/System/FileSystem.cpp:124-127 | a new facade over the given loose and archive layers starts with an empty existence cache |
| FileSystem.FileSystem.DoesFileExist | Core/GameEngine/Source/Common/System/FileSystem.cpp:225-280 | corrected: the answer is `Exists` (loose instance 0, then the archives with the instance moved down past a loose file) and the cache is updated as `DoesFileExistChecked` does |
| FileSystem.FileSystem.OpenFile | Core/GameEngine/Source/Common/System/FileSystem.cpp:174-219 | corrected (the CREATE bump of `CreateBumpChecked`): instance 0 goes to the loose layer first (opening or creating); the archives are asked only when no file was produced, with the instance moved down past an existing loose file; when both layers are present and nothing is created, a file is produced iff the instance exists |
| FileSystem.GetFileInfo | Core/GameEngine/Source/Common/System/FileSystem.cpp:295-319 | FALSE without a record; the loose record for instance 0 when the loose file exists; otherwise the archive layer's answer for the moved-down instance |
| FileSystem.GetFileInfoFindsExisting | Core/GameEngine/Source/Common/System/FileSystem.cpp:295-319 | when the layers report information exactly for the files they hold, a record is found iff the instance exists |
| FileSystem.BaseWithSeparator | Core/GameEngine/Source/Common/System/FileSystem.cpp:437-458 | the prefix test against the base with the separator appended holds iff the test path lies below the base (`Below`), ignoring ASCII case on Windows |
| FileSystem.IsPathInDirectory | Core/GameEngine/Source/Common/System/FileSystem.cpp:422-459 | true iff both normalised paths are non-empty and the test path starts with the base followed by the platform separator, ignoring ASCII case on Windows |
| FileSystem.NotInsideSelfOrSibling | Core/GameEngine/Source/Common/System/FileSystem.cpp:422-459 | a directory is not inside itself, nor is a sibling whose name merely extends the directory's name |
| XferEngine.Wrap16Step | Core/GameEngine/Source/Common/System/Xfer.cpp:749-758 | counting one more in an `UnsignedShort` wraps from 65535 to 0 |
| XferEngine.TokenOutcome | Core/GameEngine/Source/Common/System/Xfer.cpp:116-166 | saving and CRC append the value and hand it back; loading takes the next token of the same kind, and fails exactly when the stream is empty or the next token is of another kind |
| XferEngine.VersionOutcome | Core/GameEngine/Source/Common/System/Xfer.cpp:79-94 | a transferred version newer than the current one throws `XFER_INVALID_VERSION`; otherwise the transferred version is kept, so every accepted version is at most the current one |
| XferEngine.Nums | Core/GameEngine/Source/Common/System/Xfer.cpp:380-393 | saving a sequence of integers writes one number token per element, in order |
| XferEngine.NumsAppend | Core/GameEngine/Source/Common/System/Xfer.cpp:370-393 | the tokens of `xs + [x]` are those of `xs` followed by `x`'s |
| XferEngine.LoadedNumsLength | Core/GameEngine/Source/Common/System/Xfer.cpp:406-413 | a successful load of k integers yields exactly k of them |
| XferEngine.LoadedNumsOfSaved | Core/GameEngine/Source/Common/System/Xfer.cpp:406-413 | loading `len(xs)` integers from the tokens saving `xs` wrote gives `xs` back and leaves the rest of the stream |
| XferEngine.Coord3DRoundTrip | Core/GameEngine/Source/Common/System/Xfer.cpp:210-217 | saving a coordinate appends x, y, z and loading those tokens gives the coordinate back |
| XferEngine.Region3DRoundTrip | Core/GameEngine/Source/Common/System/Xfer.cpp:232-238 | a region is saved as its low corner then its high corner and loads back |
| XferEngine.Vector4RoundTrip | Core/GameEngine/Source/Common/System/Xfer.cpp:837-862 | a matrix row is saved as X, Y, Z, W and loads back |
| XferEngine.Matrix3DRoundTrip | Core/GameEngine/Source/Common/System/Xfer.cpp:837-862 | a matrix is saved as version 1 and twelve reals row by row and loads back |
| XferEngine.Matrix3DRejectsNewerVersion | Core/GameEngine/Source/Common/System/Xfer.cpp:837-845 | a stored matrix version newer than 1 is refused with `XFER_INVALID_VERSION` |
| XferEngine.MapNameOutcome | Core/GameEngine/Source/Common/System/Xfer.cpp:170-182 | saving writes the portable form of the path; loading reads a string and converts it to the real path, failing only on a missing or non-string token; CRC and invalid modes transfer nothing |
| XferEngine.OptionalIntListOutcome | Core/GameEngine/Source/Common/System/Xfer.cpp:495-500 | `xferSTLIntList(NULL)` transfers nothing; a present list transfers exactly as a list |
| XferEngine.IntListRoundTrip | Core/GameEngine/Source/Common/System/Xfer.cpp:495-557 | saving fewer than 65536 integers writes version 1, the count and the elements, and loading those tokens into an empty list gives the list back |
| XferEngine.IntListCountTruncated | Core/GameEngine/Source/Common/System/Xfer.cpp:508-509 | a list of exactly 65536 elements is saved with count 0, so it loads back as the empty list and leaves its elements in the stream |
| XferEngine.IntListLoadNeedsEmptyTarget | Core/GameEngine/Source/Common/System/Xfer.cpp:531-537 | loading into a list that already holds elements throws `XFER_LIST_NOT_EMPTY` |
| XferEngine.IntListInvalidMode | Core/GameEngine/Source/Common/System/Xfer.cpp:550-555 | an object with no mode throws `XFER_MODE_UNKNOWN` |
| XferEngine.ScienceOutcome | Core/GameEngine/Source/Common/System/Xfer.cpp:561-606 | saving writes the science's name, CRC its number; loading looks the name up, yields the science found and throws `XFER_UNKNOWN_STRING` for an unknown name; no mode throws `XFER_MODE_UNKNOWN` |
| XferEngine.ScienceNames | Core/GameEngine/Source/Common/System/Xfer.cpp:625-632 | saving a science vector writes one name per science, in order |
| XferEngine.LoadedSciencesOfSaved | Core/GameEngine/Source/Common/System/Xfer.cpp:646-651 | when every name looks up to its science, loading the saved names gives the sciences back |
| XferEngine.ScienceVecRoundTrip | Core/GameEngine/Source/Common/System/Xfer.cpp:610-670 | a vector of fewer than 65536 sciences is saved as version 1, the count and the names, and loads back into any vector, a non-empty one being cleared first |
| XferEngine.KindOfRoundTrip | Core/GameEngine/Source/Common/System/Xfer.cpp:678-723 | a kind-of bit is saved as version 1 and its name and loads back when its name maps to it |
| XferEngine.KindOfUnknownNameKeepsValue | Core/GameEngine/Source/Common/System/Xfer.cpp:699-706 | loading an unknown kind-of name leaves the destination's value as it was |
| XferEngine.Covered | Core/GameEngine/Source/Common/System/Xfer.cpp:749-758 | the templates whose bits are all set in the mask are a subsequence of the templates |
| XferEngine.CoveredMembers | Core/GameEngine/Source/Common/System/Xfer.cpp:749-758 | a template is covered iff it is one of the templates and its bits are all in the mask |
| XferEngine.FindUpgrade | Core/GameEngine/Source/Common/System/Xfer.cpp:793-801 | the template found carries the name, and None means no template carries it |
| XferEngine.FindUpgradeDistinct | Core/GameEngine/Source/Common/System/Xfer.cpp:793-801 | with distinct names, each template is found by its own name |
| XferEngine.LoadedUpgradesOfNames | Core/GameEngine/Source/Common/System/Xfer.cpp:784-806 | loading the names of known templates adds exactly the union of their bits to the mask |
| XferEngine.CoveredUnionWithin | Core/GameEngine/Source/Common/System/Xfer.cpp:749-758 | the bits of the covered templates are all in the mask |
| XferEngine.UpgradeMaskRoundTrip | Core/GameEngine/Source/Common/System/Xfer.cpp:727-824 | saving writes the covered templates' count and names in template order; loading them back gives the union of those templates' bits, which lies within the saved mask |
| XferEngine.UpgradeMaskUnknownName | Core/GameEngine/Source/Common/System/Xfer.cpp:794-801 | a name no template carries makes the load throw `XFER_UNKNOWN_STRING` |
| XferEngine.Xfer.constructor | Core/GameEngine/Source/Common/System/Xfer.cpp:42-48 | a new transfer object has no mode, no options and an empty stream |
| XferEngine.Xfer.Open | Core/GameEngine/Source/Common/System/Xfer.cpp:60-66 | opening records the identifier and changes nothing else |
| XferEngine.Xfer.XferNum | Core/GameEngine/Source/Common/System/Xfer.cpp:116-157 | the integer transfer agrees with `NumOutcome`: the value handed back, the new stream and the error |
| XferEngine.Xfer.XferReal | Core/GameEngine/Source/Common/System/Xfer.cpp:161-166 | the real transfer agrees with `RealOutcome` |
| XferEngine.Xfer.XferAsciiString | Core/GameEngine/Source/Common/System/Xfer.cpp:186-191 | the string transfer agrees with `TextOutcome` |
| XferEngine.Xfer.XferVersion | Core/GameEngine/Source/Common/System/Xfer.cpp:79-94 | the version transfer agrees with `VersionOutcome`, refusing newer versions |
| XferEngine.Xfer.XferMapName | Core/GameEngine/Source/Common/System/Xfer.cpp:170-182 | the map-name transfer agrees with `MapNameOutcome` |
| XferEngine.Xfer.XferCoord3D | Core/GameEngine/Source/Common/System/Xfer.cpp:210-217 | agrees with `Coord3DOutcome` |
| XferEngine.Xfer.XferRegion3D | Core/GameEngine/Source/Common/System/Xfer.cpp:232-238 | agrees with `Region3DOutcome` |
| XferEngine.Xfer.XferMatrix3D | Core/GameEngine/Source/Common/System/Xfer.cpp:837-862 | agrees with `Matrix3DOutcome` |
| XferEngine.Xfer.LoadNums | Core/GameEngine/Source/Common/System/Xfer.cpp:406-413 | the element loop agrees with `LoadedNums` |
| XferEngine.Xfer.SaveNums | Core/GameEngine/Source/Common/System/Xfer.cpp:386-393 | the element loop appends exactly `Nums(xs)` to the stream |
| XferEngine.Xfer.XferIntList | Core/GameEngine/Source/Common/System/Xfer.cpp:364-557 | the list transfers agree with `IntListOutcome`: version, 16-bit count, elements, the empty-target rule and the unknown-mode error |
| XferEngine.Xfer.XferOptionalIntList | Core/GameEngine/Source/Common/System/Xfer.cpp:495-557 | agrees with `OptionalIntListOutcome` |
| XferEngine.Xfer.XferScienceType | Core/GameEngine/Source/Common/System/Xfer.cpp:561-606 | agrees with `ScienceOutcome` |
| XferEngine.Xfer.XferScienceVec | Core/GameEngine/Source/Common/System/Xfer.cpp:610-670 | agrees with `ScienceVecOutcome` |
| XferEngine.Xfer.XferKindOf | Core/GameEngine/Source/Common/System/Xfer.cpp:678-723 | agrees with `KindOfOutcome` |
| XferEngine.Xfer.XferUpgradeMask | Core/GameEngine/Source/Common/System/Xfer.cpp:727-824 | agrees with `UpgradeMaskOutcome` |
| XferEngine.Xfer.SaveCoveredNames | Core/GameEngine/Source/Common/System/Xfer.cpp:764-772 | the save loop appends exactly the names of the covered templates, in template order |
| XferEngine.Xfer.LoadUpgrades | Core/GameEngine/Source/Common/System/Xfer.cpp:784-806 | the load loop agrees with `LoadedUpgrades` |
| RtsMoney.SumUpdate | Generals/Code/GameEngine/Source/Common/RTS/Money.cpp:92-121 | changing one bucket changes the sum of the buckets by the difference |
| RtsMoney.WrappedBucketAdd | Generals/Code/GameEngine/Source/Common/RTS/Money.cpp:94-95 | adding to a bucket and to the running total with 32-bit wrap-around keeps the total equal to the wrapped sum |
| RtsMoney.Taken | Generals/Code/GameEngine/Source/Common/RTS/Money.cpp:65-78 | the amount taken is the request clamped to the balance: never more than either, and equal to one of them |
| RtsMoney.NoIncome | Generals/Code/GameEngine/Source/Common/RTS/Money.cpp:105 | starting income is a full set of zeroed buckets |
| RtsMoney.BucketOf | Generals/Code/GameEngine/Source/Common/RTS/Money.cpp:114 | the bucket a frame selects is always a valid bucket index |
| RtsMoney.WithdrawKeepsValid | Generals/Code/GameEngine/Source/Common/RTS/Money.cpp:65-78 | withdrawing keeps the running total equal to the wrapped bucket sum, takes exactly what the balance loses (so the balance never underflows), takes the whole request when it is covered, and changes nothing for 0 |
| RtsMoney.DepositKeepsValid | Generals/Code/GameEngine/Source/Common/RTS/Money.cpp:82-99 | depositing keeps the running total equal to the wrapped bucket sum and adds the amount to the balance modulo 2^32 |
| RtsMoney.UpdateKeepsValid | Generals/Code/GameEngine/Source/Common/RTS/Money.cpp:111-121 | moving to the frame's bucket keeps the running total equal to the wrapped bucket sum, makes that bucket current and leaves the balance alone |
| RtsMoney.StartingCashValid | Generals/Code/GameEngine/Source/Common/RTS/Money.cpp:102-108 | setting the starting cash establishes the running-total invariant |
| RtsMoney.Wrapped | Generals/Code/GameEngine/Source/Common/RTS/Money.cpp:178 | each loaded bucket is the stored value as an `UnsignedInt` |
| RtsMoney.MoneyOutcomeValid | Generals/Code/GameEngine/Source/Common/RTS/Money.cpp:157-183 | every successful load establishes the running-total invariant, by `setStartingCash` for version 1 and by recomputing the sum for version 2 |
| RtsMoney.IncomeOutcomeValid | Generals/Code/GameEngine/Source/Common/RTS/Money.cpp:176-182 | loading the buckets and index recomputes the running total as their sum |
| RtsMoney.IncomeLoaded | Generals/Code/GameEngine/Source/Common/RTS/Money.cpp:176-182 | the saved buckets and index load back unchanged |
| RtsMoney.MoneySaved | Generals/Code/GameEngine/Source/Common/RTS/Money.cpp:157-183 | saving writes version 2, the balance, the buckets and the index and changes nothing |
| RtsMoney.MoneyLoaded | Generals/Code/GameEngine/Source/Common/RTS/Money.cpp:157-183 | a saved money record loads back to the same state |
| RtsMoney.MoneyLegacyLoad | Generals/Code/GameEngine/Source/Common/RTS/Money.cpp:172-175 | a version-1 record resets income tracking to the starting-cash state for the loaded balance |
| RtsMoney.MoneyRejectsNewer | Generals/Code/GameEngine/Source/Common/RTS/Money.cpp:161-167 | a record newer than the current version is refused |
| RtsMoney.Money.constructor | Generals/Code/GameEngine/Source/Common/RTS/Money.cpp:102-108 | a new account is the starting-cash state for 0 |
| RtsMoney.Money.Withdraw | Generals/Code/GameEngine/Source/Common/RTS/Money.cpp:56-79 | takes `Taken` and leaves `AfterWithdraw` of the old state, keeping the invariant |
| RtsMoney.Money.Deposit | Generals/Code/GameEngine/Source/Common/RTS/Money.cpp:82-99 | leaves `AfterDeposit` of the old state, keeping the invariant |
| RtsMoney.Money.SetStartingCash | Generals/Code/GameEngine/Source/Common/RTS/Money.cpp:102-108 | the balance is set and every bucket, the index and the running total are zero |
| RtsMoney.Money.UpdateIncomeBucket | Generals/Code/GameEngine/Source/Common/RTS/Money.cpp:111-121 | leaves `AfterUpdate` of the old state, keeping the invariant |
| RtsMoney.Money.GetCashPerMinute | Generals/Code/GameEngine/Source/Common/RTS/Money.cpp:124-127 | the income per minute is the wrapped sum of the buckets |
| RtsMoney.Money.Accumulate | Generals/Code/GameEngine/Source/Common/RTS/Money.cpp:181 | the accumulation loop computes the wrapped sum of the buckets |
| RtsMoney.Money.StoreBuckets | Generals/Code/GameEngine/Source/Common/RTS/Money.cpp:178 | the loaded buckets are stored in the array |
| RtsMoney.Money.XferBuckets | Generals/Code/GameEngine/Source/Common/RTS/Money.cpp:178 | the bucket transfer agrees with `BucketsOutcome` and loads exactly one value per bucket |
| RtsMoney.Money.XferIncome | Generals/Code/GameEngine/Source/Common/RTS/Money.cpp:176-182 | agrees with `IncomeOutcome` |
| RtsMoney.Money.Xfer | Generals/Code/GameEngine/Source/Common/RTS/Money.cpp:157-183 | agrees with `MoneyOutcome` and keeps the invariant on success |
| FrameRateLimit.TableShape | Core/GameEngine/Source/Common/FrameRateLimit.cpp:61-62 | the render preset table is strictly increasing and ends with `UncappedFpsValue` |
| FrameRateLimit.GetNextFpsValue | Core/GameEngine/Source/Common/FrameRateLimit.cpp:66-78 | the result is a table entry; inside the table's span it is the smallest entry above the value; any other value gives the last entry |
| FrameRateLimit.GetPrevFpsValue | Core/GameEngine/Source/Common/FrameRateLimit.cpp:80-92 | the result is a table entry; inside the span it is the largest entry below the value; any other value gives the first entry |
| FrameRateLimit.ChangeFpsValue | Core/GameEngine/Source/Common/FrameRateLimit.cpp:94-102 | the result is a table entry; Increase moves up and Decrease moves down inside the span |
| FrameRateLimit.NextPrevNeighbours | Core/GameEngine/Source/Common/FrameRateLimit.cpp:66-92 | from an inner table entry, next and prev give its two neighbours |
| FrameRateLimit.LogicNextFps | Core/GameEngine/Source/Common/FrameRateLimit.cpp:105-108 | the next logic value is the value plus 5 as an `UnsignedInt` |
| FrameRateLimit.LogicPrevWrapsBelowStep | Core/GameEngine/Source/Common/FrameRateLimit.cpp:110-120 | as written, below 5 the unsigned difference wraps, passes the minimum test and is returned |
| FrameRateLimit.LogicPrevOfThree | Core/GameEngine/Source/Common/FrameRateLimit.cpp:110-120 | as written, the previous logic value of 3 is 4294967294 |
| FrameRateLimit.LogicPrevFps | Core/GameEngine/Source/Common/FrameRateLimit.cpp:110-120 | corrected: 5 less, but never below the minimum |
| FrameRateLimit.LogicPrevAgrees | Core/GameEngine/Source/Common/FrameRateLimit.cpp:110-120 | whenever the subtraction does not wrap, the code as written and the corrected step agree |
| FrameRateLimit.LogicNextPrev | Core/GameEngine/Source/Common/FrameRateLimit.cpp:105-120 | stepping up then down returns to any value at or above the minimum |
| FrameRateLimit.LogicChangeFps | Core/GameEngine/Source/Common/FrameRateLimit.cpp:122-130 | Increase adds 5 and the corrected Decrease never goes below the minimum |
| FramePacing.FramePacer.constructor | Core/GameEngine/Source/Common/FramePacer.cpp:38-44 | the limit starts at `BaseFps`, the logic scale at the logic frame rate, with every flag false |
| FramePacing.FramePacer.SetFramesPerSecondLimit | Core/GameEngine/Source/Common/FramePacer.cpp:61-70 | the getter returns what was set and every other field is unchanged |
| FramePacing.FramePacer.EnableFramesPerSecondLimit | Core/GameEngine/Source/Common/FramePacer.cpp:72-80 | the getter returns what was set and every other field is unchanged |
| FramePacing.FramePacer.SetLogicTimeScaleFps | Core/GameEngine/Source/Common/FramePacer.cpp:148-156 | the getter returns what was set and every other field is unchanged |
| FramePacing.FramePacer.EnableLogicTimeScale | Core/GameEngine/Source/Common/FramePacer.cpp:158-166 | the getter returns what was set and every other field is unchanged |
| FramePacing.FramePacer.SetTimeFrozen | Core/GameEngine/Source/Common/FramePacer.cpp:128-141 | the getter returns what was set and every other field is unchanged |
| FramePacing.FramePacer.SetGameHalted | Core/GameEngine/Source/Common/FramePacer.cpp:133-146 | the getter returns what was set and every other field is unchanged |
| FramePacing.FramePacer.IsActualFramesPerSecondLimitEnabled | Core/GameEngine/Source/Common/FramePacer.cpp:82-104 | in the default build, never enabled without the global and local switches; a fast view or script time, or an unpaused fast-forwarded replay, turns the limit off; otherwise it is on |
| FramePacing.FramePacer.GetActualFramesPerSecondLimit | Core/GameEngine/Source/Common/FramePacer.cpp:106-109 | the configured limit iff the limit is actually enabled, else `UncappedFpsValue` |
| FramePacing.FramePacer.GetActualLogicTimeScaleFps | Core/GameEngine/Source/Common/FramePacer.cpp:168-192 | 0 when frozen or halted unless the flags ignore that; otherwise the network's rate, then the enabled logic scale, then `UncappedFpsValue` |
| MapUtil.StartRunMeaning | Generals/Code/GameEngine/Source/GameClient/MapUtil.cpp:295-308 | the start-spot loop copies the consecutive `Player_i_Start` waypoints from i+1 on, stops at the first missing one and never passes `MAX_SLOTS` |
| MapUtil.NumStartSpots | Generals/Code/GameEngine/Source/GameClient/MapUtil.cpp:275-311 | the number of start spots is between 1 and `MAX_SLOTS` |
| MapUtil.NumStartSpotsCounts | Generals/Code/GameEngine/Source/GameClient/MapUtil.cpp:294-310 | with several start spots, Player_1 to Player_n all exist and the next does not; without Player_1_Start the count is 1 |
| MapUtil.KeptStep | Generals/Code/GameEngine/Source/GameClient/MapUtil.cpp:298-303 | finding the next start waypoint adds exactly it to the kept waypoints |
| MapUtil.WaypointMap.Update | Generals/Code/GameEngine/Source/GameClient/MapUtil.cpp:275-311 | no parsed waypoints: one start spot and the map untouched; otherwise the map is rebuilt from the camera waypoint and the run of start waypoints, counted as `NumStartSpots` |
| MapUtil.SweepWithoutSightings | Generals/Code/GameEngine/Source/GameClient/MapUtil.cpp:460-497 | marking then sweeping with no map seen in between erases exactly the entries under the directory |
| MapUtil.SeenSurvives | Generals/Code/GameEngine/Source/GameClient/MapUtil.cpp:460-497 | an entry re-marked existing after the marking survives the sweep unchanged |
| MapUtil.TruncateBy | Generals/Code/GameEngine/Source/GameClient/MapUtil.cpp:542 | `truncateBy` drops n characters from the end, leaving the empty string when there are fewer |
| MapUtil.MapPathNameSound | Generals/Code/GameEngine/Source/GameClient/MapUtil.cpp:530-556 | a path that passes the checks ends, ignoring case, in `<name>\<name>.map` with a name free of `\`, allowed by the filter when there is one |
| MapUtil.MapPathNameComplete | Generals/Code/GameEngine/Source/GameClient/MapUtil.cpp:530-556 | every path ending that way, with an allowed name, passes the checks with that name |
| MapUtil.NameAfterComplete | Generals/Code/GameEngine/Source/GameClient/MapUtil.cpp:533-556 | the last `\` of such a path is the one before the file name, so the name taken after it is the map's name |
| MapUtil.MapCache.constructor | Generals/Code/GameEngine/Source/GameClient/MapUtil.cpp:315-330 | a new cache has no entries and no allowed maps |
| MapUtil.MapCache.PrepareUnseenMaps | Generals/Code/GameEngine/Source/GameClient/MapUtil.cpp:460-472 | every entry under the directory (by a case-insensitive prefix) is marked unseen; keys and other entries are unchanged |
| MapUtil.MapCache.ClearUnseenMaps | Generals/Code/GameEngine/Source/GameClient/MapUtil.cpp:474-497 | erases exactly the unseen entries under the directory, reports whether any was erased, and leaves everything else untouched |
| MapUtil.MapCache.AddMap | Generals/Code/GameEngine/Source/GameClient/MapUtil.cpp:575-713 | a cache hit (equal size, non-zero CRC) only marks the entry existing and reports no change; otherwise the entry is recached from the loaded map, multiplayer iff at least 2 players, and reported as a change |
| MapUtil.MapCache.AddListedMaps | Generals/Code/GameEngine/Source/GameClient/MapUtil.cpp:527-565 | every path that passes the checks has its entry present and marked existing, and nothing else changes |
| MapUtil.MapCache.AddListed | Generals/Code/GameEngine/Source/GameClient/MapUtil.cpp:528-564 | a path that fails a check changes nothing; one that passes leaves its entry present and marked existing |
| MapUtil.MapCache.LoadMapsFromDisk | Generals/Code/GameEngine/Source/GameClient/MapUtil.cpp:511-573 | afterwards every entry under the directory exists, every listed map is cached and existing, entries elsewhere are untouched, and unseen entries under the directory are gone |
| MapUtil.IsValidMap | Generals/Code/GameEngine/Source/GameClient/MapUtil.cpp:1009-1026 | FALSE without a cache or for an empty name; otherwise TRUE iff the lower-cased name is cached with the requested multiplayer flag |
| MapUtil.ValidMapOfCachedKey | Generals/Code/GameEngine/Source/GameClient/MapUtil.cpp:1009-1026 | any spelling of a cached map's name, in any ASCII case, is valid for exactly that map's multiplayer flag |
| MapUtil.BelowTransitive | Generals/Code/GameEngine/Source/GameClient/MapUtil.cpp:1037-1044 | the key order the cache is visited in is transitive |
| MapUtil.BelowTotal | Generals/Code/GameEngine/Source/GameClient/MapUtil.cpp:1037-1044 | the key order is total and asymmetric |
| MapUtil.GetDefaultMap | Generals/Code/GameEngine/Source/GameClient/MapUtil.cpp:1031-1047 | without a cache, or when no map matches the flag, the empty string; otherwise the least matching key in the cache's order |
| MapUtil.PreviewName | Generals/Code/GameEngine/Source/GameClient/MapUtil.cpp:1155-1163 | every `\` and `:` becomes `_` and every other character is kept, so neither remains |
| W3DFileSystem.ExtensionIsSuffix | Generals/Code/GameEngineDevice/Source/W3DDevice/GameClient/W3DFileSystem.cpp:126-140 | the suffix from the last `.` equals a plain extension, ignoring case, iff the name ends with it |
| W3DFileSystem.FileTypeBySuffix | Generals/Code/GameEngineDevice/Source/W3DDevice/GameClient/W3DFileSystem.cpp:126-140 | W3D, TGA and DDS exactly for names ending in `.w3d`, `.tga` and `.dds` (ignoring case); unknown for every other name |
| W3DFileSystem.ImageBySuffix | Generals/Code/GameEngineDevice/Source/W3DDevice/GameClient/W3DFileSystem.cpp:119-122 | a name is an image iff it ends in `.tga` or `.dds` |
| W3DFileSystem.Bounded | Generals/Code/GameEngineDevice/Source/W3DDevice/GameClient/W3DFileSystem.cpp:152 | the stored name is the longest prefix that fits in `_MAX_PATH`, the whole name when it fits |
| W3DFileSystem.CopyIsBounded | Generals/Code/GameEngineDevice/Source/W3DDevice/GameClient/W3DFileSystem.cpp:152 | copying the name into the `_MAX_PATH` buffer leaves a terminated string equal to `Bounded(name)` |
| W3DFileSystem.AppendIsInDir | Generals/Code/GameEngineDevice/Source/W3DDevice/GameClient/W3DFileSystem.cpp:160-168 | appending the name to a directory prefix leaves the prefix followed by as much of the name as fits |
| W3DFileSystem.Candidates | Generals/Code/GameEngineDevice/Source/W3DDevice/GameClient/W3DFileSystem.cpp:154-283 | the candidate paths start with the primary path for the file type |
| W3DFileSystem.ProbeFindsFirst | Generals/Code/GameEngineDevice/Source/W3DDevice/GameClient/W3DFileSystem.cpp:175-283 | probing finds a path iff some candidate exists, and then it is the first existing one; otherwise the last candidate is left |
| W3DFileSystem.PrimaryWins | Generals/Code/GameEngineDevice/Source/W3DDevice/GameClient/W3DFileSystem.cpp:175 | when the primary path exists no fallback is tried |
| W3DFileSystem.UnknownStaysAsGiven | Generals/Code/GameEngineDevice/Source/W3DDevice/GameClient/W3DFileSystem.cpp:171-175 | a name of unknown type is looked up as given |
| W3DFileSystem.NoGlobalDataChain | Generals/Code/GameEngineDevice/Source/W3DDevice/GameClient/W3DFileSystem.cpp:230-283 | without global data only the localised texture directory is tried after the primary path, and only for images |
| W3DFileSystem.ResolvePath | Generals/Code/GameEngineDevice/Source/W3DDevice/GameClient/W3DFileSystem.cpp:154-283 | the step-by-step fallback chain returns what `Probe` over `Candidates` returns |
| W3DFileSystem.SeekModeOf | Generals/Code/GameEngineDevice/Source/W3DDevice/GameClient/W3DFileSystem.cpp:351-364 | `SEEK_SET` seeks from the start, `SEEK_END` from the end, anything else from the current position |
| W3DFileSystem.GameFile.constructor | Generals/Code/GameEngineDevice/Source/W3DDevice/GameClient/W3DFileSystem.cpp:88-96 | a new file has no name, no path, does not exist and is not open |
| W3DFileSystem.GameFile.Named | Generals/Code/GameEngineDevice/Source/W3DDevice/GameClient/W3DFileSystem.cpp:73-84 | a file built from a name holds the bounded name and the path and existence found by the fallback chain |
| W3DFileSystem.GameFile.IsAvailable | Generals/Code/GameEngineDevice/Source/W3DDevice/GameClient/W3DFileSystem.cpp:294-300 | available iff the fallback chain found the file |
| W3DFileSystem.GameFile.SetName | Generals/Code/GameEngineDevice/Source/W3DDevice/GameClient/W3DFileSystem.cpp:145-289 | closes the file, stores the bounded name and the path and existence found by the fallback chain, and returns the name |
| W3DFileSystem.GameFile.OpenNamed | Generals/Code/GameEngineDevice/Source/W3DDevice/GameClient/W3DFileSystem.cpp:313-320 | sets the name, then opens for reading only when the file exists; success iff the open succeeds |
| W3DFileSystem.GameFile.Open | Generals/Code/GameEngineDevice/Source/W3DDevice/GameClient/W3DFileSystem.cpp:325-335 | any access other than read fails and changes nothing; a read open succeeds iff the layer opens the path |
| W3DFileSystem.GameFile.Read | Generals/Code/GameEngineDevice/Source/W3DDevice/GameClient/W3DFileSystem.cpp:340-346 | 0 with no file open, else the layer's read |
| W3DFileSystem.GameFile.Seek | Generals/Code/GameEngineDevice/Source/W3DDevice/GameClient/W3DFileSystem.cpp:351-364 | 0xFFFFFFFF with no file open, else the layer's seek in the mapped mode |
| W3DFileSystem.GameFile.Size | Generals/Code/GameEngineDevice/Source/W3DDevice/GameClient/W3DFileSystem.cpp:369-375 | 0xFFFFFFFF with no file open, else the layer's size |
| W3DFileSystem.GameFile.Write | Generals/Code/GameEngineDevice/Source/W3DDevice/GameClient/W3DFileSystem.cpp:380-385 | writing always returns 0 |
| W3DFileSystem.GameFile.Close | Generals/Code/GameEngineDevice/Source/W3DDevice/GameClient/W3DFileSystem.cpp:390-396 | the file is closed (again harmlessly) and nothing else changes |
| W3DFileSystem.SuperiorIsNotInferior | Generals/Code/GameEngineDevice/Source/W3DDevice/GameClient/W3DFileSystem.cpp:497-499 | an archive name cannot end with both archive names the swap test compares |
| W3DFileSystem.FirstSwap | Generals/Code/GameEngineDevice/Source/W3DDevice/GameClient/W3DFileSystem.cpp:478-512 | the first later entry of a group that the swap test selects, if any |
| W3DFileSystem.PrioritizedIsOneSwap | Generals/Code/GameEngineDevice/Source/W3DDevice/GameClient/W3DFileSystem.cpp:478-512 | the pass over a group swaps the anchor with the first selected entry and with nothing else |
| W3DFileSystem.PrioritizedPermutes | Generals/Code/GameEngineDevice/Source/W3DDevice/GameClient/W3DFileSystem.cpp:478-512 | the pass keeps a group's length and its multiset of archives |
| W3DFileSystem.PrioritizedKeepsOthers | Generals/Code/GameEngineDevice/Source/W3DDevice/GameClient/W3DFileSystem.cpp:483-499 | a non-image name, or a group whose anchor does not come from the inferior archive, is left alone |
| W3DFileSystem.ReprioritizedKeepsEntries | Generals/Code/GameEngineDevice/Source/W3DDevice/GameClient/W3DFileSystem.cpp:463-517 | keys are unchanged and each key keeps its multiset of archives |
| W3DFileSystem.PrioritizeGroup | Generals/Code/GameEngineDevice/Source/W3DDevice/GameClient/W3DFileSystem.cpp:478-512 | the in-place pass over a group leaves exactly `Prioritized` of the old group |
| W3DFileSystem.ReprioritizeTexturesBySize | Generals/Code/GameEngineDevice/Source/W3DDevice/GameClient/W3DFileSystem.cpp:463-517 | only the directory's file entries change, to `ReprioritizedFiles` |
| GhostObjects.NoSnapshots | GeneralsMD/Code/GameEngineDevice/Source/W3DDevice/GameLogic/W3DGhostObject.cpp:296-297 | a new ghost has an empty snapshot chain for each of the MAX_PLAYER_COUNT players |
| GhostObjects.AllFreed | GeneralsMD/Code/GameEngineDevice/Source/W3DDevice/GameLogic/W3DGhostObject.cpp:481-492 | freeing all snapshots empties every slot when all players are tracked, otherwise only the local player's slot, and leaves the others as they were |
| GhostObjects.LoadedZeroCount | GeneralsMD/Code/GameEngineDevice/Source/W3DDevice/GameLogic/W3DGhostObject.cpp:636-646 | loading a count of 0 over a slot that already holds snapshots is invalid data; over an empty slot it is accepted and consumes the count |
| GhostObjects.SavedCount | GeneralsMD/Code/GameEngineDevice/Source/W3DDevice/GameLogic/W3DGhostObject.cpp:620-636 | saving a slot with fewer than 256 snapshots appends its exact count and cannot fail |
| GhostObjects.SavedCountWraps | GeneralsMD/Code/GameEngineDevice/Source/W3DDevice/GameLogic/W3DGhostObject.cpp:620-646 | a slot of 256 snapshots wraps the byte counter to 0, so saving it trips the zero-count check |
| GhostObjects.CountRoundTrip | GeneralsMD/Code/GameEngineDevice/Source/W3DDevice/GameLogic/W3DGhostObject.cpp:620-646 | a count of fewer than 256 loaded back over the same slot is accepted unchanged and consumes exactly one token |
| GhostObjects.GhostObject.constructor | GeneralsMD/Code/GameEngineDevice/Source/W3DDevice/GameLogic/W3DGhostObject.cpp:294-306 | a new ghost has no snapshots, no drawable, no parent object, no partition data and is on no list |
| GhostObjects.GhostObject.FreeSnapShot | GeneralsMD/Code/GameEngineDevice/Source/W3DDevice/GameLogic/W3DGhostObject.cpp:497-525 | the given player's chain becomes empty and every other slot and field is unchanged |
| GhostObjects.GhostObject.FreeAllSnapShots | GeneralsMD/Code/GameEngineDevice/Source/W3DDevice/GameLogic/W3DGhostObject.cpp:481-492 | the slots become AllFreed of the old slots and no other field changes |
| GhostObjects.GhostObject.XferSnapshotCount | GeneralsMD/Code/GameEngineDevice/Source/W3DDevice/GameLogic/W3DGhostObject.cpp:620-646 | the count transferred and the stream left behind agree with SnapshotCountOutcome, including the invalid-data error |
| GhostObjects.CountChain | GeneralsMD/Code/GameEngineDevice/Source/W3DDevice/GameLogic/W3DGhostObject.cpp:620-633 | walking the chain with a byte counter yields the chain length modulo 256 |
| GhostObjects.RemovedHeld | GeneralsMD/Code/GameEngineDevice/Source/W3DDevice/GameLogic/W3DGhostObject.cpp:848-871 | removing a ghost keeps its parent object and drawable, frees its snapshots as AllFreed says, and clears partition data only in the orphan sweep |
| GhostObjects.SweepEverything | GeneralsMD/Code/GameEngineDevice/Source/W3DDevice/GameLogic/W3DGhostObject.cpp:836-843 | sweeping every ghost leaves the used list empty and moves the ghosts onto the free list in reverse order |
| GhostObjects.SweepPartitions | GeneralsMD/Code/GameEngineDevice/Source/W3DDevice/GameLogic/W3DGhostObject.cpp:819-832 | a sweep splits the used list into survivors and removed ghosts that together are exactly the old used list as a multiset |
| GhostObjects.SweepWithin | GeneralsMD/Code/GameEngineDevice/Source/W3DDevice/GameLogic/W3DGhostObject.cpp:819-832 | survivors and removed ghosts both come from the old used list |
| GhostObjects.SweepSelects | GeneralsMD/Code/GameEngineDevice/Source/W3DDevice/GameLogic/W3DGhostObject.cpp:970-1013 | a ghost survives a sweep if and only if the sweep does not select it, and is removed if and only if it does |
| GhostObjects.CountStoredSnapshots | GeneralsMD/Code/GameEngineDevice/Source/W3DDevice/GameLogic/W3DGhostObject.cpp:982-1001 | on the slots as they stand before the shroud update, the count is zero exactly when neither the listed players nor the local player hold a snapshot of the ghost, and is at most one more than the number of listed players |
| GhostObjects.GhostObjectManager.constructor | GeneralsMD/Code/GameEngineDevice/Source/W3DDevice/GameLogic/W3DGhostObject.cpp:790-794 | a new manager has empty used and free lists and satisfies the list invariant |
| GhostObjects.GhostObjectManager.Unlink | GeneralsMD/Code/GameEngineDevice/Source/W3DDevice/GameLogic/W3DGhostObject.cpp:858-863 | unlinking a used ghost removes exactly that ghost from the used list, keeps both lists well linked, and changes no ghost's payload |
| GhostObjects.GhostObjectManager.PushFree | GeneralsMD/Code/GameEngineDevice/Source/W3DDevice/GameLogic/W3DGhostObject.cpp:866-870 | the ghost becomes the head of the free list, the used list is unchanged, and the list invariant holds |
| GhostObjects.GhostObjectManager.RemoveGhostObject | GeneralsMD/Code/GameEngineDevice/Source/W3DDevice/GameLogic/W3DGhostObject.cpp:848-871 | null is ignored; otherwise the ghost's snapshots are freed, it leaves the used list at its position and heads the free list, and no other ghost changes |
| GhostObjects.GhostObjectManager.PopFree | GeneralsMD/Code/GameEngineDevice/Source/W3DDevice/GameLogic/W3DGhostObject.cpp:895-909 | the free list's head is taken off it, or null when the free list is empty, and the used list is unchanged |
| GhostObjects.GhostObjectManager.PushUsed | GeneralsMD/Code/GameEngineDevice/Source/W3DDevice/GameLogic/W3DGhostObject.cpp:911-915 | the ghost becomes the head of the used list, the free list is unchanged, and the list invariant holds |
| GhostObjects.GhostObjectManager.AddGhostObject | GeneralsMD/Code/GameEngineDevice/Source/W3DDevice/GameLogic/W3DGhostObject.cpp:875-924 | while locked nothing changes and null is returned; otherwise the free head (or a fresh ghost without snapshots) becomes the used head, attached to the given object and partition data |
| GhostObjects.GhostObjectManager.Attach | GeneralsMD/Code/GameEngineDevice/Source/W3DDevice/GameLogic/W3DGhostObject.cpp:918-921 | the ghost records the parent object and partition data, has no drawable and is its own drawable-info ghost |
| GhostObjects.GhostObjectManager.Selects | GeneralsMD/Code/GameEngineDevice/Source/W3DDevice/GameLogic/W3DGhostObject.cpp:980-1003 | the method's decision to remove a ghost equals the Swept predicate for the ghost's held state |
| GhostObjects.GhostObjectManager.ClearPartitionData | GeneralsMD/Code/GameEngineDevice/Source/W3DDevice/GameLogic/W3DGhostObject.cpp:1005-1006 | only the ghost's partition data is cleared |
| GhostObjects.GhostObjectManager.SweepOut | GeneralsMD/Code/GameEngineDevice/Source/W3DDevice/GameLogic/W3DGhostObject.cpp:1005-1007 | the selected ghost moves from its place in the used list to the head of the free list with its payload as RemovedHeld says; no other ghost changes |
| GhostObjects.GhostObjectManager.SweepStep | GeneralsMD/Code/GameEngineDevice/Source/W3DDevice/GameLogic/W3DGhostObject.cpp:975-1011 | one step of the walk removes the ghost exactly when it is swept, and returns the ghost that followed it before the step |
| GhostObjects.GhostObjectManager.RemoveSwept | GeneralsMD/Code/GameEngineDevice/Source/W3DDevice/GameLogic/W3DGhostObject.cpp:819-832 | the walk leaves the survivors on the used list in order, puts the removed ghosts ahead of the old free list, gives every walked ghost its after-sweep payload, and leaves the ghosts already free and the lock flags unchanged |
| GhostObjects.GhostObjectManager.UpdateOrphanedObjects | GeneralsMD/Code/GameEngineDevice/Source/W3DDevice/GameLogic/W3DGhostObject.cpp:970-1013 | orphaned ghosts that, before the shroud update, no listed player and not the local player hold a snapshot of are released to the free list; every other ghost stays in order; ghosts already free and the lock flags are unchanged |
| GhostObjects.GhostObjectManager.Reset | GeneralsMD/Code/GameEngineDevice/Source/W3DDevice/GameLogic/W3DGhostObject.cpp:815-844 | after reset the used list is empty; the free list holds the ghosts with a parent object, last one first, then the parentless ones, last removed first, ahead of the old free list; every ghost of the old used list has its snapshots freed as `RemovedHeld` says, and the ghosts already on the free list, the lock flags, the local player and the tracking flag are unchanged |
| GhostObjects.GhostObjectManager.RemoveRemaining | GeneralsMD/Code/GameEngineDevice/Source/W3DDevice/GameLogic/W3DGhostObject.cpp:836-843 | the second walk empties the used list, puts its ghosts on the free list in reverse order ahead of the old free list, and frees each one's snapshots as `RemovedHeld` says; ghosts already free keep their payload |
| StringEx.NLen | Core/Libraries/Source/WWVegas/WWLib/stringex.h:71-80 | the bounded length is at most the bound, covers only non-zero characters, and stops at a zero character when below the bound |
| StringEx.StrLen | Core/Libraries/Source/WWVegas/WWLib/stringex.h:61-69 | the length is the index of the first zero character |
| StringEx.LCpyTerminatedWithin | Core/Libraries/Source/WWVegas/WWLib/stringex.h:87-100 | after strlcpy the destination holds a zero-terminated prefix of the source of length min(srclen, dstsize-1) and nothing at or past dstsize changes |
| StringEx.LCpyTruncationSignal | Core/Libraries/Source/WWVegas/WWLib/stringex.h:87-100 | the copy is complete exactly when the returned source length is below dstsize |
| StringEx.LCatKeepsAndAppends | Core/Libraries/Source/WWVegas/WWLib/stringex.h:102-124 | strlcat keeps the existing string, appends as much of the source as fits, terminates when there is room, and never writes past dstsize |
| StringEx.LCatTruncationSignal | Core/Libraries/Source/WWVegas/WWLib/stringex.h:102-124 | the append is complete exactly when the returned total length is below dstsize |
| StringEx.StrLenT | Core/Libraries/Source/WWVegas/WWLib/stringex.h:61-69 | the loop stops at the first zero character after the start, and its count is StrLen of the suffix |
| StringEx.StrNLenT | Core/Libraries/Source/WWVegas/WWLib/stringex.h:71-80 | the loop stops at the first zero character or at maxlen, and its count is NLen of the suffix |
| StringEx.CopyTerminated | Core/Libraries/Source/WWVegas/WWLib/stringex.h:96-97 | the non-overlapping copy writes the source run followed by a zero character at the offset and changes nothing else |
| StringEx.MoveTerminated | Core/Libraries/Source/WWVegas/WWLib/stringex.h:144-145 | the overlapping move writes the original source run followed by a zero character at the offset and changes nothing else |
| StringEx.StrLCpyT | Core/Libraries/Source/WWVegas/WWLib/stringex.h:90-100 | strlcpy returns the source length and leaves the destination as LCpy describes |
| StringEx.StrLCatT | Core/Libraries/Source/WWVegas/WWLib/stringex.h:105-124 | strlcat returns the bounded destination length plus the source length and leaves the destination as LCat describes |
| StringEx.MovedIsLCpy | Core/Libraries/Source/WWVegas/WWLib/stringex.h:138-148 | the move performed inside one buffer has the effect of LCpy on the destination part |
| StringEx.MovedIsLCat | Core/Libraries/Source/WWVegas/WWLib/stringex.h:153-172 | the append performed inside one buffer has the effect of LCat on the destination part |
| StringEx.StrLMoveT | Core/Libraries/Source/WWVegas/WWLib/stringex.h:138-148 | strlmove returns the source length and leaves the buffer as LCpy of the original source over the destination part, even when they overlap |
| StringEx.LCatUnchanged | Core/Libraries/Source/WWVegas/WWLib/stringex.h:109-122 | when there is nothing to append the destination is unchanged |
| StringEx.StrLMCatT | Core/Libraries/Source/WWVegas/WWLib/stringex.h:153-172 | strlmcat returns the bounded destination length plus the source length and leaves the buffer as LCat of the original source over the destination part, even when they overlap |
| CodeFormatting.SemicolonRun | scripts/cpp/apply_code_formatting.py:15-17 | the scan stops at the first character after the brace that is not a semicolon, and every character it passes is one |
| CodeFormatting.CommentCut | scripts/cpp/apply_code_formatting.py:18-22 | the line is cut only at the first "//", and only when the line has no "// namespace" comment |
| CodeFormatting.Formatted | scripts/cpp/apply_code_formatting.py:10-28 | a formatted line ends in exactly one newline with no whitespace before it |
| CodeFormatting.ApplyFormatting | scripts/cpp/apply_code_formatting.py:10-28 | the loop-based formatter computes Formatted(line): a newline-terminated line without trailing whitespace |
| CodeFormatting.NamespaceCommentKept | scripts/cpp/apply_code_formatting.py:18-26 | a line carrying a "// namespace" comment only loses its trailing whitespace |
| CodeFormatting.NoLeadingBraceKept | scripts/cpp/apply_code_formatting.py:12-26 | a line whose first '}' is preceded by a non-space character only loses its trailing whitespace |
| CodeFormatting.NoCommentKept | scripts/cpp/apply_code_formatting.py:18-26 | a line without "//" only loses its trailing whitespace |
| CodeFormatting.BraceCommentStripped | scripts/cpp/apply_code_formatting.py:12-26 | an indented '}' followed by semicolons, blanks and a comment keeps only the indentation, the brace and the semicolons |
| CodeFormatting.FormattedIdempotent | scripts/cpp/apply_code_formatting.py:10-28 | formatting a formatted line changes nothing |
| CodeFormatting.SecondPassAfterCut | scripts/cpp/apply_code_formatting.py:12-22 | after formatting, no removable scope-end comment remains |
| IncludeDedup.DedupByKey | scripts/cpp/remove_duplicate_include_directives.py:17-28 | the loop over lines keeps a line unless its key was already seen, and equals Deduped |
| IncludeDedup.RemoveDuplicateIncludes | scripts/cpp/remove_duplicate_include_directives.py:15-28 | the pass with the include pattern and stripped-line key equals Deduped under IncludeKey |
| IncludeDedup.DedupedIsSubsequence | scripts/cpp/remove_duplicate_include_directives.py:21-28 | the output is a subsequence of the input: lines are only dropped, never reordered or changed |
| IncludeDedup.UnkeyedKept | scripts/cpp/remove_duplicate_include_directives.py:22-28 | every line that is not an include directive is kept, in order |
| IncludeDedup.KeysKept | scripts/cpp/remove_duplicate_include_directives.py:24-27 | the output holds exactly the include keys of the input that were not already seen |
| IncludeDedup.DedupedDistinct | scripts/cpp/remove_duplicate_include_directives.py:25-27 | no include key occurs twice in the output |
| IncludeDedup.DistinctUnchanged | scripts/cpp/remove_duplicate_include_directives.py:21-28 | a file without duplicate includes is left unchanged |
| IncludeDedup.SecondPassIdentity | scripts/cpp/remove_duplicate_include_directives.py:15-31 | running the pass twice gives the same result as running it once |
| IncludeDedup.DedupedAppend | scripts/cpp/remove_duplicate_include_directives.py:21-28 | a line appended to the input is kept exactly when its key is new to everything before it |
| IncludeDedup.SelectSourceFiles | scripts/cpp/remove_duplicate_include_directives.py:33-38 | the walk selects the files with a .cpp, .h, .hpp, .c or .inl extension, in order |
| IncludeDedup.SourceFilesChosen | scripts/cpp/remove_duplicate_include_directives.py:36 | a file is selected if and only if it has one of the source extensions, and the selection keeps the walk's order |
| IncludeGuards.AsciiRestAgrees | scripts/cpp/replace_include_guards_with_pragma.py:33-42 | the directive text after "#" is the same whether whitespace is read with Unicode or with ASCII classes |
| IncludeGuards.BlankHasNoDirective | scripts/cpp/replace_include_guards_with_pragma.py:33-42 | a blank line matches none of the directive patterns |
| IncludeGuards.PragmaLineIsPragma | scripts/cpp/replace_include_guards_with_pragma.py:33 | the "#pragma once" line the script inserts matches the pragma-once pattern |
| IncludeGuards.PragmaIsNoGuardLine | scripts/cpp/replace_include_guards_with_pragma.py:33-55 | a pragma-once line is not blank and is neither a guard opening, a define nor an endif |
| IncludeGuards.InfoSound | scripts/cpp/replace_include_guards_with_pragma.py:33-55 | the line classification built from the patterns is consistent: the inserted pragma line is a non-blank pragma, the empty line is blank, blank implies comment-or-blank, and a pragma line is no guard line |
| IncludeGuards.HasSubstantiveContent | scripts/cpp/replace_include_guards_with_pragma.py:57-65 | the loop answers true exactly when some line in the range is neither blank nor comment-only |
| IncludeGuards.EndifFrom | scripts/cpp/replace_include_guards_with_pragma.py:67-83 | a found endif index lies between the start and the end of the file |
| IncludeGuards.MatchEndif | scripts/cpp/replace_include_guards_with_pragma.py:67-83 | the depth-tracking loop over directive lines returns EndifFrom |
| IncludeGuards.EndifFirst | scripts/cpp/replace_include_guards_with_pragma.py:67-83 | the returned line is the first endif after the start that brings the nesting depth to zero; none is returned exactly when no endif does |
| IncludeGuards.GuardAt | scripts/cpp/replace_include_guards_with_pragma.py:93-126 | a guard found at a line has its define after the opening and its endif after the define, inside the file |
| IncludeGuards.GuardFrom | scripts/cpp/replace_include_guards_with_pragma.py:93-128 | a guard found from a line starts inside the search limit |
| IncludeGuards.SearchLimit | scripts/cpp/replace_include_guards_with_pragma.py:90-91 | the search limit never exceeds the number of lines |
| IncludeGuards.FirstGuard | scripts/cpp/replace_include_guards_with_pragma.py:85-128 | a found guard opens inside the search window and is ordered opening, define, endif |
| IncludeGuards.GuardAtLine | scripts/cpp/replace_include_guards_with_pragma.py:94-126 | the per-line step of the search loop, with its lookahead loop for the define, returns GuardAt |
| IncludeGuards.FindGuard | scripts/cpp/replace_include_guards_with_pragma.py:85-128 | the search loop returns FirstGuard |
| IncludeGuards.DefineFound | scripts/cpp/replace_include_guards_with_pragma.py:105-117 | the define found carries the guard's macro, and every line skipped before it is blank or comment-only |
| IncludeGuards.GuardAtIsGuard | scripts/cpp/replace_include_guards_with_pragma.py:93-126 | what the search returns at a line satisfies the guard definition |
| IncludeGuards.GuardIsGuardAt | scripts/cpp/replace_include_guards_with_pragma.py:93-126 | every guard opening at a line is what the search returns there |
| IncludeGuards.FirstGuardIsFirst | scripts/cpp/replace_include_guards_with_pragma.py:85-128 | the returned guard is a guard and no earlier line opens one; none is returned exactly when no line in the window opens one |
| IncludeGuards.RemovalSetShape | scripts/cpp/replace_include_guards_with_pragma.py:158-175 | the removed lines are the opening, the define, the endif and, only when blank, the lines right before the opening, after the define and before the endif |
| IncludeGuards.KeepFromLength | scripts/cpp/replace_include_guards_with_pragma.py:178 | filtering keeps exactly the lines whose indices are not removed |
| IncludeGuards.LeadingBlankLines | scripts/cpp/replace_include_guards_with_pragma.py:196-198 | the count covers exactly the blank lines at the start |
| IncludeGuards.TrailingBlankLines | scripts/cpp/replace_include_guards_with_pragma.py:199-200 | the count covers exactly the blank lines at the end |
| IncludeGuards.DropLeadingBlank | scripts/cpp/replace_include_guards_with_pragma.py:197-198 | the pop loop removes exactly the leading blank lines |
| IncludeGuards.DropTrailingBlank | scripts/cpp/replace_include_guards_with_pragma.py:199-200 | the pop loop removes exactly the trailing blank lines |
| IncludeGuards.TrimBlankEdges | scripts/cpp/replace_include_guards_with_pragma.py:196-200 | the two loops together compute Trimmed |
| IncludeGuards.TrimmedShape | scripts/cpp/replace_include_guards_with_pragma.py:196-200 | the trimmed lines are a contiguous slice whose cut-off lines are blank and whose first and last lines are not |
| IncludeGuards.JoinedEnding | scripts/cpp/replace_include_guards_with_pragma.py:202 | the new text ends with a newline exactly when the original text did |
| IncludeGuards.HasPragmaIffCount | scripts/cpp/replace_include_guards_with_pragma.py:47-48 | a file has a pragma-once line exactly when the count of such lines is positive |
| IncludeGuards.PragmaCountTrimmed | scripts/cpp/replace_include_guards_with_pragma.py:196-200 | trimming blank edges keeps every pragma-once line |
| IncludeGuards.RejoinedLines | scripts/cpp/replace_include_guards_with_pragma.py:202 | splitting the joined output gives back the output lines |
| IncludeGuards.RejoinedKeepsPragma | scripts/cpp/replace_include_guards_with_pragma.py:194-202 | the written text, read back, still contains the "#pragma once" line |
| ReplaceGuards.InsertionIndex | scripts/cpp/replace_include_guards_with_pragma.py:180-192 | the insertion index is the number of kept lines before the guard opening, or 0 on the fallback path |
| ReplaceGuards.ReplaceGuardWithPragmaOnce | scripts/cpp/replace_include_guards_with_pragma.py:130-203 | the method computes Replaced, and an unchanged file is returned BOM-stripped with a reason |
| ReplaceGuards.RebuildLines | scripts/cpp/replace_include_guards_with_pragma.py:155-200 | removal, insertion and trimming together give ChangedLines |
| ReplaceGuards.FallbackUnreachable | scripts/cpp/replace_include_guards_with_pragma.py:184-192 | for a guard with content some line at or after the opening is kept, so the fallback index is never used |
| ReplaceGuards.WithPragmaHasOne | scripts/cpp/replace_include_guards_with_pragma.py:194 | inserting the pragma line into a file without one yields exactly one pragma-once line |
| ReplaceGuards.ReplacedChange | scripts/cpp/replace_include_guards_with_pragma.py:136-203 | a changed file is the kept lines before the guard, the pragma line and the kept lines after it, trimmed; it holds exactly one pragma-once line and keeps the final-newline state |
| ReplaceGuards.ReplaceAgainAfterChange | scripts/cpp/replace_include_guards_with_pragma.py:139-140 | running the script over its own output reports "already has #pragma once" and changes nothing |
| ReplaceGuards.ReplaceAgainAfterNoChange | scripts/cpp/replace_include_guards_with_pragma.py:139-150 | a file the script leaves alone is left alone again |
| ReplaceGuards.ReplaceIdempotent | scripts/cpp/replace_include_guards_with_pragma.py:130-203 | a second run never changes anything |
| ReplaceGuards.ReplaceIncludeGuard | scripts/cpp/replace_include_guards_with_pragma.py:130-203 | with the script's patterns, a changed file has exactly one pragma-once line and a second run does not change it |
| RemoveGuards.RemoveGuardFromText | scripts/cpp/remove_include_guards_pragma.py:120-167 | the method computes Removed, and an unchanged file is returned BOM-stripped with a reason |
| RemoveGuards.RemovalSparesPragma | scripts/cpp/remove_include_guards_pragma.py:147-156 | none of the removed lines is a pragma-once line |
| RemoveGuards.GuardlessKeepsPragma | scripts/cpp/remove_include_guards_pragma.py:147-164 | removal and trimming keep every pragma-once line |
| RemoveGuards.RemovedChange | scripts/cpp/remove_include_guards_pragma.py:127-167 | a changed file is the kept lines, trimmed; it keeps the same positive number of pragma-once lines and the final-newline state |
| RemoveGuards.RemoveIncludeGuard | scripts/cpp/remove_include_guards_pragma.py:120-167 | with the script's patterns, a changed file keeps its pragma-once lines |
| MscPragma.KindExact | scripts/cpp/remove_mscver_from_pragma.py:25-38 | the line kind is the MSC guard, pragma-once, endif or blank kind exactly when the corresponding pattern matches |
| MscPragma.BlankIsNoDirective | scripts/cpp/remove_mscver_from_pragma.py:25-38 | a blank line carries no directive |
| MscPragma.BlankRun | scripts/cpp/remove_mscver_from_pragma.py:62-63 | the skip loop passes exactly the run of blank lines from the given index |
| MscPragma.BlockAt | scripts/cpp/remove_mscver_from_pragma.py:58-82 | a block found at an MSC guard line has its pragma after the guard and its endif after the pragma, inside the file |
| MscPragma.BlockAtShape | scripts/cpp/remove_mscver_from_pragma.py:58-82 | a found block is a guard line, blank lines, the pragma, blank lines and an endif |
| MscPragma.FindBlock | scripts/cpp/remove_mscver_from_pragma.py:58-82 | the scanning loops return BlockAt |
| MscPragma.UnguardStep | scripts/cpp/remove_mscver_from_pragma.py:53-94 | where no block starts the scan moves on by one line; where one does the lines are rewritten and the scan resumes one line above the guard |
| MscPragma.UnguardAt | scripts/cpp/remove_mscver_from_pragma.py:53-94 | one step of the loop preserves the final result and the changed flag, and decreases the remaining work |
| MscPragma.UnguardLines | scripts/cpp/remove_mscver_from_pragma.py:48-96 | the loop computes UnguardFrom from line 0 |
| MscPragma.UnguardMscPragmaOnce | scripts/cpp/remove_mscver_from_pragma.py:48-96 | the text is rejoined from the unguarded lines, it changes exactly when some line starts a block, and an unchanged text is returned as is |
| MscPragma.ChangedIffBlock | scripts/cpp/remove_mscver_from_pragma.py:53-94 | the changed flag is set if and only if a block starts at or after the scan start |
| MscPragma.UnchangedIdentity | scripts/cpp/remove_mscver_from_pragma.py:53-96 | when nothing is changed the lines are those given |
| MscPragma.RewriteThinned | scripts/cpp/remove_mscver_from_pragma.py:84-90 | one rewrite only drops the guard line, the endif and blank lines |
| MscPragma.UnguardThinned | scripts/cpp/remove_mscver_from_pragma.py:53-94 | the whole pass only drops guard lines, endifs and blank lines |
| MscPragma.UnguardKeepsContent | scripts/cpp/remove_mscver_from_pragma.py:84-96 | every other line is kept in order, and a change removes at least the guard and the endif |
| MscPragma.ChangedShortens | scripts/cpp/remove_mscver_from_pragma.py:84-91 | a change leaves at least two lines fewer |
| PragmaSpacing.ClassExact | scripts/cpp/harmonize_linebreaks_pragmaonce.py:25-28 | a line is blank exactly when it strips to nothing and a pragma exactly when it matches the pragma-once pattern |
| PragmaSpacing.BlanksAbove | scripts/cpp/harmonize_linebreaks_pragmaonce.py:51-55 | the count covers exactly the blank lines right above the index |
| PragmaSpacing.BlanksFrom | scripts/cpp/harmonize_linebreaks_pragmaonce.py:89-93 | the count covers exactly the blank lines from the index on |
| PragmaSpacing.CountBlanksAbove | scripts/cpp/harmonize_linebreaks_pragmaonce.py:51-55 | the counting loop returns BlanksAbove |
| PragmaSpacing.CountBlanksFrom | scripts/cpp/harmonize_linebreaks_pragmaonce.py:89-93 | the counting loop returns BlanksFrom |
| PragmaSpacing.SpaceBefore | scripts/cpp/harmonize_linebreaks_pragmaonce.py:49-85 | the pragma line and everything after it are untouched by the fix-up above it, and an unchanged flag means unchanged lines |
| PragmaSpacing.SpaceAfter | scripts/cpp/harmonize_linebreaks_pragmaonce.py:87-108 | the scan moves past the pragma and an unchanged flag means unchanged lines |
| PragmaSpacing.PragmaIndices | scripts/cpp/harmonize_linebreaks_pragmaonce.py:40 | the indices listed are exactly those of the pragma-once lines |
| PragmaSpacing.SpacePragmaBefore | scripts/cpp/harmonize_linebreaks_pragmaonce.py:49-85 | the fix-up above a pragma line computes SpaceBefore |
| PragmaSpacing.SpacePragmaAfter | scripts/cpp/harmonize_linebreaks_pragmaonce.py:87-108 | the fix-up below a pragma line computes SpaceAfter |
| PragmaSpacing.SpaceLines | scripts/cpp/harmonize_linebreaks_pragmaonce.py:44-111 | the loop over the lines, with pragma lines recognised where they now are, computes Normalized, and an unchanged flag means unchanged lines |
| PragmaSpacing.NormalizePragmaOnceSpacing | scripts/cpp/harmonize_linebreaks_pragmaonce.py:30-114 | corrected (pragma lines found where they stand, as `SpaceLines` does): a text without a pragma line is returned unchanged; otherwise the text is the normalized lines rejoined with the original final-newline state |
| PragmaSpacing.NormalizeHeaderSpacing | scripts/cpp/harmonize_linebreaks_pragmaonce.py:25-114 | corrected: the same, with the script's pragma pattern, and a `changed` of false means the normalized lines are the original ones |
| PragmaSpacing.SpacedKeepsNonBlank | scripts/cpp/harmonize_linebreaks_pragmaonce.py:47-111 | the non-blank lines are kept, in order |
| PragmaSpacing.SpacedFollowed | scripts/cpp/harmonize_linebreaks_pragmaonce.py:87-108 | every pragma line is followed by exactly one blank line and then a non-blank line or the end |
| PragmaSpacing.SpacedPreceded | scripts/cpp/harmonize_linebreaks_pragmaonce.py:49-85 | every pragma line after the first non-blank line has exactly one blank line above it |
| PragmaSpacing.NormalizedSpacing | scripts/cpp/harmonize_linebreaks_pragmaonce.py:30-114 | after normalising, every pragma line is at the top or has exactly one blank line above, is followed by exactly one blank line, and the non-blank lines are unchanged |
| PragmaSpacing.SpacedKeepsContentGap | scripts/cpp/harmonize_linebreaks_pragmaonce.py:47-111 | blank lines between two content lines that come after a pragma are left as they are |
| PragmaSpacing.SpacedWithoutPragma | scripts/cpp/harmonize_linebreaks_pragmaonce.py:40-111 | lines without a pragma are left unchanged |
| PragmaSpacing.NormalizedEnding | scripts/cpp/harmonize_linebreaks_pragmaonce.py:113 | a text ending with a newline still does, and when the last line is not blank the final newline is kept exactly as it was |
| PragmaSpacing.AsWrittenSplitsContent | scripts/cpp/harmonize_linebreaks_pragmaonce.py:40-109 | with the indices computed once at the start, the blank lines above a pragma are collapsed, the stale index then hits a content line and a blank line is inserted between two content lines |
| PragmaSpacing.NormalizedKeepsContent | scripts/cpp/harmonize_linebreaks_pragmaonce.py:47-111 | on the same input, normalising with pragma lines found where they are leaves the content lines adjacent |
| PyText.RStrip | scripts/cpp/apply_code_formatting.py:25 | rstrip keeps a prefix of the line, removes only whitespace, and leaves no trailing whitespace |
| PyText.StripEmptyIffBlank | scripts/cpp/replace_include_guards_with_pragma.py:51-53 | a line strips to nothing exactly when it is all whitespace |
| PyText.FindFrom | scripts/cpp/apply_code_formatting.py:18-19 | the index found is the first occurrence at or after the start, and -1 means there is none |
| PyText.SplitLinesNoBreaks | scripts/cpp/replace_include_guards_with_pragma.py:137 | no line produced by splitlines contains a line break |
| PyText.KeepEndsConcat | scripts/cpp/remove_mscver_from_pragma.py:49 | the lines split with their endings join back to the original text |
| PyText.SplitJoin | scripts/cpp/replace_include_guards_with_pragma.py:202 | splitting lines joined with newlines, with or without a final newline, gives those lines back |
| PyText.LeadingBoms | scripts/cpp/replace_include_guards_with_pragma.py:44-45 | the count covers exactly the byte-order marks at the start |
| PyText.StripBomTwice | scripts/cpp/replace_include_guards_with_pragma.py:44-45 | stripping byte-order marks leaves none, so a second strip changes nothing |
| DirectiveSyntax.SpaceRun | scripts/cpp/replace_include_guards_with_pragma.py:35-42 | the whitespace run covers exactly the leading whitespace characters, Unicode or ASCII as the pattern's flags say |
| DirectiveSyntax.IdentLen | scripts/cpp/replace_include_guards_with_pragma.py:35-40 | an identifier starts with a letter or underscore and ends at a word boundary |

## Left out

- Declarations that live in headers outside this model are taken with their usual values: `AsciiString::nextToken` (an empty string yields no token and leaves the token untouched; otherwise leading separators are skipped), the `FileExistData` defaults (`instanceExists` 0, `instanceDoesNotExist` ~0), 60 income buckets, `LOGICFRAMES_PER_SECOND` 30, and the W3D art directory macros.
- FramePacing.FramePacer.IsActualFramesPerSecondLimitEnabled: only the default build's test is modelled, where TiVO fast mode lifts the limit only in a replay. In the `_ALLOW_DEBUG_CHEATS_IN_RELEASE` build (FramePacer.cpp:93-94) it also lifts the limit outside replays; that variant is not modelled.
- The logic preset's minimum is the release-build value 30; the debug-build variant is not modelled.
- RtsMoney.Money.Xfer: only the current save format (version 2, `RETAIL_COMPATIBLE_XFER_SAVE` off) is written; version 1 is still loaded, as the source does.
- W3DFileSystem.GameFile.SetName: the `MAINTAIN_LEGACY_FILES` and `LOAD_TEST_ASSETS` fallback directories (W3DFileSystem.cpp:178-227) are compiled out in the modelled build.
- MapUtil.IsValidMap and MapUtil.GetDefaultMap: the `updateCache` call they make first is not modelled; they take the cache as it stands.
- GhostObjects.CountStoredSnapshots: the count is taken on the slots as they stand before the shroud update. The source calls `getShroudStatus` before it reads a slot (W3DGhostObject.cpp:990-998). That call forwards to the partition manager, which is not part of this model, and by the comment at W3DGhostObject.cpp:976-977 it can free the snapshot it is asked about. The model can therefore count a snapshot the source no longer holds.
- GhostObjects.GhostObjectManager.UpdateOrphanedObjects: because of the gap in `CountStoredSnapshots`, the model can keep an orphaned ghost that the source releases once the shroud update has freed its last snapshot. The partition manager's register and unregister calls and `releasePartitionData`/`restorePartitionData` are not modelled either.
- GhostObjects.GhostObject.FreeSnapShot: the snapshots of a chain are released one by one in the source; only the emptied slot is modelled, as memory is not.
- Rendering of ghosts (`W3DRenderObjectSnapshot`, `snapShot`, scene insertion and removal, `setLocalPlayerIndex`) is not part of this model.
- Regular expressions, case: case-insensitive matching folds `A`-`Z` only; Python's IGNORECASE also equates `ı`/`İ` with `i`/`I` and `ſ` with `s`.
- Regular expressions, `\b`: the model treats every non-ASCII character as a non-word character; for unflagged patterns Python counts Unicode letters as word characters, so a line such as `#pragma onceé` is classed as a pragma line here but not by Python.
- Regular expressions, `\d`: the model matches ASCII digits only; under Unicode patterns Python also accepts other decimal digits.
- The scripts' file I/O is not modelled: directory walks, reading with the given encodings (`utf-8`, `cp1252`, the fallback chain of the `_MSC_VER` script), decoding errors, writing back and the printed summaries. Each pass is modelled on the decoded text or its lines.
- The final newline the formatting script's `main` adds to a file whose last line lacks one is file output and is not modelled.
- FileSystem.GetFileInfo: when FALSE is returned the source may leave the record filled by the loose layer (FileSystem.cpp:304-318); the model returns no record.
- PragmaSpacing.NormalizePragmaOnceSpacing: a `changed` of false implies unchanged lines, but not the converse, since the script sets the flag on some edits that restore the same lines.
- Audio, networking, the cheat that makes buildings free, and the engine singletons consulted by the frame pacer are not modelled; the frame pacer's inputs are a `World` value.
- Floating-point rounding in `Real` transfers and matrices is not modelled: reals are exact.

## Findings

| source | as written | input that shows it | evidently intended | confidence | as-written member | corrected member |
|---|---|---|---|---|---|---|
| Core/GameEngine/Source/Common/System/FileSystem.cpp:256-278 | the cache records the instance after it was decremented past the loose file, so the bound is stored one lower than the instance asked about | a loose file and one archived copy; ask for instance 2, then instance 1 | record the instance the caller asked about | not executed | FileSystem.DoesFileExistAsWritten, FileSystem.LooseFileShiftsMissBound | FileSystem.DoesFileExistChecked |
| Core/GameEngine/Source/Common/System/FileSystem.cpp:272-278 | a miss on a name never seen creates a cache entry whose default exists bound 0 claims instance 0 exists | a name that exists nowhere; ask for instance 3, then instance 0 | a first miss records only the does-not-exist bound | not executed | FileSystem.DoesFileExistAsWritten, FileSystem.MissCreatesExistingEntry | FileSystem.DoesFileExistChecked |
| Core/GameEngine/Source/Common/System/FileSystem.cpp:192-207 | creating a loose file raises both bounds of an existing entry, so an instance known missing becomes known existing | a name with only its loose file; ask for instance 0, open it with CREATE, then ask for instance 1 | leave the bounds alone when the loose file already existed | not executed | FileSystem.CreateBumpAsWritten, FileSystem.RecreateClaimsMissingInstance | FileSystem.CreateBumpChecked |
| Core/GameEngine/Source/Common/FrameRateLimit.cpp:110-120 | the unsigned subtraction wraps below 5, passes the minimum test and returns a huge value | the value 3 | clamp to the minimum | not executed | FrameRateLimit.LogicPrevFpsAsWritten, FrameRateLimit.LogicPrevOfThree | FrameRateLimit.LogicPrevFps |
| scripts/cpp/harmonize_linebreaks_pragmaonce.py:40-109 | the pragma indices are computed once and not updated after blank lines above a pragma are deleted, so a later content line is taken for a pragma and a blank line is inserted after it | the lines `c`, three blank lines, `#pragma once`, `c`, `c` | keep the content lines together | not executed | PragmaSpacing.RunAsWritten, PragmaSpacing.AsWrittenSplitsContent | PragmaSpacing.SpaceLines, PragmaSpacing.NormalizedKeepsContent |
