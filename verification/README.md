# Verification of the gateway's index, feeds, uploads and counters

This project models the stateful core of the gateway in Dafny and proves what its
documentation promises of it: the item catalogue and its change journal, the scanners that
keep the catalogue in step with the disk, the write handlers, the two change feeds, resumable
uploads, the hourly metrics and the login limiter.

## How it is organised

* `Paths`, `SqlLike`, `Subtrees`: gateway paths as sequences of names, the string prefix tests
  and the escaped, case-folding `LIKE`, and when that `LIKE` selects exactly a subtree.
* `Catalogue` says what each transaction does to the two tables, as functions on values; its
  statements select with the `LIKE` itself, and an update the UNIQUE constraint refuses is rolled
  back. The class `IndexStore.Index` does it statement by statement, in place, and every method is
  proved to end in the state the functions give.
* `TreeInvariant`, `History`, `Writes`, `JournalMeaning`: parent column and path column describe one tree;
  what every write keeps, changes and journals.
* `Reconciling`, `Agreement`, `ReconcileTheorems`, `Drops`: the reconcile of one directory with its
  inode-based rename detection, for every order in which the hash map may list the candidates.
* `Feed`, `Stamps`, `Sync`: journal pages, compaction, pruning, and a client that replays the
  feed while everything else goes on.
* `Disk`, `Rescans`, `Scanning`, `Scanner`: the directory scan and the full scan.
  `DirScans`, `DirWalks`: the incremental scan. `OldMirrors`: the hypotheses of the scans in terms of
  two disks. `ScanLogs`: what scans tell the journal. `ScanLimits`: where the scans fall short.
* `DiskWrites`, `DiskMoves`, `FileApi`: the write handlers, disk and index together.
* `WalkOrder`, `ChangesWalk`, `Cursor`: the paginated walk of the legacy feed.
* `Uploads` (interleaved steps) and `UploadStore` (the critical sections as methods).
* `Totals`, `Metrics`, `Limiter`.

## Conventions

Ids are opaque: the k-th call of the id generator yields `Minted(k)`, so ids are fresh by
construction. Time is a parameter of every operation. A directory listing is any listing of
the directory's entries, in any order; `missing`, the order in which the hash map of known names
happens to be iterated, is universally quantified wherever it occurs. The disk seen by a scan is
the visible tree: ignored names and names that are no mounted share are left out of it.
"Placeholder" is an ancestor row that `ensurePath` inserts with size 0 and time 0 without a
journal entry; `blind` is the set of ids the feed was never obliged to report to a client:
unjournaled rows and entries its filter hides.

`Selects(a, p)` is `p LIKE likePrefix(a)/% ESCAPE '\'`, which folds ASCII case. Results about writes
therefore rest on conditions a caller can check beforehand: `CaseSafe` (deletion: the `LIKE` selects
nothing outside the subtree), `MoveSafe` and `MoveClean` (moves), `CaseClean` (reconciling). The first
three are shown to be exact; `Drops.DropsAreExact` has the exact condition of the deletions of a reconcile.
On the file system's side these become `LikeStaysBelow` and `MoveFits`, conditions on the disk alone.

The scans rest on `Compatible`: where rows are, or where renames may take them, no sibling bears the
inode recorded for a name still in use, a renamed directory with rows below it is a directory at each
place a rename may take it to, and paths that are gone have no case variant. `Wholesale`: a directory
renamed in place was not changed inside as well. `OldMirrors` derives both from the old and the new disk.

## Findings

Some promises hold only under a condition. Each is stated as an equivalence, or with a lemma
that shows what happens outside it.

* Rename detection compares with names not *yet* seen rather than with vanished names
  (`internal/index/index.go:371`). `ReconcileTheorems.AgreementIsExact`: the catalogue agrees with
  the listing for every candidate order if and only if no new name shares its inode and kind with
  a known name that is listed after it.
* A directory replaced by a file of the same name keeps its descendants in the catalogue.
  `ScanLimits.FileOverDirectory`: one reconcile leaves no rows below a file row if and only if no observed
  file bears the name of a child with rows below it, and nothing is entered below a row that says file
  (`ScanLimits.FilesAreLeavesAfter` without the assumption that there were no such rows before).
  `Scanner.Scanner.Full`: a full scan yields the mirror if and only if no file on disk had rows below it
  (`Stuck`); `ScanLimits.ReplacedDirectoryIsStuck` is an input.
* Re-listing a directory stores the new times of its subdirectories, which hides changes inside
  these from the incremental scan. `Scanner.Scanner.Dirs`: it restores the mirror of paths and kinds if and
  only if no changed directory is `Missed` and no file is `Stuck`. A directory is missed if its
  entries are not those on disk, the walk does not re-list it (its time is old, or its parent was
  re-listed first), and it is not filled in for having nothing below it.
  `ScanLimits.ChangeBelowChangeIsMissed` is an input: a new file in a directory and another in the
  directory above. `OldMirrors.TimesTellAll` says in terms of two disks when nothing is missed.
* The `LIKE` folds ASCII case: `Subtrees.LikeSelectsSubtree` gives the exact condition under which
  it selects subtrees only. `Writes.DeleteRemovesDescendants`, `TreeInvariant.RelocateIsExact` and
  `Writes.MoveGuardIsExact` give it for a deletion, the two updates of a move, and a move. `resolvePair`
  refuses destinations inside the source but not inside a case variant of it: a move of
  `/s/foo` to `/s/FOO/bar` passes and is refused by the index or breaks the tree (`Writes.MoveIntoVariant`);
  deleting `/s/foo` takes the row of `/s/FOO/x` along (`DiskWrites.DeleteSweepsVariant`).
* `FileApi.FileApi.Delete` and `FileApi.FileApi.Move` state exactly when catalogue and disk are out
  of step after a call. Besides the case variants this is a move over a directory that contains the
  source: it removes the directory with the source in it, then fails, and the index is not told.
* `movePath` skips bytes where SQLite counts characters: `Paths.SubstrIsExact`, the new path is right if
  and only if the old prefix has as many bytes as characters. The rest of the model assumes it has.
* An interrupted `PUT` leaves directories it created for the file on disk only.
  `FileApi.FileApi.Put`: catalogue and disk are out of step if and only if the request passes the checks, is
  interrupted, and the parent directory was not there.
* A reset hands out the position of the last journal entry, and position 0 if the journal is empty; a client at
  position 0 is reset again. `Sync.ResetHeals`: after a reset and an enumeration a client is right, and need not
  start over again if and only if the journal has entries.
* A page of the legacy feed whose deadline has passed at its first entry names no resume point
  (`ChangesWalk.LatePageIsStuck`), so the client starts over.

## Model

| member | source | states |
|---|---|---|
| Paths.PrefixIsBelow | internal/index/index.go:460 | A string prefix ending in a slash is a prefix of components: `/a` is above `/a/b` but not above `/ab`. |
| Paths.SubstrIsRebase | internal/index/index.go:460 | New prefix plus the rest of the old string, counted in characters, is the path hung below the new directory. |
| Paths.SubstrIsExact | internal/index/index.go:460 | With `len` counting bytes and `substr` characters the rewritten path is right if and only if the old prefix has as many bytes as characters. |
| Paths.RenderInjective | internal/index/index.go:89-92 | The UNIQUE constraint on path strings is uniqueness of component sequences. |
| SqlLike.LikeIsFoldedPrefix | internal/index/index.go:467-470 | Escaping is exact: the pattern matches s if and only if s starts with p and a slash up to ASCII case; no character of p acts as a wildcard. |
| SqlLike.LikeSelects | internal/index/index.go:473 | The same in terms of path components. |
| SqlLike.SelectsIs | internal/index/index.go:467-473 | A path is selected exactly if its components, case folded, lie below those of a directory other than the root. |
| Subtrees.LikeSelectsSubtree | internal/index/index.go:455-465 | In a tree-consistent catalogue the LIKE selects exactly the proper descendants of every row if and only if no row has a case-only twin with descendants. |
| TreeInvariant.DescendsIsBelow | internal/index/index.go:460 | Rows below a path by prefix are exactly the rows that reach it through the parent column. |
| TreeInvariant.NoCycle | internal/index/index.go:89-92 | No row is its own ancestor. |
| TreeInvariant.AncestorIndexed | internal/index/index.go:419-442 | Every ancestor path of a row has a row. |
| TreeInvariant.RelocateKeepsTree | internal/index/index.go:455-461 | The two updates of movePath keep ids, paths and parents consistent, without collisions, if the LIKE selects neither a row outside the subtree nor the destination, ... |
| TreeInvariant.RelocateIsExact | internal/index/index.go:455-461 | ... and only then. |
| TreeInvariant.RelocateSubtree | internal/index/index.go:455-461 | Under that condition they rewrite the row and its subtree and no other row. |
| History.DeepestFirstOrder | internal/index/index.go:473 | The deletion listing names a directory after everything in it. |
| History.DeepestFirstLists | internal/index/index.go:473-487 | ... and every selected row exactly once. |
| History.DeleteSubtreeIs | internal/index/index.go:472-501 | Exactly the row and what the LIKE selects go; each is journaled as deleted exactly once, with its path. |
| History.EnsurePathStep | internal/index/index.go:419-442 | Only placeholders for missing ancestors are added; the journal is untouched. |
| History.FactsTell | internal/fsapi/fsapi.go:1070-1078 | A client tells two rows apart exactly by parent, name, kind, size and time. |
| Writes.UpsertStep | internal/index/index.go:505-539 | The path has the observed attributes under its old id or a new one, nothing else changed but placeholders above it, and the catalogue is valid. |
| Writes.DeleteStep | internal/index/index.go:543-558 | Whatever the LIKE selects: the catalogue stays a valid tree and all that goes is journaled; an unknown path changes nothing, the root only gets a journal entry. |
| Writes.DeleteRemovesDescendants | internal/index/index.go:543-558 | What goes is what descends from the row by the parent column, if and only if the LIKE selects nothing outside the subtree. |
| Writes.MoveStep | internal/index/index.go:561-598 | If the LIKEs stay within bounds: accepted, valid, every changed fact journaled, nothing added but placeholders; and the source subtree hangs below the destination under its old ids, what was at the destination being gone. |
| Writes.MoveGuardIsExact | internal/fsapi/fsapi.go:788-791 | For an indexed source the update is accepted and leaves a tree if and only if the LIKE selects neither the destination nor a row outside the source that does not go with the destination. |
| Writes.MoveIsExact | internal/index/index.go:561-598 | It moves the source's subtree, clears the destination's and touches nothing else if and only if the two LIKEs select nothing else. |
| Writes.MoveIntoVariant | internal/fsapi/fsapi.go:788-791 | A move of /s/foo to /s/FOO/bar passes the prefix test and is refused by the index or leaves no tree. |
| JournalMeaning.UpsertLogs | internal/index/index.go:521-539 | One entry, naming the path and the id returned. |
| JournalMeaning.MoveLogs | internal/index/index.go:586-597 | Deletions of what the clearing of the destination selects, then one move entry with both paths; nothing if the update is refused. |
| JournalMeaning.ReconcileLogs | internal/index/index.go:340-406 | Nothing but upserts and moves of observed entries under the ids returned, moves from where the row was, and deletions of what is selected for a child of the directory; nothing if an update is refused. |
| IndexStore.Index.Upsert | internal/index/index.go:505-539 | The statements end in the specified state; from a valid catalogue it is valid and journals every changed fact. |
| IndexStore.Index.Delete | internal/index/index.go:543-558 | The same for deletion, of any path. |
| IndexStore.Index.Move | internal/index/index.go:561-598 | The statements end in the specified state, rolled back if refused; accepted and a tree exactly under MoveSafe, the move it should be exactly under MoveClean. |
| IndexStore.Index.Reconcile | internal/index/index.go:286-407 | The loops end in the specified state for the order of the hash map that occurred, rolled back if an update is refused; under CaseClean none is, the state is valid, and every changed fact journaled. |
| IndexStore.Index.Ensure | internal/index/index.go:419-442 | The recursion ends in the specified state. |
| IndexStore.Index.RemoveSubtree | internal/index/index.go:472-501 | The listing and the deletion loop end in the specified state. |
| IndexStore.Index.Repath | internal/index/index.go:455-465 | The two updates and the journal entry of movePath, refused exactly if two rows get one path. |
| IndexStore.Index.ChildrenOf | internal/index/index.go:323-338 | The loop over rows collects exactly the children by name. |
| IndexStore.Index.LatestSeq | internal/index/index.go:196-202 | The largest sequence number, 0 for an empty journal. |
| IndexStore.Index.JournalStart | internal/index/index.go:205-211 | The smallest sequence number, 0 for an empty journal. |
| IndexStore.Index.ChangesAfter | internal/index/index.go:216-257 | The loop computes the specified answer, of which Feed.ResetIsExact and Feed.ChangesPage say what it is. |
| IndexStore.Index.AnswerJournal | internal/fsapi/fsapi.go:1034-1084 | For any position: the compacted page; a reset for a first call and exactly when an entry after the client's was pruned from a journal that is not empty, and then with the position of the last entry and no entries. |
| IndexStore.Index.PruneBefore | internal/index/index.go:609-612 | Drops exactly the entries older than the cut. |
| Reconciling.ReconcileStep | internal/index/index.go:286-407 | Under CaseClean, whatever candidates are chosen: no update is refused, the result is a valid tree and every changed fact is journaled unless bootstrapping. |
| Reconciling.ReconciledRuns | internal/index/index.go:340-406 | Every old row is untouched, moved along with its top ancestor, or deleted. |
| ReconcileTheorems.ReconcileOutcome | internal/index/index.go:286-407 | Without late twins: children are exactly the observed entries, the id map is injective and correct, known names keep their ids, a new name has a vanished entry's id if the inode is its alone and otherwise a fresh or such an id, subtrees follow, rows outside are untouched. |
| ReconcileTheorems.RenameKeepsId | internal/index/index.go:362-388 | For every candidate order: a new entry has an old id if and only if a vanished child has its inode and kind (no other new entry having them), and it is that child's id if there is only one. |
| Drops.DropsAreExact | internal/index/index.go:399-406 | Where no name is new: the deletions take exactly the rows under vanished names, for any order, if and only if the LIKE selects nothing else for a vanished name. |
| ReconcileTheorems.AgreementIsExact | internal/index/index.go:364-388 | Agreement for every candidate order holds if and only if no new name shares inode and kind with a known name listed later. |
| ReconcileTheorems.ReconcileIdle | internal/index/index.go:349-362 | A second identical call changes nothing and journals nothing. |
| ReconcileTheorems.TwinBreaks | internal/index/index.go:371-384 | With a late twin there is an order in which the known entry loses its row to the new name. |
| Feed.ResetIsExact | internal/index/index.go:216-231 | A reset exactly for a first call or when an entry after `since` was pruned from a journal that is not empty; it carries no changes and the position of the last entry, 0 for an empty journal. |
| Feed.PagesAreSuffix | internal/index/index.go:232-249 | Pages of any limits from 1 up, put together, are the journal after `since`, nothing twice. |
| Feed.ChangesPage | internal/index/index.go:232-249 | A page is a stretch of the journal and its sequence number strictly grows while truncated. |
| Feed.PageTells | internal/fsapi/fsapi.go:1048-1082 | The entries of a page tell its visible changes as journaled, with the item as it is now or as deleted if it is gone, in order, once each; left out are exactly the root's, hidden ones, and those of items deleted later in the page. |
| Feed.CompactionKeepsMeaning | internal/fsapi/fsapi.go:1048-1082 | Dropping what is deleted later in the page and turning vanished items into deletes gives the client state of the raw page. |
| Feed.TouchedIsReported | internal/fsapi/fsapi.go:1056-1068 | Every id a page touches is reported, or hidden by the filter. |
| Stamps.PruneStep | internal/index/index.go:609-612 | Pruning a time-ordered journal drops its oldest entries and keeps it contiguous. |
| Sync.NextGood | internal/index/index.go:216-257 | Every event keeps the catalogue valid and every difference to the client explained. |
| Sync.DifferenceIsExplained | internal/fsapi/fsapi.go:1034-1084 | On every run, with any filter: a fact the client lacks is journaled after its position, or it must start over, or the id is blind. |
| Sync.CaughtUp | internal/fsapi/fsapi.go:1034-1084 | On every run without bootstrapping and filter, a caught-up client has the catalogue's facts, except for placeholders that were never journaled. |
| Sync.DeltaSyncConverges | internal/index/index.go:216-257 | From any point of such a run, pulling pages of any size until the journal is used up gives the client the catalogue's facts, except for placeholders that were never journaled. |
| Sync.ResetHeals | internal/index/index.go:225-228 | On every run: a client that is reset and enumerates has the catalogue's facts, and its position is good if and only if the journal has entries. |
| Sync.StartOverConverges | internal/index/index.go:216-257 | From any client state, out of date or new: after one pull, an enumeration if due, and pages until the journal is used up the client has the catalogue's facts, except for placeholders that were never journaled. |
| Sync.PullAllCatchesUp | internal/index/index.go:232-249 | Pages of any size reach the end of the journal. |
| Sync.PagesMeanTheirEntries | internal/fsapi/fsapi.go:1048-1082 | On every run, a compacted page means what its journal entries mean: a deleted id is never inserted again. |
| Disk.AllDoneIsMirror | internal/index/scanner.go:143-184 | If every directory on disk is finished, the catalogue is a mirror if and only if no file has rows below it. |
| Disk.EmptyIsCompatible | internal/index/scanner.go:147-150 | An empty catalogue meets the scan's hypothesis on any disk, and no file has rows below it. |
| Rescans.CompatibleHasNoTwin | internal/index/scanner.go:91-126 | The scan's hypothesis implies the inode hypothesis of Reconcile in every directory ... |
| Rescans.CompatibleIsCaseClean | internal/index/scanner.go:91-126 | ... and that its LIKEs stay within bounds. |
| Rescans.RescanKeepsId | internal/index/index.go:362-388 | On disk: a new entry keeps an old id if and only if a vanished sibling had its inode and kind, and the id is that of such a sibling. |
| Rescans.RescanKeepsCompatible | internal/index/scanner.go:126 | Reconciling one directory with the disk keeps the hypothesis for the rest of the scan. |
| Rescans.RescanKeepsDone | internal/index/scanner.go:126 | ... does not disturb finished directories, |
| Rescans.RescanKeepsStuck | internal/index/scanner.go:126 | ... neither creates nor removes rows below files, |
| Rescans.RescanFinishes | internal/index/scanner.go:126 | ... and finishes its own, sizes and times included. |
| ScanLogs.ReconcileLogsAll | internal/index/index.go:340-406 | Scanning one directory journals every changed fact unless bootstrapping, says nothing about the root, and nothing at all if it bootstraps and no row has to be corrected. |
| ScanLogs.ReconcileSilently | internal/index/index.go:445-453 | While bootstrapping, new entries beside rows that are as observed leave the journal as it is, for any order of the candidates. |
| Scanning.GrownIsFilled | internal/index/scanner.go:130-138 | A directory with nothing indexed below it is filled in completely by one scan. |
| Scanner.Scanner.ScanDir | internal/index/scanner.go:91-140 | Finishes the directory, fills in unexplored children, keeps finished directories finished; an unreadable one changes nothing. |
| Scanner.Scanner.Full | internal/index/scanner.go:143-184 | From an empty or any compatible catalogue the outcome is an exact mirror of the disk (paths, kinds, sizes, times) if and only if no file on disk had rows below it. From an empty one only the root's mark is journaled; from any other every changed fact is, and no mark; the bootstrapping flag is off after a first scan and else as before; of the older entries exactly those stay that are not older than the retention. |
| Scanner.Scanner.WalkDir | internal/index/scanner.go:156-172 | The walk of a subtree finishes every directory in it. |
| Scanner.Scanner.Dirs | internal/index/scanner.go:188-229 | The incremental scan restores the mirror on paths and kinds if and only if no changed directory is missed and no file on disk had rows below it; every changed fact is journaled unless bootstrapping. |
| Scanner.Scanner.WalkChanged | internal/index/scanner.go:192-217 | The recursive walk makes everything below an indexed directory known if and only if nothing is missed in it, and changes nothing elsewhere. |
| OldMirrors.TimesTellAll | internal/index/scanner.go:204-208 | From a mirror of the old disk nothing is missed if changed directories have new times and directories with new times have no changed child directories. |
| OldMirrors.OldMirrorIsCompatible | internal/index/index.go:371-379 | A mirror of the old disk meets the scans' hypothesis if names still in use kept their inodes from siblings, what moved took its contents along, and no two paths differ by case only. |
| OldMirrors.OldMirrorIsWholesale | internal/index/index.go:371-379 | ... and that of the incremental scan if directories renamed in place were not changed inside. |
| OldMirrors.OldMirrorIsNotStuck | internal/index/index.go:349-362 | No file has rows below it if no filled directory became something else. |
| Scanner.OldMirrorDetects | internal/index/scanner.go:143-229 | The hypotheses of both scans, in terms of the old and the new disk only. |
| DirWalks.RelistExact | internal/index/scanner.go:204-217 | After a re-listing, nothing was missed in a directory if and only if nothing is missed in its child directories. |
| DirWalks.PassedExact | internal/index/scanner.go:204-217 | A directory that is not re-listed: nothing is missed if and only if its own entries are known and nothing is missed in its child directories. |
| DirWalks.RootExact | internal/index/scanner.go:221-224 | With the root scanned last, a share ends up known if and only if it was, or was not indexed, or had nothing below it. |
| DirWalks.ScanIsExact | internal/index/scanner.go:188-229 | After the walks of the shares and the scan of the root: a mirror if and only if nothing is missed and nothing stuck. |
| DirScans.RenamedNamed | internal/index/index.go:371-379 | A directory renamed in place brings its indexed subtree along. |
| ScanLimits.ChangeBelowChangeIsMissed | internal/index/scanner.go:204-208 | An input: a new file in a directory and one in the directory above; the former directory is missed. |
| ScanLimits.ReplacedDirectoryIsStuck | internal/index/index.go:349-362 | An input: a file in the place of a directory with a file in it. |
| ScanLimits.FileOverDirectory | internal/index/index.go:349-362 | From a catalogue without rows below file rows: one reconcile yields some if and only if an observed file bears the name of a child with rows below it, or entries are entered below a row that says file. |
| ScanLimits.FilesAreLeavesAfter | internal/index/index.go:349-407 | The same from any catalogue: or such rows were there before, are kept, and are not among the rows written. |
| DiskWrites.UpsertInStep | internal/fsapi/fsapi.go:173-180 | Recording a written path keeps catalogue and disk in step, created ancestors included. |
| DiskWrites.MkdirAllWorks | internal/fsapi/fsapi.go:739-744 | Directories can be made exactly where no file is at the path or above it. |
| DiskWrites.DeleteInStep | internal/fsapi/fsapi.go:970-987 | After removing a subtree on disk and in the index they are in step if and only if the LIKE selects nothing on disk outside the subtree. |
| DiskWrites.DeleteSweepsVariant | internal/index/index.go:473 | An input: deleting /s/foo removes the row of /s/FOO/x. |
| DiskMoves.MoveInStep | internal/fsapi/fsapi.go:829-852 | After the renaming on disk, the move in the index and the upsert of the destination they are in step if and only if, on the disk before, the LIKEs select nothing but what is in the source, in the destination, or the source itself; refused moves included. |
| FileApi.FileApi.Put | internal/fsapi/fsapi.go:623-708 | Succeeds exactly if the checks pass and the body is complete; then the file is there and nothing else changed but for directories made above it. Catalogue and disk are out of step afterwards if and only if the checks pass, the body is cut off, and the parent directory was missing. |
| FileApi.FileApi.Mkdir | internal/fsapi/fsapi.go:716-757 | Succeeds exactly in a mounted share, with write access, if no file is in the way (with parents) or the parent is there and the name is not; agreement after every call; a refusal changes nothing, success adds only the directory and, with parents, those above it. |
| FileApi.FileApi.Delete | internal/fsapi/fsapi.go:941-989 | Succeeds exactly below a share, with write access, if the path is there and is no directory with something in it unless recursive; agreement after the call if and only if it is refused or the LIKE selects nothing on disk outside the subtree; a refusal changes nothing. |
| FileApi.FileApi.Move | internal/fsapi/fsapi.go:811-855 | Succeeds exactly if admitted and the file system can carry it out; then everything in the source is in the destination and nothing else is there or changed. Disagreement after the call if and only if it is admitted and either the destination contains the source, or it is carried out and the LIKEs select something on disk they should not. |
| FileApi.FileApi.ResolvePair | internal/fsapi/fsapi.go:765-809 | Exactly the admitted pairs pass. |
| WalkOrder.CompareTransitive | internal/fsapi/fsapi.go:1195-1219 | With CompareAntisymmetric: a strict total order on paths. |
| WalkOrder.CompareAntisymmetric | internal/fsapi/fsapi.go:1195-1219 | Swapping the arguments negates the result. |
| WalkOrder.NamesAreLexical | internal/fsapi/fsapi.go:1205-1210 | Names compare as strings do: by the first differing character, a prefix first. |
| WalkOrder.WalkCompareLoop | internal/fsapi/fsapi.go:1204-1218 | The loop over components computes the order. |
| WalkOrder.ComponentsOfRender | internal/fsapi/fsapi.go:1196-1203 | Trimming and splitting a path string gives its components back. |
| WalkOrder.IsAncestorIsBelow | internal/fsapi/fsapi.go:1222-1227 | The string test is strict containment. |
| WalkOrder.SubtreeBefore | internal/fsapi/fsapi.go:1147-1158 | A directory before the resume point that does not contain it has nothing after it: skipping it is safe. |
| ChangesWalk.WalkInOrder | internal/fsapi/fsapi.go:1195-1219 | The order is that of the pre-order walk over sorted listings. |
| ChangesWalk.WalkIsExact | internal/fsapi/fsapi.go:1137-1185 | The walk meets exactly what a lookup finds in the tree, each path once, with its kind and time. |
| ChangesWalk.PageIs | internal/fsapi/fsapi.go:1159-1164 | A page ends with the walk, at its limit, or at the first entry after its deadline, never later; it reports the stretch before and names its last entry. |
| ChangesWalk.PageWalk.Visit | internal/fsapi/fsapi.go:1137-1184 | What one call of the callback counts, records and answers. |
| ChangesWalk.PageWalk.WalkNode | internal/fsapi/fsapi.go:1137-1185 | A page counts exactly the entries after the resume point, whatever subtrees it skips. |
| ChangesWalk.FollowPages | internal/fsapi/fsapi.go:1086-1190 | Following `next` ends and reports exactly the directories and regular files of the tree modified after `since`, in walk order, once each, for any limit and any deadlines after the first entry. |
| ChangesWalk.LatePageIsStuck | internal/fsapi/fsapi.go:1159-1164 | A page is truncated without a resume point if and only if its budget is over at the first entry. |
| Cursor.NothingIsLost | internal/fsapi/fsapi.go:1125-1135 | On every interleaving of writes and pages, a modification still in place is reported before a second scan completes. |
| Cursor.FinishedScanIsComplete | internal/fsapi/fsapi.go:1137-1185 | A scan that has run out of entries has looked at every file that was there throughout, since positions only grow in the comparison. |
| Cursor.NextInv | internal/fsapi/fsapi.go:1172-1183 | Every step keeps each unreported modification due. |
| Cursor.InitialInv | internal/fsapi/fsapi.go:1125-1135 | Before the first scan nothing is owed. |
| Cursor.CursorKept | internal/fsapi/fsapi.go:1128-1134 | Continuation pages keep the cursor of the first page. |
| Uploads.OffsetIsFaithful | internal/fsapi/upload.go:179-226 | On every interleaving the first Offset bytes of the temporary file are those of the source. |
| Uploads.CommitPublishesSource | internal/fsapi/upload.go:228-262 | What is published under a declared size that is that of the source, 0 included, is exactly the source. |
| Uploads.CommitPublishes | internal/fsapi/upload.go:242-250 | On every run: after the rename of a commit its file is what is read at its destination, and ever after that or a file committed later. |
| Uploads.UploadCompletes | internal/fsapi/upload.go:179-262 | From any reachable state, a live idle session takes the rest of its source from its offset on, and its commit publishes the source. |
| Uploads.NothingForgotten | internal/fsapi/upload.go:152-157 | On every run, once requests and janitor are done, every temporary file left belongs to a session. |
| Uploads.CollectedIsExpired | internal/fsapi/upload.go:280-287 | The janitor takes exactly the sessions whose time is up and that no request holds. |
| Uploads.HandlersFindLive | internal/fsapi/upload.go:121-144 | No handler gets hold of a session whose time is up, nor, to append or commit, of one that is held. |
| Uploads.ExpiryMoves | internal/fsapi/upload.go:214-217 | A session's time is set at its creation and by the end of each append, and by nothing else. |
| Uploads.RunForward | internal/fsapi/upload.go:179-292 | Offsets never decrease, ends are final, published bytes never change. |
| Uploads.InvStep | internal/fsapi/upload.go:121-292 | Every step keeps: one holder per upload, one end per temporary file, what removers hold is out of the store. |
| Uploads.HolderStep | internal/fsapi/upload.go:132-150 | At most one append or commit holds an upload, and no busy flag is left behind without a holder or a finished commit. |
| Uploads.EndStep | internal/fsapi/upload.go:228-292 | Each temporary file is there, committed or removed: exactly one. |
| Uploads.RemovalsAreSafe | internal/fsapi/upload.go:152-157 | A removal touches no published file, and the janitor's none that a request holds. |
| UploadStore.Store.Acquire | internal/fsapi/upload.go:132-144 | Succeeds exactly for a live idle session and marks it busy; reports a conflict exactly for a live busy one. |
| UploadStore.Store.Release | internal/fsapi/upload.go:146-150 | Clears the flag of that session and of no other. |
| UploadStore.Store.Get | internal/fsapi/upload.go:121-129 | Finds exactly the live sessions. |
| UploadStore.Store.Collect | internal/fsapi/upload.go:280-287 | Takes out exactly the expired idle sessions. |
| Totals.SumAfterAdd | internal/metrics/metrics.go:77-86 | Adding to one bucket adds to every sum that covers it and to no other. |
| Metrics.Store.Transfer | internal/metrics/metrics.go:100-119 | The counters of the hour rise by the bytes in one direction and one transfer of its kind. |
| Metrics.TransferOf | internal/metrics/metrics.go:106-116 | All bytes count once, up for uploads and down else; exactly one of uploads, streams and downloads rises by one. |
| Metrics.Store.Request | internal/metrics/metrics.go:89-97 | One more request in the hour's bucket; an empty id is ignored. |
| Metrics.Store.Sum | internal/metrics/metrics.go:200-220 | The loop sums the buckets from `since` on, in whatever order the map is iterated. |
| Metrics.Store.Series | internal/metrics/metrics.go:159-197 | Each point has its step's buckets; the points total the sum from the start. |
| Metrics.Store.Flush | internal/metrics/metrics.go:270-283 | Drops exactly the buckets of hours that had ended by `now - keep`. |
| Metrics.SumIsLogSum | internal/metrics/metrics.go:75-119 | On every run of records and flushes from an empty store, the sum from a full hour on is, counter by counter, that of the records since, if the hour ends after every moment `time of a flush - what it keeps`. |
| Metrics.RetentionIs | internal/metrics/metrics.go:276-281 | An hour's bucket is kept exactly if the hour ends after `now - keep`. |
| Metrics.SeriesFor | internal/server/syncs.go:489-514 | The devices' series summed point by point and in total, even when their lengths differ. |
| Metrics.SumMany | internal/server/syncs.go:454-466 | The sum over devices is the sum over their records. |
| Limiter.RateBound | internal/auth/auth.go:327-365 | On every run of sequential logins without an accepted key: at most `max` failures in any window of length `lockout`, stored count below `max`. |
| Limiter.NextInv | internal/auth/auth.go:179-194 | Every step, sweeps included, keeps failures spaced. |
| Limiter.LockoutIsExact | internal/auth/auth.go:327-348 | On every such run: locked exactly for `lockout` after a failure that locked; a failure locks only as the max-th since the last lockout, so fewer never do, and does so if none of these came later than `lockout` after the one before. |
| Limiter.Limiter.Fail | internal/auth/auth.go:334-348 | The counting and locking of one failure. |
| Limiter.Limiter.Sweep | internal/auth/auth.go:356-365 | The loop removes exactly the entries that are unlocked and old: nobody's lockout ends by it, recent failures stay counted, and what stays is locked or recent. |

## Left out

- The SQL engine, write-ahead log, JSON persistence and file I/O: tables are maps and sequences, transactions are atomic. `Upsert`, `ensurePath` and the parent lookup of `Reconcile` (`internal/index/index.go:289-305`, `419-442`, `505-540`) run outside any transaction in the code; each call is one step here, and an error between their statements is not part of this model.
- The UNIQUE constraint is checked on the outcome of an update; SQLite checks row by row and may also refuse an update whose outcome would be free of duplicates. Where the conditions on the LIKEs hold there is no duplicate on the way, and where they fail both readings leave catalogue and disk, or the tree, wrong.
- The `seq` column of the items table: no branch of the modelled code depends on it.
- Catalogue.Relocate: takes the rewritten path as it would be with bytes and characters alike; Paths.SubstrIsExact has the exact condition.
- Sync.NextGood: events are writes whose LIKEs stay within bounds (MoveSafe, CaseClean); without these a move leaves no tree (Writes.MoveGuardIsExact), and what the feed then says of it is not part of this model.
- ReconcileTheorems.ReconcileOutcome: CaseClean is sufficient. For deletions the exact condition is Drops.DropsAreExact, for one rename TreeInvariant.RelocateIsExact; for several renames and deletions in one call it is not given.
- Scanner.Scanner.Dirs: Compatible and Wholesale are hypotheses; what the scan does to directories that were renamed and changed inside at once is not part of this model.
- Paths as the HTTP layer cleans and resolves them, symbolic links, hard links, special files: a path is a sequence of names, the disk a tree of directories and regular files with one name per inode.
- Rows of equal path length in the deletion listing: SQL leaves their order open, the model orders them by age of the id.
- Feed.Page: the items attached to a page are read in the same instant as the page; the code reads them one by one afterwards.
- Sync.DeltaSyncConverges: a client's enumeration is one snapshot; how a client lists directory by directory while items move is not part of this model.
- Sync.CaughtUp: says nothing about ids hidden by a share policy or dot-name filter, which are journaled under one path only; Sync.DifferenceIsExplained covers them through the blind set.
- IndexStore.Index.Move: moves of the root or onto it are excluded by its precondition, as the handlers refuse them.
- Scanner.Scanner.Full: unreadable directories, cancellation and the stored time of the last scan are not modelled; shares() and the share filter are taken to name the same top-level directories.
- Scanner.Scanner.Dirs: sizes and times of files are not restored, as the code does not look at files there.
- FileApi.FileApi.Move: the copy fallback across devices is not modelled, nor the copy handler, nor changes of a parent directory's own time, which the agreement ignores.
- Uploads.CommitPublishesSource: temporary names are taken to differ from every destination a client can name, and to be unique.
- Uploads.OffsetIsFaithful: each body is taken to carry bytes of one source from the offset it names; a request that fails before or after writing is a release at that point.
- Cursor.NothingIsLost: times are those of the wall clock; a client that sets `X-Mtime` to the past is outside the statement.
- ChangesWalk.FollowPages: hidden names and unreadable shares are left out of the tree beforehand.
- Metrics.Store.Flush: a store without a file, which returns before pruning, is not modelled, nor is the writing of the file.
- Metrics.Store.Series: times are whole seconds and the start of the axis is a parameter; day boundaries of a time zone are computed before the call.
- Limiter.RateBound: logins of one address are sequential; concurrent ones can pass the check together.
- HTTP plumbing, authentication, media tickets, GraphQL, SMB, notifications, devices, syncs registry, web UI: no visible algorithm or calls into code that is not here.
