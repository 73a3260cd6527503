# TwoDrive: a verified model

TwoDrive keeps one local row for each cloud file. FUSE writers, upload workers, downloads, delta imports, pin
changes and cache cleanup all work on that row, each in short database transactions that any other may come
between. This project models that row machine and the protocols around it in Dafny 4.11, and proves what holds over
every run.

* `Rows.dfy` holds the tables, the cache directory and the paths. `Pins.dfy`, `Renames.dfy`, `Metadata.dfy` and
  `Cache.dfy` are the database methods, each proved against a specification function. `Transactions.dfy` runs these
  functions as atomic steps: every referenced file stays on disk. `LocalWork.dfy` proves for the same steps, writers,
  uploads, downloads and cleanup together, that nobody but its own writer or worker touches a row with local work.
  `Imports.dfy` and `Uploads.dfy` say column by column what an import, an acknowledgement and a recovery copy do.
* `Hydration.dfy` interleaves downloads with everything else and with a remote that changes at any moment.
  `Recovery.dfy` interleaves local writers with upload workers, and `Writers.dfy` says exactly when an open handle
  endangers a row there. All take the steps of the database from the same specification functions.
  `HydrationWorker.dfy` and `RecoveryWorker.dfy` are the two threads themselves, written in the order of the source,
  with any number of steps of other threads before each of their own. `Completion.dfy` proves that downloads and
  uploads get through when nobody interferes.
* `CloudIndex.dfy` is the staged cloud index and the paging that fills it; `UploadQueue.dfy` the coalescing queue.
* `PeerProtocol.dfy` and `PeerHandshake.dfy` are the peer control protocol, with ideal signatures over an untrusted
  mailbox, and `PeerDialogue.dfy` shows that two peers who trust each other get through; `PeerUpdate.dfy` is the
  updater with its high-water mark.
* `Download.dfy` and `UploadSession.dfy` are the resumable transfers, `Inodes.dfy` the inode table, `WebDav.dfy` the
  walk of a WebDAV tree and its deltas.

A transaction is one atomic step that rolls back when it fails. A violated unique index is a failure. Clocks, random
values, server answers and lock states are parameters or arbitrary values. Objects the source mutates are classes;
their methods are tied to the functions on values that the run theorems use.

Where the code does not do what it is for, the model follows the code:

* Pinning "/" lifts no block below it, because the descendant test compares with "//"
  (`crates/twodrive-core/src/database/pins.rs:40-48`). `Pins.PinningFolderPinsDescendants` gives the exact condition.
* Renaming "/" glues the new name to the first segment of each descendant
  (`crates/twodrive-core/src/database/metadata.rs:282-283`). `Paths.RebaseStaysBelow` gives the exact condition.
* A row can lose the writing state under an open handle in two ways. A failed upload sets it back to dirty whatever
  it was (`crates/twodrive-fs/src/recovery.rs:222-227`), and closing one of two write handles marks it dirty while the
  other goes on (`crates/twodrive-fs/src/filesystem/writes.rs:331-352`). The row can then be uploaded, overwritten and
  acknowledged as clean: `Writers.WriterConditionIsNeeded`. `Recovery.NoLostUpdate` therefore speaks of rows without a
  writer. `Writers.WritersHoldExactly` gives the exact condition on each step, `Writers.NextWriteKeepsBytes` the one on
  each write, and `Writers.NoLostUpdateWithCare` holds with no condition on writers over runs without these two cases.
* Tombstones that hold one another in a cycle, with nothing live below, are never removed
  (`crates/twodrive-core/src/database/cloud.rs:222-230`). `CloudIndex.SweptExactly` and
  `CloudIndex.SweepIsExactWithoutKnots` give the exact condition, `CloudIndex.CyclicTombstonesStay` an example. Kept
  tombstones are shown with the live rows: `CloudIndex.ShownRowsAreExplained`.
* Renaming a subtree row by row can violate the unique index on the way although the final paths are distinct, and the
  import then fails as a whole (`crates/twodrive-core/src/database/metadata.rs:259-287`). `Renames.NestedRenameFails`
  is an example. `Renames.RenameSucceedsExactly` gives the exact condition in the query's order and
  `Renames.RebaseSucceedsExactly` in any other. Between names apart from each other a rename fails only when the final
  paths collide: `Renames.ApartRenameSucceedsExactly` with `Renames.FinalPathsDistinctExactly`.
* A folder whose new path lies below its own old one is matched by the descendant query and moved once more
  (`crates/twodrive-core/src/database/metadata.rs:259-287`). `Metadata.RenamedRowStandsAtItsEntry` gives the exact
  condition.

## Model

| member | source | states |
|---|---|---|
| `Pins.InheritedPin` | `crates/twodrive-core/src/database/pins.rs:78-93` | the upward walk ends and finds the nearest pinned proper ancestor (`WalkFindsDeepest`) |
| `Pins.RecomputePinInheritance` | `crates/twodrive-core/src/database/pins.rs:54-123` | one pass over the rows gives the whole recomputed table, and each row follows its deepest pin with the state that pin and cache give it |
| `Pins.SetExplicitPin` | `crates/twodrive-core/src/database/pins.rs:17-52` | fails without a change for an unknown item; otherwise the explicit pin is set, its own block and those below a newly pinned folder go, and each row follows the pins above it |
| `Pins.AllowPinInheritance` | `crates/twodrive-core/src/database/pins.rs:125-146` | lifts the block of the item and of everything below it, after which each row follows the pins above it |
| `Pins.WalkFindsDeepest` | `crates/twodrive-core/src/database/pins.rs:83-91` | the walk through the map of pinned paths yields the pin whose path is the deepest proper ancestor, or none when there is none |
| `Pins.OriginIsDeepestPin` | `crates/twodrive-core/src/database/pins.rs:71-93` | after a recomputation each row's origin is its deepest explicitly pinned proper ancestor, unless the row is explicit or blocked |
| `Pins.DeepestPinIsUnique` | `crates/twodrive-core/src/database/pins.rs:71-76` | the deepest pinned ancestor is one row, so the definition determines the origin |
| `Pins.RecomputedIsIdempotent` | `crates/twodrive-core/src/database/pins.rs:54-123` | recomputing twice equals recomputing once |
| `Pins.RecomputedIsConsistent` | `crates/twodrive-core/src/database/pins.rs:54-123` | the recomputed table satisfies the origin rule row by row, whatever origins it had |
| `Pins.RecomputedKeepsLocalWork` | `crates/twodrive-core/src/database/pins.rs:102-118` | a writing, dirty, uploading or conflict row keeps all but its origin and release mark |
| `Pins.RecomputedRow` | `crates/twodrive-core/src/database/pins.rs:102-118` | the columns of every row after a recomputation: a pinned file without its bytes is hydrating, any other pinned row pinned; without a pin a row is cached or online-only by its cache; a release waits only for unpinned rows |
| `Pins.DescendantOfPinnedFolder` | `crates/twodrive-core/src/database/pins.rs:17-52` | a descendant of a newly pinned folder is pinned exactly when the folder is not "/" or the descendant is explicit or not blocked |
| `Pins.PinningFolderPinsDescendants` | `crates/twodrive-core/src/database/pins.rs:17-52` | pinning a folder pins every descendant if and only if the folder is not "/" or everything below it is explicit or not blocked |
| `Pins.OriginSurvivesRelease` | `crates/twodrive-core/src/database/cache.rs:405-417` | a row outside a released subtree has the same origin afterwards |
| `Pins.ReleaseUnpinsExactlyItsSubtree` | `crates/twodrive-core/src/database/cache.rs:405-417` | a release leaves nothing in its subtree pinned and changes no effective pin outside it |
| `Paths.RebaseStaysBelow` | `crates/twodrive-core/src/database/metadata.rs:259-285` | descendants of a renamed folder stay below it if and only if the folder is not "/" |
| `Renames.RebaseDescendants` | `crates/twodrive-core/src/database/metadata.rs:259-285` | the descendants of a renamed folder are updated one by one in query order, against the unique index; in path order this succeeds if and only if nothing is in the way, and between names apart from each other if and only if no outsider holds a new path |
| `Renames.RebaseSucceedsExactly` | `crates/twodrive-core/src/database/metadata.rs:259-287` | in any order a rename gets through if and only if no row, at its turn, finds its new path held by a row outside the subtree or still to come |
| `Renames.ApartRenameSucceedsExactly` | `crates/twodrive-core/src/database/metadata.rs:259-287` | when neither name lies below the other, a rename succeeds, in every order, if and only if no row outside the subtree holds a new path |
| `Renames.RenameSucceedsExactly` | `crates/twodrive-core/src/database/metadata.rs:259-287` | in path order, for any two names, nested ones included, it succeeds if and only if each new path is free of rows outside the subtree and of rows of the subtree that come later |
| `Renames.FinalPathsDistinctExactly` | `crates/twodrive-core/src/database/metadata.rs:259-287` | the final paths are distinct if and only if no row outside the subtree holds a new path |
| `Renames.NestedRenameFails` | `crates/twodrive-core/src/database/metadata.rs:259-287` | moving /a/b up to /a with /a/b/b, /a/b/b/c and /a/b/c below it fails in path order although all final paths are distinct |
| `Renames.PathOrderIsAScan` | `crates/twodrive-core/src/database/metadata.rs:259-270` | the path order lists every row of every table exactly once, so the results about it are about something |
| `Metadata.UpsertMetadataEntries` | `crates/twodrive-core/src/database/metadata.rs:112-292` | the batch is one transaction: on failure nothing changes, on success the table is the batch applied in order with pins recomputed |
| `Renames.RebasedRows` | `crates/twodrive-core/src/database/metadata.rs:259-285` | in every row order a successful rename of a subtree rewrites exactly the paths below it |
| `Metadata.UpsertEntry` | `crates/twodrive-core/src/database/metadata.rs:125-289` | one entry: skipped when deleted, moved or edited here, otherwise detached, written and its folder's rows re-based; nothing when a rename fails |
| `Imports.GuardsExactly` | `crates/twodrive-core/src/database/metadata.rs:125-183` | an entry is left out if and only if a tombstone names its id or path, or an operation stands at or above it or its row, or a writing, dirty, uploading or conflict row is its own or holds its path |
| `Imports.ImportTakesExactly` | `crates/twodrive-core/src/database/metadata.rs:125-287` | an entry left out changes nothing; any other that goes through has its row bound to its id with its size, version, kind and path, without a cache when a file's version differs, evicts only its path's row, moves only rows below a renamed folder, and retires only the replaced file |
| `Imports.ImportFailsExactly` | `crates/twodrive-core/src/database/metadata.rs:125-289` | an entry fails if and only if it is not left out, renames a known row, and a remaining row is in the way of one below it |
| `Imports.BatchGoesOn` | `crates/twodrive-core/src/database/metadata.rs:112-291` | a batch is its entries one after the other, each on what the one before has left, and fails when one fails |
| `Metadata.AppliedFailsExactly` | `crates/twodrive-core/src/database/metadata.rs:184-287` | an entry fails if and only if it renames a known row and something is in the way of a descendant |
| `Metadata.RenamedRowStandsAtItsEntry` | `crates/twodrive-core/src/database/metadata.rs:184-287` | a renamed row ends at its entry's path if and only if that path is not below its own old one |
| `Metadata.AppliedTouchesOneRow` | `crates/twodrive-core/src/database/metadata.rs:184-285` | an applied entry changes one row, evicts at most one detached name, and moves only rows under a renamed folder |
| `Metadata.AppliedKeepsSchema` | `crates/twodrive-core/src/database/metadata.rs:184-285` | paths and cloud ids stay unique |
| `Metadata.ImportKeepsLocalWork` | `crates/twodrive-core/src/database/metadata.rs:135-183` | an import leaves a row with local work as it is, except for a path re-based under a renamed folder |
| `Metadata.BatchKeepsLocalWork` | `crates/twodrive-core/src/database/metadata.rs:112-292` | any successful batch, with the recomputation that follows, keeps every writing, dirty, uploading or conflict row: state, cache, size, etag, claim |
| `Metadata.CommitUploaded` | `crates/twodrive-core/src/database/metadata.rs:311-420` | the acknowledgement transaction: echo retired, claim cleared, cloud id bound, row clean only for the current generation, move queued for a renamed new file; all or nothing |
| `Uploads.CommitFailsExactly` | `crates/twodrive-core/src/database/metadata.rs:330-420` | an acknowledgement fails if and only if the row is gone or another row than an early echo has the cloud id it gets |
| `Uploads.CommitWritesExactly` | `crates/twodrive-core/src/database/metadata.rs:330-416` | the columns after an acknowledgement: claim cleared, uploaded etag unless the row is another item's, local modification time kept, size, file and clean state only for the current generation; which rows, retired files and moves change beside it |
| `Uploads.EditEchoIsIdle` | `crates/twodrive-core/src/database/metadata.rs:135-183` | after the upload of an edit of a file the cloud knows, the delta echo changes nothing, whether or not the file was edited or renamed again meanwhile |
| `Uploads.UploadedFileStaysCached` | `crates/twodrive-core/src/database/metadata.rs:372-403` | after acknowledgement and echo the row of the current generation is clean with the uploaded version, and still has the file that was uploaded |
| `Metadata.RetireEcho` | `crates/twodrive-core/src/database/metadata.rs:339-371` | the clean row a delta imported early under the new id goes, and its cache is retired |
| `Metadata.EchoIsUnique` | `crates/twodrive-core/src/database/metadata.rs:344-361` | at most one row can be such an echo |
| `Metadata.AcknowledgedCommutesWithPins` | `crates/twodrive-core/src/database/metadata.rs:372-403` | acknowledging and re-pinning a row commute |
| `Metadata.EchoAfterAcknowledgement` | `crates/twodrive-core/src/database/metadata.rs:135-183` | after the acknowledgement the echo changes no row |
| `Metadata.EchoBeforeAcknowledgement` | `crates/twodrive-core/src/database/metadata.rs:135-183` | before it the echo at most adds a clean row at the requested path, and only when the local file was renamed away |
| `Metadata.CommitAfterEcho` | `crates/twodrive-core/src/database/metadata.rs:330-416` | an acknowledgement after the echo reaches the same store as one without it |
| `Metadata.AcknowledgementAndEchoCommute` | `crates/twodrive-core/src/database/metadata.rs:330-416` | acknowledgement then echo equals echo then acknowledgement: one owner of the cloud id, no row at a left name, a queued move exactly when renamed |
| `Metadata.CompleteMissingConflictUpload` | `crates/twodrive-core/src/database/metadata.rs:11-99` | publishing a recovery copy is all or nothing and leaves the described table with pins recomputed |
| `Metadata.CopyKeepsOtherWork` | `crates/twodrive-core/src/database/metadata.rs:11-99` | the copy is the one owner of its cloud id; the original goes exactly when it still is the failed generation; no third row changes |
| `Uploads.CopyExactly` | `crates/twodrive-core/src/database/metadata.rs:11-99` | when a recovery copy is published, refused or dropped, and every column it writes; the original goes exactly when it still is the copied conflict with its claim, cache and version and no operation queued |
| `Uploads.OtherStatesStay` | `crates/twodrive-core/src/database/metadata.rs:68-83` | an original in any state but conflict stays |
| `Cache.BeginCachedWrite` | `crates/twodrive-core/src/database/cache.rs:13-31` | a writer starts exactly when all seven inspected columns still are its snapshot's |
| `Cache.BeginUpload` | `crates/twodrive-core/src/database/cache.rs:64-94` | a claim succeeds exactly for an unchanged dirty or interrupted row with no delete or move in the way, and records the path, cloud id and file of the snapshot, changing nothing else |
| `Cache.MarkUploadConflict` | `crates/twodrive-core/src/database/cache.rs:35-51` | only the unchanged uploading snapshot becomes a conflict |
| `Cache.MarkState` | `crates/twodrive-core/src/database/cache.rs:53-60` | sets the state whatever it was |
| `Cache.MarkDirtyWithSize` | `crates/twodrive-core/src/database/cache.rs:96-111` | the written row is dirty with its new size; an unknown row is an error |
| `Cache.InvalidateCachedSnapshot` | `crates/twodrive-core/src/database/cache.rs:123-141` | exactly an unchanged clean row on the cloud is detached, its generation retired, and it waits for bytes when pinned; never a local write |
| `Cache.BeginHydration` | `crates/twodrive-core/src/database/cache.rs:200-206` | a download starts exactly at the row's current generation, for a bound row without local work and with no release pending |
| `Cache.FinishHydration` | `crates/twodrive-core/src/database/cache.rs:208-242` | publication moves the partial file over and marks the row, pinned exactly when a pin covers it, if and only if the row still waits at this generation, pinned or not, and the length matches; else nothing changes |
| `Cache.FailHydration` | `crates/twodrive-core/src/database/cache.rs:244-251` | only a row that still waits for this download goes back |
| `Cache.ReleaseCachedRecord` | `crates/twodrive-core/src/database/cache.rs:308-370` | a record is released exactly when it is clean, unpinned, bound, not recent, outside the trash, unlocked, and no other row, claim or tombstone has its file; row and file are then without each other |
| `Cache.ReleaseRecords` | `crates/twodrive-core/src/database/cache.rs:372-386` | releasing several records is releasing each in turn, counted |
| `Cache.ReleasedAtOnce` | `crates/twodrive-core/src/database/cache.rs:433-469` | releasing records in turn drops exactly those that could go at the start, whatever the order and however often one is named; the count is their number |
| `Cache.ReleasePath` | `crates/twodrive-core/src/database/cache.rs:395-443` | policy and cancellation happen in one transaction, the dropping of caches record by record after it: the columns of every row, the files that go and the count, by which files were waiting and which clean files nobody else needed |
| `Cache.ReleaseLeavesNothingPinned` | `crates/twodrive-core/src/database/cache.rs:409-442` | no row of a released subtree stays pinned; every clean file that nobody needs is online-only with its cache off the disk, and so is every file that was waiting |
| `Cache.ReleaseRetiresGenerations` | `crates/twodrive-core/src/database/cache.rs:405-431` | a release bumps the generation of every file of the subtree and of no other row |
| `Cache.PathReleasedKeepsSchema` | `crates/twodrive-core/src/database/cache.rs:405-430` | a release keeps the unique indexes |
| `Cache.PruneCache` | `crates/twodrive-core/src/database/cache.rs:446-469` | exactly the scanned rows that are cached, unpinned, bound, expired, outside the trash, and needed and opened by nobody at the start lose their cache |
| `Cache.TrashExactly` | `crates/twodrive-core/src/database/cache.rs:472-489` | a path is exempt if and only if it is `.Trash-$uid` or `.Trash/$uid` of the root with a numeric uid, or below one |
| `Cache.RemoveUnreferencedCache` | `crates/twodrive-core/src/database/cache.rs:163-198` | a file goes exactly when no row, claim or tombstone refers to it and nobody has it open |
| `Cache.PruneRetiredCache` | `crates/twodrive-core/src/database/cache.rs:145-159` | exactly the retired, unreferenced, unlocked files go, whatever the order, and what stays retired |
| `Transactions.ApplyKeepsSchema` | `crates/twodrive-core/src/database/metadata.rs:112-292` | every transaction keeps both unique indexes |
| `Transactions.ImportShrinksRefs` | `crates/twodrive-core/src/database/metadata.rs:112-292` | no import makes a row refer to a further file |
| `Transactions.CommitShrinksRefs` | `crates/twodrive-core/src/database/metadata.rs:330-416` | nor does an acknowledgement |
| `Transactions.ReleaseKeepsRefs` | `crates/twodrive-core/src/database/cache.rs:308-370` | a released file is referenced by nothing afterwards |
| `Transactions.ReclaimKeepsRefs` | `crates/twodrive-core/src/database/cache.rs:163-198` | reclaiming removes no referenced file |
| `Transactions.FinishKeepsRefs` | `crates/twodrive-core/src/database/cache.rs:208-242` | a publication overwrites or removes no file another row needs |
| `Transactions.StepKeepsRefs` | `crates/twodrive-core/src/database/cache.rs:143-198` | one transaction of any kind keeps every referenced file on disk |
| `Transactions.ReferencedFilesStay` | `crates/twodrive-core/src/database/cache.rs:143-198` | over any run of imports, claims, acknowledgements, releases, prunes, reclamations and writes, every file a row, claim or tombstone refers to stays on disk |
| `Uploads.ClaimedFileStays` | `crates/twodrive-core/src/database/cache.rs:64-198` | from a claim until that row's acknowledgement, next claim, published copy or removal, the claimed file stays on disk, whatever cache the row takes meanwhile |
| `Completion.DownloadPublishes` | `crates/twodrive-core/src/database/cache.rs:200-242` | for every bound online-only, hydrating, pinned, cached or failed row with no release pending, a download begun at its generation that receives its size in bytes is published: file, row and pin state |
| `Hydration.ImportProgress` | `crates/twodrive-core/src/database/metadata.rs:204-210` | an import that changes etag or size bumps the generation |
| `Hydration.PolicyProgress` | `crates/twodrive-core/src/database/cache.rs:405-430` | pin changes and releases never lower a generation or change a version |
| `Hydration.PublishKeepsInv` | `crates/twodrive-fs/src/hydration.rs:116-135` | a publication after both version checks and the generation check is exact |
| `Hydration.StepKeepsInv` | `crates/twodrive-fs/src/hydration.rs:51-162` | every step of every thread, of the cloud and of the cleanup keeps the invariant |
| `Hydration.PublishedCachesAreExact` | `crates/twodrive-fs/src/hydration.rs:51-162` | over all interleavings every clean row with a cache holds exactly the bytes and length of the version its current etag names |
| `Hydration.StepKeepsCancelled` | `crates/twodrive-core/src/database/cache.rs:200-242` | a retired generation never comes back |
| `Hydration.ReleaseCancelsForGood` | `crates/twodrive-core/src/database/cache.rs:395-430` | after a committed release no download begun before it is ever begun again or published |
| `HydrationWorker.Shared.VerifyRemoteVersion` | `crates/twodrive-fs/src/hydration.rs:145-162` | passes only when the remote has the record's etag and size; a mismatch ends with the import of what the remote has, in the database's own terms, and without a pass nothing else is done |
| `HydrationWorker.Shared.DownloadSized` | `crates/twodrive-fs/src/hydration.rs:100-119` | the download loop ends, and success means the expected length |
| `HydrationWorker.Shared.BeginTransfer` | `crates/twodrive-fs/src/hydration.rs:66-94` | the record is read, then the row claimed at that generation or not at all |
| `HydrationWorker.Shared.PublishTransfer` | `crates/twodrive-fs/src/hydration.rs:124-140` | either the row is published exactly or the transfer is over; its partial file is gone in any case |
| `HydrationWorker.HydrateGeneration` | `crates/twodrive-fs/src/hydration.rs:51-141` | the thread's own sequence, with any steps of others between its own: a fresh result is the row's cache with exactly the content of the version its etag names; an existing cache is the row's, and such an exact copy when the row is clean; when nobody interferes, a row that wants what the remote has gets it |
| `Completion.DownloadCompletes` | `crates/twodrive-fs/src/hydration.rs:51-141` | from every world in which a row wants the version that the remote offers, the steps of one download lead to the row having exactly that content |
| `Recovery.StepKeepsInv` | `crates/twodrive-fs/src/recovery.rs:84-236` | every step of writers, workers, imports and pins keeps the invariant |
| `Recovery.NoLostUpdate` | `crates/twodrive-fs/src/recovery.rs:84-236` | over all runs a row that is clean with a cache and has no writer holds exactly the bytes the cloud acknowledged last |
| `Recovery.StaleAcknowledgementStaysPending` | `crates/twodrive-core/src/database/metadata.rs:330-403` | an acknowledgement makes a row clean if and only if it still is the uploading generation, and then, when no writer is at work, its file is what was sent |
| `Writers.WritersHoldExactly` | `crates/twodrive-fs/src/recovery.rs:84-236` | a step lets a row with an open handle leave the writing state if and only if it is a failed upload of such a row or closes one of two handles |
| `Writers.NoLostUpdateWithCare` | `crates/twodrive-fs/src/recovery.rs:84-236` | over runs without such steps every clean row with a cache holds the acknowledged bytes, whoever has it open |
| `Writers.NextWriteKeepsBytes` | `crates/twodrive-fs/src/filesystem/writes.rs:184-225` | a synced row keeps the acknowledged bytes under every next write if and only if no handle is open on its file |
| `Writers.WriterConditionIsNeeded` | `crates/twodrive-fs/src/recovery.rs:84-236` | from every world with a dirty or interrupted row that may be claimed while a handle is open on its file, a run of five steps ends with a clean row whose bytes were never acknowledged |
| `Writers.FailedUploadExposes` | `crates/twodrive-fs/src/recovery.rs:222-227` | a failed upload of a row with an open handle leads to such a world |
| `Writers.SecondHandleExposes` | `crates/twodrive-fs/src/filesystem/writes.rs:331-352` | so does closing one of two handles, with no failed upload |
| `LocalWork.OthersSpareLocalWork` | `crates/twodrive-core/src/database/metadata.rs:135-183` | no download, publication, import, pin change, release or reclamation, no writer of another file and no worker of another row changes the state, the file or the bytes of a row with local work |
| `LocalWork.LocalWorkStays` | `crates/twodrive-core/src/database/cache.rs:13-370` | over any run in which its own writer and worker take no step, a row with local work keeps its state, its file and every byte |
| `RecoveryWorker.Shared.MayClaim` | `crates/twodrive-fs/src/recovery.rs:94-145` | the checks before the claim; only an unchanged, unblocked record passes, and when nobody interferes every one does |
| `RecoveryWorker.Shared.Upload` | `crates/twodrive-fs/src/recovery.rs:146-152` | the upload reads the file piece by piece while others run, and may fail at any piece |
| `RecoveryWorker.Shared.Commit` | `crates/twodrive-fs/src/recovery.rs:153-173` | a committed upload is acknowledged with the bytes sent, exactly when the row is there and its cloud id is free |
| `RecoveryWorker.RecoverDirtyRecord` | `crates/twodrive-fs/src/recovery.rs:84-236` | the worker's own sequence between the steps of others: after an upload the row counts as synced only if its file holds exactly the acknowledged bytes, or a writer is at work; when nobody interferes, a dirty row is uploaded whole and clean afterwards |
| `Completion.UploadCompletes` | `crates/twodrive-fs/src/recovery.rs:84-175` | from every world with a dirty or interrupted row that may be claimed, the steps of one upload lead to a clean row whose file holds exactly the acknowledged bytes |
| `CloudIndex.Index.Begin` | `crates/twodrive-core/src/database/cloud.rs:179-185` | the stage of one identity is emptied, all else stays |
| `CloudIndex.Index.Stage` | `crates/twodrive-core/src/database/cloud.rs:186-206` | a page lands in the stage of one identity, later entries replacing earlier ones |
| `CloudIndex.Index.Commit` | `crates/twodrive-core/src/database/cloud.rs:207-241` | rows and cursor of one identity change together or not at all; staged items replace their rows, a deleted one keeps the name and parent it was committed with, no live row goes, none is left under one that has gone, and each kept tombstone has a row under it |
| `CloudIndex.CommitsExactly` | `crates/twodrive-core/src/database/cloud.rs:207-241` | what merging and sweeping leave of every row, column by column |
| `CloudIndex.ShownRowsAreExplained` | `crates/twodrive-core/src/database/cloud.rs:242-250` | over any run the live rows shown are the remote tree at the committed cursor, and every other row shown is a tombstone that holds a live item or is in a knot |
| `CloudIndex.Sweep` | `crates/twodrive-core/src/database/cloud.rs:222-230` | the delete-until-no-change loop ends and reaches the fixpoint |
| `CloudIndex.SweepIsExact` | `crates/twodrive-core/src/database/cloud.rs:222-230` | without parent cycles a tombstone stays if and only if a live item lies below it through items of the table; live items never go |
| `CloudIndex.SweptExactly` | `crates/twodrive-core/src/database/cloud.rs:222-230` | in any table an item stays if and only if it is live, holds a live item, or is in a knot: tombstones that hold one another and nothing live |
| `CloudIndex.SweepIsExactWithoutKnots` | `crates/twodrive-core/src/database/cloud.rs:222-230` | the sweep keeps no tombstone in vain if and only if the table has no knot |
| `CloudIndex.CyclicTombstonesStay` | `crates/twodrive-core/src/database/cloud.rs:222-230` | two tombstones that are each other's parent are a knot and stay |
| `CloudIndex.StageDelta` | `crates/twodrive-backend/src/onedrive/readonly.rs:83-138` | stages the pages of one delta in the order the links chain them and publishes nothing; whatever the outcome, the requests have distinct, trusted urls and stay within the limit; it fails only when the caller stops it, the server fails, a full listing expires, or a continuation is missing, repeated, past the limit or not to be trusted |
| `CloudIndex.Request` | `crates/twodrive-backend/src/onedrive/readonly.rs:97-115` | asks nothing, or one url that is new, trusted and within the limit, whether or not it succeeds |
| `CloudIndex.RefreshIndex` | `crates/twodrive-windows/src/engine/cloud.rs:115-137` | a whole refresh: on failure nothing is published, and unless the caller stopped it the listing was stuck; on success a faithful session makes the live rows the remote tree at the new cursor; no other identity is touched |
| `CloudIndex.StagedIsLastWord` | `crates/twodrive-core/src/database/cloud.rs:186-206` | the stage holds exactly the last word on every id |
| `CloudIndex.CommitRefinesRemote` | `crates/twodrive-core/src/database/cloud.rs:207-241` | committing a faithful delta makes the visible rows the remote tree at its cursor |
| `CloudIndex.OnlyCommitsShow` | `crates/twodrive-core/src/database/cloud.rs:179-241` | staging, interruption and restart change nothing visible, and no step touches the rows, the cursor or the stage of another identity |
| `CloudIndex.IndexRefinesRemote` | `crates/twodrive-core/src/database/cloud.rs:179-250` | over any run of sessions the visible rows of each identity are the remote tree at its committed cursor |
| `UploadQueue.KeysAreDistinct` | `crates/twodrive-fs/src/upload_queue.rs:31-35` | different commands have different keys |
| `UploadQueue.Queue.Send` | `crates/twodrive-fs/src/upload_queue.rs:30-54` | sets the rerun bit of a pending key, else enqueues; a closed channel leaves no trace |
| `UploadQueue.Queue.Start` | `crates/twodrive-fs/src/upload_queue.rs:64-78` | the run takes over its key and clears the rerun bit |
| `UploadQueue.Queue.Finish` | `crates/twodrive-fs/src/upload_queue.rs:81-94` | the key is dropped, and a set rerun bit is handed to a resend |
| `UploadQueue.StepKeepsFlight` | `crates/twodrive-fs/src/upload_queue.rs:29-94` | every step keeps one holder per pending key and none for others |
| `UploadQueue.StepLosesNoWakeup` | `crates/twodrive-fs/src/upload_queue.rs:29-94` | every step keeps each returned send followed by a run, or owed |
| `UploadQueue.EveryRunIsSafe` | `crates/twodrive-fs/src/upload_queue.rs:29-94` | single flight and no lost wakeup, for any number of workers, senders and interleavings |
| `UploadQueue.QuiescenceOwesNothing` | `crates/twodrive-fs/src/upload_queue.rs:29-94` | when all is idle nothing is pending and every send got a run that started after it |
| `PeerCrypto.SealedOpens` | `crates/twodrive-peer/src/crypto.rs:61-148` | what one engine seals the other opens, in the same sessions, if and only if within the time window |
| `PeerCrypto.OpensExactly` | `crates/twodrive-peer/src/crypto.rs:108-148` | an envelope opens exactly for its recipient, from its signer, in both sessions, within 120 seconds of its issue |
| `PeerCrypto.PresenceWindow` | `crates/twodrive-peer/src/identity.rs:127-156` | a presence counts exactly within 180 seconds of its issue, when its own device signed it |
| `PeerProtocol.ControlEngine.Trust` | `crates/twodrive-peer/src/protocol.rs:61-64` | distrusted peers are forgotten |
| `PeerProtocol.ControlEngine.Discover` | `crates/twodrive-peer/src/protocol.rs:65-86` | succeeds exactly for another device's valid presence within the peer limit; a new session or key starts the handshake over, any other presence keeps challenge and authentication |
| `PeerProtocol.ControlEngine.Greet` | `crates/twodrive-peer/src/protocol.rs:95-103` | there is a hello exactly for a known peer with a valid presence; it carries the challenge on record, from this engine's device and session to the device and session on record, for 120 seconds |
| `PeerProtocol.ControlEngine.Send` | `crates/twodrive-peer/src/protocol.rs:112-127` | succeeds exactly to an authenticated peer, never with a handshake message, and for a ping within the limit; a ping is registered first |
| `PeerProtocol.ControlEngine.Receive` | `crates/twodrive-peer/src/protocol.rs:128-213` | an envelope is accepted exactly when its sender, sessions, time, id and message are right, then remembered, applied and answered: a ping with its nonce, a hello with its challenge, a status request with the status; a refusal at most purges the replay window |
| `PeerProtocol.TablesStayBounded` | `crates/twodrive-peer/src/protocol.rs:65-213` | peers, replay window and pings never exceed 64, 2048 and 256 entries over any run |
| `PeerProtocol.AcceptedIsRemembered` | `crates/twodrive-peer/src/protocol.rs:128-213` | an accepted envelope stays in the replay window until it expires |
| `PeerProtocol.DeliveredAtMostOnce` | `crates/twodrive-peer/src/protocol.rs:128-213` | under a clock that never goes back, any one envelope is accepted at most once over a whole run |
| `PeerProtocol.PongsNeverExceedPings` | `crates/twodrive-peer/src/protocol.rs:112-213` | no ping satisfies more than one pong |
| `PeerDialogue.HandshakeCompletes` | `crates/twodrive-peer/src/protocol.rs:65-162` | two engines that trust each other and see each other's presence get through: hello, answer, authenticated, when both arrive in time |
| `PeerDialogue.PingIsAnswered` | `crates/twodrive-peer/src/protocol.rs:112-213` | a ping between authenticated peers is answered with its nonce, and the pong is accepted and uses it up |
| `PeerHandshake.AckProvesAgreement` | `crates/twodrive-peer/src/protocol.rs:128-213` | an acknowledgement signed by an honest peer proves that it took this challenge from this session |
| `PeerHandshake.StepKeepsInv` | `crates/twodrive-peer/src/protocol.rs:65-213` | every action of every engine keeps the handshake invariant, over a network that drops, replays and reorders |
| `PeerHandshake.AuthenticatedMeansAgreed` | `crates/twodrive-peer/src/protocol.rs:65-162` | if A has honest B authenticated, B's engine in the recorded session took a hello with A's current challenge and answered it to A's current session |
| `PeerHandshake.HelloWasGenuine` | `crates/twodrive-peer/src/crypto.rs:108-148` | a hello taken from an honest device was sealed by one of its engines, in the session it names |
| `PeerUpdate.Updater.Stage` | `crates/twodrive-peer/src/update.rs:168-206` | exactly a genuine, signed, intact release that is newer than the built-in version and the high-water mark, and fits what is installed, becomes pending; else nothing changes |
| `PeerUpdate.Updater.Activate` | `crates/twodrive-peer/src/update.rs:251-274` | a healthy, sound, newer release becomes active and high-water; any other pending one is dropped |
| `PeerUpdate.Updater.Rollback` | `crates/twodrive-peer/src/update.rs:284-290` | the previous version returns and the pending one is dropped |
| `PeerUpdate.UpdatesExactly` | `crates/twodrive-peer/src/update.rs:168-221` | which releases can be staged and which pending ones activated, column by column |
| `PeerUpdate.UpdateCompletes` | `crates/twodrive-peer/src/update.rs:168-290` | a genuine newer release is staged, activated when it starts, and one rollback returns to what was active before |
| `PeerUpdate.Updater.ActiveExecutable` | `crates/twodrive-peer/src/update.rs:278-283` | an active version is only run with its release proof intact |
| `PeerUpdate.EveryRunIsOrdered` | `crates/twodrive-peer/src/update.rs:168-290` | over any run pending exceeds high-water, and previous < active <= high-water |
| `PeerUpdate.HighwaterNeverFalls` | `crates/twodrive-peer/src/update.rs:251-290` | the high-water mark never falls, not even by a rollback |
| `PeerUpdate.NoVersionIsActivatedTwice` | `crates/twodrive-peer/src/update.rs:251-290` | each activation is strictly newer than every earlier one |
| `PeerUpdate.OnlySoundReleasesActivate` | `crates/twodrive-peer/src/update.rs:207-221` | what becomes active was verified and healthy |
| `PeerUpdate.PendingIsNeverRejectedAsOld` | `crates/twodrive-peer/src/update.rs:258-264` | the rollback test of an activation never fires |
| `PeerUpdate.TwoRollbacksReachBootstrap` | `crates/twodrive-peer/src/update.rs:284-290` | two rollbacks with no activation between them reach the bootstrap executable |
| `Download.CopyBody` | `crates/twodrive-backend/src/onedrive/readonly.rs:230-247` | appending a body keeps the file a prefix of the item's version as long as the remote has it |
| `Download.Transfer` | `crates/twodrive-backend/src/onedrive/readonly.rs:199-249` | a 200 restarts, a 206 must continue exactly at the end of the file; success means the full length; a complete answer succeeds unless the caller stops it |
| `Download.SameVersion` | `crates/twodrive-backend/src/onedrive/readonly.rs:139-156` | true only if the remote has the item's etag and size, and always on a calm remote that has them |
| `Download.DownloadPartial` | `crates/twodrive-backend/src/onedrive/readonly.rs:158-276` | at every exit the file is a prefix of the item's version while the remote has it; success means the file is its whole content; at most three downloads are asked for; with a calm remote only the caller can stop it |
| `UploadSession.FirstExpectedOffset` | `crates/twodrive-backend/src/onedrive/upload.rs:303-308` | the first readable range start, or none |
| `UploadSession.QueryUploadOffset` | `crates/twodrive-backend/src/onedrive/upload.rs:280-302` | the first expected offset of a readable status, none for a session that is gone, an error when there is no answer; an exact server's offset is what it holds |
| `UploadSession.Attempt` | `crates/twodrive-backend/src/onedrive/upload.rs:201-259` | one PUT of the piece; with an exact server it holds its old prefix or the piece added, the next offset is what it holds, and done means it holds the source |
| `UploadSession.SendFragment` | `crates/twodrive-backend/src/onedrive/upload.rs:191-264` | at most three PUTs of exactly the same in-bounds piece; the offset to go on with is the server's |
| `UploadSession.UploadSessionFile` | `crates/twodrive-backend/src/onedrive/upload.rs:174-278` | ends for every server; every PUT is an exact in-bounds piece of the source, starts never fall; with an exact server success means it holds the source; with a calm one only the caller can stop it |
| `Inodes.InodeTable.FromRecords` | `crates/twodrive-fs/src/inodes.rs:20-66` | every record gets its own number, its path when the paths are distinct, and is listed by its folder |
| `Inodes.InodeTable.RefreshChildren` | `crates/twodrive-fs/src/inodes.rs:67-102` | the listing is the given records, each the owner of its path; the same item keeps its number, any other gets a fresh one; children no longer listed give their paths up |
| `Inodes.InodeTable.InsertOrUpdate` | `crates/twodrive-fs/src/inodes.rs:121-143` | the same item keeps its number, anything else gets a fresh one; its folder lists it and shows it, and no other listed child is lost |
| `Inodes.InodeTable.ReplaceInoRecord` | `crates/twodrive-fs/src/inodes.rs:144-164` | the number moves to the new path and leaves the old one; the folder of the new path lists it, and no other listed child is lost |
| `Inodes.InodeTable.ReplaceSize` | `crates/twodrive-fs/src/inodes.rs:171-176` | only the size of the stored record changes |
| `Inodes.InodeTable.SetSize` | `crates/twodrive-fs/src/inodes.rs:165-169` | only the size of the stored record changes, and it never shrinks |
| `Inodes.InodeTable.RemoveIno` | `crates/twodrive-fs/src/inodes.rs:177-189` | the number disappears from every table, other paths keep theirs |
| `Inodes.InodeTable.ChildrenForIno` | `crates/twodrive-fs/src/inodes.rs:190-207` | each listed child is the current owner of its path |
| `Inodes.InodeTable.PathsAreInjective` | `crates/twodrive-fs/src/inodes.rs:20-207` | in every valid table no two paths share an inode |
| `Inodes.InodeTable.FreshNumbersAreFree` | `crates/twodrive-fs/src/inodes.rs:20-207` | a fresh number collides with none held anywhere |
| `WebDav.Propfind` | `experiments/twodrive-dev/src/webdav.rs:177-265` | an answer counts exactly when it is not empty, complete, and names no resource twice; each entry says what its response says, a bare etag in quotes |
| `WebDav.Visit` | `experiments/twodrive-dev/src/webdav.rs:318-335` | a folder's members join the listing; fails on a non-child or one entry too many |
| `WebDav.ListAll` | `experiments/twodrive-dev/src/webdav.rs:313-338` | ends for every server; the result has distinct paths, each after its listed folder, all folders read in full; on a faithful server it succeeds if and only if every folder answers and the tree fits the limit |
| `WebDav.WalkIsTheTree` | `experiments/twodrive-dev/src/webdav.rs:313-338` | a successful walk of a faithful server returns every resource below the root exactly once |
| `WebDav.OnlyThenStuck` | `experiments/twodrive-dev/src/webdav.rs:317-336` | on a faithful server the walk fails only for a missing answer or a tree over the limit |
| `WebDav.ListDelta` | `experiments/twodrive-dev/src/webdav.rs:339-362` | names the current resources, drops what only the cursor had, refuses a foreign cursor |
| `WebDav.UpdatedIsTheTree` | `experiments/twodrive-dev/src/webdav.rs:339-362` | taking one delta over turns the rows of its cursor into the current tree |
| `WebDav.FollowedIsTheLastTree` | `experiments/twodrive-dev/src/webdav.rs:339-362` | a client that follows the deltas of a faithful server always holds exactly the last tree |

## Left out

- HTTP, OAuth, token files, SQLite and SQL text, FUSE, the tray, Nautilus, packaging and IPC: input and output around the modelled logic.
- The columns `parent_path` and `name`, which repeat the path; 64-bit widths of sizes, inode numbers and generations, which are unbounded here.
- `normalize_cloud_path`: paths are sequences of non-empty segments, because normalisation is not idempotent when spaces stand next to slashes.
- `sanitize_cache_name`: cache names keep the item id, because two ids outside the safe alphabet can share a name.
- `mutations.rs` (local moves, replacements, deletes, `complete_deleted_upload`): a local rename is a single guarded step, tombstones and queued operations are given.
- `mark_cached`, `mark_online_only`, `mark_cache_accessed` and `bind_cloud_identity`: unguarded single updates that add only easy members.
- The tail of `preserve_conflict_copy` for an original that still exists (`conflicts.rs:57-62`): unconditional, sound only without a concurrent local write.
- Rows in state `error`: an import may overwrite them, so they are not among the rows with local work.
- Hydration.PublishedCachesAreExact: assumes that etags are never reused, that a deleted id is not imported again, and that a cloud id does not change between file and folder, since `hydrate_generation` tests only its caller's record for being a folder.
- Hydration.StepKeepsInv: imports come one entry at a time with a cloud id; a batch is several such steps before other threads see it.
- HydrationWorker.HydrateGeneration: a record read without a cloud id is refused before the claim; the progress activity and file creation errors other than a failed download are left out.
- Recovery.NoLostUpdate: speaks of cache files that belong to one row, of one process, and of no crash while a writer is at work; downloads into the row are the subject of `Hydration`.
- RecoveryWorker.RecoverDirtyRecord: an upload whose row was deleted meanwhile ends without a result; queueing the remote delete belongs to `mutations.rs`, the conflict copy to `Metadata.CompleteMissingConflictUpload`.
- UploadQueue.EveryRunIsSafe: no shutdown command and no worker that dies.
- PeerHandshake.AuthenticatedMeansAgreed: signatures and encryption are ideal, and sessions and challenges are fresh.
- PeerProtocol.ControlEngine.Receive: the parsing of envelopes and the text rules for versions and platforms are reduced to their outcome.
- PeerUpdate.EveryRunIsOrdered: versions are release triples without pre-release tags; download, signature bytes and the file lock are left out.
- Download.DownloadPartial: retry delays and the target checks of the signed url are left out.
- UploadSession.UploadSessionFile: the session store on disk, url building and retry delays are left out.
- Inodes.InodeTable.ChildrenForIno: the final sort of the listing is left out.
- WebDav.Propfind: parsing XML, urls and dates is reduced to the outcome for each response.
- CloudIndex.StageDelta: parsing items and urls is reduced to its outcome; download tasks of the same database are left out.
- LocalWork.LocalWorkStays: speaks of work in a file of the row's own; a recovery copy that shares the failed row's download file is the subject of `Metadata.CopyKeepsOtherWork`.
- Cache.ReleasePath: the columns are stated for a listing of exactly the rows below the path, which is what the query returns; for any other list only the release of its records in turn is.
- Uploads.ClaimedFileStays: a batch that removes the row on the way and imports it again counts as the row's removal.
- Renames.RenameSucceedsExactly: paths compare by code point, which is the order of their UTF-8 bytes.
- CloudIndex.RefreshIndex: the session guard and the stored identity of the engine's state are left out; they decide only whether the commit is reached.
- The rest of the Windows engine, configuration, diagnostics and attribute builders: easy members only.
