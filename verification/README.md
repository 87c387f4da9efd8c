# SaveKnot: the durable blob store and what is built on it

SaveKnot backs up game saves.  The bytes of every save file are kept once, compressed,
under the digest of their content; a snapshot is a manifest that lists digests.  A SQLite
index says where each blob is, which manifests mention it and which multi-step file moves
are unfinished.  This project models that store, the protocols that change it, its
publication to a shared bucket, and the restores that read it back, and proves what the
protocols keep when calls fail, when the process dies between any two effects, and when
calls overlap as far as the locks let them.

## How the model is built

- **Disk** (`Files`): a path resolves through directory aliases that keep its last
  component; a location holds an inode, an inode holds bytes, so hard links share bytes.
  `Link`, `Move`, `Unlink` and a commit are single steps.  SHA-256 and zstd are function
  values; theorems that need them collision-free or lossless say so.
- **Calls** are methods on the store's fields.  `if *` decides before every effect whether it
  fails, and `Crashed` is the outcome of a process that dies there.  Contracts speak of every
  outcome.
- **Failures are counted.**  Every operation that fails adds one to the ghost field `faults` of the
  store, the save files, the registry or the network.  So contracts also say when a call must
  succeed: what it refuses with an unchanged counter is refused for a stated reason, and a
  compensation that does not work takes a failure of its own.
- **Concurrency** is modelled by events: one event is one effect, and theorems quantify over
  every sequence of events.
- **Blob safety** (`Store.Safe`): every hash that a snapshot made on this device needs is
  indexed at a path whose file decodes to that hash.

| files | contents |
|---|---|
| `Files`, `Sets`, `Snapshots`, `Store` | disk, manifests, tables, statements, garbage collection |
| `PendingSources`, `PendingUndo`, `Artifacts`, `Relocation`, `Switching`, `SourceCleanup`, `ChainedMoves`, `Tracking`, `Configure`, `MoveSequences` | moving the store: journaled staging, switch and its undo, recovery, cleanup, and what sequences of moves leave behind |
| `Capture`, `Download`, `Runs`, `Interleaving`, `UploadBatches`, `CallsAlone` | taking snapshots, fetching blobs, blob safety of sequential and of overlapping calls, the blobs of an upload batch, each call by itself |
| `Publication`, `Reconciliation`, `Coordination`, `JobsAlone`, `SyncQueue`, `Watcher` | buckets, imports, locks and retention, the sync queue, the debounce |
| `SnapshotContents`, `RestoreTransaction`, `Restore`, `RestoreFiles`, `RestoreUndo`, `RollbackFlags` | comparing snapshots, restoring files as a transaction, undoing a restore |
| `EndToEnd` | from the save files of one device through a bucket to those of another |
| `Text`, `RegistryPaths`, `Registry`, `RegistryTree`, `RegistryDocuments`, `RegistryBackup`, `RegistryRestore` | the registry part of a snapshot |

## What the proofs found

- **Blob safety fails in exactly two ways.**  A create holds only `backupMu`, a download only
  `syncMu`.  A download's set-aside can take the indexed file of a hash that a saved snapshot
  needs, or take a file that a running create has stored and is about to name in a save
  (`Interleaving.DownloadDuringCreateLosesBlob` is such a run).
  `Interleaving.SafeExactlyWhenGuarded` proves that nothing else can go wrong: over all runs every
  needed hash is present at every moment if and only if no set-aside and no save is one of those.
  `Interleaving.ApartIsSafe` proves that keeping creates and downloads apart is enough.
- **A file can be forgotten between two moves.**  A move that died after it had filled an older
  place leaves a file that only its journal row claims.  When the blobs then move somewhere else,
  that row no longer counts, recovery drops it, and the file stays for good
  (`MoveSequences.StaleClaimIsForgotten`).  `Tracking.OnTrackExactlyWhenCarriedOver` gives the exact
  condition, in terms of the store before the move; an empty journal always meets it.
- **One blob without a file stops every move.**  A sweep that dies after it removed an orphan's file
  leaves the orphan indexed.  `Relocation.PrepareBlobRelocation` then refuses every move of the
  store, needed or not, until a later sweep drops that row or the blob has a file again where it is
  indexed or where it would go, and refuses for no other reason (`Relocation.PlaceableMeans`).
- **`sameContents` can miss a change**, and then is not symmetric, exactly when the newer manifest
  repeats a (source key, path) pair and all repeats of each pair agree on the digest
  (`SnapshotContents.MissesExactlyWhenBlind`).  Without repeats it is exactly equality.
- **It also ignores the root-file flag**, which decides where a file goes.  When an unchanged older
  snapshot serves as the way back of a restore, it recovers the captured files if and only if its
  flags are theirs (`RollbackFlags.RecoversExactlyWithSameFlags`); a location that was a file and
  became a directory is an input where it does not (`RollbackFlags.FileBecameDirectory`).
- **Distinct locations are not enough for a restore on another device**: locations inside one
  another can send two files to one place (`EndToEnd.InnerLocationMixesFiles`).
- **A game with the id `snapshots` stops every import** from a bucket that holds it: the key of its
  metadata object looks like that of a manifest and names none.  No other id does that
  (`Reconciliation.MetadataAsManifest`).
- **Undoing a switch is refused exactly when** a pending row of another root leads to a path that
  does not move (`PendingUndo.UndoRestoresTable`).  The tables that the program writes never hold
  such a row: that they are canonical is part of the store's invariant, in every run.
- **A registry key name that holds a slash does not survive** backup and restore, and nothing else
  is lost (`RegistryRestore.BackupRecovers`).

## Model

| member | source | states |
|---|---|---|
| BlobStore.Store.SaveBlob | internal/database/store.go:1047-1054 | upsert by hash; a known hash keeps its upload mark; a failed statement changes nothing |
| BlobStore.Store.MarkBlobUploaded | internal/database/store.go:1072-1077 | marks the row if there is one, and touches nothing else |
| BlobStore.Store.InsertBlobRefs | internal/database/store.go:1978-2004 | the references of a manifest are exactly its hashes, files and registry, beside those already there |
| BlobStore.Store.SaveSnapshot | internal/database/store.go:742-776 | stores a new manifest with exactly its references, all or nothing; a stored id is refused |
| BlobStore.Store.ImportSnapshot | internal/database/store.go:778-817 | a stored id takes over the imported manifest and its references; the snapshot counts as synced |
| BlobStore.Store.MarkSnapshotRemote | internal/database/store.go:1962-1976 | rewrites the remote state of a stored manifest, fails for a missing one, and changes nothing that blob safety needs |
| BlobStore.Store.RemoveOrphanBlob | internal/database/store.go:970-1005 | a referenced or unknown blob is left alone; the row goes only after the file; a failed removal keeps the row for a retry |
| BlobStore.Store.SweepOrphans | internal/database/store.go:956-963 | only listed orphans lose rows and files; when nothing fails all of them do |
| BlobStore.Store.DeleteSnapshot | internal/database/store.go:915-964 | keeps blob safety at every exit; a row goes only when no manifest mentions its hash; a sweep without failures leaves nothing unreferenced, neither rows nor their files, leftovers included; only a failed operation or an unknown id prevents it |
| BlobStore.SweepKeepsNeeded | internal/database/store.go:970-1005 | a sweep takes no file that a stored snapshot of a set needs, when only unreferenced blobs were listed for it; UploadBatches has the same over all interleavings |
| BlobStore.TrueSizeVerifies | internal/database/store.go:1126-1152 | where digests do not collide, a blob file verifies under the size that the index, a pending row or the journal records for its hash; `Store.Valid` carries that those sizes are true through every call |
| PendingSources.CapturePendingSourceUndo | internal/database/store.go:1260-1318 | records exactly the rows that the switch of an item will change and the keys that it will write |
| PendingSources.RetargetSource | internal/database/store.go:1335-1391 | the deletes and the upsert for one older source do to its rows what the switch promises, and nothing to others |
| PendingSources.UpdatePendingSource | internal/database/store.go:1335-1391 | older rows that led to the old path lead to the new one under the new root, the old path gets a row, everything else stays |
| PendingSources.RestorePendingSources | internal/database/store.go:1320-1332 | the written keys go and the recorded rows come back; refused exactly when a recorded key is still present |
| PendingUndo.UndoRestoresTable | internal/database/store.go:1182-1332 | undoing a switch gives the whole table back row for row; the refusal has an exact condition |
| PendingUndo.SwitchKeepsCanonical | internal/database/store.go:1335-1391 | rows lead to the place their root gives their hash before and after a switch, so no undo is refused; `Store.Valid` carries this through every call |
| PendingUndo.SwitchTwiceIsSwitchOnce | internal/database/store.go:1182-1229 | a repeated switch to the destination changes no row |
| PendingUndo.SwitchOneMore | internal/database/store.go:1202-1257 | capture and switch of one more item extend what the earlier items amount to, whatever paths they share |
| Switching.StaysCanonical | internal/database/store.go:1182-1332 | neither a switch, nor its undo record, nor taking it back puts a row that leads elsewhere into the table |
| Switching.StaysSized | internal/database/store.go:1182-1391 | a switch, its undo record and the way back record only true sizes |
| Switching.SwitchRelocationItem | internal/database/store.go:1231-1257 | path, pending rows and journal state of one item; an item that stays in place writes no row |
| Switching.SwitchItems | internal/database/store.go:1202-1211 | all items together give the switched index, journal and table, and an exact undo record |
| Switching.BlobRelocation.Switch | internal/database/store.go:1182-1229 | one transaction over the three tables with its undo record; a failure changes none of them, a crash shows one of the two states |
| Configure.SwitchThereAndBack | internal/database/store.go:1182-1332 | any number of switches there, failed ones included, and one back leave index, journal and pending table as they were; the way back is never refused |
| Configure.CanonicalNeverStuck | internal/database/store.go:1320-1332 | in a table where rows lead to canonical places the way back is never refused |
| Relocation.CopyToStage | internal/database/store.go:1843-1862 | fills a claimed stage on a new inode with what the source holds; done means that the copy verifies; a torn copy stays claimed; only a failed operation prevents it |
| Relocation.FinalizeStagedBlob | internal/database/store.go:1708-1721 | publishes by link, or by a rename that was journaled first; either way the attempt can tell that the destination is its own |
| Relocation.RelocateBlobStaged | internal/database/store.go:1820-1878 | an existing destination is verified and never replaced; claims precede the files they cover; unless an operation fails it succeeds exactly when the destination verifies or, where there is none, the source |
| Relocation.PlaceableMeans | internal/database/store.go:1126-1152 | where digests do not collide, every blob can be placed if and only if each has a file where it is indexed or where it is to go |
| Relocation.PlacesUntouched | internal/database/store.go:1111-1123 | an attempt does not change what can be said about the blobs that it has not tried |
| Relocation.ReserveArtifact | internal/database/store.go:1148-1177 | the journal row precedes any file and claims nothing yet |
| Relocation.PrepareRelocationItem | internal/database/store.go:1148-1177 | a blob in place is verified, another is journaled and staged; the receipt remembers the journal row even on failure |
| Relocation.CleanupRelocationArtifact | internal/database/store.go:1619-1692 | files first, then the row; a destination goes only when this attempt made it; only a failed operation prevents it |
| Artifacts.CleanupKeepsIndexed | internal/database/store.go:1669-1692 | cleaning up an artifact never takes an indexed file, under any aliases and hard links |
| Artifacts.CleanupKeepsClaims | internal/database/store.go:1619-1692 | cleaning up one journal row, however far it gets, gives up no other row's claim on a file that stays |
| Artifacts.CommittedLosesOnlyItsStage | internal/database/store.go:1669-1692 | the cleanup of a committed row removes its stage and no blob file |
| Artifacts.MadeIsRemovable | internal/database/store.go:1669-1692 | a destination is removed if and only if the attempt made it |
| Artifacts.NothingOwnedNothingLeft | internal/database/store.go:1588-1692 | an attempt whose entries are all cleaned up has left every file as it was |
| Artifacts.BaseRowCleaned | internal/database/store.go:1588-1692 | beside an attempt, an older row's cleanup takes from the older files exactly what it would have taken without the attempt |
| Artifacts.AttemptClaims | internal/database/store.go:1111-1177 | every blob file that an attempt made is claimed by its journal rows, and older claims stand |
| Relocation.CleanupDestinations | internal/database/store.go:1575-1586 | one failure does not stop the others; when none fails no entry of the attempt is left |
| Relocation.CleanupRelocationArtifacts | internal/database/store.go:1588-1611 | recovery keeps every indexed file and every claim on a file that stays, at every exit; done means an empty journal; beside an attempt it is a recovery of the older rows |
| Relocation.PrepareBlobRelocation | internal/database/store.go:1111-1123 | unless an operation fails it succeeds exactly when every blob can be placed, without touching the index; a failure that could clean up leaves journal and files as before, and one failure alone is always cleaned up |
| Relocation.PrepareThenRecover | internal/database/store.go:1111-1177 | all or nothing, whatever the journal held: prepare that fails or dies anywhere, then recoveries that may fail or die, the last completing, leave the files that the same recovery of the older rows alone leaves |
| Relocation.NothingToRecover | internal/database/store.go:1588-1611 | with no older rows that is every file as before |
| Configure.Rollback | internal/database/store.go:1566-1586 | without failures index, pending table, journal and files are those from before the attempt, and the switch back is never refused; with failures the tables are all switched or all back, nothing needed is lost, and no claim is given up |
| SourceCleanup.HasIndexedBlobPathReference | internal/database/store.go:1490-1519 | yes exactly when some indexed path is the source or the same physical file |
| SourceCleanup.CleanupPendingBlobSource | internal/database/store.go:1440-1530 | the file goes only when the row is current and nothing indexed is that file; the row goes only when the file is gone or is the replacement |
| SourceCleanup.CleanupKeepsTracked | internal/database/store.go:1440-1530 | one row's cleanup, however it ends, loses track of no left-behind file |
| SourceCleanup.CleanupListedSources | internal/database/store.go:1400-1438 | a pass keeps every indexed file; it completes unless an operation fails or a row leads to a file that does not verify, and then has deleted exactly the left-behind files, but for those that the journal claims |
| SourceCleanup.NothingLeftBehind | internal/database/store.go:1400-1438 | when every row of the root is finished no file is left behind but those that the journal claims |
| SourceCleanup.PassKeepsClaims | internal/database/store.go:1400-1438 | a pass over the table gives up no claim of the journal |
| SourceCleanup.PresentRowsVerify | internal/database/store.go:1440-1530 | with every blob in place no pending row can stop the pass: what it leads to verifies under the row's size |
| ChainedMoves.SwitchKeepsTracked | internal/database/store.go:1335-1391 | after a committed switch every left-behind file of every earlier move has a row naming the current root and path, or is claimed by the journal |
| ChainedMoves.SwitchTracksExactlyWhat | internal/database/store.go:1335-1391 | a committed switch loses track of nothing if and only if each file that only the journal claimed is a new place, has a row waiting, or is still claimed |
| ChainedMoves.AttemptKeepsTracked | internal/database/store.go:1111-1177 | an attempt that switched nothing, wherever it stopped, loses track of nothing: files it put at older places are claimed by its rows |
| ChainedMoves.AttemptKeepsUnshared | internal/database/store.go:1820-1878 | an attempt makes no second link between blob files of the store |
| Tracking.OnTrackExactlyWhenCarriedOver | internal/database/store.go:1182-1257 | the same condition read off the store before the move: the committed switch stays on track if and only if the move carries over what only the journal claims |
| Tracking.ClaimsForetold | internal/database/store.go:1231-1257 | of the files from before the attempt, the journal claims after the switch exactly what its older rows claim once the blobs count as moved |
| Tracking.StayingCarriesOver | internal/database/store.go:1231-1257 | a move to where the blobs are forgets nothing, whatever the journal holds |
| Tracking.EmptyJournalCarriesOver | internal/database/store.go:1231-1257 | with an empty journal no move forgets anything |
| Configure.CleanupPendingBlobSources | internal/database/store.go:1400-1438 | journal first, then the table; what was on track stays so at every exit; with every blob in place it completes unless an operation fails, and then the journal is empty and, for the root of the index, nothing is left behind |
| Configure.BackupLocation.ConfigureLocal | internal/app/coordinator.go:583-624 | blob safety at every exit, crashes between switch and configuration included; unless an operation fails it succeeds exactly where every blob can be placed, and then leaves an empty journal and, if the move carried over what only the journal claimed, no left-behind file; a single failure is always compensated, which leaves everything as it was; at every exit the store is on track with the root that the index is at |
| MoveSequences.MoveAround | internal/app/coordinator.go:583-624 | over every sequence of moves, back to earlier roots too, and starts, each failing or dying anywhere: if the committed moves carried over what they had to, every left-behind file is on track, and a start that completes on the root of the index leaves none |
| MoveSequences.MoveOnce | internal/app/coordinator.go:583-624 | one move of the sequence: recorded exactly when the index moved, with the store as the move found it |
| MoveSequences.StaleClaimIsForgotten | internal/database/store.go:1669-1692 | the input where a later move loses track of a file that a dead move had put at an older place: the store was on track, recovery drops the row, the file stays |
| Capture.StoreFile | internal/snapshot/service.go:392-454 | done means a file under the digest's name that decodes to it; no blob file is ever lost or replaced by torn bytes; only a failed operation prevents it |
| Capture.StoreAndIndex | internal/snapshot/service.go:236-286 | the content is stored and indexed under its digest with its length, keeping an upload mark, and no other row changes; what was present stays present |
| Capture.AddPath | internal/snapshot/service.go:256-286 | each selected file of the location is listed once with its content's digest; nothing excluded is |
| Capture.AddRegistry | internal/snapshot/service.go:202-234 | the registry document is stored, indexed and listed |
| Capture.LatestSnapshot | internal/database/store.go:1027-1033 | none of the game's snapshots is newer than the answer, and there is none only if the game has none |
| Capture.Create | internal/snapshot/service.go:74-122 | the manifest shows exactly the selected files, each once; what is saved is not empty and differs from the latest snapshot; only a failed operation or a stored id prevents an answer; blob safety at every exit, and every present blob stays present |
| Download.InstallDownload | internal/remote/sync.go:138-155 | a verified download ends under its final name, indexed there with its size; blob files and rows of other hashes are untouched |
| Download.EnsureLocalBlob | internal/remote/sync.go:95-155 | done means that the hash is indexed at a file that verifies; nothing needed is lost, crashes between the renames included; without a failed operation it is refused only when the bucket's object does not verify |
| Download.OriginalSizes | internal/remote/sync.go:44-58 | every hash of the manifest, each with a size that the manifest lists |
| Download.EnsureLocal | internal/remote/sync.go:44-58 | done means that every blob of the manifest is held; without a failed operation it is refused only when the bucket lacks one that verifies |
| Download.NeedsDownload | internal/remote/sync.go:60-93 | no only when every blob is held; yes only when a listed entry is not |
| Runs.Start | internal/app/coordinator.go:583-624 | a start after a crash at any point, between index switch and saved configuration too, is safe and loses track of nothing; with every blob in place it completes unless an operation fails; a complete one on the root of the index leaves nothing behind |
| Runs.Serve | internal/app/coordinator.go:694-805 | every request keeps blob safety at every exit |
| Runs.Run | internal/app/coordinator.go:583-805 | blob safety over every sequence of requests, each of which may fail or kill the process, with starts that may die too; every indexed path that has a file verifies under its row's size |
| Runs.TrueIndexVerifies | internal/database/store.go:1126-1152 | true sizes and trusted names make every indexed file verify under its row's size |
| Interleaving.SafeExactlyWhenGuarded | internal/remote/sync.go:95-155 | over all interleavings with crashes anywhere, every needed hash is indexed at a file at every moment if and only if no set-aside takes the indexed file of a needed hash and no save names a file that was taken |
| Interleaving.ApplyKeepsSafe | internal/snapshot/service.go:392-454 | every single effect of overlapping calls keeps a fine store safe if and only if it is not one of those two |
| Interleaving.SetAsideKeepsFine | internal/remote/sync.go:142-150 | a set-aside keeps blob safety if and only if the file it takes is not where a needed hash is indexed |
| Interleaving.SaveKeepsFine | internal/snapshot/service.go:74-122 | a save keeps blob safety if and only if no indexed file of the snapshot is missing |
| Interleaving.FetchStartsUnneeded | internal/remote/sync.go:95-104 | a needed blob that is not held has a wrong wanted size, so no body for it can verify |
| Interleaving.ApartIsSafe | internal/app/coordinator.go:694-805 | when no create runs beside a download every interleaving is safe |
| Interleaving.SafeDecodes | internal/snapshot/service.go:712-756 | blob safety means that each needed hash decodes from where it is indexed |
| Interleaving.RunVerifies | internal/database/store.go:1126-1152 | over all interleavings every indexed path that has a file verifies under its row's size |
| Interleaving.DownloadDuringCreateLosesBlob | internal/remote/sync.go:138-155 | a run of a download beside a create, both locks kept, after which a saved snapshot names a missing blob |
| CallsAlone.CreateAlone | internal/snapshot/service.go:202-286 | a create beside nothing ends with its content stored, indexed with its length and listed in the saved snapshot |
| CallsAlone.DeleteAlone | internal/database/store.go:915-1005 | a deletion beside nothing ends without the snapshot, and without the row and the file of a blob that nothing else mentions |
| CallsAlone.FetchAlone | internal/remote/sync.go:95-155 | a download beside nothing ends with the hash held, what was in its place set aside, and nothing else changed |
| CallsAlone.BatchAlone | internal/app/coordinator.go:915-1068 | a batch beside nothing protects what is present of its snapshots, marks what it uploaded, and ends |
| UploadBatches.BatchIsProtected | internal/app/coordinator.go:915-1068 | in every run, from the begin of a batch to its end, beside creates, deletions, sweeps, retention and imports, every blob of its snapshots that was there stays indexed at a file that decodes to it |
| UploadBatches.BatchStays | internal/app/coordinator.go:915-1068 | while a batch lasts its ids and the manifests that it uploads stay as they were |
| UploadBatches.SweepKeepsBatch | internal/database/store.go:956-1005 | the sweep of a deletion beside a batch takes nothing that a batch snapshot mentions |
| Publication.BucketsComplete | internal/remote/sync.go:197-271 | with any number of devices, at every moment every manifest in every bucket has all its blobs, each decoding to its digest, and its game's metadata object, and every upload mark is true |
| Publication.ApplyKeepsInvariant | internal/remote/sync.go:240-271 | every effect of an upload, a local change, an invalidation or a deletion keeps that |
| Publication.LocalEffects | internal/remote/sync.go:240-271 | a hash that is indexed anew keeps its mark, and connecting a bucket anew forgets that bucket's marks only |
| Publication.FinishBlob | internal/remote/sync.go:256-271 | the opened file is sent and the row marked, whatever others did to the row meanwhile |
| Publication.EnsureBlob | internal/remote/sync.go:240-271 | sent unless the cache has it; done means that the target has it and the cache says so; without a failed request only a missing bucket or row prevents it |
| Publication.SendBlobs | internal/remote/sync.go:197-217 | each hash of the snapshot once, registry included |
| Publication.UploadSnapshot | internal/remote/sync.go:197-238 | done means that at some moment of the call the manifest was visible with all its blobs, after the snapshot's own metadata was put for its game, whatever other devices did; without a failed request only a missing bucket or a blob that the device stopped indexing prevents it |
| Publication.DescribedNow | internal/remote/sync.go:216-223 | the metadata object that is put is the snapshot's metadata |
| Reconciliation.KeyIsIdentity | internal/remote/reconcile.go:95-106 | object keys of manifests and pairs of valid ids correspond one to one |
| Reconciliation.SafeEntryHasDestination | internal/remote/reconcile.go:138-143 | an entry passes the import check exactly when a restore finds a place for it below every root |
| Reconciliation.MetadataAsManifest | internal/remote/reconcile.go:53-59 | the import takes the metadata object of a game for a manifest if and only if the game's id is `snapshots`, and then fails on its key |
| Reconciliation.Reconcile | internal/remote/reconcile.go:45-93 | stored snapshots are never touched; a new one comes from an object of version 1 whose key names it, each of its entries has a destination below every root, and its game is registered; done means that every manifest of the listing is stored; only an object that cannot be imported or a failed operation prevents it |
| Coordination.RunKeepsInvariant | internal/app/coordinator.go:694-1172 | mutual exclusion, the active batch and what retention relies on hold in every interleaving |
| Coordination.UploadsAreProtected | internal/app/coordinator.go:915-1068 | no batch is active while `syncMu` is free, no active snapshot is deleted or imported over, and marking one synced finds its row |
| Coordination.BeyondStays | internal/app/coordinator.go:1070-1107 | a snapshot with enough newer ones keeps enough when another such one is deleted, so a stale list stays right |
| Coordination.RetentionKeepsNewest | internal/app/coordinator.go:743-1107 | whatever retention deletes has at that moment at least as many newer snapshots of its game as the setting says, 50 for the setting 0, and at least one; local retention never deletes a synced one |
| Coordination.RetentionDropsBeyond | internal/app/coordinator.go:743-1107 | in any state of the locks, a snapshot that disappears through retention is beyond the newest in the table of that very moment, however stale the list it was on |
| Coordination.OffsetIsBeyond | internal/database/store.go:842-863 | skipping `keep` rows of the ordered query leaves exactly the snapshots with at least `keep` newer ones |
| JobsAlone.SyncAlone | internal/app/coordinator.go:915-1068 | a sync beside nothing protects its batch while it uploads without `backupMu`, marks what it uploaded, and lets the batch go |
| JobsAlone.TrimAlone | internal/app/coordinator.go:743-764 | local retention deletes an unsynced snapshot beyond the newest |
| JobsAlone.RetainAlone | internal/app/coordinator.go:1070-1107 | retention after a sync deletes a snapshot beyond the newest, synced or not |
| JobsAlone.ImportAlone | internal/remote/reconcile.go:57-90 | an import adds its snapshot as synced |
| SyncQueue.NoLostWakeUp | internal/app/coordinator.go:181-242 | while the worker waits and a game is queued, a token is there or a queuer has its send to do |
| SyncQueue.EveryRequestIsServed | internal/app/coordinator.go:181-242 | once all is at rest, every request, made during its own sync too, was followed by a step in which the worker came to serve it |
| SyncQueue.MovesEnd | internal/app/coordinator.go:181-242 | without new requests the queue comes to rest |
| SyncQueue.RestOrMove | internal/app/coordinator.go:181-242 | and it never gets stuck before that |
| Watcher.DueIsRight | internal/watcher/watcher.go:182-191 | a due change has its quiet time or its dirty limit behind it and keeps the gap |
| Watcher.PendingMeans | internal/watcher/watcher.go:141-191 | a change is pending exactly from an event until it is queued or its game leaves; its deadline is the larger of last event plus quiet time and last queueing plus gap, or the dirty limit when that is earlier, read off the policy that counts |
| Watcher.SuccessiveQueueings | internal/watcher/watcher.go:168-191 | two queueings of a game are at least the quiet time and the gap apart, or the dirty limit, read off the policy that counts |
| Watcher.Manager.HandleEvent | internal/watcher/watcher.go:141-166 | the games with a root that holds the file get an event, and no others; no change is lost |
| Watcher.Manager.FlushPending | internal/watcher/watcher.go:168-180 | what leaves `pending` is in the queue and only that; a due change stays only when the queue is full |
| Watcher.Manager.UpdateTargets | internal/watcher/watcher.go:129-139 | exactly the changes of games that are no longer targets are forgotten |
| Watcher.Run | internal/watcher/watcher.go:99-191 | the debounce bounds and every pending deadline over every sequence of events, ticks, target changes and worker steps |
| SnapshotContents.SameContents | internal/snapshot/service.go:131-154 | decides the rule that the code follows, on any input |
| SnapshotContents.SameRuleIsEquality | internal/snapshot/service.go:131-154 | without repeated keys the rule is equality of metadata, of contents by (source key, path), and of registry digest and roots |
| SnapshotContents.SameRuleIsEquivalence | internal/snapshot/service.go:131-154 | hence reflexive, symmetric and transitive there |
| SnapshotContents.FileRuleIsEquality | internal/snapshot/service.go:143-153 | the one-sided scan and the length test decide equality of the maps, by counting |
| SnapshotContents.RepeatedKeyHidesChange | internal/snapshot/service.go:143-153 | with a repeated key a change is missed and the rule is not symmetric |
| SnapshotContents.MissesExactlyWhenBlind | internal/snapshot/service.go:143-153 | for a given newer manifest, some older list with other (key, digest) pairs passes the comparison if and only if it repeats a key and its repeats agree; the same for symmetry; when repeats disagree nothing passes |
| SnapshotContents.DistinctMissesNothing | internal/snapshot/service.go:143-153 | without repeats in the newer manifest what passes has the same pairs, and passes the other way round |
| RegistryPaths.SameRegistryRoots | internal/snapshot/service.go:156-200 | equality of root sets up to case, order and repetition; ill-formed roots equal nothing |
| RegistryPaths.UniqueRegistryRoots | internal/snapshot/service.go:185-200 | one root of every group that differs in case only |
| RegistryPaths.NormalizeRootPaths | internal/registrybackup/registry.go:73-84 | canonical roots, trailing separators dropped; one bad root spoils them all |
| RegistryPaths.NormalizePath | internal/registrybackup/registry.go:120-140 | a canonical hive and plain components, or nothing |
| RegistryPaths.SpellingsMeet | internal/registrybackup/registry.go:120-140 | a key is the same key whichever name its hive has, in any case, and whichever separator follows it |
| RegistryPaths.TrailingSeparators | internal/registrybackup/registry.go:73-84 | separators at the end of a root do not count |
| Restore.DestinationIsContained | internal/snapshot/service.go:758-772 | whatever a manifest says, a file of a directory goes strictly below that directory |
| Restore.CapturedDestination | internal/snapshot/service.go:758-772 | a captured file goes back to where it was, relative to the location's root |
| Restore.SourcesByKey | internal/snapshot/service.go:531-536 | the last enabled location with a source key counts |
| Restore.StageRestoreFile | internal/snapshot/service.go:712-756 | a staged temporary is new and holds content of the listed digest and size; unless an operation fails it succeeds exactly when the indexed file holds that content; a failure that cleans up leaves the files as before |
| Restore.StageRestoreFiles | internal/snapshot/service.go:526-571 | every file staged and verified for its destination, or, after a clean failure, none; unless an operation fails it succeeds exactly when every entry has a destination and its content |
| RestoreTransaction.ActivateRestoredFiles | internal/snapshot/service.go:620-645 | every file in place with the originals preserved, or an unwinding that, when it works, leaves the original files; only a failed operation prevents the first, and only a second one the unwinding |
| RestoreTransaction.RollbackRestoredFiles | internal/snapshot/service.go:647-663 | unwinding in reverse without failures gives the original files, shared destinations included |
| RestoreTransaction.UndoStep | internal/snapshot/service.go:647-663 | each turn of the unwinding undoes exactly one record |
| RestoreTransaction.ActivationMeans | internal/snapshot/service.go:620-645 | a destination holds its last staged content, a used temporary is gone, the rest is untouched |
| RestoreTransaction.RemoveRestoreBackups | internal/snapshot/service.go:610-618 | the preserved copies go and nothing else |
| RestoreFiles.ActivatedIsRestored | internal/snapshot/service.go:595-645 | after success no temporary and no preserved copy is left and every destination has its last entry's content |
| RestoreFiles.RestoreFileSet | internal/snapshot/service.go:465-608 | a failure anywhere, in the registry part too, that unwinds cleanly leaves the files exactly as before and takes the registry back; success restores the manifest and the registry document; what is restorable fails only with a failed operation |
| RestoreFiles.RestoreRegistry | internal/snapshot/service.go:593-608 | the registry part, and on failure the one from before the restore: every root is restored or, when the way back worked, as before |
| RestoreUndo.RestoredElsewhere | internal/snapshot/service.go:465-563 | a manifest captured on one device and restored on another gives byte-identical files exactly when no two entries of different content go to one place |
| RestoreUndo.DestinationElsewhere | internal/snapshot/service.go:526-563 | with the same source key a file goes to the same place below that location's root |
| RestoreUndo.KeysDiffer | internal/snapshot/service.go:460-463 | enabled locations that differ in source or template have different keys, where the key digest tells names apart |
| RestoreUndo.CapturedIsRestorable | internal/snapshot/service.go:712-756 | whatever stored bytes decode to a captured digest unpack to the captured content, digest and size included |
| RestoreUndo.CapturedGoesBack | internal/snapshot/service.go:256-286 | with enabled locations distinct in source and template every captured file's destination is where it was captured |
| RestoreUndo.CapturedKeysDistinct | internal/snapshot/service.go:256-286 | a capture over enabled locations distinct in source and template never repeats a (source key, path) pair |
| RestoreUndo.FlagDecidesDestination | internal/snapshot/service.go:758-772 | of two entries with one key, same flag means same destination and different flags never do |
| RestoreUndo.CreateRollbackSnapshot | internal/snapshot/service.go:509-524 | the rollback snapshot is the current capture or counts as equal to it, is stored unless there was nothing to capture, and its blobs are present |
| RestoreUndo.StillRestorable | internal/snapshot/service.go:465-481 | taking the rollback snapshot makes nothing unrestorable |
| RestoreUndo.RollbackRecovers | internal/snapshot/service.go:509-563 | whatever was restored since, restoring a rollback snapshot with the capture's root-file flags gives every captured file its earlier bytes and touches nothing else |
| RestoreUndo.RestoreSnapshot | internal/snapshot/service.go:465-507 | no file and no key changes before a rollback snapshot is there; a clean failure leaves files and roots alone; success restores the target; what is ready to be restored fails only with a failed operation |
| RollbackFlags.RecoversExactlyWithSameFlags | internal/snapshot/service.go:509-563 | over locations that do not overlap, restoring the rollback snapshot always gives every captured file its earlier bytes if and only if its root-file flags are those of the capture |
| RollbackFlags.FileBecameDirectory | internal/snapshot/service.go:131-154 | the input where the comparison says unchanged and the way back restores a file in place of the directory that was captured |
| EndToEnd.CaptureThereRestoreHere | internal/snapshot/service.go:465-563 | capture and upload on one device, others at work on the bucket, import, download and restore on another: what ends well is byte-identical to the capture if and only if no two entries of different content go to one place, which enabled locations distinct in source and template, and apart here, ensure; the download never finds the bucket lacking; every way in which it can fail without a failed operation is listed |
| EndToEnd.CaptureAndUpload | internal/remote/sync.go:197-238 | done means that the captured manifest was visible with all its blobs at some moment; without a failed operation it fails only when there is nothing to save, the id is taken, the bucket is missing or a blob stopped being indexed |
| EndToEnd.ImportAndRestore | internal/remote/reconcile.go:45-93 | the imported manifest is the published one; done means that it is restored here; a truly listed snapshot that is welcome here and not refused fails only with a failed operation; a clean failure leaves the files alone |
| EndToEnd.VisibleIsNotLacking | internal/remote/sync.go:95-137 | a bucket where a captured manifest is visible has a verifying object for every entry |
| EndToEnd.HeldIsRestorable | internal/snapshot/service.go:712-756 | a captured snapshot whose blobs are held is restorable wherever its entries have destinations |
| EndToEnd.ImportedIsPublished | internal/remote/reconcile.go:57-93 | what an import takes for the id of a visible manifest is that manifest |
| EndToEnd.VisibleIsImported | internal/remote/reconcile.go:57-106 | a complete import of a bucket where the manifest is visible has it, when the ids are ones that object keys allow |
| EndToEnd.ApartLocationsAgree | internal/snapshot/service.go:526-563 | enabled locations distinct in source and template on both devices, and apart on the second, send different files to different places |
| EndToEnd.InnerLocationMixesFiles | internal/snapshot/service.go:526-563 | the input where locations inside one another send two files with different source keys to one place |
| Registry.SetValues | internal/registrybackup/registry_windows.go:224-252 | a key ends with exactly the expected values, each itself, but for a DWORD of more than 32 bits, which keeps its low 32; only a failed operation prevents it |
| Registry.HoldsAllIsExact | internal/registrybackup/registry_windows.go:316-345 | the listed values determine the stored ones, and are the stored ones when every DWORD has 32 bits |
| Registry.DeleteTree | internal/registrybackup/registry_windows.go:283-307 | everything at and below a key goes, nothing outside; the recursion ends |
| RegistryTree.ReconcileKey | internal/registrybackup/registry_windows.go:216-281 | the subtree is the desired tree; outside only ancestors were made; the recursion ends; only a failed operation prevents it |
| RegistryDocuments.InsertAt | internal/registrybackup/registry_windows.go:200-214 | inserting a key adds it and its ancestors and changes no other node |
| RegistryDocuments.DesiredTree | internal/registrybackup/registry_windows.go:164-177 | the tree of a root holds exactly the listed keys below it with their ancestors and values |
| RegistryDocuments.ApplyDocument | internal/registrybackup/registry_windows.go:151-188 | under the roots exactly the prefix closure of the document with its listed values; outside nothing but new ancestors of roots, on failure too; a document with well-formed paths fails only with a failed operation |
| RegistryDocuments.OrderDoesNotMatter | internal/registrybackup/registry_windows.go:151-188 | overlapping roots give the same registry in any order |
| RegistryBackup.ReadKey | internal/registrybackup/registry_windows.go:61-94 | the document grows by one entry for each key at or below the path, with its path and values, and by nothing else; the recursion ends |
| RegistryBackup.DeduplicateKeys | internal/registrybackup/registry_windows.go:42-59 | one entry for each folded path that occurs, the first; fails exactly on an ill-formed path |
| RegistryBackup.PathComesBack | internal/registrybackup/registry.go:120-140 | folded components without separators survive being joined and normalised |
| RegistryRestore.Backup | internal/registrybackup/registry_windows.go:16-40 | a successful backup says of every key under a root what it holds, and says nothing else; only a key whose path cannot be listed or a failed operation prevents it |
| RegistryRestore.BackupRecovers | internal/registrybackup/registry_windows.go:16-188 | applying a backup to any later registry gives every root back, whose DWORDs have 32 bits, exactly when no key name under a root holds a slash |
| RegistryRestore.ValidateDocument | internal/registrybackup/registry.go:44-118 | accepts exactly the documents whose keys are well formed, under a root and listed once |
| RegistryRestore.Restore | internal/registrybackup/registry_windows.go:124-149 | success patches the roots; a failure whose way back works leaves every root as before; only a bad document, a key that cannot be listed or a failed operation prevents it, and only a second one the way back |

## Left out

- The HTTP API, the web interface, tray, folder picker, autostart, logging, events and diagnostics: presentation and plumbing.
- The R2 client, key ring, SQL text, zstd, SHA-256 and the Windows registry calls themselves: they are single steps or function values here.
- Catalog parsing and store discovery: they would add map unions and a bounded walk only.
- `RelocateBlobs` and `relocateBlob` (internal/database/store.go:1724-1818), and `ConfigureLocal`'s fallback that uses them: the staged protocol replaced them.
- Sizes of stored files, file modes and modification times, and directories made on the way: nothing that is proved depends on them.
- Collections that the code keeps as lists of rows by hash (blobs, relocation items) are maps by hash, and file names are values that tell their role (blob, stage, temporary, set aside) instead of strings.
- Windows case folding in `sameBlobPath`: paths compare exactly.
- A save path is a sequence of components; backslashes as separators inside manifest paths are not modelled.
- Interleaving, Publication, Coordination and SyncQueue model goroutines as events over one world value, because the interleavings are the point; `UploadSnapshot` and its parts are also there as the sequential code, with other devices acting between any two effects.
- Capture.StoreFile: does not model the three tries of `storeStableFile`; a file that keeps changing is one failure.
- Capture.SourceKey: the digest is a function value; theorems that need keys to tell locations apart assume it injective on source and template, joined by a NUL that no source holds.
- Capture.Create: takes the selection of files as a predicate and does not model exclusion globs or disposable patterns.
- Relocation.FinalizeStagedBlob: does not model the branch for a destination that appears in the middle of an attempt, which needs another program writing into the store.
- MoveSequences.MoveAround: the sequences hold moves and starts only.  A blob that is deleted, moved past and then captured again can find an old file of its own that has no row for the current root; tracking is about the blobs that stay indexed throughout, under one root, in a store whose blob files share no inodes.
- Tracking.OnTrackExactlyWhenCarriedOver: a file counts as left behind when its hash was once indexed at its place; a file that a dead attempt put at a place that never held the index is the subject of Relocation.PrepareThenRecover.
- Configure.BackupLocation.ConfigureLocal: `Done` covers a final cleanup in which an operation failed, as in the source, which only logs it; what it leaves stays on track for the next start.
- Runs.Run: serves one request at a time; overlapping calls are the subject of Interleaving.
- Interleaving.SafeExactlyWhenGuarded: a move of the store appears as one event with the contract that `ConfigureLocal` is proved to keep, since it holds both locks.
- Publication.BucketsComplete: assumes that nobody else deletes blob objects from a bucket; the program itself never does.
- Reconciliation.Reconcile: leaves out the size limit of a manifest, the digest pattern of its entries and the result counters; an object that cannot be read or decoded has no body.
- Coordination.RetentionKeepsNewest: assumes a fixed setting and that an id fixes its game and creation time.
- Watcher.Run: assumes one fixed policy for each game and a clock that does not go back; watch-tree upkeep is left out.
- RestoreUndo.RollbackRecovers: assumes equal root-file flags; RollbackFlags.RecoversExactlyWithSameFlags shows that this is necessary when locations do not overlap.
- RestoreFiles.RestoreFileSet: registry scope validation is left out; the roots come with the document.
- Restore.StageRestoreFile: save files are a map from paths to bytes, so a destination that is a directory is not represented.
- EndToEnd.CaptureThereRestoreHere: a manifest that another device deleted before it was seen, or one whose ids object keys do not allow, makes the call fail; a snapshot that was `Unchanged` on the first device is not published again.
- RegistryPaths.SameRegistryRoots: folds ASCII letters only, where the source folds all of Unicode.
- RegistryPaths.UniqueRegistryRoots: folds ASCII letters only, likewise.
- RegistryDocuments.ApplyDocument: the mutable node tree is a value here, so sharing between nodes is not captured.
- RegistryRestore.ValidateDocument: the values of a key are a map by folded name, so a repeated value name within one key cannot be written down.
