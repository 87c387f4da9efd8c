/**
 Restoring the files of a manifest as one transaction together with the registry:
 the files of the manifest on success, the original files on failure.
 */
module RestoreFiles {
  import opened Files
  import opened Snapshots
  import opened BlobStore
  import opened SnapshotContents
  import opened Capture
  import opened RestoreTransaction
  import opened Restore
  import RegistryBackup
  import RegistryDocuments
  import RegistryPaths
  import RegistryRestore
  import R = Registry

  // ----- The files as one transaction -----

  /** The last of the first `n` manifest entries that goes to `p`, or -1. */
  function LastAt(codec: Codec, paths: seq<GamePath>, files: seq<SnapshotFile>, n: nat, p: FilePath): (i: int)
    requires n <= |files|
    ensures -1 <= i < n && (i >= 0 ==> DestinationOf(codec, paths, files[i]) == Some(p))
    ensures i == -1 <==> forall j :: 0 <= j < n ==> DestinationOf(codec, paths, files[j]) != Some(p)
  {
    if n == 0 then -1
    else if DestinationOf(codec, paths, files[n - 1]) == Some(p) then n - 1
    else LastAt(codec, paths, files, n - 1, p)
  }

  /** Each destination holds what its last entry promises; everything else is as before. */
  ghost predicate Restored(codec: Codec, paths: seq<GamePath>, files: seq<SnapshotFile>, before: Saves, now: Saves) {
    && (forall i :: 0 <= i < |files| ==> DestinationOf(codec, paths, files[i]).Some?)
    && forall p :: RestoredAt(codec, paths, files, before, now, p)
  }

  ghost predicate RestoredAt(codec: Codec, paths: seq<GamePath>, files: seq<SnapshotFile>, before: Saves, now: Saves,
                             p: FilePath) {
    var i := LastAt(codec, paths, files, |files|, p);
    if i >= 0 then p in now && IsContentOf(codec, now[p], files[i])
    else (p in now <==> p in before) && (p in before ==> now[p] == before[p])
  }

  lemma {:induction false} LastForIsLastAt(codec: Codec, paths: seq<GamePath>, files: seq<SnapshotFile>,
                                           staged: seq<StagedFile>, n: nat, p: FilePath)
    requires n <= |staged| <= |files|
    requires forall i :: 0 <= i < |staged| ==> DestinationOf(codec, paths, files[i]) == Some(staged[i].destination)
    ensures LastFor(staged, n, p) == LastAt(codec, paths, files, n, p)
  {
    hide DestinationOf;
    if n > 0 {
      LastForIsLastAt(codec, paths, files, staged, n - 1, p);
    }
  }

  /** A name given for preserving is in use only while its item's destination is preserved under it. */
  lemma {:induction false} NamesInUse(files: Saves, staged: seq<StagedFile>, names: seq<FilePath>, n: nat, j: nat)
    requires FreshNames(files, staged, names) && n <= |staged| && j < |staged|
    requires names[j] in ActivatedTo(files, staged, names, n)
    ensures j < n && staged[j].destination in ActivatedTo(files, staged, names, j)
  {
    if n > 0 {
      var before := ActivatedTo(files, staged, names, n - 1);
      assert names[j] != staged[n - 1].destination;
      if names[j] in before {
        NamesInUse(files, staged, names, n - 1, j);
      } else {
        assert j == n - 1;
      }
    }
  }

  function PreservedNames(backups: seq<RestoreBackup>): set<FilePath> {
    set r | r in backups && r.backup.Some? :: r.backup.value
  }

  /** After the preserved copies are removed, the result is the restored state, with nothing left over. */
  lemma ActivatedIsRestored(codec: Codec, paths: seq<GamePath>, files: seq<SnapshotFile>, before: Saves, ready: Saves,
                            staged: seq<StagedFile>, names: seq<FilePath>, backups: seq<RestoreBackup>, now: Saves)
    requires StagedFor(codec, paths, files, ready, staged) && |staged| == |files| && OnlyStaged(before, ready, staged)
    requires FreshNames(ready, staged, names) && |backups| == |staged| && RecordsOf(ready, staged, names, backups)
    requires now == ActivatedTo(ready, staged, names, |staged|) - PreservedNames(backups) - TemporariesFrom(staged, 0)
    ensures Restored(codec, paths, files, before, now)
  {
    hide RecordsOf, ActivatedTo, DestinationOf, IsContentOf, OnlyStaged, FreshNames, LastAt;
    forall p
      ensures RestoredAt(codec, paths, files, before, now, p)
    {
      LastForIsLastAt(codec, paths, files, staged, |staged|, p);
      ActivatedAt(before, ready, staged, names, backups, now, p);
    }
  }

  lemma ActivatedAt(before: Saves, ready: Saves, staged: seq<StagedFile>, names: seq<FilePath>, backups: seq<RestoreBackup>,
                    now: Saves, p: FilePath)
    requires OnlyStaged(before, ready, staged)
    requires FreshNames(ready, staged, names) && |backups| == |staged| && RecordsOf(ready, staged, names, backups)
    requires now == ActivatedTo(ready, staged, names, |staged|) - PreservedNames(backups) - TemporariesFrom(staged, 0)
    ensures var i := LastFor(staged, |staged|, p);
            if i >= 0 then staged[i].temporary in ready && p in now && now[p] == ready[staged[i].temporary]
            else (p in now <==> p in before) && (p in before ==> now[p] == before[p])
  {
    hide RecordsOf, ActivatedTo, PreservedNames;
    if p in names {
      var j :| 0 <= j < |names| && names[j] == p;
      NameIsGone(ready, staged, names, backups, j);
    } else {
      NotPreserved(ready, staged, names, backups, p);
      ActivationMeans(ready, staged, names, |staged|, p);
    }
  }

  lemma NameIsGone(ready: Saves, staged: seq<StagedFile>, names: seq<FilePath>, backups: seq<RestoreBackup>, j: nat)
    requires FreshNames(ready, staged, names) && j < |staged|
    requires |backups| == |staged| && RecordsOf(ready, staged, names, backups)
    ensures names[j] in ActivatedTo(ready, staged, names, |staged|) ==> names[j] in PreservedNames(backups)
  {
    if names[j] in ActivatedTo(ready, staged, names, |staged|) {
      NamesInUse(ready, staged, names, |staged|, j);
      assert backups[j] in backups && backups[j].backup == Some(names[j]);
    }
  }

  lemma NotPreserved(ready: Saves, staged: seq<StagedFile>, names: seq<FilePath>, backups: seq<RestoreBackup>, p: FilePath)
    requires FreshNames(ready, staged, names)
    requires |backups| == |staged| && RecordsOf(ready, staged, names, backups)
    requires p !in names
    ensures p !in PreservedNames(backups)
  {
    forall i | 0 <= i < |backups| && backups[i].backup.Some?
      ensures backups[i].backup.value in names
    {
      assert backups[i].backup.value == names[i];
    }
  }

  /** Removing what is left of the temporaries completes an unwinding. */
  lemma CleanedUp(before: Saves, ready: Saves, now: Saves, staged: seq<StagedFile>)
    requires OnlyStaged(before, ready, staged) && OnlyTemporariesGone(ready, now, staged)
    ensures now - TemporariesFrom(staged, 0) == before
  {
  }

  /** A registry document with the roots that it was saved for. */
  datatype SavedRegistry = SavedRegistry(document: RegistryBackup.Document, roots: seq<RegistryPaths.Key>)

  predicate CanonicalRoots(saved: Option<SavedRegistry>) {
    saved.Some? ==> forall r :: r in saved.value.roots ==> RegistryBackup.CanonicalRoot(r)
  }

  /** The registry after a restore that worked. */
  ghost predicate RegistryRestored(before: R.Keys, now: R.Keys, saved: Option<SavedRegistry>) {
    match saved
    case None => now == before
    case Some(s) => RegistryDocuments.Patched(before, now, RegistryDocuments.DocumentMap(s.document.keys), s.roots)
  }

  /** Names under the roots are such that backing up and restoring loses none. */
  ghost predicate Savable(keys: R.Keys, roots: seq<RegistryPaths.Key>) {
    RegistryBackup.Named(keys) && RegistryRestore.SlashFree(keys, roots)
  }

  /**
   The registry after a restore that failed and could be taken back: every root
   of the document is as before, or, when the rollback snapshot has a registry
   part that was backed up from that state, every root of that part.
   */
  ghost predicate RegistryTakenBack(before: R.Keys, now: R.Keys, saved: Option<SavedRegistry>, previous: Option<SavedRegistry>) {
    && (saved.None? ==> now == before)
    && (saved.Some? && previous.None? && Savable(before, saved.value.roots) ==>
          RegistryRestore.RootsSame(before, now, saved.value.roots))
    && (saved.Some? && previous.Some? && Savable(before, previous.value.roots)
        && RegistryRestore.BackedUp(before, previous.value.roots, RegistryDocuments.DocumentMap(previous.value.document.keys)) ==>
          RegistryRestore.RootsSame(before, now, previous.value.roots))
  }

  lemma NothingToTakeBack(keys: R.Keys, saved: Option<SavedRegistry>, previous: Option<SavedRegistry>)
    ensures RegistryTakenBack(keys, keys, saved, previous)
  {
    if saved.Some? {
      RegistryRestore.NothingMoved(keys, saved.value.roots);
    }
    if previous.Some? {
      RegistryRestore.NothingMoved(keys, previous.value.roots);
    }
  }

  /** A document of this version for its roots, where what is there can be backed up first. */
  ghost predicate Applicable(keys: R.Keys, registry: Option<SavedRegistry>) {
    registry.Some? ==>
      && registry.value.document.version == 1
      && RegistryRestore.Contained(registry.value.document.keys, registry.value.roots)
      && RegistryRestore.Listable(keys, registry.value.roots)
  }

  /** Restores the registry part, and on failure puts back the one from before the restore. */
  method RestoreRegistry(h: R.Hives, saved: SavedRegistry, previous: Option<SavedRegistry>) returns (failed: bool, clean: bool)
    requires h.Valid() && CanonicalRoots(Some(saved)) && CanonicalRoots(previous)
    modifies h
    ensures h.Valid()
    ensures !failed ==> RegistryRestored(old(h.keys), h.keys, Some(saved))
    ensures failed && clean ==> RegistryTakenBack(old(h.keys), h.keys, Some(saved), previous)
    ensures h.faults >= old(h.faults) && (failed && Applicable(old(h.keys), Some(saved)) ==> h.faults > old(h.faults))
    ensures failed && !clean && previous.None? ==> h.faults > old(h.faults) + 1
  {
    hide R.Closed, R.Stored, RegistryBackup.Named, RegistryRestore.SlashFree, RegistryRestore.RootsSame, RegistryDocuments.Patched,
      RegistryDocuments.OutsideKept, RegistryBackup.CanonicalRoot, RegistryRestore.Contained, RegistryRestore.BackedUp,
      RegistryDocuments.DocumentMap, RegistryRestore.Listable;
    ghost var before, closed := h.keys, R.Closed(h.keys) && R.Stored(h.keys);
    failed, clean := RegistryRestore.Restore(h, saved.document, saved.roots);
    if failed && previous.Some? {
      ghost var mid := h.keys;
      var stuck, undone := RegistryRestore.Restore(h, previous.value.document, previous.value.roots);
      clean := !stuck;
      if clean && RegistryBackup.Named(before)
         && RegistryRestore.BackedUp(before, previous.value.roots, RegistryDocuments.DocumentMap(previous.value.document.keys)) {
        RegistryRestore.BackupRecovers(before, previous.value.roots,
                                       RegistryDocuments.DocumentMap(previous.value.document.keys), mid, h.keys);
      }
    }
  }

  /**
   Stages, activates, and restores the registry part when there is one.  A failure
   anywhere that unwinds cleanly leaves the files exactly as they were and takes
   the registry back.
   */
  method RestoreFileSet(fs: SaveFileSystem, s: Store, h: R.Hives, paths: seq<GamePath>, files: seq<SnapshotFile>,
                        temporaries: seq<FilePath>, names: seq<FilePath>,
                        registry: Option<SavedRegistry>, previous: Option<SavedRegistry>)
    returns (o: Outcome, clean: bool)
    requires s.Valid() && |temporaries| == |files|
    requires h.Valid() && CanonicalRoots(registry) && CanonicalRoots(previous)
    modifies fs, h
    ensures h.Valid() && (o.Done? || o.Failed?)
    ensures o.Failed? && clean ==> fs.files == old(fs.files) && RegistryTakenBack(old(h.keys), h.keys, registry, previous)
    ensures o.Done? ==> RegistryRestored(old(h.keys), h.keys, registry)
    ensures o.Done? && clean ==> Restored(s.codec, paths, files, old(fs.files), fs.files)
    // what is restorable is restored unless an operation fails
    ensures fs.faults >= old(fs.faults) && h.faults >= old(h.faults)
    ensures o.Done? ==> Restorable(s.codec, s.disk, s.blobs, paths, files)
    ensures o.Failed? && Restorable(s.codec, s.disk, s.blobs, paths, files) && Applicable(old(h.keys), registry) ==>
      fs.faults > old(fs.faults) || h.faults > old(h.faults)
    // and one failure is unwound
    ensures o.Failed? && !clean && registry.None? ==>
      fs.faults > old(fs.faults) + if Restorable(s.codec, s.disk, s.blobs, paths, files) then 1 else 0
    ensures o.Done? && !clean ==> fs.faults > old(fs.faults)
  {
    hide StagedFor, OnlyStaged, FreshNames, RecordsOf, OnlyTemporariesGone, Restored, ActivatedTo, UndoneTo, R.Closed, R.Stored,
      RegistryTakenBack, CanonicalRoots, Restorable, Applicable;
    NothingToTakeBack(h.keys, registry, previous);
    var staged;
    o, staged, clean := StageRestoreFiles(fs, s, paths, files, temporaries);
    if o.Failed? {
      return;
    }
    ghost var ready := fs.files;
    NoneGone(ready, staged);
    var backups;
    var loaded := true;
    if * {
      // the registry document cannot be read
      loaded := false;
    }
    if !loaded || !FreshNames(fs.files, staged, names) {
      // that, or no new names were found
      fs.faults := fs.faults + 1;
      o, clean := Failed, true;
    } else {
      o, backups, clean := ActivateRestoredFiles(fs, staged, names);
      if o.Done? && registry.Some? {
        var failed, takenBack := RestoreRegistry(h, registry.value, previous);
        if failed {
          clean := Unwind(fs, backups, ready, staged, names);
          o, clean := Failed, clean && takenBack;
        }
      }
    }
    if o.Done? {
      var left := RemoveRestoreBackups(fs, backups);
      var kept := CleanupStagedRestoreFiles(fs, staged);
      clean := !left && !kept;
      if clean {
        ActivatedIsRestored(s.codec, paths, files, old(fs.files), ready, staged, names, backups, fs.files);
      }
    } else {
      ghost var unwound := fs.files;
      var kept := CleanupStagedRestoreFiles(fs, staged);
      if clean {
        CleanedUp(old(fs.files), ready, unwound, staged);
      }
      clean := clean && !kept;
    }
  }

  lemma NoneGone(ready: Saves, staged: seq<StagedFile>)
    ensures OnlyTemporariesGone(ready, ready, staged)
  {
  }
}
