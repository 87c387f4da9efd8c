/**
 What a restore means for the bytes of the saves: another device gets the files
 that were captured, and the rollback snapshot undoes any restore.
 */
module RestoreUndo {
  import opened Files
  import opened Snapshots
  import opened BlobStore
  import opened SnapshotContents
  import opened Capture
  import opened RestoreTransaction
  import opened Restore
  import opened RestoreFiles
  import R = Registry
  import Text

  // ----- Another device -----

  /** No two manifest entries with different content go to one place. */
  ghost predicate AgreeOnDestinations(codec: Codec, paths: seq<GamePath>, files: seq<SnapshotFile>) {
    forall i, j :: 0 <= i < |files| && 0 <= j < |files| && DestinationOf(codec, paths, files[i]) == DestinationOf(codec, paths, files[j])
      ==> files[i].hash == files[j].hash
  }

  /** Every captured file has its captured bytes at its destination. */
  ghost predicate SameBytes(codec: Codec, paths: seq<GamePath>, files: seq<SnapshotFile>, origins: seq<Origin>,
                            captured: Saves, now: Saves)
    requires |origins| == |files|
  {
    forall j :: 0 <= j < |files| ==>
      var d := DestinationOf(codec, paths, files[j]);
      d.Some? && d.value in now && origins[j].file in captured && now[d.value] == captured[origins[j].file]
  }

  /**
   End to end: a manifest captured under `there` and restored under `here` gives
   byte-identical files, exactly when `here` does not send entries with different
   content to one place.  Between the two only the manifest's entries matter, so
   publishing, importing and downloading may happen in between.
   */
  lemma RestoredElsewhere(codec: Codec, there: seq<GamePath>, captured: Saves, files: seq<SnapshotFile>,
                          origins: seq<Origin>,
                          here: seq<GamePath>, before: Saves, now: Saves)
    requires codec.CollisionFree()
    requires Lists(codec, there, captured, files, origins)
    requires Restored(codec, here, files, before, now)
    ensures SameBytes(codec, here, files, origins, captured, now) <==> AgreeOnDestinations(codec, here, files)
  {
    hide DestinationOf, LastAt;
    forall j | 0 <= j < |files|
      ensures var d := DestinationOf(codec, here, files[j]); d.Some? && d.value in now && origins[j].file in captured
      ensures AgreeOnDestinations(codec, here, files) ==> now[DestinationOf(codec, here, files[j]).value] == captured[origins[j].file]
      ensures files[j].hash == codec.sha(captured[origins[j].file])
    {
      var d := DestinationOf(codec, here, files[j]);
      assert RestoredAt(codec, here, files, before, now, d.value);
      var i := LastAt(codec, here, files, |files|, d.value);
      assert DestinationOf(codec, here, files[i]) == d;
    }
  }

  /** Where a captured file goes on a device with the same source key: same place below that location's root. */
  lemma DestinationElsewhere(codec: Codec, there: seq<GamePath>, captured: Saves, files: seq<SnapshotFile>,
                             origins: seq<Origin>,
                             here: seq<GamePath>, j: nat)
    requires Lists(codec, there, captured, files, origins) && j < |files| && PlainComponents(origins[j].file)
    requires SourceIndex(codec, here, |here|, files[j].sourceKey) >= 0
    ensures
      var from := there[origins[j].location].resolved;
      var to := here[SourceIndex(codec, here, |here|, files[j].sourceKey)].resolved;
      from <= origins[j].file && DestinationOf(codec, here, files[j]) == Some(to + origins[j].file[|from|..])
  {
    var p, file := there[origins[j].location], origins[j].file;
    var to := here[SourceIndex(codec, here, |here|, files[j].sourceKey)].resolved;
    CapturedDestination(codec, p, file, captured[file], to);
    if file == p.resolved {
      assert file[|p.resolved|..] == [] && to + [] == to;
    }
  }

  /** What the download indexed verifies for the restore: it unpacks to content of the listed digest and size. */
  lemma CapturedIsRestorable(codec: Codec, there: seq<GamePath>, captured: Saves, files: seq<SnapshotFile>,
                             origins: seq<Origin>,
                             stored: Bytes, j: nat)
    requires codec.CollisionFree() && Lists(codec, there, captured, files, origins) && j < |files|
    requires codec.Decodes(stored, files[j].hash)
    ensures IsContentOf(codec, codec.unpack(stored).value, files[j])
    ensures codec.unpack(stored).value == captured[origins[j].file]
  {
    assert codec.sha(codec.unpack(stored).value) == codec.sha(captured[origins[j].file]);
  }

  // ----- The same device -----

  /** No two enabled locations have the same source and the same template. */
  ghost predicate DistinctSources(paths: seq<GamePath>) {
    && (forall i :: 0 <= i < |paths| && paths[i].enabled ==> '\0' !in paths[i].source)
    && forall i, j :: 0 <= i < j < |paths| && paths[i].enabled && paths[j].enabled ==>
         paths[i].source != paths[j].source || paths[i].template != paths[j].template
  }

  /** Their keys tell such locations apart. */
  lemma KeysDiffer(codec: Codec, paths: seq<GamePath>, i: nat, j: nat)
    requires codec.TellsApart() && DistinctSources(paths)
    requires i < |paths| && j < |paths| && paths[i].enabled && paths[j].enabled
    ensures SourceKey(codec, paths[i]) == SourceKey(codec, paths[j]) <==> i == j
  {
    var p, q := paths[i], paths[j];
    if SourceKey(codec, p) == SourceKey(codec, q) {
      Text.NulSeparates(p.source, p.template, q.source, q.template);
    }
  }

  lemma SourceFound(codec: Codec, paths: seq<GamePath>, i: nat)
    requires codec.TellsApart() && DistinctSources(paths) && i < |paths| && paths[i].enabled
    ensures SourceIndex(codec, paths, |paths|, SourceKey(codec, paths[i])) == i
  {
    var k := SourceIndex(codec, paths, |paths|, SourceKey(codec, paths[i]));
    hide SourceKey;
    assert k >= i;
    KeysDiffer(codec, paths, k, i);
  }

  /** Everything captured comes from an enabled location and has a usable name. */
  ghost predicate Usable(paths: seq<GamePath>, origins: seq<Origin>) {
    forall q :: q in origins ==> q.location < |paths| && paths[q.location].enabled && PlainComponents(q.file)
  }

  lemma CapturedGoesBack(codec: Codec, paths: seq<GamePath>, saves: Saves, files: seq<SnapshotFile>,
                         origins: seq<Origin>, j: nat)
    requires codec.TellsApart() && DistinctSources(paths) && Lists(codec, paths, saves, files, origins) && Usable(paths, origins) && j < |files|
    ensures |origins| == |files|
    ensures DestinationOf(codec, paths, files[j]) == Some(origins[j].file)
    ensures origins[j].file in saves && files[j].hash == codec.sha(saves[origins[j].file])
  {
    var q := origins[j];
    assert q in origins;
    SourceFound(codec, paths, q.location);
    DestinationElsewhere(codec, paths, saves, files, origins, paths, j);
    assert paths[q.location].resolved + q.file[|paths[q.location].resolved|..] == q.file;
  }

  /** With distinct source keys, the key of an entry tells its origin. */
  lemma KeyTellsOrigin(codec: Codec, paths: seq<GamePath>, saves: Saves, files: seq<SnapshotFile>,
                       origins: seq<Origin>, i: nat, j: nat)
    requires codec.TellsApart() && DistinctSources(paths) && Lists(codec, paths, saves, files, origins) && Usable(paths, origins)
    requires i < |files| && j < |files|
    ensures KeyPair(files[i]) == KeyPair(files[j]) ==> origins[i] == origins[j]
  {
    hide PlainComponents, SourceKey, DestinationOf;
    assert origins[i] in origins && origins[j] in origins;
    if KeyPair(files[i]) == KeyPair(files[j]) {
      KeysDiffer(codec, paths, origins[i].location, origins[j].location);
      CapturedGoesBack(codec, paths, saves, files, origins, i);
      CapturedGoesBack(codec, paths, saves, files, origins, j);
      FlagDecidesDestination(codec, paths, files[i], files[j]);
    }
  }

  lemma CapturedKeysDistinct(codec: Codec, paths: seq<GamePath>, saves: Saves, files: seq<SnapshotFile>,
                             origins: seq<Origin>)
    requires codec.TellsApart() && DistinctSources(paths) && Lists(codec, paths, saves, files, origins) && Usable(paths, origins)
    ensures DistinctKeys(files)
  {
    hide PlainComponents, SourceKey, DestinationOf, DistinctSources, Codec.TellsApart, Usable;
    forall i, j | 0 <= i < j < |files|
      ensures KeyPair(files[i]) != KeyPair(files[j])
    {
      KeyTellsOrigin(codec, paths, saves, files, origins, i, j);
    }
  }

  /**
   What a restore wrote down before it began: the current capture, or the latest
   snapshot when that counts as unchanged.
   */
  ghost predicate RollbackOf(codec: Codec, paths: seq<GamePath>, saves: Saves, excluded: FilePath -> bool,
                             rollback: Snapshot, made: Snapshot, origins: seq<Origin>) {
    && Captures(codec, paths, saves, excluded, made.files, origins)
    && (rollback == made || SameRule(rollback, made))
  }

  /** `sameContents` does not look at the flags, so that they agree is an assumption. */
  ghost predicate SameRootFlags(left: seq<SnapshotFile>, right: seq<SnapshotFile>) {
    forall f, g :: f in left && g in right && KeyPair(f) == KeyPair(g) ==> f.rootFile == g.rootFile
  }

  lemma Partners(left: seq<SnapshotFile>, right: seq<SnapshotFile>)
    requires Proper(left) && Proper(right) && DistinctKeys(right)
    requires Accepts(left, right)
    ensures forall f :: f in left ==> HasPartner(right, f)
    ensures forall g :: g in right ==> HasPartner(left, g)
  {
    FileRuleIsEquality(left, right);
    ContentsKeys(left);
    ContentsKeys(right);
    hide ContentsOf, DistinctKeys, HashAt;
    forall f | f in left
      ensures HasPartner(right, f)
    {
      DistinctLookup(left, f);
      var g :| g in right && KeyPair(g) == KeyPair(f);
      DistinctLookup(right, g);
    }
    forall g | g in right
      ensures HasPartner(left, g)
    {
      DistinctLookup(right, g);
      var f :| f in left && KeyPair(g) == KeyPair(f);
      DistinctLookup(left, f);
    }
  }

  /** Same key and same flag mean the same destination; different flags never do. */
  lemma FlagDecidesDestination(codec: Codec, paths: seq<GamePath>, f: SnapshotFile, g: SnapshotFile)
    requires KeyPair(f) == KeyPair(g)
    requires DestinationOf(codec, paths, f).Some? && DestinationOf(codec, paths, g).Some?
    ensures DestinationOf(codec, paths, f) == DestinationOf(codec, paths, g) <==> f.rootFile == g.rootFile
  {
    var r := paths[SourceIndex(codec, paths, |paths|, f.sourceKey)].resolved;
    if !f.rootFile {
      DestinationIsContained(r, f);
    }
    if !g.rootFile {
      DestinationIsContained(r, g);
    }
  }

  ghost predicate HasPartner(files: seq<SnapshotFile>, f: SnapshotFile) {
    exists g :: g in files && KeyPair(g) == KeyPair(f) && g.hash == f.hash
  }

  /** Every entry of either manifest has a partner in the other with its key and digest. */
  ghost predicate Paired(rollback: Snapshot, made: Snapshot) {
    && (forall f :: f in rollback.files ==> HasPartner(made.files, f))
    && (forall g :: g in made.files ==> HasPartner(rollback.files, g))
  }

  lemma PartnerOf(files: seq<SnapshotFile>, f: SnapshotFile) returns (k: nat)
    requires HasPartner(files, f)
    ensures k < |files| && KeyPair(files[k]) == KeyPair(f) && files[k].hash == f.hash
  {
    var g :| g in files && KeyPair(g) == KeyPair(f) && g.hash == f.hash;
    k :| 0 <= k < |files| && files[k] == g;
  }

  lemma PartnersOf(rollback: Snapshot, made: Snapshot) 
    requires rollback == made || SameRule(rollback, made)
    requires Proper(made.files) && Proper(rollback.files) && DistinctKeys(made.files)
    ensures Paired(rollback, made)
  {
    if rollback != made {
      Partners(rollback.files, made.files);
    } else {
      forall f | f in made.files
        ensures HasPartner(made.files, f)
      {
        assert KeyPair(f) == KeyPair(f);
      }
    }
  }

  /** An entry of the rollback snapshot that goes to `p` has the digest of what was captured at `p`. */
  lemma EntryTells(codec: Codec, paths: seq<GamePath>, saves: Saves, rollback: Snapshot, made: Snapshot,
                   origins: seq<Origin>, i: nat, p: FilePath)
    requires codec.TellsApart() && DistinctSources(paths) && Lists(codec, paths, saves, made.files, origins) && Usable(paths, origins)
    requires Paired(rollback, made) && SameRootFlags(rollback.files, made.files)
    requires i < |rollback.files| && DestinationOf(codec, paths, rollback.files[i]) == Some(p)
    ensures p in saves && codec.sha(saves[p]) == rollback.files[i].hash
    ensures exists q :: q in origins && q.file == p
  {
    hide DestinationOf, DistinctSources, Codec.TellsApart, Usable, Lists, SourceKey, HasPartner;
    var f := rollback.files[i];
    assert f in rollback.files;
    var j := PartnerOf(made.files, f);
    CapturedGoesBack(codec, paths, saves, made.files, origins, j);
    FlagDecidesDestination(codec, paths, f, made.files[j]);
    assert origins[j] in origins && origins[j].file == p;
  }

  /** What a captured place holds after the rollback snapshot is restored. */
  lemma RecoversAt(codec: Codec, paths: seq<GamePath>, saves: Saves, rollback: Snapshot, made: Snapshot,
                   origins: seq<Origin>,
                   between: Saves, now: Saves, j: nat)
    requires codec.CollisionFree() && codec.TellsApart() && DistinctSources(paths)
    requires Lists(codec, paths, saves, made.files, origins) && Usable(paths, origins)
    requires Paired(rollback, made) && SameRootFlags(rollback.files, made.files)
    requires Restored(codec, paths, rollback.files, between, now) && j < |origins|
    ensures var p := origins[j].file; p in saves && p in now && now[p] == saves[p]
  {
    hide DestinationOf, DistinctSources, Codec.TellsApart, Usable, SourceKey, HasPartner, LastAt;
    var p := origins[j].file;
    CapturedGoesBack(codec, paths, saves, made.files, origins, j);
    var k := PartnerOf(rollback.files, made.files[j]);
    FlagDecidesDestination(codec, paths, rollback.files[k], made.files[j]);
    assert RestoredAt(codec, paths, rollback.files, between, now, p);
    var i := LastAt(codec, paths, rollback.files, |rollback.files|, p);
    EntryTells(codec, paths, saves, rollback, made, origins, i, p);
  }

  /**
   Restore can be undone: whatever was restored since (`between`), restoring the
   rollback snapshot gives every captured file its earlier bytes and touches
   nothing else.
   */
  lemma RollbackRecovers(codec: Codec, paths: seq<GamePath>, saves: Saves, excluded: FilePath -> bool,
                         rollback: Snapshot, made: Snapshot, origins: seq<Origin>, between: Saves, now: Saves)
    requires codec.CollisionFree() && codec.TellsApart() && DistinctSources(paths)
    requires RollbackOf(codec, paths, saves, excluded, rollback, made, origins) && Usable(paths, origins)
    requires Proper(made.files) && Proper(rollback.files) && SameRootFlags(rollback.files, made.files)
    requires Restored(codec, paths, rollback.files, between, now)
    ensures forall q :: q in origins ==> q.file in saves && q.file in now && now[q.file] == saves[q.file]
    ensures forall p :: (forall q :: q in origins ==> q.file != p) ==>
              (p in now <==> p in between) && (p in between ==> now[p] == between[p])
  {
    CapturedKeysDistinct(codec, paths, saves, made.files, origins);
    PartnersOf(rollback, made);
    hide DestinationOf, LastAt, SameRule, DistinctKeys, DistinctSources, Codec.TellsApart, Usable, SourceKey, Proper, Selected, HasPartner, Lists;
    forall q | q in origins
      ensures q.file in saves && q.file in now && now[q.file] == saves[q.file]
    {
      var j :| 0 <= j < |origins| && origins[j] == q;
      RecoversAt(codec, paths, saves, rollback, made, origins, between, now, j);
    }
    forall p | forall q :: q in origins ==> q.file != p
      ensures (p in now <==> p in between) && (p in between ==> now[p] == between[p])
    {
      assert RestoredAt(codec, paths, rollback.files, between, now, p);
      var i := LastAt(codec, paths, rollback.files, |rollback.files|, p);
      if i >= 0 {
        EntryTells(codec, paths, saves, rollback, made, origins, i, p);
      }
    }
  }

  /** Takes the rollback snapshot of a restore. */
  method CreateRollbackSnapshot(s: Store, root: Dir, id: string, gameID: string, metadata: Metadata, now: int,
                                paths: seq<GamePath>,
                                saves: Saves, excluded: FilePath -> bool, registry: Option<(seq<string>, Bytes)>)
    returns (o: Outcome, rollback: Snapshot, ghost made: Snapshot, ghost origins: seq<Origin>)
    requires s.Safe() && s.codec.Lossless()
    modifies s`disk, s`blobs, s`snapshots, s`refs, s`created, s`history, s`faults
    ensures s.Safe()
    ensures s.snapshots == old(s.snapshots) || s.snapshots == old(s.snapshots)[id := made]
    ensures o.Done? ==> RollbackOf(s.codec, paths, saves, excluded, rollback, made, origins)
    // it is stored, unless there was nothing to capture
    ensures o.Done? ==> IsStored(s.snapshots, rollback) || (made.files == [] && made.registry.None?)
    ensures o.Done? ==> AllPresent(s.disk, s.blobs, HashesOf(made))
    ensures AllPresent(s.disk, s.blobs, PresentBlobs(old(s.disk), old(s.blobs)))
    ensures s.faults >= old(s.faults) && (o.Failed? && id !in old(s.snapshots) ==> s.faults > old(s.faults))
  {
    hide AllPresent, Needed, Captures, SameRule, IsLatest, PresentBlobs, IsNew;
    var r, taken;
    r, taken, origins := Create(s, root, id, gameID, metadata, now, paths, saves, excluded, registry);
    made := taken;
    rollback := if r.Unchanged? then r.latest else taken;
    o := match r case CreateFailed => Failed case CreateCrashed => Crashed case _ => Done;
    if r.Unchanged? {
      LatestIsStored(s.snapshots, gameID, r.latest);
    }
    assert r.Created? ==> s.snapshots[id] == taken;
  }

  ghost predicate IsStored(snapshots: map<string, Snapshot>, sn: Snapshot) {
    exists id :: id in snapshots && snapshots[id] == sn
  }

  lemma LatestIsStored(snapshots: map<string, Snapshot>, gameID: string, latest: Snapshot)
    requires IsLatest(snapshots, gameID, Some(latest))
    ensures IsStored(snapshots, latest)
  {
  }

  /** What can be staged still can after the rollback snapshot was taken. */
  lemma StillRestorable(codec: Codec, d: Disk, blobs: map<Hash, BlobRow>, d': Disk, blobs': map<Hash, BlobRow>, paths: seq<GamePath>,
                        files: seq<SnapshotFile>)
    requires codec.CollisionFree() && d.Valid() && d'.Valid() && Trusted(codec, d') && BlobsNamed(blobs')
    requires AllPresent(d', blobs', PresentBlobs(d, blobs)) && Restorable(codec, d, blobs, paths, files)
    ensures Restorable(codec, d', blobs', paths, files)
  {
    hide DestinationOf;
    forall i | 0 <= i < |files|
      ensures Placed(codec, d', blobs', paths, files[i])
    {
      var h := files[i].hash;
      assert Placed(codec, d, blobs, paths, files[i]) && h in PresentBlobs(d, blobs);
      assert d'.At(blobs'[h].path).name == BlobName(h);
      var content := codec.unpack(d.Read(blobs[h].path)).value;
      assert codec.sha(codec.unpack(d'.Read(blobs'[h].path)).value) == codec.sha(content);
    }
  }

  /** The target is a snapshot of the game, the new id is unused, and every part of the target can be restored here. */
  ghost predicate ReadyToRestore(s: Store, keys: R.Keys, targetID: string, id: string, gameID: string, paths: seq<GamePath>,
                                 saved: Option<SavedRegistry>)
    requires s.disk.Valid()
    reads s
  {
    && targetID in s.snapshots && s.snapshots[targetID].gameID == gameID && id !in s.snapshots
    && Restorable(s.codec, s.disk, s.blobs, paths, s.snapshots[targetID].files)
    && Applicable(keys, saved)
  }

  /**
   Brings the files of a game to a stored snapshot, after writing down how they
   are.  `saved` and `previous` are the registry parts of the target and of the
   rollback snapshot.
   */
  method RestoreSnapshot(fs: SaveFileSystem, s: Store, h: R.Hives, root: Dir, targetID: string, id: string, gameID: string,
                         metadata: Metadata, now: int, paths: seq<GamePath>, excluded: FilePath -> bool,
                         registry: Option<(seq<string>, Bytes)>, saved: Option<SavedRegistry>, previous: Option<SavedRegistry>)
    returns (o: Outcome, clean: bool, rollback: Snapshot, ghost made: Snapshot, ghost origins: seq<Origin>)
    requires s.Safe() && s.codec.Lossless()
    requires h.Valid() && CanonicalRoots(saved) && CanonicalRoots(previous)
    modifies fs, h, s`disk, s`blobs, s`snapshots, s`refs, s`created, s`history, s`faults
    ensures s.Safe() && h.Valid()
    ensures !o.Done? && clean ==> fs.files == old(fs.files) && RegistryTakenBack(old(h.keys), h.keys, saved, previous)
    ensures o.Done? ==> RegistryRestored(old(h.keys), h.keys, saved)
    ensures o.Done? ==> targetID in old(s.snapshots) && old(s.snapshots)[targetID].gameID == gameID
    ensures o.Done? && clean ==> Restored(s.codec, paths, old(s.snapshots)[targetID].files, old(fs.files), fs.files)
    ensures fs.files != old(fs.files) ==> RollbackOf(s.codec, paths, old(fs.files), excluded, rollback, made, origins)
    ensures fs.files != old(fs.files) ==> IsStored(s.snapshots, rollback) || (made.files == [] && made.registry.None?)
    // what is ready is restored unless an operation fails
    ensures s.faults >= old(s.faults) && fs.faults >= old(fs.faults) && h.faults >= old(h.faults)
    ensures o.Failed? && s.codec.CollisionFree() && old(ReadyToRestore(s, h.keys, targetID, id, gameID, paths, saved)) ==>
      s.faults > old(s.faults) || fs.faults > old(fs.faults) || h.faults > old(h.faults)
    ensures o.Done? && !clean ==> fs.faults > old(fs.faults)
  {
    hide AllPresent, Needed, RollbackOf, Restored, RefsExact, BlobsNamed, JournalNamed, Trusted, RegistryTakenBack, RegistryRestored,
      CanonicalRoots, R.Closed, R.Stored, Restorable, Applicable, PresentBlobs, Canonical, SizesTrue, Codec.CollisionFree, IsStored;
    NothingToTakeBack(h.keys, saved, previous);
    clean, origins := true, [];
    rollback := Snapshot(id, gameID, now, [], None, metadata, false);
    made := rollback;
    if targetID !in s.snapshots || s.snapshots[targetID].gameID != gameID {
      o := Failed;
      return;
    }
    var target := s.snapshots[targetID];
    o, rollback, made, origins := CreateRollbackSnapshot(s, root, id, gameID, metadata, now, paths, fs.files, excluded, registry);
    if !o.Done? {
      return;
    }
    if s.codec.CollisionFree() && Restorable(s.codec, old(s.disk), old(s.blobs), paths, target.files) {
      StillRestorable(s.codec, old(s.disk), old(s.blobs), s.disk, s.blobs, paths, target.files);
    }
    ghost var unnamed: seq<FilePath> := seq(|target.files|, i => []);
    assert |unnamed| == |target.files|;
    var temporaries: seq<FilePath> :| |temporaries| == |target.files|;
    var names: seq<FilePath> := *;
    o, clean := RestoreFileSet(fs, s, h, paths, target.files, temporaries, names, saved, previous);
  }
}
