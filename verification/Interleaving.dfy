/**
 Blob safety when calls overlap as far as the locks let them: at most one holder
 of `backupMu` (a create or a deletion with its sweep), at most one holder of
 `syncMu` (a download or a batch of uploads), imports and upload marks at any
 time, and a move of the store when both locks are free.  Every effect on the
 disk or the index is an event of its own; an event that is not possible where it
 is applied changes nothing.
 */
module Interleaving {
  import opened Files
  import opened Snapshots
  import opened BlobStore
  import opened Artifacts
  import opened Capture
  import opened Download
  import Runs

  datatype Phase = NextFile | Compressed(temporary: Path, hash: Hash, size: nat) | Stored(hash: Hash, size: nat)

  /** What the holder of `backupMu` is doing. */
  datatype Backup =
    | NoBackup
    | Creating(indexed: set<Hash>, phase: Phase)
    | Sweeping(orphans: map<Hash, Path>)
    | Removing(orphans: map<Hash, Path>, hash: Hash, unlinked: bool)   // inside its write transaction

  /** A batch of uploads: its snapshots, and those of their hashes that were present when it began. */
  datatype Batch = Batch(ids: set<string>, held: set<Hash>)

  /** What the running download is doing. */
  datatype Fetch =
    | NoFetch
    | Fetching(hash: Hash, size: nat)
    | Fetched(hash: Hash, size: nat, temporary: Path)
    | Placed(hash: Hash, size: nat)

  datatype World = World(
    root: Dir,
    disk: Disk,
    blobs: map<Hash, BlobRow>,
    snapshots: map<string, Snapshot>,
    created: set<string>,
    backup: Backup,
    fetch: Fetch,
    batch: Option<Batch>)

  datatype Event =
    | BeginCreate | Compress(id: Id, content: Bytes) | KeepExisting | MoveIn | IndexStored
    | SaveSnapshot(made: Snapshot)
    | BeginDelete(deleted: string) | ClaimOrphan(orphan: Hash) | UnlinkOrphan | DropRow
    | EndBackup
    | BeginFetch(hash: Hash, size: nat) | Download(tempID: Id, body: Bytes) | SetAside(stamp: Id) | Place | IndexFetched | EndFetch
    | BeginBatch(pending: set<string>) | EndBatch
    | MarkUploaded(marked: Hash, target: string) | Import(imported: Snapshot)
    | Relocate(root: Dir, disk: Disk, blobs: map<Hash, BlobRow>)
    | Crash

  /** The sweep's transaction is the only writer of the index while it runs. */
  predicate MayWrite(w: World) {
    !w.backup.Removing?
  }

  /** A move of the store, as its own contract promises: only paths change, and what is needed stays present. */
  ghost predicate GoodMove(codec: Codec, w: World, d: Disk, blobs: map<Hash, BlobRow>) {
    && d.Valid() && Trusted(codec, d) && BlobsNamed(blobs) && AllPresent(d, blobs, Needed(w.snapshots, w.created))
    && blobs.Keys == w.blobs.Keys && forall h :: h in blobs ==> blobs[h] == w.blobs[h].(path := blobs[h].path)
  }

  ghost function ApplyBackup(codec: Codec, w: World, e: Event): World
    requires w.disk.Valid()
  {
    match e
    case BeginCreate => if w.backup.NoBackup? then w.(backup := Creating({}, NextFile)) else w
    case Compress(id, content) =>
      var temporary := TempPath(w.root, id);
      if w.backup.Creating? && w.backup.phase.NextFile? && !w.disk.Has(temporary) then
        w.(disk := w.disk.Put(temporary, codec.pack(content)),
           backup := w.backup.(phase := Compressed(temporary, codec.sha(content), |content|)))
      else w
    case KeepExisting =>
      if w.backup.Creating? && w.backup.phase.Compressed? && w.disk.Has(BlobPath(w.root, w.backup.phase.hash)) then
        w.(disk := w.disk.Unlink(w.backup.phase.temporary), backup := w.backup.(phase := Stored(w.backup.phase.hash, w.backup.phase.size)))
      else w
    case MoveIn =>
      if w.backup.Creating? && w.backup.phase.Compressed? && w.disk.Has(w.backup.phase.temporary) then
        w.(disk := w.disk.Move(w.backup.phase.temporary, BlobPath(w.root, w.backup.phase.hash)),
           backup := w.backup.(phase := Stored(w.backup.phase.hash, w.backup.phase.size)))
      else w
    case IndexStored =>
      if w.backup.Creating? && w.backup.phase.Stored? then
        var h := w.backup.phase.hash;
        w.(blobs := w.blobs[h := RowFor(w.blobs, h, BlobPath(w.root, h), w.backup.phase.size)],
           backup := Creating(w.backup.indexed + {h}, NextFile))
      else w
    case SaveSnapshot(made) =>
      if w.backup.Creating? && HashesOf(made) <= w.backup.indexed && made.id !in w.snapshots then
        w.(snapshots := w.snapshots[made.id := made], created := w.created + {made.id}, backup := NoBackup)
      else w
    case BeginDelete(id) =>
      if w.backup.NoBackup? && id in w.snapshots && id !in Active(w) then
        var left := w.snapshots - {id};
        w.(snapshots := left, created := w.created - {id},
           backup := Sweeping(map h | h in w.blobs && !Mentioned(left, h) :: w.blobs[h].path))
      else w
    case ClaimOrphan(h) =>
      if w.backup.Sweeping? && h in w.backup.orphans && h in w.blobs && !Mentioned(w.snapshots, h)
      then w.(backup := Removing(w.backup.orphans, h, false)) else w
    case UnlinkOrphan =>
      if w.backup.Removing? && w.backup.hash in w.backup.orphans
      then w.(disk := w.disk.Unlink(w.backup.orphans[w.backup.hash]), backup := w.backup.(unlinked := true)) else w
    case DropRow =>
      if w.backup.Removing? && w.backup.unlinked
      then w.(blobs := w.blobs - {w.backup.hash}, backup := Sweeping(w.backup.orphans - {w.backup.hash})) else w
    case EndBackup => w.(backup := NoBackup)
    case _ => w
  }

  ghost predicate Mentioned(snapshots: map<string, Snapshot>, h: Hash) {
    exists id :: id in snapshots && h in HashesOf(snapshots[id])
  }

  ghost function ApplyFetch(codec: Codec, w: World, e: Event): World
    requires w.disk.Valid()
  {
    match e
    case BeginFetch(h, size) =>
      if w.fetch.NoFetch? && w.batch.None? && !Held(codec, w.disk, w.blobs, h, size) then w.(fetch := Fetching(h, size)) else w
    case Download(id, body) =>
      var temporary := TempPath(w.root, id);
      if w.fetch.Fetching? && !w.disk.Has(temporary) && codec.Verifies(body, w.fetch.hash, w.fetch.size) then
        w.(disk := w.disk.Put(temporary, body), fetch := Fetched(w.fetch.hash, w.fetch.size, temporary))
      else w
    case SetAside(stamp) =>
      if SetsAside(w) then
        var destination := BlobPath(w.root, w.fetch.hash);
        w.(disk := w.disk.Move(destination, Path(destination.dir, SetAsideName(w.fetch.hash, stamp))))
      else w
    case Place =>
      if w.fetch.Fetched? && w.disk.Has(w.fetch.temporary) then
        w.(disk := w.disk.Move(w.fetch.temporary, BlobPath(w.root, w.fetch.hash)), fetch := Placed(w.fetch.hash, w.fetch.size))
      else w
    case IndexFetched =>
      if w.fetch.Placed? && MayWrite(w) then
        var h := w.fetch.hash;
        w.(blobs := w.blobs[h := RowFor(w.blobs, h, BlobPath(w.root, h), w.fetch.size)], fetch := NoFetch)
      else w
    case EndFetch => w.(fetch := NoFetch)
    case _ => w
  }

  /** The snapshots that an upload batch protects from deletion and from imports in their place. */
  function Active(w: World): set<string> {
    if w.batch.Some? then w.batch.value.ids else {}
  }

  /** The hashes of the snapshots that are indexed at present files. */
  ghost function PresentHashes(w: World, ids: set<string>): set<Hash> {
    set id, h | id in ids && id in w.snapshots && h in HashesOf(w.snapshots[id]) && h in w.blobs && w.disk.Has(w.blobs[h].path) :: h
  }

  /** A set-aside would find a file. */
  predicate SetsAside(w: World) {
    w.fetch.Fetched? && w.disk.Has(BlobPath(w.root, w.fetch.hash))
  }

  predicate OfBackup(e: Event) {
    e.BeginCreate? || e.Compress? || e.KeepExisting? || e.MoveIn? || e.IndexStored? || e.SaveSnapshot?
    || e.BeginDelete? || e.ClaimOrphan? || e.UnlinkOrphan? || e.DropRow? || e.EndBackup?
  }

  predicate OfFetch(e: Event) {
    e.BeginFetch? || e.Download? || e.SetAside? || e.Place? || e.IndexFetched? || e.EndFetch?
  }

  ghost function Apply(codec: Codec, w: World, e: Event): World
    requires w.disk.Valid()
  {
    if OfBackup(e) then ApplyBackup(codec, w, e)
    else if OfFetch(e) then ApplyFetch(codec, w, e)
    else if e.MarkUploaded? then
      if e.marked in w.blobs && MayWrite(w)
      then w.(blobs := w.blobs[e.marked := w.blobs[e.marked].(uploadedTo := e.target)]) else w
    else if e.Import? then
      if MayWrite(w) && e.imported.id !in Active(w)
      then w.(snapshots := w.snapshots[e.imported.id := e.imported], created := w.created - {e.imported.id}) else w
    else if e.BeginBatch? then
      if w.backup.NoBackup? && w.fetch.NoFetch? && w.batch.None? && e.pending <= w.snapshots.Keys
      then w.(batch := Some(Batch(e.pending, PresentHashes(w, e.pending)))) else w
    else if e.EndBatch? then
      if w.backup.NoBackup? then w.(batch := None) else w
    else if e.Relocate? then
      if w.backup.NoBackup? && w.fetch.NoFetch? && w.batch.None? && GoodMove(codec, w, e.disk, e.blobs)
      then w.(root := e.root, disk := e.disk, blobs := e.blobs) else w
    else w.(backup := NoBackup, fetch := NoFetch, batch := None)
  }

  // ----- What always holds -----

  /** A staged file holds what its writer put there. */
  ghost predicate Staged(codec: Codec, d: Disk, temporary: Path, h: Hash)
    requires d.Valid()
  {
    temporary.name.TempName? && d.Has(temporary) && codec.Decodes(d.Read(temporary), h)
  }

  ghost predicate Sound(codec: Codec, w: World) {
    && w.disk.Valid() && Trusted(codec, w.disk) && BlobsNamed(w.blobs)
    && (w.backup.Creating? && w.backup.phase.Compressed? ==>
          Staged(codec, w.disk, w.backup.phase.temporary, w.backup.phase.hash))
    && (w.backup.Creating? ==> forall h :: h in w.backup.indexed ==> h in w.blobs && w.blobs[h].path == BlobPath(w.root, h))
    && (w.fetch.Fetched? ==> Staged(codec, w.disk, w.fetch.temporary, w.fetch.hash))
    && (w.backup.Creating? && w.backup.phase.Compressed? && w.fetch.Fetched? ==>
          w.disk.At(w.backup.phase.temporary) != w.disk.At(w.fetch.temporary))
    && (w.backup.Sweeping? || w.backup.Removing? ==>
          forall h :: h in w.backup.orphans ==> w.backup.orphans[h].name == BlobName(h))
    && (w.backup.Removing? ==> !Mentioned(w.snapshots, w.backup.hash))
  }

  lemma NeededIsMentioned(w: World, h: Hash)
    requires h in Needed(w.snapshots, w.created)
    ensures Mentioned(w.snapshots, h)
  {
  }

  lemma CreateKeepsSound(codec: Codec, w: World, e: Event)
    requires codec.Lossless() && Sound(codec, w) && (e.Compress? || e.KeepExisting? || e.MoveIn?)
    ensures Sound(codec, ApplyBackup(codec, w, e))
  {
    hide Mentioned;
    if e.Compress? {
      assert codec.unpack(codec.pack(e.content)) == Some(e.content);
    }
  }

  lemma IndexKeepsSound(codec: Codec, w: World, e: Event)
    requires Sound(codec, w)
    requires e.BeginCreate? || e.IndexStored? || e.SaveSnapshot? || e.BeginDelete? || e.ClaimOrphan? || e.DropRow? || e.EndBackup?
    ensures Sound(codec, ApplyBackup(codec, w, e))
  {
    hide Mentioned, Trusted, HashesOf;
  }

  lemma UnlinkKeepsSound(codec: Codec, w: World)
    requires Sound(codec, w)
    ensures Sound(codec, ApplyBackup(codec, w, UnlinkOrphan))
  {
    hide Mentioned;
  }

  lemma FetchKeepsSound(codec: Codec, w: World, e: Event)
    requires Sound(codec, w) && (e.BeginFetch? || e.Download? || e.IndexFetched? || e.EndFetch?)
    ensures Sound(codec, ApplyFetch(codec, w, e))
  {
    hide Mentioned, Held;
  }

  lemma RenameKeepsSound(codec: Codec, w: World, e: Event)
    requires Sound(codec, w) && (e.SetAside? || e.Place?)
    ensures Sound(codec, ApplyFetch(codec, w, e))
  {
    hide Mentioned;
  }

  lemma OtherEventsKeepSound(codec: Codec, w: World, e: Event)
    requires Sound(codec, w) && !OfBackup(e) && !OfFetch(e)
    ensures Sound(codec, Apply(codec, w, e))
  {
    hide Mentioned, Trusted, HashesOf, AllPresent, PresentHashes;
  }

  /** Whatever happens, files keep their names' promises. */
  lemma ApplyKeepsSound(codec: Codec, w: World, e: Event)
    requires codec.Lossless() && Sound(codec, w)
    ensures Sound(codec, Apply(codec, w, e))
  {
    hide Sound, ApplyBackup, ApplyFetch;
    if e.Compress? || e.KeepExisting? || e.MoveIn? {
      CreateKeepsSound(codec, w, e);
    } else if e.UnlinkOrphan? {
      UnlinkKeepsSound(codec, w);
    } else if OfBackup(e) {
      IndexKeepsSound(codec, w, e);
    } else if e.SetAside? || e.Place? {
      RenameKeepsSound(codec, w, e);
    } else if OfFetch(e) {
      FetchKeepsSound(codec, w, e);
    } else {
      OtherEventsKeepSound(codec, w, e);
    }
  }

  // ----- Blob safety -----

  /** Blob safety: what the snapshots made here need is indexed at files. */
  ghost predicate Safe(w: World) {
    AllPresent(w.disk, w.blobs, Needed(w.snapshots, w.created))
  }

  /** The hash is indexed at the place where blobs of it are stored now. */
  predicate AtHome(w: World, h: Hash) {
    h in w.blobs && w.disk.At(w.blobs[h].path) == w.disk.At(BlobPath(w.root, h))
  }

  /** A set-aside that would take the indexed file of a needed hash. */
  ghost predicate TakesNeeded(w: World) {
    SetsAside(w) && w.fetch.hash in Needed(w.snapshots, w.created) && AtHome(w, w.fetch.hash)
  }

  predicate CanSave(w: World, made: Snapshot) {
    w.backup.Creating? && HashesOf(made) <= w.backup.indexed && made.id !in w.snapshots
  }

  /** A save of a snapshot one of whose indexed files is not there: a set-aside took it after it was stored. */
  ghost predicate SavesMissing(w: World, made: Snapshot) {
    CanSave(w, made) && exists h :: h in HashesOf(made) && h in w.blobs && !w.disk.Has(w.blobs[h].path)
  }

  /** The guard that two of the events lack. */
  ghost predicate Guarded(w: World, e: Event) {
    (e.SetAside? ==> !TakesNeeded(w)) && (e.SaveSnapshot? ==> !SavesMissing(w, e.made))
  }

  /** What else is true of a run while it was guarded. */
  ghost predicate Standing(codec: Codec, w: World) {
    var needed := Needed(w.snapshots, w.created);
    && (w.backup.Creating? && w.backup.phase.Stored? && w.backup.phase.hash in needed ==>
          w.disk.Has(BlobPath(w.root, w.backup.phase.hash)))
    && (w.fetch.Placed? && w.fetch.hash in needed ==> w.disk.Has(BlobPath(w.root, w.fetch.hash)))
    && (w.fetch.Fetched? && w.fetch.hash in needed ==> AtHome(w, w.fetch.hash))
    && (w.fetch.Fetching? && w.fetch.hash in needed ==>
          AtHome(w, w.fetch.hash) || forall body :: !codec.Verifies(body, w.fetch.hash, w.fetch.size))
  }

  /** Locations with blob names of other hashes are as they were. */
  lemma OthersKeepIndexed(d0: Disk, d: Disk, blobs: map<Hash, BlobRow>, h: Hash, some: set<Hash>)
    requires OthersKept(d0, d, h) && BlobsNamed(blobs) && AllPresent(d0, blobs, some)
    requires h in some && h in blobs ==> d.Has(blobs[h].path)
    ensures AllPresent(d, blobs, some)
  {
    forall g | g in some
      ensures d.Has(blobs[g].path)
    {
      assert d0.At(blobs[g].path).name == BlobName(g);
    }
  }

  ghost predicate Fine(codec: Codec, w: World) {
    Safe(w) && Standing(codec, w)
  }

  lemma CreateKeepsFine(codec: Codec, w: World, e: Event)
    requires Sound(codec, w) && Fine(codec, w) && (e.Compress? || e.KeepExisting? || e.MoveIn?)
    ensures Fine(codec, ApplyBackup(codec, w, e))
  {
    hide Needed, Trusted;
    var w' := ApplyBackup(codec, w, e);
    if w' != w {
      BlobFilesKeepPresent(w.disk, w'.disk, w.blobs, Needed(w.snapshots, w.created));
    }
  }

  lemma IndexKeepsFine(codec: Codec, w: World, e: Event)
    requires Sound(codec, w) && Fine(codec, w) && (e.BeginCreate? || e.IndexStored? || e.EndBackup? || e.ClaimOrphan?)
    ensures Fine(codec, ApplyBackup(codec, w, e))
  {
    hide Needed, Trusted, Mentioned;
  }

  /** Saving keeps the store safe exactly when no indexed file of the snapshot is missing. */
  lemma SaveKeepsFine(codec: Codec, w: World, e: Event)
    requires Sound(codec, w) && Fine(codec, w) && e.SaveSnapshot?
    ensures Safe(ApplyBackup(codec, w, e)) <==> !SavesMissing(w, e.made)
    ensures !SavesMissing(w, e.made) ==> Fine(codec, ApplyBackup(codec, w, e))
  {
    var w' := ApplyBackup(codec, w, e);
    if CanSave(w, e.made) {
      NeededWith(w.snapshots, w.created, e.made);
      SavedIsNeeded(w.snapshots, w.created, e.made);
      hide Needed, HashesOf, Trusted;
    }
  }

  lemma SavedIsNeeded(snapshots: map<string, Snapshot>, created: set<string>, made: Snapshot)
    requires made.id !in snapshots
    ensures HashesOf(made) <= Needed(snapshots[made.id := made], created + {made.id})
    ensures Needed(snapshots, created) <= Needed(snapshots[made.id := made], created + {made.id})
  {
    var now := snapshots[made.id := made];
    assert made.id in now && now[made.id] == made;
    assert forall id :: id in snapshots ==> id in now && now[id] == snapshots[id];
  }

  lemma LessIsNeeded(snapshots: map<string, Snapshot>, created: set<string>, snapshots': map<string, Snapshot>, created': set<string>)
    requires created' <= created
    requires forall id :: id in created' && id in snapshots' ==> id in snapshots && snapshots'[id] == snapshots[id]
    ensures Needed(snapshots', created') <= Needed(snapshots, created)
  {
  }

  lemma DeleteKeepsFine(codec: Codec, w: World, e: Event)
    requires Sound(codec, w) && Fine(codec, w) && e.BeginDelete?
    ensures Fine(codec, ApplyBackup(codec, w, e))
  {
    var w' := ApplyBackup(codec, w, e);
    LessIsNeeded(w.snapshots, w.created, w'.snapshots, w'.created);
    hide Needed, Trusted, Mentioned;
  }

  /** The sweep removes the file and the row of a hash that no snapshot mentions. */
  lemma SweepKeepsFine(codec: Codec, w: World, e: Event)
    requires Sound(codec, w) && Fine(codec, w) && (e.UnlinkOrphan? || e.DropRow?)
    ensures Fine(codec, ApplyBackup(codec, w, e))
  {
    var w' := ApplyBackup(codec, w, e);
    if w' != w {
      if w.backup.hash in Needed(w.snapshots, w.created) {
        NeededIsMentioned(w, w.backup.hash);
      }
      hide Needed, Trusted, Mentioned;
      if e.UnlinkOrphan? {
        assert w.disk.At(w.backup.orphans[w.backup.hash]).name == BlobName(w.backup.hash);
        OthersKeepIndexed(w.disk, w'.disk, w.blobs, w.backup.hash, Needed(w.snapshots, w.created));
      }
    }
  }

  /** What is needed and present is held, unless the wanted size is wrong for its digest. */
  lemma FetchStartsUnneeded(codec: Codec, w: World, h: Hash, size: nat)
    requires codec.CollisionFree() && Sound(codec, w) && Safe(w)
    requires !Held(codec, w.disk, w.blobs, h, size) && h in Needed(w.snapshots, w.created)
    ensures forall body :: !codec.Verifies(body, h, size)
  {
    hide Needed;
    forall body
      ensures !codec.Verifies(body, h, size)
    {
      if codec.Verifies(body, h, size) {
        PresentIsHeld(codec, w.disk, w.blobs, h, size, body);
      }
    }
  }

  lemma FetchKeepsFine(codec: Codec, w: World, e: Event)
    requires codec.CollisionFree() && Sound(codec, w) && Fine(codec, w)
    requires e.BeginFetch? || e.IndexFetched? || e.EndFetch?
    ensures Fine(codec, ApplyFetch(codec, w, e))
  {
    if e.BeginFetch? && !Held(codec, w.disk, w.blobs, e.hash, e.size) && e.hash in Needed(w.snapshots, w.created) {
      FetchStartsUnneeded(codec, w, e.hash, e.size);
    }
    hide Needed, Trusted, Mentioned, Held, Codec.CollisionFree, Codec.Verifies;
  }

  lemma DownloadKeepsFine(codec: Codec, w: World, e: Event)
    requires Sound(codec, w) && Fine(codec, w) && (e.Download? || e.Place?)
    ensures Fine(codec, ApplyFetch(codec, w, e))
  {
    hide Needed, Trusted, Mentioned;
    var w' := ApplyFetch(codec, w, e);
    if w' != w {
      BlobFilesKeepPresent(w.disk, w'.disk, w.blobs, Needed(w.snapshots, w.created));
    }
  }

  /** A set-aside keeps the store safe exactly when it does not take the indexed file of a needed hash. */
  lemma SetAsideKeepsFine(codec: Codec, w: World, e: Event)
    requires Sound(codec, w) && Fine(codec, w) && e.SetAside?
    ensures Safe(ApplyFetch(codec, w, e)) <==> !TakesNeeded(w)
    ensures !TakesNeeded(w) ==> Fine(codec, ApplyFetch(codec, w, e))
  {
    hide Needed, Trusted, Mentioned;
    var w' := ApplyFetch(codec, w, e);
    if SetsAside(w) {
      var h, destination := w.fetch.hash, BlobPath(w.root, w.fetch.hash);
      assert !w'.disk.Has(destination);
      forall g | g in Needed(w.snapshots, w.created)
        ensures w'.disk.Has(w.blobs[g].path) <==> w.disk.At(w.blobs[g].path) != w.disk.At(destination)
        ensures w.disk.At(w.blobs[g].path) == w.disk.At(destination) ==> g == h
      {
        assert w.disk.At(w.blobs[g].path).name == BlobName(g);
      }
    }
  }

  lemma OtherEventsKeepFine(codec: Codec, w: World, e: Event)
    requires Sound(codec, w) && Fine(codec, w) && !OfBackup(e) && !OfFetch(e)
    ensures Fine(codec, Apply(codec, w, e))
  {
    var w' := Apply(codec, w, e);
    LessIsNeeded(w.snapshots, w.created, w'.snapshots, w'.created);
    hide Needed, Trusted, Mentioned, PresentHashes, Codec.Verifies;
  }

  /** One event of a run that is fine so far. */
  lemma ApplyKeepsSafe(codec: Codec, w: World, e: Event)
    requires codec.CollisionFree() && Sound(codec, w) && Fine(codec, w)
    ensures Safe(Apply(codec, w, e)) <==> Guarded(w, e)
    ensures Guarded(w, e) ==> Fine(codec, Apply(codec, w, e))
  {
    hide Sound, ApplyBackup, ApplyFetch, Standing, Safe, TakesNeeded, SavesMissing, Codec.CollisionFree;
    if e.Compress? || e.KeepExisting? || e.MoveIn? {
      CreateKeepsFine(codec, w, e);
    } else if e.SaveSnapshot? {
      SaveKeepsFine(codec, w, e);
    } else if e.BeginDelete? {
      DeleteKeepsFine(codec, w, e);
    } else if e.UnlinkOrphan? || e.DropRow? {
      SweepKeepsFine(codec, w, e);
    } else if OfBackup(e) {
      IndexKeepsFine(codec, w, e);
    } else if e.SetAside? {
      SetAsideKeepsFine(codec, w, e);
    } else if e.Download? || e.Place? {
      DownloadKeepsFine(codec, w, e);
    } else if OfFetch(e) {
      FetchKeepsFine(codec, w, e);
    } else {
      OtherEventsKeepFine(codec, w, e);
    }
  }

  // ----- Runs -----

  ghost function Run(codec: Codec, w: World, events: seq<Event>): World {
    if events == [] then w
    else
      var before := Run(codec, w, events[..|events| - 1]);
      if before.disk.Valid() then Apply(codec, before, events[|events| - 1]) else before
  }

  /** A safe store that nobody works on. */
  ghost predicate AtRest(codec: Codec, w: World) {
    Sound(codec, w) && Safe(w) && w.backup.NoBackup? && w.fetch.NoFetch? && w.batch.None?
  }

  ghost predicate GuardedUpTo(codec: Codec, w: World, events: seq<Event>, n: nat)
    requires n <= |events|
  {
    forall i :: 0 <= i < n ==> Guarded(Run(codec, w, events[..i]), events[i])
  }

  ghost predicate SafeUpTo(codec: Codec, w: World, events: seq<Event>, n: nat)
    requires n <= |events|
  {
    forall i :: 0 <= i <= n ==> Safe(Run(codec, w, events[..i]))
  }

  lemma RunOne(codec: Codec, w: World, events: seq<Event>, n: nat)
    requires n <= |events|
    ensures n == 0 ==> Run(codec, w, events[..n]) == w
    ensures n > 0 && Sound(codec, Run(codec, w, events[..n - 1])) ==>
              Run(codec, w, events[..n]) == Apply(codec, Run(codec, w, events[..n - 1]), events[n - 1])
  {
    hide Apply;
    if n > 0 {
      assert events[..n][..n - 1] == events[..n - 1];
    }
  }

  lemma {:induction false} RunIsSound(codec: Codec, w: World, events: seq<Event>, n: nat)
    requires codec.Lossless() && Sound(codec, w) && n <= |events|
    ensures Sound(codec, Run(codec, w, events[..n]))
  {
    hide Sound, Apply, Run, Codec.Lossless;
    RunOne(codec, w, events, n);
    if n > 0 {
      RunIsSound(codec, w, events, n - 1);
      ApplyKeepsSound(codec, Run(codec, w, events[..n - 1]), events[n - 1]);
    }
  }

  lemma RestIsFine(codec: Codec, w: World)
    requires AtRest(codec, w)
    ensures Fine(codec, w) && Sound(codec, w)
  {
  }

  /**
   Blob safety of every run, exactly: whatever the calls do, however they
   overlap and wherever the process dies, every needed hash is indexed at a file
   at every moment if and only if no set-aside takes the indexed file of a needed
   hash and no save names a file that a set-aside took before.
   */
  lemma {:induction false} SafeExactlyWhenGuarded(codec: Codec, w: World, events: seq<Event>, n: nat)
    requires codec.Lossless() && codec.CollisionFree() && AtRest(codec, w) && n <= |events|
    ensures SafeUpTo(codec, w, events, n) <==> GuardedUpTo(codec, w, events, n)
    ensures GuardedUpTo(codec, w, events, n) ==> Fine(codec, Run(codec, w, events[..n]))
  {
    RestIsFine(codec, w);
    hide Sound, Safe, Standing, Apply, Guarded, Run, Codec.CollisionFree, Codec.Lossless, AtRest;
    RunOne(codec, w, events, n);
    if n > 0 {
      SafeExactlyWhenGuarded(codec, w, events, n - 1);
      RunIsSound(codec, w, events, n - 1);
      if GuardedUpTo(codec, w, events, n - 1) {
        ApplyKeepsSafe(codec, Run(codec, w, events[..n - 1]), events[n - 1]);
      }
    }
  }

  /** What safety means for restores: each needed hash is indexed at a file that decodes to it. */
  lemma SafeDecodes(codec: Codec, w: World)
    requires Sound(codec, w) && Safe(w)
    ensures Runs.NeededDecode(codec, w.disk, w.blobs, Needed(w.snapshots, w.created))
  {
    hide Needed, Trusted, Runs.NeededDecode;
    Runs.SafeDecodes(codec, w.disk, w.blobs, Needed(w.snapshots, w.created));
  }

  // ----- Sizes -----

  /** Every size that a row has, or will get, is that of the content. */
  ghost predicate Sized(codec: Codec, w: World) {
    && (forall h :: h in w.blobs ==> TrueSize(codec, h, w.blobs[h].size))
    && (w.backup.Creating? && !w.backup.phase.NextFile? ==> TrueSize(codec, w.backup.phase.hash, w.backup.phase.size))
    && (w.fetch.Fetched? || w.fetch.Placed? ==> TrueSize(codec, w.fetch.hash, w.fetch.size))
  }

  lemma BackupKeepsSized(codec: Codec, w: World, e: Event)
    requires w.disk.Valid() && Sized(codec, w)
    ensures Sized(codec, ApplyBackup(codec, w, e))
  {
    hide Mentioned, HashesOf, TrueSize;
    var w' := ApplyBackup(codec, w, e);
    if e.Compress? {
      ContentShowsSize(codec, e.content);
    } else if !e.IndexStored? {
      BackupKeepsRows(codec, w, e);
    }
  }

  lemma BackupKeepsRows(codec: Codec, w: World, e: Event)
    requires w.disk.Valid() && !e.Compress? && !e.IndexStored?
    ensures
      var w' := ApplyBackup(codec, w, e);
      && w'.fetch == w.fetch && (forall h :: h in w'.blobs ==> h in w.blobs && w'.blobs[h] == w.blobs[h])
      && (w'.backup.Creating? && !w'.backup.phase.NextFile? ==>
            w.backup.Creating? && !w.backup.phase.NextFile?
            && w'.backup.phase.hash == w.backup.phase.hash && w'.backup.phase.size == w.backup.phase.size)
  {
    hide Mentioned, HashesOf;
  }

  lemma FetchKeepsSized(codec: Codec, w: World, e: Event)
    requires w.disk.Valid() && Sized(codec, w)
    ensures Sized(codec, ApplyFetch(codec, w, e))
  {
    hide Held;
    if e.Download? && codec.unpack(e.body).Some? {
      ContentShowsSize(codec, codec.unpack(e.body).value);
    }
    hide TrueSize;
  }

  lemma ApplyKeepsSized(codec: Codec, w: World, e: Event)
    requires w.disk.Valid() && Sized(codec, w)
    ensures Sized(codec, Apply(codec, w, e))
  {
    hide ApplyBackup, ApplyFetch, TrueSize, Trusted, Needed, PresentHashes, AllPresent;
    if OfBackup(e) {
      BackupKeepsSized(codec, w, e);
    } else if OfFetch(e) {
      FetchKeepsSized(codec, w, e);
    }
  }

  /** In every run every indexed path that has a file verifies under the size of its row. */
  lemma {:induction false} RunVerifies(codec: Codec, w: World, events: seq<Event>, n: nat)
    requires codec.Lossless() && codec.CollisionFree() && AtRest(codec, w) && Sized(codec, w) && n <= |events|
    ensures Sized(codec, Run(codec, w, events[..n]))
    ensures var now := Run(codec, w, events[..n]); Runs.IndexVerifies(codec, now.disk, now.blobs)
  {
    RestIsFine(codec, w);
    RunIsSound(codec, w, events, n);
    RunOne(codec, w, events, n);
    hide Run, Apply, AtRest, Codec.Lossless, Mentioned;
    if n > 0 {
      RunVerifies(codec, w, events, n - 1);
      RunIsSound(codec, w, events, n - 1);
      ApplyKeepsSized(codec, Run(codec, w, events[..n - 1]), events[n - 1]);
    }
    var now := Run(codec, w, events[..n]);
    forall h | h in now.blobs && now.disk.Has(now.blobs[h].path)
      ensures now.disk.Verified(codec, now.blobs[h].path, h, now.blobs[h].size)
    {
      TrueSizeVerifies(codec, now.disk, now.blobs[h].path, h, now.blobs[h].size);
    }
  }

  // ----- Without overlap -----

  ghost predicate Overlaps(w: World) {
    w.backup.Creating? && !w.fetch.NoFetch?
  }

  /** What the running create has stored and indexed is there, and a download that may set something aside is not for a needed hash. */
  ghost predicate Undisturbed(codec: Codec, w: World) {
    && (w.backup.Creating? ==> AllPresent(w.disk, w.blobs, w.backup.indexed))
    && (w.backup.Creating? && w.backup.phase.Stored? ==> w.disk.Has(BlobPath(w.root, w.backup.phase.hash)))
    && (w.fetch.Fetching? && w.fetch.hash in Needed(w.snapshots, w.created) ==>
          forall body :: !codec.Verifies(body, w.fetch.hash, w.fetch.size))
    && (w.fetch.Fetched? ==> w.fetch.hash !in Needed(w.snapshots, w.created))
  }

  lemma UndisturbedIsGuarded(codec: Codec, w: World, e: Event)
    requires Undisturbed(codec, w)
    ensures Guarded(w, e)
  {
    hide Needed, HashesOf;
  }

  lemma BackupKeepsUndisturbed(codec: Codec, w: World, e: Event)
    requires Sound(codec, w) && Undisturbed(codec, w) && !Overlaps(w)
    ensures Undisturbed(codec, ApplyBackup(codec, w, e))
  {
    var w' := ApplyBackup(codec, w, e);
    if w' != w {
      if !w.fetch.NoFetch? {
        LessIsNeeded(w.snapshots, w.created, w'.snapshots, w'.created);
      }
      hide Needed, Mentioned, Trusted, HashesOf, Codec.Verifies;
      if e.Compress? || e.KeepExisting? || e.MoveIn? {
        BlobFilesKeepPresent(w.disk, w'.disk, w.blobs, w.backup.indexed);
      }
    }
  }

  lemma FetchKeepsUndisturbed(codec: Codec, w: World, e: Event)
    requires codec.CollisionFree() && Sound(codec, w) && Safe(w) && Undisturbed(codec, w) && !Overlaps(w)
    ensures Undisturbed(codec, ApplyFetch(codec, w, e))
  {
    if e.BeginFetch? && !Held(codec, w.disk, w.blobs, e.hash, e.size) && e.hash in Needed(w.snapshots, w.created) {
      FetchStartsUnneeded(codec, w, e.hash, e.size);
    }
    hide Needed, Sound, Held, Codec.CollisionFree, Codec.Verifies;
  }

  lemma OtherEventsKeepUndisturbed(codec: Codec, w: World, e: Event)
    requires w.disk.Valid() && Undisturbed(codec, w) && !OfBackup(e) && !OfFetch(e)
    ensures Undisturbed(codec, Apply(codec, w, e))
  {
    var w' := Apply(codec, w, e);
    if !e.Relocate? {
      LessIsNeeded(w.snapshots, w.created, w'.snapshots, w'.created);
    }
    hide Needed, PresentHashes, HashesOf, Codec.Verifies, GoodMove;
  }

  ghost predicate ApartUpTo(codec: Codec, w: World, events: seq<Event>, n: nat)
    requires n <= |events|
  {
    forall i :: 0 <= i < n ==> !Overlaps(Run(codec, w, events[..i]))
  }

  /** When no create runs beside a download, every run is safe. */
  lemma {:induction false} ApartIsSafe(codec: Codec, w: World, events: seq<Event>, n: nat)
    requires codec.Lossless() && codec.CollisionFree() && AtRest(codec, w) && n <= |events|
    requires ApartUpTo(codec, w, events, n)
    ensures SafeUpTo(codec, w, events, n) && GuardedUpTo(codec, w, events, n)
    ensures Undisturbed(codec, Run(codec, w, events[..n]))
  {
    hide Sound, Safe, Standing, Apply, Guarded, Run, Overlaps, Codec.CollisionFree, Codec.Lossless, ApplyBackup, ApplyFetch;
    RunOne(codec, w, events, n);
    SafeExactlyWhenGuarded(codec, w, events, n);
    if n > 0 {
      ApartIsSafe(codec, w, events, n - 1);
      RunIsSound(codec, w, events, n - 1);
      var before, e := Run(codec, w, events[..n - 1]), events[n - 1];
      UndisturbedIsGuarded(codec, before, e);
      ApartStep(codec, before, e);
    }
  }

  lemma ApartStep(codec: Codec, w: World, e: Event)
    requires codec.CollisionFree() && Sound(codec, w) && Safe(w) && Undisturbed(codec, w) && !Overlaps(w)
    ensures Undisturbed(codec, Apply(codec, w, e))
  {
    hide Sound, Safe, Undisturbed, Overlaps, Codec.CollisionFree, ApplyBackup, ApplyFetch;
    assert w.disk.Valid() by { SoundIsValid(codec, w); }
    if OfBackup(e) {
      BackupKeepsUndisturbed(codec, w, e);
    } else if OfFetch(e) {
      FetchKeepsUndisturbed(codec, w, e);
    } else {
      OtherEventsKeepUndisturbed(codec, w, e);
    }
  }

  lemma SoundIsValid(codec: Codec, w: World)
    requires Sound(codec, w)
    ensures w.disk.Valid()
  {
  }

  // ----- The unsafe overlap -----

  lemma {:induction false} RunInParts(codec: Codec, w: World, first: seq<Event>, rest: seq<Event>)
    ensures Run(codec, w, first + rest) == Run(codec, Run(codec, w, first), rest)
    decreases |rest|
  {
    hide Apply;
    if rest == [] {
      assert first + rest == first;
    } else {
      RunInParts(codec, w, first, rest[..|rest| - 1]);
      assert (first + rest)[..|first + rest| - 1] == first + rest[..|rest| - 1];
    }
  }

  lemma RunOfOne(codec: Codec, w: World, e: Event)
    requires w.disk.Valid()
    ensures Run(codec, w, [e]) == Apply(codec, w, e)
  {
    hide Apply;
    assert [e][..0] == [];
  }

  lemma RunOfTwo(codec: Codec, w: World, e: Event, e': Event)
    requires w.disk.Valid() && Apply(codec, w, e).disk.Valid()
    ensures Run(codec, w, [e, e']) == Apply(codec, Apply(codec, w, e), e')
  {
    hide Apply, Run;
    RunOfOne(codec, w, e);
    RunOfOne(codec, Apply(codec, w, e), e');
    RunInParts(codec, w, [e], [e']);
    assert [e, e'] == [e] + [e'];
  }

  lemma FetchedFirst(codec: Codec, w: World, h: Hash, size: nat, body: Bytes, id: Id)
    requires w.disk.Valid() && w.fetch.NoFetch? && w.batch.None? && h !in w.blobs
    requires !w.disk.Has(TempPath(w.root, id)) && codec.Verifies(body, h, size)
    ensures Run(codec, w, [BeginFetch(h, size), Download(id, body)]) ==
            w.(disk := w.disk.Put(TempPath(w.root, id), body), fetch := Fetched(h, size, TempPath(w.root, id)))
  {
    RunOfTwo(codec, w, BeginFetch(h, size), Download(id, body));
  }

  lemma StoredNext(codec: Codec, w: World, content: Bytes, id: Id)
    requires w.disk.Valid() && w.backup.NoBackup? && !w.disk.Has(TempPath(w.root, id))
    ensures
      var h, temporary := codec.sha(content), TempPath(w.root, id);
      Run(codec, w, [BeginCreate, Compress(id, content)] + [MoveIn]) ==
      w.(disk := w.disk.Put(temporary, codec.pack(content)).Move(temporary, BlobPath(w.root, h)),
         backup := Creating({}, Stored(h, |content|)))
  {
    RunOfTwo(codec, w, BeginCreate, Compress(id, content));
    var w' := Run(codec, w, [BeginCreate, Compress(id, content)]);
    RunOfOne(codec, w', MoveIn);
    RunInParts(codec, w, [BeginCreate, Compress(id, content)], [MoveIn]);
  }

  lemma SetAsideThen(codec: Codec, w: World, stamp: Id)
    requires w.disk.Valid() && SetsAside(w)
    ensures var w' := Run(codec, w, [SetAside(stamp)]);
            w'.disk.Valid() && !w'.disk.Has(BlobPath(w.root, w.fetch.hash)) && w' == w.(disk := w'.disk)
  {
    RunOfOne(codec, w, SetAside(stamp));
  }

  lemma SavedLast(codec: Codec, w: World, h: Hash, size: nat, made: Snapshot)
    requires w.disk.Valid() && w.backup == Creating({}, Stored(h, size)) && !w.disk.Has(BlobPath(w.root, h))
    requires HashesOf(made) == {h} && made.id !in w.snapshots
    ensures
      var saved := Run(codec, w, [IndexStored, SaveSnapshot(made)]);
      && saved.disk == w.disk && !Safe(saved) && made.id in saved.created && made.id in saved.snapshots
  {
    RunOfTwo(codec, w, IndexStored, SaveSnapshot(made));
    SavedIsNeeded(w.snapshots, w.created, made);
    hide Needed;
    assert h in HashesOf(made);
  }

  /** A download finds a hash unindexed; a create stores it; the download sets it aside; the create saves; the process dies. */
  function LosingRun(h: Hash, content: Bytes, packed: Bytes, t1: Id, t2: Id, stamp: Id, made: Snapshot): seq<Event> {
    [BeginFetch(h, |content|), Download(t2, packed)] + ([BeginCreate, Compress(t1, content)] + [MoveIn])
    + [SetAside(stamp)] + [IndexStored, SaveSnapshot(made)] + [Crash]
  }

  /** Blob safety fails for these two calls side by side, and stays lost after the crash. */
  lemma DownloadDuringCreateLosesBlob(codec: Codec, w: World, content: Bytes, t1: Id, t2: Id, stamp: Id, made: Snapshot)
    requires codec.Lossless() && AtRest(codec, w) && t1 != t2
    requires var h := codec.sha(content); h !in w.blobs && !w.disk.Has(BlobPath(w.root, h)) && HashesOf(made) == {h}
    requires !w.disk.Has(TempPath(w.root, t1)) && !w.disk.Has(TempPath(w.root, t2)) && made.id !in w.snapshots
    ensures
      var end := Run(codec, w, LosingRun(codec.sha(content), content, codec.pack(content), t1, t2, stamp, made));
      made.id in end.created && made.id in end.snapshots && !Safe(end) && end.backup.NoBackup? && end.fetch.NoFetch?
  {
    var h, packed := codec.sha(content), codec.pack(content);
    assert codec.unpack(packed) == Some(content);
    FetchedFirst(codec, w, h, |content|, packed, t2);
    var so := [BeginFetch(h, |content|), Download(t2, packed)];
    var fetched := Run(codec, w, so);
    StoredNext(codec, fetched, content, t1);
    RunInParts(codec, w, so, [BeginCreate, Compress(t1, content)] + [MoveIn]);
    hide AtRest, Safe, Sound, Codec.Lossless, Run, Apply;
    so := so + ([BeginCreate, Compress(t1, content)] + [MoveIn]);
    var stored := Run(codec, w, so);
    SetAsideThen(codec, stored, stamp);
    RunInParts(codec, w, so, [SetAside(stamp)]);
    so := so + [SetAside(stamp)];
    var aside := Run(codec, w, so);
    SavedLast(codec, aside, h, |content|, made);
    RunInParts(codec, w, so, [IndexStored, SaveSnapshot(made)]);
    so := so + [IndexStored, SaveSnapshot(made)];
    CrashStays(codec, Run(codec, w, so));
    RunInParts(codec, w, so, [Crash]);
  }

  lemma CrashStays(codec: Codec, w: World)
    requires w.disk.Valid()
    ensures Run(codec, w, [Crash]) == w.(backup := NoBackup, fetch := NoFetch, batch := None)
    ensures Safe(Run(codec, w, [Crash])) == Safe(w)
  {
    RunOfOne(codec, w, Crash);
  }
}
