/**
 Blob safety over every run of the daemon on one device.
 */
module Runs {
  import opened Files
  import opened Snapshots
  import opened BlobStore
  import opened Artifacts
  import opened Capture
  import opened Download
  import opened Configure
  import opened SourceCleanup
  import opened Tracking

  /** A request to the daemon.  `Restart` is a stop and a start with nothing in between. */
  datatype Request =
    | TakeSnapshot(id: string, gameID: string, metadata: Metadata, now: int, paths: seq<GamePath>, saves: Saves,
                   excluded: FilePath -> bool, registry: Option<(seq<string>, Bytes)>)
    | Remove(id: string)
    | Import(snapshot: Snapshot)
    | MarkRemote(id: string, synced: bool)
    | MarkUploaded(hash: Hash, target: string)
    | Fetch(wanted: Snapshot, remote: map<Hash, Bytes>)
    | MoveTo(root: Dir)
    | Restart

  /** A start after a stop or a crash: the configured root counts, and unfinished work is retried. */
  method Start(l: BackupLocation, ghost root: Dir) returns (o: Outcome)
    requires l.store.Safe()
    modifies l, l.store`disk, l.store`artifacts, l.store`pending, l.store`faults
    ensures l.store.Safe() && l.blobRoot == l.configRoot == old(l.configRoot)
    // it completes unless an operation fails, when every blob is in place
    ensures l.store.faults >= old(l.store.faults)
    ensures o.Failed? && l.store.codec.CollisionFree() && AllPresent(old(l.store.disk), l.store.blobs, l.store.blobs.Keys) ==>
      l.store.faults > old(l.store.faults)
    // what is on track for the root of the index stays so, and is gone when that is the configured root
    ensures old(TrackedOn(l.store, root)) ==> TrackedOn(l.store, root)
    ensures old(TrackedOn(l.store, root)) && o.Done? && l.configRoot == root ==> NoneLeftBehind(l.store.disk, l.store.blobs, l.store.history)
  {
    hide Trusted, BlobsNamed, JournalNamed, RefsExact, Needed, AllPresent, Canonical, OnTrackAt, LeftBehind, NoneLeftBehind, SizesTrue, Codec.CollisionFree;
    ghost var needed := Needed(l.store.snapshots, l.store.created);
    ghost var d := l.store.disk;
    l.blobRoot := l.configRoot;
    o := CleanupPendingBlobSources(l.store, Some(l.configRoot), root);
    KeepsPresent(d, l.store.disk, l.store.blobs, needed);
  }

  /** Serves one request; it may fail or kill the process anywhere inside. */
  method Serve(l: BackupLocation, q: Request) returns (o: Outcome)
    requires l.store.Safe() && l.store.codec.Lossless() && l.store.codec.CollisionFree()
    modifies l, l.store
    ensures l.store.Safe()
    // and what it does when it is done
    ensures o.Done? && q.TakeSnapshot? && q.id !in l.store.snapshots ==> l.store.snapshots == old(l.store.snapshots)
    ensures o.Done? && q.TakeSnapshot? && q.id in l.store.snapshots ==>
      l.store.snapshots == old(l.store.snapshots)[q.id := l.store.snapshots[q.id]]
    ensures o.Done? && q.Remove? ==> l.store.snapshots == old(l.store.snapshots) - {q.id}
    ensures o.Done? && q.Import? ==>
      l.store.snapshots == old(l.store.snapshots)[q.snapshot.id := q.snapshot.(synced := true)]
    ensures o.Done? && q.MarkRemote? ==>
      && q.id in old(l.store.snapshots)
      && l.store.snapshots == old(l.store.snapshots)[q.id := old(l.store.snapshots)[q.id].(synced := q.synced)]
    ensures o.Done? && q.MarkUploaded? && q.hash in old(l.store.blobs) ==>
      q.hash in l.store.blobs && l.store.blobs[q.hash].uploadedTo == q.target
    ensures o.Done? && q.Fetch? ==>
      forall h :: h in HashesOf(q.wanted) ==> HeldAsListed(l.store.codec, l.store.disk, l.store.blobs, q.wanted, h)
    ensures o.Done? && q.MoveTo? ==> MovedFrom(old(l.store.blobs), l.store.blobs, q.root) && l.configRoot == l.blobRoot == q.root
    ensures q.Restart? ==> o.Crashed?
  {
    hide Trusted, BlobsNamed, JournalNamed, RefsExact, Needed, AllPresent, Canonical, SizesTrue;
    var s := l.store;
    ghost var needed := Needed(s.snapshots, s.created);
    match q {
      case TakeSnapshot(id, gameID, metadata, now, paths, saves, excluded, registry) =>
        var r, made;
        ghost var origins;
        r, made, origins := Create(s, l.blobRoot, id, gameID, metadata, now, paths, saves, excluded, registry);
        o := match r case CreateCrashed => Crashed case CreateFailed => Failed case _ => Done;
      case Remove(id) =>
        o := s.DeleteSnapshot(id);
      case Import(sn) =>
        ImportNeedsLess(s.snapshots, s.created, sn.(synced := true));
        o := s.ImportSnapshot(sn);
        NeedsLessIsPresent(s.disk, s.blobs, needed, Needed(s.snapshots, s.created));
      case MarkRemote(id, synced) =>
        o := s.MarkSnapshotRemote(id, synced);
      case MarkUploaded(h, target) =>
        MarkKeepsPresent(s.codec, s.disk, s.blobs, s.pending, s.artifacts, h, target, needed);
        o := s.MarkBlobUploaded(h, target);
      case Fetch(wanted, remote) =>
        var refused;
        o, refused := EnsureLocal(s, wanted, l.blobRoot, remote, needed);
      case MoveTo(root) =>
        var clean;
        ghost var moved;
        o, clean, moved := l.ConfigureLocal(root, root);
      case Restart =>
        o := Crashed;
    }
  }

  lemma ImportNeedsLess(snapshots: map<string, Snapshot>, created: set<string>, sn: Snapshot)
    ensures Needed(snapshots[sn.id := sn], created - {sn.id}) <= Needed(snapshots, created)
  {
  }

  lemma NeedsLessIsPresent(d: Disk, blobs: map<Hash, BlobRow>, needed: set<Hash>, less: set<Hash>)
    requires AllPresent(d, blobs, needed) && less <= needed
    ensures AllPresent(d, blobs, less)
  {
  }

  lemma MarkKeepsPresent(codec: Codec, d: Disk, blobs: map<Hash, BlobRow>, pending: PendingTable, artifacts: Journal, h: Hash,
                         target: string, needed: set<Hash>)
    requires AllPresent(d, blobs, needed) && BlobsNamed(blobs) && SizesTrue(codec, blobs, pending, artifacts)
    ensures h in blobs ==>
      var marked := blobs[h := blobs[h].(uploadedTo := target)];
      AllPresent(d, marked, needed) && BlobsNamed(marked) && SizesTrue(codec, marked, pending, artifacts)
  {
    hide TrueSize;
  }

  /**
   Every run: any requests in any order, any of them failing or dying at any
   point, with a start after each death that may fail or die itself any number
   of times.  The store is safe after every request, and at every crash; what is
   needed decodes, and what the index says verifies.
   */
  method Run(l: BackupLocation, requests: seq<Request>)
    requires l.store.Safe() && l.store.codec.Lossless() && l.store.codec.CollisionFree()
    modifies l, l.store
    ensures l.store.Safe()
    ensures NeededDecode(l.store.codec, l.store.disk, l.store.blobs, Needed(l.store.snapshots, l.store.created))
    ensures IndexVerifies(l.store.codec, l.store.disk, l.store.blobs)
  {
    for i := 0 to |requests|
      invariant l.store.Safe()
    {
      var o := Serve(l, requests[i]);
      if o.Crashed? {
        var starts :| starts >= 0;
        for j := 0 to starts
          invariant l.store.Safe()
        {
          var r := Start(l, l.configRoot);
        }
      }
    }
    SafeDecodes(l.store.codec, l.store.disk, l.store.blobs, Needed(l.store.snapshots, l.store.created));
    TrueIndexVerifies(l.store.codec, l.store.disk, l.store.blobs, l.store.pending, l.store.artifacts);
  }

  /** Every indexed path that has a file verifies under the size of its row. */
  ghost predicate IndexVerifies(codec: Codec, d: Disk, blobs: map<Hash, BlobRow>) {
    d.Valid() && forall h :: h in blobs && d.Has(blobs[h].path) ==> d.Verified(codec, blobs[h].path, h, blobs[h].size)
  }

  lemma TrueIndexVerifies(codec: Codec, d: Disk, blobs: map<Hash, BlobRow>, pending: PendingTable, artifacts: Journal)
    requires codec.CollisionFree() && d.Valid() && Trusted(codec, d) && BlobsNamed(blobs) && SizesTrue(codec, blobs, pending, artifacts)
    ensures IndexVerifies(codec, d, blobs)
  {
    forall h | h in blobs && d.Has(blobs[h].path)
      ensures d.Verified(codec, blobs[h].path, h, blobs[h].size)
    {
      TrueSizeVerifies(codec, d, blobs[h].path, h, blobs[h].size);
    }
  }

  /** Each hash is indexed at a path whose file decodes to it. */
  ghost predicate NeededDecode(codec: Codec, d: Disk, blobs: map<Hash, BlobRow>, needed: set<Hash>) {
    d.Valid() && forall h :: h in needed ==>
      h in blobs && d.Has(blobs[h].path) && codec.Decodes(d.Read(blobs[h].path), h)
  }

  /** Presence under the right name is enough, whatever the aliases: names promise their content. */
  lemma SafeDecodes(codec: Codec, d: Disk, blobs: map<Hash, BlobRow>, needed: set<Hash>)
    requires d.Valid() && Trusted(codec, d) && BlobsNamed(blobs) && AllPresent(d, blobs, needed)
    ensures NeededDecode(codec, d, blobs, needed)
  {
    forall h | h in needed
      ensures codec.Decodes(d.Read(blobs[h].path), h)
    {
      assert d.At(blobs[h].path).name == BlobName(h);
    }
  }
}
