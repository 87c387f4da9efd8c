/**
 Uploads in flight, down to their files: what a batch protects while it holds
 `syncMu`, beside everything that needs only `backupMu` or no lock.
 */
module UploadBatches {
  import opened Files
  import opened Snapshots
  import opened BlobStore
  import opened Artifacts
  import opened Capture
  import opened Download
  import opened Interleaving

  /** While a batch holds `syncMu`, what it protects is there. */
  ghost predicate BatchHeld(w: World) {
    w.batch.Some? ==>
      && w.fetch.NoFetch?
      && AllPresent(w.disk, w.blobs, w.batch.value.held)
      && (w.backup.Creating? && w.backup.phase.Stored? ==> w.disk.Has(BlobPath(w.root, w.backup.phase.hash)))
      && w.batch.value.ids <= w.snapshots.Keys
      && forall h :: h in w.batch.value.held ==> MentionedBy(w.snapshots, w.batch.value.ids, h)
  }

  ghost predicate MentionedBy(snapshots: map<string, Snapshot>, ids: set<string>, h: Hash) {
    exists id :: id in ids && id in snapshots && h in HashesOf(snapshots[id])
  }

  /** The batch's snapshots are as they were when it began. */
  ghost predicate SameBatch(w: World, w': World) {
    && w'.batch == w.batch
    && forall id :: id in Active(w) && id in w.snapshots ==> id in w'.snapshots && HashesOf(w'.snapshots[id]) == HashesOf(w.snapshots[id])
  }

  lemma BackupKeepsBatch(codec: Codec, w: World, e: Event)
    requires Sound(codec, w) && BatchHeld(w) && w.batch.Some?
    ensures BatchHeld(ApplyBackup(codec, w, e)) && SameBatch(w, ApplyBackup(codec, w, e))
  {
    var w', held := ApplyBackup(codec, w, e), w.batch.value.held;
    SnapshotsKeepBatch(w, w');
    if w' != w {
      if e.Compress? || e.KeepExisting? || e.MoveIn? {
        hide HashesOf, Mentioned, Trusted, MentionedBy;
        BlobFilesKeepPresent(w.disk, w'.disk, w.blobs, held);
      } else if e.UnlinkOrphan? || e.DropRow? {
        SweepKeepsBatch(codec, w, e);
      } else {
        hide HashesOf, Mentioned, Trusted;
      }
    }
  }

  /** The sweep spares what a batch snapshot mentions. */
  lemma SweepKeepsBatch(codec: Codec, w: World, e: Event)
    requires Sound(codec, w) && BatchHeld(w) && w.batch.Some? && (e.UnlinkOrphan? || e.DropRow?)
    ensures BatchHeld(ApplyBackup(codec, w, e))
  {
    var w', held := ApplyBackup(codec, w, e), w.batch.value.held;
    if w' != w {
      assert w.backup.hash in held ==> MentionedBy(w.snapshots, w.batch.value.ids, w.backup.hash);
      assert w.backup.hash !in held;
      hide HashesOf, Trusted, Mentioned, MentionedBy;
      if e.UnlinkOrphan? {
        assert w.disk.At(w.backup.orphans[w.backup.hash]).name == BlobName(w.backup.hash);
        OthersKeepIndexed(w.disk, w'.disk, w.blobs, w.backup.hash, held);
      }
    }
  }

  /** Saves add snapshots and deletions spare the batch's. */
  lemma SnapshotsKeepBatch(w: World, w': World)
    requires w'.batch == w.batch && w.batch.Some? && w.batch.value.ids <= w.snapshots.Keys
    requires forall id :: id in w.batch.value.ids ==> id in w'.snapshots && HashesOf(w'.snapshots[id]) == HashesOf(w.snapshots[id])
    ensures SameBatch(w, w')
    ensures forall h :: MentionedBy(w.snapshots, w.batch.value.ids, h) ==> MentionedBy(w'.snapshots, w.batch.value.ids, h)
  {
    hide HashesOf;
  }

  lemma OtherEventsKeepBatch(codec: Codec, w: World, e: Event)
    requires w.disk.Valid() && BatchHeld(w) && !OfBackup(e)
    ensures var w' := Apply(codec, w, e);
            BatchHeld(w') && (w.batch.Some? && w'.batch.Some? ==> SameBatch(w, w'))
  {
    var w' := Apply(codec, w, e);
    hide Mentioned, Needed, GoodMove, Held;
    if w.batch.Some? && w'.batch.Some? && !OfFetch(e) {
      SnapshotsKeepBatch(w, w');
    }
    hide HashesOf;
  }

  lemma ApplyKeepsBatch(codec: Codec, w: World, e: Event)
    requires Sound(codec, w) && BatchHeld(w)
    ensures var w' := Apply(codec, w, e);
            BatchHeld(w') && (w.batch.Some? && w'.batch.Some? ==> SameBatch(w, w'))
  {
    SoundIsValid(codec, w);
    hide Sound, ApplyFetch;
    if !OfBackup(e) {
      OtherEventsKeepBatch(codec, w, e);
    } else if w.batch.Some? {
      BackupKeepsBatch(codec, w, e);
    } else {
      BackupStartsNoBatch(codec, w, e);
    }
  }

  lemma BackupStartsNoBatch(codec: Codec, w: World, e: Event)
    requires w.disk.Valid()
    ensures ApplyBackup(codec, w, e).batch == w.batch
  {
    hide Mentioned, HashesOf;
  }

  lemma StepHoldsBatch(codec: Codec, w: World, events: seq<Event>, n: nat)
    requires n < |events| && Sound(codec, Run(codec, w, events[..n])) && BatchHeld(Run(codec, w, events[..n]))
    ensures BatchHeld(Run(codec, w, events[..n + 1]))
  {
    hide Sound, BatchHeld, SameBatch, Apply, Run;
    RunOne(codec, w, events, n + 1);
    ApplyKeepsBatch(codec, Run(codec, w, events[..n]), events[n]);
  }

  lemma {:induction false} RunHoldsBatch(codec: Codec, w: World, events: seq<Event>, n: nat)
    requires codec.Lossless() && AtRest(codec, w) && n <= |events|
    ensures BatchHeld(Run(codec, w, events[..n]))
  {
    hide Sound, BatchHeld, Run, Codec.Lossless, AtRest, Fine;
    RestIsFine(codec, w);
    if n == 0 {
      RestHoldsNoBatch(codec, w);
      RunOne(codec, w, events, 0);
    } else {
      RunHoldsBatch(codec, w, events, n - 1);
      RunIsSound(codec, w, events, n - 1);
      StepHoldsBatch(codec, w, events, n - 1);
    }
  }

  lemma RestHoldsNoBatch(codec: Codec, w: World)
    requires AtRest(codec, w)
    ensures BatchHeld(w)
  {
  }

  /** A batch begun by event `i` still holds after event `j - 1`. */
  ghost predicate Lasts(codec: Codec, w: World, events: seq<Event>, i: nat, j: nat)
    requires i < j <= |events|
  {
    && events[i].BeginBatch? && Run(codec, w, events[..i]).batch.None?
    && forall k :: i < k <= j ==> Run(codec, w, events[..k]).batch.Some?
  }

  lemma BatchBegins(codec: Codec, w: World, e: Event)
    requires w.disk.Valid() && e.BeginBatch? && w.batch.None?
    ensures var w' := Apply(codec, w, e);
            w'.batch.Some? ==> w' == w.(batch := Some(Batch(e.pending, PresentHashes(w, e.pending))))
  {
    hide PresentHashes;
  }

  /** While a batch lasts it stays what it was, and so do the manifests it uploads. */
  lemma {:induction false} BatchStays(codec: Codec, w: World, events: seq<Event>, i: nat, j: nat)
    requires codec.Lossless() && AtRest(codec, w) && i < j <= |events| && Lasts(codec, w, events, i, j)
    ensures var before, now := Run(codec, w, events[..i]), Run(codec, w, events[..j]);
            && now.batch == Some(Batch(events[i].pending, PresentHashes(before, events[i].pending)))
            && forall id :: id in events[i].pending && id in before.snapshots ==>
                 id in now.snapshots && HashesOf(now.snapshots[id]) == HashesOf(before.snapshots[id])
    decreases j
  {
    RestIsFine(codec, w);
    RunIsSound(codec, w, events, j - 1);
    RunHoldsBatch(codec, w, events, j - 1);
    hide Sound, BatchHeld, Apply, Run, AtRest, Codec.Lossless, PresentHashes, HashesOf;
    RunOne(codec, w, events, j);
    var last := Run(codec, w, events[..j - 1]);
    SoundIsValid(codec, last);
    if j == i + 1 {
      BatchBegins(codec, last, events[i]);
    } else {
      BatchStays(codec, w, events, i, j - 1);
      ApplyKeepsBatch(codec, last, events[j - 1]);
    }
  }

  /**
   In-flight uploads are protected down to their files, in every run: from the
   moment a batch begins until it ends, beside any create, deletion, sweep,
   retention or import, every blob of its snapshots that was there stays indexed
   at a file that decodes to it.
   */
  lemma BatchIsProtected(codec: Codec, w: World, events: seq<Event>, i: nat, j: nat, id: string, h: Hash)
    requires codec.Lossless() && AtRest(codec, w) && i < j <= |events| && Lasts(codec, w, events, i, j)
    requires var before := Run(codec, w, events[..i]);
             && id in events[i].pending && id in before.snapshots && h in HashesOf(before.snapshots[id])
             && h in before.blobs && before.disk.Has(before.blobs[h].path)
    ensures var now := Run(codec, w, events[..j]);
            && id in now.snapshots && h in HashesOf(now.snapshots[id])
            && h in now.blobs && now.disk.Valid() && now.disk.Has(now.blobs[h].path)
            && codec.Decodes(now.disk.Read(now.blobs[h].path), h)
  {
    RestIsFine(codec, w);
    BatchStays(codec, w, events, i, j);
    RunIsSound(codec, w, events, j);
    RunHoldsBatch(codec, w, events, j);
    hide Run, AtRest, Codec.Lossless, Lasts, Mentioned, MentionedBy;
    var before, now := Run(codec, w, events[..i]), Run(codec, w, events[..j]);
    assert h in PresentHashes(before, events[i].pending);
    assert now.disk.At(now.blobs[h].path).name == BlobName(h);
  }
}
