/**
 What the events of a call come to when nothing overlaps it: the runs that the
 sequential calls make.
 */
module CallsAlone {
  import opened Files
  import opened Snapshots
  import opened BlobStore
  import opened Download
  import opened Interleaving

  lemma OneMore(codec: Codec, w: World, events: seq<Event>, e: Event)
    requires Run(codec, w, events).disk.Valid()
    ensures Run(codec, w, events + [e]) == Apply(codec, Run(codec, w, events), e)
  {
    hide Apply;
    assert (events + [e])[..|events + [e]| - 1] == events;
  }

  lemma First(codec: Codec, w: World, e: Event)
    requires w.disk.Valid()
    ensures Run(codec, w, [e]) == Apply(codec, w, e)
  {
    hide Apply;
    assert [e][..0] == [];
  }

  /** A create of one content ends with the content stored, indexed with its size, and listed in a saved snapshot. */
  lemma CreateAlone(codec: Codec, w: World, content: Bytes, id: Id, made: Snapshot)
    requires w.disk.Valid() && w.backup.NoBackup? && !w.disk.Has(TempPath(w.root, id))
    requires HashesOf(made) == {codec.sha(content)} && made.id !in w.snapshots
    ensures
      var h := codec.sha(content);
      var store := if w.disk.Has(BlobPath(w.root, h)) then KeepExisting else MoveIn;
      var now := Run(codec, w, [BeginCreate] + [Compress(id, content)] + [store] + [IndexStored] + [SaveSnapshot(made)]);
      && now.snapshots == w.snapshots[made.id := made] && now.created == w.created + {made.id}
      && now.blobs == w.blobs[h := RowFor(w.blobs, h, BlobPath(w.root, h), |content|)]
      && now.disk.Valid() && now.disk.Has(BlobPath(w.root, h)) && !now.disk.Has(TempPath(w.root, id))
      && (!w.disk.Has(BlobPath(w.root, h)) ==> now.disk.Read(BlobPath(w.root, h)) == codec.pack(content))
      && now.backup.NoBackup? && now.fetch == w.fetch && now.batch == w.batch && now.root == w.root
  {
    hide HashesOf, RowFor, Run, ApplyFetch;
    var h := codec.sha(content);
    var store := if w.disk.Has(BlobPath(w.root, h)) then KeepExisting else MoveIn;
    First(codec, w, BeginCreate);
    OneMore(codec, w, [BeginCreate], Compress(id, content));
    OneMore(codec, w, [BeginCreate] + [Compress(id, content)], store);
    OneMore(codec, w, [BeginCreate] + [Compress(id, content)] + [store], IndexStored);
    OneMore(codec, w, [BeginCreate] + [Compress(id, content)] + [store] + [IndexStored], SaveSnapshot(made));
  }

  /** A deletion ends with the snapshot gone, and with it the row and the file of a blob that nothing else mentions. */
  lemma DeleteAlone(codec: Codec, w: World, id: string, h: Hash)
    requires w.disk.Valid() && w.backup.NoBackup? && id in w.snapshots && id !in Active(w)
    requires h in w.blobs && !Mentioned(w.snapshots - {id}, h)
    ensures
      var now := Run(codec, w, [BeginDelete(id)] + [ClaimOrphan(h)] + [UnlinkOrphan] + [DropRow] + [EndBackup]);
      now == w.(snapshots := w.snapshots - {id}, created := w.created - {id}, blobs := w.blobs - {h},
                disk := w.disk.Unlink(w.blobs[h].path))
  {
    hide Mentioned, Run, ApplyFetch, HashesOf;
    First(codec, w, BeginDelete(id));
    var orphans := map g | g in w.blobs && !Mentioned(w.snapshots - {id}, g) :: w.blobs[g].path;
    var begun := w.(snapshots := w.snapshots - {id}, created := w.created - {id}, backup := Sweeping(orphans));
    assert Run(codec, w, [BeginDelete(id)]) == begun && orphans[h] == w.blobs[h].path;
    OneMore(codec, w, [BeginDelete(id)], ClaimOrphan(h));
    assert Run(codec, w, [BeginDelete(id)] + [ClaimOrphan(h)]) == begun.(backup := Removing(orphans, h, false));
    OneMore(codec, w, [BeginDelete(id)] + [ClaimOrphan(h)], UnlinkOrphan);
    OneMore(codec, w, [BeginDelete(id)] + [ClaimOrphan(h)] + [UnlinkOrphan], DropRow);
    OneMore(codec, w, [BeginDelete(id)] + [ClaimOrphan(h)] + [UnlinkOrphan] + [DropRow], EndBackup);
  }

  /** A download of what is not held, from a body that verifies, ends with the hash held; what was in its place is set aside. */
  lemma FetchAlone(codec: Codec, w: World, h: Hash, size: nat, body: Bytes, id: Id, stamp: Id)
    requires w.disk.Valid() && w.fetch.NoFetch? && w.batch.None? && MayWrite(w)
    requires !Held(codec, w.disk, w.blobs, h, size) && codec.Verifies(body, h, size) && !w.disk.Has(TempPath(w.root, id))
    ensures
      var aside := if w.disk.Has(BlobPath(w.root, h)) then [SetAside(stamp)] else [];
      var now := Run(codec, w, [BeginFetch(h, size)] + [Download(id, body)] + aside + [Place] + [IndexFetched]);
      && now.disk.Valid() && Held(codec, now.disk, now.blobs, h, size)
      && now.blobs == w.blobs[h := RowFor(w.blobs, h, BlobPath(w.root, h), size)]
      && now.disk.Read(BlobPath(w.root, h)) == body && !now.disk.Has(TempPath(w.root, id))
      && now.fetch.NoFetch? && now.snapshots == w.snapshots && now.created == w.created && now.backup == w.backup
  {
    var aside := if w.disk.Has(BlobPath(w.root, h)) then [SetAside(stamp)] else [];
    var two := [BeginFetch(h, size)] + [Download(id, body)];
    hide Run, ApplyBackup;
    assert BlobPath(w.root, h).name == BlobName(h) && TempPath(w.root, id).name == TempName(id);
    First(codec, w, BeginFetch(h, size));
    OneMore(codec, w, [BeginFetch(h, size)], Download(id, body));
    assert Run(codec, w, two) == w.(disk := w.disk.Put(TempPath(w.root, id), body), fetch := Fetched(h, size, TempPath(w.root, id)));
    hide Held;
    if aside == [] {
      assert two + aside == two;
    } else {
      OneMore(codec, w, two, SetAside(stamp));
    }
    PlacedAndIndexed(codec, w, Run(codec, w, two + aside), two + aside, h, size, body, id);
  }

  lemma PlacedAndIndexed(codec: Codec, w: World, v: World, events: seq<Event>, h: Hash, size: nat, body: Bytes, id: Id)
    requires v.disk.Valid() && v == Run(codec, w, events) && v == w.(disk := v.disk, fetch := Fetched(h, size, TempPath(w.root, id)))
    requires codec.Verifies(body, h, size) && MayWrite(w)
    requires v.disk.Has(TempPath(w.root, id)) && v.disk.Read(TempPath(w.root, id)) == body
    ensures
      var now := Run(codec, w, events + [Place] + [IndexFetched]);
      && now.disk.Valid() && Held(codec, now.disk, now.blobs, h, size)
      && now.blobs == w.blobs[h := RowFor(w.blobs, h, BlobPath(w.root, h), size)]
      && now.disk.Read(BlobPath(w.root, h)) == body && !now.disk.Has(TempPath(w.root, id))
      && now.fetch.NoFetch? && now.snapshots == w.snapshots && now.created == w.created && now.backup == w.backup
  {
    hide Run, ApplyBackup, Codec.Verifies;
    assert BlobPath(w.root, h).name == BlobName(h) && TempPath(w.root, id).name == TempName(id);
    OneMore(codec, w, events, Place);
    OneMore(codec, w, events + [Place], IndexFetched);
  }

  /** A call that finds nothing to do, or gives up, leaves no trace. */
  lemma EmptyCalls(codec: Codec, w: World, h: Hash, size: nat)
    requires w.disk.Valid() && w.backup.NoBackup? && w.fetch.NoFetch?
    ensures Run(codec, w, [BeginCreate] + [EndBackup]) == w
    ensures w.batch.None? && !Held(codec, w.disk, w.blobs, h, size) ==> Run(codec, w, [BeginFetch(h, size)]).fetch == Fetching(h, size)
    ensures Run(codec, w, [BeginFetch(h, size)] + [EndFetch]) == w
  {
    hide Run, Held, HashesOf, Mentioned;
    First(codec, w, BeginCreate);
    OneMore(codec, w, [BeginCreate], EndBackup);
    First(codec, w, BeginFetch(h, size));
    OneMore(codec, w, [BeginFetch(h, size)], EndFetch);
  }

  /** A batch protects what is present of its snapshots until it ends, and marks what it uploaded. */
  lemma BatchAlone(codec: Codec, w: World, ids: set<string>, h: Hash, target: string)
    requires w.disk.Valid() && w.backup.NoBackup? && w.fetch.NoFetch? && w.batch.None? && ids <= w.snapshots.Keys && h in w.blobs
    ensures Run(codec, w, [BeginBatch(ids)]) == w.(batch := Some(Batch(ids, PresentHashes(w, ids))))
    ensures Run(codec, w, [BeginBatch(ids)] + [MarkUploaded(h, target)] + [EndBatch]) ==
            w.(blobs := w.blobs[h := w.blobs[h].(uploadedTo := target)])
  {
    hide PresentHashes, Run, ApplyBackup, ApplyFetch;
    First(codec, w, BeginBatch(ids));
    OneMore(codec, w, [BeginBatch(ids)], MarkUploaded(h, target));
    OneMore(codec, w, [BeginBatch(ids)] + [MarkUploaded(h, target)], EndBatch);
  }

  /** An import replaces the snapshot with its id, and a move that keeps its promise puts disk, index and root in place. */
  lemma ImportOrMoveAlone(codec: Codec, w: World, sn: Snapshot, root: Dir, d: Disk, blobs: map<Hash, BlobRow>)
    requires w.disk.Valid() && w.backup.NoBackup? && w.fetch.NoFetch? && w.batch.None? && GoodMove(codec, w, d, blobs)
    ensures Run(codec, w, [Import(sn)]) == w.(snapshots := w.snapshots[sn.id := sn], created := w.created - {sn.id})
    ensures Run(codec, w, [Relocate(root, d, blobs)]) == w.(root := root, disk := d, blobs := blobs)
  {
    First(codec, w, Import(sn));
    First(codec, w, Relocate(root, d, blobs));
    hide GoodMove, Run, ApplyBackup, ApplyFetch;
  }
}
