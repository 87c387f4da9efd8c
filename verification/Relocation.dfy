/**
 Moving every indexed blob to another root: journaled staging, finalisation by
 link or by rename, and the cleanup that undoes an attempt that came to nothing.
 */
module Relocation {
  import opened Files
  import opened Snapshots
  import opened BlobStore
  import opened Artifacts
  import opened PendingSources
  import opened PendingUndo

  /** The journal or some stage has the id. */
  ghost predicate InUse(d: Disk, artifacts: Journal, id: Id) {
    id in artifacts || exists l :: l in d.links && l.name.StagingName? && l.name.id == id
  }

  /** An identifier from core.NewID.  Nothing is assumed of it; one that is in use counts as a failure. */
  method NewID(s: Store) returns (id: Id)
    modifies s`faults
    ensures s.faults == old(s.faults) + if InUse(s.disk, s.artifacts, id) then 1 else 0
  {
    id := *;
    if InUse(s.disk, s.artifacts, id) {
      s.faults := s.faults + 1;
    }
  }

  ghost predicate InAttempt(s: Store, t: Ledger)
    reads s
  {
    s.Valid() && Attempting(s.codec, t, s.disk, s.blobs, s.artifacts)
  }

  /** The row `id` is the attempt's entry for its hash. */
  ghost predicate Entry(s: Store, t: Ledger, id: Id)
    reads s
  {
    && id in s.artifacts && id !in t.base
    && s.artifacts[id].hash in t.ids && t.ids[s.artifacts[id].hash] == id
    && s.artifacts[id].hash in t.mine && t.mine[s.artifacts[id].hash] == s.artifacts[id]
  }

  /** The entry claims its stage, and its destination does not exist yet. */
  ghost predicate Claimed(s: Store, t: Ledger, id: Id)
    reads s
  {
    && InAttempt(s, t) && Entry(s, t, id)
    && s.artifacts[id].stagingOwned
    && !s.disk.Has(s.artifacts[id].destination)
  }

  /** The same attempt, with the same artifact ids; only the rows may say more. */
  ghost predicate SameAttempt(t: Ledger, t': Ledger) {
    && t'.disk == t.disk && t'.base == t.base && t'.ids == t.ids && t'.mine.Keys == t.mine.Keys
    && SameDestinations(t, t')
  }

  ghost predicate SameDestinations(t: Ledger, t': Ledger) {
    forall h :: h in t.mine ==> h in t'.mine && t'.mine[h].destination == t.mine[h].destination
  }

  lemma SameAttemptRow(t: Ledger, t1: Ledger, id: Id, a: Artifact)
    requires SameAttempt(t, t1)
    requires a.hash in t1.mine && t1.mine[a.hash].destination == a.destination && a.hash in t1.ids && t1.ids[a.hash] == id
    ensures SameAttempt(t, With(t1, id, a))
  {
  }

  lemma SameAttemptStep(t: Ledger, t1: Ledger, t2: Ledger)
    requires SameAttempt(t, t1) && SameAttempt(t1, t2)
    ensures SameAttempt(t, t2)
  {
  }

  /** Removes a stage that could not be completed. */
  method RemovePartial(s: Store, id: Id, ghost t: Ledger)
    requires Claimed(s, t, id)
    modifies s`disk, s`faults
    ensures Claimed(s, t, id) && KeepsBlobFiles(old(s.disk), s.disk) && s.faults >= old(s.faults)
  {
    hide Attempt, AttemptOf, Entered, OnlyAdds, RefsExact, BlobsNamed, SizesTrue;
    if * {
      s.faults := s.faults + 1;
      return;
    }
    var a := s.artifacts[id];
    Unstaged(s.codec, t.disk, s.disk, s.blobs, t.mine, a.hash);
    s.disk := s.disk.Unlink(a.staging);
  }

  /** Filling or removing a stage touches no blob file. */
  lemma StageChanges(codec: Codec, d: Disk, stage: Path, bytes: Bytes)
    requires d.Valid() && Trusted(codec, d) && stage.name.StagingName?
    ensures d.Put(stage, bytes).Valid() && Trusted(codec, d.Put(stage, bytes)) && KeepsBlobFiles(d, d.Put(stage, bytes))
    ensures Trusted(codec, d.Unlink(stage)) && KeepsBlobFiles(d, d.Unlink(stage))
    ensures forall d' :: KeepsBlobFiles(d.Put(stage, bytes), d') ==> KeepsBlobFiles(d, d')
  {
  }

  /** Fills the claimed stage with a copy of the source and verifies it. */
  method CopyToStage(s: Store, id: Id, ghost t: Ledger) returns (o: Outcome)
    requires Claimed(s, t, id) && !s.disk.Has(s.artifacts[id].staging)
    requires s.disk.Verified(s.codec, s.artifacts[id].source, s.artifacts[id].hash, s.artifacts[id].size)
    modifies s`disk, s`faults
    ensures Claimed(s, t, id) && KeepsBlobFiles(old(s.disk), s.disk)
    ensures s.faults >= old(s.faults) && (o.Failed? ==> s.faults > old(s.faults))
    ensures o.Done? ==> s.disk.Verified(s.codec, s.artifacts[id].staging, s.artifacts[id].hash, s.artifacts[id].size)
  {
    hide Attempt, AttemptOf, Entered, OnlyAdds, RefsExact, BlobsNamed, JournalNamed, SizesTrue, Canonical, Trusted, KeepsBlobFiles;
    var a := s.artifacts[id];
    EntryFacts(s.codec, t.disk, s.disk, s.blobs, t.mine, a.hash);
    var copied := s.disk.Read(a.source);
    var torn: Bytes := *;
    StageChanges(s.codec, s.disk, a.staging, torn);
    Staged(s.codec, t.disk, s.disk, s.blobs, t.mine, a.hash, torn);
    s.disk := s.disk.Put(a.staging, torn);
    if * {
      return Crashed;
    }
    if * {
      s.faults := s.faults + 1;
      RemovePartial(s, id, t);
      return Failed;
    }
    if * {
      // the copy is not what the source holds, and nothing told
      s.faults := s.faults + 1;
      copied := *;
    }
    StageChanges(s.codec, s.disk, a.staging, copied);
    Staged(s.codec, t.disk, s.disk, s.blobs, t.mine, a.hash, copied);
    s.disk := s.disk.Put(a.staging, copied);
    if * {
      return Crashed;
    }
    if !s.codec.Verifies(copied, a.hash, a.size) {
      RemovePartial(s, id, t);
      return Failed;
    }
    if * {
      s.faults := s.faults + 1;
      RemovePartial(s, id, t);
      return Failed;
    }
    return Done;
  }

  /** Publishes the stage under its final name: by a link, or by a journaled rename where links fail. */
  method FinalizeStagedBlob(s: Store, id: Id, ghost t: Ledger) returns (o: Outcome, ghost t': Ledger)
    requires Claimed(s, t, id)
    requires s.disk.Verified(s.codec, s.artifacts[id].staging, s.artifacts[id].hash, s.artifacts[id].size)
    requires t.disk.Has(s.artifacts[id].source)
    modifies s`disk, s`artifacts, s`faults
    ensures InAttempt(s, t') && SameAttempt(t, t') && KeepsBlobFiles(old(s.disk), s.disk)
    ensures o.Done? ==> s.disk.Has(old(s.artifacts[id]).destination)
    ensures s.faults >= old(s.faults) && (o.Failed? ==> s.faults > old(s.faults))
  {
    hide Attempt, AttemptOf, Entered, OnlyAdds, RefsExact, BlobsNamed, SizesTrue, Canonical;
    var a := s.artifacts[id];
    t' := t;
    assert SameAttempt(t, t);
    hide SameDestinations;
    EntryFacts(s.codec, t.disk, s.disk, s.blobs, t.mine, a.hash);
    if * {
      Linked(s.codec, t.disk, s.disk, s.blobs, t.mine, a.hash);
      s.disk := s.disk.Link(a.staging, a.destination);
      return Done, t';
    }
    if * {
      s.faults := s.faults + 1;
      return Failed, t';
    }
    var marked := a.(finalizedByRename := true);
    RowWritten(s.codec, t, s.disk, s.blobs, s.artifacts, id, marked);
    RowKeepsSizes(s.codec, s.blobs, s.pending, s.artifacts, id, marked);
    s.artifacts := s.artifacts[id := marked];
    SameAttemptRow(t, t, id, marked);
    t' := With(t, id, marked);
    if * {
      return Crashed, t';
    }
    if * {
      s.faults := s.faults + 1;
      return Failed, t';
    }
    Renamed(s.codec, t'.disk, s.disk, s.blobs, t'.mine, a.hash);
    s.disk := s.disk.Move(a.staging, a.destination);
    return Done, t';
  }

  /** The file that is at the destination verifies or, where there is none, the one at the source. */
  predicate Placeable(codec: Codec, d: Disk, h: Hash, size: nat, source: Path, destination: Path)
    requires d.Valid()
  {
    if d.Has(destination) then d.Verified(codec, destination, h, size) else d.Verified(codec, source, h, size)
  }

  /** The blob can be brought to its place under `root`. */
  predicate PlaceableAt(codec: Codec, d: Disk, blobs: map<Hash, BlobRow>, root: Dir, h: Hash)
    requires d.Valid() && h in blobs
  {
    Placeable(codec, d, h, blobs[h].size, blobs[h].path, BlobPath(root, h))
  }

  ghost predicate AllPlaceable(codec: Codec, d: Disk, blobs: map<Hash, BlobRow>, root: Dir)
    requires d.Valid()
  {
    forall h :: h in blobs ==> PlaceableAt(codec, d, blobs, root, h)
  }

  /** Where digests do not collide, a file at either place will do. */
  lemma PlaceableMeans(codec: Codec, d: Disk, blobs: map<Hash, BlobRow>, pending: PendingTable, artifacts: Journal, root: Dir)
    requires d.Valid() && Trusted(codec, d) && BlobsNamed(blobs) && SizesTrue(codec, blobs, pending, artifacts) && codec.CollisionFree()
    ensures AllPlaceable(codec, d, blobs, root) <==> forall h :: h in blobs ==> d.Has(blobs[h].path) || d.Has(BlobPath(root, h))
  {
    forall h | h in blobs
      ensures PlaceableAt(codec, d, blobs, root, h) <==> d.Has(blobs[h].path) || d.Has(BlobPath(root, h))
    {
      if d.Has(BlobPath(root, h)) {
        TrueSizeVerifies(codec, d, BlobPath(root, h), h, blobs[h].size);
      } else if d.Has(blobs[h].path) {
        TrueSizeVerifies(codec, d, blobs[h].path, h, blobs[h].size);
      }
    }
  }

  /** An attempt leaves the places of a blob that it has not tried as they were. */
  lemma PlacesUntouched(codec: Codec, t: Ledger, d: Disk, blobs: map<Hash, BlobRow>, artifacts: Journal, root: Dir, h: Hash)
    requires Attempting(codec, t, d, blobs, artifacts) && BlobsNamed(blobs) && h in blobs && h !in t.ids
    ensures t.disk.Valid() && d.Valid()
    ensures PlaceableAt(codec, t.disk, blobs, root, h) <==> PlaceableAt(codec, d, blobs, root, h)
  {
    forall p: Path | p.name == BlobName(h)
      ensures d.Has(p) <==> t.disk.Has(p)
      ensures d.Has(p) ==> d.Read(p) == t.disk.Read(p)
    {
      assert d.At(p).name == BlobName(h);
      assert d.Has(p) && !t.disk.Has(p) ==> Belongs(d, t.mine, d.At(p));
    }
    assert blobs[h].path.name == BlobName(h) && BlobPath(root, h).name == BlobName(h);
  }

  /** Brings the blob of a journaled entry to its destination, unless a verified file is there already. */
  method RelocateBlobStaged(s: Store, id: Id, ghost t: Ledger) returns (o: Outcome, ghost t': Ledger)
    requires InAttempt(s, t) && Entry(s, t, id)
    requires !s.artifacts[id].stagingOwned && !s.artifacts[id].finalizedByRename
    modifies s`disk, s`artifacts, s`faults
    ensures InAttempt(s, t') && SameAttempt(t, t') && KeepsBlobFiles(old(s.disk), s.disk)
    ensures o.Done? ==> s.disk.Has(old(s.artifacts[id]).destination)
    ensures var a := old(s.artifacts[id]);
            var placeable := Placeable(s.codec, old(s.disk), a.hash, a.size, a.source, a.destination);
            && (o.Done? ==> placeable)
            && s.faults >= old(s.faults)
            && (o.Failed? && placeable && !old(s.disk).Has(a.staging) ==> s.faults > old(s.faults))
  {
    hide Attempt, AttemptOf, Entered, OnlyAdds, RefsExact, BlobsNamed, Trusted, SizesTrue, Canonical;
    var a := s.artifacts[id];
    t' := t;
    assert SameAttempt(t, t);
    hide SameDestinations;
    EntryFacts(s.codec, t.disk, s.disk, s.blobs, t.mine, a.hash);
    if * {
      s.faults := s.faults + 1;
      return Failed, t';
    }
    if s.disk.Has(a.destination) {
      return if s.disk.Verified(s.codec, a.destination, a.hash, a.size) then Done else Failed, t';
    }
    if s.disk.Has(a.staging) {
      return Failed, t';
    }
    if * {
      s.faults := s.faults + 1;
      return Failed, t';
    }
    var claimed := a.(stagingOwned := true);
    RowWritten(s.codec, t', s.disk, s.blobs, s.artifacts, id, claimed);
    RowKeepsSizes(s.codec, s.blobs, s.pending, s.artifacts, id, claimed);
    s.artifacts := s.artifacts[id := claimed];
    SameAttemptRow(t, t', id, claimed);
    t' := With(t', id, claimed);
    if * {
      return Crashed, t';
    }
    if !s.disk.Verified(s.codec, a.source, a.hash, a.size) {
      return Failed, t';
    }
    SourceIsOld(s.codec, t'.disk, s.disk, s.blobs, t'.mine, a.hash);
    if * {
      // the stage could not be created, so the claim is withdrawn
      s.faults := s.faults + 1;
      if * {
        RowWritten(s.codec, t', s.disk, s.blobs, s.artifacts, id, a);
        RowKeepsSizes(s.codec, s.blobs, s.pending, s.artifacts, id, a);
        s.artifacts := s.artifacts[id := a];
        SameAttemptRow(t, t', id, a);
        t' := With(t', id, a);
      }
      return Failed, t';
    }
    o := CopyToStage(s, id, t');
    if o.Done? {
      ghost var t1 := t';
      o, t' := FinalizeStagedBlob(s, id, t');
      SameAttemptStep(t, t1, t');
    }
  }

  /** The artifact id that the item remembers is its hash's entry, when the row was written at all. */
  ghost predicate Remembers(artifacts: Journal, t: Ledger, it: Item) {
    if it.hash in t.ids then it.artifact == Some(t.ids[it.hash])
    else it.artifact.Some? ==> it.artifact.value !in artifacts
  }

  /** The ledger `t'` knows about `h` what `t` did not, and the same about every other hash. */
  ghost predicate ExtendsAt(t: Ledger, t': Ledger, h: Hash, destination: Path) {
    && t'.disk == t.disk && t'.base == t.base
    && (forall g :: g != h ==> (g in t'.ids <==> g in t.ids) && (g in t.ids ==> t'.ids[g] == t.ids[g]))
    && SameDestinations(t, t')
    && (h in t'.mine ==> t'.mine[h].destination == destination)
  }

  lemma ExtendsByNothing(t: Ledger, h: Hash, destination: Path)
    requires h !in t.mine
    ensures ExtendsAt(t, t, h, destination)
  {
  }

  lemma ExtendsByRow(t: Ledger, id: Id, a: Artifact)
    requires a.hash !in t.mine && a.hash !in t.ids
    ensures ExtendsAt(t, With(t, id, a), a.hash, a.destination)
  {
  }

  lemma ExtendsThenSame(t: Ledger, t1: Ledger, t2: Ledger, h: Hash, destination: Path)
    requires ExtendsAt(t, t1, h, destination) && SameAttempt(t1, t2)
    ensures ExtendsAt(t, t2, h, destination)
  {
  }

  /** Journals a new row for a blob that has to move. */
  method ReserveArtifact(s: Store, root: Dir, it0: Item, ghost t: Ledger)
    returns (o: Outcome, it: Item, ghost t': Ledger)
    requires InAttempt(s, t) && it0.hash in s.blobs && it0.hash !in t.ids && it0.artifact == None
    requires s.blobs[it0.hash].path == it0.oldPath && it0.newPath == BlobPath(root, it0.hash)
    requires it0.size == s.blobs[it0.hash].size
    modifies s`artifacts, s`faults
    ensures InAttempt(s, t') && ExtendsAt(t, t', it0.hash, it0.newPath)
    ensures it == it0.(artifact := it.artifact) && Remembers(s.artifacts, t', it)
    ensures o.Done? ==>
      && it.artifact.Some? && it.hash in t'.ids && Entry(s, t', it.artifact.value)
      && s.artifacts[it.artifact.value] == Artifact(it.hash, it.oldPath, root, it.newPath,
                                                    StagingPath(root, it.hash, it.artifact.value), it.size, false, false, false)
    ensures s.faults >= old(s.faults) && (o.Failed? ==> s.faults > old(s.faults))
    ensures o.Done? && s.faults == old(s.faults) ==> !s.disk.Has(StagingPath(root, it.hash, it.artifact.value))
  {
    hide Attempting, RefsExact, BlobsNamed, Trusted, ExtendsAt, JournalNamed, SizesTrue, Canonical;
    LedgerFacts(s.codec, t, s.disk, s.blobs, s.artifacts, it0.hash);
    it, t' := it0, t;
    var id := NewID(s);
    var a := Artifact(it.hash, it.oldPath, root, it.newPath, StagingPath(root, it.hash, id), it.size, false, false, false);
    RowIsNamed(s.artifacts, id, a);
    ExtendsByNothing(t, a.hash, a.destination);
    ExtendsByRow(t, id, a);
    if id in s.artifacts {
      return Failed, it, t';
    }
    it := it0.(artifact := Some(id));
    if * {
      s.faults := s.faults + 1;
      return Failed, it, t';
    }
    if * {
      return Crashed, it, t';
    }
    RowReserved(s.codec, t, s.disk, s.blobs, s.artifacts, id, a);
    RowKeepsSizes(s.codec, s.blobs, s.pending, s.artifacts, id, a);
    s.artifacts := s.artifacts[id := a];
    t' := With(t, id, a);
    if * {
      return Crashed, it, t';
    }
    return Done, it, t';
  }

  lemma RowIsNamed(artifacts: Journal, id: Id, a: Artifact)
    requires JournalNamed(artifacts) && a.destination.name == BlobName(a.hash) && a.staging.name == StagingName(a.hash, id)
    ensures JournalNamed(artifacts[id := a])
  {
  }

  /** Prepares one blob: in place it is verified, otherwise it is journaled and relocated. */
  method PrepareRelocationItem(s: Store, root: Dir, h: Hash, ghost t: Ledger)
    returns (o: Outcome, it: Item, ghost t': Ledger)
    requires InAttempt(s, t) && h in s.blobs && h !in t.ids
    modifies s`disk, s`artifacts, s`faults
    ensures InAttempt(s, t') && ExtendsAt(t, t', h, BlobPath(root, h)) && KeepsBlobFiles(old(s.disk), s.disk)
    ensures it.hash == h && it.oldPath == s.blobs[h].path && it.newPath == BlobPath(root, h) && it.size == s.blobs[h].size
    ensures Remembers(s.artifacts, t', it)
    ensures o.Done? ==> s.disk.Has(it.newPath)
    ensures o.Done? ==> if it.oldPath == it.newPath then it.artifact == None else h in t'.ids
    ensures o.Done? ==> PlaceableAt(s.codec, old(s.disk), s.blobs, root, h)
    ensures s.faults >= old(s.faults)
    ensures o.Failed? && PlaceableAt(s.codec, old(s.disk), s.blobs, root, h) ==> s.faults > old(s.faults)
  {
    hide Attempting, RefsExact, BlobsNamed, Trusted, JournalNamed, SameDestinations, SizesTrue, Canonical;
    it := Item(h, s.blobs[h].path, BlobPath(root, h), s.blobs[h].size, None);
    t' := t;
    LedgerFacts(s.codec, t, s.disk, s.blobs, s.artifacts, h);
    ExtendsByNothing(t, h, it.newPath);
    if it.oldPath == it.newPath {
      return if s.disk.Verified(s.codec, it.newPath, h, it.size) then Done else Failed, it, t';
    }
    o, it, t' := ReserveArtifact(s, root, it, t);
    if o.Done? {
      ghost var t1 := t';
      o, t' := RelocateBlobStaged(s, it.artifact.value, t');
      ExtendsThenSame(t, t1, t', h, it.newPath);
    }
  }

  /** Cleans up one journal row: its files first, then the row. */
  method CleanupRelocationArtifact(s: Store, id: Id) returns (o: Outcome)
    requires s.Valid()
    modifies s`disk, s`artifacts, s`faults
    ensures s.Valid()
    ensures id !in old(s.artifacts) ==> s.disk == old(s.disk) && s.artifacts == old(s.artifacts)
    ensures id in old(s.artifacts) ==>
      || s.disk == old(s.disk)
      || s.disk == WithoutDestination(s.codec, old(s.disk), s.blobs, old(s.artifacts)[id])
      || s.disk == WithoutArtifact(s.codec, old(s.disk), s.blobs, old(s.artifacts)[id])
    ensures
      || s.artifacts == old(s.artifacts)
      || (s.artifacts == old(s.artifacts) - {id} && id in old(s.artifacts)
          && s.disk == WithoutArtifact(s.codec, old(s.disk), s.blobs, old(s.artifacts)[id]))
    ensures o.Done? ==> id !in s.artifacts
    ensures s.faults >= old(s.faults) && (o.Failed? ==> s.faults > old(s.faults))
  {
    FewerRowsKeepSizes(s.codec, s.blobs, s.pending, s.artifacts, id);
    assert JournalNamed(s.artifacts - {id});
    hide SizesTrue, JournalNamed, RefsExact, BlobsNamed, Canonical, Trusted;
    if * {
      s.faults := s.faults + 1;
      return Failed;
    }
    if id !in s.artifacts {
      return Done;
    }
    var a := s.artifacts[id];
    CleanupKeepsTrusted(s.codec, s.disk, s.blobs, a);
    if a.stagingOwned {
      if * {
        s.faults := s.faults + 1;
        return Failed;
      }
      if Abandoned(s.blobs, a) {
        if * {
          s.faults := s.faults + 1;
          return Failed;
        }
        if OwnsDestination(s.codec, s.disk, a) && !s.disk.SameFile(a.source, a.destination) {
          if * {
            s.faults := s.faults + 1;
            return Failed;
          }
          s.disk := s.disk.Unlink(a.destination);
          if * {
            return Crashed;
          }
        }
      }
      if * {
        s.faults := s.faults + 1;
        return Failed;
      }
      s.disk := s.disk.Unlink(a.staging);
      if * {
        return Crashed;
      }
    }
    if * {
      s.faults := s.faults + 1;
      return Failed;
    }
    s.artifacts := s.artifacts - {id};
    return Done;
  }

  /** Whatever a cleanup does, indexed files stay, rows only go, and what stays of the claimed files stays claimed. */
  ghost predicate CleanupSafe(codec: Codec, d0: Disk, j0: Journal, d: Disk, j: Journal, blobs: map<Hash, BlobRow>) {
    && KeepsIndexed(d0, d, blobs)
    && OnlyShrinks(d0, d)
    && ClaimsKept(codec, d0, j0, d, j, blobs)
    && (forall id :: id in j ==> id in j0 && j[id] == j0[id])
  }

  /** Every entry of the attempt is remembered by its item. */
  ghost predicate Covers(artifacts: Journal, t: Ledger, items: Items) {
    && t.ids.Keys <= items.Keys
    && forall h :: h in items ==> Remembers(artifacts, t, items[h])
  }

  /** Cleans up after one item. */
  method CleanupItem(s: Store, items: Items, h: Hash, ghost t: Ledger) returns (o: Outcome, ghost t': Ledger)
    requires s.Valid() && ItemsNamed(items) && h in items && items[h].artifact.Some?
    modifies s`disk, s`artifacts, s`faults
    ensures s.Valid() && CleanupSafe(s.codec, old(s.disk), old(s.artifacts), s.disk, s.artifacts, s.blobs)
    ensures old(InAttempt(s, t) && Covers(s.artifacts, t, items)) ==>
      && InAttempt(s, t') && Covers(s.artifacts, t', items)
      && t'.disk == t.disk && t'.base == t.base
      && t'.ids.Keys <= t.ids.Keys && (o.Done? ==> h !in t'.ids)
    ensures s.faults >= old(s.faults) && (o.Failed? ==> s.faults > old(s.faults))
  {
    hide Attempt, Entered, OnlyAdds, WithoutDestination, WithoutArtifact, RefsExact, BlobsNamed, JournalNamed, Trusted;
    var id := items[h].artifact.value;
    ghost var d0, j0 := s.disk, s.artifacts;
    o := CleanupRelocationArtifact(s, id);
    CleanupIsSafe(s.codec, d0, j0, s.disk, s.artifacts, s.blobs, id);
    t' := Settled(t, s.artifacts, h);
    if old(InAttempt(s, t) && Covers(s.artifacts, t, items)) {
      LedgerFacts(s.codec, t, d0, s.blobs, j0, h);
      if h in t.ids {
        CleanupTracked(s.codec, t, d0, s.disk, s.blobs, j0, s.artifacts, h);
      }
    }
  }

  /** Cleans up after the items of one attempt; one failure does not stop the others. */
  method CleanupDestinations(s: Store, items: Items, ghost t: Ledger) returns (o: Outcome, ghost t': Ledger)
    requires s.Valid() && ItemsNamed(items)
    modifies s`disk, s`artifacts, s`faults
    ensures s.Valid() && CleanupSafe(s.codec, old(s.disk), old(s.artifacts), s.disk, s.artifacts, s.blobs)
    ensures old(InAttempt(s, t) && Covers(s.artifacts, t, items)) ==>
      InAttempt(s, t') && t'.disk == t.disk && t'.base == t.base && (o.Done? ==> t'.ids == map[])
    ensures s.faults >= old(s.faults) && (o.Failed? ==> s.faults > old(s.faults))
  {
    hide Attempting, RefsExact, BlobsNamed, JournalNamed, Trusted, CleanupSafe;
    t' := t;
    ghost var tracked := InAttempt(s, t) && Covers(s.artifacts, t, items);
    CleanupSafeItself(s.codec, s.disk, s.artifacts, s.blobs);
    var todo := items.Keys;
    var failed := false;
    while todo != {}
      invariant s.Valid() && todo <= items.Keys
      invariant CleanupSafe(s.codec, old(s.disk), old(s.artifacts), s.disk, s.artifacts, s.blobs)
      invariant tracked ==> InAttempt(s, t') && Covers(s.artifacts, t', items) && t'.disk == t.disk && t'.base == t.base
      invariant tracked && !failed ==> t'.ids.Keys <= todo
      invariant s.faults >= old(s.faults) && (failed ==> s.faults > old(s.faults))
      decreases todo
    {
      var h :| h in todo;
      todo := todo - {h};
      if items[h].artifact.Some? {
        if * {
          return Crashed, t';
        }
        ghost var d0, j0 := s.disk, s.artifacts;
        o, t' := CleanupItem(s, items, h, t');
        CleanupSafeTwice(s.codec, old(s.disk), old(s.artifacts), d0, j0, s.disk, s.artifacts, s.blobs);
        failed := failed || o.Failed?;
        if o.Crashed? {
          return Crashed, t';
        }
      }
    }
    o := if failed then Failed else Done;
  }

  /** What the receipt of a successful preparation says of one blob. */
  ghost predicate ItemReady(blobs: map<Hash, BlobRow>, d: Disk, root: Dir, h: Hash, it: Item) {
    && h in blobs
    && it.hash == h && it.oldPath == blobs[h].path && it.newPath == BlobPath(root, h) && it.size == blobs[h].size
    && d.Has(it.newPath)
  }

  ghost predicate Ready(blobs: map<Hash, BlobRow>, d: Disk, artifacts: Journal, root: Dir, items: Items, t: Ledger) {
    && (forall h :: h in items ==> ItemReady(blobs, d, root, h, items[h]))
    && (forall h :: h in items ==> if items[h].oldPath == items[h].newPath then items[h].artifact == None else h in t.ids)
    && (forall h :: h in t.mine ==> t.mine[h].destination == BlobPath(root, h))
    && Covers(artifacts, t, items)
  }

  /** The cleanup after a failed preparation. */
  method AbandonPreparation(s: Store, items: Items, ghost t: Ledger) returns (o: Outcome, ghost t': Ledger)
    requires InAttempt(s, t) && ItemsNamed(items) && Covers(s.artifacts, t, items)
    modifies s`disk, s`artifacts, s`faults
    ensures InAttempt(s, t') && t'.disk == t.disk && t'.base == t.base
    ensures o.Done? ==> s.artifacts == t.base && s.disk.SameFilesAs(t.disk)
    ensures s.faults >= old(s.faults) && (o.Failed? ==> s.faults > old(s.faults))
  {
    hide Attempting, SizesTrue;
    o, t' := CleanupDestinations(s, items, t);
    if o.Done? {
      NothingLeft(s.codec, t', s.disk, s.blobs, s.artifacts);
    }
  }

  /** One more item was tried: the receipt still covers the attempt. */
  lemma CoversGrows(artifacts: Journal, artifacts': Journal, items: Items, t: Ledger, t': Ledger, it: Item)
    requires Covers(artifacts, t, items) && it.hash !in items && ItemsNamed(items)
    requires forall h :: h in items ==> items[h].artifact == None || h in t.ids
    requires forall g :: g != it.hash ==> (g in t'.ids <==> g in t.ids) && (g in t.ids ==> t'.ids[g] == t.ids[g])
    requires Remembers(artifacts', t', it)
    ensures Covers(artifacts', t', items[it.hash := it])
  {
    var items' := items[it.hash := it];
    forall g | g in items'
      ensures Remembers(artifacts', t', items'[g])
    {
      if g != it.hash {
        assert Remembers(artifacts, t, items[g]);
      }
    }
  }

  /** When it succeeded, the receipt is ready with it: what was at the other destinations still is. */
  lemma ReadyGrows(blobs: map<Hash, BlobRow>, d: Disk, d': Disk, artifacts: Journal, artifacts': Journal,
                   root: Dir, items: Items, t: Ledger, t': Ledger, it: Item)
    requires Ready(blobs, d, artifacts, root, items, t) && Covers(artifacts', t', items[it.hash := it])
    requires KeepsBlobFiles(d, d') && ExtendsAt(t, t', it.hash, BlobPath(root, it.hash))
    requires t.ids.Keys == t.mine.Keys && t'.ids.Keys == t'.mine.Keys
    requires ItemReady(blobs, d', root, it.hash, it)
    requires if it.oldPath == it.newPath then it.artifact == None else it.hash in t'.ids
    ensures Ready(blobs, d', artifacts', root, items[it.hash := it], t')
  {
    hide Covers;
    var items' := items[it.hash := it];
    forall g | g in items'
      ensures ItemReady(blobs, d', root, g, items'[g])
    {
      if g != it.hash {
        assert ItemReady(blobs, d, root, g, items[g]);
        assert d.At(items[g].newPath).name.BlobName?;
      }
    }
    forall g | g in t'.mine
      ensures t'.mine[g].destination == BlobPath(root, g)
    {
      assert g != it.hash ==> g in t.ids && g in t.mine;
    }
  }

  /**
   Prepares every indexed blob without touching the index.  A failure cleans up
   the places made so far; `cleaned` tells whether that worked.
   */
  method PrepareBlobRelocation(s: Store, root: Dir)
    returns (o: Outcome, cleaned: bool, items: Items, ghost t: Ledger)
    requires s.Valid()
    modifies s`disk, s`artifacts, s`faults
    ensures InAttempt(s, t) && t.disk == old(s.disk) && t.base == old(s.artifacts)
    ensures ItemsNamed(items)
    ensures o.Done? ==> Ready(s.blobs, s.disk, s.artifacts, root, items, t) && items.Keys == s.blobs.Keys
    ensures o.Failed? && cleaned ==> s.artifacts == old(s.artifacts) && s.disk.SameFilesAs(old(s.disk))
    // it succeeds exactly when every blob can be placed, unless an operation fails
    ensures o.Done? ==> AllPlaceable(s.codec, old(s.disk), s.blobs, root)
    ensures o.Failed? && AllPlaceable(s.codec, old(s.disk), s.blobs, root) ==> s.faults > old(s.faults)
    ensures o.Failed? && !cleaned ==>
      s.faults > old(s.faults) + if AllPlaceable(s.codec, old(s.disk), s.blobs, root) then 1 else 0
    ensures s.faults >= old(s.faults)
  {
    hide Attempting, Trusted, JournalNamed, RefsExact, BlobsNamed, PlaceableAt, SizesTrue, Canonical, Remembers;
    t := Ledger(s.disk, s.artifacts, map[], map[]);
    AttemptStarts(s.codec, s.disk, s.blobs, s.artifacts);
    items, cleaned := map[], false;
    assert Ready(s.blobs, s.disk, s.artifacts, root, items, t);
    hide Ready, Covers;
    if * {
      s.faults := s.faults + 1;
      return Failed, true, items, t;
    }
    var todo := s.blobs.Keys;
    while todo != {}
      invariant InAttempt(s, t) && t.disk == old(s.disk) && t.base == old(s.artifacts)
      invariant items.Keys + todo == s.blobs.Keys && items.Keys !! todo && t.ids.Keys <= items.Keys
      invariant ItemsNamed(items) && Ready(s.blobs, s.disk, s.artifacts, root, items, t)
      invariant s.faults >= old(s.faults)
      invariant forall h :: h in items ==> PlaceableAt(s.codec, old(s.disk), s.blobs, root, h)
      decreases todo
    {
      var h :| h in todo;
      todo := todo - {h};
      if * {
        return Crashed, false, items, t;
      }
      PlacesUntouched(s.codec, t, s.disk, s.blobs, s.artifacts, root, h);
      ReadyFacts(s.blobs, s.disk, s.artifacts, root, items, t);
      o, items, t := PrepareNext(s, root, items, h, t);
      if o.Failed? {
        o, t := AbandonPreparation(s, items, t);
        if !o.Crashed? {
          return Failed, o.Done?, items, t;
        }
      }
      if o.Crashed? {
        return Crashed, false, items, t;
      }
    }
    o := Done;
  }

  lemma ReadyFacts(blobs: map<Hash, BlobRow>, d: Disk, artifacts: Journal, root: Dir, items: Items, t: Ledger)
    requires Ready(blobs, d, artifacts, root, items, t)
    ensures Covers(artifacts, t, items) && t.ids.Keys <= items.Keys
    ensures forall h :: h in items ==> items[h].artifact == None || h in t.ids
  {
  }

  /** Prepares one more blob and adds it to the receipt. */
  method PrepareNext(s: Store, root: Dir, items: Items, h: Hash, ghost t: Ledger)
    returns (o: Outcome, items': Items, ghost t': Ledger)
    requires InAttempt(s, t) && ItemsNamed(items) && Ready(s.blobs, s.disk, s.artifacts, root, items, t)
    requires h in s.blobs && h !in items
    modifies s`disk, s`artifacts, s`faults
    ensures InAttempt(s, t') && t'.disk == t.disk && t'.base == t.base
    ensures ItemsNamed(items') && items'.Keys == items.Keys + {h} && Covers(s.artifacts, t', items') && t'.ids.Keys <= items'.Keys
    ensures o.Done? ==> Ready(s.blobs, s.disk, s.artifacts, root, items', t')
    ensures s.faults >= old(s.faults)
    ensures o.Done? ==> PlaceableAt(s.codec, old(s.disk), s.blobs, root, h)
    ensures o.Failed? && PlaceableAt(s.codec, old(s.disk), s.blobs, root, h) ==> s.faults > old(s.faults)
  {
    hide Attempting, Trusted, JournalNamed, RefsExact, BlobsNamed, Remembers, KeepsBlobFiles, SameDestinations, Ready, Covers,
      PlaceableAt, SizesTrue, Canonical;
    ReadyFacts(s.blobs, s.disk, s.artifacts, root, items, t);
    LedgerFacts(s.codec, t, s.disk, s.blobs, s.artifacts, h);
    ghost var d, j := s.disk, s.artifacts;
    var it;
    o, it, t' := PrepareRelocationItem(s, root, h, t);
    items' := items[h := it];
    LedgerFacts(s.codec, t', s.disk, s.blobs, s.artifacts, h);
    CoversGrows(j, s.artifacts, items, t, t', it);
    if o.Done? {
      ReadyGrows(s.blobs, d, s.disk, j, s.artifacts, root, items, t, t', it);
    }
  }

  lemma CleanupSafeTwice(codec: Codec, d0: Disk, j0: Journal, d1: Disk, j1: Journal, d2: Disk, j2: Journal,
                         blobs: map<Hash, BlobRow>)
    requires CleanupSafe(codec, d0, j0, d1, j1, blobs) && CleanupSafe(codec, d1, j1, d2, j2, blobs)
    ensures CleanupSafe(codec, d0, j0, d2, j2, blobs)
    ensures j2.Keys <= j1.Keys
  {
    hide RemovesDestination, ClaimedBy;
  }

  lemma CleanupSafeItself(codec: Codec, d: Disk, j: Journal, blobs: map<Hash, BlobRow>)
    requires d.Valid()
    ensures CleanupSafe(codec, d, j, d, j, blobs)
  {
  }

  /** One row's cleanup, as far as it got, is safe. */
  lemma CleanupIsSafe(codec: Codec, d0: Disk, j0: Journal, d: Disk, j: Journal, blobs: map<Hash, BlobRow>, id: Id)
    requires d0.Valid() && d.Valid() && BlobsNamed(blobs) && JournalNamed(j0)
    requires id !in j0 ==> d == d0 && j == j0
    requires id in j0 ==> CleansRow(codec, blobs, Stage(d0, j0), Stage(d, j), id)
    ensures CleanupSafe(codec, d0, j0, d, j, blobs)
  {
    if id in j0 {
      CleanupKeepsIndexed(codec, d0, blobs, j0, id);
      CleanupKeepsClaims(codec, d0, d, blobs, j0, j, id);
    }
  }

  /** The ledger after a cleanup of row `id`, whoever wrote it. */
  ghost function AfterRow(codec: Codec, t: Ledger, d0: Disk, d: Disk, blobs: map<Hash, BlobRow>, j0: Journal, j: Journal,
                          id: Id): Ledger
    requires t.disk.Valid() && d0.Valid() && JournalNamed(j0) && id in j0
  {
    if id !in t.base then
      Settled(t, j, j0[id].hash)
    else if d == WithoutArtifact(codec, d0, blobs, t.base[id]) then
      t.(disk := WithoutArtifact(codec, t.disk, blobs, t.base[id]), base := if id in j then t.base else t.base - {id})
    else if d == WithoutDestination(codec, d0, blobs, t.base[id]) then
      t.(disk := WithoutDestination(codec, t.disk, blobs, t.base[id]))
    else
      t
  }

  lemma RowTracked(codec: Codec, t: Ledger, d0: Disk, d: Disk, blobs: map<Hash, BlobRow>, j0: Journal, j: Journal, id: Id)
    requires Attempting(codec, t, d0, blobs, j0) && JournalNamed(j0) && BlobsNamed(blobs)
    requires id in j0 && CleansRow(codec, blobs, Stage(d0, j0), Stage(d, j), id)
    ensures t.disk.Valid()
    ensures var t' := AfterRow(codec, t, d0, d, blobs, j0, j, id);
            Attempting(codec, t', d, blobs, j) && RecoveryStep(codec, blobs, StartOf(t), StartOf(t'))
  {
    hide Attempt, AttemptOf, WithoutDestination, WithoutArtifact, JournalNamed, BlobsNamed;
    AttemptGrows(codec, t, d0, blobs, j0);
    if id in t.base {
      BaseRowCleaned(codec, t, d0, blobs, j0, id);
      var t' := AfterRow(codec, t, d0, d, blobs, j0, j, id);
      assert t' == t || CleansRow(codec, blobs, StartOf(t), StartOf(t'), id);
    } else {
      var h := HashOfEntry(codec, t, d0, blobs, j0, id);
      LedgerFacts(codec, t, d0, blobs, j0, h);
      CleanupTracked(codec, t, d0, d, blobs, j0, j, h);
    }
  }

  /** Cleans up one row, whoever wrote it. */
  method CleanupRow(s: Store, id: Id, ghost t: Ledger) returns (o: Outcome, ghost t': Ledger)
    requires s.Valid()
    modifies s`disk, s`artifacts, s`faults
    ensures s.Valid() && CleanupSafe(s.codec, old(s.disk), old(s.artifacts), s.disk, s.artifacts, s.blobs)
    ensures o.Done? ==> id !in s.artifacts
    ensures s.faults >= old(s.faults) && (o.Failed? ==> s.faults > old(s.faults))
    ensures old(InAttempt(s, t)) ==> InAttempt(s, t') && RecoveryStep(s.codec, s.blobs, StartOf(t), StartOf(t'))
  {
    hide Attempting, WithoutDestination, WithoutArtifact, RefsExact, BlobsNamed, JournalNamed, Trusted, AfterRow, CleanupSafe;
    t' := t;
    ghost var d0, j0 := s.disk, s.artifacts;
    o := CleanupRelocationArtifact(s, id);
    CleanupIsSafe(s.codec, d0, j0, s.disk, s.artifacts, s.blobs, id);
    if old(InAttempt(s, t)) && id in j0 {
      RowTracked(s.codec, t, d0, s.disk, s.blobs, j0, s.artifacts, id);
      t' := AfterRow(s.codec, t, d0, s.disk, s.blobs, j0, s.artifacts, id);
    }
  }

  /**
   Recovery at startup: every row of the journal, whoever wrote it.  Beside an
   attempt the older rows are recovered as they would be without it.
   */
  method CleanupRelocationArtifacts(s: Store, ghost t: Ledger, ghost run: seq<Stage>)
    returns (o: Outcome, ghost t': Ledger, ghost run': seq<Stage>)
    requires s.Valid()
    modifies s`disk, s`artifacts, s`faults
    ensures s.Valid() && CleanupSafe(s.codec, old(s.disk), old(s.artifacts), s.disk, s.artifacts, s.blobs)
    ensures o.Done? ==> s.artifacts == map[]
    ensures s.faults >= old(s.faults) && (o.Failed? ==> s.faults > old(s.faults))
    ensures old(InAttempt(s, t)) && RunTo(s.codec, s.blobs, run, t) ==>
      InAttempt(s, t') && RunTo(s.codec, s.blobs, run', t') && run <= run'
  {
    hide Attempting, RefsExact, BlobsNamed, JournalNamed, Trusted, CleanupSafe, RecoveryRun, RecoveryStep;
    t', run' := t, run;
    ghost var tracked := InAttempt(s, t) && RunTo(s.codec, s.blobs, run, t);
    CleanupSafeItself(s.codec, s.disk, s.artifacts, s.blobs);
    if * {
      s.faults := s.faults + 1;
      return Failed, t', run';
    }
    var todo := s.artifacts.Keys;
    var failed := false;
    while todo != {}
      invariant s.Valid() && todo <= old(s.artifacts.Keys)
      invariant s.faults >= old(s.faults) && (failed ==> s.faults > old(s.faults))
      invariant CleanupSafe(s.codec, old(s.disk), old(s.artifacts), s.disk, s.artifacts, s.blobs)
      invariant tracked ==> InAttempt(s, t') && RunTo(s.codec, s.blobs, run', t') && run <= run'
      invariant !failed ==> s.artifacts.Keys <= todo
      decreases todo
    {
      var id: Id :| id in todo;
      todo := todo - {id};
      if * {
        return Crashed, t', run';
      }
      ghost var d0, j0 := s.disk, s.artifacts;
      o, t' := CleanupRow(s, id, t');
      CleanupSafeTwice(s.codec, old(s.disk), old(s.artifacts), d0, j0, s.disk, s.artifacts, s.blobs);
      if tracked {
        RunGoesOn(s.codec, s.blobs, run', StartOf(t'));
        run' := run' + [StartOf(t')];
      }
      failed := failed || o.Failed?;
      if o.Crashed? {
        return Crashed, t', run';
      }
    }
    o := if failed then Failed else Done;
  }

  /** A recovery that has come to where the attempt is now said to have started. */
  ghost predicate RunTo(codec: Codec, blobs: map<Hash, BlobRow>, run: seq<Stage>, t: Ledger) {
    RecoveryRun(codec, blobs, run) && run[|run| - 1] == StartOf(t)
  }

  /** An attempt with no entries left has left nothing behind. */
  lemma NothingLeft(codec: Codec, t: Ledger, d: Disk, blobs: map<Hash, BlobRow>, artifacts: Journal)
    requires Attempting(codec, t, d, blobs, artifacts)
    requires t.ids == map[] || artifacts == map[]
    ensures artifacts == t.base && d.SameFilesAs(t.disk)
  {
    assert forall h :: h in t.ids ==> t.ids[h] in artifacts;
    assert t.ids.Keys == {};
    assert t.ids.Values == {};
    assert t.mine == map[];
    NothingOwnedNothingLeft(codec, t.disk, d, blobs);
    assert artifacts.Keys == t.base.Keys;
    assert artifacts == t.base;
  }

  /**
   All or nothing: a prepare that fails or dies at any point, followed by any
   number of recoveries that may themselves fail or die, of which the last one
   completes, leaves the files as the same recovery of the older rows alone
   would have left them, and no journal.  The index is outside the frame of
   every step.
   */
  method PrepareThenRecover(s: Store, root: Dir, restarts: nat) returns (o: Outcome, ghost run: seq<Stage>)
    requires s.Valid()
    modifies s`disk, s`artifacts, s`faults
    ensures s.Valid()
    ensures o.Failed? && restarts > 0 ==> s.faults > old(s.faults)
    ensures RecoveryRun(s.codec, s.blobs, run) && run[0] == Stage(old(s.disk), old(s.artifacts))
    ensures o.Done? ==>
      && s.artifacts == map[] && run[|run| - 1].journal == map[]
      && run[|run| - 1].disk.Valid() && s.disk.SameFilesAs(run[|run| - 1].disk)
    ensures o.Done? && old(s.artifacts) == map[] ==> s.disk.SameFilesAs(old(s.disk))
  {
    ghost var t;
    var prepared, cleaned, items;
    prepared, cleaned, items, t := PrepareBlobRelocation(s, root);
    run := [StartOf(t)];
    o := Failed;
    for i := 0 to restarts
      invariant InAttempt(s, t) && RunTo(s.codec, s.blobs, run, t) && run[0] == Stage(old(s.disk), old(s.artifacts))
      invariant o.Done? ==> s.artifacts == map[]
      invariant s.faults >= old(s.faults) && (o.Failed? && i > 0 ==> s.faults > old(s.faults))
    {
      hide Attempting, RecoveryRun;
      o, t, run := CleanupRelocationArtifacts(s, t, run);
    }
    if o.Done? {
      NothingLeft(s.codec, t, s.disk, s.blobs, s.artifacts);
    }
    if old(s.artifacts) == map[] {
      NothingToRecover(s.codec, s.blobs, run);
    }
  }

  lemma {:induction false} NothingToRecover(codec: Codec, blobs: map<Hash, BlobRow>, run: seq<Stage>)
    requires RecoveryRun(codec, blobs, run) && run[0].journal == map[]
    ensures run[|run| - 1] == run[0]
  {
    if |run| > 1 {
      var shorter := run[..|run| - 1];
      assert forall i :: 0 <= i < |shorter| ==> shorter[i] == run[i];
      NothingToRecover(codec, blobs, shorter);
      assert RecoveryStep(codec, blobs, run[|run| - 2], run[|run| - 2 + 1]);
    }
  }
}
