/**
 The journal of relocation attempts: what an attempt may leave on the disk, and
 what cleaning up one journal entry removes.
 */
module Artifacts {
  import opened Files
  import opened BlobStore

  /** The index still points at the source, so the attempt came to nothing. */
  predicate Abandoned(blobs: map<Hash, BlobRow>, a: Artifact) {
    !a.committed && a.hash in blobs && blobs[a.hash].path == a.source
  }

  /** The destination was made by this attempt: a link to the stage, or the stage renamed. */
  predicate OwnsDestination(codec: Codec, d: Disk, a: Artifact)
    requires d.Valid()
  {
    || d.SameFile(a.staging, a.destination)
    || (a.finalizedByRename && !d.Has(a.staging) && d.Verified(codec, a.destination, a.hash, a.size))
  }

  predicate RemovesDestination(codec: Codec, d: Disk, blobs: map<Hash, BlobRow>, a: Artifact)
    requires d.Valid()
  {
    a.stagingOwned && Abandoned(blobs, a) && OwnsDestination(codec, d, a) && !d.SameFile(a.source, a.destination)
  }

  function WithoutDestination(codec: Codec, d: Disk, blobs: map<Hash, BlobRow>, a: Artifact): Disk
    requires d.Valid()
  {
    if RemovesDestination(codec, d, blobs, a) then d.Unlink(a.destination) else d
  }

  function WithoutArtifact(codec: Codec, d: Disk, blobs: map<Hash, BlobRow>, a: Artifact): Disk
    requires d.Valid()
  {
    if a.stagingOwned then WithoutDestination(codec, d, blobs, a).Unlink(a.staging) else d
  }

  /** Whatever was indexed at a file still is. */
  ghost predicate KeepsIndexed(d: Disk, d': Disk, blobs: map<Hash, BlobRow>) {
    && d'.alias == d.alias
    && d.data <= d'.data
    && forall h :: h in blobs && d.Has(blobs[h].path) ==> d'.Has(blobs[h].path)
  }

  /** No file with a blob's name went. */
  ghost predicate KeepsBlobFiles(d: Disk, d': Disk) {
    && d'.alias == d.alias
    && forall l :: l in d.links && l.name.BlobName? ==> l in d'.links
  }

  ghost predicate OnlyShrinks(d: Disk, d': Disk) {
    forall l :: l in d'.links ==> l in d.links && d'.links[l] == d.links[l]
  }

  /** Cleaning up an artifact never takes an indexed file, under any aliases and hard links. */
  lemma CleanupKeepsIndexed(codec: Codec, d: Disk, blobs: map<Hash, BlobRow>, artifacts: Journal, id: Id)
    requires d.Valid() && BlobsNamed(blobs) && JournalNamed(artifacts) && id in artifacts
    ensures KeepsIndexed(d, WithoutDestination(codec, d, blobs, artifacts[id]), blobs)
    ensures KeepsIndexed(d, WithoutArtifact(codec, d, blobs, artifacts[id]), blobs)
    ensures OnlyShrinks(d, WithoutDestination(codec, d, blobs, artifacts[id]))
    ensures OnlyShrinks(d, WithoutArtifact(codec, d, blobs, artifacts[id]))
  {
    var a := artifacts[id];
    forall h | h in blobs && d.Has(blobs[h].path)
      ensures RemovesDestination(codec, d, blobs, a) ==> d.At(blobs[h].path) != d.At(a.destination)
      ensures d.At(blobs[h].path) != d.At(a.staging)
    {
      assert d.At(blobs[h].path).name == BlobName(h);
      assert d.At(a.destination).name == BlobName(a.hash) && d.At(a.staging).name.StagingName?;
    }
  }

  /** The cleanup of a committed row removes its stage and no blob file. */
  lemma CommittedLosesOnlyItsStage(codec: Codec, d: Disk, blobs: map<Hash, BlobRow>, a: Artifact)
    requires d.Valid() && a.committed && a.staging.name.StagingName?
    ensures KeepsBlobFiles(d, WithoutArtifact(codec, d, blobs, a))
    ensures a.stagingOwned ==> !WithoutArtifact(codec, d, blobs, a).Has(a.staging)
  {
  }

  lemma CleanupKeepsTrusted(codec: Codec, d: Disk, blobs: map<Hash, BlobRow>, a: Artifact)
    requires d.Valid() && Trusted(codec, d)
    ensures WithoutDestination(codec, d, blobs, a).Valid() && Trusted(codec, WithoutDestination(codec, d, blobs, a))
    ensures WithoutArtifact(codec, d, blobs, a).Valid() && Trusted(codec, WithoutArtifact(codec, d, blobs, a))
  {
  }

  // ----- What the journal claims -----

  /** The locations that recovery would remove because an attempt that came to nothing made them. */
  function ClaimedBy(codec: Codec, d: Disk, blobs: map<Hash, BlobRow>, artifacts: Journal): set<Path>
    requires d.Valid()
  {
    set id | id in artifacts && RemovesDestination(codec, d, blobs, artifacts[id]) :: d.At(artifacts[id].destination)
  }

  /** What was claimed and is still there is still claimed. */
  ghost predicate ClaimsKept(codec: Codec, d0: Disk, j0: Journal, d: Disk, j: Journal, blobs: map<Hash, BlobRow>) {
    d0.Valid() && d.Valid() && d.alias == d0.alias
    && forall l :: l in ClaimedBy(codec, d0, blobs, j0) && l in d.links ==> l in ClaimedBy(codec, d, blobs, j)
  }

  /** Losing other files does not change whose a destination is. */
  lemma StillRemoves(codec: Codec, d: Disk, d': Disk, blobs: map<Hash, BlobRow>, a: Artifact)
    requires d.Valid() && d'.Valid() && d'.alias == d.alias && d.data <= d'.data
    requires forall l :: l in d'.links && l in d.links ==> d'.links[l] == d.links[l]
    requires RemovesDestination(codec, d, blobs, a) && d'.Has(a.destination) && d.Has(a.destination)
    requires d'.Has(a.staging) <==> d.Has(a.staging)
    requires d'.Has(a.source) && !d.Has(a.source) ==> d'.links[d'.At(a.source)] >= |d.data|
    ensures RemovesDestination(codec, d', blobs, a)
  {
    assert d'.Read(a.destination) == d.Read(a.destination);
  }

  lemma RemovedIsThere(codec: Codec, d: Disk, blobs: map<Hash, BlobRow>, a: Artifact)
    requires d.Valid() && RemovesDestination(codec, d, blobs, a)
    ensures d.Has(a.destination)
  {
  }

  /** Cleaning up one row, however far it gets, gives up no claim on a file that stays. */
  lemma CleanupKeepsClaims(codec: Codec, d: Disk, d': Disk, blobs: map<Hash, BlobRow>, j: Journal, j': Journal, id: Id)
    requires d.Valid() && BlobsNamed(blobs) && JournalNamed(j) && id in j
    requires d' == d || d' == WithoutDestination(codec, d, blobs, j[id]) || d' == WithoutArtifact(codec, d, blobs, j[id])
    requires j' == j || (j' == j - {id} && d' == WithoutArtifact(codec, d, blobs, j[id]))
    ensures ClaimsKept(codec, d, j, d', j', blobs)
  {
    CleanupKeepsIndexed(codec, d, blobs, j, id);
    forall x | x in j && RemovesDestination(codec, d, blobs, j[x]) && d.At(j[x].destination) in d'.links
      ensures d.At(j[x].destination) in ClaimedBy(codec, d', blobs, j')
    {
      var a := j[x];
      RemovedIsThere(codec, d, blobs, a);
      if x == id {
        assert d' == d;
      } else {
        assert d.At(a.staging).name == StagingName(a.hash, x) && d.At(j[id].staging).name == StagingName(j[id].hash, id);
        assert d.At(j[id].destination).name.BlobName?;
        assert d.Has(a.source) ==> d'.Has(a.source);
        StillRemoves(codec, d, d', blobs, a);
        assert x in j' && j'[x] == a;
      }
    }
  }

  // ----- What an attempt has made so far -----

  /** The journal entries of one attempt, by the hash they move; an attempt moves each hash once. */
  type Entries = map<Hash, Artifact>

  /** A location that one of the entries may have filled. */
  predicate Belongs(d: Disk, mine: Entries, l: Path) {
    match l.name
    case BlobName(h) => h in mine && l == d.At(mine[h].destination)
    case StagingName(h, _) => h in mine && l == d.At(mine[h].staging)
    case _ => false
  }

  ghost predicate EntryNamed(h: Hash, a: Artifact) {
    a.hash == h && a.destination.name == BlobName(h) && a.staging.name.StagingName? && a.staging.name.hash == h
  }

  /** What the disk shows of one entry, and what the entry says about it. */
  ghost predicate AttemptOf(codec: Codec, d0: Disk, d: Disk, blobs: map<Hash, BlobRow>, a: Artifact)
    requires d.Valid()
  {
    && Abandoned(blobs, a)
    && (a.stagingOwned ==> !d0.Has(a.staging))
    && (a.finalizedByRename ==> !d0.Has(a.destination))
    && (d.Has(a.staging) && !d0.Has(a.staging) ==> a.stagingOwned)
    && (d.Has(a.destination) && !d0.Has(a.destination) ==>
          a.stagingOwned && OwnsDestination(codec, d, a) && d0.Has(a.source))
  }

  /** `d` has the files of `d0`; everything else on it is on a new inode and belongs to an entry. */
  ghost predicate Grown(d0: Disk, d: Disk, mine: Entries) {
    && d0.Valid() && d.Valid() && d.alias == d0.alias && d0.data <= d.data
    && (forall l :: l in d0.links ==> l in d.links && d.links[l] == d0.links[l])
    && (forall l :: l in d.links && l !in d0.links ==> d.links[l] >= |d0.data| && Belongs(d, mine, l))
  }

  ghost predicate Attempt(codec: Codec, d0: Disk, d: Disk, blobs: map<Hash, BlobRow>, mine: Entries) {
    && Grown(d0, d, mine)
    && (forall h :: h in mine ==> EntryNamed(h, mine[h]) && AttemptOf(codec, d0, d, blobs, mine[h]))
  }

  /** An attempt that owns nothing has left every file as it was. */
  lemma NothingOwnedNothingLeft(codec: Codec, d0: Disk, d: Disk, blobs: map<Hash, BlobRow>)
    requires Attempt(codec, d0, d, blobs, map[])
    ensures d.links == d0.links && d.SameFilesAs(d0)
  {
    assert forall l :: l in d.links ==> l in d0.links;
  }

  /** A destination that the attempt made is removable. */
  lemma MadeIsRemovable(codec: Codec, d0: Disk, d: Disk, blobs: map<Hash, BlobRow>, mine: Entries, h: Hash)
    requires Attempt(codec, d0, d, blobs, mine) && h in mine
    ensures d.Has(mine[h].destination) && !d0.Has(mine[h].destination) ==> RemovesDestination(codec, d, blobs, mine[h])
    ensures RemovesDestination(codec, d, blobs, mine[h]) ==> !d0.Has(mine[h].destination)
  {
    var a := mine[h];
    assert EntryNamed(h, a) && AttemptOf(codec, d0, d, blobs, a);
    if d.Has(a.destination) && !d0.Has(a.destination) {
      assert d.links[d.At(a.source)] < |d0.data| <= d.links[d.At(a.destination)];
    }
    if d0.Has(a.destination) && d.Has(a.staging) && a.stagingOwned {
      assert d.links[d.At(a.staging)] >= |d0.data| > d.links[d.At(a.destination)];
    }
  }

  /**
   An entry whose two places changed does not disturb the others: their places
   are elsewhere, and their inodes keep their bytes.
   */
  lemma OthersUndisturbed(codec: Codec, d0: Disk, d: Disk, d': Disk, blobs: map<Hash, BlobRow>, mine: Entries,
                          h: Hash, g: Hash)
    requires Attempt(codec, d0, d, blobs, mine) && g in mine && g != h
    requires d'.Valid() && d'.alias == d.alias && d.data <= d'.data
    requires forall l: Path :: l.name == BlobName(g) || (l.name.StagingName? && l.name.hash == g) ==>
               (l in d'.links <==> l in d.links) && (l in d.links ==> d'.links[l] == d.links[l])
    ensures AttemptOf(codec, d0, d', blobs, mine[g])
  {
    var a := mine[g];
    assert EntryNamed(g, a) && AttemptOf(codec, d0, d, blobs, a);
    assert d.At(a.destination).name == BlobName(g);
    assert d.At(a.staging).name.StagingName? && d.At(a.staging).name.hash == g;
    assert d.Has(a.destination) <==> d'.Has(a.destination);
    assert d.Has(a.staging) <==> d'.Has(a.staging);
    if d.Has(a.destination) {
      assert d'.Read(a.destination) == d.Read(a.destination);
    }
  }

  /** Only the two places of `a` change: an original file there stays, a new one is on a new inode. */
  ghost predicate StepsAt(d0: Disk, d: Disk, d': Disk, a: Artifact) {
    && d'.Valid() && d'.alias == d.alias && d.data <= d'.data
    && (forall l :: l != d.At(a.staging) && l != d.At(a.destination) ==>
          (l in d'.links <==> l in d.links) && (l in d.links ==> d'.links[l] == d.links[l]))
    && PlaceKept(d0, d', d.At(a.staging)) && PlaceKept(d0, d', d.At(a.destination))
  }

  predicate PlaceKept(d0: Disk, d': Disk, l: Path) {
    if l in d0.links then l in d'.links && d'.links[l] == d0.links[l] else l in d'.links ==> d'.links[l] >= |d0.data|
  }

  lemma GrownStep(d0: Disk, d: Disk, d': Disk, mine: Entries, h: Hash, a: Artifact)
    requires Grown(d0, d, mine) && EntryNamed(h, a) && StepsAt(d0, d, d', a)
    requires h in mine ==> mine[h].destination == a.destination && mine[h].staging == a.staging
    ensures Grown(d0, d', mine[h := a])
  {
    forall l | l in d0.links
      ensures l in d'.links && d'.links[l] == d0.links[l]
    {
      if l != d.At(a.staging) && l != d.At(a.destination) {
        assert l in d.links && d.links[l] == d0.links[l];
      }
    }
    forall l | l in d'.links && l !in d0.links
      ensures d'.links[l] >= |d0.data| && Belongs(d', mine[h := a], l)
    {
      if l != d.At(a.staging) && l != d.At(a.destination) {
        assert l in d.links && d.links[l] >= |d0.data| && Belongs(d, mine, l);
      }
    }
  }

  /** The general step of one entry, first journaled or already known. */
  lemma AttemptStep(codec: Codec, d0: Disk, d: Disk, d': Disk, blobs: map<Hash, BlobRow>, mine: Entries, h: Hash,
                    a: Artifact)
    requires Attempt(codec, d0, d, blobs, mine)
    requires EntryNamed(h, a) && StepsAt(d0, d, d', a)
    requires h in mine ==> mine[h].destination == a.destination && mine[h].staging == a.staging
    requires AttemptOf(codec, d0, d', blobs, a)
    ensures Attempt(codec, d0, d', blobs, mine[h := a])
  {
    GrownStep(d0, d, d', mine, h, a);
    assert d.At(a.staging).name.hash == h && d.At(a.destination).name == BlobName(h);
    var mine' := mine[h := a];
    forall g | g in mine'
      ensures EntryNamed(g, mine'[g]) && AttemptOf(codec, d0, d', blobs, mine'[g])
    {
      if g != h {
        OthersUndisturbed(codec, d0, d, d', blobs, mine, h, g);
      }
    }
  }

  /** The destination goes only when the attempt made it. */
  lemma DestinationRemoved(codec: Codec, d0: Disk, d: Disk, blobs: map<Hash, BlobRow>, mine: Entries, h: Hash)
    requires Attempt(codec, d0, d, blobs, mine) && h in mine
    ensures Attempt(codec, d0, WithoutDestination(codec, d, blobs, mine[h]), blobs, mine)
  {
    var a := mine[h];
    MadeIsRemovable(codec, d0, d, blobs, mine, h);
    assert EntryNamed(h, a) && AttemptOf(codec, d0, d, blobs, a);
    var d' := WithoutDestination(codec, d, blobs, a);
    if d' != d {
      AttemptStep(codec, d0, d, d', blobs, mine, h, a);
      assert mine[h := a] == mine;
    }
  }

  /** After its whole cleanup an entry may leave the journal: nothing on the disk belongs to it. */
  lemma ArtifactRemoved(codec: Codec, d0: Disk, d: Disk, blobs: map<Hash, BlobRow>, mine: Entries, h: Hash)
    requires Attempt(codec, d0, d, blobs, mine) && h in mine
    ensures Attempt(codec, d0, WithoutArtifact(codec, d, blobs, mine[h]), blobs, mine)
    ensures Attempt(codec, d0, WithoutArtifact(codec, d, blobs, mine[h]), blobs, mine - {h})
  {
    var a := mine[h];
    MadeIsRemovable(codec, d0, d, blobs, mine, h);
    assert EntryNamed(h, a) && AttemptOf(codec, d0, d, blobs, a);
    var d' := WithoutArtifact(codec, d, blobs, a);
    assert mine[h := a] == mine;
    AttemptStep(codec, d0, d, d', blobs, mine, h, a);
    assert !d0.Has(a.destination) ==> !d'.Has(a.destination);
    assert !d0.Has(a.staging) ==> !d'.Has(a.staging);
    forall l | l in d'.links && l !in d0.links
      ensures Belongs(d', mine - {h}, l)
    {
      assert Belongs(d', mine, l);
    }
  }

  // ----- The attempt's entries within the whole journal -----

  /** Where an attempt started, and the entries it has journaled since, by hash and artifact id. */
  datatype Ledger = Ledger(disk: Disk, base: Journal, ids: map<Hash, Id>, mine: Entries)

  /** Each entry is the journal row with its id. */
  ghost predicate Entered(artifacts: Journal, ids: map<Hash, Id>, mine: Entries) {
    && ids.Keys == mine.Keys
    && (forall h :: h in mine ==> ids[h] in artifacts && artifacts[ids[h]] == mine[h] && mine[h].hash == h)
  }

  /** The journal has the rows it had, and beyond them the entries' rows only. */
  ghost predicate OnlyAdds(artifacts: Journal, base: Journal, ids: map<Hash, Id>) {
    && artifacts.Keys == base.Keys + ids.Values
    && base.Keys !! ids.Values
    && forall id :: id in base ==> artifacts[id] == base[id]
  }

  ghost predicate Attempting(codec: Codec, t: Ledger, d: Disk, blobs: map<Hash, BlobRow>, artifacts: Journal) {
    && Entered(artifacts, t.ids, t.mine)
    && OnlyAdds(artifacts, t.base, t.ids)
    && Attempt(codec, t.disk, d, blobs, t.mine)
  }

  lemma AttemptStarts(codec: Codec, d: Disk, blobs: map<Hash, BlobRow>, artifacts: Journal)
    requires d.Valid()
    ensures Attempting(codec, Ledger(d, artifacts, map[], map[]), d, blobs, artifacts)
  {
  }

  lemma EnterRow(artifacts: Journal, ids: map<Hash, Id>, mine: Entries, id: Id, a: Artifact)
    requires Entered(artifacts, ids, mine)
    requires if a.hash in ids then ids[a.hash] == id else id !in artifacts
    ensures Entered(artifacts[id := a], ids[a.hash := id], mine[a.hash := a])
  {
    forall h | h in mine && h != a.hash
      ensures ids[h] != id
    {
      assert artifacts[ids[h]].hash == h;
    }
  }

  lemma AddRow(artifacts: Journal, base: Journal, ids: map<Hash, Id>, id: Id, a: Artifact)
    requires OnlyAdds(artifacts, base, ids) && id !in base
    requires a.hash in ids ==> ids[a.hash] == id
    ensures OnlyAdds(artifacts[id := a], base, ids[a.hash := id])
  {
    ValuesWith(ids, a.hash, id);
  }

  lemma ValuesWith(ids: map<Hash, Id>, h: Hash, id: Id)
    requires h in ids ==> ids[h] == id
    ensures ids[h := id].Values == ids.Values + {id}
  {
    var ids' := ids[h := id];
    assert h in ids' && ids'[h] == id;
    assert forall g :: g in ids ==> g in ids' && ids'[g] == ids[g];
  }

  lemma DropRow(artifacts: Journal, base: Journal, ids: map<Hash, Id>, mine: Entries, h: Hash)
    requires Entered(artifacts, ids, mine) && OnlyAdds(artifacts, base, ids) && h in ids
    ensures Entered(artifacts - {ids[h]}, ids - {h}, mine - {h})
    ensures OnlyAdds(artifacts - {ids[h]}, base, ids - {h})
  {
    forall g | g in ids && g != h
      ensures ids[g] != ids[h]
    {
      assert artifacts[ids[g]].hash == g && artifacts[ids[h]].hash == h;
    }
    ValuesWithout(ids, h);
  }

  lemma ValuesWithout(ids: map<Hash, Id>, h: Hash)
    requires h in ids && forall g :: g in ids && g != h ==> ids[g] != ids[h]
    ensures (ids - {h}).Values == ids.Values - {ids[h]}
  {
    var ids' := ids - {h};
    forall v | v in ids.Values && v != ids[h]
      ensures v in ids'.Values
    {
      var g :| g in ids && ids[g] == v;
      assert g in ids' && ids'[g] == v;
    }
  }

  function With(t: Ledger, id: Id, a: Artifact): Ledger {
    t.(ids := t.ids[a.hash := id], mine := t.mine[a.hash := a])
  }

  function Without(t: Ledger, h: Hash): Ledger {
    t.(ids := t.ids - {h}, mine := t.mine - {h})
  }

  /** A step of entry `id`, whose row becomes `a`. */
  lemma Advance(codec: Codec, t: Ledger, d: Disk, d': Disk, blobs: map<Hash, BlobRow>, artifacts: Journal, id: Id,
                a: Artifact)
    requires Attempting(codec, t, d, blobs, artifacts)
    requires id !in t.base && a.destination.name == BlobName(a.hash) && a.staging.name == StagingName(a.hash, id)
    requires if a.hash in t.ids then t.ids[a.hash] == id else id !in artifacts
    requires id in artifacts ==> artifacts[id].destination == a.destination && artifacts[id].staging == a.staging
    requires StepsAt(t.disk, d, d', a) && AttemptOf(codec, t.disk, d', blobs, a)
    ensures Attempting(codec, With(t, id, a), d', blobs, artifacts[id := a])
  {
    EnterRow(artifacts, t.ids, t.mine, id, a);
    AddRow(artifacts, t.base, t.ids, id, a);
    AttemptStep(codec, t.disk, d, d', blobs, t.mine, a.hash, a);
  }

  /** The cleanup of one entry, up to and including the removal of its row. */
  lemma CleanedUp(codec: Codec, t: Ledger, d: Disk, blobs: map<Hash, BlobRow>, artifacts: Journal, h: Hash)
    requires Attempting(codec, t, d, blobs, artifacts) && h in t.mine
    ensures Attempting(codec, t, WithoutDestination(codec, d, blobs, t.mine[h]), blobs, artifacts)
    ensures Attempting(codec, t, WithoutArtifact(codec, d, blobs, t.mine[h]), blobs, artifacts)
    ensures Attempting(codec, Without(t, h), WithoutArtifact(codec, d, blobs, t.mine[h]), blobs, artifacts - {t.ids[h]})
  {
    DropRow(artifacts, t.base, t.ids, t.mine, h);
    DestinationRemoved(codec, t.disk, d, blobs, t.mine, h);
    ArtifactRemoved(codec, t.disk, d, blobs, t.mine, h);
  }

  /** The ledger after a cleanup of the entry of `h` that ended with journal `j`. */
  function Settled(t: Ledger, j: Journal, h: Hash): Ledger {
    if h in t.ids && t.ids[h] !in j then Without(t, h) else t
  }

  lemma CleanupTracked(codec: Codec, t: Ledger, d0: Disk, d: Disk, blobs: map<Hash, BlobRow>, j0: Journal,
                       j: Journal, h: Hash)
    requires Attempting(codec, t, d0, blobs, j0) && h in t.ids
    requires
      || d == d0
      || d == WithoutDestination(codec, d0, blobs, j0[t.ids[h]])
      || d == WithoutArtifact(codec, d0, blobs, j0[t.ids[h]])
    requires j == j0 || (j == j0 - {t.ids[h]} && d == WithoutArtifact(codec, d0, blobs, j0[t.ids[h]]))
    ensures Attempting(codec, Settled(t, j, h), d, blobs, j)
  {
    hide Attempt, AttemptOf, OnlyAdds, WithoutDestination, WithoutArtifact;
    CleanedUp(codec, t, d0, blobs, j0, h);
  }

  // ----- The effects of one attempt, in the order in which it makes them -----

  /** A row is journaled, claimed, disclaimed or marked while neither of its places has a file. */
  lemma RowWritten(codec: Codec, t: Ledger, d: Disk, blobs: map<Hash, BlobRow>, artifacts: Journal, id: Id, a: Artifact)
    requires Attempting(codec, t, d, blobs, artifacts)
    requires id !in t.base && a.destination.name == BlobName(a.hash) && a.staging.name == StagingName(a.hash, id)
    requires if a.hash in t.ids then t.ids[a.hash] == id else id !in artifacts
    requires id in artifacts ==> artifacts[id].destination == a.destination && artifacts[id].staging == a.staging
    requires Abandoned(blobs, a) && !d.Has(a.destination)
    requires d.Has(a.staging) ==> a.stagingOwned && !t.disk.Has(a.staging)
    ensures Attempting(codec, With(t, id, a), d, blobs, artifacts[id := a])
  {
    Advance(codec, t, d, d, blobs, artifacts, id, a);
  }

  /** A new row that claims nothing yet may find any files at its places. */
  lemma RowReserved(codec: Codec, t: Ledger, d: Disk, blobs: map<Hash, BlobRow>, artifacts: Journal, id: Id, a: Artifact)
    requires Attempting(codec, t, d, blobs, artifacts)
    requires id !in artifacts && a.hash !in t.mine
    requires a.destination.name == BlobName(a.hash) && a.staging.name == StagingName(a.hash, id)
    requires Abandoned(blobs, a) && !a.stagingOwned && !a.finalizedByRename
    ensures Attempting(codec, With(t, id, a), d, blobs, artifacts[id := a])
    ensures d.Has(a.destination) ==> t.disk.Has(a.destination)
    ensures d.Has(a.staging) ==> t.disk.Has(a.staging)
  {
    forall l | (l == d.At(a.staging) || l == d.At(a.destination)) && l in d.links
      ensures l in t.disk.links
    {
      assert l !in t.disk.links ==> Belongs(d, t.mine, l);
    }
    Advance(codec, t, d, d, blobs, artifacts, id, a);
  }

  /** The stage is filled, wholly or in part, on a new inode. */
  lemma Staged(codec: Codec, d0: Disk, d: Disk, blobs: map<Hash, BlobRow>, mine: Entries, h: Hash, bytes: Bytes)
    requires Attempt(codec, d0, d, blobs, mine) && h in mine && mine[h].stagingOwned
    requires !d.Has(mine[h].destination)
    ensures Attempt(codec, d0, d.Put(mine[h].staging, bytes), blobs, mine)
  {
    EffectOf(codec, d0, d, d.Put(mine[h].staging, bytes), blobs, mine, h);
  }

  lemma Unstaged(codec: Codec, d0: Disk, d: Disk, blobs: map<Hash, BlobRow>, mine: Entries, h: Hash)
    requires Attempt(codec, d0, d, blobs, mine) && h in mine && mine[h].stagingOwned
    requires !d.Has(mine[h].destination)
    ensures Attempt(codec, d0, d.Unlink(mine[h].staging), blobs, mine)
  {
    EffectOf(codec, d0, d, d.Unlink(mine[h].staging), blobs, mine, h);
  }

  /** The destination appears as a second link to the stage. */
  lemma Linked(codec: Codec, d0: Disk, d: Disk, blobs: map<Hash, BlobRow>, mine: Entries, h: Hash)
    requires Attempt(codec, d0, d, blobs, mine) && h in mine && mine[h].stagingOwned
    requires d.Has(mine[h].staging) && !d.Has(mine[h].destination) && d0.Has(mine[h].source)
    ensures Attempt(codec, d0, d.Link(mine[h].staging, mine[h].destination), blobs, mine)
  {
    EffectOf(codec, d0, d, d.Link(mine[h].staging, mine[h].destination), blobs, mine, h);
  }

  /** The stage becomes the destination, after the journal said that it would. */
  lemma Renamed(codec: Codec, d0: Disk, d: Disk, blobs: map<Hash, BlobRow>, mine: Entries, h: Hash)
    requires Attempt(codec, d0, d, blobs, mine) && h in mine
    requires mine[h].stagingOwned && mine[h].finalizedByRename
    requires d.Verified(codec, mine[h].staging, h, mine[h].size)
    requires !d.Has(mine[h].destination) && d0.Has(mine[h].source)
    ensures Attempt(codec, d0, d.Move(mine[h].staging, mine[h].destination), blobs, mine)
  {
    EffectOf(codec, d0, d, d.Move(mine[h].staging, mine[h].destination), blobs, mine, h);
  }

  /** The source of an entry without a destination is a file from before the attempt. */
  lemma SourceIsOld(codec: Codec, d0: Disk, d: Disk, blobs: map<Hash, BlobRow>, mine: Entries, h: Hash)
    requires Attempt(codec, d0, d, blobs, mine) && BlobsNamed(blobs)
    requires h in mine && !d.Has(mine[h].destination) && d.Has(mine[h].source)
    ensures d0.Has(mine[h].source)
  {
    assert EntryNamed(h, mine[h]) && AttemptOf(codec, d0, d, blobs, mine[h]);
  }

  lemma AttemptGrows(codec: Codec, t: Ledger, d: Disk, blobs: map<Hash, BlobRow>, artifacts: Journal)
    requires Attempting(codec, t, d, blobs, artifacts)
    ensures d.alias == t.disk.alias && t.disk.Valid() && d.Valid()
  {
  }

  lemma LedgerFacts(codec: Codec, t: Ledger, d: Disk, blobs: map<Hash, BlobRow>, artifacts: Journal, h: Hash)
    requires Attempting(codec, t, d, blobs, artifacts)
    ensures t.base.Keys <= artifacts.Keys && t.ids.Keys == t.mine.Keys
    ensures h in t.ids ==> t.ids[h] in artifacts && t.ids[h] !in t.base && artifacts[t.ids[h]] == t.mine[h] && t.mine[h].hash == h
    ensures artifacts.Keys == t.base.Keys + t.ids.Values
  {
  }

  /** A row that was not there before the attempt is an entry of it. */
  lemma HashOfEntry(codec: Codec, t: Ledger, d: Disk, blobs: map<Hash, BlobRow>, artifacts: Journal,
                    id: Id) returns (h: Hash)
    requires Attempting(codec, t, d, blobs, artifacts) && id in artifacts && id !in t.base
    ensures h in t.ids && t.ids[h] == id
  {
    assert id in t.ids.Values;
    h :| h in t.ids && t.ids[h] == id;
  }

  lemma EntryFacts(codec: Codec, d0: Disk, d: Disk, blobs: map<Hash, BlobRow>, mine: Entries, h: Hash)
    requires Attempt(codec, d0, d, blobs, mine) && h in mine
    ensures EntryNamed(h, mine[h]) && Abandoned(blobs, mine[h])
    ensures d.Has(mine[h].staging) && mine[h].stagingOwned ==> !d0.Has(mine[h].staging)
    ensures d0.Has(mine[h].staging) ==> d.Has(mine[h].staging)
  {
  }

  /** An effect on the places of `h` alone, where neither place belonged to the disk before the attempt. */
  lemma EffectOf(codec: Codec, d0: Disk, d: Disk, d': Disk, blobs: map<Hash, BlobRow>, mine: Entries, h: Hash)
    requires Attempt(codec, d0, d, blobs, mine) && h in mine && mine[h].stagingOwned && !d.Has(mine[h].destination)
    requires d'.Valid() && d'.alias == d.alias && d.data <= d'.data
    requires forall l :: l != d.At(mine[h].staging) && l != d.At(mine[h].destination) ==>
               (l in d'.links <==> l in d.links) && (l in d.links ==> d'.links[l] == d.links[l])
    requires d'.Has(mine[h].staging) ==>
               d'.links[d.At(mine[h].staging)] >= |d.data| || (d.Has(mine[h].staging) && d'.SameLink(d, mine[h].staging, mine[h].staging))
    requires d'.Has(mine[h].destination) ==>
               d.Has(mine[h].staging) && d'.SameLink(d, mine[h].destination, mine[h].staging)
               && OwnsDestination(codec, d', mine[h]) && d0.Has(mine[h].source)
    ensures Attempt(codec, d0, d', blobs, mine)
  {
    var a := mine[h];
    assert EntryNamed(h, a) && AttemptOf(codec, d0, d, blobs, a);
    assert !d0.Has(a.destination);
    AttemptStep(codec, d0, d, d', blobs, mine, h, a);
    assert mine[h := a] == mine;
  }

  /** What an attempt adds to the disk it claims, and what earlier rows claimed they still do. */
  lemma AttemptClaims(codec: Codec, t: Ledger, d: Disk, blobs: map<Hash, BlobRow>, artifacts: Journal)
    requires Attempting(codec, t, d, blobs, artifacts) && JournalNamed(artifacts)
    ensures forall l :: l in d.links && l !in t.disk.links && l.name.BlobName? ==> l in ClaimedBy(codec, d, blobs, artifacts)
    ensures ClaimedBy(codec, t.disk, blobs, t.base) <= ClaimedBy(codec, d, blobs, artifacts)
  {
    forall l | l in d.links && l !in t.disk.links && l.name.BlobName?
      ensures l in ClaimedBy(codec, d, blobs, artifacts)
    {
      assert Belongs(d, t.mine, l);
      var h := l.name.hash;
      MadeIsRemovable(codec, t.disk, d, blobs, t.mine, h);
      LedgerFacts(codec, t, d, blobs, artifacts, h);
      assert artifacts[t.ids[h]] == t.mine[h];
    }
    forall id | id in t.base && RemovesDestination(codec, t.disk, blobs, t.base[id])
      ensures d.At(t.base[id].destination) in ClaimedBy(codec, d, blobs, artifacts)
    {
      BaseStillClaims(codec, t, d, blobs, artifacts, id);
    }
  }

  /** A stage that the attempt made has the id of one of its own rows. */
  lemma NewStagesAreMine(codec: Codec, t: Ledger, d: Disk, blobs: map<Hash, BlobRow>, artifacts: Journal)
    requires Attempting(codec, t, d, blobs, artifacts) && JournalNamed(artifacts)
    ensures forall l :: l in d.links && l !in t.disk.links && l.name.StagingName? ==> l.name.id !in t.base
  {
    forall l | l in d.links && l !in t.disk.links && l.name.StagingName?
      ensures l.name.id !in t.base
    {
      assert Belongs(d, t.mine, l);
      LedgerFacts(codec, t, d, blobs, artifacts, l.name.hash);
    }
  }

  lemma BaseStillClaims(codec: Codec, t: Ledger, d: Disk, blobs: map<Hash, BlobRow>, artifacts: Journal, id: Id)
    requires Attempting(codec, t, d, blobs, artifacts) && JournalNamed(artifacts)
    requires id in t.base && RemovesDestination(codec, t.disk, blobs, t.base[id])
    ensures id in artifacts && artifacts[id] == t.base[id] && RemovesDestination(codec, d, blobs, artifacts[id])
  {
    var a := t.base[id];
    RemovedIsThere(codec, t.disk, blobs, a);
    assert id in artifacts && artifacts[id] == a;
    NewStagesAreMine(codec, t, d, blobs, artifacts);
    assert d.At(a.staging).name == StagingName(a.hash, id);
    StillRemoves(codec, t.disk, d, blobs, a);
  }

  // ----- Recovery beside an attempt -----

  /** The files and the journal, as recovery finds and leaves them. */
  datatype Stage = Stage(disk: Disk, journal: Journal)

  /** The cleanup of one row, as far as it got. */
  ghost predicate CleansRow(codec: Codec, blobs: map<Hash, BlobRow>, u: Stage, v: Stage, id: Id) {
    && u.disk.Valid() && id in u.journal
    && (v.disk == u.disk || v.disk == WithoutDestination(codec, u.disk, blobs, u.journal[id])
        || v.disk == WithoutArtifact(codec, u.disk, blobs, u.journal[id]))
    && (v.journal == u.journal
        || (v.journal == u.journal - {id} && v.disk == WithoutArtifact(codec, u.disk, blobs, u.journal[id])))
  }

  ghost predicate RecoveryStep(codec: Codec, blobs: map<Hash, BlobRow>, u: Stage, v: Stage) {
    v == u || exists id :: CleansRow(codec, blobs, u, v, id)
  }

  /** Cleanups of rows in any order, interrupted and repeated in any way. */
  ghost predicate RecoveryRun(codec: Codec, blobs: map<Hash, BlobRow>, run: seq<Stage>) {
    |run| > 0 && forall i :: 0 <= i < |run| - 1 ==> RecoveryStep(codec, blobs, run[i], run[i + 1])
  }

  lemma RunGoesOn(codec: Codec, blobs: map<Hash, BlobRow>, run: seq<Stage>, v: Stage)
    requires RecoveryRun(codec, blobs, run) && RecoveryStep(codec, blobs, run[|run| - 1], v)
    ensures RecoveryRun(codec, blobs, run + [v])
  {
  }

  /** Where the ledger says that the attempt started. */
  function StartOf(t: Ledger): Stage {
    Stage(t.disk, t.base)
  }

  /** Whatever is indexed, a row from before the attempt removes from among the older files what it would have removed without it. */
  lemma BaseRowRemoves(codec: Codec, t: Ledger, d: Disk, blobs: map<Hash, BlobRow>, artifacts: Journal, id: Id,
                       index: map<Hash, BlobRow>)
    requires Attempting(codec, t, d, blobs, artifacts) && JournalNamed(artifacts) && id in t.base
    ensures id in artifacts && artifacts[id] == t.base[id]
    ensures t.disk.Has(t.base[id].destination) ==>
      (RemovesDestination(codec, t.disk, index, t.base[id]) <==> RemovesDestination(codec, d, index, t.base[id]))
    ensures RemovesDestination(codec, t.disk, index, t.base[id]) ==> t.disk.Has(t.base[id].destination)
    ensures d.At(t.base[id].staging) in d.links ==> d.At(t.base[id].staging) in t.disk.links
    ensures d.alias == t.disk.alias && t.disk.links.Keys <= d.links.Keys
  {
    var a := t.base[id];
    assert id in artifacts && artifacts[id] == a;
    NewStagesAreMine(codec, t, d, blobs, artifacts);
    assert d.At(a.staging).name == StagingName(a.hash, id);
    if t.disk.Has(a.destination) {
      assert d.Read(a.destination) == t.disk.Read(a.destination);
      assert d.SameFile(a.staging, a.destination) <==> t.disk.SameFile(a.staging, a.destination);
      assert d.SameFile(a.source, a.destination) <==> t.disk.SameFile(a.source, a.destination);
    }
  }

  /** The same older files went from both disks, and no other stage than `stage`. */
  ghost predicate LosesAlike(d0: Disk, d0': Disk, d: Disk, d': Disk, stage: Path) {
    && d0'.data == d0.data && OnlyShrinks(d0, d0') && d0'.alias == d0.alias
    && d'.data == d.data && OnlyShrinks(d, d') && d'.alias == d.alias
    && (forall l :: l in d0.links ==> (l in d0'.links <==> l in d'.links))
    && (forall l :: l in d.links && l.name.StagingName? && l !in d'.links ==> l == stage)
  }

  lemma CleanupLosesAlike(codec: Codec, d0: Disk, d: Disk, blobs: map<Hash, BlobRow>, a: Artifact)
    requires d0.Valid() && d.Valid() && d.alias == d0.alias && d0.links.Keys <= d.links.Keys
    requires a.destination.name.BlobName? && a.staging.name.StagingName?
    requires d0.Has(a.destination) ==> (RemovesDestination(codec, d0, blobs, a) <==> RemovesDestination(codec, d, blobs, a))
    ensures LosesAlike(d0, WithoutDestination(codec, d0, blobs, a), d, WithoutDestination(codec, d, blobs, a), d.At(a.staging))
    ensures LosesAlike(d0, WithoutArtifact(codec, d0, blobs, a), d, WithoutArtifact(codec, d, blobs, a), d.At(a.staging))
  {
  }

  /** The disks with and without the attempt lose the same older files, and an entry's places at most. */
  lemma AttemptOverCleanup(codec: Codec, d0: Disk, d0': Disk, d: Disk, d': Disk, blobs: map<Hash, BlobRow>, mine: Entries,
                         stage: Path)
    requires Attempt(codec, d0, d, blobs, mine) && KeepsIndexed(d0, d0', blobs) && LosesAlike(d0, d0', d, d', stage)
    requires stage in d.links ==> stage in d0.links
    requires forall h :: h in mine ==> d.At(mine[h].staging) != stage
    ensures Attempt(codec, d0', d', blobs, mine)
  {
    forall h | h in mine
      ensures EntryNamed(h, mine[h]) && AttemptOf(codec, d0', d', blobs, mine[h])
    {
      var a := mine[h];
      assert EntryNamed(h, a) && AttemptOf(codec, d0, d, blobs, a);
      assert d.At(a.staging).name.StagingName?;
      if d'.Has(a.destination) && !d0'.Has(a.destination) {
        assert d.Has(a.destination) && !d0.Has(a.destination);
        assert d'.Read(a.destination) == d.Read(a.destination);
        assert d.Has(a.staging) <==> d'.Has(a.staging);
      }
    }
    assert forall l :: l in d'.links && Belongs(d, mine, l) ==> Belongs(d', mine, l);
  }

  /** Cleaning up an older row, however far it gets, is the same step of recovery where the attempt started. */
  lemma BaseRowCleaned(codec: Codec, t: Ledger, d: Disk, blobs: map<Hash, BlobRow>, artifacts: Journal, id: Id)
    requires Attempting(codec, t, d, blobs, artifacts) && JournalNamed(artifacts) && BlobsNamed(blobs) && id in t.base
    ensures id in artifacts && artifacts[id] == t.base[id]
    ensures Attempting(codec, t.(disk := WithoutDestination(codec, t.disk, blobs, t.base[id])),
                       WithoutDestination(codec, d, blobs, t.base[id]), blobs, artifacts)
    ensures Attempting(codec, t.(disk := WithoutArtifact(codec, t.disk, blobs, t.base[id])),
                       WithoutArtifact(codec, d, blobs, t.base[id]), blobs, artifacts)
    ensures Attempting(codec, t.(disk := WithoutArtifact(codec, t.disk, blobs, t.base[id]), base := t.base - {id}),
                       WithoutArtifact(codec, d, blobs, t.base[id]), blobs, artifacts - {id})
  {
    var a := t.base[id];
    BaseRowRemoves(codec, t, d, blobs, artifacts, id, blobs);
    StagesApart(codec, t, d, blobs, artifacts, id);
    DropBaseRow(artifacts, t.base, t.ids, t.mine, id);
    CleanupKeepsIndexed(codec, t.disk, blobs, t.base, id);
    CleanupLosesAlike(codec, t.disk, d, blobs, a);
    hide Attempt, RemovesDestination, Entered, OnlyAdds, LosesAlike, WithoutDestination, WithoutArtifact, KeepsIndexed;
    AttemptOverCleanup(codec, t.disk, WithoutDestination(codec, t.disk, blobs, a), d, WithoutDestination(codec, d, blobs, a),
                       blobs, t.mine, d.At(a.staging));
    AttemptOverCleanup(codec, t.disk, WithoutArtifact(codec, t.disk, blobs, a), d, WithoutArtifact(codec, d, blobs, a),
                       blobs, t.mine, d.At(a.staging));
  }

  lemma StagesApart(codec: Codec, t: Ledger, d: Disk, blobs: map<Hash, BlobRow>, artifacts: Journal, id: Id)
    requires Attempting(codec, t, d, blobs, artifacts) && JournalNamed(artifacts) && id in t.base
    ensures forall h :: h in t.mine ==> d.At(t.mine[h].staging) != d.At(t.base[id].staging)
    ensures JournalNamed(t.base)
  {
    forall h | h in t.mine
      ensures d.At(t.mine[h].staging) != d.At(t.base[id].staging)
    {
      assert artifacts[t.ids[h]] == t.mine[h] && t.ids[h] in t.ids.Values;
      assert d.At(t.mine[h].staging).name == StagingName(h, t.ids[h]);
      assert d.At(t.base[id].staging).name == StagingName(t.base[id].hash, id);
    }
  }

  lemma DropBaseRow(artifacts: Journal, base: Journal, ids: map<Hash, Id>, mine: Entries, id: Id)
    requires Entered(artifacts, ids, mine) && OnlyAdds(artifacts, base, ids) && id in base
    ensures Entered(artifacts - {id}, ids, mine) && OnlyAdds(artifacts - {id}, base - {id}, ids)
  {
    assert forall h :: h in ids ==> ids[h] in ids.Values;
  }
}
