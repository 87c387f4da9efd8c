/**
 The SQLite index over the blob files: its tables, its single-transaction
 statements, and the collection of blobs that no snapshot mentions.

 A statement or transaction either commits or leaves the tables alone.  A call
 that ends with `Failed` returned an error; one that ends with `Crashed` stopped
 after an arbitrary prefix of its effects.  A nondeterministic choice decides
 before every effect whether it fails and whether the process dies there.
 */
module BlobStore {
  import opened Files
  import opened Snapshots

  datatype BlobRow = BlobRow(path: Path, size: nat, uploadedTo: string)

  datatype PendingKey = PendingKey(source: Path, root: Dir, hash: Hash)
  datatype PendingValue = PendingValue(replacement: Path, size: nat)
  type PendingTable = map<PendingKey, PendingValue>

  datatype Artifact = Artifact(
    hash: Hash,
    source: Path,
    root: Dir,
    destination: Path,
    staging: Path,
    size: nat,
    stagingOwned: bool,
    finalizedByRename: bool,
    committed: bool)
  type Journal = map<Id, Artifact>

  /** `snapshot_blobs` lists exactly the hashes of the stored manifests. */
  ghost predicate RefsExact(snapshots: map<string, Snapshot>, refs: set<(string, Hash)>) {
    forall id, h :: (id, h) in refs <==> id in snapshots && h in HashesOf(snapshots[id])
  }

  predicate Referenced(refs: set<(string, Hash)>, h: Hash) {
    exists r :: r in refs && r.1 == h
  }

  ghost predicate BlobsNamed(blobs: map<Hash, BlobRow>) {
    forall h :: h in blobs ==> blobs[h].path.name == BlobName(h)
  }

  ghost predicate JournalNamed(artifacts: Journal) {
    forall id :: id in artifacts ==>
      && artifacts[id].destination.name == BlobName(artifacts[id].hash)
      && artifacts[id].staging.name == StagingName(artifacts[id].hash, id)
  }

  /** Each row leads to the place that its root gives its hash. */
  ghost predicate Canonical(p: PendingTable) {
    forall k :: k in p ==> p[k].replacement == BlobPath(k.root, k.hash)
  }

  /** Where no two contents share a digest, every content with this one is so long. */
  ghost predicate TrueSize(codec: Codec, h: Hash, size: nat) {
    codec.CollisionFree() ==> forall content :: codec.sha(content) == h ==> |content| == size
  }

  ghost predicate TableSized(codec: Codec, pending: PendingTable) {
    forall k :: k in pending ==> TrueSize(codec, k.hash, pending[k].size)
  }

  /** Every size in the tables is that of the content. */
  ghost predicate SizesTrue(codec: Codec, blobs: map<Hash, BlobRow>, pending: PendingTable, artifacts: Journal) {
    && (forall h :: h in blobs ==> TrueSize(codec, h, blobs[h].size))
    && TableSized(codec, pending)
    && (forall id :: id in artifacts ==> TrueSize(codec, artifacts[id].hash, artifacts[id].size))
  }

  /** One content shows the size of its digest. */
  lemma ContentShowsSize(codec: Codec, content: Bytes)
    ensures TrueSize(codec, codec.sha(content), |content|)
  {
  }

  /** A blob file verifies under the true size of its hash. */
  lemma TrueSizeVerifies(codec: Codec, d: Disk, p: Path, h: Hash, size: nat)
    requires codec.CollisionFree() && d.Valid() && Trusted(codec, d) && p.name == BlobName(h) && d.Has(p) && TrueSize(codec, h, size)
    ensures d.Verified(codec, p, h, size)
  {
    assert d.At(p).name == BlobName(h);
  }

  /** The row that indexing a hash gives it: a known hash keeps its upload mark. */
  function RowFor(blobs: map<Hash, BlobRow>, h: Hash, path: Path, size: nat): BlobRow {
    BlobRow(path, size, if h in blobs then blobs[h].uploadedTo else "")
  }

  lemma IndexingKeeps(codec: Codec, blobs: map<Hash, BlobRow>, pending: PendingTable, artifacts: Journal, h: Hash, row: BlobRow)
    requires BlobsNamed(blobs) && row.path.name == BlobName(h)
    requires SizesTrue(codec, blobs, pending, artifacts) && TrueSize(codec, h, row.size)
    ensures BlobsNamed(blobs[h := row]) && SizesTrue(codec, blobs[h := row], pending, artifacts)
  {
  }

  lemma RowKeepsSizes(codec: Codec, blobs: map<Hash, BlobRow>, pending: PendingTable, artifacts: Journal, id: Id, a: Artifact)
    requires SizesTrue(codec, blobs, pending, artifacts)
    requires (id in artifacts && a.hash == artifacts[id].hash && a.size == artifacts[id].size)
          || (a.hash in blobs && a.size == blobs[a.hash].size)
    ensures SizesTrue(codec, blobs, pending, artifacts[id := a])
  {
  }

  lemma FewerRowsKeepSizes(codec: Codec, blobs: map<Hash, BlobRow>, pending: PendingTable, artifacts: Journal, id: Id)
    requires SizesTrue(codec, blobs, pending, artifacts)
    ensures SizesTrue(codec, blobs, pending, artifacts - {id})
  {
  }

  /** The hashes that the snapshots made on this device still need. */
  ghost function Needed(snapshots: map<string, Snapshot>, created: set<string>): set<Hash> {
    set id, h | id in created && id in snapshots && h in HashesOf(snapshots[id]) :: h
  }

  /** Each of the hashes is indexed at a path that has a file. */
  ghost predicate AllPresent(d: Disk, blobs: map<Hash, BlobRow>, hashes: set<Hash>) {
    forall h :: h in hashes ==> h in blobs && d.Has(blobs[h].path)
  }

  class Store {
    const codec: Codec
    var disk: Disk
    var blobs: map<Hash, BlobRow>
    var snapshots: map<string, Snapshot>
    var refs: set<(string, Hash)>
    var pending: PendingTable
    var artifacts: Journal
    ghost var faults: nat                    // how many operations have failed
    ghost var created: set<string>           // ids that SaveSnapshot inserted and nothing replaced
    ghost var history: set<(Hash, Path)>     // the paths that hashes were indexed at, but for switches taken back

    ghost predicate Valid()
      reads this
    {
      && disk.Valid()
      && Trusted(codec, disk)
      && BlobsNamed(blobs)
      && JournalNamed(artifacts)
      && Canonical(pending)
      && SizesTrue(codec, blobs, pending, artifacts)
      && RefsExact(snapshots, refs)
      && created <= snapshots.Keys
    }

    /** Blob safety: what local snapshots need is indexed at a file that decodes to it. */
    ghost predicate Safe()
      reads this
    {
      && Valid()
      && AllPresent(disk, blobs, Needed(snapshots, created))
    }

    constructor (codec: Codec, disk: Disk)
      requires disk.Valid() && Trusted(codec, disk)
      ensures Safe() && this.codec == codec && this.disk == disk
      ensures blobs == map[] && snapshots == map[] && pending == map[] && artifacts == map[]
    {
      this.codec, this.disk := codec, disk;
      blobs, snapshots, refs, pending, artifacts := map[], map[], {}, map[], map[];
      created, history, faults := {}, {}, 0;
    }

    /** Upsert by hash.  A known hash keeps its upload mark. */
    method SaveBlob(h: Hash, path: Path, size: nat) returns (o: Outcome)
      modifies this`blobs, this`history, this`faults
      ensures o.Done? || o.Failed?
      ensures faults == old(faults) + if o.Failed? then 1 else 0
      ensures o.Failed? ==> blobs == old(blobs) && history == old(history)
      ensures o.Done? ==> history == old(history) + {(h, path)}
      ensures o.Done? ==>
        blobs == old(blobs)[h := BlobRow(path, size, if h in old(blobs) then old(blobs)[h].uploadedTo else "")]
    {
      if * {
        faults := faults + 1;
        return Failed;
      }
      blobs := blobs[h := BlobRow(path, size, if h in blobs then blobs[h].uploadedTo else "")];
      history := history + {(h, path)};
      return Done;
    }

    method MarkBlobUploaded(h: Hash, target: string) returns (o: Outcome)
      modifies this`blobs, this`faults
      ensures o.Done? || o.Failed?
      ensures faults == old(faults) + if o.Failed? then 1 else 0
      ensures o.Failed? ==> blobs == old(blobs)
      ensures o.Done? ==> blobs == if h in old(blobs) then old(blobs)[h := old(blobs)[h].(uploadedTo := target)] else old(blobs)
    {
      if * {
        faults := faults + 1;
        return Failed;
      }
      if h in blobs {
        blobs := blobs[h := blobs[h].(uploadedTo := target)];
      }
      return Done;
    }

    /** The reference rows of one manifest, skipping hashes already seen. */
    method InsertBlobRefs(s: Snapshot, before: set<(string, Hash)>) returns (after: set<(string, Hash)>)
      ensures forall r :: r in after <==> r in before || (r.0 == s.id && r.1 in HashesOf(s))
    {
      after := before;
      var seen: set<Hash> := {};
      for i := 0 to |s.files|
        invariant seen == set j | 0 <= j < i :: s.files[j].hash
        invariant forall r :: r in after <==> r in before || (r.0 == s.id && r.1 in seen)
      {
        var h := s.files[i].hash;
        if h !in seen {
          seen := seen + {h};
          after := after + {(s.id, h)};
        }
      }
      assert seen == set f | f in s.files :: f.hash;
      if s.registry.Some? && s.registry.value.hash !in seen {
        after := after + {(s.id, s.registry.value.hash)};
      }
    }

    /** One transaction.  The primary key refuses an id that is already stored. */
    method SaveSnapshot(s: Snapshot) returns (o: Outcome)
      requires Valid()
      modifies this`snapshots, this`refs, this`created, this`faults
      ensures Valid() && (o.Done? || o.Failed?)
      ensures s.id in old(snapshots) ==> o.Failed?
      ensures faults >= old(faults) && (o.Failed? && s.id !in old(snapshots) ==> faults > old(faults))
      ensures o.Failed? ==> snapshots == old(snapshots) && created == old(created)
      ensures o.Done? ==> snapshots == old(snapshots)[s.id := s] && created == old(created) + {s.id}
    {
      if * {
        faults := faults + 1;
        return Failed;
      }
      if s.id in snapshots {
        return Failed;
      }
      assert forall h :: (s.id, h) !in refs;
      var rows := InsertBlobRefs(s, refs);
      snapshots, refs, created := snapshots[s.id := s], rows, created + {s.id};
      return Done;
    }

    /** One transaction.  A stored id takes over the imported manifest and its references. */
    method ImportSnapshot(imported: Snapshot) returns (o: Outcome)
      requires Valid()
      modifies this`snapshots, this`refs, this`created, this`faults
      ensures Valid() && (o.Done? || o.Failed?)
      ensures faults == old(faults) + if o.Failed? then 1 else 0
      ensures o.Failed? ==> snapshots == old(snapshots) && created == old(created)
      ensures o.Done? ==> snapshots == old(snapshots)[imported.id := imported.(synced := true)]
      ensures o.Done? ==> created == old(created) - {imported.id}
    {
      if * {
        faults := faults + 1;
        return Failed;
      }
      var s := imported.(synced := true);
      var kept := set r | r in refs && r.0 != s.id;
      var rows := InsertBlobRefs(s, kept);
      assert HashesOf(s) == HashesOf(imported);
      snapshots, refs, created := snapshots[s.id := s], rows, created - {s.id};
      return Done;
    }

    /** Rewrites the manifest with a new remote state; its references stand. */
    method MarkSnapshotRemote(id: string, synced: bool) returns (o: Outcome)
      requires Valid()
      modifies this`snapshots, this`faults
      ensures Valid() && (o.Done? || o.Failed?)
      ensures id !in old(snapshots) ==> o.Failed?
      ensures faults >= old(faults) && (o.Failed? && id in old(snapshots) ==> faults > old(faults))
      ensures o.Failed? ==> snapshots == old(snapshots)
      ensures o.Done? ==> snapshots == old(snapshots)[id := old(snapshots)[id].(synced := synced)]
      ensures Needed(snapshots, created) == Needed(old(snapshots), created)
    {
      if * {
        faults := faults + 1;
        return Failed;
      }
      if id !in snapshots {
        return Failed;
      }
      assert HashesOf(snapshots[id].(synced := synced)) == HashesOf(snapshots[id]);
      snapshots := snapshots[id := snapshots[id].(synced := synced)];
      return Done;
    }

    /**
     Removes the file and then the row of a blob that nothing references; a blob
     that gained a reference since the caller listed it is left alone.  The row
     outlives a file whose removal fails.
     */
    method RemoveOrphanBlob(h: Hash, path: Path) returns (o: Outcome)
      requires Valid() && path.name == BlobName(h)
      modifies this`disk, this`blobs, this`faults
      ensures Valid()
      ensures disk == old(disk) || disk == old(disk).Unlink(path)
      ensures blobs == old(blobs) || (blobs == old(blobs) - {h} && disk == old(disk).Unlink(path))
      ensures h !in old(blobs) || Referenced(refs, h) ==> disk == old(disk) && blobs == old(blobs)
      ensures o.Done? && !Referenced(refs, h) ==> h !in blobs
      ensures o.Done? && h in old(blobs) && !Referenced(refs, h) ==> disk == old(disk).Unlink(path)
      ensures faults >= old(faults) && (o.Failed? ==> faults > old(faults))
    {
      if * {
        faults := faults + 1;
        return Failed;
      }
      if h !in blobs || Referenced(refs, h) {
        return Done;
      }
      if * {
        faults := faults + 1;
        return Failed;
      }
      disk := disk.Unlink(path);
      if * {
        return Crashed;
      }
      if * {
        faults := faults + 1;
        return Failed;
      }
      blobs := blobs - {h};
      return Done;
    }

    /** Removes every listed orphan; one failure does not stop the others. */
    method SweepOrphans(orphans: set<Hash>) returns (o: Outcome)
      requires Valid()
      requires forall h :: h in orphans ==> h in blobs && !Referenced(refs, h)
      modifies this`disk, this`blobs, this`faults
      ensures Valid()
      ensures OnlyOrphansGone(old(disk), old(blobs), disk, blobs, orphans)
      ensures o.Done? ==> forall h :: h in orphans ==> h !in blobs && !disk.Has(old(blobs)[h].path)
      ensures faults >= old(faults) && (o.Failed? ==> faults > old(faults))
    {
      var listed := blobs;
      ghost var before := disk;
      var todo, done := orphans, {};
      var failed := false;
      while todo != {}
        invariant Valid() && orphans == todo + done
        invariant OnlyOrphansGone(before, listed, disk, blobs, done)
        invariant !failed ==> forall h :: h in done ==> h !in blobs && !disk.Has(listed[h].path)
        invariant faults >= old(faults) && (failed ==> faults > old(faults))
        decreases todo
      {
        var h :| h in todo;
        if * {
          return Crashed;
        }
        ghost var disk0, blobs0 := disk, blobs;
        var r := RemoveOrphanBlob(h, listed[h].path);
        OneMoreOrphanGone(before, listed, disk0, blobs0, disk, blobs, done, h);
        failed := failed || r.Failed?;
        todo, done := todo - {h}, done + {h};
        if r.Crashed? {
          return Crashed;
        }
      }
      return if failed then Failed else Done;
    }

    /**
     Deletes one manifest, then sweeps every blob that no manifest mentions,
     including leftovers of aborted creates and of earlier failed removals.
     */
    method DeleteSnapshot(id: string) returns (o: Outcome)
      requires Safe()
      modifies this`disk, this`blobs, this`snapshots, this`refs, this`created, this`faults
      ensures Safe()
      ensures id !in old(snapshots) ==> !o.Done?
      ensures snapshots == old(snapshots) || snapshots == old(snapshots) - {id}
      ensures o.Done? ==> snapshots == old(snapshots) - {id}
      ensures created == old(created) * snapshots.Keys
      // only rows that no manifest mentions go, and only their files
      ensures OnlyOrphansGone(old(disk), old(blobs), disk, blobs, Unreferenced(old(blobs), refs))
      // a sweep in which nothing fails leaves nothing unreferenced
      ensures o.Done? ==> forall h :: h in blobs ==> Referenced(refs, h)
      ensures o.Done? ==> forall h :: h in old(blobs) && h !in blobs ==> !disk.Has(old(blobs)[h].path)
      ensures faults >= old(faults) && (o.Failed? && id in old(snapshots) ==> faults > old(faults))
    {
      if * {
        faults := faults + 1;
        return Failed;
      }
      if id !in snapshots {
        return Failed;
      }
      if * {
        return Crashed;
      }
      var rows := set r | r in refs && r.0 != id;
      assert RefsExact(snapshots - {id}, rows);
      snapshots, refs, created := snapshots - {id}, rows, created - {id};
      var orphans := Unreferenced(blobs, refs);
      o := SweepOrphans(orphans);
      SweepKeepsNeeded(old(disk), old(blobs), disk, blobs, orphans, snapshots, refs, created);
    }
  }

  function Unreferenced(blobs: map<Hash, BlobRow>, refs: set<(string, Hash)>): set<Hash> {
    set h | h in blobs && !Referenced(refs, h)
  }

  /** Between the two states only rows of `orphans` and files at their paths were lost. */
  ghost predicate OnlyOrphansGone(d0: Disk, blobs0: map<Hash, BlobRow>, d: Disk, blobs: map<Hash, BlobRow>,
                                  orphans: set<Hash>) {
    && d.alias == d0.alias && d.data == d0.data
    && (forall h :: h in blobs ==> h in blobs0 && blobs[h] == blobs0[h])
    && (forall h :: h in blobs0 && h !in blobs ==> h in orphans)
    && (forall l :: l in d.links ==> l in d0.links && d.links[l] == d0.links[l])
    && (forall l :: l in d0.links && l !in d.links ==>
          && l.name.BlobName? && l.name.hash in orphans && l.name.hash in blobs0
          && l == d0.At(blobs0[l.name.hash].path))
  }

  lemma OneMoreOrphanGone(d0: Disk, blobs0: map<Hash, BlobRow>, d: Disk, blobs: map<Hash, BlobRow>,
                          d': Disk, blobs': map<Hash, BlobRow>, done: set<Hash>, h: Hash)
    requires OnlyOrphansGone(d0, blobs0, d, blobs, done)
    requires h in blobs0 && blobs0[h].path.name == BlobName(h)
    requires d' == d || d' == d.Unlink(blobs0[h].path)
    requires blobs' == blobs || blobs' == blobs - {h}
    ensures OnlyOrphansGone(d0, blobs0, d', blobs', done + {h})
  {
    assert d0.At(blobs0[h].path) == d.At(blobs0[h].path);
    assert d0.At(blobs0[h].path).name == BlobName(h);
  }

  lemma SweepKeepsNeeded(d0: Disk, blobs0: map<Hash, BlobRow>, d: Disk, blobs: map<Hash, BlobRow>, orphans: set<Hash>,
                         snapshots: map<string, Snapshot>, refs: set<(string, Hash)>, created: set<string>)
    requires BlobsNamed(blobs0) && RefsExact(snapshots, refs)
    requires orphans == Unreferenced(blobs0, refs)
    requires OnlyOrphansGone(d0, blobs0, d, blobs, orphans)
    requires AllPresent(d0, blobs0, Needed(snapshots, created))
    ensures AllPresent(d, blobs, Needed(snapshots, created))
  {
    forall h | h in Needed(snapshots, created)
      ensures h in blobs && d.Has(blobs[h].path)
    {
      var id :| id in created && id in snapshots && h in HashesOf(snapshots[id]);
      assert (id, h) in refs;
      assert d0.At(blobs0[h].path).name == BlobName(h);
    }
  }
}
