/**
 Fetching the blobs of an imported snapshot into the local store.
 */
module Download {
  import opened Files
  import opened Snapshots
  import opened BlobStore
  import opened Artifacts
  import opened Capture

  /** The hash is indexed at a file that verifies. */
  predicate Held(codec: Codec, d: Disk, blobs: map<Hash, BlobRow>, h: Hash, size: nat)
    requires d.Valid()
  {
    h in blobs && d.Verified(codec, blobs[h].path, h, size)
  }

  /** The body that verifies under the promised size shows that size right, and so would a present file. */
  lemma PresentIsHeld(codec: Codec, d: Disk, blobs: map<Hash, BlobRow>, h: Hash, size: nat, body: Bytes)
    requires codec.CollisionFree() && d.Valid() && Trusted(codec, d) && BlobsNamed(blobs)
    requires codec.Verifies(body, h, size)
    requires h in blobs && d.Has(blobs[h].path)
    ensures Held(codec, d, blobs, h, size)
  {
    var stored := d.Read(blobs[h].path);
    assert d.At(blobs[h].path).name == BlobName(h);
    assert codec.sha(codec.unpack(stored).value) == codec.sha(codec.unpack(body).value);
  }

  /** Blob files of other hashes are as they were. */
  ghost predicate OthersKept(d0: Disk, d: Disk, h: Hash) {
    && d.alias == d0.alias && d0.data <= d.data
    && forall l :: l in d0.links && l.name.BlobName? && l.name.hash != h ==> l in d.links && d.links[l] == d0.links[l]
  }

  lemma OthersKeptPresent(d0: Disk, d: Disk, blobs: map<Hash, BlobRow>, h: Hash, needed: set<Hash>)
    requires OthersKept(d0, d, h) && BlobsNamed(blobs) && AllPresent(d0, blobs, needed) && h !in needed
    ensures AllPresent(d, blobs, needed)
  {
    forall g | g in needed
      ensures d.Has(blobs[g].path)
    {
      assert d0.At(blobs[g].path).name == BlobName(g);
    }
  }

  lemma OthersKeptTwice(d0: Disk, d1: Disk, d2: Disk, h: Hash)
    requires OthersKept(d0, d1, h) && OthersKept(d1, d2, h)
    ensures OthersKept(d0, d2, h)
  {
  }

  lemma TemporaryGoes(d: Disk, temporary: Path, h: Hash)
    requires temporary.name.TempName?
    ensures OthersKept(d, d, h) && OthersKept(d, d.Unlink(temporary), h)
  {
  }

  /** Setting a blob file aside, or putting a verified one in its place, keeps every name's promise. */
  lemma SetAsideAndReplace(codec: Codec, d: Disk, h: Hash, root: Dir, temporary: Path, size: nat, stamp: Id)
    requires d.Valid() && Trusted(codec, d)
    requires temporary.name.TempName? && d.Verified(codec, temporary, h, size)
    ensures var placed := d.Move(temporary, BlobPath(root, h));
            placed.Valid() && Trusted(codec, placed) && OthersKept(d, placed, h) && placed.Verified(codec, BlobPath(root, h), h, size)
    ensures d.Has(BlobPath(root, h)) ==>
              var aside := d.Move(BlobPath(root, h), Path(BlobPath(root, h).dir, SetAsideName(h, stamp)));
              aside.Valid() && Trusted(codec, aside) && OthersKept(d, aside, h) && aside.Verified(codec, temporary, h, size)
  {
  }

  /** The file that was at `p` has a set-aside name beside it. */
  ghost predicate IsSetAside(d0: Disk, d: Disk, p: Path, h: Hash) {
    exists stamp :: d.SameLink(d0, Path(p.dir, SetAsideName(h, stamp)), p)
  }

  lemma SetAsideStays(d: Disk, temporary: Path, h: Hash, p: Path, stamp: Id)
    requires d.Has(p) && d.Has(temporary) && p.name == BlobName(h) && temporary.name.TempName?
    ensures var aside := d.Move(p, Path(p.dir, SetAsideName(h, stamp)));
            aside.Has(temporary) && IsSetAside(d, aside.Move(temporary, p), p, h)
  {
    var to := Path(p.dir, SetAsideName(h, stamp));
    var aside := d.Move(p, to);
    assert aside.Move(temporary, p).SameLink(d, to, p);
  }

  /** Puts a verified download under its final name, setting aside what is there, and indexes it. */
  method InstallDownload(s: Store, h: Hash, size: nat, root: Dir, temporary: Path)
    returns (o: Outcome)
    requires s.Valid() && temporary.name.TempName? && s.disk.Verified(s.codec, temporary, h, size)
    modifies s`disk, s`blobs, s`history, s`faults
    ensures s.Valid() && OthersKept(old(s.disk), s.disk, h)
    ensures s.blobs == old(s.blobs) || (h in s.blobs && s.blobs == old(s.blobs)[h := s.blobs[h]])
    ensures o.Done? ==> Held(s.codec, s.disk, s.blobs, h, size)
    ensures s.blobs == old(s.blobs) || Indexed(old(s.blobs), s.blobs, StoredBlob(h, BlobPath(root, h), size))
    // what was in the way is set aside, not lost
    ensures o.Done? && old(s.disk).Has(BlobPath(root, h)) ==> IsSetAside(old(s.disk), s.disk, BlobPath(root, h), h)
    ensures s.faults >= old(s.faults) && (o.Failed? ==> s.faults > old(s.faults))
  {
    VerifiedShowsSize(s.codec, s.disk, temporary, h, size);
    IndexingKeeps(s.codec, s.blobs, s.pending, s.artifacts, h, RowFor(s.blobs, h, BlobPath(root, h), size));
    hide RefsExact, JournalNamed, Trusted, OthersKept, Disk.Verified, Disk.Valid, TrueSize, BlobsNamed, SizesTrue, Canonical, IsSetAside;
    var destination := BlobPath(root, h);
    var stamp: Id := *;
    ghost var d := s.disk;
    SetAsideAndReplace(s.codec, d, h, root, temporary, size, stamp);
    TemporaryGoes(d, temporary, h);
    if s.disk.Has(destination) {
      if * {
        s.faults := s.faults + 1;
        var _ := RemoveTemporary(s, temporary);
        return Failed;
      }
      VerifiedIsThere(s.codec, d, temporary, h, size);
      SetAsideStays(d, temporary, h, destination, stamp);
      s.disk := s.disk.Move(destination, Path(destination.dir, SetAsideName(h, stamp)));
      if * {
        return Crashed;
      }
    }
    ghost var d1 := s.disk;
    SetAsideAndReplace(s.codec, d1, h, root, temporary, size, stamp);
    TemporaryGoes(d1, temporary, h);
    OthersKeptTwice(d, d1, d1.Unlink(temporary), h);
    VerifiedIsThere(s.codec, d1, temporary, h, size);
    OthersKeptTwice(d, d1, d1.Move(temporary, destination), h);
    if * {
      s.faults := s.faults + 1;
      var _ := RemoveTemporary(s, temporary);
      return Failed;
    }
    s.disk := s.disk.Move(temporary, destination);
    if * {
      return Crashed;
    }
    o := s.SaveBlob(h, destination, size);
  }

  /** One file that verifies shows the size of its hash. */
  lemma VerifiedShowsSize(codec: Codec, d: Disk, p: Path, h: Hash, size: nat)
    requires d.Valid() && d.Verified(codec, p, h, size)
    ensures TrueSize(codec, h, size)
  {
    ContentShowsSize(codec, codec.unpack(d.Read(p)).value);
  }

  lemma VerifiedIsThere(codec: Codec, d: Disk, p: Path, h: Hash, size: nat)
    requires d.Valid() && d.Verified(codec, p, h, size)
    ensures d.Has(p)
  {
  }

  /**
   Downloads one blob unless a file that verifies is indexed.  `body` is what
   the remote store answers, if anything; `refused` tells that it is no good.
   */
  method EnsureLocalBlob(s: Store, h: Hash, size: nat, root: Dir, body: Option<Bytes>, ghost needed: set<Hash>)
    returns (o: Outcome, refused: bool)
    requires s.Valid() && s.codec.CollisionFree() && AllPresent(s.disk, s.blobs, needed)
    modifies s`disk, s`blobs, s`history, s`faults
    ensures s.Valid() && AllPresent(s.disk, s.blobs, needed)
    ensures refused ==> o.Failed? && (body.None? || !s.codec.Verifies(body.value, h, size))
    ensures OthersKept(old(s.disk), s.disk, h)
    ensures s.blobs == old(s.blobs) || (h in s.blobs && s.blobs == old(s.blobs)[h := s.blobs[h]])
    ensures o.Done? ==> Held(s.codec, s.disk, s.blobs, h, size)
    ensures s.faults >= old(s.faults) && (o.Failed? && !refused ==> s.faults > old(s.faults))
  {
    hide RefsExact, JournalNamed, BlobsNamed, AllPresent, Codec.CollisionFree, Canonical, SizesTrue, Indexed;
    refused := false;
    if Held(s.codec, s.disk, s.blobs, h, size) {
      return Done, false;
    }
    if body.None? {
      return Failed, true;
    }
    var id: Id := *;
    var temporary := TempPath(root, id);
    if s.disk.Has(temporary) {
      // no new name was found
      s.faults := s.faults + 1;
      return Failed, false;
    }
    ghost var d0, b0 := s.disk, s.blobs;
    BlobFilesKeepPresent(d0, d0.Put(temporary, body.value), b0, needed);
    s.disk := s.disk.Put(temporary, body.value);
    if * {
      return Crashed, false;
    }
    if !s.codec.Verifies(body.value, h, size) {
      ghost var d1 := s.disk;
      var _ := RemoveTemporary(s, temporary);
      BlobFilesKeepPresent(d1, s.disk, b0, needed);
      return Failed, true;
    }
    if h in needed {
      NeededIsPresent(d0, b0, needed, h);
      PresentIsHeld(s.codec, d0, b0, h, size, body.value);
    }
    ghost var d1 := s.disk;
    o := InstallDownload(s, h, size, root, temporary);
    OthersKeptPresent(d1, s.disk, b0, h, needed);
    PresentElsewhere(s.disk, b0, s.blobs, h, needed);
  }

  lemma NeededIsPresent(d: Disk, blobs: map<Hash, BlobRow>, needed: set<Hash>, h: Hash)
    requires AllPresent(d, blobs, needed) && h in needed
    ensures h in blobs && d.Has(blobs[h].path)
  {
  }

  lemma PresentElsewhere(d: Disk, blobs: map<Hash, BlobRow>, blobs': map<Hash, BlobRow>, h: Hash, needed: set<Hash>)
    requires AllPresent(d, blobs, needed) && h !in needed
    requires blobs' == blobs || (h in blobs' && blobs' == blobs[h := blobs'[h]])
    ensures AllPresent(d, blobs', needed)
  {
  }

  /** Some entry of the manifest gives the hash this size. */
  ghost predicate Listed(sn: Snapshot, h: Hash, size: nat) {
    || (exists f :: f in sn.files && f.hash == h && f.size == size)
    || (sn.registry.Some? && sn.registry.value.hash == h && sn.registry.value.size == size)
  }

  /** The hash is held under a size that the manifest lists. */
  ghost predicate HeldAsListed(codec: Codec, d: Disk, blobs: map<Hash, BlobRow>, sn: Snapshot, h: Hash)
    requires d.Valid()
  {
    exists size :: Listed(sn, h, size) && Held(codec, d, blobs, h, size)
  }

  method OriginalSizes(sn: Snapshot) returns (sizes: map<Hash, nat>)
    ensures sizes.Keys == HashesOf(sn)
    ensures forall h :: h in sizes ==> Listed(sn, h, sizes[h])
  {
    sizes := map[];
    for i := 0 to |sn.files|
      invariant forall h :: h in sizes <==> exists j :: 0 <= j < i && sn.files[j].hash == h
      invariant forall h :: h in sizes ==> Listed(sn, h, sizes[h])
    {
      assert sn.files[i] in sn.files;
      sizes := sizes[sn.files[i].hash := sn.files[i].size];
    }
    if sn.registry.Some? {
      sizes := sizes[sn.registry.value.hash := sn.registry.value.size];
    }
  }

  /** A blob that was held stays held while another one is fetched. */
  lemma HeldKept(codec: Codec, d0: Disk, d: Disk, b0: map<Hash, BlobRow>, b: map<Hash, BlobRow>, h: Hash, g: Hash, size: nat)
    requires d0.Valid() && d.Valid() && BlobsNamed(b0) && OthersKept(d0, d, h) && g != h
    requires b == b0 || (h in b && b == b0[h := b[h]])
    requires Held(codec, d0, b0, g, size)
    ensures Held(codec, d, b, g, size)
  {
    assert d0.At(b0[g].path).name == BlobName(g);
  }

  /** A blob that the manifest lists is not in the remote store, or does not verify. */
  ghost predicate Lacking(codec: Codec, sn: Snapshot, remote: map<Hash, Bytes>) {
    exists h, size :: Listed(sn, h, size) && (h !in remote || !codec.Verifies(remote[h], h, size))
  }

  /** Makes every blob of the manifest available, fetching what is missing or damaged. */
  method EnsureLocal(s: Store, sn: Snapshot, root: Dir, remote: map<Hash, Bytes>, ghost needed: set<Hash>)
    returns (o: Outcome, refused: bool)
    requires s.Valid() && s.codec.CollisionFree() && AllPresent(s.disk, s.blobs, needed)
    modifies s`disk, s`blobs, s`history, s`faults
    ensures s.Valid() && AllPresent(s.disk, s.blobs, needed)
    ensures refused ==> o.Failed? && Lacking(s.codec, sn, remote)
    ensures o.Done? ==> forall h :: h in HashesOf(sn) ==> HeldAsListed(s.codec, s.disk, s.blobs, sn, h)
    // without a refusal only a failed operation prevents it
    ensures s.faults >= old(s.faults) && (o.Failed? && !refused ==> s.faults > old(s.faults))
  {
    hide RefsExact, JournalNamed, Trusted, AllPresent, Codec.CollisionFree, Held, OthersKept, Canonical, SizesTrue;
    refused := false;
    var sizes := OriginalSizes(sn);
    var todo := sizes.Keys;
    while todo != {}
      invariant s.Valid() && AllPresent(s.disk, s.blobs, needed) && todo <= sizes.Keys && !refused && s.faults >= old(s.faults)
      invariant forall h :: h in sizes && h !in todo ==> Held(s.codec, s.disk, s.blobs, h, sizes[h])
      decreases todo
    {
      var h :| h in todo;
      todo := todo - {h};
      ghost var d0, b0 := s.disk, s.blobs;
      o, refused := EnsureLocalBlob(s, h, sizes[h], root, if h in remote then Some(remote[h]) else None, needed);
      if !o.Done? {
        assert Listed(sn, h, sizes[h]);
        return;
      }
      forall g | g in sizes && g !in todo
        ensures Held(s.codec, s.disk, s.blobs, g, sizes[g])
      {
        if g != h {
          HeldKept(s.codec, d0, s.disk, b0, s.blobs, h, g, sizes[g]);
        }
      }
    }
    o := Done;
  }

  /** Says no only when every blob of the manifest is held, and yes only when some entry is not. */
  method NeedsDownload(s: Store, sn: Snapshot) returns (needs: bool)
    requires s.Valid()
    ensures !needs ==> forall h :: h in HashesOf(sn) ==> HeldAsListed(s.codec, s.disk, s.blobs, sn, h)
    ensures needs ==> exists h, size :: Listed(sn, h, size) && !Held(s.codec, s.disk, s.blobs, h, size)
  {
    needs := false;
    var seen: set<Hash> := {};
    for i := 0 to |sn.files|
      invariant seen == set j | 0 <= j < i :: sn.files[j].hash
      invariant !needs ==> forall h :: h in seen ==> HeldAsListed(s.codec, s.disk, s.blobs, sn, h)
      invariant needs ==> exists h, size :: Listed(sn, h, size) && !Held(s.codec, s.disk, s.blobs, h, size)
    {
      var f := sn.files[i];
      if f.hash !in seen {
        seen := seen + {f.hash};
        assert f in sn.files && Listed(sn, f.hash, f.size);
        if !Held(s.codec, s.disk, s.blobs, f.hash, f.size) {
          needs := true;
        }
      }
    }
    assert seen == set f | f in sn.files :: f.hash;
    if sn.registry.Some? {
      var r := sn.registry.value;
      assert Listed(sn, r.hash, r.size);
      if !Held(s.codec, s.disk, s.blobs, r.hash, r.size) {
        needs := true;
      }
    }
  }
}
